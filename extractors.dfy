/**
 * The two provider extractors. Each walks a page's vacancy list and appends
 * an estimate for every vacancy that passes its provider's filter. A pure
 * function gives the estimate one vacancy contributes (None when it is
 * skipped); the list-level specification keeps the present ones in order,
 * and the loop methods are proved equal to it.
 */
module Extractors {
  import opened Records
  import opened Salary

  /** The present values of a sequence of optional estimates, in their order. */
  function Present(xs: seq<Option<nat>>): (r: seq<nat>)
    ensures |r| <= |xs|
    ensures forall x :: x in r <==> Some(x) in xs
  {
    if xs == [] then []
    else
      var last := xs[|xs| - 1];
      assert xs == xs[..|xs| - 1] + [last];
      Present(xs[..|xs| - 1]) + (if last.Some? then [last.value] else [])
  }

  lemma {:induction false} PresentConcat(a: seq<Option<nat>>, b: seq<Option<nat>>)
    ensures Present(a + b) == Present(a) + Present(b)
  {
    if b != [] {
      assert (a + b)[..|a + b| - 1] == a + b[..|b| - 1];
      PresentConcat(a, b[..|b| - 1]);
    } else {
      assert a + b == a;
    }
  }

  // ---------------------------------------------------------------- HeadHunter

  /**
   * The estimate one HeadHunter vacancy contributes: it needs a salary
   * sub-record in "RUR", and a falsy estimate (None or 0) is dropped too, so
   * a lone upper bound of 1, estimated at 0, contributes nothing.
   */
  function HhEstimate(v: HhVacancy): (r: Option<nat>)
    ensures r.Some? <==>
              && v.salary.Some?
              && v.salary.value.currency == Some("RUR")
              && (Truthy(v.salary.value.salaryFrom) ||
                  (v.salary.value.salaryTo.Some? && v.salary.value.salaryTo.value >= 2))
    ensures r.Some? ==> r.value > 0 && r == PredictSalary(v.salary.value.salaryFrom, v.salary.value.salaryTo)
  {
    match v.salary
    case None => None
    case Some(s) =>
      if s.currency == Some("RUR") then
        TruthyEstimateIff(s.salaryFrom, s.salaryTo);
        var predicted := PredictSalary(s.salaryFrom, s.salaryTo);
        if Truthy(predicted) then predicted else None
      else
        None
  }

  function HhEstimates(vacancies: seq<HhVacancy>): seq<Option<nat>> {
    seq(|vacancies|, i requires 0 <= i < |vacancies| => HhEstimate(vacancies[i]))
  }

  /** What `predict_rub_salary_hh` returns: the contributions of the vacancies, in order. */
  function HhSalaries(vacancies: seq<HhVacancy>): (r: seq<nat>)
    ensures |r| <= |vacancies|
    ensures forall x :: x in r ==> x > 0
    ensures forall x :: x in r <==> exists i :: 0 <= i < |vacancies| && HhEstimate(vacancies[i]) == Some(x)
  {
    var estimates := HhEstimates(vacancies);
    assert forall i :: 0 <= i < |vacancies| ==> estimates[i] == HhEstimate(vacancies[i]);
    assert forall x :: Some(x) in estimates ==> exists i :: 0 <= i < |vacancies| && HhEstimate(vacancies[i]) == Some(x);
    Present(estimates)
  }

  /** `predict_rub_salary_hh`: the loop that appends to the local `salaries` list. */
  method PredictRubSalaryHh(vacancies: seq<HhVacancy>) returns (salaries: seq<nat>)
    ensures salaries == HhSalaries(vacancies)
  {
    salaries := [];
    for i := 0 to |vacancies|
      invariant salaries == Present(HhEstimates(vacancies[..i]))
    {
      assert HhEstimates(vacancies[..i + 1]) == HhEstimates(vacancies[..i]) + [HhEstimate(vacancies[i])];
      var vacancySalary := vacancies[i].salary;
      if vacancySalary.Some? && vacancySalary.value.currency == Some("RUR") {
        var predictedSalary := PredictSalary(vacancySalary.value.salaryFrom, vacancySalary.value.salaryTo);
        if Truthy(predictedSalary) {
          salaries := salaries + [predictedSalary.value];
        }
      }
    }
    assert vacancies[..|vacancies|] == vacancies;
  }

  /** Extraction distributes over concatenation, so the output keeps the input's order. */
  lemma HhSalariesConcat(a: seq<HhVacancy>, b: seq<HhVacancy>)
    ensures HhSalaries(a + b) == HhSalaries(a) + HhSalaries(b)
  {
    assert HhEstimates(a + b) == HhEstimates(a) + HhEstimates(b);
    PresentConcat(HhEstimates(a), HhEstimates(b));
  }

  /** A vacancy that contributes nothing can be removed without changing the output. */
  lemma HhSkippedVacancyIrrelevant(a: seq<HhVacancy>, v: HhVacancy, b: seq<HhVacancy>)
    requires HhEstimate(v) == None
    ensures HhSalaries(a + [v] + b) == HhSalaries(a + b)
  {
    HhSalariesConcat(a + [v], b);
    HhSalariesConcat(a, [v]);
    HhSalariesConcat(a, b);
    assert HhEstimates([v]) == [None];
  }

  /** Worked cases: another currency, a missing salary and a zero estimate all contribute nothing. */
  lemma HhExamples()
    ensures HhSalaries([HhVacancy(Some(HhSalary(Some(100), Some(200), Some("USD"))))]) == []
    ensures HhSalaries([HhVacancy(None)]) == []
    ensures HhSalaries([HhVacancy(Some(HhSalary(None, Some(1), Some("RUR"))))]) == []
    ensures HhSalaries([HhVacancy(Some(HhSalary(Some(100), Some(200), Some("RUR"))))]) == [150]
  {
  }

  // ------------------------------------------------------------------ SuperJob

  /**
   * The estimate one SuperJob vacancy contributes: it needs a truthy
   * `payment_from` or `payment_to` and currency "rub". That guard makes the
   * estimate present, and a zero estimate is kept.
   */
  function SjEstimate(v: SjVacancy): (r: Option<nat>)
    ensures r.Some? <==> (Truthy(v.paymentFrom) || Truthy(v.paymentTo)) && v.currency == Some("rub")
    ensures r.Some? ==> r == PredictSalary(v.paymentFrom, v.paymentTo)
  {
    if (Truthy(v.paymentFrom) || Truthy(v.paymentTo)) && v.currency == Some("rub") then
      Some(PredictSalary(v.paymentFrom, v.paymentTo).value)
    else
      None
  }

  function SjEstimates(vacancies: seq<SjVacancy>): seq<Option<nat>> {
    seq(|vacancies|, i requires 0 <= i < |vacancies| => SjEstimate(vacancies[i]))
  }

  /** What `predict_rub_salary_sj` returns: the contributions of the vacancies, in order. */
  function SjSalaries(vacancies: seq<SjVacancy>): (r: seq<nat>)
    ensures |r| <= |vacancies|
    ensures forall x :: x in r <==> exists i :: 0 <= i < |vacancies| && SjEstimate(vacancies[i]) == Some(x)
  {
    var estimates := SjEstimates(vacancies);
    assert forall i :: 0 <= i < |vacancies| ==> estimates[i] == SjEstimate(vacancies[i]);
    assert forall x :: Some(x) in estimates ==> exists i :: 0 <= i < |vacancies| && SjEstimate(vacancies[i]) == Some(x);
    Present(estimates)
  }

  /** `predict_rub_salary_sj`: the loop that appends to the local `salaries` list. */
  method PredictRubSalarySj(vacancies: seq<SjVacancy>) returns (salaries: seq<nat>)
    ensures salaries == SjSalaries(vacancies)
  {
    salaries := [];
    for i := 0 to |vacancies|
      invariant salaries == Present(SjEstimates(vacancies[..i]))
    {
      assert SjEstimates(vacancies[..i + 1]) == SjEstimates(vacancies[..i]) + [SjEstimate(vacancies[i])];
      var vacancy := vacancies[i];
      if (Truthy(vacancy.paymentFrom) || Truthy(vacancy.paymentTo)) && vacancy.currency == Some("rub") {
        // the guard makes the estimate present: None is never appended
        salaries := salaries + [PredictSalary(vacancy.paymentFrom, vacancy.paymentTo).value];
      }
    }
    assert vacancies[..|vacancies|] == vacancies;
  }

  /** Extraction distributes over concatenation, so the output keeps the input's order. */
  lemma SjSalariesConcat(a: seq<SjVacancy>, b: seq<SjVacancy>)
    ensures SjSalaries(a + b) == SjSalaries(a) + SjSalaries(b)
  {
    assert SjEstimates(a + b) == SjEstimates(a) + SjEstimates(b);
    PresentConcat(SjEstimates(a), SjEstimates(b));
  }

  /** A vacancy that contributes nothing can be removed without changing the output. */
  lemma SjSkippedVacancyIrrelevant(a: seq<SjVacancy>, v: SjVacancy, b: seq<SjVacancy>)
    requires SjEstimate(v) == None
    ensures SjSalaries(a + [v] + b) == SjSalaries(a + b)
  {
    SjSalariesConcat(a + [v], b);
    SjSalariesConcat(a, [v]);
    SjSalariesConcat(a, b);
    assert SjEstimates([v]) == [None];
  }

  /** Worked cases: a zero `payment_from` alone is skipped, a lone `payment_to` of 1 appends 0. */
  lemma SjExamples()
    ensures SjSalaries([SjVacancy(Some(0), None, Some("rub"))]) == []
    ensures SjSalaries([SjVacancy(None, Some(1), Some("rub"))]) == [0]
    ensures SjSalaries([SjVacancy(Some(100), Some(200), None)]) == []
    ensures SjSalaries([SjVacancy(Some(100), None, Some("rub"))]) == [120]
  {
  }

  /**
   * For the same bounds in the target currency the two extractors agree,
   * except that HeadHunter drops a zero estimate which SuperJob keeps.
   */
  lemma ExtractorsDifferOnlyOnZero(salaryFrom: Option<nat>, salaryTo: Option<nat>)
    ensures var hh := HhEstimate(HhVacancy(Some(HhSalary(salaryFrom, salaryTo, Some("RUR")))));
            var sj := SjEstimate(SjVacancy(salaryFrom, salaryTo, Some("rub")));
            hh == if sj == Some(0) then None else sj
  {
  }
}
