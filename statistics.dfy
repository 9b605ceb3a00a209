/**
 * Per-language aggregation. For each language the script folds the
 * extractor's output over the language's already-fetched pages into a sum
 * and a count, reads `vacancies_found` from the first page, skips the
 * language when the count is zero (the division raises ZeroDivisionError)
 * and otherwise writes the truncated average into the caller's table.
 */
module Statistics {
  import opened Records
  import opened Extractors

  function Sum(s: seq<nat>): nat {
    if s == [] then 0 else Sum(s[..|s| - 1]) + s[|s| - 1]
  }

  function Flatten<T>(ss: seq<seq<T>>): seq<T> {
    if ss == [] then [] else Flatten(ss[..|ss| - 1]) + ss[|ss| - 1]
  }

  lemma {:induction false} SumConcat(a: seq<nat>, b: seq<nat>)
    ensures Sum(a + b) == Sum(a) + Sum(b)
  {
    if b == [] {
      assert a + b == a;
    } else {
      assert (a + b)[..|a + b| - 1] == a + b[..|b| - 1];
      SumConcat(a, b[..|b| - 1]);
    }
  }

  /** Every estimate within [lo, hi] bounds their sum by the count times lo and hi. */
  lemma {:induction false} SumBounds(s: seq<nat>, lo: nat, hi: nat)
    requires forall i :: 0 <= i < |s| ==> lo <= s[i] <= hi
    ensures |s| * lo <= Sum(s) <= |s| * hi
  {
    if s != [] {
      var init := s[..|s| - 1];
      assert forall i :: 0 <= i < |init| ==> init[i] == s[i];
      SumBounds(init, lo, hi);
      assert |s| * lo == |init| * lo + lo;
      assert |s| * hi == |init| * hi + hi;
    }
  }

  /**
   * `int(total / count)` under `try ... except ZeroDivisionError`: None
   * when nothing was processed, otherwise the quotient truncated down.
   */
  function Average(total: nat, count: nat): (r: Option<nat>)
    ensures r.None? <==> count == 0
    ensures r.Some? ==> count * r.value <= total < count * (r.value + 1)
  {
    if count == 0 then None else Some(total / count)
  }

  /** The entry one language gets from its pooled estimates, or None when none was processed. */
  function Summary(found: int, pooled: seq<nat>): (r: Option<LanguageStats>)
    ensures r.None? <==> pooled == []
    ensures r.Some? ==>
              && r.value.vacanciesFound == found
              && r.value.vacanciesProcessed == |pooled|
              && |pooled| * r.value.averageSalary <= Sum(pooled) < |pooled| * (r.value.averageSalary + 1)
  {
    match Average(Sum(pooled), |pooled|)
    case None => None
    case Some(averageSalary) => Some(LanguageStats(found, |pooled|, averageSalary))
  }

  /** The average salary lies within the range of the estimates it averages. */
  lemma SummaryAverageInRange(found: int, pooled: seq<nat>, lo: nat, hi: nat)
    requires pooled != []
    requires forall i :: 0 <= i < |pooled| ==> lo <= pooled[i] <= hi
    ensures Summary(found, pooled).Some?
    ensures lo <= Summary(found, pooled).value.averageSalary <= hi
  {
    SumBounds(pooled, lo, hi);
  }

  /** One processed estimate of 100 gives an average of 100 from one vacancy. */
  lemma SingleEstimateSummary(found: int)
    ensures Summary(found, [100]) == Some(LanguageStats(found, 1, 100))
  {
  }

  // ---------------------------------------------------------------- HeadHunter

  function HhPageSalaries(pages: seq<HhPage>): seq<seq<nat>> {
    seq(|pages|, i requires 0 <= i < |pages| => HhSalaries(pages[i].items))
  }

  /** The estimates of all pages, page after page. */
  function HhPooled(pages: seq<HhPage>): seq<nat> {
    Flatten(HhPageSalaries(pages))
  }

  function HhAllItems(pages: seq<HhPage>): seq<HhVacancy> {
    Flatten(seq(|pages|, i requires 0 <= i < |pages| => pages[i].items))
  }

  /** Extracting page by page pools to the same list as extracting from all items at once. */
  lemma {:induction false} HhPooledIsMergedExtraction(pages: seq<HhPage>)
    ensures HhPooled(pages) == HhSalaries(HhAllItems(pages))
  {
    if pages == [] {
      assert HhAllItems(pages) == [];
      assert HhSalaries([]) == [] by { assert HhEstimates([]) == []; }
    } else {
      var init := pages[..|pages| - 1];
      HhPooledIsMergedExtraction(init);
      assert HhPageSalaries(pages)[..|pages| - 1] == HhPageSalaries(init);
      var itemSeqs := seq(|pages|, i requires 0 <= i < |pages| => pages[i].items);
      assert itemSeqs[..|pages| - 1] == seq(|init|, i requires 0 <= i < |init| => init[i].items);
      HhSalariesConcat(HhAllItems(init), pages[|pages| - 1].items);
    }
  }

  /** The fold of lines 85-90: the sum and the count of the pooled estimates. */
  method PooledTotalsHh(pages: seq<HhPage>) returns (total: nat, count: nat)
    ensures total == Sum(HhPooled(pages)) && count == |HhPooled(pages)|
  {
    total, count := 0, 0;
    for i := 0 to |pages|
      invariant total == Sum(HhPooled(pages[..i])) && count == |HhPooled(pages[..i])|
    {
      var pageSalaries := PredictRubSalaryHh(pages[i].items);
      assert HhPageSalaries(pages[..i + 1])[..i] == HhPageSalaries(pages[..i]);
      assert HhPooled(pages[..i + 1]) == HhPooled(pages[..i]) + pageSalaries;
      SumConcat(HhPooled(pages[..i]), pageSalaries);
      total := total + Sum(pageSalaries);
      count := count + |pageSalaries|;
    }
    assert pages[..|pages|] == pages;
  }

  function Max(s: seq<nat>): (m: nat)
    ensures forall i :: 0 <= i < |s| ==> s[i] <= m
  {
    if s == [] then 0 else
      var rest := Max(s[..|s| - 1]);
      assert forall i :: 0 <= i < |s| - 1 ==> s[i] == s[..|s| - 1][i];
      if s[|s| - 1] > rest then s[|s| - 1] else rest
  }

  /** Every pooled HeadHunter estimate is positive, since a zero estimate is dropped. */
  lemma {:induction false} HhPooledPositive(pages: seq<HhPage>)
    ensures forall i :: 0 <= i < |HhPooled(pages)| ==> HhPooled(pages)[i] > 0
  {
    if pages != [] {
      var init := pages[..|pages| - 1];
      HhPooledPositive(init);
      assert HhPageSalaries(pages)[..|pages| - 1] == HhPageSalaries(init);
      var last := HhSalaries(pages[|pages| - 1].items);
      assert HhPooled(pages) == HhPooled(init) + last;
      assert forall j :: 0 <= j < |last| ==> last[j] in last;
    }
  }

  /** What one language contributes to the HeadHunter table, given its fetched pages. */
  function HhLanguageStats(pages: seq<HhPage>): (r: Option<LanguageStats>)
    requires pages != []
    ensures r.None? <==> HhPooled(pages) == []
    ensures r.Some? ==>
              && r.value.vacanciesFound == pages[0].found
              && r.value.vacanciesProcessed == |HhPooled(pages)|
              && |HhPooled(pages)| * r.value.averageSalary <= Sum(HhPooled(pages))
              && Sum(HhPooled(pages)) < |HhPooled(pages)| * (r.value.averageSalary + 1)
              && r.value.averageSalary > 0
  {
    var pooled := HhPooled(pages);
    HhPooledPositive(pages);
    if pooled == [] then Summary(pages[0].found, pooled)
    else
      SummaryAverageInRange(pages[0].found, pooled, 1, Max(pooled));
      Summary(pages[0].found, pooled)
  }

  function HhResults(fetched: seq<seq<HhPage>>): seq<Option<LanguageStats>>
    requires forall i :: 0 <= i < |fetched| ==> fetched[i] != []
  {
    seq(|fetched|, i requires 0 <= i < |fetched| => HhLanguageStats(fetched[i]))
  }

  // ------------------------------------------------------------------ SuperJob

  function SjPageSalaries(pages: seq<SjPage>): seq<seq<nat>> {
    seq(|pages|, i requires 0 <= i < |pages| => SjSalaries(pages[i].objects))
  }

  /** The estimates of all pages, page after page. */
  function SjPooled(pages: seq<SjPage>): seq<nat> {
    Flatten(SjPageSalaries(pages))
  }

  function SjAllObjects(pages: seq<SjPage>): seq<SjVacancy> {
    Flatten(seq(|pages|, i requires 0 <= i < |pages| => pages[i].objects))
  }

  /** Extracting page by page pools to the same list as extracting from all objects at once. */
  lemma {:induction false} SjPooledIsMergedExtraction(pages: seq<SjPage>)
    ensures SjPooled(pages) == SjSalaries(SjAllObjects(pages))
  {
    if pages == [] {
      assert SjAllObjects(pages) == [];
      assert SjSalaries([]) == [] by { assert SjEstimates([]) == []; }
    } else {
      var init := pages[..|pages| - 1];
      SjPooledIsMergedExtraction(init);
      assert SjPageSalaries(pages)[..|pages| - 1] == SjPageSalaries(init);
      var objectSeqs := seq(|pages|, i requires 0 <= i < |pages| => pages[i].objects);
      assert objectSeqs[..|pages| - 1] == seq(|init|, i requires 0 <= i < |init| => init[i].objects);
      SjSalariesConcat(SjAllObjects(init), pages[|pages| - 1].objects);
    }
  }

  /** The fold of lines 106-111: the sum and the count of the pooled estimates. */
  method PooledTotalsSj(pages: seq<SjPage>) returns (total: nat, count: nat)
    ensures total == Sum(SjPooled(pages)) && count == |SjPooled(pages)|
  {
    total, count := 0, 0;
    for i := 0 to |pages|
      invariant total == Sum(SjPooled(pages[..i])) && count == |SjPooled(pages[..i])|
    {
      var pageSalaries := PredictRubSalarySj(pages[i].objects);
      assert SjPageSalaries(pages[..i + 1])[..i] == SjPageSalaries(pages[..i]);
      assert SjPooled(pages[..i + 1]) == SjPooled(pages[..i]) + pageSalaries;
      SumConcat(SjPooled(pages[..i]), pageSalaries);
      total := total + Sum(pageSalaries);
      count := count + |pageSalaries|;
    }
    assert pages[..|pages|] == pages;
  }

  /** What one language contributes to the SuperJob table, given its fetched pages. */
  function SjLanguageStats(pages: seq<SjPage>): (r: Option<LanguageStats>)
    requires pages != []
    ensures r.None? <==> SjPooled(pages) == []
    ensures r.Some? ==>
              && r.value.vacanciesFound == pages[0].total
              && r.value.vacanciesProcessed == |SjPooled(pages)|
              && |SjPooled(pages)| * r.value.averageSalary <= Sum(SjPooled(pages))
              && Sum(SjPooled(pages)) < |SjPooled(pages)| * (r.value.averageSalary + 1)
  {
    Summary(pages[0].total, SjPooled(pages))
  }

  function SjResults(fetched: seq<seq<SjPage>>): seq<Option<LanguageStats>>
    requires forall i :: 0 <= i < |fetched| ==> fetched[i] != []
  {
    seq(|fetched|, i requires 0 <= i < |fetched| => SjLanguageStats(fetched[i]))
  }

  // -------------------------------------------------------- the shared table

  /**
   * The table after languages[0], languages[1], ... have been processed in
   * order: a language with a result overwrites its entry, one without
   * (nothing processed) leaves the table as it was.
   */
  function Recorded(table: map<string, LanguageStats>, languages: seq<string>,
                    results: seq<Option<LanguageStats>>): map<string, LanguageStats>
    requires |languages| == |results|
  {
    if languages == [] then table
    else
      var earlier := Recorded(table, languages[..|languages| - 1], results[..|results| - 1]);
      match results[|results| - 1]
      case None => earlier
      case Some(stats) => earlier[languages[|languages| - 1] := stats]
  }

  /** A language not in the list keeps its entry, or its absence. */
  lemma {:induction false} RecordedLeavesOthers(table: map<string, LanguageStats>, languages: seq<string>,
                                                 results: seq<Option<LanguageStats>>, other: string)
    requires |languages| == |results|
    requires other !in languages
    ensures other in Recorded(table, languages, results) <==> other in table
    ensures other in table ==> Recorded(table, languages, results)[other] == table[other]
  {
    if languages != [] {
      RecordedLeavesOthers(table, languages[..|languages| - 1], results[..|results| - 1], other);
    }
  }

  /**
   * For a list without repetitions: a language with a result gets exactly
   * that entry; a language with nothing processed keeps what the table had.
   */
  lemma {:induction false} RecordedEntry(table: map<string, LanguageStats>, languages: seq<string>,
                                         results: seq<Option<LanguageStats>>, k: nat)
    requires |languages| == |results| && k < |languages|
    requires forall i, j :: 0 <= i < j < |languages| ==> languages[i] != languages[j]
    ensures var after := Recorded(table, languages, results);
            results[k].Some? ==> languages[k] in after && after[languages[k]] == results[k].value
    ensures var after := Recorded(table, languages, results);
            results[k].None? ==> (languages[k] in after <==> languages[k] in table) &&
                                 (languages[k] in table ==> after[languages[k]] == table[languages[k]])
  {
    var n := |languages|;
    if k == n - 1 {
      assert languages[k] !in languages[..n - 1];
      RecordedLeavesOthers(table, languages[..n - 1], results[..n - 1], languages[k]);
    } else {
      RecordedEntry(table, languages[..n - 1], results[..n - 1], k);
    }
  }

  /** The caller's `job_area_statistic` dictionary, which the statistics functions update in place. */
  class JobAreaStatistic {
    var entries: map<string, LanguageStats>

    constructor ()
      ensures entries == map[]
    {
      entries := map[];
    }
  }

  /** `get_statistics_hh`, each language's pages given instead of fetched. */
  method GetStatisticsHh(languages: seq<string>, fetched: seq<seq<HhPage>>, jobAreaStatistic: JobAreaStatistic)
    requires |fetched| == |languages|
    requires forall i :: 0 <= i < |fetched| ==> fetched[i] != []
    modifies jobAreaStatistic
    ensures jobAreaStatistic.entries == Recorded(old(jobAreaStatistic.entries), languages, HhResults(fetched))
  {
    for i := 0 to |languages|
      invariant jobAreaStatistic.entries ==
                Recorded(old(jobAreaStatistic.entries), languages[..i], HhResults(fetched)[..i])
    {
      assert languages[..i + 1][..i] == languages[..i];
      assert HhResults(fetched)[..i + 1][..i] == HhResults(fetched)[..i];
      var total, count := PooledTotalsHh(fetched[i]);
      var vacanciesFound := fetched[i][0].found;
      var averageSalary := Average(total, count);
      if averageSalary.Some? {
        jobAreaStatistic.entries := jobAreaStatistic.entries[languages[i] :=
          LanguageStats(vacanciesFound, count, averageSalary.value)];
      }
    }
    assert languages[..|languages|] == languages;
    assert HhResults(fetched)[..|languages|] == HhResults(fetched);
  }

  /** `get_statistics_sj`, each language's pages given instead of fetched. */
  method GetStatisticsSj(languages: seq<string>, fetched: seq<seq<SjPage>>, jobAreaStatistic: JobAreaStatistic)
    requires |fetched| == |languages|
    requires forall i :: 0 <= i < |fetched| ==> fetched[i] != []
    modifies jobAreaStatistic
    ensures jobAreaStatistic.entries == Recorded(old(jobAreaStatistic.entries), languages, SjResults(fetched))
  {
    for i := 0 to |languages|
      invariant jobAreaStatistic.entries ==
                Recorded(old(jobAreaStatistic.entries), languages[..i], SjResults(fetched)[..i])
    {
      assert languages[..i + 1][..i] == languages[..i];
      assert SjResults(fetched)[..i + 1][..i] == SjResults(fetched)[..i];
      var total, count := PooledTotalsSj(fetched[i]);
      var vacanciesFound := fetched[i][0].total;
      var averageSalary := Average(total, count);
      if averageSalary.Some? {
        jobAreaStatistic.entries := jobAreaStatistic.entries[languages[i] :=
          LanguageStats(vacanciesFound, count, averageSalary.value)];
      }
    }
    assert languages[..|languages|] == languages;
    assert SjResults(fetched)[..|languages|] == SjResults(fetched);
  }
}
