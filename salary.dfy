/**
 * The salary estimator: one integer estimate from an optional lower and
 * upper bound, by a fixed asymmetric rule. The source computes in floating
 * point and truncates with `int(...)`; here the same rule is exact integer
 * arithmetic on non-negative amounts, where truncation is the floor.
 */
module Salary {
  import opened Records

  /**
   * Both bounds truthy: their truncated mean. Only the lower one: 1.2 times
   * it. Only the upper one: 0.8 times it. Neither (missing, null or 0): no
   * estimate. Each estimate is characterised below without division, as the
   * unique integer the exact value truncates to.
   */
  function PredictSalary(salaryFrom: Option<nat>, salaryTo: Option<nat>): (r: Option<nat>)
    ensures r.Some? <==> Truthy(salaryFrom) || Truthy(salaryTo)
    ensures Truthy(salaryFrom) && Truthy(salaryTo) ==>
              r.Some? && 2 * r.value <= salaryFrom.value + salaryTo.value < 2 * r.value + 2
    ensures Truthy(salaryFrom) && !Truthy(salaryTo) ==>
              r.Some? && 10 * r.value <= 12 * salaryFrom.value < 10 * r.value + 10
    ensures !Truthy(salaryFrom) && Truthy(salaryTo) ==>
              r.Some? && 10 * r.value <= 8 * salaryTo.value < 10 * r.value + 10
  {
    if Truthy(salaryFrom) && Truthy(salaryTo) then
      Some((salaryFrom.value + salaryTo.value) / 2)
    else if Truthy(salaryFrom) then
      Some(salaryFrom.value * 12 / 10)
    else if Truthy(salaryTo) then
      Some(salaryTo.value * 8 / 10)
    else
      None
  }

  /** With both bounds given, the estimate lies between them. */
  lemma MeanWithinBounds(lo: nat, hi: nat)
    requires 0 < lo <= hi
    ensures var r := PredictSalary(Some(lo), Some(hi)); r.Some? && lo <= r.value <= hi
    ensures var r := PredictSalary(Some(hi), Some(lo)); r.Some? && lo <= r.value <= hi
  {
  }

  /** A lone lower bound is raised (by a fifth) and a lone upper bound is lowered (by a fifth). */
  lemma OneSidedEstimates(x: nat)
    requires x > 0
    ensures var r := PredictSalary(Some(x), None); r.Some? && x <= r.value && 5 * r.value <= 6 * x
    ensures var r := PredictSalary(None, Some(x)); r.Some? && r.value <= x && 5 * r.value <= 4 * x
  {
  }

  /** The only way to get a zero estimate is a lone upper bound of 1. */
  lemma ZeroEstimateIff(salaryFrom: Option<nat>, salaryTo: Option<nat>)
    ensures PredictSalary(salaryFrom, salaryTo) == Some(0) <==> !Truthy(salaryFrom) && salaryTo == Some(1)
  {
  }

  /** The estimate is truthy exactly when a lower bound is truthy or an upper bound is at least 2. */
  lemma TruthyEstimateIff(salaryFrom: Option<nat>, salaryTo: Option<nat>)
    ensures Truthy(PredictSalary(salaryFrom, salaryTo)) <==>
              Truthy(salaryFrom) || (salaryTo.Some? && salaryTo.value >= 2)
  {
  }

  /** Worked values of the rule, including the falsy zero bound. */
  lemma EstimateExamples()
    ensures PredictSalary(Some(100), Some(200)) == Some(150)
    ensures PredictSalary(Some(100), None) == Some(120)
    ensures PredictSalary(None, Some(200)) == Some(160)
    ensures PredictSalary(None, None) == None
    ensures PredictSalary(Some(0), None) == None
    ensures PredictSalary(Some(0), Some(100)) == Some(80)
    ensures PredictSalary(None, Some(1)) == Some(0)
  {
  }
}
