/** The placement program that skd_ilp.cpp hands to the solver: groups of regions against tiers, one
    0/1 variable for each pair. Costs are real numbers and solution values exact. */
module Ilp {

  const MULTIPLIER_FACTOR := 10
  const INIT_REGION_MB := 2
  const HOT_CEILING := 98985

  /** Group hotness, each tier's cost for one full group, each tier's latency, and the budget. */
  datatype Problem = Problem(hot: seq<nat>, units: seq<real>, lats: seq<nat>, limit: nat)

  function RawCost(cost: nat, ratio: real): (c: real)
    requires ratio >= 0.0
    ensures c >= 0.0
  {
    cost as real * ratio
  }

  /** What one full group pays for one window in a tier of this cost and compression ratio. */
  function UnitCost(cost: nat, ratio: real): (u: real)
    requires ratio >= 0.0
    ensures u >= 0.0
  {
    (INIT_REGION_MB * MULTIPLIER_FACTOR) as real * RawCost(cost, ratio)
  }

  type Placement = seq<seq<int>>

  ghost predicate ValidProblem(p: Problem) {
    && |p.units| == |p.lats| > 0
    && forall t :: 0 <= t < |p.units| ==> p.units[t] >= 0.0
  }

  function HotCoef(p: Problem, g: nat): (c: seq<real>)
    requires ValidProblem(p) && g < |p.hot|
    ensures |c| == |p.lats| && forall t :: 0 <= t < |c| ==> c[t] == (p.hot[g] * p.lats[t]) as real
  {
    seq(|p.lats|, t requires 0 <= t < |p.lats| => (p.hot[g] * p.lats[t]) as real)
  }

  // ---------- rows ----------

  function Sum(row: seq<int>): int {
    if row == [] then 0 else Sum(row[..|row| - 1]) + row[|row| - 1]
  }

  function Dot(row: seq<int>, coef: seq<real>): real
    requires |row| == |coef|
  {
    if row == [] then 0.0
    else Dot(row[..|row| - 1], coef[..|row| - 1]) + row[|row| - 1] as real * coef[|row| - 1]
  }

  ghost predicate Binary(row: seq<int>) {
    forall t :: 0 <= t < |row| ==> row[t] == 0 || row[t] == 1
  }

  /** The row constraint: the group is in exactly one tier. */
  ghost predicate OneHot(row: seq<int>) {
    Binary(row) && Sum(row) == 1
  }

  /** The first tier whose variable is one, or the number of tiers. */
  function FirstOne(row: seq<int>): (t: nat)
    ensures t <= |row|
    ensures t < |row| ==> row[t] == 1
    ensures forall k :: 0 <= k < t ==> row[k] != 1
  {
    if row == [] then 0
    else if row[0] == 1 then 0
    else 1 + FirstOne(row[1..])
  }

  lemma {:induction false} ZeroRow(row: seq<int>, coef: seq<real>)
    requires |row| == |coef| && Binary(row) && Sum(row) <= 0
    ensures Sum(row) == 0 && Dot(row, coef) == 0.0
    ensures forall t :: 0 <= t < |row| ==> row[t] == 0
  {
    if row != [] {
      var last := |row| - 1;
      SumNonNegative(row[..last]);
      ZeroRow(row[..last], coef[..last]);
    }
  }

  lemma {:induction false} SumNonNegative(row: seq<int>)
    requires Binary(row)
    ensures Sum(row) >= 0
  {
    if row != [] { SumNonNegative(row[..|row| - 1]); }
  }

  /** A one-hot row picks one tier, and any linear form over it is that tier's coefficient. */
  lemma {:induction false} OneHotPicks(row: seq<int>, coef: seq<real>)
    requires |row| == |coef| && OneHot(row)
    ensures FirstOne(row) < |row| && Dot(row, coef) == coef[FirstOne(row)]
  {
    var last := |row| - 1;
    if row[last] == 1 {
      ZeroRow(row[..last], coef[..last]);
      assert forall t :: 0 <= t < last ==> row[t] == row[..last][t] == 0;
      assert FirstOne(row) == last;
    } else {
      OneHotPicks(row[..last], coef[..last]);
      var f := FirstOne(row[..last]);
      assert row[f] == 1 && forall k :: 0 <= k < f ==> row[k] == row[..last][k] != 1;
      assert FirstOne(row) == f;
    }
  }

  /** The row that picks tier t. */
  function Pick(tiers: nat, t: nat): (row: seq<int>)
    requires t < tiers
    ensures |row| == tiers && forall k :: 0 <= k < tiers ==> row[k] == if k == t then 1 else 0
  {
    seq(tiers, k => if k == t then 1 else 0)
  }

  lemma {:induction false} PickIsOneHot(tiers: nat, t: nat)
    requires t < tiers
    ensures OneHot(Pick(tiers, t)) && FirstOne(Pick(tiers, t)) == t
  {
    var row := Pick(tiers, t);
    if t == tiers - 1 {
      var front := row[..tiers - 1];
      AllZeroSum(front);
    } else {
      PickIsOneHot(tiers - 1, t);
      assert row[..tiers - 1] == Pick(tiers - 1, t);
    }
  }

  lemma {:induction false} AllZeroSum(row: seq<int>)
    requires forall k :: 0 <= k < |row| ==> row[k] == 0
    ensures Sum(row) == 0
  {
    if row != [] { AllZeroSum(row[..|row| - 1]); }
  }

  // ---------- placements ----------

  ghost predicate Placed(p: Problem, x: Placement) {
    && |x| == |p.hot|
    && forall g :: 0 <= g < |x| ==> |x[g]| == |p.units| && OneHot(x[g])
  }

  /** The cost of the first n groups. */
  ghost function CostUpTo(p: Problem, x: Placement, n: nat): real
    requires ValidProblem(p) && Placed(p, x) && n <= |x|
  {
    if n == 0 then 0.0 else CostUpTo(p, x, n - 1) + Dot(x[n - 1], p.units)
  }

  ghost function Cost(p: Problem, x: Placement): real
    requires ValidProblem(p) && Placed(p, x)
  {
    CostUpTo(p, x, |x|)
  }

  ghost function ObjectiveUpTo(p: Problem, x: Placement, n: nat): real
    requires ValidProblem(p) && Placed(p, x) && n <= |x|
  {
    if n == 0 then 0.0 else ObjectiveUpTo(p, x, n - 1) + Dot(x[n - 1], HotCoef(p, n - 1))
  }

  /** The performance overhead that the solver minimises. */
  ghost function Objective(p: Problem, x: Placement): real
    requires ValidProblem(p) && Placed(p, x)
  {
    ObjectiveUpTo(p, x, |x|)
  }

  ghost predicate Feasible(p: Problem, x: Placement)
    requires ValidProblem(p)
  {
    Placed(p, x) && Cost(p, x) <= p.limit as real
  }

  /** The solver's promise for a result it reports as OPTIMAL. */
  ghost predicate Optimal(p: Problem, x: Placement)
    requires ValidProblem(p)
  {
    Feasible(p, x) && forall y :: Feasible(p, y) ==> Objective(p, x) <= Objective(p, y)
  }

  function TierOf(x: Placement, g: nat): nat
    requires g < |x|
  {
    FirstOne(x[g])
  }

  lemma RowTerms(p: Problem, x: Placement, g: nat)
    requires ValidProblem(p) && Placed(p, x) && g < |x|
    ensures TierOf(x, g) < |p.units|
    ensures Dot(x[g], p.units) == p.units[TierOf(x, g)]
    ensures Dot(x[g], HotCoef(p, g)) == (p.hot[g] * p.lats[TierOf(x, g)]) as real
  {
    OneHotPicks(x[g], p.units);
    OneHotPicks(x[g], HotCoef(p, g));
  }

  // ---------- the exchange argument ----------

  lemma {:induction false} ReplaceRow(p: Problem, x: Placement, i: nat, row: seq<int>, n: nat)
    requires ValidProblem(p) && Placed(p, x) && i < |x| && n <= |x|
    requires |row| == |p.units| && OneHot(row)
    ensures Placed(p, x[i := row])
    ensures CostUpTo(p, x[i := row], n)
            == CostUpTo(p, x, n) + if i < n then Dot(row, p.units) - Dot(x[i], p.units) else 0.0
    ensures ObjectiveUpTo(p, x[i := row], n)
            == ObjectiveUpTo(p, x, n) + if i < n then Dot(row, HotCoef(p, i)) - Dot(x[i], HotCoef(p, i)) else 0.0
  {
    if n > 0 { ReplaceRow(p, x, i, row, n - 1); }
  }

  /** Swapping two rows keeps the cost, because no coefficient of it depends on the group. */
  lemma SwapRows(p: Problem, x: Placement, i: nat, j: nat)
    requires ValidProblem(p) && Placed(p, x) && i < |x| && j < |x| && i != j
    ensures var z := x[i := x[j]][j := x[i]];
            && Placed(p, z) && Cost(p, z) == Cost(p, x)
            && Objective(p, z) == Objective(p, x)
               + Dot(x[j], HotCoef(p, i)) - Dot(x[i], HotCoef(p, i))
               + Dot(x[i], HotCoef(p, j)) - Dot(x[j], HotCoef(p, j))
  {
    var y := x[i := x[j]];
    ReplaceRow(p, x, i, x[j], |x|);
    ReplaceRow(p, y, j, x[i], |x|);
  }

  lemma ExchangeArithmetic(hi: nat, hj: nat, li: nat, lj: nat)
    requires hi < hj
    ensures hi * lj - hi * li + hj * li - hj * lj == (hj - hi) * (li - lj)
    ensures li < lj ==> (hj - hi) * (li - lj) < 0
  {
  }

  /** In an optimal placement a strictly hotter group is never in a slower tier: swapping the two
      groups' rows would keep the cost and lower the overhead. */
  lemma HotterIsNoSlower(p: Problem, x: Placement, i: nat, j: nat)
    requires ValidProblem(p) && Optimal(p, x) && i < |x| && j < |x|
    requires p.hot[i] < p.hot[j]
    ensures TierOf(x, i) < |p.lats| && TierOf(x, j) < |p.lats|
    ensures p.lats[TierOf(x, j)] <= p.lats[TierOf(x, i)]
  {
    SwapRows(p, x, i, j);
    RowTerms(p, x, i);
    RowTerms(p, x, j);
    OneHotPicks(x[j], HotCoef(p, i));
    OneHotPicks(x[i], HotCoef(p, j));
    var z := x[i := x[j]][j := x[i]];
    assert Feasible(p, z);
    ExchangeArithmetic(p.hot[i], p.hot[j], p.lats[TierOf(x, i)], p.lats[TierOf(x, j)]);
  }
}
