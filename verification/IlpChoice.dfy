/** The 0/1 program is the plain problem it stands for: choose a tier for each group, at the least overhead
    within the budget. */
module IlpChoice {
  import opened Ilp

  /** A tier for each group. */
  ghost predicate IsChoice(p: Problem, c: seq<nat>) {
    |c| == |p.hot| && forall g :: 0 <= g < |c| ==> c[g] < |p.units|
  }

  /** What the first n groups pay in the chosen tiers. */
  ghost function CostOf(p: Problem, c: seq<nat>, n: nat): real
    requires ValidProblem(p) && IsChoice(p, c) && n <= |c|
  {
    if n == 0 then 0.0 else CostOf(p, c, n - 1) + p.units[c[n - 1]]
  }

  /** What they lose there: hotness times latency. */
  ghost function LossOf(p: Problem, c: seq<nat>, n: nat): nat
    requires ValidProblem(p) && IsChoice(p, c) && n <= |c|
  {
    if n == 0 then 0 else LossOf(p, c, n - 1) + p.hot[n - 1] * p.lats[c[n - 1]]
  }

  function ChoiceOf(x: Placement): (c: seq<nat>)
    ensures |c| == |x| && forall g :: 0 <= g < |c| ==> c[g] == TierOf(x, g)
  {
    seq(|x|, g requires 0 <= g < |x| => TierOf(x, g))
  }

  function RowsOf(c: seq<nat>, tiers: nat): (x: Placement)
    requires forall g :: 0 <= g < |c| ==> c[g] < tiers
    ensures |x| == |c| && forall g :: 0 <= g < |c| ==> x[g] == Pick(tiers, c[g])
  {
    seq(|c|, g requires 0 <= g < |c| && c[g] < tiers => Pick(tiers, c[g]))
  }

  lemma {:induction false} SumsOfChoice(p: Problem, x: Placement, n: nat)
    requires ValidProblem(p) && Placed(p, x) && n <= |x|
    ensures IsChoice(p, ChoiceOf(x))
    ensures CostUpTo(p, x, n) == CostOf(p, ChoiceOf(x), n)
    ensures ObjectiveUpTo(p, x, n) == LossOf(p, ChoiceOf(x), n) as real
  {
    forall g | 0 <= g < |x| ensures TierOf(x, g) < |p.units| { RowTerms(p, x, g); }
    if n > 0 {
      SumsOfChoice(p, x, n - 1);
      RowTerms(p, x, n - 1);
    }
  }

  /** A placement costs and loses what its tiers do. */
  lemma PlacementIsItsChoice(p: Problem, x: Placement)
    requires ValidProblem(p) && Placed(p, x)
    ensures IsChoice(p, ChoiceOf(x))
    ensures Cost(p, x) == CostOf(p, ChoiceOf(x), |x|)
    ensures Objective(p, x) == LossOf(p, ChoiceOf(x), |x|) as real
  {
    SumsOfChoice(p, x, |x|);
  }

  /** Every choice of tiers is a placement's. */
  lemma ChoiceIsAPlacement(p: Problem, c: seq<nat>)
    requires ValidProblem(p) && IsChoice(p, c)
    ensures Placed(p, RowsOf(c, |p.units|)) && ChoiceOf(RowsOf(c, |p.units|)) == c
  {
    var x := RowsOf(c, |p.units|);
    forall g | 0 <= g < |c| ensures |x[g]| == |p.units| && OneHot(x[g]) && TierOf(x, g) == c[g] {
      PickIsOneHot(|p.units|, c[g]);
    }
  }

  /** The choice is within the budget, and no other one within it loses less. */
  ghost predicate IsBest(p: Problem, c: seq<nat>)
    requires ValidProblem(p)
  {
    && IsChoice(p, c) && CostOf(p, c, |c|) <= p.limit as real
    && forall d :: IsChoice(p, d) && CostOf(p, d, |d|) <= p.limit as real ==> LossOf(p, c, |c|) <= LossOf(p, d, |d|)
  }

  /** The program's optima are exactly the best choices of tiers. */
  lemma OptimalExactly(p: Problem, x: Placement)
    requires ValidProblem(p)
    ensures Optimal(p, x) <==> Placed(p, x) && IsBest(p, ChoiceOf(x))
  {
    if Placed(p, x) {
      PlacementIsItsChoice(p, x);
      if Optimal(p, x) { OptimalIsBest(p, x); }
      if IsBest(p, ChoiceOf(x)) { BestIsOptimal(p, x); }
    }
  }

  lemma OptimalIsBest(p: Problem, x: Placement)
    requires ValidProblem(p) && Optimal(p, x)
    ensures IsBest(p, ChoiceOf(x))
  {
    PlacementIsItsChoice(p, x);
    forall d | IsChoice(p, d) && CostOf(p, d, |d|) <= p.limit as real
      ensures LossOf(p, ChoiceOf(x), |x|) <= LossOf(p, d, |d|)
    {
      var y := RowsOf(d, |p.units|);
      ChoiceIsAPlacement(p, d);
      PlacementIsItsChoice(p, y);
      assert Feasible(p, y);
    }
  }

  lemma BestIsOptimal(p: Problem, x: Placement)
    requires ValidProblem(p) && Placed(p, x) && IsBest(p, ChoiceOf(x))
    ensures Optimal(p, x)
  {
    PlacementIsItsChoice(p, x);
    forall y | Feasible(p, y) ensures Objective(p, x) <= Objective(p, y) {
      PlacementIsItsChoice(p, y);
    }
  }
}
