/** The bounds that the server reports and budgets with (utils_ilp.cpp, skd_ilp.h): how they relate
    to every placement, and when the budget leaves a placement at all. */
module IlpBounds {
  import opened Arithmetic
  import opened Counting
  import opened Ilp

  /** The element with the largest key. */
  function Best<T>(s: seq<T>, key: T -> real): (m: T)
    requires |s| > 0
    ensures m in s && forall t :: 0 <= t < |s| ==> key(s[t]) <= key(m)
  {
    if |s| == 1 then s[0]
    else
      var rest := Best(s[..|s| - 1], key);
      if key(s[|s| - 1]) > key(rest) then s[|s| - 1] else rest
  }

  function MaxReal(s: seq<real>): (m: real)
    requires |s| > 0
    ensures m in s && forall t :: 0 <= t < |s| ==> s[t] <= m
  {
    Best(s, (x: real) => x)
  }

  function MinReal(s: seq<real>): (m: real)
    requires |s| > 0
    ensures m in s && forall t :: 0 <= t < |s| ==> m <= s[t]
  {
    Best(s, (x: real) => -x)
  }

  function MaxNat(s: seq<nat>): (m: nat)
    requires |s| > 0
    ensures m in s && forall t :: 0 <= t < |s| ==> s[t] <= m
  {
    Best(s, (x: nat) => x as real)
  }

  function MinNat(s: seq<nat>): (m: nat)
    requires |s| > 0
    ensures m in s && forall t :: 0 <= t < |s| ==> m <= s[t]
  {
    Best(s, (x: nat) => -(x as real))
  }

  function MaxUnit(p: Problem): (u: real)
    requires ValidProblem(p)
    ensures u >= 0.0
  {
    MaxReal(p.units)
  }

  function MinUnit(p: Problem): (u: real)
    requires ValidProblem(p)
    ensures u >= 0.0
  {
    MinReal(p.units)
  }

  /** n equal shares added up. */
  function Repeat(u: real, n: nat): real {
    if n == 0 then 0.0 else Repeat(u, n - 1) + u
  }

  /** n equal shares added up, each cut to a whole number first. */
  function RepeatFloor(u: real, n: nat): (total: nat)
    requires u >= 0.0
  {
    if n == 0 then 0 else RepeatFloor(u, n - 1) + u.Floor
  }

  /** `get_max_TCO` and `get_min_TCO`. */
  function MaxTco(p: Problem): nat
    requires ValidProblem(p)
  {
    RepeatFloor(MaxUnit(p), |p.hot|)
  }

  function MinTco(p: Problem): nat
    requires ValidProblem(p)
  {
    RepeatFloor(MinUnit(p), |p.hot|)
  }

  /** What a setting takes of the gap between two bounds. */
  function Part(gap: real, percent: real): (part: real)
    ensures 0.0 <= gap && 0.0 <= percent ==> 0.0 <= part
    ensures 0.0 <= gap && 0.0 <= percent <= 1.0 ==> part <= gap
  {
    PartIsWithin(gap, percent);
    gap * percent
  }

  /** `set_resource_limit`: the point `percent` of the way from lo to hi. */
  function Interpolated(lo: real, hi: real, percent: real): (point: real)
    ensures lo <= hi && 0.0 <= percent ==> lo <= point
    ensures lo <= hi && 0.0 <= percent <= 1.0 ==> point <= hi
  {
    lo + Part(hi - lo, percent)
  }

  function Between(lo: nat, hi: nat, percent: real): int {
    Interpolated(lo as real, hi as real, percent).Floor
  }

  function Budget(p: Problem, percent: real): int
    requires ValidProblem(p)
  {
    Between(MinTco(p), MaxTco(p), percent)
  }

  lemma {:induction false} CostBetween(p: Problem, x: Placement, n: nat)
    requires ValidProblem(p) && Placed(p, x) && n <= |x|
    ensures Repeat(MinUnit(p), n) <= CostUpTo(p, x, n) <= Repeat(MaxUnit(p), n)
  {
    if n > 0 {
      CostBetween(p, x, n - 1);
      RowTerms(p, x, n - 1);
    }
  }

  lemma {:induction false} RepeatFloorBounds(u: real, n: nat)
    requires u >= 0.0
    ensures RepeatFloor(u, n) as real <= Repeat(u, n)
    ensures n > 0 ==> Repeat(u, n) < (RepeatFloor(u, n) + n) as real
    ensures n > 0 ==> (RepeatFloor(u, n) as real == Repeat(u, n) <==> u == u.Floor as real)
  {
    if n > 0 { RepeatFloorBounds(u, n - 1); }
  }

  lemma {:induction false} RepeatFloorMonotone(a: real, b: real, n: nat)
    requires 0.0 <= a <= b
    ensures RepeatFloor(a, n) <= RepeatFloor(b, n)
  {
    if n > 0 { RepeatFloorMonotone(a, b, n - 1); }
  }

  /** Whatever the placement, its cost lies between the two reported bounds, but for the fractions
      that the upper one cuts off, less than one for each group. */
  lemma ReportedCostBounds(p: Problem, x: Placement)
    requires ValidProblem(p) && Placed(p, x) && |p.hot| > 0
    ensures MinTco(p) as real <= Cost(p, x) < (MaxTco(p) + |p.hot|) as real
  {
    CostBetween(p, x, |x|);
    RepeatFloorBounds(MinUnit(p), |p.hot|);
    RepeatFloorBounds(MaxUnit(p), |p.hot|);
  }

  lemma PartIsWithin(gap: real, percent: real)
    ensures 0.0 <= gap && 0.0 <= percent ==> 0.0 <= gap * percent
    ensures 0.0 <= gap && 0.0 <= percent <= 1.0 ==> gap * percent <= gap
  {
    if 0.0 <= gap && 0.0 <= percent <= 1.0 {
      assert gap * (1.0 - percent) >= 0.0;
    }
  }

  lemma FloorStaysBetween(x: real, lo: int, hi: int)
    ensures lo as real <= x ==> lo <= x.Floor
    ensures x <= hi as real ==> x.Floor <= hi
  {
    assert x.Floor as real <= x < (x.Floor + 1) as real;
  }

  lemma BetweenStaysBetween(lo: nat, hi: nat, percent: real)
    requires lo <= hi && 0.0 <= percent
    ensures lo <= Between(lo, hi, percent)
    ensures percent <= 1.0 ==> Between(lo, hi, percent) <= hi
  {
    FloorStaysBetween(Interpolated(lo as real, hi as real, percent), lo, hi);
  }

  /** The budget is never below the minimum, so the guard against an unmeetable limit never fires; and
      a setting of at most one keeps it at or below the maximum. */
  lemma BudgetBetweenBounds(p: Problem, percent: real)
    requires ValidProblem(p) && 0.0 <= percent
    ensures MinTco(p) <= Budget(p, percent)
    ensures percent <= 1.0 ==> Budget(p, percent) <= MaxTco(p)
  {
    assert MinUnit(p) <= MaxUnit(p);
    RepeatFloorMonotone(MinUnit(p), MaxUnit(p), |p.hot|);
    BetweenStaysBetween(MinTco(p), MaxTco(p), percent);
  }

  lemma PartGrows(gap: real, a: real, b: real)
    requires 0.0 <= gap && a <= b
    ensures Part(gap, a) <= Part(gap, b)
    ensures Part(gap, 0.0) == 0.0 && Part(gap, 1.0) == gap
  {
    assert gap * b - gap * a == gap * (b - a) >= 0.0;
  }

  lemma PointIs(lo: real, hi: real, percent: real)
    ensures Interpolated(lo, hi, percent) == lo + (hi - lo) * percent
  {
  }

  lemma FloorIsWithin(x: real)
    ensures x.Floor as real <= x < x.Floor as real + 1.0
  {
  }

  lemma BetweenIsPoint(lo: nat, hi: nat, percent: real)
    ensures Between(lo, hi, percent) as real <= Interpolated(lo as real, hi as real, percent)
                                              < Between(lo, hi, percent) as real + 1.0
  {
    FloorIsWithin(Interpolated(lo as real, hi as real, percent));
  }

  /** The limit is the whole part of the minimum plus the setting's share of the way to the maximum. */
  predicate IsShare(limit: int, lo: int, hi: int, percent: real) {
    limit as real <= lo as real + (hi as real - lo as real) * percent < limit as real + 1.0
  }

  lemma BudgetIsShare(p: Problem, percent: real)
    requires ValidProblem(p)
    ensures IsShare(Budget(p, percent), MinTco(p), MaxTco(p), percent)
  {
    BetweenIsPoint(MinTco(p), MaxTco(p), percent);
    PointIs(MinTco(p) as real, MaxTco(p) as real, percent);
  }

  lemma LimitKeepsBounds(p: Problem, limit: nat)
    requires ValidProblem(p)
    ensures var q := p.(limit := limit);
            && ValidProblem(q) && MinTco(q) == MinTco(p) && MaxTco(q) == MaxTco(p)
            && forall percent :: Budget(q, percent) == Budget(p, percent)
  {
  }

  /** The problem under a setting has that setting's share as its limit. */
  lemma BudgetedIsShare(p: Problem, percent: real)
    requires ValidProblem(p) && 0.0 <= percent
    ensures var q := Budgeted(p, percent);
            ValidProblem(q) && IsShare(q.limit, MinTco(q), MaxTco(q), percent)
  {
    BudgetBetweenBounds(p, percent);
    BudgetIsShare(p, percent);
    LimitKeepsBounds(p, Budget(p, percent));
  }

  lemma BetweenGrows(lo: nat, hi: nat, a: real, b: real)
    requires lo <= hi && a <= b
    ensures Between(lo, hi, a) <= Between(lo, hi, b)
    ensures Between(lo, hi, 0.0) == lo && Between(lo, hi, 1.0) == hi
  {
    PartGrows(hi as real - lo as real, a, b);
    FloorIsMonotone(Interpolated(lo as real, hi as real, a), Interpolated(lo as real, hi as real, b));
  }

  lemma FloorIsMonotone(x: real, y: real)
    requires x <= y
    ensures x.Floor <= y.Floor
  {
  }

  /** A setting of 0 buys the minimum and of 1 the maximum, and a larger setting never buys less. */
  lemma BudgetGrows(p: Problem, a: real, b: real)
    requires ValidProblem(p) && a <= b
    ensures Budget(p, 0.0) == MinTco(p) && Budget(p, 1.0) == MaxTco(p)
    ensures Budget(p, a) <= Budget(p, b)
  {
    assert MinUnit(p) <= MaxUnit(p);
    RepeatFloorMonotone(MinUnit(p), MaxUnit(p), |p.hot|);
    BetweenGrows(MinTco(p), MaxTco(p), a, b);
  }

  lemma {:induction false} RepeatFloorIsProduct(u: real, n: nat)
    requires u >= 0.0
    ensures RepeatFloor(u, n) == n * u.Floor
  {
    if n > 0 { RepeatFloorIsProduct(u, n - 1); }
  }

  /** The reported bounds are the whole parts of the cheapest and of the dearest tier's cost, once for each
      group. */
  lemma CostBoundsExactly(p: Problem, cheap: nat, dear: nat)
    requires ValidProblem(p) && cheap < |p.units| && dear < |p.units|
    requires forall t :: 0 <= t < |p.units| ==> p.units[cheap] <= p.units[t] <= p.units[dear]
    ensures MinTco(p) == |p.hot| * p.units[cheap].Floor && MaxTco(p) == |p.hot| * p.units[dear].Floor
  {
    assert MinUnit(p) == p.units[cheap] && MaxUnit(p) == p.units[dear];
    RepeatFloorIsProduct(p.units[cheap], |p.hot|);
    RepeatFloorIsProduct(p.units[dear], |p.hot|);
  }

  // ---------- whether the solver has anything to find ----------

  ghost predicate Achievable(p: Problem)
    requires ValidProblem(p)
  {
    exists x :: Feasible(p, x)
  }

  function Everywhere(p: Problem, t: nat): (x: Placement)
    requires t < |p.units|
    ensures |x| == |p.hot| && forall g :: 0 <= g < |x| ==> x[g] == Pick(|p.units|, t)
  {
    seq(|p.hot|, _ => Pick(|p.units|, t))
  }

  lemma {:induction false} EverywhereCosts(p: Problem, t: nat, n: nat)
    requires ValidProblem(p) && t < |p.units| && n <= |p.hot|
    ensures Placed(p, Everywhere(p, t))
    ensures CostUpTo(p, Everywhere(p, t), n) == Repeat(p.units[t], n)
  {
    PickIsOneHot(|p.units|, t);
    if n > 0 {
      EverywhereCosts(p, t, n - 1);
      RowTerms(p, Everywhere(p, t), n - 1);
    }
  }

  /** A limit can be met exactly if the cheapest tier can hold every group within it. */
  lemma AchievableExactly(p: Problem)
    requires ValidProblem(p)
    ensures Achievable(p) <==> Repeat(MinUnit(p), |p.hot|) <= p.limit as real
  {
    var t :| 0 <= t < |p.units| && p.units[t] == MinUnit(p);
    EverywhereCosts(p, t, |p.hot|);
    if Repeat(MinUnit(p), |p.hot|) <= p.limit as real {
      assert Feasible(p, Everywhere(p, t));
    }
    forall x | Feasible(p, x) ensures Repeat(MinUnit(p), |p.hot|) <= p.limit as real {
      CostBetween(p, x, |x|);
    }
  }

  /** The problem under the budget that `percent` buys. */
  function Budgeted(p: Problem, percent: real): Problem
    requires ValidProblem(p)
  {
    p.(limit := if Budget(p, percent) < 0 then 0 else Budget(p, percent))
  }

  /** Some setting buys nothing above the minimum. */
  lemma TinyPercent(lo: nat, hi: nat) returns (q: real)
    requires lo <= hi
    ensures 0.0 < q < 1.0 && Between(lo, hi, q) == lo
  {
    var gap := (hi - lo) as real;
    q := 1.0 / (gap + 2.0);
    assert (gap + 2.0) * q == 1.0;
    assert q > 0.0;
    assert gap * q + 2.0 * q == 1.0;
    assert gap * q >= 0.0;
  }

  /** Every setting strictly between 0 and 1 leaves the solver a placement exactly if the cheapest
      tier's cost for one group is a whole number. Otherwise the truncated minimum that the budget
      starts from is below any placement's cost, and a small setting is infeasible. */
  lemma EveryBudgetAchievableExactly(p: Problem)
    requires ValidProblem(p) && |p.hot| > 0
    ensures (forall q :: 0.0 < q < 1.0 ==> Achievable(Budgeted(p, q)))
            <==> MinUnit(p) == MinUnit(p).Floor as real
  {
    forall q | 0.0 < q < 1.0
      ensures Budget(p, q) >= MinTco(p)
      ensures Achievable(Budgeted(p, q)) <==> Repeat(MinUnit(p), |p.hot|) <= Budget(p, q) as real
    {
      BudgetBetweenBounds(p, q);
      AchievableExactly(Budgeted(p, q));
    }
    RepeatFloorBounds(MinUnit(p), |p.hot|);
    RepeatFloorMonotone(MinUnit(p), MaxUnit(p), |p.hot|);
    var q := TinyPercent(MinTco(p), MaxTco(p));
    if MinUnit(p) != MinUnit(p).Floor as real {
      assert !Achievable(Budgeted(p, q));
    }
  }

  // ---------- performance loss ----------

  function MaxLossUpTo(p: Problem, n: nat): nat
    requires ValidProblem(p) && n <= |p.hot|
  {
    if n == 0 then 0
    else MaxLossUpTo(p, n - 1)
         + if 0 < p.hot[n - 1] < HOT_CEILING then p.hot[n - 1] * MaxNat(p.lats) else 0
  }

  /** `get_max_perf_loss`, which leaves out the groups at or above the ceiling. */
  function MaxPerfLoss(p: Problem): nat
    requires ValidProblem(p)
  {
    MaxLossUpTo(p, |p.hot|)
  }

  function MinLossUpTo(p: Problem, n: nat): nat
    requires ValidProblem(p) && n <= |p.hot|
  {
    if n == 0 then 0 else MinLossUpTo(p, n - 1) + p.hot[n - 1] * MinNat(p.lats)
  }

  function MinPerfLoss(p: Problem): nat
    requires ValidProblem(p)
  {
    MinLossUpTo(p, |p.hot|)
  }

  lemma {:induction false} MinLossIsBelow(p: Problem, x: Placement, n: nat)
    requires ValidProblem(p) && Placed(p, x) && n <= |x|
    ensures MinLossUpTo(p, n) as real <= ObjectiveUpTo(p, x, n)
  {
    if n > 0 {
      MinLossIsBelow(p, x, n - 1);
      RowTerms(p, x, n - 1);
      MulMonotone(MinNat(p.lats), p.lats[TierOf(x, n - 1)], p.hot[n - 1]);
    }
  }

  ghost predicate BelowCeiling(p: Problem, n: nat)
    requires n <= |p.hot|
  {
    forall g :: 0 <= g < n ==> p.hot[g] < HOT_CEILING
  }

  lemma MaxLossTerm(p: Problem, lat: nat, g: nat)
    requires ValidProblem(p) && g < |p.hot| && lat <= MaxNat(p.lats)
    requires MaxNat(p.lats) == 0 || p.hot[g] < HOT_CEILING
    ensures MaxLossUpTo(p, g + 1) >= MaxLossUpTo(p, g) + p.hot[g] * lat
  {
    MulMonotone(lat, MaxNat(p.lats), p.hot[g]);
  }

  lemma {:induction false} MaxLossIsAbove(p: Problem, x: Placement, n: nat)
    requires ValidProblem(p) && Placed(p, x) && n <= |x|
    requires MaxNat(p.lats) == 0 || BelowCeiling(p, n)
    ensures ObjectiveUpTo(p, x, n) <= MaxLossUpTo(p, n) as real
  {
    if n > 0 {
      MaxLossIsAbove(p, x, n - 1);
      RowTerms(p, x, n - 1);
      assert ObjectiveUpTo(p, x, n) == ObjectiveUpTo(p, x, n - 1) + Dot(x[n - 1], HotCoef(p, n - 1));
      MaxLossTerm(p, p.lats[TierOf(x, n - 1)], n - 1);
    }
  }

  lemma EverywherePlaced(p: Problem, t: nat)
    requires ValidProblem(p) && t < |p.units|
    ensures Placed(p, Everywhere(p, t))
    ensures forall g :: 0 <= g < |p.hot| ==>
              Dot(Everywhere(p, t)[g], HotCoef(p, g)) == (p.hot[g] * p.lats[t]) as real
  {
    PickIsOneHot(|p.units|, t);
    forall g | 0 <= g < |p.hot|
      ensures Dot(Everywhere(p, t)[g], HotCoef(p, g)) == (p.hot[g] * p.lats[t]) as real
    {
      RowTerms(p, Everywhere(p, t), g);
    }
  }

  lemma PositiveProduct(a: nat, b: nat)
    ensures a * b >= 0
    ensures a > 0 && b > 0 ==> a * b > 0
  {
  }

  lemma {:induction false} SlowestExceedsMaxLoss(p: Problem, t: nat, n: nat)
    requires ValidProblem(p) && t < |p.lats| && p.lats[t] == MaxNat(p.lats) > 0 && n <= |p.hot|
    requires Placed(p, Everywhere(p, t))
    requires forall g :: 0 <= g < |p.hot| ==>
               Dot(Everywhere(p, t)[g], HotCoef(p, g)) == (p.hot[g] * p.lats[t]) as real
    ensures ObjectiveUpTo(p, Everywhere(p, t), n) >= MaxLossUpTo(p, n) as real
    ensures !BelowCeiling(p, n) ==> ObjectiveUpTo(p, Everywhere(p, t), n) > MaxLossUpTo(p, n) as real
  {
    if n > 0 {
      SlowestExceedsMaxLoss(p, t, n - 1);
      PositiveProduct(p.hot[n - 1], p.lats[t]);
      assert BelowCeiling(p, n) <==> BelowCeiling(p, n - 1) && p.hot[n - 1] < HOT_CEILING;
    }
  }

  /** The reported minimum loss bounds every placement's overhead from below. The reported maximum
      bounds every placement's from above exactly if no group reaches the ceiling or no tier has
      any latency. */
  lemma ReportedLossBounds(p: Problem)
    requires ValidProblem(p)
    ensures forall x :: Placed(p, x) ==> MinPerfLoss(p) as real <= Objective(p, x)
    ensures (forall x :: Placed(p, x) ==> Objective(p, x) <= MaxPerfLoss(p) as real)
            <==> (MaxNat(p.lats) == 0 || BelowCeiling(p, |p.hot|))
  {
    forall x | Placed(p, x) ensures MinPerfLoss(p) as real <= Objective(p, x) {
      MinLossIsBelow(p, x, |x|);
    }
    if MaxNat(p.lats) == 0 || BelowCeiling(p, |p.hot|) {
      forall x | Placed(p, x) ensures Objective(p, x) <= MaxPerfLoss(p) as real {
        MaxLossIsAbove(p, x, |x|);
      }
    } else {
      var t :| 0 <= t < |p.lats| && p.lats[t] == MaxNat(p.lats);
      EverywherePlaced(p, t);
      SlowestExceedsMaxLoss(p, t, |p.hot|);
    }
  }

  /** The groups that `get_max_perf_loss` counts. */
  function BelowLimit(hot: seq<nat>): seq<nat> {
    if hot == [] then []
    else BelowLimit(hot[..|hot| - 1]) + if hot[|hot| - 1] < 98985 then [hot[|hot| - 1]] else []
  }

  lemma {:induction false} MinLossSum(p: Problem, n: nat)
    requires ValidProblem(p) && n <= |p.hot|
    ensures MinLossUpTo(p, n) == Total(p.hot[..n]) * MinNat(p.lats)
  {
    if n > 0 {
      MinLossSum(p, n - 1);
      assert p.hot[..n][..n - 1] == p.hot[..n - 1];
      AddTerm(Total(p.hot[..n - 1]), p.hot[n - 1], MinNat(p.lats));
    }
  }

  lemma MaxLossNext(p: Problem, n: nat)
    requires ValidProblem(p) && n < |p.hot|
    ensures MaxLossUpTo(p, n + 1) == MaxLossUpTo(p, n) + if p.hot[n] < 98985 then p.hot[n] * MaxNat(p.lats) else 0
  {
    if p.hot[n] == 0 { assert p.hot[n] * MaxNat(p.lats) == 0; }
  }

  lemma {:induction false} MaxLossSum(p: Problem, n: nat)
    requires ValidProblem(p) && n <= |p.hot|
    ensures MaxLossUpTo(p, n) == Total(BelowLimit(p.hot[..n])) * MaxNat(p.lats)
  {
    if n > 0 {
      var before, h := BelowLimit(p.hot[..n - 1]), p.hot[n - 1];
      MaxLossSum(p, n - 1);
      MaxLossNext(p, n - 1);
      assert p.hot[..n][..n - 1] == p.hot[..n - 1];
      TotalAppend(before, h);
      AddTerm(Total(before), h, MaxNat(p.lats));
      assert BelowLimit(p.hot[..n]) == if h < 98985 then before + [h] else before;
    }
  }

  lemma AddTerm(a: int, b: int, c: int)
    ensures (a + b) * c == a * c + b * c
  {
  }

  lemma TotalAppend(c: seq<nat>, h: nat)
    ensures Total(c + [h]) == Total(c) + h
  {
    assert (c + [h])[..|c|] == c;
  }

  /** The reported losses are all hotness in the fastest tier, and the hotness of the groups under 98985 in the
      slowest. */
  lemma LossBoundsExactly(p: Problem, fast: nat, slow: nat)
    requires ValidProblem(p) && fast < |p.lats| && slow < |p.lats|
    requires forall t :: 0 <= t < |p.lats| ==> p.lats[fast] <= p.lats[t] <= p.lats[slow]
    ensures MinPerfLoss(p) == Total(p.hot) * p.lats[fast]
    ensures MaxPerfLoss(p) == Total(BelowLimit(p.hot)) * p.lats[slow]
  {
    MinLossSum(p, |p.hot|);
    MaxLossSum(p, |p.hot|);
    assert p.hot[..|p.hot|] == p.hot;
    assert MinNat(p.lats) == p.lats[fast] && MaxNat(p.lats) == p.lats[slow];
  }

  // ---------- where the two promises fail ----------

  /** One group and one tier of cost 1 and compression ratio 0.025, so that a full group costs half a
      unit: every budget is zero, and no
      placement meets it. */
  lemma FractionalCostIsUnmeetable(percent: real)
    requires 0.0 < percent < 1.0
    ensures var p := Problem([1], [UnitCost(1, 0.025)], [1], 0);
            ValidProblem(p) && Budget(p, percent) == 0 && !Achievable(Budgeted(p, percent))
  {
    var p := Problem([1], [UnitCost(1, 0.025)], [1], 0);
    assert UnitCost(1, 0.025) == 0.5;
    assert MaxUnit(p) == MinUnit(p) == 0.5;
    assert RepeatFloor(0.5, 1) == 0 && Repeat(0.5, 1) == 0.5 by {
      assert Repeat(0.5, 0) == 0.0;
    }
    BudgetBetweenBounds(p, percent);
    AchievableExactly(Budgeted(p, percent));
  }

  /** One group at the ceiling, one tier of cost 1 and compression ratio 0.05: the reported maximum loss is
      zero, its overhead is not. */
  lemma HotGroupExceedsMaxLoss()
    ensures var p := Problem([HOT_CEILING], [UnitCost(1, 0.05)], [1], 1);
            && ValidProblem(p) && MaxPerfLoss(p) == 0
            && Placed(p, Everywhere(p, 0)) && Objective(p, Everywhere(p, 0)) == HOT_CEILING as real
  {
    var p := Problem([HOT_CEILING], [UnitCost(1, 0.05)], [1], 1);
    EverywherePlaced(p, 0);
    assert ObjectiveUpTo(p, Everywhere(p, 0), 0) == 0.0;
    assert MaxLossUpTo(p, 0) == 0;
  }

  /** The compression ratios that the tiers' constructors set. */
  predicate ShippedRatio(ratio: real) {
    ratio == 1.0 || ratio == 0.2 || ratio == 0.5 || ratio == 0.8
  }

  predicate ShippedTier(cost: nat, ratio: real) {
    (cost == 10 || cost == 3) && ShippedRatio(ratio)
  }

  lemma ShippedUnitIsWhole(cost: nat, ratio: real)
    requires ShippedTier(cost, ratio)
    ensures UnitCost(cost, ratio) == UnitCost(cost, ratio).Floor as real
  {
    assert cost as real == 10.0 || cost as real == 3.0;
  }

  /** Every tier that the daemon's constructors build costs a whole number for a full group, so whatever
      table is made of such tiers, every setting leaves the solver a placement. */
  lemma ShippedTiersAreAchievable(p: Problem, costs: seq<nat>, ratios: seq<real>, percent: real)
    requires |costs| == |ratios| == |p.units| && ValidProblem(p) && |p.hot| > 0 && 0.0 < percent < 1.0
    requires forall t :: 0 <= t < |costs| ==>
               ShippedTier(costs[t], ratios[t]) && p.units[t] == UnitCost(costs[t], ratios[t])
    ensures Achievable(Budgeted(p, percent))
  {
    var t :| 0 <= t < |p.units| && p.units[t] == MinUnit(p);
    ShippedUnitIsWhole(costs[t], ratios[t]);
    EveryBudgetAchievableExactly(p);
  }

  function ConfiguredTable(hot: seq<nat>): (p: Problem)
    ensures ValidProblem(p)
  {
    Problem(hot, [UnitCost(10, 1.0), UnitCost(3, 1.0), UnitCost(10, 0.8), UnitCost(10, 0.5), UnitCost(3, 0.5)],
            [2, 4, 5, 6, 7], 0)
  }

  lemma ConfiguredUnits(hot: seq<nat>)
    ensures ConfiguredTable(hot).units == [200.0, 60.0, 160.0, 100.0, 30.0]
  {
    assert UnitCost(10, 1.0) == 200.0 && UnitCost(3, 1.0) == 60.0 && UnitCost(10, 0.8) == 160.0;
    assert UnitCost(10, 0.5) == 100.0 && UnitCost(3, 0.5) == 30.0;
  }

  lemma ConfiguredCosts(hot: seq<nat>)
    ensures ConfiguredTable(hot).units == [200.0, 60.0, 160.0, 100.0, 30.0]
    ensures MinTco(ConfiguredTable(hot)) == |hot| * 30 && MaxTco(ConfiguredTable(hot)) == |hot| * 200
  {
    ConfiguredUnits(hot);
    var p := ConfiguredTable(hot);
    assert p.units[0] == 200.0 && p.units[4] == 30.0 && p.units[0].Floor == 200 && p.units[4].Floor == 30;
    CostBoundsExactly(p, 4, 0);
  }

  /** With the table as configured, which costs 200, 60, 160, 100 and 30 for a full group, every setting leaves a
      placement. */
  lemma ConfiguredTiersAreAchievable(hot: seq<nat>, percent: real)
    requires |hot| > 0 && 0.0 < percent < 1.0
    ensures ConfiguredTable(hot).units == [200.0, 60.0, 160.0, 100.0, 30.0]
    ensures Achievable(Budgeted(ConfiguredTable(hot), percent))
  {
    ConfiguredCosts(hot);
    ShippedTiersAreAchievable(ConfiguredTable(hot), [10, 3, 10, 10, 3], [1.0, 1.0, 0.8, 0.5, 0.5], percent);
  }

  /** One group in that table with a setting of one half gets 115. */
  lemma ConfiguredHalf(h: nat)
    ensures Budget(ConfiguredTable([h]), 0.5) == 115
  {
    ConfiguredCosts([h]);
    BudgetIsShare(ConfiguredTable([h]), 0.5);
  }
}
