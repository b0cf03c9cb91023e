/** What a placement of the groups means for the regions themselves. */
module IlpSoundness {
  import opened Arithmetic
  import opened Ilp
  import opened IlpGrouping

  /** The regions back in their own order, each with the tier solved for its group. */
  ghost predicate SpreadBack(x: Placement, byId: seq<ModRegion>, dst: seq<nat>) {
    && |dst| == |byId|
    && forall k :: 0 <= k < |byId| ==>
         byId[k].id == k && 0 <= byId[k].groupId < |x| && dst[k] == TierOf(x, byId[k].groupId)
  }

  /** What the regions pay for one window: 2 MB each, a tenth of a full group. */
  ghost function TrueCost(p: Problem, dst: seq<nat>): real
    requires forall k :: 0 <= k < |dst| ==> dst[k] < |p.units|
  {
    if dst == [] then 0.0 else TrueCost(p, dst[..|dst| - 1]) + p.units[dst[|dst| - 1]] / 10.0
  }

  ghost function TrueLoss(p: Problem, dst: seq<nat>, hotness: seq<int>): real
    requires |dst| == |hotness| && forall k :: 0 <= k < |dst| ==> dst[k] < |p.lats|
  {
    if dst == [] then 0.0
    else TrueLoss(p, dst[..|dst| - 1], hotness[..|dst| - 1])
         + (hotness[|dst| - 1] * p.lats[dst[|dst| - 1]]) as real
  }

  lemma RegionShare(cost: nat, ratio: real)
    requires ratio >= 0.0
    ensures UnitCost(cost, ratio) / 10.0 == 2.0 * (cost as real * ratio)
  {
  }

  ghost function CostWeight(p: Problem, x: Placement): ModRegion -> real {
    (m: ModRegion) =>
      if 0 <= m.groupId < |x| && TierOf(x, m.groupId) < |p.units| then p.units[TierOf(x, m.groupId)] / 10.0 else 0.0
  }

  ghost function LossWeight(p: Problem, x: Placement): ModRegion -> real {
    (m: ModRegion) =>
      if 0 <= m.groupId < |x| && TierOf(x, m.groupId) < |p.lats| then (m.hotness * p.lats[TierOf(x, m.groupId)]) as real else 0.0
  }

  ghost predicate InTiers(p: Problem, x: Placement) {
    forall g :: 0 <= g < |x| ==> TierOf(x, g) < |p.units|
  }

  lemma PlacedInTiers(p: Problem, x: Placement)
    requires ValidProblem(p) && Placed(p, x)
    ensures InTiers(p, x)
  {
    forall g | 0 <= g < |x| ensures TierOf(x, g) < |p.units| { RowTerms(p, x, g); }
  }

  function Hotness(s: seq<ModRegion>): (h: seq<int>)
    ensures |h| == |s| && forall k :: 0 <= k < |h| ==> h[k] == s[k].hotness
  {
    seq(|s|, k requires 0 <= k < |s| => s[k].hotness)
  }

  lemma {:induction false} SumsAreWeights(p: Problem, x: Placement, byId: seq<ModRegion>, dst: seq<nat>, n: nat)
    requires ValidProblem(p) && InTiers(p, x) && SpreadBack(x, byId, dst) && n <= |dst|
    ensures forall k :: 0 <= k < |dst| ==> dst[k] < |p.units|
    ensures TrueCost(p, dst[..n]) == SumBy(byId[..n], CostWeight(p, x))
    ensures TrueLoss(p, dst[..n], Hotness(byId)[..n]) == SumBy(byId[..n], LossWeight(p, x))
  {
    if n > 0 {
      SumsAreWeights(p, x, byId, dst, n - 1);
      assert dst[..n][..n - 1] == dst[..n - 1] && byId[..n][..n - 1] == byId[..n - 1];
      assert Hotness(byId)[..n][..n - 1] == Hotness(byId)[..n - 1];
    }
  }

  ghost function CostBounds(p: Problem, x: Placement): (b: seq<real>)
    requires InTiers(p, x)
    ensures |b| == |x| && forall g :: 0 <= g < |x| ==> b[g] == p.units[TierOf(x, g)] / 10.0
  {
    seq(|x|, g requires 0 <= g < |x| => p.units[TierOf(x, g)] / 10.0)
  }

  ghost function LossBounds(p: Problem, x: Placement): (b: seq<real>)
    requires ValidProblem(p) && InTiers(p, x) && |x| == |p.hot|
    ensures |b| == |x| && forall g :: 0 <= g < |x| ==> b[g] == (p.hot[g] * p.lats[TierOf(x, g)]) as real
  {
    seq(|x|, g requires 0 <= g < |x| => (p.hot[g] * p.lats[TierOf(x, g)]) as real)
  }

  lemma {:induction false} BoundsAddUp(p: Problem, x: Placement, n: nat)
    requires ValidProblem(p) && Placed(p, x) && InTiers(p, x) && n <= |x|
    ensures 10.0 * GroupSum(CostBounds(p, x), n) == CostUpTo(p, x, n)
    ensures GroupSum(LossBounds(p, x), n) == ObjectiveUpTo(p, x, n)
  {
    if n > 0 {
      BoundsAddUp(p, x, n - 1);
      RowTerms(p, x, n - 1);
    }
  }

  /** Spreading a feasible group placement over the regions keeps within the budget, although the
      last group may be short, and the regions' true overhead is at most ten times the objective. */
  lemma BudgetSurvivesGrouping(p: Problem, x: Placement, s: seq<ModRegion>, byId: seq<ModRegion>, dst: seq<nat>)
    requires ValidProblem(p) && Feasible(p, x)
    requires Grouped(s) && HotnessOfGroups(s, p.hot)
    requires multiset(byId) == multiset(s) && SpreadBack(x, byId, dst)
    ensures forall k :: 0 <= k < |dst| ==> dst[k] < |p.units|
    ensures TrueCost(p, dst) <= p.limit as real
    ensures TrueLoss(p, dst, Hotness(byId)) <= 10.0 * Objective(p, x)
  {
    PlacedInTiers(p, x);
    var n := |dst|;
    SumsAreWeights(p, x, byId, dst, n);
    assert dst[..n] == dst && byId[..n] == byId && Hotness(byId)[..n] == Hotness(byId);
    SumByPermutation(byId, s, CostWeight(p, x));
    SumByPermutation(byId, s, LossWeight(p, x));
    MembersWeighLess(p, x, s);
    AllMembersWithinGroups(s, CostWeight(p, x), CostBounds(p, x));
    AllMembersWithinGroups(s, LossWeight(p, x), LossBounds(p, x));
    BoundsAddUp(p, x, |x|);
  }

  lemma MembersWeighLess(p: Problem, x: Placement, s: seq<ModRegion>)
    requires ValidProblem(p) && Placed(p, x) && InTiers(p, x)
    requires Grouped(s) && HotnessOfGroups(s, p.hot)
    ensures forall g :: 0 <= g < |x| ==> CostBounds(p, x)[g] >= 0.0 && LossBounds(p, x)[g] >= 0.0
    ensures forall i :: 0 <= i < |s| ==>
              && i / MULTIPLIER_FACTOR < |x|
              && CostWeight(p, x)(s[i]) <= CostBounds(p, x)[i / MULTIPLIER_FACTOR]
              && LossWeight(p, x)(s[i]) <= LossBounds(p, x)[i / MULTIPLIER_FACTOR]
  {
    GroupsAscend(s, p.hot);
    forall g | 0 <= g < |x| ensures CostBounds(p, x)[g] >= 0.0 && LossBounds(p, x)[g] >= 0.0 {
      MulMonotone(0, p.hot[g], p.lats[TierOf(x, g)]);
    }
    forall i | 0 <= i < |s|
      ensures i / MULTIPLIER_FACTOR < |x|
              && CostWeight(p, x)(s[i]) <= CostBounds(p, x)[i / MULTIPLIER_FACTOR]
              && LossWeight(p, x)(s[i]) <= LossBounds(p, x)[i / MULTIPLIER_FACTOR]
    {
      var g := i / MULTIPLIER_FACTOR;
      MulMonotone(s[i].hotness, p.hot[g], p.lats[TierOf(x, g)]);
    }
  }

  lemma LaterGroup(n: nat, a: nat, b: nat)
    requires a < b < n
    ensures a / MULTIPLIER_FACTOR <= b / MULTIPLIER_FACTOR < GroupCount(n)
  {
  }

  lemma HotterIsLater(s: seq<ModRegion>, hot: seq<nat>, a: nat, b: nat)
    requires Grouped(s) && HotnessOfGroups(s, hot)
    requires a < |s| && b < |s| && s[a].hotness < s[b].hotness
    ensures var ga, gb := a / MULTIPLIER_FACTOR, b / MULTIPLIER_FACTOR;
            ga <= gb < |hot| && hot[ga] <= hot[gb]
  {
    assert a < b;
    LaterGroup(|s|, a, b);
    GroupsAscend(s, hot);
  }

  /** In an optimal placement a region in a strictly hotter group than another is in a tier at least
      as fast; the hotter of two regions is never in the colder group. */
  lemma HotterRegionIsNoSlower(p: Problem, x: Placement, s: seq<ModRegion>, a: nat, b: nat)
    requires ValidProblem(p) && Optimal(p, x)
    requires Grouped(s) && HotnessOfGroups(s, p.hot)
    requires a < |s| && b < |s| && s[a].hotness < s[b].hotness
    ensures var ga, gb := a / MULTIPLIER_FACTOR, b / MULTIPLIER_FACTOR;
            && ga <= gb < |x| && p.hot[ga] <= p.hot[gb]
            && TierOf(x, ga) < |p.lats| && TierOf(x, gb) < |p.lats|
            && (ga == gb || p.hot[ga] == p.hot[gb] || p.lats[TierOf(x, gb)] <= p.lats[TierOf(x, ga)])
  {
    var ga, gb := a / MULTIPLIER_FACTOR, b / MULTIPLIER_FACTOR;
    HotterIsLater(s, p.hot, a, b);
    PlacedInTiers(p, x);
    if p.hot[ga] < p.hot[gb] {
      HotterIsNoSlower(p, x, ga, gb);
    }
  }

  // ---------- the id order ----------

  ghost predicate IdSorted(t: seq<ModRegion>) {
    forall i, j :: 0 <= i < j < |t| ==> t[i].id <= t[j].id
  }

  lemma {:induction false} AscendingAtLeast(t: seq<ModRegion>, k: nat)
    requires k < |t| && DistinctRegionIds(t) && IdSorted(t)
    requires forall i :: 0 <= i < |t| ==> 0 <= t[i].id
    ensures t[k].id >= k
  {
    if k > 0 { AscendingAtLeast(t, k - 1); }
  }

  lemma {:induction false} AscendingAtMost(t: seq<ModRegion>, k: nat)
    requires k < |t| && DistinctRegionIds(t) && IdSorted(t)
    requires forall i :: 0 <= i < |t| ==> t[i].id < |t|
    ensures t[k].id <= k
    decreases |t| - k
  {
    if k < |t| - 1 { AscendingAtMost(t, k + 1); }
  }

  /** Sorting distinct positions by position puts every region back where it came from. */
  lemma IdOrderIsIdentity(t: seq<ModRegion>, regions: seq<nat>)
    requires HoldsRegions(t, regions) && IdSorted(t)
    ensures forall k :: 0 <= k < |t| ==> t[k].id == k && t[k].hotness == ToInt32(regions[k])
  {
    forall k | 0 <= k < |t| ensures t[k].id == k {
      AscendingAtLeast(t, k);
      AscendingAtMost(t, k);
    }
  }

  lemma {:induction false} DistinctOnce(s: seq<ModRegion>, m: ModRegion)
    requires DistinctRegionIds(s)
    ensures multiset(s)[m] <= 1
    ensures multiset(s)[m] == 1 <==> m in s
  {
    if s != [] {
      var last := |s| - 1;
      DistinctOnce(s[..last], m);
      assert s == s[..last] + [s[last]];
    }
  }

  /** Holding each region once does not depend on the order. */
  lemma HoldsRegionsPermutation(a: seq<ModRegion>, b: seq<ModRegion>, regions: seq<nat>)
    requires multiset(a) == multiset(b) && HoldsRegions(a, regions)
    ensures HoldsRegions(b, regions)
  {
    assert |a| == |multiset(a)| == |multiset(b)| == |b|;
    forall m ensures m in b <==> m in a { assert m in multiset(b) <==> m in multiset(a); }
    forall i, j | 0 <= i < j < |b| ensures b[i].id != b[j].id {
      assert b[i] in b && b[j] in b;
      assert b[i] in a && b[j] in a;
      var p :| 0 <= p < |a| && a[p] == b[i];
      var q :| 0 <= q < |a| && a[q] == b[j];
      if p == q {
        DistinctOnce(a, b[i]);
        TwiceInMultiset(b, i, j);
        assert false;
      }
    }
    forall i | 0 <= i < |b|
      ensures 0 <= b[i].id < |regions| && b[i].hotness == ToInt32(regions[b[i].id])
    {
      assert b[i] in a;
    }
  }

  lemma TwiceInMultiset(s: seq<ModRegion>, i: nat, j: nat)
    requires i < j < |s| && s[i] == s[j]
    ensures multiset(s)[s[i]] >= 2
  {
    assert s == s[..i] + [s[i]] + s[i + 1..j] + [s[j]] + s[j + 1..];
  }
}
