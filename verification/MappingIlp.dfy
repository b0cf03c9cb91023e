/** The ILP policy's client side (mapping_ilp.cpp) and the whole exchange with the server. */
module MappingIlp {
  import opened Tiers
  import opened Regions
  import opened Ilp
  import opened IlpBounds
  import opened IlpChoice
  import opened IlpGrouping
  import opened IlpSoundness
  import M = SchedulerWindow
  import S = SkdIlp

  const DST_IGNORE := -3

  ghost predicate PricedLadder(tiers: Ladder) {
    && ValidLadder(tiers)
    && forall t :: 0 <= t < |tiers| ==> tiers[t].cost >= 0 && tiers[t].latency >= 0 && tiers[t].ratio >= 0.0
  }

  /** `transform_to_comm`: tiers travel under their index, regions as bare hotness. */
  method TransformToComm(tiers: Ladder, regions: seq<Region>)
    returns (comm: seq<S.TierInfoComm>, hotness: seq<nat>)
    requires PricedLadder(tiers)
    ensures |comm| == |tiers| && forall t :: 0 <= t < |tiers| ==>
              comm[t] == S.TierInfoComm(t, tiers[t].cost, tiers[t].latency, tiers[t].ratio)
    ensures |hotness| == |regions| && forall k :: 0 <= k < |regions| ==> hotness[k] == regions[k].hotness
  {
    comm, hotness := [], [];
    var t := 0;
    while t < |tiers|
      invariant t == |comm| <= |tiers|
      invariant forall u :: 0 <= u < t ==>
                  comm[u] == S.TierInfoComm(u, tiers[u].cost, tiers[u].latency, tiers[u].ratio)
    {
      IndexIdRoundTrip(tiers, t);
      comm := comm + [S.TierInfoComm(IdxFromVirtId(tiers, tiers[t].virtId),
                                     tiers[t].cost, tiers[t].latency, tiers[t].ratio)];
      t := t + 1;
    }
    var k := 0;
    while k < |regions|
      invariant k == |hotness| <= |regions|
      invariant forall j :: 0 <= j < k ==> hotness[j] == regions[j].hotness
    {
      hotness := hotness + [regions[k].hotness];
      k := k + 1;
    }
  }

  predicate ValidIndex(tiers: Ladder, i: int) { 0 <= i < |tiers| }

  /** The reply loop of `process_regions`. A failed packet is read and dropped; the first index
      outside the table is thrown at, after it has been written to its region. */
  method ReadReply(tiers: Ladder, regions: seq<Region>, failed: bool, reply: seq<int>)
    returns (ret: int, thrown: bool)
    requires Distinct(regions) && |reply| == |regions|
    modifies regions`dst
    ensures thrown <==> !failed && exists k :: 0 <= k < |reply| && !ValidIndex(tiers, reply[k])
    ensures failed ==> ret == -1 && forall r :: r in regions ==> r.dst == old(r.dst)
    ensures !failed && !thrown ==>
              ret == 0 && forall k :: 0 <= k < |regions| ==> regions[k].dst == tiers[reply[k]].virtId
  {
    thrown := false;
    if failed {
      return -1, false;
    }
    var i := 0;
    while i < |regions|
      invariant i <= |regions| && !thrown
      invariant forall k :: 0 <= k < i ==>
                  ValidIndex(tiers, reply[k]) && regions[k].dst == tiers[reply[k]].virtId
    {
      regions[i].dst := reply[i];
      if regions[i].dst < 0 || regions[i].dst >= |tiers| {
        return 0, true;
      }
      regions[i].dst := VirtIdFromIdx(tiers, regions[i].dst);
      i := i + 1;
    }
    return 0, false;
  }

  // ---------- what a placement costs and loses, in the client's terms ----------

  /** Two megabytes at the tier's cost and compression ratio. */
  function Price(tier: TierInfo): real {
    2.0 * (tier.cost as real * tier.ratio)
  }

  lemma PriceIsShare(tier: TierInfo)
    requires tier.cost >= 0 && tier.ratio >= 0.0
    ensures Price(tier) == UnitCost(tier.cost, tier.ratio) / 10.0
  {
    RegionShare(tier.cost, tier.ratio);
  }

  /** What the regions pay in the tiers they hold. */
  ghost function Spend(tiers: Ladder, ids: seq<int>): real
    requires PricedLadder(tiers) && forall k :: 0 <= k < |ids| ==> Known(tiers, ids[k])
  {
    if ids == [] then 0.0
    else
      var tier := TierFromId(tiers, ids[|ids| - 1]);
      Spend(tiers, ids[..|ids| - 1]) + Price(tier)
  }

  /** Each region's hotness times its tier's latency. */
  ghost function Slowdown(tiers: Ladder, ids: seq<int>, hotness: seq<nat>): int
    requires |hotness| == |ids| && forall k :: 0 <= k < |ids| ==> Known(tiers, ids[k])
  {
    if ids == [] then 0
    else
      var tier := TierFromId(tiers, ids[|ids| - 1]);
      Slowdown(tiers, ids[..|ids| - 1], hotness[..|ids| - 1]) + hotness[|ids| - 1] * tier.latency
  }

  ghost predicate SameTables(tiers: Ladder, p: Problem) {
    && |p.units| == |p.lats| == |tiers|
    && forall t :: 0 <= t < |tiers| ==>
         tiers[t].cost >= 0 && tiers[t].ratio >= 0.0
         && p.units[t] == UnitCost(tiers[t].cost, tiers[t].ratio) && p.lats[t] == tiers[t].latency
  }

  ghost predicate NamesTiers(tiers: Ladder, dst: seq<nat>, ids: seq<int>) {
    |dst| == |ids| && forall k :: 0 <= k < |dst| ==> dst[k] < |tiers| && ids[k] == tiers[dst[k]].virtId
  }

  lemma NamesAreKnown(tiers: Ladder, dst: seq<nat>, ids: seq<int>)
    requires ValidLadder(tiers) && NamesTiers(tiers, dst, ids)
    ensures forall k :: 0 <= k < |ids| ==> Known(tiers, ids[k]) && TierFromId(tiers, ids[k]) == tiers[dst[k]]
  {
    forall k | 0 <= k < |ids| ensures Known(tiers, ids[k]) && TierFromId(tiers, ids[k]) == tiers[dst[k]] {
      IndexIdRoundTrip(tiers, dst[k]);
    }
  }

  lemma {:induction false} SpendIsTrueCost(tiers: Ladder, p: Problem, dst: seq<nat>, ids: seq<int>)
    requires PricedLadder(tiers) && SameTables(tiers, p) && NamesTiers(tiers, dst, ids)
    requires forall k :: 0 <= k < |ids| ==> Known(tiers, ids[k]) && TierFromId(tiers, ids[k]) == tiers[dst[k]]
    ensures Spend(tiers, ids) == TrueCost(p, dst)
  {
    if ids != [] {
      var last := |ids| - 1;
      SpendIsTrueCost(tiers, p, dst[..last], ids[..last]);
      PriceIsShare(tiers[dst[last]]);
    }
  }

  lemma {:induction false} SlowdownIsTrueLoss(tiers: Ladder, p: Problem, dst: seq<nat>, ids: seq<int>,
                                              hotness: seq<nat>, h: seq<int>)
    requires SameTables(tiers, p) && NamesTiers(tiers, dst, ids)
    requires forall k :: 0 <= k < |ids| ==> Known(tiers, ids[k]) && TierFromId(tiers, ids[k]) == tiers[dst[k]]
    requires |hotness| == |h| == |ids| && forall k :: 0 <= k < |h| ==> h[k] == hotness[k]
    ensures Slowdown(tiers, ids, hotness) as real == TrueLoss(p, dst, h)
  {
    if ids != [] {
      var last := |ids| - 1;
      SlowdownIsTrueLoss(tiers, p, dst[..last], ids[..last], hotness[..last], h[..last]);
      var latency := TierFromId(tiers, ids[last]).latency;
      assert latency == p.lats[dst[last]] && hotness[last] * latency == h[last] * p.lats[dst[last]];
    }
  }

  lemma {:induction false} ObjectiveIsWhole(p: Problem, x: Placement, n: nat) returns (k: int)
    requires ValidProblem(p) && Placed(p, x) && n <= |x|
    ensures ObjectiveUpTo(p, x, n) == k as real
  {
    k := 0;
    if n > 0 {
      var before := ObjectiveIsWhole(p, x, n - 1);
      RowTerms(p, x, n - 1);
      k := before + p.hot[n - 1] * p.lats[TierOf(x, n - 1)];
    }
  }

  ghost predicate FitsInt(hotness: seq<nat>) {
    forall k :: 0 <= k < |hotness| ==> hotness[k] < 0x8000_0000
  }

  lemma NarrowingIsExact(x: Placement, byId: seq<ModRegion>, hotness: seq<nat>, dst: seq<nat>)
    requires HoldsRegions(byId, hotness) && SpreadBack(x, byId, dst) && FitsInt(hotness)
    ensures forall k :: 0 <= k < |hotness| ==> Hotness(byId)[k] == hotness[k]
  {
    forall k | 0 <= k < |hotness| ensures Hotness(byId)[k] == hotness[k] {
      assert byId[k].id == k;
    }
  }

  /** The budget and overhead guarantees carried over to the tier ids the client stores. */
  lemma StoredPlacementIsSound(tiers: Ladder, p: Problem, x: Placement, s: seq<ModRegion>, byId: seq<ModRegion>,
                               hotness: seq<nat>, dst: seq<nat>, ids: seq<int>)
    requires PricedLadder(tiers) && SameTables(tiers, p) && ValidProblem(p) && Feasible(p, x)
    requires Grouped(s) && HotnessOfGroups(s, p.hot) && multiset(byId) == multiset(s)
    requires HoldsRegions(byId, hotness) && SpreadBack(x, byId, dst) && NamesTiers(tiers, dst, ids)
    ensures forall k :: 0 <= k < |ids| ==> Known(tiers, ids[k])
    ensures Spend(tiers, ids) <= p.limit as real
    ensures FitsInt(hotness) ==> Slowdown(tiers, ids, hotness) <= 10 * Objective(p, x).Floor
  {
    NamesAreKnown(tiers, dst, ids);
    BudgetSurvivesGrouping(p, x, s, byId, dst);
    SpendIsTrueCost(tiers, p, dst, ids);
    var whole := ObjectiveIsWhole(p, x, |x|);
    if FitsInt(hotness) {
      NarrowingIsExact(x, byId, hotness, dst);
      SlowdownIsTrueLoss(tiers, p, dst, ids, hotness, Hotness(byId));
    }
  }

  function DstsUpTo(regions: seq<Region>, n: nat): (ids: seq<int>)
    requires n <= |regions|
    reads regions
    ensures |ids| == n && forall k :: 0 <= k < n ==> ids[k] == regions[k].dst
  {
    if n == 0 then [] else DstsUpTo(regions, n - 1) + [regions[n - 1].dst]
  }

  function HotnessUpTo(regions: seq<Region>, n: nat): (h: seq<nat>)
    requires n <= |regions|
    reads regions
    ensures |h| == n && forall k :: 0 <= k < n ==> h[k] == regions[k].hotness
  {
    if n == 0 then [] else HotnessUpTo(regions, n - 1) + [regions[n - 1].hotness]
  }

  function Dsts(regions: seq<Region>): seq<int>
    reads regions
  {
    DstsUpTo(regions, |regions|)
  }

  function HotnessValues(regions: seq<Region>): seq<nat>
    reads regions
  {
    HotnessUpTo(regions, |regions|)
  }

  ghost predicate TrustedSolver(solver: Problem -> S.SolverResult) {
    forall p :: ValidProblem(p) && solver(p).OptimalResult? ==> Optimal(p, solver(p).x)
  }

  /** The ids that a list of indices stands for. */
  function Ids(tiers: Ladder, indices: seq<int>): (ids: seq<int>)
    ensures |ids| == |indices| && forall k :: 0 <= k < |ids| ==> ids[k] == VirtIdFromIdx(tiers, indices[k])
  {
    seq(|indices|, k requires 0 <= k < |indices| => VirtIdFromIdx(tiers, indices[k]))
  }

  /** Stored ids that respect the packet's budget and, if no hotness was narrowed, its overhead; and a
      packet whose figures lie between its own bounds, the upper loss bound if no region reaches the
      ceiling. */
  ghost predicate SoundPlacement(tiers: Ladder, ids: seq<int>, hotness: seq<nat>, packet: S.DataPacket)
    requires PricedLadder(tiers)
  {
    && |ids| == |hotness| && (forall k :: 0 <= k < |ids| ==> Known(tiers, ids[k]))
    && packet.minTco <= packet.cost <= packet.limit <= packet.maxTco
    && Spend(tiers, ids) <= packet.limit as real
    && (FitsInt(hotness) ==> Slowdown(tiers, ids, hotness) <= 10 * packet.objective)
    && packet.minLoss <= packet.objective
    && (BelowLossCeiling(hotness) ==> packet.objective <= packet.maxLoss)
  }

  ghost predicate BelowLossCeiling(hotness: seq<nat>) {
    forall k :: 0 <= k < |hotness| ==> hotness[k] < HOT_CEILING
  }

  /** The hotter of two regions is in the same or a later group, and unless the groups tie it is in a tier
      at least as fast. */
  ghost predicate HotterNoSlower(tiers: Ladder, ids: seq<int>, hotness: seq<nat>, hot: seq<nat>, groups: seq<int>) {
    forall a, b :: 0 <= a < |hotness| && 0 <= b < |hotness| && hotness[a] < hotness[b] ==>
      OrderedPair(tiers, ids, hot, groups, a, b)
  }

  ghost predicate OrderedPair(tiers: Ladder, ids: seq<int>, hot: seq<nat>, groups: seq<int>, a: nat, b: nat) {
    && a < |groups| && b < |groups| && 0 <= groups[a] <= groups[b] < |hot|
    && a < |ids| && b < |ids| && Known(tiers, ids[a]) && Known(tiers, ids[b])
    && (groups[a] == groups[b] || hot[groups[a]] == hot[groups[b]]
        || TierFromId(tiers, ids[b]).latency <= TierFromId(tiers, ids[a]).latency)
  }

  /** p is the problem that the server makes of these tiers, hotness and setting: s is its hotness order, and
      `groups` says which group each region is in. */
  ghost predicate Posed(tiers: Ladder, hotness: seq<nat>, percent: real, p: Problem, s: seq<ModRegion>, groups: seq<int>) {
    && SameTables(tiers, p) && ValidProblem(p) && IsShare(p.limit, MinTco(p), MaxTco(p), percent)
    && HoldsRegions(s, hotness) && Grouped(s) && HotnessOfGroups(s, p.hot)
    && |groups| == |hotness| && forall i :: 0 <= i < |s| ==> groups[s[i].id] == s[i].groupId
  }

  /** Each region holds the tier chosen for its group. */
  ghost predicate HoldsChoice(tiers: Ladder, ids: seq<int>, choice: seq<nat>, groups: seq<int>) {
    && |ids| == |groups|
    && forall k :: 0 <= k < |ids| ==>
         0 <= groups[k] < |choice| && choice[groups[k]] < |tiers| && ids[k] == tiers[choice[groups[k]]].virtId
  }

  function GroupIds(byId: seq<ModRegion>): (groups: seq<int>)
    ensures |groups| == |byId| && forall k :: 0 <= k < |groups| ==> groups[k] == byId[k].groupId
  {
    seq(|byId|, k requires 0 <= k < |byId| => byId[k].groupId)
  }

  /** Every order of the regions has a group list. */
  lemma GroupsExist(s: seq<ModRegion>, hotness: seq<nat>, n: nat) returns (groups: seq<int>)
    requires HoldsRegions(s, hotness) && n <= |s|
    ensures |groups| == |hotness| && forall i :: 0 <= i < n ==> groups[s[i].id] == s[i].groupId
  {
    if n == 0 {
      groups := seq(|hotness|, _ => 0);
    } else {
      groups := GroupsExist(s, hotness, n - 1);
      groups := groups[s[n - 1].id := s[n - 1].groupId];
    }
  }

  lemma GroupIdsFit(s: seq<ModRegion>, byId: seq<ModRegion>, hotness: seq<nat>)
    requires HoldsRegions(s, hotness) && multiset(byId) == multiset(s)
    requires forall k :: 0 <= k < |byId| ==> byId[k].id == k
    ensures forall i :: 0 <= i < |s| ==> s[i].id < |byId| && GroupIds(byId)[s[i].id] == s[i].groupId
  {
    assert |byId| == |multiset(byId)| == |multiset(s)| == |s|;
    forall i | 0 <= i < |s| ensures s[i].id < |byId| && GroupIds(byId)[s[i].id] == s[i].groupId {
      assert s[i] in multiset(byId);
      var k :| 0 <= k < |byId| && byId[k] == s[i];
    }
  }

  lemma StoredPairIsOrdered(tiers: Ladder, p: Problem, x: Placement, s: seq<ModRegion>, byId: seq<ModRegion>,
                            hotness: seq<nat>, dst: seq<nat>, ids: seq<int>, a: nat, b: nat)
    requires ValidLadder(tiers) && SameTables(tiers, p) && ValidProblem(p) && Optimal(p, x)
    requires Grouped(s) && HotnessOfGroups(s, p.hot) && multiset(byId) == multiset(s)
    requires HoldsRegions(byId, hotness) && SpreadBack(x, byId, dst) && NamesTiers(tiers, dst, ids) && FitsInt(hotness)
    requires a < |hotness| && b < |hotness| && hotness[a] < hotness[b]
    ensures OrderedPair(tiers, ids, p.hot, GroupIds(byId), a, b)
  {
    NamesAreKnown(tiers, dst, ids);
    NarrowingIsExact(x, byId, hotness, dst);
    assert byId[a] in multiset(s) && byId[b] in multiset(s);
    var i :| 0 <= i < |s| && s[i] == byId[a];
    var j :| 0 <= j < |s| && s[j] == byId[b];
    HotterRegionIsNoSlower(p, x, s, i, j);
  }

  lemma GroupsBelowCeiling(s: seq<ModRegion>, hot: seq<nat>, hotness: seq<nat>)
    requires HoldsRegions(s, hotness) && HotnessOfGroups(s, hot) && BelowLossCeiling(hotness)
    ensures forall g :: 0 <= g < |hot| ==> hot[g] < HOT_CEILING
  {
    forall g | 0 <= g < |hot| ensures hot[g] < HOT_CEILING {
      var m := MaxHotness(s, g * MULTIPLIER_FACTOR, GroupEnd(|s|, g));
      if m != 0 {
        var j :| g * MULTIPLIER_FACTOR <= j < GroupEnd(|s|, g) && s[j].hotness == m;
        assert hotness[s[j].id] < HOT_CEILING;
      }
    }
  }

  /** The packet's figures against its bounds. */
  lemma PacketIsBounded(p: Problem, x: Placement, s: seq<ModRegion>, hotness: seq<nat>)
    requires ValidProblem(p) && Feasible(p, x) && |p.hot| > 0
    requires HoldsRegions(s, hotness) && HotnessOfGroups(s, p.hot)
    ensures var packet := S.PacketOf(p, x);
            && packet.minTco <= packet.cost <= packet.limit && packet.minLoss <= packet.objective
            && (BelowLossCeiling(hotness) ==> packet.objective <= packet.maxLoss)
            && IsChoice(p, ChoiceOf(x)) && packet.objective == LossOf(p, ChoiceOf(x), |x|)
            && packet.cost == CostOf(p, ChoiceOf(x), |x|).Floor && packet.limit == p.limit
  {
    PlacementIsItsChoice(p, x);
    ReportedCostBounds(p, x);
    ReportedLossBounds(p);
    if BelowLossCeiling(hotness) { GroupsBelowCeiling(s, p.hot, hotness); }
  }

  lemma SpreadIsInTiers(p: Problem, x: Placement, byId: seq<ModRegion>, dst: seq<nat>)
    requires ValidProblem(p) && Placed(p, x) && SpreadBack(x, byId, dst)
    ensures forall k :: 0 <= k < |dst| ==> dst[k] < |p.units|
  {
    PlacedInTiers(p, x);
  }

  /** What the reply is worth: soundness from feasibility, the order of the tiers from optimality. */
  lemma ReplyIsSound(tiers: Ladder, p: Problem, x: Placement, s: seq<ModRegion>, byId: seq<ModRegion>,
                     hotness: seq<nat>, dst: seq<nat>, indices: seq<int>)
    requires PricedLadder(tiers) && SameTables(tiers, p) && ValidProblem(p) && Optimal(p, x) && |hotness| > 0
    requires HoldsRegions(s, hotness) && Grouped(s) && HotnessOfGroups(s, p.hot) && multiset(byId) == multiset(s)
    requires HoldsRegions(byId, hotness) && SpreadBack(x, byId, dst) && indices == dst
    requires MinTco(p) <= p.limit <= MaxTco(p)
    ensures forall k :: 0 <= k < |indices| ==> ValidIndex(tiers, indices[k])
    ensures SoundPlacement(tiers, Ids(tiers, indices), hotness, S.PacketOf(p, x))
    ensures FitsInt(hotness) ==> HotterNoSlower(tiers, Ids(tiers, indices), hotness, p.hot, GroupIds(byId))
  {
    var ids := Ids(tiers, indices);
    SpreadIsInTiers(p, x, byId, dst);
    StoredPlacementIsSound(tiers, p, x, s, byId, hotness, dst, ids);
    PacketIsBounded(p, x, s, hotness);
    if FitsInt(hotness) {
      forall a, b | 0 <= a < |hotness| && 0 <= b < |hotness| && hotness[a] < hotness[b]
        ensures OrderedPair(tiers, ids, p.hot, GroupIds(byId), a, b)
      {
        StoredPairIsOrdered(tiers, p, x, s, byId, hotness, dst, ids, a, b);
      }
    }
  }

  /** What the reply says: the tiers of a best choice, and its overhead. */
  lemma ReplyIsBest(tiers: Ladder, p: Problem, x: Placement, byId: seq<ModRegion>, hotness: seq<nat>,
                    dst: seq<nat>, indices: seq<int>)
    requires SameTables(tiers, p) && ValidProblem(p) && Optimal(p, x)
    requires SpreadBack(x, byId, dst) && indices == dst
    ensures IsBest(p, ChoiceOf(x)) && S.PacketOf(p, x).objective == LossOf(p, ChoiceOf(x), |p.hot|)
    ensures HoldsChoice(tiers, Ids(tiers, indices), ChoiceOf(x), GroupIds(byId))
  {
    OptimalExactly(p, x);
    PlacementIsItsChoice(p, x);
    SpreadIsInTiers(p, x, byId, dst);
  }

  /** The server takes in the message and sets the budget. */
  method Pose(comm: seq<S.TierInfoComm>, hotness: seq<nat>, percent: real, ghost tiers: Ladder)
    returns (ilp: S.SkdIlp)
    requires PricedLadder(tiers) && |comm| == |tiers| && |hotness| > 0 && 0.0 <= percent <= 1.0
    requires forall t :: 0 <= t < |tiers| ==>
               comm[t] == S.TierInfoComm(t, tiers[t].cost, tiers[t].latency, tiers[t].ratio)
    ensures fresh(ilp) && ilp.initDone && ilp.merged && ilp.TablesOk()
    ensures var p := ilp.TheProblem();
            && SameTables(tiers, p) && IsShare(p.limit, MinTco(p), MaxTco(p), percent)
            && MinTco(p) <= p.limit <= MaxTco(p)
            && HoldsRegions(ilp.modRegions, hotness) && Grouped(ilp.modRegions)
            && HotnessOfGroups(ilp.modRegions, p.hot)
  {
    ilp := new S.SkdIlp();
    ilp.InitDataFromComms(hotness, comm);
    ghost var before := ilp.TheProblem();
    BudgetBetweenBounds(before, percent);
    ilp.SetResourceLimit(percent);
    LimitLeavesBounds(before, percent);
  }

  lemma LimitLeavesBounds(p: Problem, percent: real)
    requires ValidProblem(p) && 0.0 <= percent <= 1.0
    ensures var q := Budgeted(p, percent);
            && ValidProblem(q) && IsShare(q.limit, MinTco(q), MaxTco(q), percent)
            && MinTco(q) <= q.limit <= MaxTco(q)
  {
    BudgetBetweenBounds(p, percent);
    BudgetedIsShare(p, percent);
    LimitKeepsBounds(p, Budget(p, percent));
  }

  /** The server's side of one exchange. There is a packet exactly if the solver found an optimum of the posed
      problem; it then comes with one index for each region, and else with fillers. */
  method Serve(comm: seq<S.TierInfoComm>, hotness: seq<nat>, percent: real, solver: Problem -> S.SolverResult,
               ghost tiers: Ladder)
    returns (reply: S.Reply, indices: seq<int>, ghost p: Problem, ghost s: seq<ModRegion>, ghost groups: seq<int>)
    requires PricedLadder(tiers) && |comm| == |tiers| && |hotness| > 0
    requires forall t :: 0 <= t < |tiers| ==>
               comm[t] == S.TierInfoComm(t, tiers[t].cost, tiers[t].latency, tiers[t].ratio)
    requires 0.0 <= percent <= 1.0 && TrustedSolver(solver)
    ensures |indices| == |hotness|
    ensures Posed(tiers, hotness, percent, p, s, groups) && (reply.Packet? <==> solver(p).OptimalResult?)
    ensures reply.Packet? ==>
              && reply.packet == S.PacketOf(p, solver(p).x)
              && (forall k :: 0 <= k < |indices| ==> ValidIndex(tiers, indices[k]))
              && SoundPlacement(tiers, Ids(tiers, indices), hotness, reply.packet)
              && (FitsInt(hotness) ==> HotterNoSlower(tiers, Ids(tiers, indices), hotness, p.hot, groups))
              && IsBest(p, ChoiceOf(solver(p).x)) && reply.packet.objective == LossOf(p, ChoiceOf(solver(p).x), |p.hot|)
              && HoldsChoice(tiers, Ids(tiers, indices), ChoiceOf(solver(p).x), groups)
  {
    var ilp := Pose(comm, hotness, percent, tiers);
    p, s := ilp.TheProblem(), ilp.modRegions;
    reply := ilp.Solve(solver, hotness);
    if reply.NoPacket? {
      indices := seq(|hotness|, _ => DST_IGNORE);
      groups := GroupsExist(s, hotness, |s|);
    } else {
      indices := ilp.dstTiers;
      groups := GroupIds(ilp.modRegions);
      GroupIdsFit(s, ilp.modRegions, hotness);
      ReplyIsSound(tiers, p, solver(p).x, s, ilp.modRegions, hotness, ilp.dstTiers, indices);
      ReplyIsBest(tiers, p, solver(p).x, ilp.modRegions, hotness, ilp.dstTiers, indices);
    }
  }

  /** `process_regions` with the server behind it. A result of 0 comes back exactly if the server was reached
      and its solver found an optimum. Then every region has been given a known tier, together they stay
      within a budget between the reported bounds, their overhead is within ten times the reported
      objective, and hotter regions are in no slower tiers. -1 leaves the regions alone. */
  method ProcessRegions(connected: bool, tiers: Ladder, regions: seq<Region>, percent: real,
                        solver: Problem -> S.SolverResult)
    returns (ret: int, thrown: bool, reply: S.Reply, ghost p: Problem, ghost s: seq<ModRegion>, ghost groups: seq<int>)
    requires PricedLadder(tiers) && Distinct(regions)
    requires 0.0 <= percent <= 1.0 && TrustedSolver(solver)
    modifies regions`dst
    ensures thrown <==> connected && regions == []
    ensures connected && !thrown ==> Posed(tiers, HotnessValues(regions), percent, p, s, groups)
    ensures !thrown ==> ret == if connected && solver(p).OptimalResult? then 0 else -1
    ensures !thrown && ret == -1 ==> forall r :: r in regions ==> r.dst == old(r.dst)
    ensures !thrown && ret == 0 ==>
              && reply.Packet? && reply.packet == S.PacketOf(p, solver(p).x)
              && SoundPlacement(tiers, Dsts(regions), HotnessValues(regions), reply.packet)
              && (FitsInt(HotnessValues(regions)) ==>
                    HotterNoSlower(tiers, Dsts(regions), HotnessValues(regions), p.hot, groups))
              && IsBest(p, ChoiceOf(solver(p).x)) && reply.packet.objective == LossOf(p, ChoiceOf(solver(p).x), |p.hot|)
              && HoldsChoice(tiers, Dsts(regions), ChoiceOf(solver(p).x), groups)
  {
    reply, p, s, groups := S.NoPacket, Problem([], [], [], 0), [], [];
    ret, thrown := -1, false;
    if !connected {
      return;
    }
    if |tiers| == 0 || |regions| == 0 {
      thrown := true;
      return;
    }
    var comm, hotness := TransformToComm(tiers, regions);
    assert hotness == HotnessValues(regions);
    var indices;
    reply, indices, p, s, groups := Serve(comm, hotness, percent, solver, tiers);
    ret, thrown := StoreReply(tiers, regions, reply.NoPacket?, indices);
  }

  /** The reply loop again, with the ids and the hotness as lists. */
  method StoreReply(tiers: Ladder, regions: seq<Region>, failed: bool, reply: seq<int>)
    returns (ret: int, thrown: bool)
    requires Distinct(regions) && |reply| == |regions|
    requires !failed ==> forall k :: 0 <= k < |reply| ==> ValidIndex(tiers, reply[k])
    modifies regions`dst
    ensures !thrown && ret == (if failed then -1 else 0) && HotnessValues(regions) == old(HotnessValues(regions))
    ensures failed ==> forall r :: r in regions ==> r.dst == old(r.dst)
    ensures !failed ==> Dsts(regions) == Ids(tiers, reply)
  {
    ret, thrown := ReadReply(tiers, regions, failed, reply);
  }

  function TargetsOf(views: seq<RegionView>): (ids: seq<int>)
    ensures |ids| == |views| && forall k :: 0 <= k < |ids| ==> ids[k] == views[k].dst
  {
    seq(|views|, k requires 0 <= k < |views| => views[k].dst)
  }

  function EffectiveTiers(views: seq<RegionView>): (ids: seq<int>)
    ensures |ids| == |views| && forall k :: 0 <= k < |ids| ==> ids[k] == EffectiveTier(views[k])
  {
    seq(|views|, k requires 0 <= k < |views| => EffectiveTier(views[k]))
  }

  /** The placement outlives the window: however its migration goes, the tiers that the regions are then
      destined for are the ones the solver chose, within the same budget and overhead. */
  lemma WindowKeepsPlacement(d: M.Daemon, views: seq<RegionView>, hotness: seq<nat>, packet: S.DataPacket,
                             reach: seq<nat>, m: M.Migration)
    requires M.Ready(d, views, reach) && M.MigrationOk(d, m) && PricedLadder(d.tiers)
    requires SoundPlacement(d.tiers, TargetsOf(views), hotness, packet)
    ensures EffectiveTiers(M.Window(d, views, reach, m).regions) == TargetsOf(views)
    ensures SoundPlacement(d.tiers, EffectiveTiers(M.Window(d, views, reach, m).regions), hotness, packet)
  {
    M.WindowKeepsDestinedTiers(d, views, reach, m);
    var after := EffectiveTiers(M.Window(d, views, reach, m).regions);
    forall k | 0 <= k < |views| ensures after[k] == TargetsOf(views)[k] {
      assert Known(d.tiers, TargetsOf(views)[k]);
    }
    assert after == TargetsOf(views);
  }
}
