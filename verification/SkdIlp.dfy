/** The server's solver object (skd_ilp.h, skd_ilp.cpp, utils_ilp.cpp). The solver itself is a
    function from the problem to its answer, trusted only when it reports an optimum. */
module SkdIlp {
  import opened Ilp
  import opened IlpBounds
  import opened IlpGrouping
  import opened IlpSoundness
  import opened Sorting

  datatype TierInfoComm = TierInfoComm(idx: int, cost: nat, latency: nat, ratio: real)

  datatype SolverResult = NotOptimal | OptimalResult(x: Placement)

  datatype DataPacket = DataPacket(objective: int, limit: nat, cost: int,
                                   minTco: nat, maxTco: nat, minLoss: nat, maxLoss: nat)

  datatype Reply = NoPacket | Packet(packet: DataPacket)

  ghost predicate TiersOk(tiers: seq<TierInfoComm>) {
    |tiers| > 0 && forall t :: 0 <= t < |tiers| ==> tiers[t].ratio >= 0.0
  }

  ghost function PacketOf(p: Problem, x: Placement): DataPacket
    requires ValidProblem(p) && Placed(p, x)
  {
    DataPacket(Objective(p, x).Floor, p.limit, Cost(p, x).Floor, MinTco(p), MaxTco(p), MinPerfLoss(p), MaxPerfLoss(p))
  }

  // ---------- the reported cost, summed tier by tier ----------

  /** What the first n groups pay in tier t. */
  ghost function ColumnCost(p: Problem, x: Placement, t: nat, n: nat): real
    requires ValidProblem(p) && Placed(p, x) && t < |p.units| && n <= |x|
  {
    if n == 0 then 0.0 else ColumnCost(p, x, t, n - 1) + if x[n - 1][t] == 1 then p.units[t] else 0.0
  }

  ghost function ColumnsCost(p: Problem, x: Placement, t: nat, n: nat): real
    requires ValidProblem(p) && Placed(p, x) && t <= |p.units| && n <= |x|
  {
    if t == 0 then 0.0 else ColumnsCost(p, x, t - 1, n) + ColumnCost(p, x, t - 1, n)
  }

  lemma {:induction false} ColumnsNextRow(p: Problem, x: Placement, t: nat, n: nat)
    requires ValidProblem(p) && Placed(p, x) && t <= |p.units| && 0 < n <= |x|
    ensures ColumnsCost(p, x, t, n) == ColumnsCost(p, x, t, n - 1) + Dot(x[n - 1][..t], p.units[..t])
  {
    if t > 0 {
      ColumnsNextRow(p, x, t - 1, n);
      assert x[n - 1][..t][..t - 1] == x[n - 1][..t - 1] && p.units[..t][..t - 1] == p.units[..t - 1];
    }
  }

  lemma {:induction false} NoRowsCostNothing(p: Problem, x: Placement, t: nat)
    requires ValidProblem(p) && Placed(p, x) && t <= |p.units|
    ensures ColumnsCost(p, x, t, 0) == 0.0
  {
    if t > 0 { NoRowsCostNothing(p, x, t - 1); }
  }

  /** Adding up tier by tier gives what the budget constraint added up group by group. */
  lemma {:induction false} ColumnsAreRows(p: Problem, x: Placement, n: nat)
    requires ValidProblem(p) && Placed(p, x) && n <= |x|
    ensures ColumnsCost(p, x, |p.units|, n) == CostUpTo(p, x, n)
  {
    if n == 0 {
      NoRowsCostNothing(p, x, |p.units|);
    } else {
      ColumnsAreRows(p, x, n - 1);
      ColumnsNextRow(p, x, |p.units|, n);
      assert x[n - 1][..|p.units|] == x[n - 1] && p.units[..|p.units|] == p.units;
    }
  }

  class SkdIlp {
    var tierCosts: seq<nat>
    var tierLats: seq<nat>
    var tierCom: seq<real>
    var grpHotness: seq<nat>
    var numRegions: nat
    var numTiers: nat
    var initDone: bool
    var merged: bool
    var resourceLimit: nat
    var tcoPercent: real
    var dstTiers: seq<nat>
    var modRegions: seq<ModRegion>

    constructor ()
      ensures !initDone && !merged && modRegions == [] && dstTiers == []
    {
      tierCosts, tierLats, tierCom, grpHotness := [], [], [], [];
      numRegions, numTiers, initDone, merged := 10, 0, false, false;
      resourceLimit, tcoPercent, dstTiers, modRegions := 200, 0.5, [], [];
    }

    ghost predicate TablesOk()
      reads this
    {
      && |tierCosts| == |tierLats| == |tierCom| == numTiers > 0
      && (forall t :: 0 <= t < |tierCom| ==> tierCom[t] >= 0.0)
      && numRegions == |grpHotness|
    }

    function Units(): (u: seq<real>)
      reads this
      requires TablesOk()
      ensures |u| == numTiers
      ensures forall t :: 0 <= t < |u| ==> u[t] == UnitCost(tierCosts[t], tierCom[t])
    {
      seq(numTiers, t requires 0 <= t < numTiers && TablesOk() reads this => UnitCost(tierCosts[t], tierCom[t]))
    }

    /** The program these tables stand for. */
    function TheProblem(): (p: Problem)
      reads this
      requires TablesOk()
      ensures ValidProblem(p)
    {
      Problem(grpHotness, Units(), tierLats, resourceLimit)
    }

    method GetMaxTco() returns (leaseCost: nat)
      requires initDone ==> TablesOk()
      ensures leaseCost == if initDone then MaxTco(TheProblem()) else 0
    {
      if !initDone {
        return 0;
      }
      var maxCost, maxIdx := 0.0, -1;
      var i := 0;
      while i < numTiers
        invariant i <= numTiers
        invariant if i == 0 then maxIdx == -1 else
                    && 0 <= maxIdx < i && maxCost == RawCost(tierCosts[maxIdx], tierCom[maxIdx])
                    && forall t :: 0 <= t < i ==> RawCost(tierCosts[t], tierCom[t]) <= maxCost
      {
        var currCost := RawCost(tierCosts[i], tierCom[i]);
        if currCost > maxCost || maxIdx == -1 {
          maxCost, maxIdx := currCost, i;
        }
        i := i + 1;
      }
      var share := UnitCost(tierCosts[maxIdx], tierCom[maxIdx]);
      assert Units()[maxIdx] == share == MaxUnit(TheProblem());
      leaseCost := AddShares(share, numRegions);
    }

    method GetMinTco() returns (leaseCost: nat)
      requires initDone ==> TablesOk()
      ensures leaseCost == if initDone then MinTco(TheProblem()) else 0
    {
      if !initDone {
        return 0;
      }
      var minCost, minIdx := 9999.0, -1;
      var i := 0;
      while i < numTiers
        invariant i <= numTiers
        invariant if i == 0 then minIdx == -1 else
                    && 0 <= minIdx < i && minCost == RawCost(tierCosts[minIdx], tierCom[minIdx])
                    && forall t :: 0 <= t < i ==> RawCost(tierCosts[t], tierCom[t]) >= minCost
      {
        var currCost := RawCost(tierCosts[i], tierCom[i]);
        if currCost < minCost || minIdx == -1 {
          minCost, minIdx := currCost, i;
        }
        i := i + 1;
      }
      var share := UnitCost(tierCosts[minIdx], tierCom[minIdx]);
      assert Units()[minIdx] == share == MinUnit(TheProblem());
      leaseCost := AddShares(share, numRegions);
    }

    static method AddShares(share: real, n: nat) returns (total: nat)
      requires share >= 0.0
      ensures total == RepeatFloor(share, n)
    {
      total := 0;
      var i := 0;
      while i < n
        invariant i <= n && total == RepeatFloor(share, i)
      {
        total := total + share.Floor;
        i := i + 1;
      }
    }

    method GetMaxPerfLoss() returns (loss: nat)
      requires initDone ==> TablesOk()
      ensures loss == if initDone then MaxPerfLoss(TheProblem()) else 0
    {
      if !initDone {
        return 0;
      }
      var maxLat, maxIdx := 0, -1;
      var i := 0;
      while i < numTiers
        invariant i <= numTiers
        invariant if i == 0 then maxIdx == -1 else
                    0 <= maxIdx < i && maxLat == tierLats[maxIdx] && forall t :: 0 <= t < i ==> tierLats[t] <= maxLat
      {
        if tierLats[i] > maxLat || maxIdx == -1 {
          maxLat, maxIdx := tierLats[i], i;
        }
        i := i + 1;
      }
      assert maxLat == MaxNat(tierLats);
      ghost var p := TheProblem();
      loss := 0;
      i := 0;
      while i < numRegions
        invariant i <= numRegions && loss == MaxLossUpTo(p, i)
      {
        if grpHotness[i] != 0 && grpHotness[i] < HOT_CEILING && grpHotness[i] > 0 {
          loss := loss + grpHotness[i] * tierLats[maxIdx];
        }
        i := i + 1;
      }
    }

    method GetMinPerfLoss() returns (loss: nat)
      requires initDone ==> TablesOk()
      ensures loss == if initDone then MinPerfLoss(TheProblem()) else 0
    {
      if !initDone {
        return 0;
      }
      var minLat, minIdx := 9999, -1;
      var i := 0;
      while i < numTiers
        invariant i <= numTiers
        invariant if i == 0 then minIdx == -1 else
                    0 <= minIdx < i && minLat == tierLats[minIdx] && forall t :: 0 <= t < i ==> minLat <= tierLats[t]
      {
        if tierLats[i] < minLat || minIdx == -1 {
          minLat, minIdx := tierLats[i], i;
        }
        i := i + 1;
      }
      assert minLat == MinNat(tierLats);
      ghost var p := TheProblem();
      loss := 0;
      i := 0;
      while i < numRegions
        invariant i <= numRegions && loss == MinLossUpTo(p, i)
      {
        loss := loss + grpHotness[i] * tierLats[minIdx];
        i := i + 1;
      }
    }

    method SetResourceLimit(percent: real)
      requires initDone && TablesOk()
      requires 0.0 <= percent
      modifies this`resourceLimit, this`tcoPercent
      ensures TheProblem() == Budgeted(old(TheProblem()), percent) && tcoPercent == percent
      ensures IsShare(resourceLimit, MinTco(TheProblem()), MaxTco(TheProblem()), percent)
    {
      BudgetedIsShare(TheProblem(), percent);
      var maxTco := GetMaxTco();
      var minTco := GetMinTco();
      BudgetBetweenBounds(TheProblem(), percent);
      resourceLimit := Between(minTco, maxTco, percent);
      tcoPercent := percent;
    }

    /** `init_data_from_comms`: sort the regions by hotness, cut them into groups of ten, and take
        each group's largest hotness. */
    method InitDataFromComms(regions: seq<nat>, tiers: seq<TierInfoComm>)
      requires |regions| > 0 && TiersOk(tiers)
      modifies this
      ensures initDone && merged && TablesOk()
      ensures HoldsRegions(modRegions, regions) && Grouped(modRegions) && HotnessOfGroups(modRegions, grpHotness)
      ensures numTiers == |tiers| && forall t :: 0 <= t < numTiers ==>
                tierCosts[t] == tiers[t].cost && tierLats[t] == tiers[t].latency && tierCom[t] == tiers[t].ratio
    {
      CollectRegions(regions);
      var sorted := SortBy(modRegions, (m: ModRegion) => m.hotness);
      HoldsRegionsPermutation(modRegions, sorted, regions);
      SortedByHotness(sorted);
      modRegions := sorted;
      AssignGroups();
      assert HoldsRegions(modRegions, regions);
      MeasureGroups();
      numRegions := |grpHotness|;
      merged := true;
      CopyTiers(tiers);
      initDone := true;
    }

    method CollectRegions(regions: seq<nat>)
      modifies this`modRegions
      ensures HoldsRegions(modRegions, regions)
    {
      modRegions := [];
      var i := 0;
      while i < |regions|
        invariant i == |modRegions| <= |regions|
        invariant forall k :: 0 <= k < i ==> modRegions[k] == ModRegion(ToInt32(regions[k]), k, -1)
      {
        modRegions := modRegions + [ModRegion(ToInt32(regions[i]), i, -1)];
        i := i + 1;
      }
    }

    method AssignGroups()
      modifies this`modRegions
      ensures |modRegions| == |old(modRegions)|
      ensures forall k :: 0 <= k < |modRegions| ==>
                modRegions[k] == old(modRegions)[k].(groupId := k / MULTIPLIER_FACTOR)
    {
      var i := 0;
      while i < |modRegions|
        invariant i <= |modRegions| == |old(modRegions)|
        invariant forall k :: 0 <= k < i ==> modRegions[k] == old(modRegions)[k].(groupId := k / MULTIPLIER_FACTOR)
        invariant forall k :: i <= k < |modRegions| ==> modRegions[k] == old(modRegions)[k]
      {
        modRegions := modRegions[i := modRegions[i].(groupId := i / MULTIPLIER_FACTOR)];
        i := i + 1;
      }
    }

    method MeasureGroups()
      modifies this`grpHotness
      ensures HotnessOfGroups(modRegions, grpHotness)
    {
      grpHotness := [];
      var n := |modRegions|;
      var i := 0;
      while i < n
        invariant i == |grpHotness| * MULTIPLIER_FACTOR && |grpHotness| <= GroupCount(n)
        invariant forall g :: 0 <= g < |grpHotness| ==> grpHotness[g] == GroupHotness(modRegions, g)
        decreases n - i
      {
        var size := if i + MULTIPLIER_FACTOR > n then n - i else MULTIPLIER_FACTOR;
        assert i + size == GroupEnd(n, |grpHotness|);
        var maxHotness := LargestIn(i, i + size);
        maxHotness := if maxHotness == 0 then 1 else maxHotness;
        grpHotness := grpHotness + [maxHotness];
        i := i + MULTIPLIER_FACTOR;
      }
    }

    method LargestIn(from: nat, to: nat) returns (maxHotness: nat)
      requires from <= to <= |modRegions|
      ensures maxHotness == MaxHotness(modRegions, from, to)
    {
      maxHotness := 0;
      var j := from;
      while j < to
        invariant from <= j <= to && maxHotness == MaxHotness(modRegions, from, j)
      {
        if modRegions[j].hotness > maxHotness {
          maxHotness := modRegions[j].hotness;
        }
        j := j + 1;
      }
    }

    method CopyTiers(tiers: seq<TierInfoComm>)
      requires TiersOk(tiers)
      modifies this`tierCosts, this`tierLats, this`tierCom, this`numTiers
      ensures numTiers == |tierCosts| == |tierLats| == |tierCom| == |tiers|
      ensures forall t :: 0 <= t < numTiers ==>
                tierCosts[t] == tiers[t].cost && tierLats[t] == tiers[t].latency && tierCom[t] == tiers[t].ratio
    {
      tierCosts, tierLats, tierCom, numTiers := [], [], [], |tiers|;
      var i := 0;
      while i < numTiers
        invariant i == |tierCosts| == |tierLats| == |tierCom| <= numTiers == |tiers|
        invariant forall t :: 0 <= t < i ==>
                    tierCosts[t] == tiers[t].cost && tierLats[t] == tiers[t].latency && tierCom[t] == tiers[t].ratio
      {
        tierCosts := tierCosts + [tiers[i].cost];
        tierLats := tierLats + [tiers[i].latency];
        tierCom := tierCom + [tiers[i].ratio];
        i := i + 1;
      }
    }

    /** Back to the order the regions were received in. */
    method SortById(ghost regions: seq<nat>)
      requires merged && HoldsRegions(modRegions, regions)
      modifies this`modRegions
      ensures multiset(modRegions) == multiset(old(modRegions)) && HoldsRegions(modRegions, regions)
      ensures forall k :: 0 <= k < |modRegions| ==> modRegions[k].id == k && modRegions[k] in old(modRegions)
      ensures forall m :: m in old(modRegions) ==> m in modRegions
    {
      if merged && |modRegions| > 0 {
        var sorted := SortBy(modRegions, (m: ModRegion) => m.id);
        HoldsRegionsPermutation(modRegions, sorted, regions);
        SortedById(sorted);
        SameElements(modRegions, sorted);
        modRegions := sorted;
      }
      IdOrderIsIdentity(modRegions, regions);
    }

    /** The scan of one group's row for its tier. */
    method FindTier(row: seq<int>) returns (tier: nat, accounted: bool)
      requires |row| == numTiers
      ensures tier == FirstOne(row) && accounted == (tier < numTiers)
    {
      tier, accounted := 0, false;
      while tier < numTiers
        invariant tier <= numTiers && forall t :: 0 <= t < tier ==> row[t] != 1
      {
        if row[tier] == 1 {
          accounted := true;
          return;
        }
        tier := tier + 1;
      }
    }

    /** The un-merge of `prepare_data_packet`: each region gets the first tier whose variable is one in
        its group's row. A row without one is the source's thrown error. */
    method SpreadOverRegions(x: Placement) returns (thrown: bool)
      requires forall k :: 0 <= k < |modRegions| ==> modRegions[k].id == k && 0 <= modRegions[k].groupId < |x|
      requires forall g :: 0 <= g < |x| ==> |x[g]| == numTiers
      modifies this`dstTiers
      ensures thrown <==> exists k :: 0 <= k < |modRegions| && TierOf(x, modRegions[k].groupId) == numTiers
      ensures !thrown ==> SpreadBack(x, modRegions, dstTiers)
    {
      dstTiers := [];
      thrown := false;
      var k := 0;
      while k < |modRegions|
        invariant k == |dstTiers| <= |modRegions|
        invariant forall i :: 0 <= i < k ==> dstTiers[i] == TierOf(x, modRegions[i].groupId) < numTiers
      {
        var tier, accounted := FindTier(x[modRegions[k].groupId]);
        if !accounted {
          thrown := true;
          return;
        }
        dstTiers := dstTiers + [tier];
        k := k + 1;
      }
    }

    /** The achieved cost reported with the result, added up tier by tier. */
    method AchievedCost(x: Placement) returns (total: real)
      requires TablesOk() && Placed(TheProblem(), x)
      ensures total == Cost(TheProblem(), x)
    {
      ghost var p := TheProblem();
      total := 0.0;
      var t := 0;
      while t < numTiers
        invariant t <= numTiers && total == ColumnsCost(p, x, t, |x|)
      {
        var g := 0;
        while g < numRegions
          invariant g <= numRegions && total == ColumnsCost(p, x, t, |x|) + ColumnCost(p, x, t, g)
        {
          if x[g][t] == 1 {
            total := total + UnitCost(tierCosts[t], tierCom[t]);
          }
          g := g + 1;
        }
        t := t + 1;
      }
      ColumnsAreRows(p, x, |x|);
    }

    /** Region order and spreading, for a placement whose rows all pick a tier. */
    method Unmerge(x: Placement, ghost regions: seq<nat>) returns (thrown: bool)
      requires merged && TablesOk() && Placed(TheProblem(), x)
      requires HoldsRegions(modRegions, regions) && Grouped(modRegions) && HotnessOfGroups(modRegions, grpHotness)
      modifies this`dstTiers, this`modRegions
      ensures !thrown && SpreadBack(x, modRegions, dstTiers)
      ensures multiset(modRegions) == multiset(old(modRegions)) && HoldsRegions(modRegions, regions)
    {
      GroupsInRange(modRegions, grpHotness);
      RowsPick(TheProblem(), x);
      SortById(regions);
      thrown := SpreadOverRegions(x);
    }

    /** The packet that reports the result. */
    method Report(x: Placement) returns (packet: DataPacket)
      requires initDone && TablesOk() && Placed(TheProblem(), x)
      ensures packet == PacketOf(TheProblem(), x)
    {
      var cost := AchievedCost(x);
      var objective := Overhead(x);
      var minTco := GetMinTco();
      var maxTco := GetMaxTco();
      var minLoss := GetMinPerfLoss();
      var maxLoss := GetMaxPerfLoss();
      packet := DataPacket(objective.Floor, resourceLimit, cost.Floor, minTco, maxTco, minLoss, maxLoss);
    }

    /** `set_solver_things_and_solve` with `prepare_data_packet`. The solver is trusted to report as
        optimal only an optimum; the packet is then filled in, and `dstTiers` holds every region's
        tier. Without an optimum, or below the reported minimum, there is no packet. */
    method Solve(solver: Problem -> SolverResult, ghost regions: seq<nat>) returns (reply: Reply)
      requires initDone && merged && TablesOk()
      requires HoldsRegions(modRegions, regions) && Grouped(modRegions) && HotnessOfGroups(modRegions, grpHotness)
      requires solver(TheProblem()).OptimalResult? ==> Optimal(TheProblem(), solver(TheProblem()).x)
      modifies this`dstTiers, this`modRegions
      ensures TheProblem() == old(TheProblem())
      ensures reply.NoPacket? <==> resourceLimit < MinTco(TheProblem()) || solver(TheProblem()).NotOptimal?
      ensures reply.NoPacket? ==> modRegions == old(modRegions) && dstTiers == old(dstTiers)
      ensures reply.Packet? ==>
                var p, x := TheProblem(), solver(TheProblem()).x;
                && Optimal(p, x) && reply.packet == PacketOf(p, x)
                && multiset(modRegions) == multiset(old(modRegions))
                && HoldsRegions(modRegions, regions) && SpreadBack(x, modRegions, dstTiers)
    {
      var minTco := GetMinTco();
      if resourceLimit < minTco {
        return NoPacket;
      }
      var p := TheProblem();
      var answer := solver(p);
      if answer.NotOptimal? {
        return NoPacket;
      }
      var thrown := Unmerge(answer.x, regions);
      assert TheProblem() == p;
      var packet := Report(answer.x);
      return Packet(packet);
    }

    /** The solver's objective value. */
    method Overhead(x: Placement) returns (total: real)
      requires TablesOk() && Placed(TheProblem(), x)
      ensures total == Objective(TheProblem(), x)
    {
      ghost var p := TheProblem();
      total := 0.0;
      var g := 0;
      while g < |x|
        invariant g <= |x| && total == ObjectiveUpTo(p, x, g)
      {
        RowTerms(p, x, g);
        var tier := FirstOne(x[g]);
        total := total + (grpHotness[g] * tierLats[tier]) as real;
        g := g + 1;
      }
    }
  }

  lemma GroupsInRange(s: seq<ModRegion>, hot: seq<nat>)
    requires Grouped(s) && HotnessOfGroups(s, hot)
    ensures forall m :: m in s ==> 0 <= m.groupId < |hot|
  {
    forall m | m in s ensures 0 <= m.groupId < |hot| {
      var i :| 0 <= i < |s| && s[i] == m;
      PositionInGroup(|s|, i);
    }
  }

  lemma RowsPick(p: Problem, x: Placement)
    requires ValidProblem(p) && Placed(p, x)
    ensures forall g :: 0 <= g < |x| ==> TierOf(x, g) < |p.units| == |x[g]|
  {
    forall g | 0 <= g < |x| ensures TierOf(x, g) < |p.units| == |x[g]| { RowTerms(p, x, g); }
  }

  lemma SortedByHotness(s: seq<ModRegion>)
    requires SortedBy(s, (m: ModRegion) => m.hotness)
    ensures forall i, j :: 0 <= i < j < |s| ==> s[i].hotness <= s[j].hotness
  {
    var key := (m: ModRegion) => m.hotness;
    forall i, j | 0 <= i < j < |s| ensures s[i].hotness <= s[j].hotness {
      assert key(s[i]) <= key(s[j]);
    }
  }

  lemma SortedById(s: seq<ModRegion>)
    requires SortedBy(s, (m: ModRegion) => m.id)
    ensures IdSorted(s)
  {
    var key := (m: ModRegion) => m.id;
    forall i, j | 0 <= i < j < |s| ensures s[i].id <= s[j].id {
      assert key(s[i]) <= key(s[j]);
    }
  }

  lemma SameElements(a: seq<ModRegion>, b: seq<ModRegion>)
    requires multiset(a) == multiset(b)
    ensures forall m :: m in a <==> m in b
  {
    forall m ensures m in a <==> m in b { assert m in multiset(a) <==> m in multiset(b); }
  }
}
