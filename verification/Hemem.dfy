/** The HeMem policy (mapping_hemem.cpp): regions at or above a hotness cut go to the fast tier, all
    others to the slow one. */
module Hemem {
  import opened Tiers
  import opened Regions
  import opened SchedulerWindow

  /** The index of the first percentile equal to `th`, or the length. */
  function PercentileIndex(percentiles: seq<real>, th: real): (i: nat)
    ensures i <= |percentiles|
    ensures i < |percentiles| ==> percentiles[i] == th
    ensures forall k :: 0 <= k < i ==> percentiles[k] != th
  {
    if percentiles == [] || percentiles[0] == th then 0
    else 1 + PercentileIndex(percentiles[1..], th)
  }

  /** The cut: the value of the named percentile, or the setting itself if it names none. */
  function HotThreshold(percentiles: seq<real>, values: seq<real>, th: real): int
    requires |values| == |percentiles|
  {
    var i := PercentileIndex(percentiles, th);
    if i < |percentiles| then values[i].Floor else th.Floor
  }

  function Target(tiers: Ladder, slowTier: int, hotness: nat, threshold: int): int
    requires |tiers| > 0 && slowTier >= -1
  {
    if hotness >= threshold then FastTierId(tiers) else SlowTierId(tiers, slowTier)
  }

  /** `process_regions`: 1 if the traced process has died, -1 for a setting below one. */
  method ProcessRegions(alive: bool, percentiles: seq<real>, values: seq<real>, th: real,
                        tiers: Ladder, slowTier: int, regions: seq<Region>)
    returns (ret: int)
    requires |tiers| > 0 && slowTier >= -1 && |values| == |percentiles| && Distinct(regions)
    requires forall i :: 0 <= i < |values| ==> values[i] >= 0.0
    modifies regions`dst
    ensures ret == if !alive then 1 else if th < 1.0 then -1 else 0
    ensures ret == 0 ==> forall i :: 0 <= i < |regions| ==>
              regions[i].dst == if regions[i].hotness >= HotThreshold(percentiles, values, th) then tiers[0].virtId
                                else if 0 <= slowTier < |tiers| then tiers[slowTier].virtId
                                else tiers[|tiers| - 1].virtId
    ensures forall i :: 0 <= i < |regions| ==>
              regions[i].dst == if ret != 0 then old(regions[i].dst)
                                else Target(tiers, slowTier, regions[i].hotness, HotThreshold(percentiles, values, th))
  {
    if !alive { return 1; }
    if th < 1.0 { return -1; }
    var threshold := th.Floor;
    var p := 0;
    while p < |percentiles|
      invariant p <= |percentiles|
      invariant forall k :: 0 <= k < p ==> percentiles[k] != th
      invariant threshold == th.Floor
    {
      if percentiles[p] == th {
        threshold := values[p].Floor;
        break;
      }
      p := p + 1;
    }
    assert threshold == HotThreshold(percentiles, values, th);
    var i := 0;
    while i < |regions|
      invariant i <= |regions|
      invariant forall k :: 0 <= k < i ==> regions[k].dst == Target(tiers, slowTier, regions[k].hotness, threshold)
    {
      regions[i].dst := if regions[i].hotness >= threshold then FastTierId(tiers) else SlowTierId(tiers, slowTier);
      i := i + 1;
    }
    return 0;
  }

  /** The cut is the whole part of the first percentile value whose percentile equals the setting, and without
      one the whole part of the setting. */
  lemma CutIsNamedValue(percentiles: seq<real>, values: seq<real>, th: real)
    requires |values| == |percentiles|
    ensures forall i :: 0 <= i < |percentiles| && percentiles[i] == th && (forall k :: 0 <= k < i ==> percentiles[k] != th) ==>
              HotThreshold(percentiles, values, th) as real <= values[i] < HotThreshold(percentiles, values, th) as real + 1.0
    ensures th !in percentiles ==>
              HotThreshold(percentiles, values, th) as real <= th < HotThreshold(percentiles, values, th) as real + 1.0
  {
    var at := PercentileIndex(percentiles, th);
    forall i | 0 <= i < |percentiles| && percentiles[i] == th && (forall k :: 0 <= k < i ==> percentiles[k] != th)
      ensures i == at
    {
    }
  }

  /** After a window that mapped the regions by this cut, however its migration went, every region is
      destined for its side of the cut; if the two tiers differ, for the fast one exactly if its hotness
      reached the cut. */
  lemma WindowKeepsCut(d: Daemon, regions: seq<RegionView>, reach: seq<nat>, m: Migration,
                       hotness: seq<nat>, threshold: int, slowTier: int)
    requires Ready(d, regions, reach) && MigrationOk(d, m)
    requires slowTier >= -1 && |hotness| == |regions|
    requires forall r :: 0 <= r < |regions| ==> regions[r].dst == Target(d.tiers, slowTier, hotness[r], threshold)
    ensures var s := Window(d, regions, reach, m);
            forall r :: 0 <= r < |regions| ==>
              && EffectiveTier(s.regions[r]) == Target(d.tiers, slowTier, hotness[r], threshold)
              && IdxFromVirtId(d.tiers, EffectiveTier(s.regions[r]))
                 == (if hotness[r] >= threshold then 0 else if 0 <= slowTier < |d.tiers| then slowTier else |d.tiers| - 1)
              && (SlowTierId(d.tiers, slowTier) != FastTierId(d.tiers) ==>
                    (EffectiveTier(s.regions[r]) == FastTierId(d.tiers) <==> hotness[r] >= threshold))
  {
    SlowTierRung(d.tiers, slowTier);
    WindowKeepsDestinedTiers(d, regions, reach, m);
  }
}
