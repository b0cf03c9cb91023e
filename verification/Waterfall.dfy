/** The Waterfall policy (mapping_waterfall.cpp): every window a hot region is sent to the fastest
    tier and a cold one is sent one rung down. */
module Waterfall {
  import opened Arithmetic
  import opened Counting
  import opened Tiers
  import opened Regions

  /** The tier chosen before the swap shortcut is looked at. */
  function Demoted(tiers: Ladder, v: RegionView): int
    requires |tiers| > 0
  {
    NextTierId(tiers, if v.dst < 0 then v.curr else v.dst)
  }

  /** A cold region whose placement was still pending, found wholly outside swap, goes back up. */
  predicate SwapUpgrade(tiers: Ladder, v: RegionView, hot: bool, pagesInSwap: nat)
    requires |tiers| > 0
  {
    !hot && v.dst >= 0 && pagesInSwap == 0 && Demoted(tiers, v) >= 2
  }

  function Target(tiers: Ladder, v: RegionView, hot: bool, pagesInSwap: nat): int
    requires |tiers| > 0
  {
    if hot || SwapUpgrade(tiers, v, hot, pagesInSwap) then FastTierId(tiers) else Demoted(tiers, v)
  }

  /** The target in one expression over the table. */
  function TargetOf(tiers: Ladder, v: RegionView, hot: bool, pagesInSwap: nat): (id: int)
    requires |tiers| > 0
    ensures id == Target(tiers, v, hot, pagesInSwap)
  {
    var below := NextTierId(tiers, EffectiveTier(v));
    if hot || (v.dst >= 0 && below >= 2 && pagesInSwap == 0) then tiers[0].virtId else below
  }

  ghost predicate Placeable(tiers: Ladder, v: RegionView) {
    ValidLadder(tiers) && Known(tiers, EffectiveTier(v))
  }

  /** A cold region is upgraded exactly if its target was pending, none of its pages is in swap, and the
      next rung's id is at least 2. */
  lemma UpgradeExactly(tiers: Ladder, v: RegionView, hot: bool, pagesInSwap: nat)
    requires Placeable(tiers, v)
    ensures var i := IdxFromVirtId(tiers, EffectiveTier(v));
            && 0 <= i < |tiers| && Demoted(tiers, v) == tiers[Min(i + 1, |tiers| - 1)].virtId
            && (SwapUpgrade(tiers, v, hot, pagesInSwap)
                <==> !hot && v.dst >= 0 && pagesInSwap == 0 && tiers[Min(i + 1, |tiers| - 1)].virtId >= 2)
  {
    NextTierMovesOneRung(tiers, EffectiveTier(v));
    assert v.dst >= 0 || v.curr == EffectiveTier(v);
  }

  /** One window moves the destined tier to the top rung or one rung down, and in both cases leaves
      a target pending. */
  lemma WindowMovesTier(tiers: Ladder, v: RegionView, hot: bool, pagesInSwap: nat)
    requires Placeable(tiers, v)
    ensures var v' := v.(dst := Target(tiers, v, hot, pagesInSwap));
            var before, after := IdxFromVirtId(tiers, EffectiveTier(v)), IdxFromVirtId(tiers, EffectiveTier(v'));
            && v'.dst >= 0 && Placeable(tiers, v') && Known(tiers, v'.dst)
            && after == (if hot || (v.dst >= 0 && pagesInSwap == 0 && tiers[Min(before + 1, |tiers| - 1)].virtId >= 2) then 0
                         else Min(before + 1, |tiers| - 1))
  {
    UpgradeExactly(tiers, v, hot, pagesInSwap);
    NextTierMovesOneRung(tiers, EffectiveTier(v));
    IndexIdRoundTrip(tiers, 0);
    assert Known(tiers, tiers[0].virtId);
    assert v.dst >= 0 || v.curr == EffectiveTier(v);
  }

  /** The views after one mapping step. */
  function Mapped(tiers: Ladder, views: seq<RegionView>, hot: seq<bool>, pagesInSwap: seq<nat>): (r: seq<RegionView>)
    requires |tiers| > 0 && |hot| == |pagesInSwap| == |views|
    ensures |r| == |views|
    ensures forall i :: 0 <= i < |r| ==> r[i] == views[i].(dst := Target(tiers, views[i], hot[i], pagesInSwap[i]))
  {
    seq(|views|, i requires 0 <= i < |views| => views[i].(dst := Target(tiers, views[i], hot[i], pagesInSwap[i])))
  }

  /** Where the mapping sends a region that stands on rung i, or is on its way there: a hot one to the fast
      tier; a cold one there too exactly if its target was pending, the rung below has an id of at least 2
      and no page is in swap; and any other to the rung below. */
  lemma ShortcutExactly(tiers: Ladder, v: RegionView, hot: bool, pagesInSwap: nat, i: nat)
    requires ValidLadder(tiers) && i < |tiers| && EffectiveTier(v) == tiers[i].virtId
    ensures var below := tiers[Min(i + 1, |tiers| - 1)].virtId;
            Mapped(tiers, [v], [hot], [pagesInSwap])
            == [v.(dst := if hot || (v.dst >= 0 && below >= 2 && pagesInSwap == 0) then tiers[0].virtId else below)]
  {
    IndexIdRoundTrip(tiers, i);
    UpgradeExactly(tiers, v, hot, pagesInSwap);
  }

  function Lookup(counts: map<int, int>, id: int): int {
    if id in counts then counts[id] else 0
  }

  /** The counts once every index below n has been reset. */
  function WithZeros(counts: map<int, int>, n: nat): map<int, int> {
    if n == 0 then counts else WithZeros(counts, n - 1)[n - 1 := 0]
  }

  function Bumped(counts: map<int, int>, id: int): map<int, int> {
    counts[id := Lookup(counts, id) + 1]
  }

  /** The counts after bumping each id in turn. */
  function BumpAll(counts: map<int, int>, ids: seq<int>): map<int, int> {
    if ids == [] then counts
    else Bumped(BumpAll(counts, ids[..|ids| - 1]), ids[|ids| - 1])
  }

  lemma {:induction false} BumpAllAppend(counts: map<int, int>, a: seq<int>, b: seq<int>)
    ensures BumpAll(counts, a + b) == BumpAll(BumpAll(counts, a), b)
  {
    if b == [] {
      assert a + b == a;
    } else {
      assert (a + b)[..|a + b| - 1] == a + b[..|b| - 1];
      BumpAllAppend(counts, a, b[..|b| - 1]);
    }
  }

  lemma BumpAllPair(counts: map<int, int>, a: int, b: int)
    ensures BumpAll(counts, [b]) == Bumped(counts, b)
    ensures BumpAll(counts, [a, b]) == Bumped(Bumped(counts, a), b)
    ensures BumpAll(counts, [a]) == Bumped(counts, a)
  {
    assert [b][..0] == [] && [a][..0] == [] && [a, b][..1] == [a];
  }

  /** Bumping is counting: the order of the ids does not matter. */
  lemma {:induction false} BumpAllCounts(counts: map<int, int>, ids: seq<int>, k: int)
    ensures Lookup(BumpAll(counts, ids), k) == Lookup(counts, k) + multiset(ids)[k]
  {
    if ids != [] {
      BumpAllCounts(counts, ids[..|ids| - 1], k);
      assert ids == ids[..|ids| - 1] + [ids[|ids| - 1]];
    }
  }

  lemma {:induction false} ResetReaches(counts: map<int, int>, n: nat, k: int)
    ensures Lookup(WithZeros(counts, n), k) == if 0 <= k < n then 0 else Lookup(counts, k)
  {
    if n > 0 { ResetReaches(counts, n - 1, k); }
  }

  /** A tier's entry after a window is its hits of that window exactly if the reset, which goes by index, has
      reached its id or its entry was zero anyway. */
  lemma TallyIsFreshExactly(counts: map<int, int>, n: nat, ids: seq<int>, k: int)
    ensures Lookup(BumpAll(WithZeros(counts, n), ids), k) == multiset(ids)[k]
        <==> 0 <= k < n || Lookup(counts, k) == 0
  {
    BumpAllCounts(WithZeros(counts, n), ids, k);
    ResetReaches(counts, n, k);
  }

  /** Five tiers, the third of them with id 10: what an earlier window placed there is counted again. */
  lemma StaleEntry()
    ensures Lookup(BumpAll(WithZeros(map[10 := 7], 5), [10]), 10) == 8 && multiset([10])[10] == 1
  {
    BumpAllCounts(WithZeros(map[10 := 7], 5), [10], 10);
    ResetReaches(map[10 := 7], 5, 10);
  }

  class MappingWaterfall {
    /** `tier_region_count`, a map that outlives the windows. */
    var tierRegionCount: map<int, int>

    constructor ()
      ensures tierRegionCount == map[]
    {
      tierRegionCount := map[];
    }

    method Bump(id: int)
      modifies this`tierRegionCount
      ensures tierRegionCount == Bumped(old(tierRegionCount), id)
    {
      tierRegionCount := tierRegionCount[id := Lookup(tierRegionCount, id) + 1];
    }

    /** Reset by index, although the counts are kept by tier id. */
    method ResetCounts(tiers: Ladder)
      modifies this`tierRegionCount
      ensures tierRegionCount == WithZeros(old(tierRegionCount), |tiers|)
    {
      var t := 0;
      while t < |tiers|
        invariant t <= |tiers|
        invariant tierRegionCount == WithZeros(old(tierRegionCount), t)
      {
        tierRegionCount := tierRegionCount[t := 0];
        t := t + 1;
      }
    }

    /** The loop body: one region. */
    method PlaceRegion(tiers: Ladder, region: Region, hotThreshold: nat, pagesInSwap: nat,
                       ghost v: RegionView, ghost hot: bool, ghost target: int, ghost hits: seq<int>)
      requires |tiers| > 0 && v == region.View() && hot == (region.hotness >= hotThreshold)
      requires target == Target(tiers, v, hot, pagesInSwap) && hits == Hits(tiers, v, hot, pagesInSwap)
      modifies this`tierRegionCount, region`dst
      ensures region.dst == target && tierRegionCount == BumpAll(old(tierRegionCount), hits)
    {
      ghost var before := tierRegionCount;
      var tier := FastTierId(tiers);
      if region.hotness >= hotThreshold {
        region.dst := tier;
        Bump(tier);
      } else if region.dst < 0 {
        tier := NextTierId(tiers, region.curr);
        region.dst := tier;
        Bump(tier);
      } else {
        tier := NextTierId(tiers, region.dst);
        region.dst := tier;
        Bump(tier);
        if pagesInSwap == 0 && region.dst >= 2 {
          tier := FastTierId(tiers);
          region.dst := tier;
          Bump(tier);
        }
      }
      BumpAllPair(before, Demoted(tiers, v), FastTierId(tiers));
    }

    /** `process_regions`. The progress line divides by a tenth of the region count, so fewer than
        ten regions end the program unless there are none. */
    method ProcessRegions(tiers: Ladder, regions: seq<Region>, hotThreshold: nat, pagesInSwap: seq<nat>)
      requires |tiers| > 0 && Distinct(regions)
      requires |regions| == 0 || |regions| >= 10
      requires |pagesInSwap| == |regions|
      modifies this`tierRegionCount, regions`dst
      ensures Views(regions) == Mapped(tiers, old(Views(regions)), old(Hot(regions, hotThreshold)), pagesInSwap)
      ensures forall k :: 0 <= k < |regions| && old(regions[k].hotness) >= hotThreshold ==>
                regions[k].dst == tiers[0].virtId
      ensures forall k :: 0 <= k < |regions| && old(regions[k].hotness) < hotThreshold ==>
                var below := NextTierId(tiers, old(EffectiveTier(regions[k].View())));
                regions[k].dst == if old(regions[k].dst) >= 0 && below >= 2 && pagesInSwap[k] == 0 then tiers[0].virtId
                                  else below
      ensures tierRegionCount == BumpAll(WithZeros(old(tierRegionCount), |tiers|),
                                         AllHits(tiers, old(Views(regions)), old(Hot(regions, hotThreshold)), pagesInSwap, |regions|))
    {
      ghost var views, hot := Views(regions), Hot(regions, hotThreshold);
      ResetCounts(tiers);
      ghost var lists := HitLists(tiers, views, hot, pagesInSwap);
      PlanAll(tiers, views, hot, pagesInSwap, |regions|);
      PlaceAll(tiers, regions, hotThreshold, pagesInSwap, views, hot, Mapped(tiers, views, hot, pagesInSwap), lists);
      TallyIsFlat(WithZeros(old(tierRegionCount), |tiers|), lists, |regions|);
      FlatIsAllHits(tiers, views, hot, pagesInSwap, lists, |regions|);
      assert Views(regions) == Mapped(tiers, views, hot, pagesInSwap);
      forall k | 0 <= k < |regions|
        ensures regions[k].dst == TargetOf(tiers, views[k], hot[k], pagesInSwap[k])
      {
        assert regions[k].View() == Views(regions)[k];
      }
    }

    /** The loop over the regions. */
    method PlaceAll(tiers: Ladder, regions: seq<Region>, hotThreshold: nat, pagesInSwap: seq<nat>,
                    ghost views: seq<RegionView>, ghost hot: seq<bool>, ghost mapped: seq<RegionView>,
                    ghost lists: seq<seq<int>>)
      requires |tiers| > 0 && Distinct(regions) && |pagesInSwap| == |regions| == |views| == |hot|
      requires forall k :: 0 <= k < |regions| ==>
                 views[k] == regions[k].View() && hot[k] == (regions[k].hotness >= hotThreshold)
      requires |mapped| == |lists| == |regions| && Planned(tiers, views, hot, pagesInSwap, mapped, lists, |regions|)
      modifies this`tierRegionCount, regions`dst
      ensures forall k :: 0 <= k < |regions| ==> regions[k].dst == mapped[k].dst
      ensures tierRegionCount == Tally(old(tierRegionCount), lists, |regions|)
    {
      ghost var base := tierRegionCount;
      var i := 0;
      while i < |regions|
        invariant i <= |regions|
        invariant forall k :: i <= k < |regions| ==> regions[k].dst == views[k].dst
        invariant forall k :: 0 <= k < i ==> regions[k].dst == mapped[k].dst
        invariant tierRegionCount == Tally(base, lists, i)
      {
        assert regions[i].View() == views[i] && hot[i] == (regions[i].hotness >= hotThreshold);
        PlannedAt(tiers, views, hot, pagesInSwap, mapped, lists, |regions|, i);
        PlaceRegion(tiers, regions[i], hotThreshold, pagesInSwap[i], views[i], hot[i], mapped[i].dst, lists[i]);
        i := i + 1;
      }
    }
  }

  function HotUpTo(regions: seq<Region>, hotThreshold: nat, n: nat): (hot: seq<bool>)
    requires n <= |regions|
    reads regions
    ensures |hot| == n && forall i :: 0 <= i < n ==> hot[i] == (regions[i].hotness >= hotThreshold)
  {
    if n == 0 then [] else HotUpTo(regions, hotThreshold, n - 1) + [regions[n - 1].hotness >= hotThreshold]
  }

  function Hot(regions: seq<Region>, hotThreshold: nat): (hot: seq<bool>)
    reads regions
    ensures |hot| == |regions|
    ensures forall i :: 0 <= i < |hot| ==> hot[i] == (regions[i].hotness >= hotThreshold)
  {
    HotUpTo(regions, hotThreshold, |regions|)
  }

  /** The tiers one region is counted under: its target, and for an upgraded region also the rung
      it was first sent to. */
  function Hits(tiers: Ladder, v: RegionView, hot: bool, pagesInSwap: nat): seq<int>
    requires |tiers| > 0
  {
    if SwapUpgrade(tiers, v, hot, pagesInSwap) then [Demoted(tiers, v), FastTierId(tiers)]
    else [Target(tiers, v, hot, pagesInSwap)]
  }

  /** The hits of the first n regions, in order. */
  function AllHits(tiers: Ladder, views: seq<RegionView>, hot: seq<bool>, pagesInSwap: seq<nat>, n: nat): seq<int>
    requires |tiers| > 0 && |views| == |hot| == |pagesInSwap| && n <= |views|
  {
    if n == 0 then []
    else AllHits(tiers, views, hot, pagesInSwap, n - 1) + Hits(tiers, views[n - 1], hot[n - 1], pagesInSwap[n - 1])
  }

  /** The hits, region by region. */
  function HitLists(tiers: Ladder, views: seq<RegionView>, hot: seq<bool>, pagesInSwap: seq<nat>): (lists: seq<seq<int>>)
    requires |tiers| > 0 && |views| == |hot| == |pagesInSwap|
    ensures |lists| == |views|
    ensures forall i :: 0 <= i < |lists| ==> lists[i] == Hits(tiers, views[i], hot[i], pagesInSwap[i])
  {
    seq(|views|, i requires 0 <= i < |views| => Hits(tiers, views[i], hot[i], pagesInSwap[i]))
  }

  /** What the loop is to do with each of the first n regions. */
  predicate Planned(tiers: Ladder, views: seq<RegionView>, hot: seq<bool>, pagesInSwap: seq<nat>,
                    mapped: seq<RegionView>, lists: seq<seq<int>>, n: nat)
    requires |tiers| > 0 && |views| == |hot| == |pagesInSwap| == |mapped| == |lists| && n <= |views|
  {
    n == 0 || (&& Planned(tiers, views, hot, pagesInSwap, mapped, lists, n - 1)
               && mapped[n - 1].dst == Target(tiers, views[n - 1], hot[n - 1], pagesInSwap[n - 1])
               && lists[n - 1] == Hits(tiers, views[n - 1], hot[n - 1], pagesInSwap[n - 1]))
  }

  lemma {:induction false} PlannedAt(tiers: Ladder, views: seq<RegionView>, hot: seq<bool>, pagesInSwap: seq<nat>,
                                     mapped: seq<RegionView>, lists: seq<seq<int>>, n: nat, i: nat)
    requires |tiers| > 0 && |views| == |hot| == |pagesInSwap| == |mapped| == |lists| && i < n <= |views|
    requires Planned(tiers, views, hot, pagesInSwap, mapped, lists, n)
    ensures mapped[i].dst == Target(tiers, views[i], hot[i], pagesInSwap[i])
    ensures lists[i] == Hits(tiers, views[i], hot[i], pagesInSwap[i])
  {
    if i < n - 1 { PlannedAt(tiers, views, hot, pagesInSwap, mapped, lists, n - 1, i); }
  }

  lemma {:induction false} PlanAll(tiers: Ladder, views: seq<RegionView>, hot: seq<bool>, pagesInSwap: seq<nat>, n: nat)
    requires |tiers| > 0 && |views| == |hot| == |pagesInSwap| && n <= |views|
    ensures Planned(tiers, views, hot, pagesInSwap, Mapped(tiers, views, hot, pagesInSwap),
                    HitLists(tiers, views, hot, pagesInSwap), n)
  {
    if n > 0 { PlanAll(tiers, views, hot, pagesInSwap, n - 1); }
  }

  /** The counts after the first n lists of hits. */
  function Tally(base: map<int, int>, lists: seq<seq<int>>, n: nat): map<int, int>
    requires n <= |lists|
  {
    if n == 0 then base else BumpAll(Tally(base, lists, n - 1), lists[n - 1])
  }

  function Flat(lists: seq<seq<int>>, n: nat): seq<int>
    requires n <= |lists|
  {
    if n == 0 then [] else Flat(lists, n - 1) + lists[n - 1]
  }

  lemma {:induction false} TallyIsFlat(base: map<int, int>, lists: seq<seq<int>>, n: nat)
    requires n <= |lists|
    ensures Tally(base, lists, n) == BumpAll(base, Flat(lists, n))
  {
    if n > 0 {
      TallyIsFlat(base, lists, n - 1);
      BumpAllAppend(base, Flat(lists, n - 1), lists[n - 1]);
    }
  }

  lemma {:induction false} FlatIsAllHits(tiers: Ladder, views: seq<RegionView>, hot: seq<bool>, pagesInSwap: seq<nat>,
                                         lists: seq<seq<int>>, n: nat)
    requires |tiers| > 0 && |views| == |hot| == |pagesInSwap| == |lists| && n <= |views|
    requires forall i :: 0 <= i < |lists| ==> lists[i] == Hits(tiers, views[i], hot[i], pagesInSwap[i])
    ensures Flat(lists, n) == AllHits(tiers, views, hot, pagesInSwap, n)
  {
    if n > 0 { FlatIsAllHits(tiers, views, hot, pagesInSwap, lists, n - 1); }
  }

  function Upgrades(tiers: Ladder, views: seq<RegionView>, hot: seq<bool>, pagesInSwap: seq<nat>, n: nat): nat
    requires |tiers| > 0 && |views| == |hot| == |pagesInSwap| && n <= |views|
  {
    if n == 0 then 0
    else Upgrades(tiers, views, hot, pagesInSwap, n - 1)
         + if SwapUpgrade(tiers, views[n - 1], hot[n - 1], pagesInSwap[n - 1]) then 1 else 0
  }

  lemma CountAppend(a: seq<int>, b: seq<int>, k: int)
    ensures multiset(a + b)[k] == multiset(a)[k] + multiset(b)[k]
  {
    assert multiset(a + b) == multiset(a) + multiset(b);
  }

  /** A region counts once under its target and, if it was upgraded, once under the tier it passed. */
  lemma HitsOfOne(tiers: Ladder, v: RegionView, hot: bool, pagesInSwap: nat, k: int)
    requires |tiers| > 0
    ensures multiset(Hits(tiers, v, hot, pagesInSwap))[k]
            == (if Target(tiers, v, hot, pagesInSwap) == k then 1 else 0)
               + (if SwapUpgrade(tiers, v, hot, pagesInSwap) && Demoted(tiers, v) == k then 1 else 0)
  {
    var a, b := Demoted(tiers, v), FastTierId(tiers);
    assert multiset([a, b])[k] == (if a == k then 1 else 0) + if b == k then 1 else 0;
  }

  /** Each region adds its own hits to those of the regions before it. */
  lemma NextHits(tiers: Ladder, views: seq<RegionView>, hot: seq<bool>, pagesInSwap: seq<nat>, n: nat, k: int)
    requires |tiers| > 0 && |views| == |hot| == |pagesInSwap| && n < |views|
    ensures multiset(AllHits(tiers, views, hot, pagesInSwap, n + 1))[k]
            == multiset(AllHits(tiers, views, hot, pagesInSwap, n))[k]
               + multiset(Hits(tiers, views[n], hot[n], pagesInSwap[n]))[k]
  {
    CountAppend(AllHits(tiers, views, hot, pagesInSwap, n), Hits(tiers, views[n], hot[n], pagesInSwap[n]), k);
  }

  /** The hits on tier k, region by region. */
  function HitCounts(tiers: Ladder, views: seq<RegionView>, hot: seq<bool>, pagesInSwap: seq<nat>, k: int): (c: seq<nat>)
    requires |tiers| > 0 && |views| == |hot| == |pagesInSwap|
    ensures |c| == |views|
    ensures forall i :: 0 <= i < |c| ==> c[i] == multiset(Hits(tiers, views[i], hot[i], pagesInSwap[i]))[k]
  {
    seq(|views|, i requires 0 <= i < |views| => multiset(Hits(tiers, views[i], hot[i], pagesInSwap[i]))[k])
  }

  lemma {:induction false} HitsAddUp(tiers: Ladder, views: seq<RegionView>, hot: seq<bool>, pagesInSwap: seq<nat>,
                                     k: int, c: seq<nat>, n: nat)
    requires |tiers| > 0 && |views| == |hot| == |pagesInSwap| && n <= |views|
    requires c == HitCounts(tiers, views, hot, pagesInSwap, k)
    ensures multiset(AllHits(tiers, views, hot, pagesInSwap, n))[k] == Total(c[..n])
  {
    if n > 0 {
      HitsAddUp(tiers, views, hot, pagesInSwap, k, c, n - 1);
      NextHits(tiers, views, hot, pagesInSwap, n - 1, k);
      assert c[..n][..n - 1] == c[..n - 1];
    }
  }

  /** The regions whose target is tier k. */
  function SentTo(tiers: Ladder, views: seq<RegionView>, hot: seq<bool>, pagesInSwap: seq<nat>, k: int): (f: seq<bool>)
    requires |tiers| > 0 && |views| == |hot| == |pagesInSwap|
    ensures |f| == |views|
    ensures forall i :: 0 <= i < |f| ==> f[i] == (Target(tiers, views[i], hot[i], pagesInSwap[i]) == k)
  {
    seq(|views|, i requires 0 <= i < |views| => Target(tiers, views[i], hot[i], pagesInSwap[i]) == k)
  }

  /** The regions that were sent to tier k first and then up from swap. */
  function Passed(tiers: Ladder, views: seq<RegionView>, hot: seq<bool>, pagesInSwap: seq<nat>, k: int): (f: seq<bool>)
    requires |tiers| > 0 && |views| == |hot| == |pagesInSwap|
    ensures |f| == |views|
    ensures forall i :: 0 <= i < |f| ==>
              f[i] == (SwapUpgrade(tiers, views[i], hot[i], pagesInSwap[i]) && Demoted(tiers, views[i]) == k)
  {
    seq(|views|, i requires 0 <= i < |views| =>
          SwapUpgrade(tiers, views[i], hot[i], pagesInSwap[i]) && Demoted(tiers, views[i]) == k)
  }

  lemma HitsAreCounts(tiers: Ladder, views: seq<RegionView>, hot: seq<bool>, pagesInSwap: seq<nat>, k: int)
    requires |tiers| > 0 && |views| == |hot| == |pagesInSwap|
    ensures Total(HitCounts(tiers, views, hot, pagesInSwap, k))
            == Count(SentTo(tiers, views, hot, pagesInSwap, k)) + Count(Passed(tiers, views, hot, pagesInSwap, k))
  {
    var c := HitCounts(tiers, views, hot, pagesInSwap, k);
    var a, b := SentTo(tiers, views, hot, pagesInSwap, k), Passed(tiers, views, hot, pagesInSwap, k);
    forall i | 0 <= i < |views| ensures c[i] == (if a[i] then 1 else 0) + if b[i] then 1 else 0 {
      HitsOfOne(tiers, views[i], hot[i], pagesInSwap[i], k);
    }
    TotalOfTwo(c, a, b);
  }

  lemma AllHitsAreCounts(tiers: Ladder, views: seq<RegionView>, hot: seq<bool>, pagesInSwap: seq<nat>, k: int)
    requires |tiers| > 0 && |views| == |hot| == |pagesInSwap|
    ensures multiset(AllHits(tiers, views, hot, pagesInSwap, |views|))[k]
            == Count(SentTo(tiers, views, hot, pagesInSwap, k)) + Count(Passed(tiers, views, hot, pagesInSwap, k))
  {
    var c := HitCounts(tiers, views, hot, pagesInSwap, k);
    HitsAddUp(tiers, views, hot, pagesInSwap, k, c, |views|);
    assert c[..|views|] == c;
    HitsAreCounts(tiers, views, hot, pagesInSwap, k);
  }

  lemma ResetAndBumped(counts: map<int, int>, n: nat, ids: seq<int>, k: int)
    ensures Lookup(BumpAll(WithZeros(counts, n), ids), k)
            == multiset(ids)[k] + if 0 <= k < n then 0 else Lookup(counts, k)
  {
    BumpAllCounts(WithZeros(counts, n), ids, k);
    ResetReaches(counts, n, k);
  }

  /** Tier k's entry of the tally that `ProcessRegions` leaves. */
  function Entry(counts: map<int, int>, tiers: Ladder, views: seq<RegionView>, hot: seq<bool>, pagesInSwap: seq<nat>,
                 k: int): int
    requires |tiers| > 0 && |views| == |hot| == |pagesInSwap|
  {
    Lookup(BumpAll(WithZeros(counts, |tiers|), AllHits(tiers, views, hot, pagesInSwap, |views|)), k)
  }

  /** What the tally says of tier k after a window: the regions sent there, those only passing through,
      and what the reset left over. */
  lemma TallyAfterWindow(counts: map<int, int>, tiers: Ladder, views: seq<RegionView>, hot: seq<bool>,
                         pagesInSwap: seq<nat>, k: int)
    requires |tiers| > 0 && |views| == |hot| == |pagesInSwap|
    ensures Entry(counts, tiers, views, hot, pagesInSwap, k)
            == Count(SentTo(tiers, views, hot, pagesInSwap, k)) + Count(Passed(tiers, views, hot, pagesInSwap, k))
               + if 0 <= k < |tiers| then 0 else Lookup(counts, k)
  {
    ResetAndBumped(counts, |tiers|, AllHits(tiers, views, hot, pagesInSwap, |views|), k);
    AllHitsAreCounts(tiers, views, hot, pagesInSwap, k);
  }

  /** A tier's entry is the number of regions sent to it exactly if the reset has reached its id, or its entry
      was zero anyway, and no region only passed through it. */
  lemma TallyCountsRegionsExactly(counts: map<int, int>, tiers: Ladder, views: seq<RegionView>, hot: seq<bool>,
                                  pagesInSwap: seq<nat>, k: int)
    requires |tiers| > 0 && |views| == |hot| == |pagesInSwap| && Lookup(counts, k) >= 0
    ensures Entry(counts, tiers, views, hot, pagesInSwap, k) == Count(SentTo(tiers, views, hot, pagesInSwap, k))
        <==> (0 <= k < |tiers| || Lookup(counts, k) == 0) && true !in Passed(tiers, views, hot, pagesInSwap, k)
  {
    TallyAfterWindow(counts, tiers, views, hot, pagesInSwap, k);
    NothingExtra(Passed(tiers, views, hot, pagesInSwap, k), if 0 <= k < |tiers| then 0 else Lookup(counts, k));
  }

  lemma NothingExtra(passed: seq<bool>, left: int)
    requires left >= 0
    ensures Count(passed) + left == 0 <==> left == 0 && true !in passed
  {
    CountZeroExactly(passed);
  }

  /** One cold region on its way from tier 1 to tier 10 with no page in swap: it is sent to the fast tier, and
      counted under tier 10 as well. */
  lemma UpgradedRegionCountsTwice(tiers: Ladder)
    requires |tiers| == 3 && tiers[0].virtId == 0 && tiers[1].virtId == 1 && tiers[2].virtId == 10
    ensures var v := RegionView(0, REGION_SIZE, 0, 1);
            && Target(tiers, v, false, 0) == 0
            && Entry(map[], tiers, [v], [false], [0], 10) == 1
  {
    var v := RegionView(0, REGION_SIZE, 0, 1);
    assert IdxFromVirtId(tiers, 1) == 1;
    assert Demoted(tiers, v) == 10;
    TallyAfterWindow(map[], tiers, [v], [false], [0], 10);
    assert SentTo(tiers, [v], [false], [0], 10) == [false] && Passed(tiers, [v], [false], [0], 10) == [true];
    assert Count([false]) == 0 && Count([true]) == 1 by {
      assert [false][..0] == [] && [true][..0] == [];
    }
  }

  /** A window makes as many hits as there are regions and, on top, swap upgrades. */
  lemma {:induction false} TallyCountsUpgradesTwice(tiers: Ladder, views: seq<RegionView>, hot: seq<bool>,
                                                    pagesInSwap: seq<nat>, n: nat)
    requires |tiers| > 0 && |views| == |hot| == |pagesInSwap| && n <= |views|
    ensures |AllHits(tiers, views, hot, pagesInSwap, n)| == n + Upgrades(tiers, views, hot, pagesInSwap, n)
  {
    if n > 0 {
      TallyCountsUpgradesTwice(tiers, views, hot, pagesInSwap, n - 1);
    }
  }
}
