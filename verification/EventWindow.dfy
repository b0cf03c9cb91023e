/** One profile window up to the migration, under the Waterfall policy: prepare the regions, count the
    batch, map every region (the head of `th_process_events_and_migrate`). */
module EventWindow {
  import opened Tiers
  import opened Regions
  import opened AddrSpaceUtil
  import opened PebsFixed
  import M = SchedulerWindow
  import W = Waterfall

  /** `OutOfRange` is the undefined rest of a window that indexed past its regions. */
  datatype Verdict = Skipped | NotCounted | Ended | OutOfRange | Mapped

  /** The regions were rebuilt: all of them stand in the fast tier without a target. */
  predicate Rebuilt(views: seq<RegionView>) {
    forall k :: 0 <= k < |views| ==> views[k].curr == FAST_NODE && views[k].dst == -1
  }

  /** How many pages of each region are found in swap. */
  function SwapCounts(pagesInSwap: nat -> nat, n: nat): (swap: seq<nat>)
    ensures |swap| == n && forall k :: 0 <= k < n ==> swap[k] == pagesInSwap(k)
  {
    seq(n, k requires 0 <= k => pagesInSwap(k))
  }

  predicate MappedFrom(tiers: Ladder, views: seq<RegionView>, views': seq<RegionView>, hot: seq<bool>,
                       pagesInSwap: nat -> nat) {
    && |tiers| > 0 && |views| == |hot|
    && views' == W.Mapped(tiers, views, hot, SwapCounts(pagesInSwap, |views|))
  }

  /** The policy's progress line divides by a tenth of the region count. */
  predicate EnoughRegions(range: AddressRange) {
    TileCount(Len(range)) == 0 || TileCount(Len(range)) >= 10
  }

  /** A batch that could not be counted stops the window; a one-page batch does not. */
  function VerdictOf(outcome: Outcome): Verdict {
    match outcome
    case Exited => Ended
    case OutOfRange => Verdict.OutOfRange
    case CommEmpty => NotCounted
    case SinglePage => Mapped
    case Updated => Mapped
  }

  /** Whether each tile's events in the batch reach the threshold. */
  ghost function HotTiles(events: seq<AddrEntry>, range: AddressRange, threshold: nat, n: nat): (hot: seq<bool>)
    ensures |hot| == n
  {
    if n == 0 then []
    else HotTiles(events, range, threshold, n - 1) + [|InTile(events, range, n - 1)| >= threshold]
  }

  lemma {:induction false} HotTilesAre(events: seq<AddrEntry>, range: AddressRange, threshold: nat, n: nat)
    ensures forall k :: 0 <= k < n ==>
              HotTiles(events, range, threshold, n)[k] == (|InTile(events, range, k)| >= threshold)
  {
    if n > 0 { HotTilesAre(events, range, threshold, n - 1); }
  }

  ghost predicate HotByEvents(hot: seq<bool>, events: seq<AddrEntry>, range: AddressRange, threshold: nat) {
    hot == HotTiles(events, range, threshold, |hot|)
  }

  /** Whether the hotness the regions start the window with reaches the threshold. */
  function HotStart(threshold: nat, isInit: bool, range: AddressRange, reportedInit: AddressRange,
                    reported: AddressRange, carried: nat -> nat, n: nat): (hot: seq<bool>)
    ensures |hot| == n
  {
    if n == 0 then []
    else HotStart(threshold, isInit, range, reportedInit, reported, carried, n - 1)
         + [StartHotness(isInit, range, reportedInit, reported, carried, n - 1) >= threshold]
  }

  lemma {:induction false} HotStartIs(threshold: nat, isInit: bool, range: AddressRange, reportedInit: AddressRange,
                                      reported: AddressRange, carried: nat -> nat, n: nat)
    ensures forall k :: 0 <= k < n ==>
              HotStart(threshold, isInit, range, reportedInit, reported, carried, n)[k]
              == (StartHotness(isInit, range, reportedInit, reported, carried, k) >= threshold)
  {
    if n > 0 { HotStartIs(threshold, isInit, range, reportedInit, reported, carried, n - 1); }
  }

  predicate HotByStart(hot: seq<bool>, threshold: nat, isInit: bool, range: AddressRange,
                       reportedInit: AddressRange, reported: AddressRange, carried: nat -> nat) {
    hot == HotStart(threshold, isInit, range, reportedInit, reported, carried, |hot|)
  }

  /** What the hot flags of a mapped window rest on: its events if they were counted; else, for a one-page
      batch, the hotness that the regions had or, if they were rebuilt, started with. */
  ghost predicate HotAs(hot: seq<bool>, outcome: Outcome, batch: seq<AddrEntry>, range: AddressRange, threshold: nat,
                  wasHot: seq<bool>, wasInit: bool, was: AddressRange, reportedInit: AddressRange,
                  reported: AddressRange, carried: nat -> nat) {
    if outcome == Updated then HotByEvents(hot, batch, range, threshold)
    else if KeepsRegions(wasInit, was, reported) then hot == wasHot
    else HotByStart(hot, threshold, wasInit, was, reportedInit, reported, carried)
  }

  lemma HotnessMakesHot(regions: seq<Region>, events: seq<AddrEntry>, range: AddressRange, threshold: nat)
    requires forall k :: 0 <= k < |regions| ==> regions[k].hotness == |InTile(events, range, k)|
    ensures HotByEvents(W.Hot(regions, threshold), events, range, threshold)
  {
    HotTilesAre(events, range, threshold, |regions|);
  }

  lemma StartMakesHot(regions: seq<Region>, threshold: nat, isInit: bool, range: AddressRange,
                      reportedInit: AddressRange, reported: AddressRange, carried: nat -> nat)
    requires forall k :: 0 <= k < |regions| ==>
               regions[k].hotness == StartHotness(isInit, range, reportedInit, reported, carried, k)
    ensures HotByStart(W.Hot(regions, threshold), threshold, isInit, range, reportedInit, reported, carried)
  {
    HotStartIs(threshold, isInit, range, reportedInit, reported, carried, |regions|);
  }

  class Tracker {
    const regionLogic: RegionPebsFixed
    const mapping: W.MappingWaterfall

    constructor (regionLogic: RegionPebsFixed, mapping: W.MappingWaterfall)
      ensures this.regionLogic == regionLogic && this.mapping == mapping
    {
      this.regionLogic, this.mapping := regionLogic, mapping;
    }

    ghost predicate Valid()
      reads this, regionLogic, regionLogic.regions
    {
      if regionLogic.isInit then regionLogic.Tiled() else regionLogic.regions == []
    }

    function Current(): seq<RegionView>
      reads this, regionLogic, regionLogic.regions
    {
      Views(regionLogic.regions)
    }

    /** The window's work: for a live process and a non-empty batch the regions are brought up to date
        with the reported range, then counted and mapped. `views` are the regions that were mapped and
        `hot` says which of them were taken as hot. */
    method ProcessEvents(
      alive: bool, batch: seq<AddrEntry>, reportedInit: AddressRange, reported: AddressRange, carried: nat -> nat,
      commEmpty: bool, tiers: Ladder, threshold: nat, pagesInSwap: nat -> nat)
      returns (verdict: Verdict, ghost outcome: Outcome, ghost views: seq<RegionView>, ghost hot: seq<bool>)
      requires Valid() && |tiers| > 0
      requires EnoughRegions(WindowRange(regionLogic.isInit, regionLogic.range, reportedInit, reported))
      modifies regionLogic, regionLogic.regions, mapping
      ensures Valid()
      ensures verdict == Skipped <==> batch == [] || !alive
      ensures verdict == Skipped ==> regionLogic.regions == old(regionLogic.regions) && Current() == old(Current())
      ensures verdict != Skipped ==>
                && regionLogic.range == old(WindowRange(regionLogic.isInit, regionLogic.range, reportedInit, reported))
                && (if old(KeepsRegions(regionLogic.isInit, regionLogic.range, reported)) then views == old(Current())
                    else Rebuilt(views))
                && outcome == OutcomeOn(batch, regionLogic.range, commEmpty) && verdict == VerdictOf(outcome)
      ensures verdict == Mapped <==> batch != [] && alive && outcome in {SinglePage, Updated}
      ensures verdict == Ended <==> batch != [] && alive && outcome == Exited
      ensures verdict == NotCounted <==> batch != [] && alive && outcome == CommEmpty
      ensures verdict in {NotCounted, Ended} ==> Current() == views
      ensures verdict == Mapped ==>
                && MappedFrom(tiers, views, Current(), hot, pagesInSwap)
                && HotAs(hot, outcome, batch, regionLogic.range, threshold,
                         old(W.Hot(regionLogic.regions, threshold)), old(regionLogic.isInit), old(regionLogic.range),
                         reportedInit, reported, carried)
    {
      verdict, outcome, views, hot := Skipped, SinglePage, [], [];
      if |batch| == 0 || !alive {
        return;
      }
      verdict, outcome, views, hot :=
        RunWindow(batch, reportedInit, reported, carried, commEmpty, tiers, threshold, pagesInSwap);
    }

    method RunWindow(
      batch: seq<AddrEntry>, reportedInit: AddressRange, reported: AddressRange, carried: nat -> nat,
      commEmpty: bool, tiers: Ladder, threshold: nat, pagesInSwap: nat -> nat)
      returns (verdict: Verdict, ghost outcome: Outcome, ghost views: seq<RegionView>, ghost hot: seq<bool>)
      requires Valid() && |tiers| > 0
      requires EnoughRegions(WindowRange(regionLogic.isInit, regionLogic.range, reportedInit, reported))
      modifies regionLogic, regionLogic.regions, mapping
      ensures Valid()
      ensures regionLogic.range == old(WindowRange(regionLogic.isInit, regionLogic.range, reportedInit, reported))
      ensures if old(KeepsRegions(regionLogic.isInit, regionLogic.range, reported)) then views == old(Current())
              else Rebuilt(views)
      ensures outcome == OutcomeOn(batch, regionLogic.range, commEmpty) && verdict == VerdictOf(outcome)
      ensures verdict in {NotCounted, Ended} ==> Current() == views
      ensures verdict == Mapped ==>
                && MappedFrom(tiers, views, Current(), hot, pagesInSwap)
                && HotAs(hot, outcome, batch, regionLogic.range, threshold,
                         old(W.Hot(regionLogic.regions, threshold)), old(regionLogic.isInit), old(regionLogic.range),
                         reportedInit, reported, carried)
    {
      PrepareRegions(reportedInit, reported, carried, threshold);
      views := Current();
      verdict, outcome, hot := CountAndFinish(batch, commEmpty, tiers, threshold, pagesInSwap);
    }

    method CountAndFinish(batch: seq<AddrEntry>, commEmpty: bool, tiers: Ladder, threshold: nat, pagesInSwap: nat -> nat)
      returns (verdict: Verdict, ghost outcome: Outcome, ghost hot: seq<bool>)
      requires regionLogic.Tiled() && |tiers| > 0 && EnoughRegions(regionLogic.range)
      modifies regionLogic.regions, mapping
      ensures regionLogic.Tiled()
      ensures outcome == OutcomeOn(batch, regionLogic.range, commEmpty) && verdict == VerdictOf(outcome)
      ensures verdict in {NotCounted, Ended} ==> Current() == old(Current())
      ensures verdict == Mapped ==>
                && MappedFrom(tiers, old(Current()), Current(), hot, pagesInSwap)
                && (if outcome == Updated then HotByEvents(hot, batch, regionLogic.range, threshold)
                    else hot == old(W.Hot(regionLogic.regions, threshold)))
    {
      var counted := Count(batch, commEmpty, threshold);
      outcome := counted;
      verdict, hot := FinishWindow(counted, tiers, threshold, pagesInSwap);
    }

    method PrepareRegions(reportedInit: AddressRange, reported: AddressRange, carried: nat -> nat, ghost threshold: nat)
      requires Valid()
      modifies regionLogic
      ensures regionLogic.isInit && regionLogic.Tiled()
      ensures regionLogic.range
              == old(WindowRange(regionLogic.isInit, regionLogic.range, reportedInit, reported))
      ensures if old(KeepsRegions(regionLogic.isInit, regionLogic.range, reported))
              then && regionLogic.regions == old(regionLogic.regions) && Current() == old(Current())
                   && W.Hot(regionLogic.regions, threshold) == old(W.Hot(regionLogic.regions, threshold))
              else && fresh(regionLogic.regions) && Rebuilt(Current())
                   && HotByStart(W.Hot(regionLogic.regions, threshold), threshold, old(regionLogic.isInit),
                                 old(regionLogic.range), reportedInit, reported, carried)
    {
      ghost var wasInit, was := regionLogic.isInit, regionLogic.range;
      var ret := regionLogic.Prepare(reportedInit, reported, carried);
      if !KeepsRegions(wasInit, was, reported) {
        StartMakesHot(regionLogic.regions, threshold, wasInit, was, reportedInit, reported, carried);
      }
    }

    method FinishWindow(outcome: Outcome, tiers: Ladder, threshold: nat, pagesInSwap: nat -> nat)
      returns (verdict: Verdict, ghost hot: seq<bool>)
      requires regionLogic.Tiled() && |tiers| > 0 && EnoughRegions(regionLogic.range)
      modifies regionLogic.regions`dst, mapping
      ensures regionLogic.Tiled() && verdict == VerdictOf(outcome)
      ensures verdict != Mapped ==> Current() == old(Current())
      ensures verdict == Mapped ==>
                && hot == old(W.Hot(regionLogic.regions, threshold))
                && MappedFrom(tiers, old(Current()), Current(), hot, pagesInSwap)
    {
      verdict, hot := VerdictOf(outcome), [];
      if verdict == Mapped {
        hot := MapRegions(tiers, threshold, pagesInSwap);
      }
    }

    method MapRegions(tiers: Ladder, threshold: nat, pagesInSwap: nat -> nat) returns (ghost hot: seq<bool>)
      requires regionLogic.Tiled() && |tiers| > 0 && EnoughRegions(regionLogic.range)
      modifies regionLogic.regions`dst, mapping
      ensures regionLogic.Tiled()
      ensures hot == old(W.Hot(regionLogic.regions, threshold))
      ensures MappedFrom(tiers, old(Current()), Current(), hot, pagesInSwap)
    {
      hot := W.Hot(regionLogic.regions, threshold);
      mapping.ProcessRegions(tiers, regionLogic.regions, threshold, SwapCounts(pagesInSwap, |regionLogic.regions|));
    }

    method Count(batch: seq<AddrEntry>, commEmpty: bool, ghost threshold: nat) returns (outcome: Outcome)
      requires regionLogic.Tiled()
      modifies regionLogic.regions`hotness, regionLogic.regions`collected
      ensures regionLogic.Tiled() && Current() == old(Current())
      ensures outcome == OutcomeOn(batch, regionLogic.range, commEmpty)
      ensures outcome == SinglePage ==>
                W.Hot(regionLogic.regions, threshold) == old(W.Hot(regionLogic.regions, threshold))
      ensures outcome == Updated ==>
                HotByEvents(W.Hot(regionLogic.regions, threshold), batch, regionLogic.range, threshold)
    {
      ghost var views, wasHot := Current(), W.Hot(regionLogic.regions, threshold);
      outcome := regionLogic.AssignEvents(batch, commEmpty);
      assert Current() == views;
      if outcome == SinglePage {
        assert W.Hot(regionLogic.regions, threshold) == wasHot;
      }
      if outcome == Updated {
        HotnessMakesHot(regionLogic.regions, batch, regionLogic.range, threshold);
      }
    }
  }

  /** From events to tiers: after a window's mapping and any run of its migration, a region is destined
      for the fastest tier if its tile's events reached the threshold, or its target was pending, the tier
      below has an id of at least 2 and no page is in swap; and else for the tier below the one it was
      destined for before. */
  lemma EventsDecideTiers(d: M.Daemon, views: seq<RegionView>, views': seq<RegionView>, hot: seq<bool>,
                          pagesInSwap: nat -> nat, events: seq<AddrEntry>, range: AddressRange, threshold: nat,
                          reach: seq<nat>, m: M.Migration)
    requires MappedFrom(d.tiers, views, views', hot, pagesInSwap) && HotByEvents(hot, events, range, threshold)
    requires M.Ready(d, views', reach) && M.MigrationOk(d, m)
    requires forall k :: 0 <= k < |views| ==> W.Placeable(d.tiers, views[k])
    ensures var after := M.Window(d, views', reach, m).regions;
            |after| == |views| && forall k :: 0 <= k < |views| ==>
              EffectiveTier(after[k])
              == (var below := NextTierId(d.tiers, EffectiveTier(views[k]));
                  if |InTile(events, range, k)| >= threshold
                     || (views[k].dst >= 0 && below >= 2 && pagesInSwap(k) == 0) then FastTierId(d.tiers)
                  else below)
  {
    M.WindowKeepsDestinedTiers(d, views', reach, m);
    HotTilesAre(events, range, threshold, |hot|);
    forall k | 0 <= k < |views| ensures EffectiveTier(views'[k]) == views'[k].dst {
      W.WindowMovesTier(d.tiers, views[k], hot[k], pagesInSwap(k));
    }
  }
}
