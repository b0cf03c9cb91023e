/** Many profile windows under the Waterfall policy: mapping, then migration, again and again, with
    the same regions and threads. */
module Windows {
  import opened Arithmetic
  import opened Tiers
  import opened Regions
  import opened SchedulerWindow
  import Waterfall

  datatype Input = Input(hot: seq<bool>, pagesInSwap: seq<nat>, migration: Migration)

  ghost predicate InputOk(d: Daemon, n: nat, x: Input) {
    |x.hot| == |x.pagesInSwap| == n && MigrationOk(d, x.migration)
  }

  ghost predicate InputsOk(d: Daemon, n: nat, inputs: seq<Input>) {
    forall w :: 0 <= w < |inputs| ==> InputOk(d, n, inputs[w])
  }

  datatype Snapshot = Snapshot(regions: seq<RegionView>, reach: seq<nat>)

  ghost predicate SnapshotOk(d: Daemon, s: Snapshot) {
    && Ready(d, s.regions, s.reach)
    && forall r :: 0 <= r < |s.regions| ==> Waterfall.Placeable(d.tiers, s.regions[r])
  }

  /** The mapping step, carried out on the heap by `MappingWaterfall.ProcessRegions`. */
  function Mapped(d: Daemon, regions: seq<RegionView>, x: Input): (r: seq<RegionView>)
    requires |d.tiers| > 0 && |x.hot| == |x.pagesInSwap| == |regions|
    ensures |r| == |regions|
  {
    Waterfall.Mapped(d.tiers, regions, x.hot, x.pagesInSwap)
  }

  lemma MappedReady(d: Daemon, s: Snapshot, x: Input)
    requires SnapshotOk(d, s) && InputOk(d, |s.regions|, x)
    ensures Ready(d, Mapped(d, s.regions, x), s.reach)
  {
    forall r | 0 <= r < |s.regions| ensures Known(d.tiers, Mapped(d, s.regions, x)[r].dst) {
      Waterfall.WindowMovesTier(d.tiers, s.regions[r], x.hot[r], x.pagesInSwap[r]);
    }
  }

  ghost function OneWindow(d: Daemon, s: Snapshot, x: Input): Snapshot
    requires SnapshotOk(d, s) && InputOk(d, |s.regions|, x)
  {
    MappedReady(d, s, x);
    var end := Window(d, Mapped(d, s.regions, x), s.reach, x.migration);
    Snapshot(end.regions, end.reach)
  }

  function Rung(d: Daemon, v: RegionView): int {
    IdxFromVirtId(d.tiers, EffectiveTier(v))
  }

  /** The window sends region r to the top: it is hot, or upgraded from swap. */
  predicate RisesIn(d: Daemon, s: Snapshot, x: Input, r: nat)
    requires |d.tiers| > 0 && r < |s.regions| == |x.hot| == |x.pagesInSwap|
  {
    x.hot[r] || Waterfall.SwapUpgrade(d.tiers, s.regions[r], x.hot[r], x.pagesInSwap[r])
  }

  /** However the window's migration goes, it leaves each region destined for the tier that the
      mapping chose: the top rung if hot or upgraded from swap, else one rung down. */
  lemma WindowMovesEveryRung(d: Daemon, s: Snapshot, x: Input)
    requires SnapshotOk(d, s) && InputOk(d, |s.regions|, x)
    ensures var s' := OneWindow(d, s, x);
            && |s'.regions| == |s.regions| && SnapshotOk(d, s')
            && forall r :: 0 <= r < |s.regions| ==>
                 Rung(d, s'.regions[r])
                 == (if RisesIn(d, s, x, r) then 0 else Min(Rung(d, s.regions[r]) + 1, |d.tiers| - 1))
  {
    MappedReady(d, s, x);
    var mapped := Mapped(d, s.regions, x);
    WindowKeepsDestinedTiers(d, mapped, s.reach, x.migration);
    var s' := OneWindow(d, s, x);
    forall r | 0 <= r < |s.regions|
      ensures Waterfall.Placeable(d.tiers, s'.regions[r])
      ensures Rung(d, s'.regions[r])
              == (if RisesIn(d, s, x, r) then 0 else Min(Rung(d, s.regions[r]) + 1, |d.tiers| - 1))
    {
      Waterfall.WindowMovesTier(d.tiers, s.regions[r], x.hot[r], x.pagesInSwap[r]);
      assert EffectiveTier(s'.regions[r]) == EffectiveTier(mapped[r]);
    }
  }

  /** The state after the first n windows. */
  ghost function RunWindows(d: Daemon, s: Snapshot, inputs: seq<Input>, n: nat): (s': Snapshot)
    requires SnapshotOk(d, s) && InputsOk(d, |s.regions|, inputs) && n <= |inputs|
    ensures SnapshotOk(d, s') && |s'.regions| == |s.regions|
  {
    if n == 0 then s
    else
      var before := RunWindows(d, s, inputs, n - 1);
      WindowMovesEveryRung(d, before, inputs[n - 1]);
      OneWindow(d, before, inputs[n - 1])
  }

  ghost function RungAfter(d: Daemon, s: Snapshot, inputs: seq<Input>, r: nat, n: nat): int
    requires SnapshotOk(d, s) && InputsOk(d, |s.regions|, inputs) && r < |s.regions| && n <= |inputs|
  {
    Rung(d, RunWindows(d, s, inputs, n).regions[r])
  }

  /** Window w of the run sends region r to the top. */
  ghost predicate Rises(d: Daemon, s: Snapshot, inputs: seq<Input>, r: nat, w: nat)
    requires SnapshotOk(d, s) && InputsOk(d, |s.regions|, inputs) && r < |s.regions| && w < |inputs|
  {
    RisesIn(d, RunWindows(d, s, inputs, w), inputs[w], r)
  }

  /** The rungs of region r at the start and after each window of the run, and the windows it rises in. */
  ghost predicate IsTrack(d: Daemon, s: Snapshot, inputs: seq<Input>, r: nat, rungs: seq<int>, rises: seq<bool>)
    requires SnapshotOk(d, s) && InputsOk(d, |s.regions|, inputs) && r < |s.regions|
  {
    && |rungs| == |inputs| + 1 && |rises| == |inputs|
    && (forall n {:trigger RungAfter(d, s, inputs, r, n)} :: 0 <= n <= |inputs| ==>
          rungs[n] == RungAfter(d, s, inputs, r, n))
    && (forall w {:trigger Rises(d, s, inputs, r, w)} :: 0 <= w < |inputs| ==>
          rises[w] == Rises(d, s, inputs, r, w))
  }

  lemma NextRung(d: Daemon, s: Snapshot, inputs: seq<Input>, r: nat, w: nat)
    requires SnapshotOk(d, s) && InputsOk(d, |s.regions|, inputs) && r < |s.regions| && w < |inputs|
    ensures RungAfter(d, s, inputs, r, w + 1)
            == if Rises(d, s, inputs, r, w) then 0 else Min(RungAfter(d, s, inputs, r, w) + 1, |d.tiers| - 1)
  {
    WindowMovesEveryRung(d, RunWindows(d, s, inputs, w), inputs[w]);
  }

  lemma FirstRung(d: Daemon, s: Snapshot, inputs: seq<Input>, r: nat)
    requires SnapshotOk(d, s) && InputsOk(d, |s.regions|, inputs) && r < |s.regions|
    ensures 0 <= RungAfter(d, s, inputs, r, 0) < |d.tiers|
  {
    assert Waterfall.Placeable(d.tiers, s.regions[r]);
  }

  /** A rise leads to the top, and any other window one rung down or nowhere from the bottom. */
  predicate RungLaw(rungs: seq<int>, rises: seq<bool>, n: int) {
    && |rungs| == |rises| + 1 && 0 <= rungs[0] < n
    && forall w :: 0 <= w < |rises| ==> rungs[w + 1] == if rises[w] then 0 else Min(rungs[w] + 1, n - 1)
  }

  /** Every run obeys the law in every region, whatever the scheduler managed to push in between. */
  lemma TrackFollowsLaw(d: Daemon, s: Snapshot, inputs: seq<Input>, r: nat, rungs: seq<int>, rises: seq<bool>)
    requires SnapshotOk(d, s) && InputsOk(d, |s.regions|, inputs) && r < |s.regions|
    requires IsTrack(d, s, inputs, r, rungs, rises)
    ensures RungLaw(rungs, rises, |d.tiers|)
  {
    FirstRung(d, s, inputs, r);
    forall w | 0 <= w < |rises| ensures rungs[w + 1] == if rises[w] then 0 else Min(rungs[w] + 1, |d.tiers| - 1) {
      NextRung(d, s, inputs, r, w);
    }
  }

  lemma {:induction false} SinkingAddsUp(rungs: seq<int>, rises: seq<bool>, n: int, from: nat, k: nat)
    requires RungLaw(rungs, rises, n) && from <= k <= |rises|
    requires forall w :: from <= w < k ==> !rises[w]
    ensures 0 <= rungs[k] < n && rungs[k] == Min(rungs[from] + k - from, n - 1)
    decreases k
  {
    if from < k {
      SinkingAddsUp(rungs, rises, n, from, k - 1);
    } else if k > 0 {
      assert rungs[k - 1 + 1] == if rises[k - 1] then 0 else Min(rungs[k - 1] + 1, n - 1);
      SinkingAddsUp(rungs, rises, n, k - 1, k - 1);
    }
  }

  /** Every run has a track. */
  lemma TrackExists(d: Daemon, s: Snapshot, inputs: seq<Input>, r: nat) returns (rungs: seq<int>, rises: seq<bool>)
    requires SnapshotOk(d, s) && InputsOk(d, |s.regions|, inputs) && r < |s.regions|
    ensures IsTrack(d, s, inputs, r, rungs, rises)
  {
    rungs := seq(|inputs| + 1, n requires 0 <= n <= |inputs| => RungAfter(d, s, inputs, r, n));
    rises := seq(|inputs|, w requires 0 <= w < |inputs| => Rises(d, s, inputs, r, w));
  }

  /** Region r rises in none of the windows from `from` up to, but not including, `to`. */
  ghost predicate NoRise(d: Daemon, s: Snapshot, inputs: seq<Input>, r: nat, from: nat, to: nat)
    requires SnapshotOk(d, s) && InputsOk(d, |s.regions|, inputs) && r < |s.regions| && to <= |inputs|
  {
    forall w {:trigger Rises(d, s, inputs, r, w)} :: from <= w < to ==> !Rises(d, s, inputs, r, w)
  }

  /** The track from a quiet stretch's start to its end. */
  lemma TrackSinks(d: Daemon, s: Snapshot, inputs: seq<Input>, r: nat, rungs: seq<int>, rises: seq<bool>,
                   from: nat, k: nat)
    requires SnapshotOk(d, s) && InputsOk(d, |s.regions|, inputs) && r < |s.regions|
    requires IsTrack(d, s, inputs, r, rungs, rises) && from <= k <= |inputs| && NoRise(d, s, inputs, r, from, k)
    ensures RungLaw(rungs, rises, |d.tiers|) && rungs[k] == Min(rungs[from] + k - from, |d.tiers| - 1)
  {
    TrackFollowsLaw(d, s, inputs, r, rungs, rises);
    forall w | from <= w < k ensures !rises[w] {
      assert rises[w] == Rises(d, s, inputs, r, w);
    }
    SinkingAddsUp(rungs, rises, |d.tiers|, from, k);
  }

  /** Window w finds region r cold and, unless some of its pages are in swap, either placed or with a rung
      below it whose id is under 2. */
  ghost predicate ColdIn(d: Daemon, s: Snapshot, inputs: seq<Input>, r: nat, w: nat)
    requires SnapshotOk(d, s) && InputsOk(d, |s.regions|, inputs) && r < |s.regions| && w < |inputs|
  {
    var v := RunWindows(d, s, inputs, w).regions[r];
    && !inputs[w].hot[r]
    && (inputs[w].pagesInSwap[r] > 0 || v.dst < 0 || NextTierId(d.tiers, EffectiveTier(v)) < 2)
  }

  /** The windows that lift a region are exactly those that find it hot, and those that find its target
      pending, the tier below with an id of at least 2, and none of its pages in swap. */
  lemma RisesExactly(d: Daemon, s: Snapshot, inputs: seq<Input>, r: nat, w: nat)
    requires SnapshotOk(d, s) && InputsOk(d, |s.regions|, inputs) && r < |s.regions| && w < |inputs|
    ensures var v := RunWindows(d, s, inputs, w).regions[r];
            Rises(d, s, inputs, r, w)
            <==> inputs[w].hot[r]
                 || (v.dst >= 0 && inputs[w].pagesInSwap[r] == 0 && NextTierId(d.tiers, EffectiveTier(v)) >= 2)
    ensures Rises(d, s, inputs, r, w) <==> !ColdIn(d, s, inputs, r, w)
  {
    UpgradeOf(d.tiers, RunWindows(d, s, inputs, w).regions[r], inputs[w].hot[r], inputs[w].pagesInSwap[r]);
  }

  lemma UpgradeOf(tiers: Ladder, v: RegionView, hot: bool, pagesInSwap: nat)
    requires |tiers| > 0
    ensures Waterfall.SwapUpgrade(tiers, v, hot, pagesInSwap)
        <==> !hot && v.dst >= 0 && pagesInSwap == 0 && NextTierId(tiers, EffectiveTier(v)) >= 2
  {
  }

  /** Over k such windows the region sinks exactly k rungs, or to the bottom. */
  lemma ColdRegionsSink(d: Daemon, s: Snapshot, inputs: seq<Input>, r: nat, k: nat)
    requires SnapshotOk(d, s) && InputsOk(d, |s.regions|, inputs) && r < |s.regions| && k <= |inputs|
    requires forall w {:trigger ColdIn(d, s, inputs, r, w)} :: 0 <= w < k ==> ColdIn(d, s, inputs, r, w)
    ensures RungAfter(d, s, inputs, r, k) == Min(RungAfter(d, s, inputs, r, 0) + k, |d.tiers| - 1)
  {
    forall w {:trigger Rises(d, s, inputs, r, w)} | 0 <= w < k ensures !Rises(d, s, inputs, r, w) {
      RisesExactly(d, s, inputs, r, w);
    }
    var rungs, rises := TrackExists(d, s, inputs, r);
    TrackSinks(d, s, inputs, r, rungs, rises, 0, k);
  }

  /** A region that k windows find cold and with pages in swap sinks exactly k rungs, whatever was pending. */
  lemma SwappedRegionsSink(d: Daemon, s: Snapshot, inputs: seq<Input>, r: nat, k: nat)
    requires SnapshotOk(d, s) && InputsOk(d, |s.regions|, inputs) && r < |s.regions| && k <= |inputs|
    requires forall w :: 0 <= w < k ==> !inputs[w].hot[r] && inputs[w].pagesInSwap[r] > 0
    ensures RungAfter(d, s, inputs, r, k) == Min(RungAfter(d, s, inputs, r, 0) + k, |d.tiers| - 1)
  {
    ColdRegionsSink(d, s, inputs, r, k);
  }

  /** Over any run at all, the rung counts the windows since the last rise, wherever the region was
      before it. */
  lemma RungCountsSinceRise(d: Daemon, s: Snapshot, inputs: seq<Input>, r: nat, rungs: seq<int>, rises: seq<bool>,
                            w: nat, k: nat)
    requires SnapshotOk(d, s) && InputsOk(d, |s.regions|, inputs) && r < |s.regions|
    requires IsTrack(d, s, inputs, r, rungs, rises) && w < k <= |inputs|
    requires rises[w] && forall v :: w < v < k ==> !rises[v]
    ensures rungs[k] == Min(k - 1 - w, |d.tiers| - 1)
  {
    TrackFollowsLaw(d, s, inputs, r, rungs, rises);
    SinkingAddsUp(rungs, rises, |d.tiers|, w + 1, k);
  }

  /** Without compressed tiers no id reaches 2, so only heat lifts a region. */
  lemma OnlyHeatRises(d: Daemon, s: Snapshot, inputs: seq<Input>, r: nat, w: nat)
    requires SnapshotOk(d, s) && InputsOk(d, |s.regions|, inputs) && r < |s.regions| && w < |inputs|
    requires forall t :: 0 <= t < |d.tiers| ==> d.tiers[t].virtId < 2
    ensures Rises(d, s, inputs, r, w) <==> inputs[w].hot[r]
  {
    NoUpgrade(d, RunWindows(d, s, inputs, w), inputs[w], r);
  }

  lemma NoUpgrade(d: Daemon, s: Snapshot, x: Input, r: nat)
    requires SnapshotOk(d, s) && InputOk(d, |s.regions|, x) && r < |s.regions|
    requires forall t :: 0 <= t < |d.tiers| ==> d.tiers[t].virtId < 2
    ensures RisesIn(d, s, x, r) == x.hot[r]
  {
  }

  /** After a hot window the region is destined for the fastest tier, whatever came before. */
  lemma HotRegionsRise(d: Daemon, s: Snapshot, inputs: seq<Input>, r: nat, w: nat)
    requires SnapshotOk(d, s) && InputsOk(d, |s.regions|, inputs)
    requires r < |s.regions| && w < |inputs| && inputs[w].hot[r]
    ensures EffectiveTier(RunWindows(d, s, inputs, w + 1).regions[r]) == FastTierId(d.tiers)
  {
    NextRung(d, s, inputs, r, w);
  }
}
