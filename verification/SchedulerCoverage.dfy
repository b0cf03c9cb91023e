/** Which regions a migration phase pushes while the region and thread counts are unchanged: each
    selected region exactly once unless a stop fires, and every other region never. */
module SchedulerCoverage {
  import opened Arithmetic
  import opened Tiers
  import opened Regions
  import opened Push
  import opened Scheduler

  /** The thread has passed index r: it skipped r, or its push of r has returned. */
  predicate Handled(th: Thread, r: int) {
    || r < th.j
    || (r == th.j && th.pc in {PageAdd, RegionAdd, Limit, SetStop, Tally, StopTest, ClockTest, Stopped})
  }

  predicate Landed(r: RegionView, r': RegionView, succeed: bool) {
    && (r' == r || (r.dst >= 0 && r' == r.(curr := r.dst, dst := -1)))
    && (succeed && r.dst >= 0 ==> r'.curr == r.dst)
  }

  predicate RegionOk(byteMode: bool, s0: State, s: State, th: Thread, r: nat, succeed: bool)
    requires r < |s0.regions| == |s.regions| == |s0.pushed| == |s.pushed|
  {
    if Handled(th, r) && Selected(byteMode, s0.regions[r].dst) then
      s.pushed[r] == s0.pushed[r] + 1 && Landed(s0.regions[r], s.regions[r], succeed)
    else
      s.pushed[r] == s0.pushed[r] && s.regions[r] == s0.regions[r]
  }

  predicate ThreadProgress(byteMode: bool, s0: State, s: State, t: nat)
    requires t < |s0.threads| == |s.threads| == |s.reach| && |s0.regions| == |s.regions|
  {
    var th := s.threads[t];
    && th.first == s0.threads[t].first && th.end == s0.threads[t].end
    && th.first <= th.j <= th.end <= |s.regions|
    && (s.reach[t] == 0 || s.reach[t] == th.first)
    && (th.pc in {EntryStop, EntryClock, Resume} ==> th.j == th.first)
    && (Holding(th.pc) ==> th.j < th.end && th.dst == s0.regions[th.j].dst && Selected(byteMode, th.dst))
    && (th.pc == Stopped ==> s.stop != 0)
    && (th.pc == Done && s.stop == 0 ==> th.j == th.end)
  }

  ghost predicate OrderedChunks(threads: seq<Thread>) {
    forall a, b :: 0 <= a < b < |threads| ==> threads[a].end <= threads[b].first
  }

  ghost predicate Progress(byteMode: bool, s0: State, s: State, succeed: bool) {
    && |s.threads| == |s0.threads| == |s.reach|
    && |s.regions| == |s0.regions| == |s.pushed| == |s0.pushed|
    && OrderedChunks(s0.threads)
    && (forall t :: 0 <= t < |s.threads| ==> ThreadProgress(byteMode, s0, s, t))
    && (forall t, r :: 0 <= t < |s.threads| && s.threads[t].first <= r < s.threads[t].end <= |s.regions| ==>
          RegionOk(byteMode, s0, s, s.threads[t], r, succeed))
  }

  /** The other threads neither move nor lose their saved start, and no stop is taken back. */
  lemma StepSparesOtherThreads(cfg: Config, s: State, t: nat, e: Env, u: nat)
    requires WellFormed(cfg, s) && t < |s.threads| && u < |s.threads| && u != t && EnvOk(e)
    ensures var s' := Step(cfg, s, t, e);
            && |s'.threads| == |s.threads| == |s'.reach| && |s'.regions| == |s.regions|
            && s'.threads[u] == s.threads[u] && s'.reach[u] == s.reach[u]
            && (s.stop != 0 ==> s'.stop != 0)
  {
  }

  lemma StepThreadProgress(cfg: Config, s0: State, s: State, t: nat, e: Env, succeed: bool)
    requires WellFormed(cfg, s) && t < |s.threads| && EnvOk(e)
    requires Progress(cfg.byteMode, s0, s, succeed)
    ensures |Step(cfg, s, t, e).threads| == |s.threads| == |Step(cfg, s, t, e).reach|
    ensures |Step(cfg, s, t, e).regions| == |s.regions|
    ensures ThreadProgress(cfg.byteMode, s0, Step(cfg, s, t, e), t)
  {
    var th := s.threads[t];
    StepKeepsShape(cfg, s, t, e);
    assert ThreadProgress(cfg.byteMode, s0, s, t);
    assert ThreadOk(cfg, s, th);
    if th.pc == LoopTest && th.j < th.end {
      assert RegionOk(cfg.byteMode, s0, s, th, th.j, succeed);
    }
    OneThreadProgress(cfg, s0, s, t, e);
  }

  /** The thread's own step, given that the region under its index is as it was at the start. */
  lemma OneThreadProgress(cfg: Config, s0: State, s: State, t: nat, e: Env)
    requires WellFormed(cfg, s) && t < |s.threads| && ThreadOk(cfg, s, s.threads[t])
    requires |s0.threads| == |s.threads| == |Step(cfg, s, t, e).threads| == |Step(cfg, s, t, e).reach|
    requires |s0.regions| == |s.regions| == |Step(cfg, s, t, e).regions|
    requires ThreadProgress(cfg.byteMode, s0, s, t)
    requires var th := s.threads[t];
             th.pc == LoopTest && th.j < th.end ==> s.regions[th.j] == s0.regions[th.j]
    ensures ThreadProgress(cfg.byteMode, s0, Step(cfg, s, t, e), t)
  {
  }

  /** Only a push touches a region, and it touches the one at the thread's index. */
  lemma StepTouchesOneRegion(cfg: Config, s: State, t: nat, e: Env, r: nat)
    requires WellFormed(cfg, s) && t < |s.threads| && EnvOk(e) && r < |s.regions|
    requires s.halted || s.threads[t].pc != Pushing || r != s.threads[t].j
    ensures var s' := Step(cfg, s, t, e);
            |s'.regions| == |s.regions| && |s'.pushed| == |s.pushed|
            && s'.regions[r] == s.regions[r] && s'.pushed[r] == s.pushed[r]
  {
  }

  /** The push of a region completes it. */
  lemma PushRegionOk(cfg: Config, s0: State, s: State, t: nat, e: Env, succeed: bool)
    requires WellFormed(cfg, s) && t < |s.threads| && EnvOk(e) && (succeed ==> e.migrateRet == 0)
    requires !s.halted && s.threads[t].pc == Pushing
    requires |s0.regions| == |s.regions| == |s0.pushed| && s.threads[t].j < |s.regions|
    requires RegionOk(cfg.byteMode, s0, s, s.threads[t], s.threads[t].j, succeed)
    requires s.threads[t].dst == s0.regions[s.threads[t].j].dst && Selected(cfg.byteMode, s.threads[t].dst)
    ensures var s', r := Step(cfg, s, t, e), s.threads[t].j;
            && |s'.regions| == |s.regions| == |s'.pushed| && |s'.threads| == |s.threads|
            && RegionOk(cfg.byteMode, s0, s', s'.threads[t], r, succeed)
  {
    var th := s.threads[t];
    PushOutcomes(cfg.tiers, cfg.ntier, s.regions[th.j], th.dst, e);
    assert Step(cfg, s, t, e) == PushStep(cfg, s, t, e);
  }

  /** A step that is no push of r changes neither region r nor whether its thread has passed it,
      unless r is skipped. */
  lemma PassesRegion(cfg: Config, s0: State, s: State, t: nat, e: Env, r: nat)
    requires WellFormed(cfg, s) && t < |s.threads| && EnvOk(e) && r < |s.regions|
    requires |s0.regions| == |s.regions| && |s0.threads| == |s.threads|
    requires ThreadProgress(cfg.byteMode, s0, s, t) && s.threads[t].first <= r < s.threads[t].end
    requires s.halted || s.threads[t].pc != Pushing || r != s.threads[t].j
    requires !Handled(s.threads[t], r) ==> s.regions[r] == s0.regions[r]
    ensures var s' := Step(cfg, s, t, e);
            && |s'.threads| == |s.threads|
            && (Selected(cfg.byteMode, s0.regions[r].dst) ==> Handled(s'.threads[t], r) == Handled(s.threads[t], r))
  {
  }

  lemma StepRegionOk(cfg: Config, s0: State, s: State, t: nat, e: Env, succeed: bool, u: nat, r: nat)
    requires WellFormed(cfg, s) && t < |s.threads| && EnvOk(e) && (succeed ==> e.migrateRet == 0)
    requires Progress(cfg.byteMode, s0, s, succeed)
    requires u < |s.threads| && s.threads[u].first <= r < s.threads[u].end
    requires WellFormed(cfg, Step(cfg, s, t, e))
    ensures |Step(cfg, s, t, e).regions| == |s.regions| && |Step(cfg, s, t, e).threads| == |s.threads|
    ensures RegionOk(cfg.byteMode, s0, Step(cfg, s, t, e), Step(cfg, s, t, e).threads[u], r, succeed)
  {
    var th := s.threads[t];
    assert ThreadProgress(cfg.byteMode, s0, s, t) && ThreadProgress(cfg.byteMode, s0, s, u);
    assert RegionOk(cfg.byteMode, s0, s, s.threads[u], r, succeed);
    if !s.halted && th.pc == Pushing && r == th.j {
      assert u == t;
      PushRegionOk(cfg, s0, s, t, e, succeed);
    } else {
      StepTouchesOneRegion(cfg, s, t, e, r);
      if u == t { PassesRegion(cfg, s0, s, t, e, r); } else { StepSparesOtherThreads(cfg, s, t, e, u); }
    }
  }

  lemma StepKeepsProgress(cfg: Config, s0: State, s: State, t: nat, e: Env, succeed: bool)
    requires WellFormed(cfg, s) && t < |s.threads| && EnvOk(e) && (succeed ==> e.migrateRet == 0)
    requires Progress(cfg.byteMode, s0, s, succeed)
    ensures Progress(cfg.byteMode, s0, Step(cfg, s, t, e), succeed)
  {
    var s' := Step(cfg, s, t, e);
    StepWellFormed(cfg, s, t, e);
    StepThreadProgress(cfg, s0, s, t, e, succeed);
    forall u | 0 <= u < |s.threads| ensures ThreadProgress(cfg.byteMode, s0, s', u) {
      if u != t {
        assert ThreadProgress(cfg.byteMode, s0, s, u);
        StepSparesOtherThreads(cfg, s, t, e, u);
      }
    }
    forall u, r | 0 <= u < |s'.threads| && s'.threads[u].first <= r < s'.threads[u].end <= |s'.regions|
      ensures RegionOk(cfg.byteMode, s0, s', s'.threads[u], r, succeed)
    {
      assert ThreadProgress(cfg.byteMode, s0, s', u) && ThreadProgress(cfg.byteMode, s0, s, u);
      StepRegionOk(cfg, s0, s, t, e, succeed, u, r);
    }
  }

  /** Where a thread starts in its chunk: in the byte phase at the chunk's start; in the compressed phase at the
      saved start if that is set and before the chunk's end, else at the chunk's start; and so never past a
      chunk that has regions. */
  lemma ResumesInsideChunk(cfg: Config, s: State, t: nat, e: Env)
    requires WellFormed(cfg, s) && t < |s.threads| && !s.halted && s.threads[t].pc == Resume
    ensures var th, s' := s.threads[t], Step(cfg, s, t, e);
            && |s'.threads| == |s'.reach| == |s.threads| && s'.threads[t].pc == LoopTest
            && (cfg.byteMode ==> s'.threads[t].j == th.first && s'.reach == s.reach)
            && (!cfg.byteMode ==> s'.reach[t] == s'.threads[t].j)
            && (!cfg.byteMode && 0 < s.reach[t] < th.end ==> s'.threads[t].j == s.reach[t])
            && (!cfg.byteMode && !(0 < s.reach[t] < th.end) ==> s'.threads[t].j == th.first)
            && (th.first < th.end ==> s'.threads[t].j < th.end)
  {
  }

  /** The saved starts left by earlier phases over the same chunks. */
  ghost predicate ReachOk(n: nat, threadCount: nat, reach: seq<nat>)
    requires threadCount > 0
  {
    |reach| == threadCount
    && forall t :: 0 <= t < threadCount ==> reach[t] == 0 || reach[t] == ChunkStart(n, threadCount, t)
  }

  lemma ChunksAscend(n: nat, threadCount: nat, a: nat, b: nat)
    requires a < b < threadCount
    ensures ChunkEnd(n, threadCount, a) <= ChunkStart(n, threadCount, b)
  {
    MulMonotone(a + 1, b, n / threadCount);
  }

  lemma StartProgress(cfg: Config, regions: seq<RegionView>, threadCount: nat, reach: seq<nat>,
                      pushed: seq<nat>, succeed: bool)
    requires threadCount > 0 && ReachOk(|regions|, threadCount, reach) && |pushed| == |regions|
    ensures var s := StartPhase(regions, threadCount, reach, pushed);
            Progress(cfg.byteMode, s, s, succeed)
  {
    var s := StartPhase(regions, threadCount, reach, pushed);
    forall t | 0 <= t < threadCount ensures ThreadProgress(cfg.byteMode, s, s, t) {
      ChunkBounds(|regions|, threadCount, t);
    }
    forall a, b | 0 <= a < b < threadCount ensures s.threads[a].end <= s.threads[b].first {
      ChunksAscend(|regions|, threadCount, a, b);
    }
  }

  lemma {:induction false} RunKeepsProgress(cfg: Config, s0: State, schedule: seq<Choice>, succeed: bool)
    requires WellFormed(cfg, s0) && ScheduleOk(schedule, |s0.threads|)
    requires Progress(cfg.byteMode, s0, s0, succeed)
    requires succeed ==> forall i :: 0 <= i < |schedule| ==> schedule[i].env.migrateRet == 0
    ensures Progress(cfg.byteMode, s0, Run(cfg, s0, schedule), succeed)
  {
    if schedule != [] {
      var last := schedule[|schedule| - 1];
      var prefix := schedule[..|schedule| - 1];
      RunKeepsProgress(cfg, s0, prefix, succeed);
      StepKeepsProgress(cfg, s0, Run(cfg, s0, prefix), last.thread, last.env, succeed);
    }
  }

  /** What a phase over `threadCount` chunks does to region r, whatever the interleaving: a region
      the mode skips is neither pushed nor changed; a selected one is pushed at most once, and
      exactly once if the threads join without a stop; the saved starts stay usable. */
  lemma PhaseCoverage(cfg: Config, regions: seq<RegionView>, threadCount: nat, reach: seq<nat>,
                      pushed: seq<nat>, schedule: seq<Choice>, succeed: bool)
    requires threadCount > 0 && ReachOk(|regions|, threadCount, reach) && |pushed| == |regions|
    requires WellFormed(cfg, StartPhase(regions, threadCount, reach, pushed))
    requires ScheduleOk(schedule, threadCount)
    requires succeed ==> forall i :: 0 <= i < |schedule| ==> schedule[i].env.migrateRet == 0
    ensures var s := Run(cfg, StartPhase(regions, threadCount, reach, pushed), schedule);
            && ReachOk(|regions|, threadCount, s.reach)
            && forall r :: 0 <= r < |regions| ==>
                 && (!Selected(cfg.byteMode, regions[r].dst) ==>
                       s.pushed[r] == pushed[r] && s.regions[r] == regions[r])
                 && pushed[r] <= s.pushed[r] <= pushed[r] + 1
                 && Landed(regions[r], s.regions[r], false)
                 && (Joined(s) && s.stop == 0 && Selected(cfg.byteMode, regions[r].dst) ==>
                       s.pushed[r] == pushed[r] + 1 && Landed(regions[r], s.regions[r], succeed))
  {
    var s0 := StartPhase(regions, threadCount, reach, pushed);
    var s := Run(cfg, s0, schedule);
    StartProgress(cfg, regions, threadCount, reach, pushed, succeed);
    RunKeepsProgress(cfg, s0, schedule, succeed);
    assert ReachOk(|regions|, threadCount, s.reach) by {
      forall t | 0 <= t < threadCount
        ensures s.reach[t] == 0 || s.reach[t] == ChunkStart(|regions|, threadCount, t)
      {
        assert ThreadProgress(cfg.byteMode, s0, s, t);
      }
    }
    ChunksPartition(|regions|, threadCount);
    forall r | 0 <= r < |regions|
      ensures && (!Selected(cfg.byteMode, regions[r].dst) ==>
                    s.pushed[r] == pushed[r] && s.regions[r] == regions[r])
              && pushed[r] <= s.pushed[r] <= pushed[r] + 1
              && Landed(regions[r], s.regions[r], false)
              && (Joined(s) && s.stop == 0 && Selected(cfg.byteMode, regions[r].dst) ==>
                    s.pushed[r] == pushed[r] + 1 && Landed(regions[r], s.regions[r], succeed))
    {
      assert Covered(|regions|, threadCount, r);
      var t :| 0 <= t < threadCount && InChunk(|regions|, threadCount, t, r);
      assert ThreadProgress(cfg.byteMode, s0, s, t);
      assert RegionOk(cfg.byteMode, s0, s, s.threads[t], r, succeed);
    }
  }
}
