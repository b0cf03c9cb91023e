/** The page overshoot of SchedulerSafety is the best bound: for every number of threads some schedule of
    a phase reaches it. Thread 0 pushes regions until the counter is one page short of the cap; then
    every thread pushes one region more before any of them adds its pages. */
module SchedulerOvershoot {
  import opened Arithmetic
  import opened Tiers
  import opened Regions
  import opened Push
  import opened Scheduler
  import Safety = SchedulerSafety

  const WHOLE_PUSHES := MAXPAGES / 512
  const LAST_PAGES := MAXPAGES - 1 - WHOLE_PUSHES * 512
  const CHUNK := WHOLE_PUSHES + 2
  const UNMOVED := RegionView(0, REGION_SIZE, FAST_NODE, SLOW_NODE)

  function TwoTiers(ntier: bool): (cfg: Config)
    ensures Known(cfg.tiers, SLOW_NODE) && TierFromId(cfg.tiers, SLOW_NODE).memType == Optane
  {
    var tiers := [TierInfo(FAST_NODE, Dram, FAST_NODE, 10, 2, 1.0), TierInfo(SLOW_NODE, Optane, SLOW_NODE, 3, 4, 1.0)];
    assert tiers[1].virtId == SLOW_NODE;
    Config(tiers, ntier, true)
  }

  /** The calls succeed within the time, and `move_pages` leaves so many pages behind. */
  function LeavesBehind(pages: nat): Env { Env(true, 0, pages, 1) }

  function Unmoved(n: nat): (regions: seq<RegionView>)
    ensures |regions| == n && forall r :: 0 <= r < n ==> regions[r] == UNMOVED
  {
    seq(n, r => UNMOVED)
  }

  function StartOf(threadCount: nat): State
    requires threadCount > 0
  {
    var n := threadCount * CHUNK;
    StartPhase(Unmoved(n), threadCount, seq(threadCount, t => 0), seq(n, r => 0))
  }

  ghost predicate Reaches(cfg: Config, s0: State, s: State)
    requires WellFormed(cfg, s0)
  {
    exists schedule | ScheduleOk(schedule, |s0.threads|) :: Run(cfg, s0, schedule) == s
  }

  /** A state that the phase can be in, with all calls so far successful. */
  ghost predicate Live(cfg: Config, s0: State, s: State) {
    && WellFormed(cfg, s0) && Reaches(cfg, s0, s)
    && |s.threads| == |s0.threads| && |s.regions| == |s0.regions|
    && s.stop == 0 && !s.halted
  }

  lemma LiveIsWellFormed(cfg: Config, s0: State, s: State)
    requires Live(cfg, s0, s)
    ensures WellFormed(cfg, s)
  {
    var schedule :| ScheduleOk(schedule, |s0.threads|) && Run(cfg, s0, schedule) == s;
  }

  lemma RunOneMore(cfg: Config, s0: State, schedule: seq<Choice>, c: Choice)
    requires WellFormed(cfg, s0) && ScheduleOk(schedule, |s0.threads|) && c.thread < |s0.threads| && EnvOk(c.env)
    ensures ScheduleOk(schedule + [c], |s0.threads|)
    ensures Run(cfg, s0, schedule + [c]) == Step(cfg, Run(cfg, s0, schedule), c.thread, c.env)
  {
    var longer := schedule + [c];
    assert longer[..|longer| - 1] == schedule;
    assert Run(cfg, s0, longer) == Step(cfg, Run(cfg, s0, longer[..|longer| - 1]), c.thread, c.env);
  }

  /** A step that neither stops nor ends the phase leads to a live state again. */
  lemma Advance(cfg: Config, s0: State, s: State, t: nat, e: Env) returns (s': State)
    requires Live(cfg, s0, s) && WellFormed(cfg, s) && t < |s.threads| && EnvOk(e)
    requires Step(cfg, s, t, e).stop == 0 && !Step(cfg, s, t, e).halted
    ensures s' == Step(cfg, s, t, e) && Live(cfg, s0, s') && WellFormed(cfg, s')
  {
    s' := Step(cfg, s, t, e);
    var schedule :| ScheduleOk(schedule, |s0.threads|) && Run(cfg, s0, schedule) == s;
    StepWellFormed(cfg, s, t, e);
    RunOneMore(cfg, s0, schedule, Choice(t, e));
    assert ScheduleOk(schedule + [Choice(t, e)], |s0.threads|);
  }

  /** The entry of a thread up to its loop: the stop flag, the clock, the resume position. */
  lemma Enter(cfg: Config, s0: State, s: State, t: nat) returns (s': State)
    requires Live(cfg, s0, s) && t < |s.threads| && s.threads[t].pc == EntryStop && cfg.byteMode
    ensures Live(cfg, s0, s')
    ensures s' == WithThread(s, t, s.threads[t].(pc := LoopTest, j := s.threads[t].first))
  {
    LiveIsWellFormed(cfg, s0, s);
    var th := s.threads[t];
    s' := Advance(cfg, s0, s, t, LeavesBehind(0));
    assert s' == WithThread(s, t, th.(pc := EntryClock));
    s' := Advance(cfg, s0, s', t, LeavesBehind(0));
    assert s' == WithThread(s, t, th.(pc := Resume));
    s' := Advance(cfg, s0, s', t, LeavesBehind(0));
  }

  /** From the loop guard to the push. */
  lemma Choose(cfg: Config, s0: State, s: State, t: nat) returns (s': State)
    requires Live(cfg, s0, s) && t < |s.threads| && cfg.byteMode
    requires s.threads[t].pc == LoopTest && s.threads[t].j < s.threads[t].end <= |s.regions|
    requires s.regions[s.threads[t].j] == UNMOVED
    ensures Live(cfg, s0, s')
    ensures s' == WithThread(s, t, s.threads[t].(pc := Pushing, dst := SLOW_NODE)).(counters := s'.counters)
    ensures s'.counters.pages == s.counters.pages
  {
    LiveIsWellFormed(cfg, s0, s);
    s' := Advance(cfg, s0, s, t, LeavesBehind(0));
    assert s' == WithThread(s, t, s.threads[t].(pc := Candidate, dst := SLOW_NODE));
    s' := Advance(cfg, s0, s', t, LeavesBehind(0));
  }

  lemma PushReports(cfg: Config, behind: nat)
    requires cfg == TwoTiers(cfg.ntier) && behind < 512
    ensures PushARegion(cfg.tiers, cfg.ntier, UNMOVED, SLOW_NODE, LeavesBehind(behind))
         == PushResult(512 - behind, UNMOVED.(curr := SLOW_NODE, dst := -1))
  {
    PlacementIsRecordedExactly(cfg.tiers, cfg.ntier, UNMOVED, SLOW_NODE, LeavesBehind(behind));
    AllPagesReportedExactly(cfg.tiers, cfg.ntier, UNMOVED, SLOW_NODE, LeavesBehind(behind));
  }

  lemma PushesUnmoved(cfg: Config, s: State, t: nat, behind: nat)
    requires WellFormed(cfg, s) && t < |s.threads| && !s.halted && cfg == TwoTiers(cfg.ntier) && behind < 512
    requires s.threads[t].pc == Pushing && s.threads[t].dst == SLOW_NODE && s.threads[t].j < |s.regions|
    requires s.regions[s.threads[t].j] == UNMOVED
    ensures var s' := Step(cfg, s, t, LeavesBehind(behind));
            && s'.threads == s.threads[t := s.threads[t].(pc := PageAdd, moved := 512 - behind)]
            && s'.regions == s.regions[s.threads[t].j := UNMOVED.(curr := SLOW_NODE, dst := -1)]
            && s'.counters == s.counters && s'.stop == s.stop && !s'.halted
  {
    PushReports(cfg, behind);
  }

  /** From the loop guard to the page update, which is still to come. */
  lemma Load(cfg: Config, s0: State, s: State, t: nat, behind: nat) returns (s': State)
    requires Live(cfg, s0, s) && t < |s.threads| && cfg == TwoTiers(cfg.ntier) && behind < 512
    requires s.threads[t].pc == LoopTest && s.threads[t].j < s.threads[t].end <= |s.regions|
    requires s.regions[s.threads[t].j] == UNMOVED
    ensures Live(cfg, s0, s')
    ensures s'.threads == s.threads[t := s.threads[t].(pc := PageAdd, dst := SLOW_NODE, moved := 512 - behind)]
    ensures s'.regions == s.regions[s.threads[t].j := UNMOVED.(curr := SLOW_NODE, dst := -1)]
    ensures s'.counters.pages == s.counters.pages
  {
    var chosen := Choose(cfg, s0, s, t);
    LiveIsWellFormed(cfg, s0, chosen);
    PushesUnmoved(cfg, chosen, t, behind);
    s' := Advance(cfg, s0, chosen, t, LeavesBehind(behind));
  }

  /** Below the cap, the page update leads to the stop test. */
  lemma Unload(cfg: Config, s0: State, s: State, t: nat) returns (s': State)
    requires Live(cfg, s0, s) && t < |s.threads| && s.threads[t].pc == PageAdd
    requires s.threads[t].moved >= 0 && s.counters.pages + s.threads[t].moved < MAXPAGES
    ensures Live(cfg, s0, s')
    ensures s' == WithThread(s, t, s.threads[t].(pc := StopTest)).(counters := s'.counters)
    ensures s'.counters.pages == s.counters.pages + s.threads[t].moved
  {
    LiveIsWellFormed(cfg, s0, s);
    var th := s.threads[t];
    s' := Advance(cfg, s0, s, t, LeavesBehind(0));
    assert s' == WithThread(s, t, th.(pc := RegionAdd)).(counters := s'.counters);
    s' := Advance(cfg, s0, s', t, LeavesBehind(0));
    assert s' == WithThread(s, t, th.(pc := Limit)).(counters := s'.counters);
    s' := Advance(cfg, s0, s', t, LeavesBehind(0));
  }

  lemma StopStep(cfg: Config, s: State, t: nat, e: Env)
    requires WellFormed(cfg, s) && t < |s.threads| && s.threads[t].pc == StopTest && !s.halted && s.stop == 0
    ensures Step(cfg, s, t, e) == WithThread(s, t, s.threads[t].(pc := ClockTest))
  {
  }

  lemma LastThreadStands(s: State, t: nat, a: Thread, b: Thread)
    requires t < |s.threads|
    ensures WithThread(s, t, a).threads[t] == a
    ensures WithThread(WithThread(s, t, a), t, b) == WithThread(s, t, b)
  {
    assert s.threads[t := a][t := b] == s.threads[t := b];
  }

  lemma ClockStep(cfg: Config, s: State, t: nat, e: Env)
    requires WellFormed(cfg, s) && t < |s.threads| && s.threads[t].pc == ClockTest && !s.halted && e.timeLeft
    ensures Step(cfg, s, t, e) == WithThread(s, t, s.threads[t].(pc := LoopTest, j := s.threads[t].j + 1))
  {
  }

  /** The two tests after a push, both passed: the thread is at its next region. */
  lemma NextRegion(cfg: Config, s0: State, s: State, t: nat) returns (s': State)
    requires Live(cfg, s0, s) && t < |s.threads| && s.threads[t].pc == StopTest
    ensures Live(cfg, s0, s')
    ensures s' == WithThread(s, t, s.threads[t].(pc := LoopTest, j := s.threads[t].j + 1))
  {
    LiveIsWellFormed(cfg, s0, s);
    var e, th := LeavesBehind(0), s.threads[t];
    StopStep(cfg, s, t, e);
    var tested := Advance(cfg, s0, s, t, e);
    LastThreadStands(s, t, th.(pc := ClockTest), th.(pc := LoopTest, j := th.j + 1));
    ClockStep(cfg, tested, t, e);
    s' := Advance(cfg, s0, tested, t, e);
  }

  lemma ThreadAtStart(threadCount: nat, t: nat)
    requires t < threadCount
    ensures StartOf(threadCount).threads[t] == Thread(EntryStop, t * CHUNK, (t + 1) * CHUNK, t * CHUNK, 0, 0)
  {
    DivOfProduct(threadCount, CHUNK);
  }

  lemma StartOfIsWellFormed(cfg: Config, threadCount: nat)
    requires threadCount > 0 && cfg == TwoTiers(cfg.ntier)
    ensures WellFormed(cfg, StartOf(threadCount)) && |StartOf(threadCount).threads| == threadCount
  {
    var s0, regions := StartOf(threadCount), Unmoved(threadCount * CHUNK);
    StartWellFormed(cfg, regions, threadCount, s0.reach, s0.pushed);
  }

  lemma StartOfIsLive(cfg: Config, threadCount: nat)
    requires threadCount > 0 && cfg == TwoTiers(cfg.ntier)
    ensures WellFormed(cfg, StartOf(threadCount)) && |StartOf(threadCount).threads| == threadCount
    ensures Live(cfg, StartOf(threadCount), StartOf(threadCount))
    ensures forall t :: 0 <= t < threadCount ==>
              StartOf(threadCount).threads[t] == Thread(EntryStop, t * CHUNK, (t + 1) * CHUNK, t * CHUNK, 0, 0)
  {
    StartOfIsWellFormed(cfg, threadCount);
    forall t | 0 <= t < threadCount
      ensures StartOf(threadCount).threads[t] == Thread(EntryStop, t * CHUNK, (t + 1) * CHUNK, t * CHUNK, 0, 0)
    {
      ThreadAtStart(threadCount, t);
    }
    assert Run(cfg, StartOf(threadCount), []) == StartOf(threadCount);
  }

  /** Thread 0 after k regions: k more pushes of 512 pages are counted, all later regions are unmoved, and the
      other threads have not begun. */
  ghost predicate Pumped(s0: State, s: State, k: nat, pages: nat) {
    && |s.threads| == |s0.threads| > 0 && |s.regions| == |s.threads| * CHUNK
    && s.counters.pages == pages
    && s.threads[0].pc == LoopTest && s.threads[0].j == k && s.threads[0].end == CHUNK
    && (forall t :: 0 < t < |s.threads| ==> s.threads[t] == s0.threads[t])
    && (forall r :: k <= r < |s.regions| ==> s.regions[r] == UNMOVED)
  }

  lemma PumpOnce(cfg: Config, s0: State, s: State, k: nat, pages: nat, behind: nat) returns (s': State)
    requires Live(cfg, s0, s) && cfg == TwoTiers(cfg.ntier) && Pumped(s0, s, k, pages)
    requires behind < 512 && k < CHUNK && pages + 512 - behind < MAXPAGES
    ensures Live(cfg, s0, s') && Pumped(s0, s', k + 1, pages + 512 - behind)
  {
    var loaded := Load(cfg, s0, s, 0, behind);
    var unloaded := Unload(cfg, s0, loaded, 0);
    s' := NextRegion(cfg, s0, unloaded, 0);
  }

  lemma {:induction false} Pump(cfg: Config, s0: State, start: State, k: nat) returns (s: State)
    requires Live(cfg, s0, start) && Pumped(s0, start, 0, 0) && cfg == TwoTiers(cfg.ntier) && k <= WHOLE_PUSHES
    ensures Live(cfg, s0, s) && Pumped(s0, s, k, 512 * k)
  {
    if k == 0 {
      s := start;
    } else {
      assert 512 * (k - 1) + 512 == 512 * k < MAXPAGES;
      var before := Pump(cfg, s0, start, k - 1);
      s := PumpOnce(cfg, s0, before, k - 1, 512 * (k - 1), 0);
    }
  }

  lemma PumpUpToCap(cfg: Config, s0: State, start: State) returns (s: State)
    requires Live(cfg, s0, start) && Pumped(s0, start, 0, 0) && cfg == TwoTiers(cfg.ntier)
    ensures Live(cfg, s0, s) && Pumped(s0, s, CHUNK - 1, MAXPAGES - 1)
  {
    assert WHOLE_PUSHES * 512 + LAST_PAGES == MAXPAGES - 1 && 0 < LAST_PAGES < 512;
    var whole := Pump(cfg, s0, start, WHOLE_PUSHES);
    s := PumpOnce(cfg, s0, whole, WHOLE_PUSHES, 512 * WHOLE_PUSHES, 512 - LAST_PAGES);
  }

  predicate Armed(th: Thread) { th.pc == PageAdd && th.moved == 512 }

  /** The first i threads hold 512 pages to add to a counter one page short of the cap. */
  ghost predicate ArmedUpTo(s0: State, s: State, i: nat) {
    && |s.threads| == |s0.threads| && |s.regions| == |s.threads| * CHUNK
    && s.counters.pages == MAXPAGES - 1
    && (forall t :: 0 <= t < i <= |s.threads| ==> Armed(s.threads[t]))
    && (forall t :: i <= t < |s.threads| ==> s.threads[t] == s0.threads[t])
    && (forall r :: i * CHUNK <= r < |s.regions| ==> s.regions[r] == UNMOVED)
  }

  lemma PumpFromStart(cfg: Config, threadCount: nat) returns (s: State)
    requires 0 < threadCount && cfg == TwoTiers(cfg.ntier)
    ensures Live(cfg, StartOf(threadCount), s) && Pumped(StartOf(threadCount), s, CHUNK - 1, MAXPAGES - 1)
  {
    StartOfIsLive(cfg, threadCount);
    var start := Enter(cfg, StartOf(threadCount), StartOf(threadCount), 0);
    s := PumpUpToCap(cfg, StartOf(threadCount), start);
  }

  lemma ArmFirst(cfg: Config, threadCount: nat) returns (s: State)
    requires 0 < threadCount && cfg == TwoTiers(cfg.ntier)
    ensures Live(cfg, StartOf(threadCount), s) && ArmedUpTo(StartOf(threadCount), s, 1)
  {
    var full := PumpFromStart(cfg, threadCount);
    s := Load(cfg, StartOf(threadCount), full, 0, 0);
  }

  lemma {:induction false} ArmThreads(cfg: Config, threadCount: nat, i: nat) returns (s: State)
    requires 0 < i <= threadCount && cfg == TwoTiers(cfg.ntier)
    ensures Live(cfg, StartOf(threadCount), s) && ArmedUpTo(StartOf(threadCount), s, i)
  {
    var s0 := StartOf(threadCount);
    StartOfIsLive(cfg, threadCount);
    if i == 1 {
      s := ArmFirst(cfg, threadCount);
    } else {
      var before := ArmThreads(cfg, threadCount, i - 1);
      var entered := Enter(cfg, s0, before, i - 1);
      s := Load(cfg, s0, entered, i - 1, 0);
    }
  }

  lemma {:induction false} AddArmed(cfg: Config, threadCount: nat, i: nat) returns (s: State)
    requires 0 <= i <= threadCount && threadCount > 0 && cfg == TwoTiers(cfg.ntier)
    ensures Live(cfg, StartOf(threadCount), s) && |s.threads| == threadCount
    ensures forall t :: i <= t < threadCount ==> Armed(s.threads[t])
    ensures s.counters.pages == MAXPAGES - 1 + 512 * i
  {
    var s0 := StartOf(threadCount);
    StartOfIsLive(cfg, threadCount);
    if i == 0 {
      s := ArmThreads(cfg, threadCount, threadCount);
    } else {
      var before := AddArmed(cfg, threadCount, i - 1);
      LiveIsWellFormed(cfg, s0, before);
      s := Advance(cfg, s0, before, i - 1, LeavesBehind(0));
    }
  }

  /** Whatever the number of threads, a phase from its start reaches the bound of `PageOvershoot`, and no
      schedule of it goes further. */
  lemma OvershootIsAttained(threadCount: nat, ntier: bool)
    requires threadCount > 0
    ensures var cfg, s0 := TwoTiers(ntier), StartOf(threadCount);
            && WellFormed(cfg, s0) && |s0.threads| == threadCount && s0.counters == ZERO
            && (exists schedule | ScheduleOk(schedule, threadCount) ::
                  Run(cfg, s0, schedule).counters.pages == 4999999 + 512 * threadCount)
            && (forall schedule | ScheduleOk(schedule, threadCount) ::
                  Run(cfg, s0, schedule).counters.pages <= 4999999 + 512 * threadCount)
  {
    var cfg, s0 := TwoTiers(ntier), StartOf(threadCount);
    StartOfIsLive(cfg, threadCount);
    var s := AddArmed(cfg, threadCount, threadCount);
    var schedule :| ScheduleOk(schedule, |s0.threads|) && Run(cfg, s0, schedule) == s;
    forall other | ScheduleOk(other, threadCount)
      ensures Run(cfg, s0, other).counters.pages <= 4999999 + 512 * threadCount
    {
      Safety.PageOvershoot(cfg, s0, other);
    }
  }
}
