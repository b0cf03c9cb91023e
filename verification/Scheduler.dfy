/** The migration phase of migrate_thread.cpp as a step system: every shared read, atomic update
    and system call of `thread_helper_pusher` is one step of one thread, and a schedule picks the
    thread and the environment's answers at each step. */
module Scheduler {
  import opened Arithmetic
  import opened Tiers
  import opened Regions
  import opened Push

  const MAXPAGES := 5000000

  datatype Pc =
    | EntryStop      // read the stop flag on entry
    | EntryClock     // is_there_time on entry
    | Resume         // compressed phase: pick up the saved start
    | LoopTest       // loop guard, then the read of the target tier and the mode filter
    | Candidate      // migration_candidates.fetch_add(1)
    | Pushing        // push_a_region in flight
    | PageAdd        // page_counter.fetch_add(moved)
    | RegionAdd      // region_counter.fetch_add(1)
    | Limit          // page_counter.load() >= MAXPAGES
    | SetStop        // stop_threads = 1, under the print lock
    | Tally          // the switch over the non-positive results
    | StopTest       // read the stop flag after a push
    | ClockTest      // is_there_time after a push
    | Stopped        // left the loop by break
    | Done           // returned on entry or ran to the end of the chunk

  datatype Thread = Thread(pc: Pc, first: nat, end: nat, j: nat, dst: int, moved: int)

  datatype Counters = Counters(pages: nat, regions: nat, inDram: nat, inOptane: nat,
                               inZswap: nat, somewhere: nat, candidates: nat, notMoved: nat)

  /** `pushed[r]` counts the pushes of region r in this window, and `counters.notMoved` the
      "PAGES NOT MOVED" lines printed: both are history, read by no step. */
  datatype State = State(regions: seq<RegionView>, threads: seq<Thread>, reach: seq<nat>,
                         stop: int, counters: Counters, pushed: seq<nat>, halted: bool)

  datatype Config = Config(tiers: Ladder, ntier: bool, byteMode: bool)

  const ZERO := Counters(0, 0, 0, 0, 0, 0, 0, 0)

  /** The regions a phase skips: compressed targets in the byte phase, all others in the other. */
  predicate Selected(byteMode: bool, dst: int) {
    if byteMode then dst < COMPRESSED_STARTS_FROM else dst >= COMPRESSED_STARTS_FROM
  }

  function ChunkStart(n: nat, threadCount: nat, i: nat): nat
    requires threadCount > 0
  {
    i * (n / threadCount)
  }

  function ChunkEnd(n: nat, threadCount: nat, i: nat): nat
    requires threadCount > 0
  {
    if i == threadCount - 1 then n else (i + 1) * (n / threadCount)
  }

  function StartThread(n: nat, threadCount: nat, i: nat): Thread
    requires threadCount > 0
  {
    Thread(EntryStop, ChunkStart(n, threadCount, i), ChunkEnd(n, threadCount, i),
           ChunkStart(n, threadCount, i), 0, 0)
  }

  /** `reset_counters` followed by the launch of the threads. */
  function StartPhase(regions: seq<RegionView>, threadCount: nat, reach: seq<nat>, pushed: seq<nat>): State
    requires threadCount > 0
  {
    State(regions, seq(threadCount, i requires 0 <= i < threadCount => StartThread(|regions|, threadCount, i)),
          reach, 0, ZERO, pushed, false)
  }

  ghost predicate WellFormed(cfg: Config, s: State) {
    && ValidLadder(cfg.tiers)
    && |s.reach| == |s.threads|
    && |s.pushed| == |s.regions|
    && (forall r :: 0 <= r < |s.regions| ==> IsTile(s.regions[r]))
    && (forall r :: 0 <= r < |s.regions| && s.regions[r].dst >= 0 ==> Known(cfg.tiers, s.regions[r].dst))
    && (forall t :: 0 <= t < |s.threads| ==> ThreadOk(cfg, s, s.threads[t]))
  }

  predicate Holding(pc: Pc) { pc == Candidate || pc == Pushing }

  predicate Finished(pc: Pc) { pc == Stopped || pc == Done }

  ghost predicate ThreadOk(cfg: Config, s: State, th: Thread) {
    && th.first <= th.end <= |s.regions|
    && (th.pc in {Candidate, Pushing, PageAdd, RegionAdd, Limit, SetStop, Tally, StopTest, ClockTest, Stopped}
        ==> th.j < th.end)
    && (Holding(th.pc) && th.dst >= 0 ==> Known(cfg.tiers, th.dst))
    && (th.pc == PageAdd ==> 0 < th.moved <= 512)
    && (th.pc == Tally ==> th.moved <= 0)
  }

  function WithThread(s: State, t: nat, th: Thread): State
    requires t < |s.threads|
  {
    s.(threads := s.threads[t := th])
  }

  /** The switch on a non-positive result; an unlisted one ends the program. */
  function TallyStep(s: State, t: nat): State
    requires t < |s.threads|
  {
    var th := s.threads[t];
    var c := s.counters;
    var next := WithThread(s, t, th.(pc := StopTest));
    if th.moved == ALREADY_IN_DRAM then next.(counters := c.(inDram := c.inDram + 1))
    else if th.moved == ALREADY_IN_OPTANE then next.(counters := c.(inOptane := c.inOptane + 1))
    else if th.moved == ALREADY_IN_ZSWAP then next.(counters := c.(inZswap := c.inZswap + 1))
    else if th.moved == ALREADY_SOMEWHERE then next.(counters := c.(somewhere := c.somewhere + 1))
    else if th.moved == 0 then next.(counters := c.(notMoved := c.notMoved + 1))
    else s.(halted := true)
  }

  function ResumeStep(byteMode: bool, s: State, t: nat): State
    requires t < |s.threads| == |s.reach|
  {
    var th := s.threads[t];
    if byteMode then WithThread(s, t, th.(pc := LoopTest, j := th.first))
    else
      var saved := if s.reach[t] == 0 then th.first else s.reach[t];
      var from := if saved >= th.end then th.first else saved;
      WithThread(s, t, th.(pc := LoopTest, j := from)).(reach := s.reach[t := from])
  }

  function LoopStep(byteMode: bool, s: State, t: nat): State
    requires t < |s.threads|
    requires s.threads[t].end <= |s.regions|
  {
    var th := s.threads[t];
    if th.j >= th.end then WithThread(s, t, th.(pc := Done))
    else
      var dst := s.regions[th.j].dst;
      if Selected(byteMode, dst) then WithThread(s, t, th.(pc := Candidate, dst := dst))
      else WithThread(s, t, th.(j := th.j + 1, dst := dst))
  }

  function PushStep(cfg: Config, s: State, t: nat, e: Env): State
    requires WellFormed(cfg, s) && t < |s.threads| && s.threads[t].pc == Pushing
  {
    var th := s.threads[t];
    assert IsTile(s.regions[th.j]);
    var p := PushARegion(cfg.tiers, cfg.ntier, s.regions[th.j], th.dst, e);
    var next := WithThread(s, t, th.(pc := if p.ret > 0 then PageAdd else Tally, moved := p.ret));
    next.(regions := s.regions[th.j := p.region], pushed := s.pushed[th.j := s.pushed[th.j] + 1])
  }

  /** One step of thread t. A thread that has finished, and every thread once the program has
      ended, stays as it is. */
  function Step(cfg: Config, s: State, t: nat, e: Env): State
    requires WellFormed(cfg, s) && t < |s.threads|
  {
    if s.halted then s else
    var th := s.threads[t];
    var c := s.counters;
    match th.pc
    case EntryStop => WithThread(s, t, th.(pc := if s.stop != 0 then Done else EntryClock))
    case EntryClock =>
      if e.timeLeft then WithThread(s, t, th.(pc := Resume))
      else WithThread(s, t, th.(pc := Done)).(stop := 2)
    case Resume => ResumeStep(cfg.byteMode, s, t)
    case LoopTest => LoopStep(cfg.byteMode, s, t)
    case Candidate =>
      WithThread(s, t, th.(pc := Pushing)).(counters := c.(candidates := c.candidates + 1))
    case Pushing => PushStep(cfg, s, t, e)
    case PageAdd =>
      WithThread(s, t, th.(pc := RegionAdd)).(counters := c.(pages := c.pages + th.moved))
    case RegionAdd =>
      WithThread(s, t, th.(pc := Limit)).(counters := c.(regions := c.regions + 1))
    case Limit => WithThread(s, t, th.(pc := if c.pages >= MAXPAGES then SetStop else StopTest))
    case SetStop => WithThread(s, t, th.(pc := StopTest)).(stop := 1)
    case Tally => TallyStep(s, t)
    case StopTest => WithThread(s, t, th.(pc := if s.stop != 0 then Stopped else ClockTest))
    case ClockTest =>
      if e.timeLeft then WithThread(s, t, th.(pc := LoopTest, j := th.j + 1))
      else WithThread(s, t, th.(pc := Stopped)).(stop := 2)
    case Stopped => s
    case Done => s
  }

  lemma StepKeepsShape(cfg: Config, s: State, t: nat, e: Env)
    requires WellFormed(cfg, s) && t < |s.threads|
    ensures var s' := Step(cfg, s, t, e);
            && |s'.regions| == |s.regions| == |s'.pushed|
            && |s'.threads| == |s.threads| == |s'.reach|
            && forall u :: 0 <= u < |s.threads| && u != t ==> s'.threads[u] == s.threads[u]
  {
  }

  /** A push leaves a region with the same addresses, and with a known target or none. */
  lemma StepKeepsRegionsOk(cfg: Config, s: State, t: nat, e: Env, r: nat)
    requires WellFormed(cfg, s) && t < |s.threads| && EnvOk(e) && r < |s.regions|
    requires |Step(cfg, s, t, e).regions| == |s.regions|
    ensures var s' := Step(cfg, s, t, e);
            && IsTile(s'.regions[r]) && (s'.regions[r].dst >= 0 ==> Known(cfg.tiers, s'.regions[r].dst))
  {
    var th := s.threads[t];
    if !s.halted && th.pc == Pushing {
      PushOutcomes(cfg.tiers, cfg.ntier, s.regions[th.j], th.dst, e);
    }
  }

  lemma PushKeepsThreadOk(cfg: Config, s: State, t: nat, e: Env)
    requires WellFormed(cfg, s) && t < |s.threads| && EnvOk(e) && s.threads[t].pc == Pushing
    ensures ThreadOk(cfg, PushStep(cfg, s, t, e), PushStep(cfg, s, t, e).threads[t])
  {
    var th := s.threads[t];
    assert ThreadOk(cfg, s, th);
    PushOutcomes(cfg.tiers, cfg.ntier, s.regions[th.j], th.dst, e);
  }

  lemma StepKeepsThreadOk(cfg: Config, s: State, t: nat, e: Env)
    requires WellFormed(cfg, s) && t < |s.threads| && EnvOk(e)
    requires |Step(cfg, s, t, e).threads| == |s.threads|
    ensures ThreadOk(cfg, Step(cfg, s, t, e), Step(cfg, s, t, e).threads[t])
  {
    assert ThreadOk(cfg, s, s.threads[t]);
    if s.threads[t].pc == Pushing { PushKeepsThreadOk(cfg, s, t, e); }
  }

  lemma StepWellFormed(cfg: Config, s: State, t: nat, e: Env)
    requires WellFormed(cfg, s) && t < |s.threads| && EnvOk(e)
    ensures WellFormed(cfg, Step(cfg, s, t, e))
    ensures |Step(cfg, s, t, e).threads| == |s.threads|
    ensures |Step(cfg, s, t, e).regions| == |s.regions|
  {
    var s' := Step(cfg, s, t, e);
    StepKeepsShape(cfg, s, t, e);
    forall r | 0 <= r < |s'.regions|
      ensures IsTile(s'.regions[r]) && (s'.regions[r].dst >= 0 ==> Known(cfg.tiers, s'.regions[r].dst))
    {
      StepKeepsRegionsOk(cfg, s, t, e, r);
    }
    StepKeepsThreadOk(cfg, s, t, e);
    forall u | 0 <= u < |s'.threads| ensures ThreadOk(cfg, s', s'.threads[u]) {
      assert u != t ==> ThreadOk(cfg, s, s.threads[u]);
    }
  }

  datatype Choice = Choice(thread: nat, env: Env)

  ghost predicate ScheduleOk(schedule: seq<Choice>, threadCount: nat) {
    forall i :: 0 <= i < |schedule| ==> schedule[i].thread < threadCount && EnvOk(schedule[i].env)
  }

  /** The state that a schedule reaches. */
  ghost function Run(cfg: Config, s: State, schedule: seq<Choice>): (s': State)
    requires WellFormed(cfg, s) && ScheduleOk(schedule, |s.threads|)
    ensures WellFormed(cfg, s') && |s'.threads| == |s.threads| && |s'.regions| == |s.regions|
    decreases |schedule|
  {
    if schedule == [] then s
    else
      var last := schedule[|schedule| - 1];
      var before := Run(cfg, s, schedule[..|schedule| - 1]);
      StepWellFormed(cfg, before, last.thread, last.env);
      Step(cfg, before, last.thread, last.env)
  }

  /** Every thread has left `thread_helper_pusher`, so the joins return. */
  predicate Joined(s: State) {
    !s.halted && forall t :: 0 <= t < |s.threads| ==> Finished(s.threads[t].pc)
  }

  lemma ChunkBounds(n: nat, threadCount: nat, i: nat)
    requires 0 <= i < threadCount
    ensures ChunkStart(n, threadCount, i) <= ChunkEnd(n, threadCount, i) <= n
  {
    var size := n / threadCount;
    assert threadCount * size <= n;
    assert (i + 1) * size == i * size + size;
    MulMonotone(i + 1, threadCount, size);
  }

  lemma StartWellFormed(cfg: Config, regions: seq<RegionView>, threadCount: nat, reach: seq<nat>, pushed: seq<nat>)
    requires threadCount > 0 && |reach| == threadCount && |pushed| == |regions|
    requires ValidLadder(cfg.tiers)
    requires forall r :: 0 <= r < |regions| ==> IsTile(regions[r])
    requires forall r :: 0 <= r < |regions| && regions[r].dst >= 0 ==> Known(cfg.tiers, regions[r].dst)
    ensures WellFormed(cfg, StartPhase(regions, threadCount, reach, pushed))
  {
    var s := StartPhase(regions, threadCount, reach, pushed);
    forall t | 0 <= t < |s.threads| ensures ThreadOk(cfg, s, s.threads[t]) {
      ChunkBounds(|regions|, threadCount, t);
    }
  }

  predicate InChunk(n: nat, threadCount: nat, t: nat, r: int)
    requires threadCount > 0
  {
    ChunkStart(n, threadCount, t) <= r < ChunkEnd(n, threadCount, t)
  }

  ghost predicate Covered(n: nat, threadCount: nat, r: int)
    requires threadCount > 0
  {
    exists t :: 0 <= t < threadCount && InChunk(n, threadCount, t, r)
  }

  lemma ChunksDisjoint(n: nat, threadCount: nat, a: nat, b: nat, r: int)
    requires a < b < threadCount
    ensures !(InChunk(n, threadCount, a, r) && InChunk(n, threadCount, b, r))
  {
    MulMonotone(a + 1, b, n / threadCount);
  }

  lemma EveryRegionInAChunk(n: nat, threadCount: nat, r: nat)
    requires threadCount > 0 && r < n
    ensures Covered(n, threadCount, r)
  {
    var size, last := n / threadCount, threadCount - 1;
    if r >= last * size {
      assert InChunk(n, threadCount, last, r);
    } else {
      var t := r / size;
      assert (t + 1) * size == t * size + size;
      if t >= last { MulMonotone(last, t, size); }
      assert InChunk(n, threadCount, t, r);
    }
  }

  /** The chunks are pairwise disjoint and together cover every region. */
  lemma ChunksPartition(n: nat, threadCount: nat)
    requires threadCount > 0
    ensures forall a, b, r ::
              (0 <= a < threadCount && 0 <= b < threadCount
               && InChunk(n, threadCount, a, r) && InChunk(n, threadCount, b, r)) ==> a == b
    ensures forall r :: 0 <= r < n ==> Covered(n, threadCount, r)
  {
    forall a, b, r | 0 <= a < threadCount && 0 <= b < threadCount
        && InChunk(n, threadCount, a, r) && InChunk(n, threadCount, b, r)
      ensures a == b
    {
      if a < b { ChunksDisjoint(n, threadCount, a, b, r); }
      if b < a { ChunksDisjoint(n, threadCount, b, a, r); }
    }
    forall r | 0 <= r < n ensures Covered(n, threadCount, r) {
      EveryRegionInAChunk(n, threadCount, r);
    }
  }
}
