/** What holds in every state of a migration phase, under every schedule and every answer of the
    environment: the page overshoot, the counters, and the destined tiers. */
module SchedulerSafety {
  import opened Counting
  import opened Tiers
  import opened Regions
  import opened Push
  import opened Scheduler

  // ---------- the page cap ----------

  /** The thread is past its last page update: it has finished, or it is bound for a stop test
      that will end it. */
  predicate Exhausted(s: State, th: Thread) {
    || Finished(th.pc)
    || (th.pc in {RegionAdd, Limit, SetStop} && s.counters.pages >= MAXPAGES)
    || (th.pc == StopTest && s.stop != 0)
  }

  function ExhaustedFlags(s: State): (flags: seq<bool>)
    ensures |flags| == |s.threads|
    ensures forall t :: 0 <= t < |flags| ==> flags[t] == Exhausted(s, s.threads[t])
  {
    seq(|s.threads|, t requires 0 <= t < |s.threads| => Exhausted(s, s.threads[t]))
  }

  /** Above the cap, every 512 pages of overshoot have used up one thread. */
  predicate PageBudget(s: State) {
    s.counters.pages >= MAXPAGES ==>
      s.counters.pages <= MAXPAGES - 1 + 512 * Count(ExhaustedFlags(s))
  }

  /** Above the cap an exhausted thread stays so. */
  lemma ExhaustedStays(cfg: Config, s: State, t: nat, e: Env, u: nat)
    requires WellFormed(cfg, s) && t < |s.threads| && EnvOk(e) && s.counters.pages >= MAXPAGES
    requires u < |s.threads| && Exhausted(s, s.threads[u])
    ensures |Step(cfg, s, t, e).threads| == |s.threads|
    ensures Exhausted(Step(cfg, s, t, e), Step(cfg, s, t, e).threads[u])
  {
    StepKeepsShape(cfg, s, t, e);
  }

  /** A page update at or above the cap exhausts its thread. */
  lemma PageAddExhausts(cfg: Config, s: State, t: nat, e: Env)
    requires WellFormed(cfg, s) && t < |s.threads| && EnvOk(e) && Step(cfg, s, t, e).counters.pages >= MAXPAGES
    ensures var s' := Step(cfg, s, t, e);
            && |s'.threads| == |s.threads|
            && (s'.counters.pages == s.counters.pages
                || (s'.counters.pages <= s.counters.pages + 512
                    && !Exhausted(s, s.threads[t]) && Exhausted(s', s'.threads[t])))
  {
    assert ThreadOk(cfg, s, s.threads[t]);
  }

  lemma StepKeepsPageBudget(cfg: Config, s: State, t: nat, e: Env)
    requires WellFormed(cfg, s) && t < |s.threads| && EnvOk(e) && PageBudget(s)
    ensures PageBudget(Step(cfg, s, t, e))
  {
    var s' := Step(cfg, s, t, e);
    if s'.counters.pages >= MAXPAGES {
      PageAddExhausts(cfg, s, t, e);
      var a, b := ExhaustedFlags(s), ExhaustedFlags(s');
      if s.counters.pages < MAXPAGES {
        CountStrict(b[t := false], b, t);
      } else {
        forall u | 0 <= u < |a| && a[u] ensures b[u] { ExhaustedStays(cfg, s, t, e, u); }
        if s'.counters.pages == s.counters.pages { CountMonotone(a, b); } else { CountStrict(a, b, t); }
      }
    }
  }

  /** In every interleaving the page counter overshoots the cap by at most one region per thread. */
  lemma {:induction false} PageOvershoot(cfg: Config, s0: State, schedule: seq<Choice>)
    requires WellFormed(cfg, s0) && ScheduleOk(schedule, |s0.threads|)
    requires s0.counters.pages == 0
    ensures PageBudget(Run(cfg, s0, schedule))
    ensures Run(cfg, s0, schedule).counters.pages <= MAXPAGES - 1 + 512 * |s0.threads|
  {
    if schedule != [] {
      var last := schedule[|schedule| - 1];
      PageOvershoot(cfg, s0, schedule[..|schedule| - 1]);
      StepKeepsPageBudget(cfg, Run(cfg, s0, schedule[..|schedule| - 1]), last.thread, last.env);
    }
  }

  // ---------- the counters ----------

  predicate InFlight(th: Thread) {
    th.pc in {Pushing, PageAdd, RegionAdd, Tally}
  }

  function InFlightFlags(s: State): (flags: seq<bool>)
    ensures |flags| == |s.threads|
    ensures forall t :: 0 <= t < |flags| ==> flags[t] == InFlight(s.threads[t])
  {
    seq(|s.threads|, t requires 0 <= t < |s.threads| => InFlight(s.threads[t]))
  }

  /** The value the daemon prints as "VAL(0?)". */
  function Unaccounted(c: Counters): int {
    c.candidates - c.regions - c.inDram - c.inOptane - c.inZswap - c.somewhere
  }

  predicate Reconciled(s: State) {
    Unaccounted(s.counters) == Count(InFlightFlags(s)) + s.counters.notMoved
  }

  /** What one step adds to the untallied candidates is what it adds to the pushes in flight. */
  lemma StepBalances(cfg: Config, s: State, t: nat, e: Env)
    requires WellFormed(cfg, s) && t < |s.threads| && EnvOk(e)
    ensures var s' := Step(cfg, s, t, e);
            && |s'.threads| == |s.threads| && s'.threads == s.threads[t := s'.threads[t]]
            && Unaccounted(s'.counters) - s'.counters.notMoved - Unaccounted(s.counters) + s.counters.notMoved
               == (if InFlight(s'.threads[t]) then 1 else 0) - (if InFlight(s.threads[t]) then 1 else 0)
  {
  }

  lemma StepReconciles(cfg: Config, s: State, t: nat, e: Env)
    requires WellFormed(cfg, s) && t < |s.threads| && EnvOk(e) && Reconciled(s)
    ensures Reconciled(Step(cfg, s, t, e))
  {
    var s' := Step(cfg, s, t, e);
    var a, b := InFlightFlags(s), InFlightFlags(s');
    StepBalances(cfg, s, t, e);
    assert b == a[t := b[t]];
    CountUpdate(a, t, b[t]);
  }

  /** In every reachable state the candidates not yet tallied are the pushes in flight plus the
      pushes that moved nothing; after the joins only the latter remain. */
  lemma {:induction false} CountersReconcile(cfg: Config, s0: State, schedule: seq<Choice>)
    requires WellFormed(cfg, s0) && ScheduleOk(schedule, |s0.threads|)
    requires s0.counters == ZERO && forall t :: 0 <= t < |s0.threads| ==> s0.threads[t].pc == EntryStop
    ensures Reconciled(Run(cfg, s0, schedule))
    ensures var s := Run(cfg, s0, schedule);
            Joined(s) ==> Unaccounted(s.counters) == s.counters.notMoved
  {
    if schedule == [] {
      CountNone(InFlightFlags(s0));
    } else {
      var last := schedule[|schedule| - 1];
      CountersReconcile(cfg, s0, schedule[..|schedule| - 1]);
      StepReconciles(cfg, Run(cfg, s0, schedule[..|schedule| - 1]), last.thread, last.env);
    }
    var s := Run(cfg, s0, schedule);
    if Joined(s) {
      CountNone(InFlightFlags(s));
    }
  }

  // ---------- the destined tiers ----------

  /** A thread that holds a valid target holds the tier its region is destined for. */
  predicate HoldsDestined(s: State, th: Thread) {
    Holding(th.pc) && th.dst >= 0 && th.j < |s.regions| ==> EffectiveTier(s.regions[th.j]) == th.dst
  }

  ghost predicate KeepsDestined(s0: State, s: State) {
    && |s.regions| == |s0.regions|
    && (forall r :: 0 <= r < |s.regions| ==> EffectiveTier(s.regions[r]) == EffectiveTier(s0.regions[r]))
    && (forall t :: 0 <= t < |s.threads| ==> HoldsDestined(s, s.threads[t]))
  }

  lemma StepKeepsEffective(cfg: Config, s: State, t: nat, e: Env, r: nat)
    requires WellFormed(cfg, s) && t < |s.threads| && EnvOk(e) && r < |s.regions|
    requires HoldsDestined(s, s.threads[t]) && |Step(cfg, s, t, e).regions| == |s.regions|
    ensures EffectiveTier(Step(cfg, s, t, e).regions[r]) == EffectiveTier(s.regions[r])
  {
    var th := s.threads[t];
    if !s.halted && th.pc == Pushing {
      PushOutcomes(cfg.tiers, cfg.ntier, s.regions[th.j], th.dst, e);
    }
  }

  lemma StepKeepsDestined(cfg: Config, s0: State, s: State, t: nat, e: Env)
    requires WellFormed(cfg, s) && t < |s.threads| && EnvOk(e) && KeepsDestined(s0, s)
    ensures KeepsDestined(s0, Step(cfg, s, t, e))
  {
    var s' := Step(cfg, s, t, e);
    StepKeepsShape(cfg, s, t, e);
    forall r | 0 <= r < |s'.regions|
      ensures EffectiveTier(s'.regions[r]) == EffectiveTier(s.regions[r])
    {
      StepKeepsEffective(cfg, s, t, e, r);
    }
    forall u | 0 <= u < |s'.threads| ensures HoldsDestined(s', s'.threads[u]) {
      assert HoldsDestined(s, s.threads[u]);
    }
  }

  /** No interleaving, outcome, stop or exit changes the tier a region is destined for, whether or
      not the threads' chunks overlap. */
  lemma {:induction false} PhaseKeepsDestinedTiers(cfg: Config, s0: State, schedule: seq<Choice>)
    requires WellFormed(cfg, s0) && ScheduleOk(schedule, |s0.threads|)
    requires forall t :: 0 <= t < |s0.threads| ==> s0.threads[t].pc == EntryStop
    ensures KeepsDestined(s0, Run(cfg, s0, schedule))
  {
    if schedule != [] {
      var last := schedule[|schedule| - 1];
      PhaseKeepsDestinedTiers(cfg, s0, schedule[..|schedule| - 1]);
      StepKeepsDestined(cfg, s0, Run(cfg, s0, schedule[..|schedule| - 1]), last.thread, last.env);
    }
  }

  // ---------- progress ----------

  function PcRank(pc: Pc): nat {
    match pc
    case EntryStop => 3  case EntryClock => 2  case Resume => 1
    case LoopTest => 10
    case Candidate => 9  case Pushing => 8  case PageAdd => 7  case RegionAdd => 6
    case Limit => 5  case SetStop => 4  case Tally => 4
    case StopTest => 3  case ClockTest => 2  case Stopped => 0  case Done => 0
  }

  /** A bound on the steps thread `th` can still take. */
  function StepsLeft(th: Thread): nat {
    if Finished(th.pc) then 0
    else if th.pc in {EntryStop, EntryClock, Resume} then 10 * th.end + 11 + PcRank(th.pc)
    else if th.j <= th.end then 10 * (th.end - th.j) + PcRank(th.pc)
    else 10
  }

  function TotalStepsLeft(threads: seq<Thread>): nat {
    if threads == [] then 0
    else TotalStepsLeft(threads[..|threads| - 1]) + StepsLeft(threads[|threads| - 1])
  }

  lemma {:induction false} TotalStepsUpdate(threads: seq<Thread>, t: nat, th: Thread)
    requires t < |threads|
    ensures TotalStepsLeft(threads[t := th]) == TotalStepsLeft(threads) - StepsLeft(threads[t]) + StepsLeft(th)
  {
    var last := |threads| - 1;
    if t == last {
      assert threads[t := th][..last] == threads[..last];
    } else {
      assert threads[t := th][..last] == threads[..last][t := th];
      TotalStepsUpdate(threads[..last], t, th);
    }
  }

  lemma ThreadMakesProgress(cfg: Config, s: State, t: nat, e: Env)
    requires WellFormed(cfg, s) && t < |s.threads| && EnvOk(e)
    requires !s.halted && !Finished(s.threads[t].pc) && !Step(cfg, s, t, e).halted
    ensures StepsLeft(Step(cfg, s, t, e).threads[t]) < StepsLeft(s.threads[t])
  {
    assert ThreadOk(cfg, s, s.threads[t]);
  }

  lemma {:induction false} RunningThreadCounts(threads: seq<Thread>, t: nat)
    requires t < |threads|
    ensures StepsLeft(threads[t]) <= TotalStepsLeft(threads)
  {
    if t < |threads| - 1 {
      RunningThreadCounts(threads[..|threads| - 1], t);
    }
  }

  /** The step acts: the program runs and the chosen thread has not finished. */
  predicate Acts(s: State, t: nat)
    requires t < |s.threads|
  {
    !s.halted && !Finished(s.threads[t].pc)
  }

  ghost function ActingSteps(cfg: Config, s0: State, schedule: seq<Choice>): nat
    requires WellFormed(cfg, s0) && ScheduleOk(schedule, |s0.threads|)
    decreases |schedule|
  {
    if schedule == [] then 0
    else
      var prefix := schedule[..|schedule| - 1];
      ActingSteps(cfg, s0, prefix)
      + if Acts(Run(cfg, s0, prefix), schedule[|schedule| - 1].thread) then 1 else 0
  }

  lemma StepTouchesOneThread(cfg: Config, s: State, t: nat, e: Env)
    requires WellFormed(cfg, s) && t < |s.threads|
    ensures var s' := Step(cfg, s, t, e);
            |s'.threads| == |s.threads| && s'.threads == s.threads[t := s'.threads[t]]
  {
  }

  function Remaining(s: State): nat {
    if s.halted then 0 else TotalStepsLeft(s.threads)
  }

  lemma StepUsesBound(cfg: Config, s: State, t: nat, e: Env)
    requires WellFormed(cfg, s) && t < |s.threads| && EnvOk(e)
    ensures Remaining(Step(cfg, s, t, e)) + (if Acts(s, t) then 1 else 0) <= Remaining(s)
  {
    var s' := Step(cfg, s, t, e);
    StepTouchesOneThread(cfg, s, t, e);
    RunningThreadCounts(s.threads, t);
    if Acts(s, t) && !s'.halted {
      ThreadMakesProgress(cfg, s, t, e);
      TotalStepsUpdate(s.threads, t, s'.threads[t]);
    }
  }

  /** A phase cannot run for ever: whatever the schedule, the steps that act number at most
      `TotalStepsLeft` of the start, and each of them uses up part of that bound. */
  lemma {:induction false} PhaseTerminates(cfg: Config, s0: State, schedule: seq<Choice>)
    requires WellFormed(cfg, s0) && ScheduleOk(schedule, |s0.threads|)
    ensures ActingSteps(cfg, s0, schedule) + Remaining(Run(cfg, s0, schedule)) <= Remaining(s0)
  {
    if schedule != [] {
      var last := schedule[|schedule| - 1];
      var prefix := schedule[..|schedule| - 1];
      PhaseTerminates(cfg, s0, prefix);
      StepUsesBound(cfg, Run(cfg, s0, prefix), last.thread, last.env);
    }
  }

  /** When the bound is used up the phase is over. */
  lemma SpentBoundMeansJoined(cfg: Config, s: State)
    requires WellFormed(cfg, s) && Remaining(s) == 0
    ensures s.halted || Joined(s)
  {
    forall t | 0 <= t < |s.threads| && !s.halted ensures Finished(s.threads[t].pc) {
      RunningThreadCounts(s.threads, t);
    }
  }
}
