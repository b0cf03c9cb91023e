/** What the clock and the page cap do to a migration phase, under every schedule: a push needs a yes of its
    own, a no ends its thread, and after any stop each thread pushes at most one region more. */
module SchedulerClock {
  import opened Counting
  import opened Regions
  import opened Push
  import opened Scheduler

  /** The thread's next turn asks the clock. */
  predicate AtClock(s: State, t: nat)
    requires t < |s.threads|
  {
    !s.halted && s.threads[t].pc in {EntryClock, ClockTest}
  }

  predicate AtPush(s: State, t: nat)
    requires t < |s.threads|
  {
    !s.halted && s.threads[t].pc == Pushing
  }

  /** The pushes of thread t. */
  ghost function PushesOf(cfg: Config, s0: State, schedule: seq<Choice>, t: nat): nat
    requires WellFormed(cfg, s0) && ScheduleOk(schedule, |s0.threads|)
    decreases |schedule|
  {
    if schedule == [] then 0
    else
      var prefix, last := schedule[..|schedule| - 1], schedule[|schedule| - 1];
      PushesOf(cfg, s0, prefix, t) + if last.thread == t && AtPush(Run(cfg, s0, prefix), t) then 1 else 0
  }

  /** How often the clock has told thread t that time is left. */
  ghost function YesTo(cfg: Config, s0: State, schedule: seq<Choice>, t: nat): nat
    requires WellFormed(cfg, s0) && ScheduleOk(schedule, |s0.threads|)
    decreases |schedule|
  {
    if schedule == [] then 0
    else
      var prefix, last := schedule[..|schedule| - 1], schedule[|schedule| - 1];
      YesTo(cfg, s0, prefix, t)
      + if last.thread == t && last.env.timeLeft && AtClock(Run(cfg, s0, prefix), t) then 1 else 0
  }

  /** Turn i of the schedule asks the clock and is told no. */
  ghost predicate SaysNo(cfg: Config, s0: State, schedule: seq<Choice>, i: nat)
    requires WellFormed(cfg, s0) && ScheduleOk(schedule, |s0.threads|) && i < |schedule|
  {
    !schedule[i].env.timeLeft && AtClock(Run(cfg, s0, schedule[..i]), schedule[i].thread)
  }

  lemma RunOfPrefix(cfg: Config, s0: State, schedule: seq<Choice>, i: nat)
    requires WellFormed(cfg, s0) && ScheduleOk(schedule, |s0.threads|) && i < |schedule|
    ensures Run(cfg, s0, schedule[..i + 1])
         == Step(cfg, Run(cfg, s0, schedule[..i]), schedule[i].thread, schedule[i].env)
  {
    assert schedule[..i + 1][..i] == schedule[..i];
  }

  // ---------- a push needs a yes ----------

  /** The thread has a yes that it has not used for a push. */
  predicate HasYes(th: Thread) {
    th.pc in {Resume, LoopTest, Candidate, Pushing}
  }

  lemma StepSpendsYes(cfg: Config, s: State, t: nat, e: Env)
    requires WellFormed(cfg, s) && t < |s.threads|
    ensures |Step(cfg, s, t, e).threads| == |s.threads|
    ensures (if AtPush(s, t) then 1 else 0) + (if HasYes(Step(cfg, s, t, e).threads[t]) then 1 else 0)
         <= (if HasYes(s.threads[t]) then 1 else 0) + (if AtClock(s, t) && e.timeLeft then 1 else 0)
  {
  }

  /** Whatever the schedule, a thread has pushed at most as often as the clock has told it that time is
      left; so if the clock never does, nothing is pushed. */
  lemma {:induction false} EachPushHadAYes(cfg: Config, s0: State, schedule: seq<Choice>, t: nat)
    requires WellFormed(cfg, s0) && ScheduleOk(schedule, |s0.threads|) && t < |s0.threads|
    requires s0.threads[t].pc == EntryStop
    ensures PushesOf(cfg, s0, schedule, t) + (if HasYes(Run(cfg, s0, schedule).threads[t]) then 1 else 0)
         <= YesTo(cfg, s0, schedule, t)
  {
    if schedule != [] {
      var prefix, last := schedule[..|schedule| - 1], schedule[|schedule| - 1];
      EachPushHadAYes(cfg, s0, prefix, t);
      var s := Run(cfg, s0, prefix);
      StepKeepsShape(cfg, s, last.thread, last.env);
      if last.thread == t { StepSpendsYes(cfg, s, t, last.env); }
    }
  }

  // ---------- after a stop ----------

  /** With a stop set the thread can still come to push one region. */
  predicate MayPush(th: Thread) {
    th.pc in {EntryClock, Resume, LoopTest, Candidate, Pushing, ClockTest}
  }

  lemma StepAfterStop(cfg: Config, s: State, t: nat, e: Env)
    requires WellFormed(cfg, s) && t < |s.threads| && s.stop != 0
    ensures |Step(cfg, s, t, e).threads| == |s.threads| && Step(cfg, s, t, e).stop != 0
    ensures (if AtPush(s, t) then 1 else 0) + (if MayPush(Step(cfg, s, t, e).threads[t]) then 1 else 0)
         <= if MayPush(s.threads[t]) then 1 else 0
  {
  }

  /** Once a stop is set it stays set, and each thread pushes at most one region more; none if it has not
      yet begun or has its last push behind it. */
  lemma {:induction false} AtMostOneMore(cfg: Config, s0: State, schedule: seq<Choice>, i: nat, t: nat)
    requires WellFormed(cfg, s0) && ScheduleOk(schedule, |s0.threads|) && i <= |schedule| && t < |s0.threads|
    requires Run(cfg, s0, schedule[..i]).stop != 0
    ensures Run(cfg, s0, schedule).stop != 0
    ensures PushesOf(cfg, s0, schedule, t) + (if MayPush(Run(cfg, s0, schedule).threads[t]) then 1 else 0)
         <= PushesOf(cfg, s0, schedule[..i], t) + if MayPush(Run(cfg, s0, schedule[..i]).threads[t]) then 1 else 0
    decreases |schedule|
  {
    if i == |schedule| {
      assert schedule[..i] == schedule;
    } else {
      var prefix, last := schedule[..|schedule| - 1], schedule[|schedule| - 1];
      assert prefix[..i] == schedule[..i];
      AtMostOneMore(cfg, s0, prefix, i, t);
      var s := Run(cfg, s0, prefix);
      StepKeepsShape(cfg, s, last.thread, last.env);
      StepAfterStop(cfg, s, last.thread, last.env);
    }
  }

  function MayPushFlags(s: State): (flags: seq<bool>)
    ensures |flags| == |s.threads|
    ensures forall t :: 0 <= t < |flags| ==> flags[t] == MayPush(s.threads[t])
  {
    seq(|s.threads|, t requires 0 <= t < |s.threads| => MayPush(s.threads[t]))
  }

  lemma {:induction false} TotalUpdate(c: seq<nat>, i: nat, v: nat)
    requires i < |c|
    ensures Total(c[i := v]) == Total(c) - c[i] + v
  {
    var last := |c| - 1;
    if i == last {
      assert c[i := v][..last] == c[..last];
    } else {
      assert c[i := v][..last] == c[..last][i := v];
      TotalUpdate(c[..last], i, v);
    }
  }

  lemma StepPushesOne(cfg: Config, s: State, t: nat, e: Env)
    requires WellFormed(cfg, s) && t < |s.threads| && EnvOk(e)
    ensures Total(Step(cfg, s, t, e).pushed) == Total(s.pushed) + if AtPush(s, t) then 1 else 0
  {
    if AtPush(s, t) {
      assert ThreadOk(cfg, s, s.threads[t]);
      var j := s.threads[t].j;
      TotalUpdate(s.pushed, j, s.pushed[j] + 1);
    }
  }

  lemma StepSpendsFlags(cfg: Config, s: State, t: nat, e: Env)
    requires WellFormed(cfg, s) && t < |s.threads| && EnvOk(e) && s.stop != 0
    ensures Total(Step(cfg, s, t, e).pushed) + Count(MayPushFlags(Step(cfg, s, t, e)))
         <= Total(s.pushed) + Count(MayPushFlags(s))
  {
    var s' := Step(cfg, s, t, e);
    var a, b := MayPushFlags(s), MayPushFlags(s');
    StepKeepsShape(cfg, s, t, e);
    StepAfterStop(cfg, s, t, e);
    StepPushesOne(cfg, s, t, e);
    assert b == a[t := b[t]];
    CountUpdate(a, t, b[t]);
  }

  /** All pushes together grow by no more than the threads that may still push. */
  lemma {:induction false} FewMorePushes(cfg: Config, s0: State, schedule: seq<Choice>, i: nat)
    requires WellFormed(cfg, s0) && ScheduleOk(schedule, |s0.threads|) && i <= |schedule|
    requires Run(cfg, s0, schedule[..i]).stop != 0
    ensures Run(cfg, s0, schedule).stop != 0
    ensures Total(Run(cfg, s0, schedule).pushed) + Count(MayPushFlags(Run(cfg, s0, schedule)))
         <= Total(Run(cfg, s0, schedule[..i]).pushed) + Count(MayPushFlags(Run(cfg, s0, schedule[..i])))
    decreases |schedule|
  {
    if i == |schedule| {
      assert schedule[..i] == schedule;
    } else {
      var prefix, last := schedule[..|schedule| - 1], schedule[|schedule| - 1];
      assert prefix[..i] == schedule[..i];
      FewMorePushes(cfg, s0, prefix, i);
      var s := Run(cfg, s0, prefix);
      StepAfterStop(cfg, s, last.thread, last.env);
      StepSpendsFlags(cfg, s, last.thread, last.env);
    }
  }

  // ---------- a no ----------

  lemma StepOfNo(cfg: Config, s: State, t: nat, e: Env)
    requires WellFormed(cfg, s) && t < |s.threads| && AtClock(s, t) && !e.timeLeft
    ensures |Step(cfg, s, t, e).threads| == |s.threads|
    ensures Step(cfg, s, t, e).stop == 2 && Finished(Step(cfg, s, t, e).threads[t].pc)
    ensures Step(cfg, s, t, e).pushed == s.pushed
  {
  }

  lemma FinishedStep(cfg: Config, s: State, t: nat, e: Env, u: nat)
    requires WellFormed(cfg, s) && t < |s.threads| && u < |s.threads| && Finished(s.threads[u].pc)
    ensures |Step(cfg, s, t, e).threads| == |s.threads| && Step(cfg, s, t, e).threads[u] == s.threads[u]
  {
    StepKeepsShape(cfg, s, t, e);
  }

  lemma {:induction false} FinishedStays(cfg: Config, s0: State, schedule: seq<Choice>, i: nat, t: nat)
    requires WellFormed(cfg, s0) && ScheduleOk(schedule, |s0.threads|) && i <= |schedule| && t < |s0.threads|
    requires Finished(Run(cfg, s0, schedule[..i]).threads[t].pc)
    ensures Finished(Run(cfg, s0, schedule).threads[t].pc)
    ensures PushesOf(cfg, s0, schedule, t) == PushesOf(cfg, s0, schedule[..i], t)
    decreases |schedule|
  {
    if i == |schedule| {
      assert schedule[..i] == schedule;
    } else {
      var prefix, last := schedule[..|schedule| - 1], schedule[|schedule| - 1];
      assert prefix[..i] == schedule[..i];
      FinishedStays(cfg, s0, prefix, i, t);
      FinishedStep(cfg, Run(cfg, s0, prefix), last.thread, last.env, t);
    }
  }

  lemma AfterNo(cfg: Config, s0: State, schedule: seq<Choice>, i: nat)
    requires WellFormed(cfg, s0) && ScheduleOk(schedule, |s0.threads|) && i < |schedule|
    requires SaysNo(cfg, s0, schedule, i)
    ensures var t, after := schedule[i].thread, Run(cfg, s0, schedule[..i + 1]);
            && after.stop == 2 && Finished(after.threads[t].pc) && after.pushed == Run(cfg, s0, schedule[..i]).pushed
    ensures forall u :: PushesOf(cfg, s0, schedule[..i + 1], u) == PushesOf(cfg, s0, schedule[..i], u)
  {
    assert schedule[..i + 1][..i] == schedule[..i];
    RunOfPrefix(cfg, s0, schedule, i);
    StepOfNo(cfg, Run(cfg, s0, schedule[..i]), schedule[i].thread, schedule[i].env);
  }

  /** Once the clock has said no to a thread, at its entry or after a push, that thread is finished and pushes
      nothing more. */
  lemma NoEndsItsThread(cfg: Config, s0: State, schedule: seq<Choice>, i: nat)
    requires WellFormed(cfg, s0) && ScheduleOk(schedule, |s0.threads|) && i < |schedule|
    requires SaysNo(cfg, s0, schedule, i)
    ensures var t := schedule[i].thread;
            && Run(cfg, s0, schedule[..i + 1]).stop == 2
            && Finished(Run(cfg, s0, schedule).threads[t].pc)
            && PushesOf(cfg, s0, schedule, t) == PushesOf(cfg, s0, schedule[..i], t)
  {
    AfterNo(cfg, s0, schedule, i);
    FinishedStays(cfg, s0, schedule, i + 1, schedule[i].thread);
  }

  /** Once the clock has said no, each thread pushes at most one region more. */
  lemma OneMoreAfterNo(cfg: Config, s0: State, schedule: seq<Choice>, i: nat, u: nat)
    requires WellFormed(cfg, s0) && ScheduleOk(schedule, |s0.threads|) && i < |schedule| && u < |s0.threads|
    requires SaysNo(cfg, s0, schedule, i)
    ensures Run(cfg, s0, schedule).stop != 0
    ensures PushesOf(cfg, s0, schedule, u) <= PushesOf(cfg, s0, schedule[..i], u) + 1
  {
    AfterNo(cfg, s0, schedule, i);
    AtMostOneMore(cfg, s0, schedule, i + 1, u);
  }

  /** All pushes after a no are fewer than the threads. */
  lemma FewMoreAfterNo(cfg: Config, s0: State, schedule: seq<Choice>, i: nat)
    requires WellFormed(cfg, s0) && ScheduleOk(schedule, |s0.threads|) && i < |schedule|
    requires SaysNo(cfg, s0, schedule, i)
    ensures Total(Run(cfg, s0, schedule).pushed) < Total(Run(cfg, s0, schedule[..i]).pushed) + |s0.threads|
  {
    AfterNo(cfg, s0, schedule, i);
    FewMorePushes(cfg, s0, schedule, i + 1);
    CountOneOff(MayPushFlags(Run(cfg, s0, schedule[..i + 1])), schedule[i].thread);
  }

  lemma CountOneOff(flags: seq<bool>, i: nat)
    requires i < |flags| && !flags[i]
    ensures Count(flags) <= |flags| - 1
  {
    CountUpdate(flags, i, true);
  }

  // ---------- why a phase stopped ----------

  lemma StepSetsStop(cfg: Config, s: State, t: nat, e: Env)
    requires WellFormed(cfg, s) && t < |s.threads|
    ensures var s' := Step(cfg, s, t, e);
            || s'.stop == s.stop
            || (s'.stop == 2 && AtClock(s, t) && !e.timeLeft)
            || (s'.stop == 1 && !s.halted && s.threads[t].pc == SetStop)
    ensures Step(cfg, s, t, e).counters.pages >= s.counters.pages
    ensures |Step(cfg, s, t, e).threads| == |s.threads|
    ensures Step(cfg, s, t, e).threads[t].pc == SetStop && s.threads[t].pc != SetStop ==> s.counters.pages >= MAXPAGES
  {
  }

  /** A thread about to set the stop has seen the cap reached. */
  ghost predicate CapSeen(s: State) {
    && (s.stop == 1 ==> s.counters.pages >= MAXPAGES)
    && forall t :: 0 <= t < |s.threads| && s.threads[t].pc == SetStop ==> s.counters.pages >= MAXPAGES
  }

  /** A phase is stopped with 2 only by a clock that said no, and with 1 only with the cap reached. */
  lemma {:induction false} StopHasACause(cfg: Config, s0: State, schedule: seq<Choice>)
    requires WellFormed(cfg, s0) && ScheduleOk(schedule, |s0.threads|)
    requires s0.stop == 0 && forall t :: 0 <= t < |s0.threads| ==> s0.threads[t].pc == EntryStop
    ensures CapSeen(Run(cfg, s0, schedule)) && Run(cfg, s0, schedule).stop in {0, 1, 2}
    ensures Run(cfg, s0, schedule).stop == 2 ==>
              exists i {:trigger SaysNo(cfg, s0, schedule, i)} :: 0 <= i < |schedule| && SaysNo(cfg, s0, schedule, i)
  {
    if schedule != [] {
      var n := |schedule| - 1;
      var prefix, last := schedule[..n], schedule[n];
      StopHasACause(cfg, s0, prefix);
      var s := Run(cfg, s0, prefix);
      StepKeepsShape(cfg, s, last.thread, last.env);
      StepSetsStop(cfg, s, last.thread, last.env);
      if s.stop == 2 {
        NoCarries(cfg, s0, schedule, n);
      } else if Run(cfg, s0, schedule).stop == 2 {
        assert SaysNo(cfg, s0, schedule, n);
      }
    }
  }

  lemma NoCarries(cfg: Config, s0: State, schedule: seq<Choice>, n: nat)
    requires WellFormed(cfg, s0) && ScheduleOk(schedule, |s0.threads|) && n <= |schedule|
    requires exists i {:trigger SaysNo(cfg, s0, schedule[..n], i)} :: 0 <= i < n && SaysNo(cfg, s0, schedule[..n], i)
    ensures exists i {:trigger SaysNo(cfg, s0, schedule, i)} :: 0 <= i < |schedule| && SaysNo(cfg, s0, schedule, i)
  {
    var i :| 0 <= i < n && SaysNo(cfg, s0, schedule[..n], i);
    assert schedule[..n][..i] == schedule[..i];
    assert SaysNo(cfg, s0, schedule, i);
  }

  /** The cap has been reached, so a stop is set or a thread is on its way to set one. */
  ghost predicate CapHeeded(s: State) {
    s.counters.pages >= MAXPAGES ==>
      s.stop != 0 || exists t :: 0 <= t < |s.threads| && s.threads[t].pc in {RegionAdd, Limit, SetStop}
  }

  lemma StepHeedsCap(cfg: Config, s: State, t: nat, e: Env)
    requires WellFormed(cfg, s) && t < |s.threads| && EnvOk(e) && CapHeeded(s)
    ensures CapHeeded(Step(cfg, s, t, e))
  {
    var s' := Step(cfg, s, t, e);
    StepKeepsShape(cfg, s, t, e);
    if s'.counters.pages >= MAXPAGES && s'.stop == 0 {
      if s.counters.pages < MAXPAGES {
        assert s'.threads[t].pc == RegionAdd;
      } else {
        var u :| 0 <= u < |s.threads| && s.threads[u].pc in {RegionAdd, Limit, SetStop};
        assert s'.threads[u].pc in {RegionAdd, Limit, SetStop};
      }
    }
  }

  lemma {:induction false} RunHeedsCap(cfg: Config, s0: State, schedule: seq<Choice>)
    requires WellFormed(cfg, s0) && ScheduleOk(schedule, |s0.threads|) && s0.counters.pages == 0
    ensures CapHeeded(Run(cfg, s0, schedule))
  {
    if schedule != [] {
      var last := schedule[|schedule| - 1];
      RunHeedsCap(cfg, s0, schedule[..|schedule| - 1]);
      StepHeedsCap(cfg, Run(cfg, s0, schedule[..|schedule| - 1]), last.thread, last.env);
    }
  }

  /** When the threads have joined, the phase was stopped exactly if the clock once said no or the cap of
      5000000 pages was reached. */
  lemma StoppedExactly(cfg: Config, s0: State, schedule: seq<Choice>)
    requires WellFormed(cfg, s0) && ScheduleOk(schedule, |s0.threads|)
    requires s0.stop == 0 && s0.counters.pages == 0
    requires forall t :: 0 <= t < |s0.threads| ==> s0.threads[t].pc == EntryStop
    requires Joined(Run(cfg, s0, schedule))
    ensures Run(cfg, s0, schedule).stop != 0
        <==> || (exists i {:trigger SaysNo(cfg, s0, schedule, i)} :: 0 <= i < |schedule| && SaysNo(cfg, s0, schedule, i))
             || Run(cfg, s0, schedule).counters.pages >= 5000000
  {
    StopHasACause(cfg, s0, schedule);
    RunHeedsCap(cfg, s0, schedule);
    if i :| 0 <= i < |schedule| && SaysNo(cfg, s0, schedule, i) {
      assert schedule[i].thread < |s0.threads|;
      OneMoreAfterNo(cfg, s0, schedule, i, 0);
    }
  }

  /** A program that has exited does nothing more. */
  lemma {:induction false} ExitIsFinal(cfg: Config, s0: State, schedule: seq<Choice>)
    requires WellFormed(cfg, s0) && ScheduleOk(schedule, |s0.threads|) && s0.halted
    ensures Run(cfg, s0, schedule) == s0
  {
    if schedule != [] { ExitIsFinal(cfg, s0, schedule[..|schedule| - 1]); }
  }
}
