/** The counters of a migration phase: each of them counts one kind of push result. */
module SchedulerTally {
  import opened Counting
  import opened Tiers
  import opened Regions
  import opened Push
  import opened Scheduler
  import Clock = SchedulerClock

  /** What the push of thread t answers. */
  ghost function ResultOf(cfg: Config, s: State, t: nat, e: Env): int
    requires WellFormed(cfg, s) && t < |s.threads| && s.threads[t].pc == Pushing
  {
    var th := s.threads[t];
    assert IsTile(s.regions[th.j]);
    PushARegion(cfg.tiers, cfg.ntier, s.regions[th.j], th.dst, e).ret
  }

  ghost function ResultNow(cfg: Config, s: State, c: Choice): seq<int>
    requires WellFormed(cfg, s) && c.thread < |s.threads|
  {
    if Clock.AtPush(s, c.thread) then [ResultOf(cfg, s, c.thread, c.env)] else []
  }

  /** The answers of all pushes of a schedule, in order. */
  ghost function Results(cfg: Config, s0: State, schedule: seq<Choice>): seq<int>
    requires WellFormed(cfg, s0) && ScheduleOk(schedule, |s0.threads|)
    decreases |schedule|
  {
    if schedule == [] then []
    else
      var prefix, last := schedule[..|schedule| - 1], schedule[|schedule| - 1];
      Results(cfg, s0, prefix) + ResultNow(cfg, Run(cfg, s0, prefix), last)
  }

  /** The counter that is kept for a non-positive answer. */
  function CounterFor(c: Counters, v: int): nat {
    if v == -20 then c.inDram
    else if v == -21 then c.inOptane
    else if v == -22 then c.inZswap
    else if v == -23 then c.somewhere
    else if v == 0 then c.notMoved
    else 0
  }

  predicate Waits(th: Thread, v: int) {
    th.pc == Tally && th.moved == v
  }

  function WaitFlags(s: State, v: int): (flags: seq<bool>)
    ensures |flags| == |s.threads|
    ensures forall t :: 0 <= t < |flags| ==> flags[t] == Waits(s.threads[t], v)
  {
    seq(|s.threads|, t requires 0 <= t < |s.threads| => Waits(s.threads[t], v))
  }

  /** The pages that a thread has reported but not yet added. */
  function PagesToAdd(th: Thread): nat {
    if th.pc == PageAdd && th.moved > 0 then th.moved else 0
  }

  function ToAdd(s: State): (c: seq<nat>)
    ensures |c| == |s.threads|
    ensures forall t :: 0 <= t < |c| ==> c[t] == PagesToAdd(s.threads[t])
  {
    seq(|s.threads|, t requires 0 <= t < |s.threads| => PagesToAdd(s.threads[t]))
  }

  function RegionsToAdd(s: State): (flags: seq<bool>)
    ensures |flags| == |s.threads|
    ensures forall t :: 0 <= t < |flags| ==> flags[t] == (s.threads[t].pc in {PageAdd, RegionAdd})
  {
    seq(|s.threads|, t requires 0 <= t < |s.threads| => s.threads[t].pc in {PageAdd, RegionAdd})
  }

  function Positive(v: int): nat { if v > 0 then v else 0 }

  /** The sum of the positive answers. */
  function PositiveSum(results: seq<int>): nat {
    if results == [] then 0 else PositiveSum(results[..|results| - 1]) + Positive(results[|results| - 1])
  }

  function PositiveCount(results: seq<int>): nat {
    if results == [] then 0 else PositiveCount(results[..|results| - 1]) + if results[|results| - 1] > 0 then 1 else 0
  }

  /** One step of thread t against the answer it gives, if any. */
  lemma StepTallies(cfg: Config, s: State, t: nat, e: Env, v: int)
    requires WellFormed(cfg, s) && t < |s.threads| && EnvOk(e) && v <= 0
    ensures |Step(cfg, s, t, e).threads| == |s.threads|
    ensures var s' := Step(cfg, s, t, e);
            CounterFor(s'.counters, v) + (if Waits(s'.threads[t], v) then 1 else 0)
            == CounterFor(s.counters, v) + (if Waits(s.threads[t], v) then 1 else 0)
               + if Clock.AtPush(s, t) && ResultOf(cfg, s, t, e) == v then 1 else 0
  {
    assert ThreadOk(cfg, s, s.threads[t]);
  }

  lemma StepAddsPages(cfg: Config, s: State, t: nat, e: Env)
    requires WellFormed(cfg, s) && t < |s.threads| && EnvOk(e)
    ensures |Step(cfg, s, t, e).threads| == |s.threads|
    ensures var s' := Step(cfg, s, t, e);
            && s'.counters.pages + PagesToAdd(s'.threads[t])
               == s.counters.pages + PagesToAdd(s.threads[t])
                  + (if Clock.AtPush(s, t) then Positive(ResultOf(cfg, s, t, e)) else 0)
            && s'.counters.regions + (if s'.threads[t].pc in {PageAdd, RegionAdd} then 1 else 0)
               == s.counters.regions + (if s.threads[t].pc in {PageAdd, RegionAdd} then 1 else 0)
                  + if Clock.AtPush(s, t) && ResultOf(cfg, s, t, e) > 0 then 1 else 0
  {
    assert ThreadOk(cfg, s, s.threads[t]);
  }

  /** Each push with that answer is in its counter or waits to be tallied. */
  predicate Tallied(s: State, results: seq<int>, v: int) {
    CounterFor(s.counters, v) + Count(WaitFlags(s, v)) == multiset(results)[v]
  }

  predicate PagesAdded(s: State, results: seq<int>) {
    && s.counters.pages + Total(ToAdd(s)) == PositiveSum(results)
    && s.counters.regions + Count(RegionsToAdd(s)) == PositiveCount(results)
  }

  lemma AppendResult(results: seq<int>, more: seq<int>, v: int)
    requires |more| <= 1
    ensures multiset(results + more)[v] == multiset(results)[v] + if more == [v] then 1 else 0
    ensures PositiveSum(results + more) == PositiveSum(results) + if more == [] then 0 else Positive(more[0])
    ensures PositiveCount(results + more) == PositiveCount(results) + if more != [] && more[0] > 0 then 1 else 0
  {
    if more == [] {
      assert results + more == results;
    } else {
      assert (results + more)[..|results|] == results;
      assert multiset(results + more) == multiset(results) + multiset(more);
    }
  }

  lemma StepKeepsWaits(cfg: Config, s: State, c: Choice, results: seq<int>, v: int)
    requires WellFormed(cfg, s) && c.thread < |s.threads| && EnvOk(c.env) && v <= 0
    requires Tallied(s, results, v)
    ensures Tallied(Step(cfg, s, c.thread, c.env), results + ResultNow(cfg, s, c), v)
  {
    var t, s' := c.thread, Step(cfg, s, c.thread, c.env);
    StepKeepsShape(cfg, s, t, c.env);
    StepTallies(cfg, s, t, c.env, v);
    var a, b := WaitFlags(s, v), WaitFlags(s', v);
    assert b == a[t := b[t]];
    CountUpdate(a, t, b[t]);
    AppendResult(results, ResultNow(cfg, s, c), v);
  }

  lemma StepKeepsPages(cfg: Config, s: State, c: Choice, results: seq<int>)
    requires WellFormed(cfg, s) && c.thread < |s.threads| && EnvOk(c.env)
    requires PagesAdded(s, results)
    ensures PagesAdded(Step(cfg, s, c.thread, c.env), results + ResultNow(cfg, s, c))
  {
    var t, s' := c.thread, Step(cfg, s, c.thread, c.env);
    StepKeepsShape(cfg, s, t, c.env);
    StepAddsPages(cfg, s, t, c.env);
    var a, b := ToAdd(s), ToAdd(s');
    assert b == a[t := b[t]];
    Clock.TotalUpdate(a, t, b[t]);
    var f, g := RegionsToAdd(s), RegionsToAdd(s');
    assert g == f[t := g[t]];
    CountUpdate(f, t, g[t]);
    AppendResult(results, ResultNow(cfg, s, c), 0);
  }

  /** In every reachable state each counter is the number of pushes with its answer, but for the answers that
      threads hold and have not tallied yet. */
  lemma {:induction false} CountersAreResults(cfg: Config, s0: State, schedule: seq<Choice>, v: int)
    requires WellFormed(cfg, s0) && ScheduleOk(schedule, |s0.threads|) && v <= 0
    requires s0.counters == ZERO && forall t :: 0 <= t < |s0.threads| ==> s0.threads[t].pc == EntryStop
    ensures Tallied(Run(cfg, s0, schedule), Results(cfg, s0, schedule), v)
  {
    if schedule == [] {
      CountNone(WaitFlags(s0, v));
    } else {
      var prefix, last := schedule[..|schedule| - 1], schedule[|schedule| - 1];
      CountersAreResults(cfg, s0, prefix, v);
      StepKeepsWaits(cfg, Run(cfg, s0, prefix), last, Results(cfg, s0, prefix), v);
    }
  }

  /** The page counter is the sum of the positive answers and the region counter their number, but for what
      threads have yet to add. */
  lemma {:induction false} PagesAreResults(cfg: Config, s0: State, schedule: seq<Choice>)
    requires WellFormed(cfg, s0) && ScheduleOk(schedule, |s0.threads|)
    requires s0.counters == ZERO && forall t :: 0 <= t < |s0.threads| ==> s0.threads[t].pc == EntryStop
    ensures PagesAdded(Run(cfg, s0, schedule), Results(cfg, s0, schedule))
  {
    if schedule == [] {
      TotalOfZeros(ToAdd(s0));
      CountNone(RegionsToAdd(s0));
    } else {
      var prefix, last := schedule[..|schedule| - 1], schedule[|schedule| - 1];
      PagesAreResults(cfg, s0, prefix);
      StepKeepsPages(cfg, Run(cfg, s0, prefix), last, Results(cfg, s0, prefix));
    }
  }

  lemma {:induction false} TotalOfZeros(c: seq<nat>)
    requires forall i :: 0 <= i < |c| ==> c[i] == 0
    ensures Total(c) == 0
  {
    if c != [] { TotalOfZeros(c[..|c| - 1]); }
  }

  lemma NoneWaits(s: State, results: seq<int>, v: int)
    requires Joined(s) && Tallied(s, results, v)
    ensures CounterFor(s.counters, v) == multiset(results)[v]
  {
    CountNone(WaitFlags(s, v));
  }

  lemma AllAdded(s: State, results: seq<int>)
    requires Joined(s) && PagesAdded(s, results)
    ensures s.counters.regions == PositiveCount(results) && s.counters.pages == PositiveSum(results)
  {
    TotalOfZeros(ToAdd(s));
    CountNone(RegionsToAdd(s));
  }

  lemma JoinedCounter(cfg: Config, s0: State, schedule: seq<Choice>, v: int)
    requires WellFormed(cfg, s0) && ScheduleOk(schedule, |s0.threads|) && v <= 0
    requires s0.counters == ZERO && forall t :: 0 <= t < |s0.threads| ==> s0.threads[t].pc == EntryStop
    requires Joined(Run(cfg, s0, schedule))
    ensures CounterFor(Run(cfg, s0, schedule).counters, v) == multiset(Results(cfg, s0, schedule))[v]
  {
    CountersAreResults(cfg, s0, schedule, v);
    NoneWaits(Run(cfg, s0, schedule), Results(cfg, s0, schedule), v);
  }

  /** When the threads have joined, the counters are exactly the pushes by their answers: -20, -21, -22 and -23
      for the four "already" counters, 0 for the lines about pages not moved, and for the others the number
      and the sum of the positive ones. */
  lemma JoinedCounters(cfg: Config, s0: State, schedule: seq<Choice>)
    requires WellFormed(cfg, s0) && ScheduleOk(schedule, |s0.threads|)
    requires s0.counters == ZERO && forall t :: 0 <= t < |s0.threads| ==> s0.threads[t].pc == EntryStop
    requires Joined(Run(cfg, s0, schedule))
    ensures var c, results := Run(cfg, s0, schedule).counters, Results(cfg, s0, schedule);
            && c.inDram == multiset(results)[-20] && c.inOptane == multiset(results)[-21]
            && c.inZswap == multiset(results)[-22] && c.somewhere == multiset(results)[-23]
            && c.notMoved == multiset(results)[0]
            && c.regions == PositiveCount(results) && c.pages == PositiveSum(results)
  {
    JoinedCounter(cfg, s0, schedule, -20);
    JoinedCounter(cfg, s0, schedule, -21);
    JoinedCounter(cfg, s0, schedule, -22);
    JoinedCounter(cfg, s0, schedule, -23);
    JoinedCounter(cfg, s0, schedule, 0);
    PagesAreResults(cfg, s0, schedule);
    AllAdded(Run(cfg, s0, schedule), Results(cfg, s0, schedule));
  }

  // ---------- exit ----------

  lemma ResultInRange(cfg: Config, s: State, t: nat, e: Env)
    requires WellFormed(cfg, s) && t < |s.threads| && EnvOk(e) && s.threads[t].pc == Pushing
    ensures ResultOf(cfg, s, t, e) in {-1, -20, -21, -22, -23} || 0 <= ResultOf(cfg, s, t, e) <= 512
  {
    var th := s.threads[t];
    assert ThreadOk(cfg, s, th);
    ResultsExactly(cfg.tiers, cfg.ntier, s.regions[th.j], th.dst, e);
  }

  /** A thread that waits to tally holds an answer that a push can give, and a program that has exited has done
      so over an answer of -1. */
  ghost predicate Answers(s: State) {
    && (forall t :: 0 <= t < |s.threads| && s.threads[t].pc == Tally ==> s.threads[t].moved in {-1, -20, -21, -22, -23, 0})
    && (s.halted ==> exists t :: 0 <= t < |s.threads| && Waits(s.threads[t], -1))
  }

  lemma StepKeepsAnswers(cfg: Config, s: State, t: nat, e: Env)
    requires WellFormed(cfg, s) && t < |s.threads| && EnvOk(e) && Answers(s)
    ensures Answers(Step(cfg, s, t, e))
  {
    var s' := Step(cfg, s, t, e);
    StepKeepsShape(cfg, s, t, e);
    if Clock.AtPush(s, t) { ResultInRange(cfg, s, t, e); }
    if s'.halted && !s.halted {
      assert s.threads[t].pc == Tally;
      assert Waits(s'.threads[t], -1);
    } else if s.halted {
      assert s' == s;
    }
  }

  lemma {:induction false} RunKeepsAnswers(cfg: Config, s0: State, schedule: seq<Choice>)
    requires WellFormed(cfg, s0) && ScheduleOk(schedule, |s0.threads|)
    requires !s0.halted && forall t :: 0 <= t < |s0.threads| ==> s0.threads[t].pc == EntryStop
    ensures Answers(Run(cfg, s0, schedule))
  {
    if schedule != [] {
      var prefix, last := schedule[..|schedule| - 1], schedule[|schedule| - 1];
      RunKeepsAnswers(cfg, s0, prefix);
      StepKeepsAnswers(cfg, Run(cfg, s0, prefix), last.thread, last.env);
    }
  }

  lemma WaitingCounts(s: State, results: seq<int>)
    requires Tallied(s, results, -1) && Answers(s)
    ensures s.halted ==> -1 in results
    ensures -1 in results ==> !Joined(s)
  {
    CountZeroExactly(WaitFlags(s, -1));
    assert multiset(results)[-1] == Count(WaitFlags(s, -1));
    if s.halted {
      var t :| 0 <= t < |s.threads| && Waits(s.threads[t], -1);
      assert WaitFlags(s, -1)[t];
    }
    if Joined(s) { CountNone(WaitFlags(s, -1)); }
    assert -1 in multiset(results) <==> -1 in results;
  }

  /** A phase ends the program only over a push that answered -1, and once one has, the threads never join. */
  lemma ExitsExactly(cfg: Config, s0: State, schedule: seq<Choice>)
    requires WellFormed(cfg, s0) && ScheduleOk(schedule, |s0.threads|)
    requires s0.counters == ZERO && !s0.halted && forall t :: 0 <= t < |s0.threads| ==> s0.threads[t].pc == EntryStop
    ensures Run(cfg, s0, schedule).halted ==> -1 in Results(cfg, s0, schedule)
    ensures -1 in Results(cfg, s0, schedule) ==> !Joined(Run(cfg, s0, schedule))
  {
    CountersAreResults(cfg, s0, schedule, -1);
    RunKeepsAnswers(cfg, s0, schedule);
    WaitingCounts(Run(cfg, s0, schedule), Results(cfg, s0, schedule));
  }
}
