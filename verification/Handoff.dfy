/** The handoff of sampled addresses between the reader thread and the window thread of
    tracker_d.cpp, as a step system over the two threads and their mutex. */
module Handoff {

  datatype Holder = Free | Reader | Windower

  datatype ReaderPc = Parse | ReaderLock | Append | ReaderUnlock

  datatype WindowPc = Sleep | Check | WindowLock | Copy | Clear | WindowUnlock | Process | ClearChild

  /** `pending` is `addr_vector` and `child` is `child_addr_vector`; `batches` is history: every batch
      handed to the processing step. */
  datatype State<E> = State(lock: Holder, readerPc: ReaderPc, event: seq<E>, windowPc: WindowPc,
                            pending: seq<E>, child: seq<E>, batches: seq<seq<E>>)

  function Start<E>(): State<E> {
    State(Free, Parse, [], Sleep, [], [], [])
  }

  /** The reader parses a line into event e, then appends it under the mutex. A thread that finds the
      mutex taken stays where it is. */
  function ReaderStep<E>(s: State<E>, e: E): State<E> {
    match s.readerPc
    case Parse => s.(readerPc := ReaderLock, event := [e])
    case ReaderLock => if s.lock == Free then s.(readerPc := Append, lock := Reader) else s
    case Append => s.(readerPc := ReaderUnlock, pending := s.pending + s.event)
    case ReaderUnlock => s.(readerPc := Parse, lock := Free)
  }

  /** The window thread tests for events without the mutex, then copies and clears under it. */
  function WindowStep<E>(s: State<E>): State<E> {
    match s.windowPc
    case Sleep => s.(windowPc := Check)
    case Check => s.(windowPc := if |s.pending| > 0 then WindowLock else Sleep)
    case WindowLock => if s.lock == Free then s.(windowPc := Copy, lock := Windower) else s
    case Copy => s.(windowPc := Clear, child := s.child + s.pending)
    case Clear => s.(windowPc := WindowUnlock, pending := [])
    case WindowUnlock => s.(windowPc := Process, lock := Free)
    case Process => s.(windowPc := ClearChild, batches := s.batches + [s.child])
    case ClearChild => s.(windowPc := Sleep, child := [])
  }

  function Flatten<E>(batches: seq<seq<E>>): seq<E> {
    if batches == [] then []
    else Flatten(batches[..|batches| - 1]) + batches[|batches| - 1]
  }

  /** The batch that has left `pending` but has not been handed over yet. */
  function InTransit<E>(s: State<E>): seq<E> {
    if s.windowPc == WindowUnlock || s.windowPc == Process then s.child else []
  }

  /** The event that the reader has parsed but not appended yet. */
  function Held<E>(s: State<E>): seq<E> {
    if s.readerPc == ReaderLock || s.readerPc == Append then s.event else []
  }

  /** The state after the reader has parsed these lines. */
  ghost predicate Inv<E>(s: State<E>, lines: seq<E>) {
    && lines == Flatten(s.batches) + InTransit(s) + s.pending + Held(s)
    && (s.windowPc in {Sleep, Check, WindowLock, Copy} ==> s.child == [])
    && (s.windowPc in {WindowLock, Copy, Clear} ==> |s.pending| > 0)
    && (s.windowPc == Clear ==> s.child == s.pending)
    && (s.windowPc in {WindowUnlock, Process, ClearChild} ==> |s.child| > 0)
    && (s.lock == Windower <==> s.windowPc in {Copy, Clear, WindowUnlock})
    && (s.lock == Reader <==> s.readerPc in {Append, ReaderUnlock})
    && (s.readerPc != Parse ==> |s.event| == 1)
    && (forall b :: b in s.batches ==> |b| > 0)
  }

  datatype Choice<E> = ReaderTurn(line: E) | WindowTurn

  function Step<E>(s: State<E>, c: Choice<E>): State<E> {
    match c
    case ReaderTurn(e) => ReaderStep(s, e)
    case WindowTurn => WindowStep(s)
  }

  function Run<E>(s: State<E>, schedule: seq<Choice<E>>): State<E> {
    if schedule == [] then s
    else Step(Run(s, schedule[..|schedule| - 1]), schedule[|schedule| - 1])
  }

  /** The lines that the reader has parsed: those of its turns taken in state Parse. */
  function Parsed<E>(schedule: seq<Choice<E>>): seq<E> {
    if schedule == [] then []
    else
      var before := schedule[..|schedule| - 1];
      Parsed(before) + ParsedNow(Run(Start(), before), schedule[|schedule| - 1])
  }

  function ParsedNow<E>(s: State<E>, c: Choice<E>): seq<E> {
    if c.ReaderTurn? && s.readerPc == Parse then [c.line] else []
  }

  lemma ReaderKeepsInv<E>(s: State<E>, lines: seq<E>, e: E)
    requires Inv(s, lines)
    ensures Inv(ReaderStep(s, e), lines + if s.readerPc == Parse then [e] else [])
  {
  }

  lemma WindowKeepsInv<E>(s: State<E>, lines: seq<E>)
    requires Inv(s, lines)
    ensures Inv(WindowStep(s), lines)
  {
    if s.windowPc == Process {
      assert WindowStep(s).batches[..|s.batches|] == s.batches;
    }
  }

  lemma StepKeepsInv<E>(s: State<E>, lines: seq<E>, c: Choice<E>)
    requires Inv(s, lines)
    ensures Inv(Step(s, c), lines + ParsedNow(s, c))
  {
    match c
    case ReaderTurn(e) => ReaderKeepsInv(s, lines, e);
    case WindowTurn => WindowKeepsInv(s, lines); assert lines + [] == lines;
  }

  lemma {:induction false} RunKeepsInv<E>(schedule: seq<Choice<E>>)
    ensures Inv(Run(Start(), schedule), Parsed(schedule))
  {
    if schedule != [] {
      RunKeepsInv(schedule[..|schedule| - 1]);
      StepKeepsInv(Run<E>(Start(), schedule[..|schedule| - 1]), Parsed(schedule[..|schedule| - 1]), schedule[|schedule| - 1]);
    }
  }

  lemma QuietState<E>(s: State<E>, lines: seq<E>)
    requires Inv(s, lines)
    ensures s.windowPc == Sleep && s.readerPc == Parse ==> s.child == [] && lines == Flatten(s.batches) + s.pending
  {
    assert Flatten(s.batches) + [] + s.pending + [] == Flatten(s.batches) + s.pending;
  }

  /** In every interleaving the batches handed over, the one in transit, the events still pending and the
      one the reader holds make up exactly the lines parsed, in order: nothing is lost, duplicated or
      reordered. The child vector is empty whenever the window thread sleeps, and no batch is empty. */
  lemma NothingLost<E>(schedule: seq<Choice<E>>)
    ensures var s := Run<E>(Start(), schedule);
            && Parsed(schedule) == Flatten(s.batches) + InTransit(s) + s.pending + Held(s)
            && (s.windowPc == Sleep && s.readerPc == Parse ==>
                  s.child == [] && Parsed(schedule) == Flatten(s.batches) + s.pending)
            && (forall b :: b in s.batches ==> |b| > 0)
  {
    RunKeepsInv(schedule);
    QuietState(Run<E>(Start(), schedule), Parsed(schedule));
  }

  /** The two threads are never both inside their critical sections. */
  lemma MutualExclusion<E>(schedule: seq<Choice<E>>)
    ensures var s := Run<E>(Start(), schedule);
            !(s.readerPc in {Append, ReaderUnlock} && s.windowPc in {Copy, Clear, WindowUnlock})
  {
    RunKeepsInv(schedule);
  }

  /** In no reachable state do the threads block each other: one of them always gets on. */
  lemma NoDeadlock<E>(schedule: seq<Choice<E>>, e: E)
    ensures var s := Run<E>(Start(), schedule);
            ReaderStep(s, e).readerPc != s.readerPc || WindowStep(s).windowPc != s.windowPc
    ensures var s := Run<E>(Start(), schedule);
            s.lock == Free ==> ReaderStep(s, e).readerPc != s.readerPc && WindowStep(s).windowPc != s.windowPc
  {
    RunKeepsInv(schedule);
  }

  function WindowTurns<E>(s: State<E>, n: nat): State<E>
    decreases n
  {
    if n == 0 then s else WindowStep(WindowTurns(s, n - 1))
  }

  lemma BatchTurns<E>(s: State<E>)
    requires s.windowPc == Check && s.lock == Free && s.child == [] && s.pending != []
    ensures WindowTurns(s, 7) == s.(windowPc := Sleep, batches := s.batches + [s.pending], pending := [])
  {
    assert WindowTurns(s, 1) == s.(windowPc := WindowLock);
    assert WindowTurns(s, 2) == s.(windowPc := Copy, lock := Windower);
    assert s.child + s.pending == s.pending;
    assert WindowTurns(s, 3) == s.(windowPc := Clear, lock := Windower, child := s.pending);
    assert WindowTurns(s, 4) == s.(windowPc := WindowUnlock, lock := Windower, child := s.pending, pending := []);
    assert WindowTurns(s, 5) == s.(windowPc := Process, child := s.pending, pending := []);
  }

  /** Whenever the window thread wakes in a reachable state and is not kept out, its next turns hand over
      exactly what is pending, as one batch, and it sleeps again with nothing left; with nothing pending it
      goes back to sleep at once. */
  lemma WindowHandsOver<E>(schedule: seq<Choice<E>>)
    requires Run<E>(Start(), schedule).windowPc == Check && Run<E>(Start(), schedule).lock == Free
    ensures var s := Run<E>(Start(), schedule);
            if s.pending == [] then WindowTurns(s, 1) == s.(windowPc := Sleep)
            else WindowTurns(s, 7) == s.(windowPc := Sleep, batches := s.batches + [s.pending], pending := [])
  {
    RunKeepsInv(schedule);
    var s := Run<E>(Start(), schedule);
    if s.pending == [] {
      assert WindowTurns(s, 0) == s;
    } else {
      BatchTurns(s);
    }
  }
}
