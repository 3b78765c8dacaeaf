/**
  subscription.go in its own form: the object, the loop of processEvents and the body of Close,
  each with arbitrary steps of the other threads between its atomic regions. Every execution is
  shown to be a run of the protocol, so the results of SubscriptionSafety hold of this code.
 */
module SubscriptionCode {
  import opened SubscriptionProtocol
  import opened SubscriptionSafety

  /** A thread: the processing goroutine, or the one that makes the Close call id. */
  datatype Thread = TheProcessor | TheCloser(id: nat)

  predicate ByThread(a: Action, th: Thread) {
    match a
    case Processor(_) => th.TheProcessor?
    case CallClose(id) => th == TheCloser(id)
    case Closer(id, _) => th == TheCloser(id)
  }

  /** No step of these is made by the thread th. */
  predicate Foreign(acts: seq<Action>, th: Thread) {
    forall i :: 0 <= i < |acts| ==> !ByThread(acts[i], th)
  }

  function Others(acts: seq<Action>, th: Thread): seq<Action>
    decreases |acts|
  {
    if acts == [] then []
    else if ByThread(acts[|acts| - 1], th) then Others(acts[..|acts| - 1], th)
    else Others(acts[..|acts| - 1], th) + [acts[|acts| - 1]]
  }

  /** What the other threads are scheduled to do before the first n steps of a thread. */
  function Scheduled(env: nat -> seq<Action>, n: nat): seq<Action> {
    if n == 0 then [] else Scheduled(env, n - 1) + env(n - 1)
  }

  /** A run leads from s0 to s in which th takes some steps and the others exactly those of env before the first k. */
  ghost predicate Follows(th: Thread, s0: State, s: State, env: nat -> seq<Action>, k: nat) {
    exists acts :: s == Run(s0, acts) && Others(acts, th) == Scheduled(env, k)
  }

  /** The other threads leave the thread th alone. */
  ghost predicate Away(env: nat -> seq<Action>, th: Thread) {
    forall n: nat :: Foreign(env(n), th)
  }

  lemma {:induction false} OthersAppend(a: seq<Action>, b: seq<Action>, th: Thread)
    requires Foreign(b, th)
    ensures Others(a + b, th) == Others(a, th) + b
    decreases |b|
  {
    if b == [] {
      assert a + b == a;
    } else {
      var b' := b[..|b| - 1];
      assert (a + b)[..|a + b| - 1] == a + b';
      OthersAppend(a, b', th);
      assert b == b' + [b[|b| - 1]];
    }
  }

  lemma FollowsNothing(th: Thread, s: State, env: nat -> seq<Action>)
    ensures Follows(th, s, s, env, 0)
  {
    assert Run(s, []) == s && Others([], th) == Scheduled(env, 0);
  }

  lemma FollowsOwn(th: Thread, s0: State, s: State, env: nat -> seq<Action>, k: nat, a: Action)
    requires Follows(th, s0, s, env, k) && ByThread(a, th)
    ensures Follows(th, s0, Step(s, a), env, k)
  {
    var acts :| s == Run(s0, acts) && Others(acts, th) == Scheduled(env, k);
    var more := acts + [a];
    RunOneMore(s0, acts, a);
    assert more[..|more| - 1] == acts;
    assert Step(s, a) == Run(s0, more) && Others(more, th) == Scheduled(env, k);
  }

  lemma FollowsOthers(th: Thread, s0: State, s: State, env: nat -> seq<Action>, k: nat)
    requires Follows(th, s0, s, env, k) && Away(env, th)
    ensures Follows(th, s0, Run(s, env(k)), env, k + 1)
  {
    var acts :| s == Run(s0, acts) && Others(acts, th) == Scheduled(env, k);
    RunAppend(s0, acts, env(k));
    OthersAppend(acts, env(k), th);
    assert Run(s, env(k)) == Run(s0, acts + env(k)) && Others(acts + env(k), th) == Scheduled(env, k + 1);
  }

  /** What the return of RecvMsg changes. */
  lemma RecvReturns(s: State, input: Received)
    requires s.pc == InRecv
    ensures Step(s, Processor(input))
            == if input.GotEvent? then s.(pc := CheckEvent(input.event), trace := s.trace + [EventReceived(input.event)])
               else s.(pc := CheckError(input.error), trace := s.trace + [ErrorReceived(input.error)])
  {
  }

  lemma ExitReturns(s: State)
    requires s.pc == AtExit
    ensures Step(s, Processor(GotError(""))) == s.(done := true, pc := Finished, trace := s.trace + [DoneClosed])
  {
  }

  /** The k-th atomic step of the processor, with what the others do just before it. */
  lemma ProcessorFollows(s0: State, s: State, env: nat -> seq<Action>, k: nat, input: Received)
    requires Follows(TheProcessor, s0, s, env, k) && Away(env, TheProcessor)
    ensures var s1 := Run(s, env(k));
            && s1.pc == s.pc
            && Follows(TheProcessor, s0, Step(s1, Processor(input)), env, k + 1)
            && Answers(Step(s1, Processor(input)).trace)
               == if s.pc.InRecv? then Answers(s.trace) + [input] else Answers(s.trace)
  {
    assert Foreign(env(k), TheProcessor);
    OthersKeepProcessor(s, env(k));
    ProcessorHears(Run(s, env(k)).trace, s.pc, input);
    FollowsOthers(TheProcessor, s0, s, env, k);
    FollowsOwn(TheProcessor, s0, Run(s, env(k)), env, k + 1, Processor(input));
  }

  /** The k-th atomic step of the Close call id, with what the others do just before it. */
  lemma CloserFollows(s0: State, s: State, env: nat -> seq<Action>, k: nat, id: nat, timerFired: bool)
    requires Follows(TheCloser(id), s0, s, env, k) && Away(env, TheCloser(id)) && id in s.closers
    ensures var s1 := Run(s, env(k));
            && id in s1.closers && s1.closers[id] == s.closers[id]
            && (s.closed ==> s1.closed)
            && Follows(TheCloser(id), s0, Step(s1, Closer(id, timerFired)), env, k + 1)
  {
    assert Foreign(env(k), TheCloser(id));
    OthersKeepCloser(s, env(k), id);
    FlagStays(s, env(k));
    FollowsOthers(TheCloser(id), s0, s, env, k);
    FollowsOwn(TheCloser(id), s0, Run(s, env(k)), env, k + 1, Closer(id, timerFired));
  }

  /** What the code of a new subscription has done keeps everything that every run of the protocol keeps. */
  lemma CodeKeepsProtocol(th: Thread, hasCancel: bool, s: State, env: nat -> seq<Action>, k: nat)
    requires Follows(th, Init(hasCancel), s, env, k)
    ensures Inv(s) && CallbackInv(s)
    ensures s.pc.InRecv? || (s.pc.Finished? && !s.closed) ==> DeliveredEvents(s.trace) == ReceivedEvents(s.trace)
    ensures !hasCancel ==> forall m :: m in s.trace ==> !m.CancelCalled?
  {
    var acts :| s == Run(Init(hasCancel), acts) && Others(acts, th) == Scheduled(env, k);
    InvOverRuns(hasCancel, acts);
    CancelCalledIff(hasCancel, acts);
    CallbacksOverRuns(hasCancel, acts);
  }

  lemma OtherKeepsProcessor(s: State, a: Action)
    requires !a.Processor?
    ensures Step(s, a).pc == s.pc
    ensures Answers(Step(s, a).trace) == Answers(s.trace)
  {
    if a.Closer? && a.closer in s.closers {
      var m := CloserMoment(a.closer, s.closers[a.closer], s.hasCancel, s.closed, s.done, a.timerFired);
      CloserIsNotProcessor(a.closer, s.closers[a.closer], s.hasCancel, s.closed, s.done, a.timerFired);
      if m.Some? {
        ObserveAnswers(s.trace, m.value);
      }
    }
  }

  lemma {:induction false} OthersKeepProcessor(s: State, others: seq<Action>)
    requires Foreign(others, TheProcessor)
    ensures Run(s, others).pc == s.pc
    ensures Answers(Run(s, others).trace) == Answers(s.trace)
    decreases |others|
  {
    if others != [] {
      var init := others[..|others| - 1];
      OthersKeepProcessor(s, init);
      OtherKeepsProcessor(Run(s, init), others[|others| - 1]);
    }
  }

  lemma {:induction false} OthersKeepCloser(s: State, others: seq<Action>, id: nat)
    requires Foreign(others, TheCloser(id))
    ensures id in Run(s, others).closers <==> id in s.closers
    ensures id in s.closers ==> Run(s, others).closers[id] == s.closers[id]
    ensures Run(s, others).hasCancel == s.hasCancel
    decreases |others|
  {
    if others != [] {
      OthersKeepCloser(s, others[..|others| - 1], id);
    }
  }

  lemma OneMore(stream: seq<Received>, n: nat)
    requires n < |stream|
    ensures stream[..n + 1] == stream[..n] + [stream[n]]
  {
  }

  /**
    EventSubscription. closed and done are the fields of the source; pc, closers and trace say
    where each thread stands and what has been observed.
   */
  class EventSubscription {
    const hasCancel: bool
    var closed: bool
    var done: bool
    var pc: ProcessorPc
    var closers: map<nat, CloserPc>
    var trace: seq<Moment>

    ghost function View(): State
      reads this
    {
      State(hasCancel, closed, done, pc, closers, trace)
    }

    constructor (hasCancel: bool)
      ensures View() == Init(hasCancel)
    {
      this.hasCancel := hasCancel;
      closed, done, pc, closers, trace := false, false, Top, map[], [];
    }

    /** The other threads run. */
    method Interfere(others: seq<Action>)
      modifies this
      ensures View() == Run(old(View()), others)
    {
      var s := Run(State(hasCancel, closed, done, pc, closers, trace), others);
      RunKeepsCancel(View(), others);
      closed, done, pc, closers, trace := s.closed, s.done, s.pc, s.closers, s.trace;
    }

    /* ---- The atomic steps of processEvents; env(k) is what the other threads do before the k-th ---- */

    /** The read of the flag at the top of the loop, under the read lock. */
    method ReadClosed(ghost s0: State, env: nat -> seq<Action>, k: nat) returns (c: bool)
      requires Follows(TheProcessor, s0, View(), env, k) && Away(env, TheProcessor) && pc == Top
      modifies this
      ensures Follows(TheProcessor, s0, View(), env, k + 1)
      ensures c == closed && pc == (if c then AtExit else AtRecv) && Answers(trace) == Answers(old(trace))
    {
      ProcessorFollows(s0, View(), env, k, GotError(""));
      Interfere(env(k));
      ghost var s := View();
      c := closed;
      pc := if c then AtExit else AtRecv;
      assert View() == Step(s, Processor(GotError("")));
    }

    /** The second read of the flag, after an event was received. */
    method IsClosedBeforeEvent(ghost s0: State, env: nat -> seq<Action>, k: nat, e: Event) returns (c: bool)
      requires Follows(TheProcessor, s0, View(), env, k) && Away(env, TheProcessor) && pc == CheckEvent(e)
      modifies this
      ensures Follows(TheProcessor, s0, View(), env, k + 1)
      ensures c == closed && pc == (if c then Top else AtOnEvent(e)) && Answers(trace) == Answers(old(trace))
    {
      ProcessorFollows(s0, View(), env, k, GotError(""));
      Interfere(env(k));
      ghost var s := View();
      c := closed;
      pc := if c then Top else AtOnEvent(e);
      assert View() == Step(s, Processor(GotError("")));
    }

    /** The second read of the flag, after the stream failed. */
    method IsClosedBeforeError(ghost s0: State, env: nat -> seq<Action>, k: nat, x: string) returns (c: bool)
      requires Follows(TheProcessor, s0, View(), env, k) && Away(env, TheProcessor) && pc == CheckError(x)
      modifies this
      ensures Follows(TheProcessor, s0, View(), env, k + 1)
      ensures c == closed && pc == (if c then AtExit else AtOnError(x)) && Answers(trace) == Answers(old(trace))
    {
      ProcessorFollows(s0, View(), env, k, GotError(""));
      Interfere(env(k));
      ghost var s := View();
      c := closed;
      pc := if c then AtExit else AtOnError(x);
      assert View() == Step(s, Processor(GotError("")));
    }

    /** Control passes to RecvMsg. */
    method StartRecv(ghost s0: State, env: nat -> seq<Action>, k: nat)
      requires Follows(TheProcessor, s0, View(), env, k) && Away(env, TheProcessor) && pc == AtRecv
      modifies this
      ensures Follows(TheProcessor, s0, View(), env, k + 1)
      ensures pc == InRecv && Answers(trace) == Answers(old(trace))
    {
      ProcessorFollows(s0, View(), env, k, GotError(""));
      Interfere(env(k));
      ghost var s := View();
      pc, trace := InRecv, trace + [RecvStarted];
      assert View() == Step(s, Processor(GotError("")));
    }

    /** RecvMsg returns an event. */
    method EndRecvEvent(ghost s0: State, env: nat -> seq<Action>, k: nat, e: Event)
      requires Follows(TheProcessor, s0, View(), env, k) && Away(env, TheProcessor) && pc == InRecv
      modifies this
      ensures Follows(TheProcessor, s0, View(), env, k + 1)
      ensures pc == CheckEvent(e) && Answers(trace) == Answers(old(trace)) + [GotEvent(e)]
    {
      ProcessorFollows(s0, View(), env, k, GotEvent(e));
      Interfere(env(k));
      ghost var s := View();
      pc, trace := CheckEvent(e), trace + [EventReceived(e)];
      RecvReturns(s, GotEvent(e));
    }

    /** RecvMsg returns an error. */
    method EndRecvError(ghost s0: State, env: nat -> seq<Action>, k: nat, x: string)
      requires Follows(TheProcessor, s0, View(), env, k) && Away(env, TheProcessor) && pc == InRecv
      modifies this
      ensures Follows(TheProcessor, s0, View(), env, k + 1)
      ensures pc == CheckError(x) && Answers(trace) == Answers(old(trace)) + [GotError(x)]
    {
      ProcessorFollows(s0, View(), env, k, GotError(x));
      Interfere(env(k));
      ghost var s := View();
      pc, trace := CheckError(x), trace + [ErrorReceived(x)];
      RecvReturns(s, GotError(x));
    }

    /** Control passes to OnEvent. */
    method EnterOnEvent(ghost s0: State, env: nat -> seq<Action>, k: nat, e: Event)
      requires Follows(TheProcessor, s0, View(), env, k) && Away(env, TheProcessor) && pc == AtOnEvent(e)
      modifies this
      ensures Follows(TheProcessor, s0, View(), env, k + 1)
      ensures pc == InOnEvent(e) && Answers(trace) == Answers(old(trace))
    {
      ProcessorFollows(s0, View(), env, k, GotError(""));
      Interfere(env(k));
      ghost var s := View();
      pc, trace := InOnEvent(e), trace + [EventStarted(e)];
      assert View() == Step(s, Processor(GotError("")));
    }

    /** OnEvent returns; an error that it returns is only logged. */
    method LeaveOnEvent(ghost s0: State, env: nat -> seq<Action>, k: nat, e: Event)
      requires Follows(TheProcessor, s0, View(), env, k) && Away(env, TheProcessor) && pc == InOnEvent(e)
      modifies this
      ensures Follows(TheProcessor, s0, View(), env, k + 1)
      ensures pc == Top && Answers(trace) == Answers(old(trace))
    {
      ProcessorFollows(s0, View(), env, k, GotError(""));
      Interfere(env(k));
      ghost var s := View();
      pc, trace := Top, trace + [EventEnded(e)];
      assert View() == Step(s, Processor(GotError("")));
    }

    /** Control passes to OnError. */
    method EnterOnError(ghost s0: State, env: nat -> seq<Action>, k: nat, x: string)
      requires Follows(TheProcessor, s0, View(), env, k) && Away(env, TheProcessor) && pc == AtOnError(x)
      modifies this
      ensures Follows(TheProcessor, s0, View(), env, k + 1)
      ensures pc == InOnError(x) && Answers(trace) == Answers(old(trace))
    {
      ProcessorFollows(s0, View(), env, k, GotError(""));
      Interfere(env(k));
      ghost var s := View();
      pc, trace := InOnError(x), trace + [ErrorStarted(x)];
      assert View() == Step(s, Processor(GotError("")));
    }

    /** OnError returns. */
    method LeaveOnError(ghost s0: State, env: nat -> seq<Action>, k: nat, x: string)
      requires Follows(TheProcessor, s0, View(), env, k) && Away(env, TheProcessor) && pc == InOnError(x)
      modifies this
      ensures Follows(TheProcessor, s0, View(), env, k + 1)
      ensures pc == AtExit && Answers(trace) == Answers(old(trace))
    {
      ProcessorFollows(s0, View(), env, k, GotError(""));
      Interfere(env(k));
      ghost var s := View();
      pc, trace := AtExit, trace + [ErrorEnded(x)];
      assert View() == Step(s, Processor(GotError("")));
    }

    /** The goroutine ends and closes the done channel. */
    method CloseDone(ghost s0: State, env: nat -> seq<Action>, k: nat)
      requires Follows(TheProcessor, s0, View(), env, k) && Away(env, TheProcessor) && pc == AtExit
      modifies this
      ensures Follows(TheProcessor, s0, View(), env, k + 1)
      ensures pc == Finished && Answers(trace) == Answers(old(trace))
    {
      ProcessorFollows(s0, View(), env, k, GotError(""));
      Interfere(env(k));
      ghost var s := View();
      done, pc, trace := true, Finished, trace + [DoneClosed];
      ExitReturns(s);
    }

    /** The event goes to the handler, unless the flag is set. */
    method HandleEvent(ghost s0: State, env: nat -> seq<Action>, k: nat, e: Event) returns (n: nat)
      requires Follows(TheProcessor, s0, View(), env, k) && Away(env, TheProcessor) && pc == CheckEvent(e)
      modifies this
      ensures Follows(TheProcessor, s0, View(), env, n)
      ensures pc == Top && Answers(trace) == Answers(old(trace))
    {
      var c := IsClosedBeforeEvent(s0, env, k, e);
      n := k + 1;
      if !c {
        EnterOnEvent(s0, env, n, e);
        LeaveOnEvent(s0, env, n + 1, e);
        n := n + 2;
      }
    }

    /** The error goes to the handler, unless the flag is set. */
    method HandleError(ghost s0: State, env: nat -> seq<Action>, k: nat, x: string) returns (n: nat)
      requires Follows(TheProcessor, s0, View(), env, k) && Away(env, TheProcessor) && pc == CheckError(x)
      modifies this
      ensures Follows(TheProcessor, s0, View(), env, n)
      ensures pc == AtExit && Answers(trace) == Answers(old(trace))
    {
      var c := IsClosedBeforeError(s0, env, k, x);
      n := k + 1;
      if !c {
        EnterOnError(s0, env, n, x);
        LeaveOnError(s0, env, n + 1, x);
        n := n + 2;
      }
    }

    /** RecvMsg returns, and the rest of the loop body follows; again says whether the loop goes on. */
    method Receive(ghost s0: State, env: nat -> seq<Action>, k: nat, input: Received) returns (again: bool, n: nat)
      requires Follows(TheProcessor, s0, View(), env, k) && Away(env, TheProcessor) && pc == InRecv
      modifies this
      ensures Follows(TheProcessor, s0, View(), env, n)
      ensures again == input.GotEvent? && pc == (if again then Top else AtExit)
      ensures Answers(trace) == Answers(old(trace)) + [input]
    {
      match input
      case GotEvent(e) =>
        EndRecvEvent(s0, env, k, e);
        n := HandleEvent(s0, env, k + 1, e);
        again := true;
      case GotError(x) =>
        EndRecvError(s0, env, k, x);
        n := HandleError(s0, env, k + 1, x);
        again := false;
    }

    /** The top of the loop: check the flag, and call RecvMsg or leave. */
    method Poll(ghost s0: State, env: nat -> seq<Action>, k: nat) returns (c: bool, n: nat)
      requires Follows(TheProcessor, s0, View(), env, k) && Away(env, TheProcessor) && pc == Top
      modifies this
      ensures Follows(TheProcessor, s0, View(), env, n)
      ensures pc == (if c then AtExit else InRecv) && Answers(trace) == Answers(old(trace))
    {
      c := ReadClosed(s0, env, k);
      n := k + 1;
      if !c {
        StartRecv(s0, env, n);
        n := n + 1;
      }
    }

    /** One turn of the loop; used is the number of answers of the stream that are used up after it. */
    method Turn(ghost s0: State, env: nat -> seq<Action>, k: nat, stream: seq<Received>, consumed: nat)
      returns (again: bool, used: nat, n: nat)
      requires Follows(TheProcessor, s0, View(), env, k) && Away(env, TheProcessor) && pc == Top
      requires consumed <= |stream| && Answers(trace) == Answers(s0.trace) + stream[..consumed]
      modifies this
      ensures Follows(TheProcessor, s0, View(), env, n)
      ensures used <= |stream| && Answers(trace) == Answers(s0.trace) + stream[..used]
      ensures if again then pc == Top && used > consumed else pc == AtExit || (pc == InRecv && used == |stream|)
    {
      var c;
      c, n := Poll(s0, env, k);
      used, again := consumed, false;
      if !c && consumed < |stream| {
        OneMore(stream, consumed);
        again, n := Receive(s0, env, n, stream[consumed]);
        used := consumed + 1;
      }
    }

    /**
      processEvents, on a stream whose first answers are given; env(k) is what the other threads
      do before the k-th atomic step. The goroutine ends with done closed, or is still waiting
      for an answer beyond those given.
     */
    method ProcessEvents(stream: seq<Received>, env: nat -> seq<Action>) returns (consumed: nat, steps: nat)
      requires pc == Top && Away(env, TheProcessor)
      modifies this
      ensures Follows(TheProcessor, old(View()), View(), env, steps)
      ensures consumed <= |stream|
      ensures Answers(trace) == Answers(old(trace)) + stream[..consumed]
      ensures pc == Finished || (pc == InRecv && consumed == |stream|)
    {
      ghost var s0 := View();
      consumed, steps := 0, 0;
      FollowsNothing(TheProcessor, s0, env);
      var again := true;
      while again
        invariant Follows(TheProcessor, s0, View(), env, steps)
        invariant consumed <= |stream| && Answers(trace) == Answers(s0.trace) + stream[..consumed]
        invariant if again then pc == Top else pc == AtExit || (pc == InRecv && consumed == |stream|)
        decreases again, |stream| - consumed
      {
        again, consumed, steps := Turn(s0, env, steps, stream, consumed);
      }
      if pc == InRecv {
        return;  // RecvMsg blocks
      }
      CloseDone(s0, env, steps);
      steps := steps + 1;
    }

    /* ---- The atomic steps of one call of Close ---- */

    /** The call of Close by the thread id. */
    method Arrive(ghost s0: State, env: nat -> seq<Action>, id: nat)
      requires s0 == View() && id !in closers
      modifies this
      ensures Follows(TheCloser(id), s0, View(), env, 0)
      ensures closed == s0.closed && id in closers && closers[id] == Arriving
    {
      FollowsNothing(TheCloser(id), s0, env);
      FollowsOwn(TheCloser(id), s0, s0, env, 0, CallClose(id));
      closers := closers[id := Arriving];
    }

    /** The region of Close under the lock: the first call to get there wins. */
    method SetFlag(ghost s0: State, env: nat -> seq<Action>, k: nat, id: nat) returns (won: bool)
      requires Follows(TheCloser(id), s0, View(), env, k) && Away(env, TheCloser(id))
      requires id in closers && closers[id] == Arriving
      modifies this
      ensures Follows(TheCloser(id), s0, View(), env, k + 1)
      ensures closed && id in closers && closers[id] == if won then AtCancel else Returned(AlreadyClosed)
      ensures old(closed) ==> !won
    {
      CloserFollows(s0, View(), env, k, id, false);
      Interfere(env(k));
      won := !closed;
      if closed {
        closers, trace := closers[id := Returned(AlreadyClosed)], trace + [CloseReturned(id, AlreadyClosed)];
      } else {
        closed, closers, trace := true, closers[id := AtCancel], trace + [FlagSet(id)];
      }
    }

    /** The call of the cancel function, if there is one. */
    method Cancel(ghost s0: State, env: nat -> seq<Action>, k: nat, id: nat)
      requires Follows(TheCloser(id), s0, View(), env, k) && Away(env, TheCloser(id))
      requires closed && id in closers && closers[id] == AtCancel
      modifies this
      ensures Follows(TheCloser(id), s0, View(), env, k + 1)
      ensures closed && id in closers && closers[id] == AtOnCompleted
    {
      CloserFollows(s0, View(), env, k, id, false);
      Interfere(env(k));
      closers := closers[id := AtOnCompleted];
      if hasCancel {
        trace := trace + [CancelCalled(id)];
      }
    }

    /** Control passes to OnCompleted. */
    method EnterCompleted(ghost s0: State, env: nat -> seq<Action>, k: nat, id: nat)
      requires Follows(TheCloser(id), s0, View(), env, k) && Away(env, TheCloser(id))
      requires closed && id in closers && closers[id] == AtOnCompleted
      modifies this
      ensures Follows(TheCloser(id), s0, View(), env, k + 1)
      ensures closed && id in closers && closers[id] == InOnCompleted
    {
      CloserFollows(s0, View(), env, k, id, false);
      Interfere(env(k));
      closers, trace := closers[id := InOnCompleted], trace + [CompletedStarted(id)];
    }

    /** OnCompleted returns. */
    method LeaveCompleted(ghost s0: State, env: nat -> seq<Action>, k: nat, id: nat)
      requires Follows(TheCloser(id), s0, View(), env, k) && Away(env, TheCloser(id))
      requires closed && id in closers && closers[id] == InOnCompleted
      modifies this
      ensures Follows(TheCloser(id), s0, View(), env, k + 1)
      ensures closed && id in closers && closers[id] == Waiting
    {
      CloserFollows(s0, View(), env, k, id, false);
      Interfere(env(k));
      closers, trace := closers[id := Waiting], trace + [CompletedEnded(id)];
    }

    /** The select: it blocks while done is open and the timer has not fired. */
    method AwaitDone(ghost s0: State, env: nat -> seq<Action>, k: nat, id: nat, timerFired: bool)
      requires Follows(TheCloser(id), s0, View(), env, k) && Away(env, TheCloser(id))
      requires closed && id in closers && closers[id] == Waiting
      modifies this
      ensures Follows(TheCloser(id), s0, View(), env, k + 1)
      ensures closed && id in closers
      ensures closers[id] == if timerFired then Returned(ThroughTimeout) else if done then Returned(ThroughDone) else Waiting
    {
      CloserFollows(s0, View(), env, k, id, timerFired);
      Interfere(env(k));
      if timerFired {
        closers, trace := closers[id := Returned(ThroughTimeout)], trace + [CloseReturned(id, ThroughTimeout)];
      } else if done {
        closers, trace := closers[id := Returned(ThroughDone)], trace + [CloseReturned(id, ThroughDone)];
      } else {
        closers := closers[id := Waiting];
      }
    }

    /** What follows for the winner, up to the select. */
    method Complete(ghost s0: State, env: nat -> seq<Action>, k: nat, id: nat, timerFired: bool)
      requires Follows(TheCloser(id), s0, View(), env, k) && Away(env, TheCloser(id))
      requires closed && id in closers && closers[id] == AtCancel
      modifies this
      ensures Follows(TheCloser(id), s0, View(), env, k + 4)
      ensures closed && id in closers
      ensures closers[id] == if timerFired then Returned(ThroughTimeout) else if done then Returned(ThroughDone) else Waiting
    {
      Cancel(s0, env, k, id);
      EnterCompleted(s0, env, k + 1, id);
      LeaveCompleted(s0, env, k + 2, id);
      AwaitDone(s0, env, k + 3, id, timerFired);
    }

    /**
      Close, called by the thread id; env(k) is what the other threads do before its k-th atomic
      step. It returns, or waits in the select for done or the timer.
     */
    method Close(id: nat, timerFired: bool, env: nat -> seq<Action>) returns (steps: nat)
      requires id !in closers && Away(env, TheCloser(id))
      modifies this
      ensures Follows(TheCloser(id), old(View()), View(), env, steps)
      ensures closed && id in closers
      ensures closers[id] == Returned(AlreadyClosed)
              || (!old(closed)
                  && closers[id] == if timerFired then Returned(ThroughTimeout) else if done then Returned(ThroughDone) else Waiting)
    {
      ghost var s0 := View();
      Arrive(s0, env, id);
      var won := SetFlag(s0, env, 0, id);
      steps := 1;
      if won {
        Complete(s0, env, 1, id, timerFired);
        steps := 5;
      }
    }
  }
}
