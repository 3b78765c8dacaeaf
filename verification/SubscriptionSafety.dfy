/**
  What every run of the subscription protocol keeps. The main results are the lemmas whose only
  hypothesis is a state Run(Init(hasCancel), acts): they hold for every schedule, stream and
  number of closers.
 */
module SubscriptionSafety {
  import opened Common
  import opened SubscriptionProtocol

  /* ---- The order of callbacks, and delivery ---- */

  /** The callbacks that a processor at pc has made, given the events d delivered so far. */
  ghost predicate Talked(pc: ProcessorPc, d: seq<Event>, c: seq<Moment>) {
    match pc
    case InOnEvent(e) => d != [] && d[|d| - 1] == e && c == Dialogue(d[..|d| - 1]) + [EventStarted(e)]
    case InOnError(x) => c == Dialogue(d) + [ErrorStarted(x)]
    case AtExit => TalkedLast(d, c)
    case Finished => TalkedLast(d, c)
    case _ => c == Dialogue(d)
  }

  ghost predicate TalkedLast(d: seq<Event>, c: seq<Moment>) {
    c == Dialogue(d) || exists x: string :: c == Dialogue(d) + [ErrorStarted(x), ErrorEnded(x)]
  }

  /** How far the delivered events d may lag behind the received events r. */
  ghost predicate Lag(pc: ProcessorPc, closed: bool, d: seq<Event>, r: seq<Event>) {
    match pc
    case CheckEvent(e) => r == d + [e]
    case AtOnEvent(e) => r == d + [e]
    case Top => Dropped(closed, d, r)
    case AtExit => Dropped(closed, d, r)
    case Finished => Dropped(closed, d, r)
    case _ => r == d
  }

  ghost predicate Dropped(closed: bool, d: seq<Event>, r: seq<Event>) {
    r == d || (closed && exists e: Event :: r == d + [e])
  }

  predicate Last(a: seq<Received>, r: Received) {
    a != [] && a[|a| - 1] == r
  }

  predicate AllEvents(a: seq<Received>) {
    forall i :: 0 <= i < |a| ==> a[i].GotEvent?
  }

  /** The loop ended because the flag was set, or after the handler was told the error of the stream. */
  ghost predicate Told(closed: bool, a: seq<Received>, d: seq<Event>, c: seq<Moment>) {
    || (closed && c == Dialogue(d))
    || exists x: string :: Last(a, GotError(x)) && c == Dialogue(d) + [ErrorStarted(x), ErrorEnded(x)]
  }

  /** What a processor at pc has heard from the stream: the answers a. */
  ghost predicate Heard(pc: ProcessorPc, closed: bool, a: seq<Received>, d: seq<Event>, c: seq<Moment>) {
    match pc
    case Top => AllEvents(a)
    case AtRecv => AllEvents(a)
    case InRecv => AllEvents(a)
    case CheckEvent(e) => AllEvents(a) && Last(a, GotEvent(e))
    case AtOnEvent(e) => AllEvents(a) && Last(a, GotEvent(e))
    case InOnEvent(e) => AllEvents(a) && Last(a, GotEvent(e))
    case CheckError(x) => Last(a, GotError(x)) && AllEvents(a[..|a| - 1])
    case AtOnError(x) => Last(a, GotError(x)) && AllEvents(a[..|a| - 1])
    case InOnError(x) => Last(a, GotError(x)) && AllEvents(a[..|a| - 1])
    case AtExit => Told(closed, a, d, c) && (AllEvents(a) || AllEvents(a[..|a| - 1]))
    case Finished => Told(closed, a, d, c) && (AllEvents(a) || AllEvents(a[..|a| - 1]))
  }

  ghost predicate CallbackInv(s: State) {
    && Talked(s.pc, DeliveredEvents(s.trace), Callbacks(s.trace))
    && Lag(s.pc, s.closed, DeliveredEvents(s.trace), ReceivedEvents(s.trace))
    && Heard(s.pc, s.closed, Answers(s.trace), DeliveredEvents(s.trace), Callbacks(s.trace))
  }

  lemma EventStarts(d: seq<Event>, e: Event, c: seq<Moment>)
    requires c == Dialogue(d)
    ensures Talked(InOnEvent(e), d + [e], c + [EventStarted(e)])
  {
    assert (d + [e])[..|d|] == d;
  }

  lemma EventEnds(d: seq<Event>, e: Event, c: seq<Moment>)
    requires Talked(InOnEvent(e), d, c)
    ensures c + [EventEnded(e)] == Dialogue(d)
  {
    assert c + [EventEnded(e)] == Dialogue(d[..|d| - 1]) + [EventStarted(e), EventEnded(e)];
  }

  lemma ErrorEnds(d: seq<Event>, x: string, c: seq<Moment>)
    requires c == Dialogue(d) + [ErrorStarted(x)]
    ensures TalkedLast(d, c + [ErrorEnded(x)])
  {
    assert c + [ErrorEnded(x)] == Dialogue(d) + [ErrorStarted(x), ErrorEnded(x)];
  }

  lemma TalkedKept(pc: ProcessorPc, closed: bool, input: Received, d: seq<Event>, c: seq<Moment>)
    requires Talked(pc, d, c)
    ensures Talked(NextPc(pc, closed, input),
                   if pc.AtOnEvent? then d + [pc.event] else d,
                   match ProcessorMoment(pc, input)
                   case None => c
                   case Some(m) => if IsCallback(m) then c + [m] else c)
  {
    match pc
    case AtOnEvent(e) => EventStarts(d, e, c);
    case InOnEvent(e) => EventEnds(d, e, c);
    case InOnError(x) => ErrorEnds(d, x, c);
    case _ =>
  }

  lemma LagKept(pc: ProcessorPc, closed: bool, input: Received, d: seq<Event>, r: seq<Event>)
    requires Lag(pc, closed, d, r)
    ensures Lag(NextPc(pc, closed, input), closed,
                if pc.AtOnEvent? then d + [pc.event] else d,
                if pc.InRecv? && input.GotEvent? then r + [input.event] else r)
  {
  }

  lemma HeardKept(pc: ProcessorPc, closed: bool, input: Received, a: seq<Received>, d: seq<Event>, c: seq<Moment>)
    requires Talked(pc, d, c) && Heard(pc, closed, a, d, c)
    ensures Heard(NextPc(pc, closed, input), closed,
                  if pc.InRecv? then a + [input] else a,
                  if pc.AtOnEvent? then d + [pc.event] else d,
                  match ProcessorMoment(pc, input)
                  case None => c
                  case Some(m) => if IsCallback(m) then c + [m] else c)
  {
    match pc
    case InRecv => assert (a + [input])[..|a|] == a;
    case InOnError(x) => assert c + [ErrorEnded(x)] == Dialogue(d) + [ErrorStarted(x), ErrorEnded(x)];
    case _ =>
  }

  lemma ProcessorKeepsCallbacks(s: State, input: Received)
    requires CallbackInv(s)
    ensures CallbackInv(ProcessorStep(s, input))
  {
    TalkedKept(s.pc, s.closed, input, DeliveredEvents(s.trace), Callbacks(s.trace));
    LagKept(s.pc, s.closed, input, DeliveredEvents(s.trace), ReceivedEvents(s.trace));
    HeardKept(s.pc, s.closed, input, Answers(s.trace), DeliveredEvents(s.trace), Callbacks(s.trace));
    ProcessorSeen(s.trace, s.pc, input);
    ProcessorHears(s.trace, s.pc, input);
  }

  lemma ProcessorSeen(t: seq<Moment>, pc: ProcessorPc, input: Received)
    ensures var t' := Log(t, ProcessorMoment(pc, input));
            && DeliveredEvents(t') == (if pc.AtOnEvent? then DeliveredEvents(t) + [pc.event] else DeliveredEvents(t))
            && Callbacks(t') == match ProcessorMoment(pc, input)
                                case None => Callbacks(t)
                                case Some(m) => if IsCallback(m) then Callbacks(t) + [m] else Callbacks(t)
  {
    var m := ProcessorMoment(pc, input);
    if m.Some? {
      Observe(t, m.value);
    }
  }

  lemma ProcessorHears(t: seq<Moment>, pc: ProcessorPc, input: Received)
    ensures var t' := Log(t, ProcessorMoment(pc, input));
            && ReceivedEvents(t') == (if pc.InRecv? && input.GotEvent? then ReceivedEvents(t) + [input.event] else ReceivedEvents(t))
            && Answers(t') == (if pc.InRecv? then Answers(t) + [input] else Answers(t))
  {
    var m := ProcessorMoment(pc, input);
    if m.Some? {
      ObserveAnswers(t, m.value);
    }
  }

  lemma CloserIsNotProcessor(id: nat, c: CloserPc, hasCancel: bool, closed: bool, done: bool, timerFired: bool)
    ensures var m := CloserMoment(id, c, hasCancel, closed, done, timerFired); m.Some? ==> !IsProcessorMoment(m.value)
  {
  }

  lemma CloserKeepsCallbacks(s: State, id: nat, timerFired: bool)
    requires id in s.closers && CallbackInv(s)
    ensures CallbackInv(CloserStep(s, id, timerFired))
  {
    var m := CloserMoment(id, s.closers[id], s.hasCancel, s.closed, s.done, timerFired);
    CloserIsNotProcessor(id, s.closers[id], s.hasCancel, s.closed, s.done, timerFired);
    if m.Some? {
      Observe(s.trace, m.value);
      ObserveAnswers(s.trace, m.value);
      LaterFlag(s.pc, s.closed, CloserStep(s, id, timerFired).closed, DeliveredEvents(s.trace), ReceivedEvents(s.trace),
                Answers(s.trace), Callbacks(s.trace));
    }
  }

  /** What has been seen stays true when the flag is set. */
  lemma LaterFlag(pc: ProcessorPc, closed: bool, later: bool, d: seq<Event>, r: seq<Event>, a: seq<Received>, c: seq<Moment>)
    requires closed ==> later
    ensures Lag(pc, closed, d, r) ==> Lag(pc, later, d, r)
    ensures Heard(pc, closed, a, d, c) ==> Heard(pc, later, a, d, c)
  {
  }

  lemma {:induction false} CallbacksOverRuns(hasCancel: bool, acts: seq<Action>)
    ensures CallbackInv(Run(Init(hasCancel), acts))
    decreases |acts|
  {
    if acts != [] {
      var s, a := Run(Init(hasCancel), acts[..|acts| - 1]), acts[|acts| - 1];
      CallbacksOverRuns(hasCancel, acts[..|acts| - 1]);
      match a
      case Processor(input) => ProcessorKeepsCallbacks(s, input);
      case CallClose(_) =>
      case Closer(id, timerFired) => if id in s.closers { CloserKeepsCallbacks(s, id, timerFired); }
    }
  }

  /**
    In every run the processor's callbacks are OnEvent calls that do not overlap, then at most one
    OnError and nothing after it; and the events they carry are those of the stream, in order.
   */
  lemma CallbackOrder(hasCancel: bool, acts: seq<Action>)
    ensures var t := Run(Init(hasCancel), acts).trace;
            && DeliveredEvents(t) <= ReceivedEvents(t)
            && exists x: string :: Callbacks(t) <= Dialogue(DeliveredEvents(t)) + [ErrorStarted(x), ErrorEnded(x)]
  {
    CallbacksOverRuns(hasCancel, acts);
    var s := Run(Init(hasCancel), acts);
    var t := s.trace;
    var d := DeliveredEvents(t);
    var x := if s.pc.InOnError? then s.pc.error
             else if |Callbacks(t)| > |Dialogue(d)| && Callbacks(t)[|Dialogue(d)|].ErrorStarted? then Callbacks(t)[|Dialogue(d)|].error
             else "";
    if s.pc.InOnEvent? {
      assert Dialogue(d) == Callbacks(t) + [EventEnded(s.pc.event)];
    }
    assert Callbacks(t) <= Dialogue(d) + [ErrorStarted(x), ErrorEnded(x)];
  }

  /**
    No event is skipped: at most one received event is not delivered, it is the last one, and
    unless the processor is still on its way to deliver it, Close had already set the flag. While
    the processor waits for the stream, and when it has ended without Close, all are delivered.
   */
  lemma AtMostOneUndelivered(hasCancel: bool, acts: seq<Action>)
    ensures var s := Run(Init(hasCancel), acts);
            var d, r := DeliveredEvents(s.trace), ReceivedEvents(s.trace);
            && d <= r
            && |r| <= |d| + 1
            && (|r| == |d| + 1 ==> s.closed || s.pc == CheckEvent(r[|d|]) || s.pc == AtOnEvent(r[|d|]))
            && (s.pc.InRecv? || (s.pc.Finished? && !s.closed) ==> r == d)
  {
    CallbacksOverRuns(hasCancel, acts);
  }

  /**
    Errors reach the handler: OnError is called with the error that the stream just returned, and the
    loop ends only because Close set the flag or after that call has ended. An error is the last
    answer that the loop asks for.
   */
  lemma ErrorReported(hasCancel: bool, acts: seq<Action>)
    ensures var s := Run(Init(hasCancel), acts);
            var a, d, c := Answers(s.trace), DeliveredEvents(s.trace), Callbacks(s.trace);
            && (s.pc.InOnError? ==> Last(a, GotError(s.pc.error)))
            && (s.pc.Finished? ==>
                  || (s.closed && c == Dialogue(d))
                  || exists x: string :: Last(a, GotError(x)) && c == Dialogue(d) + [ErrorStarted(x), ErrorEnded(x)])
            && (forall i :: 0 <= i < |a| - 1 ==> a[i].GotEvent?)
  {
    CallbacksOverRuns(hasCancel, acts);
    var s := Run(Init(hasCancel), acts);
    HeardEvents(s.pc, s.closed, Answers(s.trace), DeliveredEvents(s.trace), Callbacks(s.trace));
  }

  lemma HeardEvents(pc: ProcessorPc, closed: bool, a: seq<Received>, d: seq<Event>, c: seq<Moment>)
    requires Heard(pc, closed, a, d, c)
    ensures forall i :: 0 <= i < |a| - 1 ==> a[i].GotEvent?
  {
    if !AllEvents(a) {
      assert AllEvents(a[..|a| - 1]);
      assert forall i :: 0 <= i < |a| - 1 ==> a[i] == a[..|a| - 1][i];
    }
  }

  /* ---- The flag, the winner and the done channel ---- */

  predicate Won(c: CloserPc) {
    c != Arriving && c != Returned(AlreadyClosed)
  }

  /** The processor has passed its check and is about to leave the subscription. */
  predicate Committed(pc: ProcessorPc) {
    pc.AtRecv? || pc.AtOnEvent? || pc.AtOnError?
  }

  ghost predicate Flagged(t: seq<Moment>) {
    exists i :: 0 <= i < |t| && t[i].FlagSet?
  }

  ghost predicate OneFlag(t: seq<Moment>) {
    forall i, j :: 0 <= i < j < |t| ==> !(t[i].FlagSet? && t[j].FlagSet?)
  }

  ghost predicate NoStartAfterFlag(t: seq<Moment>) {
    forall i, j :: 0 <= i < j < |t| && t[i].FlagSet? ==> !IsStart(t[j])
  }

  ghost predicate OneStartAfterFlag(t: seq<Moment>) {
    forall i, j, k :: 0 <= i < j < k < |t| && t[i].FlagSet? && IsStart(t[j]) ==> !IsStart(t[k])
  }

  ghost predicate SilentAfterDone(t: seq<Moment>) {
    forall i, j :: 0 <= i < j < |t| && t[i].DoneClosed? ==> !IsProcessorMoment(t[j])
  }

  /** OnCompleted runs once, after its caller set the flag and called the cancel function. */
  ghost predicate CompletedOrder(t: seq<Moment>, hasCancel: bool) {
    && (forall i, j :: 0 <= i < j < |t| ==> !(t[i].CompletedStarted? && t[j].CompletedStarted?))
    && (forall j :: 0 <= j < |t| && t[j].CompletedStarted? ==>
          FlagSet(t[j].closer) in t[..j] && (hasCancel ==> CancelCalled(t[j].closer) in t[..j]))
  }

  /**
    Close returns through done only to the winner and after done; early only to the losers; and to the
    winner only after its OnCompleted has ended.
   */
  ghost predicate ReturnOrder(t: seq<Moment>) {
    && (forall j :: 0 <= j < |t| && t[j].CloseReturned? && t[j].exit == AlreadyClosed ==>
          Flagged(t[..j]) && FlagSet(t[j].closer) !in t[..j])
    && (forall j :: 0 <= j < |t| && t[j].CloseReturned? && t[j].exit == ThroughDone ==>
          FlagSet(t[j].closer) in t[..j] && DoneClosed in t[..j])
    && (forall j :: 0 <= j < |t| && t[j].CloseReturned? && t[j].exit != AlreadyClosed ==> CompletedEnded(t[j].closer) in t[..j])
  }

  ghost predicate FlagInv(s: State) {
    && (s.closed <==> Flagged(s.trace))
    && OneFlag(s.trace)
    && OneStartAfterFlag(s.trace)
    && (Committed(s.pc) ==> NoStartAfterFlag(s.trace))
  }

  ghost predicate DoneInv(s: State) {
    && (s.done <==> s.pc.Finished?)
    && (s.done <==> DoneClosed in s.trace)
    && SilentAfterDone(s.trace)
  }

  predicate Completing(c: CloserPc) {
    c.InOnCompleted? || c.Waiting? || (c.Returned? && c.exit != AlreadyClosed)
  }

  ghost predicate WinnerFlagged(t: seq<Moment>, cs: map<nat, CloserPc>) {
    forall id: nat :: FlagSet(id) in t <==> id in cs && Won(cs[id])
  }

  ghost predicate WinnerCompletes(t: seq<Moment>, cs: map<nat, CloserPc>) {
    forall id: nat :: CompletedStarted(id) in t <==> id in cs && Completing(cs[id])
  }

  predicate Completed(c: CloserPc) {
    c.Waiting? || (c.Returned? && c.exit != AlreadyClosed)
  }

  ghost predicate WinnerEnds(t: seq<Moment>, cs: map<nat, CloserPc>) {
    forall id: nat :: CompletedEnded(id) in t <==> id in cs && Completed(cs[id])
  }

  /** The cancel function is called by the winner, if there is one to call. */
  ghost predicate WinnerCancels(t: seq<Moment>, cs: map<nat, CloserPc>, hasCancel: bool) {
    forall id: nat :: CancelCalled(id) in t <==> hasCancel && id in cs && Won(cs[id]) && cs[id] != AtCancel
  }

  ghost predicate WinnerInv(s: State) {
    && WinnerFlagged(s.trace, s.closers)
    && WinnerCompletes(s.trace, s.closers)
    && WinnerEnds(s.trace, s.closers)
    && WinnerCancels(s.trace, s.closers, s.hasCancel)
  }

  ghost predicate Inv(s: State) {
    && FlagInv(s) && DoneInv(s) && WinnerInv(s)
    && CompletedOrder(s.trace, s.hasCancel)
    && ReturnOrder(s.trace)
  }

  lemma FlaggedGrows(t: seq<Moment>, m: Moment)
    ensures Flagged(t + [m]) <==> Flagged(t) || m.FlagSet?
  {
    var t' := t + [m];
    assert t'[|t|] == m;
    if i :| 0 <= i < |t| && t[i].FlagSet? {
      assert t'[i].FlagSet?;
    }
  }

  lemma OneFlagGrows(t: seq<Moment>, m: Moment)
    requires OneFlag(t) && (m.FlagSet? ==> !Flagged(t))
    ensures OneFlag(t + [m])
  {
  }

  lemma StartsGrow(t: seq<Moment>, m: Moment)
    requires OneStartAfterFlag(t)
    requires IsStart(m) ==> NoStartAfterFlag(t)
    ensures OneStartAfterFlag(t + [m])
    ensures NoStartAfterFlag(t) && !IsStart(m) ==> NoStartAfterFlag(t + [m])
  {
  }

  lemma FlagKept(s: State, s': State, m: Moment)
    requires FlagInv(s)
    requires s'.trace == s.trace + [m]
    requires m.FlagSet? ==> !s.closed
    requires s'.closed == (s.closed || m.FlagSet?)
    requires IsStart(m) ==> Committed(s.pc) && !Committed(s'.pc)
    requires Committed(s'.pc) ==> Committed(s.pc)
    ensures FlagInv(s')
  {
    FlaggedGrows(s.trace, m);
    OneFlagGrows(s.trace, m);
    StartsGrow(s.trace, m);
  }

  lemma ProcessorKeepsFlag(s: State, input: Received)
    requires FlagInv(s)
    ensures FlagInv(ProcessorStep(s, input))
  {
    var m := ProcessorMoment(s.pc, input);
    if m.Some? {
      FlagKept(s, ProcessorStep(s, input), m.value);
    }
  }

  lemma CloserKeepsFlag(s: State, id: nat, timerFired: bool)
    requires FlagInv(s) && id in s.closers
    ensures FlagInv(CloserStep(s, id, timerFired))
  {
    var m := CloserMoment(id, s.closers[id], s.hasCancel, s.closed, s.done, timerFired);
    if m.Some? {
      FlagKept(s, CloserStep(s, id, timerFired), m.value);
    }
  }

  lemma StepKeepsFlag(s: State, a: Action)
    requires FlagInv(s)
    ensures FlagInv(Step(s, a))
  {
    match a
    case Processor(input) => ProcessorKeepsFlag(s, input);
    case CallClose(_) =>
    case Closer(id, timerFired) => if id in s.closers { CloserKeepsFlag(s, id, timerFired); }
  }

  lemma DoneKept(s: State, s': State, m: Moment)
    requires DoneInv(s)
    requires s'.trace == s.trace + [m]
    requires s'.done == (s.done || m.DoneClosed?) && (s'.done <==> s'.pc.Finished?)
    requires s.done ==> !IsProcessorMoment(m)
    ensures DoneInv(s')
  {
    var n := |s.trace|;
    assert s'.trace[n] == m;
    assert forall i :: 0 <= i < n ==> s'.trace[i] == s.trace[i];
  }

  lemma StepKeepsDone(s: State, a: Action)
    requires DoneInv(s)
    ensures DoneInv(Step(s, a))
  {
    var s' := Step(s, a);
    if s'.trace != s.trace {
      DoneKept(s, s', s'.trace[|s.trace|]);
    }
  }

  lemma OrderKept(t: seq<Moment>, hasCancel: bool, m: Moment)
    requires CompletedOrder(t, hasCancel) && ReturnOrder(t)
    requires m.CompletedStarted? ==>
      && FlagSet(m.closer) in t && (hasCancel ==> CancelCalled(m.closer) in t)
      && forall i :: 0 <= i < |t| ==> !t[i].CompletedStarted?
    requires m.CloseReturned? && m.exit == AlreadyClosed ==> Flagged(t) && FlagSet(m.closer) !in t
    requires m.CloseReturned? && m.exit == ThroughDone ==> FlagSet(m.closer) in t && DoneClosed in t
    requires m.CloseReturned? && m.exit != AlreadyClosed ==> CompletedEnded(m.closer) in t
    ensures CompletedOrder(t + [m], hasCancel) && ReturnOrder(t + [m])
  {
    var t' := t + [m];
    assert t'[..|t|] == t;
    assert forall j :: 0 <= j < |t| ==> t'[..j] == t[..j] && t'[j] == t[j];
  }

  lemma OneWinner(s: State, id: nat, other: nat)
    requires OneFlag(s.trace) && WinnerInv(s)
    requires id in s.closers && Won(s.closers[id]) && other in s.closers && Won(s.closers[other])
    ensures id == other
  {
    assert FlagSet(id) in s.trace && FlagSet(other) in s.trace;
    var i :| 0 <= i < |s.trace| && s.trace[i] == FlagSet(id);
    var j :| 0 <= j < |s.trace| && s.trace[j] == FlagSet(other);
    assert s.trace[i].FlagSet? && s.trace[j].FlagSet?;
  }

  /** Only the winner is ever about to call OnCompleted, and it has not done so before. */
  lemma FirstCompleted(s: State, id: nat)
    requires FlagInv(s) && WinnerInv(s)
    requires id in s.closers && s.closers[id] == AtOnCompleted
    ensures forall i :: 0 <= i < |s.trace| ==> !s.trace[i].CompletedStarted?
  {
    if i :| 0 <= i < |s.trace| && s.trace[i].CompletedStarted? {
      var other := s.trace[i].closer;
      assert CompletedStarted(other) in s.trace;
      OneWinner(s, id, other);
    }
  }

  lemma ProcessorKeepsOrder(s: State, input: Received)
    requires CompletedOrder(s.trace, s.hasCancel) && ReturnOrder(s.trace)
    ensures CompletedOrder(ProcessorStep(s, input).trace, s.hasCancel) && ReturnOrder(ProcessorStep(s, input).trace)
  {
    var m := ProcessorMoment(s.pc, input);
    if m.Some? {
      assert IsProcessorMoment(m.value);
      OrderKept(s.trace, s.hasCancel, m.value);
    }
  }

  lemma CloserKeepsOrder(s: State, id: nat, timerFired: bool)
    requires Inv(s) && id in s.closers
    ensures CompletedOrder(CloserStep(s, id, timerFired).trace, s.hasCancel) && ReturnOrder(CloserStep(s, id, timerFired).trace)
  {
    var m := CloserMoment(id, s.closers[id], s.hasCancel, s.closed, s.done, timerFired);
    if m.Some? {
      if s.closers[id] == AtOnCompleted {
        FirstCompleted(s, id);
      }
      OrderKept(s.trace, s.hasCancel, m.value);
    }
  }

  lemma ProcessorKeepsWinner(s: State, input: Received)
    requires WinnerInv(s)
    ensures WinnerInv(ProcessorStep(s, input))
  {
    var m := ProcessorMoment(s.pc, input);
    if m.Some? {
      assert IsProcessorMoment(m.value);
      assert forall x: Moment :: !IsProcessorMoment(x) ==> (x in s.trace + [m.value] <==> x in s.trace);
    }
  }

  lemma LogAdds(t: seq<Moment>, m: Option<Moment>)
    ensures forall x: Moment :: x in Log(t, m) <==> x in t || m == Some(x)
  {
  }

  lemma CloserKeepsFlagged(t: seq<Moment>, cs: map<nat, CloserPc>, id: nat, hasCancel: bool, closed: bool, done: bool, timerFired: bool)
    requires WinnerFlagged(t, cs) && id in cs
    ensures WinnerFlagged(Log(t, CloserMoment(id, cs[id], hasCancel, closed, done, timerFired)),
                   cs[id := NextCloser(cs[id], closed, done, timerFired)])
  {
    LogAdds(t, CloserMoment(id, cs[id], hasCancel, closed, done, timerFired));
  }

  lemma CloserKeepsCompletes(t: seq<Moment>, cs: map<nat, CloserPc>, id: nat, hasCancel: bool, closed: bool, done: bool, timerFired: bool)
    requires WinnerCompletes(t, cs) && id in cs
    ensures WinnerCompletes(Log(t, CloserMoment(id, cs[id], hasCancel, closed, done, timerFired)),
                   cs[id := NextCloser(cs[id], closed, done, timerFired)])
  {
    LogAdds(t, CloserMoment(id, cs[id], hasCancel, closed, done, timerFired));
  }

  lemma CloserKeepsEnds(t: seq<Moment>, cs: map<nat, CloserPc>, id: nat, hasCancel: bool, closed: bool, done: bool, timerFired: bool)
    requires WinnerEnds(t, cs) && id in cs
    ensures WinnerEnds(Log(t, CloserMoment(id, cs[id], hasCancel, closed, done, timerFired)),
                   cs[id := NextCloser(cs[id], closed, done, timerFired)])
  {
    LogAdds(t, CloserMoment(id, cs[id], hasCancel, closed, done, timerFired));
  }

  lemma CloserKeepsCancels(t: seq<Moment>, cs: map<nat, CloserPc>, id: nat, hasCancel: bool, closed: bool, done: bool, timerFired: bool)
    requires WinnerCancels(t, cs, hasCancel) && id in cs
    ensures WinnerCancels(Log(t, CloserMoment(id, cs[id], hasCancel, closed, done, timerFired)),
                   cs[id := NextCloser(cs[id], closed, done, timerFired)], hasCancel)
  {
    LogAdds(t, CloserMoment(id, cs[id], hasCancel, closed, done, timerFired));
  }

  lemma CloserKeepsWinner(s: State, id: nat, timerFired: bool)
    requires WinnerInv(s) && id in s.closers
    ensures WinnerInv(CloserStep(s, id, timerFired))
  {
    CloserKeepsFlagged(s.trace, s.closers, id, s.hasCancel, s.closed, s.done, timerFired);
    CloserKeepsCompletes(s.trace, s.closers, id, s.hasCancel, s.closed, s.done, timerFired);
    CloserKeepsEnds(s.trace, s.closers, id, s.hasCancel, s.closed, s.done, timerFired);
    CloserKeepsCancels(s.trace, s.closers, id, s.hasCancel, s.closed, s.done, timerFired);
  }

  lemma StepKeepsWinner(s: State, a: Action)
    requires WinnerInv(s)
    ensures WinnerInv(Step(s, a))
  {
    match a
    case Processor(input) => ProcessorKeepsWinner(s, input);
    case CallClose(_) =>
    case Closer(id, timerFired) => if id in s.closers { CloserKeepsWinner(s, id, timerFired); }
  }

  lemma StepKeepsOrder(s: State, a: Action)
    requires Inv(s)
    ensures CompletedOrder(Step(s, a).trace, s.hasCancel) && ReturnOrder(Step(s, a).trace)
  {
    match a
    case Processor(input) => ProcessorKeepsOrder(s, input);
    case CallClose(_) =>
    case Closer(id, timerFired) => if id in s.closers { CloserKeepsOrder(s, id, timerFired); }
  }

  lemma StepKeepsInv(s: State, a: Action)
    requires Inv(s)
    ensures Inv(Step(s, a))
  {
    StepKeepsFlag(s, a);
    StepKeepsDone(s, a);
    StepKeepsWinner(s, a);
    StepKeepsOrder(s, a);
  }

  lemma {:induction false} InvOverRuns(hasCancel: bool, acts: seq<Action>)
    ensures Inv(Run(Init(hasCancel), acts))
    decreases |acts|
  {
    if acts != [] {
      InvOverRuns(hasCancel, acts[..|acts| - 1]);
      StepKeepsInv(Run(Init(hasCancel), acts[..|acts| - 1]), acts[|acts| - 1]);
    }
  }

  /**
    Once Close has set the flag, the processor starts at most one more thing: one RecvMsg, one
    OnEvent or one OnError, never two. So at most one callback starts after the flag is set, and
    the flag is set at most once in a run.
   */
  lemma AtMostOneStartAfterFlag(hasCancel: bool, acts: seq<Action>)
    ensures var t := Run(Init(hasCancel), acts).trace;
            && (forall i, j :: 0 <= i < j < |t| ==> !(t[i].FlagSet? && t[j].FlagSet?))
            && (forall i, j, k :: 0 <= i < j < k < |t| && t[i].FlagSet? && IsStart(t[j]) ==> !IsStart(t[k]))
  {
    InvOverRuns(hasCancel, acts);
  }

  /**
    OnCompleted is called at most once in a run, by the one Close call that set the flag, and
    after that call has cancelled the context.
   */
  lemma CompletedOnceByWinner(hasCancel: bool, acts: seq<Action>)
    ensures var t := Run(Init(hasCancel), acts).trace;
            && (forall i, j :: 0 <= i < j < |t| ==> !(t[i].CompletedStarted? && t[j].CompletedStarted?))
            && (forall j :: 0 <= j < |t| && t[j].CompletedStarted? ==>
                  FlagSet(t[j].closer) in t[..j] && (hasCancel ==> CancelCalled(t[j].closer) in t[..j]))
  {
    InvOverRuns(hasCancel, acts);
    RunKeepsCancel(Init(hasCancel), acts);
  }

  /**
    Once the flag is set exactly one Close call has won, and before that none; the winner is the
    call that set it.
   */
  lemma OneCloserWins(hasCancel: bool, acts: seq<Action>)
    ensures var s := Run(Init(hasCancel), acts);
            && (s.closed <==> exists id: nat :: id in s.closers && Won(s.closers[id]))
            && (forall id: nat, other: nat ::
                  id in s.closers && Won(s.closers[id]) && other in s.closers && Won(s.closers[other]) ==> id == other)
            && (forall id: nat :: FlagSet(id) in s.trace <==> id in s.closers && Won(s.closers[id]))
  {
    InvOverRuns(hasCancel, acts);
    var s := Run(Init(hasCancel), acts);
    forall id: nat, other: nat | id in s.closers && Won(s.closers[id]) && other in s.closers && Won(s.closers[other])
      ensures id == other
    {
      OneWinner(s, id, other);
    }
    if s.closed {
      var i :| 0 <= i < |s.trace| && s.trace[i].FlagSet?;
      assert FlagSet(s.trace[i].closer) in s.trace;
    }
  }

  /**
    The cancel function is called exactly by the winner that has passed that point, and by nobody when
    there is none: a nil function is never called.
   */
  lemma CancelCalledIff(hasCancel: bool, acts: seq<Action>)
    ensures var s := Run(Init(hasCancel), acts);
            && (forall id: nat ::
                  CancelCalled(id) in s.trace <==> hasCancel && id in s.closers && Won(s.closers[id]) && s.closers[id] != AtCancel)
            && (!hasCancel ==> forall m :: m in s.trace ==> !m.CancelCalled?)
  {
    InvOverRuns(hasCancel, acts);
    RunKeepsCancel(Init(hasCancel), acts);
    var s := Run(Init(hasCancel), acts);
    if !hasCancel {
      NilIsNotCalled(acts);
    }
  }

  lemma {:induction false} NilIsNotCalled(acts: seq<Action>)
    ensures forall m :: m in Run(Init(false), acts).trace ==> !m.CancelCalled?
    decreases |acts|
  {
    if acts != [] {
      var init, a := acts[..|acts| - 1], acts[|acts| - 1];
      NilIsNotCalled(init);
      RunKeepsCancel(Init(false), init);
      NilStep(Run(Init(false), init), a);
    }
  }

  lemma NilStep(s: State, a: Action)
    requires !s.hasCancel && forall m :: m in s.trace ==> !m.CancelCalled?
    ensures forall m :: m in Step(s, a).trace ==> !m.CancelCalled?
  {
    match a
    case Processor(input) => LogAdds(s.trace, ProcessorMoment(s.pc, input));
    case CallClose(_) =>
    case Closer(id, timerFired) =>
      if id in s.closers {
        LogAdds(s.trace, CloserMoment(id, s.closers[id], s.hasCancel, s.closed, s.done, timerFired));
      }
  }

  /** The winner returns only after its own OnCompleted has ended, and after it called a non-nil cancel. */
  lemma WinnerReturnsLast(hasCancel: bool, acts: seq<Action>, j: nat)
    requires j < |Run(Init(hasCancel), acts).trace| && Run(Init(hasCancel), acts).trace[j].CloseReturned?
    ensures var t := Run(Init(hasCancel), acts).trace;
            && (t[j].exit != AlreadyClosed ==> CompletedEnded(t[j].closer) in t[..j])
            && (t[j].exit != AlreadyClosed && hasCancel ==> CancelCalled(t[j].closer) in t)
  {
    InvOverRuns(hasCancel, acts);
    RunKeepsCancel(Init(hasCancel), acts);
    var s := Run(Init(hasCancel), acts);
    if s.trace[j].exit != AlreadyClosed {
      WinnerCompleted(s, j);
    }
  }

  lemma WinnerCompleted(s: State, j: nat)
    requires WinnerInv(s) && ReturnOrder(s.trace) && j < |s.trace| && s.trace[j].CloseReturned? && s.trace[j].exit != AlreadyClosed
    ensures CompletedEnded(s.trace[j].closer) in s.trace[..j]
    ensures s.hasCancel ==> CancelCalled(s.trace[j].closer) in s.trace
  {
    assert CompletedEnded(s.trace[j].closer) in s.trace;
  }

  lemma {:induction false} RunKeepsCancel(s: State, acts: seq<Action>)
    ensures Run(s, acts).hasCancel == s.hasCancel
    decreases |acts|
  {
    if acts != [] {
      RunKeepsCancel(s, acts[..|acts| - 1]);
    }
  }

  lemma QuietReturn(s: State, j: nat)
    requires DoneInv(s) && ReturnOrder(s.trace) && j < |s.trace| && s.trace[j].CloseReturned?
    ensures s.trace[j].exit == ThroughDone ==>
              && FlagSet(s.trace[j].closer) in s.trace[..j] && s.pc.Finished?
              && forall k :: j < k < |s.trace| ==> !IsProcessorMoment(s.trace[k])
    ensures s.trace[j].exit == AlreadyClosed ==>
              FlagSet(s.trace[j].closer) !in s.trace[..j] && exists i :: 0 <= i < j && s.trace[i].FlagSet?
  {
    var t := s.trace;
    if t[j].exit == ThroughDone {
      assert DoneClosed in t[..j];
      var i :| 0 <= i < j && t[..j][i] == DoneClosed;
      assert t[i].DoneClosed?;
    } else if t[j].exit == AlreadyClosed {
      var i :| 0 <= i < j && t[..j][i].FlagSet?;
      assert t[i].FlagSet?;
    }
  }

  /**
    A Close call that leaves through the done channel is the winner, and from then on the
    processor is silent: nothing it does follows the return, in this run or in any longer one.
    A call that returns early found the flag set by another call.
   */
  lemma CloseReturnsQuietly(hasCancel: bool, acts: seq<Action>, j: nat)
    requires j < |Run(Init(hasCancel), acts).trace| && Run(Init(hasCancel), acts).trace[j].CloseReturned?
    ensures var t := Run(Init(hasCancel), acts).trace;
            && (t[j].exit == ThroughDone ==>
                  && FlagSet(t[j].closer) in t[..j] && Run(Init(hasCancel), acts).pc.Finished?
                  && forall k :: j < k < |t| ==> !IsProcessorMoment(t[k]))
            && (t[j].exit == AlreadyClosed ==>
                  FlagSet(t[j].closer) !in t[..j] && exists i :: 0 <= i < j && t[i].FlagSet?)
  {
    InvOverRuns(hasCancel, acts);
    QuietReturn(Run(Init(hasCancel), acts), j);
  }

  /** The flag never reverts. */
  lemma {:induction false} FlagStays(s: State, acts: seq<Action>)
    ensures s.closed ==> Run(s, acts).closed
    decreases |acts|
  {
    if acts != [] {
      FlagStays(s, acts[..|acts| - 1]);
    }
  }

  /** done is closed at most once in a run, as the processor's last act. */
  lemma DoneIsLast(hasCancel: bool, acts: seq<Action>)
    ensures var s := Run(Init(hasCancel), acts);
            && (s.done <==> DoneClosed in s.trace)
            && (forall i, j :: 0 <= i < j < |s.trace| && s.trace[i].DoneClosed? ==>
                  !s.trace[j].DoneClosed? && !IsProcessorMoment(s.trace[j]))
  {
    InvOverRuns(hasCancel, acts);
  }

  /* ---- Progress ---- */

  /** How many steps the processor may still take once the flag is set. */
  function StepsLeft(pc: ProcessorPc): nat {
    match pc
    case AtRecv => 6
    case InRecv => 5
    case AtOnEvent(_) => 4
    case CheckEvent(_) => 3
    case InOnEvent(_) => 3
    case AtOnError(_) => 3
    case CheckError(_) => 2
    case InOnError(_) => 2
    case Top => 2
    case AtExit => 1
    case Finished => 0
  }

  function ProcessorSteps(acts: seq<Action>): nat {
    if acts == [] then 0
    else ProcessorSteps(acts[..|acts| - 1]) + if acts[|acts| - 1].Processor? then 1 else 0
  }

  /**
    Once the flag is set, every schedule in which the processor takes as many steps as StepsLeft
    says has closed the done channel, whatever the other threads do; the flag stays set.
   */
  lemma {:induction false} FlagLeadsToDone(s: State, acts: seq<Action>)
    requires s.closed && DoneInv(s)
    ensures var s' := Run(s, acts);
            && s'.closed && DoneInv(s')
            && (s'.done || StepsLeft(s'.pc) + ProcessorSteps(acts) <= StepsLeft(s.pc))
            && (ProcessorSteps(acts) >= StepsLeft(s.pc) ==> s'.done)
    decreases |acts|
  {
    if acts != [] {
      FlagLeadsToDone(s, acts[..|acts| - 1]);
      StepKeepsDone(Run(s, acts[..|acts| - 1]), acts[|acts| - 1]);
    }
  }

  /* ---- What Close does not promise ---- */

  function StartedCallbacks(t: seq<Moment>): nat
    decreases |t|
  {
    if t == [] then 0
    else StartedCallbacks(t[..|t| - 1]) + if t[|t| - 1].EventStarted? || t[|t| - 1].ErrorStarted? then 1 else 0
  }

  lemma QuietMoment(t: seq<Moment>, m: Option<Moment>)
    requires m.Some? ==> !m.value.EventStarted? && !m.value.ErrorStarted?
    ensures StartedCallbacks(Log(t, m)) == StartedCallbacks(t)
  {
    if m.Some? {
      assert (t + [m.value])[..|t|] == t;
    }
  }

  lemma StepStaysQuiet(s: State, a: Action)
    requires s.closed && !s.pc.AtOnEvent? && !s.pc.AtOnError?
    ensures var s' := Step(s, a);
            && s'.closed && !s'.pc.AtOnEvent? && !s'.pc.AtOnError?
            && StartedCallbacks(s'.trace) == StartedCallbacks(s.trace)
  {
    match a
    case Processor(input) => QuietMoment(s.trace, ProcessorMoment(s.pc, input));
    case CallClose(_) =>
    case Closer(id, timerFired) =>
      if id in s.closers {
        QuietMoment(s.trace, CloserMoment(id, s.closers[id], s.hasCancel, s.closed, s.done, timerFired));
      }
  }

  lemma {:induction false} StaysQuiet(s: State, acts: seq<Action>)
    requires s.closed && !s.pc.AtOnEvent? && !s.pc.AtOnError?
    ensures var s' := Run(s, acts);
            && s'.closed && !s'.pc.AtOnEvent? && !s'.pc.AtOnError?
            && StartedCallbacks(s'.trace) == StartedCallbacks(s.trace)
    decreases |acts|
  {
    if acts != [] {
      StaysQuiet(s, acts[..|acts| - 1]);
      StepStaysQuiet(Run(s, acts[..|acts| - 1]), acts[|acts| - 1]);
    }
  }

  lemma StartsCallback(s: State, input: Received)
    requires s.pc.AtOnEvent? || s.pc.AtOnError?
    ensures StartedCallbacks(ProcessorStep(s, input).trace) == StartedCallbacks(s.trace) + 1
  {
    var t := ProcessorStep(s, input).trace;
    assert t[..|t| - 1] == s.trace;
  }

  /**
    A handler can still be called after the flag is set, and the exact case in which that happens:
    some continuation starts OnEvent or OnError if and only if the processor stands between its
    check of the flag and the call.
   */
  lemma LateCallbackIff(s: State)
    requires s.closed
    ensures (exists acts :: StartedCallbacks(Run(s, acts).trace) > StartedCallbacks(s.trace))
            <==> s.pc.AtOnEvent? || s.pc.AtOnError?
  {
    if s.pc.AtOnEvent? || s.pc.AtOnError? {
      var a := Processor(GotError(""));
      RunOneMore(s, [], a);
      StartsCallback(s, GotError(""));
      assert StartedCallbacks(Run(s, [] + [a]).trace) > StartedCallbacks(s.trace);
    } else {
      forall acts: seq<Action>
        ensures StartedCallbacks(Run(s, acts).trace) == StartedCallbacks(s.trace)
      {
        StaysQuiet(s, acts);
      }
    }
  }

  ghost predicate Reaches(s0: State, s: State) {
    exists acts :: Run(s0, acts) == s
  }

  lemma ReachesNext(s0: State, s: State, a: Action)
    requires Reaches(s0, s)
    ensures Reaches(s0, Step(s, a))
  {
    var acts :| Run(s0, acts) == s;
    RunOneMore(s0, acts, a);
  }

  lemma ReachesRecv(p: Action)
    requires p.Processor?
    ensures Reaches(Init(true), State(true, false, false, InRecv, map[], [RecvStarted]))
  {
    var s := Init(true);
    assert Run(s, []) == s;
    ReachesNext(s, s, p);
    ReachesNext(s, s.(pc := AtRecv), p);
  }

  lemma ReachesCheckedEvent(e: Event)
    ensures Reaches(Init(true), State(true, false, false, AtOnEvent(e), map[], [RecvStarted, EventReceived(e)]))
  {
    var p, s := Processor(GotEvent(e)), Init(true);
    ReachesRecv(p);
    ReachesNext(s, s.(pc := InRecv, trace := [RecvStarted]), p);
    ReachesNext(s, s.(pc := CheckEvent(e), trace := [RecvStarted, EventReceived(e)]), p);
  }

  lemma ReachesRunningEvent(e: Event)
    ensures Reaches(Init(true), State(true, false, false, InOnEvent(e), map[], [RecvStarted, EventReceived(e), EventStarted(e)]))
  {
    ReachesCheckedEvent(e);
    ReachesNext(Init(true), State(true, false, false, AtOnEvent(e), map[], [RecvStarted, EventReceived(e)]), Processor(GotEvent(e)));
  }

  lemma SetTwice(cs: map<nat, CloserPc>, id: nat, first: CloserPc, second: CloserPc)
    ensures cs[id := first][id := second] == cs[id := second]
  {
  }

  lemma WinnerSetsFlag(s0: State, s: State, id: nat)
    requires Reaches(s0, s) && !s.closed && id !in s.closers
    ensures Reaches(s0, s.(closed := true, closers := s.closers[id := AtCancel], trace := s.trace + [FlagSet(id)]))
  {
    ReachesNext(s0, s, CallClose(id));
    ReachesNext(s0, s.(closers := s.closers[id := Arriving]), Closer(id, true));
    SetTwice(s.closers, id, Arriving, AtCancel);
  }

  lemma LoserReturns(s0: State, s: State, id: nat)
    requires Reaches(s0, s) && s.closed && id !in s.closers
    ensures Reaches(s0, s.(closers := s.closers[id := Returned(AlreadyClosed)], trace := s.trace + [CloseReturned(id, AlreadyClosed)]))
  {
    ReachesNext(s0, s, CallClose(id));
    ReachesNext(s0, s.(closers := s.closers[id := Arriving]), Closer(id, true));
    SetTwice(s.closers, id, Arriving, Returned(AlreadyClosed));
  }

  lemma WinnerCancelsContext(s0: State, s: State, id: nat)
    requires Reaches(s0, s) && s.hasCancel && id in s.closers && s.closers[id] == AtCancel
    ensures Reaches(s0, s.(closers := s.closers[id := AtOnCompleted], trace := s.trace + [CancelCalled(id)]))
  {
    ReachesNext(s0, s, Closer(id, true));
  }

  lemma WinnerStartsCompleted(s0: State, s: State, id: nat)
    requires Reaches(s0, s) && id in s.closers && s.closers[id] == AtOnCompleted
    ensures Reaches(s0, s.(closers := s.closers[id := InOnCompleted], trace := s.trace + [CompletedStarted(id)]))
  {
    ReachesNext(s0, s, Closer(id, true));
  }

  lemma WinnerEndsCompleted(s0: State, s: State, id: nat)
    requires Reaches(s0, s) && id in s.closers && s.closers[id] == InOnCompleted
    ensures Reaches(s0, s.(closers := s.closers[id := Waiting], trace := s.trace + [CompletedEnded(id)]))
  {
    ReachesNext(s0, s, Closer(id, true));
  }

  lemma WinnerTimesOut(s0: State, s: State, id: nat)
    requires Reaches(s0, s) && id in s.closers && s.closers[id] == Waiting
    ensures Reaches(s0, s.(closers := s.closers[id := Returned(ThroughTimeout)], trace := s.trace + [CloseReturned(id, ThroughTimeout)]))
  {
    ReachesNext(s0, s, Closer(id, true));
  }

  /** The winner, from its flag to the start of OnCompleted, while nothing else happens. */
  lemma WinnerGoesOn(s0: State, s: State, id: nat)
    requires Reaches(s0, s) && s.hasCancel && id in s.closers && s.closers[id] == AtCancel
    ensures Reaches(s0, s.(closers := s.closers[id := InOnCompleted], trace := s.trace + [CancelCalled(id)] + [CompletedStarted(id)]))
  {
    WinnerCancelsContext(s0, s, id);
    WinnerStartsCompleted(s0, s.(closers := s.closers[id := AtOnCompleted], trace := s.trace + [CancelCalled(id)]), id);
    SetTwice(s.closers, id, AtOnCompleted, InOnCompleted);
  }

  /** A whole call of Close that leaves on the timer, while nothing else happens. */
  lemma CloseOvertakes(s0: State, s: State, id: nat)
    requires Reaches(s0, s) && s.hasCancel && !s.closed && id !in s.closers
    ensures Reaches(s0, s.(closed := true, closers := s.closers[id := Returned(ThroughTimeout)],
                           trace := s.trace + [FlagSet(id)] + [CancelCalled(id)] + [CompletedStarted(id)] + [CompletedEnded(id)]
                                    + [CloseReturned(id, ThroughTimeout)]))
  {
    WinnerSetsFlag(s0, s, id);
    var t := s.trace + [FlagSet(id)];
    WinnerGoesOn(s0, s.(closed := true, closers := s.closers[id := AtCancel], trace := t), id);
    SetTwice(s.closers, id, AtCancel, InOnCompleted);
    t := t + [CancelCalled(id)] + [CompletedStarted(id)];
    WinnerEndsCompleted(s0, s.(closed := true, closers := s.closers[id := InOnCompleted], trace := t), id);
    SetTwice(s.closers, id, InOnCompleted, Waiting);
    WinnerTimesOut(s0, s.(closed := true, closers := s.closers[id := Waiting], trace := t + [CompletedEnded(id)]), id);
    SetTwice(s.closers, id, Waiting, Returned(ThroughTimeout));
  }

  /**
    OnEvent may start after OnCompleted has ended and after Close has returned: the timer released
    Close while the processor stood between its check and the call.
   */
  lemma EventAfterCompleted(e: Event)
    ensures exists acts ::
              Run(Init(true), acts).trace
              == [RecvStarted, EventReceived(e), FlagSet(0), CancelCalled(0), CompletedStarted(0), CompletedEnded(0),
                  CloseReturned(0, ThroughTimeout), EventStarted(e)]
  {
    ReachesCheckedEvent(e);
    var s0, s := Init(true), State(true, false, false, AtOnEvent(e), map[], [RecvStarted, EventReceived(e)]);
    CloseOvertakes(s0, s, 0);
    var t := s.trace + [FlagSet(0)] + [CancelCalled(0)] + [CompletedStarted(0)] + [CompletedEnded(0)] + [CloseReturned(0, ThroughTimeout)];
    ReachesNext(s0, s.(closed := true, closers := s.closers[0 := Returned(ThroughTimeout)], trace := t), Processor(GotEvent(e)));
  }

  /** A Close that finds the flag set returns, and only then the winner goes on. */
  lemma LoserOvertakes(s0: State, s: State, id: nat, other: nat)
    requires Reaches(s0, s) && s.hasCancel && !s.closed && id !in s.closers && other !in s.closers && id != other
    ensures Reaches(s0, s.(closed := true, closers := s.closers[id := AtCancel][other := Returned(AlreadyClosed)][id := InOnCompleted],
                           trace := s.trace + [FlagSet(id)] + [CloseReturned(other, AlreadyClosed)] + [CancelCalled(id)]
                                    + [CompletedStarted(id)]))
  {
    WinnerSetsFlag(s0, s, id);
    var s1 := s.(closed := true, closers := s.closers[id := AtCancel], trace := s.trace + [FlagSet(id)]);
    LoserReturns(s0, s1, other);
    var s2 := s1.(closers := s1.closers[other := Returned(AlreadyClosed)], trace := s1.trace + [CloseReturned(other, AlreadyClosed)]);
    WinnerGoesOn(s0, s2, id);
  }

  /**
    A Close that finds the flag set promises nothing on its return: here it returns while OnEvent is
    running, and before the winner has called the cancel function and OnCompleted.
   */
  lemma EarlyReturnPromisesNothing(e: Event)
    ensures exists acts ::
              Run(Init(true), acts).trace
              == [RecvStarted, EventReceived(e), EventStarted(e), FlagSet(0), CloseReturned(1, AlreadyClosed),
                  CancelCalled(0), CompletedStarted(0), EventEnded(e)]
  {
    ReachesRunningEvent(e);
    var s0, s := Init(true), State(true, false, false, InOnEvent(e), map[], [RecvStarted, EventReceived(e), EventStarted(e)]);
    LoserOvertakes(s0, s, 0, 1);
    var t := s.trace + [FlagSet(0)] + [CloseReturned(1, AlreadyClosed)] + [CancelCalled(0)] + [CompletedStarted(0)];
    var cs := s.closers[0 := AtCancel][1 := Returned(AlreadyClosed)][0 := InOnCompleted];
    ReachesNext(s0, s.(closed := true, closers := cs, trace := t), Processor(GotEvent(e)));
  }
}
