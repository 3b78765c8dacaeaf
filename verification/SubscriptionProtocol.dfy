/**
  The subscription protocol of subscription.go as an interleaved step system.

  One processing goroutine runs processEvents while any number of threads call Close. A region
  guarded by the mutex is one atomic step; so is every point where control passes to or comes
  back from RecvMsg, a handler callback, the cancel function or the done channel. What RecvMsg
  returns and when the five-second timer fires are part of an action, so a list of actions is a
  schedule together with all choices of the environment. An action that is not possible in a
  state leaves the state as it is; the reachable states are therefore exactly the states
  Run(Init(hasCancel), acts), for every list acts.
 */
module SubscriptionProtocol {
  import opened Common

  datatype Event = Event(eventId: string, data: string)

  /** What one call of RecvMsg returns. */
  datatype Received = GotEvent(event: Event) | GotError(error: string)

  /** Where the processing goroutine is; At... is the point just before the call, In... is inside it. */
  datatype ProcessorPc =
    | Top
    | AtRecv
    | InRecv
    | CheckError(error: string)
    | AtOnError(error: string)
    | InOnError(error: string)
    | CheckEvent(event: Event)
    | AtOnEvent(event: Event)
    | InOnEvent(event: Event)
    | AtExit
    | Finished

  datatype Exit = AlreadyClosed | ThroughDone | ThroughTimeout

  /** Where one call of Close is. */
  datatype CloserPc = Arriving | AtCancel | AtOnCompleted | InOnCompleted | Waiting | Returned(exit: Exit)

  /** What an observer of the subscription sees, in the order in which it happens. */
  datatype Moment =
    | RecvStarted
    | EventReceived(event: Event)
    | ErrorReceived(error: string)
    | EventStarted(event: Event)
    | EventEnded(event: Event)
    | ErrorStarted(error: string)
    | ErrorEnded(error: string)
    | DoneClosed
    | FlagSet(closer: nat)
    | CancelCalled(closer: nat)
    | CompletedStarted(closer: nat)
    | CompletedEnded(closer: nat)
    | CloseReturned(closer: nat, exit: Exit)

  datatype State = State(
    hasCancel: bool,
    closed: bool,
    done: bool,
    pc: ProcessorPc,
    closers: map<nat, CloserPc>,
    trace: seq<Moment>)

  datatype Action =
    | Processor(input: Received)
    | CallClose(closer: nat)
    | Closer(closer: nat, timerFired: bool)

  function Init(hasCancel: bool): State {
    State(hasCancel, false, false, Top, map[], [])
  }

  function Log(t: seq<Moment>, m: Option<Moment>): seq<Moment> {
    match m
    case None => t
    case Some(x) => t + [x]
  }

  /** Where the next step of processEvents leads. The input matters only where RecvMsg returns. */
  function NextPc(pc: ProcessorPc, closed: bool, input: Received): ProcessorPc {
    match pc
    case Top => if closed then AtExit else AtRecv
    case AtRecv => InRecv
    case InRecv =>
      (match input
       case GotEvent(e) => CheckEvent(e)
       case GotError(x) => CheckError(x))
    case CheckError(x) => if closed then AtExit else AtOnError(x)
    case AtOnError(x) => InOnError(x)
    case InOnError(_) => AtExit
    case CheckEvent(e) => if closed then Top else AtOnEvent(e)
    case AtOnEvent(e) => InOnEvent(e)
    case InOnEvent(_) => Top
    case AtExit => Finished
    case Finished => Finished
  }

  /** What an observer sees of that step. */
  function ProcessorMoment(pc: ProcessorPc, input: Received): Option<Moment> {
    match pc
    case AtRecv => Some(RecvStarted)
    case InRecv =>
      (match input
       case GotEvent(e) => Some(EventReceived(e))
       case GotError(x) => Some(ErrorReceived(x)))
    case AtOnError(x) => Some(ErrorStarted(x))
    case InOnError(x) => Some(ErrorEnded(x))
    case AtOnEvent(e) => Some(EventStarted(e))
    case InOnEvent(e) => Some(EventEnded(e))
    case AtExit => Some(DoneClosed)
    case _ => None
  }

  function NextCloser(c: CloserPc, closed: bool, done: bool, timerFired: bool): CloserPc {
    match c
    case Arriving => if closed then Returned(AlreadyClosed) else AtCancel
    case AtCancel => AtOnCompleted
    case AtOnCompleted => InOnCompleted
    case InOnCompleted => Waiting
    case Waiting => if timerFired then Returned(ThroughTimeout) else if done then Returned(ThroughDone) else Waiting
    case Returned(x) => Returned(x)
  }

  function CloserMoment(id: nat, c: CloserPc, hasCancel: bool, closed: bool, done: bool, timerFired: bool): Option<Moment> {
    match c
    case Arriving => if closed then Some(CloseReturned(id, AlreadyClosed)) else Some(FlagSet(id))
    case AtCancel => if hasCancel then Some(CancelCalled(id)) else None
    case AtOnCompleted => Some(CompletedStarted(id))
    case InOnCompleted => Some(CompletedEnded(id))
    case Waiting =>
      if timerFired then Some(CloseReturned(id, ThroughTimeout))
      else if done then Some(CloseReturned(id, ThroughDone))
      else None
    case Returned(_) => None
  }

  function ProcessorStep(s: State, input: Received): State {
    State(s.hasCancel, s.closed, s.done || s.pc.AtExit?, NextPc(s.pc, s.closed, input), s.closers,
          Log(s.trace, ProcessorMoment(s.pc, input)))
  }

  function CloserStep(s: State, id: nat, timerFired: bool): State
    requires id in s.closers
  {
    var c := s.closers[id];
    State(s.hasCancel, s.closed || c.Arriving?, s.done, s.pc,
          s.closers[id := NextCloser(c, s.closed, s.done, timerFired)],
          Log(s.trace, CloserMoment(id, c, s.hasCancel, s.closed, s.done, timerFired)))
  }

  function Step(s: State, a: Action): State {
    match a
    case Processor(input) => ProcessorStep(s, input)
    case CallClose(id) => if id in s.closers then s else s.(closers := s.closers[id := Arriving])
    case Closer(id, timerFired) => if id in s.closers then CloserStep(s, id, timerFired) else s
  }

  function Run(s: State, acts: seq<Action>): State
    decreases |acts|
  {
    if acts == [] then s else Step(Run(s, acts[..|acts| - 1]), acts[|acts| - 1])
  }

  lemma RunOneMore(s: State, acts: seq<Action>, a: Action)
    ensures Run(s, acts + [a]) == Step(Run(s, acts), a)
  {
    assert (acts + [a])[..|acts|] == acts;
  }

  lemma {:induction false} RunAppend(s: State, a: seq<Action>, b: seq<Action>)
    ensures Run(s, a + b) == Run(Run(s, a), b)
    decreases |b|
  {
    if b == [] {
      assert a + b == a;
    } else {
      var b', x := b[..|b| - 1], b[|b| - 1];
      RunAppend(s, a, b');
      assert b == b' + [x] && a + b == (a + b') + [x];
      RunOneMore(s, a + b', x);
      RunOneMore(Run(s, a), b', x);
    }
  }

  /** The processor leaves the subscription: it starts RecvMsg, OnEvent or OnError. */
  predicate IsStart(m: Moment) {
    m.RecvStarted? || m.EventStarted? || m.ErrorStarted?
  }

  predicate IsCallback(m: Moment) {
    m.EventStarted? || m.EventEnded? || m.ErrorStarted? || m.ErrorEnded?
  }

  predicate IsProcessorMoment(m: Moment) {
    IsCallback(m) || m.RecvStarted? || m.EventReceived? || m.ErrorReceived? || m.DoneClosed?
  }

  /** The processor's callbacks in the order in which they start and end. */
  function Callbacks(t: seq<Moment>): seq<Moment>
    decreases |t|
  {
    if t == [] then []
    else
      var m := t[|t| - 1];
      if IsCallback(m) then Callbacks(t[..|t| - 1]) + [m] else Callbacks(t[..|t| - 1])
  }

  /** What RecvMsg returned, in order. */
  function Answers(t: seq<Moment>): seq<Received>
    decreases |t|
  {
    if t == [] then []
    else
      var m := t[|t| - 1];
      if m.EventReceived? then Answers(t[..|t| - 1]) + [GotEvent(m.event)]
      else if m.ErrorReceived? then Answers(t[..|t| - 1]) + [GotError(m.error)]
      else Answers(t[..|t| - 1])
  }

  function EventsOf(answers: seq<Received>): seq<Event>
    decreases |answers|
  {
    if answers == [] then []
    else
      var r := answers[|answers| - 1];
      if r.GotEvent? then EventsOf(answers[..|answers| - 1]) + [r.event] else EventsOf(answers[..|answers| - 1])
  }

  /** The events that RecvMsg returned, in order. */
  function ReceivedEvents(t: seq<Moment>): seq<Event> {
    EventsOf(Answers(t))
  }

  lemma EventsGrow(answers: seq<Received>, r: Received)
    ensures EventsOf(answers + [r]) == if r.GotEvent? then EventsOf(answers) + [r.event] else EventsOf(answers)
  {
    assert (answers + [r])[..|answers|] == answers;
  }

  /** The events with which OnEvent was called, in order. */
  function DeliveredEvents(t: seq<Moment>): seq<Event>
    decreases |t|
  {
    if t == [] then []
    else
      var m := t[|t| - 1];
      if m.EventStarted? then DeliveredEvents(t[..|t| - 1]) + [m.event] else DeliveredEvents(t[..|t| - 1])
  }

  lemma Observe(t: seq<Moment>, m: Moment)
    ensures Callbacks(t + [m]) == if IsCallback(m) then Callbacks(t) + [m] else Callbacks(t)
    ensures DeliveredEvents(t + [m]) == if m.EventStarted? then DeliveredEvents(t) + [m.event] else DeliveredEvents(t)
  {
    assert (t + [m])[..|t|] == t;
  }

  lemma ObserveAnswers(t: seq<Moment>, m: Moment)
    ensures Answers(t + [m])
            == if m.EventReceived? then Answers(t) + [GotEvent(m.event)]
               else if m.ErrorReceived? then Answers(t) + [GotError(m.error)]
               else Answers(t)
    ensures ReceivedEvents(t + [m]) == if m.EventReceived? then ReceivedEvents(t) + [m.event] else ReceivedEvents(t)
  {
    assert (t + [m])[..|t|] == t;
    if m.EventReceived? {
      EventsGrow(Answers(t), GotEvent(m.event));
    } else if m.ErrorReceived? {
      EventsGrow(Answers(t), GotError(m.error));
    }
  }

  /** One OnEvent after the other, each ending before the next one starts. */
  function Dialogue(events: seq<Event>): seq<Moment>
    decreases |events|
  {
    if events == [] then []
    else
      var e := events[|events| - 1];
      Dialogue(events[..|events| - 1]) + [EventStarted(e), EventEnded(e)]
  }

  lemma {:induction false} DialogueAlternates(events: seq<Event>)
    ensures |Dialogue(events)| == 2 * |events|
    ensures forall i :: 0 <= i < |events| ==>
              Dialogue(events)[2 * i] == EventStarted(events[i]) && Dialogue(events)[2 * i + 1] == EventEnded(events[i])
    decreases |events|
  {
    if events != [] {
      DialogueAlternates(events[..|events| - 1]);
    }
  }
}
