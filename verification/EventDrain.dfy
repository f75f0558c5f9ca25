/** The event stream as two processes over two channels: the producer of a
    subscription (grpc/event_client.go) and `drainEvents` (event_listener.go).
    The steps are Go's channel operations, in every interleaving. */
module EventDrain {
  import opened Wrappers

  type Event = int

  datatype Error = Cancelled | Own(code: int)

  /** What a stream delivers and how it ends; a clean close has no error. The
      event channel may have any capacity, none included. */
  datatype Stream = Stream(events: seq<Event>, last: Option<Error>, capacity: nat)

  /** The producer's next action. `Parked` is blocked in its send. */
  datatype Producer = Receiving | Offering | Parked | Failing(error: Error) | ClosingErrors | ClosingEvents | Gone

  /** The drain's position: its first select, its second, the closed branch, the
      flush after an error, and the return. */
  datatype Drain =
    | Poll
    | Wait
    | EventsClosed
    | Flush(error: Option<Error>)
    | Returned(result: Option<Error>, delivered: nat, byContext: bool)

  datatype State = State(
    producer: Producer,
    sent: nat,
    aborted: bool,
    buffer: seq<Event>,
    eventsClosed: bool,
    errors: seq<Error>,
    errorsClosed: bool,
    cancelled: bool,
    drain: Drain,
    handled: seq<Event>,
    delivered: nat)

  function Initial(): State {
    State(Receiving, 0, false, [], false, [], false, false, Poll, [], 0)
  }

  // ------------------------------------------------------------------- the channel

  /** What a receive on the event channel would find: the buffer and, behind
      it, a parked sender. */
  function Queue(m: Stream, s: State): seq<Event>
    requires s.sent <= |m.events|
  {
    s.buffer + if s.producer.Parked? && s.sent < |m.events| then [m.events[s.sent]] else []
  }

  predicate Ready(m: Stream, s: State)
    requires s.sent <= |m.events|
  {
    Queue(m, s) != []
  }

  /** Receiving an event and handling it; a parked sender's value moves up. */
  function Receive(m: Stream, s: State): State
    requires s.sent <= |m.events| && Ready(m, s)
  {
    var queue := Queue(m, s);
    var moved := s.producer.Parked? && s.sent < |m.events|;
    s.(buffer := queue[1..], handled := s.handled + [queue[0]], delivered := s.delivered + 1,
       producer := if moved then Receiving else s.producer, sent := if moved then s.sent + 1 else s.sent)
  }

  /** Closed and empty: a receive reports the end at once. */
  predicate AtEnd(s: State) {
    s.eventsClosed && s.buffer == []
  }

  // -------------------------------------------------------------------- the steps

  ghost predicate ProducerStep(m: Stream, s: State, t: State)
    requires s.sent <= |m.events|
  {
    match s.producer
    case Receiving =>
      if s.sent < |m.events| then
        || t == s.(producer := Offering)
        || (s.cancelled && t == s.(producer := Failing(Cancelled), aborted := true))
      else
        || t == s.(producer := if m.last.Some? then Failing(m.last.value) else ClosingErrors)
        || (s.cancelled && t == s.(producer := Failing(Cancelled), aborted := true))
    case Offering =>
      || (|s.buffer| < m.capacity && s.sent < |m.events| &&
          t == s.(producer := Receiving, buffer := s.buffer + [m.events[s.sent]], sent := s.sent + 1))
      || (|s.buffer| >= m.capacity && t == s.(producer := Parked))
      || (s.cancelled && t == s.(producer := Failing(Cancelled), aborted := true))
    case Parked => s.cancelled && t == s.(producer := Failing(Cancelled), aborted := true)
    case Failing(error) => t == s.(producer := ClosingErrors, errors := s.errors + [error])
    case ClosingErrors => t == s.(producer := ClosingEvents, errorsClosed := true)
    case ClosingEvents => t == s.(producer := Gone, eventsClosed := true)
    case Gone => false
  }

  function Return(s: State, result: Option<Error>, byContext: bool): State {
    s.(drain := Returned(result, s.delivered, byContext))
  }

  /** The next value of the error channel; a closed one yields nil. */
  function NextError(s: State): Option<Error> {
    if s.errors != [] then Some(s.errors[0]) else None
  }

  function TakeError(s: State): State {
    if s.errors != [] then s.(errors := s.errors[1..]) else s
  }

  ghost predicate DrainStep(m: Stream, s: State, t: State)
    requires s.sent <= |m.events|
  {
    match s.drain
    case Poll =>
      if Ready(m, s) then t == Receive(m, s)
      else if AtEnd(s) then t == s.(drain := EventsClosed)
      else t == s.(drain := Wait)
    case Wait =>
      || (Ready(m, s) && t == Receive(m, s).(drain := Poll))
      || (AtEnd(s) && t == s.(drain := EventsClosed))
      || ((s.errors != [] || s.errorsClosed) && t == TakeError(s).(drain := Flush(NextError(s))))
      || (s.cancelled && t == Return(s, Some(Cancelled), true))
    case EventsClosed => t == Return(TakeError(s), NextError(s), false)
    case Flush(error) => if Ready(m, s) then t == Receive(m, s) else t == Return(s, error, false)
    case Returned(_, _, _) => false
  }

  ghost predicate Step(m: Stream, s: State, t: State)
    requires s.sent <= |m.events|
  {
    || ProducerStep(m, s, t)
    || DrainStep(m, s, t)
    || (!s.cancelled && t == s.(cancelled := true))
  }

  /** A run of the two processes and the context, from the start. */
  ghost predicate Run(m: Stream, states: seq<State>) {
    && states != [] && states[0] == Initial()
    && forall i | 0 <= i < |states| - 1 :: states[i].sent <= |m.events| && Step(m, states[i], states[i + 1])
  }

  // ------------------------------------------------------------------ the invariant

  predicate Sending(p: Producer) {
    p.Receiving? || p.Offering? || p.Parked?
  }

  /** What the producer ends with: its own error, or the context's. */
  function Final(m: Stream, s: State): Option<Error> {
    if s.aborted then Some(Cancelled) else m.last
  }

  /** The producer and its error channel. */
  predicate ProducerOk(m: Stream, s: State) {
    && (Sending(s.producer) ==> !s.aborted && s.errors == [])
    && (s.producer.Offering? || s.producer.Parked? ==> s.sent < |m.events|)
    && (s.producer.Parked? ==> |s.buffer| >= m.capacity)
    && (!Sending(s.producer) && !s.aborted ==> s.sent == |m.events|)
    && (s.aborted ==> s.cancelled)
    && (s.producer.Failing? ==> Some(s.producer.error) == Final(m, s) && s.errors == [])
    && (s.errorsClosed <==> s.producer.ClosingEvents? || s.producer.Gone?)
    && (s.eventsClosed <==> s.producer.Gone?)
  }

  /** Whether the drain has taken the producer's error, and what it does then. */
  predicate DrainOk(m: Stream, s: State) {
    var failed := s.producer.ClosingErrors? || s.producer.ClosingEvents? || s.producer.Gone?;
    match s.drain
    case Flush(error) => failed && error == Final(m, s)
    case EventsClosed => s.producer.Gone? && s.buffer == [] && NextError(s) == Final(m, s)
    case Returned(result, delivered, byContext) =>
      && delivered == |s.handled|
      && if byContext then result == Some(Cancelled) && s.cancelled
         else failed && s.buffer == [] && result == Final(m, s)
    case _ => failed ==> NextError(s) == Final(m, s)
  }

  predicate Invariant(m: Stream, s: State) {
    && s.sent <= |m.events|
    && s.handled + s.buffer == m.events[..s.sent]
    && |s.buffer| <= m.capacity
    && s.delivered == |s.handled|
    && ProducerOk(m, s)
    && DrainOk(m, s)
  }

  lemma ReceiveKeeps(m: Stream, s: State)
    requires Invariant(m, s) && Ready(m, s)
    ensures var t := Receive(m, s);
            t.sent <= |m.events| && t.handled + t.buffer == m.events[..t.sent] && |t.buffer| <= m.capacity &&
            t.delivered == |t.handled| && ProducerOk(m, t)
  {
    var queue := Queue(m, s);
    var t := Receive(m, s);
    assert s.handled + queue == t.handled + t.buffer;
  }

  lemma ProducerKeeps(m: Stream, s: State, t: State)
    requires Invariant(m, s) && ProducerStep(m, s, t)
    ensures Invariant(m, t)
  {
  }

  /** Receiving leaves the drain polling, or flushing what it was flushing. */
  lemma ReceiveAndGo(m: Stream, s: State, next: Drain)
    requires Invariant(m, s) && Ready(m, s) && !s.drain.Returned?
    requires next == s.drain || (s.drain.Wait? && next == Poll)
    ensures Invariant(m, Receive(m, s).(drain := next))
  {
    ReceiveKeeps(m, s);
  }

  lemma DrainKeeps(m: Stream, s: State, t: State)
    requires Invariant(m, s) && DrainStep(m, s, t)
    ensures Invariant(m, t)
  {
    hide Receive;
    if Ready(m, s) && !s.drain.Returned? {
      ReceiveAndGo(m, s, s.drain);
      ReceiveKeepsDrain(m, s);
      if s.drain.Wait? {
        ReceiveAndGo(m, s, Poll);
      }
    }
    match s.drain
    case Poll =>
    case Wait => WaitKeeps(m, s, t);
    case EventsClosed =>
    case Flush(error) =>
    case Returned(_, _, _) =>
  }

  lemma ReceiveKeepsDrain(m: Stream, s: State)
    requires s.sent <= |m.events| && Ready(m, s)
    ensures Receive(m, s).(drain := s.drain) == Receive(m, s)
  {
  }

  lemma WaitKeeps(m: Stream, s: State, t: State)
    requires Invariant(m, s) && DrainStep(m, s, t) && s.drain.Wait?
    ensures Invariant(m, t)
  {
    hide Receive, Ready;
    if Ready(m, s) && t == Receive(m, s).(drain := Poll) {
      ReceiveAndGo(m, s, Poll);
    } else if t == TakeError(s).(drain := Flush(NextError(s))) && (s.errors != [] || s.errorsClosed) {
      FlushKeeps(m, s);
    }
  }

  /** Taking the error, or nil from the closed channel. */
  lemma FlushKeeps(m: Stream, s: State)
    requires Invariant(m, s) && s.drain.Wait? && (s.errors != [] || s.errorsClosed)
    ensures Invariant(m, TakeError(s).(drain := Flush(NextError(s))))
  {
  }

  lemma {:induction false} RunKeeps(m: Stream, states: seq<State>, i: nat)
    requires Run(m, states) && i < |states|
    ensures Invariant(m, states[i])
    decreases i
  {
    hide Invariant, ProducerStep, DrainStep;
    if i == 0 {
      InitialIsOk(m);
    } else {
      RunKeeps(m, states, i - 1);
      StepKeeps(m, states[i - 1], states[i]);
    }
  }

  lemma InitialIsOk(m: Stream)
    ensures Invariant(m, Initial())
  {
  }

  lemma StepKeeps(m: Stream, s: State, t: State)
    requires s.sent <= |m.events| && Invariant(m, s) && Step(m, s, t)
    ensures Invariant(m, t)
  {
    hide ProducerStep, DrainStep;
    if ProducerStep(m, s, t) {
      ProducerKeeps(m, s, t);
    } else if DrainStep(m, s, t) {
      DrainKeeps(m, s, t);
    }
  }

  // ---------------------------------------------------------------------- theorems

  /** In every interleaving the handled events are an in-order prefix of what
      the producer sent, each handled once, and the count is exact. */
  lemma HandledInOrder(m: Stream, states: seq<State>, i: nat)
    requires Run(m, states) && i < |states|
    ensures states[i].sent <= |m.events|
    ensures states[i].handled <= m.events[..states[i].sent]
    ensures states[i].drain.Returned? ==> states[i].drain.delivered == |states[i].handled|
  {
    RunKeeps(m, states, i);
  }

  /** A drain that did not return because of the context has handled every
      event that was sent and returns what the producer ended with. Unless the
      producer itself was cancelled, that is every event of the stream and the
      stream's own error. */
  lemma NothingIsLost(m: Stream, states: seq<State>, i: nat)
    requires Run(m, states) && i < |states|
    requires states[i].drain.Returned? && !states[i].drain.byContext
    ensures states[i].sent <= |m.events| && states[i].handled == m.events[..states[i].sent]
    ensures states[i].drain.result == Final(m, states[i])
    ensures !states[i].aborted ==> states[i].handled == m.events && states[i].drain.result == m.last
    ensures states[i].aborted ==> states[i].cancelled
  {
    RunKeeps(m, states, i);
  }

  /** In particular, without cancellation the stream is delivered completely. */
  lemma CompleteWithoutCancel(m: Stream, states: seq<State>, i: nat)
    requires Run(m, states) && i < |states|
    requires states[i].drain.Returned? && !states[i].cancelled
    ensures states[i].handled == m.events && states[i].drain.result == m.last
    ensures states[i].drain.delivered == |m.events|
  {
    RunKeeps(m, states, i);
    NothingIsLost(m, states, i);
  }

  /** The two processes cannot block each other: until the drain has returned
      one of them can move. */
  lemma NoDeadlock(m: Stream, s: State) returns (t: State)
    requires Invariant(m, s) && !s.drain.Returned?
    ensures ProducerStep(m, s, t) || DrainStep(m, s, t)
  {
    match s.producer
    case Receiving =>
      t := s.(producer := if s.sent < |m.events| then Offering
                          else if m.last.Some? then Failing(m.last.value) else ClosingErrors);
    case Offering =>
      t := if |s.buffer| < m.capacity
           then s.(producer := Receiving, buffer := s.buffer + [m.events[s.sent]], sent := s.sent + 1)
           else s.(producer := Parked);
    case Failing(error) => t := s.(producer := ClosingErrors, errors := s.errors + [error]);
    case ClosingErrors => t := s.(producer := ClosingEvents, errorsClosed := true);
    case ClosingEvents => t := s.(producer := Gone, eventsClosed := true);
    case Parked => t := DrainMoves(m, s);
    case Gone => t := DrainMoves(m, s);
  }

  lemma DrainMoves(m: Stream, s: State) returns (t: State)
    requires Invariant(m, s) && !s.drain.Returned? && (s.producer.Parked? || s.producer.Gone?)
    ensures DrainStep(m, s, t)
  {
    match s.drain
    case Poll =>
      t := if Ready(m, s) then Receive(m, s)
           else if AtEnd(s) then s.(drain := EventsClosed) else s.(drain := Wait);
    case Wait =>
      t := if Ready(m, s) then Receive(m, s).(drain := Poll) else s.(drain := EventsClosed);
    case EventsClosed => t := Return(TakeError(s), NextError(s), false);
    case Flush(error) => t := if Ready(m, s) then Receive(m, s) else Return(s, error, false);
  }

  /** Events come first: while one can be received, polling and flushing receive it,
      whatever else has happened. */
  lemma EventsComeFirst(m: Stream, s: State, t: State)
    requires s.sent <= |m.events| && DrainStep(m, s, t) && Ready(m, s)
    requires s.drain.Poll? || s.drain.Flush?
    ensures t.handled == s.handled + [Queue(m, s)[0]] && t.delivered == s.delivered + 1
    ensures t.drain == s.drain && t.errors == s.errors
  {
  }

  /** Waiting hears everything: an event, the end of the events, the error, and the
      end of the context each have a step that takes it. */
  lemma WaitHearsAll(m: Stream, s: State)
    requires s.sent <= |m.events| && s.drain.Wait?
    ensures Ready(m, s) ==>
              exists t :: DrainStep(m, s, t) && t.handled == s.handled + [Queue(m, s)[0]] && t.drain == Poll
    ensures AtEnd(s) ==> exists t :: DrainStep(m, s, t) && t.drain == EventsClosed
    ensures s.errors != [] ==> exists t :: DrainStep(m, s, t) && t.drain == Flush(Some(s.errors[0]))
    ensures s.cancelled ==> exists t :: DrainStep(m, s, t) && t.drain == Returned(Some(Cancelled), s.delivered, true)
  {
    if Ready(m, s) {
      assert DrainStep(m, s, Receive(m, s).(drain := Poll));
    }
    if AtEnd(s) {
      assert DrainStep(m, s, s.(drain := EventsClosed));
    }
    if s.errors != [] {
      assert DrainStep(m, s, TakeError(s).(drain := Flush(NextError(s))));
    }
    if s.cancelled {
      assert DrainStep(m, s, Return(s, Some(Cancelled), true));
    }
  }

  /** A cancelled producer can give up wherever it is receiving or sending. */
  lemma ProducerHearsCancel(m: Stream, s: State)
    requires s.sent <= |m.events| && s.cancelled && Sending(s.producer)
    ensures exists t :: ProducerStep(m, s, t) && t.producer == Failing(Cancelled) && t.aborted
  {
    assert ProducerStep(m, s, s.(producer := Failing(Cancelled), aborted := true));
  }

  function ProducerRank(p: Producer): nat {
    match p
    case Receiving => 8
    case Offering => 7
    case Parked => 6
    case Failing(_) => 4
    case ClosingErrors => 3
    case ClosingEvents => 2
    case Gone => 1
  }

  function DrainRank(d: Drain): nat {
    match d
    case Poll => 4
    case Wait => 3
    case EventsClosed => 2
    case Flush(_) => 2
    case Returned(_, _, _) => 0
  }

  /** How much is left to do. */
  function Measure(m: Stream, s: State): int {
    20 * (|m.events| - s.sent) + 20 * (|m.events| - |s.handled|) +
    ProducerRank(s.producer) + DrainRank(s.drain) + if s.cancelled then 0 else 1
  }

  lemma StepDecreases(m: Stream, s: State, t: State)
    requires Invariant(m, s) && Step(m, s, t)
    ensures 0 <= Measure(m, t) < Measure(m, s)
  {
    StepKeeps(m, s, t);
    InvariantSizes(m, s);
    InvariantSizes(m, t);
    hide DrainOk, Invariant, ProducerOk, ProducerStep, DrainStep;
    if ProducerStep(m, s, t) {
      ProducerDecreases(m, s, t);
    } else if DrainStep(m, s, t) {
      DrainDecreases(m, s, t);
    }
  }

  lemma ProducerDecreases(m: Stream, s: State, t: State)
    requires s.sent <= |m.events| && ProducerStep(m, s, t)
    ensures Measure(m, t) < Measure(m, s)
  {
  }

  lemma DrainDecreases(m: Stream, s: State, t: State)
    requires s.sent <= |m.events| && DrainStep(m, s, t)
    ensures Measure(m, t) < Measure(m, s)
  {
    hide Receive, Ready, Measure;
    if s.drain.Wait? {
      WaitDecreases(m, s, t);
    } else if (s.drain.Poll? || s.drain.Flush?) && Ready(m, s) {
      ReceiveDecreases(m, s, s.drain);
      ReceiveKeepsDrain(m, s);
    } else {
      OnlyDrainMoves(m, s, t);
    }
  }

  lemma WaitDecreases(m: Stream, s: State, t: State)
    requires s.sent <= |m.events| && DrainStep(m, s, t) && s.drain.Wait?
    ensures Measure(m, t) < Measure(m, s)
  {
    hide Receive, Ready, Measure;
    if Ready(m, s) && t == Receive(m, s).(drain := Poll) {
      ReceiveDecreases(m, s, Poll);
    } else {
      OnlyDrainMoves(m, s, t);
    }
  }

  lemma OnlyDrainMoves(m: Stream, s: State, t: State)
    requires t.handled == s.handled && t.sent == s.sent && t.producer == s.producer && t.cancelled == s.cancelled
    ensures Measure(m, t) - Measure(m, s) == DrainRank(t.drain) - DrainRank(s.drain)
  {
  }

  lemma ReceiveDecreases(m: Stream, s: State, next: Drain)
    requires s.sent <= |m.events| && Ready(m, s)
    ensures Measure(m, Receive(m, s).(drain := next)) < Measure(m, s)
  {
  }

  lemma InvariantSizes(m: Stream, s: State)
    requires Invariant(m, s)
    ensures s.sent <= |m.events| && |s.handled| <= s.sent
    ensures s.producer.Offering? || s.producer.Parked? ==> s.sent < |m.events|
  {
    assert |s.handled + s.buffer| == s.sent;
  }

  /** Every run is finite: it has at most as many steps as there is to do at the
      start, and with `NoDeadlock` every maximal run ends with a return. */
  lemma {:induction false} RunsAreFinite(m: Stream, states: seq<State>, i: nat)
    requires Run(m, states) && i < |states|
    ensures i + Measure(m, states[i]) <= Measure(m, Initial()) == 40 * |m.events| + 13
    ensures 0 <= Measure(m, states[i])
    decreases i
  {
    hide Measure, Step, Invariant;
    assert Measure(m, Initial()) == 40 * |m.events| + 13 by { InitialMeasure(m); }
    RunKeeps(m, states, i);
    if i == 0 {
      InitialMeasure(m);
    } else {
      RunsAreFinite(m, states, i - 1);
      RunKeeps(m, states, i - 1);
      StepDecreases(m, states[i - 1], states[i]);
    }
  }

  lemma InitialMeasure(m: Stream)
    ensures Measure(m, Initial()) == 40 * |m.events| + 13
  {
  }
}
