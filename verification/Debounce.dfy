/** `debounce_loop`: raw notifications collected into batches, and their way through the pipeline. */
module Debounce {
  import opened Options
  import opened Events
  import opened Sequences
  import opened Dedup
  import opened Pipeline

  /** What `recv_timeout` yields. */
  datatype Received<Raw> = Notification(raw: Raw) | WatchError(message: string) | Timeout | Disconnected

  predicate Closed<Raw>(inputs: seq<Received<Raw>>)
  {
    exists i :: 0 <= i < |inputs| && inputs[i].Disconnected?
  }

  /** The events that notifications convert to, up to the first disconnection. */
  function Converted<Raw>(inputs: seq<Received<Raw>>, convert: Raw -> Option<Event>): seq<Event>
  {
    if inputs == [] then []
    else
      var n := |inputs| - 1;
      var before := Converted(inputs[..n], convert);
      if Closed(inputs[..n]) then before else before + EventOf(inputs[n], convert)
  }

  function EventOf<Raw>(input: Received<Raw>, convert: Raw -> Option<Event>): seq<Event>
  {
    if !input.Notification? then []
    else match convert(input.raw) case Some(event) => [event] case None => []
  }

  /** The messages sent and the events collected so far. */
  datatype State = State(sent: seq<WatchEvent>, pending: seq<Event>)

  /** What one input before the disconnection does. */
  function Advance<Raw>(s: State, input: Received<Raw>, convert: Raw -> Option<Event>): State
    requires !input.Disconnected?
  {
    match input
    case Notification(raw) =>
      (match convert(raw) case Some(event) => s.(pending := s.pending + [event]) case None => s)
    case WatchError(message) => s.(sent := s.sent + [Error(message)])
    case Timeout => if s.pending == [] then s else State(s.sent + [Batch(s.pending)], [])
  }

  /** What the loop has done when `inputs` end; nothing happens after a disconnection. */
  function Debounced<Raw>(inputs: seq<Received<Raw>>, convert: Raw -> Option<Event>): State
  {
    if inputs == [] then State([], [])
    else
      var n := |inputs| - 1;
      var before := Debounced(inputs[..n], convert);
      if Closed(inputs[..n]) || inputs[n].Disconnected? then before else Advance(before, inputs[n], convert)
  }

  /** The loop; `pending` is what it holds, and forgets, when its inputs end. */
  method DebounceLoop<Raw>(inputs: seq<Received<Raw>>, convert: Raw -> Option<Event>)
    returns (sent: seq<WatchEvent>, pending: seq<Event>)
    ensures State(sent, pending) == Debounced(inputs, convert)
  {
    hide Advance;
    sent, pending := [], [];
    for i := 0 to |inputs|
      invariant !Closed(inputs[..i])
      invariant State(sent, pending) == Debounced(inputs[..i], convert)
    {
      assert inputs[..i + 1][..i] == inputs[..i];
      if inputs[i].Disconnected? {
        ClosedForGood(inputs, i, convert);
        return;
      }
      sent, pending := Receive(inputs[i], convert, sent, pending);
    }
    assert inputs[..|inputs|] == inputs;
  }

  method Receive<Raw>(input: Received<Raw>, convert: Raw -> Option<Event>, sent0: seq<WatchEvent>, pending0: seq<Event>)
    returns (sent: seq<WatchEvent>, pending: seq<Event>)
    requires !input.Disconnected?
    ensures State(sent, pending) == Advance(State(sent0, pending0), input, convert)
  {
    sent, pending := sent0, pending0;
    match input {
      case Notification(raw) =>
        var event := convert(raw);
        if event.Some? { pending := pending + [event.value]; }
      case WatchError(message) =>
        sent := sent + [Error(message)];
      case Timeout =>
        if pending != [] {
          sent := sent + [Batch(pending)];
          pending := [];
        }
    }
  }

  lemma {:induction false} ClosedForGood<Raw>(inputs: seq<Received<Raw>>, i: nat, convert: Raw -> Option<Event>)
    requires i < |inputs| && inputs[i].Disconnected?
    ensures Debounced(inputs, convert) == Debounced(inputs[..i + 1], convert)
  {
    var n := |inputs| - 1;
    if i < n {
      assert inputs[..n][i].Disconnected? && inputs[..n][..i + 1] == inputs[..i + 1];
      ClosedForGood(inputs[..n], i, convert);
    } else {
      assert inputs[..i + 1] == inputs;
    }
  }

  /** A batch that is sent is never empty, and the loop sends no single events. */
  predicate WellFormed(m: WatchEvent)
  {
    !m.Single? && (m.Batch? ==> m.events != [])
  }

  /** Messages sent, then what is pending, are always the converted inputs, in order. */
  lemma {:induction false} NothingIsLostBeforeTheEnd<Raw>(inputs: seq<Received<Raw>>, convert: Raw -> Option<Event>)
    ensures var s := Debounced(inputs, convert); FlatMap(s.sent, EventsIn) + s.pending == Converted(inputs, convert)
    ensures forall m :: m in Debounced(inputs, convert).sent ==> WellFormed(m)
  {
    if inputs != [] {
      var n := |inputs| - 1;
      NothingIsLostBeforeTheEnd(inputs[..n], convert);
      var s := Debounced(inputs[..n], convert);
      if !Closed(inputs[..n]) && !inputs[n].Disconnected? {
        AdvanceKeeps(s, inputs[n], convert);
      }
    }
  }

  function ErrorsIn(m: WatchEvent): seq<string>
  {
    if m.Error? then [m.message] else []
  }

  /** The errors reported up to the first disconnection. */
  function Reported<Raw>(inputs: seq<Received<Raw>>): seq<string>
  {
    if inputs == [] then []
    else
      var n := |inputs| - 1;
      Reported(inputs[..n])
        + if !Closed(inputs[..n]) && inputs[n].WatchError? then [inputs[n].message] else []
  }

  /** Every error is passed on, in order and at once, and no other. */
  lemma {:induction false} ErrorsArePassedOn<Raw>(inputs: seq<Received<Raw>>, convert: Raw -> Option<Event>)
    ensures FlatMap(Debounced(inputs, convert).sent, ErrorsIn) == Reported(inputs)
    ensures inputs != [] && !Closed(inputs[..|inputs| - 1]) && inputs[|inputs| - 1].WatchError? ==>
      var sent := Debounced(inputs, convert).sent;
      sent != [] && sent[|sent| - 1] == Error(inputs[|inputs| - 1].message)
  {
    if inputs != [] {
      hide Advance, FlatMap, Closed;
      var n := |inputs| - 1;
      ErrorsArePassedOn(inputs[..n], convert);
      if !Closed(inputs[..n]) && !inputs[n].Disconnected? {
        AdvanceReports(Debounced(inputs[..n], convert), inputs[n], convert);
      }
    }
  }

  lemma AdvanceReports<Raw>(s: State, input: Received<Raw>, convert: Raw -> Option<Event>)
    requires !input.Disconnected?
    ensures var sent := Advance(s, input, convert).sent;
      && FlatMap(sent, ErrorsIn) == FlatMap(s.sent, ErrorsIn) + (if input.WatchError? then [input.message] else [])
      && (input.WatchError? ==> sent != [] && sent[|sent| - 1] == Error(input.message))
  {
    if input.WatchError? {
      FlatMapSnoc(s.sent, Error(input.message), ErrorsIn);
    } else {
      FlatMapSnoc(s.sent, Batch(s.pending), ErrorsIn);
    }
  }

  lemma AdvanceKeeps<Raw>(s: State, input: Received<Raw>, convert: Raw -> Option<Event>)
    requires !input.Disconnected?
    ensures var t := Advance(s, input, convert);
      FlatMap(t.sent, EventsIn) + t.pending == FlatMap(s.sent, EventsIn) + s.pending + EventOf(input, convert)
  {
    if input.WatchError? {
      FlatMapSnoc(s.sent, Error(input.message), EventsIn);
    } else if input.Timeout? {
      FlatMapSnoc(s.sent, Batch(s.pending), EventsIn);
    }
  }

  /** The events that have arrived since the last time-out. */
  function SinceTimeout<Raw>(inputs: seq<Received<Raw>>, convert: Raw -> Option<Event>): seq<Event>
  {
    if inputs == [] || inputs[|inputs| - 1].Timeout? then []
    else SinceTimeout(inputs[..|inputs| - 1], convert) + EventOf(inputs[|inputs| - 1], convert)
  }

  /** Only a time-out ends a batch, and each one does: as long as the channel is open, later events are pending. */
  lemma {:induction false} PendingIsSinceTimeout<Raw>(inputs: seq<Received<Raw>>, convert: Raw -> Option<Event>)
    requires !Closed(inputs)
    ensures Debounced(inputs, convert).pending == SinceTimeout(inputs, convert)
  {
    if inputs != [] {
      var n := |inputs| - 1;
      assert !Closed(inputs[..n]) by {
        assert forall i :: 0 <= i < n ==> inputs[..n][i] == inputs[i];
      }
      PendingIsSinceTimeout(inputs[..n], convert);
    }
  }

  /** The deliveries and losses of one stretch and then another, which starts with the map the first leaves. */
  function Join(first: Outcome, second: Outcome): Outcome
  {
    Outcome(second.seen, first.delivered + second.delivered, first.dropped + second.dropped,
      first.deduped + second.deduped)
  }

  lemma HandleJoined(first: Outcome, second: Outcome, window: nat, a: Arrival, pass: Key -> bool)
    ensures Handle(Join(first, second), window, a, pass) == Join(first, Handle(second, window, a, pass))
  {
    hide Step;
  }

  /** Two messages in a row are processed as their concatenation would be. */
  lemma {:induction false} ProcessConcat(start: Seen, window: nat, a: seq<Arrival>, b: seq<Arrival>, pass: Key -> bool)
    ensures var first := Process(start, window, a, pass);
      Process(start, window, a + b, pass) == Join(first, Process(first.seen, window, b, pass))
  {
    var first := Process(start, window, a, pass);
    if b == [] {
      assert a + b == a;
    } else {
      var n := |b| - 1;
      hide Handle, Join;
      ProcessConcat(start, window, a, b[..n], pass);
      assert (a + b)[..|a + b| - 1] == a + b[..n];
      HandleJoined(first, Process(first.seen, window, b[..n], pass), window, b[n], pass);
    }
  }

  /** The messages one after the other, each event with its clock reading. */
  function ProcessMessages(
    start: Seen, window: nat, messages: seq<WatchEvent>, clock: seq<nat>, pass: Key -> bool): Outcome
    requires |clock| == |FlatMap(messages, EventsIn)|
  {
    if messages == [] then Outcome(start, [], 0, 0)
    else
      var n := |messages| - 1;
      var k := |FlatMap(messages[..n], EventsIn)|;
      var o := ProcessMessages(start, window, messages[..n], clock[..k], pass);
      Join(o, Process(o.seen, window, Arrivals(EventsIn(messages[n]), clock[k..]), pass))
  }

  /** However the loop batches them, the events are processed as one stream. */
  lemma {:induction false} BatchingIsInvisible(
      start: Seen, window: nat, messages: seq<WatchEvent>, clock: seq<nat>, pass: Key -> bool)
    requires |clock| == |FlatMap(messages, EventsIn)|
    ensures ProcessMessages(start, window, messages, clock, pass)
            == Process(start, window, Arrivals(FlatMap(messages, EventsIn), clock), pass)
  {
    hide Process, Arrivals, Join;
    if messages == [] {
      NoArrivals(start, window, clock, pass);
    } else {
      var n := |messages| - 1;
      var head, last := FlatMap(messages[..n], EventsIn), EventsIn(messages[n]);
      var k := |head|;
      BatchingIsInvisible(start, window, messages[..n], clock[..k], pass);
      ArrivalsSplit(head, last, clock);
      assert FlatMap(messages, EventsIn) == head + last;
      ProcessConcat(start, window, Arrivals(head, clock[..k]), Arrivals(last, clock[k..]), pass);
    }
  }

  lemma NoArrivals(start: Seen, window: nat, clock: seq<nat>, pass: Key -> bool)
    requires clock == []
    ensures Process(start, window, Arrivals([], clock), pass) == Outcome(start, [], 0, 0)
  {
  }

  lemma ArrivalsSplit(a: seq<Event>, b: seq<Event>, clock: seq<nat>)
    requires |clock| == |a| + |b|
    ensures Arrivals(a + b, clock) == Arrivals(a, clock[..|a|]) + Arrivals(b, clock[|a|..])
  {
  }

  /**
   From notification to delivery: every converted event is delivered, dropped by a filter, deduplicated
   or still pending, each exactly once.
  */
  lemma EveryNotificationIsAccountedFor<Raw>(
      inputs: seq<Received<Raw>>, convert: Raw -> Option<Event>, window: nat, clock: seq<nat>, pass: Key -> bool)
    requires |clock| == |FlatMap(Debounced(inputs, convert).sent, EventsIn)|
    ensures var s := Debounced(inputs, convert);
      var o := ProcessMessages(map[], window, s.sent, clock, pass);
      |o.delivered| + o.dropped + o.deduped + |s.pending| == |Converted(inputs, convert)|
  {
    var sent := Debounced(inputs, convert).sent;
    NothingIsLostBeforeTheEnd(inputs, convert);
    BatchingIsInvisible(map[], window, sent, clock, pass);
    NothingLostOrCountedTwice(map[], window, Arrivals(FlatMap(sent, EventsIn), clock), pass);
  }
}
