/** `process_watch_event`: deduplicate, filter, count and deliver each event of a message. */
module Pipeline {
  import opened Options
  import opened Events
  import opened Sequences
  import opened Dedup
  import F = EventFilter

  datatype WatchEvent = Batch(events: seq<Event>) | Single(event: Event) | Error(message: string)

  function EventsIn(m: WatchEvent): seq<Event>
  {
    match m case Batch(events) => events case Single(event) => [event] case Error(_) => []
  }

  /** The pipeline's counters; `recorded` stands for `record_event`. */
  class Metrics {
    var batchesFlushed: nat
    var recorded: nat
    var dropped: nat
    var deduped: nat

    constructor ()
      ensures batchesFlushed == recorded == dropped == deduped == 0
    {
      batchesFlushed, recorded, dropped, deduped := 0, 0, 0, 0;
    }
  }

  /** What a run of arrivals leads to: the deduplicator's map, the deliveries, and the two kinds of loss. */
  datatype Outcome = Outcome(seen: Seen, delivered: seq<Event>, dropped: nat, deduped: nat)

  /** One more arrival. */
  function Handle(o: Outcome, window: nat, a: Arrival, pass: Key -> bool): Outcome
  {
    var (seen, new?) := Step(o.seen, window, a.event, a.time);
    if !new? then o.(seen := seen, deduped := o.deduped + 1)
    else if !pass(KeyOf(a.event)) then o.(seen := seen, dropped := o.dropped + 1)
    else o.(seen := seen, delivered := o.delivered + [a.event])
  }

  function Process(start: Seen, window: nat, arrivals: seq<Arrival>, pass: Key -> bool): Outcome
  {
    if arrivals == [] then Outcome(start, [], 0, 0)
    else Handle(Process(start, window, arrivals[..|arrivals| - 1], pass), window, arrivals[|arrivals| - 1], pass)
  }

  lemma ProcessSnoc(start: Seen, window: nat, arrivals: seq<Arrival>, a: Arrival, pass: Key -> bool)
    ensures Process(start, window, arrivals + [a], pass) ==
      Handle(Process(start, window, arrivals, pass), window, a, pass)
  {
    assert (arrivals + [a])[..|arrivals|] == arrivals;
  }

  /** The loop body: one event of a message. */
  method HandleEvent(
      event: Event, watches: seq<F.Watch>, paths: F.Paths, dedup: EventDeduplicator, metrics: Metrics?, now: nat)
    returns (delivered: seq<Event>)
    modifies dedup, metrics
    ensures var o := Handle(Outcome(old(dedup.seen), [], 0, 0), dedup.window, Arrival(event, now),
      F.KeyVerdict(watches, paths));
      dedup.seen == o.seen && delivered == o.delivered
      && (metrics != null ==>
            && metrics.recorded == old(metrics.recorded) + |o.delivered|
            && metrics.dropped == old(metrics.dropped) + o.dropped
            && metrics.deduped == old(metrics.deduped) + o.deduped)
    ensures metrics != null ==> metrics.batchesFlushed == old(metrics.batchesFlushed)
    ensures var repeated := Repeated(old(dedup.seen), dedup.window, event, now);
      var wanted := F.Wanted(watches, event, paths);
      && delivered == (if !repeated && wanted then [event] else [])
      && (metrics != null ==>
            && metrics.recorded == old(metrics.recorded) + (if !repeated && wanted then 1 else 0)
            && metrics.dropped == old(metrics.dropped) + (if !repeated && !wanted then 1 else 0)
            && metrics.deduped == old(metrics.deduped) + (if repeated then 1 else 0))
  {
    HandleMeans(dedup.seen, dedup.window, event, now, watches, paths);
    hide Step, F.Verdict, F.KeyVerdict, F.Wanted, Repeated;
    var kept := dedup.Process(event, now);
    F.VerdictOfKey(watches, event, paths);
    delivered := [];
    if kept.None? {
      if metrics != null { metrics.deduped := metrics.deduped + 1; }
    } else if !F.Verdict(watches, kept.value, paths) {
      if metrics != null { metrics.dropped := metrics.dropped + 1; }
    } else {
      if metrics != null { metrics.recorded := metrics.recorded + 1; }
      delivered := [kept.value];
    }
  }

  /** An event of the same path and type was let through less than a window before `now`. */
  predicate Repeated(seen: Seen, window: nat, e: Event, now: nat)
  {
    exists k :: k in seen && k.path == e.path && k.eventType == e.eventType
                && (if seen[k].0 <= now then now - seen[k].0 else 0) < window
  }

  lemma HandleMeans(
    seen: Seen, window: nat, e: Event, now: nat, watches: seq<F.Watch>, paths: F.Paths)
    ensures Step(seen, window, e, now).1 <==> !Repeated(seen, window, e, now)
    ensures F.KeyVerdict(watches, paths)(KeyOf(e)) <==> F.Wanted(watches, e, paths)
  {
    F.VerdictOfKey(watches, e, paths);
    F.FirstCoveringWatchDecides(watches, e, paths);
    hide F.Verdict, F.KeyVerdict, F.Wanted;
    if KeyOf(e) in CleanedUp(seen, window, now) {
      assert Repeated(seen, window, e, now);
    }
  }

  lemma HandleAdds(o: Outcome, window: nat, a: Arrival, pass: Key -> bool)
    ensures var p := Handle(Outcome(o.seen, [], 0, 0), window, a, pass);
      && |p.delivered| + p.dropped + p.deduped == 1
      && Handle(o, window, a, pass)
         == Outcome(p.seen, o.delivered + p.delivered, o.dropped + p.dropped, o.deduped + p.deduped)
  {
    hide Step;
  }

  /** Handles one message; the metrics hook is optional. Returns what reaches the store and the notifiers. */
  method ProcessWatchEvent(m: WatchEvent, watches: seq<F.Watch>, paths: F.Paths, dedup: EventDeduplicator,
                           metrics: Metrics?, clock: seq<nat>)
    returns (delivered: seq<Event>)
    requires |clock| == |EventsIn(m)|
    modifies dedup, metrics
    ensures var o := Process(old(dedup.seen), dedup.window, Arrivals(EventsIn(m), clock), F.KeyVerdict(watches, paths));
      dedup.seen == o.seen && delivered == o.delivered
      && (metrics != null ==>
            && metrics.recorded == old(metrics.recorded) + |o.delivered|
            && metrics.dropped == old(metrics.dropped) + o.dropped
            && metrics.deduped == old(metrics.deduped) + o.deduped)
    ensures metrics != null ==> metrics.batchesFlushed == old(metrics.batchesFlushed) + if m.Batch? then 1 else 0
    ensures metrics != null ==>
      metrics.recorded + metrics.dropped + metrics.deduped
      == old(metrics.recorded + metrics.dropped + metrics.deduped)
         + match m case Batch(events) => |events| case Single(_) => 1 case Error(_) => 0
  {
    delivered := [];
    match m {
      case Batch(events) =>
        if metrics != null { metrics.batchesFlushed := metrics.batchesFlushed + 1; }
        delivered := HandleAll(events, watches, paths, dedup, metrics, clock);
      case Single(event) =>
        delivered := HandleAll([event], watches, paths, dedup, metrics, clock);
      case Error(_) =>
    }
    NothingLostOrCountedTwice(old(dedup.seen), dedup.window, Arrivals(EventsIn(m), clock),
      F.KeyVerdict(watches, paths));
  }

  /** The loop over the events of a message. */
  method HandleAll(events: seq<Event>, watches: seq<F.Watch>, paths: F.Paths, dedup: EventDeduplicator,
                   metrics: Metrics?, clock: seq<nat>)
    returns (delivered: seq<Event>)
    requires |clock| == |events|
    modifies dedup, metrics
    ensures var o := Process(old(dedup.seen), dedup.window, Arrivals(events, clock), F.KeyVerdict(watches, paths));
      dedup.seen == o.seen && delivered == o.delivered
      && (metrics != null ==>
            && metrics.recorded == old(metrics.recorded) + |o.delivered|
            && metrics.dropped == old(metrics.dropped) + o.dropped
            && metrics.deduped == old(metrics.deduped) + o.deduped)
    ensures metrics != null ==> metrics.batchesFlushed == old(metrics.batchesFlushed)
  {
    delivered := [];
    hide Handle, F.KeyVerdict;
    ghost var pass := F.KeyVerdict(watches, paths);
    ghost var start, arrivals := dedup.seen, Arrivals(events, clock);
    for i := 0 to |events|
      invariant var o := Process(start, dedup.window, arrivals[..i], pass);
        dedup.seen == o.seen && delivered == o.delivered
        && (metrics != null ==>
              && metrics.recorded == old(metrics.recorded) + |o.delivered|
              && metrics.dropped == old(metrics.dropped) + o.dropped
              && metrics.deduped == old(metrics.deduped) + o.deduped)
      invariant metrics != null ==> metrics.batchesFlushed == old(metrics.batchesFlushed)
    {
      assert arrivals[..i + 1] == arrivals[..i] + [arrivals[i]];
      ProcessSnoc(start, dedup.window, arrivals[..i], arrivals[i], pass);
      HandleAdds(Process(start, dedup.window, arrivals[..i], pass), dedup.window, arrivals[i], pass);
      var more := HandleEvent(events[i], watches, paths, dedup, metrics, clock[i]);
      delivered := delivered + more;
    }
    assert arrivals[..|events|] == arrivals;
  }

  /** Every arrival is delivered, dropped or deduplicated, exactly once. */
  lemma {:induction false} NothingLostOrCountedTwice(
    start: Seen, window: nat, arrivals: seq<Arrival>, pass: Key -> bool)
    ensures var o := Process(start, window, arrivals, pass); |o.delivered| + o.dropped + o.deduped == |arrivals|
  {
    if arrivals != [] {
      var n := |arrivals| - 1;
      NothingLostOrCountedTwice(start, window, arrivals[..n], pass);
      HandleAdds(Process(start, window, arrivals[..n], pass), window, arrivals[n], pass);
    }
  }

  /** What is delivered are the emissions that pass, in order; what is dropped are the emissions that do not. */
  lemma {:induction false} DeliveredAreEmissionsThatPass(
    start: Seen, window: nat, arrivals: seq<Arrival>, pass: Key -> bool)
    ensures var o, (seen, out) := Process(start, window, arrivals, pass), RunFrom(start, window, arrivals);
      o.seen == seen && o.delivered == EventsOf(Keep(out, ByKey(pass))) && |o.delivered| + o.dropped == |out|
  {
    if arrivals != [] {
      hide Step, KeyOf, Process, RunFrom, Keep, EventsOf;
      var n := |arrivals| - 1;
      var before, a := arrivals[..n], arrivals[n];
      DeliveredAreEmissionsThatPass(start, window, before, pass);
      var out := RunFrom(start, window, before).1;
      assert arrivals == before + [a];
      ProcessSnoc(start, window, before, a, pass);
      RunSnoc(start, window, before, a);
      KeepSnoc(out, a, ByKey(pass));
      EventsOfSnoc(Keep(out, ByKey(pass)), a);
    }
  }

  /**
   Over every run with a steady clock the deliveries are, in order, exactly the arrivals that repeat no emission
   of their key within the window and are wanted by the first watch that covers them; `at` lists them.
  */
  lemma DeliveredExactly(window: nat, arrivals: seq<Arrival>, watches: seq<F.Watch>, paths: F.Paths)
    returns (at: seq<nat>)
    requires Monotone(arrivals)
    ensures var delivered := Process(map[], window, arrivals, F.KeyVerdict(watches, paths)).delivered;
      |at| == |delivered| && forall k :: 0 <= k < |at| ==> at[k] < |arrivals| && delivered[k] == arrivals[at[k]].event
    ensures forall j, k :: 0 <= j < k < |at| ==> at[j] < at[k]
    ensures forall i :: 0 <= i < |arrivals| ==>
      (i in at <==> !Repeats(window, arrivals, i) && F.Wanted(watches, arrivals[i].event, paths))
  {
    hide Repeats, F.Wanted, F.KeyVerdict, F.Verdict, Emitted, Process;
    at := DeliveredAt(window, arrivals, F.KeyVerdict(watches, paths));
    forall i | 0 <= i < |arrivals|
      ensures i in at <==> !Repeats(window, arrivals, i) && F.Wanted(watches, arrivals[i].event, paths)
    {
      SuppressedIffRepeats(window, arrivals, i);
      F.VerdictOfKey(watches, arrivals[i].event, paths);
      F.FirstCoveringWatchDecides(watches, arrivals[i].event, paths);
    }
  }

  /** `delivered` are the events of the arrivals at `at`, which are the emitted ones that pass, in order. */
  ghost predicate Picks(
    at: seq<nat>, delivered: seq<Event>, window: nat, arrivals: seq<Arrival>, pass: Key -> bool)
  {
    && |at| == |delivered| && (forall j, k :: 0 <= j < k < |at| ==> at[j] < at[k])
    && (forall k :: 0 <= k < |at| ==> at[k] < |arrivals| && delivered[k] == arrivals[at[k]].event)
    && (forall i :: 0 <= i < |arrivals| ==>
          (i in at <==> Emitted(window, arrivals, i) && pass(KeyOf(arrivals[i].event))))
  }

  lemma PicksSnoc(
    at: seq<nat>, delivered: seq<Event>, window: nat, arrivals: seq<Arrival>, pass: Key -> bool, a: Arrival)
    requires Picks(at, delivered, window, arrivals, pass)
    ensures var all := arrivals + [a];
      if Emitted(window, all, |arrivals|) && pass(KeyOf(a.event))
      then Picks(at + [|arrivals|], delivered + [a.event], window, all, pass)
      else Picks(at, delivered, window, all, pass)
  {
    hide KeyOf, RunFrom, Step;
    var n, all := |arrivals|, arrivals + [a];
    forall i | 0 <= i < n ensures Emitted(window, all, i) == Emitted(window, arrivals, i) && all[i] == arrivals[i] {
      assert all[..i] == arrivals[..i];
    }
    hide Emitted;
    assert n !in at;
    assert forall i :: i in at + [n] <==> i in at || i == n;
  }

  lemma {:induction false} DeliveredAt(window: nat, arrivals: seq<Arrival>, pass: Key -> bool) returns (at: seq<nat>)
    ensures var o := Process(map[], window, arrivals, pass);
      o.seen == SeenAfter(window, arrivals) && Picks(at, o.delivered, window, arrivals, pass)
  {
    if arrivals == [] {
      at := [];
    } else {
      hide Step, KeyOf, Picks, Process, RunFrom, Emitted;
      var n := |arrivals| - 1;
      var before, a := arrivals[..n], arrivals[n];
      at := DeliveredAt(window, before, pass);
      assert arrivals == before + [a];
      PicksSnoc(at, Process(map[], window, before, pass).delivered, window, before, pass, a);
      ProcessSnoc(map[], window, before, a, pass);
      RunSnoc(map[], window, before, a);
      EmittedLast(window, before, a);
      if Emitted(window, arrivals, n) && pass(KeyOf(a.event)) {
        at := at + [n];
      }
    }
  }

  lemma EmittedLast(window: nat, arrivals: seq<Arrival>, a: Arrival)
    ensures Emitted(window, arrivals + [a], |arrivals|) ==
      Step(SeenAfter(window, arrivals), window, a.event, a.time).1
  {
    assert (arrivals + [a])[..|arrivals|] == arrivals;
  }

  lemma EventsOfSnoc(a: seq<Arrival>, x: Arrival)
    ensures EventsOf(a + [x]) == EventsOf(a) + [x.event]
  {
    assert (a + [x])[..|a|] == a;
  }

  lemma {:induction false} EventsOfConcat(a: seq<Arrival>, b: seq<Arrival>)
    ensures EventsOf(a + b) == EventsOf(a) + EventsOf(b)
  {
    if b == [] {
      assert a + b == a;
    } else {
      var n := |b| - 1;
      assert a + b == (a + b[..n]) + [b[n]] && b == b[..n] + [b[n]];
      EventsOfConcat(a, b[..n]);
      EventsOfSnoc(a + b[..n], b[n]);
    }
  }

  /**
   The shipped order (deduplicate, then filter) delivers exactly what the documented order
   (filter, then deduplicate) delivers, on every stream with a non-decreasing clock.
  */
  lemma DedupFirstIsFilterFirst(window: nat, arrivals: seq<Arrival>, watches: seq<F.Watch>, paths: F.Paths)
    requires Monotone(arrivals)
    ensures var pass := F.KeyVerdict(watches, paths);
      Process(map[], window, arrivals, pass).delivered ==
        EventsOf(RunFrom(map[], window, Keep(arrivals, ByKey(pass))).1)
  {
    var pass := F.KeyVerdict(watches, paths);
    DeliveredAreEmissionsThatPass(map[], window, arrivals, pass);
    FilterCommutes(window, arrivals, pass);
  }

  /**
   The filters are replaced at a reload while the map survives. The two orders still deliver the same, if no
   event that passes the new filters only comes less than a window after an emission of its key.
  */
  lemma SameAcrossReload(
    window: nat, first: seq<Arrival>, second: seq<Arrival>, watches: seq<F.Watch>, watches': seq<F.Watch>,
    paths: F.Paths)
    requires Monotone(first + second)
    requires forall i :: !Burdened(SeenAfter(window, first), window, second, F.KeyVerdict(watches, paths),
                                   F.KeyVerdict(watches', paths), i)
    ensures var before, pass := F.KeyVerdict(watches, paths), F.KeyVerdict(watches', paths);
      var o := Process(map[], window, first, before);
      o.delivered + Process(o.seen, window, second, pass).delivered ==
        EventsOf(RunFrom(map[], window, Keep(first, ByKey(before)) + Keep(second, ByKey(pass))).1)
  {
    hide F.KeyVerdict, Process, RunFrom, Keep, Burdened, EventsOf;
    var before, pass := F.KeyVerdict(watches, paths), F.KeyVerdict(watches', paths);
    DeliveredAreEmissionsThatPass(map[], window, first, before);
    DeliveredAreEmissionsThatPass(SeenAfter(window, first), window, second, pass);
    EventsOfConcat(Keep(RunFrom(map[], window, first).1, ByKey(before)),
                   Keep(RunFrom(SeenAfter(window, first), window, second).1, ByKey(pass)));
    FilterChange(window, first, second, before, pass);
  }
}
