/** Time-windowed deduplication by (path, event type). */
module Dedup {
  import opened Options
  import opened Events
  import opened Sequences

  datatype Key = Key(path: string, eventType: EventType)

  function KeyOf(e: Event): Key { Key(e.path, e.eventType) }

  /** When a key was last let through, and with which event. */
  type Seen = map<Key, (nat, Event)>

  /** `Instant::duration_since`, which saturates at zero. */
  function Elapsed(now: nat, earlier: nat): nat
  {
    if now >= earlier then now - earlier else 0
  }

  function CleanedUp(seen: Seen, window: nat, now: nat): Seen
  {
    map k | k in seen && Elapsed(now, seen[k].0) < window :: seen[k]
  }

  /** What one call of `process` does to the map, and whether it lets the event through. */
  function Step(seen: Seen, window: nat, e: Event, now: nat): (Seen, bool)
  {
    var live, k := CleanedUp(seen, window, now), KeyOf(e);
    if k in live then
      if Elapsed(now, live[k].0) < window then (live, false) else (live[k := (now, e)], true)
    else (live[k := (now, e)], true)
  }

  class EventDeduplicator {
    const window: nat
    var seen: Seen

    constructor (window: nat)
      ensures this.window == window && seen == map[]
    {
      this.window := window;
      seen := map[];
    }

    /** Some(event) if it is new, None if it is a duplicate; `now` is the clock reading. */
    method Process(event: Event, now: nat) returns (r: Option<Event>)
      modifies this
      ensures (seen, r.Some?) == Step(old(seen), window, event, now)
      ensures r.Some? ==> r.value == event
    {
      Cleanup(now);
      var key := KeyOf(event);
      r := None;
      if key in seen {
        if Elapsed(now, seen[key].0) >= window {
          // Outside the window: the cleanup has removed such entries.
          assert false;
        }
      } else {
        seen := seen[key := (now, event)];
        r := Some(event);
      }
    }

    method Cleanup(now: nat)
      modifies this
      ensures seen == CleanedUp(old(seen), window, now)
    {
      seen := map k | k in seen && Elapsed(now, seen[k].0) < window :: seen[k];
    }

    /** `process_batch`, with one clock reading per event. */
    method ProcessBatch(events: seq<Event>, clock: seq<nat>) returns (kept: seq<Event>)
      requires |clock| == |events|
      modifies this
      ensures (seen, kept) == var (s, out) := RunFrom(old(seen), window, Arrivals(events, clock)); (s, EventsOf(out))
    {
      kept := [];
      for i := 0 to |events|
        invariant seen == RunFrom(old(seen), window, Arrivals(events[..i], clock[..i])).0
        invariant kept == EventsOf(RunFrom(old(seen), window, Arrivals(events[..i], clock[..i])).1)
      {
        assert Arrivals(events[..i + 1], clock[..i + 1])[..i] == Arrivals(events[..i], clock[..i]);
        var r := Process(events[i], clock[i]);
        if r.Some? { kept := kept + [r.value]; }
      }
      assert events[..|events|] == events && clock[..|events|] == clock;
    }
  }

  // ---------------------------------------------------------------- runs

  datatype Arrival = Arrival(event: Event, time: nat)

  function Arrivals(events: seq<Event>, clock: seq<nat>): (a: seq<Arrival>)
    requires |clock| == |events|
    ensures |a| == |events| && forall i :: 0 <= i < |a| ==> a[i] == Arrival(events[i], clock[i])
  {
    seq(|events|, i requires 0 <= i < |events| => Arrival(events[i], clock[i]))
  }

  function EventsOf(a: seq<Arrival>): seq<Event>
  {
    if a == [] then [] else EventsOf(a[..|a| - 1]) + [a[|a| - 1].event]
  }

  /** The map after a run, and the arrivals that were let through. */
  function RunFrom(seen: Seen, window: nat, arrivals: seq<Arrival>): (Seen, seq<Arrival>)
  {
    if arrivals == [] then (seen, [])
    else
      var n := |arrivals| - 1;
      var (s, out) := RunFrom(seen, window, arrivals[..n]);
      var (s', new?) := Step(s, window, arrivals[n].event, arrivals[n].time);
      (s', if new? then out + [arrivals[n]] else out)
  }

  function SeenAfter(window: nat, arrivals: seq<Arrival>): Seen { RunFrom(map[], window, arrivals).0 }

  /** Whether arrival `i` is let through. It depends on earlier arrivals only. */
  predicate Emitted(window: nat, arrivals: seq<Arrival>, i: int)
    requires 0 <= i < |arrivals|
  {
    Step(SeenAfter(window, arrivals[..i]), window, arrivals[i].event, arrivals[i].time).1
  }

  ghost predicate Monotone(arrivals: seq<Arrival>)
  {
    forall i, j :: 0 <= i <= j < |arrivals| ==> arrivals[i].time <= arrivals[j].time
  }

  /** Arrival `j` was let through under key `k`. */
  ghost predicate EmittedAs(window: nat, arrivals: seq<Arrival>, j: int, k: Key)
  {
    0 <= j < |arrivals| && Emitted(window, arrivals, j) && KeyOf(arrivals[j].event) == k
  }

  lemma EmittedPrefix(window: nat, arrivals: seq<Arrival>, n: nat, j: int, k: Key)
    requires n <= |arrivals| && j < n
    ensures EmittedAs(window, arrivals[..n], j, k) <==> EmittedAs(window, arrivals, j, k)
  {
    if 0 <= j { assert arrivals[..n][..j] == arrivals[..j]; }
  }

  /** An emission under `k` that is the newest arrival, or younger than the window when the newest arrives. */
  ghost predicate Recent(window: nat, arrivals: seq<Arrival>, j: int, k: Key)
  {
    && EmittedAs(window, arrivals, j, k)
    && (j == |arrivals| - 1 || arrivals[|arrivals| - 1].time - arrivals[j].time < window)
  }

  function EntryOf(a: Arrival): (nat, Event) { (a.time, a.event) }

  /** The map after a run holds exactly the recent emissions. */
  ghost predicate SeenIsRecent(window: nat, arrivals: seq<Arrival>)
  {
    var seen := SeenAfter(window, arrivals);
    && (forall k :: k in seen ==> exists j :: Recent(window, arrivals, j, k))
    && (forall j, k :: Recent(window, arrivals, j, k) ==> k in seen && seen[k] == EntryOf(arrivals[j]))
  }

  /** Arrival `i` repeats a key that was let through less than a window earlier. */
  ghost predicate Repeats(window: nat, arrivals: seq<Arrival>, i: int)
    requires 0 <= i < |arrivals|
  {
    exists j :: 0 <= j < i && EmittedAs(window, arrivals, j, KeyOf(arrivals[i].event))
                && arrivals[i].time - arrivals[j].time < window
  }

  /** An emission before the newest arrival, and younger than the window when that one arrives. */
  ghost predicate StillLive(window: nat, arrivals: seq<Arrival>, j: int, k: Key)
  {
    0 <= j < |arrivals| - 1 && Recent(window, arrivals, j, k)
  }

  lemma {:induction false} SeenInvariant(window: nat, arrivals: seq<Arrival>)
    requires Monotone(arrivals)
    ensures SeenIsRecent(window, arrivals)
    ensures arrivals != [] ==>
      (Emitted(window, arrivals, |arrivals| - 1) <==> !Repeats(window, arrivals, |arrivals| - 1))
  {
    if arrivals != [] {
      SeenInvariant(window, arrivals[..|arrivals| - 1]);
      LiveIsRecent(window, arrivals);
      NewestArrival(window, arrivals);
    }
  }

  /** What the cleanup at the newest arrival leaves of the map before it. */
  function LiveAtNewest(window: nat, arrivals: seq<Arrival>): Seen
    requires arrivals != []
  {
    CleanedUp(SeenAfter(window, arrivals[..|arrivals| - 1]), window, arrivals[|arrivals| - 1].time)
  }

  lemma LiveIsRecent(window: nat, arrivals: seq<Arrival>)
    requires Monotone(arrivals) && arrivals != [] && SeenIsRecent(window, arrivals[..|arrivals| - 1])
    ensures LiveIsExact(window, arrivals, LiveAtNewest(window, arrivals))
  {
    hide Emitted;
    var n := |arrivals| - 1;
    var before, now := arrivals[..n], arrivals[n].time;
    var seen, live := SeenAfter(window, before), LiveAtNewest(window, arrivals);
    forall k | k in live ensures exists j :: StillLive(window, arrivals, j, k) {
      var j :| Recent(window, before, j, k);
      EmittedPrefix(window, arrivals, n, j, k);
      assert StillLive(window, arrivals, j, k);
    }
    forall j, k | StillLive(window, arrivals, j, k) ensures k in live && live[k] == EntryOf(arrivals[j]) {
      EmittedPrefix(window, arrivals, n, j, k);
      assert before[n - 1].time <= now;
      assert Recent(window, before, j, k);
    }
  }

  /** The cleaned-up map holds exactly the emissions that are still live. */
  ghost predicate LiveIsExact(window: nat, arrivals: seq<Arrival>, live: Seen)
    requires arrivals != []
  {
    && (forall k :: k in live ==> exists j :: StillLive(window, arrivals, j, k))
    && (forall j, k :: StillLive(window, arrivals, j, k) ==> k in live && live[k] == EntryOf(arrivals[j]))
  }

  lemma NewestArrival(window: nat, arrivals: seq<Arrival>)
    requires arrivals != [] && LiveIsExact(window, arrivals, LiveAtNewest(window, arrivals))
    ensures SeenIsRecent(window, arrivals)
    ensures Emitted(window, arrivals, |arrivals| - 1) <==> !Repeats(window, arrivals, |arrivals| - 1)
  {
    var n, live, seen := |arrivals| - 1, LiveAtNewest(window, arrivals), SeenAfter(window, arrivals);
    var k := KeyOf(arrivals[n].event);
    NewestStep(window, arrivals);
    hide Emitted, LiveAtNewest, SeenAfter, KeyOf, EntryOf;
    LiveIffRepeats(window, arrivals, live);
    forall k' | k' in seen ensures exists j :: Recent(window, arrivals, j, k') {
      if k' in live {
        var j :| StillLive(window, arrivals, j, k');
        assert Recent(window, arrivals, j, k');
      } else {
        assert Recent(window, arrivals, n, k');
      }
    }
    forall j, k' | Recent(window, arrivals, j, k') ensures k' in seen && seen[k'] == EntryOf(arrivals[j]) {
      RecentHasEntry(window, arrivals, live, j, k');
    }
  }

  lemma LiveIffRepeats(window: nat, arrivals: seq<Arrival>, live: Seen)
    requires arrivals != [] && LiveIsExact(window, arrivals, live)
    ensures KeyOf(arrivals[|arrivals| - 1].event) in live <==> Repeats(window, arrivals, |arrivals| - 1)
  {
    hide Emitted, KeyOf, EntryOf;
    var n := |arrivals| - 1;
    var k := KeyOf(arrivals[n].event);
    if k in live {
      var j :| StillLive(window, arrivals, j, k);
      assert EmittedAs(window, arrivals, j, k);
    }
    if Repeats(window, arrivals, n) {
      var j :| 0 <= j < n && EmittedAs(window, arrivals, j, k) && arrivals[n].time - arrivals[j].time < window;
      assert StillLive(window, arrivals, j, k);
    }
  }

  lemma RecentHasEntry(window: nat, arrivals: seq<Arrival>, live: Seen, j: int, k: Key)
    requires arrivals != [] && LiveIsExact(window, arrivals, live) && Recent(window, arrivals, j, k)
    requires var n := |arrivals| - 1; Emitted(window, arrivals, n) <==> KeyOf(arrivals[n].event) !in live
    ensures var n := |arrivals| - 1;
      var seen := if Emitted(window, arrivals, n) then live[KeyOf(arrivals[n].event) := EntryOf(arrivals[n])] else live;
      k in seen && seen[k] == EntryOf(arrivals[j])
  {
    hide Emitted, KeyOf, EntryOf;
    if j < |arrivals| - 1 { assert StillLive(window, arrivals, j, k); }
  }

  lemma NewestStep(window: nat, arrivals: seq<Arrival>)
    requires arrivals != []
    ensures var n, live := |arrivals| - 1, LiveAtNewest(window, arrivals);
      && (Emitted(window, arrivals, n) <==> KeyOf(arrivals[n].event) !in live)
      && SeenAfter(window, arrivals)
         == if Emitted(window, arrivals, n) then live[KeyOf(arrivals[n].event) := EntryOf(arrivals[n])] else live
  {
  }

  /**
   Over every run with a non-decreasing clock, an event is suppressed iff an event with its key was let
   through strictly less than `window` earlier.
  */
  lemma SuppressedIffRepeats(window: nat, arrivals: seq<Arrival>, i: nat)
    requires Monotone(arrivals) && i < |arrivals|
    ensures !Emitted(window, arrivals, i) <==> Repeats(window, arrivals, i)
  {
    hide SeenIsRecent, Repeats, SeenAfter, Step;
    var prefix := arrivals[..i + 1];
    SeenInvariant(window, prefix);
    assert prefix[..i] == arrivals[..i];
    assert Emitted(window, prefix, i) <==> Emitted(window, arrivals, i);
    RepeatsPrefix(window, arrivals, i);
  }

  lemma RepeatsPrefix(window: nat, arrivals: seq<Arrival>, i: nat)
    requires i < |arrivals|
    ensures Repeats(window, arrivals[..i + 1], i) <==> Repeats(window, arrivals, i)
  {
    hide Emitted;
    var prefix, k := arrivals[..i + 1], KeyOf(arrivals[i].event);
    forall j | 0 <= j < i ensures EmittedAs(window, prefix, j, k) <==> EmittedAs(window, arrivals, j, k) {
      EmittedPrefix(window, arrivals, i + 1, j, k);
    }
    if Repeats(window, prefix, i) {
      var j :| 0 <= j < i && EmittedAs(window, prefix, j, k) && prefix[i].time - prefix[j].time < window;
      assert EmittedAs(window, arrivals, j, k);
    }
    if Repeats(window, arrivals, i) {
      var j :| 0 <= j < i && EmittedAs(window, arrivals, j, k) && arrivals[i].time - arrivals[j].time < window;
      assert EmittedAs(window, prefix, j, k);
    }
  }

  /** Two emissions of one key are at least a window apart; what was suppressed between them does not matter. */
  lemma EmissionsAreSpaced(window: nat, arrivals: seq<Arrival>, i: nat, j: nat)
    requires Monotone(arrivals) && i < j < |arrivals|
    requires Emitted(window, arrivals, i) && Emitted(window, arrivals, j)
    requires KeyOf(arrivals[i].event) == KeyOf(arrivals[j].event)
    ensures arrivals[j].time - arrivals[i].time >= window
  {
    SuppressedIffRepeats(window, arrivals, j);
    assert EmittedAs(window, arrivals, i, KeyOf(arrivals[j].event));
  }

  /** An entry that the cleanup leaves always suppresses: the branch for one outside its window is never taken. */
  lemma OutsideWindowIsUnreachable(seen: Seen, window: nat, e: Event, now: nat)
    ensures KeyOf(e) in CleanedUp(seen, window, now) ==>
      Step(seen, window, e, now) == (CleanedUp(seen, window, now), false)
  {
  }

  // ---------------------------------------------------------------- filtering before or after

  lemma RunSnoc(seen: Seen, window: nat, arrivals: seq<Arrival>, a: Arrival)
    ensures var (s, out) := RunFrom(seen, window, arrivals);
      var (s', new?) := Step(s, window, a.event, a.time);
      RunFrom(seen, window, arrivals + [a]) == (s', if new? then out + [a] else out)
  {
    assert (arrivals + [a])[..|arrivals|] == arrivals;
  }

  function ByKey(pass: Key -> bool): Arrival -> bool
  {
    (a: Arrival) => pass(KeyOf(a.event))
  }

  /** The entry of `k` is younger than the window at time `t`. */
  predicate Live(seen: Seen, window: nat, t: nat, k: Key)
  {
    k in seen && Elapsed(t, seen[k].0) < window
  }

  /** The maps agree on `k` at time `t`. */
  predicate SameAt(f: Seen, g: Seen, window: nat, t: nat, k: Key)
  {
    (Live(f, window, t, k) <==> Live(g, window, t, k)) && (Live(f, window, t, k) ==> f[k] == g[k])
  }

  /** What one arrival changes: its own key, if it is let through, and nothing that is live otherwise. */
  lemma StepLive(seen: Seen, window: nat, a: Arrival, t: nat, k: Key)
    requires a.time <= t
    ensures var (after, out) := Step(seen, window, a.event, a.time);
      && out == !Live(seen, window, a.time, KeyOf(a.event))
      && (out && k == KeyOf(a.event) ==> k in after && after[k] == (a.time, a.event))
      && (!out || k != KeyOf(a.event) ==>
            SameAt(after, seen, window, t, k))
  {
  }

  /** A key that passes the new filters, passed the old ones too or has no entry in `base` that is live at `t`. */
  predicate Unburdened(base: Seen, window: nat, t: nat, k: Key, before: Key -> bool, pass: Key -> bool)
  {
    pass(k) && (before(k) || !Live(base, window, t, k))
  }

  /** From `now` on the two maps agree on every such key. */
  ghost predicate Agree(
    full: Seen, filtered: Seen, base: Seen, before: Key -> bool, pass: Key -> bool, window: nat, now: nat)
  {
    forall t: nat, k :: now <= t && Unburdened(base, window, t, k, before, pass) ==>
      SameAt(full, filtered, window, t, k)
  }

  lemma AgreeStep(full: Seen, filtered: Seen, base: Seen, before: Key -> bool, pass: Key -> bool, window: nat,
                  now: nat, a: Arrival)
    requires now <= a.time && Agree(full, filtered, base, before, pass, window, now)
    requires pass(KeyOf(a.event)) ==> Unburdened(base, window, a.time, KeyOf(a.event), before, pass)
    ensures var (f, out) := Step(full, window, a.event, a.time);
      var (g, out') := Step(filtered, window, a.event, a.time);
      && (!pass(KeyOf(a.event)) ==> Agree(f, filtered, base, before, pass, window, a.time))
      && (pass(KeyOf(a.event)) ==> out == out' && Agree(f, g, base, before, pass, window, a.time))
  {
    hide Step, Live, KeyOf;
    var key := KeyOf(a.event);
    var (f, out) := Step(full, window, a.event, a.time);
    var (g, out') := Step(filtered, window, a.event, a.time);
    StepLive(full, window, a, a.time, key);
    StepLive(filtered, window, a, a.time, key);
    forall t: nat, k | a.time <= t && Unburdened(base, window, t, k, before, pass)
      ensures !pass(key) ==> SameAt(f, filtered, window, t, k)
      ensures pass(key) ==> SameAt(f, g, window, t, k)
    {
      StepLive(full, window, a, t, k);
      StepLive(filtered, window, a, t, k);
      if pass(key) && out && k == key {
        SameEntry(f, g, window, t, k);
      }
    }
  }

  lemma SameEntry(f: Seen, g: Seen, window: nat, t: nat, k: Key)
    requires k in f && k in g && f[k] == g[k]
    ensures SameAt(f, g, window, t, k)
  {
  }

  /** Arrival `i` passes the new filters only, and `base` holds its key from less than a window before it. */
  predicate Burdened(base: Seen, window: nat, arrivals: seq<Arrival>, before: Key -> bool, pass: Key -> bool, i: nat)
  {
    && i < |arrivals|
    && var k := KeyOf(arrivals[i].event);
    && pass(k) && !before(k) && Live(base, window, arrivals[i].time, k)
  }

  /** Two runs from maps that agree let the same arrivals through, as long as none is burdened. */
  lemma {:induction false} AgreeRun(
    full: Seen, filtered: Seen, base: Seen, before: Key -> bool, pass: Key -> bool, window: nat, now: nat,
    arrivals: seq<Arrival>)
    requires Agree(full, filtered, base, before, pass, window, now)
    requires Monotone(arrivals) && (arrivals != [] ==> now <= arrivals[0].time)
    requires forall i :: !Burdened(base, window, arrivals, before, pass, i)
    ensures Keep(RunFrom(full, window, arrivals).1, ByKey(pass)) ==
      RunFrom(filtered, window, Keep(arrivals, ByKey(pass))).1
    ensures Agree(RunFrom(full, window, arrivals).0, RunFrom(filtered, window, Keep(arrivals, ByKey(pass))).0,
                  base, before, pass, window, if arrivals == [] then now else arrivals[|arrivals| - 1].time)
  {
    hide RunFrom, Keep, Agree, Live, Burdened, Unburdened;
    if arrivals == [] {
      NothingRun(full, window, pass);
      NothingRun(filtered, window, pass);
    } else {
      var n := |arrivals| - 1;
      var prefix, a := arrivals[..n], arrivals[n];
      NoneBurdened(base, window, arrivals, before, pass);
      AgreeRun(full, filtered, base, before, pass, window, now, prefix);
      var time := if prefix == [] then now else prefix[n - 1].time;
      AgreeSnoc(full, filtered, base, before, pass, window, time, prefix, a);
      assert arrivals == prefix + [a];
    }
  }

  lemma NothingRun(seen: Seen, window: nat, pass: Key -> bool)
    ensures Keep([], ByKey(pass)) == [] && RunFrom(seen, window, []) == (seen, [])
  {
  }

  lemma NoneBurdened(base: Seen, window: nat, arrivals: seq<Arrival>, before: Key -> bool, pass: Key -> bool)
    requires arrivals != [] && forall i :: !Burdened(base, window, arrivals, before, pass, i)
    ensures var n := |arrivals| - 1;
      && (forall i :: !Burdened(base, window, arrivals[..n], before, pass, i))
      && var k := KeyOf(arrivals[n].event);
      && (pass(k) ==> Unburdened(base, window, arrivals[n].time, k, before, pass))
  {
    hide Live, KeyOf;
    var n := |arrivals| - 1;
    assert !Burdened(base, window, arrivals, before, pass, n);
    forall i ensures !Burdened(base, window, arrivals[..n], before, pass, i) {
      assert !Burdened(base, window, arrivals, before, pass, i);
    }
  }

  lemma AgreeSnoc(
    full: Seen, filtered: Seen, base: Seen, before: Key -> bool, pass: Key -> bool, window: nat, now: nat,
    arrivals: seq<Arrival>, a: Arrival)
    requires now <= a.time
    requires Agree(RunFrom(full, window, arrivals).0, RunFrom(filtered, window, Keep(arrivals, ByKey(pass))).0,
                   base, before, pass, window, now)
    requires Keep(RunFrom(full, window, arrivals).1, ByKey(pass)) ==
      RunFrom(filtered, window, Keep(arrivals, ByKey(pass))).1
    requires pass(KeyOf(a.event)) ==> Unburdened(base, window, a.time, KeyOf(a.event), before, pass)
    ensures var after := arrivals + [a];
      && Agree(RunFrom(full, window, after).0, RunFrom(filtered, window, Keep(after, ByKey(pass))).0,
               base, before, pass, window, a.time)
      && Keep(RunFrom(full, window, after).1, ByKey(pass)) == RunFrom(filtered, window, Keep(after, ByKey(pass))).1
  {
    hide Step, Agree, Keep, RunFrom, Unburdened;
    var (f, out) := RunFrom(full, window, arrivals);
    var kept := Keep(arrivals, ByKey(pass));
    AgreeStep(f, RunFrom(filtered, window, kept).0, base, before, pass, window, now, a);
    KeepSnoc(arrivals, a, ByKey(pass));
    RunSnoc(full, window, arrivals, a);
    RunSnoc(filtered, window, kept, a);
    KeepSnoc(out, a, ByKey(pass));
  }

  /**
   With one filter throughout, deduplicating everything and then filtering lets the same arrivals through, in
   the same order, as filtering first.
  */
  lemma FilterCommutes(window: nat, arrivals: seq<Arrival>, pass: Key -> bool)
    requires Monotone(arrivals)
    ensures Keep(RunFrom(map[], window, arrivals).1, ByKey(pass)) ==
      RunFrom(map[], window, Keep(arrivals, ByKey(pass))).1
    ensures Agree(SeenAfter(window, arrivals), SeenAfter(window, Keep(arrivals, ByKey(pass))), map[], pass, pass,
                  window, if arrivals == [] then 0 else arrivals[|arrivals| - 1].time)
  {
    AgreeRun(map[], map[], map[], pass, pass, window, 0, arrivals);
  }

  lemma {:induction false} RunKeys(seen: Seen, window: nat, arrivals: seq<Arrival>, k: Key)
    requires k in RunFrom(seen, window, arrivals).0 && k !in seen
    ensures exists a :: a in arrivals && KeyOf(a.event) == k
  {
    if arrivals != [] {
      var n := |arrivals| - 1;
      if k in RunFrom(seen, window, arrivals[..n]).0 {
        RunKeys(seen, window, arrivals[..n], k);
      } else {
        assert KeyOf(arrivals[n].event) == k;
      }
    }
  }

  lemma FilteredKeysPass(window: nat, arrivals: seq<Arrival>, pass: Key -> bool)
    ensures forall k :: k in SeenAfter(window, Keep(arrivals, ByKey(pass))) ==> pass(k)
  {
    hide Keep, RunFrom, KeyOf;
    var kept := Keep(arrivals, ByKey(pass));
    KeepContents(arrivals, ByKey(pass));
    forall k | k in SeenAfter(window, kept) ensures pass(k) {
      RunKeys(map[], window, kept, k);
    }
  }

  /** From the last reading on, cleaning up makes the filtered map the restriction of the full one. */
  lemma FilteredMapIsRestriction(window: nat, arrivals: seq<Arrival>, pass: Key -> bool, t: nat)
    requires Monotone(arrivals) && (arrivals != [] ==> arrivals[|arrivals| - 1].time <= t)
    ensures CleanedUp(SeenAfter(window, Keep(arrivals, ByKey(pass))), window, t)
            == map k | k in CleanedUp(SeenAfter(window, arrivals), window, t) && pass(k) ::
              SeenAfter(window, arrivals)[k]
  {
    hide Keep, RunFrom, SeenAfter;
    FilterCommutes(window, arrivals, pass);
    FilteredKeysPass(window, arrivals, pass);
    var full, filtered := SeenAfter(window, arrivals), SeenAfter(window, Keep(arrivals, ByKey(pass)));
    forall k | pass(k) ensures SameAt(full, filtered, window, t, k) {
      assert Unburdened(map[], window, t, k, pass, pass);
    }
  }

  // ---------------------------------------------------------------- filters that change

  lemma {:induction false} RunConcat(seen: Seen, window: nat, first: seq<Arrival>, second: seq<Arrival>)
    ensures var (s, out) := RunFrom(seen, window, first);
      var (s', out') := RunFrom(s, window, second);
      RunFrom(seen, window, first + second) == (s', out + out')
  {
    if second == [] {
      assert first + second == first;
      assert RunFrom(seen, window, first).1 + [] == RunFrom(seen, window, first).1;
    } else {
      var n := |second| - 1;
      assert first + second == (first + second[..n]) + [second[n]] && second == second[..n] + [second[n]];
      RunConcat(seen, window, first, second[..n]);
      hide RunFrom, Step;
      var (s, out) := RunFrom(seen, window, first);
      var out' := RunFrom(s, window, second[..n]).1;
      assert out + (out' + [second[n]]) == out + out' + [second[n]];
      RunSnoc(seen, window, first + second[..n], second[n]);
      RunSnoc(s, window, second[..n], second[n]);
    }
  }

  /** While an entry is live nothing replaces it. */
  lemma {:induction false} LiveEntryStays(base: Seen, window: nat, arrivals: seq<Arrival>, t: nat, k: Key)
    requires Monotone(arrivals) && (arrivals != [] ==> arrivals[|arrivals| - 1].time <= t) && Live(base, window, t, k)
    ensures var s := RunFrom(base, window, arrivals).0; k in s && s[k] == base[k]
  {
    if arrivals != [] {
      var n := |arrivals| - 1;
      LiveEntryStays(base, window, arrivals[..n], t, k);
      var s := RunFrom(base, window, arrivals[..n]).0;
      LiveEarlier(base, window, arrivals[n].time, t, k);
      hide Step, KeyOf;
      StepLive(s, window, arrivals[n], arrivals[n].time, k);
    }
  }

  lemma LiveEarlier(seen: Seen, window: nat, t: nat, t': nat, k: Key)
    requires t <= t' && Live(seen, window, t', k)
    ensures Live(seen, window, t, k)
  {
  }

  lemma {:induction false} FirstBurdened(
    base: Seen, window: nat, arrivals: seq<Arrival>, before: Key -> bool, pass: Key -> bool, i: nat) returns (m: nat)
    requires Burdened(base, window, arrivals, before, pass, i)
    ensures Burdened(base, window, arrivals, before, pass, m)
    ensures forall j: nat :: j < m ==> !Burdened(base, window, arrivals, before, pass, j)
    decreases i
  {
    m := i;
    if j: nat :| j < i && Burdened(base, window, arrivals, before, pass, j) {
      m := FirstBurdened(base, window, arrivals, before, pass, j);
    }
  }

  /** So what is let through had no live entry. */
  lemma {:induction false} EmittedAreFree(base: Seen, window: nat, arrivals: seq<Arrival>)
    requires Monotone(arrivals)
    ensures forall a :: a in RunFrom(base, window, arrivals).1 ==> !Live(base, window, a.time, KeyOf(a.event))
  {
    hide Step, KeyOf;
    if arrivals != [] {
      var n := |arrivals| - 1;
      EmittedAreFree(base, window, arrivals[..n]);
      var s, t, k := RunFrom(base, window, arrivals[..n]).0, arrivals[n].time, KeyOf(arrivals[n].event);
      StepLive(s, window, arrivals[n], t, k);
      if Live(base, window, t, k) {
        LiveEntryStays(base, window, arrivals[..n], t, k);
      }
    }
  }

  lemma BurdenedMeans(
    base: Seen, window: nat, arrivals: seq<Arrival>, before: Key -> bool, pass: Key -> bool, i: nat)
    requires Burdened(base, window, arrivals, before, pass, i)
    ensures i < |arrivals|
    ensures var k := KeyOf(arrivals[i].event); pass(k) && !before(k) && Live(base, window, arrivals[i].time, k)
  {
  }

  lemma RepeatIsBurdened(
    base: Seen, window: nat, arrivals: seq<Arrival>, before: Key -> bool, pass: Key -> bool, j: nat, i: nat)
    requires Monotone(arrivals) && Burdened(base, window, arrivals, before, pass, i) && j < i
    requires KeyOf(arrivals[j].event) == KeyOf(arrivals[i].event)
    ensures Burdened(base, window, arrivals, before, pass, j)
  {
    LiveEarlier(base, window, arrivals[j].time, arrivals[i].time, KeyOf(arrivals[i].event));
  }

  /** The first burdened arrival is let through by what has seen only what passed. */
  lemma FirstIsLetThrough(
    base: Seen, filtered: Seen, window: nat, arrivals: seq<Arrival>, before: Key -> bool, pass: Key -> bool, m: nat)
    requires Monotone(arrivals) && Burdened(base, window, arrivals, before, pass, m)
    requires forall j: nat :: j < m ==> !Burdened(base, window, arrivals, before, pass, j)
    requires forall k :: k in filtered ==> before(k)
    ensures arrivals[m] in RunFrom(filtered, window, Keep(arrivals, ByKey(pass))).1
  {
    hide Step, Keep, RunFrom, Live, KeyOf, Burdened;
    BurdenedMeans(base, window, arrivals, before, pass, m);
    var prefix, a, rest := arrivals[..m], arrivals[m], arrivals[m + 1..];
    var kept := Keep(prefix, ByKey(pass));
    var s := RunFrom(filtered, window, kept).0;
    if KeyOf(a.event) in s {
      RunKeys(filtered, window, kept, KeyOf(a.event));
      var b :| b in kept && KeyOf(b.event) == KeyOf(a.event);
      KeepContents(prefix, ByKey(pass));
      var j :| 0 <= j < m && prefix[j] == b;
      RepeatIsBurdened(base, window, arrivals, before, pass, j, m);
    }
    LiveIsKnown(s, window, a.time, KeyOf(a.event));
    StepLive(s, window, a, a.time, KeyOf(a.event));
    assert arrivals == (prefix + [a]) + rest;
    KeepSnoc(prefix, a, ByKey(pass));
    KeepConcat(prefix + [a], rest, ByKey(pass));
    RunSnoc(filtered, window, kept, a);
    RunConcat(filtered, window, kept + [a], Keep(rest, ByKey(pass)));
  }

  lemma LiveIsKnown(seen: Seen, window: nat, t: nat, k: Key)
    ensures Live(seen, window, t, k) ==> k in seen
  {
  }

  lemma AgreeUnderNewFilters(
    base: Seen, filtered: Seen, before: Key -> bool, pass: Key -> bool, window: nat, now: nat)
    requires Agree(base, filtered, map[], before, before, window, now) && forall k :: k in filtered ==> before(k)
    ensures Agree(base, filtered, base, before, pass, window, now)
  {
    forall t: nat, k | now <= t && Unburdened(base, window, t, k, before, pass)
      ensures SameAt(base, filtered, window, t, k)
    {
      if before(k) {
        assert Unburdened(map[], window, t, k, before, before);
      }
    }
  }

  /**
   Filters that change at a reload while the map survives. Filtering behind the deduplication lets the same
   arrivals through as filtering in front of it if and only if no later arrival passes the new filters only
   while an emission of its key, which the old filters dropped, is younger than the window.
  */
  lemma FilterChange(
    window: nat, first: seq<Arrival>, second: seq<Arrival>, before: Key -> bool, pass: Key -> bool)
    requires Monotone(first + second)
    ensures var base := SeenAfter(window, first);
      Keep(RunFrom(map[], window, first).1, ByKey(before)) + Keep(RunFrom(base, window, second).1, ByKey(pass))
        == RunFrom(map[], window, Keep(first, ByKey(before)) + Keep(second, ByKey(pass))).1
      <==> forall i :: !Burdened(base, window, second, before, pass, i)
  {
    hide Keep, RunFrom, Step, Agree, Burdened;
    TwoParts(first, second);
    FilterCommutes(window, first, before);
    FilteredKeysPass(window, first, before);
    var kept, later := Keep(first, ByKey(before)), Keep(second, ByKey(pass));
    var base, filtered := SeenAfter(window, first), SeenAfter(window, kept);
    RunConcat(map[], window, kept, later);
    SamePrefix(RunFrom(map[], window, kept).1, Keep(RunFrom(base, window, second).1, ByKey(pass)),
               RunFrom(filtered, window, later).1);
    var now := if first == [] then 0 else first[|first| - 1].time;
    AfterChange(base, filtered, window, second, before, pass, now);
  }

  lemma TwoParts(first: seq<Arrival>, second: seq<Arrival>)
    requires Monotone(first + second)
    ensures Monotone(first) && Monotone(second)
    ensures first != [] && second != [] ==> first[|first| - 1].time <= second[0].time
  {
    var n, all := |first|, first + second;
    assert forall i :: 0 <= i < n ==> all[i] == first[i];
    assert forall i :: 0 <= i < |second| ==> all[n + i] == second[i];
  }

  /** From maps that agree under the old filters. */
  lemma AfterChange(
    base: Seen, filtered: Seen, window: nat, arrivals: seq<Arrival>, before: Key -> bool, pass: Key -> bool, now: nat)
    requires Agree(base, filtered, map[], before, before, window, now) && forall k :: k in filtered ==> before(k)
    requires Monotone(arrivals) && (arrivals != [] ==> now <= arrivals[0].time)
    ensures Keep(RunFrom(base, window, arrivals).1, ByKey(pass)) ==
        RunFrom(filtered, window, Keep(arrivals, ByKey(pass))).1
      <==> forall i :: !Burdened(base, window, arrivals, before, pass, i)
  {
    hide Keep, RunFrom, Step, Agree, Burdened, Live;
    if i: nat :| Burdened(base, window, arrivals, before, pass, i) {
      var m := FirstBurdened(base, window, arrivals, before, pass, i);
      BurdenedMeans(base, window, arrivals, before, pass, m);
      FirstIsLetThrough(base, filtered, window, arrivals, before, pass, m);
      EmittedAreFree(base, window, arrivals);
      KeepContents(RunFrom(base, window, arrivals).1, ByKey(pass));
    } else {
      AgreeUnderNewFilters(base, filtered, before, pass, window, now);
      AgreeRun(base, filtered, base, before, pass, window, now, arrivals);
    }
  }

  /** A repeat of what the old filters dropped: the new filters would deliver it, and it is suppressed. */
  lemma ChangeLosesRepeat(window: nat, a: Arrival, b: Arrival, before: Key -> bool, pass: Key -> bool)
    requires KeyOf(a.event) == KeyOf(b.event) && !before(KeyOf(a.event)) && pass(KeyOf(b.event))
    requires a.time <= b.time < a.time + window
    ensures Keep(RunFrom(map[], window, [a]).1, ByKey(before)) == []
    ensures Keep(RunFrom(SeenAfter(window, [a]), window, [b]).1, ByKey(pass)) == []
    ensures RunFrom(map[], window, Keep([a], ByKey(before)) + Keep([b], ByKey(pass))).1 == [b]
  {
    hide KeyOf;
    var s := SeenAfter(window, [a]);
    OneArrival(map[], window, a, before);
    OneArrival(s, window, b, pass);
    OneArrival(map[], window, b, pass);
    assert RunFrom(map[], window, [a]).1 == [a] && RunFrom(s, window, [b]).1 == [];
    assert [] + [b] == [b];
  }

  lemma OneArrival(seen: Seen, window: nat, a: Arrival, pass: Key -> bool)
    ensures RunFrom(seen, window, [a]) ==
      var (s, out) := Step(seen, window, a.event, a.time); (s, if out then [a] else [])
    ensures Keep([], ByKey(pass)) == []
    ensures Keep([a], ByKey(pass)) == if pass(KeyOf(a.event)) then [a] else []
  {
    assert [a][..0] == [] && [a] == [] + [a];
    RunSnoc(seen, window, [], a);
    KeepSnoc([], a, ByKey(pass));
  }
}
