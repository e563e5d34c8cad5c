/** Include/exclude/type filters, one per watch root. */
module EventFilter {
  import opened Options
  import opened Events
  import opened Dedup

  /** A compiled glob set, as the predicate it decides. */
  type Globs = string -> bool

  /** The parts of the path library a verdict needs, uninterpreted. */
  datatype Paths = Paths(startsWith: (string, string) -> bool, fileName: string -> Option<string>)

  datatype Filter = Filter(including: Option<Globs>, excluding: Option<Globs>, eventTypes: seq<EventType>)
  {
    /** `EventFilter::matches`. */
    predicate Matches(e: Event, paths: Paths)
    {
      if eventTypes != [] && e.eventType !in eventTypes then false
      else
        var name := paths.fileName(e.path);
        var filename := if name.Some? then name.value else "";
        if excluding.Some? && (excluding.value(e.path) || excluding.value(filename)) then false
        else if including.Some? && !including.value(e.path) && !including.value(filename) then false
        else true
    }
  }

  datatype Watch = Watch(root: string, filter: Filter)

  /** The pipeline's lookup: the first watch whose root is a prefix of the path decides; no watch, no objection. */
  predicate Verdict(watches: seq<Watch>, e: Event, paths: Paths)
  {
    if watches == [] then true
    else if paths.startsWith(e.path, watches[0].root) then watches[0].filter.Matches(e, paths)
    else Verdict(watches[1..], e, paths)
  }

  /** The verdict as a predicate on deduplication keys. */
  function KeyVerdict(watches: seq<Watch>, paths: Paths): Key -> bool
  {
    (k: Key) => Verdict(watches, Probe(k), paths)
  }

  /** Some event with this key. */
  function Probe(k: Key): Event
  {
    Event("", Epoch(), k.eventType, k.path, None, None, None, None, "")
  }

  /** Watch `i` is the first whose root is a prefix of the event's path. */
  ghost predicate FirstCovering(watches: seq<Watch>, e: Event, paths: Paths, i: int)
  {
    && 0 <= i < |watches| && paths.startsWith(e.path, watches[i].root)
    && forall j :: 0 <= j < i ==> !paths.startsWith(e.path, watches[j].root)
  }

  /**
   What the first covering watch asks of an event: its type is listed, unless no type is; no exclude glob takes
   its path or its file name; and some include glob takes one of the two, if there is a list. Without a covering
   watch nothing is asked.
  */
  ghost predicate Wanted(watches: seq<Watch>, e: Event, paths: Paths)
  {
    forall i :: FirstCovering(watches, e, paths, i) ==>
      var f, name := watches[i].filter, paths.fileName(e.path);
      var names := {e.path, if name.Some? then name.value else ""};
      && (f.eventTypes == [] || e.eventType in f.eventTypes)
      && (f.excluding.Some? ==> forall n :: n in names ==> !f.excluding.value(n))
      && (f.including.Some? ==> exists n :: n in names && f.including.value(n))
  }

  /** If some watch covers an event, the filter of the first one decides; otherwise nothing objects. */
  lemma {:induction false} FirstCoveringWatchDecides(watches: seq<Watch>, e: Event, paths: Paths)
    ensures Verdict(watches, e, paths) <==> Wanted(watches, e, paths)
  {
    if watches != [] {
      if paths.startsWith(e.path, watches[0].root) {
        assert FirstCovering(watches, e, paths, 0);
        assert forall i :: FirstCovering(watches, e, paths, i) ==> i == 0;
      } else {
        var rest := watches[1..];
        FirstCoveringWatchDecides(rest, e, paths);
        forall i ensures FirstCovering(watches, e, paths, i) <==> FirstCovering(rest, e, paths, i - 1) {
          CoveringShifts(watches, e, paths, i);
        }
        if i :| FirstCovering(rest, e, paths, i) { assert FirstCovering(watches, e, paths, i + 1); }
      }
    }
  }

  lemma CoveringShifts(watches: seq<Watch>, e: Event, paths: Paths, i: int)
    requires watches != [] && !paths.startsWith(e.path, watches[0].root)
    ensures FirstCovering(watches, e, paths, i) <==> FirstCovering(watches[1..], e, paths, i - 1)
  {
    var rest := watches[1..];
    assert forall j :: 0 <= j < |rest| ==> rest[j] == watches[j + 1];
    if FirstCovering(rest, e, paths, i - 1) {
      forall j | 0 <= j < i ensures !paths.startsWith(e.path, watches[j].root) {
        if j > 0 { assert rest[j - 1] == watches[j]; }
      }
    }
  }

  /** The verdict depends on the deduplication key alone. */
  lemma {:induction false} VerdictIsByKey(watches: seq<Watch>, d: Event, e: Event, paths: Paths)
    requires KeyOf(d) == KeyOf(e)
    ensures Verdict(watches, d, paths) == Verdict(watches, e, paths)
  {
    if watches != [] { VerdictIsByKey(watches[1..], d, e, paths); }
  }

  lemma VerdictOfKey(watches: seq<Watch>, e: Event, paths: Paths)
    ensures KeyVerdict(watches, paths)(KeyOf(e)) == Verdict(watches, e, paths)
  {
    VerdictIsByKey(watches, Probe(KeyOf(e)), e, paths);
  }
}
