/** The database worker: a table of text rows driven by a stream of commands. */
module StoreWorker {
  import opened Options
  import opened TimestampText
  import opened Sql
  import opened WhereClause
  import opened Events
  import opened Sequences
  import opened EventStore

  type BucketWidth = n: int | n > 0 witness 60

  datatype Command =
    | Insert(event: Event)
    | InsertBatch(batch: seq<Event>)
    | Query(limit: nat, offset: nat, filter: Filter)
    | Count
    | CountFiltered(counted: Filter)
    | PurgeBefore(before: Utc)
    | TimeSeries(after: Utc, bucketSecs: BucketWidth)

  datatype Response = Stored(ok: bool) | Listing(events: seq<Event>) | Number(count: nat) | Buckets(points: seq<Point>)

  // ---------------------------------------------------------------- the simple list

  predicate HasId(events: seq<Event>, id: string)
  {
    exists i :: 0 <= i < |events| && events[i].id == id
  }

  predicate UniqueIds(events: seq<Event>)
  {
    forall i, j :: 0 <= i < j < |events| ==> events[i].id != events[j].id
  }

  function NotBefore(t: Utc): Event -> bool
  {
    (e: Event) => EpochNanos(e.timestamp) >= EpochNanos(t)
  }

  /** Every matching event, newest first. */
  function AllAnswers(events: seq<Event>, f: Filter, order: seq<Event> -> seq<Event>): seq<Event>
  {
    order(Matching(events, f))
  }

  /** What each command means for a plain list of events; times are compared as times. */
  function Step(events: seq<Event>, c: Command, order: seq<Event> -> seq<Event>): (seq<Event>, Response)
  {
    match c
    case Insert(e) => if HasId(events, e.id) then (events, Stored(false)) else (events + [e], Stored(true))
    case InsertBatch(batch) =>
      if UniqueIds(events + batch) then (events + batch, Stored(true)) else (events, Stored(false))
    case Query(limit, offset, f) =>
      (events, Listing(SqlPage(AllAnswers(events, f, order), AsI64(limit), AsI64(offset))))
    case Count => (events, Number(|events|))
    case CountFiltered(f) => (events, Number(|Matching(events, f)|))
    case PurgeBefore(t) => (Keep(events, NotBefore(t)), Number(Expired(events, t)))
    case TimeSeries(t, width) => (events, Buckets(Series(events, t, width)))
  }

  function Expired(events: seq<Event>, t: Utc): nat
  {
    |Keep(events, (e: Event) => EpochNanos(e.timestamp) < EpochNanos(t))|
  }

  function Run(events: seq<Event>, commands: seq<Command>, order: seq<Event> -> seq<Event>): (seq<Event>, seq<Response>)
  {
    if commands == [] then (events, [])
    else
      var n := |commands| - 1;
      var (before, responses) := Run(events, commands[..n], order);
      var (after, response) := Step(before, commands[n], order);
      (after, responses + [response])
  }

  // ---------------------------------------------------------------- statements

  method FindKey(table: seq<Row>, id: string) returns (found: bool)
    ensures found <==> exists i :: 0 <= i < |table| && table[i].id == id
  {
    found := false;
    for i := 0 to |table|
      invariant found <==> exists j :: 0 <= j < i && table[j].id == id
    {
      if table[i].id == id { found := true; }
    }
  }

  /** The `WHERE` part of a statement. */
  method SelectRows(table: seq<Row>, f: Filter) returns (selected: seq<Row>)
    ensures selected == Selected(table, f)
  {
    var clause, params := BuildWhereClause(f);
    selected := [];
    for i := 0 to |table|
      invariant selected == Keep(table[..i], Selects(f))
    {
      assert table[..i + 1][..i] == table[..i];
      var kept := Eval(clause, params, table[i]) == Some(True);
      assert kept == Selects(f)(table[i]);
      if kept { selected := selected + [table[i]]; }
    }
    assert table[..|table|] == table;
  }

  /** The `row_to_event` loop: the first unreadable row fails the query. */
  method ReadRows(listed: seq<Row>) returns (events: Option<seq<Event>>)
    ensures events.None? ==> exists i :: 0 <= i < |listed| && RowToEvent(listed[i]).None?
    ensures events.Some? ==> events.value == Map(listed, Readable)
  {
    var result := [];
    for i := 0 to |listed|
      invariant result == Map(listed[..i], Readable)
    {
      assert listed[..i + 1][..i] == listed[..i];
      var e := RowToEvent(listed[i]);
      if e.None? { return None; }
      result := result + [e.value];
    }
    assert listed[..|listed|] == listed;
    return Some(result);
  }

  function AtLeast(bound: string): Row -> bool
  {
    (row: Row) => !TextLess(row.timestamp, bound)
  }

  /** `DELETE … WHERE timestamp < ?1`: one comparison of texts per row. */
  method DeleteBefore(table: seq<Row>, cutoff: string) returns (kept: seq<Row>, deleted: nat)
    ensures kept == Keep(table, AtLeast(cutoff))
    ensures |kept| + deleted == |table|
  {
    kept, deleted := [], 0;
    for i := 0 to |table|
      invariant kept == Keep(table[..i], AtLeast(cutoff)) && |kept| + deleted == i
    {
      assert table[..i + 1][..i] == table[..i];
      if TextLess(table[i].timestamp, cutoff) {
        deleted := deleted + 1;
      } else {
        kept := kept + [table[i]];
      }
    }
    assert table[..|table|] == table;
  }

  /** The grouping query on rows: the bucket is computed from the timestamp's text. */
  function RowSeries(table: seq<Row>, bound: string, width: BucketWidth): seq<Point>
  {
    if table == [] then []
    else
      var n := |table| - 1;
      var points := RowSeries(table[..n], bound, width);
      var t := ParseRfc3339(table[n].timestamp);
      if !TextLess(table[n].timestamp, bound) && t.Some? then
        Tally(points, TruncDiv(EpochSeconds(t.value), width) * width)
      else points
  }

  method GroupByBucket(table: seq<Row>, bound: string, width: BucketWidth) returns (points: seq<Point>)
    ensures points == RowSeries(table, bound, width)
  {
    points := [];
    for i := 0 to |table|
      invariant points == RowSeries(table[..i], bound, width)
    {
      assert table[..i + 1][..i] == table[..i];
      if !TextLess(table[i].timestamp, bound) {
        var t := ParseRfc3339(table[i].timestamp);
        if t.Some? { points := Tally(points, TruncDiv(EpochSeconds(t.value), width) * width); }
      }
    }
    assert table[..|table|] == table;
  }

  /** Comparing texts with the cutoff's text keeps the events at or after the cutoff. */
  lemma CutoffIsTime(events: seq<Event>, t: Utc)
    ensures Keep(RowsOf(events), AtLeast(Rfc3339(t))) == RowsOf(Keep(events, NotBefore(t)))
  {
    var p, q := AtLeast(Rfc3339(t)), NotBefore(t);
    forall e: Event ensures p(RowOf(e)) <==> q(e) { TextOrderIsTimeOrder(e.timestamp, t); }
    hide Rfc3339;
    KeepMap(events, RowOf, p, q);
  }

  /** Grouping the rows by text gives the series of the events by time. */
  lemma {:induction false} RowSeriesIsSeries(events: seq<Event>, after: Utc, width: BucketWidth)
    ensures RowSeries(RowsOf(events), Rfc3339(after), width) == Series(events, after, width)
  {
    hide Rfc3339, ParseRfc3339, EpochSeconds, EpochNanos;
    if events != [] {
      var n := |events| - 1;
      RowSeriesIsSeries(events[..n], after, width);
      MapAt(events, RowOf, n);
      assert RowsOf(events)[..n] == RowsOf(events[..n]);
      assert RowsOf(events)[n].timestamp == Rfc3339(events[n].timestamp);
      TextOrderIsTimeOrder(events[n].timestamp, after);
      TimestampRoundTrip(events[n].timestamp);
    }
  }

  // ---------------------------------------------------------------- the table

  /** SQLite's table and the functions that run statements on it. */
  class Table {
    var rows: seq<Row>
    ghost var events: seq<Event>

    /** The text rows are the image of a list of events with distinct primary keys. */
    ghost predicate Valid()
      reads this
    {
      rows == RowsOf(events) && UniqueIds(events)
    }

    constructor ()
      ensures Valid() && events == []
    {
      rows, events := [], [];
    }

    /** `do_insert`. The primary key rejects an id that is already stored. */
    method DoInsert(event: Event) returns (ok: bool)
      requires Valid()
      modifies this
      ensures Valid()
      ensures ok <==> !HasId(old(events), event.id)
      ensures events == if ok then old(events) + [event] else old(events)
    {
      hide Rfc3339;
      var found := FindKey(rows, event.id);
      ok := !found;
      FoundKeyIsId(rows, events, event.id);
      if ok {
        RowsOfSnoc(events, event);
        rows := rows + [RowOf(event)];
        events := events + [event];
      }
    }

    /** `do_insert_batch`: the first failure leaves the transaction uncommitted. */
    method DoInsertBatch(batch: seq<Event>) returns (ok: bool)
      requires Valid()
      modifies this
      ensures Valid()
      ensures ok <==> UniqueIds(old(events) + batch)
      ensures events == if ok then old(events) + batch else old(events)
    {
      hide RowsOf, UniqueIds, HasId, Rfc3339;
      var savedRows := rows;
      ghost var saved := events;
      for i := 0 to |batch|
        invariant Valid() && events == saved + batch[..i]
      {
        Snoc(saved, batch, i);
        var inserted := DoInsert(batch[i]);
        if !inserted {
          ClashRemains(saved, batch, i);
          rows, events := savedRows, saved;
          return false;
        }
      }
      assert batch[..|batch|] == batch;
      return true;
    }

    /** `do_query`, with the engine's arrangement of the selected rows. */
    method DoQuery(
        limit: nat, offset: nat, f: Filter, arrange: seq<Row> -> seq<Row>, ghost order: seq<Event> -> seq<Event>)
      returns (answer: Option<seq<Event>>)
      requires Valid() && Follows(arrange, order)
      ensures answer == Some(SqlPage(AllAnswers(events, f, order), AsI64(limit), AsI64(offset)))
    {
      var selected := SelectRows(rows, f);
      var listed := SqlPage(arrange(selected), AsI64(limit), AsI64(offset));
      answer := ReadRows(listed);
      QueryAnswers(events, f, arrange, order);
      ListedIsReadable(AllAnswers(events, f, order), AsI64(limit), AsI64(offset));
    }

    method DoCount() returns (count: nat)
      requires Valid()
      ensures count == |events|
    {
      count := |rows|;
    }

    /** `do_count_filtered`. */
    method DoCountFiltered(f: Filter) returns (count: nat)
      requires Valid()
      ensures count == |Matching(events, f)|
    {
      var selected := SelectRows(rows, f);
      SelectedAreMatching(events, f);
      count := |selected|;
    }

    /** `do_purge_before`. */
    method DoPurgeBefore(before: Utc) returns (deleted: nat)
      requires Valid()
      modifies this
      ensures Valid()
      ensures events == Keep(old(events), NotBefore(before)) && deleted == Expired(old(events), before)
    {
      hide Rfc3339;
      KeepIsUnique(events, NotBefore(before));
      CutoffIsTime(events, before);
      PurgeIsExact(events, before);
      rows, deleted := DeleteBefore(rows, Rfc3339(before));
      events := Keep(events, NotBefore(before));
    }

    /** `do_time_series`. */
    method DoTimeSeries(after: Utc, width: BucketWidth) returns (points: seq<Point>)
      requires Valid()
      ensures points == Series(events, after, width)
    {
      hide Rfc3339;
      points := GroupByBucket(rows, Rfc3339(after), width);
      RowSeriesIsSeries(events, after, width);
    }

    /** The command loop of `run_worker`: on text rows it does what the commands mean for the events. */
    method RunWorker(commands: seq<Command>, arrange: seq<Row> -> seq<Row>, ghost order: seq<Event> -> seq<Event>)
      returns (responses: seq<Response>, ghost tables: seq<seq<Event>>)
      requires Valid() && Follows(arrange, order)
      modifies this
      ensures Valid()
      ensures (events, responses) == Run(old(events), commands, order)
      ensures Answered(tables, commands, responses, order) && tables[0] == old(events) && tables[|commands|] == events
    {
      hide Step, RowsOf, UniqueIds, Follows, Answers;
      responses, tables := [], [events];
      for i := 0 to |commands|
        invariant Valid()
        invariant (events, responses) == Run(old(events), commands[..i], order)
        invariant Answered(tables, commands[..i], responses, order) && tables[0] == old(events) && tables[i] == events
      {
        assert commands[..i + 1][..i] == commands[..i];
        StepAnswers(events, commands[i], order);
        var response := Execute(commands[i], arrange, order);
        responses, tables := responses + [response], tables + [events];
      }
      assert commands[..|commands|] == commands;
    }

    method Execute(command: Command, arrange: seq<Row> -> seq<Row>, ghost order: seq<Event> -> seq<Event>)
      returns (response: Response)
      requires Valid() && Follows(arrange, order)
      modifies this
      ensures Valid()
      ensures (events, response) == Step(old(events), command, order)
    {
      hide RowsOf, UniqueIds, HasId, AllAnswers, SqlPage, Matching, Keep, Expired, Series, Follows, Rfc3339;
      match command
      case Insert(event) => var ok := DoInsert(event); response := Stored(ok);
      case InsertBatch(batch) => var ok := DoInsertBatch(batch); response := Stored(ok);
      case Query(limit, offset, f) =>
        var answer := DoQuery(limit, offset, f, arrange, order);
        response := Listing(answer.value);
      case Count => var n := DoCount(); response := Number(n);
      case CountFiltered(f) => var n := DoCountFiltered(f); response := Number(n);
      case PurgeBefore(t) => var n := DoPurgeBefore(t); response := Number(n);
      case TimeSeries(t, width) => var points := DoTimeSeries(t, width); response := Buckets(points);
    }
  }

  lemma FoundKeyIsId(table: seq<Row>, events: seq<Event>, id: string)
    requires table == RowsOf(events)
    ensures (exists i :: 0 <= i < |table| && table[i].id == id) <==> HasId(events, id)
  {
    MapAll(events, RowOf);
    if i :| 0 <= i < |table| && table[i].id == id { assert events[i].id == id; }
    if i :| 0 <= i < |events| && events[i].id == id { assert table[i].id == id; }
  }

  lemma Snoc(saved: seq<Event>, batch: seq<Event>, i: nat)
    requires i < |batch|
    ensures saved + batch[..i + 1] == saved + batch[..i] + [batch[i]]
  {
  }

  /** A stretch of the rows of some events is readable, and reads as that stretch of the events. */
  lemma ListedIsReadable(answers: seq<Event>, limit: int, offset: int)
    ensures var listed := SqlPage(RowsOf(answers), limit, offset);
      && (forall i :: 0 <= i < |listed| ==> RowToEvent(listed[i]).Some?)
      && Map(listed, Readable) == SqlPage(answers, limit, offset)
  {
    var rows := RowsOf(answers);
    var listed := SqlPage(rows, limit, offset);
    forall i | 0 <= i < |listed| ensures RowToEvent(listed[i]).Some? {
      PageWithin(rows, limit, offset, i);
      var k :| 0 <= k < |rows| && rows[k] == listed[i];
      MapAt(answers, RowOf, k);
      RowRoundTrip(answers[k]);
    }
    PageOfMap(rows, Readable, limit, offset);
    ReadBack(answers);
  }

  lemma RowsOfSnoc(events: seq<Event>, e: Event)
    ensures RowsOf(events + [e]) == RowsOf(events) + [RowOf(e)]
  {
    MapConcat(events, [e], RowOf);
  }

  lemma ClashRemains(events: seq<Event>, batch: seq<Event>, i: nat)
    requires i < |batch| && HasId(events + batch[..i], batch[i].id)
    ensures !UniqueIds(events + batch)
  {
    var j :| 0 <= j < |events + batch[..i]| && (events + batch[..i])[j].id == batch[i].id;
    assert (events + batch)[j] == (events + batch[..i])[j];
    assert (events + batch)[|events| + i] == batch[i];
  }

  lemma {:induction false} KeepIsUnique(events: seq<Event>, p: Event -> bool)
    requires UniqueIds(events)
    ensures UniqueIds(Keep(events, p))
  {
    if events != [] {
      var n := |events| - 1;
      var kept := Keep(events[..n], p);
      KeepIsUnique(events[..n], p);
      KeepContents(events[..n], p);
      forall i | 0 <= i < |kept| ensures kept[i].id != events[n].id {
        assert kept[i] in events[..n];
      }
    }
  }

  lemma PageWithin(rows: seq<Row>, limit: int, offset: int, i: nat)
    requires i < |SqlPage(rows, limit, offset)|
    ensures SqlPage(rows, limit, offset)[i] in rows
  {
  }

  lemma PageOfMap<A, B>(s: seq<A>, f: A -> B, limit: int, offset: int)
    ensures Map(SqlPage(s, limit, offset), f) == SqlPage(Map(s, f), limit, offset)
  {
    MapAll(s, f);
    MapAll(SqlPage(s, limit, offset), f);
  }

  // ---------------------------------------------------------------- properties of every run

  /** A query answers with exactly the matching events, as many as are counted, newest first. */
  lemma AnswersAreMatching(events: seq<Event>, f: Filter, order: seq<Event> -> seq<Event>)
    requires OrdersByTime(order)
    ensures multiset(AllAnswers(events, f, order)) == multiset(Matching(events, f))
    ensures |AllAnswers(events, f, order)| == |Matching(events, f)| && LatestFirst(AllAnswers(events, f, order))
  {
    var answer := AllAnswers(events, f, order);
    assert multiset(answer) == multiset(Matching(events, f));
    assert |multiset(answer)| == |answer| && |multiset(Matching(events, f))| == |Matching(events, f)|;
  }

  /** A purge deletes exactly the events strictly older than the cutoff, and reports how many. */
  lemma {:induction false} PurgeIsExact(events: seq<Event>, t: Utc)
    ensures |Keep(events, NotBefore(t))| + Expired(events, t) == |events|
    ensures forall e :: e in Keep(events, NotBefore(t)) <==> e in events && EpochNanos(e.timestamp) >= EpochNanos(t)
  {
    KeepContents(events, NotBefore(t));
    if events != [] { PurgeIsExact(events[..|events| - 1], t); }
  }

  /** Events a run stored, and events it purged, by its responses. */
  function Inserted(commands: seq<Command>, responses: seq<Response>): nat
    requires |commands| == |responses|
  {
    if commands == [] then 0
    else
      var n := |commands| - 1;
      var more :=
        if responses[n] != Stored(true) then 0
        else if commands[n].Insert? then 1
        else if commands[n].InsertBatch? then |commands[n].batch| else 0;
      Inserted(commands[..n], responses[..n]) + more
  }

  function Purged(commands: seq<Command>, responses: seq<Response>): nat
    requires |commands| == |responses|
  {
    if commands == [] then 0
    else
      var n := |commands| - 1;
      var more := if commands[n].PurgeBefore? && responses[n].Number? then responses[n].count else 0;
      Purged(commands[..n], responses[..n]) + more
  }

  lemma StepConserves(events: seq<Event>, c: Command, order: seq<Event> -> seq<Event>)
    requires UniqueIds(events)
    ensures UniqueIds(Step(events, c, order).0)
    ensures var (after, r) := Step(events, c, order);
      |after| + (if c.PurgeBefore? && r.Number? then r.count else 0)
      == |events| + (if r != Stored(true) then 0 else if c.Insert? then 1 else if c.InsertBatch? then |c.batch| else 0)
  {
    if c.PurgeBefore? {
      PurgeIsExact(events, c.before);
      KeepIsUnique(events, NotBefore(c.before));
    }
  }

  /** Over every run, what is stored is what was inserted less what was purged, and keys stay unique. */
  lemma {:induction false} RunConserves(events: seq<Event>, commands: seq<Command>, order: seq<Event> -> seq<Event>)
    requires UniqueIds(events)
    ensures UniqueIds(Run(events, commands, order).0)
    ensures |Run(events, commands, order).1| == |commands|
    ensures var (after, responses) := Run(events, commands, order);
      |after| + Purged(commands, responses) == |events| + Inserted(commands, responses)
  {
    if commands != [] {
      var n := |commands| - 1;
      RunConserves(events, commands[..n], order);
      var (before, responses) := Run(events, commands[..n], order);
      StepConserves(before, commands[n], order);
      var all := Run(events, commands, order).1;
      assert all[..n] == responses;
    }
  }

  /**
   What a response says of the table before its command, and what the command leaves. The pages of a query are
   stated for a limit and an offset below 2^63; `EventStore.PageShows` is about the others.
  */
  ghost predicate Answers(
    before: seq<Event>, c: Command, after: seq<Event>, r: Response, order: seq<Event> -> seq<Event>)
  {
    match c
    case Insert(e) =>
      if exists i :: 0 <= i < |before| && before[i].id == e.id then r == Stored(false) && after == before
      else r == Stored(true) && after == before + [e]
    case InsertBatch(batch) =>
      var all := before + batch;
      if forall i, j :: 0 <= i < j < |all| ==> all[i].id != all[j].id then r == Stored(true) && after == all
      else r == Stored(false) && after == before
    case Query(limit, offset, f) =>
      var newest := order(Matching(before, f));
      && after == before && r.Listing?
      && (limit < 0x8000_0000_0000_0000 && offset < 0x8000_0000_0000_0000 ==>
            var left := if offset < |newest| then |newest| - offset else 0;
            && |r.events| == (if limit < left then limit else left)
            && forall k :: 0 <= k < |r.events| ==> r.events[k] == newest[offset + k])
    case Count => r == Number(|before|) && after == before
    case CountFiltered(f) => r == Number(|Matching(before, f)|) && after == before
    case PurgeBefore(t) =>
      && r.Number? && r.count + |after| == |before|
      && after == Keep(before, (e: Event) => EpochNanos(e.timestamp) >= EpochNanos(t))
    case TimeSeries(t, width) =>
      && after == before && r.Buckets? && Ascending(r.points) && (forall p :: p in r.points ==> p.count > 0)
      && forall b :: CountIn(r.points, b) == |Keep(before, FallsIn(t, width, b))|
  }

  /** Each response, for the table the commands before it have left. */
  ghost predicate Answered(
    tables: seq<seq<Event>>, commands: seq<Command>, responses: seq<Response>, order: seq<Event> -> seq<Event>)
  {
    && |tables| == |commands| + 1 && |responses| == |commands|
    && forall i :: 0 <= i < |commands| ==> Answers(tables[i], commands[i], tables[i + 1], responses[i], order)
  }

  lemma StepAnswers(events: seq<Event>, c: Command, order: seq<Event> -> seq<Event>)
    ensures Answers(events, c, Step(events, c, order).0, Step(events, c, order).1, order)
  {
    hide Matching, EpochNanos, EpochSeconds, Keep, Series, Ascending, CountIn;
    match c
    case PurgeBefore(t) =>
      PurgeIsExact(events, t);
      KeepSame(events, NotBefore(t), (e: Event) => EpochNanos(e.timestamp) >= EpochNanos(t));
    case TimeSeries(t, width) =>
      SeriesShape(events, t, width);
      forall b ensures CountIn(Series(events, t, width), b) == |Keep(events, FallsIn(t, width, b))| {
        SeriesCounts(events, t, width, b);
        KeepSame(events, InBucket(t, width, b), FallsIn(t, width, b));
      }
    case _ =>
  }

  /** At or after `t`, and in the bucket of `width` seconds that starts at `b`. */
  function FallsIn(t: Utc, width: BucketWidth, b: int): Event -> bool
  {
    (e: Event) => EpochNanos(e.timestamp) >= EpochNanos(t) && TruncDiv(EpochSeconds(e.timestamp), width) * width == b
  }

  lemma {:induction false} KeepSame<T>(s: seq<T>, p: T -> bool, q: T -> bool)
    requires forall x :: p(x) <==> q(x)
    ensures Keep(s, p) == Keep(s, q)
  {
    if s != [] { KeepSame(s[..|s| - 1], p, q); }
  }

  lemma RequestedPage(page: Option<nat>, perPage: Option<nat>)
    ensures PageOf(page) == if page.Some? && page.value >= 1 then page.value else 1
    ensures PerPageOf(perPage) ==
      if perPage.None? then 50 else if perPage.value < 1 then 1 else if perPage.value > 200 then 200 else perPage.value
  {
  }

  /** `shown` are at most `size` elements of a listing from `offset` on, as long as that is below 2^63. */
  ghost predicate Stretch<T(!new)>(shown: seq<T>, listing: seq<T>, offset: int, size: nat)
  {
    0 <= offset < 0x8000_0000_0000_0000 ==>
      var left := if offset < |listing| then |listing| - offset else 0;
      && |shown| == (if size < left then size else left)
      && forall k :: 0 <= k < |shown| ==> shown[k] == listing[offset + k]
  }

  lemma PageIsStretch<T(!new)>(listing: seq<T>, offset: nat, size: nat)
    requires size <= 200
    ensures Stretch(SqlPage(listing, AsI64(size), AsI64(offset)), listing, offset, size)
  {
  }

  lemma PageRowsAre<T(!new)>(listing: seq<T>, page: nat, size: nat)
    requires page >= 1 && size <= 200
    ensures (page - 1) * size >= 0
    ensures PageRows(listing, page, size) == SqlPage(listing, AsI64(size), AsI64((page - 1) * size))
    ensures Stretch(PageRows(listing, page, size), listing, (page - 1) * size, size)
  {
    PageIsStretch(listing, (page - 1) * size, size);
    hide SqlPage, AsI64, Stretch;
  }

  /** The answer to a page of at least 1 and a size from 1 to 200. */
  method FetchPage(
      table: Table, page: nat, size: nat, f: Filter,
      arrange: seq<Row> -> seq<Row>, ghost order: seq<Event> -> seq<Event>)
    returns (events: seq<Event>, total: nat, totalPages: nat)
    requires table.Valid() && OrdersByTime(order) && Follows(arrange, order) && page >= 1 && 1 <= size <= 200
    ensures events == PageRows(AllAnswers(table.events, f, order), page, size)
    ensures total == |AllAnswers(table.events, f, order)| && totalPages == TotalPages(total, size)
  {
    hide AllAnswers, OrdersByTime, Follows, Matching, SqlPage, AsI64, RowsOf, UniqueIds, EpochNanos, PageRows, Stretch;
    PageRowsAre(AllAnswers(table.events, f, order), page, size);
    var offset := (page - 1) * size;
    total := table.DoCountFiltered(f);
    AnswersAreMatching(table.events, f, order);
    var answer := table.DoQuery(size, offset, f, arrange, order);
    events := answer.value;
    totalPages := if total == 0 then 1 else (total + size - 1) / size;
  }

  /** The events route: the total and the page describe one listing; by default the first 50. */
  method EventsPage(
      table: Table, page: Option<nat>, perPage: Option<nat>, f: Filter,
      arrange: seq<Row> -> seq<Row>, ghost order: seq<Event> -> seq<Event>)
    returns (events: seq<Event>, total: nat, totalPages: nat)
    requires table.Valid() && OrdersByTime(order) && Follows(arrange, order)
    ensures events == PageRows(AllAnswers(table.events, f, order), PageOf(page), PerPageOf(perPage))
    ensures total == |AllAnswers(table.events, f, order)|
    ensures totalPages == TotalPages(total, PerPageOf(perPage))
    ensures var p := if page.Some? && page.value >= 1 then page.value else 1;
      var size := if perPage.None? then 50 else if perPage.value < 1 then 1 else if perPage.value > 200 then 200
                  else perPage.value;
      Stretch(events, AllAnswers(table.events, f, order), (p - 1) * size, size)
  {
    hide AllAnswers, OrdersByTime, Follows, PageOf, PerPageOf, PageRows, Stretch, TotalPages;
    RequestedPage(page, perPage);
    var p, size := PageOf(page), PerPageOf(perPage);
    PageRowsAre(AllAnswers(table.events, f, order), p, size);
    events, total, totalPages := FetchPage(table, p, size, f, arrange, order);
  }
}
