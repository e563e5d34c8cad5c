/** The event table behind the database worker, and the page arithmetic of the events route. */
module EventStore {
  import opened Options
  import opened TimestampText
  import opened Sql
  import opened WhereClause
  import opened Events
  import opened Sequences

  // ---------------------------------------------------------------- rows

  /** `Display for EventType`. */
  function TypeText(t: EventType): string
  {
    match t
    case Created => "CREATE"
    case Modified => "MODIFY"
    case Attrib => "ATTRIB"
    case CloseWrite => "CLOSE_WRITE"
    case CloseNoWrite => "CLOSE_NOWRITE"
    case Opened => "OPEN"
    case MovedTo => "MOVED_TO"
    case MovedFrom => "MOVED_FROM"
    case Deleted => "DELETE"
    case Renamed => "RENAME"
    case Accessed => "ACCESS"
  }

  /** The canonical part of `FromStr for EventType`; stored rows hold no other spelling. */
  function ParseType(s: string): Option<EventType>
  {
    if s == "CREATE" then Some(Created)
    else if s == "MODIFY" then Some(Modified)
    else if s == "ATTRIB" then Some(Attrib)
    else if s == "CLOSE_WRITE" then Some(CloseWrite)
    else if s == "CLOSE_NOWRITE" then Some(CloseNoWrite)
    else if s == "OPEN" then Some(Opened)
    else if s == "MOVED_TO" then Some(MovedTo)
    else if s == "MOVED_FROM" then Some(MovedFrom)
    else if s == "DELETE" then Some(Deleted)
    else if s == "RENAME" then Some(Renamed)
    else if s == "ACCESS" then Some(Accessed)
    else None
  }

  lemma TypeRoundTrip(t: EventType)
    ensures ParseType(TypeText(t)) == Some(t)
  {
  }

  /** The nine values `do_insert` binds. */
  function RowOf(e: Event): Row
  {
    Row(e.id, Rfc3339(e.timestamp), TypeText(e.eventType), e.path, e.targetPath, e.isDir, e.user, e.process,
        e.watchRoot)
  }

  function RowsOf(events: seq<Event>): (rows: seq<Row>)
    ensures |rows| == |events|
  {
    Map(events, RowOf)
  }

  /** `row_to_event`, on identifiers that need no parsing. */
  function RowToEvent(row: Row): Option<Event>
  {
    var timestamp, eventType := ParseRfc3339(row.timestamp), ParseType(row.eventType);
    if timestamp.None? || eventType.None? then None
    else Some(Event(row.id, timestamp.value, eventType.value, row.path, row.targetPath,
                    row.isDir, row.user, row.process, row.watchRoot))
  }

  /** What was stored is what is read back. */
  lemma RowRoundTrip(e: Event)
    ensures RowToEvent(RowOf(e)) == Some(e)
  {
    TypeRoundTrip(e.eventType);
    TimestampRoundTrip(e.timestamp);
  }

  // ---------------------------------------------------------------- selecting

  /** The rows a clause keeps, as the engine evaluates it. */
  function Selected(rows: seq<Row>, f: Filter): seq<Row>
  {
    Keep(rows, Selects(f))
  }

  function Selects(f: Filter): Row -> bool
  {
    (row: Row) => Eval(Clause(f), Params(f), row) == Some(True)
  }

  /** The events a filter is about. */
  function Matching(events: seq<Event>, f: Filter): seq<Event>
  {
    Keep(events, About(f))
  }

  function About(f: Filter): Event -> bool
  {
    (e: Event) => Matches(f, RowOf(e))
  }

  lemma SelectedAreMatching(events: seq<Event>, f: Filter)
    ensures Selected(RowsOf(events), f) == RowsOf(Matching(events, f))
  {
    ClauseIsCorrect(f);
    KeptAreMatching(events, f, Selects(f));
  }

  lemma KeptAreMatching(events: seq<Event>, f: Filter, p: Row -> bool)
    requires forall row :: p(row) <==> Matches(f, row)
    ensures Keep(RowsOf(events), p) == RowsOf(Matching(events, f))
  {
    KeepMap(events, RowOf, p, About(f));
  }

  /** Time bounds in the stored form bound the time, inclusively. */
  lemma BoundsAreTimes(e: Event, from: Utc, to: Utc)
    ensures Matches(Filter([], None, None, Some(Rfc3339(from)), Some(Rfc3339(to)), None), RowOf(e))
            <==> EpochNanos(from) <= EpochNanos(e.timestamp) <= EpochNanos(to)
  {
    TextOrderIsTimeOrder(e.timestamp, from);
    TextOrderIsTimeOrder(to, e.timestamp);
  }

  /** Bounds that end in `Z`, as the dashboard sends them: `after` drops a unit of their last digit. */
  lemma DashboardBoundsAreTimes(e: Event, from: Utc, to: Utc, digits: nat)
    requires Exact(from, digits) && Exact(to, digits)
    ensures Matches(Filter([], None, None, Some(IsoBound(from, digits, "Z")), Some(IsoBound(to, digits, "Z")), None),
                    RowOf(e))
            <==> EpochNanos(from) + UnitOf(digits) <= EpochNanos(e.timestamp) < EpochNanos(to) + UnitOf(digits)
  {
    hide IsoBound, Rfc3339, EpochNanos, TextLess, UnitOf;
    DashboardBound(e.timestamp, from, digits, "Z");
    DashboardBound(e.timestamp, to, digits, "Z");
  }

  /** What each filter asks of an event, for bounds in the stored form. */
  lemma FilterMeans(
    e: Event, types: seq<string>, root: Option<string>, search: Option<string>, from: Option<Utc>, to: Option<Utc>,
    isDir: Option<bool>)
    ensures var f := Filter(types, root, search, Stored(from), Stored(to), isDir);
      Matches(f, RowOf(e)) <==>
        && (types == [] || TypeText(e.eventType) in types)
        && (root.Some? ==> e.watchRoot == root.value)
        && (search.Some? && search.value != "" ==>
              || LikeText("%" + search.value + "%", e.path)
              || (e.targetPath.Some? && LikeText("%" + search.value + "%", e.targetPath.value)))
        && (from.Some? ==> EpochNanos(e.timestamp) >= EpochNanos(from.value))
        && (to.Some? ==> EpochNanos(e.timestamp) <= EpochNanos(to.value))
        && (isDir.Some? ==> e.isDir == Some(isDir.value))
  {
    hide LikeText, TextLess, Rfc3339, TypeText, EpochNanos;
    if from.Some? { TextOrderIsTimeOrder(e.timestamp, from.value); }
    if to.Some? { TextOrderIsTimeOrder(to.value, e.timestamp); }
  }

  function Stored(bound: Option<Utc>): Option<string>
  {
    if bound.Some? then Some(Rfc3339(bound.value)) else None
  }

  /** The names a type filter knows, each with the events it finds; no other name finds any. */
  lemma TypesByName(e: Event, name: string)
    ensures Matches(Filter([name], None, None, None, None, None), RowOf(e)) <==>
      || (name == "CREATE" && e.eventType == Created) || (name == "MODIFY" && e.eventType == Modified)
      || (name == "ATTRIB" && e.eventType == Attrib) || (name == "CLOSE_WRITE" && e.eventType == CloseWrite)
      || (name == "CLOSE_NOWRITE" && e.eventType == CloseNoWrite) || (name == "OPEN" && e.eventType == Opened)
      || (name == "MOVED_TO" && e.eventType == MovedTo) || (name == "MOVED_FROM" && e.eventType == MovedFrom)
      || (name == "DELETE" && e.eventType == Deleted) || (name == "RENAME" && e.eventType == Renamed)
      || (name == "ACCESS" && e.eventType == Accessed)
  {
    hide Rfc3339, LikeText, TextLess;
    assert TypeText(e.eventType) in [name] <==> TypeText(e.eventType) == name;
  }

  // ---------------------------------------------------------------- ordering and paging

  ghost predicate NewestFirst(rows: seq<Row>)
  {
    forall i, j :: 0 <= i < j < |rows| ==> !TextLess(rows[i].timestamp, rows[j].timestamp)
  }

  /** `ORDER BY timestamp DESC`: some fixed arrangement; nothing is promised about ties. */
  ghost predicate Arranges(arrange: seq<Row> -> seq<Row>)
  {
    forall rows :: multiset(arrange(rows)) == multiset(rows) && NewestFirst(arrange(rows))
  }

  function InsertNewest(sorted: seq<Row>, row: Row): seq<Row>
  {
    if sorted == [] || !TextLess(row.timestamp, sorted[0].timestamp) then [row] + sorted
    else [sorted[0]] + InsertNewest(sorted[1..], row)
  }

  function SortNewest(rows: seq<Row>): seq<Row>
  {
    if rows == [] then [] else InsertNewest(SortNewest(rows[..|rows| - 1]), rows[|rows| - 1])
  }

  lemma {:induction false} InsertNewestKeeps(sorted: seq<Row>, row: Row)
    ensures multiset(InsertNewest(sorted, row)) == multiset(sorted) + multiset{row}
  {
    hide TextLess;
    if sorted != [] && TextLess(row.timestamp, sorted[0].timestamp) {
      InsertNewestKeeps(sorted[1..], row);
      assert sorted == [sorted[0]] + sorted[1..];
    }
  }

  lemma {:induction false} InsertNewestSorts(sorted: seq<Row>, row: Row)
    requires NewestFirst(sorted)
    ensures NewestFirst(InsertNewest(sorted, row))
    ensures forall r :: r in InsertNewest(sorted, row) ==> r in sorted || r == row
  {
    hide TextLess;
    var after := InsertNewest(sorted, row);
    if sorted == [] || !TextLess(row.timestamp, sorted[0].timestamp) {
      forall j | 0 < j < |after| ensures !TextLess(row.timestamp, after[j].timestamp) {
        assert after[j] == sorted[j - 1];
        assert j == 1 || !TextLess(sorted[0].timestamp, sorted[j - 1].timestamp);
        NotLessTransitive(row.timestamp, sorted[0].timestamp, after[j].timestamp);
      }
    } else {
      var first, rest := sorted[0], sorted[1..];
      var inserted := InsertNewest(rest, row);
      InsertNewestSorts(rest, row);
      TextLessTotal(first.timestamp, row.timestamp);
      forall j | 0 <= j < |inserted| ensures !TextLess(first.timestamp, inserted[j].timestamp) {
        if inserted[j] != row {
          assert inserted[j] in inserted && inserted[j] in rest;
          var k :| 0 <= k < |rest| && rest[k] == inserted[j];
          assert !TextLess(sorted[0].timestamp, sorted[k + 1].timestamp);
        }
      }
      ConsNewest(first, inserted);
    }
  }

  lemma ConsNewest(first: Row, rest: seq<Row>)
    requires NewestFirst(rest) && forall j :: 0 <= j < |rest| ==> !TextLess(first.timestamp, rest[j].timestamp)
    ensures NewestFirst([first] + rest)
  {
    hide TextLess;
  }

  lemma NotLessTransitive(a: string, b: string, c: string)
    requires !TextLess(a, b) && (b == c || !TextLess(b, c))
    ensures !TextLess(a, c)
  {
    TextLessTotal(a, b);
    TextLessTotal(b, c);
    TextLessTotal(a, c);
    if TextLess(a, c) && TextLess(c, b) { TextLessTransitive(a, c, b); }
  }

  lemma {:induction false} SortNewestSorts(rows: seq<Row>)
    ensures multiset(SortNewest(rows)) == multiset(rows) && NewestFirst(SortNewest(rows))
  {
    hide NewestFirst, InsertNewest;
    if rows == [] {
      NothingIsNewest();
    } else {
      var n := |rows| - 1;
      SortNewestSorts(rows[..n]);
      InsertNewestKeeps(SortNewest(rows[..n]), rows[n]);
      InsertNewestSorts(SortNewest(rows[..n]), rows[n]);
      assert rows == rows[..n] + [rows[n]];
    }
  }

  lemma NothingIsNewest()
    ensures NewestFirst([])
  {
  }

  /** Sorting is such an arrangement, so whatever holds of all arrangements holds of one. */
  lemma SortingArranges()
    ensures Arranges(SortNewest)
  {
    forall rows { SortNewestSorts(rows); }
  }

  /** `as i64` on a 64-bit `usize`. */
  function AsI64(n: nat): int
  {
    var m := n % 0x1_0000_0000_0000_0000;
    if m < 0x8000_0000_0000_0000 then m else m - 0x1_0000_0000_0000_0000
  }

  /** `LIMIT ? OFFSET ?`: a negative limit is no limit, a negative offset is none. */
  function SqlPage<T>(s: seq<T>, limit: int, offset: int): (page: seq<T>)
    ensures limit >= 0 ==> |page| <= limit
  {
    var from := if offset < 0 then 0 else if offset > |s| then |s| else offset;
    var to := if limit < 0 || from + limit > |s| then |s| else from + limit;
    s[from..to]
  }

  /** The rows a query would list without paging. */
  function QueryRows(rows: seq<Row>, f: Filter, arrange: seq<Row> -> seq<Row>): seq<Row>
  {
    arrange(Selected(rows, f))
  }

  /** An order of events, newest first by time. */
  ghost predicate OrdersByTime(order: seq<Event> -> seq<Event>)
  {
    forall events :: multiset(order(events)) == multiset(events) && LatestFirst(order(events))
  }

  ghost predicate LatestFirst(events: seq<Event>)
  {
    forall i, j :: 0 <= i < j < |events| ==> EpochNanos(events[i].timestamp) >= EpochNanos(events[j].timestamp)
  }

  /** The engine arranges the rows of events as `order` orders the events. */
  ghost predicate Follows(arrange: seq<Row> -> seq<Row>, order: seq<Event> -> seq<Event>)
  {
    forall events :: arrange(RowsOf(events)) == RowsOf(order(events))
  }

  /** Every arrangement by text follows some order by time. */
  lemma ArrangementFollowsTime(arrange: seq<Row> -> seq<Row>)
    requires Arranges(arrange)
    ensures OrdersByTime(OrderOf(arrange)) && Follows(arrange, OrderOf(arrange))
  {
    forall events
      ensures arrange(RowsOf(events)) == RowsOf(OrderOf(arrange)(events))
      ensures multiset(OrderOf(arrange)(events)) == multiset(events) && LatestFirst(OrderOf(arrange)(events))
    {
      var rows := arrange(RowsOf(events));
      assert multiset(rows) == multiset(RowsOf(events)) && NewestFirst(rows);
      var answer := Unmap(rows, events, RowOf);
      ReadBack(answer);
      NewestRowsAreNewestEvents(answer);
    }
  }

  /** The order that an arrangement of the rows amounts to. */
  function OrderOf(arrange: seq<Row> -> seq<Row>): seq<Event> -> seq<Event>
  {
    events => Map(arrange(RowsOf(events)), Readable)
  }

  function Readable(row: Row): Event
  {
    var e := RowToEvent(row);
    if e.Some? then e.value else Event("", Epoch(), Created, "", None, None, None, None, "")
  }

  lemma ReadBack(events: seq<Event>)
    ensures Map(RowsOf(events), Readable) == events
  {
    MapAll(RowsOf(events), Readable);
    forall i | 0 <= i < |events| ensures Readable(RowsOf(events)[i]) == events[i] {
      MapAt(events, RowOf, i);
      RowRoundTrip(events[i]);
    }
  }

  /** A query on the rows lists the matching events in the order by time. */
  lemma QueryAnswers(
    events: seq<Event>, f: Filter, arrange: seq<Row> -> seq<Row>, order: seq<Event> -> seq<Event>)
    requires Follows(arrange, order)
    ensures QueryRows(RowsOf(events), f, arrange) == RowsOf(order(Matching(events, f)))
  {
    SelectedAreMatching(events, f);
  }

  lemma NewestRowsAreNewestEvents(events: seq<Event>)
    requires NewestFirst(RowsOf(events))
    ensures LatestFirst(events)
  {
    forall i, j | 0 <= i < j < |events|
      ensures EpochNanos(events[i].timestamp) >= EpochNanos(events[j].timestamp)
    {
      var rows := RowsOf(events);
      MapAt(events, RowOf, i);
      MapAt(events, RowOf, j);
      assert !TextLess(rows[i].timestamp, rows[j].timestamp);
      TextOrderIsTimeOrder(events[i].timestamp, events[j].timestamp);
    }
  }

  /** Any reordering of the images is the image of a reordering. */
  lemma {:induction false} Unmap<A, B>(t: seq<B>, s: seq<A>, f: A -> B) returns (answer: seq<A>)
    requires multiset(t) == multiset(Map(s, f))
    ensures Map(answer, f) == t && multiset(answer) == multiset(s)
    decreases |t|
  {
    assert |multiset(t)| == |t| && |multiset(Map(s, f))| == |s|;
    if t == [] {
      answer := [];
    } else {
      var n := |t| - 1;
      assert t[n] in multiset(Map(s, f));
      var i :| 0 <= i < |s| && Map(s, f)[i] == t[n];
      MapAt(s, f, i);
      assert t == t[..n] + [t[n]];
      TakeOut(t[..n], t[n], s, f, i);
      var before := Unmap(t[..n], s[..i] + s[i + 1..], f);
      answer := before + [s[i]];
      MapConcat(before, [s[i]], f);
      AddSame(before, s[i], s[..i], s[i + 1..]);
      Around(s, i);
    }
  }

  lemma TakeOut<A, B>(t: seq<B>, y: B, s: seq<A>, f: A -> B, i: nat)
    requires i < |s| && f(s[i]) == y && multiset(t + [y]) == multiset(Map(s, f))
    ensures multiset(t) == multiset(Map(s[..i] + s[i + 1..], f))
  {
    var a, b := s[..i], s[i + 1..];
    Around(s, i);
    MapConcat(a, [s[i]], f);
    MapConcat(a + [s[i]], b, f);
    MapConcat(a, b, f);
    DropSame(t, y, Map(a, f), Map(b, f));
  }

  lemma Around<T>(s: seq<T>, i: nat)
    requires i < |s|
    ensures s == s[..i] + [s[i]] + s[i + 1..]
  {
  }

  lemma DropSame<T>(xs: seq<T>, x: T, a: seq<T>, b: seq<T>)
    requires multiset(xs + [x]) == multiset(a + [x] + b)
    ensures multiset(xs) == multiset(a + b)
  {
    assert multiset(xs) == multiset(xs + [x]) - multiset{x};
    assert multiset(a + b) == multiset(a + [x] + b) - multiset{x};
  }

  lemma AddSame<T>(xs: seq<T>, x: T, a: seq<T>, b: seq<T>)
    requires multiset(xs) == multiset(a + b)
    ensures multiset(xs + [x]) == multiset(a + [x] + b)
  {
  }

  /** Page number and page size of a request, defaulted and clamped. */
  function PageOf(requested: Option<nat>): nat
  {
    if requested.Some? && requested.value >= 1 then requested.value else 1
  }

  function PerPageOf(requested: Option<nat>): nat
  {
    var n := if requested.Some? then requested.value else 50;
    if n < 1 then 1 else if n > 200 then 200 else n
  }

  function TotalPages(total: nat, perPage: nat): nat
    requires perPage > 0
  {
    if total == 0 then 1 else (total + perPage - 1) / perPage
  }

  /** Page `page` of a listing, as the route asks the store for it. */
  function PageRows<T>(listing: seq<T>, page: nat, perPage: nat): seq<T>
    requires page >= 1
  {
    SqlPage(listing, AsI64(perPage), AsI64((page - 1) * perPage))
  }

  function FirstPages<T>(listing: seq<T>, pages: nat, perPage: nat): seq<T>
  {
    if pages == 0 then [] else FirstPages(listing, pages - 1, perPage) + PageRows(listing, pages, perPage)
  }

  function Min(a: nat, b: nat): nat { if a < b then a else b }

  lemma SmallCast(n: nat)
    requires n < 0x8000_0000_0000_0000
    ensures AsI64(n) == n
  {
  }

  lemma SmallPage<T>(listing: seq<T>, page: nat, perPage: nat, start: nat)
    requires page >= 1 && 1 <= perPage <= 200
    requires start == (page - 1) * perPage < 0x8000_0000_0000_0000
    ensures PageRows(listing, page, perPage) == listing[Min(start, |listing|)..Min(start + perPage, |listing|)]
  {
    SmallCast(start);
    SmallCast(perPage);
  }

  lemma {:induction false} FirstPagesArePrefix<T>(listing: seq<T>, pages: nat, perPage: nat)
    requires 1 <= perPage <= 200 && pages * perPage < 0x8000_0000_0000_0000
    ensures FirstPages(listing, pages, perPage) == listing[..Min(pages * perPage, |listing|)]
  {
    if pages > 0 {
      var start := (pages - 1) * perPage;
      assert pages * perPage == start + perPage;
      FirstPagesArePrefix(listing, pages - 1, perPage);
      SmallPage(listing, pages, perPage, start);
      Glue(listing, Min(start, |listing|), Min(start + perPage, |listing|));
    }
  }

  lemma Glue<T>(s: seq<T>, i: nat, j: nat)
    requires i <= j <= |s|
    ensures s[..i] + s[i..j] == s[..j]
  {
  }

  /** Pages 1 to `total_pages` are the listing, once each and in order. */
  lemma PagesCoverListing<T>(listing: seq<T>, perPage: nat)
    requires 1 <= perPage <= 200 && |listing| < 0x4000_0000_0000_0000
    ensures TotalPages(|listing|, perPage) >= 1
    ensures FirstPages(listing, TotalPages(|listing|, perPage), perPage) == listing
  {
    CeilingBounds(|listing|, perPage);
    FirstPagesArePrefix(listing, TotalPages(|listing|, perPage), perPage);
  }

  /** The offset of a page as the statement receives it: the product of 64-bit numbers wraps around. */
  function OffsetOf(page: nat, perPage: nat): nat
    requires page >= 1
  {
    (page - 1) * perPage % 0x1_0000_0000_0000_0000
  }

  /**
   What each page of a listing shows. An offset within the listing shows the rows from there, one beyond it
   and below 2^63 nothing, and any other turns negative in the cast and shows the first page.
  */
  lemma PageShows<T>(listing: seq<T>, page: nat, perPage: nat)
    requires page >= 1 && 1 <= perPage <= 200 && 0 < |listing| < 0x8000_0000_0000_0000
    ensures PageRows(listing, page, perPage) == [] <==> |listing| <= OffsetOf(page, perPage) < 0x8000_0000_0000_0000
    ensures OffsetOf(page, perPage) < |listing| ==>
      PageRows(listing, page, perPage) ==
        listing[OffsetOf(page, perPage)..Min(OffsetOf(page, perPage) + perPage, |listing|)]
    ensures OffsetOf(page, perPage) >= 0x8000_0000_0000_0000 ==>
      PageRows(listing, page, perPage) == PageRows(listing, 1, perPage)
  {
    SmallCast(perPage);
    SmallCast(0);
  }

  /** Pages after the last are empty as long as the offset is below 2^63. */
  lemma LaterPagesAreEmpty<T>(listing: seq<T>, page: nat, perPage: nat)
    requires 1 <= perPage <= 200 && |listing| < 0x4000_0000_0000_0000
    requires TotalPages(|listing|, perPage) < page && (page - 1) * perPage < 0x8000_0000_0000_0000
    ensures PageRows(listing, page, perPage) == []
  {
    CeilingBounds(|listing|, perPage);
    MulMonotone(TotalPages(|listing|, perPage), page - 1, perPage);
    SmallPage(listing, page, perPage, (page - 1) * perPage);
  }

  /** `total_pages` is the least number of pages that covers the listing. */
  lemma FewerPagesMissRows<T>(listing: seq<T>, p: nat, perPage: nat)
    requires 1 <= perPage <= 200 && |listing| < 0x4000_0000_0000_0000
    requires 1 <= p < TotalPages(|listing|, perPage)
    ensures |FirstPages(listing, p, perPage)| < |listing|
  {
    var pages := TotalPages(|listing|, perPage);
    CeilingBounds(|listing|, perPage);
    MulMonotone(p, pages - 1, perPage);
    MulMonotone(p, pages, perPage);
    FirstPagesArePrefix(listing, p, perPage);
  }

  lemma MulMonotone(a: nat, b: nat, c: nat)
    requires a <= b
    ensures a * c <= b * c
  {
  }

  lemma CeilingBounds(total: nat, perPage: nat)
    requires 1 <= perPage <= 200 && total < 0x4000_0000_0000_0000
    ensures var pages := TotalPages(total, perPage);
      && pages >= 1 && total <= pages * perPage < 0x8000_0000_0000_0000
      && (pages > 1 ==> (pages - 1) * perPage < total)
  {
    var n := total + perPage - 1;
    var q, r := n / perPage, n % perPage;
    assert n == q * perPage + r;
    if total > 0 {
      assert q != 0;
      assert (q - 1) * perPage == q * perPage - perPage;
    }
  }

  // ---------------------------------------------------------------- time buckets

  /** SQLite's integer division and Rust's, both toward zero. */
  function TruncDiv(a: int, b: int): int
    requires b > 0
  {
    if a >= 0 then a / b else -(-a / b)
  }

  function Bucket(t: Utc, bucketSecs: int): int
    requires bucketSecs > 0
  {
    TruncDiv(EpochSeconds(t), bucketSecs) * bucketSecs
  }

  datatype Point = Point(bucket: int, count: nat)

  /** Counts one more event in `bucket`, keeping the buckets in ascending order. */
  function Tally(points: seq<Point>, bucket: int): seq<Point>
  {
    if points == [] || bucket < points[0].bucket then [Point(bucket, 1)] + points
    else if bucket == points[0].bucket then [Point(bucket, points[0].count + 1)] + points[1..]
    else [points[0]] + Tally(points[1..], bucket)
  }

  /** `GROUP BY bucket_ts ORDER BY bucket_ts` over the events at or after a time. */
  function Series(events: seq<Event>, after: Utc, bucketSecs: int): seq<Point>
    requires bucketSecs > 0
  {
    if events == [] then []
    else
      var n := |events| - 1;
      var points := Series(events[..n], after, bucketSecs);
      if EpochNanos(events[n].timestamp) >= EpochNanos(after) then
        Tally(points, Bucket(events[n].timestamp, bucketSecs))
      else points
  }

  function InBucket(after: Utc, bucketSecs: int, bucket: int): Event -> bool
    requires bucketSecs > 0
  {
    (e: Event) => EpochNanos(e.timestamp) >= EpochNanos(after) && Bucket(e.timestamp, bucketSecs) == bucket
  }

  predicate Ascending(points: seq<Point>)
  {
    forall i, j :: 0 <= i < j < |points| ==> points[i].bucket < points[j].bucket
  }

  function CountIn(points: seq<Point>, bucket: int): nat
  {
    if points == [] then 0
    else (if points[0].bucket == bucket then points[0].count else 0) + CountIn(points[1..], bucket)
  }

  lemma AscendingStep(points: seq<Point>)
    requires points != []
    ensures Ascending(points) <==>
            Ascending(points[1..]) && (forall p :: p in points[1..] ==> points[0].bucket < p.bucket)
  {
    if Ascending(points[1..]) && forall p :: p in points[1..] ==> points[0].bucket < p.bucket {
      forall i, j | 0 <= i < j < |points| ensures points[i].bucket < points[j].bucket {
        assert points[j] == points[1..][j - 1];
        if i > 0 { assert points[i] == points[1..][i - 1]; }
      }
    }
    if Ascending(points) {
      forall i, j | 0 <= i < j < |points[1..]| ensures points[1..][i].bucket < points[1..][j].bucket {
        assert points[1..][i] == points[i + 1] && points[1..][j] == points[j + 1];
      }
    }
  }

  lemma {:induction false} TallyAbove(points: seq<Point>, bucket: int, low: int)
    requires low < bucket && forall p :: p in points ==> low < p.bucket
    ensures forall p :: p in Tally(points, bucket) ==> low < p.bucket
  {
    if points != [] && bucket > points[0].bucket { TallyAbove(points[1..], bucket, low); }
  }

  lemma {:induction false} TallyShape(points: seq<Point>, bucket: int)
    requires Ascending(points) && forall p :: p in points ==> p.count > 0
    ensures Ascending(Tally(points, bucket)) && forall p :: p in Tally(points, bucket) ==> p.count > 0
  {
    var t := Tally(points, bucket);
    if points == [] {
      assert t[1..] == [];
    } else {
      AscendingStep(points);
      if bucket > points[0].bucket {
        TallyShape(points[1..], bucket);
        TallyAbove(points[1..], bucket, points[0].bucket);
        assert t[1..] == Tally(points[1..], bucket);
      } else if bucket == points[0].bucket {
        assert t[1..] == points[1..];
      } else {
        assert t[1..] == points;
      }
    }
    AscendingStep(t);
  }

  lemma {:induction false} TallyCounts(points: seq<Point>, bucket: int, b: int)
    ensures CountIn(Tally(points, bucket), b) == CountIn(points, b) + if b == bucket then 1 else 0
  {
    var t := Tally(points, bucket);
    if points == [] || bucket < points[0].bucket {
      assert t[1..] == points;
    } else if bucket == points[0].bucket {
      assert t[1..] == points[1..];
    } else {
      assert t[1..] == Tally(points[1..], bucket);
      TallyCounts(points[1..], bucket, b);
    }
  }

  /** Each bucket's count is the number of stored events at or after the bound that fall in it. */
  lemma {:induction false} SeriesCounts(events: seq<Event>, after: Utc, bucketSecs: int, b: int)
    requires bucketSecs > 0
    ensures CountIn(Series(events, after, bucketSecs), b) == |Keep(events, InBucket(after, bucketSecs, b))|
  {
    if events != [] {
      var n := |events| - 1;
      SeriesCounts(events[..n], after, bucketSecs, b);
      if EpochNanos(events[n].timestamp) >= EpochNanos(after) {
        TallyCounts(Series(events[..n], after, bucketSecs), Bucket(events[n].timestamp, bucketSecs), b);
      }
    }
  }

  /** The points come in ascending order, one per bucket, and none is empty. */
  lemma {:induction false} SeriesShape(events: seq<Event>, after: Utc, bucketSecs: int)
    requires bucketSecs > 0
    ensures Ascending(Series(events, after, bucketSecs))
    ensures forall p :: p in Series(events, after, bucketSecs) ==> p.count > 0
  {
    if events != [] {
      var n := |events| - 1;
      SeriesShape(events[..n], after, bucketSecs);
      TallyShape(Series(events[..n], after, bucketSecs), Bucket(events[n].timestamp, bucketSecs));
    }
  }
}
