/** `SlidingWindow`: values added up in time buckets, with old buckets dropped from the front. */
module SlidingWindow {
  import opened Events
  import opened EventStore
  import opened Sequences
  import opened TimestampText

  /** Instants are in nanoseconds since the epoch, buckets start at a second. */
  const NANOS := 1_000_000_000

  type Width = w: int | w > 0 witness 60

  datatype Cell = Cell(start: int, value: int)

  /** A value recorded for `time` when the clock shows `now`. */
  datatype Record = Record(value: int, time: int, now: int)

  /** Rust's remainder, which takes the sign of the dividend. */
  function TruncMod(a: int, b: Width): int
  {
    if a >= 0 then a % b else -(-a % b)
  }

  /** `bucket_time`. */
  function BucketTime(time: int, width: Width): int
  {
    var secs := time / NANOS;
    secs - TruncMod(secs, width)
  }

  function Start(r: Record, width: Width): int
  {
    BucketTime(r.time, width)
  }

  lemma TimesPositive(k: int, width: Width)
    requires k >= 1
    ensures k * width >= width
  {
    assert (k - 1) * width >= 0;
  }

  lemma TimesLess(p: int, q: int, width: Width)
    requires p > q
    ensures p * width >= q * width + width
  {
    TimesPositive(p - q, width);
    assert (p - q) * width == p * width - q * width;
  }

  lemma Quotient(a: nat, width: Width)
    ensures a / width * width <= a < a / width * width + width
    ensures a % width == a - a / width * width
  {
  }

  lemma Multiple(k: int, width: Width)
    ensures k * width % width == 0
  {
    var q, r := k * width / width, k * width % width;
    assert k * width == q * width + r;
    assert (k - q) * width == r;
    if k - q >= 1 {
      TimesPositive(k - q, width);
    } else if k - q <= -1 {
      TimesPositive(q - k, width);
    }
  }

  lemma NextMultiple(a: int, b: int, width: Width)
    requires a < b && a % width == 0 && b % width == 0
    ensures b >= a + width
  {
    var p, q := a / width, b / width;
    assert a == p * width && b == q * width;
    if q > p {
      TimesLess(q, p, width);
    } else if p > q {
      TimesLess(p, q, width);
    }
  }

  lemma DivIsMonotone(a: nat, b: nat, width: Width)
    requires a <= b
    ensures a / width <= b / width
  {
    var p, q := a / width, b / width;
    Quotient(a, width);
    Quotient(b, width);
    if p > q {
      TimesLess(p, q, width);
    }
  }

  lemma TruncDivIsMonotone(a: int, b: int, width: Width)
    requires a <= b
    ensures TruncDiv(a, width) <= TruncDiv(b, width)
  {
    if a >= 0 {
      DivIsMonotone(a, b, width);
    } else if b < 0 {
      DivIsMonotone(-b, -a, width);
    } else {
      Quotient(b, width);
      Quotient(-a, width);
      DivIsMonotone(0, b, width);
      DivIsMonotone(0, -a, width);
    }
  }

  /** The bucket is the one the store's query computes by truncating division. */
  lemma BucketTimeIsBucket(time: int, width: Width)
    ensures BucketTime(time, width) == TruncDiv(time / NANOS, width) * width
  {
    var secs := time / NANOS;
    if secs >= 0 {
      Quotient(secs, width);
    } else {
      Quotient(-secs, width);
      var q := -secs / width;
      assert -q * width == -(q * width);
    }
  }

  lemma BucketTimeIsAligned(time: int, width: Width)
    ensures BucketTime(time, width) % width == 0
    ensures BucketTime(time, width) * NANOS <= time + (width - 1) * NANOS
    ensures time >= 0 ==> BucketTime(time, width) * NANOS <= time
  {
    var secs := time / NANOS;
    BucketTimeIsBucket(time, width);
    Multiple(TruncDiv(secs, width), width);
    if secs >= 0 {
      Quotient(secs, width);
    } else {
      Quotient(-secs, width);
    }
  }

  lemma BucketTimeIsMonotone(a: int, b: int, width: Width)
    requires a <= b
    ensures BucketTime(a, width) <= BucketTime(b, width)
  {
    BucketTimeIsBucket(a, width);
    BucketTimeIsBucket(b, width);
    hide BucketTime;
    var p, q := TruncDiv(a / NANOS, width), TruncDiv(b / NANOS, width);
    TruncDivIsMonotone(a / NANOS, b / NANOS, width);
    if p < q {
      TimesLess(q, p, width);
    }
  }

  // ---------------------------------------------------------------- what recording computes

  function Add(cells: seq<Cell>, start: int, value: int): seq<Cell>
  {
    var n := |cells| - 1;
    if n >= 0 && cells[n].start == start then cells[n := Cell(start, cells[n].value + value)]
    else cells + [Cell(start, value)]
  }

  /** Drops cells before the cutoff from the front. */
  function Trim(cells: seq<Cell>, cutoff: int): seq<Cell>
  {
    if cells != [] && cells[0].start * NANOS < cutoff then Trim(cells[1..], cutoff) else cells
  }

  function Cutoff(now: int, width: Width, count: nat): int
  {
    now - width * count * NANOS
  }

  function Push(cells: seq<Cell>, r: Record, width: Width, count: nat): seq<Cell>
  {
    Trim(Add(cells, Start(r, width), r.value), Cutoff(r.now, width, count))
  }

  /** The buckets after a list of records. */
  function After(records: seq<Record>, width: Width, count: nat): seq<Cell>
  {
    if records == [] then []
    else Push(After(records[..|records| - 1], width, count), records[|records| - 1], width, count)
  }

  class SlidingWindow {
    const width: Width
    const count: nat
    var buckets: seq<Cell>
    ghost var records: seq<Record>

    ghost predicate Valid()
      reads this
    {
      buckets == After(records, width, count)
    }

    constructor (width: Width, count: nat)
      ensures Valid() && records == [] && this.width == width && this.count == count
    {
      this.width, this.count, buckets, records := width, count, [], [];
    }

    /** `record_at`, when `trim` reads the clock as `now`. */
    method RecordAt(value: int, time: int, now: int)
      requires Valid()
      modifies this
      ensures Valid() && records == old(records) + [Record(value, time, now)]
    {
      hide BucketTime, Trim, After;
      ghost var r := Record(value, time, now);
      AfterSnoc(records, r, width, count);
      records := records + [r];
      ghost var before := buckets;
      var start := BucketTime(time, width);
      if |buckets| > 0 && buckets[|buckets| - 1].start == start {
        buckets := buckets[|buckets| - 1 := Cell(start, buckets[|buckets| - 1].value + value)];
        assert buckets == Add(before, start, value);
        TrimFront(now);
        return;
      }
      buckets := buckets + [Cell(start, value)];
      assert buckets == Add(before, start, value);
      TrimFront(now);
    }

    /** `trim`. */
    method TrimFront(now: int)
      modifies this`buckets
      ensures buckets == Trim(old(buckets), Cutoff(now, width, count))
      ensures |buckets| <= |old(buckets)|
      ensures var k, length := |old(buckets)| - |buckets|, width * count * 1_000_000_000;
        && buckets == old(buckets)[k..]
        && (forall i :: 0 <= i < k ==> old(buckets)[i].start * 1_000_000_000 + length < now)
        && (buckets != [] ==> buckets[0].start * 1_000_000_000 + length >= now)
    {
      var cutoff := now - width * count * NANOS;
      while |buckets| > 0
        invariant Trim(buckets, cutoff) == Trim(old(buckets), cutoff)
        invariant |buckets| <= |old(buckets)| && buckets == old(buckets)[|old(buckets)| - |buckets|..]
        invariant forall i :: 0 <= i < |old(buckets)| - |buckets| ==> old(buckets)[i].start * NANOS < cutoff
        decreases |buckets|
      {
        if buckets[0].start * NANOS < cutoff {
          buckets := buckets[1..];
        } else {
          break;
        }
      }
    }

    /** `sum`. */
    method Sum() returns (sum: int)
      ensures sum == Total(buckets)
    {
      sum := 0;
      for i := 0 to |buckets|
        invariant sum == Total(buckets[..i])
      {
        assert buckets[..i + 1][..i] == buckets[..i];
        sum := sum + buckets[i].value;
      }
      assert buckets[..|buckets|] == buckets;
    }
  }

  function Total(cells: seq<Cell>): int
  {
    if cells == [] then 0 else Total(cells[..|cells| - 1]) + cells[|cells| - 1].value
  }

  // ---------------------------------------------------------------- what the buckets hold

  /** Records come in time order, none from the future. */
  ghost predicate SteadyClock(records: seq<Record>)
  {
    && (forall i :: 0 <= i < |records| ==> records[i].time <= records[i].now)
    && (forall i, j :: 0 <= i < j < |records| ==>
          records[i].time <= records[j].time && records[i].now <= records[j].now)
  }

  /** The sum of the values recorded in the bucket that starts at `start`. */
  function SumIn(records: seq<Record>, width: Width, start: int): int
  {
    if records == [] then 0
    else
      var r := records[|records| - 1];
      SumIn(records[..|records| - 1], width, start) + ValueIn(r, width, start)
  }

  function ValueIn(r: Record, width: Width, start: int): int
  {
    if Start(r, width) == start then r.value else 0
  }

  ghost predicate Recorded(records: seq<Record>, width: Width, start: int)
  {
    exists r :: r in records && Start(r, width) == start
  }

  ghost predicate Has(cells: seq<Cell>, start: int)
  {
    exists c :: c in cells && c.start == start
  }

  ghost predicate InOrder(cells: seq<Cell>)
  {
    forall i, j :: 0 <= i < j < |cells| ==> cells[i].start < cells[j].start
  }

  /** From the cutoff on, `cells` has exactly the buckets recorded in, each with the sum of its values. */
  ghost predicate Right(cells: seq<Cell>, records: seq<Record>, width: Width, cutoff: int)
  {
    && InOrder(cells)
    && (forall c :: c in cells ==> Recorded(records, width, c.start))
    && (forall c :: c in cells && c.start * NANOS >= cutoff ==> c.value == SumIn(records, width, c.start))
    && (forall r :: r in records && Start(r, width) * NANOS >= cutoff ==> Has(cells, Start(r, width)))
  }

  /** As `Right`, and there is nothing before the cutoff. */
  ghost predicate Exact(cells: seq<Cell>, records: seq<Record>, width: Width, cutoff: int)
  {
    Right(cells, records, width, cutoff) && forall c :: c in cells ==> c.start * NANOS >= cutoff
  }

  lemma {:induction false} NothingIn(records: seq<Record>, width: Width, start: int)
    requires !Recorded(records, width, start)
    ensures SumIn(records, width, start) == 0
  {
    if records != [] {
      var before, r := records[..|records| - 1], records[|records| - 1];
      assert r in records;
      assert forall q :: q in before ==> q in records;
      NothingIn(before, width, start);
    }
  }

  lemma RecordedSnoc(records: seq<Record>, r: Record, width: Width)
    ensures forall s :: Recorded(records + [r], width, s) <==> Recorded(records, width, s) || s == Start(r, width)
    ensures forall s :: SumIn(records + [r], width, s) == SumIn(records, width, s) + ValueIn(r, width, s)
  {
    var after := records + [r];
    assert after[..|records|] == records;
    forall s ensures Recorded(after, width, s) <==> Recorded(records, width, s) || s == Start(r, width) {
      if Recorded(records, width, s) {
        var q :| q in records && Start(q, width) == s;
        assert q in after;
      }
      if s == Start(r, width) {
        assert r in after;
      }
    }
  }

  lemma AddToLast(cells: seq<Cell>, records: seq<Record>, r: Record, width: Width, cutoff: int)
    requires Exact(cells, records, width, cutoff) && cells != [] && cells[|cells| - 1].start == Start(r, width)
    ensures Right(Add(cells, Start(r, width), r.value), records + [r], width, cutoff)
  {
    hide SumIn, Recorded, Start;
    var s, n := Start(r, width), |cells| - 1;
    RecordedSnoc(records, r, width);
    assert cells[n] in cells;
    var after := cells[n := Cell(s, cells[n].value + r.value)];
    assert after[n] in after;
    forall c | c in after ensures c == after[n] || (c in cells && c.start < s) {
      var i :| 0 <= i <= n && c == after[i];
      assert i < n ==> c == cells[i];
    }
    forall q | q in records + [r] && Start(q, width) * NANOS >= cutoff ensures Has(after, Start(q, width)) {
      if q in records {
        var c :| c in cells && c.start == Start(q, width);
        var i :| 0 <= i <= n && c == cells[i];
        assert i < n ==> after[i] == c;
      }
    }
  }

  lemma AddNew(cells: seq<Cell>, records: seq<Record>, r: Record, width: Width, cutoff: int)
    requires Exact(cells, records, width, cutoff) && forall c :: c in cells ==> c.start < Start(r, width)
    ensures Right(cells + [Cell(Start(r, width), r.value)], records + [r], width, cutoff)
  {
    hide SumIn, Recorded, Start;
    var s := Start(r, width);
    RecordedSnoc(records, r, width);
    var after := cells + [Cell(s, r.value)];
    assert after[|cells|] in after;
    if s * NANOS >= cutoff {
      if Recorded(records, width, s) { RecordedMeansHas(cells, records, width, cutoff, s); }
      NothingIn(records, width, s);
    }
    forall q | q in records + [r] && Start(q, width) * NANOS >= cutoff ensures Has(after, Start(q, width)) {
      if q in records {
        var c :| c in cells && c.start == Start(q, width);
        assert c in after;
      }
    }
  }

  lemma AddIsRight(cells: seq<Cell>, records: seq<Record>, r: Record, width: Width, cutoff: int)
    requires Exact(cells, records, width, cutoff)
    requires forall q :: q in records ==> Start(q, width) <= Start(r, width)
    ensures Right(Add(cells, Start(r, width), r.value), records + [r], width, cutoff)
  {
    hide SumIn, Recorded, Start;
    var s, n := Start(r, width), |cells| - 1;
    if n >= 0 && cells[n].start == s {
      AddToLast(cells, records, r, width, cutoff);
    } else {
      forall c | c in cells ensures c.start < s {
        var i :| 0 <= i <= n && cells[i] == c;
        assert cells[n] in cells;
        LatestStart(records, r, width, cells[n].start);
        assert i < n ==> cells[i].start < cells[n].start;
      }
      AddNew(cells, records, r, width, cutoff);
    }
  }

  lemma LatestStart(records: seq<Record>, r: Record, width: Width, start: int)
    requires Recorded(records, width, start)
    requires forall q :: q in records ==> Start(q, width) <= Start(r, width)
    ensures start <= Start(r, width)
  {
  }

  lemma RecordedMeansHas(cells: seq<Cell>, records: seq<Record>, width: Width, cutoff: int, s: int)
    requires Right(cells, records, width, cutoff) && Recorded(records, width, s) && s * NANOS >= cutoff
    ensures Has(cells, s)
  {
  }

  lemma {:induction false} TrimIsExact(cells: seq<Cell>, records: seq<Record>, width: Width, cutoff: int, later: int)
    requires Right(cells, records, width, cutoff) && cutoff <= later
    ensures Exact(Trim(cells, later), records, width, later)
    decreases |cells|
  {
    hide SumIn, Recorded, Start;
    if cells != [] && cells[0].start * NANOS < later {
      assert Right(cells[1..], records, width, later) by {
        forall r | r in records && Start(r, width) * NANOS >= later ensures Has(cells[1..], Start(r, width)) {
          var c :| c in cells && c.start == Start(r, width);
          assert c != cells[0] && c in cells[1..];
        }
      }
      TrimIsExact(cells[1..], records, width, later, later);
    } else {
      forall c | c in cells ensures c.start * NANOS >= later {
        var i :| 0 <= i < |cells| && cells[i] == c;
        assert i > 0 ==> cells[0].start < cells[i].start;
      }
    }
  }

  lemma {:induction false} HeldIsExact(records: seq<Record>, width: Width, count: nat)
    requires SteadyClock(records) && records != []
    ensures Exact(After(records, width, count), records, width, Cutoff(records[|records| - 1].now, width, count))
  {
    hide SumIn, Trim, Exact, Right;
    var n := |records| - 1;
    var before, r := records[..n], records[n];
    assert records == before + [r];
    var cells := After(before, width, count);
    forall q | q in before ensures Start(q, width) <= Start(r, width) {
      var i :| 0 <= i < n && q == records[i];
      BucketTimeIsMonotone(q.time, r.time, width);
    }
    var cutoff := Cutoff(r.now, width, count);
    if n == 0 {
      NothingIsExact(width, cutoff);
      AddIsRight([], [], r, width, cutoff);
      TrimIsExact(Add([], Start(r, width), r.value), records, width, cutoff, cutoff);
    } else {
      HeldIsExact(before, width, count);
      var earlier := Cutoff(records[n - 1].now, width, count);
      AddIsRight(cells, before, r, width, earlier);
      TrimIsExact(Add(cells, Start(r, width), r.value), records, width, earlier, cutoff);
    }
  }

  /**
   With a steady clock the window holds, after every record, a bucket exactly if it was recorded in and started
   no longer than the window's length before the last reading; in order, with the sum of its values.
  */
  lemma BucketsAreExact(records: seq<Record>, width: Width, count: nat)
    requires SteadyClock(records) && records != []
    ensures var cells, now := After(records, width, count), records[|records| - 1].now;
      && InOrder(cells) && (forall c :: c in cells ==> c.value == SumIn(records, width, c.start))
      && forall s ::
          Has(cells, s) <==> Recorded(records, width, s) && s * 1_000_000_000 + width * count * 1_000_000_000 >= now
  {
    hide After, SumIn, BucketTime;
    var cells, now := After(records, width, count), records[|records| - 1].now;
    HeldIsExact(records, width, count);
    forall s ensures Has(cells, s) <==>
      Recorded(records, width, s) && s * 1_000_000_000 + width * count * 1_000_000_000 >= now
    {
      if Recorded(records, width, s) && s * NANOS >= Cutoff(now, width, count) {
        RecordedMeansHas(cells, records, width, Cutoff(now, width, count), s);
      }
    }
  }

  lemma NothingIsExact(width: Width, cutoff: int)
    ensures Exact([], [], width, cutoff)
  {
  }

  // ---------------------------------------------------------------- at most one bucket more than configured

  lemma {:induction false} CellsAreSpread(cells: seq<Cell>, width: Width, k: nat)
    requires InOrder(cells) && k < |cells| && forall c :: c in cells ==> c.start % width == 0
    ensures cells[k].start >= cells[0].start + k * width
  {
    if k > 0 {
      CellsAreSpread(cells, width, k - 1);
      assert cells[k - 1] in cells && cells[k] in cells;
      NextMultiple(cells[k - 1].start, cells[k].start, width);
      assert k * width == (k - 1) * width + width;
    }
  }

  /** The window never holds more than one bucket above the configured number, even before the epoch. */
  lemma WindowIsBounded(records: seq<Record>, width: Width, count: nat)
    requires SteadyClock(records)
    ensures |After(records, width, count)| <= count + 1
  {
    hide After, BucketTime;
    if records == [] {
      NoRecordsNoCells(width, count);
    } else {
      var cells, r := After(records, width, count), records[|records| - 1];
      HeldIsExact(records, width, count);
      if |cells| > 0 {
        var d := |cells| - 1;
        forall c | c in cells
          ensures c.start % width == 0 && c.start * NANOS <= r.now + (width - 1) * NANOS
        {
          var q :| q in records && Start(q, width) == c.start;
          BucketTimeIsAligned(q.time, width);
          var i :| 0 <= i < |records| && records[i] == q;
          assert q.time <= r.now;
        }
        CellsAreSpread(cells, width, d);
        assert cells[0] in cells && cells[d] in cells;
        AtMost(d, count, width, cells[0].start, cells[d].start, r.now);
      }
    }
  }

  lemma NoRecordsNoCells(width: Width, count: nat)
    ensures After([], width, count) == []
  {
  }

  lemma AtMost(d: nat, count: nat, width: Width, first: int, last: int, now: int)
    requires last >= first + d * width && first * NANOS >= Cutoff(now, width, count)
    requires last * NANOS <= now + (width - 1) * NANOS
    ensures d <= count
  {
    assert (last - first) * NANOS <= (width * count + width - 1) * NANOS;
    assert d * width <= width * count + width - 1;
    if d > count {
      TimesLess(d, count, width);
    }
  }

  // ---------------------------------------------------------------- the sum of the window

  /** The sum of the values recorded in any of the buckets of `starts`. */
  function SumOver(records: seq<Record>, width: Width, starts: set<int>): int
  {
    if records == [] then 0
    else
      var r := records[|records| - 1];
      SumOver(records[..|records| - 1], width, starts) + if Start(r, width) in starts then r.value else 0
  }

  /** The sum of the values recorded in buckets from the cutoff on. */
  function SumSince(records: seq<Record>, width: Width, cutoff: int): int
  {
    if records == [] then 0
    else
      var r := records[|records| - 1];
      SumSince(records[..|records| - 1], width, cutoff) + if Start(r, width) * NANOS >= cutoff then r.value else 0
  }

  lemma {:induction false} SumOverAdd(records: seq<Record>, width: Width, starts: set<int>, s: int)
    requires s !in starts
    ensures SumOver(records, width, starts + {s}) == SumOver(records, width, starts) + SumIn(records, width, s)
  {
    if records != [] {
      SumOverAdd(records[..|records| - 1], width, starts, s);
    }
  }

  lemma {:induction false} SumOverNothing(records: seq<Record>, width: Width)
    ensures SumOver(records, width, {}) == 0
  {
    if records != [] {
      SumOverNothing(records[..|records| - 1], width);
    }
  }

  lemma {:induction false} SumOverIsSumSince(records: seq<Record>, width: Width, starts: set<int>, cutoff: int)
    requires forall r :: r in records ==> (Start(r, width) in starts <==> Start(r, width) * NANOS >= cutoff)
    ensures SumOver(records, width, starts) == SumSince(records, width, cutoff)
  {
    if records != [] {
      SumOverIsSumSince(records[..|records| - 1], width, starts, cutoff);
    }
  }

  ghost function Starts(cells: seq<Cell>): set<int>
  {
    set c | c in cells :: c.start
  }

  lemma {:induction false} TotalIsSumOver(cells: seq<Cell>, records: seq<Record>, width: Width)
    requires InOrder(cells) && forall c :: c in cells ==> c.value == SumIn(records, width, c.start)
    ensures Total(cells) == SumOver(records, width, Starts(cells))
  {
    hide SumIn, SumOver;
    if cells == [] {
      assert Starts(cells) == {};
      SumOverNothing(records, width);
    } else {
      var n := |cells| - 1;
      var before := cells[..n];
      TotalIsSumOver(before, records, width);
      assert cells[n] in cells && cells == before + [cells[n]];
      assert Starts(cells) == Starts(before) + {cells[n].start};
      SumOverAdd(records, width, Starts(before), cells[n].start);
    }
  }

  /** `sum` is the sum of everything recorded in buckets of the window. */
  lemma WindowSum(records: seq<Record>, width: Width, count: nat)
    requires SteadyClock(records) && records != []
    ensures Total(After(records, width, count)) ==
      SumSince(records, width, records[|records| - 1].now - width * count * 1_000_000_000)
  {
    hide After, SumIn, SumOver, SumSince, Total, Start;
    var cells, cutoff := After(records, width, count), Cutoff(records[|records| - 1].now, width, count);
    HeldIsExact(records, width, count);
    TotalIsSumOver(cells, records, width);
    SumOverIsSumSince(records, width, Starts(cells), cutoff);
  }

  // ---------------------------------------------------------------- the window and the store

  function ValueAt(cells: seq<Cell>, start: int): int
  {
    if cells == [] then 0
    else if cells[|cells| - 1].start == start then cells[|cells| - 1].value
    else ValueAt(cells[..|cells| - 1], start)
  }

  lemma {:induction false} ValueAtCell(cells: seq<Cell>, start: int)
    requires InOrder(cells)
    ensures forall c :: c in cells && c.start == start ==> ValueAt(cells, start) == c.value
    ensures !Has(cells, start) ==> ValueAt(cells, start) == 0
  {
    if cells != [] {
      var n := |cells| - 1;
      ValueAtCell(cells[..n], start);
      assert cells == cells[..n] + [cells[n]] && cells[n] in cells;
      assert forall c :: c in cells[..n] ==> c in cells;
    }
  }

  /** The window's records are the events, each counted once, at most `delay` after the event was stamped. */
  ghost predicate Counting(records: seq<Record>, events: seq<Event>, delay: nat)
  {
    && |records| == |events|
    && forall i :: 0 <= i < |events| ==> Counted(records[i], events[i], delay)
  }

  ghost predicate Counted(r: Record, e: Event, delay: nat)
  {
    r.value == 1 && 0 <= EpochNanos(e.timestamp) <= r.time <= EpochNanos(e.timestamp) + delay
  }

  /** Stamped within the delay before `edge`, so that it may be counted after it. */
  function JustBefore(edge: int, delay: nat): Event -> bool
  {
    (e: Event) => edge * NANOS - delay <= EpochNanos(e.timestamp) < edge * NANOS
  }

  lemma BucketInterval(time: nat, width: Width)
    ensures var s := BucketTime(time, width); s * NANOS <= time < (s + width) * NANOS
  {
    Quotient(time / NANOS, width);
  }

  /** Only what happened just before an edge is counted in another bucket. */
  lemma MovedBucket(t: nat, t': nat, delay: nat, width: Width, start: int)
    requires t <= t' <= t + delay
    ensures BucketTime(t', width) == start != BucketTime(t, width) ==> start * NANOS - delay <= t < start * NANOS
    ensures BucketTime(t, width) == start != BucketTime(t', width) ==>
      (start + width) * NANOS - delay <= t < (start + width) * NANOS
  {
    BucketTimeIsMonotone(t, t', width);
    BucketTimeIsAligned(t, width);
    BucketTimeIsAligned(t', width);
    BucketInterval(t, width);
    BucketInterval(t', width);
    if BucketTime(t, width) < BucketTime(t', width) {
      NextMultiple(BucketTime(t, width), BucketTime(t', width), width);
    }
    hide BucketTime;
  }

  lemma InBucketIsStart(e: Event, after: Utc, width: Width, start: int)
    requires EpochNanos(e.timestamp) >= 0 && start * NANOS >= EpochNanos(after)
    ensures InBucket(after, width, start)(e) <==> BucketTime(EpochNanos(e.timestamp), width) == start
  {
    BucketTimeIsBucket(EpochNanos(e.timestamp), width);
    BucketTimeIsAligned(EpochNanos(e.timestamp), width);
    hide BucketTime;
    assert EpochNanos(e.timestamp) / NANOS == EpochSeconds(e.timestamp) by { hide EpochSeconds; }
  }

  /** Window and store differ on a bucket by what moved into it over its start and out of it over its end. */
  ghost predicate Close(sum: int, count: int, movedIn: int, movedOut: int)
  {
    sum - count <= movedIn && count - sum <= movedOut
  }

  lemma {:induction false} SumIsClose(
    records: seq<Record>, events: seq<Event>, delay: nat, after: Utc, width: Width, start: int)
    requires Counting(records, events, delay) && start * NANOS >= EpochNanos(after)
    ensures Close(SumIn(records, width, start), |Keep(events, InBucket(after, width, start))|,
                  |Keep(events, JustBefore(start, delay))|, |Keep(events, JustBefore(start + width, delay))|)
  {
    hide BucketTime, EpochNanos, InBucket;
    if events != [] {
      var n := |events| - 1;
      SumIsClose(records[..n], events[..n], delay, after, width, start);
      assert Counted(records[n], events[n], delay);
      InBucketIsStart(events[n], after, width, start);
      MovedBucket(EpochNanos(events[n].timestamp), records[n].time, delay, width, start);
    }
  }

  lemma {:induction false} NothingJustBefore(events: seq<Event>, edge: int)
    ensures Keep(events, JustBefore(edge, 0)) == []
  {
    if events != [] {
      NothingJustBefore(events[..|events| - 1], edge);
    }
  }

  /**
   On the same events a bucket of the window counts what the store's time series counts, from wherever the
   series is asked for, but for the events stamped within the counting delay before the bucket's start, which it
   may count in addition, and before its end, which it may miss; without delay the two are equal. This for all
   buckets that start at or after both the window's cutoff and the asked time.
  */
  lemma WindowIsTimeSeries(
    records: seq<Record>, events: seq<Event>, delay: nat, after: Utc, width: Width, count: nat, start: int)
    requires SteadyClock(records) && Counting(records, events, delay) && records != []
    requires EpochNanos(after) <= start * NANOS
    requires records[|records| - 1].now <= start * 1_000_000_000 + width * count * 1_000_000_000
    ensures var shown := ValueAt(After(records, width, count), start);
      var stored := CountIn(Series(events, after, width), start);
      && shown - stored <= |Keep(events, JustBefore(start, delay))|
      && stored - shown <= |Keep(events, JustBefore(start + width, delay))|
      && (delay == 0 ==> shown == stored)
  {
    hide After, SumIn, EpochNanos, Start, Series, CountIn, ValueAt, Counting, JustBefore, InBucket;
    var cells := After(records, width, count);
    HeldIsExact(records, width, count);
    ValueAtCell(cells, start);
    if !Has(cells, start) {
      forall r | r in records ensures Start(r, width) != start {
      }
      NothingIn(records, width, start);
    }
    SumIsClose(records, events, delay, after, width, start);
    SeriesCounts(events, after, width, start);
    if delay == 0 {
      NothingJustBefore(events, start);
      NothingJustBefore(events, start + width);
    }
  }

  // ---------------------------------------------------------------- windows by name

  datatype Named = Named(name: string, record: Record)

  /** `LabeledWindow`: a window for each name, created when the name is first recorded. */
  class LabeledWindow {
    const width: Width
    const count: nat
    var windows: map<string, seq<Cell>>
    ghost var records: seq<Named>

    ghost predicate Valid()
      reads this
    {
      forall name :: if name in windows then windows[name] == After(RecordsOf(records, name), width, count)
                     else RecordsOf(records, name) == []
    }

    constructor (width: Width, count: nat)
      ensures Valid() && records == [] && this.width == width && this.count == count
    {
      this.width, this.count, windows, records := width, count, map[], [];
    }

    /** `record`; every name keeps a window of its own records only. */
    method Record(name: string, r: Record)
      requires Valid()
      modifies this
      ensures Valid() && records == old(records) + [Named(name, r)]
    {
      hide Push, After;
      var window := if name in windows then windows[name] else [];
      if name !in windows {
        NoRecordsNoCells(width, count);
      }
      AfterSnoc(RecordsOf(records, name), r, width, count);
      forall other { RecordsOfSnoc(records, Named(name, r), other); }
      windows := windows[name := Push(window, r, width, count)];
      records := records + [Named(name, r)];
    }
  }

  lemma AfterSnoc(records: seq<Record>, r: Record, width: Width, count: nat)
    ensures After(records + [r], width, count) == Push(After(records, width, count), r, width, count)
  {
    assert (records + [r])[..|records|] == records;
  }

  lemma RecordsOfSnoc(records: seq<Named>, last: Named, name: string)
    ensures RecordsOf(records + [last], name) ==
      if last.name == name then RecordsOf(records, name) + [last.record] else RecordsOf(records, name)
  {
    assert (records + [last])[..|records|] == records;
  }

  function RecordsOf(records: seq<Named>, name: string): seq<Record>
  {
    if records == [] then []
    else
      var last := records[|records| - 1];
      RecordsOf(records[..|records| - 1], name) + if last.name == name then [last.record] else []
  }

  ghost predicate SteadyNames(records: seq<Named>)
  {
    && (forall i :: 0 <= i < |records| ==> records[i].record.time <= records[i].record.now)
    && (forall i, j :: 0 <= i < j < |records| ==>
          records[i].record.time <= records[j].record.time && records[i].record.now <= records[j].record.now)
  }

  /** What holds of a window on a steady clock holds of each named one. */
  lemma {:induction false} EachNameIsSteady(records: seq<Named>, name: string)
    requires SteadyNames(records)
    ensures SteadyClock(RecordsOf(records, name))
    ensures forall r :: r in RecordsOf(records, name) ==> exists n :: n in records && n.record == r
  {
    if records != [] {
      var n := |records| - 1;
      var before, last := records[..n], records[n];
      EachNameIsSteady(before, name);
      assert last in records && forall m :: m in before ==> m in records;
      forall r | r in RecordsOf(before, name) ensures r.time <= last.record.time && r.now <= last.record.now {
        var m :| m in before && m.record == r;
      }
    }
  }
}
