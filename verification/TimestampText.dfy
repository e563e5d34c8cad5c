/**
 Stored timestamps are text. `to_rfc3339` writes a UTC time with a fraction of 0, 3, 6 or 9 digits,
 and the store compares such texts byte by byte; this module relates that order to time.
*/
module TimestampText {
  import opened Options
  import opened Numerals

  datatype DateTime = DateTime(year: int, month: int, day: int, hour: int, minute: int, second: int, nanos: int)
  {
    /** A UTC time of the proleptic Gregorian calendar whose year has four digits. */
    predicate Valid()
    {
      && 0 <= year <= 9999 && 1 <= month <= 12 && 1 <= day <= DaysInMonth(year, month)
      && 0 <= hour < 24 && 0 <= minute < 60 && 0 <= second < 60 && 0 <= nanos < 1_000_000_000
    }
  }

  predicate IsLeap(y: int) { y % 4 == 0 && (y % 100 != 0 || y % 400 == 0) }

  function YearLength(y: int): int { if IsLeap(y) then 366 else 365 }

  function DaysInMonth(y: int, m: int): int
  {
    if m == 2 then (if IsLeap(y) then 29 else 28)
    else if m == 4 || m == 6 || m == 9 || m == 11 then 30 else 31
  }

  function DaysBeforeYear(y: nat): int
  {
    if y == 0 then 0 else DaysBeforeYear(y - 1) + YearLength(y - 1)
  }

  function DaysBeforeMonth(y: int, m: int): int
    requires 1 <= m <= 13
    decreases m
  {
    if m == 1 then 0 else DaysBeforeMonth(y, m - 1) + DaysInMonth(y, m - 1)
  }

  /** Days from 1 January of year 0 to 1 January 1970. */
  const UNIX_EPOCH_DAY := 719528

  /** `DateTime::timestamp`. */
  function EpochSeconds(t: DateTime): int
    requires t.Valid()
  {
    (((DaysBeforeYear(t.year) + DaysBeforeMonth(t.year, t.month) + t.day - 1 - UNIX_EPOCH_DAY) * 24
      + t.hour) * 60 + t.minute) * 60 + t.second
  }

  function EpochNanos(t: DateTime): int
    requires t.Valid()
  {
    EpochSeconds(t) * 1_000_000_000 + t.nanos
  }

  // ---------------------------------------------------------------- calendar order

  /** Order of the fields, most significant first. */
  predicate FieldsLess(a: DateTime, b: DateTime)
  {
    a.year < b.year || (a.year == b.year && (
    a.month < b.month || (a.month == b.month && (
    a.day < b.day || (a.day == b.day && (
    a.hour < b.hour || (a.hour == b.hour && (
    a.minute < b.minute || (a.minute == b.minute && (
    a.second < b.second || (a.second == b.second && a.nanos < b.nanos)))))))))))
  }

  lemma {:induction false} YearsAdvance(x: nat, y: nat)
    requires x < y
    ensures DaysBeforeYear(x) + YearLength(x) <= DaysBeforeYear(y)
  {
    if x + 1 < y { YearsAdvance(x, y - 1); }
  }

  lemma {:induction false} MonthsAdvance(y: int, m: int, n: int)
    requires 1 <= m < n <= 13
    ensures DaysBeforeMonth(y, m) + DaysInMonth(y, m) <= DaysBeforeMonth(y, n)
    decreases n
  {
    if m + 1 < n { MonthsAdvance(y, m, n - 1); }
  }

  lemma YearHasTwelveMonths(y: int)
    ensures DaysBeforeMonth(y, 13) == YearLength(y)
  {
    assert DaysBeforeMonth(y, 3) == 31 + DaysInMonth(y, 2);
    assert DaysBeforeMonth(y, 5) == DaysBeforeMonth(y, 3) + 61;
    assert DaysBeforeMonth(y, 7) == DaysBeforeMonth(y, 5) + 61;
    assert DaysBeforeMonth(y, 9) == DaysBeforeMonth(y, 7) + 62;
    assert DaysBeforeMonth(y, 11) == DaysBeforeMonth(y, 9) + 61;
  }

  lemma EarlierDate(a: DateTime, b: DateTime)
    requires a.Valid() && b.Valid()
    requires a.year < b.year || (a.year == b.year && a.month < b.month)
    ensures DaysBeforeYear(a.year) + DaysBeforeMonth(a.year, a.month) + a.day
            <= DaysBeforeYear(b.year) + DaysBeforeMonth(b.year, b.month)
  {
    if a.year < b.year {
      YearsAdvance(a.year, b.year);
      YearHasTwelveMonths(a.year);
      MonthsAdvance(a.year, a.month, 13);
      if b.month > 1 { MonthsAdvance(b.year, 1, b.month); }
    } else {
      MonthsAdvance(a.year, a.month, b.month);
    }
  }

  lemma EarlierFields(a: DateTime, b: DateTime)
    requires a.Valid() && b.Valid() && FieldsLess(a, b)
    ensures EpochNanos(a) < EpochNanos(b)
  {
    if a.year < b.year || (a.year == b.year && a.month < b.month) { EarlierDate(a, b); }
  }

  lemma FieldOrderIsTimeOrder(a: DateTime, b: DateTime)
    requires a.Valid() && b.Valid()
    ensures FieldsLess(a, b) <==> EpochNanos(a) < EpochNanos(b)
    ensures a == b <==> EpochNanos(a) == EpochNanos(b)
  {
    if FieldsLess(a, b) { EarlierFields(a, b); }
    else if FieldsLess(b, a) { EarlierFields(b, a); }
  }

  lemma {:induction false} YearsInDays(y: nat)
    ensures DaysBeforeYear(y) == 365 * y + CountUpTo(y, 4) - CountUpTo(y, 100) + CountUpTo(y, 400)
  {
    if y > 0 {
      YearsInDays(y - 1);
      hide IsLeap, CountUpTo;
      MultiplesUpTo(y - 1, 4);
      MultiplesUpTo(y - 1, 100);
      MultiplesUpTo(y - 1, 400);
      LeapDay(y - 1);
    }
  }

  /** The years before `y` that `d` divides. */
  function CountUpTo(y: nat, d: nat): nat
    requires d > 0
  {
    (y + d - 1) / d
  }

  function Divides(d: nat, y: nat): nat
    requires d > 0
  {
    if y % d == 0 then 1 else 0
  }

  lemma LeapDay(y: nat)
    ensures (if IsLeap(y) then 1 else 0) == Divides(4, y) - Divides(100, y) + Divides(400, y)
  {
    if y % 100 == 0 {
      QuotientIs(y, 4, 25 * (y / 100), 0);
    } else if y % 400 == 0 {
      QuotientIs(y, 100, 4 * (y / 400), 0);
    }
  }

  lemma MultiplesUpTo(y: nat, d: nat)
    requires d > 0
    ensures CountUpTo(y + 1, d) == CountUpTo(y, d) + Divides(d, y)
  {
    var q, r := y / d, y % d;
    assert y == q * d + r && (q + 1) * d == q * d + d;
    QuotientIs(y + d, d, q + 1, r);
    if r == 0 {
      QuotientIs(y + d - 1, d, q, d - 1);
    } else {
      QuotientIs(y + d - 1, d, q + 1, r - 1);
    }
  }

  /** The day after a date. */
  function NextDay(t: DateTime): DateTime
  {
    if t.day < DaysInMonth(t.year, t.month) then t.(day := t.day + 1)
    else if t.month < 12 then t.(month := t.month + 1, day := 1)
    else t.(year := t.year + 1, month := 1, day := 1)
  }

  /**
   Seconds count from the beginning of 1970: none at that instant, 86400 from each day to the next, and within a
   day those of the clock. February has 29 days in 2024 and 2000, and 28 in 2023 and 1900.
  */
  lemma SecondsCountFromEpoch(t: DateTime)
    requires t.Valid() && NextDay(t).Valid()
    ensures EpochSeconds(DateTime(1970, 1, 1, 0, 0, 0, 0)) == 0
    ensures EpochSeconds(NextDay(t)) == EpochSeconds(t) + 86_400
    ensures EpochSeconds(t) == EpochSeconds(t.(hour := 0, minute := 0, second := 0))
      + t.hour * 3_600 + t.minute * 60 + t.second
    ensures DaysInMonth(2024, 2) == DaysInMonth(2000, 2) == 29 && DaysInMonth(2023, 2) == DaysInMonth(1900, 2) == 28
  {
    EpochIsZero();
    DaysAdvance(t);
    hide DaysBeforeYear, DaysBeforeMonth;
  }

  lemma EpochIsZero()
    ensures EpochSeconds(DateTime(1970, 1, 1, 0, 0, 0, 0)) == 0
  {
    hide DaysBeforeYear;
    YearsInDays(1970);
    assert DaysBeforeMonth(1970, 1) == 0;
    hide DaysBeforeMonth;
  }

  lemma DaysAdvance(t: DateTime)
    requires t.Valid() && NextDay(t).Valid()
    ensures var n := NextDay(t);
      DaysBeforeYear(n.year) + DaysBeforeMonth(n.year, n.month) + n.day ==
      DaysBeforeYear(t.year) + DaysBeforeMonth(t.year, t.month) + t.day + 1
  {
    YearHasTwelveMonths(t.year);
    if t.day == DaysInMonth(t.year, t.month) {
      assert DaysBeforeMonth(t.year, t.month + 1) == DaysBeforeMonth(t.year, t.month) + DaysInMonth(t.year, t.month);
      assert DaysBeforeYear(t.year + 1) == DaysBeforeYear(t.year) + YearLength(t.year);
      hide DaysBeforeYear, DaysInMonth;
      assert DaysBeforeMonth(t.year + 1, 1) == 0;
    }
  }

  // ---------------------------------------------------------------- text order

  /** SQLite's BINARY collation on ASCII text: byte by byte, a proper prefix first. */
  predicate TextLess(a: string, b: string)
  {
    b != "" && (a == "" || a[0] < b[0] || (a[0] == b[0] && TextLess(a[1..], b[1..])))
  }

  lemma {:induction false} TextLessIrreflexive(a: string)
    ensures !TextLess(a, a)
  {
    if a != "" { TextLessIrreflexive(a[1..]); }
  }

  lemma {:induction false} TextLessTotal(a: string, b: string)
    ensures a == b || TextLess(a, b) || TextLess(b, a)
    ensures !(TextLess(a, b) && TextLess(b, a))
  {
    if a != "" && b != "" {
      TextLessTotal(a[1..], b[1..]);
      assert a == [a[0]] + a[1..] && b == [b[0]] + b[1..];
    }
  }

  lemma {:induction false} TextLessTransitive(a: string, b: string, c: string)
    requires TextLess(a, b) && TextLess(b, c)
    ensures TextLess(a, c)
  {
    if a != "" && a[0] == b[0] == c[0] { TextLessTransitive(a[1..], b[1..], c[1..]); }
  }

  /** Equally long heads decide first, then the tails. */
  lemma {:induction false} HeadsDecide(p: string, q: string, x: string, y: string)
    requires |p| == |q|
    ensures TextLess(p + x, q + y) <==> TextLess(p, q) || (p == q && TextLess(x, y))
    ensures p + x == q + y <==> p == q && x == y
  {
    if p == "" {
      assert p + x == x && q + y == y;
    } else {
      HeadsDecide(p[1..], q[1..], x, y);
      assert (p + x)[1..] == p[1..] + x && (q + y)[1..] == q[1..] + y;
      assert p == [p[0]] + p[1..] && q == [q[0]] + q[1..];
      assert p + x == [p[0]] + (p[1..] + x) && q + y == [q[0]] + (q[1..] + y);
    }
  }

  function Quotient(n: nat, d: nat): nat
    requires d > 0
  {
    n / d
  }

  function Remainder(n: nat, d: nat): nat
    requires d > 0
  {
    n % d
  }

  function Pow10(w: nat): (p: nat)
    ensures p > 0
  {
    if w == 0 then 1 else 10 * Pow10(w - 1)
  }

  /** `n` zero-padded to `w` digits. */
  function Digits(n: nat, w: nat): (s: string)
    ensures |s| == w
    decreases w
  {
    if w == 0 then "" else Digits(n / 10, w - 1) + [Digit(n % 10)]
  }

  lemma {:induction false} DigitsOrder(n: nat, m: nat, w: nat)
    requires n < Pow10(w) && m < Pow10(w)
    ensures TextLess(Digits(n, w), Digits(m, w)) <==> n < m
    ensures Digits(n, w) == Digits(m, w) <==> n == m
    decreases w
  {
    if w > 0 {
      DigitsOrder(n / 10, m / 10, w - 1);
      HeadsDecide(Digits(n / 10, w - 1), Digits(m / 10, w - 1), [Digit(n % 10)], [Digit(m % 10)]);
    }
  }

  lemma NumberDecides(n: nat, m: nat, w: nat, x: string, y: string)
    requires n < Pow10(w) && m < Pow10(w)
    ensures TextLess(Digits(n, w) + x, Digits(m, w) + y) <==> n < m || (n == m && TextLess(x, y))
    ensures Digits(n, w) + x == Digits(m, w) + y <==> n == m && x == y
  {
    DigitsOrder(n, m, w);
    HeadsDecide(Digits(n, w), Digits(m, w), x, y);
  }

  lemma SeparatorSkips(c: char, x: string, y: string)
    ensures TextLess([c] + x, [c] + y) <==> TextLess(x, y)
    ensures [c] + x == [c] + y <==> x == y
  {
    assert ([c] + x)[1..] == x && ([c] + y)[1..] == y;
  }

  // ---------------------------------------------------------------- the stored text

  /** The offset every UTC time is written with. */
  const UTC := "+00:00"

  /** As many groups of three digits as the value needs. */
  function FractionWidth(nanos: nat): (w: nat)
    ensures w <= 9
  {
    if nanos == 0 then 0 else if nanos % 1_000_000 == 0 then 3 else if nanos % 1_000 == 0 then 6 else 9
  }

  /** The nanoseconds the last of `w` fraction digits stands for. */
  function UnitOf(w: nat): (u: nat)
    requires w <= 9
    ensures u > 0
  {
    Pow10(9 - w)
  }

  function Leading(nanos: nat, w: nat): nat
    requires w <= 9
  {
    Quotient(nanos, UnitOf(w))
  }

  /** The first `w` digits of the fraction, behind a point if there are any. */
  function FirstDigits(nanos: nat, w: nat): string
    requires w <= 9
  {
    if w == 0 then "" else ['.'] + Digits(Leading(nanos, w), w)
  }

  function Fraction(nanos: nat): string
  {
    FirstDigits(nanos, FractionWidth(nanos))
  }

  /** Date and time down to the second, followed by `rest`. */
  function ToSecond(t: DateTime, rest: string): string
    requires t.Valid()
  {
    Digits(t.year, 4) + ("-" + (Digits(t.month, 2) + ("-" + (Digits(t.day, 2) + ("T" + TimeOfDay(t, rest))))))
  }

  function TimeOfDay(t: DateTime, rest: string): string
    requires t.Valid()
  {
    Digits(t.hour, 2) + (":" + (Digits(t.minute, 2) + (":" + (Digits(t.second, 2) + rest))))
  }

  /** `to_rfc3339`, with the automatic fraction width. */
  function Rfc3339(t: DateTime): string
    requires t.Valid()
  {
    ToSecond(t, Fraction(t.nanos) + UTC)
  }

  /** A time written out. */
  lemma WrittenTime()
    ensures var t := DateTime(2024, 2, 29, 13, 5, 9, 0);
      && t.Valid() && Rfc3339(t) == "2024-02-29T13:05:09" + "+00:00"
      && Rfc3339(t.(nanos := 120_000_000)) == "2024-02-29T13:05:09" + ".120" + "+00:00"
  {
    var t := DateTime(2024, 2, 29, 13, 5, 9, 0);
    WrittenFraction();
    hide Fraction;
    WrittenSecond(t, "+00:00");
    WrittenSecond(t, ".120" + "+00:00");
    WrittenSecond(t.(nanos := 120_000_000), ".120" + "+00:00");
    hide ToSecond;
    assert "2024-02-29T13:05:09" + (".120" + "+00:00") == "2024-02-29T13:05:09" + ".120" + "+00:00";
  }

  lemma WrittenFraction()
    ensures Fraction(0) == "" && Fraction(120_000_000) == ".120"
  {
    LargePowers();
    ThreeDigits(120);
    hide Digits, Pow10;
    assert Leading(120_000_000, 3) == 120;
  }

  lemma WrittenSecond(t: DateTime, rest: string)
    requires t.Valid() && t.(nanos := 0) == DateTime(2024, 2, 29, 13, 5, 9, 0)
    ensures ToSecond(t, rest) == "2024-02-29T13:05:09" + rest
  {
    hide Digits;
    WrittenNumbers();
    WrittenDate(TimeOfDay(t, rest));
    WrittenClock(rest);
    Joined("2024-02-29T", "13:05:09", rest);
  }

  lemma WrittenNumbers()
    ensures Digits(2024, 4) == "2024" && Digits(2, 2) == "02" && Digits(29, 2) == "29"
    ensures Digits(13, 2) == "13" && Digits(5, 2) == "05" && Digits(9, 2) == "09"
  {
    ThreeDigits(202);
    assert Digits(2024, 4) == Digits(202, 3) + [Digit(4)];
    hide Digits;
    TwoDigits(2);
    TwoDigits(29);
    TwoDigits(13);
    TwoDigits(5);
    TwoDigits(9);
  }

  lemma Joined(a: string, b: string, c: string)
    requires a == "2024-02-29T" && b == "13:05:09"
    ensures a + (b + c) == "2024-02-29T13:05:09" + c
  {
    assert a + b == "2024-02-29T13:05:09";
  }

  lemma WrittenDate(rest: string)
    ensures "2024" + ("-" + ("02" + ("-" + ("29" + ("T" + rest))))) == "2024-02-29T" + rest
  {
  }

  lemma WrittenClock(rest: string)
    ensures "13" + (":" + ("05" + (":" + ("09" + rest)))) == "13:05:09" + rest
  {
  }

  lemma OneDigit(n: nat)
    requires n < 10
    ensures Digits(n, 1) == [Digit(n)]
  {
    assert Digits(n / 10, 0) == "" && n % 10 == n;
  }

  lemma TwoDigits(n: nat)
    requires n < 100
    ensures Digits(n, 2) == [Digit(n / 10), Digit(n % 10)]
  {
    OneDigit(n / 10);
    assert Digits(n, 2) == Digits(n / 10, 1) + [Digit(n % 10)];
  }

  lemma ThreeDigits(n: nat)
    requires n < 1000
    ensures Digits(n, 3) == [Digit(n / 10 / 10), Digit(n / 10 % 10), Digit(n % 10)]
  {
    TwoDigits(n / 10);
    assert Digits(n, 3) == Digits(n / 10, 2) + [Digit(n % 10)];
  }

  predicate SameSecond(a: DateTime, b: DateTime)
  {
    a.(nanos := 0) == b.(nanos := 0)
  }

  lemma SecondsDecide(a: DateTime, b: DateTime, x: string, y: string)
    requires a.Valid() && b.Valid()
    ensures TextLess(ToSecond(a, x), ToSecond(b, y))
            <==> FieldsLess(a.(nanos := 0), b.(nanos := 0)) || (SameSecond(a, b) && TextLess(x, y))
    ensures ToSecond(a, x) == ToSecond(b, y) <==> SameSecond(a, b) && x == y
  {
    hide TextLess, Digits;
    var x5, y5 := Digits(a.second, 2) + x, Digits(b.second, 2) + y;
    var x4, y4 := Digits(a.minute, 2) + (":" + x5), Digits(b.minute, 2) + (":" + y5);
    var x3, y3 := Digits(a.hour, 2) + (":" + x4), Digits(b.hour, 2) + (":" + y4);
    var x2, y2 := Digits(a.day, 2) + ("T" + x3), Digits(b.day, 2) + ("T" + y3);
    var x1, y1 := Digits(a.month, 2) + ("-" + x2), Digits(b.month, 2) + ("-" + y2);
    SmallPowers();
    FieldDecides(a.year, b.year, 4, '-', x1, y1);
    FieldDecides(a.month, b.month, 2, '-', x2, y2);
    FieldDecides(a.day, b.day, 2, 'T', x3, y3);
    FieldDecides(a.hour, b.hour, 2, ':', x4, y4);
    FieldDecides(a.minute, b.minute, 2, ':', x5, y5);
    NumberDecides(a.second, b.second, 2, x, y);
  }

  lemma SmallPowers()
    ensures Pow10(2) == 100 && Pow10(3) == 1000 && Pow10(4) == 10000
  {
    assert Pow10(1) == 10;
    assert Pow10(3) == 10 * Pow10(2);
  }

  lemma FieldDecides(n: nat, m: nat, w: nat, c: char, x: string, y: string)
    requires n < Pow10(w) && m < Pow10(w)
    ensures TextLess(Digits(n, w) + ([c] + x), Digits(m, w) + ([c] + y)) <==> n < m || (n == m && TextLess(x, y))
    ensures Digits(n, w) + ([c] + x) == Digits(m, w) + ([c] + y) <==> n == m && x == y
  {
    NumberDecides(n, m, w, [c] + x, [c] + y);
    SeparatorSkips(c, x, y);
  }

  // ---------------------------------------------------------------- fractions of any width

  lemma {:induction false} PowSum(a: nat, b: nat)
    ensures Pow10(a + b) == Pow10(a) * Pow10(b)
  {
    if a > 0 {
      PowSum(a - 1, b);
      Regroup(10, Pow10(a - 1), Pow10(b));
    }
  }

  lemma Regroup(a: int, b: int, c: int)
    ensures a * (b * c) == a * b * c
  {
  }

  /** Whole numbers up to a quotient, by multiplying. */
  lemma UpToQuotient(k: int, d: int, r: int)
    requires d > 0
    ensures r <= k / d <==> r * d <= k
  {
    var q, e := k / d, r - k / d;
    assert k == q * d + k % d && r * d == q * d + e * d;
    if e > 0 {
      assert e * d >= d;
    } else {
      assert e * d <= 0;
    }
  }

  lemma QuotientIs(n: int, d: int, q: int, r: int)
    requires d > 0 && 0 <= r < d && n == q * d + r
    ensures n / d == q && n % d == r
  {
    UpToQuotient(n, d, q);
    UpToQuotient(n, d, q + 1);
    assert (q + 1) * d == q * d + d && n == n / d * d + n % d;
  }

  /** Dividing by ten first. */
  lemma TenFirst(n: nat, p: nat)
    requires p > 0
    ensures n / (10 * p) == n / 10 / p
    ensures n % (10 * p) / 10 == n / 10 % p && n % (10 * p) % 10 == n % 10
  {
    var a, d := n / 10, n % 10;
    var q, r := a / p, a % p;
    assert a == q * p + r && n == 10 * a + d;
    Regroup(q, 10, p);
    Regroup(10, q, p);
    QuotientIs(n, 10 * p, q, 10 * r + d);
    QuotientIs(10 * r + d, 10, r, d);
  }

  lemma {:induction false} DigitsSplit(n: nat, p: nat, q: nat)
    ensures Digits(n, p + q) == Digits(Quotient(n, Pow10(q)), p) + Digits(Remainder(n, Pow10(q)), q)
    decreases q
  {
    if q > 0 {
      TenFirst(n, Pow10(q - 1));
      DigitsSplit(n / 10, p, q - 1);
    }
  }

  lemma {:induction false} FirstDigit(n: nat, w: nat)
    requires w > 0
    ensures '0' <= Digits(n, w)[0] <= '9'
  {
    if w > 1 {
      FirstDigit(n / 10, w - 1);
    }
  }

  /** A fraction of `w` digits and what follows it; no fraction if `w` is 0. */
  function Tail(n: nat, w: nat, rest: string): string
  {
    if w == 0 then rest else ['.'] + (Digits(n, w) + rest)
  }

  /** What sorts before a point and every digit, as the sign of an offset does. */
  predicate Low(y: string) { y != "" && y[0] < '.' }

  /** What sorts after a point and every digit, as `Z` does. */
  predicate High(y: string) { y != "" && y[0] > '9' }

  lemma EqualWidths(r: nat, k: nat, w: nat, x: string, y: string)
    requires r < Pow10(w) && k < Pow10(w)
    ensures TextLess(Tail(r, w, x), Tail(k, w, y)) <==> r < k || (r == k && TextLess(x, y))
  {
    if w > 0 {
      NumberDecides(r, k, w, x, y);
      SeparatorSkips('.', Digits(r, w) + x, Digits(k, w) + y);
    }
  }

  /** Digits both fractions have decide first, then what follows the shorter against a digit of the longer. */
  lemma SharedDigits(r: nat, v: nat, x: string, k: nat, rest: string)
    requires r < Pow10(v) && k < Pow10(v) && (Low(x) || High(x)) && rest != "" && '.' <= rest[0] <= '9'
    ensures var short, long := ['.'] + (Digits(r, v) + x), ['.'] + (Digits(k, v) + rest);
      && (TextLess(short, long) <==> r < k || (r == k && Low(x)))
      && (TextLess(long, short) <==> k < r || (k == r && High(x)))
  {
    hide Digits, Pow10;
    LowOrHigh(x, rest);
    hide TextLess;
    NumberDecides(r, k, v, x, rest);
    NumberDecides(k, r, v, rest, x);
    SeparatorSkips('.', Digits(r, v) + x, Digits(k, v) + rest);
    SeparatorSkips('.', Digits(k, v) + rest, Digits(r, v) + x);
  }

  lemma LongerFraction(k: nat, v: nat, u: nat, y: string) returns (rest: string)
    requires v > 0 && u > 0
    ensures rest != "" && '0' <= rest[0] <= '9'
    ensures Tail(k, v + u, y) == ['.'] + (Digits(Quotient(k, Pow10(u)), v) + rest)
  {
    hide Digits, Pow10;
    DigitsSplit(k, v, u);
    FirstDigit(Remainder(k, Pow10(u)), u);
    rest := Digits(Remainder(k, Pow10(u)), u) + y;
    LeadingDigits(Digits(Quotient(k, Pow10(u)), v), Digits(Remainder(k, Pow10(u)), u), y);
  }

  /** How fractions of `v` and of `v + u` digits compare, where `short` ends the shorter one. */
  predicate Compared(short: string, long: string, r: nat, k: nat, d: nat, low: bool)
  {
    && (TextLess(short, long) <==> if low then r * d <= k else (r + 1) * d <= k)
    && (TextLess(long, short) <==> if low then k < r * d else k < (r + 1) * d)
  }

  lemma ShorterFirst(r: nat, v: nat, x: string, k: nat, u: nat, y: string)
    requires u > 0 && r < Pow10(v) && k < Pow10(v + u) && (Low(x) || High(x))
    ensures Compared(Tail(r, v, x), Tail(k, v + u, y), r, k, Pow10(u), Low(x))
  {
    hide Digits, TextLess;
    if v == 0 {
      NoFraction(x, k, u, y);
    } else {
      PowSum(v, u);
      hide Pow10;
      UpToQuotient(k, Pow10(u), Pow10(v));
      var rest := LongerFraction(k, v, u, y);
      SharedDigits(r, v, x, Quotient(k, Pow10(u)), rest);
      QuotientDecides(k, Pow10(u), r);
    }
  }

  lemma NoFraction(x: string, k: nat, u: nat, y: string)
    requires u > 0 && k < Pow10(u) && (Low(x) || High(x))
    ensures Compared(x, Tail(k, u, y), 0, k, Pow10(u), Low(x))
  {
    hide Digits, Pow10, TextLess;
    LowOrHigh(x, Tail(k, u, y));
  }

  lemma QuotientDecides(k: nat, d: nat, r: nat)
    requires d > 0
    ensures r <= k / d <==> r * d <= k
    ensures r < k / d <==> (r + 1) * d <= k
  {
    UpToQuotient(k, d, r);
    UpToQuotient(k, d, r + 1);
  }

  lemma LeadingDigits(a: string, b: string, y: string)
    ensures a + b + y == a + (b + y)
  {
  }

  lemma LowOrHigh(x: string, y: string)
    requires (Low(x) || High(x)) && y != "" && '.' <= y[0] <= '9'
    ensures TextLess(x, y) <==> Low(x)
    ensures TextLess(y, x) <==> High(x)
  {
  }

  lemma LargePowers()
    ensures Pow10(0) == 1 && Pow10(3) == 1_000 && Pow10(6) == 1_000_000 && Pow10(9) == 1_000_000_000
  {
    SmallPowers();
    PowSum(3, 3);
    PowSum(3, 6);
  }

  lemma WrittenUnits(n: nat)
    ensures UnitOf(FractionWidth(n)) ==
      if n == 0 then 1_000_000_000 else if n % 1_000_000 == 0 then 1_000_000 else if n % 1_000 == 0 then 1_000 else 1
  {
    LargePowers();
    hide Pow10;
  }

  /** The written digits are the whole value. */
  lemma WidthIsEnough(n: nat)
    ensures n % UnitOf(FractionWidth(n)) == 0
  {
    WrittenUnits(n);
    hide UnitOf;
  }

  lemma FirstDigitsAreTail(n: nat, w: nat, y: string)
    requires w <= 9
    ensures FirstDigits(n, w) + y == Tail(Leading(n, w), w, y)
  {
    hide Digits, Leading;
    if w > 0 {
      LeadingDigits(['.'], Digits(Leading(n, w), w), y);
    }
  }

  lemma Scaled(a: int, b: int, u: int)
    requires u > 0
    ensures a * u < b * u <==> a < b
  {
    var e := b - a;
    assert b * u == a * u + e * u;
    if e > 0 {
      assert e * u > 0;
    } else {
      assert e * u <= 0;
    }
  }

  /** How a text of `n` nanoseconds in `v` digits compares with one of `m` nanoseconds in `w`. */
  ghost predicate Against(f: string, g: string, n: int, v: nat, m: int, w: nat, unit: int, y: string)
  {
    && (High(y) ==> (TextLess(f, g) <==> n < m + unit) && (TextLess(g, f) <==> n >= m + unit))
    && (Low(y) ==> (TextLess(f, g) <==> n < m || (n == m && (v < w || (v == w && TextLess(UTC, y))))))
    && (Low(y) ==> (TextLess(g, f) <==> m < n || (n == m && (w < v || (w == v && TextLess(y, UTC))))))
  }

  lemma AgainstEqual(r: nat, k: nat, v: nat, p: nat, y: string)
    requires r < Pow10(v) && k < Pow10(v) && (Low(y) || High(y)) && p > 0
    ensures Against(Tail(r, v, UTC), Tail(k, v, y), r * p, v, k * p, v, p, y)
  {
    EqualWidths(r, k, v, UTC, y);
    EqualWidths(k, r, v, y, UTC);
    Scaled(r, k, p);
    Scaled(k, r, p);
    Scaled(r, k + 1, p);
    assert (k + 1) * p == k * p + p;
    hide Tail, Pow10;
  }

  lemma AgainstLonger(r: nat, v: nat, k: nat, w: nat, q: nat, y: string)
    requires v < w && r < Pow10(v) && k < Pow10(w) && (Low(y) || High(y)) && q > 0
    ensures Against(Tail(r, v, UTC), Tail(k, w, y), r * (Pow10(w - v) * q), v, k * q, w, q, y)
  {
    var d := Pow10(w - v);
    ShorterFirst(r, v, UTC, k, w - v, y);
    Regroup(r, d, q);
    Scaled(r * d, k + 1, q);
    Scaled(k, r * d, q);
    assert (k + 1) * q == k * q + q;
    hide Tail, Pow10, TextLess;
  }

  lemma AgainstShorter(r: nat, v: nat, k: nat, w: nat, p: nat, y: string)
    requires w < v && r < Pow10(v) && k < Pow10(w) && (Low(y) || High(y)) && p > 0
    ensures Against(Tail(r, v, UTC), Tail(k, w, y), r * p, v, k * (Pow10(v - w) * p), w, Pow10(v - w) * p, y)
  {
    var d := Pow10(v - w);
    ShorterFirst(k, w, y, r, v - w, UTC);
    Regroup(k, d, p);
    Regroup(k + 1, d, p);
    Scaled(r, k * d, p);
    Scaled(k * d, r, p);
    Scaled(r, (k + 1) * d, p);
    assert (k + 1) * (d * p) == k * (d * p) + d * p;
    hide Tail, Pow10, TextLess;
  }

  lemma WholeDigits(m: nat, w: nat)
    requires m < 1_000_000_000 && w <= 9 && m % UnitOf(w) == 0
    ensures m == Leading(m, w) * UnitOf(w) && Leading(m, w) < Pow10(w)
  {
    UnitsInSecond(w);
    Multiple(m, UnitOf(w), Pow10(w));
  }

  lemma Multiple(m: nat, d: nat, n: nat)
    requires d > 0 && m % d == 0 && m < n * d
    ensures m == Quotient(m, d) * d && Quotient(m, d) < n
  {
    UpToQuotient(m, d, n);
  }

  lemma UnitsInSecond(w: nat)
    requires w <= 9
    ensures Pow10(w) * UnitOf(w) == 1_000_000_000
  {
    LargePowers();
    PowSum(w, 9 - w);
  }

  lemma UnitRatio(v: nat, w: nat)
    requires v <= w <= 9
    ensures UnitOf(v) == Pow10(w - v) * UnitOf(w)
  {
    PowSum(w - v, 9 - w);
  }

  /** How a stored fraction compares with a fraction of any width up to nine. */
  lemma FractionAgainst(n: nat, m: nat, w: nat, y: string)
    requires n < 1_000_000_000 && m < 1_000_000_000 && w <= 9 && m % UnitOf(w) == 0 && (Low(y) || High(y))
    ensures Against(Fraction(n) + UTC, FirstDigits(m, w) + y, n, FractionWidth(n), m, w, UnitOf(w), y)
  {
    hide Pow10, Tail, FractionWidth, FirstDigits, Against, TextLess, Leading, UnitOf;
    var v := FractionWidth(n);
    WidthIsEnough(n);
    WholeDigits(n, v);
    WholeDigits(m, w);
    FirstDigitsAreTail(n, v, UTC);
    FirstDigitsAreTail(m, w, y);
    TailsAgainst(Leading(n, v), v, Leading(m, w), w, y);
  }

  lemma TailsAgainst(r: nat, v: nat, k: nat, w: nat, y: string)
    requires v <= 9 && w <= 9 && r < Pow10(v) && k < Pow10(w) && (Low(y) || High(y))
    ensures Against(Tail(r, v, UTC), Tail(k, w, y), r * UnitOf(v), v, k * UnitOf(w), w, UnitOf(w), y)
  {
    hide Pow10, Tail, Against, TextLess, UnitOf;
    if v == w {
      AgainstEqual(r, k, v, UnitOf(v), y);
    } else if v < w {
      UnitRatio(v, w);
      AgainstLonger(r, v, k, w, UnitOf(w), y);
    } else {
      UnitRatio(w, v);
      AgainstShorter(r, v, k, w, UnitOf(v), y);
    }
  }

  lemma FractionOrder(n: nat, m: nat)
    requires n < 1_000_000_000 && m < 1_000_000_000
    ensures TextLess(Fraction(n) + UTC, Fraction(m) + UTC) <==> n < m
    ensures Fraction(n) + UTC == Fraction(m) + UTC <==> n == m
  {
    assert Low(UTC);
    hide FirstDigits, TextLess, FractionWidth, UnitOf;
    WidthIsEnough(m);
    TextLessIrreflexive(UTC);
    FractionAgainst(n, m, FractionWidth(m), UTC);
    TextLessTotal(Fraction(n) + UTC, Fraction(m) + UTC);
  }

  /** Comparing stored texts is comparing times, whatever the widths of their fractions. */
  lemma TextOrderIsTimeOrder(a: DateTime, b: DateTime)
    requires a.Valid() && b.Valid()
    ensures TextLess(Rfc3339(a), Rfc3339(b)) <==> EpochNanos(a) < EpochNanos(b)
    ensures Rfc3339(a) == Rfc3339(b) <==> a == b
  {
    SecondsDecide(a, b, Fraction(a.nanos) + UTC, Fraction(b.nanos) + UTC);
    FractionOrder(a.nanos, b.nanos);
    FieldOrderIsTimeOrder(a, b);
  }

  // ---------------------------------------------------------------- reading a stored text

  lemma {:induction false} ValueOfDigits(n: nat, w: nat)
    requires n < Pow10(w)
    ensures ValueOf(Digits(n, w)) == n
    decreases w
  {
    if w > 0 {
      ValueOfDigits(n / 10, w - 1);
      FirstDigit(n, w);
      var s := Digits(n, w);
      assert s[..w - 1] == Digits(n / 10, w - 1);
    }
  }

  function FractionValue(f: string): int
  {
    if |f| == 4 then ValueOf(f[1..]) * 1_000_000
    else if |f| == 7 then ValueOf(f[1..]) * 1_000
    else if |f| == 10 then ValueOf(f[1..])
    else 0
  }

  /** Reads the fields by position and keeps them if they print back: exactly the texts `to_rfc3339` writes. */
  function ParseRfc3339(s: string): Option<DateTime>
  {
    if |s| < 25 then None
    else
      var t := DateTime(ValueOf(s[0..4]), ValueOf(s[5..7]), ValueOf(s[8..10]), ValueOf(s[11..13]), ValueOf(s[14..16]),
                        ValueOf(s[17..19]), FractionValue(s[19..|s| - 6]));
      if t.Valid() && Rfc3339(t) == s then Some(t) else None
  }

  lemma FractionRoundTrip(n: nat)
    requires n < 1_000_000_000
    ensures FractionValue(Fraction(n)) == n
  {
    hide Digits, Leading, UnitOf, Pow10;
    var w := FractionWidth(n);
    if w > 0 {
      WidthIsEnough(n);
      WholeDigits(n, w);
      WrittenUnits(n);
      assert Fraction(n)[1..] == Digits(Leading(n, w), w);
      ValueOfDigits(Leading(n, w), w);
    }
  }

  lemma DatePositions(a: string, b: string, c: string, rest: string, s: string)
    requires |a| == 4 && |b| == |c| == 2 && s == a + ("-" + (b + ("-" + (c + ("T" + rest)))))
    ensures |s| == 11 + |rest| && s[0..4] == a && s[5..7] == b && s[8..10] == c && s[11..] == rest
  {
  }

  lemma TimePositions(d: string, e: string, f: string, g: string, s: string)
    requires |d| == |e| == |f| == 2 && s == d + (":" + (e + (":" + (f + g))))
    ensures |s| == 8 + |g| && s[0..2] == d && s[3..5] == e && s[6..8] == f && s[8..] == g
  {
  }

  lemma Shifted(s: string, f: string)
    requires |s| >= 19 && s[11..][8..] == f + UTC
    ensures |s| == 25 + |f| && s[19..|s| - 6] == f
    ensures s[11..13] == s[11..][0..2] && s[14..16] == s[11..][3..5] && s[17..19] == s[11..][6..8]
  {
    assert s[19..] == f + UTC;
    assert s[19..|s| - 6] == s[19..][..|f|];
  }

  lemma DateIsReadable(t: DateTime, rest: string)
    requires t.Valid()
    ensures var s := ToSecond(t, rest); |s| >= 11 && s[11..] == TimeOfDay(t, rest)
    ensures var s := ToSecond(t, rest);
      ValueOf(s[0..4]) == t.year && ValueOf(s[5..7]) == t.month && ValueOf(s[8..10]) == t.day
  {
    SmallPowers();
    hide Digits, ValueOf, TimeOfDay;
    ValueOfDigits(t.year, 4);
    ValueOfDigits(t.month, 2);
    ValueOfDigits(t.day, 2);
    DatePositions(Digits(t.year, 4), Digits(t.month, 2), Digits(t.day, 2), TimeOfDay(t, rest), ToSecond(t, rest));
  }

  lemma TimeIsReadable(t: DateTime, rest: string)
    requires t.Valid()
    ensures var s := TimeOfDay(t, rest); |s| >= 8 && s[8..] == rest
    ensures var s := TimeOfDay(t, rest);
      ValueOf(s[0..2]) == t.hour && ValueOf(s[3..5]) == t.minute && ValueOf(s[6..8]) == t.second
  {
    SmallPowers();
    hide Digits, ValueOf;
    ValueOfDigits(t.hour, 2);
    ValueOfDigits(t.minute, 2);
    ValueOfDigits(t.second, 2);
    TimePositions(Digits(t.hour, 2), Digits(t.minute, 2), Digits(t.second, 2), rest, TimeOfDay(t, rest));
  }

  /** Reading inverts writing. */
  lemma TimestampRoundTrip(t: DateTime)
    requires t.Valid()
    ensures ParseRfc3339(Rfc3339(t)) == Some(t)
  {
    var s, f := Rfc3339(t), Fraction(t.nanos);
    DateIsReadable(t, f + UTC);
    TimeIsReadable(t, f + UTC);
    Shifted(s, f);
    FractionRoundTrip(t.nanos);
  }

  // ---------------------------------------------------------------- bounds of other shapes

  /** A bound with `w` fraction digits and a zone; the dashboard sends three and `Z` (`toISOString`). */
  function IsoBound(t: DateTime, w: nat, zone: string): string
    requires t.Valid() && w <= 9
  {
    ToSecond(t, FirstDigits(t.nanos, w) + zone)
  }

  /** A bound that `w` fraction digits are enough for. */
  predicate Exact(t: DateTime, w: nat)
  {
    t.Valid() && w <= 9 && t.nanos % UnitOf(w) == 0
  }

  /** How the text of a row compares with that of a bound. */
  lemma BoundTexts(row: DateTime, bound: DateTime, w: nat, zone: string)
    requires row.Valid() && Exact(bound, w) && (Low(zone) || High(zone))
    ensures var f, g := Fraction(row.nanos) + UTC, FirstDigits(bound.nanos, w) + zone;
      && (TextLess(Rfc3339(row), IsoBound(bound, w, zone)) <==>
            EpochSeconds(row) < EpochSeconds(bound) || (EpochSeconds(row) == EpochSeconds(bound) && TextLess(f, g)))
      && (TextLess(IsoBound(bound, w, zone), Rfc3339(row)) <==>
            EpochSeconds(bound) < EpochSeconds(row) || (EpochSeconds(row) == EpochSeconds(bound) && TextLess(g, f)))
      && Against(f, g, row.nanos, FractionWidth(row.nanos), bound.nanos, w, UnitOf(w), zone)
  {
    var f, g := Fraction(row.nanos) + UTC, FirstDigits(bound.nanos, w) + zone;
    FractionAgainst(row.nanos, bound.nanos, w, zone);
    hide TextLess, ToSecond, UnitOf, Fraction, FirstDigits, EpochSeconds, Against;
    SecondsDecide(row, bound, f, g);
    SecondsDecide(bound, row, g, f);
    SecondOrder(row, bound);
    SecondOrder(bound, row);
  }

  lemma SecondOrder(a: DateTime, b: DateTime)
    requires a.Valid() && b.Valid()
    ensures FieldsLess(a.(nanos := 0), b.(nanos := 0)) <==> EpochSeconds(a) < EpochSeconds(b)
    ensures SameSecond(a, b) <==> EpochSeconds(a) == EpochSeconds(b)
    ensures a == b <==> EpochSeconds(a) == EpochSeconds(b) && a.nanos == b.nanos
  {
    FieldOrderIsTimeOrder(a.(nanos := 0), b.(nanos := 0));
  }

  lemma WholeUnits(m: nat, w: nat)
    requires m < 1_000_000_000 && w <= 9 && m % UnitOf(w) == 0
    ensures m + UnitOf(w) <= 1_000_000_000
  {
    hide Leading, UnitOf, Pow10;
    UnitsInSecond(w);
    WholeDigits(m, w);
    Scaled(Pow10(w), Leading(m, w) + 1, UnitOf(w));
    OneMore(Leading(m, w), UnitOf(w));
  }

  lemma OneMore(k: int, u: int)
    ensures (k + 1) * u == k * u + u
  {
  }

  /**
   What a bound that ends in `Z` means, for every row. The documented inclusive bounds hold only up to the
   bound's last digit: `>=` drops the whole unit of that digit, `<=` keeps it whole.
  */
  lemma DashboardBound(row: DateTime, bound: DateTime, w: nat, zone: string)
    requires row.Valid() && Exact(bound, w) && High(zone)
    ensures !TextLess(Rfc3339(row), IsoBound(bound, w, zone)) <==>
      EpochNanos(row) >= EpochNanos(bound) + UnitOf(w)
    ensures !TextLess(IsoBound(bound, w, zone), Rfc3339(row)) <==>
      EpochNanos(row) < EpochNanos(bound) + UnitOf(w)
  {
    hide Rfc3339, IsoBound, EpochSeconds, TextLess, UnitOf, Fraction, FirstDigits;
    BoundTexts(row, bound, w, zone);
    WholeUnits(bound.nanos, w);
  }

  /** So an `after` bound rejects a row of that very instant, against its documentation. */
  lemma AfterBoundIsNotInclusive(t: DateTime, w: nat, zone: string)
    requires Exact(t, w) && High(zone)
    ensures TextLess(Rfc3339(t), IsoBound(t, w, zone))
  {
    DashboardBound(t, t, w, zone);
  }

  /**
   What a bound with a signed offset means, for every row: that of its fields read as UTC. The offset decides
   only for a row with the very same fields and as many digits; with other digits the shorter text is first.
  */
  lemma OffsetBound(row: DateTime, bound: DateTime, w: nat, zone: string)
    requires row.Valid() && Exact(bound, w) && Low(zone)
    ensures !TextLess(Rfc3339(row), IsoBound(bound, w, zone)) <==>
      || EpochNanos(row) > EpochNanos(bound)
      || (row == bound && (w < FractionWidth(row.nanos) || (w == FractionWidth(row.nanos) && !TextLess(UTC, zone))))
    ensures !TextLess(IsoBound(bound, w, zone), Rfc3339(row)) <==>
      || EpochNanos(row) < EpochNanos(bound)
      || (row == bound && (FractionWidth(row.nanos) < w || (FractionWidth(row.nanos) == w && !TextLess(zone, UTC))))
  {
    hide Rfc3339, IsoBound, EpochSeconds, TextLess, UnitOf, Fraction, FirstDigits, FractionWidth;
    BoundTexts(row, bound, w, zone);
    SecondOrder(row, bound);
  }

  function OffsetText(minutes: int): string
  {
    var m := if minutes < 0 then -minutes else minutes;
    (if minutes < 0 then "-" else "+") + Digits(m / 60, 2) + ":" + Digits(m % 60, 2)
  }

  /** The instant a bound stands for. */
  function InstantOf(bound: DateTime, minutes: int): int
    requires bound.Valid()
  {
    EpochNanos(bound) - minutes * 60_000_000_000
  }

  /**
   So an offset other than zero misplaces exactly the rows between the fields and the instant, for `after` as
   for `before`; only rows with the very same fields are left to the comparison of digits and offsets.
  */
  lemma OffsetIsIgnored(row: DateTime, bound: DateTime, w: nat, minutes: int)
    requires row.Valid() && Exact(bound, w) && EpochNanos(row) != EpochNanos(bound)
    ensures var text, at, fields, instant :=
        IsoBound(bound, w, OffsetText(minutes)), EpochNanos(row), EpochNanos(bound), InstantOf(bound, minutes);
      && ((!TextLess(Rfc3339(row), text) <==> at >= instant) <==> !(instant <= at < fields || fields < at < instant))
      && ((!TextLess(text, Rfc3339(row)) <==> at <= instant) <==> !(instant < at < fields || fields < at <= instant))
  {
    var zone := OffsetText(minutes);
    assert zone[0] == if minutes < 0 then '-' else '+';
    hide Rfc3339, IsoBound, EpochNanos, TextLess, OffsetText, FractionWidth;
    OffsetBound(row, bound, w, zone);
  }

  /** The stored form is a bound with no offset and as many digits as it needs, and such a bound is inclusive. */
  lemma StoredFormIsInclusive(row: DateTime, bound: DateTime)
    requires row.Valid() && bound.Valid()
    ensures var w := FractionWidth(bound.nanos);
      && Exact(bound, w) && OffsetText(0) == UTC && Rfc3339(bound) == IsoBound(bound, w, OffsetText(0))
      && (!TextLess(Rfc3339(row), IsoBound(bound, w, OffsetText(0))) <==> EpochNanos(row) >= EpochNanos(bound))
      && (!TextLess(IsoBound(bound, w, OffsetText(0)), Rfc3339(row)) <==> EpochNanos(row) <= EpochNanos(bound))
  {
    ZeroOffset();
    WidthIsEnough(bound.nanos);
    hide EpochNanos, TextLess, OffsetText, ToSecond;
    TextOrderIsTimeOrder(row, bound);
    TextOrderIsTimeOrder(bound, row);
  }

  lemma ZeroOffset()
    ensures OffsetText(0) == UTC
  {
    assert Digits(0, 1) == "0";
    assert Digits(0, 2) == "00";
  }
}
