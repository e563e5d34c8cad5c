/** Decimal numerals. */
module Numerals {

  function Digit(d: nat): (c: char)
    requires d < 10
    ensures '0' <= c <= '9'
  {
    '0' + d as char
  }

  function Natural(n: nat): (s: string)
    ensures s != [] && forall c :: c in s ==> '0' <= c <= '9'
  {
    if n < 10 then [Digit(n)] else Natural(n / 10) + [Digit(n % 10)]
  }

  /** The `Display` form of a signed integer. */
  function Decimal(v: int): (s: string)
    ensures s != [] && forall c :: c in s ==> '0' <= c <= '9' || c == '-'
  {
    if v < 0 then "-" + Natural(-v) else Natural(v)
  }

  /** Reads a numeral back. */
  function ValueOf(s: string): int
  {
    if s == "" then 0
    else if s[0] == '-' then -ValueOf(s[1..])
    else ValueOf(s[..|s| - 1]) * 10 + (s[|s| - 1] as int - '0' as int)
  }

  lemma {:induction false} NaturalRoundTrip(n: nat)
    ensures ValueOf(Natural(n)) == n
  {
    var s := Natural(n);
    assert s[0] in s;
    if n < 10 {
      assert s[..0] == "";
    } else {
      NaturalRoundTrip(n / 10);
      assert s[..|s| - 1] == Natural(n / 10);
    }
  }

  /** No two integers have the same numeral. */
  lemma DecimalInjective(a: int, b: int)
    requires Decimal(a) == Decimal(b)
    ensures a == b
  {
    var x, y := if a < 0 then -a else a, if b < 0 then -b else b;
    NaturalRoundTrip(x);
    NaturalRoundTrip(y);
    assert Natural(x)[0] in Natural(x) && Natural(y)[0] in Natural(y);
    if a < 0 {
      assert Decimal(a)[1..] == Natural(-a);
    }
    if b < 0 {
      assert Decimal(b)[1..] == Natural(-b);
    }
  }
}
