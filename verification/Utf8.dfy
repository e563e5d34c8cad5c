/** UTF-8 as sections 3 and 4 of RFC 3629 define it, and slices of a text at character boundaries. */
module Utf8 {
  newtype Byte = b: int | 0 <= b < 256

  type Bytes = seq<Byte>

  predicate Tail(b: Byte)
  {
    0x80 <= b <= 0xBF
  }

  /** The length of the character at the start of `s`, or 0 if there is none. */
  function CharLength(s: Bytes): (n: nat)
    ensures n <= |s|
  {
    if s == [] then 0
    else if s[0] <= 0x7F then 1
    else if |s| >= 2 && 0xC2 <= s[0] <= 0xDF && Tail(s[1]) then 2
    else if |s| >= 3 && Tail(s[2]) &&
            ((s[0] == 0xE0 && 0xA0 <= s[1] <= 0xBF) || (0xE1 <= s[0] <= 0xEC && Tail(s[1])) ||
             (s[0] == 0xED && 0x80 <= s[1] <= 0x9F) || (0xEE <= s[0] <= 0xEF && Tail(s[1]))) then 3
    else if |s| >= 4 && Tail(s[2]) && Tail(s[3]) &&
            ((s[0] == 0xF0 && 0x90 <= s[1] <= 0xBF) || (0xF1 <= s[0] <= 0xF3 && Tail(s[1])) ||
             (s[0] == 0xF4 && 0x80 <= s[1] <= 0x8F)) then 4
    else 0
  }

  /** `s` is a sequence of well-formed characters. */
  predicate WellFormed(s: Bytes)
  {
    s == [] || (CharLength(s) > 0 && WellFormed(s[CharLength(s)..]))
  }

  /** `is_char_boundary`: looks at one byte only. */
  predicate Boundary(s: Bytes, i: int)
  {
    i == 0 || i == |s| || (0 < i < |s| && !Tail(s[i]))
  }

  /** `&s[i..j]`, which panics unless both ends are character boundaries. */
  function StrSlice(s: Bytes, i: nat, j: nat): Bytes
    requires i <= j <= |s| && Boundary(s, i) && Boundary(s, j)
  {
    s[i..j]
  }

  /** `&s[i..]`. */
  function StrFrom(s: Bytes, i: nat): Bytes
    requires i <= |s| && Boundary(s, i)
  {
    s[i..]
  }

  lemma CharIsLocal(s: Bytes, t: Bytes)
    requires CharLength(s) > 0
    ensures CharLength(s + t) == CharLength(s)
    ensures CharLength(s[..CharLength(s)]) == CharLength(s)
    ensures !Tail(s[0]) && forall i :: 0 < i < CharLength(s) ==> Tail(s[i])
  {
  }

  lemma {:induction false} WellFormedConcat(s: Bytes, t: Bytes)
    requires WellFormed(s) && WellFormed(t)
    ensures WellFormed(s + t)
  {
    if s == [] {
      assert s + t == t;
    } else {
      var n := CharLength(s);
      CharIsLocal(s, t);
      hide CharLength;
      WellFormedConcat(s[n..], t);
      assert (s + t)[n..] == s[n..] + t;
    }
  }

  lemma FirstChar(s: Bytes)
    requires WellFormed(s) && s != []
    ensures var n := CharLength(s);
      && n > 0 && WellFormed(s[..n]) && WellFormed(s[n..])
      && forall i :: 0 < i < n ==> !Boundary(s, i)
  {
    var first := s[..CharLength(s)];
    CharIsLocal(s, []);
    hide CharLength;
    assert first[CharLength(first)..] == [];
  }

  lemma CutLater(s: Bytes, n: nat, i: nat)
    requires n <= i <= |s|
    ensures s[..i] == s[..n] + s[n..][..i - n] && s[i..] == s[n..][i - n..]
  {
  }

  /** Cutting a well-formed text where the one byte test allows leaves two well-formed texts. */
  lemma {:induction false} CutAtBoundary(s: Bytes, i: nat)
    requires WellFormed(s) && i <= |s| && Boundary(s, i)
    ensures WellFormed(s[..i]) && WellFormed(s[i..])
  {
    if i == 0 {
      assert s[..0] == [] && s[0..] == s;
    } else if i == |s| {
      assert s[..i] == s && s[i..] == [];
    } else {
      var n := CharLength(s);
      FirstChar(s);
      hide CharLength, WellFormed;
      assert Boundary(s[n..], i - n);
      CutAtBoundary(s[n..], i - n);
      CutLater(s, n, i);
      WellFormedConcat(s[..n], s[n..][..i - n]);
    }
  }

  lemma SliceIsWellFormed(s: Bytes, i: nat, j: nat)
    requires WellFormed(s) && i <= j <= |s| && Boundary(s, i) && Boundary(s, j)
    ensures WellFormed(StrSlice(s, i, j))
  {
    hide WellFormed;
    CutAtBoundary(s, i);
    var rest := s[i..];
    assert rest[..j - i] == s[i..j];
    assert Boundary(rest, j - i);
    CutAtBoundary(rest, j - i);
  }

  /** The byte after a one-byte character starts a character. */
  lemma AfterAscii(s: Bytes, i: nat)
    requires WellFormed(s) && i < |s| && s[i] <= 0x7F
    ensures Boundary(s, i) && Boundary(s, i + 1)
  {
    CutAtBoundary(s, i);
    var rest := s[i..];
    assert CharLength(rest) == 1 && WellFormed(rest[1..]) && rest[1..] == s[i + 1..];
    if i + 1 < |s| {
      CharIsLocal(rest[1..], []);
    }
  }
}
