/** Substring replacement. */
module Text {

  /** `pat` stands at position `k` of `s`. */
  predicate Occurs(pat: string, s: string, k: int)
  {
    0 <= k && k + |pat| <= |s| && s[k..k + |pat|] == pat
  }

  /** `str::replace` for a non-empty pattern: leftmost matches that do not overlap. */
  function ReplaceAll(s: string, pat: string, rep: string): string
    requires pat != []
  {
    if |s| < |pat| then s
    else if s[..|pat|] == pat then rep + ReplaceAll(s[|pat|..], pat, rep)
    else [s[0]] + ReplaceAll(s[1..], pat, rep)
  }

  lemma {:induction false} ReplaceNothing(s: string, pat: string, rep: string)
    requires pat != []
    requires forall k :: !Occurs(pat, s, k)
    ensures ReplaceAll(s, pat, rep) == s
  {
    if |s| >= |pat| {
      assert !Occurs(pat, s, 0);
      forall k ensures !Occurs(pat, s[1..], k) {
        if Occurs(pat, s[1..], k) {
          assert s[1..][k..k + |pat|] == s[k + 1..k + 1 + |pat|];
          assert Occurs(pat, s, k + 1);
        }
      }
      ReplaceNothing(s[1..], pat, rep);
    }
  }

  lemma OccursInTail(s: string, pat: string, n: nat, k: int)
    requires n <= |s| && k >= 0
    ensures Occurs(pat, s[n..], k) <==> Occurs(pat, s, k + n)
  {
    if k + |pat| <= |s| - n {
      assert s[n..][k..k + |pat|] == s[k + n..k + n + |pat|];
    }
  }

  lemma ReplaceAtStart(s: string, pat: string, rep: string)
    requires pat != [] && forall k :: Occurs(pat, s, k) <==> k == 0
    ensures |pat| <= |s| && ReplaceAll(s, pat, rep) == rep + s[|pat|..]
  {
    assert Occurs(pat, s, 0);
    var t := s[|pat|..];
    forall k ensures !Occurs(pat, t, k) {
      if k >= 0 { OccursInTail(s, pat, |pat|, k); }
    }
    ReplaceNothing(t, pat, rep);
  }

  /** A pattern that occurs exactly once is rewritten there and nowhere else. */
  lemma {:induction false} ReplaceUnique(s: string, pat: string, rep: string, q: nat)
    requires pat != []
    requires forall k :: Occurs(pat, s, k) <==> k == q
    ensures q + |pat| <= |s|
    ensures ReplaceAll(s, pat, rep) == s[..q] + rep + s[q + |pat|..]
  {
    assert Occurs(pat, s, q);
    if q == 0 {
      ReplaceAtStart(s, pat, rep);
      assert s[..0] + rep + s[|pat|..] == rep + s[|pat|..];
    } else {
      var t := s[1..];
      assert !Occurs(pat, s, 0);
      assert ReplaceAll(s, pat, rep) == [s[0]] + ReplaceAll(t, pat, rep);
      hide ReplaceAll;
      forall k ensures Occurs(pat, t, k) <==> k == q - 1 {
        if k >= 0 { OccursInTail(s, pat, 1, k); }
      }
      hide Occurs;
      ReplaceUnique(t, pat, rep, q - 1);
      Shift(s, rep, q, |pat|);
    }
  }

  lemma Shift(s: string, rep: string, q: nat, n: nat)
    requires 0 < q && q + n <= |s|
    ensures [s[0]] + (s[1..][..q - 1] + rep + s[1..][q - 1 + n..]) == s[..q] + rep + s[q + n..]
  {
    assert [s[0]] + s[1..][..q - 1] == s[..q];
    assert s[1..][q - 1 + n..] == s[q + n..];
  }

  /** How many matches `ReplaceAll` rewrites. */
  function MatchCount(s: string, pat: string): nat
    requires pat != []
  {
    if |s| < |pat| then 0
    else if s[..|pat|] == pat then 1 + MatchCount(s[|pat|..], pat)
    else MatchCount(s[1..], pat)
  }

  lemma {:induction false} MatchCountOne(s: string, pat: string, k: nat)
    requires pat != [] && Occurs(pat, s, k)
    ensures MatchCount(s, pat) >= 1
  {
    if s[..|pat|] != pat {
      assert k > 0;
      assert s[1..][k - 1..k - 1 + |pat|] == s[k..k + |pat|];
      MatchCountOne(s[1..], pat, k - 1);
    }
  }

  lemma {:induction false} MatchCountTwo(s: string, pat: string, j: nat, k: nat)
    requires pat != [] && Occurs(pat, s, j) && Occurs(pat, s, k) && j + |pat| <= k
    ensures MatchCount(s, pat) >= 2
  {
    if s[..|pat|] == pat {
      assert s[|pat|..][k - |pat|..k] == s[k..k + |pat|];
      MatchCountOne(s[|pat|..], pat, k - |pat|);
    } else {
      assert j > 0;
      assert s[1..][j - 1..j - 1 + |pat|] == s[j..j + |pat|];
      assert s[1..][k - 1..k - 1 + |pat|] == s[k..k + |pat|];
      MatchCountTwo(s[1..], pat, j - 1, k - 1);
    }
  }

  lemma {:induction false} ReplaceLength(s: string, pat: string, extra: string)
    requires pat != []
    ensures |ReplaceAll(s, pat, extra + pat)| == |s| + MatchCount(s, pat) * |extra|
  {
    if |s| >= |pat| {
      if s[..|pat|] == pat {
        ReplaceLength(s[|pat|..], pat, extra);
        var n := MatchCount(s[|pat|..], pat);
        assert (1 + n) * |extra| == |extra| + n * |extra|;
      } else {
        ReplaceLength(s[1..], pat, extra);
      }
    }
  }

  /** Replacing a one-character pattern works character by character. */
  lemma {:induction false} ReplaceCharConcat(a: string, b: string, c: char, rep: string)
    ensures ReplaceAll(a + b, [c], rep) == ReplaceAll(a, [c], rep) + ReplaceAll(b, [c], rep)
  {
    if a == [] {
      assert a + b == b;
    } else {
      assert (a + b)[1..] == a[1..] + b;
      ReplaceCharConcat(a[1..], b, c, rep);
    }
  }
}
