/** Mapping and filtering of sequences. */
module Sequences {

  function Map<A, B>(s: seq<A>, f: A -> B): (t: seq<B>)
    ensures |t| == |s|
  {
    if s == [] then [] else Map(s[..|s| - 1], f) + [f(s[|s| - 1])]
  }

  lemma {:induction false} MapAt<A, B>(s: seq<A>, f: A -> B, i: nat)
    requires i < |s|
    ensures Map(s, f)[i] == f(s[i])
  {
    if i < |s| - 1 { MapAt(s[..|s| - 1], f, i); }
  }

  lemma MapAll<A, B>(s: seq<A>, f: A -> B)
    ensures forall i :: 0 <= i < |s| ==> Map(s, f)[i] == f(s[i])
  {
    forall i | 0 <= i < |s| ensures Map(s, f)[i] == f(s[i]) { MapAt(s, f, i); }
  }

  lemma MapConcat<A, B>(a: seq<A>, b: seq<A>, f: A -> B)
    ensures Map(a + b, f) == Map(a, f) + Map(b, f)
    ensures |a| == 1 ==> Map(a, f) == [f(a[0])]
    ensures |b| == 1 ==> Map(b, f) == [f(b[0])]
  {
    MapAll(a, f);
    MapAll(b, f);
    MapAll(a + b, f);
  }

  function Keep<T>(s: seq<T>, p: T -> bool): seq<T>
  {
    if s == [] then [] else Keep(s[..|s| - 1], p) + (if p(s[|s| - 1]) then [s[|s| - 1]] else [])
  }

  lemma KeepSnoc<T>(s: seq<T>, x: T, p: T -> bool)
    ensures Keep(s + [x], p) == if p(x) then Keep(s, p) + [x] else Keep(s, p)
  {
    assert (s + [x])[..|s|] == s;
  }

  lemma {:induction false} KeepConcat<T>(a: seq<T>, b: seq<T>, p: T -> bool)
    ensures Keep(a + b, p) == Keep(a, p) + Keep(b, p)
  {
    if b == [] {
      assert a + b == a;
    } else {
      var n := |b| - 1;
      assert a + b == (a + b[..n]) + [b[n]] && b == b[..n] + [b[n]];
      KeepConcat(a, b[..n], p);
      hide Keep;
      KeepSnoc(a + b[..n], b[n], p);
      KeepSnoc(b[..n], b[n], p);
    }
  }

  lemma {:induction false} KeepContents<T>(s: seq<T>, p: T -> bool)
    ensures |Keep(s, p)| <= |s|
    ensures forall x :: x in Keep(s, p) <==> x in s && p(x)
  {
    if s != [] {
      var n := |s| - 1;
      KeepContents(s[..n], p);
      assert s == s[..n] + [s[n]];
    }
  }

  lemma {:induction false} KeepAll<T>(s: seq<T>, p: T -> bool)
    requires forall x :: x in s ==> p(x)
    ensures Keep(s, p) == s
  {
    if s != [] {
      var n := |s| - 1;
      assert s == s[..n] + [s[n]] && s[n] in s;
      KeepAll(s[..n], p);
    }
  }

  lemma {:induction false} KeepMap<A, B>(s: seq<A>, f: A -> B, p: B -> bool, q: A -> bool)
    requires forall x :: p(f(x)) <==> q(x)
    ensures Keep(Map(s, f), p) == Map(Keep(s, q), f)
  {
    if s != [] {
      var n := |s| - 1;
      KeepMap(s[..n], f, p, q);
      assert Map(s, f)[..n] == Map(s[..n], f) && Map(s, f)[n] == f(s[n]);
      var kept := Keep(s[..n], q);
      assert kept + [] == kept && Map(kept, f) + [] == Map(kept, f);
      MapConcat(kept, [s[n]], f);
    }
  }

  lemma SamePrefix<T>(x: seq<T>, p: seq<T>, q: seq<T>)
    ensures x + p == x + q <==> p == q
  {
    assert (x + p)[|x|..] == p && (x + q)[|x|..] == q;
  }

  /** The concatenation of what each element stands for. */
  function FlatMap<A, B>(s: seq<A>, f: A -> seq<B>): seq<B>
  {
    if s == [] then [] else FlatMap(s[..|s| - 1], f) + f(s[|s| - 1])
  }

  lemma FlatMapSnoc<A, B>(s: seq<A>, x: A, f: A -> seq<B>)
    ensures FlatMap(s + [x], f) == FlatMap(s, f) + f(x)
  {
    assert (s + [x])[..|s|] == s;
  }
}
