/** Paths as `PathBuf` compares and hashes them on Unix: by their components, whatever the spelling. */
module PathKeys {
  import opened Sequences

  /** What the spellings of one path have in common. */
  datatype Key = Key(rooted: bool, parts: seq<string>)

  /** The stretches between slashes. */
  function Segments(s: string): (r: seq<string>)
    ensures r != []
  {
    if s == "" then [""]
    else
      var rest := Segments(s[1..]);
      if s[0] == '/' then [""] + rest else [[s[0]] + rest[0]] + rest[1..]
  }

  predicate Counts(segment: string)
  {
    segment != "" && segment != "."
  }

  /** Empty segments do not count, nor does a single dot, except at the start of a relative path. */
  function PathKey(path: string): Key
  {
    var segments := Segments(path);
    Key(path != "" && path[0] == '/', (if segments[0] == "." then ["."] else []) + Keep(segments, Counts))
  }

  lemma FirstCharacter(c: char, s: string)
    ensures Segments([c] + s) ==
      if c == '/' then [""] + Segments(s) else [[c] + Segments(s)[0]] + Segments(s)[1..]
  {
    assert ([c] + s)[1..] == s;
  }

  lemma Glue(c: char, s: seq<string>, t: seq<string>)
    requires s != []
    ensures [""] + (s + t) == ([""] + s) + t
    ensures [[c] + (s + t)[0]] + (s + t)[1..] == ([[c] + s[0]] + s[1..]) + t
  {
  }

  lemma {:induction false} SegmentsConcat(a: string, b: string)
    ensures Segments(a + "/" + b) == Segments(a) + Segments(b)
  {
    if a == "" {
      assert a + "/" + b == ['/'] + b && Segments("") == [""];
      hide Segments;
      FirstCharacter('/', b);
    } else {
      hide Segments;
      var rest := a[1..] + "/" + b;
      assert a + "/" + b == [a[0]] + rest && a == [a[0]] + a[1..];
      FirstCharacter(a[0], rest);
      FirstCharacter(a[0], a[1..]);
      SegmentsConcat(a[1..], b);
      Glue(a[0], Segments(a[1..]), Segments(b));
    }
  }

  lemma KeepOne(x: string)
    ensures Keep([x], Counts) == if Counts(x) then [x] else []
  {
    KeepSnoc([], x, Counts);
    assert [] + [x] == [x] && Keep<string>([], Counts) == [];
  }

  /** The key of a path in two pieces. */
  lemma KeyConcat(a: string, b: string)
    ensures var s := Segments(a);
      PathKey(a + "/" + b) == Key(a == "" || a[0] == '/',
        (if s[0] == "." then ["."] else []) + Keep(s, Counts) + Keep(Segments(b), Counts))
  {
    hide Segments, Keep;
    SegmentsConcat(a, b);
    KeepConcat(Segments(a), Segments(b), Counts);
    assert (a + "/" + b)[0] == if a == "" then '/' else a[0];
    assert (Segments(a) + Segments(b))[0] == Segments(a)[0];
  }

  lemma InnerSegment(a: string, d: string, b: string)
    requires '/' !in d && !Counts(d)
    ensures PathKey(a + "/" + (d + "/" + b)) == PathKey(a + "/" + b)
  {
    hide PathKey, Segments, Keep;
    KeyConcat(a, d + "/" + b);
    KeyConcat(a, b);
    SegmentsConcat(d, b);
    OneSegment(d);
    KeepOne(d);
    KeepConcat([d], Segments(b), Counts);
    assert [] + Keep(Segments(b), Counts) == Keep(Segments(b), Counts);
  }

  lemma EndSlash(a: string)
    requires a != ""
    ensures PathKey(a + "/") == PathKey(a)
  {
    KeyConcat(a, "");
    assert a + "/" + "" == a + "/";
    KeepOne("");
  }

  /** A slash at the end, a doubled slash and a dot between slashes make no difference. */
  lemma SpellingsOfOnePath(a: string, b: string)
    ensures a != "" ==> PathKey(a + "/") == PathKey(a)
    ensures PathKey(a + "//" + b) == PathKey(a + "/./" + b) == PathKey(a + "/" + b)
  {
    hide PathKey;
    if a != "" {
      EndSlash(a);
    }
    InnerSegment(a, "", b);
    InnerSegment(a, ".", b);
    assert a + "//" + b == a + "/" + ("" + "/" + b) && a + "/./" + b == a + "/" + ("." + "/" + b);
  }

  // ---------------------------------------------------------------- one spelling for each path

  function Join(parts: seq<string>): string
  {
    if parts == [] then "" else if |parts| == 1 then parts[0] else parts[0] + "/" + Join(parts[1..])
  }

  /** The spelling without anything that does not count. */
  function Spell(k: Key): string
  {
    (if k.rooted then "/" else "") + Join(k.parts)
  }

  lemma {:induction false} SegmentsHaveNoSlash(s: string)
    ensures forall x :: x in Segments(s) ==> '/' !in x
    ensures s != "" ==> (s[0] == '/' <==> Segments(s)[0] == "")
  {
    if s != "" {
      SegmentsHaveNoSlash(s[1..]);
    }
  }

  lemma {:induction false} OneSegment(s: string)
    requires '/' !in s
    ensures Segments(s) == [s]
  {
    if s != "" {
      OneSegment(s[1..]);
      assert [s[0]] + s[1..] == s && [[s[0]] + s[1..]] == [s];
    }
  }

  lemma {:induction false} SegmentsOfJoin(parts: seq<string>)
    requires parts != [] && forall x :: x in parts ==> '/' !in x
    ensures Segments(Join(parts)) == parts
  {
    OneSegment(parts[0]);
    if |parts| > 1 {
      SegmentsOfJoin(parts[1..]);
      SegmentsConcat(parts[0], Join(parts[1..]));
    }
  }

  /** What paths come to: named components, and a dot only at the start of a relative path. */
  predicate Proper(k: Key)
  {
    && (forall x :: x in k.parts ==> x != "" && '/' !in x)
    && (forall i :: 0 <= i < |k.parts| && (k.rooted || i > 0) ==> k.parts[i] != ".")
  }

  lemma KeyIsProper(p: string)
    ensures Proper(PathKey(p))
  {
    hide Segments, Keep;
    var s, k := Segments(p), PathKey(p);
    SegmentsHaveNoSlash(p);
    KeepContents(s, Counts);
    var kept := Keep(s, Counts);
    assert forall i :: 0 <= i < |kept| ==> kept[i] in kept;
    if s[0] == "." {
      assert k.parts == ["."] + kept;
    } else {
      assert k.parts == kept;
    }
  }

  lemma JoinStarts(parts: seq<string>)
    requires parts != [] && parts[0] != ""
    ensures Join(parts) != "" && Join(parts)[0] == parts[0][0]
  {
  }

  lemma KeyAfterRoot(b: string)
    ensures PathKey("" + "/" + b) == Key(true, Keep(Segments(b), Counts))
  {
    hide PathKey, Keep;
    KeyConcat("", b);
    KeepOne("");
    assert Segments("") == [""];
    assert [] + [] + Keep(Segments(b), Counts) == Keep(Segments(b), Counts);
  }

  lemma KeptOfJoin(parts: seq<string>)
    requires (forall x :: x in parts ==> '/' !in x) && Keep(parts, Counts) == parts
    ensures Keep(Segments(Join(parts)), Counts) == parts
  {
    hide Segments, Keep;
    if parts == [] {
      OneSegment("");
      KeepOne("");
    } else {
      SegmentsOfJoin(parts);
    }
  }

  /** Every such list of components is the key of its spelling, so different components make different paths. */
  lemma SpellIsPath(k: Key)
    requires Proper(k)
    ensures PathKey(Spell(k)) == k
  {
    hide PathKey, Segments, Keep, Join;
    if k.rooted {
      KeepAll(k.parts, Counts);
      assert Spell(k) == "" + "/" + Join(k.parts);
      hide Spell;
      KeyAfterRoot(Join(k.parts));
      KeptOfJoin(k.parts);
    } else {
      assert Spell(k) == Join(k.parts);
      hide Spell;
      RelativeSpell(k.parts);
    }
  }

  lemma RelativeSpell(parts: seq<string>)
    requires Proper(Key(false, parts))
    ensures PathKey(Join(parts)) == Key(false, parts)
  {
    hide Segments, Keep, Join;
    if parts == [] {
      OneSegment("");
      KeepOne("");
      assert Join(parts) == "" by { JoinNothing(); }
    } else {
      assert parts[0] in parts;
      JoinStarts(parts);
      SegmentsOfJoin(parts);
      forall x | x in parts[1..] ensures Counts(x) {
        var i :| 0 < i < |parts| && parts[i] == x;
        assert Key(false, parts).parts[i] == x && x in Key(false, parts).parts;
      }
      assert parts == [parts[0]] + parts[1..];
      KeepOne(parts[0]);
      KeepAll(parts[1..], Counts);
      KeepConcat([parts[0]], parts[1..], Counts);
    }
  }

  lemma JoinNothing()
    ensures Join([]) == ""
  {
  }

  /** Two texts spell one path exactly when they have the same normal form, which spells that path. */
  lemma NormalForm(p: string, q: string)
    ensures PathKey(Spell(PathKey(p))) == PathKey(p)
    ensures PathKey(p) == PathKey(q) <==> Spell(PathKey(p)) == Spell(PathKey(q))
  {
    KeyIsProper(p);
    KeyIsProper(q);
    SpellIsPath(PathKey(p));
    SpellIsPath(PathKey(q));
  }
}
