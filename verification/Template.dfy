/** `FsEvent::format_with`: expands the `%key%` references of a template in one pass over its bytes. */
module Template {
  import opened Options
  import opened Utf8

  const PERCENT: Byte := 0x25

  /** A resolver gives the value of each key it knows. */
  type Resolver = Bytes -> Option<Bytes>

  /** `find('%')`: one byte, which UTF-8 uses in no other character. */
  function Find(s: Bytes): (at: Option<nat>)
    ensures at.Some? ==> at.value < |s| && s[at.value] == PERCENT && PERCENT !in s[..at.value]
    ensures at.None? <==> PERCENT !in s
  {
    if s == [] then None
    else if s[0] == PERCENT then Some(0)
    else
      match Find(s[1..])
      case Some(n) =>
        assert s[..n + 1] == [s[0]] + s[1..][..n];
        Some(n + 1)
      case None => None
  }

  // ---------------------------------------------------------------- meaning

  datatype Token = Literal(byte: Byte) | Reference(key: Bytes)

  /** The text after a `%` goes on with a known key and another `%`. */
  predicate ReferenceAhead(rest: Bytes, known: Bytes -> bool)
  {
    Find(rest).Some? && known(rest[..Find(rest).value])
  }

  /** A `%` that does not start a reference to a known key is literal, and so is every other byte. */
  function Tokens(t: Bytes, known: Bytes -> bool): seq<Token>
    decreases |t|
  {
    if t == [] then []
    else if t[0] == PERCENT && ReferenceAhead(t[1..], known) then
      var n := Find(t[1..]).value;
      [Reference(t[1..][..n])] + Tokens(t[n + 2..], known)
    else [Literal(t[0])] + Tokens(t[1..], known)
  }

  function Written(token: Token): Bytes
  {
    match token
    case Literal(b) => [b]
    case Reference(key) => [PERCENT] + key + [PERCENT]
  }

  function Unparse(tokens: seq<Token>): Bytes
  {
    if tokens == [] then [] else Written(tokens[0]) + Unparse(tokens[1..])
  }

  function Known(resolve: Resolver): Bytes -> bool
  {
    key => resolve(key).Some?
  }

  function Rendered(token: Token, resolve: Resolver): Bytes
  {
    match token
    case Literal(b) => [b]
    case Reference(key) => match resolve(key) case Some(value) => value case None => []
  }

  function Render(tokens: seq<Token>, resolve: Resolver): Bytes
  {
    if tokens == [] then [] else Rendered(tokens[0], resolve) + Render(tokens[1..], resolve)
  }

  /** What a template stands for. */
  function Expand(t: Bytes, resolve: Resolver): Bytes
  {
    Render(Tokens(t, Known(resolve)), resolve)
  }

  // ---------------------------------------------------------------- the tokens are the template's

  lemma Regroup<T>(t: seq<T>, n: nat)
    requires n + 2 <= |t|
    ensures t == [t[0]] + t[1..][..n] + [t[1..][n]] + t[n + 2..]
  {
  }

  lemma TokensOfReference(t: Bytes, known: Bytes -> bool)
    requires t != [] && t[0] == PERCENT && ReferenceAhead(t[1..], known)
    ensures var n := Find(t[1..]).value;
      && n + 2 <= |t| && t == Written(Reference(t[1..][..n])) + t[n + 2..]
      && Tokens(t, known) == [Reference(t[1..][..n])] + Tokens(t[n + 2..], known)
  {
    var n := Find(t[1..]).value;
    Regroup(t, n);
  }

  lemma TokensOfByte(t: Bytes, known: Bytes -> bool)
    requires t != [] && !(t[0] == PERCENT && ReferenceAhead(t[1..], known))
    ensures t == Written(Literal(t[0])) + t[1..]
    ensures Tokens(t, known) == [Literal(t[0])] + Tokens(t[1..], known)
  {
  }

  lemma UnparseCons(token: Token, tokens: seq<Token>)
    ensures Unparse([token] + tokens) == Written(token) + Unparse(tokens)
  {
    assert ([token] + tokens)[1..] == tokens;
  }

  lemma {:induction false} UnparseTokens(t: Bytes, known: Bytes -> bool)
    ensures Unparse(Tokens(t, known)) == t
    decreases |t|
  {
    if t != [] {
      hide Tokens, Unparse, Find, Written;
      if t[0] == PERCENT && ReferenceAhead(t[1..], known) {
        TokensOfReference(t, known);
        var n := Find(t[1..]).value;
        UnparseTokens(t[n + 2..], known);
        UnparseCons(Reference(t[1..][..n]), Tokens(t[n + 2..], known));
      } else {
        TokensOfByte(t, known);
        UnparseTokens(t[1..], known);
        UnparseCons(Literal(t[0]), Tokens(t[1..], known));
      }
    }
  }

  /** References are to known keys, and no literal `%` could have started one. */
  predicate Leftmost(tokens: seq<Token>, known: Bytes -> bool)
  {
    tokens == [] ||
    (Leftmost(tokens[1..], known) &&
     match tokens[0]
     case Literal(b) => b == PERCENT ==> !ReferenceAhead(Unparse(tokens[1..]), known)
     case Reference(key) => PERCENT !in key && known(key))
  }

  lemma {:induction false} TokensAreLeftmost(t: Bytes, known: Bytes -> bool)
    ensures Leftmost(Tokens(t, known), known)
    decreases |t|
  {
    if t != [] {
      var tokens := Tokens(t, known);
      if t[0] == PERCENT && ReferenceAhead(t[1..], known) {
        var n := Find(t[1..]).value;
        assert tokens[1..] == Tokens(t[n + 2..], known);
        TokensAreLeftmost(t[n + 2..], known);
      } else {
        assert tokens[1..] == Tokens(t[1..], known);
        TokensAreLeftmost(t[1..], known);
        UnparseTokens(t[1..], known);
      }
    }
  }

  lemma FindFirst(key: Bytes, rest: Bytes)
    requires PERCENT !in key
    ensures Find(key + [PERCENT] + rest) == Some(|key|)
  {
    var s := key + [PERCENT] + rest;
    assert s[|key|] == PERCENT;
    var n := Find(s).value;
    assert n >= |key| by {
      assert forall i :: 0 <= i < |key| ==> s[i] == key[i];
    }
    assert forall i :: 0 <= i < n ==> s[..n][i] == s[i];
  }

  lemma WrittenReference(key: Bytes, rest: Bytes, t: Bytes)
    requires PERCENT !in key && t == Written(Reference(key)) + rest
    ensures t != [] && t[0] == PERCENT && Find(t[1..]) == Some(|key|)
    ensures t[1..][..|key|] == key && |key| + 2 <= |t| && t[|key| + 2..] == rest
  {
    FindFirst(key, rest);
    hide Find;
    Enclosed(PERCENT, key, rest);
    assert t == [PERCENT] + key + [PERCENT] + rest;
  }

  lemma Enclosed(c: Byte, key: Bytes, rest: Bytes)
    ensures var t := [c] + key + [c] + rest;
      t[1..] == key + [c] + rest && t[1..][..|key|] == key && t[|key| + 2..] == rest
  {
  }

  /** No other list of tokens reads the template that way. */
  lemma {:induction false} TokensAreUnique(tokens: seq<Token>, known: Bytes -> bool)
    requires Leftmost(tokens, known)
    ensures Tokens(Unparse(tokens), known) == tokens
  {
    if tokens != [] {
      var rest, t := Unparse(tokens[1..]), Unparse(tokens);
      TokensAreUnique(tokens[1..], known);
      assert t == Written(tokens[0]) + rest;
      assert tokens == [tokens[0]] + tokens[1..];
      hide Tokens, Unparse, Find;
      match tokens[0]
      case Literal(b) =>
        assert t[0] == b && t[1..] == rest;
        TokensOfByte(t, known);
      case Reference(key) =>
        WrittenReference(key, rest, t);
        TokensOfReference(t, known);
    }
  }

  /** A resolver that gives `%key%` for each of its keys gives back the template. */
  lemma {:induction false} RenderIsUnparse(tokens: seq<Token>, resolve: Resolver)
    requires forall key :: resolve(key).Some? ==> resolve(key).value == Written(Reference(key))
    requires Leftmost(tokens, Known(resolve))
    ensures Render(tokens, resolve) == Unparse(tokens)
  {
    if tokens != [] {
      RenderIsUnparse(tokens[1..], resolve);
      assert Rendered(tokens[0], resolve) == Written(tokens[0]) by { hide Written; }
    }
  }

  lemma IdentityResolver(t: Bytes, resolve: Resolver)
    requires forall key :: resolve(key).Some? ==> resolve(key).value == Written(Reference(key))
    ensures Expand(t, resolve) == t
  {
    TokensAreLeftmost(t, Known(resolve));
    RenderIsUnparse(Tokens(t, Known(resolve)), resolve);
    UnparseTokens(t, Known(resolve));
  }

  /**
   Values are never read again: which parts of the template are replaced depends on the keys the resolver
   knows, not on their values, and a template that is a value's text is left to itself.
  */
  lemma {:induction false} ValuesAreNotScanned(t: Bytes, a: Resolver, b: Resolver)
    requires forall key :: a(key).Some? <==> b(key).Some?
    ensures Tokens(t, Known(a)) == Tokens(t, Known(b))
    decreases |t|
  {
    if t != [] {
      if t[0] == PERCENT && ReferenceAhead(t[1..], Known(a)) {
        ValuesAreNotScanned(t[Find(t[1..]).value + 2..], a, b);
      } else {
        ValuesAreNotScanned(t[1..], a, b);
      }
    }
  }

  /**
   What a template stands for, read from its first `%`: a known key between two of them is replaced by its value
   and reading goes on behind; otherwise the `%` stays and reading goes on right after it.
  */
  lemma ExpandMeans(before: Bytes, key: Bytes, rest: Bytes, resolve: Resolver)
    requires PERCENT !in before && PERCENT !in key
    ensures Expand(before, resolve) == before
    ensures Expand(before + [PERCENT] + key, resolve) == before + [PERCENT] + key
    ensures Expand(before + [PERCENT] + key + [PERCENT] + rest, resolve) ==
      match resolve(key)
      case Some(value) => before + value + Expand(rest, resolve)
      case None => before + [PERCENT] + key + Expand([PERCENT] + rest, resolve)
  {
    hide Expand;
    PlainExpands(before, resolve);
    OpenExpands(before, key, resolve);
    var t := [PERCENT] + key + [PERCENT] + rest;
    Fourfold(before, [PERCENT], key, [PERCENT], rest);
    BehindPlain(before, t, resolve);
    match resolve(key)
    case Some(value) =>
      KnownExpands(key, value, rest, resolve);
      Associate(before, value, Expand(rest, resolve));
    case None =>
      UnknownExpands(key, rest, resolve);
      Threefold(before, [PERCENT], key, Expand([PERCENT] + rest, resolve));
  }

  lemma Fourfold<T>(a: seq<T>, b: seq<T>, c: seq<T>, d: seq<T>, e: seq<T>)
    ensures a + b + c + d + e == a + (b + c + d + e)
  {
  }

  lemma Threefold<T>(a: seq<T>, b: seq<T>, c: seq<T>, d: seq<T>)
    ensures a + (b + (c + d)) == a + b + c + d
  {
  }

  lemma KnownExpands(key: Bytes, value: Bytes, rest: Bytes, resolve: Resolver)
    requires PERCENT !in key && resolve(key) == Some(value)
    ensures Expand([PERCENT] + key + [PERCENT] + rest, resolve) == value + Expand(rest, resolve)
  {
    hide Expand, Find;
    Enclosed(PERCENT, key, rest);
    FindFirst(key, rest);
    ExpandReference([PERCENT] + key + [PERCENT] + rest, |key|, value, resolve);
  }

  lemma UnknownExpands(key: Bytes, rest: Bytes, resolve: Resolver)
    requires PERCENT !in key && resolve(key).None?
    ensures Expand([PERCENT] + key + [PERCENT] + rest, resolve) ==
      [PERCENT] + (key + Expand([PERCENT] + rest, resolve))
  {
    hide Expand, Find;
    Enclosed(PERCENT, key, rest);
    FindFirst(key, rest);
    ExpandByte([PERCENT] + key + [PERCENT] + rest, resolve);
    assert key + [PERCENT] + rest == key + ([PERCENT] + rest);
    BehindPlain(key, [PERCENT] + rest, resolve);
  }

  lemma BehindPlain(before: Bytes, t: Bytes, resolve: Resolver)
    requires PERCENT !in before
    ensures Expand(before + t, resolve) == before + Expand(t, resolve)
  {
    hide Expand;
    assert (before + t)[..|before|] == before && (before + t)[|before|..] == t;
    ExpandChunk(before + t, |before|, resolve);
  }

  lemma PlainExpands(t: Bytes, resolve: Resolver)
    requires PERCENT !in t
    ensures Expand(t, resolve) == t
  {
    BehindPlain(t, [], resolve);
    ExpandNothing(resolve);
    assert t + [] == t;
  }

  lemma OpenExpands(before: Bytes, key: Bytes, resolve: Resolver)
    requires PERCENT !in before && PERCENT !in key
    ensures Expand(before + [PERCENT] + key, resolve) == before + [PERCENT] + key
  {
    var t := [PERCENT] + key;
    assert t[1..] == key;
    ExpandByte(t, resolve);
    hide Expand;
    PlainExpands(key, resolve);
    BehindPlain(before, t, resolve);
    assert before + [PERCENT] + key == before + t;
  }

  // ---------------------------------------------------------------- steps of the scan

  lemma ExpandReference(t: Bytes, n: nat, value: Bytes, resolve: Resolver)
    requires t != [] && t[0] == PERCENT && Find(t[1..]) == Some(n) && resolve(t[1..][..n]) == Some(value)
    ensures n + 2 <= |t| && Expand(t, resolve) == value + Expand(t[n + 2..], resolve)
  {
    var tokens := Tokens(t, Known(resolve));
    assert tokens[0] == Reference(t[1..][..n]) && tokens[1..] == Tokens(t[n + 2..], Known(resolve));
  }

  lemma ExpandByte(t: Bytes, resolve: Resolver)
    requires t != [] && !(t[0] == PERCENT && ReferenceAhead(t[1..], Known(resolve)))
    ensures Expand(t, resolve) == [t[0]] + Expand(t[1..], resolve)
  {
    var tokens := Tokens(t, Known(resolve));
    assert tokens[0] == Literal(t[0]) && tokens[1..] == Tokens(t[1..], Known(resolve));
  }

  lemma {:induction false} ExpandChunk(t: Bytes, n: nat, resolve: Resolver)
    requires n <= |t| && PERCENT !in t[..n]
    ensures Expand(t, resolve) == t[..n] + Expand(t[n..], resolve)
  {
    if n == 0 {
      assert t[0..] == t;
    } else {
      assert t[0] == t[..n][0];
      ExpandByte(t, resolve);
      hide Expand;
      FirstOff(t, n);
      ExpandChunk(t[1..], n - 1, resolve);
      Associate([t[0]], t[1..][..n - 1], Expand(t[n..], resolve));
    }
  }

  lemma FirstOff<T>(t: seq<T>, n: nat)
    requires 0 < n <= |t|
    ensures t[1..][..n - 1] == t[..n][1..] && t[1..][n - 1..] == t[n..] && t[..n] == [t[0]] + t[1..][..n - 1]
  {
  }

  lemma Associate<T>(a: seq<T>, b: seq<T>, c: seq<T>)
    ensures a + (b + c) == (a + b) + c
  {
  }

  // ---------------------------------------------------------------- the scan

  lemma ReferenceStep(template: Bytes, i: nat, n: nat, value: Bytes, resolve: Resolver)
    requires WellFormed(template) && i < |template| && template[i] == PERCENT
    requires Find(template[i + 1..]) == Some(n) && resolve(template[i + 1..i + 1 + n]) == Some(value)
    ensures i + n + 2 <= |template| && Boundary(template, i + n + 2)
    ensures Expand(template[i..], resolve) == value + Expand(template[i + n + 2..], resolve)
  {
    hide Find, Expand, WellFormed;
    var rest := template[i..];
    assert rest[1..] == template[i + 1..] && rest[1..][..n] == template[i + 1..i + 1 + n];
    ExpandReference(rest, n, value, resolve);
    assert rest[n + 2..] == template[i + n + 2..];
    assert template[i + 1 + n] == rest[1..][n];
    AfterAscii(template, i + 1 + n);
  }

  lemma LiteralStep(template: Bytes, i: nat, resolve: Resolver)
    requires i < |template| && template[i] == PERCENT && !ReferenceAhead(template[i + 1..], Known(resolve))
    ensures Expand(template[i..], resolve) == [PERCENT] + Expand(template[i + 1..], resolve)
  {
    hide Expand, ReferenceAhead;
    assert template[i..][1..] == template[i + 1..];
    ExpandByte(template[i..], resolve);
  }

  lemma ChunkStep(template: Bytes, i: nat, n: nat, resolve: Resolver)
    requires i + n <= |template| && PERCENT !in template[i..][..n]
    ensures Expand(template[i..], resolve) == template[i..i + n] + Expand(template[i + n..], resolve)
  {
    hide Expand;
    ExpandChunk(template[i..], n, resolve);
    assert template[i..][..n] == template[i..i + n] && template[i..][n..] == template[i + n..];
  }

  /** Values of a resolver are texts. */
  ghost predicate TextResolver(resolve: Resolver)
  {
    forall key :: resolve(key).Some? ==> WellFormed(resolve(key).value)
  }

  /** The scan. Every slice it takes ends at character boundaries, and the result is a text again. */
  method FormatWith(template: Bytes, resolve: Resolver) returns (result: Bytes)
    requires WellFormed(template) && TextResolver(resolve)
    ensures result == Expand(template, resolve)
    ensures WellFormed(result)
  {
    hide Expand, WellFormed, Find, Tail, ReferenceAhead, Known;
    result := [];
    var bytes, len, i := template, |template|, 0;
    assert template[0..] == template;
    SmallTexts();
    while i < len
      invariant 0 <= i <= len && Boundary(template, i) && WellFormed(result)
      invariant Expand(template, resolve) == result + Expand(template[i..], resolve)
    {
      if bytes[i] == PERCENT {
        AfterAscii(template, i);
        var found := Find(StrFrom(template, i + 1));
        if found.Some? {
          var end := found.value;
          AfterAscii(template, i + 1 + end);
          var value := resolve(StrSlice(template, i + 1, i + 1 + end));
          if value.Some? {
            ReferenceStep(template, i, end, value.value, resolve);
            Associate(result, value.value, Expand(template[i + end + 2..], resolve));
            WellFormedConcat(result, value.value);
            result := result + value.value;
            i := i + 1 + end + 1;
            continue;
          }
        }
        NoReference(template, i, found, resolve);
        LiteralStep(template, i, resolve);
        Associate(result, [PERCENT], Expand(template[i + 1..], resolve));
        WellFormedConcat(result, [PERCENT]);
        result := result + [PERCENT];
        i := i + 1;
      } else {
        var found := Find(StrFrom(template, i));
        var nextPct := if found.Some? then found.value else len - i;
        if nextPct == 0 {
          assert false;
        } else {
          NextIsBoundary(template, i, found);
          ChunkStep(template, i, nextPct, resolve);
          Associate(result, template[i..i + nextPct], Expand(template[i + nextPct..], resolve));
          SliceIsWellFormed(template, i, i + nextPct);
          WellFormedConcat(result, template[i..i + nextPct]);
          result := result + StrSlice(template, i, i + nextPct);
          i := i + nextPct;
        }
      }
    }
    assert template[len..] == [];
    ExpandNothing(resolve);
  }

  lemma NoReference(template: Bytes, i: nat, found: Option<nat>, resolve: Resolver)
    requires i < |template| && found == Find(template[i + 1..])
    requires found.Some? ==> resolve(template[i + 1..i + 1 + found.value]).None?
    ensures !ReferenceAhead(template[i + 1..], Known(resolve))
  {
    if found.Some? {
      assert template[i + 1..][..found.value] == template[i + 1..i + 1 + found.value];
    }
  }

  lemma NextIsBoundary(template: Bytes, i: nat, found: Option<nat>)
    requires i < |template| && found == Find(template[i..])
    ensures found.Some? ==> i + found.value < |template| && Boundary(template, i + found.value)
    ensures found.Some? ==> PERCENT !in template[i..][..found.value]
    ensures found.None? ==> PERCENT !in template[i..][..|template| - i]
  {
    hide Find;
    assert template[i..][..|template| - i] == template[i..];
    if found.Some? {
      assert template[i + found.value] == template[i..][found.value];
    }
  }

  lemma SmallTexts()
    ensures WellFormed([]) && WellFormed([PERCENT])
  {
    assert [PERCENT][1..] == [];
  }

  lemma ExpandNothing(resolve: Resolver)
    ensures Expand([], resolve) == []
  {
  }
}
