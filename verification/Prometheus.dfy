/** The Prometheus text printer: `PrometheusFormatter::format_counter` and its label escaping. */
module Prometheus {
  import opened Numerals
  import opened Text

  datatype Label = Label(key: string, value: string)
  datatype Entry = Entry(labels: seq<Label>, value: int)

  // ---------------------------------------------------------------- escaping

  /** `escape_label_value`: three whole-string replacements, in this order. */
  function EscapeLabelValue(s: string): string
  {
    ReplaceAll(ReplaceAll(ReplaceAll(s, "\\", "\\\\"), "\"", "\\\""), "\n", "\\n")
  }

  function EscapeChar(c: char): string
  {
    if c == '\\' then "\\\\" else if c == '"' then "\\\"" else if c == '\n' then "\\n" else [c]
  }

  /** The escaper of the exposition format: one pass, one character at a time. */
  function Escape(s: string): string
  {
    if s == [] then [] else EscapeChar(s[0]) + Escape(s[1..])
  }

  /** Reads one escape pair or one plain character at a time; a stray backslash is kept. */
  function Unescape(s: string): string
  {
    if s == [] then []
    else if s[0] == '\\' && |s| >= 2 then
      [if s[1] == 'n' then '\n' else s[1]] + Unescape(s[2..])
    else [s[0]] + Unescape(s[1..])
  }

  /** The three passes never see each other's output as input. */
  lemma {:induction false} ThreePassesAreOne(s: string)
    ensures EscapeLabelValue(s) == Escape(s)
  {
    if s != [] {
      var c, t := [s[0]], s[1..];
      assert s == c + t;
      ReplaceCharConcat(c, t, '\\', "\\\\");
      var c1, t1 := ReplaceAll(c, "\\", "\\\\"), ReplaceAll(t, "\\", "\\\\");
      ReplaceCharConcat(c1, t1, '"', "\\\"");
      var c2, t2 := ReplaceAll(c1, "\"", "\\\""), ReplaceAll(t1, "\"", "\\\"");
      ReplaceCharConcat(c2, t2, '\n', "\\n");
      ThreePassesAreOne(t);
      EscapeOneChar(s[0]);
    }
  }

  lemma EscapeOneChar(c: char)
    ensures EscapeLabelValue([c]) == EscapeChar(c)
  {
    var s := [c];
    assert s[1..] == [];
    assert ReplaceAll(s, "\\", "\\\\") == if c == '\\' then "\\\\" else s;
    if c == '\\' {
      assert "\\\\"[1..] == "\\" && "\\"[1..] == [];
      assert ReplaceAll("\\\\", "\"", "\\\"") == "\\\\";
      assert ReplaceAll("\\\\", "\n", "\\n") == "\\\\";
    } else if c == '"' {
      assert ReplaceAll(s, "\"", "\\\"") == "\\\"";
      assert "\\\""[1..] == "\"" && "\""[1..] == [];
      assert ReplaceAll("\\\"", "\n", "\\n") == "\\\"";
    }
  }

  /** Escaping loses nothing. */
  lemma EscapeRoundTrip(s: string)
    ensures Unescape(EscapeLabelValue(s)) == s
  {
    ThreePassesAreOne(s);
    UnescapeEscape(s);
  }

  lemma {:induction false} UnescapeEscape(s: string)
    ensures Unescape(Escape(s)) == s
  {
    if s != [] {
      UnescapeEscape(s[1..]);
      UnescapeChar(s[0], Escape(s[1..]));
    }
  }

  lemma UnescapeChar(c: char, rest: string)
    ensures Unescape(EscapeChar(c) + rest) == [c] + Unescape(rest)
  {
    var s := EscapeChar(c) + rest;
    if |EscapeChar(c)| == 2 { assert s[2..] == rest; } else { assert s[1..] == rest; }
  }

  lemma EscapeInjective(a: string, b: string)
    requires EscapeLabelValue(a) == EscapeLabelValue(b)
    ensures a == b
  {
    EscapeRoundTrip(a);
    EscapeRoundTrip(b);
  }

  // ---------------------------------------------------------------- scanning escaped text

  /** Quotes that are not the second half of an escape pair. */
  function Quotes(s: string): nat
  {
    if s == [] then 0
    else if s[0] == '\\' then (if |s| >= 2 then Quotes(s[2..]) else 0)
    else (if s[0] == '"' then 1 else 0) + Quotes(s[1..])
  }

  /** Every backslash opens a complete pair, and no pair hides an opening brace. */
  predicate WellEscaped(s: string)
  {
    s == [] ||
    if s[0] == '\\' then |s| >= 2 && s[1] != '{' && WellEscaped(s[2..]) else WellEscaped(s[1..])
  }

  lemma {:induction false} QuotesConcat(a: string, b: string)
    requires WellEscaped(a)
    ensures Quotes(a + b) == Quotes(a) + Quotes(b)
    ensures WellEscaped(b) ==> WellEscaped(a + b)
  {
    if a == [] {
      assert a + b == b;
    } else if a[0] == '\\' {
      assert (a + b)[2..] == a[2..] + b;
      QuotesConcat(a[2..], b);
    } else {
      assert (a + b)[1..] == a[1..] + b;
      QuotesConcat(a[1..], b);
    }
  }

  lemma {:induction false} QuotesPrefix(a: string, b: string)
    requires a <= b
    ensures Quotes(a) <= Quotes(b)
  {
    if a != [] {
      if a[0] == '\\' {
        if |a| >= 2 { QuotesPrefix(a[2..], b[2..]); }
      } else {
        QuotesPrefix(a[1..], b[1..]);
      }
    }
  }

  /** Scanning may be resumed at any opening brace of well-escaped text. */
  lemma {:induction false} QuotesSplitAtBrace(s: string, p: nat)
    requires WellEscaped(s) && p < |s| && s[p] == '{'
    ensures Quotes(s) == Quotes(s[..p]) + Quotes(s[p..])
  {
    if p == 0 {
      assert s[0..] == s;
    } else if s[0] == '\\' {
      assert p >= 2;
      QuotesSplitAtBrace(s[2..], p - 2);
      assert s[2..][p - 2..] == s[p..];
      assert s[..p][2..] == s[2..][..p - 2];
    } else {
      QuotesSplitAtBrace(s[1..], p - 1);
      assert s[1..][p - 1..] == s[p..];
      assert s[..p][1..] == s[1..][..p - 1];
    }
  }

  lemma {:induction false} PlainText(s: string)
    requires '\\' !in s && '"' !in s
    ensures WellEscaped(s) && Quotes(s) == 0
  {
    if s != [] { PlainText(s[1..]); }
  }

  /** No raw newline and no free quote is left in an escaped value. */
  lemma {:induction false} EscapedValue(s: string)
    ensures WellEscaped(Escape(s)) && Quotes(Escape(s)) == 0
    ensures '\n' !in Escape(s)
  {
    if s != [] {
      EscapedValue(s[1..]);
      EscapedChar(s[0]);
      hide WellEscaped, Quotes, EscapeChar;
      QuotesConcat(EscapeChar(s[0]), Escape(s[1..]));
    }
  }

  lemma EscapedChar(c: char)
    ensures var t := EscapeChar(c); WellEscaped(t) && Quotes(t) == 0 && '\n' !in t
  {
  }

  // ---------------------------------------------------------------- label lists

  /** What a label key must avoid; every identifier does. */
  predicate CleanKey(k: string)
  {
    '"' !in k && '\\' !in k && '\n' !in k && '{' !in k
  }

  predicate CleanKeys(labels: seq<Label>)
  {
    forall i :: 0 <= i < |labels| ==> CleanKey(labels[i].key)
  }

  function LabelText(l: Label): string
  {
    l.key + "=\"" + (Escape(l.value) + "\"")
  }

  /** A label list as the exposition format writes it between braces. */
  function LabelStr(labels: seq<Label>): string
  {
    if labels == [] then ""
    else if |labels| == 1 then LabelText(labels[0])
    else LabelText(labels[0]) + ("," + LabelStr(labels[1..]))
  }

  lemma QuoteMarks()
    ensures WellEscaped("=\"") && Quotes("=\"") == 1 && WellEscaped("\"") && Quotes("\"") == 1
  {
    assert "=\""[1..] == "\"" && "\""[1..] == [];
  }

  lemma LabelTextShape(l: Label)
    requires CleanKey(l.key)
    ensures WellEscaped(LabelText(l)) && Quotes(LabelText(l)) == 2 && '\n' !in LabelText(l)
  {
    hide WellEscaped, Quotes, Escape;
    EscapedValue(l.value);
    PlainText(l.key);
    QuoteMarks();
    QuotesConcat(Escape(l.value), "\"");
    QuotesConcat("=\"", Escape(l.value) + "\"");
    QuotesConcat(l.key, "=\"" + (Escape(l.value) + "\""));
    assert LabelText(l) == l.key + ("=\"" + (Escape(l.value) + "\""));
  }

  lemma {:induction false} LabelStrShape(labels: seq<Label>)
    requires CleanKeys(labels)
    ensures WellEscaped(LabelStr(labels)) && Quotes(LabelStr(labels)) == 2 * |labels| && '\n' !in LabelStr(labels)
  {
    if labels != [] {
      LabelTextShape(labels[0]);
      if |labels| > 1 {
        LabelStrShape(labels[1..]);
        PlainText(",");
        QuotesConcat(",", LabelStr(labels[1..]));
        QuotesConcat(LabelText(labels[0]), "," + LabelStr(labels[1..]));
      }
    }
  }

  lemma KeyIsReadable(k1: string, k2: string, a: string, b: string)
    requires '"' !in k1 && '"' !in k2
    requires k1 + "=\"" + a <= k2 + "=\"" + b
    ensures k1 == k2 && a <= b
  {
    var x, y := k1 + "=\"" + a, k2 + "=\"" + b;
    assert x[|k1| + 1] == '"' && y[|k2| + 1] == '"';
    assert forall i :: 0 <= i <= |k1| ==> x[i] != '"';
    assert forall i :: 0 <= i <= |k2| ==> y[i] != '"';
    assert |k1| == |k2|;
    assert k1 == x[..|k1|] == y[..|k2|] == k2;
    assert a == x[|k1| + 2..] && b == y[|k2| + 2..];
  }

  lemma CharIsReadable(c: char, d: char, x: string, y: string)
    requires EscapeChar(c) + x <= EscapeChar(d) + y
    requires x != [] && y != []
    ensures c == d && x <= y
  {
    var s, t := EscapeChar(c) + x, EscapeChar(d) + y;
    assert s[0] == t[0] && s[1] == t[1];
    assert x == s[|EscapeChar(c)|..] && y == t[|EscapeChar(d)|..];
  }

  lemma {:induction false} ValueIsReadable(v1: string, v2: string, a: string, b: string)
    requires Escape(v1) + "\"" + a <= Escape(v2) + "\"" + b
    ensures v1 == v2 && a <= b
  {
    ValueStart(v1, a);
    ValueStart(v2, b);
    var x, y := Escape(v1) + "\"" + a, Escape(v2) + "\"" + b;
    assert x[0] == y[0];
    if v1 == [] || v2 == [] {
      assert a == x[1..] && b == y[1..];
    } else {
      CharIsReadable(v1[0], v2[0], Escape(v1[1..]) + "\"" + a, Escape(v2[1..]) + "\"" + b);
      ValueIsReadable(v1[1..], v2[1..], a, b);
    }
  }

  lemma ValueStart(v: string, a: string)
    ensures v == [] ==> Escape(v) + "\"" + a == "\"" + a
    ensures v != [] ==> Escape(v) + "\"" + a == EscapeChar(v[0]) + (Escape(v[1..]) + "\"" + a)
    ensures (Escape(v) + "\"" + a)[0] == '"' <==> v == []
  {
    if v == [] {
      assert [] + "\"" + a == "\"" + a;
    } else {
      assert Escape(v) == EscapeChar(v[0]) + Escape(v[1..]) && EscapeChar(v[0])[0] != '"';
      hide Escape, EscapeChar;
      OpenUp(EscapeChar(v[0]), Escape(v[1..]), "\"", a);
    }
  }

  lemma OpenUp(a: string, b: string, c: string, d: string)
    ensures a + b + c + d == a + (b + c + d)
  {
  }

  /** What follows the first label inside the brackets, closing bracket included. */
  function AfterFirst(labels: seq<Label>): string
    requires labels != []
  {
    if |labels| == 1 then "}" else "," + LabelStr(labels[1..]) + "}"
  }

  lemma LabelStrUnfold(labels: seq<Label>, t: string)
    requires labels != []
    ensures LabelStr(labels) + "}" + t
            == labels[0].key + "=\"" + (Escape(labels[0].value) + "\"" + (AfterFirst(labels) + t))
  {
    var k, e := labels[0].key, Escape(labels[0].value);
    var a := AfterFirst(labels);
    assert LabelStr(labels) + "}" == LabelText(labels[0]) + a;
    Regroup(k + "=\"", e, "\"", a, t);
  }

  lemma Regroup(a: string, b: string, c: string, d: string, e: string)
    ensures a + (b + c) + d + e == a + (b + c + (d + e))
  {
  }

  /** The bracketed label list is a prefix-free code of the labels. */
  lemma {:induction false} LabelStrPrefixFree(x: seq<Label>, y: seq<Label>, t: string)
    requires x != [] && y != [] && CleanKeys(x) && CleanKeys(y)
    requires LabelStr(x) + "}" <= LabelStr(y) + "}" + t
    ensures x == y
    decreases |x|, 1
  {
    var a, b := AfterFirst(x), AfterFirst(y) + t;
    LabelStrUnfold(x, "");
    LabelStrUnfold(y, t);
    assert a + "" == a && LabelStr(x) + "}" + "" == LabelStr(x) + "}";
    var u, v := Escape(x[0].value) + "\"" + a, Escape(y[0].value) + "\"" + b;
    KeyIsReadable(x[0].key, y[0].key, u, v);
    ValueIsReadable(x[0].value, y[0].value, a, b);
    assert x[0] == y[0];
    RestIsReadable(x, y, t);
  }

  lemma {:induction false} RestIsReadable(x: seq<Label>, y: seq<Label>, t: string)
    requires x != [] && y != [] && CleanKeys(x) && CleanKeys(y) && x[0] == y[0]
    requires AfterFirst(x) <= AfterFirst(y) + t
    ensures x == y
    decreases |x|, 0
  {
    AfterFirstStart(x, "");
    AfterFirstStart(y, t);
    assert AfterFirst(x) + "" == AfterFirst(x);
    hide AfterFirst, LabelStr;
    assert (AfterFirst(x) + "")[0] == (AfterFirst(y) + t)[0];
    if |x| > 1 {
      assert LabelStr(x[1..]) + "}" + "" == LabelStr(x[1..]) + "}";
      assert AfterFirst(x)[1..] <= (AfterFirst(y) + t)[1..];
      LabelStrPrefixFree(x[1..], y[1..], t);
    }
    assert x == [x[0]] + x[1..] && y == [y[0]] + y[1..];
  }

  lemma AfterFirstStart(labels: seq<Label>, t: string)
    requires labels != []
    ensures AfterFirst(labels) + t != []
    ensures |labels| == 1 ==> (AfterFirst(labels) + t)[0] == '}'
    ensures |labels| > 1 ==> (AfterFirst(labels) + t)[0] == ','
    ensures |labels| > 1 ==> (AfterFirst(labels) + t)[1..] == LabelStr(labels[1..]) + "}" + t
  {
    hide LabelStr;
    if |labels| > 1 {
      Behind(',', LabelStr(labels[1..]), "}", t);
    }
  }

  lemma Behind(c: char, a: string, b: string, t: string)
    ensures var s := [c] + a + b + t; s[0] == c && s[1..] == a + b + t
  {
  }

  // ---------------------------------------------------------------- searching printed text

  function Bracketed(labels: seq<Label>): string
  {
    "{" + (LabelStr(labels) + "}")
  }

  /** The shape of a bracketed label list that the search depends on. */
  lemma BracketedShape(labels: seq<Label>)
    requires labels != [] && CleanKeys(labels)
    ensures var pat := Bracketed(labels);
      |pat| >= 2 && pat[0] == '{' && '\n' !in pat && WellEscaped(pat) && Quotes(pat) == 2 * |labels|
  {
    LabelStrShape(labels);
    PlainText("{");
    PlainText("}");
    QuotesConcat(LabelStr(labels), "}");
    QuotesConcat("{", LabelStr(labels) + "}");
  }

  /** A bracketed list begins with a brace-free stretch that reaches its first quote. */
  lemma BracketedOpening(labels: seq<Label>) returns (opening: string)
    requires labels != [] && CleanKeys(labels)
    ensures opening != [] && opening <= Bracketed(labels) && Quotes(opening) == 1
    ensures forall i :: 0 < i < |opening| ==> opening[i] != '{'
  {
    var k := labels[0].key;
    PlainText("{" + k + "=");
    QuotesConcat("{" + k + "=", "\"");
    assert Quotes("\"") == 1 by { assert "\""[1..] == []; }
    opening := "{" + k + "=" + "\"";
    LabelStrUnfold(labels, "");
    OpeningIsPrefix(k, LabelStr(labels), Escape(labels[0].value) + "\"" + (AfterFirst(labels) + ""));
  }

  lemma OpeningIsPrefix(k: string, body: string, rest: string)
    requires body + "}" + "" == k + "=\"" + rest
    ensures "{" + k + "=" + "\"" <= "{" + (body + "}")
  {
    assert body + "}" + "" == body + "}";
    assert "{" + (body + "}") == ("{" + k + "=" + "\"") + rest;
  }

  /** Past its first character, a sample has too few free quotes left to hold as many labels. */
  lemma InnerBrace(labels: seq<Label>, tail: string, r: nat)
    requires labels != [] && CleanKeys(labels) && '\\' !in tail && '"' !in tail
    requires 0 < r < |Bracketed(labels) + tail| && (Bracketed(labels) + tail)[r] == '{'
    ensures Quotes((Bracketed(labels) + tail)[r..]) < 2 * |labels|
  {
    var u := Bracketed(labels) + tail;
    BracketedShape(labels);
    PlainText(tail);
    QuotesConcat(Bracketed(labels), tail);
    var opening := BracketedOpening(labels);
    assert opening <= u;
    assert r >= |opening|;
    assert opening <= u[..r];
    QuotesPrefix(opening, u[..r]);
    QuotesSplitAtBrace(u, r);
  }

  lemma BracketedPrefixFree(x: seq<Label>, y: seq<Label>, tail: string)
    requires x != [] && y != [] && CleanKeys(x) && CleanKeys(y)
    requires Bracketed(x) <= Bracketed(y) + tail
    ensures x == y
  {
    BracePrefix(LabelStr(x) + "}", LabelStr(y) + "}", tail);
    LabelStrPrefixFree(x, y, tail);
  }

  lemma BracePrefix(p: string, q: string, tail: string)
    requires "{" + p <= "{" + q + tail
    ensures p <= q + tail
  {
    assert ("{" + p)[1..] == p && ("{" + q + tail)[1..] == q + tail;
  }

  /** A match that holds no newline stays within its line. */
  lemma MatchStaysInLine(pat: string, u: string, rest: string, r: nat)
    requires '\n' !in pat && r <= |u| && Occurs(pat, u + "\n" + rest, r)
    ensures pat <= u[r..]
  {
    var s := u + "\n" + rest;
    assert s[|u|] == '\n';
    assert forall i :: 0 <= i < |pat| ==> pat[i] == s[r..r + |pat|][i] == s[r + i];
    assert |pat| <= |u| - r;
    assert forall i :: 0 <= i < |pat| ==> pat[i] == u[r..][i];
  }

  /** A bracketed label list cannot start in a sample of other labels, nor inside its own. */
  lemma NoOccurrenceInSample(labels: seq<Label>, other: seq<Label>, tail: string, rest: string, r: nat)
    requires labels != [] && CleanKeys(labels) && other != [] && CleanKeys(other)
    requires |labels| == |other|
    requires r == 0 ==> labels != other
    requires '\\' !in tail && '"' !in tail && '{' !in tail
    requires r <= |Bracketed(other) + tail|
    ensures !Occurs(Bracketed(labels), Bracketed(other) + tail + "\n" + rest, r)
  {
    var pat := Bracketed(labels);
    var u := Bracketed(other) + tail;
    BracketedShape(labels);
    if Occurs(pat, u + "\n" + rest, r) {
      MatchStaysInLine(pat, u, rest, r);
      assert u[r] == pat[0] == '{';
      if r == 0 {
        assert u[0..] == u;
        BracketedPrefixFree(labels, other, tail);
      } else {
        InnerBrace(other, tail, r);
        QuotesPrefix(pat, u[r..]);
      }
    }
  }

  /** No match of `pat` begins inside `s`, whatever text follows it. */
  ghost predicate Foreign(pat: string, s: string)
  {
    forall rest: string, k :: k < |s| ==> !Occurs(pat, s + rest, k)
  }

  lemma OccursAfter(pat: string, a: string, b: string, k: int)
    requires k >= |a|
    ensures Occurs(pat, a + b, k) <==> Occurs(pat, b, k - |a|)
  {
    if k + |pat| <= |a + b| {
      assert (a + b)[k..k + |pat|] == b[k - |a|..k - |a| + |pat|];
    }
  }

  lemma ForeignConcat(pat: string, a: string, b: string)
    requires Foreign(pat, a) && Foreign(pat, b)
    ensures Foreign(pat, a + b)
  {
    forall rest: string, k | k < |a + b| ensures !Occurs(pat, a + b + rest, k) {
      assert a + b + rest == a + (b + rest);
      if k < |a| {
        assert !Occurs(pat, a + (b + rest), k);
      } else {
        OccursAfter(pat, a, b + rest, k);
        assert !Occurs(pat, b + rest, k - |a|);
      }
    }
  }

  lemma ForeignNoBrace(pat: string, s: string)
    requires pat != [] && pat[0] == '{' && '{' !in s
    ensures Foreign(pat, s)
  {
    forall rest: string, k | k < |s| ensures !Occurs(pat, s + rest, k) {
      if Occurs(pat, s + rest, k) { assert false; }
    }
  }

  lemma ForeignSample(labels: seq<Label>, other: seq<Label>, tail: string)
    requires labels != [] && CleanKeys(labels) && other != [] && CleanKeys(other)
    requires |labels| == |other| && labels != other
    requires '\\' !in tail && '"' !in tail && '{' !in tail
    ensures Foreign(Bracketed(labels), Bracketed(other) + tail + "\n")
  {
    var pat, sample := Bracketed(labels), Bracketed(other) + tail + "\n";
    forall rest: string, k | k < |sample| ensures !Occurs(pat, sample + rest, k) {
      if k >= 0 {
        NoOccurrenceInSample(labels, other, tail, rest, k);
        assert sample + rest == Bracketed(other) + tail + "\n" + rest;
      }
    }
  }

  /** Replacing is exact when the text before the match is foreign and the match is not repeated after it. */
  lemma ReplaceNewest(printed: string, pat: string, tail: string, rep: string)
    requires pat != [] && Foreign(pat, printed)
    requires forall k :: k > 0 ==> !Occurs(pat, pat + tail, k)
    ensures forall k :: Occurs(pat, printed + pat + tail, k) <==> k == |printed|
    ensures ReplaceAll(printed + pat + tail, pat, rep) == printed + rep + tail
  {
    var s := printed + (pat + tail);
    assert s == printed + pat + tail;
    forall k ensures Occurs(pat, s, k) <==> k == |printed| {
      if k < |printed| {
        assert !Occurs(pat, printed + (pat + tail), k);
      } else {
        OccursAfter(pat, printed, pat + tail, k);
        assert (pat + tail)[..|pat|] == pat;
      }
    }
    ReplaceUnique(s, pat, rep, |printed|);
    assert s[..|printed|] == printed && s[|printed| + |pat|..] == tail;
  }

  // ---------------------------------------------------------------- the printer

  function Header(name: string, help: string): string
  {
    "# HELP " + name + " " + help + "\n" + "# TYPE " + name + " counter\n"
  }

  /** The value part of a sample line, newline included. */
  function Tail(value: int): string
  {
    " " + Decimal(value) + "\n"
  }

  /** One sample line of the exposition format. */
  function Line(name: string, e: Entry): string
  {
    if e.labels == [] then name + Tail(e.value) else name + (Bracketed(e.labels) + Tail(e.value))
  }

  function Lines(name: string, entries: seq<Entry>): string
  {
    if entries == [] then "" else Lines(name, entries[..|entries| - 1]) + Line(name, entries[|entries| - 1])
  }

  /** The document the exposition format asks for. */
  function Exposition(name: string, help: string, snapshot: seq<Entry>): string
  {
    Header(name, help) + if snapshot == [] then name + " 0\n" else Lines(name, snapshot)
  }

  /** The document written out, sample by sample and label by label. */
  lemma ExpositionText(name: string, help: string, snapshot: seq<Entry>, e: Entry)
    ensures var header := "# HELP " + name + " " + help + "\n# TYPE " + name + " counter\n";
      var sample :=
        name + (if e.labels == [] then "" else "{" + LabelStr(e.labels) + "}") + " " + Decimal(e.value) + "\n";
      && Exposition(name, help, []) == header + name + " 0\n"
      && Exposition(name, help, snapshot + [e]) ==
         (if snapshot == [] then header else Exposition(name, help, snapshot)) + sample
  {
    hide LabelStr, Decimal;
    HeaderLiteral(name, help);
    LineLiteral(name, e);
    hide Header, Line;
    assert (snapshot + [e])[..|snapshot|] == snapshot;
    LinesSnoc(Header(name, help), Lines(name, snapshot), Line(name, e));
    assert Lines(name, []) + Line(name, e) == Line(name, e);
    assert Header(name, help) + (name + " 0\n") == Header(name, help) + name + " 0\n";
  }

  lemma HeaderLiteral(name: string, help: string)
    ensures Header(name, help) == "# HELP " + name + " " + help + "\n# TYPE " + name + " counter\n"
  {
  }

  lemma LineLiteral(name: string, e: Entry)
    ensures Line(name, e) ==
      name + (if e.labels == [] then "" else "{" + LabelStr(e.labels) + "}") + " " + Decimal(e.value) + "\n"
  {
    hide LabelStr, Decimal;
    TailLiteral(name, e.value);
    TailLiteral(name + Bracketed(e.labels), e.value);
    assert name + (Bracketed(e.labels) + Tail(e.value)) == name + Bracketed(e.labels) + Tail(e.value);
  }

  lemma TailLiteral(a: string, v: int)
    ensures a + Tail(v) == a + " " + Decimal(v) + "\n"
  {
  }

  lemma LabelStrText(l: Label, rest: seq<Label>)
    ensures var text := l.key + "=\"" + Escape(l.value) + "\"";
      LabelStr([l] + rest) == (if rest == [] then text else text + "," + LabelStr(rest))
  {
    hide Escape;
    assert ([l] + rest)[1..] == rest;
    assert LabelText(l) == l.key + "=\"" + Escape(l.value) + "\"";
    hide LabelText;
    if rest != [] {
      assert LabelText(l) + ("," + LabelStr(rest)) == LabelText(l) + "," + LabelStr(rest);
    }
  }

  /** The `map`, `collect`, `join(",")` of the source, with its three-pass escaping. */
  function JoinLabels(labels: seq<Label>): string
  {
    if labels == [] then ""
    else
      var first := labels[0].key + "=\"" + (EscapeLabelValue(labels[0].value) + "\"");
      if |labels| == 1 then first else first + ("," + JoinLabels(labels[1..]))
  }

  lemma {:induction false} JoinLabelsIsLabelStr(labels: seq<Label>)
    ensures JoinLabels(labels) == LabelStr(labels)
  {
    if labels != [] {
      ThreePassesAreOne(labels[0].value);
      JoinLabelsIsLabelStr(labels[1..]);
    }
  }

  /** One step of the source's loop: push, then rewrite everything printed so far. */
  function PushEntry(output: string, name: string, e: Entry): string
  {
    if e.labels == [] then output + (name + Tail(e.value))
    else
      var pat := "{" + (JoinLabels(e.labels) + "}");
      ReplaceAll(output + pat + Tail(e.value), pat, name + pat)
  }

  function PushEntries(output: string, name: string, entries: seq<Entry>): string
  {
    if entries == [] then output
    else PushEntry(PushEntries(output, name, entries[..|entries| - 1]), name, entries[|entries| - 1])
  }

  /**
   A snapshot of one counter: label sets are the keys of a map, hence distinct, and the label sets
   that are not empty all have the same number of labels. Label values are unconstrained.
  */
  predicate Family(snapshot: seq<Entry>)
  {
    && (forall i :: 0 <= i < |snapshot| ==> CleanKeys(snapshot[i].labels))
    && (forall i, j :: 0 <= i < j < |snapshot| ==> snapshot[i].labels != snapshot[j].labels)
    && (forall i, j :: 0 <= i < j < |snapshot| && snapshot[i].labels != [] && snapshot[j].labels != [] ==>
          |snapshot[i].labels| == |snapshot[j].labels|)
  }

  lemma TailShape(v: int) returns (t: string)
    ensures Tail(v) == t + "\n" && '\\' !in t && '"' !in t && '{' !in t && '{' !in Tail(v)
  {
    t := " " + Decimal(v);
  }

  lemma ForeignLine(name: string, labels: seq<Label>, e: Entry)
    requires '{' !in name && labels != [] && CleanKeys(labels) && CleanKeys(e.labels)
    requires e.labels != [] ==> |labels| == |e.labels|
    requires labels != e.labels
    ensures Foreign(Bracketed(labels), Line(name, e))
  {
    var pat := Bracketed(labels);
    BracketedShape(labels);
    ForeignNoBrace(pat, name);
    var t := TailShape(e.value);
    if e.labels == [] {
      ForeignNoBrace(pat, Tail(e.value));
      ForeignConcat(pat, name, Tail(e.value));
    } else {
      var sample := Bracketed(e.labels) + Tail(e.value);
      assert sample == Bracketed(e.labels) + t + "\n";
      ForeignSample(labels, e.labels, t);
      ForeignConcat(pat, name, sample);
    }
  }

  lemma {:induction false} ForeignLines(pat: string, name: string, entries: seq<Entry>)
    requires pat != [] && pat[0] == '{'
    requires forall i :: 0 <= i < |entries| ==> Foreign(pat, Line(name, entries[i]))
    ensures Foreign(pat, Lines(name, entries))
  {
    if entries == [] {
      ForeignNoBrace(pat, "");
    } else {
      var n := |entries| - 1;
      ForeignLines(pat, name, entries[..n]);
      ForeignConcat(pat, Lines(name, entries[..n]), Line(name, entries[n]));
    }
  }

  lemma ForeignPrinted(name: string, help: string, snapshot: seq<Entry>, i: nat)
    requires '{' !in name && '{' !in help && Family(snapshot)
    requires i < |snapshot| && snapshot[i].labels != []
    ensures Foreign(Bracketed(snapshot[i].labels), Printed(name, help, snapshot, i))
  {
    var pat := Bracketed(snapshot[i].labels);
    BracketedShape(snapshot[i].labels);
    HeaderHasNoBrace(name, help);
    ForeignNoBrace(pat, Header(name, help));
    forall j | 0 <= j < |snapshot[..i]| ensures Foreign(pat, Line(name, snapshot[..i][j])) {
      ForeignLine(name, snapshot[i].labels, snapshot[j]);
    }
    ForeignLines(pat, name, snapshot[..i]);
    ForeignConcat(pat, Header(name, help), Lines(name, snapshot[..i]));
  }

  lemma NotInsideItself(labels: seq<Label>, v: int)
    requires labels != [] && CleanKeys(labels)
    ensures forall k :: k > 0 ==> !Occurs(Bracketed(labels), Bracketed(labels) + Tail(v), k)
  {
    var pat := Bracketed(labels);
    BracketedShape(labels);
    var t := TailShape(v);
    var s := pat + t + "\n" + "";
    assert pat + Tail(v) == s;
    forall k | k > 0 ensures !Occurs(pat, s, k) {
      if k < |s| {
        NoOccurrenceInSample(labels, labels, t, "", k);
      }
    }
  }

  /** What the source has printed before entry `i`, on a well-behaved snapshot. */
  function Printed(name: string, help: string, snapshot: seq<Entry>, i: nat): string
    requires i <= |snapshot|
  {
    Header(name, help) + Lines(name, snapshot[..i])
  }

  /**
   The global replacement matches exactly once, at the start of the line just pushed, and so
   amounts to printing that line.
  */
  lemma MatchesNewestLineOnly(name: string, help: string, snapshot: seq<Entry>, i: nat)
    requires '{' !in name && '{' !in help && Family(snapshot)
    requires i < |snapshot| && snapshot[i].labels != []
    ensures var printed, pat := Printed(name, help, snapshot, i), Bracketed(snapshot[i].labels);
      forall k :: Occurs(pat, printed + pat + Tail(snapshot[i].value), k) <==> k == |printed|
    ensures PushEntry(Printed(name, help, snapshot, i), name, snapshot[i])
            == Printed(name, help, snapshot, i) + Line(name, snapshot[i])
  {
    var labels, tail := snapshot[i].labels, Tail(snapshot[i].value);
    var pat := Bracketed(labels);
    var printed := Printed(name, help, snapshot, i);
    BracketedShape(labels);
    ForeignPrinted(name, help, snapshot, i);
    NotInsideItself(labels, snapshot[i].value);
    ReplaceNewest(printed, pat, tail, name + pat);
    PushEntryUnfold(printed, name, snapshot[i]);
  }

  lemma PushEntryUnfold(printed: string, name: string, e: Entry)
    requires e.labels != []
    requires var pat := Bracketed(e.labels);
      ReplaceAll(printed + pat + Tail(e.value), pat, name + pat) == printed + (name + pat) + Tail(e.value)
    ensures PushEntry(printed, name, e) == printed + Line(name, e)
  {
    JoinLabelsIsLabelStr(e.labels);
    Regroup3(printed, name, Bracketed(e.labels), Tail(e.value));
  }

  lemma Regroup3(a: string, b: string, c: string, d: string)
    ensures a + (b + c) + d == a + (b + (c + d))
  {
  }

  lemma HeaderHasNoBrace(name: string, help: string)
    requires '{' !in name && '{' !in help
    ensures '{' !in Header(name, help)
  {
  }

  lemma PrintedStep(name: string, help: string, snapshot: seq<Entry>, i: nat)
    requires i < |snapshot|
    ensures Printed(name, help, snapshot, i + 1) == Printed(name, help, snapshot, i) + Line(name, snapshot[i])
  {
    assert snapshot[..i + 1][..i] == snapshot[..i];
    hide Header, Line;
    LinesSnoc(Header(name, help), Lines(name, snapshot[..i]), Line(name, snapshot[i]));
  }

  lemma LinesSnoc(h: string, a: string, b: string)
    ensures h + (a + b) == h + a + b
  {
  }

  /** The printer of the source writes exactly the document the format asks for. */
  lemma {:induction false} PushEntriesPrintsLines(name: string, help: string, snapshot: seq<Entry>, i: nat)
    requires '{' !in name && '{' !in help && Family(snapshot)
    requires i <= |snapshot|
    ensures PushEntries(Header(name, help), name, snapshot[..i]) == Printed(name, help, snapshot, i)
  {
    if i > 0 {
      assert snapshot[..i][..i - 1] == snapshot[..i - 1];
      PushEntriesPrintsLines(name, help, snapshot, i - 1);
      PrintedStep(name, help, snapshot, i - 1);
      if snapshot[i - 1].labels != [] {
        MatchesNewestLineOnly(name, help, snapshot, i - 1);
      }
    }
  }

  // ---------------------------------------------------------------- one push

  /**
   The exact condition for one push, on any text that ends a line: the entry is printed correctly
   iff its bracketed labels do not stand in the text yet.
  */
  lemma PushEntryExact(output: string, name: string, e: Entry)
    requires name != "" && '{' !in name && e.labels != [] && CleanKeys(e.labels)
    requires output != "" && output[|output| - 1] == '\n'
    ensures PushEntry(output, name, e) == output + Line(name, e)
            <==> forall k :: !Occurs(Bracketed(e.labels), output, k)
  {
    var pat, tail := Bracketed(e.labels), Tail(e.value);
    BracketedShape(e.labels);
    NotInsideItself(e.labels, e.value);
    if k :| Occurs(pat, output, k) {
      PushTwice(output, name, e, k);
    } else {
      ForeignWholeLines(pat, output);
      ReplaceNewest(output, pat, tail, name + pat);
      PushEntryUnfold(output, name, e);
    }
  }

  lemma PushLength(output: string, name: string, e: Entry)
    requires e.labels != []
    ensures |Bracketed(e.labels)| >= 2
    ensures |PushEntry(output, name, e)| ==
      |output| + |Bracketed(e.labels) + Tail(e.value)| +
      MatchCount(output + Bracketed(e.labels) + Tail(e.value), Bracketed(e.labels)) * |name|
    ensures |Line(name, e)| == |Bracketed(e.labels) + Tail(e.value)| + |name|
    ensures Occurs(Bracketed(e.labels), output + Bracketed(e.labels) + Tail(e.value), |output|)
  {
    var pat, tail := Bracketed(e.labels), Tail(e.value);
    var s := output + pat + tail;
    JoinLabelsIsLabelStr(e.labels);
    ReplaceLength(s, pat, name);
    assert s[|output|..|output| + |pat|] == pat;
  }

  /** Brackets that stand in the text already are named twice, and the text gets too long. */
  lemma PushTwice(output: string, name: string, e: Entry, k: int)
    requires name != "" && e.labels != [] && Occurs(Bracketed(e.labels), output, k)
    ensures |PushEntry(output, name, e)| > |output| + |Line(name, e)|
  {
    hide PushEntry, Line, MatchCount, Bracketed, Tail, Occurs;
    var pat, tail := Bracketed(e.labels), Tail(e.value);
    PushLength(output, name, e);
    OccursBefore(pat, output, tail, k);
    MatchCountTwo(output + pat + tail, pat, k, |output|);
    TwiceIsMore(MatchCount(output + pat + tail, pat), |name|);
  }

  lemma OccursBefore(pat: string, output: string, tail: string, k: int)
    requires Occurs(pat, output, k)
    ensures 0 <= k && k + |pat| <= |output| && Occurs(pat, output + pat + tail, k)
  {
    assert (output + pat + tail)[k..k + |pat|] == output[k..k + |pat|];
  }

  /** A push never writes less than its line. */
  lemma PushGrows(output: string, name: string, e: Entry)
    ensures |PushEntry(output, name, e)| >= |output| + |Line(name, e)|
  {
    if e.labels != [] {
      var pat := Bracketed(e.labels);
      var s := output + pat + Tail(e.value);
      PushLength(output, name, e);
      MatchCountOne(s, pat, |output|);
      OnceIsEnough(MatchCount(s, pat), |name|);
    }
  }

  lemma OnceIsEnough(n: nat, d: nat)
    requires n >= 1
    ensures n * d >= d
  {
    assert n * d == d + (n - 1) * d;
  }

  lemma TwiceIsMore(n: nat, d: nat)
    requires n >= 2 && d > 0
    ensures n * d > d
  {
    assert n * d == d + (n - 1) * d;
    assert (n - 1) * d >= d;
  }

  lemma WholeLineMatch(pat: string, s: string, rest: string, k: nat)
    requires '\n' !in pat && k < |s| && s[|s| - 1] == '\n'
    requires Occurs(pat, s + rest, k)
    ensures Occurs(pat, s, k)
  {
    var u := s[..|s| - 1];
    assert s + rest == u + "\n" + rest;
    MatchStaysInLine(pat, u, rest, k);
  }

  lemma ForeignWholeLines(pat: string, s: string)
    requires '\n' !in pat && s != "" && s[|s| - 1] == '\n'
    requires forall k :: !Occurs(pat, s, k)
    ensures Foreign(pat, s)
  {
    forall rest: string, k | k < |s| ensures !Occurs(pat, s + rest, k) {
      if Occurs(pat, s + rest, k) {
        WholeLineMatch(pat, s, rest, k);
      }
    }
  }

  // ---------------------------------------------------------------- the whole document

  /** The brackets of entry `i` are new when it is pushed, as far as the document has been printed rightly. */
  ghost predicate Fresh(name: string, help: string, snapshot: seq<Entry>, i: nat)
    requires i < |snapshot|
  {
    snapshot[i].labels != [] ==> forall k :: !Occurs(Bracketed(snapshot[i].labels), Printed(name, help, snapshot, i), k)
  }

  lemma PrintedEndsLine(name: string, help: string, snapshot: seq<Entry>, i: nat)
    requires i <= |snapshot|
    ensures var p := Printed(name, help, snapshot, i); p != "" && p[|p| - 1] == '\n'
  {
    if i == 0 {
      assert snapshot[..0] == [];
      assert Printed(name, help, snapshot, 0) == Header(name, help);
    } else {
      PrintedStep(name, help, snapshot, i - 1);
      var e := snapshot[i - 1];
      var t := TailShape(e.value);
      var line := Line(name, e);
      assert line[|line| - 1] == Tail(e.value)[|Tail(e.value)| - 1];
    }
  }

  /**
   The exact condition for any number of entries, whatever their label sets and whatever the help text: the
   document is right iff no entry's brackets stand in the part before it, and otherwise it is too long.
  */
  lemma {:induction false} DocumentExact(name: string, help: string, snapshot: seq<Entry>, i: nat)
    requires name != "" && '{' !in name && i <= |snapshot|
    requires forall j :: 0 <= j < |snapshot| ==> CleanKeys(snapshot[j].labels)
    ensures PushEntries(Header(name, help), name, snapshot[..i]) == Printed(name, help, snapshot, i)
            <==> forall j :: 0 <= j < i ==> Fresh(name, help, snapshot, j)
    ensures PushEntries(Header(name, help), name, snapshot[..i]) == Printed(name, help, snapshot, i)
            || |PushEntries(Header(name, help), name, snapshot[..i])| > |Printed(name, help, snapshot, i)|
  {
    hide PushEntries, Printed, Fresh, Header, CleanKeys;
    if i == 0 {
      NothingPrinted(name, help, snapshot);
    } else {
      DocumentExact(name, help, snapshot, i - 1);
      DocumentStep(name, help, snapshot, i - 1);
    }
  }

  lemma NothingPrinted(name: string, help: string, snapshot: seq<Entry>)
    ensures Printed(name, help, snapshot, 0) == Header(name, help)
    ensures PushEntries(Header(name, help), name, snapshot[..0]) == Header(name, help)
  {
    assert snapshot[..0] == [];
  }

  lemma DocumentStep(name: string, help: string, snapshot: seq<Entry>, i: nat)
    requires name != "" && '{' !in name && i < |snapshot| && CleanKeys(snapshot[i].labels)
    requires var p, q := PushEntries(Header(name, help), name, snapshot[..i]), Printed(name, help, snapshot, i);
      p == q || |p| > |q|
    ensures var p, q := PushEntries(Header(name, help), name, snapshot[..i]), Printed(name, help, snapshot, i);
      var p', q' := PushEntries(Header(name, help), name, snapshot[..i + 1]), Printed(name, help, snapshot, i + 1);
      && (p' == q' <==> p == q && Fresh(name, help, snapshot, i))
      && (p' == q' || |p'| > |q'|)
  {
    var p, q := PushEntries(Header(name, help), name, snapshot[..i]), Printed(name, help, snapshot, i);
    assert snapshot[..i + 1][..i] == snapshot[..i];
    hide PushEntry, Printed, Header;
    PrintedStep(name, help, snapshot, i);
    PrintedEndsLine(name, help, snapshot, i);
    EntryStep(p, q, name, snapshot[i]);
  }

  /** One entry pushed to a text that is right or too long. */
  lemma EntryStep(p: string, q: string, name: string, e: Entry)
    requires name != "" && '{' !in name && CleanKeys(e.labels)
    requires q != "" && q[|q| - 1] == '\n' && (p == q || |p| > |q|)
    ensures var p', q' := PushEntry(p, name, e), q + Line(name, e);
      && (p' == q' <==> p == q && (e.labels != [] ==> forall k :: !Occurs(Bracketed(e.labels), q, k)))
      && (p' == q' || |p'| > |q'|)
  {
    PushGrows(p, name, e);
    if p == q && e.labels != [] {
      hide PushEntry, Line, Bracketed;
      PushEntryExact(q, name, e);
      if k :| Occurs(Bracketed(e.labels), q, k) {
        PushTwice(q, name, e, k);
      }
    } else {
      hide Bracketed;
    }
  }

  // ---------------------------------------------------------------- when the trick fails

  /** A help text that quotes a sample of the counter is corrupted. */
  lemma HelpTextCounterexample(name: string, before: string, e: Entry, after: string)
    requires name != "" && '{' !in name && e.labels != [] && CleanKeys(e.labels)
    ensures var help := before + Bracketed(e.labels) + after;
      Family([e]) && PushEntry(Header(name, help), name, e) != Header(name, help) + Line(name, e)
  {
    var pat := Bracketed(e.labels);
    var k := OccursInHeader(name, before, pat, after);
    PushEntryExact(Header(name, before + pat + after), name, e);
  }

  lemma OccursInHeader(name: string, before: string, pat: string, after: string) returns (k: int)
    ensures Occurs(pat, Header(name, before + pat + after), k)
    ensures var h := Header(name, before + pat + after); h != "" && h[|h| - 1] == '\n'
  {
    var a, b := "# HELP " + name + " " + before, after + "\n" + "# TYPE " + name + " counter\n";
    OccursWithin(a, pat, b);
    assert Header(name, before + pat + after) == a + pat + b;
    k := |a|;
  }

  lemma OccursWithin(a: string, pat: string, b: string)
    ensures Occurs(pat, a + pat + b, |a|)
  {
    assert (a + pat + b)[|a|..|a| + |pat|] == pat;
  }

  /** Label sets of different sizes in one counter can collide: the second push rewrites the first line. */
  lemma MixedLabelCountCounterexample(name: string, help: string)
    requires name != "" && '{' !in name && '{' !in help
    ensures var first, second := Entry([Label("a", "{b="), Label("c", "}")], 1), Entry([Label("b", ",c=")], 1);
      var output := PushEntry(Header(name, help), name, first);
      CleanKeys(first.labels) && CleanKeys(second.labels) &&
      PushEntry(output, name, second) != output + Line(name, second)
  {
    hide Bracketed, Header, PushEntry, Occurs, CleanKeys, Line;
    var first, second := Entry([Label("a", "{b="), Label("c", "}")], 1), Entry([Label("b", ",c=")], 1);
    MixedLetters();
    PushFirst(name, help, first);
    SecondOccurs(name, help, first, second);
    PushEntryExact(Header(name, help) + Line(name, first), name, second);
  }

  lemma MixedLetters()
    ensures var x, y := [Label("a", "{b="), Label("c", "}")], [Label("b", ",c=")];
      CleanKeys(x) && CleanKeys(y) && Occurs(Bracketed(y), Bracketed(x), 4)
  {
    MixedOverlap();
    BracketedOne("b", ",c=");
    BracketedTwo("a", "{b=", "c", "}");
    hide Bracketed;
  }

  lemma SecondOccurs(name: string, help: string, d: Entry, e: Entry)
    requires d.labels != [] && Occurs(Bracketed(e.labels), Bracketed(d.labels), 4)
    ensures var output := Header(name, help) + Line(name, d);
      && Occurs(Bracketed(e.labels), output, |Header(name, help)| + |name| + 4)
      && output != "" && output[|output| - 1] == '\n'
  {
    hide Bracketed, Occurs;
    OccursDeep(Header(name, help), name, Bracketed(d.labels), Tail(d.value), Bracketed(e.labels), 4);
  }

  lemma OccursDeep(a: string, b: string, c: string, d: string, pat: string, k: nat)
    requires Occurs(pat, c, k)
    ensures Occurs(pat, a + (b + (c + d)), |a| + |b| + k)
  {
    assert (a + (b + (c + d)))[|a| + |b| + k..|a| + |b| + k + |pat|] == c[k..k + |pat|];
  }

  lemma PushFirst(name: string, help: string, e: Entry)
    requires '{' !in name && '{' !in help && e.labels != [] && CleanKeys(e.labels)
    ensures PushEntry(Header(name, help), name, e) == Header(name, help) + Line(name, e)
  {
    MatchesNewestLineOnly(name, help, [e], 0);
    assert [e][..0] == [];
    assert Printed(name, help, [e], 0) == Header(name, help);
  }

  lemma BracketedOne(k: string, v: string)
    requires '\\' !in v && '"' !in v && '\n' !in v
    ensures Bracketed([Label(k, v)]) == "{" + (k + "=\"" + (v + "\"") + "}")
  {
    PlainEscape(v);
  }

  lemma BracketedTwo(k: string, v: string, k2: string, v2: string)
    requires '\\' !in v && '"' !in v && '\n' !in v && '\\' !in v2 && '"' !in v2 && '\n' !in v2
    ensures Bracketed([Label(k, v), Label(k2, v2)])
            == "{" + (k + "=\"" + (v + "\"") + ("," + (k2 + "=\"" + (v2 + "\""))) + "}")
  {
    PlainEscape(v);
    PlainEscape(v2);
    var x, y := Label(k, v), Label(k2, v2);
    assert [x, y][1..] == [y];
    assert LabelStr([y]) == LabelText(y) == k2 + "=\"" + (v2 + "\"");
    assert LabelStr([x, y]) == LabelText(x) + ("," + LabelText(y));
  }

  lemma MixedOverlap()
    ensures ("{" + ("a" + "=\"" + ("{b=" + "\"") + ("," + ("c" + "=\"" + ("}" + "\""))) + "}"))[4..13]
            == "{" + ("b" + "=\"" + (",c=" + "\"") + "}")
  {
  }

  lemma {:induction false} PlainEscape(s: string)
    requires '\\' !in s && '"' !in s && '\n' !in s
    ensures Escape(s) == s
  {
    if s != [] { PlainEscape(s[1..]); }
  }

  /** `format_counter`, on the snapshot in whatever order the map yields it. */
  method FormatCounter(name: string, help: string, snapshot: seq<Entry>) returns (output: string)
    ensures output == if snapshot == [] then Header(name, help) + (name + " 0\n")
                      else PushEntries(Header(name, help), name, snapshot)
    ensures '{' !in name && '{' !in help && Family(snapshot) ==> output == Exposition(name, help, snapshot)
    ensures name != "" && '{' !in name && (forall j :: 0 <= j < |snapshot| ==> CleanKeys(snapshot[j].labels)) ==>
      (output == Exposition(name, help, snapshot) <==>
        forall j :: 0 <= j < |snapshot| ==> Fresh(name, help, snapshot, j))
  {
    hide Fresh;
    output := "";
    output := output + ("# HELP " + name + " " + help + "\n");
    output := output + ("# TYPE " + name + " counter\n");
    HeaderText(name, help, output);
    if snapshot == [] {
      output := output + (name + " 0\n");
    } else {
      for i := 0 to |snapshot|
        invariant output == PushEntries(Header(name, help), name, snapshot[..i])
      {
        assert snapshot[..i + 1][..i] == snapshot[..i];
        var e := snapshot[i];
        if e.labels == [] {
          output := output + (name + Tail(e.value));
        } else {
          var pat := "{" + (JoinLabels(e.labels) + "}");
          output := output + pat + Tail(e.value);
          output := ReplaceAll(output, pat, name + pat);
        }
      }
      assert snapshot[..|snapshot|] == snapshot;
      if '{' !in name && '{' !in help && Family(snapshot) {
        PushEntriesPrintsLines(name, help, snapshot, |snapshot|);
      }
      if name != "" && '{' !in name && forall j :: 0 <= j < |snapshot| ==> CleanKeys(snapshot[j].labels) {
        DocumentExact(name, help, snapshot, |snapshot|);
      }
    }
  }

  lemma HeaderText(name: string, help: string, output: string)
    requires output == "" + ("# HELP " + name + " " + help + "\n") + ("# TYPE " + name + " counter\n")
    ensures output == Header(name, help)
  {
  }

  // ---------------------------------------------------------------- what a reader gets back

  lemma {:induction false} LinesCons(name: string, e: Entry, entries: seq<Entry>)
    ensures Lines(name, [e] + entries) == Line(name, e) + Lines(name, entries)
  {
    hide Line;
    var all := [e] + entries;
    if entries == [] {
      assert all[..0] == [];
    } else {
      var n := |entries| - 1;
      assert all[..n + 1] == [e] + entries[..n];
      LinesCons(name, e, entries[..n]);
    }
  }

  lemma FirstNewline(a: string, x: string, b: string, y: string)
    requires '\n' !in a && '\n' !in b && a + "\n" + x == b + "\n" + y
    ensures a == b && x == y
  {
    var s := a + "\n" + x;
    assert s[|a|] == '\n' && s[|b|] == '\n';
    assert forall i :: 0 <= i < |a| ==> s[i] == a[i];
    assert forall i :: 0 <= i < |b| ==> s[i] == b[i];
    assert |a| == |b|;
    assert a == s[..|a|] == b && x == s[|a| + 1..] == y;
  }

  lemma TailIsReadable(v: int, x: string, w: int, y: string)
    requires Tail(v) + x == Tail(w) + y
    ensures v == w && x == y
  {
    var a, b := " " + Decimal(v), " " + Decimal(w);
    assert Tail(v) + x == a + "\n" + x && Tail(w) + y == b + "\n" + y;
    FirstNewline(a, x, b, y);
    assert Decimal(v) == a[1..] && Decimal(w) == b[1..];
    DecimalInjective(v, w);
  }

  lemma LineIsReadable(name: string, d: Entry, x: string, e: Entry, y: string)
    requires CleanKeys(d.labels) && CleanKeys(e.labels) && Line(name, d) + x == Line(name, e) + y
    ensures d == e && x == y
  {
    hide Bracketed, Decimal;
    var p, q := Line(name, d) + x, Line(name, e) + y;
    var a := if d.labels == [] then Tail(d.value) + x else Bracketed(d.labels) + (Tail(d.value) + x);
    var b := if e.labels == [] then Tail(e.value) + y else Bracketed(e.labels) + (Tail(e.value) + y);
    LineParts(name, d, x, a);
    LineParts(name, e, y, b);
    assert a == p[|name|..] == q[|name|..] == b;
    if d.labels != [] { BracketedShape(d.labels); }
    if e.labels != [] { BracketedShape(e.labels); }
    assert (d.labels == [] <==> a[0] == ' ') && (e.labels == [] <==> b[0] == ' ');
    if d.labels != [] {
      assert Bracketed(d.labels) <= b;
      BracketedPrefixFree(d.labels, e.labels, Tail(e.value) + y);
      assert Tail(d.value) + x == a[|Bracketed(d.labels)|..] == Tail(e.value) + y;
    }
    TailIsReadable(d.value, x, e.value, y);
  }

  lemma LineParts(name: string, e: Entry, rest: string, a: string)
    requires a == if e.labels == [] then Tail(e.value) + rest else Bracketed(e.labels) + (Tail(e.value) + rest)
    ensures Line(name, e) + rest == name + a
  {
  }

  lemma PrintedIfAny(name: string, entries: seq<Entry>)
    ensures Lines(name, entries) == "" <==> entries == []
  {
  }

  /** The sample lines determine the snapshot: no two snapshots print alike. */
  lemma {:induction false} LinesAreReadable(name: string, x: seq<Entry>, y: seq<Entry>)
    requires (forall e :: e in x ==> CleanKeys(e.labels)) && (forall e :: e in y ==> CleanKeys(e.labels))
    requires Lines(name, x) == Lines(name, y)
    ensures x == y
  {
    hide Line, Lines, CleanKeys;
    PrintedIfAny(name, x);
    PrintedIfAny(name, y);
    if x != [] && y != [] {
      assert x == [x[0]] + x[1..] && y == [y[0]] + y[1..];
      LinesCons(name, x[0], x[1..]);
      LinesCons(name, y[0], y[1..]);
      LineIsReadable(name, x[0], Lines(name, x[1..]), y[0], Lines(name, y[1..]));
      LinesAreReadable(name, x[1..], y[1..]);
    }
  }

  /** The label a window summary gives each series. */
  function SeriesEntries(sums: seq<(string, int)>): seq<Entry>
  {
    if sums == [] then []
    else
      var (series, sum) := sums[|sums| - 1];
      SeriesEntries(sums[..|sums| - 1]) + [Entry([Label("series", series)], sum)]
  }

  lemma SeriesLine(name: string, series: string, sum: int)
    ensures name + ("{series=\"" + (EscapeLabelValue(series) + ("\"} " + (Decimal(sum) + "\n"))))
            == Line(name, Entry([Label("series", series)], sum))
  {
    ThreePassesAreOne(series);
    SeriesText(name, Escape(series), Decimal(sum));
  }

  lemma SeriesText(name: string, value: string, number: string)
    ensures name + ("{series=\"" + (value + ("\"} " + (number + "\n"))))
            == name + ("{" + ("series" + "=\"" + (value + "\"") + "}") + (" " + number + "\n"))
  {
  }

  lemma SummaryStep(name: string, sums: seq<(string, int)>, i: nat)
    requires i < |sums|
    ensures var (series, sum) := sums[i];
      Lines(name, SeriesEntries(sums[..i + 1])) ==
        Lines(name, SeriesEntries(sums[..i]))
          + (name + ("{series=\"" + (EscapeLabelValue(series) + ("\"} " + (Decimal(sum) + "\n")))))
  {
    hide EscapeLabelValue, Decimal, Line;
    SeriesLine(name, sums[i].0, sums[i].1);
    assert sums[..i + 1][..i] == sums[..i];
    assert SeriesEntries(sums[..i + 1])[..i] == SeriesEntries(sums[..i]) by { SeriesCount(sums[..i]); }
  }

  lemma NoSeries(name: string, sums: seq<(string, int)>)
    ensures Lines(name, SeriesEntries(sums[..0])) == ""
  {
  }

  /** `format_window_summary` writes the sample lines a counter labelled by series would have. */
  method FormatWindowSummary(name: string, help: string, sums: seq<(string, int)>) returns (output: string)
    ensures output ==
      "# HELP " + name + " " + help + "\n" + ("# TYPE " + name + " gauge\n") + Lines(name, SeriesEntries(sums))
  {
    hide EscapeLabelValue, Decimal, Line, Lines, SeriesEntries;
    output := "";
    output := output + ("# HELP " + name + " " + help + "\n");
    output := output + ("# TYPE " + name + " gauge\n");
    ghost var header := output;
    NoSeries(name, sums);
    for i := 0 to |sums|
      invariant output == header + Lines(name, SeriesEntries(sums[..i]))
    {
      var (series, sum) := sums[i];
      SummaryStep(name, sums, i);
      output := output + (name + ("{series=\"" + (EscapeLabelValue(series) + ("\"} " + (Decimal(sum) + "\n")))));
    }
    assert sums[..|sums|] == sums;
  }

  lemma {:induction false} SeriesCount(sums: seq<(string, int)>)
    ensures |SeriesEntries(sums)| == |sums|
  {
    if sums != [] { SeriesCount(sums[..|sums| - 1]); }
  }
}
