/** `build_where_clause`: a filter record compiled to SQL text with positional parameters. */
module WhereClause {
  import opened Options
  import opened TimestampText
  import opened Sql

  /** The six filters of a query. */
  datatype Filter = Filter(
    eventTypes: seq<string>, watchRoot: Option<string>, search: Option<string>,
    after: Option<string>, before: Option<string>, isDir: Option<bool>)

  // ---------------------------------------------------------------- what the compiler writes

  const IN_OPEN := " AND event_type IN ("
  const ROOT_EQ := " AND watch_root = " + "?"
  const SEARCH := " AND (path LIKE " + "?" + (" OR target_path LIKE " + "?" + ")")
  const AFTER := " AND timestamp >= " + "?"
  const BEFORE := " AND timestamp <= " + "?"
  const DIR_EQ := " AND is_dir = " + "?"

  /** `placeholders.join(",")` for `n` placeholders. */
  function Placeholders(n: nat): string
  {
    if n == 0 then "" else if n == 1 then "?" else "?," + Placeholders(n - 1)
  }

  function Texts(ts: seq<string>): seq<Value>
  {
    if ts == [] then [] else Texts(ts[..|ts| - 1]) + [Text(ts[|ts| - 1])]
  }

  function Searching(f: Filter): bool { f.search.Some? && f.search.value != "" }

  function TypesSql(f: Filter): string
  {
    if f.eventTypes == [] then "" else IN_OPEN + (Placeholders(|f.eventTypes|) + ")")
  }
  function RootSql(f: Filter): string { if f.watchRoot.Some? then ROOT_EQ else "" }
  function SearchSql(f: Filter): string { if Searching(f) then SEARCH else "" }
  function AfterSql(f: Filter): string { if f.after.Some? then AFTER else "" }
  function BeforeSql(f: Filter): string { if f.before.Some? then BEFORE else "" }
  function DirSql(f: Filter): string { if f.isDir.Some? then DIR_EQ else "" }

  function RootParams(f: Filter): seq<Value> { if f.watchRoot.Some? then [Text(f.watchRoot.value)] else [] }
  function SearchParams(f: Filter): seq<Value>
  {
    if Searching(f) then [Text("%" + f.search.value + "%"), Text("%" + f.search.value + "%")] else []
  }
  function AfterParams(f: Filter): seq<Value> { if f.after.Some? then [Text(f.after.value)] else [] }
  function BeforeParams(f: Filter): seq<Value> { if f.before.Some? then [Text(f.before.value)] else [] }
  function DirParams(f: Filter): seq<Value> { if f.isDir.Some? then [OptBool(f.isDir)] else [] }

  function Clause(f: Filter): string
  {
    TypesSql(f) + (RootSql(f) + (SearchSql(f) + (AfterSql(f) + (BeforeSql(f) + DirSql(f)))))
  }

  function Params(f: Filter): seq<Value>
  {
    Texts(f.eventTypes) + (RootParams(f) + (SearchParams(f) + (AfterParams(f) + (BeforeParams(f) + DirParams(f)))))
  }

  /** What the clause makes of a row where every statement uses it, behind `WHERE 1=1`. */
  function Eval(clause: string, params: seq<Value>, row: Row): Option<Truth>
  {
    Condition("1=1" + clause, params, row)
  }

  method BuildWhereClause(f: Filter) returns (clause: string, params: seq<Value>)
    ensures clause == Clause(f) && params == Params(f)
    ensures Marks(clause) == |params|
    ensures forall row :: Eval(clause, params, row).Some?
    ensures forall row :: Eval(clause, params, row) == Some(True) <==> Matches(f, row)
  {
    clause, params := PushTextFilters(f);
    clause, params := PushTimeFilters(clause, params, f);
    Regroup(TypesSql(f), RootSql(f), SearchSql(f), AfterSql(f), BeforeSql(f), DirSql(f));
    Regroup(Texts(f.eventTypes), RootParams(f), SearchParams(f), AfterParams(f), BeforeParams(f), DirParams(f));
    ClauseIsCorrect(f);
  }

  method PushTextFilters(f: Filter) returns (clause: string, params: seq<Value>)
    ensures clause == TypesSql(f) + RootSql(f) + SearchSql(f)
    ensures params == Texts(f.eventTypes) + RootParams(f) + SearchParams(f)
  {
    clause, params := PushTypes(f);
    ghost var c1, p1 := clause, params;
    if f.watchRoot.Some? {
      clause := clause + ROOT_EQ;
      params := params + [Text(f.watchRoot.value)];
    }
    Appended(clause, params, c1, p1, RootSql(f), RootParams(f));
    ghost var c2, p2 := clause, params;
    if f.search.Some? {
      if f.search.value != "" {
        clause := clause + SEARCH;
        var pattern := "%" + f.search.value + "%";
        params := params + [Text(pattern)];
        params := params + [Text(pattern)];
      }
    }
    Appended(clause, params, c2, p2, SearchSql(f), SearchParams(f));
  }

  method PushTypes(f: Filter) returns (clause: string, params: seq<Value>)
    ensures clause == TypesSql(f) && params == Texts(f.eventTypes)
  {
    clause, params := "", [];
    if f.eventTypes != [] {
      var placeholders := Placeholders(|f.eventTypes|);
      clause := clause + (IN_OPEN + (placeholders + ")"));
      for i := 0 to |f.eventTypes|
        invariant params == Texts(f.eventTypes[..i])
      {
        assert f.eventTypes[..i + 1][..i] == f.eventTypes[..i];
        params := params + [Text(f.eventTypes[i])];
      }
      assert f.eventTypes[..|f.eventTypes|] == f.eventTypes;
    }
  }

  method PushTimeFilters(clause0: string, params0: seq<Value>, f: Filter) returns (clause: string, params: seq<Value>)
    ensures clause == clause0 + AfterSql(f) + BeforeSql(f) + DirSql(f)
    ensures params == params0 + AfterParams(f) + BeforeParams(f) + DirParams(f)
  {
    clause, params := clause0, params0;
    if f.after.Some? {
      clause := clause + AFTER;
      params := params + [Text(f.after.value)];
    }
    Appended(clause, params, clause0, params0, AfterSql(f), AfterParams(f));
    ghost var c4, p4 := clause, params;
    if f.before.Some? {
      clause := clause + BEFORE;
      params := params + [Text(f.before.value)];
    }
    Appended(clause, params, c4, p4, BeforeSql(f), BeforeParams(f));
    ghost var c5, p5 := clause, params;
    if f.isDir.Some? {
      clause := clause + DIR_EQ;
      params := params + [Integer(if f.isDir.value then 1 else 0)];
    }
    Appended(clause, params, c5, p5, DirSql(f), DirParams(f));
  }

  /** Appending one conjunct, or nothing when its filter is absent. */
  lemma Appended(clause: string, params: seq<Value>, c: string, p: seq<Value>, sql: string, values: seq<Value>)
    requires (clause == c && sql == "") || clause == c + sql
    requires
      || (params == p && values == []) || params == p + values
      || (|values| == 2 && params == p + values[..1] + values[1..])
    ensures clause == c + sql && params == p + values
  {
  }

  lemma Regroup<T>(a: seq<T>, b: seq<T>, c: seq<T>, d: seq<T>, e: seq<T>, f: seq<T>)
    ensures a + b + c + d + e + f == a + (b + (c + (d + (e + f))))
  {
  }

  lemma ClauseIsCorrect(f: Filter)
    ensures Marks(Clause(f)) == |Params(f)|
    ensures forall row :: Eval(Clause(f), Params(f), row).Some?
    ensures forall row :: Eval(Clause(f), Params(f), row) == Some(True) <==> Matches(f, row)
  {
    ClauseMarks(f);
    forall row
      ensures Eval(Clause(f), Params(f), row).Some?
      ensures Eval(Clause(f), Params(f), row) == Some(True) <==> Matches(f, row)
    {
      ClauseMeansFilter(f, row);
    }
  }

  // ---------------------------------------------------------------- what a filter means

  /** The filter read directly, with no SQL in between. */
  predicate Matches(f: Filter, row: Row)
  {
    && (f.eventTypes == [] || row.eventType in f.eventTypes)
    && (f.watchRoot.Some? ==> row.watchRoot == f.watchRoot.value)
    && (Searching(f) ==>
          var pattern := "%" + f.search.value + "%";
          LikeText(pattern, row.path) || (row.targetPath.Some? && LikeText(pattern, row.targetPath.value)))
    && (f.after.Some? ==> !TextLess(row.timestamp, f.after.value))
    && (f.before.Some? ==> !TextLess(f.before.value, row.timestamp))
    && (f.isDir.Some? ==> row.isDir == f.isDir)
  }

  // ---------------------------------------------------------------- the tokens of a clause

  function TypesTokens(f: Filter): seq<Token>
  {
    if f.eventTypes == [] then [] else [AndKey] + ([Name("event_type"), InKey, Open] + MarkList(|f.eventTypes|))
  }

  function ComparisonTokens(name: string, op: Operator): seq<Token>
  {
    [AndKey] + [Name(name), Op(op), Mark]
  }

  function RootTokens(f: Filter): seq<Token> { if f.watchRoot.Some? then ComparisonTokens("watch_root", Eq) else [] }
  function AfterTokens(f: Filter): seq<Token> { if f.after.Some? then ComparisonTokens("timestamp", Ge) else [] }
  function BeforeTokens(f: Filter): seq<Token> { if f.before.Some? then ComparisonTokens("timestamp", Le) else [] }
  function DirTokens(f: Filter): seq<Token> { if f.isDir.Some? then ComparisonTokens("is_dir", Eq) else [] }

  function SearchTokens(f: Filter): seq<Token>
  {
    if !Searching(f) then []
    else [AndKey, Open, Name("path"), LikeKey, Mark, OrKey, Name("target_path"), LikeKey, Mark, Close]
  }

  lemma ColumnsAreNames()
    ensures IsName("event_type") && IsName("watch_root") && IsName("path") && IsName("target_path")
    ensures IsName("timestamp") && IsName("is_dir")
  {
  }

  lemma LexMark(rest: string)
    ensures Lex(" " + ("?" + rest)) == [Mark] + Lex(rest)
  {
    hide Lex;
    LexSpace("?" + rest);
    LexSymbol('?', rest);
  }

  /** ` AND name`, before a space. */
  lemma LexAndName(name: string, rest: string)
    requires IsName(name)
    ensures Lex(" " + ("AND" + (" " + (name + (" " + rest))))) == [AndKey, Name(name)] + Lex(" " + rest)
  {
    hide Lex, IsName, Gap;
    SpaceIsGap(rest);
    LexName(name, " " + rest);
    LexSpace(name + (" " + rest));
    SpaceIsGap(name + (" " + rest));
    LexKeys(" " + (name + (" " + rest)));
  }

  lemma LexEquals(name: string, rest: string)
    requires IsName(name)
    ensures Lex(" " + ("AND" + (" " + (name + (" " + ("=" + (" " + ("?" + rest)))))))) ==
      ComparisonTokens(name, Eq) + Lex(rest)
  {
    hide Lex, IsName;
    var mark := " " + ("?" + rest);
    LexMark(rest);
    LexSymbol('=', mark);
    LexSpace("=" + mark);
    LexAndName(name, "=" + mark);
  }

  lemma LexOrder(name: string, c: char, rest: string)
    requires IsName(name) && c in ['<', '>']
    ensures Lex(" " + ("AND" + (" " + (name + (" " + ([c] + "=" + (" " + ("?" + rest)))))))) ==
      ComparisonTokens(name, if c == '>' then Ge else Le) + Lex(rest)
  {
    hide Lex, IsName;
    var mark := " " + ("?" + rest);
    LexMark(rest);
    LexPair(c, mark);
    LexSpace([c] + "=" + mark);
    LexAndName(name, [c] + "=" + mark);
  }

  lemma RegroupComparison(
    a: string, b: string, c: string, d: string, e: string, f: string, g: string, h: string, rest: string)
    ensures a + (b + (c + (d + (e + (f + (g + h)))))) + rest == a + (b + (c + (d + (e + (f + (g + (h + rest)))))))
  {
  }

  lemma ComparisonPieces()
    ensures ROOT_EQ == " " + ("AND" + (" " + ("watch_root" + (" " + ("=" + (" " + "?"))))))
    ensures DIR_EQ == " " + ("AND" + (" " + ("is_dir" + (" " + ("=" + (" " + "?"))))))
  {
  }

  lemma OrderPieces()
    ensures AFTER == " " + ("AND" + (" " + ("timestamp" + (" " + (['>'] + "=" + (" " + "?"))))))
    ensures BEFORE == " " + ("AND" + (" " + ("timestamp" + (" " + (['<'] + "=" + (" " + "?"))))))
  {
  }

  lemma LexRootSql(f: Filter, rest: string)
    ensures Lex(RootSql(f) + rest) == RootTokens(f) + Lex(rest)
  {
    hide Lex, IsName;
    if f.watchRoot.Some? {
      ColumnsAreNames();
      ComparisonPieces();
      RegroupComparison(" ", "AND", " ", "watch_root", " ", "=", " ", "?", rest);
      LexEquals("watch_root", rest);
    } else {
      assert RootSql(f) + rest == rest;
    }
  }

  lemma LexDirSql(f: Filter, rest: string)
    ensures Lex(DirSql(f) + rest) == DirTokens(f) + Lex(rest)
  {
    hide Lex, IsName;
    if f.isDir.Some? {
      ColumnsAreNames();
      ComparisonPieces();
      RegroupComparison(" ", "AND", " ", "is_dir", " ", "=", " ", "?", rest);
      LexEquals("is_dir", rest);
    } else {
      assert DirSql(f) + rest == rest;
    }
  }

  lemma LexAfterSql(f: Filter, rest: string)
    ensures Lex(AfterSql(f) + rest) == AfterTokens(f) + Lex(rest)
  {
    hide Lex, IsName;
    if f.after.Some? {
      ColumnsAreNames();
      OrderPieces();
      RegroupComparison(" ", "AND", " ", "timestamp", " ", ['>'] + "=", " ", "?", rest);
      LexOrder("timestamp", '>', rest);
    } else {
      assert AfterSql(f) + rest == rest;
    }
  }

  lemma LexBeforeSql(f: Filter, rest: string)
    ensures Lex(BeforeSql(f) + rest) == BeforeTokens(f) + Lex(rest)
  {
    hide Lex, IsName;
    if f.before.Some? {
      ColumnsAreNames();
      OrderPieces();
      RegroupComparison(" ", "AND", " ", "timestamp", " ", ['<'] + "=", " ", "?", rest);
      LexOrder("timestamp", '<', rest);
    } else {
      assert BeforeSql(f) + rest == rest;
    }
  }

  lemma LexLike(name: string, rest: string)
    requires IsName(name)
    ensures Lex(name + (" " + ("LIKE" + (" " + ("?" + rest))))) == [Name(name), LikeKey, Mark] + Lex(rest)
  {
    hide Lex, IsName, Gap;
    LexMark(rest);
    SpaceIsGap("?" + rest);
    LexKeys(" " + ("?" + rest));
    SpaceIsGap("LIKE" + (" " + ("?" + rest)));
    LexName(name, " " + ("LIKE" + (" " + ("?" + rest))));
  }

  /** The second half of the search conjunct. */
  lemma LexSearchEnd(name: string, rest: string)
    requires IsName(name)
    ensures Lex(" " + ("OR" + (" " + (name + (" " + ("LIKE" + (" " + ("?" + (")" + rest))))))))) ==
      [OrKey, Name(name), LikeKey, Mark, Close] + Lex(rest)
  {
    hide Lex, IsName, Gap;
    LexSymbol(')', rest);
    LexLike(name, ")" + rest);
    var like := name + (" " + ("LIKE" + (" " + ("?" + (")" + rest)))));
    LexSpace(like);
    SpaceIsGap(like);
    LexKeys(" " + like);
  }

  lemma LexSearchStart(name: string, rest: string)
    requires IsName(name)
    ensures Lex(" " + ("AND" + (" " + ("(" + (name + (" " + ("LIKE" + (" " + ("?" + rest))))))))) ==
      [AndKey, Open, Name(name), LikeKey, Mark] + Lex(rest)
  {
    hide Lex, IsName, Gap;
    LexLike(name, rest);
    var like := name + (" " + ("LIKE" + (" " + ("?" + rest))));
    LexSymbol('(', like);
    LexSpace("(" + like);
    SpaceIsGap("(" + like);
    LexKeys(" " + ("(" + like));
  }

  lemma LexSearchSql(f: Filter, rest: string)
    ensures Lex(SearchSql(f) + rest) == SearchTokens(f) + Lex(rest)
  {
    hide Lex, IsName;
    if Searching(f) {
      var end := " " + ("OR" + (" " + ("target_path" + (" " + ("LIKE" + (" " + ("?" + (")" + rest))))))));
      ColumnsAreNames();
      LexSearchEnd("target_path", rest);
      LexSearchStart("path", end);
      SearchPieces();
      RegroupSearch(" ", "AND", "(", "path", "LIKE", "?", "OR", "target_path", ")", rest);
    } else {
      assert SearchSql(f) + rest == rest;
    }
  }

  lemma SearchPieces()
    ensures " AND (path LIKE " + "?" ==
      " " + ("AND" + (" " + ("(" + ("path" + (" " + ("LIKE" + (" " + "?")))))))
    ensures " OR target_path LIKE " + "?" + ")" ==
      " " + ("OR" + (" " + ("target_path" + (" " + ("LIKE" + (" " + ("?" + ")")))))))
  {
  }

  lemma RegroupSearch(
    s: string, a: string, b: string, c: string, d: string, e: string, f: string, g: string, h: string, rest: string)
    ensures s + (a + (s + (b + (c + (s + (d + (s + e))))))) +
        (s + (f + (s + (g + (s + (d + (s + (e + h)))))))) + rest ==
      s + (a + (s + (b + (c + (s + (d + (s + (e +
        (s + (f + (s + (g + (s + (d + (s + (e + (h + rest)))))))))))))))))
  {
  }

  lemma {:induction false} LexPlaceholders(n: nat, rest: string)
    requires n > 0
    ensures Lex(Placeholders(n) + (")" + rest)) == MarkList(n) + Lex(rest)
  {
    hide Lex;
    if n == 1 {
      LexSymbol(')', rest);
      LexSymbol('?', ")" + rest);
    } else {
      var s := Placeholders(n - 1) + (")" + rest);
      LexPlaceholders(n - 1, rest);
      LexSymbol(',', s);
      LexSymbol('?', "," + s);
      assert Placeholders(n) + (")" + rest) == "?" + ("," + s) by { CommaPieces(Placeholders(n - 1), ")" + rest); }
    }
  }

  lemma CommaPieces(marks: string, rest: string)
    ensures "?," + marks + rest == "?" + ("," + (marks + rest))
  {
  }

  lemma LexInOpen(name: string, rest: string)
    requires IsName(name)
    ensures Lex(" " + ("AND" + (" " + (name + (" " + ("IN" + (" " + ("(" + rest)))))))) ==
      [AndKey, Name(name), InKey, Open] + Lex(rest)
  {
    hide Lex, IsName, Gap;
    LexSymbol('(', rest);
    LexSpace("(" + rest);
    SpaceIsGap("(" + rest);
    LexKeys(" " + ("(" + rest));
    LexAndName(name, "IN" + (" " + ("(" + rest)));
  }

  lemma LexTypesSql(f: Filter, rest: string)
    ensures Lex(TypesSql(f) + rest) == TypesTokens(f) + Lex(rest)
  {
    hide Lex, IsName, Placeholders, MarkList;
    if f.eventTypes == [] {
      assert TypesSql(f) + rest == rest;
    } else {
      var marks := Placeholders(|f.eventTypes|);
      var body := marks + (")" + rest);
      ColumnsAreNames();
      LexPlaceholders(|f.eventTypes|, rest);
      LexInOpen("event_type", body);
      InOpenPieces();
      RegroupComparison(" ", "AND", " ", "event_type", " ", "IN", " ", "(", body);
      AppendTwice(IN_OPEN, marks, ")", rest);
    }
  }

  lemma AppendTwice(a: string, b: string, c: string, d: string)
    ensures a + (b + c) + d == a + (b + (c + d))
  {
  }

  lemma InOpenPieces()
    ensures IN_OPEN == " " + ("AND" + (" " + ("event_type" + (" " + ("IN" + (" " + "("))))))
  {
  }

  function Tokens(f: Filter): seq<Token>
  {
    TypesTokens(f) + (RootTokens(f) + (SearchTokens(f) + (AfterTokens(f) + (BeforeTokens(f) + DirTokens(f)))))
  }

  lemma ClauseTokens(f: Filter)
    ensures Lex(Clause(f)) == Tokens(f)
    ensures Clause(f) == "" || Clause(f)[0] == ' '
  {
    hide Lex;
    LexTypesSql(f, RootSql(f) + (SearchSql(f) + (AfterSql(f) + (BeforeSql(f) + DirSql(f)))));
    LexRootSql(f, SearchSql(f) + (AfterSql(f) + (BeforeSql(f) + DirSql(f))));
    LexSearchSql(f, AfterSql(f) + (BeforeSql(f) + DirSql(f)));
    LexAfterSql(f, BeforeSql(f) + DirSql(f));
    LexBeforeSql(f, DirSql(f));
    LexDirSql(f, "");
    assert DirSql(f) + "" == DirSql(f);
    assert DirTokens(f) + Lex("") == DirTokens(f) by { LexNothing(); }
  }

  lemma LexNothing()
    ensures Lex("") == []
  {
  }

  lemma LexWhole(clause: string)
    requires clause == "" || clause[0] == ' '
    ensures Lex("1=1" + clause) == [Numeral(1), Op(Eq), Numeral(1)] + Lex(clause)
  {
    hide Lex;
    LexOne(clause);
    LexSymbol('=', "1" + clause);
    LexOne("=" + ("1" + clause));
    AlwaysPieces(clause);
  }

  lemma AlwaysPieces(clause: string)
    ensures "1=1" + clause == "1" + ("=" + ("1" + clause))
  {
  }

  lemma LexOne(rest: string)
    requires Gap(rest)
    ensures Lex("1" + rest) == [Numeral(1)] + Lex(rest)
  {
    hide Lex;
    LexWord("1", rest);
    assert WordToken("1") == Numeral(1) by { assert "1"[..0] == ""; }
  }

  // ---------------------------------------------------------------- what the tokens mean

  lemma {:induction false} TextsShape(ts: seq<string>)
    ensures |Texts(ts)| == |ts|
    ensures forall i :: 0 <= i < |ts| ==> Texts(ts)[i] == Text(ts[i])
  {
    if ts != [] { TextsShape(ts[..|ts| - 1]); }
  }

  lemma {:induction false} InMeansMember(t: string, vs: seq<Value>)
    requires forall i :: 0 <= i < |vs| ==> vs[i].Text?
    ensures In(Text(t), vs) == Known(Text(t) in vs)
  {
    if vs != [] {
      InMeansMember(t, vs[1..]);
      assert vs == [vs[0]] + vs[1..];
    }
  }

  lemma TypesMembership(f: Filter, row: Row)
    ensures In(Text(row.eventType), Texts(f.eventTypes)) == Known(row.eventType in f.eventTypes)
  {
    var vs := Texts(f.eventTypes);
    TextsShape(f.eventTypes);
    InMeansMember(row.eventType, vs);
    if row.eventType in f.eventTypes {
      var i :| 0 <= i < |f.eventTypes| && f.eventTypes[i] == row.eventType;
      assert vs[i] == Text(row.eventType);
    }
  }

  lemma TypesMean(f: Filter, ts: seq<Token>, ps: seq<Value>, row: Row)
    ensures ReadAnd(TypesTokens(f) + ts, Texts(f.eventTypes) + ps, row) ==
      if f.eventTypes == [] then ReadAnd(ts, ps, row)
      else AndThen(Known(row.eventType in f.eventTypes), ReadAnd(ts, ps, row))
  {
    TextsShape(f.eventTypes);
    var vs := Texts(f.eventTypes);
    hide ReadAnd, ReadPredicate, In, Texts, MarkList;
    if f.eventTypes == [] {
      assert TypesTokens(f) + ts == ts && vs + ps == ps;
    } else {
      var p := [Name("event_type"), InKey, Open] + MarkList(|vs|);
      ReadMembership("event_type", vs, ts, ps, row);
      TypesMembership(f, row);
      assert p + ts == [Name("event_type"), InKey, Open] + (MarkList(|vs|) + ts);
      ReadNext(p, ts, vs, ps, Known(row.eventType in f.eventTypes), row);
      assert TypesTokens(f) + ts == [AndKey] + (p + ts);
    }
  }

  lemma ComparisonMeans(name: string, op: Operator, v: Value, ts: seq<Token>, ps: seq<Value>, row: Row)
    requires Column(row, name).Some? && Comparable(Column(row, name).value, v)
    ensures ReadAnd(ComparisonTokens(name, op) + ts, [v] + ps, row) ==
      AndThen(Compare(op, Column(row, name).value, v), ReadAnd(ts, ps, row))
  {
    hide ReadAnd, ReadPredicate, Compare, Column;
    var p := [Name(name), Op(op), Mark];
    ReadComparison(name, op, v, ts, ps, row);
    ReadNext(p, ts, [v], ps, Compare(op, Column(row, name).value, v), row);
    assert ComparisonTokens(name, op) + ts == [AndKey] + (p + ts);
  }

  lemma RootMeans(f: Filter, ts: seq<Token>, ps: seq<Value>, row: Row)
    ensures ReadAnd(RootTokens(f) + ts, RootParams(f) + ps, row) ==
      if f.watchRoot.None? then ReadAnd(ts, ps, row)
      else AndThen(Known(row.watchRoot == f.watchRoot.value), ReadAnd(ts, ps, row))
  {
    hide ReadAnd;
    if f.watchRoot.None? {
      assert RootTokens(f) + ts == ts && RootParams(f) + ps == ps;
    } else {
      ComparisonMeans("watch_root", Eq, Text(f.watchRoot.value), ts, ps, row);
    }
  }

  lemma AfterMeans(f: Filter, ts: seq<Token>, ps: seq<Value>, row: Row)
    ensures ReadAnd(AfterTokens(f) + ts, AfterParams(f) + ps, row) ==
      if f.after.None? then ReadAnd(ts, ps, row)
      else AndThen(Known(!TextLess(row.timestamp, f.after.value)), ReadAnd(ts, ps, row))
  {
    hide ReadAnd, TextLess;
    if f.after.None? {
      assert AfterTokens(f) + ts == ts && AfterParams(f) + ps == ps;
    } else {
      ComparisonMeans("timestamp", Ge, Text(f.after.value), ts, ps, row);
    }
  }

  lemma BeforeMeans(f: Filter, ts: seq<Token>, ps: seq<Value>, row: Row)
    ensures ReadAnd(BeforeTokens(f) + ts, BeforeParams(f) + ps, row) ==
      if f.before.None? then ReadAnd(ts, ps, row)
      else AndThen(Known(!TextLess(f.before.value, row.timestamp)), ReadAnd(ts, ps, row))
  {
    hide ReadAnd, TextLess;
    if f.before.None? {
      assert BeforeTokens(f) + ts == ts && BeforeParams(f) + ps == ps;
    } else {
      ComparisonMeans("timestamp", Le, Text(f.before.value), ts, ps, row);
    }
  }

  lemma DirMeans(f: Filter, ts: seq<Token>, ps: seq<Value>, row: Row)
    ensures ReadAnd(DirTokens(f) + ts, DirParams(f) + ps, row) ==
      if f.isDir.None? then ReadAnd(ts, ps, row)
      else AndThen(Equal(OptBool(row.isDir), OptBool(f.isDir)), ReadAnd(ts, ps, row))
  {
    hide ReadAnd;
    if f.isDir.None? {
      assert DirTokens(f) + ts == ts && DirParams(f) + ps == ps;
    } else {
      ComparisonMeans("is_dir", Eq, OptBool(f.isDir), ts, ps, row);
    }
  }

  function Pattern(f: Filter): Value
    requires f.search.Some?
  {
    Text("%" + f.search.value + "%")
  }

  lemma SearchMeans(f: Filter, ts: seq<Token>, ps: seq<Value>, row: Row)
    ensures ReadAnd(SearchTokens(f) + ts, SearchParams(f) + ps, row) ==
      if !Searching(f) then ReadAnd(ts, ps, row)
      else AndThen(Or(Like(Text(row.path), Pattern(f)), Like(OptText(row.targetPath), Pattern(f))),
        ReadAnd(ts, ps, row))
  {
    hide ReadAnd, ReadPredicate, Like, LikeText;
    if !Searching(f) {
      assert SearchTokens(f) + ts == ts && SearchParams(f) + ps == ps;
    } else {
      var v := Pattern(f);
      var p, q := [Name("path"), LikeKey, Mark], [Name("target_path"), LikeKey, Mark];
      var t, u := Like(Text(row.path), v), Like(OptText(row.targetPath), v);
      ReadLike("target_path", v, [Close] + ts, ps, row);
      ReadLike("path", v, [OrKey] + (q + ([Close] + ts)), [v] + ps, row);
      ReadEither(p, q, v, v, t, u, ts, ps, row);
      var either := [Open] + (p + ([OrKey] + (q + [Close])));
      assert either + ts == [Open] + (p + ([OrKey] + (q + ([Close] + ts))));
      assert SearchParams(f) == [v, v] && [v, v] + ps == [v] + ([v] + ps);
      ReadNext(either, ts, [v, v], ps, Or(t, u), row);
      assert SearchTokens(f) == [AndKey] + either;
      assert SearchTokens(f) + ts == [AndKey] + (either + ts);
    }
  }

  /** The part of the condition before the clause holds of every row. */
  lemma AlwaysTrue(ts: seq<Token>, ps: seq<Value>, t: Truth, row: Row)
    requires ReadAnd(ts, ps, row) == Some(Read(t, [], []))
    ensures ReadDisjunction([Numeral(1), Op(Eq), Numeral(1)] + ts, ps, row) == Some(Read(t, [], []))
  {
    var s := [Numeral(1), Op(Eq), Numeral(1)] + ts;
    assert s[1..] == [Op(Eq), Numeral(1)] + ts && s[1..][1..] == [Numeral(1)] + ts && ([Numeral(1)] + ts)[1..] == ts;
    assert ReadPredicate(s, ps, row) == Some(Read(True, ts, ps));
  }

  lemma NothingMore(row: Row)
    ensures ReadAnd([], [], row) == Some(Read(True, [], []))
  {
  }

  /** The text, with its parameters bound in order, keeps a row iff the filter matches it. */
  lemma ClauseMeansFilter(f: Filter, row: Row)
    ensures Eval(Clause(f), Params(f), row).Some?
    ensures Eval(Clause(f), Params(f), row) == Some(True) <==> Matches(f, row)
  {
    ClauseTokens(f);
    LexWhole(Clause(f));
    var t := TokensMean(f, row);
    hide Lex, ReadDisjunction, ReadAnd, Clause, Params, Tokens, Matches;
    AlwaysTrue(Tokens(f), Params(f), t, row);
  }

  lemma TokensMean(f: Filter, row: Row) returns (t: Truth)
    ensures ReadAnd(Tokens(f), Params(f), row) == Some(Read(t, [], []))
    ensures t == True <==> Matches(f, row)
  {
    hide ReadAnd, LikeText, TextLess, TypesTokens, RootTokens, SearchTokens, AfterTokens, BeforeTokens, DirTokens;
    hide Texts, RootParams, SearchParams, AfterParams, BeforeParams, DirParams;
    var s5, p5 := BeforeTokens(f) + DirTokens(f), BeforeParams(f) + DirParams(f);
    var s4, p4 := AfterTokens(f) + s5, AfterParams(f) + p5;
    var s3, p3 := SearchTokens(f) + s4, SearchParams(f) + p4;
    var s2, p2 := RootTokens(f) + s3, RootParams(f) + p3;
    TypesMean(f, s2, p2, row);
    RootMeans(f, s3, p3, row);
    SearchMeans(f, s4, p4, row);
    AfterMeans(f, s5, p5, row);
    BeforeMeans(f, DirTokens(f), DirParams(f), row);
    DirMeans(f, [], [], row);
    assert DirTokens(f) + [] == DirTokens(f) && DirParams(f) + [] == DirParams(f);
    NothingMore(row);
    t := ReadAnd(Tokens(f), Params(f), row).value.value;
  }

  // ---------------------------------------------------------------- marks and parameters

  /** How many parameters a text asks for. */
  function Marks(sql: string): nat
  {
    if sql == "" then 0 else (if sql[0] == '?' then 1 else 0) + Marks(sql[1..])
  }

  lemma {:induction false} MarksConcat(a: string, b: string)
    ensures Marks(a + b) == Marks(a) + Marks(b)
  {
    if a == "" {
      assert a + b == b;
    } else {
      assert (a + b)[1..] == a[1..] + b;
      MarksConcat(a[1..], b);
    }
  }

  lemma {:induction false} MarksNone(s: string)
    requires '?' !in s
    ensures Marks(s) == 0
  {
    if s != "" { MarksNone(s[1..]); }
  }

  lemma MarksLast(s: string)
    requires '?' !in s
    ensures Marks(s + "?") == 1
  {
    MarksNone(s);
    MarksConcat(s, "?");
    assert Marks("?") == 1 by { assert "?"[1..] == ""; }
  }

  lemma {:induction false} PlaceholderMarks(n: nat)
    ensures Marks(Placeholders(n)) == n
  {
    if n == 1 {
      assert "?"[1..] == "";
    } else if n > 1 {
      PlaceholderMarks(n - 1);
      MarksConcat("?,", Placeholders(n - 1));
      assert Marks("?,") == 1 by { assert "?,"[1..] == "," && ","[1..] == ""; }
    }
  }

  lemma RootMarks(f: Filter)
    ensures Marks(RootSql(f)) == |RootParams(f)|
  {
    MarksLast(" AND watch_root = ");
  }

  lemma SearchMarks(f: Filter)
    ensures Marks(SearchSql(f)) == |SearchParams(f)|
  {
    MarksLast(" AND (path LIKE ");
    MarksLast(" OR target_path LIKE ");
    MarksNone(")");
    MarksConcat(" OR target_path LIKE " + "?", ")");
    MarksConcat(" AND (path LIKE " + "?", " OR target_path LIKE " + "?" + ")");
  }

  lemma TimeMarks(f: Filter)
    ensures Marks(AfterSql(f)) == |AfterParams(f)| && Marks(BeforeSql(f)) == |BeforeParams(f)|
  {
    MarksLast(" AND timestamp >= ");
    MarksLast(" AND timestamp <= ");
  }

  lemma DirMarks(f: Filter)
    ensures Marks(DirSql(f)) == |DirParams(f)|
  {
    MarksLast(" AND is_dir = ");
  }

  lemma MarksSix(a: string, b: string, c: string, d: string, e: string, f: string)
    ensures Marks(a + (b + (c + (d + (e + f))))) == Marks(a) + Marks(b) + Marks(c) + Marks(d) + Marks(e) + Marks(f)
  {
    MarksConcat(e, f);
    MarksConcat(d, e + f);
    MarksConcat(c, d + (e + f));
    MarksConcat(b, c + (d + (e + f)));
    MarksConcat(a, b + (c + (d + (e + f))));
  }

  /** One parameter per `?`. */
  lemma ClauseMarks(f: Filter)
    ensures Marks(Clause(f)) == |Params(f)|
  {
    TextsShape(f.eventTypes);
    TypesMarks(f);
    RootMarks(f);
    SearchMarks(f);
    TimeMarks(f);
    DirMarks(f);
    var a, b, c, d, e, g := TypesSql(f), RootSql(f), SearchSql(f), AfterSql(f), BeforeSql(f), DirSql(f);
    MarksSix(a, b, c, d, e, g);
  }

  lemma TypesMarks(f: Filter)
    ensures Marks(TypesSql(f)) == |f.eventTypes|
  {
    if f.eventTypes != [] {
      var p := Placeholders(|f.eventTypes|);
      PlaceholderMarks(|f.eventTypes|);
      MarksNone(")");
      MarksNone(IN_OPEN);
      MarksConcat(p, ")");
      MarksConcat(IN_OPEN, p + ")");
    }
  }

  const PAGING := " ORDER BY timestamp DESC LIMIT " + "?" + (" OFFSET " + "?")

  /** Whatever fixed column list precedes it, the query still has one parameter per `?` after paging is appended. */
  lemma QueryMarks(select: string, f: Filter, limit: Value, offset: Value)
    requires '?' !in select
    ensures Marks(select + Clause(f) + PAGING) == |Params(f) + [limit] + [offset]|
  {
    ClauseMarks(f);
    MarksNone(select);
    PagingMarks();
    MarksConcat(select, Clause(f));
    MarksConcat(select + Clause(f), PAGING);
  }

  lemma PagingMarks()
    ensures Marks(PAGING) == 2
  {
    MarksLast(" ORDER BY timestamp DESC LIMIT ");
    MarksLast(" OFFSET ");
    MarksConcat(" ORDER BY timestamp DESC LIMIT " + "?", " OFFSET " + "?");
  }

  // ---------------------------------------------------------------- searching

  predicate SameFolded(a: string, b: string)
  {
    |a| == |b| && forall i :: 0 <= i < |a| ==> Fold(a[i]) == Fold(b[i])
  }

  lemma {:induction false} LikeAnything(t: string)
    ensures LikeText("%", t)
  {
    assert "%"[1..] == "";
    if t != "" { LikeAnything(t[1..]); }
  }

  lemma {:induction false} LikePrefix(s: string, t: string)
    requires '%' !in s && '_' !in s
    ensures LikeText(s + "%", t) <==> |s| <= |t| && SameFolded(s, t[..|s|])
  {
    if s == "" {
      assert s + "%" == "%";
      LikeAnything(t);
    } else if t != "" {
      assert (s + "%")[1..] == s[1..] + "%";
      LikePrefix(s[1..], t[1..]);
      if |s| <= |t| {
        assert t[..|s|][1..] == t[1..][..|s| - 1];
        SameFoldedStep(s, t[..|s|]);
      }
    }
  }

  /** `s` stands at position `k` of `t`, up to ASCII case. */
  predicate FoundAt(s: string, t: string, k: int)
  {
    0 <= k && k + |s| <= |t| && SameFolded(s, t[k..k + |s|])
  }

  lemma SameFoldedStep(a: string, b: string)
    requires a != "" && b != ""
    ensures SameFolded(a, b) <==> Fold(a[0]) == Fold(b[0]) && SameFolded(a[1..], b[1..])
  {
    if Fold(a[0]) == Fold(b[0]) && SameFolded(a[1..], b[1..]) {
      forall i | 0 <= i < |a| ensures Fold(a[i]) == Fold(b[i]) {
        if i > 0 { assert a[i] == a[1..][i - 1] && b[i] == b[1..][i - 1]; }
      }
    }
  }

  lemma {:induction false} LikeSomewhere(p: string, t: string)
    ensures LikeText("%" + p, t) <==> exists k :: 0 <= k <= |t| && LikeText(p, t[k..])
  {
    assert ("%" + p)[1..] == p;
    assert t[0..] == t;
    if t != "" {
      LikeSomewhere(p, t[1..]);
      if k :| 0 <= k <= |t| && LikeText(p, t[k..]) {
        if k > 0 { assert t[1..][k - 1..] == t[k..]; }
      }
      if j :| 0 <= j <= |t[1..]| && LikeText(p, t[1..][j..]) {
        assert t[1..][j..] == t[j + 1..];
      }
    }
  }

  /** A search text without wildcards asks for a substring, up to ASCII case. */
  lemma SearchIsSubstring(s: string, t: string)
    requires '%' !in s && '_' !in s
    ensures LikeText("%" + s + "%", t)
            <==> exists k :: FoundAt(s, t, k)
  {
    assert "%" + s + "%" == "%" + (s + "%");
    LikeSomewhere(s + "%", t);
    forall k | 0 <= k <= |t| ensures LikeText(s + "%", t[k..]) <==> FoundAt(s, t, k) {
      LikeFrom(s, t, k);
    }
  }

  lemma LikeFrom(s: string, t: string, k: nat)
    requires '%' !in s && '_' !in s && k <= |t|
    ensures LikeText(s + "%", t[k..]) <==> FoundAt(s, t, k)
  {
    LikePrefix(s, t[k..]);
    if k + |s| <= |t| { assert t[k..][..|s|] == t[k..k + |s|]; }
  }
}
