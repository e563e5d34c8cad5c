/**
 The part of SQL that conditions on the `events` table are written in: a lexer, and a reader that computes
 the three-valued truth of a condition on a row, binding each `?` to the next parameter, left to right.
*/
module Sql {
  import opened Options
  import opened TimestampText
  import Numerals

  /** A row of the `events` table; the optional columns may be NULL. */
  datatype Row = Row(
    id: string, timestamp: string, eventType: string, path: string, targetPath: Option<string>,
    isDir: Option<bool>, user: Option<string>, process: Option<string>, watchRoot: string)

  // ---------------------------------------------------------------- values and three-valued logic

  datatype Value = Null | Text(text: string) | Integer(int)
  datatype Truth = True | False | Unknown

  function Known(b: bool): Truth { if b then True else False }

  function And(a: Truth, b: Truth): Truth
  {
    if a == False || b == False then False else if a == Unknown || b == Unknown then Unknown else True
  }

  function Or(a: Truth, b: Truth): Truth
  {
    if a == True || b == True then True else if a == Unknown || b == Unknown then Unknown else False
  }

  function Not(a: Truth): Truth { match a case True => False case False => True case Unknown => Unknown }

  function OptText(t: Option<string>): Value { if t.Some? then Text(t.value) else Null }

  function OptBool(b: Option<bool>): Value
  {
    if b.Some? then Integer(if b.value then 1 else 0) else Null
  }

  /** Values of one kind, or NULL; conversions between texts and integers are not read. */
  predicate Comparable(a: Value, b: Value)
  {
    a.Null? || b.Null? || (a.Text? <==> b.Text?)
  }

  function Equal(a: Value, b: Value): Truth
  {
    if a.Null? || b.Null? then Unknown else Known(a == b)
  }

  function Less(a: Value, b: Value): Truth
    requires Comparable(a, b)
  {
    match (a, b)
    case (Text(s), Text(t)) => Known(TextLess(s, t))
    case (Integer(m), Integer(n)) => Known(m < n)
    case _ => Unknown
  }

  datatype Operator = Eq | Ne | Lt | Le | Gt | Ge

  function Compare(op: Operator, a: Value, b: Value): Truth
    requires Comparable(a, b)
  {
    match op
    case Eq => Equal(a, b)
    case Ne => Not(Equal(a, b))
    case Lt => Less(a, b)
    case Le => Not(Less(b, a))
    case Gt => Less(b, a)
    case Ge => Not(Less(a, b))
  }

  function In(a: Value, candidates: seq<Value>): Truth
  {
    if candidates == [] then False else Or(Equal(a, candidates[0]), In(a, candidates[1..]))
  }

  /** ASCII case folding, as `LIKE` applies it. */
  function Fold(c: char): char
  {
    if 'A' <= c <= 'Z' then c - 'A' + 'a' else c
  }

  /** SQLite's `LIKE` on texts: `%` stands for any text, `_` for one character. */
  predicate LikeText(pattern: string, text: string)
    decreases |pattern| + |text|
  {
    if pattern == "" then text == ""
    else if pattern[0] == '%' then
      LikeText(pattern[1..], text) || (text != "" && LikeText(pattern, text[1..]))
    else text != "" && (pattern[0] == '_' || Fold(pattern[0]) == Fold(text[0])) && LikeText(pattern[1..], text[1..])
  }

  function Like(a: Value, pattern: Value): Truth
    requires !a.Integer? && !pattern.Integer?
  {
    if a.Text? && pattern.Text? then Known(LikeText(pattern.text, a.text)) else Unknown
  }

  /** The columns, by name. */
  function Column(row: Row, name: string): Option<Value>
  {
    if name == "id" then Some(Text(row.id))
    else if name == "timestamp" then Some(Text(row.timestamp))
    else if name == "event_type" then Some(Text(row.eventType))
    else if name == "path" then Some(Text(row.path))
    else if name == "target_path" then Some(OptText(row.targetPath))
    else if name == "is_dir" then Some(OptBool(row.isDir))
    else if name == "user_name" then Some(OptText(row.user))
    else if name == "process_name" then Some(OptText(row.process))
    else if name == "watch_root" then Some(Text(row.watchRoot))
    else None
  }

  // ---------------------------------------------------------------- tokens

  datatype Token =
    | Name(name: string) | Numeral(value: int) | Mark | Open | Close | Comma | Op(op: Operator)
    | AndKey | OrKey | LikeKey | InKey | Other(char)

  predicate WordChar(c: char)
  {
    'a' <= c <= 'z' || 'A' <= c <= 'Z' || '0' <= c <= '9' || c == '_'
  }

  function WordLength(s: string): (n: nat)
    ensures n <= |s| && (s != "" && WordChar(s[0]) ==> n > 0)
  {
    if s == "" || !WordChar(s[0]) then 0 else 1 + WordLength(s[1..])
  }

  function WordToken(w: string): Token
    requires w != ""
  {
    if w == "AND" then AndKey
    else if w == "OR" then OrKey
    else if w == "LIKE" then LikeKey
    else if w == "IN" then InKey
    else if '0' <= w[0] <= '9' then Numeral(Numerals.ValueOf(w))
    else Name(w)
  }

  /** `<=`, `>=` and `<>` are one token each. */
  function SymbolLength(s: string): nat
    requires s != ""
  {
    if |s| >= 2 && ((s[0] == '<' && s[1] in ['=', '>']) || (s[0] == '>' && s[1] == '=')) then 2 else 1
  }

  function SymbolToken(s: string): Token
    requires s != ""
  {
    if SymbolLength(s) == 2 then Op(if s[0] == '>' then Ge else if s[1] == '=' then Le else Ne)
    else
      match s[0]
      case '?' => Mark
      case '(' => Open
      case ')' => Close
      case ',' => Comma
      case '=' => Op(Eq)
      case '<' => Op(Lt)
      case '>' => Op(Gt)
      case c => Other(c)
  }

  function Lex(s: string): seq<Token>
    decreases |s|
  {
    if s == "" then []
    else if s[0] == ' ' then Lex(s[1..])
    else if WordChar(s[0]) then [WordToken(s[..WordLength(s)])] + Lex(s[WordLength(s)..])
    else [SymbolToken(s)] + Lex(s[SymbolLength(s)..])
  }

  // ---------------------------------------------------------------- reading

  /** Something read, with the tokens and the parameters that are left. */
  datatype Read<T> = Read(value: T, tokens: seq<Token>, params: seq<Value>)

  /** A column, a numeral or a parameter. */
  function ReadOperand(ts: seq<Token>, ps: seq<Value>, row: Row): (r: Option<Read<Value>>)
    ensures r.Some? ==> |r.value.tokens| < |ts|
  {
    if ts == [] then None
    else
      match ts[0]
      case Name(name) =>
        (match Column(row, name) case Some(v) => Some(Read(v, ts[1..], ps)) case None => None)
      case Numeral(n) => Some(Read(Integer(n), ts[1..], ps))
      case Mark => if ps == [] then None else Some(Read(ps[0], ts[1..], ps[1..]))
      case _ => None
  }

  /** Operands separated by commas, up to the closing bracket. */
  function ReadList(ts: seq<Token>, ps: seq<Value>, row: Row): (r: Option<Read<seq<Value>>>)
    ensures r.Some? ==> |r.value.tokens| < |ts|
    decreases |ts|
  {
    match ReadOperand(ts, ps, row)
    case None => None
    case Some(a) =>
      if a.tokens == [] then None
      else if a.tokens[0].Close? then Some(Read([a.value], a.tokens[1..], a.params))
      else if a.tokens[0].Comma? then
        match ReadList(a.tokens[1..], a.params, row)
        case None => None
        case Some(rest) => Some(rest.(value := [a.value] + rest.value))
      else None
  }

  /** A bracketed condition, a comparison, `LIKE` or `IN`. */
  function ReadPredicate(ts: seq<Token>, ps: seq<Value>, row: Row): (r: Option<Read<Truth>>)
    ensures r.Some? ==> |r.value.tokens| < |ts|
    decreases |ts|, 0
  {
    if ts != [] && ts[0].Open? then
      match ReadDisjunction(ts[1..], ps, row)
      case None => None
      case Some(r) => if r.tokens != [] && r.tokens[0].Close? then Some(r.(tokens := r.tokens[1..])) else None
    else
      match ReadOperand(ts, ps, row)
      case None => None
      case Some(a) => ReadRelation(a.value, a.tokens, a.params, row)
  }

  /** What follows the first operand. */
  function ReadRelation(a: Value, ts: seq<Token>, ps: seq<Value>, row: Row): (r: Option<Read<Truth>>)
    ensures r.Some? ==> |r.value.tokens| < |ts|
  {
    if ts == [] then None
    else if ts[0].InKey? then
      if |ts| < 2 || !ts[1].Open? then None
      else
        match ReadList(ts[2..], ps, row)
        case None => None
        case Some(list) => Some(Read(In(a, list.value), list.tokens, list.params))
    else
      match ReadOperand(ts[1..], ps, row)
      case None => None
      case Some(b) =>
        if ts[0].Op? && Comparable(a, b.value) then Some(Read(Compare(ts[0].op, a, b.value), b.tokens, b.params))
        else if ts[0].LikeKey? && !a.Integer? && !b.value.Integer? then
          Some(Read(Like(a, b.value), b.tokens, b.params))
        else None
  }

  function AndThen(t: Truth, rest: Option<Read<Truth>>): Option<Read<Truth>>
  {
    match rest case None => None case Some(r) => Some(r.(value := And(t, r.value)))
  }

  function OrElse(t: Truth, rest: Option<Read<Truth>>): Option<Read<Truth>>
  {
    match rest case None => None case Some(r) => Some(r.(value := Or(t, r.value)))
  }

  /** `AND` binds tighter than `OR`. */
  function ReadConjunction(ts: seq<Token>, ps: seq<Value>, row: Row): (r: Option<Read<Truth>>)
    ensures r.Some? ==> |r.value.tokens| < |ts|
    decreases |ts|, 1
  {
    match ReadPredicate(ts, ps, row)
    case None => None
    case Some(p) => AndThen(p.value, ReadAnd(p.tokens, p.params, row))
  }

  function ReadAnd(ts: seq<Token>, ps: seq<Value>, row: Row): (r: Option<Read<Truth>>)
    ensures r.Some? ==> |r.value.tokens| <= |ts|
    decreases |ts|, 0
  {
    if ts != [] && ts[0].AndKey? then ReadConjunction(ts[1..], ps, row) else Some(Read(True, ts, ps))
  }

  function ReadDisjunction(ts: seq<Token>, ps: seq<Value>, row: Row): (r: Option<Read<Truth>>)
    ensures r.Some? ==> |r.value.tokens| < |ts|
    decreases |ts|, 2
  {
    match ReadConjunction(ts, ps, row)
    case None => None
    case Some(c) => OrElse(c.value, ReadOr(c.tokens, c.params, row))
  }

  function ReadOr(ts: seq<Token>, ps: seq<Value>, row: Row): (r: Option<Read<Truth>>)
    ensures r.Some? ==> |r.value.tokens| <= |ts|
    decreases |ts|, 0
  {
    if ts != [] && ts[0].OrKey? then ReadDisjunction(ts[1..], ps, row) else Some(Read(False, ts, ps))
  }

  /**
   The truth of a condition on a row. None: it is not a condition of this grammar, names no column, or has
   another number of parameters.
  */
  function Condition(sql: string, params: seq<Value>, row: Row): Option<Truth>
  {
    match ReadDisjunction(Lex(sql), params, row)
    case None => None
    case Some(r) => if r.tokens == [] && r.params == [] then Some(r.value) else None
  }

  // ---------------------------------------------------------------- lexing texts built of pieces

  lemma {:induction false} WordLengthOf(w: string, rest: string)
    requires forall c :: c in w ==> WordChar(c)
    requires rest == "" || !WordChar(rest[0])
    ensures WordLength(w + rest) == |w|
  {
    if w == "" {
      assert w + rest == rest;
    } else {
      assert w[0] in w;
      assert (w + rest)[1..] == w[1..] + rest;
      assert forall c :: c in w[1..] ==> c in w;
      WordLengthOf(w[1..], rest);
    }
  }

  lemma LexSpace(rest: string)
    ensures Lex(" " + rest) == Lex(rest)
  {
    assert (" " + rest)[1..] == rest;
  }

  lemma LexWord(w: string, rest: string)
    requires w != "" && forall c :: c in w ==> WordChar(c)
    requires rest == "" || !WordChar(rest[0])
    ensures Lex(w + rest) == [WordToken(w)] + Lex(rest)
  {
    var s := w + rest;
    WordLengthOf(w, rest);
    assert w[0] in w && s[0] == w[0];
    assert s[..|w|] == w && s[|w|..] == rest;
  }

  /** A word that is neither a keyword nor a numeral. */
  predicate IsName(w: string)
  {
    && w != "" && (forall c :: c in w ==> WordChar(c)) && !('0' <= w[0] <= '9')
    && w != "AND" && w != "OR" && w != "LIKE" && w != "IN"
  }

  /** The next word starts later. */
  predicate Gap(rest: string)
  {
    rest == "" || !WordChar(rest[0])
  }

  lemma LexName(w: string, rest: string)
    requires IsName(w) && Gap(rest)
    ensures Lex(w + rest) == [Name(w)] + Lex(rest)
  {
    LexWord(w, rest);
  }

  lemma LexKeys(rest: string)
    requires Gap(rest)
    ensures Lex(" " + ("AND" + rest)) == [AndKey] + Lex(rest)
    ensures Lex(" " + ("OR" + rest)) == [OrKey] + Lex(rest)
    ensures Lex(" " + ("LIKE" + rest)) == [LikeKey] + Lex(rest)
    ensures Lex(" " + ("IN" + rest)) == [InKey] + Lex(rest)
  {
    hide Lex;
    LexWord("AND", rest);
    LexSpace("AND" + rest);
    LexWord("OR", rest);
    LexSpace("OR" + rest);
    LexWord("LIKE", rest);
    LexSpace("LIKE" + rest);
    LexWord("IN", rest);
    LexSpace("IN" + rest);
  }

  lemma SpaceIsGap(rest: string)
    ensures Gap(" " + rest) && Gap("") && Gap("=" + rest)
  {
  }

  lemma LexSymbol(c: char, rest: string)
    requires c in ['?', '(', ')', ',', '=']
    ensures Lex([c] + rest) == [SymbolToken([c])] + Lex(rest)
    ensures SymbolToken([c]) ==
      if c == '?' then Mark else if c == '(' then Open else if c == ')' then Close
      else if c == ',' then Comma else Op(Eq)
  {
    var s := [c] + rest;
    assert s[0] == c && SymbolLength(s) == 1 && s[1..] == rest;
  }

  lemma LexPair(c: char, rest: string)
    requires c in ['<', '>']
    ensures Lex([c] + "=" + rest) == [Op(if c == '>' then Ge else Le)] + Lex(rest)
  {
    var s := [c] + "=" + rest;
    assert s[0] == c && s[1] == '=' && SymbolLength(s) == 2 && s[2..] == rest;
  }

  // ---------------------------------------------------------------- reading the forms of conditions

  lemma ReadComparison(name: string, op: Operator, v: Value, ts: seq<Token>, ps: seq<Value>, row: Row)
    requires Column(row, name).Some? && Comparable(Column(row, name).value, v)
    ensures ReadPredicate([Name(name), Op(op), Mark] + ts, [v] + ps, row) ==
      Some(Read(Compare(op, Column(row, name).value, v), ts, ps))
  {
    hide Column, Compare;
    var s := [Name(name), Op(op), Mark] + ts;
    var a := Column(row, name).value;
    assert s[1..] == [Op(op), Mark] + ts && s[1..][1..] == [Mark] + ts;
    assert ([Mark] + ts)[1..] == ts && ([v] + ps)[1..] == ps;
    assert ReadOperand(s, [v] + ps, row) == Some(Read(a, s[1..], [v] + ps));
  }

  lemma ReadLike(name: string, v: Value, ts: seq<Token>, ps: seq<Value>, row: Row)
    requires Column(row, name).Some? && !Column(row, name).value.Integer? && !v.Integer?
    ensures ReadPredicate([Name(name), LikeKey, Mark] + ts, [v] + ps, row) ==
      Some(Read(Like(Column(row, name).value, v), ts, ps))
  {
    hide Column, Like;
    var s := [Name(name), LikeKey, Mark] + ts;
    var a := Column(row, name).value;
    assert s[1..] == [LikeKey, Mark] + ts && s[1..][1..] == [Mark] + ts;
    assert ([Mark] + ts)[1..] == ts && ([v] + ps)[1..] == ps;
    assert ReadOperand(s, [v] + ps, row) == Some(Read(a, s[1..], [v] + ps));
  }

  /** `?,?,…,?)`. */
  function MarkList(n: nat): seq<Token>
    requires n > 0
  {
    if n == 1 then [Mark, Close] else [Mark, Comma] + MarkList(n - 1)
  }

  lemma ReadLastMark(v: Value, ts: seq<Token>, ps: seq<Value>, row: Row)
    ensures ReadList([Mark, Close] + ts, [v] + ps, row) == Some(Read([v], ts, ps))
  {
    hide Column;
    var s := [Mark, Close] + ts;
    assert s[1..] == [Close] + ts && s[1..][1..] == ts && ([v] + ps)[1..] == ps;
  }

  lemma ReadOneMark(v: Value, ts: seq<Token>, ps: seq<Value>, row: Row, rest: Read<seq<Value>>)
    requires ReadList(ts, ps, row) == Some(rest)
    ensures ReadList([Mark, Comma] + ts, [v] + ps, row) == Some(rest.(value := [v] + rest.value))
  {
    hide Column;
    var s := [Mark, Comma] + ts;
    assert s[1..] == [Comma] + ts && s[1..][1..] == ts && ([v] + ps)[1..] == ps;
  }

  lemma {:induction false} ReadMarkList(vs: seq<Value>, ts: seq<Token>, ps: seq<Value>, row: Row)
    requires vs != []
    ensures ReadList(MarkList(|vs|) + ts, vs + ps, row) == Some(Read(vs, ts, ps))
  {
    hide ReadList;
    var v, rest := vs[0], vs[1..];
    assert vs + ps == [v] + (rest + ps) && vs == [v] + rest;
    if rest == [] {
      assert rest + ps == ps && vs == [v] && MarkList(1) == [Mark, Close];
      ReadLastMark(v, ts, ps, row);
    } else {
      var marks := MarkList(|rest|);
      assert MarkList(|vs|) + ts == [Mark, Comma] + (marks + ts);
      ReadMarkList(rest, ts, ps, row);
      ReadOneMark(v, marks + ts, rest + ps, row, Read(rest, ts, ps));
    }
  }

  lemma ReadMembership(name: string, vs: seq<Value>, ts: seq<Token>, ps: seq<Value>, row: Row)
    requires vs != [] && Column(row, name).Some?
    ensures ReadPredicate([Name(name), InKey, Open] + (MarkList(|vs|) + ts), vs + ps, row) ==
      Some(Read(In(Column(row, name).value, vs), ts, ps))
  {
    hide Column, In;
    var rest := MarkList(|vs|) + ts;
    var s := [Name(name), InKey, Open] + rest;
    assert s[1..] == [InKey, Open] + rest && s[1..][2..] == rest;
    ReadMarkList(vs, ts, ps, row);
  }

  /** Two predicates joined by `OR` in brackets. */
  lemma ReadEither(
    p: seq<Token>, q: seq<Token>, v: Value, w: Value, t: Truth, u: Truth, ts: seq<Token>, ps: seq<Value>, row: Row)
    requires ReadPredicate(p + ([OrKey] + (q + ([Close] + ts))), [v] + ([w] + ps), row) ==
      Some(Read(t, [OrKey] + (q + ([Close] + ts)), [w] + ps))
    requires ReadPredicate(q + ([Close] + ts), [w] + ps, row) == Some(Read(u, [Close] + ts, ps))
    ensures ReadPredicate([Open] + (p + ([OrKey] + (q + ([Close] + ts)))), [v] + ([w] + ps), row) ==
      Some(Read(Or(t, u), ts, ps))
  {
    var closing := [Close] + ts;
    var second := q + closing;
    var middle := [OrKey] + second;
    var first := p + middle;
    var whole := [Open] + first;
    assert closing[1..] == ts && middle[1..] == second && whole[1..] == first;
    assert ReadConjunction(second, [w] + ps, row) == Some(Read(And(u, True), closing, ps));
    assert ReadDisjunction(second, [w] + ps, row) == Some(Read(Or(And(u, True), False), closing, ps));
    assert ReadConjunction(first, [v] + ([w] + ps), row) == Some(Read(And(t, True), middle, [w] + ps));
    assert ReadOr(middle, [w] + ps, row) == ReadDisjunction(second, [w] + ps, row);
  }

  /** One more conjunct. */
  lemma ReadNext(p: seq<Token>, ts: seq<Token>, qs: seq<Value>, ps: seq<Value>, t: Truth, row: Row)
    requires ReadPredicate(p + ts, qs + ps, row) == Some(Read(t, ts, ps))
    ensures ReadAnd([AndKey] + (p + ts), qs + ps, row) == AndThen(t, ReadAnd(ts, ps, row))
  {
    assert ([AndKey] + (p + ts))[1..] == p + ts;
  }
}
