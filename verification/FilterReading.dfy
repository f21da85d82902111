/** The filter language read off its documentation: characters, spellings, the kind x operator matrix, and the
    rows that a comparison selects, from text to query result. */
module FilterReading {
  import opened Wrappers
  import opened FilterSyntax
  import opened FilterParsing
  import opened FilterGrammar
  import opened FilterNumbers
  import opened FilterSql

  // ---- Characters ----

  // The code points with the Unicode property White_Space.
  const WHITE_SPACE: set<int> :=
    {9, 10, 11, 12, 13, 32, 0x85, 0xA0, 0x1680, 0x2000, 0x2001, 0x2002, 0x2003, 0x2004, 0x2005, 0x2006, 0x2007,
     0x2008, 0x2009, 0x200A, 0x2028, 0x2029, 0x202F, 0x205F, 0x3000}

  lemma BlanksExact(c: char)
    ensures IsWs(c) <==> c as int in WHITE_SPACE
  {
    var n := c as int;
    WideBlanks(n, 0);
    assert WIDE_SPACES[0..] == WIDE_SPACES;
  }

  // The ranges of the table from the k-th on.
  lemma WideBlanks(n: int, k: nat)
    requires k <= |WIDE_SPACES|
    ensures InRanges(n, WIDE_SPACES[k..]) <==>
      exists i :: k <= i < |WIDE_SPACES| && WIDE_SPACES[i].0 <= n <= WIDE_SPACES[i].1
    decreases |WIDE_SPACES| - k
  {
    if k < |WIDE_SPACES| {
      WideBlanks(n, k + 1);
      assert WIDE_SPACES[k..][1..] == WIDE_SPACES[k + 1..];
    }
  }

  // Names are made of ASCII letters, digits and underscores.
  lemma NameCharsExact(c: char)
    ensures IsIdentChar(c) <==> 48 <= c as int <= 57 || 65 <= c as int <= 90 || c as int == 95 || 97 <= c as int <= 122
  {
  }

  // An unquoted value ends at a comma, a semicolon, a parenthesis or a blank, and nowhere else.
  lemma BareValueEnds(v: string, c: char, rest: string)
    requires v != [] && v[0] != '\''
    requires forall i :: 0 <= i < |v| ==> v[i] !in {',', ';', '(', ')'} && v[i] as int !in WHITE_SPACE
    ensures c in {',', ';', '(', ')'} || c as int in WHITE_SPACE <==>
      ScanValue(v + ([c] + rest)) == Value(v, [c] + rest)
  {
    forall i | 0 <= i < |v| ensures !IsDelim(v[i]) { BlanksExact(v[i]); }
    BlanksExact(c);
    if IsDelim(c) {
      BareOver(v, [c] + rest);
    } else {
      BareLonger(v, c, rest);
    }
  }

  lemma {:induction false} BareLonger(v: string, c: char, rest: string)
    requires (forall i :: 0 <= i < |v| ==> !IsDelim(v[i])) && !IsDelim(c)
    ensures BareLen(v + ([c] + rest)) > |v|
    decreases |v|
  {
    if v == [] {
      assert v + ([c] + rest) == [c] + rest;
    } else {
      assert (v + ([c] + rest))[1..] == v[1..] + ([c] + rest);
      BareLonger(v[1..], c, rest);
    }
  }

  // The keywords in every letter case, and nothing else.
  lemma KeywordsExact(w: string)
    ensures EqIgnoreCase(w, "or") <==> w in {"or", "Or", "oR", "OR"}
    ensures EqIgnoreCase(w, "and") <==> w in {"and", "And", "aNd", "anD", "ANd", "AnD", "aND", "AND"}
  {
    if EqIgnoreCase(w, "or") { assert w == [w[0], w[1]] && Lower(w[0]) == 'o' && Lower(w[1]) == 'r'; }
    if EqIgnoreCase(w, "and") {
      assert w == [w[0], w[1], w[2]] && Lower(w[0]) == 'a' && Lower(w[1]) == 'n' && Lower(w[2]) == 'd';
    }
  }

  // Two characters match regardless of case exactly when they are equal or are one ASCII letter in both cases.
  lemma CaseExact(c: char, d: char)
    ensures Lower(c) == Lower(d) <==> || c == d
                                      || (65 <= c as int <= 90 && d as int == c as int + 32)
                                      || (65 <= d as int <= 90 && c as int == d as int + 32)
  {
  }

  // ---- Comparisons, as text ----

  function Typed(ws0: string, field: string, ws1: string, spelling: string, ws2: string, v: Literal,
                 ws3: string): string
  {
    ws0 + (field + (ws1 + (spelling + (ws2 + LiteralText(v, ws3)))))
  }

  // What the parser makes of a single comparison: the comparison, or the error of its check.
  function Judged(schema: Schema, c: Condition): Result<Node, FilterError> {
    match Validate(schema, c) case None => Success(Cmp(c)) case Some(e) => Failure(e)
  }

  lemma ComparisonJudged(schema: Schema, ws0: string, field: string, ws1: string, op: Op, ws2: string, v: Literal,
                         ws3: string)
    requires AllWs(ws0) && AllWs(ws1) && AllWs(ws2) && AllWs(ws3) && field != [] && AllIdent(field) && WfLiteral(v)
    ensures Parse(Typed(ws0, field, ws1, OpText(op), ws2, v, ws3), schema) ==
      Judged(schema, Condition(field, op, v.text))
  {
    var c := Condition(field, op, v.text);
    if Validate(schema, c) == None {
      SingleParsed(schema, Comparison(ws0, field, ws1, op, ws2, v), ws3);
    } else {
      ComparisonRefused(Checker(schema), ws0, field, ws1, op, ws2, v, ws3);
    }
  }

  lemma SingleParsed(schema: Schema, p: Primary, ws: string)
    requires p.Comparison? && WfBody(p, Checker(schema)) && AllWs(ws)
    ensures Parse(BodyText(p, ws), schema) == Success(PrimaryTree(p))
  {
    assert WfPrimary(p, Checker(schema)) && PrimaryText(p, ws) == BodyText(p, ws);
    assert WfAnd(AndOne(p), Checker(schema)) && AndText(AndOne(p), ws) == PrimaryText(p, ws);
    ParseComplete(OrOne(AndOne(p)), ws, schema);
  }

  lemma BlankStops(ws: string, bare: bool)
    requires AllWs(ws)
    ensures ValueStop(ws, bare)
  {
  }

  lemma OperandRefused(ws: string, v: Literal, next: string, field: string, op: Op, check: Check)
    requires AllWs(ws) && WfLiteral(v) && ValueStop(next, v.Bare?) && check(Condition(field, op, v.text)).Some?
    ensures ScanOperand(ws + LiteralText(v, next), field, op, check) == Err(check(Condition(field, op, v.text)).value)
  {
    SkipOver(ws, LiteralText(v, next));
    LiteralOver(v, next);
  }

  lemma ComparisonRefused(check: Check, ws0: string, field: string, ws1: string, op: Op, ws2: string, v: Literal,
                          ws3: string)
    requires AllWs(ws0) && AllWs(ws1) && AllWs(ws2) && AllWs(ws3) && field != [] && AllIdent(field) && WfLiteral(v)
    requires check(Condition(field, op, v.text)).Some?
    ensures ScanOr(Typed(ws0, field, ws1, OpText(op), ws2, v, ws3), check) ==
      Err(check(Condition(field, op, v.text)).value)
  {
    BlankStops(ws3, v.Bare?);
    var operand := ws2 + LiteralText(v, ws3);
    var tail := ws1 + (OpText(op) + operand);
    OpPartOver(ws1, op, operand);
    FieldOver(ws0, field, tail);
    OperandRefused(ws2, v, ws3, field, op, check);
    var text := ws0 + (field + tail);
    var s := SkipWs(text);
    assert s[0] == field[0];
    RefusedAbove(text, s, check);
  }

  // An error in the only comparison is the error of the whole.
  lemma RefusedAbove(text: string, s: string, check: Check)
    requires s == SkipWs(text) && s != [] && IsIdentChar(s[0]) && ScanComparison(s, check).Err?
    ensures ScanOr(text, check) == ScanComparison(s, check)
  {
    assert ScanPrimary(text, check) == ScanComparison(s, check);
  }

  const SPELLINGS: set<(string, Op)> :=
    {("==", Eq), ("!=", Neq), ("=gt=", Gt), ("=ge=", Gte), ("=lt=", Lt), ("=le=", Lte), ("=ilike=", Ilike)}

  // The seven operators by their spellings, with any blanks, quoted or not.
  lemma OperatorSpellings(schema: Schema, spelling: string, op: Op, ws0: string, f: string, ws1: string, ws2: string,
                          v: Literal, ws3: string)
    requires (spelling, op) in SPELLINGS
    requires AllWs(ws0) && AllWs(ws1) && AllWs(ws2) && AllWs(ws3) && f != [] && AllIdent(f) && WfLiteral(v)
    ensures Parse(Typed(ws0, f, ws1, spelling, ws2, v, ws3), schema) == Judged(schema, Condition(f, op, v.text))
  {
    assert OpText(op) == spelling;
    ComparisonJudged(schema, ws0, f, ws1, op, ws2, v, ws3);
  }

  // The kind x operator matrix: text columns take ==, != and =ilike=, date and integer columns everything else;
  // an integer column also wants a 64-bit number.  A name in several lists is a text column first, then a date.
  lemma MatrixExact(schema: Schema, c: Condition)
    ensures Validate(schema, c) == None <==>
      || (c.field in schema.textFields && c.op in {Eq, Neq, Ilike})
      || (c.field !in schema.textFields && c.field in schema.dateFields && c.op in {Eq, Neq, Gt, Gte, Lt, Lte})
      || (&& c.field !in schema.textFields && c.field !in schema.dateFields && c.field in schema.intFields
          && c.op in {Eq, Neq, Gt, Gte, Lt, Lte} && ParseI64(c.value).Some?)
    ensures Validate(schema, c) == Some(FieldNotAllowed) <==>
      c.field !in schema.textFields && c.field !in schema.dateFields && c.field !in schema.intFields
  {
  }

  // ---- Rows selected ----

  // A WHERE clause keeps a row when it evaluates to true.
  ghost predicate Selects(text: string, schema: Schema, row: Row, cast: Cast) {
    Parse(text, schema).Success? && EvalSql(ToSql(Parse(text, schema).value, schema), row, cast) == True
  }

  // An ordering comparison, by spelling.
  predicate Compares(spelling: string, a: int, b: int) {
    match spelling
    case "==" => a == b
    case "!=" => a != b
    case "=gt=" => a > b
    case "=ge=" => a >= b
    case "=lt=" => a < b
    case "=le=" => a <= b
    case _ => false
  }

  lemma SpellingCompares(spelling: string, op: Op, a: int, b: int)
    requires (spelling, op) in SPELLINGS
    ensures Holds(op, a, b) <==> Compares(spelling, a, b)
  {
  }

  lemma SelectsJudged(schema: Schema, f: string, spelling: string, op: Op, v: Literal, row: Row, cast: Cast)
    requires (spelling, op) in SPELLINGS && f != [] && AllIdent(f) && WfLiteral(v)
    requires Validate(schema, Condition(f, op, v.text)) == None
    ensures Selects(Typed("", f, "", spelling, "", v, ""), schema, row, cast) <==>
      EvalSql(ComparisonExpr(Condition(f, op, v.text), schema), row, cast) == True
  {
    OperatorSpellings(schema, spelling, op, "", f, "", "", v, "");
  }

  // On an integer column the filter selects the rows whose number compares so with the number written, and no
  // row without a number.
  lemma IntFilterSelects(schema: Schema, f: string, spelling: string, op: Op, v: Literal, n: int, row: Row, cast: Cast)
    requires (spelling, op) in SPELLINGS && op != Ilike && f != [] && AllIdent(f) && WfLiteral(v)
    requires schema.KindOf(f) == Some(Int) && ParseI64(v.text) == Some(n)
    requires f in row && (row[f].IntVal? || row[f].Null?)
    ensures Selects(Typed("", f, "", spelling, "", v, ""), schema, row, cast) <==>
      row[f].IntVal? && Compares(spelling, row[f].n, n)
  {
    MatrixExact(schema, Condition(f, op, v.text));
    SelectsJudged(schema, f, spelling, op, v, row, cast);
    if row[f].IntVal? { SpellingCompares(spelling, op, row[f].n, n); }
  }

  // On a date column likewise, by the moment the text is cast to.
  lemma DateFilterSelects(schema: Schema, f: string, spelling: string, op: Op, v: Literal, t: int, row: Row, cast: Cast)
    requires (spelling, op) in SPELLINGS && op != Ilike && f != [] && AllIdent(f) && WfLiteral(v)
    requires schema.KindOf(f) == Some(Date) && cast(v.text) == Some(t)
    requires f in row && (row[f].DateVal? || row[f].Null?)
    ensures Selects(Typed("", f, "", spelling, "", v, ""), schema, row, cast) <==>
      row[f].DateVal? && Compares(spelling, row[f].t, t)
  {
    MatrixExact(schema, Condition(f, op, v.text));
    SelectsJudged(schema, f, spelling, op, v, row, cast);
    if row[f].DateVal? { SpellingCompares(spelling, op, row[f].t, t); }
  }

  predicate TextMatches(spelling: string, s: string, value: string) {
    match spelling
    case "==" => s == value
    case "!=" => s != value
    case _ => Glob(value, s)
  }

  // On a text column: equal, different, or matching the wildcard pattern.
  lemma TextFilterSelects(schema: Schema, f: string, spelling: string, op: Op, v: Literal, row: Row, cast: Cast)
    requires (spelling, op) in SPELLINGS && op in {Eq, Neq, Ilike} && f != [] && AllIdent(f) && WfLiteral(v)
    requires schema.KindOf(f) == Some(Text) && (spelling == "=ilike=" ==> Plain(v.text))
    requires f in row && (row[f].TextVal? || row[f].Null?)
    ensures Selects(Typed("", f, "", spelling, "", v, ""), schema, row, cast) <==>
      row[f].TextVal? && TextMatches(spelling, row[f].s, v.text)
  {
    MatrixExact(schema, Condition(f, op, v.text));
    SelectsJudged(schema, f, spelling, op, v, row, cast);
    if op == Ilike && row[f].TextVal? { PlainAgrees(v.text, row[f].s); }
  }

  // ---- Combining ----

  // Rank of the truth values, errors aside.
  function Rank(t: Tri): int
    requires t != QueryError
  {
    if t == False then 0 else if t == Unknown then 1 else 2
  }

  function Least(a: int, b: int): int { if a < b then a else b }

  function Greatest(a: int, b: int): int { if a < b then b else a }

  // AND is the lesser and OR the greater of false, unknown and true; an error on either side is an error.
  lemma KleeneLogic(a: Tri, b: Tri)
    ensures AndTri(a, b) == QueryError <==> a == QueryError || b == QueryError
    ensures OrTri(a, b) == QueryError <==> a == QueryError || b == QueryError
    ensures a != QueryError && b != QueryError ==>
      Rank(AndTri(a, b)) == Least(Rank(a), Rank(b)) && Rank(OrTri(a, b)) == Greatest(Rank(a), Rank(b))
  {
  }

  // A row passes a conjunction when it passes both sides, and a disjunction that does not err when it passes one.
  lemma CombinedSelects(l: Node, r: Node, schema: Schema, row: Row, cast: Cast)
    ensures var x, y := EvalSql(ToSql(l, schema), row, cast), EvalSql(ToSql(r, schema), row, cast);
      && (EvalSql(ToSql(And(l, r), schema), row, cast) == True <==> x == True && y == True)
      && (x != QueryError && y != QueryError ==>
            (EvalSql(ToSql(Or(l, r), schema), row, cast) == True <==> x == True || y == True))
  {
  }
}
