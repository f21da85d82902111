/** Compilation of the boolean tree to a SQL expression tree, with a three-valued semantics for
    the expression and an independent meaning for the filter. */
module FilterSql {
  import opened Wrappers
  import opened FilterSyntax
  import opened FilterParsing
  import opened FilterGrammar

  // ---- SQL expressions ----

  datatype Operand = TextParam(s: string) | TimestampCast(s: string) | IntParam(n: int)

  datatype Sql =
    | Compare(col: string, op: Op, operand: Operand)
    | Like(col: string, pattern: string)
    | SqlAnd(l: Sql, r: Sql)
    | SqlOr(l: Sql, r: Sql)

  function Subst(v: string): string {
    if v == [] then [] else [if v[0] == '*' then '%' else v[0]] + Subst(v[1..])
  }

  // The defensive fallbacks of the source are kept: an unexpected operator compares with `=`,
  // an unreadable number is 0, an unknown field is compared as text.
  function OrEq(op: Op): Op { if op == Ilike then Eq else op }

  function ComparisonExpr(c: Condition, schema: Schema): Sql {
    match schema.KindOf(c.field)
    case Some(Text) =>
      if c.op == Ilike then Like(c.field, Subst(c.value))
      else if c.op == Neq then Compare(c.field, Neq, TextParam(c.value))
      else Compare(c.field, Eq, TextParam(c.value))
    case Some(Date) => Compare(c.field, OrEq(c.op), TimestampCast(c.value))
    case Some(Int) =>
      var n := match ParseI64(c.value) case Some(v) => v case None => 0;
      Compare(c.field, OrEq(c.op), IntParam(n))
    case None => Compare(c.field, Eq, TextParam(c.value))
  }

  function ToSql(n: Node, schema: Schema): Sql {
    match n
    case Cmp(c) => ComparisonExpr(c, schema)
    case And(l, r) => SqlAnd(ToSql(l, schema), ToSql(r, schema))
    case Or(l, r) => SqlOr(ToSql(l, schema), ToSql(r, schema))
  }

  // The comparison would take one of those fallbacks.
  predicate FallsBack(c: Condition, schema: Schema) {
    match schema.KindOf(c.field)
    case Some(Text) => c.op !in {Eq, Neq, Ilike}
    case Some(Date) => c.op == Ilike
    case Some(Int) => c.op == Ilike || ParseI64(c.value) == None
    case None => true
  }

  predicate NoFallback(n: Node, schema: Schema) {
    match n
    case Cmp(c) => !FallsBack(c, schema)
    case And(l, r) => NoFallback(l, schema) && NoFallback(r, schema)
    case Or(l, r) => NoFallback(l, schema) && NoFallback(r, schema)
  }

  lemma CheckedNoFallback(c: Condition, schema: Schema)
    requires Validate(schema, c) == None
    ensures !FallsBack(c, schema)
  {
  }

  lemma {:induction false} AcceptedNoFallback(n: Node, schema: Schema)
    requires AcceptsAll(Checker(schema), n)
    ensures NoFallback(n, schema)
  {
    match n
    case Cmp(c) => CheckedNoFallback(c, schema);
    case And(l, r) =>
      AcceptedNoFallback(l, schema);
      AcceptedNoFallback(r, schema);
    case Or(l, r) =>
      AcceptedNoFallback(l, schema);
      AcceptedNoFallback(r, schema);
  }

  // No accepted input ever reaches a defensive fallback of the compiler.
  lemma FallbacksUnreachable(s: string, schema: Schema)
    requires Parse(s, schema).Success?
    ensures NoFallback(Parse(s, schema).value, schema)
  {
    ParsedIsAccepted(s, schema);
    AcceptedNoFallback(Parse(s, schema).value, schema);
  }

  // ---- Three-valued evaluation; an ill-typed comparison or a failing cast is a query error ----

  datatype SqlValue = Null | TextVal(s: string) | DateVal(t: int) | IntVal(n: int)

  datatype Tri = True | False | Unknown | QueryError

  type Row = map<string, SqlValue>
  type Cast = string -> Option<int>

  function Truth(b: bool): Tri { if b then True else False }

  function AndTri(a: Tri, b: Tri): Tri {
    if a == QueryError || b == QueryError then QueryError
    else if a == False || b == False then False
    else if a == Unknown || b == Unknown then Unknown
    else True
  }

  function OrTri(a: Tri, b: Tri): Tri {
    if a == QueryError || b == QueryError then QueryError
    else if a == True || b == True then True
    else if a == Unknown || b == Unknown then Unknown
    else False
  }

  predicate Holds(op: Op, a: int, b: int) {
    match op
    case Eq => a == b
    case Neq => a != b
    case Gt => a > b
    case Gte => a >= b
    case Lt => a < b
    case Lte => a <= b
    case Ilike => false
  }

  // Case-insensitive LIKE: `%` any text, `_` one character, `\` the next character itself.
  predicate LikeMatch(p: string, t: string)
    decreases |p| + |t|
  {
    if p == [] then t == []
    else if p[0] == '%' then LikeMatch(p[1..], t) || (t != [] && LikeMatch(p, t[1..]))
    else if p[0] == '_' then t != [] && LikeMatch(p[1..], t[1..])
    else if p[0] == '\\' then |p| > 1 && t != [] && Lower(p[1]) == Lower(t[0]) && LikeMatch(p[2..], t[1..])
    else t != [] && Lower(p[0]) == Lower(t[0]) && LikeMatch(p[1..], t[1..])
  }

  function EvalCompare(v: SqlValue, op: Op, operand: Operand, cast: Cast): Tri {
    match operand
    case TextParam(s) =>
      if v.Null? then Unknown
      else if v.TextVal? && (op == Eq || op == Neq) then Truth((v.s == s) == (op == Eq))
      else QueryError
    case TimestampCast(s) =>
      if cast(s) == None then QueryError
      else if v.Null? then Unknown
      else if v.DateVal? then Truth(Holds(op, v.t, cast(s).value))
      else QueryError
    case IntParam(n) =>
      if v.Null? then Unknown else if v.IntVal? then Truth(Holds(op, v.n, n)) else QueryError
  }

  function EvalSql(e: Sql, row: Row, cast: Cast): Tri {
    match e
    case Compare(col, op, operand) =>
      if col in row then EvalCompare(row[col], op, operand, cast) else QueryError
    case Like(col, p) =>
      if col !in row then QueryError
      else if row[col].Null? then Unknown
      else if row[col].TextVal? then Truth(LikeMatch(p, row[col].s))
      else QueryError
    case SqlAnd(l, r) => AndTri(EvalSql(l, row, cast), EvalSql(r, row, cast))
    case SqlOr(l, r) => OrTri(EvalSql(l, row, cast), EvalSql(r, row, cast))
  }

  // ---- The filter's own meaning, by column kind ----

  // `*` stands for any text; every other character stands for itself, whatever its case.
  predicate Glob(v: string, t: string)
    decreases |v| + |t|
  {
    if v == [] then t == []
    else if v[0] == '*' then Glob(v[1..], t) || (t != [] && Glob(v, t[1..]))
    else t != [] && Lower(v[0]) == Lower(t[0]) && Glob(v[1..], t[1..])
  }

  // The rows of a table whose columns have the declared kinds.
  ghost predicate RowOk(schema: Schema, row: Row) {
    forall f: string :: schema.KindOf(f).Some? ==>
      && f in row
      && (row[f].Null? || match schema.KindOf(f).value
                          case Text => row[f].TextVal?
                          case Date => row[f].DateVal?
                          case Int => row[f].IntVal?)
  }

  // `matches` is the reading of a wildcard pattern.
  function MeaningOf(c: Condition, kind: ColKind, v: SqlValue, cast: Cast, matches: (string, string) -> bool): Tri {
    match kind
    case Text =>
      if v.Null? then Unknown
      else if !v.TextVal? then QueryError
      else if c.op == Ilike then Truth(matches(c.value, v.s))
      else Truth(if c.op == Eq then v.s == c.value else v.s != c.value)
    case Date =>
      if cast(c.value) == None then QueryError
      else if v.Null? then Unknown
      else if v.DateVal? then Truth(Holds(c.op, v.t, cast(c.value).value))
      else QueryError
    case Int =>
      if v.Null? then Unknown
      else if v.IntVal? && ParseI64(c.value).Some? then Truth(Holds(c.op, v.n, ParseI64(c.value).value))
      else QueryError
  }

  function Meaning(n: Node, schema: Schema, row: Row, cast: Cast, matches: (string, string) -> bool): Tri {
    match n
    case Cmp(c) =>
      (match schema.KindOf(c.field)
       case None => QueryError
       case Some(kind) =>
         if c.field in row then MeaningOf(c, kind, row[c.field], cast, matches) else QueryError)
    case And(l, r) => AndTri(Meaning(l, schema, row, cast, matches), Meaning(r, schema, row, cast, matches))
    case Or(l, r) => OrTri(Meaning(l, schema, row, cast, matches), Meaning(r, schema, row, cast, matches))
  }

  const CompiledMatch: (string, string) -> bool := (v, t) => LikeMatch(Subst(v), t)
  const GlobMatch: (string, string) -> bool := (v, t) => Glob(v, t)

  // A checked comparison compiles to a comparison with its own operator and value: no fallback is taken.
  lemma ComparisonMeaning(c: Condition, schema: Schema, row: Row, cast: Cast)
    requires Validate(schema, c) == None && RowOk(schema, row)
    ensures EvalSql(ComparisonExpr(c, schema), row, cast) == Meaning(Cmp(c), schema, row, cast, CompiledMatch)
  {
    var kind := schema.KindOf(c.field).value;
    assert c.field in row;
    assert kind != Text ==> c.op != Ilike && OrEq(c.op) == c.op;
    assert kind == Text ==> c.op == Eq || c.op == Neq || c.op == Ilike;
  }

  lemma {:induction false} TreeMeaning(n: Node, schema: Schema, row: Row, cast: Cast)
    requires AcceptsAll(Checker(schema), n) && RowOk(schema, row)
    ensures EvalSql(ToSql(n, schema), row, cast) == Meaning(n, schema, row, cast, CompiledMatch)
  {
    match n
    case Cmp(c) => ComparisonMeaning(c, schema, row, cast);
    case And(l, r) =>
      TreeMeaning(l, schema, row, cast);
      TreeMeaning(r, schema, row, cast);
    case Or(l, r) =>
      TreeMeaning(l, schema, row, cast);
      TreeMeaning(r, schema, row, cast);
  }

  // For every accepted text and every row, nulls included, the compiled query decides as the filter does;
  // on well-typed rows it can only fail on a date that is no timestamp.
  lemma CompilationPreservesMeaning(s: string, schema: Schema, row: Row, cast: Cast)
    requires Parse(s, schema).Success? && RowOk(schema, row)
    ensures var n := Parse(s, schema).value;
      EvalSql(ToSql(n, schema), row, cast) == Meaning(n, schema, row, cast, CompiledMatch)
  {
    ParsedIsAccepted(s, schema);
    TreeMeaning(Parse(s, schema).value, schema, row, cast);
  }

  // ---- When the wildcard means what the documentation says ----

  predicate IsSpecial(c: char) { c == '%' || c == '_' || c == '\\' }

  predicate Plain(v: string) { forall i :: 0 <= i < |v| ==> !IsSpecial(v[i]) }

  lemma {:induction false} PlainAgrees(v: string, t: string)
    requires Plain(v)
    ensures LikeMatch(Subst(v), t) == Glob(v, t)
    decreases |v| + |t|
  {
    if v != [] {
      assert Subst(v)[1..] == Subst(v[1..]);
      if v[0] == '*' {
        PlainAgrees(v[1..], t);
        if t != [] { PlainAgrees(v, t[1..]); }
      } else if t != [] {
        PlainAgrees(v[1..], t[1..]);
      }
    }
  }

  function Count(k: char, s: string): nat {
    if s == [] then 0 else (if s[0] == k then 1 else 0) + Count(k, s[1..])
  }

  // A literal character of the pattern has to occur in the text.
  lemma {:induction false} GlobCounts(k: char, v: string, t: string)
    requires IsSpecial(k) && Glob(v, t)
    ensures Count(k, t) >= Count(k, v)
    decreases |v| + |t|
  {
    if v != [] {
      if v[0] == '*' {
        if Glob(v[1..], t) { GlobCounts(k, v[1..], t); } else { GlobCounts(k, v, t[1..]); }
      } else {
        GlobCounts(k, v[1..], t[1..]);
      }
    }
  }

  // The pattern ends in an escape that escapes nothing.
  predicate Dangling(p: string) {
    if p == [] then false
    else if p[0] == '\\' then |p| == 1 || Dangling(p[2..])
    else Dangling(p[1..])
  }

  lemma {:induction false} DanglingNeverMatches(p: string, t: string)
    requires Dangling(p)
    ensures !LikeMatch(p, t)
    decreases |p| + |t|
  {
    if p[0] == '%' {
      DanglingNeverMatches(p[1..], t);
      if t != [] { DanglingNeverMatches(p, t[1..]); }
    } else if t != [] {
      if p[0] != '\\' {
        DanglingNeverMatches(p[1..], t[1..]);
      } else if |p| > 1 {
        DanglingNeverMatches(p[2..], t[1..]);
      }
    }
  }

  lemma {:induction false} GlobSelf(v: string)
    ensures Glob(v, v)
  {
    if v != [] {
      GlobSelf(v[1..]);
      if v[0] == '*' { assert Glob(v, v[1..]); }
    }
  }

  // A text that the pattern matches, with each wildcard standing for as little as it can.
  function Sample(p: string): string {
    if p == [] then []
    else if p[0] == '%' then Sample(p[1..])
    else if p[0] == '_' then ['x'] + Sample(p[1..])
    else if p[0] == '\\' then (if |p| == 1 then [] else [p[1]] + Sample(p[2..]))
    else [p[0]] + Sample(p[1..])
  }

  lemma {:induction false} SampleMatches(p: string)
    requires !Dangling(p)
    ensures LikeMatch(p, Sample(p))
  {
    if p != [] {
      if p[0] == '\\' { SampleMatches(p[2..]); } else { SampleMatches(p[1..]); }
    }
  }

  // The character that shows the difference: a backslash if there is one, else % or _.
  function Telltale(v: string): char {
    if '\\' in v then '\\' else if '%' in v then '%' else '_'
  }

  lemma {:induction false} SampleCounts(v: string, k: char)
    requires IsSpecial(k) && !Dangling(Subst(v)) && (k != '\\' ==> '\\' !in v)
    ensures Count(k, Sample(Subst(v))) <= Count(k, v)
    ensures k in v ==> Count(k, Sample(Subst(v))) < Count(k, v)
    decreases |v|
  {
    if v != [] {
      assert Subst(v)[1..] == Subst(v[1..]);
      if v[0] == '\\' {
        assert Subst(v)[2..] == Subst(v[2..]);
        assert Subst(v)[1] == if v[1] == '*' then '%' else v[1];
        assert v[1..][1..] == v[2..];
        assert k == '\\';
        SampleCounts(v[2..], k);
        var head := [Subst(v)[1]];
        assert (head + Sample(Subst(v[2..])))[1..] == Sample(Subst(v[2..]));
      } else {
        SampleCounts(v[1..], k);
        if v[0] == '_' {
          assert (['x'] + Sample(Subst(v[1..])))[1..] == Sample(Subst(v[1..]));
        } else if Subst(v)[0] != '%' {
          assert ([v[0]] + Sample(Subst(v[1..])))[1..] == Sample(Subst(v[1..]));
        }
      }
    }
  }

  // The compiled pattern has the documented meaning on every text exactly when the value
  // is free of `%`, `_` and `\`.
  lemma WildcardExact(v: string)
    ensures Plain(v) <==> forall t: string :: LikeMatch(Subst(v), t) == Glob(v, t)
  {
    if Plain(v) {
      forall t: string ensures LikeMatch(Subst(v), t) == Glob(v, t) { PlainAgrees(v, t); }
    } else if Dangling(Subst(v)) {
      DanglingNeverMatches(Subst(v), v);
      GlobSelf(v);
      assert LikeMatch(Subst(v), v) != Glob(v, v);
    } else {
      var k := Telltale(v);
      var t := Sample(Subst(v));
      SampleMatches(Subst(v));
      assert k in v;
      SampleCounts(v, k);
      if Glob(v, t) { GlobCounts(k, v, t); }
      assert LikeMatch(Subst(v), t) != Glob(v, t);
    }
  }

  predicate PlainPatterns(n: Node) {
    match n
    case Cmp(c) => c.op == Ilike ==> Plain(c.value)
    case And(l, r) => PlainPatterns(l) && PlainPatterns(r)
    case Or(l, r) => PlainPatterns(l) && PlainPatterns(r)
  }

  lemma {:induction false} PlainMeaning(n: Node, schema: Schema, row: Row, cast: Cast)
    requires PlainPatterns(n)
    ensures Meaning(n, schema, row, cast, CompiledMatch) == Meaning(n, schema, row, cast, GlobMatch)
  {
    match n
    case Cmp(c) =>
      if c.op == Ilike && c.field in row && row[c.field].TextVal? { PlainAgrees(c.value, row[c.field].s); }
    case And(l, r) =>
      PlainMeaning(l, schema, row, cast);
      PlainMeaning(r, schema, row, cast);
    case Or(l, r) =>
      PlainMeaning(l, schema, row, cast);
      PlainMeaning(r, schema, row, cast);
  }

  // With plain patterns the compiled query agrees with the filter read as documented.
  lemma DocumentedMeaning(s: string, schema: Schema, row: Row, cast: Cast)
    requires Parse(s, schema).Success? && RowOk(schema, row) && PlainPatterns(Parse(s, schema).value)
    ensures var n := Parse(s, schema).value;
      EvalSql(ToSql(n, schema), row, cast) == Meaning(n, schema, row, cast, GlobMatch)
  {
    CompilationPreservesMeaning(s, schema, row, cast);
    PlainMeaning(Parse(s, schema).value, schema, row, cast);
  }
}
