/** The filter language written down independently of the parser: concrete syntax trees that
    record every blank, separator spelling and quoting choice, their text, and the boolean
    tree they stand for.  The theorems say that the parser accepts exactly this language. */
module FilterGrammar {
  import opened Wrappers
  import opened FilterSyntax
  import opened FilterParsing

  // A separator is a symbol or a keyword, after optional blanks.
  datatype Sep = Symbol(ws: string) | Keyword(ws: string, word: string)

  datatype Literal = Quoted(text: string) | Bare(text: string)

  // Both chains associate to the left; AND binds tighter than OR.
  datatype OrChain = OrOne(first: AndChain) | OrMore(init: OrChain, sep: Sep, last: AndChain)

  datatype AndChain = AndOne(first: Primary) | AndMore(init: AndChain, sep: Sep, last: Primary)

  datatype Primary =
    | Group(open: string, inner: OrChain, close: string)
    | Comparison(ws0: string, field: string, ws1: string, op: Op, ws2: string, literal: Literal)

  // ---- Text: each function writes its argument in front of what comes next ----

  function EscapeText(t: string, next: string): string {
    if t == [] then ['\''] + next
    else if t[0] == '\'' then ['\'', '\''] + EscapeText(t[1..], next)
    else [t[0]] + EscapeText(t[1..], next)
  }

  function LiteralText(v: Literal, next: string): string {
    match v
    case Quoted(t) => ['\''] + EscapeText(t, next)
    case Bare(t) => t + next
  }

  function SepText(sep: Sep, symbol: char, next: string): string {
    match sep
    case Symbol(ws) => ws + ([symbol] + next)
    case Keyword(ws, word) => ws + (word + next)
  }

  // How the documentation spells the operators.
  function OpText(op: Op): string {
    match op
    case Eq => "=="
    case Neq => "!="
    case Gt => "=gt="
    case Gte => "=ge="
    case Lt => "=lt="
    case Lte => "=le="
    case Ilike => "=ilike="
  }

  lemma SpelledAsDocumented(op: Op)
    ensures Wire(op) == OpText(op)
  {
  }

  function OrText(c: OrChain, next: string): string
    decreases c, 1
  {
    match c
    case OrOne(a) => AndText(a, next)
    case OrMore(i, sep, l) => OrText(i, SepText(sep, ',', AndText(l, next)))
  }

  function AndText(c: AndChain, next: string): string
    decreases c, 1
  {
    match c
    case AndOne(p) => PrimaryText(p, next)
    case AndMore(i, sep, l) => AndText(i, SepText(sep, ';', PrimaryText(l, next)))
  }

  function PrimaryText(p: Primary, next: string): string
    decreases p, 1
  {
    if p.Group? then p.open + (['('] + BodyText(p, p.close + ([')'] + next))) else BodyText(p, next)
  }

  // A primary without its parentheses.
  function BodyText(p: Primary, next: string): string
    decreases p, 0
  {
    match p
    case Group(_, inner, _) => OrText(inner, next)
    case Comparison(ws0, field, ws1, op, ws2, v) =>
      ws0 + (field + (ws1 + (OpText(op) + (ws2 + LiteralText(v, next)))))
  }

  // ---- Meaning: left folds ----

  function OrTree(c: OrChain): Node {
    match c
    case OrOne(a) => AndTree(a)
    case OrMore(i, _, l) => Or(OrTree(i), AndTree(l))
  }

  function AndTree(c: AndChain): Node {
    match c
    case AndOne(p) => PrimaryTree(p)
    case AndMore(i, _, l) => And(AndTree(i), PrimaryTree(l))
  }

  function PrimaryTree(p: Primary): Node {
    match p
    case Group(_, inner, _) => OrTree(inner)
    case Comparison(_, field, _, op, _, v) => Cmp(Condition(field, op, v.text))
  }

  // ---- Well-formedness ----

  // An unquoted value runs to the next delimiter, so it may not touch a keyword.
  predicate EndsBareOr(c: OrChain) {
    match c
    case OrOne(a) => EndsBareAnd(a)
    case OrMore(_, _, l) => EndsBareAnd(l)
  }

  predicate EndsBareAnd(c: AndChain) {
    match c
    case AndOne(p) => EndsBare(p)
    case AndMore(_, _, l) => EndsBare(l)
  }

  predicate EndsBare(p: Primary) { p.Comparison? && p.literal.Bare? }

  // A field name that follows at once would merge with a keyword.
  predicate StartsIdentAnd(c: AndChain) {
    match c
    case AndOne(p) => StartsIdent(p)
    case AndMore(i, _, _) => StartsIdentAnd(i)
  }

  predicate StartsIdent(p: Primary) { p.Comparison? && p.ws0 == [] }

  predicate WfSep(sep: Sep, kw: string, afterBare: bool, beforeIdent: bool) {
    && AllWs(sep.ws)
    && (sep.Keyword? ==> EqIgnoreCase(sep.word, kw) && (afterBare ==> sep.ws != []) && !beforeIdent)
  }

  predicate WfLiteral(v: Literal) {
    v.Bare? ==> v.text != [] && v.text[0] != '\'' && forall i :: 0 <= i < |v.text| ==> !IsDelim(v.text[i])
  }

  predicate WfOr(c: OrChain, check: Check)
    decreases c, 1
  {
    match c
    case OrOne(a) => WfAnd(a, check)
    case OrMore(i, sep, l) =>
      WfOr(i, check) && WfAnd(l, check) && WfSep(sep, "or", EndsBareOr(i), StartsIdentAnd(l))
  }

  predicate WfAnd(c: AndChain, check: Check)
    decreases c, 1
  {
    match c
    case AndOne(p) => WfPrimary(p, check)
    case AndMore(i, sep, l) =>
      WfAnd(i, check) && WfPrimary(l, check) && WfSep(sep, "and", EndsBareAnd(i), StartsIdent(l))
  }

  predicate WfPrimary(p: Primary, check: Check)
    decreases p, 1
  {
    (p.Group? ==> AllWs(p.open) && AllWs(p.close)) && WfBody(p, check)
  }

  predicate WfBody(p: Primary, check: Check)
    decreases p, 0
  {
    match p
    case Group(_, inner, _) => WfOr(inner, check)
    case Comparison(ws0, field, ws1, op, ws2, v) =>
      && AllWs(ws0) && AllWs(ws1) && AllWs(ws2) && WfLiteral(v)
      && Accepts(check, Condition(field, op, v.text))
  }

  // ---- Scanning over one piece ----

  lemma {:induction false} SkipOver(ws: string, t: string)
    requires AllWs(ws)
    ensures SkipWs(ws + t) == SkipWs(t)
  {
    if ws == [] {
      assert ws + t == t;
    } else {
      assert (ws + t)[1..] == ws[1..] + t;
      SkipOver(ws[1..], t);
    }
  }

  lemma {:induction false} IdentOver(field: string, t: string)
    requires AllIdent(field) && (t != [] ==> !IsIdentChar(t[0]))
    ensures IdentLen(field + t) == |field|
  {
    if field == [] {
      assert field + t == t;
    } else {
      assert (field + t)[1..] == field[1..] + t;
      IdentOver(field[1..], t);
    }
  }

  lemma {:induction false} BareOver(v: string, t: string)
    requires forall i :: 0 <= i < |v| ==> !IsDelim(v[i])
    requires t != [] ==> IsDelim(t[0])
    ensures BareLen(v + t) == |v|
  {
    if v == [] {
      assert v + t == t;
    } else {
      assert (v + t)[1..] == v[1..] + t;
      BareOver(v[1..], t);
    }
  }

  // No operator is a prefix of another, so the order of the trials is immaterial.
  lemma {:induction false} OpOver(op: Op, t: string, ops: seq<Op>)
    requires op in ops
    ensures MatchOp(Wire(op) + t, ops) == Some((op, t))
    decreases |ops|
  {
    var s := Wire(op) + t;
    if Wire(ops[0]) <= s {
      assert Wire(ops[0])[1] == s[1] == Wire(op)[1];
      if |Wire(ops[0])| > 2 && |Wire(op)| > 2 {
        assert Wire(ops[0])[2] == s[2] == Wire(op)[2];
      }
      assert ops[0] == op;
    } else {
      OpOver(op, t, ops[1..]);
    }
  }

  lemma {:induction false} QuotedOver(t: string, next: string, out: string)
    requires next != [] ==> next[0] != '\''
    ensures QuotedRest(EscapeText(t, next), out) == Value(out + t, next)
    decreases |t|
  {
    if t == [] {
      assert out + t == out;
    } else {
      QuotedOver(t[1..], next, out + [t[0]]);
      assert out + [t[0]] + t[1..] == out + t;
    }
  }

  // What may follow a value so that scanning it ends there.
  predicate ValueStop(t: string, bare: bool) {
    t != [] ==> if bare then IsDelim(t[0]) else t[0] != '\''
  }

  lemma LiteralOver(v: Literal, next: string)
    requires WfLiteral(v) && ValueStop(next, v.Bare?)
    ensures ScanValue(LiteralText(v, next)) == Value(v.text, next)
  {
    match v
    case Bare(t) => BareOver(t, next);
    case Quoted(t) => QuotedOver(t, next, "");
  }

  lemma OperandOver(ws: string, v: Literal, next: string, field: string, op: Op, check: Check)
    requires AllWs(ws) && WfLiteral(v) && ValueStop(next, v.Bare?) && check(Condition(field, op, v.text)) == None
    ensures ScanOperand(ws + LiteralText(v, next), field, op, check) == Ok(Cmp(Condition(field, op, v.text)), next)
  {
    SkipOver(ws, LiteralText(v, next));
    LiteralOver(v, next);
  }

  lemma OpPartOver(ws: string, op: Op, t: string)
    requires AllWs(ws)
    ensures MatchOp(SkipWs(ws + (OpText(op) + t)), OPERATORS) == Some((op, t))
    ensures ws + (OpText(op) + t) != [] && !IsIdentChar((ws + (OpText(op) + t))[0])
  {
    SpelledAsDocumented(op);
    SkipOver(ws, OpText(op) + t);
    OpOver(op, t, OPERATORS);
  }

  lemma FieldOver(ws: string, field: string, t: string)
    requires AllWs(ws) && AllIdent(field) && field != [] && t != [] && !IsIdentChar(t[0])
    ensures var s := SkipWs(ws + (field + t));
      s == field + t && SkipWs(s) == s && IdentLen(s) == |field| && s[..|field|] == field && s[|field|..] == t
  {
    SkipOver(ws, field + t);
    IdentOver(field, t);
  }

  lemma ComparisonComplete(c: Primary, next: string, check: Check)
    requires c.Comparison? && WfBody(c, check) && ValueStop(next, EndsBare(c))
    ensures var s := SkipWs(BodyText(c, next));
      && s != [] && IsIdentChar(s[0])
      && ScanComparison(s, check) == Ok(PrimaryTree(c), next)
  {
    var operand := c.ws2 + LiteralText(c.literal, next);
    var tail := c.ws1 + (OpText(c.op) + operand);
    OpPartOver(c.ws1, c.op, operand);
    FieldOver(c.ws0, c.field, tail);
    OperandOver(c.ws2, c.literal, next, c.field, c.op, check);
  }

  // ---- Every text of the grammar is parsed to its tree ----

  // The first character of a primary or chain: a letter of a field name, or none.
  lemma PrimaryHead(p: Primary, next: string, check: Check)
    requires WfPrimary(p, check)
    ensures PrimaryText(p, next) != [] && (IsIdentChar(PrimaryText(p, next)[0]) <==> StartsIdent(p))
  {
    if p.Comparison? {
      assert WfBody(p, check);
      var tail := p.ws1 + (OpText(p.op) + (p.ws2 + LiteralText(p.literal, next)));
      assert BodyText(p, next) == p.ws0 + (p.field + tail);
    }
  }

  lemma {:induction false} AndHead(c: AndChain, next: string, check: Check)
    requires WfAnd(c, check)
    ensures AndText(c, next) != [] && (IsIdentChar(AndText(c, next)[0]) <==> StartsIdentAnd(c))
    decreases c
  {
    match c
    case AndOne(p) => PrimaryHead(p, next, check);
    case AndMore(i, sep, l) => AndHead(i, SepText(sep, ';', PrimaryText(l, next)), check);
  }

  predicate SepSpelling(symbol: char, kw: string) {
    (symbol == ',' && kw == "or") || (symbol == ';' && kw == "and")
  }

  predicate NoAnd(s: string) { AfterSep(SkipWs(s), ';', "and") == None }

  // A separator begins with its symbol or with the first letter of its keyword.
  lemma SepHead(s: string, symbol: char, kw: string)
    requires SepSpelling(symbol, kw) && AfterSep(s, symbol, kw).Some?
    ensures s != [] && (s[0] == symbol || Lower(s[0]) == kw[0])
  {
    if s == [] || s[0] != symbol {
      assert Lower(s[..|kw|][0]) == Lower(kw[0]);
    }
  }

  // A well-formed separator is recognised, and the value before it ends where it should.
  lemma SepOver(sep: Sep, symbol: char, kw: string, bare: bool, ident: bool, next: string)
    requires SepSpelling(symbol, kw) && WfSep(sep, kw, bare, ident)
    requires next != [] && (IsIdentChar(next[0]) ==> ident)
    ensures AfterSep(SkipWs(SepText(sep, symbol, next)), symbol, kw) == Some(next)
    ensures ValueStop(SepText(sep, symbol, next), bare)
    ensures symbol == ',' ==> NoAnd(SepText(sep, symbol, next))
  {
    var body := if sep.Symbol? then [symbol] else sep.word;
    var t := body + next;
    assert Lower(t[0]) == Lower(body[0]) == if sep.Symbol? then symbol else kw[0];
    SkipOver(sep.ws, t);
    if sep.Keyword? {
      assert t[..|kw|] == sep.word && t[|kw|..] == next;
    }
    if AfterSep(t, ';', "and").Some? {
      SepHead(t, ';', "and");
    }
  }

  lemma SkipIdempotent(s: string)
    ensures SkipWs(SkipWs(s)) == SkipWs(s)
  {
  }

  lemma {:induction false} PrimaryComplete(c: Primary, next: string, check: Check)
    requires WfPrimary(c, check) && ValueStop(next, EndsBare(c))
    ensures ScanPrimary(PrimaryText(c, next), check) == Ok(PrimaryTree(c), next)
    decreases c
  {
    if c.Comparison? {
      ComparisonComplete(c, next, check);
    } else {
      var tail := c.close + ([')'] + next);
      var body := OrText(c.inner, tail);
      SkipOver(c.open, ['('] + body);
      SkipOver(c.close, [')'] + next);
      var t := [')'] + next;
      assert SkipWs(tail) == t;
      if AfterSep(t, ';', "and").Some? { SepHead(t, ';', "and"); }
      if AfterSep(t, ',', "or").Some? { SepHead(t, ',', "or"); }
      OrComplete(c.inner, tail, check);
      assert (['('] + body)[1..] == body;
    }
  }

  // The loop resumes after any complete chain with the chain's tree as its left operand.
  lemma {:induction false} AndComplete(c: AndChain, next: string, check: Check)
    requires WfAnd(c, check) && ValueStop(next, EndsBareAnd(c))
    ensures ScanAnd(AndText(c, next), check) == AndLoop(next, AndTree(c), check)
    decreases c
  {
    match c
    case AndOne(first) => PrimaryComplete(first, next, check);
    case AndMore(init, sep, last) =>
      var t := PrimaryText(last, next);
      PrimaryHead(last, next, check);
      SepOver(sep, ';', "and", EndsBareAnd(init), StartsIdent(last), t);
      AndComplete(init, SepText(sep, ';', t), check);
      PrimaryComplete(last, next, check);
  }

  lemma {:induction false} OrComplete(c: OrChain, next: string, check: Check)
    requires WfOr(c, check) && ValueStop(next, EndsBareOr(c)) && NoAnd(next)
    ensures ScanOr(OrText(c, next), check) == OrLoop(next, OrTree(c), check)
    decreases c
  {
    SkipIdempotent(next);
    match c
    case OrOne(first) => AndComplete(first, next, check);
    case OrMore(init, sep, last) =>
      var t := AndText(last, next);
      AndHead(last, next, check);
      SepOver(sep, ',', "or", EndsBareOr(init), StartsIdentAnd(last), t);
      OrComplete(init, SepText(sep, ',', t), check);
      AndComplete(last, next, check);
  }

  // Completeness: a text of the grammar, possibly followed by blanks, is accepted with the grammar's tree.
  lemma ParseComplete(c: OrChain, ws: string, schema: Schema)
    requires WfOr(c, Checker(schema)) && AllWs(ws)
    ensures Parse(OrText(c, ws), schema) == Success(OrTree(c))
  {
    SkipOver(ws, "");
    assert ws + "" == ws;
    OrComplete(c, ws, Checker(schema));
  }

  // ---- Every accepted text is a text of the grammar ----

  lemma {:induction false} SplitWs(s: string) returns (ws: string)
    ensures s == ws + SkipWs(s) && AllWs(ws)
    ensures SkipWs(s) != [] ==> !IsWs(SkipWs(s)[0])
  {
    if s != [] && IsWs(s[0]) {
      var tail := SplitWs(s[1..]);
      ws := [s[0]] + tail;
    } else {
      ws := [];
    }
  }

  lemma {:induction false} IdentPrefix(s: string)
    ensures AllIdent(s[..IdentLen(s)])
  {
    if s != [] && IsIdentChar(s[0]) {
      IdentPrefix(s[1..]);
      assert s[..IdentLen(s)] == [s[0]] + s[1..][..IdentLen(s[1..])];
    }
  }

  lemma {:induction false} BarePrefix(s: string)
    ensures forall i :: 0 <= i < BareLen(s) ==> !IsDelim(s[i])
    ensures BareLen(s) < |s| ==> IsDelim(s[BareLen(s)])
  {
    if s != [] && !IsDelim(s[0]) {
      BarePrefix(s[1..]);
      forall i | 0 <= i < BareLen(s) ensures !IsDelim(s[i]) {
        if i > 0 { assert s[i] == s[1..][i - 1]; }
      }
    }
  }

  lemma {:induction false} QuotedSound(s: string, out: string) returns (t: string)
    requires QuotedRest(s, out).Value?
    ensures QuotedRest(s, out).text == out + t && s == EscapeText(t, QuotedRest(s, out).after)
    decreases |s|
  {
    if s[0] != '\'' {
      var tail := QuotedSound(s[1..], out + [s[0]]);
      t := [s[0]] + tail;
    } else if 1 < |s| && s[1] == '\'' {
      var tail := QuotedSound(s[2..], out + ['\'']);
      t := ['\''] + tail;
      assert s == ['\'', '\''] + s[2..];
    } else {
      t := [];
    }
  }

  lemma LiteralSound(s: string) returns (v: Literal)
    requires ScanValue(s).Value?
    ensures WfLiteral(v) && v.text == ScanValue(s).text && s == LiteralText(v, ScanValue(s).after)
    ensures v.Bare? ==> ValueStop(ScanValue(s).after, true)
  {
    if s != [] && s[0] == '\'' {
      var t := QuotedSound(s[1..], "");
      v := Quoted(t);
    } else {
      BarePrefix(s);
      v := Bare(s[..BareLen(s)]);
    }
  }

  lemma {:induction false} OpSound(s: string, ops: seq<Op>)
    requires MatchOp(s, ops).Some?
    ensures var (op, t) := MatchOp(s, ops).value; s == OpText(op) + t
    decreases |ops|
  {
    if !(Wire(ops[0]) <= s) {
      OpSound(s, ops[1..]);
    }
  }

  lemma OperandSound(s: string, field: string, op: Op, check: Check) returns (ws: string, v: Literal)
    requires ScanOperand(s, field, op, check).Ok?
    ensures AllWs(ws) && WfLiteral(v) && s == ws + LiteralText(v, ScanOperand(s, field, op, check).rest)
    ensures ScanOperand(s, field, op, check).node == Cmp(Condition(field, op, v.text))
    ensures check(Condition(field, op, v.text)) == None
    ensures v.Bare? ==> ValueStop(ScanOperand(s, field, op, check).rest, true)
  {
    ws := SplitWs(s);
    v := LiteralSound(SkipWs(s));
  }

  lemma FieldSound(s: string) returns (ws0: string, field: string, tail: string)
    ensures AllWs(ws0) && AllIdent(field) && s == ws0 + (field + tail)
    ensures var t := SkipWs(s); field == t[..IdentLen(t)] && tail == t[IdentLen(t)..]
  {
    ws0 := SplitWs(s);
    var t := SkipWs(s);
    var n := IdentLen(t);
    field, tail := t[..n], t[n..];
    IdentPrefix(t);
    assert t == field + tail;
  }

  // The field and operator of an accepted comparison, and what is left for its value.
  lemma HeadSound(s: string, check: Check) returns (ws0: string, field: string, tail: string, op: Op, u: string)
    requires ScanComparison(s, check).Ok?
    ensures AllWs(ws0) && field != [] && AllIdent(field) && s == ws0 + (field + tail)
    ensures MatchOp(SkipWs(tail), OPERATORS) == Some((op, u))
    ensures ScanComparison(s, check) == ScanOperand(u, field, op, check)
  {
    ws0, field, tail := FieldSound(s);
    var found := MatchOp(SkipWs(tail), OPERATORS);
    assert ScanComparison(s, check) == ScanTail(field, found, check);
    op, u := found.value.0, found.value.1;
  }

  lemma ComparisonSound(s: string, check: Check) returns (c: Primary)
    requires ScanComparison(s, check).Ok?
    ensures c.Comparison? && WfBody(c, check) && s == BodyText(c, ScanComparison(s, check).rest)
    ensures PrimaryTree(c) == ScanComparison(s, check).node
    ensures EndsBare(c) ==> ValueStop(ScanComparison(s, check).rest, true)
  {
    var ws0, field, tail, op, u := HeadSound(s, check);
    var ws1 := SplitWs(tail);
    OpSound(SkipWs(tail), OPERATORS);
    var ws2, v := OperandSound(u, field, op, check);
    c := Comparison(ws0, field, ws1, op, ws2, v);
  }

  lemma KeywordSound(t: string, kw: string)
    requires kw != [] && StartsWithKeyword(t, kw)
    ensures var word := t[..|kw|];
      t == word + t[|kw|..] && EqIgnoreCase(word, kw) && word != [] && t[0] == word[0] && Lower(t[0]) == Lower(kw[0])
  {
    assert Lower(t[..|kw|][0]) == Lower(kw[0]);
  }

  lemma KeywordSepSound(ws: string, t: string, kw: string, symbol: char, bare: bool, ident: bool)
    requires kw != [] && AllWs(ws) && StartsWithKeyword(t, kw) && (bare ==> ws != [])
    requires ident ==> |kw| < |t| && IsIdentChar(t[|kw|])
    ensures var sep := Keyword(ws, t[..|kw|]); WfSep(sep, kw, bare, ident) && ws + t == SepText(sep, symbol, t[|kw|..])
  {
    KeywordSound(t, kw);
  }

  // What was matched as a separator is the text of a well-formed one.
  lemma SepSound(s: string, symbol: char, kw: string, bare: bool, ident: bool) returns (sep: Sep)
    requires SepSpelling(symbol, kw) && AfterSep(SkipWs(s), symbol, kw).Some?
    requires bare ==> ValueStop(s, true)
    requires var next := AfterSep(SkipWs(s), symbol, kw).value; ident ==> next != [] && IsIdentChar(next[0])
    ensures WfSep(sep, kw, bare, ident) && s == SepText(sep, symbol, AfterSep(SkipWs(s), symbol, kw).value)
  {
    var ws := SplitWs(s);
    var t := SkipWs(s);
    if t[0] == symbol {
      sep := Symbol(ws);
      assert t == [symbol] + t[1..];
    } else {
      KeywordAfterBlank(s, t, ws, symbol, kw, bare);
      KeywordSepSound(ws, t, kw, symbol, bare, ident);
      sep := Keyword(ws, t[..|kw|]);
    }
  }

  // After an unquoted value a keyword needs a blank before it.
  lemma KeywordAfterBlank(s: string, t: string, ws: string, symbol: char, kw: string, bare: bool)
    requires SepSpelling(symbol, kw) && s == ws + t && StartsWithKeyword(t, kw) && (bare ==> ValueStop(s, true))
    ensures bare ==> ws != []
  {
    KeywordSound(t, kw);
    if ws == [] { assert s == t; }
  }

  lemma MoreBlanks(ws: string, d: Primary, rest: string, check: Check)
    requires d.Comparison? && AllWs(ws) && WfBody(d, check)
    ensures var c := d.(ws0 := ws + d.ws0);
      WfBody(c, check) && BodyText(c, rest) == ws + BodyText(d, rest)
  {
    var tail := d.field + (d.ws1 + (OpText(d.op) + (d.ws2 + LiteralText(d.literal, rest))));
    assert ws + (d.ws0 + tail) == ws + d.ws0 + tail;
  }

  lemma {:induction false} PrimarySound(s: string, check: Check) returns (c: Primary)
    requires ScanPrimary(s, check).Ok?
    ensures WfPrimary(c, check) && s == PrimaryText(c, ScanPrimary(s, check).rest)
    ensures PrimaryTree(c) == ScanPrimary(s, check).node
    ensures EndsBare(c) ==> ValueStop(ScanPrimary(s, check).rest, true)
    decreases |s|, 0
  {
    var ws := SplitWs(s);
    var t := SkipWs(s);
    if t != [] && t[0] == '(' {
      var inner, close := OrSound(t[1..], check);
      c := Group(ws, inner, close);
      assert ScanOr(t[1..], check).rest == [')'] + ScanPrimary(s, check).rest;
      assert t == ['('] + t[1..];
    } else {
      var d := ComparisonSound(t, check);
      c := d.(ws0 := ws + d.ws0);
      MoreBlanks(ws, d, ScanPrimary(s, check).rest, check);
    }
  }

  // The chain read so far is c, and s is what follows it.
  lemma {:induction false} AndLoopSound(s: string, c: AndChain, check: Check) returns (d: AndChain, ws: string)
    requires WfAnd(c, check) && (EndsBareAnd(c) ==> ValueStop(s, true))
    requires AndLoop(s, AndTree(c), check).Ok?
    ensures var r := AndLoop(s, AndTree(c), check);
      && WfAnd(d, check) && AndText(c, s) == AndText(d, ws + r.rest) && AndTree(d) == r.node
      && AllWs(ws) && SkipWs(r.rest) == r.rest && (EndsBareAnd(d) ==> ValueStop(ws + r.rest, true))
    decreases |s|, 0
  {
    match AfterSep(SkipWs(s), ';', "and")
    case None =>
      d := c;
      ws := SplitWs(s);
      SkipIdempotent(s);
    case Some(next) =>
      var p := PrimarySound(next, check);
      var t := ScanPrimary(next, check).rest;
      PrimaryHead(p, t, check);
      var sep := SepSound(s, ';', "and", EndsBareAnd(c), StartsIdent(p));
      d, ws := AndLoopSound(t, AndMore(c, sep, p), check);
  }

  lemma {:induction false} AndSound(s: string, check: Check) returns (d: AndChain, ws: string)
    requires ScanAnd(s, check).Ok?
    ensures var r := ScanAnd(s, check);
      && WfAnd(d, check) && s == AndText(d, ws + r.rest) && AndTree(d) == r.node
      && AllWs(ws) && SkipWs(r.rest) == r.rest && (EndsBareAnd(d) ==> ValueStop(ws + r.rest, true))
    decreases |s|, 1
  {
    var p := PrimarySound(s, check);
    d, ws := AndLoopSound(ScanPrimary(s, check).rest, AndOne(p), check);
  }

  // The chain read so far is c, followed by the blanks ws0 and then s.
  lemma {:induction false} OrLoopSound(s: string, c: OrChain, ws0: string, check: Check)
    returns (d: OrChain, ws: string)
    requires WfOr(c, check) && AllWs(ws0) && SkipWs(s) == s && (EndsBareOr(c) ==> ValueStop(ws0 + s, true))
    requires OrLoop(s, OrTree(c), check).Ok?
    ensures var r := OrLoop(s, OrTree(c), check);
      && WfOr(d, check) && OrText(c, ws0 + s) == OrText(d, ws + r.rest) && OrTree(d) == r.node
      && AllWs(ws) && SkipWs(r.rest) == r.rest
    decreases |s|, 0
  {
    SkipOver(ws0, s);
    match AfterSep(s, ',', "or")
    case None =>
      d, ws := c, ws0;
    case Some(next) =>
      var a, ws1 := AndSound(next, check);
      var t := ScanAnd(next, check).rest;
      AndHead(a, ws1 + t, check);
      var sep := SepSound(ws0 + s, ',', "or", EndsBareOr(c), StartsIdentAnd(a));
      d, ws := OrLoopSound(t, OrMore(c, sep, a), ws1, check);
  }

  lemma {:induction false} OrSound(s: string, check: Check) returns (d: OrChain, ws: string)
    requires ScanOr(s, check).Ok?
    ensures var r := ScanOr(s, check);
      && WfOr(d, check) && s == OrText(d, ws + r.rest) && OrTree(d) == r.node
      && AllWs(ws) && SkipWs(r.rest) == r.rest
    decreases |s|, 2
  {
    var a, ws1 := AndSound(s, check);
    d, ws := OrLoopSound(ScanAnd(s, check).rest, OrOne(a), ws1, check);
  }

  // Soundness: an accepted text is the text of a well-formed syntax tree, up to trailing blanks.
  lemma ParseSound(s: string, schema: Schema) returns (c: OrChain, ws: string)
    requires Parse(s, schema).Success?
    ensures WfOr(c, Checker(schema)) && AllWs(ws)
    ensures s == OrText(c, ws) && Parse(s, schema) == Success(OrTree(c))
  {
    c, ws := OrSound(s, Checker(schema));
    assert ws + [] == ws;
  }

  // The parser accepts exactly the language of the grammar and returns the tree the grammar gives.
  ghost predicate Derives(s: string, c: OrChain, ws: string, schema: Schema) {
    WfOr(c, Checker(schema)) && AllWs(ws) && s == OrText(c, ws)
  }

  lemma ExactLanguage(s: string, n: Node, schema: Schema)
    ensures Parse(s, schema) == Success(n)
      <==> exists c: OrChain, ws: string :: Derives(s, c, ws, schema) && OrTree(c) == n
  {
    if Parse(s, schema) == Success(n) {
      var c, ws := ParseSound(s, schema);
      assert Derives(s, c, ws, schema);
    }
    if c, ws :| Derives(s, c, ws, schema) && OrTree(c) == n {
      ParseComplete(c, ws, schema);
    }
  }

  // ---- Trees: what the parser can return, and how to print it ----

  lemma {:induction false} PrimaryAccepted(c: Primary, check: Check)
    requires WfPrimary(c, check)
    ensures AcceptsAll(check, PrimaryTree(c))
    decreases c
  {
    if c.Group? { OrAccepted(c.inner, check); }
  }

  lemma {:induction false} AndAccepted(c: AndChain, check: Check)
    requires WfAnd(c, check)
    ensures AcceptsAll(check, AndTree(c))
    decreases c
  {
    match c
    case AndOne(p) => PrimaryAccepted(p, check);
    case AndMore(i, _, l) =>
      AndAccepted(i, check);
      PrimaryAccepted(l, check);
  }

  lemma {:induction false} OrAccepted(c: OrChain, check: Check)
    requires WfOr(c, check)
    ensures AcceptsAll(check, OrTree(c))
    decreases c
  {
    match c
    case OrOne(a) => AndAccepted(a, check);
    case OrMore(i, _, l) =>
      OrAccepted(i, check);
      AndAccepted(l, check);
  }

  // Every comparison in a parsed tree has passed the check.
  lemma ParsedIsAccepted(s: string, schema: Schema)
    requires Parse(s, schema).Success?
    ensures AcceptsAll(Checker(schema), Parse(s, schema).value)
  {
    var c, _ := ParseSound(s, schema);
    OrAccepted(c, Checker(schema));
  }

  // The canonical text: symbols, quoted values, no blanks, and parentheses only around an operand
  // that binds less tightly than its place allows (any OR under AND, and right operands of the same kind).
  function PrintOr(n: Node, next: string): string
    decreases n, 2
  {
    match n
    case Or(l, r) => PrintOr(l, [','] + PrintAnd(r, next))
    case _ => PrintAnd(n, next)
  }

  function PrintAnd(n: Node, next: string): string
    decreases n, 1
  {
    match n
    case And(l, r) => PrintAnd(l, [';'] + PrintPrimary(r, next))
    case _ => PrintPrimary(n, next)
  }

  function PrintPrimary(n: Node, next: string): string
    decreases n, 0
  {
    match n
    case Cmp(c) => c.field + (OpText(c.op) + (['\''] + EscapeText(c.value, next)))
    case And(l, r) => ['('] + PrintAnd(l, [';'] + PrintPrimary(r, [')'] + next))
    case Or(l, r) => ['('] + PrintOr(l, [','] + PrintAnd(r, [')'] + next))
  }

  function Print(n: Node): string { PrintOr(n, "") }

  function CanonOr(n: Node): OrChain
    decreases n, 2
  {
    match n
    case Or(l, r) => OrMore(CanonOr(l), Symbol(""), CanonAnd(r))
    case _ => OrOne(CanonAnd(n))
  }

  function CanonAnd(n: Node): AndChain
    decreases n, 1
  {
    match n
    case And(l, r) => AndMore(CanonAnd(l), Symbol(""), CanonPrimary(r))
    case _ => AndOne(CanonPrimary(n))
  }

  function CanonPrimary(n: Node): Primary
    decreases n, 0
  {
    match n
    case Cmp(c) => Comparison("", c.field, "", c.op, "", Quoted(c.value))
    case And(l, r) => Group("", OrOne(AndMore(CanonAnd(l), Symbol(""), CanonPrimary(r))), "")
    case Or(l, r) => Group("", OrMore(CanonOr(l), Symbol(""), CanonAnd(r)), "")
  }

  lemma NoBlanks(symbol: char, t: string)
    ensures SepText(Symbol(""), symbol, t) == [symbol] + t
  {
  }

  // The chain, written before `next`, has this text and stands for this tree, and ends in a quoted value.
  ghost predicate OrIs(c: OrChain, n: Node, next: string, text: string, check: Check) {
    WfOr(c, check) && OrTree(c) == n && OrText(c, next) == text && !EndsBareOr(c)
  }

  ghost predicate AndIs(c: AndChain, n: Node, next: string, text: string, check: Check) {
    WfAnd(c, check) && AndTree(c) == n && AndText(c, next) == text && !EndsBareAnd(c)
  }

  ghost predicate PrimaryIs(c: Primary, n: Node, next: string, text: string, check: Check) {
    WfPrimary(c, check) && PrimaryTree(c) == n && PrimaryText(c, next) == text && !EndsBare(c)
  }

  lemma AndNode(l: Node, r: Node, a: AndChain, p: Primary, next: string, rest: string, text: string, check: Check)
    requires PrimaryIs(p, r, next, rest, check) && AndIs(a, l, [';'] + rest, text, check)
    ensures AndIs(AndMore(a, Symbol(""), p), And(l, r), next, text, check)
  {
    NoBlanks(';', rest);
  }

  lemma OrNode(l: Node, r: Node, o: OrChain, a: AndChain, next: string, rest: string, text: string, check: Check)
    requires AndIs(a, r, next, rest, check) && OrIs(o, l, [','] + rest, text, check)
    ensures OrIs(OrMore(o, Symbol(""), a), Or(l, r), next, text, check)
  {
    NoBlanks(',', rest);
  }

  lemma GroupNode(o: OrChain, n: Node, next: string, text: string, check: Check)
    requires OrIs(o, n, [')'] + next, text, check)
    ensures PrimaryIs(Group("", o, ""), n, next, ['('] + text, check)
  {
    var t := [')'] + next;
    assert "" + t == t;
  }

  lemma {:induction false} CanonPrimaryOk(n: Node, next: string, check: Check)
    requires AcceptsAll(check, n)
    ensures PrimaryIs(CanonPrimary(n), n, next, PrintPrimary(n, next), check)
    decreases n, 0
  {
    var t := [')'] + next;
    match n
    case Cmp(c) =>
    case And(l, r) =>
      CanonPrimaryOk(r, t, check);
      var rest := PrintPrimary(r, t);
      CanonAndOk(l, [';'] + rest, check);
      var text := PrintAnd(l, [';'] + rest);
      AndNode(l, r, CanonAnd(l), CanonPrimary(r), t, rest, text, check);
      GroupNode(OrOne(AndMore(CanonAnd(l), Symbol(""), CanonPrimary(r))), n, next, text, check);
    case Or(l, r) =>
      CanonAndOk(r, t, check);
      var rest := PrintAnd(r, t);
      CanonOrOk(l, [','] + rest, check);
      var text := PrintOr(l, [','] + rest);
      OrNode(l, r, CanonOr(l), CanonAnd(r), t, rest, text, check);
      GroupNode(OrMore(CanonOr(l), Symbol(""), CanonAnd(r)), n, next, text, check);
  }

  lemma {:induction false} CanonAndOk(n: Node, next: string, check: Check)
    requires AcceptsAll(check, n)
    ensures AndIs(CanonAnd(n), n, next, PrintAnd(n, next), check)
    decreases n, 1
  {
    match n
    case And(l, r) =>
      CanonPrimaryOk(r, next, check);
      var rest := PrintPrimary(r, next);
      CanonAndOk(l, [';'] + rest, check);
      AndNode(l, r, CanonAnd(l), CanonPrimary(r), next, rest, PrintAnd(l, [';'] + rest), check);
    case _ => CanonPrimaryOk(n, next, check);
  }

  lemma {:induction false} CanonOrOk(n: Node, next: string, check: Check)
    requires AcceptsAll(check, n)
    ensures OrIs(CanonOr(n), n, next, PrintOr(n, next), check)
    decreases n, 2
  {
    match n
    case Or(l, r) =>
      CanonAndOk(r, next, check);
      var rest := PrintAnd(r, next);
      CanonOrOk(l, [','] + rest, check);
      OrNode(l, r, CanonOr(l), CanonAnd(r), next, rest, PrintOr(l, [','] + rest), check);
    case _ => CanonAndOk(n, next, check);
  }

  // Printing a tree whose comparisons pass the check, and parsing the text, gives the tree back.
  lemma RoundTrip(n: Node, schema: Schema)
    requires AcceptsAll(Checker(schema), n)
    ensures Parse(Print(n), schema) == Success(n)
  {
    CanonOrOk(n, "", Checker(schema));
    ParseComplete(CanonOr(n), "", schema);
  }

  // Conversely, printing what was parsed gives a text with the same parse.
  lemma PrintedParse(s: string, schema: Schema)
    requires Parse(s, schema).Success?
    ensures Parse(Print(Parse(s, schema).value), schema) == Parse(s, schema)
  {
    ParsedIsAccepted(s, schema);
    RoundTrip(Parse(s, schema).value, schema);
  }

  // ---- The documented form of field names ----

  // Documented: a letter or an underscore first, then letters, digits and underscores.
  predicate DocumentedName(f: string) { f != [] && AllIdent(f) && !IsDigit(f[0]) }

  predicate NamesDocumented(n: Node) {
    match n
    case Cmp(c) => DocumentedName(c.field)
    case And(l, r) => NamesDocumented(l) && NamesDocumented(r)
    case Or(l, r) => NamesDocumented(l) && NamesDocumented(r)
  }

  // No column whose name the parser can read begins with a digit.
  ghost predicate NoDigitColumn(schema: Schema) {
    forall f: string :: schema.KindOf(f).Some? && f != [] && AllIdent(f) ==> !IsDigit(f[0])
  }

  lemma {:induction false} AcceptedNames(n: Node, schema: Schema)
    requires AcceptsAll(Checker(schema), n) && NoDigitColumn(schema)
    ensures NamesDocumented(n)
  {
    match n
    case Cmp(c) => assert schema.KindOf(c.field).Some?;
    case And(l, r) =>
      AcceptedNames(l, schema);
      AcceptedNames(r, schema);
    case Or(l, r) =>
      AcceptedNames(l, schema);
      AcceptedNames(r, schema);
  }

  // Every column the parser can name is accepted in some filter: comparing it with 0 passes for every kind.
  lemma ColumnAccepted(f: string, schema: Schema)
    requires schema.KindOf(f).Some? && f != [] && AllIdent(f)
    ensures Parse(Print(Cmp(Condition(f, Eq, "0"))), schema) == Success(Cmp(Condition(f, Eq, "0")))
  {
    ZeroIsNumber();
    assert Eq == COMPARABLE_OPS[0] && Eq == TEXT_OPS[0];
    assert Accepts(Checker(schema), Condition(f, Eq, "0"));
    RoundTrip(Cmp(Condition(f, Eq, "0")), schema);
  }

  lemma ZeroIsNumber()
    ensures ParseI64("0") == Some(0)
  {
    assert "0"[..0] == [];
    assert Digits("0") == Some(0);
  }

  ghost predicate ParsedAsDocumented(s: string, schema: Schema) {
    Parse(s, schema).Success? ==> NamesDocumented(Parse(s, schema).value)
  }

  // The field names of all accepted filters have the documented form exactly when the schema has no
  // column that begins with a digit.
  lemma DocumentedNamesExactly(schema: Schema)
    ensures (forall s: string :: ParsedAsDocumented(s, schema)) <==> NoDigitColumn(schema)
  {
    if NoDigitColumn(schema) {
      forall s: string ensures ParsedAsDocumented(s, schema) {
        if Parse(s, schema).Success? {
          ParsedIsAccepted(s, schema);
          AcceptedNames(Parse(s, schema).value, schema);
        }
      }
    } else {
      var f: string :| schema.KindOf(f).Some? && f != [] && AllIdent(f) && IsDigit(f[0]);
      ColumnAccepted(f, schema);
      assert !ParsedAsDocumented(Print(Cmp(Condition(f, Eq, "0"))), schema);
    }
  }

  // A filter on a column named 1a is accepted.
  lemma DigitFirstAccepted()
    ensures !ParsedAsDocumented(Print(Cmp(Condition("1a", Eq, "0"))), Schema(["1a"], [], []))
  {
    ColumnAccepted("1a", Schema(["1a"], [], []));
  }
}
