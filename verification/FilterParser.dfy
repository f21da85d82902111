/** The recursive-descent parser: first as functions from the text still to be read to what is
    left of it, then as the cursor object itself, whose methods compute those functions. */
module FilterParsing {
  import opened Wrappers
  import opened FilterSyntax

  datatype Parsed = Ok(node: Node, rest: string) | Err(error: FilterError)

  datatype ParsedValue = Value(text: string, after: string) | BadValue

  // ---- Lexical scanning ----

  function SkipWs(s: string): (r: string)
    ensures |r| <= |s|
  {
    if s != [] && IsWs(s[0]) then SkipWs(s[1..]) else s
  }

  // How many leading characters belong to a field name.
  function IdentLen(s: string): (n: nat)
    ensures n <= |s|
  {
    if s != [] && IsIdentChar(s[0]) then 1 + IdentLen(s[1..]) else 0
  }

  // How many leading characters belong to an unquoted value.
  function BareLen(s: string): (n: nat)
    ensures n <= |s|
  {
    if s != [] && !IsDelim(s[0]) then 1 + BareLen(s[1..]) else 0
  }

  function Lower(c: char): char {
    if 'A' <= c <= 'Z' then (c as int + 32) as char else c
  }

  predicate EqIgnoreCase(a: string, b: string) {
    |a| == |b| && forall i :: 0 <= i < |a| ==> Lower(a[i]) == Lower(b[i])
  }

  // A keyword must be followed by a character that cannot continue an identifier.
  predicate StartsWithKeyword(s: string, kw: string) {
    && |kw| <= |s|
    && EqIgnoreCase(s[..|kw|], kw)
    && (|kw| < |s| ==> !IsIdentChar(s[|kw|]))
  }

  // What is left after a separator written as a symbol or as a keyword.
  function AfterSep(s: string, symbol: char, kw: string): (r: Option<string>)
    requires kw != []
    ensures r.Some? ==> |r.value| < |s|
  {
    if s != [] && s[0] == symbol then Some(s[1..])
    else if StartsWithKeyword(s, kw) then Some(s[|kw|..])
    else None
  }

  // The first of `ops` that is spelled here, and what is left after it.
  function MatchOp(s: string, ops: seq<Op>): (r: Option<(Op, string)>)
    ensures r.Some? ==> |r.value.1| < |s|
    decreases |ops|, |s|
  {
    if ops == [] then None
    else if Wire(ops[0]) <= s then Some((ops[0], s[|Wire(ops[0])|..]))
    else MatchOp(s, ops[1..])
  }

  // The rest of a quoted value, after its opening quote; a doubled quote stands for one.
  function QuotedRest(s: string, out: string): (r: ParsedValue)
    ensures r.Value? ==> |r.after| < |s|
  {
    if s == [] then BadValue
    else if s[0] != '\'' then QuotedRest(s[1..], out + [s[0]])
    else if 1 < |s| && s[1] == '\'' then QuotedRest(s[2..], out + ['\''])
    else Value(out, s[1..])
  }

  function ScanValue(s: string): (r: ParsedValue)
    ensures r.Value? ==> |r.after| < |s|
  {
    if s != [] && s[0] == '\'' then QuotedRest(s[1..], "")
    else
      var n := BareLen(s);
      if n == 0 then BadValue else Value(s[..n], s[n..])
  }

  // ---- Grammar levels ----

  // The value of a comparison, and the check of the whole comparison.
  function ScanOperand(s: string, field: string, op: Op, check: Check): (r: Parsed)
    ensures r.Ok? ==> |r.rest| < |s|
  {
    match ScanValue(SkipWs(s))
    case BadValue => Err(Syntax)
    case Value(text, after) =>
      var c := Condition(field, op, text);
      match check(c)
      case Some(e) => Err(e)
      case None => Ok(Cmp(c), after)
  }

  // What follows the field name, once the operator has been looked up.
  function ScanTail(field: string, found: Option<(Op, string)>, check: Check): (r: Parsed)
    ensures r.Ok? ==> found.Some? && |r.rest| < |found.value.1|
  {
    match found
    case None => Err(Syntax)
    case Some((op, s)) => ScanOperand(s, field, op, check)
  }

  function ScanComparison(s0: string, check: Check): (r: Parsed)
    ensures r.Ok? ==> |r.rest| < |s0|
  {
    var s := SkipWs(s0);
    var n := IdentLen(s);
    if n == 0 then Err(Syntax)
    else ScanTail(s[..n], MatchOp(SkipWs(s[n..]), OPERATORS), check)
  }

  function ScanPrimary(s0: string, check: Check): (r: Parsed)
    ensures r.Ok? ==> |r.rest| < |s0|
    decreases |s0|, 0
  {
    var s := SkipWs(s0);
    if s != [] && s[0] == '(' then
      match ScanOr(s[1..], check)
      case Err(e) => Err(e)
      case Ok(n, t) =>
        var close := SkipWs(t);
        if close != [] && close[0] == ')' then Ok(n, close[1..]) else Err(Syntax)
    else ScanComparison(s, check)
  }

  function ScanAnd(s: string, check: Check): (r: Parsed)
    ensures r.Ok? ==> |r.rest| < |s|
    decreases |s|, 1
  {
    match ScanPrimary(s, check)
    case Err(e) => Err(e)
    case Ok(n, t) => AndLoop(t, n, check)
  }

  function AndLoop(s: string, left: Node, check: Check): (r: Parsed)
    ensures r.Ok? ==> |r.rest| <= |s|
    decreases |s|, 0
  {
    match AfterSep(SkipWs(s), ';', "and")
    case None => Ok(left, SkipWs(s))
    case Some(next) =>
      match ScanPrimary(next, check)
      case Err(e) => Err(e)
      case Ok(right, t) => AndLoop(t, And(left, right), check)
  }

  function ScanOr(s: string, check: Check): (r: Parsed)
    ensures r.Ok? ==> |r.rest| < |s|
    decreases |s|, 2
  {
    match ScanAnd(s, check)
    case Err(e) => Err(e)
    case Ok(n, t) => OrLoop(t, n, check)
  }

  function OrLoop(s: string, left: Node, check: Check): (r: Parsed)
    ensures r.Ok? ==> |r.rest| <= |s|
    decreases |s|, 0
  {
    match AfterSep(SkipWs(s), ',', "or")
    case None => Ok(left, SkipWs(s))
    case Some(next) =>
      match ScanAnd(next, check)
      case Err(e) => Err(e)
      case Ok(right, t) => OrLoop(t, Or(left, right), check)
  }

  // The whole text: whatever follows the expression must be blank.
  function Parse(s: string, schema: Schema): Result<Node, FilterError> {
    match ScanOr(s, Checker(schema))
    case Err(e) => Failure(e)
    case Ok(n, rest) => if SkipWs(rest) == [] then Success(n) else Failure(Syntax)
  }

  // ---- The cursor ----

  class Parser {
    const input: string
    const check: Check
    var pos: nat

    ghost predicate Valid() reads this { pos <= |input| }

    // The text still to be read.
    ghost function Rest(): string
      requires Valid()
      reads this
    {
      input[pos..]
    }

    // What a method returned, and what it left to be read, is what the function says.
    ghost predicate Agrees(r: Result<Node, FilterError>, p: Parsed)
      requires Valid()
      reads this
    {
      match p
      case Ok(n, rest) => r == Success(n) && Rest() == rest
      case Err(e) => r == Failure(e)
    }

    constructor (input: string, check: Check)
      ensures Valid() && Rest() == input && this.input == input && this.check == check
    {
      this.input, this.check, this.pos := input, check, 0;
    }

    predicate Peeks(c: char) reads this { pos < |input| && input[pos] == c }

    method Bump()
      requires Valid() && pos < |input|
      modifies this`pos
      ensures Valid() && pos == old(pos) + 1 && Rest() == old(Rest())[1..]
    {
      pos := pos + 1;
    }

    method Eat(t: string) returns (eaten: bool)
      requires Valid()
      modifies this`pos
      ensures Valid() && eaten == (t <= old(Rest()))
      ensures Rest() == if eaten then old(Rest())[|t|..] else old(Rest())
    {
      eaten := pos + |t| <= |input| && input[pos..pos + |t|] == t;
      if eaten {
        assert Rest()[..|t|] == t;
        pos := pos + |t|;
      }
    }

    method EatKeyword(kw: string) returns (eaten: bool)
      requires Valid()
      modifies this`pos
      ensures Valid() && eaten == StartsWithKeyword(old(Rest()), kw)
      ensures Rest() == if eaten then old(Rest())[|kw|..] else old(Rest())
    {
      eaten := StartsWithKeyword(input[pos..], kw);
      if eaten { pos := pos + |kw|; }
    }

    method EatSep(symbol: char, kw: string) returns (eaten: bool)
      requires Valid() && kw != []
      modifies this`pos
      ensures Valid()
      ensures match AfterSep(old(Rest()), symbol, kw)
              case Some(next) => eaten && Rest() == next
              case None => !eaten && Rest() == old(Rest())
    {
      if Peeks(symbol) {
        Bump();
        return true;
      }
      eaten := EatKeyword(kw);
    }

    method SkipBlanks()
      requires Valid()
      modifies this`pos
      ensures Valid() && Rest() == SkipWs(old(Rest()))
    {
      while pos < |input| && IsWs(input[pos])
        invariant Valid() && SkipWs(Rest()) == SkipWs(old(Rest()))
        decreases |input| - pos
      {
        Bump();
      }
    }

    method ParseQuoted() returns (r: Result<string, FilterError>)
      requires Valid()
      modifies this`pos
      ensures Valid()
      ensures match QuotedRest(old(Rest()), "")
              case Value(text, after) => r == Success(text) && Rest() == after
              case BadValue => r == Failure(Syntax)
    {
      var out := "";
      while pos < |input|
        invariant Valid() && QuotedRest(Rest(), out) == QuotedRest(old(Rest()), "")
        decreases |input| - pos
      {
        var c := input[pos];
        Bump();
        if c == '\'' {
          if !Peeks('\'') { return Success(out); }
          Bump();
        }
        out := out + [c];
      }
      return Failure(Syntax);
    }

    method ParseValue() returns (r: Result<string, FilterError>)
      requires Valid()
      modifies this`pos
      ensures Valid()
      ensures match ScanValue(old(Rest()))
              case Value(text, after) => r == Success(text) && Rest() == after
              case BadValue => r == Failure(Syntax)
    {
      if Peeks('\'') {
        Bump();
        r := ParseQuoted();
      } else {
        var start := pos;
        while pos < |input| && !IsDelim(input[pos])
          invariant start <= pos <= |input|
          invariant pos - start + BareLen(Rest()) == BareLen(old(Rest()))
          decreases |input| - pos
        {
          Bump();
        }
        if pos == start { return Failure(Syntax); }
        assert old(Rest())[..pos - start] == input[start..pos];
        return Success(input[start..pos]);
      }
    }

    method ParseOp() returns (op: Option<Op>)
      requires Valid()
      modifies this`pos
      ensures Valid()
      ensures MatchOp(old(Rest()), OPERATORS) == if op.Some? then Some((op.value, Rest())) else None
    {
      var i := 0;
      while i < |OPERATORS|
        invariant 0 <= i <= |OPERATORS| && pos == old(pos)
        invariant MatchOp(Rest(), OPERATORS) == MatchOp(Rest(), OPERATORS[i..])
      {
        var eaten := Eat(Wire(OPERATORS[i]));
        if eaten { return Some(OPERATORS[i]); }
        i := i + 1;
      }
      return None;
    }

    method ParseField() returns (field: string)
      requires Valid()
      modifies this`pos
      ensures Valid()
      ensures var n := IdentLen(old(Rest())); field == old(Rest())[..n] && Rest() == old(Rest())[n..]
    {
      var start := pos;
      while pos < |input| && IsIdentChar(input[pos])
        invariant start <= pos <= |input|
        invariant pos - start + IdentLen(Rest()) == IdentLen(old(Rest()))
        decreases |input| - pos
      {
        Bump();
      }
      field := input[start..pos];
    }

    method ParseOperand(field: string, op: Op) returns (r: Result<Node, FilterError>)
      requires Valid()
      modifies this`pos
      ensures Valid() && Agrees(r, ScanOperand(old(Rest()), field, op, check))
    {
      SkipBlanks();
      var value := ParseValue();
      if value.Failure? { return Failure(value.error); }
      var c := Condition(field, op, value.value);
      match check(c) {
        case Some(e) => return Failure(e);
        case None => return Success(Cmp(c));
      }
    }

    method ParseComparison() returns (r: Result<Node, FilterError>)
      requires Valid()
      modifies this`pos
      ensures Valid() && Agrees(r, ScanComparison(old(Rest()), check))
    {
      SkipBlanks();
      var field := ParseField();
      if field == [] { return Failure(Syntax); }
      SkipBlanks();
      var op := ParseOp();
      if op == None { return Failure(Syntax); }
      r := ParseOperand(field, op.value);
    }

    method ParsePrimary() returns (r: Result<Node, FilterError>)
      requires Valid()
      modifies this`pos
      ensures Valid() && Agrees(r, ScanPrimary(old(Rest()), check))
      decreases |input| - pos, 0
    {
      SkipBlanks();
      if Peeks('(') {
        Bump();
        var inner := ParseOr();
        if inner.Failure? { return inner; }
        SkipBlanks();
        if !Peeks(')') { return Failure(Syntax); }
        Bump();
        return inner;
      } else {
        r := ParseComparison();
      }
    }

    method ParseAnd() returns (r: Result<Node, FilterError>)
      requires Valid()
      modifies this`pos
      ensures Valid() && Agrees(r, ScanAnd(old(Rest()), check))
      decreases |input| - pos, 1
    {
      var first := ParsePrimary();
      if first.Failure? { return first; }
      var left := first.value;
      while true
        invariant old(pos) < pos <= |input|
        invariant ScanAnd(old(Rest()), check) == AndLoop(Rest(), left, check)
        decreases |input| - pos
      {
        SkipBlanks();
        var more := EatSep(';', "and");
        if !more { return Success(left); }
        var right := ParsePrimary();
        if right.Failure? { return right; }
        left := And(left, right.value);
      }
    }

    method ParseOr() returns (r: Result<Node, FilterError>)
      requires Valid()
      modifies this`pos
      ensures Valid() && Agrees(r, ScanOr(old(Rest()), check))
      decreases |input| - pos, 2
    {
      var first := ParseAnd();
      if first.Failure? { return first; }
      var left := first.value;
      while true
        invariant old(pos) < pos <= |input|
        invariant ScanOr(old(Rest()), check) == OrLoop(Rest(), left, check)
        decreases |input| - pos
      {
        SkipBlanks();
        var more := EatSep(',', "or");
        if !more { return Success(left); }
        var right := ParseAnd();
        if right.Failure? { return right; }
        left := Or(left, right.value);
      }
    }
  }

  method ParseFilter(input: string, schema: Schema) returns (r: Result<Node, FilterError>)
    ensures r == Parse(input, schema)
  {
    var parser := new Parser(input, Checker(schema));
    r := parser.ParseOr();
    if r.Success? {
      parser.SkipBlanks();
      if parser.pos != |input| { r := Failure(Syntax); }
    }
  }
}
