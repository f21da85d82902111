/** The vocabulary of the RSQL filter compiler: operators, column kinds, the boolean tree,
    and the check made on every comparison while parsing. */
module FilterSyntax {
  import opened Wrappers

  datatype Op = Eq | Neq | Gt | Gte | Lt | Lte | Ilike

  datatype Condition = Condition(field: string, op: Op, value: string)

  datatype Node =
    | Cmp(c: Condition)
    | And(left: Node, right: Node)
    | Or(left: Node, right: Node)

  datatype FilterError = Syntax | FieldNotAllowed

  datatype ColKind = Text | Date | Int

  datatype Schema = Schema(textFields: seq<string>, dateFields: seq<string>, intFields: seq<string>)
  {
    function KindOf(field: string): Option<ColKind> {
      if field in textFields then Some(Text)
      else if field in dateFields then Some(Date)
      else if field in intFields then Some(Int)
      else None
    }
  }

  // The wire form of an operator.
  function Wire(op: Op): string {
    match op
    case Eq => "=="
    case Neq => "!="
    case Gt => "=gt="
    case Gte => "=ge="
    case Lt => "=lt="
    case Lte => "=le="
    case Ilike => "=ilike="
  }

  // The order in which the parser tries the operators (longest first).
  const OPERATORS: seq<Op> := [Ilike, Gte, Lte, Gt, Lt, Neq, Eq]

  const COMPARABLE_OPS: seq<Op> := [Eq, Neq, Gt, Gte, Lt, Lte]
  const TEXT_OPS: seq<Op> := [Eq, Neq, Ilike]

  function KindOps(kind: ColKind): seq<Op> {
    match kind
    case Text => TEXT_OPS
    case Date => COMPARABLE_OPS
    case Int => COMPARABLE_OPS
  }

  // ---- Character classes ----

  predicate IsDigit(c: char) { '0' <= c <= '9' }

  predicate IsIdentChar(c: char) {
    'a' <= c <= 'z' || 'A' <= c <= 'Z' || IsDigit(c) || c == '_'
  }

  // The Unicode White_Space property: the ASCII blanks, and a table of ranges beyond ASCII.
  predicate IsWs(c: char) {
    c == ' ' || '\t' <= c <= '\r' || (c as int > 0x7F && InRanges(c as int, WIDE_SPACES))
  }

  const WIDE_SPACES: seq<(int, int)> :=
    [(0x85, 0x85), (0xA0, 0xA0), (0x1680, 0x1680), (0x2000, 0x200A), (0x2028, 0x2029),
     (0x202F, 0x202F), (0x205F, 0x205F), (0x3000, 0x3000)]

  predicate InRanges(n: int, ranges: seq<(int, int)>)
    decreases |ranges|, n
  {
    ranges != [] && (ranges[0].0 <= n <= ranges[0].1 || InRanges(n, ranges[1..]))
  }

  // Characters that end an unquoted value.
  predicate IsDelim(c: char) { c == ',' || c == ';' || c == '(' || c == ')' || IsWs(c) }

  predicate AllWs(s: string) { forall i :: 0 <= i < |s| ==> IsWs(s[i]) }

  predicate AllIdent(s: string) { forall i :: 0 <= i < |s| ==> IsIdentChar(s[i]) }

  // ---- Integers: the accepted texts of a signed 64-bit number ----

  const I64_MIN: int := -0x8000_0000_0000_0000
  const I64_MAX: int := 0x7FFF_FFFF_FFFF_FFFF

  function Digits(s: string): Option<nat> {
    if s == [] then Some(0)
    else
      var n := |s| - 1;
      if !IsDigit(s[n]) then None
      else match Digits(s[..n])
        case None => None
        case Some(v) => Some(10 * v + (s[n] as int - '0' as int))
  }

  // Optional sign, at least one digit, within range.
  function ParseI64(s: string): Option<int> {
    var negative := s != [] && s[0] == '-';
    var body := if s != [] && (s[0] == '-' || s[0] == '+') then s[1..] else s;
    if body == [] then None
    else match Digits(body)
      case None => None
      case Some(v) =>
        var n: int := if negative then -(v as int) else v;
        if I64_MIN <= n <= I64_MAX then Some(n) else None
  }

  // White list, kind x operator matrix and integer format, in that order; None when the comparison passes.
  function Validate(schema: Schema, c: Condition): Option<FilterError> {
    match schema.KindOf(c.field)
    case None => Some(FieldNotAllowed)
    case Some(kind) =>
      if c.op !in KindOps(kind) then Some(Syntax)
      else if kind == Int && ParseI64(c.value).None? then Some(Syntax)
      else None
  }

  // The parser only needs to know which comparisons are rejected, and how.
  type Check = Condition -> Option<FilterError>

  function Checker(schema: Schema): Check { c => Validate(schema, c) }

  // A comparison the parser can return.
  predicate Accepts(check: Check, c: Condition) {
    c.field != [] && AllIdent(c.field) && check(c) == None
  }

  predicate AcceptsAll(check: Check, n: Node) {
    match n
    case Cmp(c) => Accepts(check, c)
    case And(l, r) => AcceptsAll(check, l) && AcceptsAll(check, r)
    case Or(l, r) => AcceptsAll(check, l) && AcceptsAll(check, r)
  }
}
