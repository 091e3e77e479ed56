/**
  Values and operators of constant initializers
  (crates/dm-globals/src/constant.rs:10-114, 350-489). Binary32 numbers are
  opaque bit patterns: every arithmetic operation on them is a parameter.
 */
module ConstantSemantics {
  import opened Wrappers

  type Bits = x: int | 0 <= x < 0x1_0000_0000

  datatype Value =
    | Null
    | Number(bits: Bits)
    | Text(text: string)
    | TypePath(path: string)
    | List(entries: seq<Entry>)

  datatype Entry = Positional(item: Value) | Associative(key: Value, item: Value)

  datatype Category =
    | EmptyExpression
    | Name
    | Call
    | NewExpression
    | DynamicText
    | ResourceLiteral
    | UnsupportedOperator
    | TypeMismatch
    | DynamicExpression
    | InvalidSyntax
    | InvalidNumber

  datatype Token =
    | NumberToken(spelling: string)
    | StringToken(source: string)
    | TextBlockToken(source: string)
    | RawStringToken(source: string)
    | ResourceToken(source: string)
    | Identifier(name: string)
    | Operator(op: string)
    | Punctuation(mark: char)
    | Layout  // line starts, newlines and continuations

  /** Binary32 arithmetic and number spelling, uninterpreted. */
  datatype Arithmetic = Arithmetic(
    parse: string -> Option<Bits>,
    one: Bits,
    zero: Bits,
    nonZero: Bits -> bool,
    same: (Bits, Bits) -> bool,
    unary: (string, Bits) -> Bits,
    binary: (string, Bits, Bits) -> Bits)

  function Truth(ar: Arithmetic, b: bool): Value {
    Number(if b then ar.one else ar.zero)
  }

  predicate Truthy(ar: Arithmetic, v: Value) {
    match v
    case Null => false
    case Number(bits) => ar.nonZero(bits)
    case Text(text) => text != ""
    case TypePath(_) => true
    case List(_) => true
  }

  predicate SemanticEqual(ar: Arithmetic, left: Value, right: Value) {
    match (left, right)
    case (Null, Null) => true
    case (Number(a), Number(b)) => ar.same(a, b)
    case (Text(a), Text(b)) => a == b
    case (TypePath(a), TypePath(b)) => a == b
    case _ => false
  }

  const UNARY_OPERATORS := {"!", "~", "+", "-"}

  function EvaluateUnary(ar: Arithmetic, op: string, v: Value): Result<Value, Category> {
    if op == "!" then Success(Truth(ar, !Truthy(ar, v)))
    else if op !in UNARY_OPERATORS then Failure(UnsupportedOperator)
    else if v.Number? then Success(Number(ar.unary(op, v.bits)))
    else Failure(TypeMismatch)
  }

  function EvaluateBinary(ar: Arithmetic, op: string, left: Value, right: Value): Result<Value, Category> {
    if op == "&&" then Success(Truth(ar, Truthy(ar, left) && Truthy(ar, right)))
    else if op == "||" then Success(Truth(ar, Truthy(ar, left) || Truthy(ar, right)))
    else if op == "==" || op == "!=" then
      if left.List? || right.List? then Failure(TypeMismatch)
      else Success(Truth(ar, SemanticEqual(ar, left, right) == (op == "==")))
    else if Precedence(op).None? then Failure(UnsupportedOperator)
    else if left.Number? && right.Number? then Success(Number(ar.binary(op, left.bits, right.bits)))
    else Failure(TypeMismatch)
  }

  function Precedence(op: string): (p: Option<nat>)
    ensures p.Some? ==> 1 <= p.value <= 9
  {
    if op == "||" then Some(1)
    else if op == "&&" then Some(2)
    else if op == "|" then Some(3)
    else if op == "^" then Some(4)
    else if op == "&" then Some(5)
    else if op in {"==", "!="} then Some(6)
    else if op in {"<<", ">>", "<", "<=", ">", ">="} then Some(7)
    else if op in {"+", "-"} then Some(8)
    else if op in {"*", "/", "%"} then Some(9)
    else None
  }

  /** Interpolation and unknown escapes make text dynamic. */
  function DecodeText(text: string): Option<string> {
    if text == "" then Some("")
    else if text[0] == '[' then None
    else if text[0] != '\\' then Cons(text[0], DecodeText(text[1..]))
    else if |text| == 1 then None
    else
      match text[1]
      case 'n' => Cons('\n', DecodeText(text[2..]))
      case 'r' => Cons('\r', DecodeText(text[2..]))
      case 't' => Cons('\t', DecodeText(text[2..]))
      case '\\' => Cons('\\', DecodeText(text[2..]))
      case '"' => Cons('"', DecodeText(text[2..]))
      case '[' => Cons('[', DecodeText(text[2..]))
      case ']' => Cons(']', DecodeText(text[2..]))
      case _ => None
  }

  function Cons(c: char, tail: Option<string>): Option<string> {
    if tail.Some? then Some([c] + tail.value) else None
  }

  /** Tokens that are a whole operand by themselves. */
  predicate IsLiteral(t: Token) {
    || t.NumberToken? || t.StringToken? || t.TextBlockToken? || t.RawStringToken? || t.ResourceToken?
    || (t.Identifier? && t.name in {"null", "TRUE", "FALSE"})
  }

  function LiteralValue(ar: Arithmetic, t: Token): Result<Value, Category>
    requires IsLiteral(t)
  {
    match t
    case NumberToken(s) =>
      var bits := ar.parse(s);
      if bits.Some? then Success(Number(bits.value)) else Failure(InvalidNumber)
    case StringToken(s) => TextValue(s)
    case TextBlockToken(s) => TextValue(s)
    case RawStringToken(s) => Success(Text(s))
    case ResourceToken(_) => Failure(ResourceLiteral)
    case Identifier(name) => if name == "null" then Success(Null) else Success(Truth(ar, name == "TRUE"))
  }

  function TextValue(s: string): Result<Value, Category> {
    match DecodeText(s) case Some(text) => Success(Text(text)) case None => Failure(DynamicText)
  }

  function JoinPath(segments: seq<string>): string {
    if segments == [] then "" else "/" + segments[0] + JoinPath(segments[1..])
  }
}
