/**
  The evaluator's fixed tables written out: which operator binds tighter, what
  each operator makes of which values, and how text is decoded
  (crates/dm-globals/src/constant.rs:62-70, 363-489).
 */
module ConstantLaws {
  import opened Wrappers
  import opened ConstantSemantics
  import opened ConstantGrammar
  import opened ConstantEvaluation

  /** The binary operators, loosest level first. */
  const LEVELS: seq<set<string>> := [
    {"||"},
    {"&&"},
    {"|"},
    {"^"},
    {"&"},
    {"==", "!="},
    {"<<", ">>", "<", "<=", ">", ">="},
    {"+", "-"},
    {"*", "/", "%"}]

  predicate AtLevel(op: string, level: nat) {
    level < |LEVELS| && op in LEVELS[level]
  }

  lemma LevelIsPrecedence(op: string, level: nat)
    requires AtLevel(op, level)
    ensures level < 9 && Precedence(op) == Some(level + 1)
  {
  }

  lemma OnlyLevels(op: string)
    requires forall level: nat :: !AtLevel(op, level)
    ensures Precedence(op).None?
  {
    if Precedence(op).Some? {
      assert AtLevel(op, Precedence(op).value - 1);
    }
  }

  // ---- chains of operands ----

  /** An operand that no neighbour can change: a literal, a list, a group, or one of them behind signs. */
  predicate Operand(e: Expr) {
    WellFormed(e) && !e.Binary? && !EndsInPath(e)
  }

  /** The tokens `x0 op0 x1 op1 ... xn`. */
  function Chain(operands: seq<Expr>, ops: seq<string>, after: Tokens): Tokens
    requires |operands| == |ops| + 1
  {
    if ops == [] then Print(operands[0], after)
    else Print(operands[0], More(Operator(ops[0]), Chain(operands[1..], ops[1..], after)))
  }

  /** Applies an operator to two results, the left failure first. */
  function Apply(ar: Arithmetic, op: string, left: Result<Value, Category>, right: Result<Value, Category>)
    : Result<Value, Category>
  {
    var l :- left;
    var r :- right;
    EvaluateBinary(ar, op, l, r)
  }

  ghost predicate Levelled(operands: seq<Expr>, ops: seq<string>, levels: seq<nat>) {
    && |operands| == |ops| + 1 == |levels| + 1
    && (forall i :: 0 <= i < |operands| ==> Operand(operands[i]))
    && forall i :: 0 <= i < |ops| ==> AtLevel(ops[i], levels[i])
  }

  /** The last of the loosest operators. */
  function Loosest(levels: seq<nat>): (k: nat)
    requires levels != []
    ensures k < |levels|
    ensures forall i :: 0 <= i < |levels| ==> levels[k] <= levels[i]
    ensures forall i :: k < i < |levels| ==> levels[k] < levels[i]
  {
    if |levels| == 1 then 0
    else
      var k := Loosest(levels[1..]) + 1;
      assert forall i :: 0 < i < |levels| ==> levels[i] == levels[1..][i - 1];
      if levels[0] < levels[k] then 0 else k
  }

  lemma {:induction false} ChainSplits(operands: seq<Expr>, ops: seq<string>, after: Tokens, k: nat)
    requires |operands| == |ops| + 1 && k < |ops|
    ensures Chain(operands, ops, after) ==
        Chain(operands[..k + 1], ops[..k], More(Operator(ops[k]), Chain(operands[k + 1..], ops[k + 1..], after)))
  {
    if k > 0 {
      ChainSplits(operands[1..], ops[1..], after, k - 1);
      assert operands[1..][..k] == operands[..k + 1][1..] && ops[1..][..k - 1] == ops[..k][1..];
      assert operands[1..][k..] == operands[k + 1..] && ops[1..][k..] == ops[k + 1..];
    }
  }

  /** A chain is the writing of a well-formed tree at least as tight as all its operators. */
  lemma {:induction false} ChainIsWritten(operands: seq<Expr>, ops: seq<string>, levels: seq<nat>, minimum: nat)
    returns (e: Expr)
    requires Levelled(operands, ops, levels)
    requires minimum <= 9 && forall i :: 0 <= i < |levels| ==> minimum <= levels[i]
    ensures WellFormed(e) && Level(e) > minimum && !EndsInPath(e)
    ensures forall after :: Print(e, after) == Chain(operands, ops, after)
    decreases |ops|
  {
    if ops == [] {
      e := operands[0];
    } else {
      var k := Loosest(levels);
      e := SplitIsWritten(operands, ops, levels, k);
    }
  }

  lemma {:induction false} SplitIsWritten(operands: seq<Expr>, ops: seq<string>, levels: seq<nat>, k: nat)
    returns (e: Expr)
    requires Levelled(operands, ops, levels) && k < |ops|
    requires forall i :: 0 <= i < |ops| ==> levels[k] <= levels[i]
    requires forall i :: k < i < |ops| ==> levels[k] < levels[i]
    ensures WellFormed(e) && Level(e) == levels[k] + 1 && !EndsInPath(e)
    ensures forall after :: Print(e, after) == Chain(operands, ops, after)
    ensures e.Binary? && e.op == ops[k]
    ensures forall after :: Print(e.left, after) == Chain(operands[..k + 1], ops[..k], after)
    ensures forall after :: Print(e.right, after) == Chain(operands[k + 1..], ops[k + 1..], after)
    decreases |ops|, 0
  {
    LevelIsPrecedence(ops[k], levels[k]);
    var left := ChainIsWritten(operands[..k + 1], ops[..k], levels[..k], levels[k]);
    var right := ChainIsWritten(operands[k + 1..], ops[k + 1..], levels[k + 1..], levels[k] + 1);
    e := Binary(ops[k], left, right);
    forall after
      ensures Print(e, after) == Chain(operands, ops, after)
    {
      ChainSplits(operands, ops, after, k);
    }
  }

  /**
    The law of the levels: a chain means what its parts around the last of the
    loosest operators mean, put together by that operator.
   */
  lemma ChainMeansSplit(ar: Arithmetic, operands: seq<Expr>, ops: seq<string>, levels: seq<nat>, k: nat)
    requires Levelled(operands, ops, levels) && k < |ops|
    requires forall i :: 0 <= i < |ops| ==> levels[k] <= levels[i]
    requires forall i :: k < i < |ops| ==> levels[k] < levels[i]
    ensures EvaluateConstant(ar, Chain(operands, ops, End)) ==
        Apply(ar, ops[k], EvaluateConstant(ar, Chain(operands[..k + 1], ops[..k], End)),
              EvaluateConstant(ar, Chain(operands[k + 1..], ops[k + 1..], End)))
  {
    hide EvaluateConstant, Chain, Print, EvaluateBinary, AtLevel;
    var e := SplitIsWritten(operands, ops, levels, k);
    EvaluationIsMeaning(ar, e);
    EvaluationIsMeaning(ar, e.left);
    EvaluationIsMeaning(ar, e.right);
  }

  function Pair(x: Expr, p: string, y: Expr): Tokens {
    Print(x, More(Operator(p), Print(y, End)))
  }

  function Triple(x: Expr, p: string, y: Expr, q: string, z: Expr): Tokens {
    Print(x, More(Operator(p), Print(y, More(Operator(q), Print(z, End)))))
  }

  lemma Joined(ar: Arithmetic, op: string, level: nat, left: Expr, right: Expr)
    requires AtLevel(op, level)
    requires WellFormed(left) && WellFormed(right) && !EndsInPath(left)
    requires Level(left) > level && Level(right) > level + 1
    ensures WellFormed(Binary(op, left, right)) && Level(Binary(op, left, right)) == level + 1
    ensures EndsInPath(Binary(op, left, right)) == EndsInPath(right)
    ensures EvaluateConstant(ar, Print(Binary(op, left, right), End)) ==
        Apply(ar, op, EvaluateConstant(ar, Print(left, End)), EvaluateConstant(ar, Print(right, End)))
  {
    hide EvaluateConstant, EvaluateBinary, Print, AtLevel;
    LevelIsPrecedence(op, level);
    EvaluationIsMeaning(ar, Binary(op, left, right));
    EvaluationIsMeaning(ar, left);
    EvaluationIsMeaning(ar, right);
  }

  /** `x p y q z` groups to the right exactly when `q` is on a tighter level than `p`. */
  lemma TighterOperatorFirst(ar: Arithmetic, x: Expr, p: string, y: Expr, q: string, z: Expr, i: nat, j: nat)
    requires Operand(x) && Operand(y) && Operand(z) && AtLevel(p, i) && AtLevel(q, j)
    ensures EvaluateConstant(ar, Triple(x, p, y, q, z)) ==
        if i < j
        then Apply(ar, p, EvaluateConstant(ar, Print(x, End)), EvaluateConstant(ar, Pair(y, q, z)))
        else Apply(ar, q, EvaluateConstant(ar, Pair(x, p, y)), EvaluateConstant(ar, Print(z, End)))
    ensures EvaluateConstant(ar, Pair(x, p, y)) ==
        Apply(ar, p, EvaluateConstant(ar, Print(x, End)), EvaluateConstant(ar, Print(y, End)))
  {
    hide EvaluateConstant, EvaluateBinary, AtLevel, WellFormed, EndsInPath, Apply;
    LevelIsPrecedence(p, i);
    LevelIsPrecedence(q, j);
    Joined(ar, p, i, x, y);
    Joined(ar, q, j, y, z);
    if i < j {
      Joined(ar, p, i, x, Binary(q, y, z));
    } else {
      Joined(ar, q, j, Binary(p, x, y), z);
    }
  }

  /** After a complete operand only an operator of some level goes on. */
  lemma TrailingTokenIsRefused(ar: Arithmetic, x: Expr, t: Token, after: Tokens)
    requires Operand(x) && EvaluateConstant(ar, Print(x, End)).Success?
    requires t.Operator? ==> forall level: nat :: !AtLevel(t.op, level)
    ensures EvaluateConstant(ar, Print(x, More(t, after))) == Failure(
        if t.Operator? then UnsupportedOperator
        else if t == Punctuation('[') then DynamicExpression
        else InvalidSyntax)
  {
    hide AtLevel, Print, ParseBinary;
    if t.Operator? {
      OnlyLevels(t.op);
    }
    EvaluationIsMeaning(ar, x);
    Head(x, More(t, after));
    BinaryEvaluates(ar, x, 1, More(t, after));
  }

  /** Nothing begins with an operator other than a sign or the slash of a path. */
  lemma OtherSignsAreRefused(ar: Arithmetic, op: string, after: Tokens)
    requires op !in {"!", "~", "+", "-", "/"}
    ensures EvaluateConstant(ar, More(Operator(op), after)) == Failure(UnsupportedOperator)
    ensures EvaluateConstant(ar, End) == Failure(EmptyExpression)
  {
    var ts := More(Operator(op), after);
    assert ParseUnary(ar, ts) == ParsePrimary(ar, ts);
    assert ParseBinary(ar, ts, 1).Failure?;
  }

  // ---- what the operators make of values ----

  /** The values that count as false, by constructor. */
  ghost predicate Falsy(ar: Arithmetic, v: Value) {
    || v == Null
    || v == Text("")
    || exists bits: Bits :: v == Number(bits) && !ar.nonZero(bits)
  }

  function Flag(ar: Arithmetic, b: bool): Result<Value, Category> {
    Success(Number(if b then ar.one else ar.zero))
  }

  lemma TruthTable(ar: Arithmetic, left: Value, right: Value)
    ensures EvaluateUnary(ar, "!", left) == Flag(ar, Falsy(ar, left))
    ensures EvaluateBinary(ar, "&&", left, right) == Flag(ar, !Falsy(ar, left) && !Falsy(ar, right))
    ensures EvaluateBinary(ar, "||", left, right) == Flag(ar, !(Falsy(ar, left) && Falsy(ar, right)))
  {
    forall v
      ensures Truthy(ar, v) <==> !Falsy(ar, v)
    {
    }
  }

  /** Lists are never compared; other values are equal when they are alike, numbers by their value. */
  lemma EqualityTable(ar: Arithmetic, left: Value, right: Value)
    ensures left.List? || right.List? ==>
        EvaluateBinary(ar, "==", left, right) == EvaluateBinary(ar, "!=", left, right) == Failure(TypeMismatch)
    ensures left.Number? && right.Number? ==>
        && EvaluateBinary(ar, "==", left, right) == Flag(ar, ar.same(left.bits, right.bits))
        && EvaluateBinary(ar, "!=", left, right) == Flag(ar, !ar.same(left.bits, right.bits))
    ensures !left.List? && !right.List? && !(left.Number? && right.Number?) ==>
        && EvaluateBinary(ar, "==", left, right) == Flag(ar, left == right)
        && EvaluateBinary(ar, "!=", left, right) == Flag(ar, left != right)
  {
  }

  /** All other operators want two numbers, and there are no operators outside the levels. */
  lemma NumericTable(ar: Arithmetic, op: string, left: Value, right: Value)
    ensures (exists level: nat :: 2 <= level && level != 5 && AtLevel(op, level)) ==>
        EvaluateBinary(ar, op, left, right) ==
        if left.Number? && right.Number?
        then Success(Number(ar.binary(op, left.bits, right.bits)))
        else Failure(TypeMismatch)
    ensures (forall level: nat :: !AtLevel(op, level)) ==>
        EvaluateBinary(ar, op, left, right) == Failure(UnsupportedOperator)
  {
    if level: nat :| 2 <= level && level != 5 && AtLevel(op, level) {
      LevelIsPrecedence(op, level);
      LevelsAreApart(op, level);
    } else if forall level: nat :: !AtLevel(op, level) {
      OnlyLevels(op);
      assert AtLevel("||", 0) && AtLevel("&&", 1) && AtLevel("==", 5) && AtLevel("!=", 5);
    }
  }

  lemma LevelsAreApart(op: string, level: nat)
    requires AtLevel(op, level) && 2 <= level && level != 5
    ensures op != "||" && op != "&&" && op != "==" && op != "!="
  {
    assert Precedence("||") == Some(1) && Precedence("&&") == Some(2);
    assert Precedence("==") == Some(6) && Precedence("!=") == Some(6);
    LevelIsPrecedence(op, level);
  }

  /** The signs: one of them before any operand, and what it makes of the operand's value. */
  lemma SignsEvaluate(ar: Arithmetic, op: string, x: Expr)
    requires Operand(x) && op in {"!", "~", "+", "-"}
    ensures Operand(Unary(op, x))
    ensures var v := EvaluateConstant(ar, Print(x, End));
      EvaluateConstant(ar, More(Operator(op), Print(x, End))) ==
      if v.Failure? then v
      else if op == "!" then Flag(ar, Falsy(ar, v.value))
      else if v.value.Number? then Success(Number(ar.unary(op, v.value.bits)))
      else Failure(TypeMismatch)
  {
    hide EvaluateConstant;
    EvaluationIsMeaning(ar, x);
    EvaluationIsMeaning(ar, Unary(op, x));
    var v := Meaning(ar, x);
    if v.Success? {
      TruthTable(ar, v.value, v.value);
    }
  }

  // ---- literals ----

  /** What each character stands for after a backslash. */
  const ESCAPES: map<char, char> := map[
    'n' := '\n', 'r' := '\r', 't' := '\t', '\\' := '\\', '"' := '"', '[' := '[', ']' := ']']

  datatype Piece = Bare(c: char) | Escaped(c: char)

  predicate Readable(p: Piece) {
    if p.Bare? then p.c != '\\' && p.c != '[' else p.c in ESCAPES
  }

  function Written(p: Piece): string {
    if p.Bare? then [p.c] else ['\\', p.c]
  }

  function Meant(p: Piece): char
    requires Readable(p)
  {
    if p.Bare? then p.c else ESCAPES[p.c]
  }

  function Source(pieces: seq<Piece>): string {
    if pieces == [] then ""
    else Written(pieces[0]) + Source(pieces[1..])
  }

  function Reading(pieces: seq<Piece>): string
    requires forall i :: 0 <= i < |pieces| ==> Readable(pieces[i])
  {
    seq(|pieces|, i requires 0 <= i < |pieces| =>
      assert Readable(pieces[i]);
      Meant(pieces[i]))
  }

  /** Text decodes exactly when it is made of plain characters and known escapes, and to their reading. */
  lemma {:induction false} DecodesIff(text: string, decoded: string)
    ensures DecodeText(text) == Some(decoded) <==>
        exists pieces: seq<Piece> ::
          && (forall i :: 0 <= i < |pieces| ==> Readable(pieces[i]))
          && Source(pieces) == text && Reading(pieces) == decoded
  {
    if DecodeText(text) == Some(decoded) {
      var pieces := Pieces(text);
    }
    forall pieces: seq<Piece> |
      && (forall i :: 0 <= i < |pieces| ==> Readable(pieces[i]))
      && Source(pieces) == text && Reading(pieces) == decoded
      ensures DecodeText(text) == Some(decoded)
    {
      SourceDecodes(pieces);
    }
  }

  lemma {:induction false} SourceDecodes(pieces: seq<Piece>)
    requires forall i :: 0 <= i < |pieces| ==> Readable(pieces[i])
    ensures DecodeText(Source(pieces)) == Some(Reading(pieces))
  {
    if pieces != [] {
      SourceDecodes(pieces[1..]);
      var p, rest := pieces[0], pieces[1..];
      assert Readable(p);
      assert Reading(pieces) == [Meant(p)] + Reading(rest);
      hide Source, Reading;
      assert Source(pieces) == Written(p) + Source(rest) by {
        SourceHead(pieces);
      }
      PieceDecodes(p, Source(rest));
    }
  }

  lemma SourceHead(pieces: seq<Piece>)
    requires pieces != []
    ensures Source(pieces) == Written(pieces[0]) + Source(pieces[1..])
  {
  }

  lemma PieceDecodes(p: Piece, rest: string)
    requires Readable(p)
    ensures DecodeText(Written(p) + rest) == Cons(Meant(p), DecodeText(rest))
  {
    var text := Written(p) + rest;
    if p.Bare? {
      assert text[1..] == rest;
    } else {
      assert text[2..] == rest;
    }
  }

  lemma {:induction false} Pieces(text: string) returns (pieces: seq<Piece>)
    requires DecodeText(text).Some?
    ensures forall i :: 0 <= i < |pieces| ==> Readable(pieces[i])
    ensures Source(pieces) == text && Some(Reading(pieces)) == DecodeText(text)
  {
    if text == "" {
      pieces := [];
    } else {
      var p := if text[0] == '\\' then Escaped(text[1]) else Bare(text[0]);
      var width := if p.Bare? then 1 else 2;
      var rest := Pieces(text[width..]);
      pieces := [p] + rest;
      assert pieces[1..] == rest;
      assert Source(pieces) == text;
    }
    SourceDecodes(pieces);
  }

  /** A literal alone: keywords, numbers, text and resources. */
  lemma LiteralsEvaluate(ar: Arithmetic, s: string)
    ensures EvaluateConstant(ar, More(Identifier("null"), End)) == Success(Null)
    ensures EvaluateConstant(ar, More(Identifier("TRUE"), End)) == Success(Number(ar.one))
    ensures EvaluateConstant(ar, More(Identifier("FALSE"), End)) == Success(Number(ar.zero))
    ensures EvaluateConstant(ar, More(NumberToken(s), End)) ==
        (match ar.parse(s) case Some(bits) => Success(Number(bits)) case None => Failure(InvalidNumber))
    ensures EvaluateConstant(ar, More(RawStringToken(s), End)) == Success(Text(s))
    ensures EvaluateConstant(ar, More(ResourceToken(s), End)) == Failure(ResourceLiteral)
    ensures EvaluateConstant(ar, More(StringToken(s), End)) == EvaluateConstant(ar, More(TextBlockToken(s), End))
    ensures EvaluateConstant(ar, More(StringToken(s), End)) ==
        (match DecodeText(s) case Some(text) => Success(Text(text)) case None => Failure(DynamicText))
  {
    hide EvaluateConstant, DecodeText;
    EvaluationIsMeaning(ar, Literal(Identifier("null")));
    EvaluationIsMeaning(ar, Literal(Identifier("TRUE")));
    EvaluationIsMeaning(ar, Literal(Identifier("FALSE")));
    EvaluationIsMeaning(ar, Literal(NumberToken(s)));
    EvaluationIsMeaning(ar, Literal(RawStringToken(s)));
    EvaluationIsMeaning(ar, Literal(ResourceToken(s)));
    EvaluationIsMeaning(ar, Literal(StringToken(s)));
    EvaluationIsMeaning(ar, Literal(TextBlockToken(s)));
  }

  /** Any other name is refused, except where it begins a list. */
  lemma NamesAreRefused(ar: Arithmetic, s: string, after: Tokens)
    requires s !in {"null", "TRUE", "FALSE"}
    requires !(s == "list" && At(after, Punctuation('(')))
    ensures EvaluateConstant(ar, More(Identifier(s), after)) == Failure(
        if s == "new" then NewExpression else if At(after, Punctuation('(')) then Call else Name)
  {
    var ts := More(Identifier(s), after);
    assert ParseUnary(ar, ts) == ParsePrimary(ar, ts);
    assert ParseBinary(ar, ts, 1).Failure?;
  }

  /** A type path is its segments, each after a slash. */
  lemma {:induction false} PathsEvaluate(ar: Arithmetic, front: seq<string>, last: string)
    ensures JoinPath([]) == "" && JoinPath(front + [last]) == JoinPath(front) + "/" + last
    ensures EvaluateConstant(ar, PrintPath(front + [last], End)) == Success(TypePath(JoinPath(front + [last])))
  {
    if front != [] {
      PathsEvaluate(ar, front[1..], last);
      assert (front + [last])[1..] == front[1..] + [last];
    }
    EvaluationIsMeaning(ar, Path(front + [last]));
  }
}
