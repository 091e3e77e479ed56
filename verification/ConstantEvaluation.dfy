/**
  The precedence-climbing evaluator (crates/dm-globals/src/constant.rs:116-328)
  as functions of the remaining tokens, and its agreement with the grammar.
 */
module ConstantEvaluation {
  import opened Wrappers
  import opened ConstantSemantics
  import opened ConstantGrammar

  /** What a parsing step computed and the tokens it left. */
  type Parsed<+T> = Result<(T, Tokens), Category>

  function Count(ts: Tokens): nat {
    if ts.End? then 0 else 1 + Count(ts.rest)
  }

  function ParseBinary(ar: Arithmetic, ts: Tokens, minimum: nat): (r: Parsed<Value>)
    ensures r.Success? ==> Count(r.value.1) < Count(ts)
    decreases Count(ts), 3
  {
    var operand :- ParseUnary(ar, ts);
    Climb(ar, operand.0, operand.1, minimum)
  }

  /** The loop of `parse_binary`: folds in operators at or above the minimum level. */
  function Climb(ar: Arithmetic, left: Value, ts: Tokens, minimum: nat): (r: Parsed<Value>)
    ensures r.Success? ==> Count(r.value.1) <= Count(ts)
    decreases Count(ts), 0
  {
    if NextLevel(ts) == 0 || NextLevel(ts) < minimum then Success((left, ts))
    else
      var right :- ParseBinary(ar, ts.rest, NextLevel(ts) + 1);
      var value :- EvaluateBinary(ar, ts.first.op, left, right.0);
      Climb(ar, value, right.1, minimum)
  }

  function ParseUnary(ar: Arithmetic, ts: Tokens): (r: Parsed<Value>)
    ensures r.Success? ==> Count(r.value.1) < Count(ts)
    decreases Count(ts), 2
  {
    if ts.More? && ts.first.Operator? && ts.first.op in UNARY_OPERATORS then
      var operand :- ParseUnary(ar, ts.rest);
      var value :- EvaluateUnary(ar, ts.first.op, operand.0);
      Success((value, operand.1))
    else ParsePrimary(ar, ts)
  }

  function ParsePrimary(ar: Arithmetic, ts: Tokens): (r: Parsed<Value>)
    ensures r.Success? ==> Count(r.value.1) < Count(ts)
    decreases Count(ts), 1
  {
    if ts.End? then Failure(InvalidSyntax)
    else if IsLiteral(ts.first) then
      var value :- LiteralValue(ar, ts.first);
      Success((value, ts.rest))
    else if ts.first.Identifier? then
      if ts.first.name == "new" then Failure(NewExpression)
      else if !At(ts.rest, OPEN) then Failure(Name)
      else if ts.first.name != "list" then Failure(Call)
      else
        assert Count(ts.rest) == 1 + Count(ts.rest.rest);
        var entries :- ParseItems(ar, ts.rest.rest);
        Success((List(entries.0), entries.1))
    else if ts.first == SLASH then
      if !BeginsWithName(ts.rest) then Failure(InvalidSyntax)
      else
        var (segments, rest) := ParsePath(ts.rest);
        Success((TypePath(JoinPath(segments)), rest))
    else if ts.first == OPEN then
      var inner :- ParseBinary(ar, ts.rest, 1);
      if At(inner.1, CLOSE) then Success((inner.0, inner.1.rest)) else Failure(InvalidSyntax)
    else if ts.first.Operator? then Failure(UnsupportedOperator)
    else Failure(InvalidSyntax)
  }

  predicate At(ts: Tokens, t: Token) {
    ts.More? && ts.first == t
  }

  /** Greedy: a `/name` directly after a path always belongs to it. */
  function ParsePath(ts: Tokens): (r: (seq<string>, Tokens))
    requires BeginsWithName(ts)
    ensures Count(r.1) < Count(ts)
  {
    if ContinuesPath(ts.rest) then
      var (segments, rest) := ParsePath(ts.rest.rest);
      ([ts.first.name] + segments, rest)
    else ([ts.first.name], ts.rest)
  }

  /** The loop of `parse_list`, up to and including the closing parenthesis. */
  function ParseItems(ar: Arithmetic, ts: Tokens): (r: Parsed<seq<Entry>>)
    ensures r.Success? ==> Count(r.value.1) < Count(ts)
    decreases Count(ts), 5
  {
    if At(ts, CLOSE) then Success(([], ts.rest))
    else
      var entry :- ParseItem(ar, ts);
      if At(entry.1, COMMA) then
        var more :- ParseItems(ar, entry.1.rest);
        Success(([entry.0] + more.0, more.1))
      else if At(entry.1, CLOSE) then Success(([entry.0], entry.1.rest))
      else Failure(InvalidSyntax)
  }

  function ParseItem(ar: Arithmetic, ts: Tokens): (r: Parsed<Entry>)
    ensures r.Success? ==> Count(r.value.1) < Count(ts)
    decreases Count(ts), 4
  {
    var first :- ParseBinary(ar, ts, 1);
    if At(first.1, Operator("=")) then
      var second :- ParseBinary(ar, first.1.rest, 1);
      Success((Associative(first.0, second.0), second.1))
    else Success((Positional(first.0), first.1))
  }

  function EvaluateConstant(ar: Arithmetic, ts: Tokens): Result<Value, Category> {
    if ts.End? then Failure(EmptyExpression)
    else
      var parsed :- ParseBinary(ar, ts, 1);
      if parsed.1.End? then Success(parsed.0)
      else if parsed.1.first.Operator? then Failure(UnsupportedOperator)
      else if parsed.1.first == Punctuation('[') then Failure(DynamicExpression)
      else Failure(InvalidSyntax)
  }

  // ---- every written tree evaluates to its meaning ----

  /** Levels of what follows decide where the climb for `e` stops. */
  predicate Follows(e: Expr, after: Tokens) {
    PathSafe(e, after) && NextLevel(after) <= Level(e)
  }

  function Continue(ar: Arithmetic, meaning: Result<Value, Category>, after: Tokens, minimum: nat): Parsed<Value> {
    match meaning
    case Success(v) => Climb(ar, v, after, minimum)
    case Failure(c) => Failure(c)
  }

  function Stop<T>(meaning: Result<T, Category>, after: Tokens): Parsed<T> {
    match meaning
    case Success(v) => Success((v, after))
    case Failure(c) => Failure(c)
  }

  lemma {:induction false} BinaryEvaluates(ar: Arithmetic, e: Expr, minimum: nat, after: Tokens)
    requires WellFormed(e) && 1 <= minimum <= Level(e) && Follows(e, after)
    ensures ParseBinary(ar, Print(e, after), minimum) == Continue(ar, Meaning(ar, e), after, minimum)
    decreases e, 1
  {
    if e.Binary? {
      var p := Precedence(e.op).value;
      Head(e.right, after);
      BinaryEvaluates(ar, e.left, minimum, More(Operator(e.op), Print(e.right, after)));
      BinaryEvaluates(ar, e.right, p + 1, after);
    } else {
      UnaryEvaluates(ar, e, after);
    }
  }

  lemma {:induction false} UnaryEvaluates(ar: Arithmetic, e: Expr, after: Tokens)
    requires WellFormed(e) && !e.Binary? && PathSafe(e, after)
    ensures ParseUnary(ar, Print(e, after)) == Stop(Meaning(ar, e), after)
    decreases e, 0
  {
    hide ParseBinary, ParseItems, PrintItems;
    match e
    case Unary(op, operand) => UnaryEvaluates(ar, operand, after);
    case Literal(t) =>
    case Path(segments) =>
      SegmentsParse(segments[0], segments[1..], after);
      assert [segments[0]] + segments[1..] == segments;
    case Group(inner) => BinaryEvaluates(ar, inner, 1, More(CLOSE, after));
    case ListOf(items, trailing) => ItemsEvaluate(ar, items, trailing, after);
  }

  lemma {:induction false} SegmentsParse(first: string, others: seq<string>, after: Tokens)
    requires !ContinuesPath(after)
    ensures ParsePath(More(Identifier(first), PrintPath(others, after))) == ([first] + others, after)
    decreases |others|
  {
    if others == [] {
      assert [first] + [] == [first];
    } else {
      SegmentsParse(others[0], others[1..], after);
      assert [others[0]] + others[1..] == others;
    }
  }

  lemma {:induction false} ItemsEvaluate(ar: Arithmetic, items: Items, trailing: bool, after: Tokens)
    requires WellFormedItems(items) && (trailing ==> items.Item?)
    ensures ParseItems(ar, PrintItems(items, Tail(trailing, after))) == Stop(ItemsMeaning(ar, items), after)
    decreases items, 2
  {
    match items
    case Nil =>
    case Item(slot, more) =>
      var tail := Tail(trailing, after);
      SlotEvaluates(ar, slot, if more.Nil? then tail else More(COMMA, PrintItems(more, tail)));
      if more.Item? {
        ItemsEvaluate(ar, more, trailing, after);
      } else if SlotMeaning(ar, slot).Success? {
        assert [SlotMeaning(ar, slot).value] + [] == [SlotMeaning(ar, slot).value];
      }
  }

  lemma {:induction false} SlotEvaluates(ar: Arithmetic, slot: Slot, after: Tokens)
    requires WellFormedItems(Item(slot, Nil))
    requires At(after, COMMA) || At(after, CLOSE)
    ensures !At(PrintSlot(slot, after), CLOSE)
    ensures ParseItem(ar, PrintSlot(slot, after)) == Stop(SlotMeaning(ar, slot), after)
    decreases slot, 3
  {
    hide ParseBinary, Print, Meaning;
    BinaryEvaluates(ar, slot.value, 1, after);
    Head(slot.value, after);
    if slot.Keyed? {
      var next := More(Operator("="), Print(slot.value, after));
      BinaryEvaluates(ar, slot.key, 1, next);
      Head(slot.key, next);
    }
  }

  // ---- everything accepted is a written tree ----

  /** `e` is what stood in front of `rest`, with nothing that would extend its last operand. */
  predicate Stands(ar: Arithmetic, e: Expr, minimum: nat, ts: Tokens, v: Value, rest: Tokens) {
    && WellFormed(e)
    && Level(e) >= minimum
    && Meaning(ar, e) == Success(v)
    && ts == Print(e, rest)
    && PathSafe(e, rest)
  }

  lemma {:induction false} BinaryIsWritten(ar: Arithmetic, ts: Tokens, minimum: nat) returns (e: Expr)
    requires 1 <= minimum <= 10
    requires ParseBinary(ar, ts, minimum).Success?
    ensures var (v, rest) := ParseBinary(ar, ts, minimum).value;
      Stands(ar, e, minimum, ts, v, rest) && NextLevel(rest) < minimum
    decreases Count(ts), 3
  {
    var operand := UnaryIsWritten(ar, ts);
    var (v, rest) := ParseUnary(ar, ts).value;
    e := ClimbIsWritten(ar, operand, v, rest, minimum);
  }

  lemma {:induction false} ClimbIsWritten(ar: Arithmetic, left: Expr, v: Value, ts: Tokens, minimum: nat)
    returns (e: Expr)
    requires 1 <= minimum <= 10
    requires Stands(ar, left, minimum, Print(left, ts), v, ts) && NextLevel(ts) <= Level(left)
    requires Climb(ar, v, ts, minimum).Success?
    ensures var (w, rest) := Climb(ar, v, ts, minimum).value;
      Stands(ar, e, minimum, Print(left, ts), w, rest) && NextLevel(rest) < minimum
    decreases Count(ts), 0
  {
    if NextLevel(ts) == 0 || NextLevel(ts) < minimum {
      e := left;
    } else {
      var p := NextLevel(ts);
      var right := BinaryIsWritten(ar, ts.rest, p + 1);
      var (rv, rest) := ParseBinary(ar, ts.rest, p + 1).value;
      Head(right, rest);
      e := ClimbIsWritten(ar, Binary(ts.first.op, left, right), EvaluateBinary(ar, ts.first.op, v, rv).value,
                          rest, minimum);
    }
  }

  lemma {:induction false} UnaryIsWritten(ar: Arithmetic, ts: Tokens) returns (e: Expr)
    requires ParseUnary(ar, ts).Success?
    ensures var (v, rest) := ParseUnary(ar, ts).value; Stands(ar, e, 10, ts, v, rest)
    decreases Count(ts), 2
  {
    if ts.first.Operator? && ts.first.op in UNARY_OPERATORS {
      var operand := UnaryIsWritten(ar, ts.rest);
      e := Unary(ts.first.op, operand);
    } else {
      e := PrimaryIsWritten(ar, ts);
    }
  }

  lemma {:induction false} PrimaryIsWritten(ar: Arithmetic, ts: Tokens) returns (e: Expr)
    requires ParsePrimary(ar, ts).Success?
    ensures var (v, rest) := ParsePrimary(ar, ts).value; Stands(ar, e, 10, ts, v, rest)
    decreases Count(ts), 1
  {
    if IsLiteral(ts.first) {
      e := Literal(ts.first);
    } else if ts.first.Identifier? {
      var items, trailing := ItemsAreWritten(ar, ts.rest.rest);
      e := ListOf(items, trailing);
    } else if ts.first == SLASH {
      PathIsWritten(ts.rest);
      e := Path(ParsePath(ts.rest).0);
    } else {
      var inner := BinaryIsWritten(ar, ts.rest, 1);
      e := Group(inner);
    }
  }

  lemma {:induction false} PathIsWritten(ts: Tokens)
    requires BeginsWithName(ts)
    ensures var (segments, rest) := ParsePath(ts);
      segments != [] && !ContinuesPath(rest) && More(SLASH, ts) == PrintPath(segments, rest)
  {
    var (segments, rest) := ParsePath(ts);
    if ContinuesPath(ts.rest) {
      PathIsWritten(ts.rest.rest);
      assert segments[1..] == ParsePath(ts.rest.rest).0;
    } else {
      assert segments[1..] == [];
    }
  }

  lemma {:induction false} ItemsAreWritten(ar: Arithmetic, ts: Tokens) returns (items: Items, trailing: bool)
    requires ParseItems(ar, ts).Success?
    ensures var (entries, rest) := ParseItems(ar, ts).value;
      && WellFormedItems(items) && (trailing ==> items.Item?)
      && ItemsMeaning(ar, items) == Success(entries)
      && ts == PrintItems(items, Tail(trailing, rest))
    decreases Count(ts), 5
  {
    if At(ts, CLOSE) {
      items, trailing := Nil, false;
    } else {
      var slot := SlotIsWritten(ar, ts);
      var (entry, after) := ParseItem(ar, ts).value;
      if At(after, COMMA) {
        var more, tail := ItemsAreWritten(ar, after.rest);
        items, trailing := Item(slot, more), tail || more.Nil?;
      } else {
        items, trailing := Item(slot, Nil), false;
        assert [entry] + [] == [entry];
      }
    }
  }

  lemma {:induction false} SlotIsWritten(ar: Arithmetic, ts: Tokens) returns (slot: Slot)
    requires ParseItem(ar, ts).Success?
    ensures var (entry, rest) := ParseItem(ar, ts).value;
      && WellFormedItems(Item(slot, Nil))
      && SlotMeaning(ar, slot) == Success(entry)
      && ts == PrintSlot(slot, rest)
    decreases Count(ts), 4
  {
    var first := BinaryIsWritten(ar, ts, 1);
    var (_, rest) := ParseBinary(ar, ts, 1).value;
    if At(rest, Operator("=")) {
      var second := BinaryIsWritten(ar, rest.rest, 1);
      slot := Keyed(first, second);
    } else {
      slot := Plain(first);
    }
  }

  // ---- main results ----

  /** Evaluating the written form of any tree gives its meaning, value or refusal alike. */
  lemma EvaluationIsMeaning(ar: Arithmetic, e: Expr)
    requires WellFormed(e)
    ensures EvaluateConstant(ar, Print(e, End)) == Meaning(ar, e)
  {
    Head(e, End);
    BinaryEvaluates(ar, e, 1, End);
  }

  /** `ts` is the written form of `e`, whose meaning is `v`. */
  predicate Denotes(ar: Arithmetic, e: Expr, ts: Tokens, v: Value) {
    WellFormed(e) && Print(e, End) == ts && Meaning(ar, e) == Success(v)
  }

  /** A token sequence is a constant exactly when it is the written form of a tree with that value. */
  lemma ConstantIffWritten(ar: Arithmetic, ts: Tokens, v: Value)
    ensures EvaluateConstant(ar, ts) == Success(v) <==> exists e :: Denotes(ar, e, ts, v)
  {
    if EvaluateConstant(ar, ts) == Success(v) {
      var e := BinaryIsWritten(ar, ts, 1);
      assert Denotes(ar, e, ts, v);
    }
    forall e | Denotes(ar, e, ts, v)
      ensures EvaluateConstant(ar, ts) == Success(v)
    {
      EvaluationIsMeaning(ar, e);
    }
  }

  /** Precedence, associativity and the path rule leave one reading of every token sequence. */
  lemma WritingIsUnambiguous(ar: Arithmetic, a: Expr, b: Expr)
    requires WellFormed(a) && WellFormed(b) && Print(a, End) == Print(b, End)
    ensures Meaning(ar, a) == Meaning(ar, b)
  {
    EvaluationIsMeaning(ar, a);
    EvaluationIsMeaning(ar, b);
  }
}
