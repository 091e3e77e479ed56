/**
  The evaluator in the source's own shape: a cursor that advances over the
  token list (crates/dm-globals/src/constant.rs:116-328).
 */
module ConstantCursor {
  import opened Wrappers
  import opened ConstantSemantics
  import opened ConstantGrammar
  import E = ConstantEvaluation

  /** The tokens from index `i` on. */
  function From(tokens: seq<Token>, i: nat): Tokens
    requires i <= |tokens|
    decreases |tokens| - i
  {
    if i == |tokens| then End else More(tokens[i], From(tokens, i + 1))
  }

  class ConstantParser {
    const arithmetic: Arithmetic
    const tokens: seq<Token>
    var index: nat

    constructor (arithmetic: Arithmetic, tokens: seq<Token>)
      ensures this.arithmetic == arithmetic && this.tokens == tokens && index == 0
    {
      this.arithmetic, this.tokens, index := arithmetic, tokens, 0;
    }

    /** Tokens not yet consumed. */
    function Rest(): Tokens
      requires index <= |tokens|
      reads this
    {
      From(tokens, index)
    }

    predicate Current(t: Token)
      reads this
    {
      index < |tokens| && tokens[index] == t
    }

    /** The loop decides as `Climb` does. */
    lemma ClimbStep(left: Value, minimum: nat)
      requires index < |tokens| && tokens[index].Operator?
      ensures var p := Precedence(tokens[index].op);
        E.Climb(arithmetic, left, Rest(), minimum) ==
          if p.None? || p.value < minimum then Success((left, Rest()))
          else ClimbTurn(left, minimum)
    {
    }

    lemma ClimbEnds(left: Value, minimum: nat)
      requires index <= |tokens| && !(index < |tokens| && tokens[index].Operator?)
      ensures E.Climb(arithmetic, left, Rest(), minimum) == Success((left, Rest()))
    {
    }

    function ClimbTurn(left: Value, minimum: nat): E.Parsed<Value>
      requires index < |tokens| && tokens[index].Operator? && Precedence(tokens[index].op).Some?
      reads this
    {
      var right :- E.ParseBinary(arithmetic, Rest().rest, Precedence(tokens[index].op).value + 1);
      var value :- EvaluateBinary(arithmetic, tokens[index].op, left, right.0);
      E.Climb(arithmetic, value, right.1, minimum)
    }

    method ParseBinary(minimum: nat) returns (r: Result<Value, Category>)
      requires index <= |tokens|
      modifies this`index
      ensures old(index) <= index <= |tokens|
      ensures E.ParseBinary(arithmetic, old(Rest()), minimum) == E.Stop(r, Rest())
      ensures r.Success? ==> old(index) < index
      decreases |tokens| - index, 3
    {
      hide E.Climb, EvaluateBinary;
      ghost var goal := E.ParseBinary(arithmetic, Rest(), minimum);
      var left :- ParseUnary();
      assert goal == E.Climb(arithmetic, left, Rest(), minimum);
      while index < |tokens| && tokens[index].Operator?
        invariant old(index) < index <= |tokens|
        invariant goal == E.Climb(arithmetic, left, Rest(), minimum)
        decreases |tokens| - index
      {
        ClimbStep(left, minimum);
        var operator := tokens[index].op;
        var precedence := Precedence(operator);
        if precedence.None? || precedence.value < minimum {
          return Success(left);
        }
        index := index + 1;
        var right :- ParseBinary(precedence.value + 1);
        left :- EvaluateBinary(arithmetic, operator, left, right);
      }
      ClimbEnds(left, minimum);
      r := Success(left);
    }

    method ParseUnary() returns (r: Result<Value, Category>)
      requires index <= |tokens|
      modifies this`index
      ensures old(index) <= index <= |tokens|
      ensures E.ParseUnary(arithmetic, old(Rest())) == E.Stop(r, Rest())
      ensures r.Success? ==> old(index) < index
      decreases |tokens| - index, 2
    {
      if index < |tokens| && tokens[index].Operator? && tokens[index].op in UNARY_OPERATORS {
        var operator := tokens[index].op;
        index := index + 1;
        var operand :- ParseUnary();
        r := EvaluateUnary(arithmetic, operator, operand);
      } else {
        r := ParsePrimary();
      }
    }

    method ParsePrimary() returns (r: Result<Value, Category>)
      requires index <= |tokens|
      modifies this`index
      ensures old(index) <= index <= |tokens|
      ensures E.ParsePrimary(arithmetic, old(Rest())) == E.Stop(r, Rest())
      ensures r.Success? ==> old(index) < index
      decreases |tokens| - index, 1
    {
      if index == |tokens| {
        return Failure(InvalidSyntax);
      }
      var token := tokens[index];
      index := index + 1;
      if IsLiteral(token) {
        r := LiteralValue(arithmetic, token);
      } else if token.Identifier? {
        if token.name == "new" {
          r := Failure(NewExpression);
        } else if !Current(OPEN) {
          r := Failure(Name);
        } else if token.name == "list" {
          r := ParseList();
        } else {
          r := Failure(Call);
        }
      } else if token == SLASH {
        r := ParseTypePath();
      } else if token == OPEN {
        var value :- ParseBinary(1);
        if !Current(CLOSE) {
          return Failure(InvalidSyntax);
        }
        index := index + 1;
        r := Success(value);
      } else if token.Operator? {
        r := Failure(UnsupportedOperator);
      } else {
        r := Failure(InvalidSyntax);
      }
    }

    /** Reads the segments after the opening slash. */
    method ParseTypePath() returns (r: Result<Value, Category>)
      requires index <= |tokens|
      modifies this`index
      ensures old(index) <= index <= |tokens|
      ensures BeginsWithName(old(Rest())) ==>
                var path := E.ParsePath(old(Rest()));
                old(index) < index && Rest() == path.1 && r == Success(TypePath(JoinPath(path.0)))
      ensures !BeginsWithName(old(Rest())) ==> r == Failure(InvalidSyntax)
    {
      if index == |tokens| || !tokens[index].Identifier? {
        return Failure(InvalidSyntax);
      }
      var segments: seq<string> := [];
      ghost var path := E.ParsePath(Rest());
      ExtendNothing(path);
      while true
        invariant old(index) <= index < |tokens| && tokens[index].Identifier?
        invariant path == Extend(segments, E.ParsePath(Rest()))
        decreases |tokens| - index
      {
        ExtendStep(segments, Rest());
        LookAhead(tokens, index);
        segments := segments + [tokens[index].name];
        index := index + 1;
        if !(Current(SLASH) && index + 1 < |tokens| && tokens[index + 1].Identifier?) {
          break;
        }
        index := index + 1;
      }
      r := Success(TypePath(JoinPath(segments)));
    }

    /** Starts at the opening parenthesis of `list(`. */
    method ParseList() returns (r: Result<Value, Category>)
      requires Current(OPEN)
      modifies this`index
      ensures old(index) <= index <= |tokens|
      ensures match E.ParseItems(arithmetic, old(Rest()).rest)
              case Success(v) => r == Success(List(v.0)) && v.1 == Rest()
              case Failure(c) => r == Failure(c)
      decreases |tokens| - index, 6
    {
      hide E.ParseItems, E.ParseItem;
      index := index + 1;
      var entries: seq<Entry> := [];
      ghost var start := Rest();
      PrependNothing(E.ParseItems(arithmetic, start));
      while !Current(CLOSE)
        invariant old(index) < index <= |tokens|
        invariant E.ParseItems(arithmetic, start) == Prepend(entries, E.ParseItems(arithmetic, Rest()))
        decreases |tokens| - index
      {
        ItemsStep(arithmetic, entries, Rest());
        var entry :- ParseEntry();
        entries := entries + [entry];
        if Current(COMMA) {
          index := index + 1;
        } else if !Current(CLOSE) {
          return Failure(InvalidSyntax);
        }
      }
      ItemsDone(arithmetic, entries, Rest());
      index := index + 1;
      r := Success(List(entries));
    }

    method ParseEntry() returns (r: Result<Entry, Category>)
      requires index <= |tokens|
      modifies this`index
      ensures old(index) <= index <= |tokens|
      ensures E.ParseItem(arithmetic, old(Rest())) == E.Stop(r, Rest())
      ensures r.Success? ==> old(index) < index
      decreases |tokens| - index, 5
    {
      var first :- ParseBinary(1);
      if Current(Operator("=")) {
        index := index + 1;
        var second :- ParseBinary(1);
        r := Success(Associative(first, second));
      } else {
        r := Success(Positional(first));
      }
    }
  }

  lemma LookAhead(tokens: seq<Token>, i: nat)
    requires i < |tokens|
    ensures var more := i + 2 < |tokens| && tokens[i + 1] == SLASH && tokens[i + 2].Identifier?;
      && From(tokens, i).rest == From(tokens, i + 1)
      && (ContinuesPath(From(tokens, i + 1)) <==> more)
      && (more ==> From(tokens, i + 1).rest == From(tokens, i + 2))
  {
    if i + 2 < |tokens| {
      assert From(tokens, i + 2).More?;
    }
  }

  function Extend(segments: seq<string>, r: (seq<string>, Tokens)): (seq<string>, Tokens) {
    (segments + r.0, r.1)
  }

  lemma ExtendNothing(r: (seq<string>, Tokens))
    ensures Extend([], r) == r
  {
    assert [] + r.0 == r.0;
  }

  lemma ExtendStep(segments: seq<string>, ts: Tokens)
    requires BeginsWithName(ts)
    ensures Extend(segments, E.ParsePath(ts)) ==
      if ContinuesPath(ts.rest) then Extend(segments + [ts.first.name], E.ParsePath(ts.rest.rest))
      else (segments + [ts.first.name], ts.rest)
  {
    if ContinuesPath(ts.rest) {
      var rest := E.ParsePath(ts.rest.rest).0;
      assert segments + ([ts.first.name] + rest) == segments + [ts.first.name] + rest;
    }
  }

  function Prepend(entries: seq<Entry>, r: E.Parsed<seq<Entry>>): E.Parsed<seq<Entry>> {
    match r
    case Success(v) => Success((entries + v.0, v.1))
    case Failure(c) => Failure(c)
  }

  lemma PrependNothing(r: E.Parsed<seq<Entry>>)
    ensures Prepend([], r) == r
  {
    if r.Success? {
      assert [] + r.value.0 == r.value.0;
    }
  }

  /** One turn of the list loop: an entry, then a comma or the end of the list. */
  function ItemsTurn(ar: Arithmetic, entries: seq<Entry>, ts: Tokens): E.Parsed<seq<Entry>> {
    var v :- E.ParseItem(ar, ts);
    if E.At(v.1, COMMA) then Prepend(entries + [v.0], E.ParseItems(ar, v.1.rest))
    else if E.At(v.1, CLOSE) then Prepend(entries + [v.0], E.ParseItems(ar, v.1))
    else Failure(InvalidSyntax)
  }

  lemma PrependStep(entries: seq<Entry>, entry: Entry, r: E.Parsed<seq<Entry>>)
    ensures Prepend(entries, Prepend([entry], r)) == Prepend(entries + [entry], r)
  {
    if r.Success? {
      assert entries + ([entry] + r.value.0) == entries + [entry] + r.value.0;
    }
  }

  lemma ItemsStep(ar: Arithmetic, entries: seq<Entry>, ts: Tokens)
    requires !E.At(ts, CLOSE)
    ensures Prepend(entries, E.ParseItems(ar, ts)) == ItemsTurn(ar, entries, ts)
  {
    var item := E.ParseItem(ar, ts);
    if item.Success? && (E.At(item.value.1, COMMA) || E.At(item.value.1, CLOSE)) {
      var (entry, after) := item.value;
      var more := E.ParseItems(ar, if E.At(after, COMMA) then after.rest else after);
      PrependStep(entries, entry, more);
      assert [entry] + [] == [entry];
      assert E.ParseItems(ar, ts) == Prepend([entry], more);
    }
  }

  lemma ItemsDone(ar: Arithmetic, entries: seq<Entry>, ts: Tokens)
    requires E.At(ts, CLOSE)
    ensures Prepend(entries, E.ParseItems(ar, ts)) == Success((entries, ts.rest))
  {
    assert entries + [] == entries;
  }

  method EvaluateConstant(ar: Arithmetic, ts: seq<Token>) returns (r: Result<Value, Category>)
    ensures r == E.EvaluateConstant(ar, From(ts, 0))
  {
    if ts == [] {
      return Failure(EmptyExpression);
    }
    var parser := new ConstantParser(ar, ts);
    var value :- parser.ParseBinary(1);
    if parser.index == |ts| {
      r := Success(value);
    } else {
      match ts[parser.index]
      case Operator(_) => r := Failure(UnsupportedOperator);
      case Punctuation('[') => r := Failure(DynamicExpression);
      case _ => r := Failure(InvalidSyntax);
    }
  }
}
