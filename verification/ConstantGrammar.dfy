/**
  Expression trees of constant initializers, how they are written and what they
  mean, independently of any parser. Parentheses are part of the tree.
 */
module ConstantGrammar {
  import opened Wrappers
  import opened ConstantSemantics

  datatype Expr =
    | Literal(token: Token)
    | Path(segments: seq<string>)
    | ListOf(items: Items, trailingComma: bool)
    | Unary(op: string, operand: Expr)
    | Binary(op: string, left: Expr, right: Expr)
    | Group(inner: Expr)

  datatype Items = Nil | Item(entry: Slot, rest: Items)

  datatype Slot = Plain(value: Expr) | Keyed(key: Expr, value: Expr)

  /** The tokens from the cursor on. */
  datatype Tokens = End | More(first: Token, rest: Tokens)

  const SLASH := Operator("/")
  const OPEN := Punctuation('(')
  const CLOSE := Punctuation(')')
  const COMMA := Punctuation(',')

  // ---- writing ----

  /** The tokens of `e` followed by `after`. */
  function Print(e: Expr, after: Tokens): Tokens {
    match e
    case Literal(t) => More(t, after)
    case Path(segments) => PrintPath(segments, after)
    case ListOf(items, trailing) => More(Identifier("list"), More(OPEN, PrintItems(items, Tail(trailing, after))))
    case Unary(op, operand) => More(Operator(op), Print(operand, after))
    case Binary(op, l, r) => Print(l, More(Operator(op), Print(r, after)))
    case Group(inner) => More(OPEN, Print(inner, More(CLOSE, after)))
  }

  function PrintPath(segments: seq<string>, after: Tokens): Tokens {
    if segments == [] then after else More(SLASH, More(Identifier(segments[0]), PrintPath(segments[1..], after)))
  }

  function PrintItems(items: Items, after: Tokens): Tokens {
    match items
    case Nil => after
    case Item(slot, rest) => PrintSlot(slot, if rest.Nil? then after else More(COMMA, PrintItems(rest, after)))
  }

  function PrintSlot(slot: Slot, after: Tokens): Tokens {
    match slot
    case Plain(value) => Print(value, after)
    case Keyed(key, value) => Print(key, More(Operator("="), Print(value, after)))
  }

  /** What closes a list after its last item. */
  function Tail(trailing: bool, after: Tokens): Tokens {
    if trailing then More(COMMA, More(CLOSE, after)) else More(CLOSE, after)
  }

  // ---- meaning ----

  function Meaning(ar: Arithmetic, e: Expr): Result<Value, Category> {
    match e
    case Literal(t) => if IsLiteral(t) then LiteralValue(ar, t) else Failure(InvalidSyntax)
    case Path(segments) => Success(TypePath(JoinPath(segments)))
    case ListOf(items, _) =>
      var entries :- ItemsMeaning(ar, items);
      Success(List(entries))
    case Unary(op, operand) =>
      var v :- Meaning(ar, operand);
      EvaluateUnary(ar, op, v)
    case Binary(op, l, r) =>
      var left :- Meaning(ar, l);
      var right :- Meaning(ar, r);
      EvaluateBinary(ar, op, left, right)
    case Group(inner) => Meaning(ar, inner)
  }

  function ItemsMeaning(ar: Arithmetic, items: Items): Result<seq<Entry>, Category> {
    match items
    case Nil => Success([])
    case Item(slot, rest) =>
      var entry :- SlotMeaning(ar, slot);
      var entries :- ItemsMeaning(ar, rest);
      Success([entry] + entries)
  }

  function SlotMeaning(ar: Arithmetic, slot: Slot): Result<Entry, Category> {
    match slot
    case Plain(value) =>
      var v :- Meaning(ar, value);
      Success(Positional(v))
    case Keyed(key, value) =>
      var k :- Meaning(ar, key);
      var v :- Meaning(ar, value);
      Success(Associative(k, v))
  }

  // ---- which trees the written form stands for without ambiguity ----

  /** Nine binary levels; unary expressions bind tighter, operands tightest. */
  function Level(e: Expr): nat {
    match e
    case Binary(op, _, _) => if Precedence(op).Some? then Precedence(op).value else 0
    case _ => 10
  }

  /** The last operand is a bare type path, which would swallow a following `/name`. */
  predicate EndsInPath(e: Expr) {
    match e
    case Path(_) => true
    case Unary(_, operand) => EndsInPath(operand)
    case Binary(_, _, r) => EndsInPath(r)
    case _ => false
  }

  predicate WellFormed(e: Expr) {
    match e
    case Literal(t) => IsLiteral(t)
    case Path(segments) => segments != []
    case ListOf(items, trailing) => WellFormedItems(items) && (trailing ==> items.Item?)
    case Unary(op, operand) => op in UNARY_OPERATORS && WellFormed(operand) && Level(operand) == 10
    case Binary(op, l, r) =>
      && Precedence(op).Some?
      && WellFormed(l) && WellFormed(r)
      && Level(l) >= Precedence(op).value
      && Level(r) > Precedence(op).value
      && !(op == "/" && EndsInPath(l) && FirstToken(r).Identifier?)
    case Group(inner) => WellFormed(inner)
  }

  predicate WellFormedItems(items: Items) {
    match items
    case Nil => true
    case Item(Plain(value), rest) => WellFormed(value) && WellFormedItems(rest)
    case Item(Keyed(key, value), rest) => WellFormed(key) && WellFormed(value) && WellFormedItems(rest)
  }

  function FirstToken(e: Expr): Token {
    match e
    case Literal(t) => t
    case Path(_) => SLASH
    case ListOf(_, _) => Identifier("list")
    case Unary(op, _) => Operator(op)
    case Binary(_, l, _) => FirstToken(l)
    case Group(_) => OPEN
  }

  predicate BeginsWithName(ts: Tokens) {
    ts.More? && ts.first.Identifier?
  }

  /** `ts` would continue a type path that ends just before it. */
  predicate ContinuesPath(ts: Tokens) {
    ts.More? && ts.first == SLASH && BeginsWithName(ts.rest)
  }

  predicate PathSafe(e: Expr, after: Tokens) {
    EndsInPath(e) ==> !ContinuesPath(after)
  }

  /** Precedence of the operator `ts` begins with, 0 when there is none. */
  function NextLevel(ts: Tokens): (level: nat)
    ensures level <= 9
  {
    if ts.More? && ts.first.Operator? && Precedence(ts.first.op).Some? then Precedence(ts.first.op).value else 0
  }

  lemma {:induction false} Head(e: Expr, after: Tokens)
    requires WellFormed(e)
    ensures Print(e, after).More? && Print(e, after).first == FirstToken(e) != CLOSE
  {
    if e.Binary? {
      Head(e.left, More(Operator(e.op), Print(e.right, after)));
    }
  }

  // ---- every tree can be written ----

  /** Puts parentheses around every operand. */
  function Parenthesise(e: Expr): Expr {
    match e
    case Unary(op, operand) => Unary(op, Group(Parenthesise(operand)))
    case Binary(op, l, r) => Binary(op, Group(Parenthesise(l)), Group(Parenthesise(r)))
    case ListOf(items, trailing) => ListOf(ParenthesiseItems(items), trailing)
    case Group(inner) => Group(Parenthesise(inner))
    case _ => e
  }

  function ParenthesiseItems(items: Items): Items {
    match items
    case Nil => Nil
    case Item(Plain(value), rest) => Item(Plain(Parenthesise(value)), ParenthesiseItems(rest))
    case Item(Keyed(key, value), rest) => Item(Keyed(Parenthesise(key), Parenthesise(value)), ParenthesiseItems(rest))
  }

  /** Leaves and operators are known; nothing is asked of levels or paths. */
  predicate Sensible(e: Expr) {
    match e
    case Literal(t) => IsLiteral(t)
    case Path(segments) => segments != []
    case ListOf(items, trailing) => SensibleItems(items) && (trailing ==> items.Item?)
    case Unary(op, operand) => op in UNARY_OPERATORS && Sensible(operand)
    case Binary(op, l, r) => Precedence(op).Some? && Sensible(l) && Sensible(r)
    case Group(inner) => Sensible(inner)
  }

  predicate SensibleItems(items: Items) {
    match items
    case Nil => true
    case Item(Plain(value), rest) => Sensible(value) && SensibleItems(rest)
    case Item(Keyed(key, value), rest) => Sensible(key) && Sensible(value) && SensibleItems(rest)
  }

  /** So every sensible tree has a well-formed writing with the same meaning. */
  lemma {:induction false} ParenthesisedIsWellFormed(ar: Arithmetic, e: Expr)
    requires Sensible(e)
    ensures WellFormed(Parenthesise(e)) && Meaning(ar, Parenthesise(e)) == Meaning(ar, e)
  {
    match e
    case Unary(_, operand) => ParenthesisedIsWellFormed(ar, operand);
    case Binary(_, l, r) => ParenthesisedIsWellFormed(ar, l); ParenthesisedIsWellFormed(ar, r);
    case ListOf(items, _) => ParenthesisedItemsAreWellFormed(ar, items);
    case Group(inner) => ParenthesisedIsWellFormed(ar, inner);
    case _ =>
  }

  lemma {:induction false} ParenthesisedItemsAreWellFormed(ar: Arithmetic, items: Items)
    requires SensibleItems(items)
    ensures WellFormedItems(ParenthesiseItems(items)) &&
        ItemsMeaning(ar, ParenthesiseItems(items)) == ItemsMeaning(ar, items)
    ensures items.Item? ==> ParenthesiseItems(items).Item?
  {
    match items
    case Nil =>
    case Item(slot, rest) =>
      if slot.Keyed? {
        ParenthesisedIsWellFormed(ar, slot.key);
      }
      ParenthesisedIsWellFormed(ar, slot.value);
      ParenthesisedItemsAreWellFormed(ar, rest);
  }
}
