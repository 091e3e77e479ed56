/**
  Parsed syntax and its layout in the parsed-syntax cache
  (crates/dm-compiler/src/lib.rs:1052-1405).
 */
module SyntaxRecords {
  import opened Wrappers
  import opened MachineIntegers
  import opened Codecs

  type Text = seq<byte>

  datatype Span = Span(start: nat, end: nat)

  datatype Indentation = Indentation(tabs: nat, spaces: nat)

  datatype TokenKind =
    | LineStart(tabs: nat, spaces: nat)
    | Newline
    | LineContinuation
    | Identifier(text: Text)
    | Number(text: Text)
    | String(text: Text)
    | RawString(text: Text)
    | TextBlock(text: Text)
    | Resource(text: Text)
    | Punctuation(scalar: nat)
    | Operator(text: Text)

  datatype Token = Token(kind: TokenKind, span: Span)

  datatype Parameter = Parameter(span: Span, tokens: seq<Token>)

  datatype SourceLine = SourceLine(indentation: Indentation, span: Span, tokens: seq<Token>)

  datatype DefinitionKind = Type | Procedure | ProcedureOverride | Verb | Variable | VariableOverride

  datatype Definition = Definition(
    path: seq<Text>,
    kind: DefinitionKind,
    parent: Option<nat>,
    indentation: Indentation,
    span: Span,
    header: seq<Token>,
    parameters: seq<Parameter>,
    body: seq<SourceLine>)

  datatype SyntaxFile = SyntaxFile(definitions: seq<Definition>)

  /** The readers of this cache set no limit of their own below the 64-bit length. */
  const UNLIMITED := U64_LIMIT

  function LengthCodec(): Codec<nat> {
    IntCodec(8)
  }

  // ---- spans and indentation ----

  function SpanFrom(t: (nat, nat)): Span { Span(t.0, t.1) }

  function SpanParts(s: Span): (nat, nat) { (s.start, s.end) }

  predicate Ordered(s: Span) { s.start <= s.end }

  function SpanCodec(): Codec<Span> {
    RefineCodec(MapCodec(PairCodec(LengthCodec(), LengthCodec()), SpanFrom, SpanParts), Ordered, Format)
  }

  lemma SpanLawful()
    ensures Lawful(SpanCodec())
  {
    IntLawful(8);
    PairLawful(LengthCodec(), LengthCodec());
    MapLawful(PairCodec(LengthCodec(), LengthCodec()), SpanFrom, SpanParts);
    RefineLawful(MapCodec(PairCodec(LengthCodec(), LengthCodec()), SpanFrom, SpanParts), Ordered, Format);
  }

  function IndentationFrom(t: (nat, nat)): Indentation { Indentation(t.0, t.1) }

  function IndentationParts(x: Indentation): (nat, nat) { (x.tabs, x.spaces) }

  function IndentationCodec(): Codec<Indentation> {
    MapCodec(PairCodec(LengthCodec(), LengthCodec()), IndentationFrom, IndentationParts)
  }

  lemma IndentationLawful()
    ensures Lawful(IndentationCodec())
  {
    IntLawful(8);
    PairLawful(LengthCodec(), LengthCodec());
    MapLawful(PairCodec(LengthCodec(), LengthCodec()), IndentationFrom, IndentationParts);
  }

  // ---- tokens ----

  function KindTag(k: TokenKind): byte {
    match k
    case LineStart(_, _) => 0
    case Newline => 1
    case LineContinuation => 2
    case Identifier(_) => 3
    case Number(_) => 4
    case String(_) => 5
    case RawString(_) => 6
    case TextBlock(_) => 7
    case Resource(_) => 8
    case Punctuation(_) => 9
    case Operator(_) => 10
  }

  predicate Textual(tag: byte) {
    3 <= tag <= 8 || tag == 10
  }

  function TextKind(tag: byte, text: Text): TokenKind {
    match tag
    case 3 => Identifier(text)
    case 4 => Number(text)
    case 5 => String(text)
    case 6 => RawString(text)
    case 7 => TextBlock(text)
    case 8 => Resource(text)
    case _ => Operator(text)
  }

  function TextOf(k: TokenKind): Text {
    match k
    case LineStart(_, _) | Newline | LineContinuation | Punctuation(_) => []
    case _ => k.text
  }

  function LineStartFrom(t: (nat, nat)): TokenKind { LineStart(t.0, t.1) }

  function LineStartParts(k: TokenKind): (nat, nat) { if k.LineStart? then (k.tabs, k.spaces) else (0, 0) }

  function PunctuationFrom(scalar: nat): TokenKind { Punctuation(scalar) }

  function ScalarOf(k: TokenKind): nat { if k.Punctuation? then k.scalar else 0 }

  /** Unicode scalar values: no surrogates, nothing above the last plane. */
  predicate IsScalar(c: nat) {
    c < 0xD800 || 0xE000 <= c < 0x11_0000
  }

  function KindBranch(utf8: Text -> bool, tag: byte): Codec<TokenKind> {
    if tag == 0 then MapCodec(PairCodec(LengthCodec(), LengthCodec()), LineStartFrom, LineStartParts)
    else if tag == 1 then ConstantCodec(Newline)
    else if tag == 2 then ConstantCodec(LineContinuation)
    else if tag == 9 then MapCodec(RefineCodec(IntCodec(4), IsScalar, Format), PunctuationFrom, ScalarOf)
    else if Textual(tag) then MapCodec(TextCodec(utf8, UNLIMITED), (text: Text) => TextKind(tag, text), TextOf)
    else NoCodec()
  }

  function KindCodec(utf8: Text -> bool): Codec<TokenKind> {
    TagCodec(KindTag, (tag: byte) => KindBranch(utf8, tag))
  }

  lemma KindBranchLawful(utf8: Text -> bool, tag: byte)
    ensures Lawful(KindBranch(utf8, tag))
  {
    IntLawful(8);
    PairLawful(LengthCodec(), LengthCodec());
    MapLawful(PairCodec(LengthCodec(), LengthCodec()), LineStartFrom, LineStartParts);
    ConstantLawful(Newline);
    ConstantLawful(LineContinuation);
    IntLawful(4);
    RefineLawful(IntCodec(4), IsScalar, Format);
    MapLawful(RefineCodec(IntCodec(4), IsScalar, Format), PunctuationFrom, ScalarOf);
    if Textual(tag) {
      TextLawful(utf8, UNLIMITED);
      MapLawful(TextCodec(utf8, UNLIMITED), (text: Text) => TextKind(tag, text), TextOf);
    }
    NoLawful<TokenKind>();
  }

  lemma MappedFits<A, B>(c: Codec<A>, make: A -> B, parts: B -> A, x: B)
    requires MapCodec(c, make, parts).fits(x)
    ensures make(parts(x)) == x
  {
  }

  lemma KindBranchTags(utf8: Text -> bool, tag: byte, k: TokenKind)
    requires KindBranch(utf8, tag).fits(k)
    ensures KindTag(k) == tag
  {
    hide MapCodec, PairCodec, RefineCodec, TextCodec, LengthCodec, IntCodec;
    if tag == 0 {
      MappedFits(PairCodec(LengthCodec(), LengthCodec()), LineStartFrom, LineStartParts, k);
    } else if tag == 9 {
      MappedFits(RefineCodec(IntCodec(4), IsScalar, Format), PunctuationFrom, ScalarOf, k);
    } else if Textual(tag) {
      MappedFits(TextCodec(utf8, UNLIMITED), (text: Text) => TextKind(tag, text), TextOf, k);
    }
  }

  lemma KindLawful(utf8: Text -> bool)
    ensures Lawful(KindCodec(utf8))
  {
    forall tag: byte
      ensures Lawful(KindBranch(utf8, tag))
    {
      KindBranchLawful(utf8, tag);
    }
    forall tag: byte, k | KindBranch(utf8, tag).fits(k)
      ensures KindTag(k) == tag
    {
      KindBranchTags(utf8, tag, k);
    }
    TagLawful(KindTag, (tag: byte) => KindBranch(utf8, tag));
  }

  function TokenFrom(t: (TokenKind, Span)): Token { Token(t.0, t.1) }

  function TokenParts(t: Token): (TokenKind, Span) { (t.kind, t.span) }

  function TokensCodec(utf8: Text -> bool): Codec<seq<Token>> {
    CountedCodec(MapCodec(PairCodec(KindCodec(utf8), SpanCodec()), TokenFrom, TokenParts), UNLIMITED)
  }

  lemma TokensLawful(utf8: Text -> bool)
    ensures Lawful(TokensCodec(utf8))
  {
    KindLawful(utf8); SpanLawful();
    PairLawful(KindCodec(utf8), SpanCodec());
    MapLawful(PairCodec(KindCodec(utf8), SpanCodec()), TokenFrom, TokenParts);
    CountedLawful(MapCodec(PairCodec(KindCodec(utf8), SpanCodec()), TokenFrom, TokenParts), UNLIMITED);
  }

  // ---- parameters and body lines ----

  function ParameterFrom(t: (Span, seq<Token>)): Parameter { Parameter(t.0, t.1) }

  function ParameterParts(x: Parameter): (Span, seq<Token>) { (x.span, x.tokens) }

  function ParametersCodec(utf8: Text -> bool): Codec<seq<Parameter>> {
    CountedCodec(MapCodec(PairCodec(SpanCodec(), TokensCodec(utf8)), ParameterFrom, ParameterParts), UNLIMITED)
  }

  lemma ParametersLawful(utf8: Text -> bool)
    ensures Lawful(ParametersCodec(utf8))
  {
    SpanLawful(); TokensLawful(utf8);
    PairLawful(SpanCodec(), TokensCodec(utf8));
    MapLawful(PairCodec(SpanCodec(), TokensCodec(utf8)), ParameterFrom, ParameterParts);
    CountedLawful(MapCodec(PairCodec(SpanCodec(), TokensCodec(utf8)), ParameterFrom, ParameterParts), UNLIMITED);
  }

  function LineFrom(t: (Indentation, (Span, seq<Token>))): SourceLine { SourceLine(t.0, t.1.0, t.1.1) }

  function LineParts(x: SourceLine): (Indentation, (Span, seq<Token>)) { (x.indentation, (x.span, x.tokens)) }

  function LineCodec(utf8: Text -> bool): Codec<SourceLine> {
    MapCodec(PairCodec(IndentationCodec(), PairCodec(SpanCodec(), TokensCodec(utf8))), LineFrom, LineParts)
  }

  function LinesCodec(utf8: Text -> bool): Codec<seq<SourceLine>> {
    CountedCodec(LineCodec(utf8), UNLIMITED)
  }

  lemma LinesLawful(utf8: Text -> bool)
    ensures Lawful(LinesCodec(utf8))
  {
    IndentationLawful(); SpanLawful(); TokensLawful(utf8);
    PairLawful(SpanCodec(), TokensCodec(utf8));
    PairLawful(IndentationCodec(), PairCodec(SpanCodec(), TokensCodec(utf8)));
    MapLawful(PairCodec(IndentationCodec(), PairCodec(SpanCodec(), TokensCodec(utf8))), LineFrom, LineParts);
    CountedLawful(LineCodec(utf8), UNLIMITED);
  }

  // ---- paths, kinds and parents of definitions ----

  predicate NonEmpty(path: seq<Text>) { path != [] }

  function PathCodec(utf8: Text -> bool): Codec<seq<Text>> {
    RefineCodec(CountedCodec(TextCodec(utf8, UNLIMITED), UNLIMITED), NonEmpty, Format)
  }

  lemma PathLawful(utf8: Text -> bool)
    ensures Lawful(PathCodec(utf8))
  {
    TextLawful(utf8, UNLIMITED);
    CountedLawful(TextCodec(utf8, UNLIMITED), UNLIMITED);
    RefineLawful(CountedCodec(TextCodec(utf8, UNLIMITED), UNLIMITED), NonEmpty, Format);
  }

  function DefinitionTag(k: DefinitionKind): byte {
    match k
    case Type => 0
    case Procedure => 1
    case ProcedureOverride => 2
    case Verb => 3
    case Variable => 4
    case VariableOverride => 5
  }

  function DefinitionBranch(tag: byte): Codec<DefinitionKind> {
    match tag
    case 0 => ConstantCodec(Type)
    case 1 => ConstantCodec(Procedure)
    case 2 => ConstantCodec(ProcedureOverride)
    case 3 => ConstantCodec(Verb)
    case 4 => ConstantCodec(Variable)
    case 5 => ConstantCodec(VariableOverride)
    case _ => NoCodec()
  }

  function DefinitionKindCodec(): Codec<DefinitionKind> {
    TagCodec(DefinitionTag, DefinitionBranch)
  }

  lemma DefinitionKindLawful()
    ensures Lawful(DefinitionKindCodec())
  {
    forall tag: byte
      ensures Lawful(DefinitionBranch(tag))
    {
      ConstantLawful(Type); ConstantLawful(Procedure); ConstantLawful(ProcedureOverride);
      ConstantLawful(Verb); ConstantLawful(Variable); ConstantLawful(VariableOverride);
      NoLawful<DefinitionKind>();
    }
    TagLawful(DefinitionTag, DefinitionBranch);
  }

  // ---- optional values ----

  function OptionTag<T>(x: Option<T>): byte { if x.None? then 0 else 1 }

  function OptionValue<T>(x: Option<T>, absent: T): T { if x.Some? then x.value else absent }

  function OptionBranch<T(==)>(c: Codec<T>, absent: T, tag: byte): Codec<Option<T>> {
    if tag == 0 then ConstantCodec(None)
    else if tag == 1 then MapCodec(c, (x: T) => Some(x), (x: Option<T>) => OptionValue(x, absent))
    else NoCodec()
  }

  /** A presence byte, then the value when present; `absent` only makes projections total. */
  function OptionCodec<T(==)>(c: Codec<T>, absent: T): Codec<Option<T>> {
    TagCodec(OptionTag, (tag: byte) => OptionBranch(c, absent, tag))
  }

  lemma OptionLawful<T(!new)>(c: Codec<T>, absent: T)
    requires Lawful(c)
    ensures Lawful(OptionCodec(c, absent))
  {
    forall tag: byte
      ensures Lawful(OptionBranch(c, absent, tag))
      ensures forall x :: OptionBranch(c, absent, tag).fits(x) ==> OptionTag(x) == tag
    {
      ConstantLawful<Option<T>>(None);
      MapLawful(c, (x: T) => Some(x), (x: Option<T>) => OptionValue(x, absent));
      NoLawful<Option<T>>();
    }
    TagLawful(OptionTag<T>, (tag: byte) => OptionBranch(c, absent, tag));
  }

  // ---- definitions and files ----

  type Head = (seq<Text>, (DefinitionKind, (Option<nat>, (Indentation, Span))))

  type Rest = (seq<Token>, (seq<Parameter>, seq<SourceLine>))

  function HeadCodec(utf8: Text -> bool): Codec<Head> {
    PairCodec(PathCodec(utf8), PairCodec(DefinitionKindCodec(),
      PairCodec(OptionCodec(LengthCodec(), 0), PairCodec(IndentationCodec(), SpanCodec()))))
  }

  function RestCodec(utf8: Text -> bool): Codec<Rest> {
    PairCodec(TokensCodec(utf8), PairCodec(ParametersCodec(utf8), LinesCodec(utf8)))
  }

  function DefinitionFrom(t: (Head, Rest)): Definition {
    Definition(t.0.0, t.0.1.0, t.0.1.1.0, t.0.1.1.1.0, t.0.1.1.1.1, t.1.0, t.1.1.0, t.1.1.1)
  }

  function DefinitionParts(d: Definition): (Head, Rest) {
    ((d.path, (d.kind, (d.parent, (d.indentation, d.span)))), (d.header, (d.parameters, d.body)))
  }

  function DefinitionCodec(utf8: Text -> bool): Codec<Definition> {
    MapCodec(PairCodec(HeadCodec(utf8), RestCodec(utf8)), DefinitionFrom, DefinitionParts)
  }

  /** A definition's parent stands earlier in the same file. */
  predicate ParentsEarlier(definitions: seq<Definition>) {
    forall i :: 0 <= i < |definitions| ==> definitions[i].parent.Some? ==> definitions[i].parent.value < i
  }

  function FileFrom(definitions: seq<Definition>): SyntaxFile { SyntaxFile(definitions) }

  function FileParts(f: SyntaxFile): seq<Definition> { f.definitions }

  function FileCodec(utf8: Text -> bool): Codec<SyntaxFile> {
    MapCodec(RefineCodec(CountedCodec(DefinitionCodec(utf8), UNLIMITED), ParentsEarlier, Format), FileFrom, FileParts)
  }

  lemma HeadLawful(utf8: Text -> bool)
    ensures Lawful(HeadCodec(utf8))
  {
    PathLawful(utf8); DefinitionKindLawful(); IndentationLawful(); SpanLawful();
    IntLawful(8);
    OptionLawful(LengthCodec(), 0);
    PairLawful(IndentationCodec(), SpanCodec());
    PairLawful(OptionCodec(LengthCodec(), 0), PairCodec(IndentationCodec(), SpanCodec()));
    PairLawful(DefinitionKindCodec(),
        PairCodec(OptionCodec(LengthCodec(), 0), PairCodec(IndentationCodec(), SpanCodec())));
    PairLawful(PathCodec(utf8), PairCodec(DefinitionKindCodec(),
      PairCodec(OptionCodec(LengthCodec(), 0), PairCodec(IndentationCodec(), SpanCodec()))));
  }

  lemma RestLawful(utf8: Text -> bool)
    ensures Lawful(RestCodec(utf8))
  {
    TokensLawful(utf8); ParametersLawful(utf8); LinesLawful(utf8);
    PairLawful(ParametersCodec(utf8), LinesCodec(utf8));
    PairLawful(TokensCodec(utf8), PairCodec(ParametersCodec(utf8), LinesCodec(utf8)));
  }

  lemma FileLawful(utf8: Text -> bool)
    ensures Lawful(FileCodec(utf8))
  {
    HeadLawful(utf8); RestLawful(utf8);
    PairLawful(HeadCodec(utf8), RestCodec(utf8));
    MapLawful(PairCodec(HeadCodec(utf8), RestCodec(utf8)), DefinitionFrom, DefinitionParts);
    var d := DefinitionCodec(utf8);
    CountedLawful(d, UNLIMITED);
    RefineLawful(CountedCodec(d, UNLIMITED), ParentsEarlier, Format);
    MapLawful(RefineCodec(CountedCodec(d, UNLIMITED), ParentsEarlier, Format), FileFrom, FileParts);
  }
}
