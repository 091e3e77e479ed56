/**
  Which parsed files the syntax cache can carry
  (crates/dm-compiler/src/lib.rs:1101-1203, 1231-1262, 1274-1328).
 */
module CacheLimits {
  import opened Wrappers
  import opened Codecs
  import opened SyntaxRecords
  import opened DatabaseFile

  predicate Forward(s: Span) {
    s.start <= s.end
  }

  /** Ordered spans, and punctuation that is a character: not a surrogate and at most 10FFFF. */
  predicate SoundToken(t: Token) {
    && Forward(t.span)
    && (t.kind.Punctuation? ==>
          t.kind.scalar <= 0x10_FFFF && !(0xD800 <= t.kind.scalar <= 0xDFFF))
  }

  predicate SoundTokens(tokens: seq<Token>) {
    forall i :: 0 <= i < |tokens| ==> SoundToken(tokens[i])
  }

  predicate SoundParameter(p: Parameter) {
    Forward(p.span) && SoundTokens(p.tokens)
  }

  predicate SoundLine(l: SourceLine) {
    Forward(l.span) && SoundTokens(l.tokens)
  }

  predicate SoundDefinition(d: Definition) {
    && d.path != [] && Forward(d.span) && SoundTokens(d.header)
    && (forall i :: 0 <= i < |d.parameters| ==> SoundParameter(d.parameters[i]))
    && (forall i :: 0 <= i < |d.body| ==> SoundLine(d.body[i]))
  }

  lemma CountedValid<T>(c: Codec<T>, items: seq<T>)
    requires CountedCodec(c, UNLIMITED).fits(items)
    ensures AllHold(c.fits, items)
    ensures CountedCodec(c, UNLIMITED).valid(items) <==> AllHold(c.valid, items)
  {
  }

  lemma MapFits<A, B>(c: Codec<A>, build: A -> B, parts: B -> A, x: B)
    requires MapCodec(c, build, parts).fits(x)
    ensures c.fits(parts(x))
    ensures MapCodec(c, build, parts).valid(x) <==> c.valid(parts(x))
  {
  }

  lemma RefineFits<T>(c: Codec<T>, check: T -> bool, error: Error, x: T)
    requires RefineCodec(c, check, error).fits(x)
    ensures c.fits(x)
    ensures RefineCodec(c, check, error).valid(x) <==> c.valid(x) && check(x)
  {
  }

  lemma TagFits<T>(tag: T -> byte, branch: byte -> Codec<T>, x: T)
    requires TagCodec(tag, branch).fits(x)
    ensures branch(tag(x)).fits(x)
    ensures TagCodec(tag, branch).valid(x) <==> branch(tag(x)).valid(x)
  {
  }

  lemma TwoValid(t: (nat, nat))
    requires PairCodec(LengthCodec(), LengthCodec()).fits(t)
    ensures PairCodec(LengthCodec(), LengthCodec()).valid(t)
  {
    PairFields(LengthCodec(), LengthCodec(), t);
  }

  lemma SpanValid(s: Span)
    requires SpanCodec().fits(s)
    ensures SpanCodec().valid(s) <==> Forward(s)
  {
    var pair := PairCodec(LengthCodec(), LengthCodec());
    RefineFits(MapCodec(pair, SpanFrom, SpanParts), SyntaxRecords.Ordered, Format, s);
    MapFits(pair, SpanFrom, SpanParts, s);
    TwoValid(SpanParts(s));
  }

  lemma IndentationValid(x: Indentation)
    requires IndentationCodec().fits(x)
    ensures IndentationCodec().valid(x)
  {
    MapFits(PairCodec(LengthCodec(), LengthCodec()), IndentationFrom, IndentationParts, x);
    TwoValid(IndentationParts(x));
  }

  lemma BranchValid(utf8: Text -> bool, k: TokenKind)
    requires KindBranch(utf8, KindTag(k)).fits(k)
    ensures KindBranch(utf8, KindTag(k)).valid(k) <==>
      (k.Punctuation? ==> k.scalar <= 0x10_FFFF && !(0xD800 <= k.scalar <= 0xDFFF))
  {
    match k
    case LineStart(_, _) =>
      MapFits(PairCodec(LengthCodec(), LengthCodec()), LineStartFrom, LineStartParts, k);
      TwoValid(LineStartParts(k));
    case Newline =>
    case LineContinuation =>
    case Punctuation(scalar) =>
      MapFits(RefineCodec(IntCodec(4), IsScalar, Format), PunctuationFrom, ScalarOf, k);
      RefineFits(IntCodec(4), IsScalar, Format, scalar);
    case _ =>
      MapFits(TextCodec(utf8, UNLIMITED), (text: Text) => TextKind(KindTag(k), text), TextOf, k);
  }

  lemma TokenValid(utf8: Text -> bool, t: Token)
    requires MapCodec(PairCodec(KindCodec(utf8), SpanCodec()), TokenFrom, TokenParts).fits(t)
    ensures MapCodec(PairCodec(KindCodec(utf8), SpanCodec()), TokenFrom, TokenParts).valid(t) <==> SoundToken(t)
  {
    MapFits(PairCodec(KindCodec(utf8), SpanCodec()), TokenFrom, TokenParts, t);
    PairFields(KindCodec(utf8), SpanCodec(), TokenParts(t));
    hide SpanCodec, KindBranch, KindTag;
    TagFits(KindTag, (tag: byte) => KindBranch(utf8, tag), t.kind);
    BranchValid(utf8, t.kind);
    SpanValid(t.span);
  }

  lemma TokensValid(utf8: Text -> bool, tokens: seq<Token>)
    requires TokensCodec(utf8).fits(tokens)
    ensures TokensCodec(utf8).valid(tokens) <==> SoundTokens(tokens)
  {
    var c := MapCodec(PairCodec(KindCodec(utf8), SpanCodec()), TokenFrom, TokenParts);
    CountedValid(c, tokens);
    hide MapCodec, PairCodec, CountedCodec, SoundToken;
    forall i | 0 <= i < |tokens|
      ensures c.valid(tokens[i]) <==> SoundToken(tokens[i])
    {
      TokenValid(utf8, tokens[i]);
    }
  }

  lemma ParameterValid(utf8: Text -> bool, p: Parameter)
    requires MapCodec(PairCodec(SpanCodec(), TokensCodec(utf8)), ParameterFrom, ParameterParts).fits(p)
    ensures MapCodec(PairCodec(SpanCodec(), TokensCodec(utf8)), ParameterFrom, ParameterParts).valid(p) <==>
        SoundParameter(p)
  {
    MapFits(PairCodec(SpanCodec(), TokensCodec(utf8)), ParameterFrom, ParameterParts, p);
    PairFields(SpanCodec(), TokensCodec(utf8), ParameterParts(p));
    hide SpanCodec, TokensCodec, SoundTokens;
    SpanValid(p.span);
    TokensValid(utf8, p.tokens);
  }

  lemma ParametersValid(utf8: Text -> bool, parameters: seq<Parameter>)
    requires ParametersCodec(utf8).fits(parameters)
    ensures ParametersCodec(utf8).valid(parameters) <==>
      forall i :: 0 <= i < |parameters| ==> SoundParameter(parameters[i])
  {
    var c := MapCodec(PairCodec(SpanCodec(), TokensCodec(utf8)), ParameterFrom, ParameterParts);
    CountedValid(c, parameters);
    hide MapCodec, PairCodec, CountedCodec, SoundParameter;
    forall i | 0 <= i < |parameters|
      ensures c.valid(parameters[i]) <==> SoundParameter(parameters[i])
    {
      ParameterValid(utf8, parameters[i]);
    }
  }

  lemma LineValid(utf8: Text -> bool, l: SourceLine)
    requires LineCodec(utf8).fits(l)
    ensures LineCodec(utf8).valid(l) <==> SoundLine(l)
  {
    var inner := PairCodec(SpanCodec(), TokensCodec(utf8));
    MapFits(PairCodec(IndentationCodec(), inner), LineFrom, LineParts, l);
    PairFields(IndentationCodec(), inner, LineParts(l));
    PairFields(SpanCodec(), TokensCodec(utf8), LineParts(l).1);
    hide SpanCodec, TokensCodec, IndentationCodec, SoundTokens;
    IndentationValid(l.indentation);
    SpanValid(l.span);
    TokensValid(utf8, l.tokens);
  }

  lemma LinesValid(utf8: Text -> bool, lines: seq<SourceLine>)
    requires LinesCodec(utf8).fits(lines)
    ensures LinesCodec(utf8).valid(lines) <==> forall i :: 0 <= i < |lines| ==> SoundLine(lines[i])
  {
    CountedValid(LineCodec(utf8), lines);
    hide LineCodec, CountedCodec, SoundLine;
    forall i | 0 <= i < |lines|
      ensures LineCodec(utf8).valid(lines[i]) <==> SoundLine(lines[i])
    {
      LineValid(utf8, lines[i]);
    }
  }

  lemma PathValid(utf8: Text -> bool, path: seq<Text>)
    requires PathCodec(utf8).fits(path)
    ensures PathCodec(utf8).valid(path) <==> path != []
  {
    RefineFits(CountedCodec(TextCodec(utf8, UNLIMITED), UNLIMITED), NonEmpty, Format, path);
    CountedValid(TextCodec(utf8, UNLIMITED), path);
    assert forall i :: 0 <= i < |path| ==> TextCodec(utf8, UNLIMITED).fits(path[i]);
  }

  lemma OptionValid(parent: Option<nat>)
    requires OptionCodec(LengthCodec(), 0).fits(parent)
    ensures OptionCodec(LengthCodec(), 0).valid(parent)
  {
    TagFits(OptionTag<nat>, (tag: byte) => OptionBranch(LengthCodec(), 0, tag), parent);
  }

  lemma KindOfDefinitionValid(k: DefinitionKind)
    ensures DefinitionKindCodec().valid(k)
  {
    assert DefinitionBranch(DefinitionTag(k)).valid(k);
  }

  lemma HeadValid(utf8: Text -> bool, d: Definition)
    requires HeadCodec(utf8).fits(DefinitionParts(d).0)
    ensures HeadCodec(utf8).valid(DefinitionParts(d).0) <==> d.path != [] && Forward(d.span)
  {
    var t := DefinitionParts(d).0;
    var kind, parent := DefinitionKindCodec(), OptionCodec(LengthCodec(), 0);
    var place, span := IndentationCodec(), SpanCodec();
    PairFields(place, span, t.1.1.1);
    PairFields(parent, PairCodec(place, span), t.1.1);
    PairFields(kind, PairCodec(parent, PairCodec(place, span)), t.1);
    PairFields(PathCodec(utf8), PairCodec(kind, PairCodec(parent, PairCodec(place, span))), t);
    hide PathCodec, DefinitionKindCodec, OptionCodec, IndentationCodec, SpanCodec, PairCodec;
    PathValid(utf8, d.path);
    KindOfDefinitionValid(d.kind);
    OptionValid(d.parent);
    IndentationValid(d.indentation);
    SpanValid(d.span);
  }

  lemma RestValid(utf8: Text -> bool, d: Definition)
    requires RestCodec(utf8).fits(DefinitionParts(d).1)
    ensures RestCodec(utf8).valid(DefinitionParts(d).1) <==>
      && SoundTokens(d.header)
      && (forall i :: 0 <= i < |d.parameters| ==> SoundParameter(d.parameters[i]))
      && (forall i :: 0 <= i < |d.body| ==> SoundLine(d.body[i]))
  {
    var t := DefinitionParts(d).1;
    PairFields(ParametersCodec(utf8), LinesCodec(utf8), t.1);
    PairFields(TokensCodec(utf8), PairCodec(ParametersCodec(utf8), LinesCodec(utf8)), t);
    hide TokensCodec, ParametersCodec, LinesCodec, PairCodec, SoundTokens, SoundParameter, SoundLine;
    TokensValid(utf8, d.header);
    ParametersValid(utf8, d.parameters);
    LinesValid(utf8, d.body);
  }

  lemma DefinitionValid(utf8: Text -> bool, d: Definition)
    requires DefinitionCodec(utf8).fits(d)
    ensures DefinitionCodec(utf8).valid(d) <==> SoundDefinition(d)
  {
    hide HeadCodec, RestCodec, SoundTokens, SoundParameter, SoundLine, PairCodec, MapCodec;
    MapFits(PairCodec(HeadCodec(utf8), RestCodec(utf8)), DefinitionFrom, DefinitionParts, d);
    PairFields(HeadCodec(utf8), RestCodec(utf8), DefinitionParts(d));
    HeadValid(utf8, d);
    RestValid(utf8, d);
  }

  /** A parsed file can be carried exactly when its spans, names and punctuation are sound and parents come first. */
  lemma CarriedIff(utf8: Text -> bool, f: SyntaxFile)
    requires FileCodec(utf8).fits(f)
    ensures FileCodec(utf8).valid(f) <==>
      forall i :: 0 <= i < |f.definitions| ==>
        SoundDefinition(f.definitions[i]) &&
        (f.definitions[i].parent.Some? ==> f.definitions[i].parent.value < i)
  {
    hide DefinitionCodec, CountedCodec, MapCodec, RefineCodec, SoundDefinition;
    var counted := CountedCodec(DefinitionCodec(utf8), UNLIMITED);
    MapFits(RefineCodec(counted, ParentsEarlier, Format), FileFrom, FileParts, f);
    RefineFits(counted, ParentsEarlier, Format, f.definitions);
    CountedValid(DefinitionCodec(utf8), f.definitions);
    forall i | 0 <= i < |f.definitions|
      ensures DefinitionCodec(utf8).valid(f.definitions[i]) <==> SoundDefinition(f.definitions[i])
    {
      DefinitionValid(utf8, f.definitions[i]);
    }
  }
}
