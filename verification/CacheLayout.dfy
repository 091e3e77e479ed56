/**
  The parsed-syntax cache byte by byte
  (crates/dm-compiler/src/lib.rs:814-815, 1052-1099, 1204-1336).
 */
module CacheLayout {
  import opened Wrappers
  import opened Codecs
  import opened SyntaxRecords
  import opened SyntaxCache
  import opened DatabaseFile
  import L = StoredLayout

  // ---- records ----

  function Two(a: nat, b: nat): seq<byte> {
    LittleEndian(8, a) + LittleEndian(8, b)
  }

  /** One tag for every kind of token, and then what it carries. */
  function KindBytes(k: TokenKind): seq<byte> {
    match k
    case LineStart(tabs, spaces) => [0] + Two(tabs, spaces)
    case Newline => [1]
    case LineContinuation => [2]
    case Identifier(text) => [3] + L.Run(text)
    case Number(text) => [4] + L.Run(text)
    case String(text) => [5] + L.Run(text)
    case RawString(text) => [6] + L.Run(text)
    case TextBlock(text) => [7] + L.Run(text)
    case Resource(text) => [8] + L.Run(text)
    case Punctuation(scalar) => [9] + LittleEndian(4, scalar)
    case Operator(text) => [10] + L.Run(text)
  }

  function TokenBytes(t: Token): seq<byte> {
    KindBytes(t.kind) + Two(t.span.start, t.span.end)
  }

  function TokenList(tokens: seq<Token>): seq<byte> {
    LittleEndian(8, |tokens|) + L.Joined(seq(|tokens|, i requires 0 <= i < |tokens| => TokenBytes(tokens[i])))
  }

  function ParameterBytes(p: Parameter): seq<byte> {
    Two(p.span.start, p.span.end) + TokenList(p.tokens)
  }

  function LineBytes(l: SourceLine): seq<byte> {
    Two(l.indentation.tabs, l.indentation.spaces) + (Two(l.span.start, l.span.end) + TokenList(l.tokens))
  }

  function PathBytes(path: seq<Text>): seq<byte> {
    LittleEndian(8, |path|) + L.Joined(seq(|path|, i requires 0 <= i < |path| => L.Run(path[i])))
  }

  function DefinitionKindByte(k: DefinitionKind): byte {
    match k
    case Type => 0
    case Procedure => 1
    case ProcedureOverride => 2
    case Verb => 3
    case Variable => 4
    case VariableOverride => 5
  }

  function ParentBytes(parent: Option<nat>): seq<byte> {
    if parent.None? then [0] else [1] + LittleEndian(8, parent.value)
  }

  function ParameterList(parameters: seq<Parameter>): seq<byte> {
    LittleEndian(8, |parameters|)
      + L.Joined(seq(|parameters|, i requires 0 <= i < |parameters| => ParameterBytes(parameters[i])))
  }

  function LineList(lines: seq<SourceLine>): seq<byte> {
    LittleEndian(8, |lines|) + L.Joined(seq(|lines|, i requires 0 <= i < |lines| => LineBytes(lines[i])))
  }

  function DefinitionBytes(d: Definition): seq<byte> {
    PathBytes(d.path)
      + ([DefinitionKindByte(d.kind)]
      + (ParentBytes(d.parent)
      + (Two(d.indentation.tabs, d.indentation.spaces) + Two(d.span.start, d.span.end))))
    + (TokenList(d.header) + (ParameterList(d.parameters) + LineList(d.body)))
  }

  function SyntaxBytes(definitions: seq<Definition>): seq<byte> {
    LittleEndian(8, |definitions|)
      + L.Joined(seq(|definitions|, i requires 0 <= i < |definitions| => DefinitionBytes(definitions[i])))
  }

  // ---- the codecs write these bytes ----

  lemma CountedWritten<T>(c: Codec<T>, limit: nat, items: seq<T>, bytes: seq<seq<byte>>)
    requires |bytes| == |items| && forall i :: 0 <= i < |items| ==> c.encode(items[i]) == bytes[i]
    ensures CountedCodec(c, limit).encode(items) == LittleEndian(8, |items|) + L.Joined(bytes)
  {
    L.AllJoin(c, items, bytes);
  }

  lemma MapWritten<A, B>(c: Codec<A>, build: A -> B, parts: B -> A, x: B)
    ensures MapCodec(c, build, parts).encode(x) == c.encode(parts(x))
  {
  }

  lemma RefineWritten<T>(c: Codec<T>, check: T -> bool, error: Error, x: T)
    ensures RefineCodec(c, check, error).encode(x) == c.encode(x)
  {
  }

  lemma TagWritten<T>(tag: T -> byte, branch: byte -> Codec<T>, x: T)
    ensures TagCodec(tag, branch).encode(x) == [tag(x)] + branch(tag(x)).encode(x)
  {
  }

  lemma TwoWritten(a: nat, b: nat)
    ensures PairCodec(LengthCodec(), LengthCodec()).encode((a, b)) == Two(a, b)
  {
    PairFields(LengthCodec(), LengthCodec(), (a, b));
  }

  lemma SpanWritten(s: Span)
    ensures SpanCodec().encode(s) == Two(s.start, s.end)
  {
    TwoWritten(s.start, s.end);
    MapWritten(PairCodec(LengthCodec(), LengthCodec()), SpanFrom, SpanParts, s);
  }

  lemma IndentationWritten(x: Indentation)
    ensures IndentationCodec().encode(x) == Two(x.tabs, x.spaces)
  {
    TwoWritten(x.tabs, x.spaces);
    MapWritten(PairCodec(LengthCodec(), LengthCodec()), IndentationFrom, IndentationParts, x);
  }

  lemma BranchWritten(utf8: Text -> bool, k: TokenKind)
    ensures [KindTag(k)] + KindBranch(utf8, KindTag(k)).encode(k) == KindBytes(k)
  {
    hide LittleEndian;
    match k
    case LineStart(tabs, spaces) =>
      TwoWritten(tabs, spaces);
      MapWritten(PairCodec(LengthCodec(), LengthCodec()), LineStartFrom, LineStartParts, k);
    case Newline => assert ConstantCodec(Newline).encode(k) == [];
    case LineContinuation => assert ConstantCodec(LineContinuation).encode(k) == [];
    case Punctuation(scalar) =>
      MapWritten(RefineCodec(IntCodec(4), IsScalar, Format), PunctuationFrom, ScalarOf, k);
    case _ =>
      MapWritten(TextCodec(utf8, UNLIMITED), (text: Text) => TextKind(KindTag(k), text), TextOf, k);
  }

  lemma KindWritten(utf8: Text -> bool, k: TokenKind)
    ensures KindCodec(utf8).encode(k) == KindBytes(k)
  {
    BranchWritten(utf8, k);
    hide KindBranch, KindBytes, KindTag;
    TagWritten(KindTag, (tag: byte) => KindBranch(utf8, tag), k);
  }

  lemma TokenWritten(utf8: Text -> bool, t: Token)
    ensures MapCodec(PairCodec(KindCodec(utf8), SpanCodec()), TokenFrom, TokenParts).encode(t) == TokenBytes(t)
  {
    KindWritten(utf8, t.kind);
    SpanWritten(t.span);
    hide KindCodec, SpanCodec, KindBytes, Two;
    PairFields(KindCodec(utf8), SpanCodec(), TokenParts(t));
    MapWritten(PairCodec(KindCodec(utf8), SpanCodec()), TokenFrom, TokenParts, t);
  }

  lemma TokensWritten(utf8: Text -> bool, tokens: seq<Token>)
    ensures TokensCodec(utf8).encode(tokens) == TokenList(tokens)
  {
    hide TokenBytes, PairCodec, MapCodec, CountedCodec, LittleEndian;
    var c := MapCodec(PairCodec(KindCodec(utf8), SpanCodec()), TokenFrom, TokenParts);
    forall i | 0 <= i < |tokens|
      ensures c.encode(tokens[i]) == TokenBytes(tokens[i])
    {
      TokenWritten(utf8, tokens[i]);
    }
    CountedWritten(c, UNLIMITED, tokens, seq(|tokens|, i requires 0 <= i < |tokens| => TokenBytes(tokens[i])));
  }

  lemma ParameterWritten(utf8: Text -> bool, p: Parameter)
    ensures MapCodec(PairCodec(SpanCodec(), TokensCodec(utf8)), ParameterFrom, ParameterParts).encode(p)
         == ParameterBytes(p)
  {
    TokensWritten(utf8, p.tokens);
    SpanWritten(p.span);
    hide TokensCodec, SpanCodec, TokenList, Two;
    PairFields(SpanCodec(), TokensCodec(utf8), ParameterParts(p));
    MapWritten(PairCodec(SpanCodec(), TokensCodec(utf8)), ParameterFrom, ParameterParts, p);
  }

  lemma ParametersWritten(utf8: Text -> bool, parameters: seq<Parameter>)
    ensures ParametersCodec(utf8).encode(parameters) == ParameterList(parameters)
  {
    hide ParameterBytes, PairCodec, MapCodec, CountedCodec, LittleEndian;
    var c := MapCodec(PairCodec(SpanCodec(), TokensCodec(utf8)), ParameterFrom, ParameterParts);
    forall i | 0 <= i < |parameters|
      ensures c.encode(parameters[i]) == ParameterBytes(parameters[i])
    {
      ParameterWritten(utf8, parameters[i]);
    }
    CountedWritten(c, UNLIMITED, parameters,
      seq(|parameters|, i requires 0 <= i < |parameters| => ParameterBytes(parameters[i])));
  }

  lemma LineWritten(utf8: Text -> bool, l: SourceLine)
    ensures LineCodec(utf8).encode(l) == LineBytes(l)
  {
    TokensWritten(utf8, l.tokens);
    SpanWritten(l.span);
    IndentationWritten(l.indentation);
    hide TokensCodec, SpanCodec, IndentationCodec, TokenList, Two;
    var inner := PairCodec(SpanCodec(), TokensCodec(utf8));
    PairFields(SpanCodec(), TokensCodec(utf8), LineParts(l).1);
    PairFields(IndentationCodec(), inner, LineParts(l));
    MapWritten(PairCodec(IndentationCodec(), inner), LineFrom, LineParts, l);
  }

  lemma LinesWritten(utf8: Text -> bool, lines: seq<SourceLine>)
    ensures LinesCodec(utf8).encode(lines) == LineList(lines)
  {
    hide LineBytes, LineCodec, CountedCodec, LittleEndian;
    forall i | 0 <= i < |lines|
      ensures LineCodec(utf8).encode(lines[i]) == LineBytes(lines[i])
    {
      LineWritten(utf8, lines[i]);
    }
    CountedWritten(LineCodec(utf8), UNLIMITED, lines,
      seq(|lines|, i requires 0 <= i < |lines| => LineBytes(lines[i])));
  }

  lemma PathWritten(utf8: Text -> bool, path: seq<Text>)
    ensures PathCodec(utf8).encode(path) == PathBytes(path)
  {
    CountedWritten(TextCodec(utf8, UNLIMITED), UNLIMITED, path,
      seq(|path|, i requires 0 <= i < |path| => L.Run(path[i])));
  }

  lemma DefinitionKindWritten(k: DefinitionKind)
    ensures DefinitionKindCodec().encode(k) == [DefinitionKindByte(k)]
  {
    TagWritten(DefinitionTag, DefinitionBranch, k);
  }

  lemma OptionWritten<T>(c: Codec<T>, absent: T, x: Option<T>)
    ensures OptionCodec(c, absent).encode(x) == if x.None? then [0] else [1] + c.encode(x.value)
  {
    TagWritten(OptionTag<T>, (tag: byte) => OptionBranch(c, absent, tag), x);
  }

  lemma HeadWritten(utf8: Text -> bool, d: Definition)
    ensures HeadCodec(utf8).encode(DefinitionParts(d).0) ==
        PathBytes(d.path)
          + ([DefinitionKindByte(d.kind)]
          + (ParentBytes(d.parent)
          + (Two(d.indentation.tabs, d.indentation.spaces) + Two(d.span.start, d.span.end))))
  {
    PathWritten(utf8, d.path);
    DefinitionKindWritten(d.kind);
    OptionWritten(LengthCodec(), 0, d.parent);
    IndentationWritten(d.indentation);
    SpanWritten(d.span);
    var t := DefinitionParts(d).0;
    var kind, parent := DefinitionKindCodec(), OptionCodec(LengthCodec(), 0);
    var place, span := IndentationCodec(), SpanCodec();
    hide PathCodec, DefinitionKindCodec, OptionCodec, IndentationCodec, SpanCodec, PathBytes, Two;
    PairFields(place, span, t.1.1.1);
    PairFields(parent, PairCodec(place, span), t.1.1);
    PairFields(kind, PairCodec(parent, PairCodec(place, span)), t.1);
    PairFields(PathCodec(utf8), PairCodec(kind, PairCodec(parent, PairCodec(place, span))), t);
  }

  lemma RestWritten(utf8: Text -> bool, d: Definition)
    ensures RestCodec(utf8).encode(DefinitionParts(d).1) ==
        TokenList(d.header) + (ParameterList(d.parameters) + LineList(d.body))
  {
    TokensWritten(utf8, d.header);
    ParametersWritten(utf8, d.parameters);
    LinesWritten(utf8, d.body);
    hide TokensCodec, ParametersCodec, LinesCodec, TokenList, ParameterList, LineList;
    var t := DefinitionParts(d).1;
    PairFields(ParametersCodec(utf8), LinesCodec(utf8), t.1);
    PairFields(TokensCodec(utf8), PairCodec(ParametersCodec(utf8), LinesCodec(utf8)), t);
  }

  lemma DefinitionWritten(utf8: Text -> bool, d: Definition)
    ensures DefinitionCodec(utf8).encode(d) == DefinitionBytes(d)
  {
    HeadWritten(utf8, d);
    RestWritten(utf8, d);
    hide HeadCodec, RestCodec, PathBytes, ParentBytes, Two, TokenList, ParameterList, LineList;
    PairFields(HeadCodec(utf8), RestCodec(utf8), DefinitionParts(d));
    MapWritten(PairCodec(HeadCodec(utf8), RestCodec(utf8)), DefinitionFrom, DefinitionParts, d);
  }

  lemma SyntaxWritten(utf8: Text -> bool, f: SyntaxFile)
    ensures FileCodec(utf8).encode(f) == SyntaxBytes(f.definitions)
  {
    hide DefinitionBytes, DefinitionCodec, CountedCodec, LittleEndian;
    var definitions := f.definitions;
    forall i | 0 <= i < |definitions|
      ensures DefinitionCodec(utf8).encode(definitions[i]) == DefinitionBytes(definitions[i])
    {
      DefinitionWritten(utf8, definitions[i]);
    }
    CountedWritten(DefinitionCodec(utf8), UNLIMITED, definitions,
      seq(|definitions|, i requires 0 <= i < |definitions| => DefinitionBytes(definitions[i])));
    var counted := CountedCodec(DefinitionCodec(utf8), UNLIMITED);
    MapWritten(RefineCodec(counted, ParentsEarlier, Format), FileFrom, FileParts, f);
    RefineWritten(counted, ParentsEarlier, Format, FileParts(f));
    assert FileParts(f) == definitions;
  }

  // ---- the cache ----

  /** A fingerprint, then one byte: zero for a file without syntax, or one and the syntax. */
  function EntryBytes(fingerprint: nat, syntax: Option<SyntaxFile>): seq<byte> {
    LittleEndian(8, fingerprint) + if syntax.None? then [0] else [1] + SyntaxBytes(syntax.value.definitions)
  }

  lemma EntryWritten<E, D>(fe: Frontend<E, D>, fingerprint: nat, syntax: Option<SyntaxFile>)
    ensures EntryCodec(fe).encode((fingerprint, syntax)) == EntryBytes(fingerprint, syntax)
  {
    OptionWritten(FileCodec(fe.utf8), SyntaxFile([]), syntax);
    if syntax.Some? {
      SyntaxWritten(fe.utf8, syntax.value);
    }
    hide OptionCodec, FileCodec, SyntaxBytes, LittleEndian;
    PairFields(LengthCodec(), OptionCodec(FileCodec(fe.utf8), SyntaxFile([])), (fingerprint, syntax));
  }

  lemma MagicSpells()
    ensures |SYNTAX_MAGIC| == 23 && Spells(SYNTAX_MAGIC[..21], "DREAM64-PARSED-SYNTAX") && SYNTAX_MAGIC[21..] == [0, 2]
  {
  }

  lemma HeaderIs<E, D>(fe: Frontend<E, D>, count: nat)
    ensures var b := HeaderBytes(fe, count);
      && |b| == 39 && Spells(b[..21], "DREAM64-PARSED-SYNTAX") && b[21..23] == [0, 2]
      && b[23..31] == LittleEndian(8, fe.frontendFingerprint) && b[31..39] == LittleEndian(8, count)
  {
    MagicSpells();
    hide LittleEndian, Spells;
    ThreeParts(SYNTAX_MAGIC, LittleEndian(8, fe.frontendFingerprint), LittleEndian(8, count));
  }

  lemma ThreeParts(a: seq<byte>, b: seq<byte>, c: seq<byte>)
    requires |a| == 23 && |b| == 8 && |c| == 8
    ensures var all := a + b + c;
      && |all| == 39 && all[..21] == a[..21] && all[21..23] == a[21..] && all[23..31] == b && all[31..39] == c
  {
  }

  function EntryList<E, D>(fe: Frontend<E, D>, files: seq<ProjectFile>, table: seq<Option<SyntaxFile>>)
    : seq<seq<byte>>
    requires |files| == |table|
  {
    seq(|files|, i requires 0 <= i < |files| => EntryBytes(Fingerprint(fe, files[i]), table[i]))
  }

  /** Magic, a zero and the version two, the front end's fingerprint, the number of files, and an entry for each. */
  lemma CacheIs<E, D>(fe: Frontend<E, D>, files: seq<ProjectFile>, table: seq<Option<SyntaxFile>>)
    requires |files| == |table|
    ensures CacheBytes(fe, files, table) == HeaderBytes(fe, |files|) + L.Joined(EntryList(fe, files, table))
  {
    var bytes, entries := EntryList(fe, files, table), Entries(fe, files, table);
    hide EntryBytes, EntryCodec, HeaderBytes;
    forall i | 0 <= i < |files|
      ensures EntryCodec(fe).encode(entries[i]) == bytes[i]
    {
      EntryWritten(fe, entries[i].0, entries[i].1);
    }
    L.AllJoin(EntryCodec(fe), entries, bytes);
  }

  // ---- a clean parse ----

  /** A file's fingerprint covers its path and its text; a file without text has none. */
  lemma FingerprintIs<E, D>(fe: Frontend<E, D>, file: ProjectFile)
    ensures file.text.Some? ==> Fingerprint(fe, file) == fe.hash(file.path, file.text.value)
    ensures file.text.None? ==> Fingerprint(fe, file) == 0
  {
  }

  /** Environment and source files are parsed where there is text; others have neither syntax nor diagnostics. */
  lemma CleanParseIs<E, D>(fe: Frontend<E, D>, file: ProjectFile)
    ensures file.kind == Other || file.text.None? ==> ParseFile(fe, file) == (None, [])
    ensures file.kind != Other && file.text.Some? ==>
        ParseFile(fe, file) == match fe.parse(file.text.value)
          case Success(syntax) => (Some(syntax), [])
          case Failure(error) => (None, [fe.report(file, error)])
  {
  }
}
