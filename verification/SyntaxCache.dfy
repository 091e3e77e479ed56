/**
  The per-file parsed-syntax cache and its agreement with a clean parse
  (crates/dm-compiler/src/lib.rs:1040-1208, 1590-1638).
 */
module SyntaxCache {
  import opened Wrappers
  import opened MachineIntegers
  import opened Codecs
  import opened SyntaxRecords

  datatype FileKind = Environment | Source | Other

  /** A project file; `text` is the source the compiler sees after preprocessing, absent for data files. */
  datatype ProjectFile = ProjectFile(kind: FileKind, path: Text, contents: seq<byte>, text: Option<Text>)

  /**
    The foreign parts: the parser with its error type, how an error becomes a
    diagnostic, and the two hashes. Nothing is assumed of any of them.
   */
  datatype Frontend<!E, !D> = Frontend(
    utf8: Text -> bool,
    parse: Text -> Result<SyntaxFile, E>,
    report: (ProjectFile, E) -> D,
    hash: (Text, Text) -> nat,
    frontendFingerprint: nat)

  predicate SourceBearing(file: ProjectFile) {
    file.kind != Other
  }

  /** The loader keeps compiler text for every source-bearing file, and hashes are 64-bit. */
  ghost predicate Loaded<E, D>(fe: Frontend<E, D>, files: seq<ProjectFile>) {
    && |files| < U64_LIMIT
    && fe.frontendFingerprint < U64_LIMIT
    && (forall path, text :: fe.hash(path, text) < U64_LIMIT)
    && (forall i :: 0 <= i < |files| && SourceBearing(files[i]) ==> files[i].text.Some?)
  }

  function Fingerprint<E, D>(fe: Frontend<E, D>, file: ProjectFile): nat {
    if file.text.Some? then fe.hash(file.path, file.text.value) else 0
  }

  // ---- a clean parse ----

  type Parsed<D> = (Option<SyntaxFile>, seq<D>)

  function ParseOne<E, D>(fe: Frontend<E, D>, file: ProjectFile): Parsed<D> {
    if file.text.None? then (None, [])
    else
      match fe.parse(file.text.value)
      case Success(syntax) => (Some(syntax), [])
      case Failure(error) => (None, [fe.report(file, error)])
  }

  function ParseFile<E, D>(fe: Frontend<E, D>, file: ProjectFile): Parsed<D> {
    if SourceBearing(file) then ParseOne(fe, file) else (None, [])
  }

  function SyntaxTable<E, D>(fe: Frontend<E, D>, files: seq<ProjectFile>): seq<Option<SyntaxFile>> {
    seq(|files|, i requires 0 <= i < |files| => ParseFile(fe, files[i]).0)
  }

  function Diagnostics<E, D>(fe: Frontend<E, D>, files: seq<ProjectFile>): seq<D> {
    if files == [] then []
    else Diagnostics(fe, files[..|files| - 1]) + ParseFile(fe, files[|files| - 1]).1
  }

  /** Parses every source-bearing file in order. */
  method ParseProject<E, D>(fe: Frontend<E, D>, files: seq<ProjectFile>)
    returns (table: seq<Option<SyntaxFile>>, diagnostics: seq<D>)
    ensures table == SyntaxTable(fe, files) && diagnostics == Diagnostics(fe, files)
  {
    table, diagnostics := [], [];
    for i := 0 to |files|
      invariant |table| == i && forall k :: 0 <= k < i ==> table[k] == ParseFile(fe, files[k]).0
      invariant diagnostics == Diagnostics(fe, files[..i])
    {
      assert files[..i + 1][..i] == files[..i];
      var parsed := ParseFile(fe, files[i]);
      table, diagnostics := table + [parsed.0], diagnostics + parsed.1;
    }
    assert files[..|files|] == files;
  }

  // ---- writing the cache ----

  const SYNTAX_MAGIC: seq<byte> := [0x44, 0x52, 0x45, 0x41, 0x4D, 0x36, 0x34, 0x2D, 0x50, 0x41, 0x52, 0x53, 0x45, 0x44,
                             0x2D, 0x53, 0x59, 0x4E, 0x54, 0x41, 0x58, 0, 2]  // "DREAM64-PARSED-SYNTAX"

  type Entry = (nat, Option<SyntaxFile>)

  function EntryCodec<E, D>(fe: Frontend<E, D>): Codec<Entry> {
    PairCodec(LengthCodec(), OptionCodec(FileCodec(fe.utf8), SyntaxFile([])))
  }

  lemma EntryLawful<E, D>(fe: Frontend<E, D>)
    ensures Lawful(EntryCodec(fe))
  {
    IntLawful(8);
    FileLawful(fe.utf8);
    OptionLawful(FileCodec(fe.utf8), SyntaxFile([]));
    PairLawful(LengthCodec(), OptionCodec(FileCodec(fe.utf8), SyntaxFile([])));
  }

  function Entries<E, D>(fe: Frontend<E, D>, files: seq<ProjectFile>, table: seq<Option<SyntaxFile>>): seq<Entry>
    requires |files| == |table|
  {
    seq(|files|, i requires 0 <= i < |files| => (Fingerprint(fe, files[i]), table[i]))
  }

  function HeaderBytes<E, D>(fe: Frontend<E, D>, count: nat): seq<byte> {
    SYNTAX_MAGIC + LittleEndian(8, fe.frontendFingerprint) + LittleEndian(8, count)
  }

  function CacheBytes<E, D>(fe: Frontend<E, D>, files: seq<ProjectFile>, table: seq<Option<SyntaxFile>>): seq<byte>
    requires |files| == |table|
  {
    HeaderBytes(fe, |files|) + EncodeAll(EntryCodec(fe), Entries(fe, files, table))
  }

  method EncodeCache<E, D>(fe: Frontend<E, D>, files: seq<ProjectFile>, table: seq<Option<SyntaxFile>>)
    returns (bytes: seq<byte>)
    requires |files| == |table|
    ensures bytes == CacheBytes(fe, files, table)
  {
    bytes := AppendAll(EntryCodec(fe), Entries(fe, files, table), HeaderBytes(fe, |files|));
  }

  // ---- reading it against another project ----

  datatype Outcome<+D> = Outcome(table: seq<Option<SyntaxFile>>, diagnostics: seq<D>, exact: bool, reused: nat)

  /** What one cache entry gives for the file now at its place; `None` rejects the cache. */
  function Reuse<E, D>(fe: Frontend<E, D>, file: ProjectFile, entry: Entry): Option<Parsed<D>> {
    var matches := entry.0 == Fingerprint(fe, file);
    match entry.1
    case None =>
      if !SourceBearing(file) then Some((None, []))
      else if matches && ParseOne(fe, file).0.Some? then None
      else Some(ParseOne(fe, file))
    case Some(syntax) =>
      if !SourceBearing(file) then None
      else if matches then Some((Some(syntax), []))
      else Some(ParseOne(fe, file))
  }

  predicate Hit<E, D>(fe: Frontend<E, D>, file: ProjectFile, entry: Entry) {
    SourceBearing(file) && entry.0 == Fingerprint(fe, file) && entry.1.Some?
  }

  /** Files and entries in step, the last pair last. */
  function Merge<E, D>(fe: Frontend<E, D>, files: seq<ProjectFile>, entries: seq<Entry>): Option<Outcome<D>>
    requires |files| == |entries|
  {
    if files == [] then Some(Outcome([], [], true, 0))
    else
      var n := |files| - 1;
      Joined(fe, Merge(fe, files[..n], entries[..n]), files[n], entries[n])
  }

  function DecodeCache<E, D>(fe: Frontend<E, D>, bytes: seq<byte>, files: seq<ProjectFile>): Option<Outcome<D>> {
    var h := |SYNTAX_MAGIC| + 16;
    if |bytes| < h || bytes[..h] != HeaderBytes(fe, |files|) then None
    else MergeRead(fe, EntryCodec(fe), bytes[h..], files)
  }

  /** All entries, read to the end of the input, then merged with the files. */
  function MergeRead<E, D>(
      fe: Frontend<E, D>, c: Codec<Entry>, input: seq<byte>, files: seq<ProjectFile>): Option<Outcome<D>>
  {
    match DecodeMany(c, |files|, input)
    case Failure(_) => None
    case Success((entries, rest)) => if rest == [] then Merge(fe, files, entries) else None
  }

  method ReadCache<E, D>(fe: Frontend<E, D>, bytes: seq<byte>, files: seq<ProjectFile>) returns (r: Option<Outcome<D>>)
    ensures r == DecodeCache(fe, bytes, files)
  {
    var h := |SYNTAX_MAGIC| + 16;
    if |bytes| < h || bytes[..h] != HeaderBytes(fe, |files|) {
      return None;
    }
    r := ReadEntries(fe, EntryCodec(fe), bytes[h..], files);
  }

  /** The source's single pass: read an entry, decide about its file, go on. */
  method ReadEntries<E, D>(fe: Frontend<E, D>, c: Codec<Entry>, input: seq<byte>, files: seq<ProjectFile>)
    returns (r: Option<Outcome<D>>)
    ensures r == MergeRead(fe, c, input, files)
  {
    hide Joined, Merge, DecodeMany;
    var rest := input;
    ghost var entries: seq<Entry> := [];
    var outcome: Outcome<D> := Outcome([], [], true, 0);
    PrependNothing(DecodeMany(c, |files|, rest));
    MergeNothing(fe, files);
    for i := 0 to |files|
      invariant |entries| == i
      invariant DecodeMany(c, |files|, input) == Prepend(entries, DecodeMany(c, |files| - i, rest))
      invariant Merge(fe, files[..i], entries) == Some(outcome)
    {
      PrependStep(c, entries, |files| - i, rest);
      var next := c.decode(rest);
      if next.Failure? {
        return None;
      }
      var entry := next.value.0;
      rest := next.value.1;
      MergeStep(fe, files, entries, entry);
      entries := entries + [entry];
      var joined := Joined(fe, Some(outcome), files[i], entry);
      if joined.None? {
        RejectedForGood(fe, files, entries, DecodeMany(c, |files| - i - 1, rest));
        return None;
      }
      assert Joined(fe, Some(outcome), files[i], entry) == joined;
      outcome := joined.value;
    }
    assert files[..|files|] == files;
    PrependDone(c, entries, rest);
    r := if rest == [] then Some(outcome) else None;
  }

  lemma MergeNothing<E, D>(fe: Frontend<E, D>, files: seq<ProjectFile>)
    ensures Merge(fe, files[..0], []) == Some(Outcome([], [], true, 0))
  {
  }

  lemma RejectedForGood<E, D>(
      fe: Frontend<E, D>, files: seq<ProjectFile>, entries: seq<Entry>, tail: Reading<seq<Entry>>)
    requires |entries| <= |files|
    requires tail.Success? ==> |tail.value.0| == |files| - |entries|
    requires Merge(fe, files[..|entries|], entries).None?
    ensures Prepend(entries, tail).Success? ==> Merge(fe, files, Prepend(entries, tail).value.0).None?
  {
    if tail.Success? {
      var all := entries + tail.value.0;
      assert all[..|entries|] == entries;
      MergeStaysRejected(fe, files, all, |entries|);
    }
  }

  lemma MergeStep<E, D>(fe: Frontend<E, D>, files: seq<ProjectFile>, entries: seq<Entry>, entry: Entry)
    requires |entries| < |files|
    ensures var i := |entries|;
      Merge(fe, files[..i + 1], entries + [entry]) == Joined(fe, Merge(fe, files[..i], entries), files[i], entry)
  {
    var i := |entries|;
    assert files[..i + 1][..i] == files[..i] && (entries + [entry])[..i] == entries;
  }

  function Joined<E, D>(
      fe: Frontend<E, D>, before: Option<Outcome<D>>, file: ProjectFile, entry: Entry): Option<Outcome<D>>
  {
    var now := Reuse(fe, file, entry);
    if before.None? || now.None? then None
    else
      var o := before.value;
      Some(Outcome(
        o.table + [now.value.0],
        o.diagnostics + now.value.1,
        o.exact && entry.0 == Fingerprint(fe, file),
        o.reused + if Hit(fe, file, entry) then 1 else 0))
  }

  lemma {:induction false} MergeStaysRejected<E, D>(
      fe: Frontend<E, D>, files: seq<ProjectFile>, entries: seq<Entry>, i: nat)
    requires i <= |files| == |entries|
    requires Merge(fe, files[..i], entries[..i]).None?
    ensures Merge(fe, files, entries).None?
    decreases |files|
  {
    if i == |files| {
      assert files[..i] == files && entries[..i] == entries;
    } else {
      var n := |files| - 1;
      assert files[..n][..i] == files[..i] && entries[..n][..i] == entries[..i];
      MergeStaysRejected(fe, files[..n], entries[..n], i);
    }
  }

  // ---- main results ----

  /** Equal hashes of two versions of a source file mean equal compiler text. */
  ghost predicate HashesTell<E, D>(fe: Frontend<E, D>, before: seq<ProjectFile>, now: seq<ProjectFile>) {
    forall i :: 0 <= i < |before| && i < |now| ==> HashTells(fe, before[i], now[i])
  }

  predicate HashTells<E, D>(fe: Frontend<E, D>, before: ProjectFile, now: ProjectFile) {
    before.kind != Other && now.kind != Other && before.text.Some? && now.text.Some? &&
    fe.hash(before.path, before.text.value) == fe.hash(now.path, now.text.value) ==>
      before.text == now.text
  }

  ghost predicate FingerprintsTell<E, D>(fe: Frontend<E, D>, before: seq<ProjectFile>, now: seq<ProjectFile>) {
    forall i :: 0 <= i < |before| && i < |now| ==> FingerprintTells(fe, before[i], now[i])
  }

  predicate FingerprintTells<E, D>(fe: Frontend<E, D>, before: ProjectFile, now: ProjectFile) {
    SourceBearing(before) && SourceBearing(now) && Fingerprint(fe, before) == Fingerprint(fe, now) ==>
      before.text == now.text
  }

  lemma HashesAreFingerprints<E, D>(fe: Frontend<E, D>, before: seq<ProjectFile>, now: seq<ProjectFile>)
    requires Loaded(fe, before) && Loaded(fe, now) && HashesTell(fe, before, now)
    ensures FingerprintsTell(fe, before, now)
  {
    forall i | 0 <= i < |before| && i < |now|
      ensures FingerprintTells(fe, before[i], now[i])
    {
      assert HashTells(fe, before[i], now[i]);
    }
  }

  /** Parser output as it exists in memory: 64-bit lengths and offsets, UTF-8 text. */
  ghost predicate Representable<E, D>(fe: Frontend<E, D>, files: seq<ProjectFile>) {
    forall i :: 0 <= i < |files| && ParseFile(fe, files[i]).0.Some? ==>
        FileCodec(fe.utf8).fits(ParseFile(fe, files[i]).0.value)
  }

  /** Parser output the cache format can carry: ordered spans, named paths, earlier parents. */
  ghost predicate Storable<E, D>(fe: Frontend<E, D>, files: seq<ProjectFile>) {
    forall i :: 0 <= i < |files| && ParseFile(fe, files[i]).0.Some? ==>
        FileCodec(fe.utf8).valid(ParseFile(fe, files[i]).0.value)
  }

  function CacheFor<E, D>(fe: Frontend<E, D>, files: seq<ProjectFile>): seq<byte> {
    CacheBytes(fe, files, SyntaxTable(fe, files))
  }

  function EntriesFor<E, D>(fe: Frontend<E, D>, files: seq<ProjectFile>): seq<Entry> {
    Entries(fe, files, SyntaxTable(fe, files))
  }

  lemma OptionFields(c: Codec<SyntaxFile>, x: Option<SyntaxFile>)
    ensures OptionCodec(c, SyntaxFile([])).fits(x) <==> (x.Some? ==> c.fits(x.value))
    ensures OptionCodec(c, SyntaxFile([])).valid(x) <==> (x.Some? ==> c.valid(x.value))
  {
    var k := OptionCodec(c, SyntaxFile([]));
    assert k.fits(x) == OptionBranch(c, SyntaxFile([]), OptionTag(x)).fits(x);
    assert k.valid(x) == OptionBranch(c, SyntaxFile([]), OptionTag(x)).valid(x);
    if x.Some? {
      assert Some(OptionValue(x, SyntaxFile([]))) == x;
    }
  }

  lemma EntryFields<E, D>(fe: Frontend<E, D>, fp: nat, x: Option<SyntaxFile>)
    requires fp < U64_LIMIT
    ensures EntryCodec(fe).fits((fp, x)) <==> (x.Some? ==> FileCodec(fe.utf8).fits(x.value))
    ensures EntryCodec(fe).valid((fp, x)) <==> (x.Some? ==> FileCodec(fe.utf8).valid(x.value))
  {
    Widths();
    OptionFields(FileCodec(fe.utf8), x);
  }

  lemma EntriesFit<E, D>(fe: Frontend<E, D>, files: seq<ProjectFile>)
    requires Loaded(fe, files) && Representable(fe, files)
    ensures AllHold(EntryCodec(fe).fits, EntriesFor(fe, files))
    ensures AllHold(EntryCodec(fe).valid, EntriesFor(fe, files)) <==> Storable(fe, files)
  {
    forall i | 0 <= i < |files|
      ensures EntryCodec(fe).fits(EntriesFor(fe, files)[i])
      ensures EntryCodec(fe).valid(EntriesFor(fe, files)[i]) <==>
        (ParseFile(fe, files[i]).0.Some? ==> FileCodec(fe.utf8).valid(ParseFile(fe, files[i]).0.value))
    {
      EntryFields(fe, Fingerprint(fe, files[i]), ParseFile(fe, files[i]).0);
    }
  }

  lemma HeadersDiffer<E, D>(fe: Frontend<E, D>, a: nat, b: nat)
    requires a < U64_LIMIT && b < U64_LIMIT && HeaderBytes(fe, a) == HeaderBytes(fe, b)
    ensures a == b
  {
    Widths();
    LittleEndianRoundTrip(8, a);
    LittleEndianRoundTrip(8, b);
    var h := |SYNTAX_MAGIC| + 8;
    assert HeaderBytes(fe, a)[h..] == LittleEndian(8, a) && HeaderBytes(fe, b)[h..] == LittleEndian(8, b);
  }

  lemma WrittenEntriesMerge<E, D>(fe: Frontend<E, D>, c: Codec<Entry>, entries: seq<Entry>, now: seq<ProjectFile>)
    requires ReadsWritten(c) && AllHold(c.fits, entries) && |entries| == |now|
    ensures MergeRead(fe, c, EncodeAll(c, entries), now)
        == if AllHold(c.valid, entries) then Merge(fe, now, entries) else None
  {
    ManyReadsWritten(c, entries, []);
    assert EncodeAll(c, entries) + [] == EncodeAll(c, entries);
  }

  /** Reading a written cache against another project is merging the written entries. */
  lemma CacheDecodes<E, D>(fe: Frontend<E, D>, before: seq<ProjectFile>, now: seq<ProjectFile>)
    requires Loaded(fe, before) && Loaded(fe, now) && Representable(fe, before)
    ensures DecodeCache(fe, CacheFor(fe, before), now) ==
      if |before| == |now| && Storable(fe, before) then Merge(fe, now, EntriesFor(fe, before)) else None
  {
    var bytes := CacheFor(fe, before);
    var h := |SYNTAX_MAGIC| + 16;
    var body := EncodeAll(EntryCodec(fe), EntriesFor(fe, before));
    assert bytes[..h] == HeaderBytes(fe, |before|) && bytes[h..] == body;
    if HeaderBytes(fe, |before|) == HeaderBytes(fe, |now|) {
      HeadersDiffer(fe, |before|, |now|);
      EntryLawful(fe);
      EntriesFit(fe, before);
      WrittenEntriesMerge(fe, EntryCodec(fe), EntriesFor(fe, before), now);
    }
  }

  /** Acceptance of one file's entry, spelled out. */
  predicate Acceptable<E, D>(fe: Frontend<E, D>, before: ProjectFile, now: ProjectFile) {
    if ParseFile(fe, before).0.Some? then SourceBearing(now)
    else !(SourceBearing(now) && Fingerprint(fe, before) == Fingerprint(fe, now) && ParseOne(fe, now).0.Some?)
  }

  lemma ReuseIsReparse<E, D>(fe: Frontend<E, D>, before: ProjectFile, now: ProjectFile)
    requires FingerprintTells(fe, before, now)
    ensures var r := Reuse(fe, now, (Fingerprint(fe, before), ParseFile(fe, before).0));
      r == if Acceptable(fe, before, now) then Some(ParseFile(fe, now)) else None
  {
  }

  predicate SameFingerprints<E, D>(fe: Frontend<E, D>, before: seq<ProjectFile>, now: seq<ProjectFile>)
    requires |before| == |now|
  {
    forall i :: 0 <= i < |now| ==> Fingerprint(fe, before[i]) == Fingerprint(fe, now[i])
  }

  /** Places whose stored syntax is used instead of parsing. */
  function ReusedPlaces<E, D>(fe: Frontend<E, D>, before: seq<ProjectFile>, now: seq<ProjectFile>): set<nat>
    requires |before| == |now|
  {
    set i: nat | i < |now| && SourceBearing(now[i]) && Fingerprint(fe, before[i]) == Fingerprint(fe, now[i])
      && ParseFile(fe, before[i]).0.Some?
  }

  predicate AllAcceptable<E, D>(fe: Frontend<E, D>, before: seq<ProjectFile>, now: seq<ProjectFile>)
    requires |before| == |now|
  {
    forall i :: 0 <= i < |now| ==> Acceptable(fe, before[i], now[i])
  }

  /** What a full parse of `now` and an honest count of reuse would report. */
  function CleanOutcome<E, D>(fe: Frontend<E, D>, before: seq<ProjectFile>, now: seq<ProjectFile>): Outcome<D>
    requires |before| == |now|
  {
    Outcome(SyntaxTable(fe, now), Diagnostics(fe, now), SameFingerprints(fe, before, now),
        |ReusedPlaces(fe, before, now)|)
  }

  lemma CleanOutcomeStep<E, D>(fe: Frontend<E, D>, before: seq<ProjectFile>, now: seq<ProjectFile>)
    requires |before| == |now| && now != []
    ensures var n := |now| - 1;
      var entry := (Fingerprint(fe, before[n]), ParseFile(fe, before[n]).0);
      Acceptable(fe, before[n], now[n]) && FingerprintTells(fe, before[n], now[n]) ==>
        Joined(fe, Some(CleanOutcome(fe, before[..n], now[..n])), now[n], entry) == Some(CleanOutcome(fe, before, now))
  {
    var n := |now| - 1;
    if FingerprintTells(fe, before[n], now[n]) {
      ReuseIsReparse(fe, before[n], now[n]);
    }
    OneMorePlace(fe, before, now);
    assert SyntaxTable(fe, now) == SyntaxTable(fe, now[..n]) + [ParseFile(fe, now[n]).0];
    assert SameFingerprints(fe, before, now) <==>
      SameFingerprints(fe, before[..n], now[..n]) && Fingerprint(fe, before[n]) == Fingerprint(fe, now[n]);
  }

  lemma {:induction false} MergeIsReparse<E, D>(fe: Frontend<E, D>, before: seq<ProjectFile>, now: seq<ProjectFile>)
    requires |before| == |now| && FingerprintsTell(fe, before, now)
    ensures Merge(fe, now, EntriesFor(fe, before)) ==
      if AllAcceptable(fe, before, now) then Some(CleanOutcome(fe, before, now)) else None
    decreases |now|
  {
    if now == [] {
      NothingMerges(fe, before, now);
    } else {
      var n := |now| - 1;
      MergeIsReparse(fe, before[..n], now[..n]);
      ReuseIsReparse(fe, before[n], now[n]);
      CleanOutcomeStep(fe, before, now);
      WrittenMergeStep(fe, before, now);
      AcceptableStep(fe, before, now);
      TellsLast(fe, before, now);
      hide Merge, EntriesFor, AllAcceptable, Acceptable, CleanOutcome, Reuse, FingerprintTells, Joined;
      JoinedNeedsReuse(fe, Merge(fe, now[..n], EntriesFor(fe, before[..n])), now[n],
                       (Fingerprint(fe, before[n]), ParseFile(fe, before[n]).0));
      hide ParseFile, Fingerprint;
    }
  }

  lemma NothingMerges<E, D>(fe: Frontend<E, D>, before: seq<ProjectFile>, now: seq<ProjectFile>)
    requires |before| == |now| && now == []
    ensures AllAcceptable(fe, before, now) &&
        Merge(fe, now, EntriesFor(fe, before)) == Some(CleanOutcome(fe, before, now))
  {
    assert ReusedPlaces(fe, before, now) == {};
    assert SyntaxTable(fe, now) == [] && Diagnostics(fe, now) == [] && SameFingerprints(fe, before, now);
    assert Merge(fe, now, EntriesFor(fe, before)) == Some(Outcome([], [], true, 0));
  }

  lemma JoinedNeedsReuse<E, D>(fe: Frontend<E, D>, earlier: Option<Outcome<D>>, f: ProjectFile, entry: Entry)
    ensures Joined(fe, earlier, f, entry).Some? <==> earlier.Some? && Reuse(fe, f, entry).Some?
  {
  }

  lemma WrittenMergeStep<E, D>(fe: Frontend<E, D>, before: seq<ProjectFile>, now: seq<ProjectFile>)
    requires |before| == |now| && now != []
    ensures var n := |now| - 1;
      Merge(fe, now, EntriesFor(fe, before))
        == Joined(fe, Merge(fe, now[..n], EntriesFor(fe, before[..n])), now[n],
                  (Fingerprint(fe, before[n]), ParseFile(fe, before[n]).0))
  {
    var n := |now| - 1;
    assert EntriesFor(fe, before)[..n] == EntriesFor(fe, before[..n]);
  }

  lemma AcceptableStep<E, D>(fe: Frontend<E, D>, before: seq<ProjectFile>, now: seq<ProjectFile>)
    requires |before| == |now| && now != []
    ensures var n := |now| - 1;
      AllAcceptable(fe, before, now) <==> AllAcceptable(fe, before[..n], now[..n]) && Acceptable(fe, before[n], now[n])
  {
    hide Acceptable;
  }

  lemma TellsLast<E, D>(fe: Frontend<E, D>, before: seq<ProjectFile>, now: seq<ProjectFile>)
    requires |before| == |now| && now != [] && FingerprintsTell(fe, before, now)
    ensures var n := |now| - 1;
      FingerprintTells(fe, before[n], now[n]) && FingerprintsTell(fe, before[..n], now[..n])
  {
  }

  lemma OneMorePlace<E, D>(fe: Frontend<E, D>, before: seq<ProjectFile>, now: seq<ProjectFile>)
    requires |before| == |now| && now != []
    ensures var n := |now| - 1;
      |ReusedPlaces(fe, before, now)| == |ReusedPlaces(fe, before[..n], now[..n])|
        + if Hit(fe, now[n], (Fingerprint(fe, before[n]), ParseFile(fe, before[n]).0)) then 1 else 0
  {
    var n := |now| - 1;
    var fewer := ReusedPlaces(fe, before[..n], now[..n]);
    var all := ReusedPlaces(fe, before, now);
    forall i: nat
      ensures i in all <==> i in fewer || (i == n && n in all)
    {
      if i < n {
        assert before[..n][i] == before[i] && now[..n][i] == now[i];
      }
    }
    hide ReusedPlaces;
    OneMore(fewer, all, n);
  }

  lemma OneMore(fewer: set<nat>, all: set<nat>, n: nat)
    requires n !in fewer && forall i: nat :: i in all <==> i in fewer || (i == n && n in all)
    ensures |all| == |fewer| + if n in all then 1 else 0
  {
    if n in all {
      assert all == fewer + {n};
    } else {
      assert all == fewer;
    }
  }

  /**
    Incremental parsing is clean parsing: a cache written for one version of a
    project and read against another is either rejected or gives exactly the
    table and diagnostics of a full parse, and says truly what was reused.
   */
  lemma IncrementalIsClean<E, D>(fe: Frontend<E, D>, before: seq<ProjectFile>, now: seq<ProjectFile>)
    requires Loaded(fe, before) && Loaded(fe, now) && Representable(fe, before) && HashesTell(fe, before, now)
    requires DecodeCache(fe, CacheFor(fe, before), now).Some?
    ensures |before| == |now|
    ensures DecodeCache(fe, CacheFor(fe, before), now) == Some(CleanOutcome(fe, before, now))
  {
    HashesAreFingerprints(fe, before, now);
    CacheDecodes(fe, before, now);
    MergeIsReparse(fe, before, now);
  }

  /** Exactly which caches are accepted. */
  lemma AcceptedIff<E, D>(fe: Frontend<E, D>, before: seq<ProjectFile>, now: seq<ProjectFile>)
    requires Loaded(fe, before) && Loaded(fe, now) && Representable(fe, before) && HashesTell(fe, before, now)
    ensures DecodeCache(fe, CacheFor(fe, before), now).Some?
       <==> |before| == |now| && Storable(fe, before) && AllAcceptable(fe, before, now)
  {
    HashesAreFingerprints(fe, before, now);
    CacheDecodes(fe, before, now);
    if |before| == |now| {
      MergeIsReparse(fe, before, now);
    }
  }

  /** Rebuilding an unchanged project accepts its own cache and reuses every parsed file. */
  lemma UnchangedIsReused<E, D>(fe: Frontend<E, D>, files: seq<ProjectFile>)
    requires Loaded(fe, files) && Representable(fe, files) && Storable(fe, files)
    ensures DecodeCache(fe, CacheFor(fe, files), files).Some?
    ensures var o := DecodeCache(fe, CacheFor(fe, files), files).value;
      o.exact && o.reused == |set i: nat | i < |files| && SyntaxTable(fe, files)[i].Some?|
  {
    hide DecodeCache, CacheFor, Loaded, Representable, ReusedPlaces, SyntaxTable;
    AcceptedIff(fe, files, files);
    IncrementalIsClean(fe, files, files);
    ParsedAreReused(fe, files);
  }

  lemma ParsedAreReused<E, D>(fe: Frontend<E, D>, files: seq<ProjectFile>)
    ensures ReusedPlaces(fe, files, files) == set i: nat | i < |files| && SyntaxTable(fe, files)[i].Some?
  {
  }
}
