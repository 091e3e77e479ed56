/** Records of the persistent compiler database and their consistency check. */
module DatabaseModel {
  import opened Wrappers
  import opened Codecs
  import opened Containers

  const MAX_RECORDS := 1_000_000
  const MAX_STRING_BYTES := 16 * 1024 * 1024
  const MAX_SECTION_PAYLOAD_BYTES := 64 * 1024 * 1024

  /** Text is kept as its UTF-8 bytes. */
  type Text = seq<byte>
  type Digest = seq<byte>

  datatype InputDependency = InputDependency(identity: Text, contentDigest: Digest, byteLength: nat)

  datatype StableIdEntry = StableIdEntry(namespace: Text, name: Text, id: nat)

  datatype Section = Section(
    sectionId: nat,
    sectionDependencies: seq<nat>,
    inputDependencies: seq<nat>,
    contentDigest: Digest,
    payload: seq<byte>)

  datatype Database = Database(
    semanticDigest: Digest,
    buildDigest: Digest,
    inputs: seq<InputDependency>,
    stableIds: seq<StableIdEntry>,
    sections: seq<Section>)

  // ---- consistency ----

  predicate DistinctInputs(inputs: seq<InputDependency>) {
    forall i, j :: 0 <= i < j < |inputs| ==> inputs[i].identity != inputs[j].identity
  }

  predicate DistinctNames(entries: seq<StableIdEntry>) {
    forall i, j :: 0 <= i < j < |entries| ==>
      (entries[i].namespace, entries[i].name) != (entries[j].namespace, entries[j].name)
  }

  predicate DistinctNumbers(entries: seq<StableIdEntry>) {
    forall i, j :: 0 <= i < j < |entries| ==>
      (entries[i].namespace, entries[i].id) != (entries[j].namespace, entries[j].id)
  }

  predicate DistinctSections(sections: seq<Section>) {
    forall i, j :: 0 <= i < j < |sections| ==> sections[i].sectionId != sections[j].sectionId
  }

  function SectionIds(sections: seq<Section>): set<nat> {
    set i | 0 <= i < |sections| :: sections[i].sectionId
  }

  predicate KnownDependencies(inputs: nat, sections: seq<Section>) {
    forall i :: 0 <= i < |sections| ==>
      && (forall k :: 0 <= k < |sections[i].inputDependencies| ==> sections[i].inputDependencies[k] < inputs)
      && (forall k :: 0 <= k < |sections[i].sectionDependencies| ==>
            sections[i].sectionDependencies[k] in SectionIds(sections))
  }

  function ValidateStableIds(entries: seq<StableIdEntry>): Result<(), Error> {
    if |entries| > MAX_RECORDS then Failure(Limit)
    else if !DistinctNames(entries) || !DistinctNumbers(entries) then Failure(Format)
    else Success(())
  }

  function Validate(db: Database): Result<(), Error> {
    if |db.inputs| > MAX_RECORDS || |db.stableIds| > MAX_RECORDS || |db.sections| > MAX_RECORDS then Failure(Limit)
    else if !DistinctInputs(db.inputs) then Failure(Format)
    else
      var _ :- ValidateStableIds(db.stableIds);
      if !DistinctSections(db.sections) then Failure(Format)
      else if !KnownDependencies(|db.inputs|, db.sections) then Failure(Format)
      else Success(())
  }

  /** The source's loop: both identities of each entry go into a set, and a repeat stops it. */
  method CheckStableIds(entries: seq<StableIdEntry>) returns (r: Result<(), Error>)
    ensures r == ValidateStableIds(entries)
  {
    if |entries| > MAX_RECORDS {
      return Failure(Limit);
    }
    var names: set<(Text, Text)>, numbers: set<(Text, nat)> := {}, {};
    for i := 0 to |entries|
      invariant names == set k | 0 <= k < i :: (entries[k].namespace, entries[k].name)
      invariant numbers == set k | 0 <= k < i :: (entries[k].namespace, entries[k].id)
      invariant DistinctNames(entries[..i]) && DistinctNumbers(entries[..i])
    {
      var name, number := (entries[i].namespace, entries[i].name), (entries[i].namespace, entries[i].id);
      if name in names || number in numbers {
        return Failure(Format);
      }
      names, numbers := names + {name}, numbers + {number};
    }
    assert entries[..|entries|] == entries;
    r := Success(());
  }

  // ---- lookups ----

  /** The first section with this ID, as the source's `find`. */
  function Find(sections: seq<Section>, id: nat): (r: Option<Section>)
    ensures r.Some? ==> r.value in sections && r.value.sectionId == id
    ensures r.None? ==> forall s :: s in sections ==> s.sectionId != id
  {
    if sections == [] then None
    else if sections[0].sectionId == id then Some(sections[0])
    else Find(sections[1..], id)
  }

  /** The last one, which is what collecting into a map keeps. */
  function FindLast(sections: seq<Section>, id: nat): (r: Option<Section>)
    ensures r.Some? ==> r.value in sections && r.value.sectionId == id
    ensures r.None? ==> forall s :: s in sections ==> s.sectionId != id
  {
    if sections == [] then None
    else if sections[|sections| - 1].sectionId == id then Some(sections[|sections| - 1])
    else FindLast(sections[..|sections| - 1], id)
  }

  lemma DistinctMember(sections: seq<Section>, a: Section, b: Section)
    requires DistinctSections(sections) && a in sections && b in sections && a.sectionId == b.sectionId
    ensures a == b
  {
    var i :| 0 <= i < |sections| && sections[i] == a;
    var j :| 0 <= j < |sections| && sections[j] == b;
    if i < j {
    } else if j < i {
    }
  }

  lemma FindMember(sections: seq<Section>, s: Section)
    requires DistinctSections(sections) && s in sections
    ensures Find(sections, s.sectionId) == Some(s) == FindLast(sections, s.sectionId)
  {
    DistinctMember(sections, s, Find(sections, s.sectionId).value);
    DistinctMember(sections, s, FindLast(sections, s.sectionId).value);
  }

  // ---- record layouts ----

  function StringCodec(p: Platform): Codec<Text> {
    TextCodec(p.utf8, MAX_STRING_BYTES)
  }

  function InputFrom(t: (Text, (Digest, nat))): InputDependency {
    InputDependency(t.0, t.1.0, t.1.1)
  }

  function InputParts(x: InputDependency): (Text, (Digest, nat)) {
    (x.identity, (x.contentDigest, x.byteLength))
  }

  function InputCodec(p: Platform): Codec<InputDependency> {
    MapCodec(
      PairCodec(StringCodec(p), PairCodec(FixedCodec(32), IntCodec(8))),
      InputFrom,
      InputParts)
  }

  function StableIdFrom(t: (Text, (Text, nat))): StableIdEntry {
    StableIdEntry(t.0, t.1.0, t.1.1)
  }

  function StableIdParts(x: StableIdEntry): (Text, (Text, nat)) {
    (x.namespace, (x.name, x.id))
  }

  function StableIdCodec(p: Platform): Codec<StableIdEntry> {
    MapCodec(
      PairCodec(StringCodec(p), PairCodec(StringCodec(p), IntCodec(8))),
      StableIdFrom,
      StableIdParts)
  }

  type SectionTuple = (nat, (seq<nat>, (seq<nat>, (Digest, seq<byte>))))

  function SectionFrom(t: SectionTuple): Section {
    Section(t.0, t.1.0, t.1.1.0, t.1.1.1.0, t.1.1.1.1)
  }

  function SectionParts(x: Section): SectionTuple {
    (x.sectionId, (x.sectionDependencies, (x.inputDependencies, (x.contentDigest, x.payload))))
  }

  function IdsCodec(): Codec<seq<nat>> {
    CountedCodec(IntCodec(8), MAX_RECORDS)
  }

  function SectionCodec(): Codec<Section> {
    MapCodec(
      PairCodec(IntCodec(8), PairCodec(IdsCodec(), PairCodec(IdsCodec(),
        PairCodec(FixedCodec(32), BytesCodec(8, MAX_SECTION_PAYLOAD_BYTES))))),
      SectionFrom,
      SectionParts)
  }

  type DatabaseTuple = (Digest, (Digest, (seq<InputDependency>, (seq<StableIdEntry>, seq<Section>))))

  function DatabaseFrom(t: DatabaseTuple): Database {
    Database(t.0, t.1.0, t.1.1.0, t.1.1.1.0, t.1.1.1.1)
  }

  function DatabaseParts(x: Database): DatabaseTuple {
    (x.semanticDigest, (x.buildDigest, (x.inputs, (x.stableIds, x.sections))))
  }

  function DatabaseCodec(p: Platform): Codec<Database> {
    MapCodec(
      PairCodec(FixedCodec(32), PairCodec(FixedCodec(32), PairCodec(CountedCodec(InputCodec(p), MAX_RECORDS),
        PairCodec(CountedCodec(StableIdCodec(p), MAX_RECORDS), CountedCodec(SectionCodec(), MAX_RECORDS))))),
      DatabaseFrom,
      DatabaseParts)
  }

  lemma InputLawful(p: Platform)
    ensures Lawful(InputCodec(p))
  {
    TextLawful(p.utf8, MAX_STRING_BYTES); FixedLawful(32); IntLawful(8);
    PairLawful(FixedCodec(32), IntCodec(8));
    PairLawful(StringCodec(p), PairCodec(FixedCodec(32), IntCodec(8)));
    MapLawful(PairCodec(StringCodec(p), PairCodec(FixedCodec(32), IntCodec(8))),
      InputFrom, InputParts);
  }

  lemma StableIdLawful(p: Platform)
    ensures Lawful(StableIdCodec(p))
  {
    TextLawful(p.utf8, MAX_STRING_BYTES); IntLawful(8);
    PairLawful(StringCodec(p), IntCodec(8));
    PairLawful(StringCodec(p), PairCodec(StringCodec(p), IntCodec(8)));
    MapLawful(PairCodec(StringCodec(p), PairCodec(StringCodec(p), IntCodec(8))),
      StableIdFrom, StableIdParts);
  }

  lemma SectionLawful()
    ensures Lawful(SectionCodec())
  {
    var body := BytesCodec(8, MAX_SECTION_PAYLOAD_BYTES);
    IntLawful(8); FixedLawful(32); BytesLawful(8, MAX_SECTION_PAYLOAD_BYTES);
    CountedLawful(IntCodec(8), MAX_RECORDS);
    PairLawful(FixedCodec(32), body);
    PairLawful(IdsCodec(), PairCodec(FixedCodec(32), body));
    PairLawful(IdsCodec(), PairCodec(IdsCodec(), PairCodec(FixedCodec(32), body)));
    PairLawful(IntCodec(8), PairCodec(IdsCodec(), PairCodec(IdsCodec(), PairCodec(FixedCodec(32), body))));
    MapLawful(PairCodec(IntCodec(8), PairCodec(IdsCodec(), PairCodec(IdsCodec(), PairCodec(FixedCodec(32), body)))),
      SectionFrom, SectionParts);
  }

  lemma DatabaseLawful(p: Platform)
    ensures Lawful(DatabaseCodec(p))
  {
    FixedLawful(32); InputLawful(p); StableIdLawful(p); SectionLawful();
    var inputs := CountedCodec(InputCodec(p), MAX_RECORDS);
    var ids := CountedCodec(StableIdCodec(p), MAX_RECORDS);
    var sections := CountedCodec(SectionCodec(), MAX_RECORDS);
    CountedLawful(InputCodec(p), MAX_RECORDS);
    CountedLawful(StableIdCodec(p), MAX_RECORDS);
    CountedLawful(SectionCodec(), MAX_RECORDS);
    PairLawful(ids, sections);
    PairLawful(inputs, PairCodec(ids, sections));
    PairLawful(FixedCodec(32), PairCodec(inputs, PairCodec(ids, sections)));
    PairLawful(FixedCodec(32), PairCodec(FixedCodec(32), PairCodec(inputs, PairCodec(ids, sections))));
    MapLawful(PairCodec(FixedCodec(32), PairCodec(FixedCodec(32), PairCodec(inputs, PairCodec(ids, sections)))),
      DatabaseFrom, DatabaseParts);
  }

  // ---- stored files ----

  const MAGIC: seq<byte> := [0x44, 0x36, 0x34, 0x43, 0x44, 0x42, 0, 0]            // "D64CDB"
  const STABLE_ID_MAGIC: seq<byte> := [0x44, 0x36, 0x34, 0x53, 0x49, 0x44, 0, 0]  // "D64SID"

  function DatabaseLayout(p: Platform): Layout<Database> {
    Layout(MAGIC, 1, DatabaseCodec(p), Validate, Limit)
  }

  function StableIdLayout(p: Platform): Layout<seq<StableIdEntry>> {
    Layout(STABLE_ID_MAGIC, 1, CountedCodec(StableIdCodec(p), MAX_RECORDS), ValidateStableIds, Format)
  }

  lemma LayoutsWellFormed(p: Platform)
    requires Sixteen(p.md5)
    ensures WellFormed(DatabaseLayout(p), p) && WellFormed(StableIdLayout(p), p)
  {
    DatabaseLawful(p);
    StableIdLawful(p);
    CountedLawful(StableIdCodec(p), MAX_RECORDS);
  }

  /** A database exactly as the source's types can hold it. */
  predicate Representable(p: Platform, db: Database) {
    DatabaseCodec(p).fits(db)
  }
}
