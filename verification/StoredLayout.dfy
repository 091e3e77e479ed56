/**
  The stored database byte by byte, and what is too large to be stored
  (crates/dm-compiler/src/persistent_database.rs:16-26, 287-328, 477-534, 579-601).
 */
module StoredLayout {
  import opened Wrappers
  import opened Codecs
  import opened Containers
  import opened DatabaseModel
  import opened DatabaseFile

  // ---- fields ----

  function Run(bytes: seq<byte>): seq<byte> {
    LittleEndian(8, |bytes|) + bytes
  }

  function Joined(parts: seq<seq<byte>>): seq<byte> {
    if parts == [] then [] else parts[0] + Joined(parts[1..])
  }

  function Numbers(ids: seq<nat>): seq<byte> {
    LittleEndian(8, |ids|) + Joined(seq(|ids|, i requires 0 <= i < |ids| => LittleEndian(8, ids[i])))
  }

  function InputBytes(d: InputDependency): seq<byte> {
    Run(d.identity) + d.contentDigest + LittleEndian(8, d.byteLength)
  }

  function StableIdBytes(e: StableIdEntry): seq<byte> {
    Run(e.namespace) + Run(e.name) + LittleEndian(8, e.id)
  }

  function SectionBytes(s: Section): seq<byte> {
    LittleEndian(8, s.sectionId) + Numbers(s.sectionDependencies) + Numbers(s.inputDependencies) + s.contentDigest
      + Run(s.payload)
  }

  function InputList(inputs: seq<InputDependency>): seq<byte> {
    LittleEndian(8, |inputs|) + Joined(seq(|inputs|, i requires 0 <= i < |inputs| => InputBytes(inputs[i])))
  }

  function StableIdList(entries: seq<StableIdEntry>): seq<byte> {
    LittleEndian(8, |entries|) + Joined(seq(|entries|, i requires 0 <= i < |entries| => StableIdBytes(entries[i])))
  }

  function SectionList(sections: seq<Section>): seq<byte> {
    LittleEndian(8, |sections|) + Joined(seq(|sections|, i requires 0 <= i < |sections| => SectionBytes(sections[i])))
  }

  function Payload(db: Database): seq<byte> {
    db.semanticDigest + db.buildDigest + (InputList(db.inputs) + StableIdList(db.stableIds) + SectionList(db.sections))
  }

  // ---- numbers ----

  lemma OneByte(width: nat, n: nat)
    requires width > 0
    ensures n == LittleEndian(width, n)[0] + 256 * (n / 256)
    ensures LittleEndian(width, n)[1..] == LittleEndian(width - 1, n / 256)
  {
  }

  /** Eight bytes, the lowest first, each counting 256 times the one before. */
  lemma LowestFirst(n: nat)
    requires n < 0x1_0000_0000_0000_0000
    ensures var b: seq<int> := LittleEndian(8, n);
      b[0] + 0x100 * b[1] + 0x1_0000 * b[2] + 0x100_0000 * b[3] + 0x1_0000_0000 * b[4] + 0x100_0000_0000 * b[5]
        + 0x1_0000_0000_0000 * b[6] + 0x100_0000_0000_0000 * b[7] == n
  {
    var n1, n2, n3, n4 := n / 256, n / 256 / 256, n / 256 / 256 / 256, n / 256 / 256 / 256 / 256;
    var n5, n6, n7 := n4 / 256, n4 / 256 / 256, n4 / 256 / 256 / 256;
    OneByte(8, n);
    OneByte(7, n1);
    OneByte(6, n2);
    OneByte(5, n3);
    OneByte(4, n4);
    OneByte(3, n5);
    OneByte(2, n6);
    OneByte(1, n7);
    hide LittleEndian;
  }

  lemma FourOfOne()
    ensures LittleEndian(4, 1) == [1, 0, 0, 0] && LittleEndian(4, 0) == [0, 0, 0, 0]
  {
    OneByte(4, 1);
    OneByte(3, 0);
    OneByte(2, 0);
    OneByte(1, 0);
    OneByte(4, 0);
  }

  // ---- the codecs write these bytes ----

  lemma {:induction false} AllJoin<T>(c: Codec<T>, items: seq<T>, bytes: seq<seq<byte>>)
    requires |bytes| == |items| && forall i :: 0 <= i < |items| ==> c.encode(items[i]) == bytes[i]
    ensures EncodeAll(c, items) == Joined(bytes)
  {
    if items != [] {
      AllJoin(c, items[1..], bytes[1..]);
    }
  }

  lemma NumbersWritten(ids: seq<nat>)
    ensures IdsCodec().encode(ids) == Numbers(ids)
  {
    AllJoin(IntCodec(8), ids, seq(|ids|, i requires 0 <= i < |ids| => LittleEndian(8, ids[i])));
  }

  lemma InputWritten(p: Platform, d: InputDependency)
    ensures InputCodec(p).encode(d) == InputBytes(d)
  {
    PairFields(FixedCodec(32), IntCodec(8), InputParts(d).1);
    PairFields(StringCodec(p), PairCodec(FixedCodec(32), IntCodec(8)), InputParts(d));
  }

  lemma StableIdWritten(p: Platform, e: StableIdEntry)
    ensures StableIdCodec(p).encode(e) == StableIdBytes(e)
  {
    PairFields(StringCodec(p), IntCodec(8), StableIdParts(e).1);
    PairFields(StringCodec(p), PairCodec(StringCodec(p), IntCodec(8)), StableIdParts(e));
  }

  lemma SectionWritten(s: Section)
    ensures SectionCodec().encode(s) == SectionBytes(s)
  {
    NumbersWritten(s.sectionDependencies);
    NumbersWritten(s.inputDependencies);
    hide Numbers, LittleEndian, EncodeAll, Joined, IdsCodec;
    FiveFields(IntCodec(8), IdsCodec(), IdsCodec(), FixedCodec(32), BytesCodec(8, MAX_SECTION_PAYLOAD_BYTES),
      SectionParts(s));
  }

  lemma InputsWritten(p: Platform, inputs: seq<InputDependency>)
    ensures LittleEndian(8, |inputs|) + EncodeAll(InputCodec(p), inputs) == InputList(inputs)
  {
    hide InputBytes, InputCodec;
    forall i | 0 <= i < |inputs|
      ensures InputCodec(p).encode(inputs[i]) == InputBytes(inputs[i])
    {
      InputWritten(p, inputs[i]);
    }
    AllJoin(InputCodec(p), inputs, seq(|inputs|, i requires 0 <= i < |inputs| => InputBytes(inputs[i])));
  }

  lemma StableIdsWritten(p: Platform, entries: seq<StableIdEntry>)
    ensures LittleEndian(8, |entries|) + EncodeAll(StableIdCodec(p), entries) == StableIdList(entries)
  {
    hide StableIdBytes, StableIdCodec;
    forall i | 0 <= i < |entries|
      ensures StableIdCodec(p).encode(entries[i]) == StableIdBytes(entries[i])
    {
      StableIdWritten(p, entries[i]);
    }
    AllJoin(StableIdCodec(p), entries, seq(|entries|, i requires 0 <= i < |entries| => StableIdBytes(entries[i])));
  }

  lemma SectionsWritten(sections: seq<Section>)
    ensures LittleEndian(8, |sections|) + EncodeAll(SectionCodec(), sections) == SectionList(sections)
  {
    hide SectionBytes, SectionCodec;
    forall i | 0 <= i < |sections|
      ensures SectionCodec().encode(sections[i]) == SectionBytes(sections[i])
    {
      SectionWritten(sections[i]);
    }
    AllJoin(SectionCodec(), sections, seq(|sections|, i requires 0 <= i < |sections| => SectionBytes(sections[i])));
  }

  lemma PayloadWritten(p: Platform, db: Database)
    requires |db.semanticDigest| == 32 && |db.buildDigest| == 32 && Validate(db).Success?
    ensures DatabaseCodec(p).encode(db) == Payload(db)
  {
    hide InputList, StableIdList, SectionList, Validate, EncodeAll, LittleEndian, DatabaseCodec;
    DatabaseFields(p, db);
    InputsWritten(p, db.inputs);
    StableIdsWritten(p, db.stableIds);
    SectionsWritten(db.sections);
  }

  lemma SavedIsSealed<T>(l: Layout<T>, p: Platform, x: T)
    requires Save(l, p, x).Success?
    ensures l.validate(x).Success? && Save(l, p, x).value == Seal(l, p, l.codec.encode(x))
  {
  }

  // ---- the file ----

  /** Eight bytes of magic, version one, no flags, the payload's length and MD5, and the payload. */
  ghost predicate Stored(p: Platform, magic: string, payload: seq<byte>, b: seq<byte>) {
    && |b| == 40 + |payload|
    && Spells(b[..6], magic) && b[6..8] == [0, 0]
    && b[8..12] == [1, 0, 0, 0] && b[12..16] == [0, 0, 0, 0]
    && b[16..24] == LittleEndian(8, |payload|)
    && b[24..40] == p.md5(payload)
    && b[40..] == payload
  }

  ghost predicate Begins(b: seq<byte>, magic: string) {
    |b| == 8 && Spells(b[..6], magic) && b[6..] == [0, 0]
  }

  lemma MagicSpells()
    ensures Begins(MAGIC, "D64CDB") && Begins(STABLE_ID_MAGIC, "D64SID")
  {
  }

  lemma SealedIsStored<T(!new)>(l: Layout<T>, p: Platform, magic: string, payload: seq<byte>)
    requires WellFormed(l, p) && Begins(l.magic, magic) && l.version == 1
    ensures Stored(p, magic, payload, Seal(l, p, payload))
  {
    hide LittleEndian, Seal, Spells;
    SealedParts(l, p, payload);
    FourOfOne();
    var b := Seal(l, p, payload);
    assert b[..6] == b[..8][..6] && b[6..8] == b[..8][6..];
  }

  /** Every saved database is its fields in order, behind its header. */
  lemma StoredBytes(p: Platform, db: Database)
    requires Sixteen(p.md5) && |db.semanticDigest| == 32 && |db.buildDigest| == 32
    requires Save(DatabaseLayout(p), p, db).Success?
    ensures Stored(p, "D64CDB", Payload(db), Save(DatabaseLayout(p), p, db).value)
  {
    LayoutsWellFormed(p);
    SavedIsSealed(DatabaseLayout(p), p, db);
    MagicSpells();
    hide DatabaseCodec, Payload, Save, Seal, Validate, Stored, Begins;
    PayloadWritten(p, db);
    SealedIsStored(DatabaseLayout(p), p, "D64CDB", Payload(db));
  }

  /** The same for the table of linker identities alone. */
  lemma StoredTable(p: Platform, entries: seq<StableIdEntry>)
    requires Sixteen(p.md5) && Save(StableIdLayout(p), p, entries).Success?
    ensures Stored(p, "D64SID", StableIdList(entries), Save(StableIdLayout(p), p, entries).value)
  {
    LayoutsWellFormed(p);
    SavedIsSealed(StableIdLayout(p), p, entries);
    MagicSpells();
    CountedFields(StableIdCodec(p), entries);
    StableIdsWritten(p, entries);
    hide CountedCodec, StableIdList, Save, Seal, Stored, Begins;
    SealedIsStored(StableIdLayout(p), p, "D64SID", StableIdList(entries));
  }

  // ---- what is stored at all ----

  predicate SmallEnough(s: Section) {
    |s.sectionDependencies| <= 1_000_000 && |s.inputDependencies| <= 1_000_000 && |s.payload| <= 67_108_864
  }

  /** No text over 16 MiB, no list over a million, no page over 64 MiB. */
  predicate WithinLimits(db: Database) {
    && (forall d <- db.inputs :: |d.identity| <= 16_777_216)
    && (forall e <- db.stableIds :: |e.namespace| <= 16_777_216 && |e.name| <= 16_777_216)
    && (forall s <- db.sections :: SmallEnough(s))
  }

  /** Different inputs, names, numbers and sections, and every dependency known. */
  ghost predicate Consistent(db: Database) {
    && (forall i, j :: 0 <= i < j < |db.inputs| ==> db.inputs[i].identity != db.inputs[j].identity)
    && (forall i, j :: 0 <= i < j < |db.stableIds| && db.stableIds[i].namespace == db.stableIds[j].namespace ==>
          db.stableIds[i].name != db.stableIds[j].name && db.stableIds[i].id != db.stableIds[j].id)
    && (forall i, j :: 0 <= i < j < |db.sections| ==> db.sections[i].sectionId != db.sections[j].sectionId)
    && (forall s <- db.sections, d <- s.inputDependencies :: d < |db.inputs|)
    && (forall s <- db.sections, d <- s.sectionDependencies :: exists t :: t in db.sections && t.sectionId == d)
  }

  /** What the check accepts, and which of its two errors a refusal is. */
  lemma ValidateIff(db: Database)
    ensures var counts :=
        |db.inputs| <= 1_000_000 && |db.stableIds| <= 1_000_000 && |db.sections| <= 1_000_000;
      Validate(db) == if !counts then Failure(Limit) else if !Consistent(db) then Failure(Format) else Success(())
  {
    hide DistinctInputs, DistinctNames, DistinctNumbers, DistinctSections, KnownDependencies, Consistent;
    ConsistentIff(db);
  }

  lemma ConsistentIff(db: Database)
    ensures Consistent(db) <==>
      && DistinctInputs(db.inputs) && DistinctNames(db.stableIds) && DistinctNumbers(db.stableIds)
      && DistinctSections(db.sections) && KnownDependencies(|db.inputs|, db.sections)
  {
    KnownIff(|db.inputs|, db.sections);
    hide KnownDependencies;
  }

  lemma KnownIff(inputs: nat, sections: seq<Section>)
    ensures KnownDependencies(inputs, sections) <==>
      && (forall s <- sections, d <- s.inputDependencies :: d < inputs)
      && (forall s <- sections, d <- s.sectionDependencies :: exists t :: t in sections && t.sectionId == d)
  {
    forall d
      ensures d in SectionIds(sections) <==> exists t :: t in sections && t.sectionId == d
    {
      if d in SectionIds(sections) {
        var i :| 0 <= i < |sections| && sections[i].sectionId == d;
        assert sections[i] in sections;
      }
    }
    hide SectionIds;
    if KnownDependencies(inputs, sections) {
      forall s, d | s in sections && d in s.inputDependencies
        ensures d < inputs
      {
        var i :| 0 <= i < |sections| && sections[i] == s;
        var k :| 0 <= k < |s.inputDependencies| && s.inputDependencies[k] == d;
      }
      forall s, d | s in sections && d in s.sectionDependencies
        ensures d in SectionIds(sections)
      {
        var i :| 0 <= i < |sections| && sections[i] == s;
        var k :| 0 <= k < |s.sectionDependencies| && s.sectionDependencies[k] == d;
      }
    } else {
      assert forall i :: 0 <= i < |sections| ==> sections[i] in sections;
      assert forall i, k :: 0 <= i < |sections| && 0 <= k < |sections[i].inputDependencies| ==>
        sections[i].inputDependencies[k] in sections[i].inputDependencies;
      assert forall i, k :: 0 <= i < |sections| && 0 <= k < |sections[i].sectionDependencies| ==>
        sections[i].sectionDependencies[k] in sections[i].sectionDependencies;
    }
  }

  lemma InputWithin(p: Platform, d: InputDependency)
    requires InputCodec(p).fits(d)
    ensures InputCodec(p).valid(d) <==> |d.identity| <= 16_777_216
  {
    PairFields(FixedCodec(32), IntCodec(8), InputParts(d).1);
    PairFields(StringCodec(p), PairCodec(FixedCodec(32), IntCodec(8)), InputParts(d));
  }

  lemma StableIdWithin(p: Platform, e: StableIdEntry)
    requires StableIdCodec(p).fits(e)
    ensures StableIdCodec(p).valid(e) <==> |e.namespace| <= 16_777_216 && |e.name| <= 16_777_216
  {
    PairFields(StringCodec(p), IntCodec(8), StableIdParts(e).1);
    PairFields(StringCodec(p), PairCodec(StringCodec(p), IntCodec(8)), StableIdParts(e));
  }

  lemma IdsWithin(ids: seq<nat>)
    requires IdsCodec().fits(ids)
    ensures IdsCodec().valid(ids) <==> |ids| <= 1_000_000
  {
    CountedFields(IntCodec(8), ids);
    assert AllHold(IntCodec(8).fits, ids);
    assert forall i :: 0 <= i < |ids| ==> IntCodec(8).fits(ids[i]) && IntCodec(8).valid(ids[i]);
  }

  lemma SectionWithin(s: Section)
    requires SectionCodec().fits(s)
    ensures SectionCodec().valid(s) <==>
      |s.sectionDependencies| <= 1_000_000 && |s.inputDependencies| <= 1_000_000 && |s.payload| <= 67_108_864
  {
    hide IdsCodec;
    FiveFields(IntCodec(8), IdsCodec(), IdsCodec(), FixedCodec(32), BytesCodec(8, MAX_SECTION_PAYLOAD_BYTES),
      SectionParts(s));
    IdsWithin(s.sectionDependencies);
    IdsWithin(s.inputDependencies);
  }

  lemma PartsFit(p: Platform, db: Database)
    requires Representable(p, db)
    ensures AllHold(InputCodec(p).fits, db.inputs) && AllHold(StableIdCodec(p).fits, db.stableIds)
    ensures AllHold(SectionCodec().fits, db.sections)
  {
    var inputs, ids := CountedCodec(InputCodec(p), MAX_RECORDS), CountedCodec(StableIdCodec(p), MAX_RECORDS);
    var sections := CountedCodec(SectionCodec(), MAX_RECORDS);
    var t := DatabaseParts(db);
    PairFields(ids, sections, t.1.1.1);
    PairFields(inputs, PairCodec(ids, sections), t.1.1);
    PairFields(FixedCodec(32), PairCodec(inputs, PairCodec(ids, sections)), t.1);
    PairFields(FixedCodec(32), PairCodec(FixedCodec(32), PairCodec(inputs, PairCodec(ids, sections))), t);
  }

  lemma InputsWithin(p: Platform, inputs: seq<InputDependency>)
    requires AllHold(InputCodec(p).fits, inputs)
    ensures AllHold(InputCodec(p).valid, inputs) <==> forall d <- inputs :: |d.identity| <= 16_777_216
  {
    hide InputCodec;
    forall i | 0 <= i < |inputs|
      ensures InputCodec(p).valid(inputs[i]) <==> |inputs[i].identity| <= 16_777_216
    {
      InputWithin(p, inputs[i]);
    }
    assert forall i :: 0 <= i < |inputs| ==> inputs[i] in inputs;
  }

  lemma StableIdsWithin(p: Platform, entries: seq<StableIdEntry>)
    requires AllHold(StableIdCodec(p).fits, entries)
    ensures AllHold(StableIdCodec(p).valid, entries) <==>
      forall e <- entries :: |e.namespace| <= 16_777_216 && |e.name| <= 16_777_216
  {
    hide StableIdCodec;
    forall i | 0 <= i < |entries|
      ensures StableIdCodec(p).valid(entries[i]) <==>
        |entries[i].namespace| <= 16_777_216 && |entries[i].name| <= 16_777_216
    {
      StableIdWithin(p, entries[i]);
    }
    assert forall i :: 0 <= i < |entries| ==> entries[i] in entries;
  }

  lemma SectionsWithin(sections: seq<Section>)
    requires AllHold(SectionCodec().fits, sections)
    ensures AllHold(SectionCodec().valid, sections) <==> forall s <- sections :: SmallEnough(s)
  {
    hide SectionCodec;
    forall i | 0 <= i < |sections|
      ensures SectionCodec().valid(sections[i]) <==> SmallEnough(sections[i])
    {
      SectionWithin(sections[i]);
    }
    assert forall i :: 0 <= i < |sections| ==> sections[i] in sections;
  }

  lemma PartsWithin(p: Platform, db: Database)
    requires Representable(p, db)
    ensures WithinLimits(db) <==>
      && AllHold(InputCodec(p).valid, db.inputs) && AllHold(StableIdCodec(p).valid, db.stableIds)
      && AllHold(SectionCodec().valid, db.sections)
  {
    PartsFit(p, db);
    hide InputCodec, StableIdCodec, SectionCodec, Representable, AllHold, SmallEnough;
    InputsWithin(p, db.inputs);
    StableIdsWithin(p, db.stableIds);
    SectionsWithin(db.sections);
  }

  /** A database saves exactly when it is consistent, nothing in it is oversized and the file stays within 8 GiB. */
  lemma SavesIff(p: Platform, db: Database)
    requires Representable(p, db) && |db.semanticDigest| == 32 && |db.buildDigest| == 32
    ensures Save(DatabaseLayout(p), p, db).Success? <==>
      && |db.inputs| <= 1_000_000 && |db.stableIds| <= 1_000_000 && |db.sections| <= 1_000_000
      && Consistent(db) && WithinLimits(db)
      && 40 + |Payload(db)| <= 8_589_934_592
  {
    ValidateIff(db);
    PartsWithin(p, db);
    if Validate(db).Success? {
      PayloadWritten(p, db);
      DatabaseFields(p, db);
    }
    hide Payload, WithinLimits, Consistent, Validate, AllHold, DatabaseCodec, Seal;
    SavedIff(DatabaseLayout(p), p, db);
  }

  lemma SavedIff<T>(l: Layout<T>, p: Platform, x: T)
    ensures Save(l, p, x).Success? <==>
      l.validate(x).Success? && l.codec.valid(x) && |l.codec.encode(x)| <= 8_589_934_552
  {
  }
}
