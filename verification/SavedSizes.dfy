/**
  When a database on top of a prior one saves although, or exactly as, the one made from scratch does
  (crates/dm-compiler/src/lib.rs:873-1004; persistent_database.rs:287-328).
 */
module SavedSizes {
  import opened Wrappers
  import opened MachineIntegers
  import opened Collections
  import opened Codecs
  import opened Containers
  import opened DatabaseModel
  import opened DatabaseFile
  import opened Paging
  import opened StableIds
  import opened Builds
  import opened Lineage

  // ---- encoded lengths ----

  lemma {:induction false} EncodeAllJoin<T>(c: Codec<T>, first: seq<T>, second: seq<T>)
    ensures EncodeAll(c, first + second) == EncodeAll(c, first) + EncodeAll(c, second)
    decreases |first|
  {
    if first == [] {
      EmptySides(second);
      EmptySides(EncodeAll(c, second));
    } else {
      EncodeAllJoin(c, first[1..], second);
      EncodeHead(c, first[0], first[1..]);
      EncodeHead(c, first[0], first[1..] + second);
      assert first == [first[0]] + first[1..] && first + second == [first[0]] + (first[1..] + second);
      Regroup(c.encode(first[0]), EncodeAll(c, first[1..]), EncodeAll(c, second));
      hide EncodeAll;
    }
  }

  lemma EncodeHead<T>(c: Codec<T>, head: T, rest: seq<T>)
    ensures EncodeAll(c, [head] + rest) == c.encode(head) + EncodeAll(c, rest)
  {
    assert ([head] + rest)[1..] == rest;
  }

  lemma {:induction false} SameLengths<T>(c: Codec<T>, a: seq<T>, b: seq<T>)
    requires |a| == |b| && forall i :: 0 <= i < |a| ==> |c.encode(a[i])| == |c.encode(b[i])|
    ensures |EncodeAll(c, a)| == |EncodeAll(c, b)|
  {
    if a != [] {
      SameLengths(c, a[1..], b[1..]);
    }
  }

  lemma StableIdFields(p: Platform, e: StableIdEntry)
    ensures |StableIdCodec(p).encode(e)| == 8 + |e.namespace| + (8 + |e.name| + 8)
    ensures StableIdCodec(p).valid(e) <==>
      |e.namespace| <= MAX_STRING_BYTES && |e.name| <= MAX_STRING_BYTES && e.id < U64_LIMIT
  {
    Widths();
    var text := StringCodec(p);
    PairFields(text, IntCodec(8), StableIdParts(e).1);
    PairFields(text, PairCodec(text, IntCodec(8)), StableIdParts(e));
  }

  /** The new table's entries differ from the clean ones in their numbers only, so they take as many bytes. */
  lemma TablesAlike(p: Platform, prior: seq<StableIdEntry>, nodes: seq<Node>)
    requires Bounded(prior)
    ensures |EncodeAll(StableIdCodec(p), Assigned(prior, nodes))| == |EncodeAll(StableIdCodec(p), Assigned([], nodes))|
    ensures AllHold(StableIdCodec(p).valid, Assigned([], nodes)) ==>
      AllHold(StableIdCodec(p).valid, Assigned(prior, nodes))
  {
    AssignedBounded(prior, nodes);
    var a, b := Assigned(prior, nodes), Assigned([], nodes);
    forall i | 0 <= i < |a|
      ensures |StableIdCodec(p).encode(a[i])| == |StableIdCodec(p).encode(b[i])|
      ensures StableIdCodec(p).valid(b[i]) ==> StableIdCodec(p).valid(a[i])
    {
      StableIdFields(p, a[i]);
      StableIdFields(p, b[i]);
      hide IdFor;
    }
    SameLengths(StableIdCodec(p), a, b);
  }

  // ---- the sections ----

  /** The frontend's own sections; what follows them is the runtime artifact or its placeholder. */
  function FrontendSections(md5: Md5, inputs: seq<InputDependency>, segments: seq<seq<byte>>): seq<Section> {
    var pages := AllPages(segments);
    InputSections(inputs)
      + LinkedPages(md5, pages, PageIds(INPUT_SECTION_BASE, |inputs|)) + [LinkedManifest(md5, pages)]
  }

  predicate IdsWithinLimits(ids: seq<nat>) {
    |ids| <= MAX_RECORDS && forall k :: 0 <= k < |ids| ==> ids[k] < U64_LIMIT
  }

  predicate WithinLimits(s: Section) {
    && s.sectionId < U64_LIMIT
    && IdsWithinLimits(s.sectionDependencies) && IdsWithinLimits(s.inputDependencies)
    && |s.contentDigest| == 32 && |s.payload| <= MAX_SECTION_PAYLOAD_BYTES
  }

  lemma IdsValid(ids: seq<nat>)
    ensures IdsCodec().valid(ids) <==> IdsWithinLimits(ids)
  {
    Widths();
    CountedFields(IntCodec(8), ids);
  }

  lemma SectionValid(s: Section)
    ensures SectionCodec().valid(s) <==> WithinLimits(s)
  {
    Widths();
    IdsValid(s.sectionDependencies);
    IdsValid(s.inputDependencies);
    FiveFields(IntCodec(8), IdsCodec(), IdsCodec(), FixedCodec(32), BytesCodec(8, MAX_SECTION_PAYLOAD_BYTES),
               SectionParts(s));
  }

  lemma AllHoldJoin<T>(valid: T -> bool, a: seq<T>, b: seq<T>)
    ensures AllHold(valid, a + b) <==> AllHold(valid, a) && AllHold(valid, b)
  {
    if AllHold(valid, a + b) {
      forall i | 0 <= i < |a|
        ensures valid(a[i])
      {
        assert (a + b)[i] == a[i];
      }
      forall i | 0 <= i < |b|
        ensures valid(b[i])
      {
        assert (a + b)[|a| + i] == b[i];
      }
    }
  }

  /** Sections a database kept from a valid one are valid. */
  lemma KeptValid(prior: Database)
    requires AllHold(SectionCodec().valid, prior.sections)
    ensures AllHold(SectionCodec().valid, RuntimeSections(Some(prior)))
  {
    var r := RuntimeSections(Some(prior));
    var kept := Preserved(prior.sections);
    forall i | 0 <= i < |r|
      ensures SectionCodec().valid(r[i])
    {
      SectionValid(r[i]);
      if kept.None? {
        assert r[i] == PLACEHOLDER;
        assert |ZERO_DIGEST| == 32;
      } else {
        var from := if i < |kept.value.1| then kept.value.1[i] else kept.value.0;
        var k :| 0 <= k < |prior.sections| && prior.sections[k] == from;
        SectionValid(from);
      }
    }
  }

  // ---- saving on top of a prior database ----

  /** How many bytes the runtime artifact's sections take, its placeholder if there is none. */
  function RuntimeBytes(prior: Option<Database>): nat {
    |EncodeAll(SectionCodec(), RuntimeSections(prior))|
  }

  lemma FreshIsFrontendAndRuntime(
      md5: Md5, inputs: seq<InputDependency>, segments: seq<seq<byte>>, prior: Option<Database>)
    ensures FreshSections(md5, inputs, segments, prior)
        == FrontendSections(md5, inputs, segments) + RuntimeSections(prior)
  {
  }

  lemma RecordsLength(p: Platform, db: Database)
    ensures |DatabaseFile.Records(p, db)| == 24 + |EncodeAll(InputCodec(p), db.inputs)|
      + |EncodeAll(StableIdCodec(p), db.stableIds)| + |EncodeAll(SectionCodec(), db.sections)|
  {
  }

  /** Success of a save, by its three tests. */
  lemma SavesIff(p: Platform, db: Database)
    requires |db.semanticDigest| == 32 && |db.buildDigest| == 32
    ensures Save(DatabaseLayout(p), p, db).Success? <==>
      && Validate(db).Success?
      && AllHold(InputCodec(p).valid, db.inputs) && AllHold(StableIdCodec(p).valid, db.stableIds)
      && AllHold(SectionCodec().valid, db.sections)
      && 64 + |DatabaseFile.Records(p, db)| <= MAX_DATABASE_BYTES - HEADER_LEN
  {
    hide DatabaseCodec, DatabaseFile.Records, Validate, Save;
    SaveSucceedsIff(DatabaseLayout(p), p, db);
    if Validate(db).Success? {
      DatabaseFields(p, db);
    }
  }

  lemma SaveSucceedsIff<T>(l: Layout<T>, p: Platform, x: T)
    ensures Save(l, p, x).Success? <==>
      l.validate(x).Success? && l.codec.valid(x) && |l.codec.encode(x)| <= MAX_DATABASE_BYTES - HEADER_LEN
  {
  }

  lemma LoadedIsValid<T(!new)>(l: Layout<T>, p: Platform, bytes: seq<byte>, x: T)
    requires Lawful(l.codec) && Load(l, p, bytes) == Success(x)
    ensures l.codec.fits(x) && l.codec.valid(x) && l.validate(x).Success?
  {
  }

  /** The length a database on top of a prior one has, from the length of the one made from scratch. */
  lemma LengthOnTop(p: Platform, nodes: seq<Node>, segments: seq<seq<byte>>, inputs: seq<InputDependency>,
                    semantic: Digest, configuration: Digest, prior: Database)
    requires Bounded(prior.stableIds)
    ensures |DatabaseFile.Records(p,
        FreshDatabase(p.md5, nodes, segments, inputs, semantic, configuration, Some(prior)))|
         == |DatabaseFile.Records(p, FreshDatabase(p.md5, nodes, segments, inputs, semantic, configuration, None))|
              + RuntimeBytes(Some(prior)) - RuntimeBytes(None)
  {
    RecordsLength(p, FreshDatabase(p.md5, nodes, segments, inputs, semantic, configuration, Some(prior)));
    RecordsLength(p, FreshDatabase(p.md5, nodes, segments, inputs, semantic, configuration, None));
    TablesAlike(p, prior.stableIds, nodes);
    FreshIsFrontendAndRuntime(p.md5, inputs, segments, Some(prior));
    FreshIsFrontendAndRuntime(p.md5, inputs, segments, None);
    hide DatabaseFile.Records, FreshSections, FrontendSections, RuntimeSections, Assigned;
    EncodeAllJoin(SectionCodec(), FrontendSections(p.md5, inputs, segments), RuntimeSections(Some(prior)));
    EncodeAllJoin(SectionCodec(), FrontendSections(p.md5, inputs, segments), RuntimeSections(None));
  }

  ghost predicate Roomy(prior: seq<StableIdEntry>, nodes: seq<Node>) {
    forall ns :: Room(prior, nodes, ns)
  }

  /** The tests of a save that do not depend on the prior database. */
  predicate Sound(p: Platform, nodes: seq<Node>, segments: seq<seq<byte>>, inputs: seq<InputDependency>) {
    && DistinctInputs(inputs) && DistinctNodes(nodes) && |nodes| <= MAX_RECORDS
    && AllHold(InputCodec(p).valid, inputs)
    && AllHold(SectionCodec().valid, FrontendSections(p.md5, inputs, segments))
  }

  lemma FreshSavesIff(p: Platform, nodes: seq<Node>, segments: seq<seq<byte>>, inputs: seq<InputDependency>,
                      semantic: Digest, configuration: Digest, prior: Option<Database>)
    requires PriorInLine(prior) && |semantic| == 32 && |configuration| == 32
    ensures var db := FreshDatabase(p.md5, nodes, segments, inputs, semantic, configuration, prior);
      Save(DatabaseLayout(p), p, db).Success? <==>
        && Sound(p, nodes, segments, inputs) && Roomy(PriorIds(prior), nodes)
        && |FrontendSections(p.md5, inputs, segments)| + |RuntimeSections(prior)| <= MAX_RECORDS
        && AllHold(StableIdCodec(p).valid, db.stableIds) && AllHold(SectionCodec().valid, RuntimeSections(prior))
        && 64 + |DatabaseFile.Records(p, db)| <= MAX_DATABASE_BYTES - HEADER_LEN
  {
    hide Save, Validate, DatabaseFile.Records, FreshSections, FrontendSections, RuntimeSections, Assigned, Room,
        AllHold;
    hide DistinctInputs, DistinctNodes, InLine, DatabaseLayout, InputCodec, StableIdCodec, SectionCodec;
    SavesIff(p, FreshDatabase(p.md5, nodes, segments, inputs, semantic, configuration, prior));
    FreshValidatesIff(p.md5, nodes, segments, inputs, semantic, configuration, prior);
    SectionsOnTop(p.md5, inputs, segments, prior);
  }

  /** Neither too many sections, nor too few numbers, nor too many bytes because of what was built before. */
  ghost predicate Affordable(p: Platform, nodes: seq<Node>, segments: seq<seq<byte>>, inputs: seq<InputDependency>,
                             semantic: Digest, configuration: Digest, prior: Database) {
    && Roomy(prior.stableIds, nodes)
    && |FrontendSections(p.md5, inputs, segments)| + |RuntimeSections(Some(prior))| <= MAX_RECORDS
    && 64 + |DatabaseFile.Records(p, FreshDatabase(p.md5, nodes, segments, inputs, semantic, configuration, None))|
         + RuntimeBytes(Some(prior)) - RuntimeBytes(None) <= MAX_DATABASE_BYTES - HEADER_LEN
  }

  /** Where the database made from scratch saves, the one on top of a prior one saves exactly if it can afford it. */
  lemma SavesOnTopIff(p: Platform, nodes: seq<Node>, segments: seq<seq<byte>>, inputs: seq<InputDependency>,
                      semantic: Digest, configuration: Digest, prior: Database)
    requires InLine(prior) && AllHold(SectionCodec().valid, prior.sections)
    requires |semantic| == 32 && |configuration| == 32
    requires Save(DatabaseLayout(p), p,
        FreshDatabase(p.md5, nodes, segments, inputs, semantic, configuration, None)).Success?
    ensures Save(DatabaseLayout(p), p,
                 FreshDatabase(p.md5, nodes, segments, inputs, semantic, configuration, Some(prior))).Success?
       <==> Affordable(p, nodes, segments, inputs, semantic, configuration, prior)
  {
    hide Save, DatabaseFile.Records, FreshSections, FrontendSections, RuntimeSections, Assigned, Roomy, AllHold, Sound;
    hide RuntimeBytes, InLine, DatabaseLayout, StableIdCodec, SectionCodec;
    FreshSavesIff(p, nodes, segments, inputs, semantic, configuration, None);
    FreshSavesIff(p, nodes, segments, inputs, semantic, configuration, Some(prior));
    InLineIsBounded(prior);
    LengthOnTop(p, nodes, segments, inputs, semantic, configuration, prior);
    TablesAlike(p, prior.stableIds, nodes);
    KeptValid(prior);
  }

  lemma InLineIsBounded(db: Database)
    requires InLine(db)
    ensures Bounded(db.stableIds)
  {
  }

  lemma SectionsOnTop(md5: Md5, inputs: seq<InputDependency>, segments: seq<seq<byte>>, prior: Option<Database>)
    ensures var sections, frontend := FreshSections(md5, inputs, segments, prior),
        FrontendSections(md5, inputs, segments);
      && |sections| == |frontend| + |RuntimeSections(prior)|
      && (AllHold(SectionCodec().valid, sections) <==>
            AllHold(SectionCodec().valid, frontend) && AllHold(SectionCodec().valid, RuntimeSections(prior)))
  {
    FreshIsFrontendAndRuntime(md5, inputs, segments, prior);
    AllHoldJoin(SectionCodec().valid, FrontendSections(md5, inputs, segments), RuntimeSections(prior));
    hide SectionCodec, FreshSections, FrontendSections, RuntimeSections, AllHold;
  }

  /** A loaded database is within the format's limits. */
  lemma LoadedSectionsValid(p: Platform, bytes: seq<byte>, db: Database)
    requires Sixteen(p.md5) && Load(DatabaseLayout(p), p, bytes) == Success(db)
    ensures AllHold(SectionCodec().valid, db.sections)
  {
    hide DatabaseCodec, Load, Validate;
    DatabaseLawful(p);
    LoadedIsValid(DatabaseLayout(p), p, bytes, db);
    RepresentableDigests(p, db);
    DatabaseFields(p, db);
  }

  lemma RepresentableDigests(p: Platform, db: Database)
    requires DatabaseCodec(p).fits(db)
    ensures |db.semanticDigest| == 32 && |db.buildDigest| == 32
  {
    var ic, tc, sc := InputCodec(p), StableIdCodec(p), SectionCodec();
    FiveFields(FixedCodec(32), FixedCodec(32), CountedCodec(ic, MAX_RECORDS), CountedCodec(tc, MAX_RECORDS),
               CountedCodec(sc, MAX_RECORDS), DatabaseParts(db));
  }

  // ---- at an input ----

  /** A prior table whose last number is taken: a name more than before validates from scratch and not on top. */
  lemma SaturatedTableFails(md5: Md5, segments: seq<seq<byte>>, inputs: seq<InputDependency>,
                            semantic: Digest, configuration: Digest)
    requires DistinctInputs(inputs) && |FreshSections(md5, inputs, segments, None)| <= MAX_RECORDS
    ensures var nodes := [Node(Type, [1]), Node(Type, [2])];
      var prior := Database(semantic, configuration, [], [StableIdEntry(TYPE_NAMESPACE, [1], MAX_ID)], []);
      && InLine(prior)
      && Validate(FreshDatabase(md5, nodes, segments, inputs, semantic, configuration, None)).Success?
      && Validate(FreshDatabase(md5, nodes, segments, inputs, semantic, configuration, Some(prior))).Failure?
  {
    var nodes := [Node(Type, [1]), Node(Type, [2])];
    var prior := Database(semantic, configuration, [], [StableIdEntry(TYPE_NAMESPACE, [1], MAX_ID)], []);
    ExhaustedNamespace();
    hide FreshDatabase, FreshSections, Assigned, DistinctInputs, ValidTable;
    AssignedValidIff(prior.stableIds, nodes);
    SaturatedIsInLine(semantic, configuration);
    hide InLine, Validate;
    FreshValidatesIff(md5, nodes, segments, inputs, semantic, configuration, Some(prior));
    FreshValidatesIff(md5, nodes, segments, inputs, semantic, configuration, None);
    RoomAtFirst(nodes);
    hide Room;
  }

  lemma SaturatedIsInLine(semantic: Digest, configuration: Digest)
    ensures InLine(Database(semantic, configuration, [], [StableIdEntry(TYPE_NAMESPACE, [1], MAX_ID)], []))
  {
  }

  lemma RoomAtFirst(nodes: seq<Node>)
    requires |nodes| <= 2
    ensures forall ns :: Room([], nodes, ns)
  {
    forall ns
      ensures Room([], nodes, ns)
    {
      assert NewBefore([], nodes, ns, |nodes|) <= 2 && Next([], ns) == 0;
    }
  }
}
