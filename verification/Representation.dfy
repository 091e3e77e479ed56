/**
  Databases built from representable parts fit the file format's integer and
  string types, so that saving and loading them is lossless.
 */
module Representation {
  import opened Wrappers
  import opened MachineIntegers
  import opened Codecs
  import opened Containers
  import opened DatabaseModel
  import opened DatabaseFile
  import opened Paging
  import opened StableIds
  import opened Builds
  import opened Lineage

  predicate Small(ids: seq<nat>) {
    |ids| < U64_LIMIT && forall k :: 0 <= k < |ids| ==> ids[k] < U64_LIMIT
  }

  predicate SmallSection(s: Section) {
    && s.sectionId < U64_LIMIT
    && Small(s.sectionDependencies)
    && Small(s.inputDependencies)
    && |s.contentDigest| == 32
    && |s.payload| < U64_LIMIT
  }

  lemma IdsFit(ids: seq<nat>)
    ensures IdsCodec().fits(ids) <==> Small(ids)
  {
    Widths();
    assert IdsCodec().fits(ids) <==> |ids| < U64_LIMIT && AllHold(IntCodec(8).fits, ids);
  }

  lemma SectionFields<A, B, C, D, E>(
      a: Codec<A>, b: Codec<B>, c: Codec<C>, d: Codec<D>, e: Codec<E>, t: (A, (B, (C, (D, E)))))
    ensures PairCodec(a, PairCodec(b, PairCodec(c, PairCodec(d, e)))).fits(t)
       <==> a.fits(t.0) && b.fits(t.1.0) && c.fits(t.1.1.0) && d.fits(t.1.1.1.0) && e.fits(t.1.1.1.1)
  {
    PairFields(d, e, t.1.1.1);
    PairFields(c, PairCodec(d, e), t.1.1);
    PairFields(b, PairCodec(c, PairCodec(d, e)), t.1);
    PairFields(a, PairCodec(b, PairCodec(c, PairCodec(d, e))), t);
  }

  lemma SectionFits(s: Section)
    ensures SectionCodec().fits(s) <==> SmallSection(s)
  {
    Widths();
    IdsFit(s.sectionDependencies);
    IdsFit(s.inputDependencies);
    SectionFields(IntCodec(8), IdsCodec(), IdsCodec(), FixedCodec(32), BytesCodec(8, MAX_SECTION_PAYLOAD_BYTES),
        SectionParts(s));
    assert SectionFrom(SectionParts(s)) == s;
  }

  predicate SmallSections(sections: seq<Section>) {
    |sections| < U64_LIMIT && forall s :: s in sections ==> SmallSection(s)
  }

  predicate GoodText(p: Platform, t: Text) {
    |t| < U64_LIMIT && p.utf8(t)
  }

  predicate GoodInputs(p: Platform, inputs: seq<InputDependency>) {
    && |inputs| < U64_LIMIT
    && forall i :: 0 <= i < |inputs| ==>
         GoodText(p, inputs[i].identity) && |inputs[i].contentDigest| == 32 && inputs[i].byteLength < U64_LIMIT
  }

  predicate GoodIds(p: Platform, entries: seq<StableIdEntry>) {
    && |entries| < U64_LIMIT
    && forall i :: 0 <= i < |entries| ==>
         GoodText(p, entries[i].namespace) && GoodText(p, entries[i].name) && entries[i].id < U64_LIMIT
  }

  lemma InputsFit(p: Platform, inputs: seq<InputDependency>)
    ensures CountedCodec(InputCodec(p), MAX_RECORDS).fits(inputs) <==> GoodInputs(p, inputs)
  {
    Widths();
    forall i | 0 <= i < |inputs|
      ensures InputCodec(p).fits(inputs[i]) <==>
        GoodText(p, inputs[i].identity) && |inputs[i].contentDigest| == 32 && inputs[i].byteLength < U64_LIMIT
    {
      var x := inputs[i];
      PairFields(FixedCodec(32), IntCodec(8), InputParts(x).1);
      PairFields(TextCodec(p.utf8, MAX_STRING_BYTES), PairCodec(FixedCodec(32), IntCodec(8)), InputParts(x));
      assert InputFrom(InputParts(x)) == x;
    }
  }

  lemma IdsTableFits(p: Platform, entries: seq<StableIdEntry>)
    ensures CountedCodec(StableIdCodec(p), MAX_RECORDS).fits(entries) <==> GoodIds(p, entries)
  {
    Widths();
    var text := TextCodec(p.utf8, MAX_STRING_BYTES);
    forall i | 0 <= i < |entries|
      ensures StableIdCodec(p).fits(entries[i]) <==>
        GoodText(p, entries[i].namespace) && GoodText(p, entries[i].name) && entries[i].id < U64_LIMIT
    {
      var x := entries[i];
      PairFields(text, IntCodec(8), StableIdParts(x).1);
      PairFields(text, PairCodec(text, IntCodec(8)), StableIdParts(x));
      assert StableIdFrom(StableIdParts(x)) == x;
    }
  }

  lemma SectionListFits(sections: seq<Section>)
    ensures CountedCodec(SectionCodec(), MAX_RECORDS).fits(sections) <==> SmallSections(sections)
  {
    forall i | 0 <= i < |sections|
      ensures SectionCodec().fits(sections[i]) <==> SmallSection(sections[i])
    {
      SectionFits(sections[i]);
    }
    if SmallSections(sections) {
      assert forall i :: 0 <= i < |sections| ==> sections[i] in sections;
    }
  }

  /** Representability of a whole database, field by field. */
  lemma RepresentableIff(p: Platform, db: Database)
    ensures Representable(p, db) <==>
      && |db.semanticDigest| == 32 && |db.buildDigest| == 32
      && GoodInputs(p, db.inputs) && GoodIds(p, db.stableIds) && SmallSections(db.sections)
  {
    InputsFit(p, db.inputs);
    IdsTableFits(p, db.stableIds);
    SectionListFits(db.sections);
    SectionFields(FixedCodec(32), FixedCodec(32), CountedCodec(InputCodec(p), MAX_RECORDS),
      CountedCodec(StableIdCodec(p), MAX_RECORDS), CountedCodec(SectionCodec(), MAX_RECORDS), DatabaseParts(db));
    assert DatabaseFrom(DatabaseParts(db)) == db;
  }

  // ---- fresh and linked databases ----

  predicate GoodNodes(p: Platform, nodes: seq<Node>) {
    forall i :: 0 <= i < |nodes| ==> GoodText(p, Namespace(nodes[i])) && GoodText(p, nodes[i].path)
  }

  lemma RuntimeSmall(prior: Option<Database>, s: Section)
    requires prior.Some? ==> SmallSections(prior.value.sections)
    requires s in RuntimeSections(prior)
    ensures SmallSection(s)
  {
    if prior.Some? && Preserved(prior.value.sections).Some? {
      var (manifest, pages) := Preserved(prior.value.sections).value;
      if s != manifest {
        var i :| 0 <= i < |pages| && RelinkAll(pages)[i] == s;
        assert pages[i] in pages && pages[i] in prior.value.sections;
      }
    }
  }

  lemma LinkedPagesSmall(md5: Md5, pages: seq<seq<byte>>, dependencies: seq<nat>, s: Section)
    requires forall b :: |md5(b)| == 16
    requires |pages| <= MAX_RECORDS && Small(dependencies)
    requires forall c :: c in pages ==> |c| <= MAX_SECTION_PAYLOAD_BYTES
    requires s in LinkedPages(md5, pages, dependencies)
    ensures SmallSection(s)
  {
    var i :| 0 <= i < |pages| && LinkedPages(md5, pages, dependencies)[i] == s;
    assert pages[i] in pages;
  }

  lemma FreshSectionsSmall(md5: Md5, inputs: seq<InputDependency>, segments: seq<seq<byte>>, prior: Option<Database>)
    requires forall b :: |md5(b)| == 16
    requires prior.Some? ==> SmallSections(prior.value.sections)
    requires forall i :: 0 <= i < |inputs| ==> |inputs[i].contentDigest| == 32
    requires |FreshSections(md5, inputs, segments, prior)| <= MAX_RECORDS
    ensures SmallSections(FreshSections(md5, inputs, segments, prior))
  {
    var pages, inputIds := AllPages(segments), PageIds(INPUT_SECTION_BASE, |inputs|);
    assert |inputs| <= MAX_RECORDS && |pages| <= MAX_RECORDS;
    assert Small(inputIds) && Small(PageIds(LINKED_PAYLOAD_PAGE_BASE, |pages|));
    forall s | s in FreshSections(md5, inputs, segments, prior)
      ensures SmallSection(s)
    {
      FreshMembers(md5, inputs, segments, prior, s);
      if s in RuntimeSections(prior) {
        RuntimeSmall(prior, s);
      } else if s in LinkedPages(md5, pages, inputIds) {
        LinkedPagesSmall(md5, pages, inputIds, s);
      } else if s in InputSections(inputs) {
        var i :| 0 <= i < |inputs| && InputSections(inputs)[i] == s;
      }
    }
  }

  lemma AssignedAreGood(p: Platform, prior: seq<StableIdEntry>, nodes: seq<Node>)
    requires Bounded(prior) && GoodNodes(p, nodes) && |nodes| < U64_LIMIT
    ensures GoodIds(p, Assigned(prior, nodes))
  {
    AssignedBounded(prior, nodes);
  }

  lemma FreshRepresentable(p: Platform, nodes: seq<Node>, segments: seq<seq<byte>>, inputs: seq<InputDependency>,
                           semantic: Digest, configuration: Digest, prior: Option<Database>)
    requires Sixteen(p.md5) && PriorInLine(prior) && (prior.Some? ==> Representable(p, prior.value))
    requires |semantic| == 32 && |configuration| == 32 && GoodInputs(p, inputs) && GoodNodes(p, nodes)
    requires Validate(FreshDatabase(p.md5, nodes, segments, inputs, semantic, configuration, prior)).Success?
    ensures Representable(p, FreshDatabase(p.md5, nodes, segments, inputs, semantic, configuration, prior))
  {
    if prior.Some? {
      RepresentableIff(p, prior.value);
    }
    AssignedAreGood(p, PriorIds(prior), nodes);
    hide Assigned, FreshSections, Validate, GoodIds, SmallSections, Representable, InLine;
    FreshSectionsSmall(p.md5, inputs, segments, prior);
    RepresentableIff(p, FreshDatabase(p.md5, nodes, segments, inputs, semantic, configuration, prior));
  }

  lemma LinkedSectionsSmall(md5: Md5, sections: seq<Section>, digest: Digest, payload: seq<byte>)
    requires forall b :: |md5(b)| == 16
    requires SmallSections(sections) && |digest| == 32
    requires |LinkedSections(md5, sections, digest, payload)| <= MAX_RECORDS
    ensures SmallSections(LinkedSections(md5, sections, digest, payload))
  {
    var id, base := PERSISTENT_EXECUTABLE_SECTION, PERSISTENT_EXECUTABLE_PAGE_BASE;
    PageCountFits(md5, sections, id, base, digest, payload, [LINKED_FRONTEND_SECTION]);
    assert Small(PageIds(base, |Chunks(payload)|));
    forall s | s in LinkedSections(md5, sections, digest, payload)
      ensures SmallSection(s)
    {
      ReplacedMembers(md5, sections, id, base, digest, payload, [LINKED_FRONTEND_SECTION], s);
      var all := PageSections(md5, Chunks(payload), base, [LINKED_FRONTEND_SECTION]);
      if s in all {
        var i :| 0 <= i < |all| && all[i] == s;
        assert Chunks(payload)[i] in Chunks(payload);
      }
    }
  }

  lemma LinkedRepresentable(p: Platform, db: Database, digest: Digest, payload: seq<byte>)
    requires Sixteen(p.md5) && Representable(p, db) && |digest| == 32
    requires Validate(Linked(p.md5, db, digest, payload)).Success?
    ensures Representable(p, Linked(p.md5, db, digest, payload))
  {
    RepresentableIff(p, db);
    LinkedSectionsSmall(p.md5, db.sections, digest, payload);
    RepresentableIff(p, Linked(p.md5, db, digest, payload));
  }
}
