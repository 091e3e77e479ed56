/**
  What every database in a line of builds keeps: it validates, and the linked
  runtime artifact of the last link survives any number of frontend builds
  (crates/dm-compiler/src/lib.rs:919-1004; persistent_database.rs:475-518).
 */
module Lineage {
  import opened Wrappers
  import opened Codecs
  import opened DatabaseModel
  import opened Paging
  import opened StableIds
  import opened Builds

  predicate RuntimeId(id: nat) {
    id == PERSISTENT_EXECUTABLE_SECTION || InExecutableRange(id)
  }

  /** Runtime sections depend on sections only, never on an input index. */
  predicate RuntimePlain(sections: seq<Section>) {
    forall s :: s in sections && RuntimeId(s.sectionId) ==> s.inputDependencies == []
  }

  /** The pages of the linked frontend keep out of the runtime's ID range. */
  predicate FrontendApart(sections: seq<Section>) {
    forall s :: s in sections && s.sectionId == LINKED_FRONTEND_SECTION ==>
      Untouched(PERSISTENT_EXECUTABLE_SECTION, PERSISTENT_EXECUTABLE_PAGE_BASE, s.sectionDependencies)
  }

  /** A database that a line of builds and links can produce. */
  predicate InLine(db: Database) {
    && Validate(db).Success?
    && Bounded(db.stableIds)
    && RuntimePlain(db.sections)
    && FrontendApart(db.sections)
  }

  predicate PriorInLine(prior: Option<Database>) {
    prior.Some? ==> InLine(prior.value)
  }

  // ---- distinct section IDs ----

  predicate IdsWithin(sections: seq<Section>, lo: nat, hi: nat) {
    forall i :: 0 <= i < |sections| ==> lo <= sections[i].sectionId < hi
  }

  lemma DistinctConcat(a: seq<Section>, b: seq<Section>)
    requires DistinctSections(a) && DistinctSections(b)
    requires forall i, j :: 0 <= i < |a| && 0 <= j < |b| ==> a[i].sectionId != b[j].sectionId
    ensures DistinctSections(a + b)
  {
    forall i, j | 0 <= i < j < |a + b|
      ensures (a + b)[i].sectionId != (a + b)[j].sectionId
    {
      if j < |a| {
      } else if i < |a| {
        assert a[i].sectionId != b[j - |a|].sectionId;
      } else {
        assert b[i - |a|].sectionId != b[j - |a|].sectionId;
      }
    }
  }

  lemma {:induction false} ListedDistinct(sections: seq<Section>, ids: seq<nat>)
    requires DistinctSections(sections)
    ensures DistinctSections(Listed(sections, ids))
  {
    if sections != [] {
      ListedDistinct(sections[1..], ids);
      var rest := Listed(sections[1..], ids);
      if sections[0].sectionId in ids {
        forall j | 0 <= j < |rest|
          ensures rest[j].sectionId != sections[0].sectionId
        {
          assert rest[j] in sections[1..];
        }
        DistinctConcat([sections[0]], rest);
      }
    }
  }

  lemma RuntimeSectionsShape(prior: Option<Database>)
    requires PriorInLine(prior)
    ensures var r := RuntimeSections(prior);
      && DistinctSections(r)
      && (forall i :: 0 <= i < |r| ==> RuntimeId(r[i].sectionId) && r[i].inputDependencies == [])
  {
    var kept := if prior.None? then None else Preserved(prior.value.sections);
    if kept.Some? {
      var (manifest, pages) := kept.value;
      var sections := prior.value.sections;
      ListedDistinct(sections, manifest.sectionDependencies);
      forall i | 0 <= i < |pages|
        ensures pages[i] in sections && InExecutableRange(pages[i].sectionId)
      {
        assert pages[i] in pages;
      }
      hide Preserved, Listed, Validate;
      DistinctConcat(RelinkAll(pages), [manifest]);
    }
  }

  lemma FreshParts(md5: Md5, inputs: seq<InputDependency>, segments: seq<seq<byte>>, prior: Option<Database>)
    requires PriorInLine(prior)
    requires |FreshSections(md5, inputs, segments, prior)| <= MAX_RECORDS
    ensures DistinctSections(FreshSections(md5, inputs, segments, prior))
  {
    var pages := AllPages(segments);
    var a := InputSections(inputs);
    var b := LinkedPages(md5, pages, PageIds(INPUT_SECTION_BASE, |inputs|));
    var c := [LinkedManifest(md5, pages)];
    var d := RuntimeSections(prior);
    RuntimeSectionsShape(prior);
    assert FreshSections(md5, inputs, segments, prior) == a + b + c + d;
    assert |inputs| <= MAX_RECORDS && |pages| <= MAX_RECORDS;
    assert IdsWithin(a, INPUT_SECTION_BASE, INPUT_SECTION_BASE + MAX_RECORDS);
    assert IdsWithin(b, LINKED_PAYLOAD_PAGE_BASE, LINKED_PAYLOAD_PAGE_BASE + MAX_RECORDS);
    assert DistinctSections(a) && DistinctSections(b) && DistinctSections(c);
    DistinctConcat(a, b);
    var ab := a + b;
    assert IdsWithin(ab, INPUT_SECTION_BASE, LINKED_PAYLOAD_PAGE_BASE + MAX_RECORDS);
    DistinctConcat(ab, c);
    FrontendIsApart(ab, c[0], d);
  }

  /** Frontend sections and runtime sections never share an ID. */
  lemma FrontendIsApart(ab: seq<Section>, manifest: Section, d: seq<Section>)
    requires IdsWithin(ab, INPUT_SECTION_BASE, LINKED_PAYLOAD_PAGE_BASE + MAX_RECORDS)
    requires manifest.sectionId == LINKED_FRONTEND_SECTION
    requires forall j :: 0 <= j < |d| ==> RuntimeId(d[j].sectionId)
    requires DistinctSections(ab + [manifest]) && DistinctSections(d)
    ensures DistinctSections(ab + [manifest] + d)
  {
    forall i, j | 0 <= i < |ab + [manifest]| && 0 <= j < |d|
      ensures (ab + [manifest])[i].sectionId != d[j].sectionId
    {
      assert RuntimeId(d[j].sectionId);
    }
    DistinctConcat(ab + [manifest], d);
  }

  // ---- known dependencies ----

  predicate KnownOne(inputs: nat, ids: set<nat>, s: Section) {
    && (forall k :: 0 <= k < |s.inputDependencies| ==> s.inputDependencies[k] < inputs)
    && (forall k :: 0 <= k < |s.sectionDependencies| ==> s.sectionDependencies[k] in ids)
  }

  lemma MemberId(sections: seq<Section>, s: Section)
    requires s in sections
    ensures s.sectionId in SectionIds(sections)
  {
  }

  lemma FreshMembers(
      md5: Md5, inputs: seq<InputDependency>, segments: seq<seq<byte>>, prior: Option<Database>, s: Section)
    ensures s in FreshSections(md5, inputs, segments, prior) <==>
      || s in InputSections(inputs)
      || s in LinkedPages(md5, AllPages(segments), PageIds(INPUT_SECTION_BASE, |inputs|))
      || s == LinkedManifest(md5, AllPages(segments))
      || s in RuntimeSections(prior)
  {
  }

  lemma KeptPageKnown(md5: Md5, inputs: seq<InputDependency>, segments: seq<seq<byte>>, prior: Database, id: nat)
    requires InLine(prior) && Preserved(prior.sections).Some?
    requires id in Preserved(prior.sections).value.0.sectionDependencies
    ensures id in SectionIds(FreshSections(md5, inputs, segments, Some(prior)))
  {
    PreservedPage(prior, id);
    hide FreshSections, InLine, Preserved, SectionIds, Find;
    var sections, pages := FreshSections(md5, inputs, segments, Some(prior)), Preserved(prior.sections).value.1;
    var page := Find(prior.sections, id).value;
    FoundHasId(prior.sections, id);
    var i :| 0 <= i < |pages| && pages[i] == page;
    assert RelinkAll(pages)[i] == Relink(page);
    FreshMembers(md5, inputs, segments, Some(prior), Relink(page));
    MemberId(sections, Relink(page));
  }

  lemma FoundHasId(sections: seq<Section>, id: nat)
    requires Find(sections, id).Some?
    ensures Find(sections, id).value.sectionId == id
  {
  }

  lemma ManifestKnown(md5: Md5, inputs: seq<InputDependency>, segments: seq<seq<byte>>, prior: Option<Database>)
    ensures LINKED_FRONTEND_SECTION in SectionIds(FreshSections(md5, inputs, segments, prior))
  {
    FreshMembers(md5, inputs, segments, prior, LinkedManifest(md5, AllPages(segments)));
    hide FreshSections;
    MemberId(FreshSections(md5, inputs, segments, prior), LinkedManifest(md5, AllPages(segments)));
  }

  /** A carried section depends on the new frontend alone, or is the kept manifest. */
  lemma RuntimeDependencies(prior: Option<Database>, s: Section)
    requires PriorInLine(prior) && s in RuntimeSections(prior)
    ensures s.inputDependencies == []
    ensures var kept := if prior.None? then None else Preserved(prior.value.sections);
      (kept.Some? && s == kept.value.0) || s.sectionDependencies == [LINKED_FRONTEND_SECTION]
  {
    RuntimeSectionsShape(prior);
    hide Preserved, InLine;
  }

  lemma RuntimeKnown(
      md5: Md5, inputs: seq<InputDependency>, segments: seq<seq<byte>>, prior: Option<Database>, s: Section)
    requires PriorInLine(prior) && s in RuntimeSections(prior)
    ensures KnownOne(|inputs|, SectionIds(FreshSections(md5, inputs, segments, prior)), s)
  {
    var sections := FreshSections(md5, inputs, segments, prior);
    RuntimeDependencies(prior, s);
    ManifestKnown(md5, inputs, segments, prior);
    hide FreshSections, SectionIds, InLine, Preserved, RuntimeSections;
    var kept := if prior.None? then None else Preserved(prior.value.sections);
    if kept.Some? && s == kept.value.0 {
      var (manifest, pages) := kept.value;
      forall k | 0 <= k < |s.sectionDependencies|
        ensures s.sectionDependencies[k] in SectionIds(sections)
      {
        KeptPageKnown(md5, inputs, segments, prior.value, s.sectionDependencies[k]);
      }
    }
  }

  /** Every page the kept manifest lists is itself kept. */
  lemma PreservedPage(db: Database, id: nat)
    requires InLine(db) && Preserved(db.sections).Some?
    requires id in Preserved(db.sections).value.0.sectionDependencies
    ensures Find(db.sections, id).Some? && Find(db.sections, id).value in Preserved(db.sections).value.1
  {
    var manifest := Preserved(db.sections).value.0;
    var i :| 0 <= i < |db.sections| && db.sections[i] == manifest;
    assert id in SectionIds(db.sections);
    var j :| 0 <= j < |db.sections| && db.sections[j].sectionId == id;
    assert db.sections[j] in db.sections;
  }

  lemma AllKnown(sections: seq<Section>, part: seq<Section>, ids: seq<nat>)
    requires |part| == |ids| && forall k :: 0 <= k < |ids| ==> part[k].sectionId == ids[k]
    requires forall s :: s in part ==> s in sections
    ensures forall k :: 0 <= k < |ids| ==> ids[k] in SectionIds(sections)
  {
    forall k | 0 <= k < |ids|
      ensures ids[k] in SectionIds(sections)
    {
      assert part[k] in part;
      MemberId(sections, part[k]);
    }
  }

  lemma FreshKnown(md5: Md5, inputs: seq<InputDependency>, segments: seq<seq<byte>>, prior: Option<Database>)
    requires PriorInLine(prior)
    ensures KnownDependencies(|inputs|, FreshSections(md5, inputs, segments, prior))
  {
    var sections, pages := FreshSections(md5, inputs, segments, prior), AllPages(segments);
    var inputIds := PageIds(INPUT_SECTION_BASE, |inputs|);
    AllKnown(sections, InputSections(inputs), inputIds);
    AllKnown(sections, LinkedPages(md5, pages, inputIds), PageIds(LINKED_PAYLOAD_PAGE_BASE, |pages|));
    forall i | 0 <= i < |sections|
      ensures KnownOne(|inputs|, SectionIds(sections), sections[i])
    {
      FreshOneKnown(md5, inputs, segments, prior, sections[i]);
    }
  }

  lemma FreshOneKnown(
      md5: Md5, inputs: seq<InputDependency>, segments: seq<seq<byte>>, prior: Option<Database>, s: Section)
    requires PriorInLine(prior) && s in FreshSections(md5, inputs, segments, prior)
    requires var ids := SectionIds(FreshSections(md5, inputs, segments, prior));
      && (forall k :: 0 <= k < |inputs| ==> PageIds(INPUT_SECTION_BASE, |inputs|)[k] in ids)
      && (forall k :: 0 <= k < |AllPages(segments)| ==>
          PageIds(LINKED_PAYLOAD_PAGE_BASE, |AllPages(segments)|)[k] in ids)
    ensures KnownOne(|inputs|, SectionIds(FreshSections(md5, inputs, segments, prior)), s)
  {
    FreshMembers(md5, inputs, segments, prior, s);
    if s in RuntimeSections(prior) {
      RuntimeKnown(md5, inputs, segments, prior, s);
    } else if s in InputSections(inputs) {
      var i :| 0 <= i < |inputs| && InputSections(inputs)[i] == s;
    } else if s != LinkedManifest(md5, AllPages(segments)) {
      var part := LinkedPages(md5, AllPages(segments), PageIds(INPUT_SECTION_BASE, |inputs|));
      var i :| 0 <= i < |part| && part[i] == s;
    }
  }

  // ---- main results ----

  function PriorIds(prior: Option<Database>): seq<StableIdEntry> {
    if prior.None? then [] else prior.value.stableIds
  }

  /**
    A build on top of any database of the line validates exactly when inputs and nodes are distinct, no list is
    too long and every namespace has room in the prior table: the only ways in which what was built before can
    make a build fail that would succeed from scratch are the prior table's numbers and the kept runtime pages.
   */
  lemma FreshValidatesIff(md5: Md5, nodes: seq<Node>, segments: seq<seq<byte>>, inputs: seq<InputDependency>,
                          semantic: Digest, configuration: Digest, prior: Option<Database>)
    requires PriorInLine(prior)
    ensures Validate(FreshDatabase(md5, nodes, segments, inputs, semantic, configuration, prior)).Success? <==>
      && DistinctInputs(inputs) && DistinctNodes(nodes) && |nodes| <= MAX_RECORDS
      && (forall ns :: Room(PriorIds(prior), nodes, ns))
      && |FreshSections(md5, inputs, segments, prior)| <= MAX_RECORDS
  {
    var table := Assigned(PriorIds(prior), nodes);
    assert |table| == |nodes|;
    if DistinctNodes(nodes) {
      AssignedValidIff(PriorIds(prior), nodes);
    } else {
      var i, j :| 0 <= i < j < |nodes| && KeyOf(nodes[i]) == KeyOf(nodes[j]);
      assert (table[i].namespace, table[i].name) == (table[j].namespace, table[j].name);
    }
    AssignedBounded(PriorIds(prior), nodes);
    hide Assigned, FreshSections, Room;
    if |FreshSections(md5, inputs, segments, prior)| <= MAX_RECORDS {
      FreshParts(md5, inputs, segments, prior);
      FreshKnown(md5, inputs, segments, prior);
    }
  }

  /** Whenever the new database validates it is in line. */
  lemma ValidatedStaysInLine(md5: Md5, nodes: seq<Node>, segments: seq<seq<byte>>, inputs: seq<InputDependency>,
                             semantic: Digest, configuration: Digest, prior: Option<Database>)
    requires PriorInLine(prior)
    requires Validate(FreshDatabase(md5, nodes, segments, inputs, semantic, configuration, prior)).Success?
    ensures InLine(FreshDatabase(md5, nodes, segments, inputs, semantic, configuration, prior))
  {
    AssignedBounded(PriorIds(prior), nodes);
    var sections, pages := FreshSections(md5, inputs, segments, prior), AllPages(segments);
    RuntimeSectionsShape(prior);
    assert |pages| <= MAX_RECORDS;
    forall s | s in sections
      ensures RuntimeId(s.sectionId) ==> s.inputDependencies == []
      ensures s.sectionId == LINKED_FRONTEND_SECTION ==>
        Untouched(PERSISTENT_EXECUTABLE_SECTION, PERSISTENT_EXECUTABLE_PAGE_BASE, s.sectionDependencies)
    {
      FreshMembers(md5, inputs, segments, prior, s);
    }
  }

  /**
    A build on top of any database of the line validates, so writing it can fail
    only by a size limit or an exhausted ID space, and it stays in line.
   */
  lemma FreshStaysInLine(md5: Md5, nodes: seq<Node>, segments: seq<seq<byte>>, inputs: seq<InputDependency>,
                         semantic: Digest, configuration: Digest, prior: Option<Database>)
    requires PriorInLine(prior)
    requires DistinctInputs(inputs) && DistinctNodes(nodes) && |nodes| <= MAX_RECORDS
    requires forall ns :: Room(PriorIds(prior), nodes, ns)
    requires |FreshSections(md5, inputs, segments, prior)| <= MAX_RECORDS
    ensures InLine(FreshDatabase(md5, nodes, segments, inputs, semantic, configuration, prior))
  {
    FreshValidatesIff(md5, nodes, segments, inputs, semantic, configuration, prior);
    ValidatedStaysInLine(md5, nodes, segments, inputs, semantic, configuration, prior);
  }

  /** Linking a runtime artifact into a database of the line keeps it in line. */
  lemma LinkStaysInLine(md5: Md5, db: Database, digest: Digest, payload: seq<byte>)
    requires InLine(db)
    requires var linked := Linked(md5, db, digest, payload); Validate(linked).Success?
    ensures InLine(Linked(md5, db, digest, payload))
  {
    var id, base := PERSISTENT_EXECUTABLE_SECTION, PERSISTENT_EXECUTABLE_PAGE_BASE;
    forall s | s in Linked(md5, db, digest, payload).sections
      ensures RuntimeId(s.sectionId) ==> s.inputDependencies == []
      ensures s.sectionId == LINKED_FRONTEND_SECTION ==> Untouched(id, base, s.sectionDependencies)
    {
      ReplacedMembers(md5, db.sections, id, base, digest, payload, [LINKED_FRONTEND_SECTION], s);
    }
  }

  /** The database after `replace_paged_section` as the linker calls it. */
  function Linked(md5: Md5, db: Database, digest: Digest, payload: seq<byte>): Database {
    db.(sections := LinkedSections(md5, db.sections, digest, payload))
  }

  function LinkedSections(md5: Md5, sections: seq<Section>, digest: Digest, payload: seq<byte>): seq<Section> {
    ReplaceSections(md5, sections, PERSISTENT_EXECUTABLE_SECTION, PERSISTENT_EXECUTABLE_PAGE_BASE,
                    digest, payload, [LINKED_FRONTEND_SECTION])
  }

  /** The database holds this runtime artifact in a form the next build keeps. */
  predicate HoldsRuntime(md5: Md5, sections: seq<Section>, payload: seq<byte>) {
    && SectionPayload(md5, sections, PERSISTENT_EXECUTABLE_SECTION) == Some(payload)
    && var manifest := Find(sections, PERSISTENT_EXECUTABLE_SECTION).value;
       && manifest.contentDigest != ZERO_DIGEST
       && AllInRange(manifest.sectionDependencies)
       && Distinct(manifest.sectionDependencies)
  }

  predicate Distinct(ids: seq<nat>) {
    forall i, j :: 0 <= i < j < |ids| ==> ids[i] != ids[j]
  }

  /** Linking a non-empty artifact under a non-zero digest stores it. */
  lemma LinkHolds(md5: Md5, db: Database, digest: Digest, payload: seq<byte>)
    requires forall b :: |md5(b)| == 16
    requires Validate(Linked(md5, db, digest, payload)).Success?
    requires payload != [] && digest != ZERO_DIGEST
    ensures HoldsRuntime(md5, Linked(md5, db, digest, payload).sections, payload)
  {
    var id, base := PERSISTENT_EXECUTABLE_SECTION, PERSISTENT_EXECUTABLE_PAGE_BASE;
    var sections := Linked(md5, db, digest, payload).sections;
    ReplacedReadsBack(md5, |db.inputs|, db.sections, id, base, digest, payload, [LINKED_FRONTEND_SECTION]);
    PageCountFits(md5, db.sections, id, base, digest, payload, [LINKED_FRONTEND_SECTION]);
    var manifest := Section(id, PageIds(base, |Chunks(payload)|), [], digest, []);
    ReplacedMembers(md5, db.sections, id, base, digest, payload, [LINKED_FRONTEND_SECTION], manifest);
    FindMember(sections, manifest);
    hide ReplaceSections, Validate, SectionPayload, Chunks, Find;
    PageRange(base, |Chunks(payload)|);
  }

  /** The page IDs of a runtime artifact are distinct and in range. */
  lemma PageRange(base: nat, count: nat)
    requires base == PERSISTENT_EXECUTABLE_PAGE_BASE && count <= MAX_RECORDS
    ensures Distinct(PageIds(base, count)) && AllInRange(PageIds(base, count))
  {
  }

  function IdsOf(sections: seq<Section>): seq<nat> {
    seq(|sections|, i requires 0 <= i < |sections| => sections[i].sectionId)
  }

  function Elements(ids: seq<nat>): set<nat> {
    set id | id in ids
  }

  lemma {:induction false} CountElements(ids: seq<nat>)
    requires Distinct(ids)
    ensures |Elements(ids)| == |ids|
    decreases |ids|
  {
    if ids != [] {
      var n := |ids| - 1;
      CountElements(ids[..n]);
      assert ids == ids[..n] + [ids[n]];
      assert Elements(ids) == Elements(ids[..n]) + {ids[n]};
    }
  }

  /** All listed sections exist, so as many are found as are listed. */
  lemma ListedCount(sections: seq<Section>, ids: seq<nat>)
    requires DistinctSections(sections) && Distinct(ids)
    requires forall k :: 0 <= k < |ids| ==> ids[k] in SectionIds(sections)
    ensures |Listed(sections, ids)| == |ids|
  {
    var listed := Listed(sections, ids);
    ListedDistinct(sections, ids);
    CountElements(ids);
    CountElements(IdsOf(listed));
    forall id | id in ids
      ensures id in IdsOf(listed)
    {
      var i :| 0 <= i < |sections| && sections[i].sectionId == id;
      assert sections[i] in sections && sections[i] in listed;
      var k :| 0 <= k < |listed| && listed[k] == sections[i];
      assert IdsOf(listed)[k] == id;
    }
    forall id | id in IdsOf(listed)
      ensures id in ids
    {
      var k :| 0 <= k < |listed| && IdsOf(listed)[k] == id;
      assert listed[k] in listed;
    }
    assert Elements(ids) == Elements(IdsOf(listed));
  }

  /** Pages found under the listed IDs carry the same bytes in both lists. */
  predicate SamePages(a: seq<Section>, b: seq<Section>, ids: seq<nat>) {
    forall k :: 0 <= k < |ids| && FindLast(a, ids[k]).Some? ==> SamePage(a, b, ids[k])
  }

  predicate SamePage(a: seq<Section>, b: seq<Section>, id: nat)
    requires FindLast(a, id).Some?
  {
    var x, y := FindLast(a, id).value, FindLast(b, id);
    y.Some? && y.value.payload == x.payload && y.value.contentDigest == x.contentDigest
  }

  lemma {:induction false} SameJoin(md5: Md5, a: seq<Section>, b: seq<Section>, ids: seq<nat>)
    requires SamePages(a, b, ids) && JoinPages(md5, a, ids).Some?
    ensures JoinPages(md5, b, ids) == JoinPages(md5, a, ids)
    decreases |ids|
  {
    if ids != [] {
      SameJoin(md5, a, b, ids[1..]);
      assert FindLast(a, ids[0]).Some?;
    }
  }

  /** The runtime artifact survives a frontend build on top of the database that holds it. */
  lemma RuntimeSurvives(md5: Md5, nodes: seq<Node>, segments: seq<seq<byte>>, inputs: seq<InputDependency>,
                        semantic: Digest, configuration: Digest, prior: Database, payload: seq<byte>)
    requires InLine(prior) && HoldsRuntime(md5, prior.sections, payload)
    requires Validate(FreshDatabase(md5, nodes, segments, inputs, semantic, configuration, Some(prior))).Success?
    ensures HoldsRuntime(md5, FreshDatabase(md5, nodes, segments, inputs, semantic, configuration,
        Some(prior)).sections, payload)
  {
    var sections := FreshSections(md5, inputs, segments, Some(prior));
    var manifest := Find(prior.sections, PERSISTENT_EXECUTABLE_SECTION).value;
    var ids := manifest.sectionDependencies;
    var m :| 0 <= m < |prior.sections| && prior.sections[m] == manifest;
    ListedCount(prior.sections, ids);
    assert Preserved(prior.sections) == Some((manifest, Listed(prior.sections, ids)));
    FreshMembers(md5, inputs, segments, Some(prior), manifest);
    FindMember(sections, manifest);
    forall k | 0 <= k < |ids| && FindLast(prior.sections, ids[k]).Some?
      ensures SamePage(prior.sections, sections, ids[k])
    {
      KeptPageFound(md5, inputs, segments, prior, FindLast(prior.sections, ids[k]).value);
    }
    if manifest.payload == [] {
      SameJoin(md5, prior.sections, sections, ids);
    }
  }

  lemma KeptPageFound(md5: Md5, inputs: seq<InputDependency>, segments: seq<seq<byte>>, prior: Database, page: Section)
    requires InLine(prior) && Preserved(prior.sections).Some? && page in Preserved(prior.sections).value.1
    requires DistinctSections(FreshSections(md5, inputs, segments, Some(prior)))
    ensures FindLast(FreshSections(md5, inputs, segments, Some(prior)), page.sectionId) == Some(Relink(page))
  {
    var pages := Preserved(prior.sections).value.1;
    var i :| 0 <= i < |pages| && pages[i] == page;
    assert RelinkAll(pages)[i] == Relink(page);
    assert Relink(page) in RelinkAll(pages);
    FreshMembers(md5, inputs, segments, Some(prior), Relink(page));
    FindMember(FreshSections(md5, inputs, segments, Some(prior)), Relink(page));
  }
}
