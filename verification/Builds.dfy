/**
  The database a build writes
  (crates/dm-compiler/src/lib.rs:28-38, 846-1038).
 */
module Builds {
  import opened Wrappers
  import opened Collections
  import opened Codecs
  import opened DatabaseModel
  import opened Paging
  import opened StableIds

  const LINKED_FRONTEND_SECTION := 1
  const PERSISTENT_EXECUTABLE_SECTION := 2
  const INPUT_SECTION_BASE := 1_000
  const LINKED_PAYLOAD_PAGE_BASE := 10_000_000
  const PERSISTENT_EXECUTABLE_PAGE_BASE := 20_000_000

  const ZERO_DIGEST: Digest := [0, 0, 0, 0, 0, 0, 0, 0, 0, 0, 0, 0, 0, 0, 0, 0,
                                 0, 0, 0, 0, 0, 0, 0, 0, 0, 0, 0, 0, 0, 0, 0, 0]

  function Digest32(md5: Md5, bytes: seq<byte>): Digest {
    md5(bytes) + md5([1] + bytes)
  }

  /** The MD5 of the bytes and that of the bytes behind a one. */
  lemma DigestIs(md5: Md5, bytes: seq<byte>)
    requires forall b :: |md5(b)| == 16
    ensures var digest := Digest32(md5, bytes);
      |digest| == 32 && digest[..16] == md5(bytes) && digest[16..] == md5([1] + bytes)
  {
  }

  // ---- the sections ----

  function InputSections(inputs: seq<InputDependency>): (r: seq<Section>)
    ensures |r| == |inputs|
  {
    seq(|inputs|, i requires 0 <= i < |inputs| => Section(INPUT_SECTION_BASE + i, [], [i], inputs[i].contentDigest, []))
  }

  /** Every segment cut into pages, in order. */
  function AllPages(segments: seq<seq<byte>>): (pages: seq<seq<byte>>)
    ensures forall c :: c in pages ==> 0 < |c| <= MAX_SECTION_PAYLOAD_BYTES
  {
    if segments == [] then [] else Chunks(segments[0]) + AllPages(segments[1..])
  }

  function LinkedPages(md5: Md5, pages: seq<seq<byte>>, dependencies: seq<nat>): (r: seq<Section>)
    ensures |r| == |pages|
  {
    seq(|pages|, i requires 0 <= i < |pages| =>
      Section(LINKED_PAYLOAD_PAGE_BASE + i, dependencies, [], Digest32(md5, pages[i]), pages[i]))
  }

  function LinkedManifest(md5: Md5, pages: seq<seq<byte>>): Section {
    Section(LINKED_FRONTEND_SECTION, PageIds(LINKED_PAYLOAD_PAGE_BASE, |pages|), [], PageDigest(md5, Concat(pages)), [])
  }

  const PLACEHOLDER := Section(PERSISTENT_EXECUTABLE_SECTION, [LINKED_FRONTEND_SECTION], [], ZERO_DIGEST, [])

  predicate InExecutableRange(id: nat) {
    PERSISTENT_EXECUTABLE_PAGE_BASE <= id < PERSISTENT_EXECUTABLE_PAGE_BASE + PAGE_ID_SPAN
  }

  predicate AllInRange(ids: seq<nat>) {
    forall k :: 0 <= k < |ids| ==> InExecutableRange(ids[k])
  }

  /** The sections listed in `ids`, in the order they are stored. */
  function Listed(sections: seq<Section>, ids: seq<nat>): (r: seq<Section>)
    ensures forall s :: s in r <==> s in sections && s.sectionId in ids
    ensures |r| <= |sections|
  {
    if sections == [] then []
    else if sections[0].sectionId in ids then [sections[0]] + Listed(sections[1..], ids)
    else Listed(sections[1..], ids)
  }

  /** The runtime artifact of the previous database, when it is complete. */
  function Preserved(prior: seq<Section>): Option<(Section, seq<Section>)> {
    var manifest := Find(prior, PERSISTENT_EXECUTABLE_SECTION);
    if manifest.None? then None
    else if manifest.value.contentDigest == ZERO_DIGEST || !AllInRange(manifest.value.sectionDependencies) then None
    else
      var pages := Listed(prior, manifest.value.sectionDependencies);
      if |pages| == |manifest.value.sectionDependencies| then Some((manifest.value, pages)) else None
  }

  /** The artifact is section 2 with a digest that is not all zero, and all its pages are there,
      in their million IDs. */
  lemma PreservedIff(prior: seq<Section>)
    ensures Preserved(prior).Some? <==>
      && (exists s :: s in prior && s.sectionId == 2)
      && var manifest := Find(prior, 2).value;
         && !(|manifest.contentDigest| == 32 && forall k :: 0 <= k < 32 ==> manifest.contentDigest[k] == 0)
         && (forall id :: id in manifest.sectionDependencies ==> 20_000_000 <= id < 21_000_000)
         && |Listed(prior, manifest.sectionDependencies)| == |manifest.sectionDependencies|
  {
    hide Listed;
    var manifest := Find(prior, 2);
    if manifest.Some? {
      var digest, ids := manifest.value.contentDigest, manifest.value.sectionDependencies;
      assert digest == ZERO_DIGEST <==> |digest| == 32 && forall k :: 0 <= k < 32 ==> digest[k] == 0;
      assert AllInRange(ids) <==> forall id :: id in ids ==> 20_000_000 <= id < 21_000_000 by {
        assert forall k :: 0 <= k < |ids| ==> ids[k] in ids;
      }
    }
  }

  /** A kept page now depends on the new frontend. */
  function Relink(page: Section): Section {
    page.(sectionDependencies := [LINKED_FRONTEND_SECTION])
  }

  function RelinkAll(pages: seq<Section>): (r: seq<Section>)
    ensures |r| == |pages|
  {
    seq(|pages|, i requires 0 <= i < |pages| => Relink(pages[i]))
  }

  function RuntimeSections(prior: Option<Database>): seq<Section> {
    var kept := if prior.None? then None else Preserved(prior.value.sections);
    if kept.None? then [PLACEHOLDER] else RelinkAll(kept.value.1) + [kept.value.0]
  }

  function FreshSections(
      md5: Md5, inputs: seq<InputDependency>, segments: seq<seq<byte>>, prior: Option<Database>): seq<Section>
  {
    var pages := AllPages(segments);
    InputSections(inputs)
      + LinkedPages(md5, pages, PageIds(INPUT_SECTION_BASE, |inputs|)) + [LinkedManifest(md5, pages)]
    + RuntimeSections(prior)
  }

  function FreshDatabase(md5: Md5, nodes: seq<Node>, segments: seq<seq<byte>>, inputs: seq<InputDependency>,
                         semantic: Digest, configuration: Digest, prior: Option<Database>): Database {
    Database(semantic, configuration, inputs,
             Assigned(if prior.None? then [] else prior.value.stableIds, nodes),
             FreshSections(md5, inputs, segments, prior))
  }

  /** Sections, hashed bytes and IDs after the pages `done`. */
  predicate Paged(
      md5: Md5, dependencies: seq<nat>, done: seq<seq<byte>>, sections: seq<Section>, hashed: seq<byte>, ids: seq<nat>)
  {
    && sections == LinkedPages(md5, done, dependencies)
    && hashed == Concat(done)
    && ids == PageIds(LINKED_PAYLOAD_PAGE_BASE, |done|)
  }

  lemma PagedStep(md5: Md5, dependencies: seq<nat>, done: seq<seq<byte>>, page: seq<byte>,
                  sections: seq<Section>, hashed: seq<byte>, ids: seq<nat>)
    requires Paged(md5, dependencies, done, sections, hashed, ids)
    ensures var id := LINKED_PAYLOAD_PAGE_BASE + |ids|;
      Paged(md5, dependencies, done + [page],
            sections + [Section(id, dependencies, [], Digest32(md5, page), page)], hashed + page, ids + [id])
  {
    ConcatAppend(done, page);
  }

  lemma NextPage(done: seq<seq<byte>>, pages: seq<seq<byte>>, k: nat)
    requires k < |pages|
    ensures done + pages[..k] + [pages[k]] == done + pages[..k + 1]
  {
  }

  /** The inner loop: the pages of one segment, numbered on from those before. */
  method PageSegment(md5: Md5, segment: seq<byte>, dependencies: seq<nat>, ghost done: seq<seq<byte>>,
                     sections: seq<Section>, hashed: seq<byte>, ids: seq<nat>)
    returns (moreSections: seq<Section>, moreHashed: seq<byte>, moreIds: seq<nat>)
    requires Paged(md5, dependencies, done, sections, hashed, ids)
    ensures Paged(md5, dependencies, done + Chunks(segment), moreSections, moreHashed, moreIds)
  {
    hide Paged, Chunks;
    var pages := Chunks(segment);
    moreSections, moreHashed, moreIds := sections, hashed, ids;
    assert done + [] == done;
    for k := 0 to |pages|
      invariant Paged(md5, dependencies, done + pages[..k], moreSections, moreHashed, moreIds)
    {
      PagedStep(md5, dependencies, done + pages[..k], pages[k], moreSections, moreHashed, moreIds);
      NextPage(done, pages, k);
      var id := LINKED_PAYLOAD_PAGE_BASE + |moreIds|;
      moreSections := moreSections + [Section(id, dependencies, [], Digest32(md5, pages[k]), pages[k])];
      moreHashed, moreIds := moreHashed + pages[k], moreIds + [id];
    }
    assert pages[..|pages|] == pages;
  }

  /** The outer loop: pages of all segments are numbered through. */
  method PageSegments(md5: Md5, segments: seq<seq<byte>>, dependencies: seq<nat>)
    returns (sections: seq<Section>, hashed: seq<byte>, ids: seq<nat>)
    ensures Paged(md5, dependencies, AllPages(segments), sections, hashed, ids)
  {
    ghost var done: seq<seq<byte>> := [];
    sections, hashed, ids := [], [], [];
    for i := 0 to |segments|
      invariant AllPages(segments) == done + AllPages(segments[i..])
      invariant Paged(md5, dependencies, done, sections, hashed, ids)
    {
      sections, hashed, ids := PageSegment(md5, segments[i], dependencies, done, sections, hashed, ids);
      assert segments[i..][1..] == segments[i + 1..];
      Regroup(done, Chunks(segments[i]), AllPages(segments[i + 1..]));
      done := done + Chunks(segments[i]);
    }
    assert done + AllPages(segments[|segments|..]) == done;
  }

  lemma {:induction false} ConcatAppend(parts: seq<seq<byte>>, last: seq<byte>)
    ensures Concat(parts + [last]) == Concat(parts) + last
  {
    if parts == [] {
      assert Concat([last]) == last + Concat([]);
    } else {
      ConcatAppend(parts[1..], last);
      assert (parts + [last])[1..] == parts[1..] + [last];
    }
  }

  lemma {:induction false} ConcatSplit(a: seq<seq<byte>>, b: seq<seq<byte>>)
    ensures Concat(a + b) == Concat(a) + Concat(b)
  {
    if a == [] {
      assert a + b == b;
    } else {
      ConcatSplit(a[1..], b);
      assert (a + b)[1..] == a[1..] + b && (a + b)[0] == a[0];
      Regroup(a[0], Concat(a[1..]), Concat(b));
    }
  }

  lemma {:induction false} AllPagesJoin(segments: seq<seq<byte>>)
    ensures Concat(AllPages(segments)) == Concat(segments)
  {
    if segments != [] {
      ChunksJoin(segments[0]);
      AllPagesJoin(segments[1..]);
      ConcatSplit(Chunks(segments[0]), AllPages(segments[1..]));
    }
  }

  method BuildDatabase(md5: Md5, nodes: seq<Node>, segments: seq<seq<byte>>, inputs: seq<InputDependency>,
                       semantic: Digest, configuration: Digest, prior: Option<Database>) returns (db: Database)
    ensures db == FreshDatabase(md5, nodes, segments, inputs, semantic, configuration, prior)
  {
    var stableIds := AssignStableIds(if prior.None? then [] else prior.value.stableIds, nodes);
    var inputIds := PageIds(INPUT_SECTION_BASE, |inputs|);
    var pages, hashed, pageIds := PageSegments(md5, segments, inputIds);
    var sections := InputSections(inputs) + pages
      + [Section(LINKED_FRONTEND_SECTION, pageIds, [], PageDigest(md5, hashed), [])]
      + RuntimeSections(prior);
    db := Database(semantic, configuration, inputs, stableIds, sections);
  }

  // ---- reading the linked frontend back ----

  function JoinAll(sections: seq<Section>, ids: seq<nat>): Option<seq<byte>> {
    if ids == [] then Some([])
    else
      var page, rest := FindLast(sections, ids[0]), JoinAll(sections, ids[1..]);
      if page.None? || rest.None? then None else Some(page.value.payload + rest.value)
  }

  /** Like `SectionPayload`, but trusting page digests. */
  function LinkedPayload(sections: seq<Section>): Option<seq<byte>> {
    var manifest := Find(sections, LINKED_FRONTEND_SECTION);
    if manifest.None? then None
    else if manifest.value.payload != [] then Some(manifest.value.payload)
    else JoinAll(sections, manifest.value.sectionDependencies)
  }

  lemma {:induction false} CarriedPagesJoinAll(md5: Md5, sections: seq<Section>, ids: seq<nat>, pages: seq<seq<byte>>)
    requires |ids| == |pages| && Carries(md5, sections, ids, pages)
    ensures JoinAll(sections, ids) == Some(Concat(pages))
    decreases |pages|
  {
    if pages != [] {
      CarriedPagesJoinAll(md5, sections, ids[1..], pages[1..]);
    }
  }

  lemma LinkedPagesCarry(md5: Md5, sections: seq<Section>, pages: seq<seq<byte>>, dependencies: seq<nat>)
    requires forall b :: |md5(b)| == 16
    requires DistinctSections(sections)
    requires forall s :: s in LinkedPages(md5, pages, dependencies) ==> s in sections
    requires forall c :: c in pages ==> c != []
    ensures Carries(md5, sections, PageIds(LINKED_PAYLOAD_PAGE_BASE, |pages|), pages)
  {
    var ids := PageIds(LINKED_PAYLOAD_PAGE_BASE, |pages|);
    forall k | 0 <= k < |ids|
      ensures CarriesAt(md5, sections, ids[k], pages[k])
    {
      var page := LinkedPages(md5, pages, dependencies)[k];
      assert page in LinkedPages(md5, pages, dependencies);
      FindMember(sections, page);
      assert pages[k] in pages;
    }
  }

  /** A freshly built database gives back exactly the artifact segments, by either reader. */
  lemma LinkedReadsBack(md5: Md5, inputs: seq<InputDependency>, segments: seq<seq<byte>>, prior: Option<Database>)
    requires forall b :: |md5(b)| == 16
    requires DistinctSections(FreshSections(md5, inputs, segments, prior))
    ensures var sections := FreshSections(md5, inputs, segments, prior);
      && LinkedPayload(sections) == Some(Concat(segments))
      && SectionPayload(md5, sections, LINKED_FRONTEND_SECTION)
           == if AllPages(segments) == [] then None else Some(Concat(segments))
  {
    var sections, pages := FreshSections(md5, inputs, segments, prior), AllPages(segments);
    FreshFrontend(md5, inputs, segments, prior);
    hide FreshSections, DistinctSections, LinkedPages;
    var manifest := LinkedManifest(md5, pages);
    ManifestLists(md5, pages);
    LinkedPagesCarry(md5, sections, pages, PageIds(INPUT_SECTION_BASE, |inputs|));
    CarriedPagesJoin(md5, sections, manifest.sectionDependencies, pages);
    CarriedPagesJoinAll(md5, sections, manifest.sectionDependencies, pages);
    AllPagesJoin(segments);
    hide LinkedManifest, AllPages, JoinAll, JoinPages, Concat, PageIds, Carries;
  }

  lemma ManifestLists(md5: Md5, pages: seq<seq<byte>>)
    ensures var manifest := LinkedManifest(md5, pages);
      && manifest.payload == []
      && manifest.sectionDependencies == PageIds(LINKED_PAYLOAD_PAGE_BASE, |pages|)
      && (manifest.sectionDependencies == [] <==> pages == [])
  {
  }

  /** The frontend manifest is found under its ID, and its pages are stored. */
  lemma FreshFrontend(md5: Md5, inputs: seq<InputDependency>, segments: seq<seq<byte>>, prior: Option<Database>)
    requires DistinctSections(FreshSections(md5, inputs, segments, prior))
    ensures Find(FreshSections(md5, inputs, segments, prior), LINKED_FRONTEND_SECTION)
        == Some(LinkedManifest(md5, AllPages(segments)))
    ensures forall s :: s in LinkedPages(md5, AllPages(segments), PageIds(INPUT_SECTION_BASE, |inputs|)) ==>
      s in FreshSections(md5, inputs, segments, prior)
  {
    FindMember(FreshSections(md5, inputs, segments, prior), LinkedManifest(md5, AllPages(segments)));
  }
}
