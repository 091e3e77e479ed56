/**
  Sections whose payload is split into pages
  (crates/dm-compiler/src/persistent_database.rs:164-240, 430-438).
 */
module Paging {
  import opened Wrappers
  import opened MachineIntegers
  import opened Codecs
  import opened DatabaseModel

  const PAGE_ID_SPAN := 1_000_000

  type Md5 = seq<byte> -> seq<byte>

  // ---- reassembly ----

  predicate Intact(md5: Md5, page: Section) {
    page.payload != [] && |page.contentDigest| == 32 && page.contentDigest[..16] == md5(page.payload)
  }

  /** The pages' payloads in dependency order; a missing, empty or damaged page spoils it. */
  function JoinPages(md5: Md5, sections: seq<Section>, ids: seq<nat>): Option<seq<byte>> {
    if ids == [] then Some([])
    else
      var page := FindLast(sections, ids[0]);
      var rest := JoinPages(md5, sections, ids[1..]);
      if page.None? || !Intact(md5, page.value) || rest.None? then None
      else Some(page.value.payload + rest.value)
  }

  function SectionPayload(md5: Md5, sections: seq<Section>, id: nat): Option<seq<byte>> {
    var section := Find(sections, id);
    if section.None? then None
    else if section.value.payload != [] then Some(section.value.payload)
    else if section.value.sectionDependencies == [] then None
    else JoinPages(md5, sections, section.value.sectionDependencies)
  }

  // ---- replacement ----

  function Chunks(payload: seq<byte>): (chunks: seq<seq<byte>>)
    ensures forall c :: c in chunks ==> 0 < |c| <= MAX_SECTION_PAYLOAD_BYTES
    ensures payload != [] ==> chunks != []
  {
    if payload == [] then []
    else if |payload| <= MAX_SECTION_PAYLOAD_BYTES then [payload]
    else [payload[..MAX_SECTION_PAYLOAD_BYTES]] + Chunks(payload[MAX_SECTION_PAYLOAD_BYTES..])
  }

  /** Page `k` is the `k`-th 64 MiB of the payload, the last one what is left. */
  lemma {:induction false} ChunkAt(payload: seq<byte>, k: nat)
    requires k < |Chunks(payload)|
    ensures var from, to := k * 67_108_864, (k + 1) * 67_108_864;
      from < |payload| && Chunks(payload)[k] == payload[from..if to <= |payload| then to else |payload|]
    ensures k + 1 == |Chunks(payload)| <==> |payload| <= (k + 1) * 67_108_864
    decreases k
  {
    if |payload| > MAX_SECTION_PAYLOAD_BYTES {
      var rest := payload[MAX_SECTION_PAYLOAD_BYTES..];
      assert Chunks(payload) == [payload[..MAX_SECTION_PAYLOAD_BYTES]] + Chunks(rest);
      if k > 0 {
        ChunkAt(rest, k - 1);
        var from, to := (k - 1) * 67_108_864, k * 67_108_864;
        assert from + 67_108_864 == to && to + 67_108_864 == (k + 1) * 67_108_864;
        var end := if to <= |rest| then to else |rest|;
        assert Chunks(payload)[k] == Chunks(rest)[k - 1] == rest[from..end];
        assert rest[from..end] == payload[to..end + 67_108_864];
      }
    }
  }

  function Concat(parts: seq<seq<byte>>): seq<byte> {
    if parts == [] then [] else parts[0] + Concat(parts[1..])
  }

  lemma {:induction false} ChunksJoin(payload: seq<byte>)
    ensures Concat(Chunks(payload)) == payload
    decreases |payload|
  {
    if |payload| > MAX_SECTION_PAYLOAD_BYTES {
      ChunksJoin(payload[MAX_SECTION_PAYLOAD_BYTES..]);
      assert Chunks(payload)[1..] == Chunks(payload[MAX_SECTION_PAYLOAD_BYTES..]);
    } else if payload != [] {
      assert Concat([payload]) == payload + Concat([]);
    }
  }

  function PageDigest(md5: Md5, page: seq<byte>): Digest {
    md5(page) + md5(md5(page))
  }

  /** The MD5 of the page and the MD5 of that MD5. */
  lemma PageDigestIs(md5: Md5, page: seq<byte>)
    requires forall b :: |md5(b)| == 16
    ensures var digest := PageDigest(md5, page);
      |digest| == 32 && digest[..16] == md5(page) && digest[16..] == md5(md5(page))
  {
  }

  function PageIds(base: nat, count: nat): (ids: seq<nat>)
    ensures |ids| == count && forall i :: 0 <= i < count ==> ids[i] == base + i
  {
    seq(count, i => base + i)
  }

  /** One section per page, numbered from `base`. */
  function PageSections(md5: Md5, pages: seq<seq<byte>>, base: nat, dependencies: seq<nat>): (r: seq<Section>)
    ensures |r| == |pages|
  {
    seq(|pages|, i requires 0 <= i < |pages| =>
      Section(base + i, dependencies, [], PageDigest(md5, pages[i]), pages[i]))
  }

  predicate Replaced(id: nat, base: nat, s: Section) {
    s.sectionId == id || base <= s.sectionId < base + PAGE_ID_SPAN
  }

  function Kept(sections: seq<Section>, id: nat, base: nat): (r: seq<Section>)
    ensures forall s :: s in r <==> s in sections && !Replaced(id, base, s)
    ensures |r| <= |sections|
  {
    if sections == [] then []
    else if Replaced(id, base, sections[0]) then Kept(sections[1..], id, base)
    else [sections[0]] + Kept(sections[1..], id, base)
  }

  predicate Ordered(sections: seq<Section>) {
    forall i, j :: 0 <= i < j < |sections| ==> sections[i].sectionId <= sections[j].sectionId
  }

  function InsertById(sections: seq<Section>, s: Section): (r: seq<Section>)
    requires Ordered(sections)
    ensures Ordered(r)
    ensures forall x :: x in r <==> x == s || x in sections
  {
    if sections == [] || s.sectionId < sections[0].sectionId then [s] + sections
    else
      assert sections == [sections[0]] + sections[1..];
      var rest := InsertById(sections[1..], s);
      assert forall k :: 0 <= k < |rest| ==> rest[k] in rest;
      [sections[0]] + rest
  }

  /** The library's stable sort by section ID. */
  function SortById(sections: seq<Section>): (r: seq<Section>)
    ensures Ordered(r)
    ensures forall x :: x in r <==> x in sections
  {
    if sections == [] then []
    else
      var n := |sections| - 1;
      assert sections == sections[..n] + [sections[n]];
      InsertById(SortById(sections[..n]), sections[n])
  }

  lemma {:induction false} InsertPermutes(sections: seq<Section>, s: Section)
    requires Ordered(sections)
    ensures multiset(InsertById(sections, s)) == multiset(sections) + multiset{s}
  {
    if sections != [] && s.sectionId >= sections[0].sectionId {
      InsertPermutes(sections[1..], s);
      assert sections == [sections[0]] + sections[1..];
    }
  }

  /** Sorting neither drops nor repeats a section. */
  lemma {:induction false} SortPermutes(sections: seq<Section>)
    ensures multiset(SortById(sections)) == multiset(sections)
    ensures |SortById(sections)| == |sections|
  {
    if sections != [] {
      var n := |sections| - 1;
      SortPermutes(sections[..n]);
      InsertPermutes(SortById(sections[..n]), sections[n]);
      assert sections == sections[..n] + [sections[n]];
    }
    assert |multiset(SortById(sections))| == |multiset(sections)|;
  }

  function ReplaceSections(md5: Md5, sections: seq<Section>, id: nat, base: nat, digest: Digest,
                           payload: seq<byte>, dependencies: seq<nat>): seq<Section> {
    var pages := Chunks(payload);
    SortById(Kept(sections, id, base) + PageSections(md5, pages, base, dependencies)
             + [Section(id, PageIds(base, |pages|), [], digest, [])])
  }

  /** Which sections the replacement leaves: the kept ones, the pages and the manifest. */
  lemma ReplacedMembers(md5: Md5, sections: seq<Section>, id: nat, base: nat, digest: Digest,
                        payload: seq<byte>, dependencies: seq<nat>, s: Section)
    ensures s in ReplaceSections(md5, sections, id, base, digest, payload, dependencies) <==>
      || (s in sections && !Replaced(id, base, s))
      || s in PageSections(md5, Chunks(payload), base, dependencies)
      || s == Section(id, PageIds(base, |Chunks(payload)|), [], digest, [])
  {
  }

  // ---- what a successful replacement guarantees ----

  /** The replacement was accepted: what `Ok` means for the sections themselves. */
  predicate Accepted(inputs: nat, sections: seq<Section>) {
    |sections| <= MAX_RECORDS && DistinctSections(sections) && KnownDependencies(inputs, sections)
  }

  lemma PageCountFits(md5: Md5, sections: seq<Section>, id: nat, base: nat, digest: Digest,
                      payload: seq<byte>, dependencies: seq<nat>)
    requires |ReplaceSections(md5, sections, id, base, digest, payload, dependencies)| <= MAX_RECORDS
    ensures |Chunks(payload)| < PAGE_ID_SPAN
  {
    SortPermutes(Kept(sections, id, base) + PageSections(md5, Chunks(payload), base, dependencies)
      + [Section(id, PageIds(base, |Chunks(payload)|), [], digest, [])]);
  }

  /** The sections found under these IDs are intact and carry these pages. */
  predicate Carries(md5: Md5, sections: seq<Section>, ids: seq<nat>, pages: seq<seq<byte>>)
    requires |ids| == |pages|
  {
    forall k :: 0 <= k < |ids| ==> CarriesAt(md5, sections, ids[k], pages[k])
  }

  predicate CarriesAt(md5: Md5, sections: seq<Section>, id: nat, page: seq<byte>) {
    var s := FindLast(sections, id);
    s.Some? && Intact(md5, s.value) && s.value.payload == page
  }

  lemma {:induction false} CarriedPagesJoin(md5: Md5, sections: seq<Section>, ids: seq<nat>, pages: seq<seq<byte>>)
    requires |ids| == |pages| && Carries(md5, sections, ids, pages)
    ensures JoinPages(md5, sections, ids) == Some(Concat(pages))
    decreases |pages|
  {
    if pages != [] {
      CarriedPagesJoin(md5, sections, ids[1..], pages[1..]);
    }
  }

  lemma PagesJoin(md5: Md5, sections: seq<Section>, pages: seq<seq<byte>>, base: nat, dependencies: seq<nat>)
    requires forall b :: |md5(b)| == 16
    requires DistinctSections(sections)
    requires forall s :: s in PageSections(md5, pages, base, dependencies) ==> s in sections
    requires forall c :: c in pages ==> c != []
    ensures JoinPages(md5, sections, PageIds(base, |pages|)) == Some(Concat(pages))
  {
    var ids := PageIds(base, |pages|);
    forall k | 0 <= k < |ids|
      ensures CarriesAt(md5, sections, ids[k], pages[k])
    {
      var page := PageSections(md5, pages, base, dependencies)[k];
      assert page in PageSections(md5, pages, base, dependencies);
      FindMember(sections, page);
      assert pages[k] in pages;
    }
    CarriedPagesJoin(md5, sections, ids, pages);
  }

  /** The replaced section reads back as exactly the payload given. */
  lemma ReplacedReadsBack(md5: Md5, inputs: nat, sections: seq<Section>, id: nat, base: nat, digest: Digest,
                          payload: seq<byte>, dependencies: seq<nat>)
    requires forall b :: |md5(b)| == 16
    requires Accepted(inputs, ReplaceSections(md5, sections, id, base, digest, payload, dependencies))
    ensures SectionPayload(md5, ReplaceSections(md5, sections, id, base, digest, payload, dependencies), id)
         == if payload == [] then None else Some(payload)
  {
    var now := ReplaceSections(md5, sections, id, base, digest, payload, dependencies);
    var pages := Chunks(payload);
    var manifest := Section(id, PageIds(base, |pages|), [], digest, []);
    ReplacedMembers(md5, sections, id, base, digest, payload, dependencies, manifest);
    FindMember(now, manifest);
    forall s | s in PageSections(md5, pages, base, dependencies)
      ensures s in now
    {
      ReplacedMembers(md5, sections, id, base, digest, payload, dependencies, s);
    }
    PagesJoin(md5, now, pages, base, dependencies);
    ChunksJoin(payload);
  }

  /** No page of an earlier payload survives in the page range. */
  lemma NoOldPageSurvives(md5: Md5, sections: seq<Section>, id: nat, base: nat, digest: Digest,
                          payload: seq<byte>, dependencies: seq<nat>, s: Section)
    requires s in ReplaceSections(md5, sections, id, base, digest, payload, dependencies)
    requires base <= s.sectionId < base + 1_000_000 && s.sectionId != id
    ensures s.sectionId < base + |Chunks(payload)|
    ensures s == PageSections(md5, Chunks(payload), base, dependencies)[s.sectionId - base]
  {
    hide ReplaceSections;
    ReplacedMembers(md5, sections, id, base, digest, payload, dependencies, s);
    var pages := PageSections(md5, Chunks(payload), base, dependencies);
    assert s in pages;
    var i :| 0 <= i < |pages| && pages[i] == s;
  }

  predicate Untouched(id: nat, base: nat, ids: seq<nat>) {
    forall i :: 0 <= i < |ids| ==> ids[i] != id && !(base <= ids[i] < base + PAGE_ID_SPAN)
  }

  /** Sections outside the replaced IDs are found as before. */
  lemma UntouchedFound(md5: Md5, inputs: nat, sections: seq<Section>, id: nat, base: nat, digest: Digest,
                       payload: seq<byte>, dependencies: seq<nat>, other: nat)
    requires Accepted(inputs, ReplaceSections(md5, sections, id, base, digest, payload, dependencies))
    requires Untouched(id, base, [other])
    ensures var now := ReplaceSections(md5, sections, id, base, digest, payload, dependencies);
      Find(now, other) == Find(sections, other) && FindLast(now, other) == FindLast(sections, other)
  {
    var now := ReplaceSections(md5, sections, id, base, digest, payload, dependencies);
    assert [other][0] == other;
    PageCountFits(md5, sections, id, base, digest, payload, dependencies);
    if Find(sections, other).Some? {
      var first, last := Find(sections, other).value, FindLast(sections, other).value;
      ReplacedMembers(md5, sections, id, base, digest, payload, dependencies, first);
      ReplacedMembers(md5, sections, id, base, digest, payload, dependencies, last);
      FindMember(now, first);
      FindMember(now, last);
    } else if Find(now, other).Some? {
      ReplacedMembers(md5, sections, id, base, digest, payload, dependencies, Find(now, other).value);
    }
  }

  lemma {:induction false} UntouchedJoins(
      md5: Md5, inputs: nat, sections: seq<Section>, id: nat, base: nat, digest: Digest,
      payload: seq<byte>, dependencies: seq<nat>, ids: seq<nat>)
    requires Accepted(inputs, ReplaceSections(md5, sections, id, base, digest, payload, dependencies))
    requires Untouched(id, base, ids)
    ensures JoinPages(md5, ReplaceSections(md5, sections, id, base, digest, payload, dependencies), ids)
         == JoinPages(md5, sections, ids)
    decreases |ids|
  {
    if ids != [] {
      UntouchedFound(md5, inputs, sections, id, base, digest, payload, dependencies, ids[0]);
      UntouchedJoins(md5, inputs, sections, id, base, digest, payload, dependencies, ids[1..]);
    }
  }

  /** A section that neither is nor lists a replaced ID keeps its payload. */
  lemma OtherPayloadsKept(md5: Md5, inputs: nat, sections: seq<Section>, id: nat, base: nat, digest: Digest,
                          payload: seq<byte>, dependencies: seq<nat>, other: nat)
    requires Accepted(inputs, ReplaceSections(md5, sections, id, base, digest, payload, dependencies))
    requires Untouched(id, base, [other])
    requires Find(sections, other).Some? ==> Untouched(id, base, Find(sections, other).value.sectionDependencies)
    ensures SectionPayload(md5, ReplaceSections(md5, sections, id, base, digest, payload, dependencies), other)
         == SectionPayload(md5, sections, other)
  {
    UntouchedFound(md5, inputs, sections, id, base, digest, payload, dependencies, other);
    if Find(sections, other).Some? {
      UntouchedJoins(md5, inputs, sections, id, base, digest, payload, dependencies,
        Find(sections, other).value.sectionDependencies);
    }
  }

  // ---- the database object ----

  class PersistentCompilerDatabase {
    var semanticDigest: Digest
    var buildDigest: Digest
    var inputs: seq<InputDependency>
    var stableIds: seq<StableIdEntry>
    var sections: seq<Section>

    constructor (db: Database)
      ensures Model() == db
    {
      semanticDigest, buildDigest, inputs := db.semanticDigest, db.buildDigest, db.inputs;
      stableIds, sections := db.stableIds, db.sections;
    }

    function Model(): Database
      reads this
    {
      Database(semanticDigest, buildDigest, inputs, stableIds, sections)
    }

    /** Reassembles an inline or paged payload in dependency order. */
    method Payload(md5: Md5, id: nat) returns (r: Option<seq<byte>>)
      ensures r == SectionPayload(md5, sections, id)
    {
      var section := Find(sections, id);
      if section.None? {
        return None;
      }
      if section.value.payload != [] {
        return Some(section.value.payload);
      }
      var ids := section.value.sectionDependencies;
      if ids == [] {
        return None;
      }
      var joined: seq<byte> := [];
      PutNothing(JoinPages(md5, sections, ids));
      for i := 0 to |ids|
        invariant JoinPages(md5, sections, ids) == PutBefore(joined, JoinPages(md5, sections, ids[i..]))
      {
        assert ids[i..][1..] == ids[i + 1..];
        var page := FindLast(sections, ids[i]);
        if page.None? || !Intact(md5, page.value) {
          return None;
        }
        PutMore(joined, page.value.payload, JoinPages(md5, sections, ids[i + 1..]));
        joined := joined + page.value.payload;
      }
      assert ids[|ids|..] == [] && joined + [] == joined;
      r := Some(joined);
    }

    /** Edits the section list first and validates afterwards, as the source does. */
    method ReplacePagedSection(md5: Md5, id: nat, base: nat, digest: Digest, payload: seq<byte>, dependencies: seq<nat>)
      returns (r: Result<nat, Error>)
      modifies this`sections
      ensures base + PAGE_ID_SPAN >= U64_LIMIT ==> r == Failure(Limit) && sections == old(sections)
      ensures base + PAGE_ID_SPAN < U64_LIMIT ==>
        && sections == ReplaceSections(md5, old(sections), id, base, digest, payload, dependencies)
        && r == (match Validate(Model()) case Success(_) => Success(|Chunks(payload)|) case Failure(e) => Failure(e))
      ensures r.Success? && payload != [] && (forall b :: |md5(b)| == 16) ==>
        SectionPayload(md5, sections, id) == Some(payload)
    {
      if base + PAGE_ID_SPAN >= U64_LIMIT {
        return Failure(Limit);
      }
      var pages := Chunks(payload);
      ghost var before := sections;
      var edited, pageIds := AppendPages(md5, Kept(sections, id, base), pages, base, dependencies);
      sections := SortById(edited + [Section(id, pageIds, [], digest, [])]);
      var checked := Validate(Model());
      if checked.Failure? {
        return Failure(checked.error);
      }
      if forall b :: |md5(b)| == 16 {
        ReplacedReadsBack(md5, |inputs|, before, id, base, digest, payload, dependencies);
      }
      r := Success(|pages|);
    }
  }

  method AppendPages(md5: Md5, sections: seq<Section>, pages: seq<seq<byte>>, base: nat, dependencies: seq<nat>)
    returns (r: seq<Section>, ids: seq<nat>)
    ensures r == sections + PageSections(md5, pages, base, dependencies)
    ensures ids == PageIds(base, |pages|)
  {
    r, ids := sections, [];
    for i := 0 to |pages|
      invariant ids == PageIds(base, i)
      invariant r == sections + PageSections(md5, pages, base, dependencies)[..i]
    {
      ids := ids + [base + i];
      r := r + [Section(base + i, dependencies, [], PageDigest(md5, pages[i]), pages[i])];
    }
  }

  function PutBefore(joined: seq<byte>, r: Option<seq<byte>>): Option<seq<byte>> {
    if r.None? then None else Some(joined + r.value)
  }

  lemma PutNothing(r: Option<seq<byte>>)
    ensures PutBefore([], r) == r
  {
    if r.Some? {
      assert [] + r.value == r.value;
    }
  }

  lemma PutMore(joined: seq<byte>, page: seq<byte>, r: Option<seq<byte>>)
    ensures PutBefore(joined, PutBefore(page, r)) == PutBefore(joined + page, r)
  {
    if r.Some? {
      assert joined + (page + r.value) == joined + page + r.value;
    }
  }
}
