/**
  What a changed input invalidates in a database a build has written
  (crates/dm-compiler/src/lib.rs:873-1030, persistent_database.rs:246-284).
 */
module FreshInvalidation {
  import opened Wrappers
  import opened Codecs
  import opened DatabaseModel
  import opened Paging
  import opened Builds
  import I = Invalidation

  lemma InputReaches(sections: seq<Section>, changed: seq<nat>, at: nat, i: nat)
    requires at < |sections| && sections[at].inputDependencies == [i] && i in changed
    ensures I.Reaches(sections, changed, sections[at].sectionId)
  {
    assert sections[at].inputDependencies[0] in changed;
    assert I.ChainFrom(sections, changed, sections[at].sectionId, [at]);
  }

  lemma DependentReaches(sections: seq<Section>, changed: seq<nat>, at: nat, k: nat)
    requires at < |sections| && k < |sections[at].sectionDependencies|
    requires I.Reaches(sections, changed, sections[at].sectionDependencies[k])
    ensures I.Reaches(sections, changed, sections[at].sectionId)
  {
    var path :| I.ChainFrom(sections, changed, sections[at].sectionDependencies[k], path);
    assert ([at] + path)[1..] == path;
    assert I.ChainFrom(sections, changed, sections[at].sectionId, [at] + path);
  }

  /** Where a fresh database keeps its input sections, its pages and the frontend manifest. */
  lemma FreshLayout(md5: Md5, inputs: seq<InputDependency>, segments: seq<seq<byte>>, prior: Option<Database>)
    ensures var sections, pages := FreshSections(md5, inputs, segments, prior), |AllPages(segments)|;
      && |sections| > |inputs| + pages
      && (forall i :: 0 <= i < |inputs| ==>
            sections[i].sectionId == 1_000 + i && sections[i].inputDependencies == [i]
            && sections[i].sectionDependencies == [] && sections[i].contentDigest == inputs[i].contentDigest)
      && (forall m :: |inputs| <= m < |inputs| + pages ==>
            sections[m].sectionId == 10_000_000 + (m - |inputs|) && sections[m].inputDependencies == []
            && sections[m].sectionDependencies == PageIds(1_000, |inputs|))
      && sections[|inputs| + pages].sectionId == 1
      && sections[|inputs| + pages].inputDependencies == []
      && sections[|inputs| + pages].sectionDependencies == PageIds(10_000_000, pages)
  {
    hide AllPages, RuntimeSections;
  }

  /** A changed input invalidates its own section and, once there is a page, every page and the frontend manifest. */
  lemma ChangedInputInvalidates(
      md5: Md5, inputs: seq<InputDependency>, segments: seq<seq<byte>>, prior: Option<Database>, i: nat)
    requires i < |inputs|
    ensures var sections, pages := FreshSections(md5, inputs, segments, prior), |AllPages(segments)|;
      && I.Reaches(sections, [i], 1_000 + i)
      && (forall id :: 10_000_000 <= id < 10_000_000 + pages ==> I.Reaches(sections, [i], id))
      && (pages > 0 ==> I.Reaches(sections, [i], 1))
  {
    var sections, pages := FreshSections(md5, inputs, segments, prior), |AllPages(segments)|;
    FreshLayout(md5, inputs, segments, prior);
    hide FreshSections, AllPages, I.Reaches;
    InputReaches(sections, [i], i, i);
    forall id | 10_000_000 <= id < 10_000_000 + pages
      ensures I.Reaches(sections, [i], id)
    {
      DependentReaches(sections, [i], |inputs| + (id - 10_000_000), i);
    }
    if pages > 0 {
      DependentReaches(sections, [i], |inputs| + pages, 0);
    }
  }

  /** The sections of the runtime artifact, kept or not, have none of the identifiers of inputs. */
  lemma RuntimeIds(prior: Option<Database>)
    ensures forall s <- RuntimeSections(prior) :: s.sectionId == 2 || s.sectionId >= 20_000_000
  {
    hide Listed;
    var kept := if prior.None? then None else Preserved(prior.value.sections);
    if kept.Some? {
      forall s | s in RelinkAll(kept.value.1)
        ensures s.sectionId >= 20_000_000
      {
        var j :| 0 <= j < |kept.value.1| && s == Relink(kept.value.1[j]);
        assert kept.value.1[j] in kept.value.1;
      }
    }
  }

  lemma RuntimeTail(md5: Md5, inputs: seq<InputDependency>, segments: seq<seq<byte>>, prior: Option<Database>)
    ensures var sections, pages := FreshSections(md5, inputs, segments, prior), |AllPages(segments)|;
      && |sections| > |inputs| + pages
      && forall m :: |inputs| + pages < m < |sections| ==>
           sections[m].sectionId == 2 || sections[m].sectionId >= 20_000_000
  {
    hide AllPages, RuntimeSections;
    var sections, pages := FreshSections(md5, inputs, segments, prior), |AllPages(segments)|;
    RuntimeIds(prior);
    forall m | |inputs| + pages < m < |sections|
      ensures sections[m].sectionId == 2 || sections[m].sectionId >= 20_000_000
    {
      assert sections[m] == RuntimeSections(prior)[m - |inputs| - pages - 1];
      assert sections[m] in RuntimeSections(prior);
    }
  }

  /** One input's section is not invalidated by another input. */
  lemma OtherInputsStay(
      md5: Md5, inputs: seq<InputDependency>, segments: seq<seq<byte>>, prior: Option<Database>, i: nat, j: nat)
    requires i < |inputs| <= 9_999_000 && j < |inputs| && i != j
    ensures !I.Reaches(FreshSections(md5, inputs, segments, prior), [i], 1_000 + j)
  {
    var sections, pages := FreshSections(md5, inputs, segments, prior), |AllPages(segments)|;
    FreshLayout(md5, inputs, segments, prior);
    RuntimeTail(md5, inputs, segments, prior);
    hide FreshSections, AllPages, I.Chain;
    if I.Reaches(sections, [i], 1_000 + j) {
      var path :| I.ChainFrom(sections, [i], 1_000 + j, path);
      ChainBegins(sections, [i], path);
      OnlyAt(sections, |inputs|, pages, path[0], j);
      LeafStays(sections, i, path);
    }
  }

  lemma ChainBegins(sections: seq<Section>, changed: seq<nat>, path: seq<nat>)
    requires I.Chain(sections, changed, path)
    ensures path != [] && path[0] < |sections|
  {
  }

  lemma LeafStays(sections: seq<Section>, i: nat, path: seq<nat>)
    requires path != [] && path[0] < |sections| && i != path[0]
    requires sections[path[0]].inputDependencies == [path[0]] && sections[path[0]].sectionDependencies == []
    ensures !I.Chain(sections, [i], path)
  {
  }

  lemma OnlyAt(sections: seq<Section>, inputs: nat, pages: nat, at: nat, j: nat)
    requires inputs <= 9_999_000 && j < inputs && inputs + pages < |sections| && at < |sections|
    requires forall i :: 0 <= i < inputs ==> sections[i].sectionId == 1_000 + i
    requires forall m :: inputs <= m < inputs + pages ==> sections[m].sectionId >= 10_000_000
    requires sections[inputs + pages].sectionId == 1
    requires forall m :: inputs + pages < m < |sections| ==>
      sections[m].sectionId == 2 || sections[m].sectionId >= 20_000_000
    requires sections[at].sectionId == 1_000 + j
    ensures at == j
  {
  }
}
