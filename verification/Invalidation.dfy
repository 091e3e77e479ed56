/**
  Which sections a changed input invalidates
  (crates/dm-compiler/src/persistent_database.rs:246-284).
 */
module Invalidation {
  import opened Wrappers
  import opened DatabaseModel

  // ---- dependency chains ----

  predicate UsesInput(s: Section, changed: seq<nat>) {
    exists k :: 0 <= k < |s.inputDependencies| && s.inputDependencies[k] in changed
  }

  predicate UsesSection(s: Section, ids: set<nat>) {
    exists k :: 0 <= k < |s.sectionDependencies| && s.sectionDependencies[k] in ids
  }

  /**
    Places in `sections`, each depending on the section after it, the last on a
    changed input.
   */
  predicate Chain(sections: seq<Section>, changed: seq<nat>, path: seq<nat>) {
    && path != []
    && path[0] < |sections|
    && (|path| == 1 ==> UsesInput(sections[path[0]], changed))
    && (|path| > 1 ==>
          && path[1] < |sections|
          && sections[path[1]].sectionId in sections[path[0]].sectionDependencies
          && Chain(sections, changed, path[1..]))
  }

  predicate ChainFrom(sections: seq<Section>, changed: seq<nat>, id: nat, path: seq<nat>) {
    Chain(sections, changed, path) && sections[path[0]].sectionId == id
  }

  /** Section `id` reaches a changed input through section dependencies. */
  ghost predicate Reaches(sections: seq<Section>, changed: seq<nat>, id: nat) {
    exists path :: ChainFrom(sections, changed, id, path)
  }

  // ---- the fixpoint loop ----

  predicate Fires(s: Section, changed: seq<nat>, invalid: set<nat>) {
    UsesInput(s, changed) || UsesSection(s, invalid)
  }

  ghost predicate Closed(sections: seq<Section>, changed: seq<nat>, invalid: set<nat>) {
    forall i :: 0 <= i < |sections| && Fires(sections[i], changed, invalid) ==> sections[i].sectionId in invalid
  }

  ghost predicate AllReach(sections: seq<Section>, changed: seq<nat>, ids: set<nat>) {
    forall id :: id in ids ==> Reaches(sections, changed, id)
  }

  lemma FiringReaches(sections: seq<Section>, changed: seq<nat>, invalid: set<nat>, i: nat)
    requires i < |sections| && Fires(sections[i], changed, invalid)
    requires AllReach(sections, changed, invalid)
    ensures Reaches(sections, changed, sections[i].sectionId)
  {
    if UsesInput(sections[i], changed) {
      assert ChainFrom(sections, changed, sections[i].sectionId, [i]);
    } else {
      var k :| 0 <= k < |sections[i].sectionDependencies| && sections[i].sectionDependencies[k] in invalid;
      var path :| ChainFrom(sections, changed, sections[i].sectionDependencies[k], path);
      assert ([i] + path)[1..] == path;
      assert ChainFrom(sections, changed, sections[i].sectionId, [i] + path);
    }
  }

  lemma {:induction false} ClosedHoldsChains(
      sections: seq<Section>, changed: seq<nat>, invalid: set<nat>, path: seq<nat>)
    requires Closed(sections, changed, invalid) && Chain(sections, changed, path)
    ensures sections[path[0]].sectionId in invalid
    decreases |path|
  {
    if |path| > 1 {
      ClosedHoldsChains(sections, changed, invalid, path[1..]);
      var k :| 0 <= k < |sections[path[0]].sectionDependencies|
        && sections[path[0]].sectionDependencies[k] == sections[path[1]].sectionId;
      assert UsesSection(sections[path[0]], invalid);
    }
  }

  predicate Increasing(ids: seq<nat>) {
    forall i, j :: 0 <= i < j < |ids| ==> ids[i] < ids[j]
  }

  /** The invalidated section IDs in order: exactly those that reach a changed input, cycles included. */
  method InvalidatedSections(sections: seq<Section>, changed: seq<nat>) returns (r: seq<nat>)
    ensures forall i, j :: 0 <= i < j < |r| ==> r[i] < r[j]
    ensures forall id :: id in r <==> Reaches(sections, changed, id)
  {
    var invalid: set<nat> := {};
    while true
      invariant invalid <= SectionIds(sections)
      invariant AllReach(sections, changed, invalid)
      decreases SectionIds(sections) - invalid
    {
      var before := invalid;
      for i := 0 to |sections|
        invariant before <= invalid <= SectionIds(sections)
        invariant AllReach(sections, changed, invalid)
        invariant forall k :: 0 <= k < i && Fires(sections[k], changed, before) ==> sections[k].sectionId in invalid
      {
        if Fires(sections[i], changed, invalid) {
          FiringReaches(sections, changed, invalid, i);
          invalid := invalid + {sections[i].sectionId};
        } else {
          assert !Fires(sections[i], changed, before);
        }
      }
      if |invalid| == |before| {
        SameSizeSubset(before, invalid);
        break;
      }
      ghost var added := Newcomer(before, invalid);
      assert added in SectionIds(sections) - before;
    }
    forall id | Reaches(sections, changed, id)
      ensures id in invalid
    {
      var path :| ChainFrom(sections, changed, id, path);
      ClosedHoldsChains(sections, changed, invalid, path);
    }
    r := SortedElements(invalid);
  }

  lemma IncreasingAppend(ids: seq<nat>, last: nat)
    requires Increasing(ids) && forall x :: x in ids ==> x < last
    ensures Increasing(ids + [last])
  {
    assert forall i :: 0 <= i < |ids| ==> ids[i] in ids;
  }

  lemma SameSizeSubset(a: set<nat>, b: set<nat>)
    requires a <= b && |a| == |b|
    ensures a == b
  {
    assert |b - a| == 0;
  }

  lemma Newcomer(a: set<nat>, b: set<nat>) returns (x: nat)
    requires a <= b && |a| != |b|
    ensures x in b && x !in a
  {
    assert a + (b - a) == b;
    x :| x in b - a;
  }

  lemma {:induction false} HasMinimum(s: set<nat>) returns (m: nat)
    requires s != {}
    ensures m in s && forall x :: x in s ==> m <= x
    decreases |s|
  {
    var first :| first in s;
    m := first;
    if s != {first} {
      var least := HasMinimum(s - {first});
      m := if least < first then least else first;
      assert forall x :: x in s ==> x == first || x in s - {first};
    }
  }

  /** The standard library's sort of a drained set. */
  method SortedElements(s: set<nat>) returns (r: seq<nat>)
    ensures Increasing(r) && forall x :: x in r <==> x in s
  {
    r := [];
    var left := s;
    while left != {}
      invariant Increasing(r) && left <= s
      invariant forall x :: x in r <==> x in s && x !in left
      invariant forall x, y :: x in r && y in left ==> x < y
      decreases |left|
    {
      ghost var least := HasMinimum(left);
      var m :| m in left && forall x :: x in left ==> m <= x;
      IncreasingAppend(r, m);
      r, left := r + [m], left - {m};
    }
  }

  // ---- changed inputs ----

  function Get<T>(items: seq<T>, i: nat): Option<T> {
    if i < |items| then Some(items[i]) else None
  }

  function ChangedBelow(prior: seq<InputDependency>, current: seq<InputDependency>, n: nat): (r: seq<nat>)
    ensures Increasing(r)
    ensures forall i: nat :: i in r <==> i < n && Get(prior, i) != Get(current, i)
  {
    if n == 0 then []
    else
      var below := ChangedBelow(prior, current, n - 1);
      IncreasingAppend(below, n - 1);
      if Get(prior, n - 1) != Get(current, n - 1) then below + [n - 1] else below
  }

  /** Indices at which an input was altered, added or dropped. */
  function ChangedInputs(prior: seq<InputDependency>, current: seq<InputDependency>): (r: seq<nat>)
    ensures Increasing(r)
    ensures forall i: nat :: i in r <==> Get(prior, i) != Get(current, i)
  {
    ChangedBelow(prior, current, if |prior| > |current| then |prior| else |current|)
  }

  // ---- what the result is good for ----

  lemma {:induction false} ChainMeans(sections: seq<Section>, some: seq<nat>, more: seq<nat>, path: seq<nat>)
    requires Chain(sections, some, path) && forall k :: k in some ==> k in more
    ensures Chain(sections, more, path)
    decreases |path|
  {
    if |path| > 1 {
      ChainMeans(sections, some, more, path[1..]);
    }
  }

  lemma {:induction false} ChainSplits(sections: seq<Section>, a: seq<nat>, b: seq<nat>, path: seq<nat>)
    requires Chain(sections, a + b, path)
    ensures Chain(sections, a, path) || Chain(sections, b, path)
    decreases |path|
  {
    if |path| > 1 {
      ChainSplits(sections, a, b, path[1..]);
    }
  }

  /** Invalidation distributes over the union of two change sets. */
  lemma InvalidationDistributes(sections: seq<Section>, a: seq<nat>, b: seq<nat>, id: nat)
    ensures Reaches(sections, a + b, id) <==> Reaches(sections, a, id) || Reaches(sections, b, id)
  {
    if Reaches(sections, a + b, id) {
      var path :| ChainFrom(sections, a + b, id, path);
      ChainSplits(sections, a, b, path);
      assert ChainFrom(sections, a, id, path) || ChainFrom(sections, b, id, path);
    }
    if Reaches(sections, a, id) {
      var path :| ChainFrom(sections, a, id, path);
      ChainMeans(sections, a, a + b, path);
      assert ChainFrom(sections, a + b, id, path);
    }
    if Reaches(sections, b, id) {
      var path :| ChainFrom(sections, b, id, path);
      ChainMeans(sections, b, a + b, path);
      assert ChainFrom(sections, a + b, id, path);
    }
  }

  /** A section left valid has every input it transitively reads unchanged. */
  lemma ValidReadsUnchanged(
      sections: seq<Section>, prior: seq<InputDependency>, current: seq<InputDependency>, id: nat, input: nat)
    requires !Reaches(sections, ChangedInputs(prior, current), id)
    requires Reaches(sections, [input], id)
    ensures Get(prior, input) == Get(current, input)
  {
    if Get(prior, input) != Get(current, input) {
      var path :| ChainFrom(sections, [input], id, path);
      ChainMeans(sections, [input], ChangedInputs(prior, current), path);
      assert ChainFrom(sections, ChangedInputs(prior, current), id, path);
    }
  }

  // ---- reused result = rebuilt result ----

  /**
    The result of rebuilding section `id`, following dependencies `depth` levels
    down: any function of the section's own inputs and of its dependencies'
    results. `base` stands for whatever is found at the bottom, so cyclic graphs
    need no special case.
   */
  function Rebuilt<V>(sections: seq<Section>, inputs: seq<InputDependency>,
                      build: (nat, seq<Option<InputDependency>>, seq<V>) -> V, base: nat -> V, depth: nat, id: nat): V
    decreases depth
  {
    if depth == 0 || Find(sections, id).None? then base(id)
    else
      var s := Find(sections, id).value;
      build(
        id,
        seq(|s.inputDependencies|, k requires 0 <= k < |s.inputDependencies| => Get(inputs, s.inputDependencies[k])),
        seq(|s.sectionDependencies|, k requires 0 <= k < |s.sectionDependencies| =>
          Rebuilt(sections, inputs, build, base, depth - 1, s.sectionDependencies[k])))
  }

  /** Sections not invalidated by the changed inputs would rebuild to the very same result. */
  lemma {:induction false} ReusedIsRebuilt<V>(
      sections: seq<Section>, prior: seq<InputDependency>, current: seq<InputDependency>,
      build: (nat, seq<Option<InputDependency>>, seq<V>) -> V, base: nat -> V, depth: nat, id: nat)
    requires !Reaches(sections, ChangedInputs(prior, current), id)
    ensures Rebuilt(sections, prior, build, base, depth, id) == Rebuilt(sections, current, build, base, depth, id)
    decreases depth
  {
    var changed := ChangedInputs(prior, current);
    if depth > 0 && Find(sections, id).Some? {
      var s := Find(sections, id).value;
      var i :| 0 <= i < |sections| && sections[i] == s;
      forall k | 0 <= k < |s.inputDependencies|
        ensures Get(prior, s.inputDependencies[k]) == Get(current, s.inputDependencies[k])
      {
        if s.inputDependencies[k] in changed {
          assert ChainFrom(sections, changed, id, [i]);
        }
      }
      forall k | 0 <= k < |s.sectionDependencies|
        ensures Rebuilt(sections, prior, build, base, depth - 1, s.sectionDependencies[k])
             == Rebuilt(sections, current, build, base, depth - 1, s.sectionDependencies[k])
      {
        if Reaches(sections, changed, s.sectionDependencies[k]) {
          var path :| ChainFrom(sections, changed, s.sectionDependencies[k], path);
          assert ([i] + path)[1..] == path;
          assert ChainFrom(sections, changed, id, [i] + path);
        }
        ReusedIsRebuilt(sections, prior, current, build, base, depth - 1, s.sectionDependencies[k]);
      }
      var inputsOld := seq(|s.inputDependencies|,
          k requires 0 <= k < |s.inputDependencies| => Get(prior, s.inputDependencies[k]));
      var inputsNow := seq(|s.inputDependencies|,
          k requires 0 <= k < |s.inputDependencies| => Get(current, s.inputDependencies[k]));
      assert inputsOld == inputsNow;
      assert seq(|s.sectionDependencies|, k requires 0 <= k < |s.sectionDependencies| =>
          Rebuilt(sections, prior, build, base, depth - 1, s.sectionDependencies[k]))
        == seq(|s.sectionDependencies|, k requires 0 <= k < |s.sectionDependencies| =>
          Rebuilt(sections, current, build, base, depth - 1, s.sectionDependencies[k]));
    }
  }
}
