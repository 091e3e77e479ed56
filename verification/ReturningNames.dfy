/**
  Names that leave a build and come back, over runs of builds
  (crates/dm-compiler/src/lib.rs:880-918).
 */
module ReturningNames {
  import opened Wrappers
  import opened DatabaseModel
  import opened StableIds

  // ---- the number a new name draws ----

  /** Where the key's node stands. */
  function Place(nodes: seq<Node>, key: Key): (i: nat)
    requires Names(nodes, key)
    ensures i < |nodes| && KeyOf(nodes[i]) == key
  {
    var last := |nodes| - 1;
    if KeyOf(nodes[last]) == key then last
    else
      assert Names(nodes[..last], key) by {
        var i :| 0 <= i < |nodes| && KeyOf(nodes[i]) == key;
        assert nodes[..last][i] == nodes[i];
      }
      Place(nodes[..last], key)
  }

  /** The next free number of the namespace, after the new names that come before this one. */
  function Drawn(prior: seq<StableIdEntry>, nodes: seq<Node>, key: Key): nat
    requires Names(nodes, key)
  {
    Clamp(Next(prior, key.0) + NewBefore(prior, nodes, key.0, Place(nodes, key)))
  }

  lemma OnePlace(nodes: seq<Node>, i: nat, j: nat)
    requires DistinctNodes(nodes) && i < |nodes| && j < |nodes| && KeyOf(nodes[i]) == KeyOf(nodes[j])
    ensures i == j
  {
  }

  lemma NewNameDraws(prior: seq<StableIdEntry>, nodes: seq<Node>, key: Key)
    requires DistinctNodes(nodes) && Names(nodes, key) && Known(prior, key).None?
    ensures Known(Assigned(prior, nodes), key) == Some(Drawn(prior, nodes, key))
  {
    var i := NamedPlace(prior, nodes, key);
    var j := Place(nodes, key);
    OnePlace(nodes, i, j);
    hide Assigned, IdFor, KeyOf, NewBefore;
    SamePlace(prior, nodes, key, i);
  }

  lemma SamePlace(prior: seq<StableIdEntry>, nodes: seq<Node>, key: Key, i: nat)
    requires i < |nodes| && KeyOf(nodes[i]) == key && Names(nodes, key) && Place(nodes, key) == i &&
        Known(prior, key).None?
    ensures IdFor(prior, nodes, i) == Drawn(prior, nodes, key)
  {
  }

  lemma AbsentIsForgotten(prior: seq<StableIdEntry>, nodes: seq<Node>, key: Key)
    requires !Names(nodes, key)
    ensures Known(Assigned(prior, nodes), key).None?
  {
    var r := Assigned(prior, nodes);
    if Known(r, key).Some? {
      var i := KnownEntry(r, key);
      SameEntry(prior, nodes, i);
    }
  }

  // ---- when a returning name keeps its number ----

  /**
    A name that held `x` after `j` builds, was missing from the last build but one and is named by the last holds
    `x` again exactly when `x` is the number a new name in its place draws.
   */
  lemma ReturningKeepsIff(start: seq<StableIdEntry>, builds: seq<seq<Node>>, key: Key, j: nat, x: nat)
    requires |builds| >= 2 && DistinctNodes(builds[|builds| - 1])
    requires j <= |builds| - 2 && Known(TableAfter(start, builds[..j]), key) == Some(x)
    requires !Names(builds[|builds| - 2], key) && Names(builds[|builds| - 1], key)
    ensures Known(TableAfter(start, builds), key) == Known(TableAfter(start, builds[..j]), key) <==>
      Drawn(TableAfter(start, builds[..|builds| - 1]), builds[|builds| - 1], key) == x
  {
    hide Known, Assigned, Drawn, KeyOf, Names;
    var n := |builds| - 1;
    var fewer := builds[..n];
    assert fewer[n - 1] == builds[n - 1];
    AbsentIsForgotten(TableAfter(start, fewer[..n - 1]), fewer[n - 1], key);
    NewNameDraws(TableAfter(start, fewer), builds[n], key);
  }

  /** With numbers to spare, a name that returns while a larger number of its namespace survives gets another one. */
  lemma LargerSurvivorForbids(
      start: seq<StableIdEntry>, builds: seq<seq<Node>>, key: Key, j: nat, x: nat, e: StableIdEntry)
    requires |builds| >= 2 && DistinctNodes(builds[|builds| - 1])
    requires j <= |builds| - 2 && Known(TableAfter(start, builds[..j]), key) == Some(x) && x < MAX_ID
    requires !Names(builds[|builds| - 2], key) && Names(builds[|builds| - 1], key)
    requires e in TableAfter(start, builds[..|builds| - 1]) && e.namespace == key.0 && e.id >= x
    ensures Known(TableAfter(start, builds), key) != Some(x)
  {
    ReturningKeepsIff(start, builds, key, j, x);
  }

  // ---- when two names hold one number ----

  /** At build `f` the name is new and draws `x`. */
  predicate DrawsAt(start: seq<StableIdEntry>, builds: seq<seq<Node>>, key: Key, f: nat, x: nat) {
    && 1 <= f <= |builds|
    && var prior := TableAfter(start, builds[..f - 1]);
       Names(builds[f - 1], key) && Known(prior, key).None? && Drawn(prior, builds[f - 1], key) == x
  }

  predicate NamedFrom(builds: seq<seq<Node>>, key: Key, f: nat) {
    forall k :: f <= k < |builds| ==> Names(builds[k], key)
  }

  /** The name came in after build `i`, drew `x` then and was named ever since. */
  predicate TookOver(start: seq<StableIdEntry>, builds: seq<seq<Node>>, key: Key, i: nat, x: nat) {
    exists f: nat :: i < f <= |builds| && DrawsAt(start, builds, key, f, x) && NamedFrom(builds, key, f)
  }

  lemma OneEntry(table: seq<StableIdEntry>, i: nat, j: nat)
    requires DistinctNumbers(table) && i < |table| && j < |table|
    requires (table[i].namespace, table[i].id) == (table[j].namespace, table[j].id)
    ensures i == j
  {
  }

  lemma OneNumberOneName(table: seq<StableIdEntry>, a: Key, b: Key, x: nat)
    requires ValidTable(table) && a.0 == b.0 && Known(table, a) == Known(table, b) == Some(x)
    ensures a == b
  {
    var i := KnownEntry(table, a);
    var j := KnownEntry(table, b);
    OneEntry(table, i, j);
  }

  lemma GoodPrefix(start: seq<StableIdEntry>, builds: seq<seq<Node>>, n: nat)
    requires ValidTable(start) && GoodRun(start, builds) && n <= |builds|
    ensures GoodRun(start, builds[..n]) && ValidTable(TableAfter(start, builds[..n]))
    ensures n > 0 ==> DistinctNodes(builds[n - 1])
    decreases |builds|
  {
    if n < |builds| {
      GoodPrefix(start, builds[..|builds| - 1], n);
      assert builds[..|builds| - 1][..n] == builds[..n];
    } else {
      assert builds[..n] == builds;
      RunKeepsTablesValid(start, builds);
    }
  }

  lemma DrawsLater(start: seq<StableIdEntry>, builds: seq<seq<Node>>, key: Key, f: nat, x: nat)
    requires builds != [] && f < |builds|
    ensures DrawsAt(start, builds, key, f, x) == DrawsAt(start, builds[..|builds| - 1], key, f, x)
  {
    if 1 <= f {
      assert builds[..|builds| - 1][..f - 1] == builds[..f - 1];
    }
  }

  lemma TookOverLater(start: seq<StableIdEntry>, builds: seq<seq<Node>>, c: Key, i: nat, x: nat)
    requires builds != [] && Names(builds[|builds| - 1], c)
    requires TookOver(start, builds[..|builds| - 1], c, i, x)
    ensures TookOver(start, builds, c, i, x)
  {
    hide DrawsAt;
    var n := |builds| - 1;
    var f: nat :| i < f <= n && DrawsAt(start, builds[..n], c, f, x) && NamedFrom(builds[..n], c, f);
    DrawsLater(start, builds, c, f, x);
    forall k | f <= k < |builds|
      ensures Names(builds[k], c)
    {
      assert k < n ==> builds[..n][k] == builds[k];
    }
    assert NamedFrom(builds, c, f);
  }

  lemma TookOverNow(start: seq<StableIdEntry>, builds: seq<seq<Node>>, c: Key, i: nat, x: nat)
    requires i < |builds| && DrawsAt(start, builds, c, |builds|, x)
    ensures TookOver(start, builds, c, i, x)
  {
    assert NamedFrom(builds, c, |builds|);
  }

  /** After build `i`, in which another name holds `x`, a name holds `x` only if it took the number over. */
  lemma {:induction false} HoldsTookOver(
      start: seq<StableIdEntry>, builds: seq<seq<Node>>, a: Key, c: Key, i: nat, x: nat)
    requires ValidTable(start) && GoodRun(start, builds) && i <= |builds|
    requires a != c && a.0 == c.0 && Known(TableAfter(start, builds[..i]), a) == Some(x)
    requires Known(TableAfter(start, builds), c) == Some(x)
    ensures TookOver(start, builds, c, i, x)
    decreases |builds|
  {
    hide TookOver, DrawsAt, Known, Assigned, ValidTable;
    if i == |builds| {
      assert builds[..i] == builds;
      RunKeepsTablesValid(start, builds);
      OneNumberOneName(TableAfter(start, builds), a, c, x);
      assert false;
    } else {
      var n := |builds| - 1;
      HoldsOrDraws(start, builds, c, x);
      if Known(TableAfter(start, builds[..n]), c) == Some(x) {
        assert builds[..n][..i] == builds[..i];
        HoldsTookOver(start, builds[..n], a, c, i, x);
        TookOverLater(start, builds, c, i, x);
      } else {
        TookOverNow(start, builds, c, i, x);
      }
    }
  }

  /**
    While `a` holds `x` after `i` builds, another name of the namespace holds `x` at the end of the run exactly
    when it came in after build `i`, drew `x` as the next free number and was named ever since.
   */
  lemma TwoNamesOneNumberIff(start: seq<StableIdEntry>, builds: seq<seq<Node>>, a: Key, c: Key, i: nat, x: nat)
    requires ValidTable(start) && GoodRun(start, builds) && i <= |builds|
    requires a != c && a.0 == c.0 && Known(TableAfter(start, builds[..i]), a) == Some(x)
    ensures Known(TableAfter(start, builds), c) == Some(x) <==> TookOver(start, builds, c, i, x)
  {
    hide DrawsAt, GoodRun, ValidTable, TableAfter, Known;
    if Known(TableAfter(start, builds), c) == Some(x) {
      HoldsTookOver(start, builds, a, c, i, x);
    }
    if TookOver(start, builds, c, i, x) {
      var f: nat :| i < f <= |builds| && DrawsAt(start, builds, c, f, x) && NamedFrom(builds, c, f);
      TakenOverHolds(start, builds, c, f, x);
    }
  }

  lemma TakenOverHolds(start: seq<StableIdEntry>, builds: seq<seq<Node>>, c: Key, f: nat, x: nat)
    requires ValidTable(start) && GoodRun(start, builds)
    requires DrawsAt(start, builds, c, f, x) && NamedFrom(builds, c, f)
    ensures Known(TableAfter(start, builds), c) == Some(x)
  {
    GoodPrefix(start, builds, f);
    assert builds[..f][..f - 1] == builds[..f - 1];
    NewNameDraws(TableAfter(start, builds[..f - 1]), builds[f - 1], c);
    IdIsStable(start, builds, c, f);
  }

  /** A name that holds `x` is named, and held `x` before or draws it now. */
  lemma HoldsOrDraws(start: seq<StableIdEntry>, builds: seq<seq<Node>>, c: Key, x: nat)
    requires ValidTable(start) && GoodRun(start, builds) && builds != []
    requires Known(TableAfter(start, builds), c) == Some(x)
    ensures var n := |builds| - 1;
      && Names(builds[n], c)
      && (Known(TableAfter(start, builds[..n]), c) == Some(x) || DrawsAt(start, builds, c, n + 1, x))
  {
    var n := |builds| - 1;
    var prior := TableAfter(start, builds[..n]);
    if !Names(builds[n], c) {
      AbsentIsForgotten(prior, builds[n], c);
    } else if Known(prior, c).Some? {
      KnownKeepsId(prior, builds[n], c);
    } else {
      NewNameDraws(prior, builds[n], c);
    }
  }

  // ---- runs ----

  function TypeNamed(name: Text): Node { Node(Type, name) }

  function Both(a: Text, b: Text): seq<Node> { [TypeNamed(a), TypeNamed(b)] }

  /** The two names of one build, and what the next free number is. */
  lemma FirstBuild(a: Text, b: Text)
    requires a != b
    ensures Assigned([], Both(a, b)) == [StableIdEntry(TYPE_NAMESPACE, a, 0), StableIdEntry(TYPE_NAMESPACE, b, 1)]
    ensures DistinctNodes(Both(a, b))
  {
    var nodes := Both(a, b);
    assert KeyOf(nodes[0]) == (TYPE_NAMESPACE, a) && KeyOf(nodes[1]) == (TYPE_NAMESPACE, b);
    assert NewBefore([], nodes, TYPE_NAMESPACE, 0) == 0;
    assert NewBefore([], nodes, TYPE_NAMESPACE, 1) == 1;
  }

  lemma OneLeft(prior: seq<StableIdEntry>, a: Text, id: nat)
    requires Known(prior, (TYPE_NAMESPACE, a)) == Some(id)
    ensures Assigned(prior, [TypeNamed(a)]) == [StableIdEntry(TYPE_NAMESPACE, a, id)]
  {
  }

  lemma OneAdded(a: Text, id: nat, b: Text)
    requires a != b && id < MAX_ID
    ensures Assigned([StableIdEntry(TYPE_NAMESPACE, a, id)], Both(a, b))
         == [StableIdEntry(TYPE_NAMESPACE, a, id), StableIdEntry(TYPE_NAMESPACE, b, id + 1)]
  {
    var prior, nodes := [StableIdEntry(TYPE_NAMESPACE, a, id)], Both(a, b);
    assert prior[..0] == [];
    assert KeyOf(nodes[0]) == (TYPE_NAMESPACE, a) && KeyOf(nodes[1]) == (TYPE_NAMESPACE, b);
    assert Known(prior, KeyOf(nodes[0])) == Some(id) && Known(prior, KeyOf(nodes[1])).None?;
    assert Next(prior, TYPE_NAMESPACE) == id + 1;
    assert NewBefore(prior, nodes, TYPE_NAMESPACE, 0) == 0 && NewBefore(prior, nodes, TYPE_NAMESPACE, 1) == 0;
  }

  lemma ThreeBuilds(start: seq<StableIdEntry>, x: seq<Node>, y: seq<Node>, z: seq<Node>)
    ensures TableAfter(start, [x]) == Assigned(start, x)
    ensures TableAfter(start, [x, y, z]) == Assigned(Assigned(Assigned(start, x), y), z)
  {
    hide Assigned;
    assert [x][..0] == [] && [x, y][..1] == [x] && [x, y, z][..2] == [x, y];
    assert TableAfter(start, []) == start;
    assert TableAfter(start, [x]) == Assigned(start, x);
    assert TableAfter(start, [x, y]) == Assigned(Assigned(start, x), y);
  }

  lemma KnownPair(a: Text, i: nat, b: Text, j: nat)
    requires a != b
    ensures var table := [StableIdEntry(TYPE_NAMESPACE, a, i), StableIdEntry(TYPE_NAMESPACE, b, j)];
      Known(table, (TYPE_NAMESPACE, a)) == Some(i) && Known(table, (TYPE_NAMESPACE, b)) == Some(j)
  {
    var table := [StableIdEntry(TYPE_NAMESPACE, a, i), StableIdEntry(TYPE_NAMESPACE, b, j)];
    assert table[..1] == [table[0]];
  }

  /** Three builds of which the middle one lacks a name: kept or changed by where the name stood in the first. */
  lemma ReturningNameRuns(a: Text, b: Text)
    requires a != b
    ensures var key := (TYPE_NAMESPACE, a);
      && Known(TableAfter([], [Both(a, b)]), key) == Some(0)
      && Known(TableAfter([], [Both(a, b), [TypeNamed(b)], Both(b, a)]), key) == Some(2)
      && Known(TableAfter([], [Both(b, a)]), key) == Some(1)
      && Known(TableAfter([], [Both(b, a), [TypeNamed(b)], Both(b, a)]), key) == Some(1)
  {
    hide Assigned, Known;
    FirstBuild(a, b);
    FirstBuild(b, a);
    KnownPair(a, 0, b, 1);
    KnownPair(b, 0, a, 1);
    OneLeft(Assigned([], Both(a, b)), b, 1);
    OneLeft(Assigned([], Both(b, a)), b, 0);
    OneAdded(b, 1, a);
    OneAdded(b, 0, a);
    KnownPair(b, 1, a, 2);
    ThreeBuilds([], Both(a, b), [TypeNamed(b)], Both(b, a));
    ThreeBuilds([], Both(b, a), [TypeNamed(b)], Both(b, a));
  }

  /** Three builds after which a new name holds the number a missing one held. */
  lemma TakenNumberRun(a: Text, b: Text, c: Text)
    requires a != b && a != c && b != c
    ensures Known(TableAfter([], [Both(a, b)]), (TYPE_NAMESPACE, b))
         == Known(TableAfter([], [Both(a, b), [TypeNamed(a)], Both(a, c)]), (TYPE_NAMESPACE, c)) == Some(1)
  {
    hide Assigned, Known;
    FirstBuild(a, b);
    KnownPair(a, 0, b, 1);
    OneLeft(Assigned([], Both(a, b)), a, 0);
    OneAdded(a, 0, c);
    KnownPair(a, 0, c, 1);
    ThreeBuilds([], Both(a, b), [TypeNamed(a)], Both(a, c));
  }
}
