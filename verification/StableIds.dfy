/**
  Linker identities carried from one build to the next
  (crates/dm-compiler/src/lib.rs:880-918; persistent_database.rs:520-534).
 */
module StableIds {
  import opened Wrappers
  import opened MachineIntegers
  import opened Codecs
  import opened DatabaseModel

  const MAX_ID := U64_LIMIT - 1

  datatype NodeKind = Type | Procedure | Verb | Variable

  datatype Node = Node(kind: NodeKind, path: Text)

  const TYPE_NAMESPACE: Text := [0x74, 0x79, 0x70, 0x65]                                         // "type"
  const PROCEDURE_NAMESPACE: Text := [0x70, 0x72, 0x6F, 0x63, 0x65, 0x64, 0x75, 0x72, 0x65]      // "procedure"
  const FIELD_NAMESPACE: Text := [0x66, 0x69, 0x65, 0x6C, 0x64]                                  // "field"

  function Namespace(n: Node): Text {
    match n.kind
    case Type => TYPE_NAMESPACE
    case Procedure | Verb => PROCEDURE_NAMESPACE
    case Variable => FIELD_NAMESPACE
  }

  /** Procedures and verbs share their numbers. */
  lemma NamespaceSpells(n: Node)
    ensures n.kind == Type ==> Spells(Namespace(n), "type")
    ensures n.kind == Procedure || n.kind == Verb ==> Spells(Namespace(n), "procedure")
    ensures n.kind == Variable ==> Spells(Namespace(n), "field")
  {
  }

  type Key = (Text, Text)

  function KeyOf(n: Node): Key { (Namespace(n), n.path) }

  function EntryKey(e: StableIdEntry): Key { (e.namespace, e.name) }

  predicate DistinctNodes(nodes: seq<Node>) {
    forall i, j :: 0 <= i < j < |nodes| ==> KeyOf(nodes[i]) != KeyOf(nodes[j])
  }

  predicate Bounded(entries: seq<StableIdEntry>) {
    forall i :: 0 <= i < |entries| ==> entries[i].id <= MAX_ID
  }

  /** A table as a database holds it: distinct names, distinct numbers, 64-bit IDs. */
  predicate ValidTable(entries: seq<StableIdEntry>) {
    DistinctNames(entries) && DistinctNumbers(entries) && Bounded(entries)
  }

  // ---- the assignment ----

  function Known(prior: seq<StableIdEntry>, key: Key): (r: Option<nat>)
    ensures r.Some? ==> exists i :: 0 <= i < |prior| && EntryKey(prior[i]) == key && prior[i].id == r.value
    ensures r.None? ==> forall i :: 0 <= i < |prior| ==> EntryKey(prior[i]) != key
  {
    if prior == [] then None
    else
      var last := prior[|prior| - 1];
      if EntryKey(last) == key then Some(last.id) else Known(prior[..|prior| - 1], key)
  }

  /** One past the largest prior ID of the namespace, before any clamping. */
  function Next(prior: seq<StableIdEntry>, namespace: Text): (next: nat)
    ensures forall i :: 0 <= i < |prior| && prior[i].namespace == namespace ==> prior[i].id < next
    ensures next > 0 ==> exists i :: 0 <= i < |prior| && prior[i].namespace == namespace && prior[i].id == next - 1
  {
    if prior == [] then 0
    else
      var last := prior[|prior| - 1];
      var before := Next(prior[..|prior| - 1], namespace);
      if last.namespace == namespace && last.id >= before then last.id + 1 else before
  }

  function Clamp(id: nat): nat { if id > MAX_ID then MAX_ID else id }

  predicate IsNew(prior: seq<StableIdEntry>, n: Node) { Known(prior, KeyOf(n)).None? }

  /** How many nodes before place `i` drew a fresh ID in the namespace. */
  function NewBefore(prior: seq<StableIdEntry>, nodes: seq<Node>, namespace: Text, i: nat): (count: nat)
    requires i <= |nodes|
    ensures count <= i
  {
    if i == 0 then 0
    else
      var before := NewBefore(prior, nodes, namespace, i - 1);
      if Namespace(nodes[i - 1]) == namespace && IsNew(prior, nodes[i - 1]) then before + 1 else before
  }

  function IdFor(prior: seq<StableIdEntry>, nodes: seq<Node>, i: nat): nat
    requires i < |nodes|
  {
    if IsNew(prior, nodes[i]) then
      Clamp(Next(prior, Namespace(nodes[i])) + NewBefore(prior, nodes, Namespace(nodes[i]), i))
    else Known(prior, KeyOf(nodes[i])).value
  }

  function Assigned(prior: seq<StableIdEntry>, nodes: seq<Node>): (r: seq<StableIdEntry>)
    ensures |r| == |nodes|
  {
    seq(|nodes|, i requires 0 <= i < |nodes| =>
        StableIdEntry(Namespace(nodes[i]), nodes[i].path, IdFor(prior, nodes, i)))
  }

  function Lookup<K, V>(m: map<K, V>, key: K, otherwise: V): V {
    if key in m then m[key] else otherwise
  }

  /** Raises a namespace's counter, leaving the others alone. */
  function Raise(next: map<Text, nat>, namespace: Text, value: nat): (r: map<Text, nat>)
    ensures forall ns: Text :: Lookup(r, ns, 0) == if ns == namespace then value else Lookup(next, ns, 0)
  {
    next[namespace := value]
  }

  ghost predicate Records(ids: map<Key, nat>, prior: seq<StableIdEntry>) {
    forall k :: Known(prior, k) == (if k in ids then Some(ids[k]) else None)
  }

  /** First pass: prior IDs by name, and the next free ID of each namespace. */
  method GatherPrior(prior: seq<StableIdEntry>) returns (ids: map<Key, nat>, next: map<Text, nat>)
    ensures Records(ids, prior)
    ensures forall ns :: Lookup(next, ns, 0) == Clamp(Next(prior, ns))
  {
    ids, next := map[], map[];
    for i := 0 to |prior|
      invariant Records(ids, prior[..i])
      invariant forall ns :: Lookup(next, ns, 0) == Clamp(Next(prior[..i], ns))
    {
      assert prior[..i + 1][..i] == prior[..i];
      var e := prior[i];
      ids := ids[EntryKey(e) := e.id];
      var bumped, current := Clamp(e.id + 1), Lookup(next, e.namespace, 0);
      next := Raise(next, e.namespace, if current > bumped then current else bumped);
    }
    assert prior[..|prior|] == prior;
  }

  /** The counters stand where `i` numbered nodes leave them. */
  ghost predicate Tracks(next: map<Text, nat>, prior: seq<StableIdEntry>, nodes: seq<Node>, i: nat)
    requires i <= |nodes|
  {
    forall ns :: Lookup(next, ns, 0) == Clamp(Next(prior, ns) + NewBefore(prior, nodes, ns, i))
  }

  lemma TracksStep(next: map<Text, nat>, prior: seq<StableIdEntry>, nodes: seq<Node>, i: nat)
    requires i < |nodes| && Tracks(next, prior, nodes, i)
    ensures var ns := Namespace(nodes[i]);
      if IsNew(prior, nodes[i])
      then Lookup(next, ns, 0) == IdFor(prior, nodes, i)
        && Tracks(Raise(next, ns, Clamp(Lookup(next, ns, 0) + 1)), prior, nodes, i + 1)
      else Tracks(next, prior, nodes, i + 1)
  {
    var namespace := Namespace(nodes[i]);
    assert Lookup(next, namespace, 0) == Clamp(Next(prior, namespace) + NewBefore(prior, nodes, namespace, i));
  }

  /** A known name keeps its ID, a new one draws the next free one. */
  method NumberNode(ghost prior: seq<StableIdEntry>, nodes: seq<Node>, i: nat, ids: map<Key, nat>, next: map<Text, nat>)
    returns (id: nat, after: map<Text, nat>)
    requires i < |nodes| && Records(ids, prior) && Tracks(next, prior, nodes, i)
    ensures id == IdFor(prior, nodes, i) && Tracks(after, prior, nodes, i + 1)
  {
    TracksStep(next, prior, nodes, i);
    var namespace, key := Namespace(nodes[i]), KeyOf(nodes[i]);
    assert Known(prior, key) == (if key in ids then Some(ids[key]) else None);
    if key in ids {
      id, after := ids[key], next;
    } else {
      id := Lookup(next, namespace, 0);
      after := Raise(next, namespace, Clamp(id + 1));
    }
  }

  lemma NothingNumbered(next: map<Text, nat>, prior: seq<StableIdEntry>, nodes: seq<Node>)
    requires forall ns :: Lookup(next, ns, 0) == Clamp(Next(prior, ns))
    ensures Tracks(next, prior, nodes, 0)
  {
  }

  lemma AssignedNext(prior: seq<StableIdEntry>, nodes: seq<Node>, i: nat)
    requires i < |nodes|
    ensures Assigned(prior, nodes)[..i + 1]
         == Assigned(prior, nodes)[..i] + [StableIdEntry(Namespace(nodes[i]), nodes[i].path, IdFor(prior, nodes, i))]
  {
  }

  method AssignStableIds(prior: seq<StableIdEntry>, nodes: seq<Node>) returns (r: seq<StableIdEntry>)
    ensures r == Assigned(prior, nodes)
  {
    hide Assigned, IdFor, Tracks, Records, Namespace, Lookup, Clamp, Next;
    var ids, next := GatherPrior(prior);
    NothingNumbered(next, prior, nodes);
    r := [];
    for i := 0 to |nodes|
      invariant r == Assigned(prior, nodes)[..i]
      invariant Tracks(next, prior, nodes, i)
    {
      AssignedNext(prior, nodes, i);
      var id;
      id, next := NumberNode(prior, nodes, i, ids, next);
      r := r + [StableIdEntry(Namespace(nodes[i]), nodes[i].path, id)];
    }
  }

  // ---- when the new table is valid ----

  predicate Retained(prior: seq<StableIdEntry>, nodes: seq<Node>, namespace: Text, id: nat) {
    exists i :: 0 <= i < |nodes| && Namespace(nodes[i]) == namespace && Known(prior, KeyOf(nodes[i])) == Some(id)
  }

  /**
    There are enough unused 64-bit numbers above the prior ones for the new names
    of the namespace; or the clamped last number goes to a single new name while
    its old holder is gone.
   */
  predicate Room(prior: seq<StableIdEntry>, nodes: seq<Node>, namespace: Text) {
    var wanted := NewBefore(prior, nodes, namespace, |nodes|);
    || wanted == 0
    || Next(prior, namespace) + wanted <= U64_LIMIT
    || (wanted == 1 && Next(prior, namespace) == U64_LIMIT && !Retained(prior, nodes, namespace, MAX_ID))
  }

  lemma KnownEntry(prior: seq<StableIdEntry>, key: Key) returns (i: nat)
    requires Known(prior, key).Some?
    ensures i < |prior| && EntryKey(prior[i]) == key && prior[i].id == Known(prior, key).value
  {
    i :| 0 <= i < |prior| && EntryKey(prior[i]) == key && prior[i].id == Known(prior, key).value;
  }

  lemma {:induction false} NewBeforeGrows(prior: seq<StableIdEntry>, nodes: seq<Node>, namespace: Text, i: nat, j: nat)
    requires i < j <= |nodes| && Namespace(nodes[i]) == namespace && IsNew(prior, nodes[i])
    ensures NewBefore(prior, nodes, namespace, i) < NewBefore(prior, nodes, namespace, j)
    decreases j
  {
    if i + 1 < j {
      NewBeforeGrows(prior, nodes, namespace, i, j - 1);
    }
  }

  lemma {:induction false} NewAt(
      prior: seq<StableIdEntry>, nodes: seq<Node>, namespace: Text, k: nat, n: nat) returns (i: nat)
    requires n <= |nodes| && k < NewBefore(prior, nodes, namespace, n)
    ensures i < n && Namespace(nodes[i]) == namespace && IsNew(prior, nodes[i])
    ensures NewBefore(prior, nodes, namespace, i) == k
    decreases n
  {
    if k == NewBefore(prior, nodes, namespace, n - 1) {
      i := n - 1;
    } else {
      i := NewAt(prior, nodes, namespace, k, n - 1);
    }
  }

  lemma TwoIdsDiffer(prior: seq<StableIdEntry>, nodes: seq<Node>, i: nat, j: nat)
    requires ValidTable(prior) && DistinctNodes(nodes) && i < j < |nodes|
    requires Namespace(nodes[i]) == Namespace(nodes[j]) && Room(prior, nodes, Namespace(nodes[i]))
    ensures IdFor(prior, nodes, i) != IdFor(prior, nodes, j)
  {
    var ns := Namespace(nodes[i]);
    if IsNew(prior, nodes[i]) {
      NewBeforeGrows(prior, nodes, ns, i, |nodes|);
      NewBeforeGrows(prior, nodes, ns, i, j);
    }
    if IsNew(prior, nodes[j]) {
      NewBeforeGrows(prior, nodes, ns, j, |nodes|);
    }
    if !IsNew(prior, nodes[i]) {
      var a := KnownEntry(prior, KeyOf(nodes[i]));
      if !IsNew(prior, nodes[j]) {
        var b := KnownEntry(prior, KeyOf(nodes[j]));
        if a < b {
        } else if b < a {
        }
      }
    } else if !IsNew(prior, nodes[j]) {
      var b := KnownEntry(prior, KeyOf(nodes[j]));
    }
  }

  lemma {:induction false} AssignedBounded(prior: seq<StableIdEntry>, nodes: seq<Node>)
    requires Bounded(prior)
    ensures Bounded(Assigned(prior, nodes))
  {
    forall i | 0 <= i < |nodes|
      ensures IdFor(prior, nodes, i) <= MAX_ID
    {
      if !IsNew(prior, nodes[i]) {
        var a := KnownEntry(prior, KeyOf(nodes[i]));
      }
    }
  }

  lemma NextBounded(prior: seq<StableIdEntry>, namespace: Text)
    requires Bounded(prior)
    ensures Next(prior, namespace) <= U64_LIMIT
  {
  }

  /** Without room two nodes are given the same number. */
  lemma NoRoomClashes(prior: seq<StableIdEntry>, nodes: seq<Node>, namespace: Text)
    requires ValidTable(prior) && !Room(prior, nodes, namespace)
    ensures !DistinctNumbers(Assigned(prior, nodes))
  {
    var wanted := NewBefore(prior, nodes, namespace, |nodes|);
    var r := Assigned(prior, nodes);
    NextBounded(prior, namespace);
    var last := NewAt(prior, nodes, namespace, wanted - 1, |nodes|);
    assert r[last].id == MAX_ID;
    var other;
    if wanted >= 2 {
      other := NewAt(prior, nodes, namespace, wanted - 2, |nodes|);
    } else {
      other :| 0 <= other < |nodes| && Namespace(nodes[other]) == namespace &&
          Known(prior, KeyOf(nodes[other])) == Some(MAX_ID);
    }
    assert r[other].id == MAX_ID && r[other].namespace == r[last].namespace;
    if other < last {
    } else {
      assert last < other;
    }
  }

  /** A new table is valid exactly when every namespace has room; names never clash. */
  lemma AssignedValidIff(prior: seq<StableIdEntry>, nodes: seq<Node>)
    requires ValidTable(prior) && DistinctNodes(nodes)
    ensures ValidTable(Assigned(prior, nodes)) <==> forall ns :: Room(prior, nodes, ns)
  {
    var r := Assigned(prior, nodes);
    AssignedBounded(prior, nodes);
    forall i, j | 0 <= i < j < |r|
      ensures (r[i].namespace, r[i].name) != (r[j].namespace, r[j].name)
    {
      assert KeyOf(nodes[i]) != KeyOf(nodes[j]);
    }
    if forall ns :: Room(prior, nodes, ns) {
      forall i, j | 0 <= i < j < |r|
        ensures (r[i].namespace, r[i].id) != (r[j].namespace, r[j].id)
      {
        if r[i].namespace == r[j].namespace {
          TwoIdsDiffer(prior, nodes, i, j);
        }
      }
    } else {
      var ns :| !Room(prior, nodes, ns);
      NoRoomClashes(prior, nodes, ns);
    }
  }

  /** The clamp is real: one name more than the number space holds makes the build's table invalid. */
  lemma ExhaustedNamespace()
    ensures var prior := [StableIdEntry(TYPE_NAMESPACE, [1], MAX_ID)];
      ValidTable(prior) && DistinctNodes([Node(Type, [1]), Node(Type, [2])])
      && !ValidTable(Assigned(prior, [Node(Type, [1]), Node(Type, [2])]))
  {
    var prior := [StableIdEntry(TYPE_NAMESPACE, [1], MAX_ID)];
    var nodes := [Node(Type, [1]), Node(Type, [2])];
    assert prior[..0] == [];
    assert Known(prior, KeyOf(nodes[0])) == Some(MAX_ID);
    assert Known(prior, KeyOf(nodes[1])) == Known([], KeyOf(nodes[1])) == None;
    assert Assigned(prior, nodes)[0].id == MAX_ID == Assigned(prior, nodes)[1].id;
  }

  // ---- identity over runs of builds ----

  /** The table after each of a run of builds in turn. */
  function TableAfter(start: seq<StableIdEntry>, builds: seq<seq<Node>>): seq<StableIdEntry> {
    if builds == [] then start
    else Assigned(TableAfter(start, builds[..|builds| - 1]), builds[|builds| - 1])
  }

  /** Every build of the run names distinct nodes and finds room in every namespace. */
  ghost predicate GoodRun(start: seq<StableIdEntry>, builds: seq<seq<Node>>) {
    builds != [] ==>
      var n := |builds| - 1;
      && GoodRun(start, builds[..n])
      && DistinctNodes(builds[n])
      && forall ns :: Room(TableAfter(start, builds[..n]), builds[n], ns)
  }

  lemma {:induction false} RunKeepsTablesValid(start: seq<StableIdEntry>, builds: seq<seq<Node>>)
    requires ValidTable(start) && GoodRun(start, builds)
    ensures ValidTable(TableAfter(start, builds))
    decreases |builds|
  {
    if builds != [] {
      var n := |builds| - 1;
      RunKeepsTablesValid(start, builds[..n]);
      AssignedValidIff(TableAfter(start, builds[..n]), builds[n]);
    }
  }

  predicate Names(nodes: seq<Node>, key: Key) {
    exists i :: 0 <= i < |nodes| && KeyOf(nodes[i]) == key
  }

  lemma NamedPlace(prior: seq<StableIdEntry>, nodes: seq<Node>, key: Key) returns (i: nat)
    requires DistinctNodes(nodes) && Names(nodes, key)
    ensures i < |nodes| && KeyOf(nodes[i]) == key
    ensures Known(Assigned(prior, nodes), key) == Some(IdFor(prior, nodes, i))
  {
    var r := Assigned(prior, nodes);
    i :| 0 <= i < |nodes| && KeyOf(nodes[i]) == key;
    assert EntryKey(r[i]) == key;
    hide IdFor, Known, Namespace, Assigned;
    var j := KnownEntry(r, key);
    SameEntry(prior, nodes, j);
    assert i == j;
  }

  lemma SameEntry(prior: seq<StableIdEntry>, nodes: seq<Node>, j: nat)
    requires j < |nodes|
    ensures EntryKey(Assigned(prior, nodes)[j]) == KeyOf(nodes[j])
    ensures Assigned(prior, nodes)[j].id == IdFor(prior, nodes, j)
  {
  }

  /** One build: a name already known keeps its number. */
  lemma KnownKeepsId(prior: seq<StableIdEntry>, nodes: seq<Node>, key: Key)
    requires DistinctNodes(nodes) && Names(nodes, key) && Known(prior, key).Some?
    ensures Known(Assigned(prior, nodes), key) == Known(prior, key)
  {
    var i := NamedPlace(prior, nodes, key);
  }

  /** One build with room to spare: a new name's number exceeds every prior number of its namespace. */
  lemma FreshIdIsNew(prior: seq<StableIdEntry>, nodes: seq<Node>, key: Key, e: StableIdEntry)
    requires DistinctNodes(nodes) && Names(nodes, key) && Known(prior, key).None?
    requires Next(prior, key.0) + NewBefore(prior, nodes, key.0, |nodes|) <= U64_LIMIT
    requires e in prior && e.namespace == key.0
    ensures Known(Assigned(prior, nodes), key).Some? && Known(Assigned(prior, nodes), key).value > e.id
  {
    var i := NamedPlace(prior, nodes, key);
    NewBeforeGrows(prior, nodes, key.0, i, |nodes|);
  }

  /** A name present in every build after it is first numbered keeps that number to the end of the run. */
  lemma {:induction false} IdIsStable(start: seq<StableIdEntry>, builds: seq<seq<Node>>, key: Key, from: nat)
    requires ValidTable(start) && GoodRun(start, builds) && from <= |builds|
    requires Known(TableAfter(start, builds[..from]), key).Some?
    requires forall k :: from <= k < |builds| ==> Names(builds[k], key)
    ensures Known(TableAfter(start, builds), key) == Known(TableAfter(start, builds[..from]), key)
    decreases |builds|
  {
    if from == |builds| {
      assert builds[..from] == builds;
    } else {
      var n := |builds| - 1;
      var fewer := builds[..n];
      assert fewer[..from] == builds[..from];
      assert forall k :: from <= k < n ==> fewer[k] == builds[k];
      IdIsStable(start, fewer, key, from);
      KnownKeepsId(TableAfter(start, fewer), builds[n], key);
    }
  }
}
