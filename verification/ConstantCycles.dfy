/**
  Cyclic constant initializers
  (crates/dm-compiler/src/lib.rs:1983-2071).
 */
module ConstantCycles {
  import opened Wrappers
  import opened SyntaxRecords

  type Graph = map<Text, seq<Text>>

  // ---- the dependency graph of declared constants ----

  const VAR: Text := [0x76, 0x61, 0x72]                 // "var"
  const CONST: Text := [0x63, 0x6F, 0x6E, 0x73, 0x74]   // "const"
  const EQUALS: Text := [0x3D]                          // "="

  predicate HasIdentifier(tokens: seq<Token>, name: Text) {
    exists i :: 0 <= i < |tokens| && tokens[i].kind == Identifier(name)
  }

  predicate DeclaresConstant(d: Definition) {
    d.kind == Variable && d.path != [] && d.path[0] == VAR && HasIdentifier(d.header, CONST)
  }

  /** What follows the first assignment operator. */
  function Initializer(tokens: seq<Token>): seq<Token> {
    if tokens == [] then []
    else if tokens[0].kind == Operator(EQUALS) then tokens[1..]
    else Initializer(tokens[1..])
  }

  function Names(tokens: seq<Token>): seq<Text> {
    if tokens == [] then []
    else if tokens[0].kind.Identifier? then [tokens[0].kind.text] + Names(tokens[1..])
    else Names(tokens[1..])
  }

  /** A later declaration of a name replaces an earlier one. */
  function WithDefinition(d: Definition, before: Graph): Graph {
    if DeclaresConstant(d) then before[d.path[|d.path| - 1] := Names(Initializer(d.header))] else before
  }

  function DefinitionsGraph(definitions: seq<Definition>, before: Graph): Graph {
    if definitions == [] then before else DefinitionsGraph(definitions[1..], WithDefinition(definitions[0], before))
  }

  function WithFile(file: Option<SyntaxFile>, before: Graph): Graph {
    if file.Some? then DefinitionsGraph(file.value.definitions, before) else before
  }

  function FilesGraph(files: seq<Option<SyntaxFile>>, before: Graph): Graph {
    if files == [] then before else FilesGraph(files[1..], WithFile(files[0], before))
  }

  // ---- walks ----

  predicate Edge(g: Graph, a: Text, b: Text) {
    a in g && b in g[a]
  }

  predicate Walk(g: Graph, w: seq<Text>) {
    forall i :: 0 <= i < |w| - 1 ==> Edge(g, w[i], w[i + 1])
  }

  predicate WalkFrom(g: Graph, a: Text, b: Text, w: seq<Text>) {
    |w| >= 2 && w[0] == a && w[|w| - 1] == b && Walk(g, w)
  }

  /** One or more dependency steps lead from `a` to `b`. */
  ghost predicate Reaches(g: Graph, a: Text, b: Text) {
    exists w :: WalkFrom(g, a, b, w)
  }

  lemma EdgeReaches(g: Graph, a: Text, b: Text)
    requires Edge(g, a, b)
    ensures Reaches(g, a, b)
  {
    assert WalkFrom(g, a, b, [a, b]);
  }

  lemma EdgeThenReaches(g: Graph, a: Text, b: Text, c: Text)
    requires Edge(g, a, b) && Reaches(g, b, c)
    ensures Reaches(g, a, c)
  {
    var w :| WalkFrom(g, b, c, w);
    assert WalkFrom(g, a, c, [a] + w);
  }

  // ---- the search ----

  /** Every visited node outside `open` has all its dependencies visited, none of them the target. */
  ghost predicate Explored(g: Graph, target: Text, visited: set<Text>, open: set<Text>) {
    forall n, d :: n in visited && n !in open && Edge(g, n, d) ==> d in visited && d != target
  }

  lemma {:induction false} ExploredStopsWalks(g: Graph, target: Text, visited: set<Text>, w: seq<Text>)
    requires Explored(g, target, visited, {})
    requires |w| >= 2 && Walk(g, w) && w[0] in visited
    ensures w[|w| - 1] != target
    decreases |w|
  {
    assert Edge(g, w[0], w[1]);
    if |w| > 2 {
      assert Walk(g, w[1..]) by {
        forall i | 0 <= i < |w[1..]| - 1
          ensures Edge(g, w[1..][i], w[1..][i + 1])
        {
          assert Edge(g, w[i + 1], w[i + 2]);
        }
      }
      ExploredStopsWalks(g, target, visited, w[1..]);
    }
  }

  /**
    Depth-first search that shares its visited set between siblings. `open` is the
    stack of callers whose dependencies are still being tried.
   */
  method DependencyReaches(current: Text, target: Text, g: Graph, visited: set<Text>, ghost open: set<Text>)
    returns (found: bool, after: set<Text>)
    requires open <= visited && Explored(g, target, visited, open)
    ensures found ==> Reaches(g, current, target)
    ensures !found ==> visited + {current} <= after && Explored(g, target, after, open)
    decreases g.Keys - visited
  {
    if current in visited {
      return false, visited;
    }
    after := visited + {current};
    if current !in g {
      return false, after;
    }
    var dependencies := g[current];
    for i := 0 to |dependencies|
      invariant visited + {current} <= after
      invariant Explored(g, target, after, open + {current})
      invariant forall k :: 0 <= k < i ==> dependencies[k] in after && dependencies[k] != target
    {
      var d := dependencies[i];
      assert Edge(g, current, d);
      if d == target {
        EdgeReaches(g, current, target);
        return true, after;
      }
      assert current in g.Keys - visited && current !in g.Keys - after;
      var deeper, more := DependencyReaches(d, target, g, after, open + {current});
      if deeper {
        EdgeThenReaches(g, current, d, target);
        return true, after;
      }
      after := more;
    }
    found := false;
  }

  /** One search from an empty visited set decides reachability. */
  method Search(current: Text, target: Text, g: Graph) returns (found: bool)
    ensures found <==> Reaches(g, current, target)
  {
    var visited;
    found, visited := DependencyReaches(current, target, g, {}, {});
    if !found && Reaches(g, current, target) {
      ghost var w :| WalkFrom(g, current, target, w);
      ExploredStopsWalks(g, target, visited, w);
    }
  }

  method IsCyclic(name: Text, g: Graph) returns (cyclic: bool)
    requires name in g
    ensures cyclic <==> Reaches(g, name, name)
  {
    var dependencies := g[name];
    for i := 0 to |dependencies|
      invariant forall k :: 0 <= k < i ==> dependencies[k] != name && !Reaches(g, dependencies[k], name)
    {
      assert Edge(g, name, dependencies[i]);
      if dependencies[i] == name {
        EdgeReaches(g, name, name);
        return true;
      }
      var reaches := Search(dependencies[i], name, g);
      if reaches {
        EdgeThenReaches(g, name, dependencies[i], name);
        return true;
      }
    }
    cyclic := false;
    if Reaches(g, name, name) {
      FirstStep(g, name, name);
    }
  }

  lemma FirstStep(g: Graph, a: Text, b: Text)
    requires Reaches(g, a, b)
    ensures a in g && exists k :: 0 <= k < |g[a]| && (g[a][k] == b || Reaches(g, g[a][k], b))
  {
    var w :| WalkFrom(g, a, b, w);
    assert Edge(g, w[0], w[1]);
    var k :| 0 <= k < |g[a]| && g[a][k] == w[1];
    if |w| > 2 {
      assert Walk(g, w[1..]) by {
        forall i | 0 <= i < |w[1..]| - 1
          ensures Edge(g, w[1..][i], w[1..][i + 1])
        {
          assert Edge(g, w[i + 1], w[i + 2]);
        }
      }
      assert WalkFrom(g, w[1], b, w[1..]);
    }
  }

  /** The constants reported are exactly those on a cycle of their declared dependencies. */
  method CyclicConstants(files: seq<Option<SyntaxFile>>) returns (reported: set<Text>)
    ensures var g := FilesGraph(files, map[]);
      forall name :: name in reported <==> Reaches(g, name, name)
  {
    var g := FilesGraph(files, map[]);
    reported := {};
    var left := g.Keys;
    while left != {}
      invariant left <= g.Keys
      invariant forall name :: name in reported <==> name in g && name !in left && Reaches(g, name, name)
      decreases |left|
    {
      var name :| name in left;
      var cyclic := IsCyclic(name, g);
      if cyclic {
        reported := reported + {name};
      }
      left := left - {name};
    }
    forall name | Reaches(g, name, name)
      ensures name in g
    {
      FirstStep(g, name, name);
    }
  }

  lemma {:induction false} JoinWalks(g: Graph, a: Text, b: Text, c: Text)
    requires Reaches(g, a, b) && Reaches(g, b, c)
    ensures Reaches(g, a, c)
  {
    var u :| WalkFrom(g, a, b, u);
    var v :| WalkFrom(g, b, c, v);
    var w := u + v[1..];
    forall i | 0 <= i < |w| - 1
      ensures Edge(g, w[i], w[i + 1])
    {
      if i < |u| - 1 {
        assert Edge(g, u[i], u[i + 1]);
      } else {
        assert w[i] == v[i - |u| + 1] && w[i + 1] == v[i - |u| + 2];
        assert Edge(g, v[i - |u| + 1], v[i - |u| + 1 + 1]);
      }
    }
    assert WalkFrom(g, a, c, w);
  }

  /** Constants that reach each other are reported together, whichever of them the search starts from. */
  lemma CyclesAreReportedWhole(g: Graph, a: Text, b: Text)
    requires Reaches(g, a, b) && Reaches(g, b, a)
    ensures Reaches(g, a, a) && Reaches(g, b, b)
  {
    JoinWalks(g, a, b, a);
    JoinWalks(g, b, a, b);
  }

  lemma LastStep(g: Graph, a: Text, b: Text)
    requires Reaches(g, a, b)
    ensures exists n :: Edge(g, n, b)
  {
    var w :| WalkFrom(g, a, b, w);
    assert Edge(g, w[|w| - 2], w[|w| - 1]);
  }

  /** A constant is reported exactly when some direct dependency is the constant itself or leads back to it. */
  lemma OnCycleIff(g: Graph, a: Text)
    ensures Reaches(g, a, a) <==> exists d :: Edge(g, a, d) && (d == a || Reaches(g, d, a))
  {
    if Reaches(g, a, a) {
      FirstStep(g, a, a);
      var k :| 0 <= k < |g[a]| && (g[a][k] == a || Reaches(g, g[a][k], a));
      assert Edge(g, a, g[a][k]);
    }
    if d :| Edge(g, a, d) && (d == a || Reaches(g, d, a)) {
      if d == a {
        EdgeReaches(g, a, a);
      } else {
        EdgeThenReaches(g, a, d, a);
      }
    }
  }

  /** Leading into a cycle is not lying on one: an example of one constant leading into a self-referring one. */
  lemma LeadingIntoACycle(a: Text, b: Text)
    requires a != b
    ensures var g := map[a := [b], b := [b]];
      Reaches(g, a, b) && Reaches(g, b, b) && !Reaches(g, a, a)
  {
    var g: Graph := map[a := [b], b := [b]];
    assert g[a][0] == b && g[b][0] == b;
    EdgeReaches(g, a, b);
    EdgeReaches(g, b, b);
    if Reaches(g, a, a) {
      LastStep(g, a, a);
    }
  }
}
