/**
  Which constants depend on which, read off the declarations by position
  (crates/dm-compiler/src/lib.rs:1987-2033).
 */
module ConstantEdges {
  import opened Wrappers
  import opened Codecs
  import opened SyntaxRecords
  import opened ConstantCycles

  /** A variable definition `var/.../name` with `const` somewhere in its header. */
  ghost predicate Declares(d: Definition, name: Text) {
    && d.kind == Variable
    && d.path != [] && Spells(d.path[0], "var") && d.path[|d.path| - 1] == name
    && exists c :: 0 <= c < |d.header| && d.header[c].kind.Identifier? && Spells(d.header[c].kind.text, "const")
  }

  ghost predicate DeclaresAt(files: seq<Option<SyntaxFile>>, f: nat, i: nat, name: Text) {
    && f < |files| && files[f].Some?
    && i < |files[f].value.definitions| && Declares(files[f].value.definitions[i], name)
  }

  /** The last declaration of `name`, by file and then by place in the file. */
  ghost predicate LastDeclaresAt(files: seq<Option<SyntaxFile>>, f: nat, i: nat, name: Text) {
    && DeclaresAt(files, f, i, name)
    && forall g: nat, j: nat :: DeclaresAt(files, g, j, name) ==> g < f || (g == f && j <= i)
  }

  ghost predicate NamesAfterEquals(header: seq<Token>, b: Text) {
    exists e, k :: NameAfterEquals(header, e, k, b)
  }

  predicate NameAfterEquals(header: seq<Token>, e: int, k: int, b: Text) {
    && 0 <= e < k < |header|
    && header[e].kind.Operator? && Spells(header[e].kind.text, "=")
    && header[k].kind == Identifier(b)
  }

  lemma SpelledOut(t: Text)
    ensures Spells(t, "var") <==> t == VAR
    ensures Spells(t, "const") <==> t == CONST
    ensures Spells(t, "=") <==> t == EQUALS
  {
  }

  lemma DeclaresIff(d: Definition, name: Text)
    ensures Declares(d, name) <==> DeclaresConstant(d) && d.path[|d.path| - 1] == name
  {
    if d.path != [] {
      SpelledOut(d.path[0]);
    }
    forall c | 0 <= c < |d.header| && d.header[c].kind.Identifier?
      ensures Spells(d.header[c].kind.text, "const") <==> d.header[c].kind == Identifier(CONST)
    {
      SpelledOut(d.header[c].kind.text);
    }
  }

  lemma {:induction false} NamesIff(tokens: seq<Token>, b: Text)
    ensures b in Names(tokens) <==> exists k :: 0 <= k < |tokens| && tokens[k].kind == Identifier(b)
  {
    if tokens != [] {
      NamesIff(tokens[1..], b);
      if k :| 0 <= k < |tokens| && tokens[k].kind == Identifier(b) {
        if k > 0 {
          assert tokens[1..][k - 1].kind == Identifier(b);
        }
      }
    }
  }

  lemma {:induction false} InitializerNamesIff(header: seq<Token>, b: Text)
    ensures b in Names(Initializer(header)) <==> NamesAfterEquals(header, b)
  {
    if header != [] {
      var rest := header[1..];
      if header[0].kind.Operator? {
        SpelledOut(header[0].kind.text);
      }
      NamesIff(rest, b);
      InitializerNamesIff(rest, b);
      if header[0].kind == Operator(EQUALS) {
        if k :| 0 <= k < |rest| && rest[k].kind == Identifier(b) {
          assert NameAfterEquals(header, 0, k + 1, b);
        }
        if e, k :| NameAfterEquals(header, e, k, b) {
          assert rest[k - 1].kind == Identifier(b);
        }
      } else {
        if e, k :| NameAfterEquals(rest, e, k, b) {
          assert NameAfterEquals(header, e + 1, k + 1, b);
        }
        if e, k :| NameAfterEquals(header, e, k, b) {
          assert NameAfterEquals(rest, e - 1, k - 1, b);
        }
      }
    }
  }

  // ---- the last declaration wins ----

  ghost predicate LastDeclares(definitions: seq<Definition>, i: nat, name: Text) {
    && i < |definitions| && Declares(definitions[i], name)
    && forall j :: i < j < |definitions| ==> !Declares(definitions[j], name)
  }

  lemma {:induction false} DefinitionsKeep(definitions: seq<Definition>, before: Graph, a: Text, b: Text)
    requires forall d <- definitions :: !Declares(d, a)
    ensures Edge(DefinitionsGraph(definitions, before), a, b) <==> Edge(before, a, b)
  {
    hide Declares, DeclaresConstant, Initializer, Names;
    if definitions != [] {
      var d := definitions[0];
      DeclaresIff(d, a);
      var here := WithDefinition(d, before);
      assert Edge(here, a, b) <==> Edge(before, a, b);
      DefinitionsKeep(definitions[1..], here, a, b);
    }
  }

  lemma {:induction false} DefinitionsLast(definitions: seq<Definition>, before: Graph, i: nat, a: Text, b: Text)
    requires LastDeclares(definitions, i, a)
    ensures Edge(DefinitionsGraph(definitions, before), a, b) <==> NamesAfterEquals(definitions[i].header, b)
  {
    hide Declares, DeclaresConstant, Initializer, Names, NamesAfterEquals;
    var d, rest := definitions[0], definitions[1..];
    var here := WithDefinition(d, before);
    assert DefinitionsGraph(definitions, before) == DefinitionsGraph(rest, here);
    if i == 0 {
      DeclaresIff(d, a);
      InitializerNamesIff(d.header, b);
      DefinitionsKeep(rest, here, a, b);
    } else {
      DefinitionsLast(rest, here, i - 1, a, b);
    }
  }

  lemma {:induction false} FilesKeep(files: seq<Option<SyntaxFile>>, before: Graph, a: Text, b: Text)
    requires forall f: nat, i: nat :: !DeclaresAt(files, f, i, a)
    ensures Edge(FilesGraph(files, before), a, b) <==> Edge(before, a, b)
  {
    hide Declares, DefinitionsGraph;
    if files != [] {
      var here := WithFile(files[0], before);
      if files[0].Some? {
        forall d <- files[0].value.definitions
          ensures !Declares(d, a)
        {
          var i :| 0 <= i < |files[0].value.definitions| && files[0].value.definitions[i] == d;
          assert !DeclaresAt(files, 0, i, a);
        }
        DefinitionsKeep(files[0].value.definitions, before, a, b);
      }
      forall f: nat, i: nat
        ensures !DeclaresAt(files[1..], f, i, a)
      {
        assert !DeclaresAt(files, f + 1, i, a);
      }
      FilesKeep(files[1..], here, a, b);
    }
  }

  lemma {:induction false} FilesLast(files: seq<Option<SyntaxFile>>, before: Graph, f: nat, i: nat, a: Text, b: Text)
    requires LastDeclaresAt(files, f, i, a)
    ensures Edge(FilesGraph(files, before), a, b) <==>
        NamesAfterEquals(files[f].value.definitions[i].header, b)
  {
    hide Declares, DefinitionsGraph, NamesAfterEquals;
    var here := WithFile(files[0], before);
    var rest := files[1..];
    assert FilesGraph(files, before) == FilesGraph(rest, here);
    if f == 0 {
      var definitions := files[0].value.definitions;
      forall j | i < j < |definitions|
        ensures !Declares(definitions[j], a)
      {
        assert !DeclaresAt(files, 0, j, a);
      }
      DefinitionsLast(definitions, before, i, a, b);
      forall g: nat, j: nat
        ensures !DeclaresAt(rest, g, j, a)
      {
        assert !DeclaresAt(files, g + 1, j, a);
      }
      FilesKeep(rest, here, a, b);
    } else {
      assert DeclaresAt(rest, f - 1, i, a);
      forall g: nat, j: nat | DeclaresAt(rest, g, j, a)
        ensures g < f - 1 || (g == f - 1 && j <= i)
      {
        assert DeclaresAt(files, g + 1, j, a);
      }
      FilesLast(rest, here, f - 1, i, a, b);
    }
  }

  /** A declared name has a last declaration. */
  lemma {:induction false} LastExists(files: seq<Option<SyntaxFile>>, f: nat, i: nat, a: Text) returns (g: nat, j: nat)
    requires DeclaresAt(files, f, i, a)
    ensures LastDeclaresAt(files, g, j, a)
    decreases |files| - f, if f < |files| && files[f].Some? then |files[f].value.definitions| - i else 0
  {
    g, j := f, i;
    if h: nat, k: nat :| DeclaresAt(files, h, k, a) && (h > f || (h == f && k > i)) {
      g, j := LastExists(files, h, k, a);
    }
  }

  /**
    One constant depends on another exactly when the last declaration of the
    one has the name of the other somewhere after its first equals sign.
   */
  lemma EdgesIff(files: seq<Option<SyntaxFile>>, a: Text, b: Text)
    ensures Edge(FilesGraph(files, map[]), a, b) <==>
        exists f: nat, i: nat ::
          LastDeclaresAt(files, f, i, a) && NamesAfterEquals(files[f].value.definitions[i].header, b)
  {
    hide LastDeclaresAt, NamesAfterEquals, FilesGraph;
    if f: nat, i: nat :| DeclaresAt(files, f, i, a) {
      var g, j := LastExists(files, f, i, a);
      FilesLast(files, map[], g, j, a, b);
      forall h: nat, k: nat | LastDeclaresAt(files, h, k, a)
        ensures h == g && k == j
      {
        OneLast(files, g, j, h, k, a);
      }
    } else {
      FilesKeep(files, map[], a, b);
      forall f: nat, i: nat
        ensures !LastDeclaresAt(files, f, i, a)
      {
        NotLast(files, f, i, a);
      }
    }
  }

  lemma OneLast(files: seq<Option<SyntaxFile>>, f: nat, i: nat, g: nat, j: nat, a: Text)
    requires LastDeclaresAt(files, f, i, a) && LastDeclaresAt(files, g, j, a)
    ensures f == g && i == j
  {
    assert DeclaresAt(files, f, i, a) && DeclaresAt(files, g, j, a);
  }

  lemma NotLast(files: seq<Option<SyntaxFile>>, f: nat, i: nat, a: Text)
    requires !DeclaresAt(files, f, i, a)
    ensures !LastDeclaresAt(files, f, i, a)
  {
  }
}
