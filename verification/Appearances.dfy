/**
  Appearance trees on the wire: the server writes a node before its underlays and
  overlays, the client flattens them into drawing order
  (crates/dm-client/src/transport.rs:1190-1309; crates/dm-lifecycle/src/ipc/text_encoding.rs:78-113).
 */
module Appearances {
  import opened Wrappers
  import opened MachineIntegers
  import opened Numerals
  import opened Strings

  /** A line split at whitespace. */
  type Row = seq<string>

  datatype Identity = Identity(index: nat, generation: nat)

  datatype Header = Header(identity: Identity, underlays: nat, overlays: nat, fields: Row)

  /** One thing to draw; `look` is everything the renderer reads of its row. */
  datatype Appearance<+Look> = Appearance(datum: Identity, look: Look)

  /** What a row draws; nothing when it has neither an icon nor map text. */
  type Painter<!Look> = Row -> Option<Look>

  // ---- one row ----

  /** The first codec dropped an empty icon state; its rows have one field fewer. */
  function Normalized(row: Row): Row {
    if |row| == 15 && row[0] == "A" then row[..4] + ["~"] + row[4..] else row
  }

  function ParseIdentity(field: string): Option<Identity> {
    var parts := SplitOnce(field, ':');
    if parts.None? then None
    else
      var index := Parse(parts.value.0, 16, U32_MAX);
      var generation := Parse(parts.value.1, 16, U32_MAX);
      if index.None? || generation.None? then None else Some(Identity(index.value, generation.value))
  }

  function ReadRow(row: Row): Option<Header> {
    var fields := Normalized(row);
    if |fields| !in {16, 21, 23} || fields[0] != "A" then None
    else
      var identity := ParseIdentity(fields[1]);
      var underlays := Parse(fields[14], 10, U64_MAX);
      var overlays := Parse(fields[15], 10, U64_MAX);
      if identity.None? || underlays.None? || overlays.None? then None
      else Some(Header(identity.value, underlays.value, overlays.value, fields))
  }

  /** A row of the first codec reads as the row with an absent icon state in its place. */
  lemma FirstCodecReads(row: Row)
    requires |row| == 16 && row[0] == "A" && row[4] == "~"
    ensures ReadRow(row[..4] + row[5..]) == ReadRow(row)
  {
    var short := row[..4] + row[5..];
    assert short[..4] + ["~"] + short[4..] == row;
  }

  // ---- trees and what they mean ----

  datatype Tree = Tree(row: Row, underlays: seq<Tree>, overlays: seq<Tree>)

  /** Every row reads, and announces the children that follow it. */
  predicate WellFormed(t: Tree) {
    var header := ReadRow(t.row);
    && header.Some?
    && header.value.underlays == |t.underlays|
    && header.value.overlays == |t.overlays|
    && AllWellFormed(t.underlays)
    && AllWellFormed(t.overlays)
  }

  predicate AllWellFormed(ts: seq<Tree>) {
    ts == [] || (AllWellFormed(ts[..|ts| - 1]) && WellFormed(ts[|ts| - 1]))
  }

  /** Pre-order: a node, its underlays, its overlays. */
  function Serialize(t: Tree): (rows: seq<Row>)
    ensures |rows| > 0
  {
    [t.row] + SerializeAll(t.underlays) + SerializeAll(t.overlays)
  }

  function SerializeAll(ts: seq<Tree>): seq<Row> {
    if ts == [] then [] else SerializeAll(ts[..|ts| - 1]) + Serialize(ts[|ts| - 1])
  }

  function RootOf(header: Header, root: Option<Identity>): Identity {
    if root.Some? then root.value else header.identity
  }

  function Own<Look>(paint: Painter<Look>, fields: Row, root: Identity): seq<Appearance<Look>> {
    var look := paint(fields);
    if look.Some? then [Appearance(root, look.value)] else []
  }

  /** Drawing order: underlays, the node itself if it is visible, overlays; all under the root's identity. */
  function Flatten<Look>(paint: Painter<Look>, t: Tree, root: Option<Identity>): seq<Appearance<Look>>
    requires WellFormed(t)
  {
    var header := ReadRow(t.row).value;
    var id := RootOf(header, root);
    FlattenAll(paint, t.underlays, Some(id)) + Own(paint, header.fields, id) + FlattenAll(paint, t.overlays, Some(id))
  }

  function FlattenAll<Look>(paint: Painter<Look>, ts: seq<Tree>, root: Option<Identity>): seq<Appearance<Look>>
    requires AllWellFormed(ts)
  {
    if ts == [] then []
    else FlattenAll(paint, ts[..|ts| - 1], root) + Flatten(paint, ts[|ts| - 1], root)
  }

  // ---- decoding ----

  datatype Progress<+Look> = Progress(cursor: nat, output: seq<Appearance<Look>>)

  function DecodeTree<Look>(paint: Painter<Look>, lines: seq<Row>, cursor: nat, root: Option<Identity>)
    : (r: Option<Progress<Look>>)
    ensures r.Some? ==> cursor < r.value.cursor <= |lines|
    decreases |lines| - cursor, 0, 0
  {
    if cursor >= |lines| then None
    else
      var header := ReadRow(lines[cursor]);
      if header.None? then None
      else
        var id := RootOf(header.value, root);
        var under := DecodeMany(paint, lines, cursor + 1, header.value.underlays, Some(id));
        if under.None? then None
        else
          var over := DecodeMany(paint, lines, under.value.cursor, header.value.overlays, Some(id));
          if over.None? then None
          else Some(Progress(over.value.cursor,
            under.value.output + Own(paint, header.value.fields, id) + over.value.output))
  }

  function DecodeMany<Look>(paint: Painter<Look>, lines: seq<Row>, cursor: nat, count: nat, root: Option<Identity>)
    : (r: Option<Progress<Look>>)
    requires cursor <= |lines|
    ensures r.Some? ==> cursor <= r.value.cursor <= |lines|
    decreases |lines| - cursor, 1, count
  {
    if count == 0 then Some(Progress(cursor, []))
    else
      var before := DecodeMany(paint, lines, cursor, count - 1, root);
      if before.None? then None
      else
        var last := DecodeTree(paint, lines, before.value.cursor, root);
        if last.None? then None
        else Some(Progress(last.value.cursor, before.value.output + last.value.output))
  }

  predicate StandsAt(lines: seq<Row>, cursor: nat, rows: seq<Row>) {
    cursor + |rows| <= |lines| && lines[cursor..cursor + |rows|] == rows
  }

  lemma StandsSplit(lines: seq<Row>, cursor: nat, first: seq<Row>, second: seq<Row>)
    ensures StandsAt(lines, cursor, first + second)
       <==> StandsAt(lines, cursor, first) && StandsAt(lines, cursor + |first|, second)
  {
    if cursor + |first| + |second| <= |lines| {
      var all := lines[cursor..cursor + |first + second|];
      assert all[..|first|] == lines[cursor..cursor + |first|];
      assert all[|first|..] == lines[cursor + |first|..cursor + |first| + |second|];
      assert (first + second)[..|first|] == first && (first + second)[|first|..] == second;
      assert all == all[..|first|] + all[|first|..];
    }
  }

  lemma StandsOne(lines: seq<Row>, cursor: nat, row: Row)
    ensures StandsAt(lines, cursor, [row]) <==> cursor < |lines| && lines[cursor] == row
  {
    if cursor < |lines| {
      assert lines[cursor..cursor + 1] == [lines[cursor]];
    }
  }

  lemma StandsNone(lines: seq<Row>, cursor: nat)
    ensures StandsAt(lines, cursor, []) <==> cursor <= |lines|
  {
  }

  lemma SerializeStands(t: Tree, lines: seq<Row>, cursor: nat)
    ensures StandsAt(lines, cursor, Serialize(t)) <==>
      && StandsAt(lines, cursor, [t.row])
      && StandsAt(lines, cursor + 1, SerializeAll(t.underlays))
      && StandsAt(lines, cursor + 1 + |SerializeAll(t.underlays)|, SerializeAll(t.overlays))
  {
    hide StandsAt;
    StandsSplit(lines, cursor, [t.row] + SerializeAll(t.underlays), SerializeAll(t.overlays));
    StandsSplit(lines, cursor, [t.row], SerializeAll(t.underlays));
  }

  /** Wherever a tree's rows stand, the decoder consumes exactly them and yields the tree's drawing order. */
  lemma {:induction false} DecodeReadsTree<Look>(
      paint: Painter<Look>, t: Tree, lines: seq<Row>, cursor: nat, root: Option<Identity>)
    requires WellFormed(t) && StandsAt(lines, cursor, Serialize(t))
    ensures DecodeTree(paint, lines, cursor, root)
         == Some(Progress(cursor + |Serialize(t)|, Flatten(paint, t, root)))
    decreases t
  {
    hide ReadRow, StandsAt, SerializeAll, FlattenAll, DecodeMany, Own;
    SerializeStands(t, lines, cursor);
    StandsOne(lines, cursor, t.row);
    var id := RootOf(ReadRow(t.row).value, root);
    DecodeReadsMany(paint, t.underlays, lines, cursor + 1, Some(id));
    DecodeReadsMany(paint, t.overlays, lines, cursor + 1 + |SerializeAll(t.underlays)|, Some(id));
  }

  lemma {:induction false} DecodeReadsMany<Look>(
      paint: Painter<Look>, ts: seq<Tree>, lines: seq<Row>, cursor: nat, root: Option<Identity>)
    requires AllWellFormed(ts) && StandsAt(lines, cursor, SerializeAll(ts))
    ensures DecodeMany(paint, lines, cursor, |ts|, root)
         == Some(Progress(cursor + |SerializeAll(ts)|, FlattenAll(paint, ts, root)))
    decreases ts
  {
    hide ReadRow, StandsAt, Serialize, Flatten, DecodeTree;
    if ts == [] {
      StandsNone(lines, cursor);
    } else {
      var n := |ts| - 1;
      StandsSplit(lines, cursor, SerializeAll(ts[..n]), Serialize(ts[n]));
      DecodeReadsMany(paint, ts[..n], lines, cursor, root);
      DecodeReadsTree(paint, ts[n], lines, cursor + |SerializeAll(ts[..n])|, root);
    }
  }

  /** Whatever decodes was the rows of a tree: success has no other explanation. */
  lemma {:induction false} DecodedIsTree<Look>(
      paint: Painter<Look>, lines: seq<Row>, cursor: nat, root: Option<Identity>)
    returns (t: Tree)
    requires DecodeTree(paint, lines, cursor, root).Some?
    ensures WellFormed(t) && StandsAt(lines, cursor, Serialize(t))
    ensures DecodeTree(paint, lines, cursor, root).value.cursor == cursor + |Serialize(t)|
    decreases |lines| - cursor, 0, 0
  {
    hide ReadRow, StandsAt, SerializeAll, FlattenAll, DecodeMany, Own;
    var header := ReadRow(lines[cursor]).value;
    var id := RootOf(header, root);
    var middle := DecodeMany(paint, lines, cursor + 1, header.underlays, Some(id)).value.cursor;
    var under := DecodedAreTrees(paint, lines, cursor + 1, header.underlays, Some(id));
    var over := DecodedAreTrees(paint, lines, middle, header.overlays, Some(id));
    t := Tree(lines[cursor], under, over);
    StandsOne(lines, cursor, t.row);
    SerializeStands(t, lines, cursor);
  }

  lemma {:induction false} DecodedAreTrees<Look>(
      paint: Painter<Look>, lines: seq<Row>, cursor: nat, count: nat, root: Option<Identity>)
    returns (ts: seq<Tree>)
    requires cursor <= |lines| && DecodeMany(paint, lines, cursor, count, root).Some?
    ensures AllWellFormed(ts) && |ts| == count && StandsAt(lines, cursor, SerializeAll(ts))
    ensures DecodeMany(paint, lines, cursor, count, root).value.cursor == cursor + |SerializeAll(ts)|
    decreases |lines| - cursor, 1, count
  {
    hide ReadRow, StandsAt, Serialize, Flatten, DecodeTree;
    if count == 0 {
      ts := [];
      StandsNone(lines, cursor);
    } else {
      var before := DecodedAreTrees(paint, lines, cursor, count - 1, root);
      var last := DecodedIsTree(paint, lines, cursor + |SerializeAll(before)|, root);
      ts := before + [last];
      assert ts[..count - 1] == before;
      StandsSplit(lines, cursor, SerializeAll(before), Serialize(last));
    }
  }

  /** A tree cut short anywhere is rejected. */
  lemma StrictPrefixIsRejected<Look>(paint: Painter<Look>, t: Tree, n: nat, root: Option<Identity>)
    requires WellFormed(t) && n < |Serialize(t)|
    ensures DecodeTree(paint, Serialize(t)[..n], 0, root).None?
  {
    var rows := Serialize(t);
    assert rows[0..|rows|] == rows;
    DecodeReadsTree(paint, t, rows, 0, root);
    if DecodeTree(paint, rows[..n], 0, root).Some? {
      var s := DecodedIsTree(paint, rows[..n], 0, root);
      assert rows[0..|Serialize(s)|] == rows[..n][0..|Serialize(s)|];
      DecodeReadsTree(paint, s, rows, 0, root);
    }
  }

  // ---- what the server writes ----

  /** A server appearance: the columns before the child counts and those after them. */
  datatype Node = Node(index: u32, generation: u32, columns: Row, extras: Row, underlays: seq<Node>,
      overlays: seq<Node>)

  predicate Encodable(n: Node) {
    && |n.columns| == 12 && |n.extras| == 7
    && |n.underlays| <= U64_MAX && |n.overlays| <= U64_MAX
    && AllEncodable(n.underlays) && AllEncodable(n.overlays)
  }

  predicate AllEncodable(ns: seq<Node>) {
    ns == [] || (AllEncodable(ns[..|ns| - 1]) && Encodable(ns[|ns| - 1]))
  }

  function IdentityField(index: u32, generation: u32): string {
    Print(index, 16) + ":" + Print(generation, 16)
  }

  function ServerRow(n: Node): Row {
    ["A", IdentityField(n.index, n.generation)] + n.columns
      + [Print(|n.underlays|, 10), Print(|n.overlays|, 10)] + n.extras
  }

  function ToTree(n: Node): Tree {
    Tree(ServerRow(n), ToTrees(n.underlays), ToTrees(n.overlays))
  }

  function ToTrees(ns: seq<Node>): (ts: seq<Tree>)
    ensures |ts| == |ns|
  {
    if ns == [] then [] else ToTrees(ns[..|ns| - 1]) + [ToTree(ns[|ns| - 1])]
  }

  lemma IdentityReadsBack(index: u32, generation: u32)
    ensures ParseIdentity(IdentityField(index, generation)) == Some(Identity(index, generation))
  {
    var left := Print(index, 16);
    PrintIsValue(index, 16);
    assert forall i :: 0 <= i < |left| ==> DigitOf(left[i]) != DigitOf(':');
    SplitJoined(left, ':', Print(generation, 16));
    ParsePrinted(index, 16, U32_MAX);
    ParsePrinted(generation, 16, U32_MAX);
  }

  /** The client reads a server row's identity and child counts as the server meant them. */
  lemma ServerRowReadsBack(n: Node)
    requires Encodable(n)
    ensures ReadRow(ServerRow(n))
         == Some(Header(Identity(n.index, n.generation), |n.underlays|, |n.overlays|, ServerRow(n)))
  {
    var row := ServerRow(n);
    assert |row| == 23;
    assert row[1] == IdentityField(n.index, n.generation);
    assert row[14] == Print(|n.underlays|, 10) && row[15] == Print(|n.overlays|, 10);
    IdentityReadsBack(n.index, n.generation);
    ParsePrinted(|n.underlays|, 10, U64_MAX);
    ParsePrinted(|n.overlays|, 10, U64_MAX);
  }

  lemma {:induction false} ServerTreesAreWellFormed(n: Node)
    requires Encodable(n)
    ensures WellFormed(ToTree(n))
    decreases n
  {
    ServerRowReadsBack(n);
    AllServerTreesAreWellFormed(n.underlays);
    AllServerTreesAreWellFormed(n.overlays);
  }

  lemma {:induction false} AllServerTreesAreWellFormed(ns: seq<Node>)
    requires AllEncodable(ns)
    ensures AllWellFormed(ToTrees(ns))
    decreases ns
  {
    if ns != [] {
      AllServerTreesAreWellFormed(ns[..|ns| - 1]);
      ServerTreesAreWellFormed(ns[|ns| - 1]);
      assert ToTrees(ns)[..|ns| - 1] == ToTrees(ns[..|ns| - 1]);
    }
  }

  /** The rows written by `encode_appearance`, whatever follows them, decode to the server's tree. */
  lemma ServerTreeRoundTrips<Look>(paint: Painter<Look>, n: Node, rest: seq<Row>)
    requires Encodable(n)
    ensures WellFormed(ToTree(n))
    ensures DecodeTree(paint, Serialize(ToTree(n)) + rest, 0, None)
         == Some(Progress(|Serialize(ToTree(n))|, Flatten(paint, ToTree(n), Some(Identity(n.index, n.generation)))))
  {
    var rows := Serialize(ToTree(n));
    ServerTreesAreWellFormed(n);
    ServerRowReadsBack(n);
    assert (rows + rest)[0..|rows|] == rows;
    DecodeReadsTree(paint, ToTree(n), rows + rest, 0, None);
  }

  /** Every appearance of one tree carries the identity of its root. */
  lemma {:induction false} OneIdentity<Look>(paint: Painter<Look>, t: Tree, root: Identity)
    requires WellFormed(t)
    ensures forall a :: a in Flatten(paint, t, Some(root)) ==> a.datum == root
    decreases t
  {
    OneIdentityAll(paint, t.underlays, root);
    OneIdentityAll(paint, t.overlays, root);
  }

  lemma {:induction false} OneIdentityAll<Look>(paint: Painter<Look>, ts: seq<Tree>, root: Identity)
    requires AllWellFormed(ts)
    ensures forall a :: a in FlattenAll(paint, ts, Some(root)) ==> a.datum == root
    decreases ts
  {
    if ts != [] {
      OneIdentityAll(paint, ts[..|ts| - 1], root);
      OneIdentity(paint, ts[|ts| - 1], root);
    }
  }

  /** Which column means what, in rows of all three widths; every other width is refused, and so is every other mark. */
  lemma ColumnsRead(row: Row, index: u32, generation: u32, underlays: nat, overlays: nat)
    requires underlays <= U64_MAX && overlays <= U64_MAX
    ensures |row| != 15 && |row| != 16 && |row| != 21 && |row| != 23 ==> ReadRow(row).None?
    ensures row != [] && row[0] != "A" ==> ReadRow(row).None?
    ensures |row| == 16 || |row| == 21 || |row| == 23 ==>
      var columns := (row[0], row[1], row[14], row[15]);
      columns == ("A", IdentityField(index, generation), Print(underlays, 10), Print(overlays, 10)) ==>
        ReadRow(row) == Some(Header(Identity(index, generation), underlays, overlays, row))
  {
    hide Parse, Print, IdentityField, ParseIdentity;
    IdentityReadsBack(index, generation);
    ParsePrinted(underlays, 10, U64_MAX);
    ParsePrinted(overlays, 10, U64_MAX);
  }

  /** Three rows, one below and one above the first, are drawn from below, all as the first one's. */
  lemma DrawnBetween<Look>(paint: Painter<Look>, root: Header, under: Header, over: Header, rows: seq<Row>)
    requires |rows| == 3
    requires ReadRow(rows[0]) == Some(root) && ReadRow(rows[1]) == Some(under) && ReadRow(rows[2]) == Some(over)
    requires root.underlays == 1 && root.overlays == 1
    requires under.underlays == under.overlays == over.underlays == over.overlays == 0
    requires paint(root.fields).Some? && paint(under.fields).Some? && paint(over.fields).Some?
    ensures DecodeTree(paint, rows, 0, None) == Some(Progress(3, [
        Appearance(root.identity, paint(under.fields).value),
        Appearance(root.identity, paint(root.fields).value),
        Appearance(root.identity, paint(over.fields).value)]))
  {
    hide ReadRow;
    hide DecodeMany;
    var id := root.identity;
    Alone(paint, rows, 1, Some(id));
    Alone(paint, rows, 2, Some(id));
    var below, above := [Appearance(id, paint(under.fields).value)], [Appearance(id, paint(over.fields).value)];
    assert Own(paint, root.fields, id) == [Appearance(id, paint(root.fields).value)];
    assert below + Own(paint, root.fields, id) + above == [below[0], Own(paint, root.fields, id)[0], above[0]];
  }

  lemma Alone<Look>(paint: Painter<Look>, rows: seq<Row>, cursor: nat, root: Option<Identity>)
    requires cursor < |rows| && ReadRow(rows[cursor]).Some? && root.Some?
    requires var header := ReadRow(rows[cursor]).value;
      header.underlays == header.overlays == 0 && paint(header.fields).Some?
    ensures DecodeMany(paint, rows, cursor, 1, root) ==
        Some(Progress(cursor + 1, [Appearance(root.value, paint(ReadRow(rows[cursor]).value.fields).value)]))
  {
    hide ReadRow;
    var id := root.value;
    var own := [Appearance(id, paint(ReadRow(rows[cursor]).value.fields).value)];
    assert DecodeMany(paint, rows, cursor, 0, root) == Some(Progress(cursor, []));
    assert DecodeMany(paint, rows, cursor + 1, 0, root) == Some(Progress(cursor + 1, []));
    assert [] + own + [] == own && [] + own == own;
    assert DecodeTree(paint, rows, cursor, root) == Some(Progress(cursor + 1, own));
  }

  // ---- the decoder ----

  /** The cursor and output vector the recursive decoder shares between its calls. */
  class AppearanceReader<Look> {
    const paint: Painter<Look>
    const lines: seq<Row>
    var cursor: nat
    var output: seq<Appearance<Look>>

    constructor (paint: Painter<Look>, lines: seq<Row>, cursor: nat)
      ensures this.paint == paint && this.lines == lines && this.cursor == cursor && output == []
    {
      this.paint, this.lines, this.cursor, this.output := paint, lines, cursor, [];
    }

    method ParseTree(root: Option<Identity>) returns (ok: bool)
      modifies this
      ensures var expected := DecodeTree(paint, lines, old(cursor), root);
        && ok == expected.Some?
        && (ok ==> cursor == expected.value.cursor && output == old(output) + expected.value.output)
      decreases |lines| - cursor, 0
    {
      hide ReadRow, DecodeMany;
      if cursor >= |lines| {
        return false;
      }
      var row := ReadRow(lines[cursor]);
      cursor := cursor + 1;
      if row.None? {
        return false;
      }
      var id := RootOf(row.value, root);
      ok := ParseMany(row.value.underlays, Some(id));
      if !ok {
        return;
      }
      var look := paint(row.value.fields);
      if look.Some? {
        output := output + [Appearance(id, look.value)];
      }
      ok := ParseMany(row.value.overlays, Some(id));
    }

    method ParseMany(count: nat, root: Option<Identity>) returns (ok: bool)
      requires cursor <= |lines|
      modifies this
      ensures var expected := DecodeMany(paint, lines, old(cursor), count, root);
        && ok == expected.Some?
        && (ok ==> cursor == expected.value.cursor && output == old(output) + expected.value.output)
      decreases |lines| - cursor, 1
    {
      hide ReadRow, DecodeTree;
      ghost var start, written := cursor, output;
      for i := 0 to count
        invariant start <= cursor <= |lines|
        invariant DecodeMany(paint, lines, start, i, root).Some?
        invariant var done := DecodeMany(paint, lines, start, i, root).value;
          cursor == done.cursor && output == written + done.output
      {
        ok := ParseTree(root);
        if !ok {
          FailureSticks(paint, lines, start, i + 1, count, root);
          return;
        }
      }
      ok := true;
    }
  }

  lemma {:induction false} FailureSticks<Look>(
      paint: Painter<Look>, lines: seq<Row>, cursor: nat, k: nat, count: nat, root: Option<Identity>)
    requires cursor <= |lines| && k <= count && DecodeMany(paint, lines, cursor, k, root).None?
    ensures DecodeMany(paint, lines, cursor, count, root).None?
    decreases count
  {
    hide DecodeTree;
    if k < count {
      FailureSticks(paint, lines, cursor, k, count - 1, root);
    }
  }
}
