/**
  Appearance rows as text: the server writes a line of columns, the client splits lines and columns again
  (crates/dm-lifecycle/src/ipc/text_encoding.rs:78-125; crates/dm-client/src/transport.rs:727, 1198-1223).
 */
module AppearanceText {
  import opened Wrappers
  import opened Collections
  import opened Numerals
  import opened Appearances

  // ---- columns ----

  /** The ASCII white space of the standard library. */
  predicate AsciiWhite(c: char) {
    c == ' ' || c == '\t' || c == '\n' || c == '\U{C}' || c == '\r'
  }

  predicate Token(field: string) {
    field != "" && forall c :: c in field ==> !AsciiWhite(c)
  }

  predicate Tokens(row: Row) {
    forall i :: 0 <= i < |row| ==> Token(row[i])
  }

  function Pending(current: string): Row {
    if current == "" then [] else [current]
  }

  /** The fields of `line` when `current` is the field begun before it. */
  function FieldsFrom(line: string, current: string): Row
    decreases |line|
  {
    if line == "" then Pending(current)
    else if AsciiWhite(line[0]) then Pending(current) + FieldsFrom(line[1..], "")
    else FieldsFrom(line[1..], current + [line[0]])
  }

  function FieldsOf(line: string): Row {
    FieldsFrom(line, "")
  }

  /** Columns with one space between them. */
  function WriteRow(row: Row): string {
    if row == [] then ""
    else if |row| == 1 then row[0]
    else row[0] + " " + WriteRow(row[1..])
  }

  lemma {:induction false} FieldsAreTokens(line: string, current: string)
    requires forall c :: c in current ==> !AsciiWhite(c)
    ensures Tokens(FieldsFrom(line, current))
    decreases |line|
  {
    if line != "" {
      FieldsAreTokens(line[1..], if AsciiWhite(line[0]) then "" else current + [line[0]]);
    }
  }

  /** A field without white space is taken as a whole. */
  lemma {:induction false} FieldPasses(field: string, rest: string, current: string)
    requires forall c :: c in field ==> !AsciiWhite(c)
    ensures FieldsFrom(field + rest, current) == FieldsFrom(rest, current + field)
    decreases |field|
  {
    if field == "" {
      EmptySides(rest);
      EmptySides(current);
    } else {
      assert (field + rest)[0] == field[0] && (field + rest)[1..] == field[1..] + rest;
      FieldPasses(field[1..], rest, current + [field[0]]);
      assert current + [field[0]] + field[1..] == current + field;
    }
  }

  /** Columns without white space read back as those of them that are not empty. */
  function NonEmpty(row: Row): Row {
    if row == [] then [] else Pending(row[0]) + NonEmpty(row[1..])
  }

  lemma {:induction false} RowReads(row: Row)
    requires forall i :: 0 <= i < |row| ==> forall c :: c in row[i] ==> !AsciiWhite(c)
    ensures FieldsOf(WriteRow(row)) == NonEmpty(row)
  {
    hide AsciiWhite;
    if row != [] {
      var field := row[0];
      EmptySides(field);
      if |row| == 1 {
        FieldPasses(field, "", "");
        assert NonEmpty(row[1..]) == [];
        EmptySides(Pending(field));
      } else {
        var rest := " " + WriteRow(row[1..]);
        FieldPasses(field, rest, "");
        assert field + " " + WriteRow(row[1..]) == field + rest;
        SpaceEnds(WriteRow(row[1..]), field);
        RowReads(row[1..]);
      }
    }
  }

  lemma SpaceEnds(rest: string, current: string)
    ensures FieldsFrom(" " + rest, current) == Pending(current) + FieldsFrom(rest, "")
  {
    assert (" " + rest)[1..] == rest;
  }

  lemma {:induction false} TokensAreNonEmpty(row: Row)
    requires Tokens(row)
    ensures NonEmpty(row) == row
  {
    if row != [] {
      assert Token(row[0]);
      TokensAreNonEmpty(row[1..]);
      assert row == [row[0]] + row[1..];
    }
  }

  /** A written row reads back exactly when no column is empty or holds white space. */
  lemma RowReadsBackIff(row: Row)
    ensures FieldsOf(WriteRow(row)) == row <==> Tokens(row)
  {
    FieldsAreTokens(WriteRow(row), "");
    if Tokens(row) {
      forall i | 0 <= i < |row|
        ensures forall c :: c in row[i] ==> !AsciiWhite(c)
      {
        assert Token(row[i]);
      }
      RowReads(row);
      TokensAreNonEmpty(row);
    }
  }

  // ---- lines ----

  /** A carriage return before the line feed belongs to the line end. */
  function Chomp(line: string): string {
    if line != "" && line[|line| - 1] == '\r' then line[..|line| - 1] else line
  }

  function LinesFrom(text: string, current: string): seq<string>
    decreases |text|
  {
    if text == "" then Pending(current)
    else if text[0] == '\n' then [Chomp(current)] + LinesFrom(text[1..], "")
    else LinesFrom(text[1..], current + [text[0]])
  }

  function WriteText(rows: seq<Row>): string {
    if rows == [] then "" else WriteRow(rows[0]) + "\n" + WriteText(rows[1..])
  }

  function FieldsOfAll(lines: seq<string>): (rows: seq<Row>)
    ensures |rows| == |lines| && forall i :: 0 <= i < |rows| ==> rows[i] == FieldsOf(lines[i])
  {
    seq(|lines|, i requires 0 <= i < |lines| => FieldsOf(lines[i]))
  }

  /** The rows the client sees. */
  function ReadText(text: string): seq<Row> {
    FieldsOfAll(LinesFrom(text, ""))
  }

  lemma {:induction false} LinePasses(line: string, rest: string, current: string)
    requires '\n' !in line
    ensures LinesFrom(line + rest, current) == LinesFrom(rest, current + line)
    decreases |line|
  {
    if line == "" {
      EmptySides(rest);
      EmptySides(current);
    } else {
      assert (line + rest)[0] == line[0] && (line + rest)[1..] == line[1..] + rest;
      LinePasses(line[1..], rest, current + [line[0]]);
      assert current + [line[0]] + line[1..] == current + line;
    }
  }

  lemma {:induction false} WrittenRowIsALine(row: Row)
    requires Tokens(row)
    ensures '\n' !in WriteRow(row) && '\r' !in WriteRow(row)
  {
    if row != [] {
      assert Token(row[0]);
      WrittenRowIsALine(row[1..]);
    }
  }

  lemma LineEnds(line: string, rest: string)
    requires '\n' !in line && '\r' !in line
    ensures LinesFrom(line + "\n" + rest, "") == [line] + LinesFrom(rest, "")
  {
    assert line + "\n" + rest == line + ("\n" + rest);
    LinePasses(line, "\n" + rest, "");
    EmptySides(line);
    assert ("\n" + rest)[1..] == rest;
  }

  /** A line may as well end in a carriage return and a line feed. */
  lemma CarriageReturnsEndLines(line: string, rest: string)
    requires '\n' !in line
    ensures LinesFrom(line + "\r\n" + rest, "") == [line] + LinesFrom(rest, "")
  {
    assert line + "\r\n" + rest == (line + "\r") + ("\n" + rest);
    LinePasses(line + "\r", "\n" + rest, "");
    EmptySides(line + "\r");
    assert ("\n" + rest)[1..] == rest;
    assert (line + "\r")[..|line|] == line;
  }

  lemma FieldsOfAllHead(line: string, lines: seq<string>)
    ensures FieldsOfAll([line] + lines) == [FieldsOf(line)] + FieldsOfAll(lines)
  {
  }

  /** Written rows of tokens read back, and what follows them is read for itself. */
  lemma {:induction false} TextReadsBack(rows: seq<Row>, rest: string)
    requires forall i :: 0 <= i < |rows| ==> Tokens(rows[i])
    ensures ReadText(WriteText(rows) + rest) == rows + ReadText(rest)
    decreases |rows|
  {
    hide Tokens, FieldsOf, FieldsOfAll, WriteRow;
    if rows == [] {
      EmptySides(rest);
      EmptySides(ReadText(rest));
    } else {
      var row := rows[0];
      WrittenRowIsALine(row);
      RowReadsBackIff(row);
      TextReadsBack(rows[1..], rest);
      assert WriteText(rows) + rest == WriteRow(row) + "\n" + (WriteText(rows[1..]) + rest);
      LineEnds(WriteRow(row), WriteText(rows[1..]) + rest);
      FieldsOfAllHead(WriteRow(row), LinesFrom(WriteText(rows[1..]) + rest, ""));
      assert rows == [row] + rows[1..];
      Regroup([row], rows[1..], ReadText(rest));
    }
  }

  // ---- server rows as text ----

  /** Every column the server writes besides identity and counts is a token. */
  predicate Spelled(n: Node) {
    Tokens(n.columns) && Tokens(n.extras) && AllSpelled(n.underlays) && AllSpelled(n.overlays)
  }

  predicate AllSpelled(ns: seq<Node>) {
    ns == [] || (AllSpelled(ns[..|ns| - 1]) && Spelled(ns[|ns| - 1]))
  }

  lemma DigitsAreTokens(value: nat, radix: nat)
    requires 2 <= radix <= 16
    ensures Token(Print(value, radix))
  {
    PrintIsValue(value, radix);
    var s := Print(value, radix);
    forall c | c in s
      ensures !AsciiWhite(c)
    {
      var i :| 0 <= i < |s| && s[i] == c;
    }
  }

  lemma ServerRowIsTokens(n: Node)
    requires Tokens(n.columns) && Tokens(n.extras)
    ensures Tokens(ServerRow(n))
  {
    DigitsAreTokens(n.index, 16);
    DigitsAreTokens(n.generation, 16);
    DigitsAreTokens(|n.underlays|, 10);
    DigitsAreTokens(|n.overlays|, 10);
  }

  lemma {:induction false} SpelledRowsAreTokens(n: Node)
    requires Spelled(n)
    ensures forall row :: row in Serialize(ToTree(n)) ==> Tokens(row)
    decreases n
  {
    ServerRowIsTokens(n);
    AllSpelledRowsAreTokens(n.underlays);
    AllSpelledRowsAreTokens(n.overlays);
    hide Tokens, ServerRow;
  }

  lemma {:induction false} AllSpelledRowsAreTokens(ns: seq<Node>)
    requires AllSpelled(ns)
    ensures forall row :: row in SerializeAll(ToTrees(ns)) ==> Tokens(row)
    decreases ns
  {
    hide Tokens, ServerRow;
    if ns != [] {
      AllSpelledRowsAreTokens(ns[..|ns| - 1]);
      SpelledRowsAreTokens(ns[|ns| - 1]);
      assert ToTrees(ns)[..|ns| - 1] == ToTrees(ns[..|ns| - 1]);
    }
  }

  /** The text written for an appearance, whatever text follows, decodes to the server's tree. */
  lemma ServerTextRoundTrips<Look>(paint: Painter<Look>, n: Node, rest: string)
    requires Encodable(n) && Spelled(n)
    ensures WellFormed(ToTree(n))
    ensures DecodeTree(paint, ReadText(WriteText(Serialize(ToTree(n))) + rest), 0, None)
         == Some(Progress(|Serialize(ToTree(n))|, Flatten(paint, ToTree(n), Some(Identity(n.index, n.generation)))))
  {
    hide WriteText, Tokens, DecodeTree, Flatten;
    SpelledRowsAreTokens(n);
    TextReadsBack(Serialize(ToTree(n)), rest);
    ServerTreeRoundTrips(paint, n, ReadText(rest));
  }

  /** The empty type path is written as an empty column: the row comes back one field short and is refused. */
  lemma EmptyTypePathIsRefused(n: Node)
    requires Encodable(n) && n.columns[0] == "" && Tokens(n.columns[1..]) && Tokens(n.extras)
    ensures ReadRow(FieldsOf(WriteRow(ServerRow(n)))).None?
  {
    var head := ["A", IdentityField(n.index, n.generation)];
    var tail := n.columns[1..] + [Print(|n.underlays|, 10), Print(|n.overlays|, 10)] + n.extras;
    assert n.columns == [""] + n.columns[1..];
    assert ServerRow(n) == head + [""] + tail;
    HeadAndTailAreTokens(n);
    hide Token;
    OneEmptyColumn(head, tail);
    assert |FieldsOf(WriteRow(ServerRow(n)))| == 22;
    hide FieldsOf, WriteRow, ServerRow;
  }

  lemma HeadAndTailAreTokens(n: Node)
    requires Encodable(n) && Tokens(n.columns[1..]) && Tokens(n.extras)
    ensures Tokens(["A", IdentityField(n.index, n.generation)])
    ensures Tokens(n.columns[1..] + [Print(|n.underlays|, 10), Print(|n.overlays|, 10)] + n.extras)
  {
    DigitsAreTokens(n.index, 16);
    DigitsAreTokens(n.generation, 16);
    DigitsAreTokens(|n.underlays|, 10);
    DigitsAreTokens(|n.overlays|, 10);
  }

  lemma {:induction false} NonEmptyJoin(a: Row, b: Row)
    ensures NonEmpty(a + b) == NonEmpty(a) + NonEmpty(b)
  {
    if a == [] {
      EmptySides(b);
      EmptySides(NonEmpty(b));
    } else {
      NonEmptyJoin(a[1..], b);
      assert (a + b)[1..] == a[1..] + b;
      Regroup(Pending(a[0]), NonEmpty(a[1..]), NonEmpty(b));
    }
  }

  /** A row of tokens with an empty column among them reads back without it. */
  lemma OneEmptyColumn(head: Row, tail: Row)
    requires Tokens(head) && Tokens(tail)
    ensures FieldsOf(WriteRow(head + [""] + tail)) == head + tail
  {
    var row := head + [""] + tail;
    forall i | 0 <= i < |row|
      ensures forall c :: c in row[i] ==> !AsciiWhite(c)
    {
      assert row[i] == "" || Token(row[i]);
    }
    RowReads(row);
    NonEmptyJoin(head + [""], tail);
    NonEmptyJoin(head, [""]);
    assert NonEmpty([""]) == [] && NonEmpty(head) + [] == NonEmpty(head);
    TokensAreNonEmpty(head);
    TokensAreNonEmpty(tail);
  }
}
