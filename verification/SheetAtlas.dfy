/**
  The persistent shelf allocator for whole icon sheets
  (crates/dm-client/src/gpu.rs:58-76, 386-524).
 */
module SheetAtlas {
  import opened Wrappers
  import opened MachineIntegers
  import opened Rectangles

  type Path = seq<char>
  type Channel = n: nat | n < 256
  type Rgba = seq<Channel>

  datatype Sheet = Sheet(resource: Path, width: u32, height: u32, rgba: seq<Channel>)

  datatype Refusal = DimensionsChanged | DimensionsOverflow | WrongLength | ExceedsAtlas | AtlasFull

  /** What the texture shows: nothing until a sheet is written there. */
  type Texture = Texel -> Option<Rgba>

  datatype Shelf = Shelf(nextX: u32, nextY: u32, rowHeight: u32, entries: map<Path, Region>, texture: Texture)

  // ---- the sheet's pixels ----

  predicate WellSized(sheet: Sheet) {
    |sheet.rgba| == sheet.width * sheet.height * 4
  }

  /** The four bytes of one pixel of a row-major sheet. */
  function PixelOf(sheet: Sheet, column: nat, row: nat): Rgba
    requires WellSized(sheet) && column < sheet.width && row < sheet.height
  {
    IndexInRange(sheet.width, sheet.height, column, row);
    var at := Index(sheet.width, column, row) * 4;
    sheet.rgba[at..at + 4]
  }

  function Written(texture: Texture, sheet: Sheet, x: nat, y: nat): Texture
    requires WellSized(sheet)
  {
    (t: Texel) =>
      if Covers(Region(x, y, sheet.width, sheet.height), t) then Some(PixelOf(sheet, t.x - x, t.y - y)) else texture(t)
  }

  /** The texture shows the sheet, pixel for pixel, with its corner at (x, y). */
  ghost predicate Shows(texture: Texture, sheet: Sheet, r: Region)
    requires WellSized(sheet)
  {
    && r.width == sheet.width
    && r.height == sheet.height
    && forall column: nat, row: nat :: column < sheet.width && row < sheet.height ==>
      texture(Texel(r.x + column, r.y + row)) == Some(PixelOf(sheet, column, row))
  }

  lemma WrittenShows(texture: Texture, sheet: Sheet, x: nat, y: nat)
    requires WellSized(sheet)
    ensures Shows(Written(texture, sheet, x, y), sheet, Region(x, y, sheet.width, sheet.height))
    ensures forall t :: !Covers(Region(x, y, sheet.width, sheet.height), t) ==>
      Written(texture, sheet, x, y)(t) == texture(t)
  {
    forall column: nat, row: nat | column < sheet.width && row < sheet.height
      ensures Written(texture, sheet, x, y)(Texel(x + column, y + row)) == Some(PixelOf(sheet, column, row))
    {
      assert Covers(Region(x, y, sheet.width, sheet.height), Texel(x + column, y + row));
    }
  }

  // ---- one request ----

  function Empty(texture: Texture): Shelf {
    Shelf(0, 0, 0, map[], texture)
  }

  /** A sheet that does not fit beside the last one starts a new shelf. */
  function Advance(dimension: u32, s: Shelf, width: u32): Shelf {
    if s.nextX > 0 && SaturatingAdd(s.nextX, width) > dimension then
      s.(nextX := 0, nextY := SaturatingAdd(s.nextY, s.rowHeight), rowHeight := 0)
    else s
  }

  function Refused(dimension: u32, s: Shelf, sheet: Sheet): Option<Refusal> {
    if sheet.resource in s.entries then
      var r := s.entries[sheet.resource];
      if r.width != sheet.width || r.height != sheet.height then Some(DimensionsChanged) else None
    else if sheet.width * sheet.height * 4 > U64_MAX then Some(DimensionsOverflow)
    else if !WellSized(sheet) then Some(WrongLength)
    else if sheet.width > dimension || sheet.height > dimension then Some(ExceedsAtlas)
    else None
  }

  function Place(dimension: u32, s: Shelf, sheet: Sheet): (Shelf, Result<Region, Refusal>)
    requires WellSized(sheet)
  {
    if SaturatingAdd(s.nextY, sheet.height) > dimension then (s, Failure(AtlasFull))
    else
      var r := Region(s.nextX, s.nextY, sheet.width, sheet.height);
      (Shelf(SaturatingAdd(s.nextX, sheet.width), s.nextY, Max(s.rowHeight, sheet.height),
             s.entries[sheet.resource := r], Written(s.texture, sheet, s.nextX, s.nextY)), Success(r))
  }

  function Ensure(dimension: u32, s: Shelf, sheet: Sheet): (Shelf, Result<Region, Refusal>) {
    var refused := Refused(dimension, s, sheet);
    if refused.Some? then (s, Failure(refused.value))
    else if sheet.resource in s.entries then (s, Success(s.entries[sheet.resource]))
    else Place(dimension, Advance(dimension, s, sheet.width), sheet)
  }

  // ---- what every request keeps ----

  predicate OnShelves(s: Shelf, r: Region) {
    || r.y + r.height <= s.nextY
    || (r.y == s.nextY && r.x + r.width <= s.nextX && r.height <= s.rowHeight)
  }

  ghost predicate Packed(dimension: nat, s: Shelf) {
    && s.nextX <= dimension
    && s.nextY + s.rowHeight <= dimension
    && (forall p :: p in s.entries ==> InBounds(dimension, dimension, s.entries[p]) && OnShelves(s, s.entries[p]))
    && (forall p, q :: p in s.entries && q in s.entries && p != q ==> Disjoint(s.entries[p], s.entries[q]))
  }

  /** Later state `b` still has every region of `a`, at the same place and showing the same texels. */
  ghost predicate Keeps(a: Shelf, b: Shelf) {
    forall p :: p in a.entries ==>
      && p in b.entries && b.entries[p] == a.entries[p]
      && forall t :: Covers(a.entries[p], t) ==> b.texture(t) == a.texture(t)
  }

  lemma AdvancePacks(dimension: u32, s: Shelf, width: u32)
    requires Packed(dimension, s) && dimension < U32_MAX && width <= dimension
    ensures var a := Advance(dimension, s, width);
      && Packed(dimension, a) && a.entries == s.entries && a.texture == s.texture
      && a.nextX + width <= dimension
  {
  }

  lemma PlacePacks(dimension: u32, s: Shelf, sheet: Sheet)
    requires Packed(dimension, s) && dimension < U32_MAX
    requires WellSized(sheet) && s.nextX + sheet.width <= dimension && sheet.resource !in s.entries
    ensures var (b, answer) := Place(dimension, s, sheet);
      Packed(dimension, b) && Keeps(s, b) &&
      (answer.Success? ==> sheet.resource in b.entries && b.entries[sheet.resource] == answer.value
                           && Shows(b.texture, sheet, answer.value))
  {
    var (b, answer) := Place(dimension, s, sheet);
    if answer.Success? {
      var r := answer.value;
      WrittenShows(s.texture, sheet, s.nextX, s.nextY);
      forall p | p in s.entries
        ensures Disjoint(s.entries[p], r)
      {
        assert OnShelves(s, s.entries[p]);
      }
      forall p | p in b.entries
        ensures InBounds(dimension, dimension, b.entries[p]) && OnShelves(b, b.entries[p])
      {
        if p != sheet.resource {
          assert InBounds(dimension, dimension, s.entries[p]) && OnShelves(s, s.entries[p]);
        }
      }
    }
  }

  /**
    One request, granted or refused: the packing stays valid, no region moves or is
    overwritten, and a granted region belongs to the requested sheet.
   */
  lemma RequestKeepsPacking(dimension: u32, s: Shelf, sheet: Sheet)
    requires Packed(dimension, s) && dimension < U32_MAX
    ensures var (b, answer) := Ensure(dimension, s, sheet);
      Packed(dimension, b) && Keeps(s, b) && (answer.Success? ==> Granted(s, b, sheet, answer.value))
  {
    if Refused(dimension, s, sheet).None? && sheet.resource !in s.entries {
      AdvancePacks(dimension, s, sheet.width);
      PlacePacks(dimension, Advance(dimension, s, sheet.width), sheet);
    }
  }

  ghost predicate Granted(a: Shelf, b: Shelf, sheet: Sheet, r: Region) {
    && sheet.resource in b.entries && b.entries[sheet.resource] == r
    && r.width == sheet.width && r.height == sheet.height
    && (sheet.resource !in a.entries ==> WellSized(sheet) && Shows(b.texture, sheet, r))
  }

  // ---- when a sheet is granted ----

  /** A sheet the atlas could take if it were empty. */
  predicate Takeable(dimension: u32, sheet: Sheet) {
    && |sheet.rgba| == sheet.width * sheet.height * 4 <= U64_MAX
    && sheet.width <= dimension && sheet.height <= dimension
  }

  /** Beside the last sheet if there is room, otherwise at the left end of a new shelf. */
  function Corner(dimension: u32, s: Shelf, width: u32): (nat, nat) {
    if s.nextX == 0 || s.nextX + width <= dimension then (s.nextX, s.nextY) else (0, s.nextY + s.rowHeight)
  }

  /** A new sheet is granted exactly when it is well formed and there is height left for it, and where it goes. */
  lemma GrantedIff(dimension: u32, s: Shelf, sheet: Sheet)
    requires Packed(dimension, s) && dimension < U32_MAX && sheet.resource !in s.entries
    ensures var (after, answer) := Ensure(dimension, s, sheet);
      var (x, y) := Corner(dimension, s, sheet.width);
      && (answer.Success? <==> Takeable(dimension, sheet) && y + sheet.height <= dimension)
      && (answer.Success? ==>
            && answer.value == Region(x, y, sheet.width, sheet.height)
            && after.nextX == x + sheet.width && after.nextY == y
            && after.rowHeight == Max(if y == s.nextY then s.rowHeight else 0, sheet.height)
            && after.entries == s.entries[sheet.resource := answer.value])
      && (answer.Failure? ==> after.entries == s.entries && after.texture == s.texture)
      && (answer == Failure(AtlasFull) ==> after.nextX == x && after.nextY == y)
  {
    hide Written;
  }

  /** The exact reason of every refusal. */
  lemma RefusedIff(dimension: u32, s: Shelf, sheet: Sheet)
    requires Packed(dimension, s) && dimension < U32_MAX
    ensures var answer := Ensure(dimension, s, sheet).1;
      var bytes := sheet.width * sheet.height * 4;
      var known := sheet.resource in s.entries;
      && (answer == Failure(DimensionsChanged) <==>
            known && (s.entries[sheet.resource].width, s.entries[sheet.resource].height) != (sheet.width, sheet.height))
      && (answer == Failure(DimensionsOverflow) <==> !known && bytes >= 0x1_0000_0000_0000_0000)
      && (answer == Failure(WrongLength) <==>
            !known && bytes < 0x1_0000_0000_0000_0000 && |sheet.rgba| != bytes)
      && (answer == Failure(ExceedsAtlas) <==>
            && !known && bytes < 0x1_0000_0000_0000_0000 && |sheet.rgba| == bytes
            && (sheet.width > dimension || sheet.height > dimension))
      && (answer == Failure(AtlasFull) <==>
            && !known && bytes < 0x1_0000_0000_0000_0000 && |sheet.rgba| == bytes
            && sheet.width <= dimension && sheet.height <= dimension
            && Corner(dimension, s, sheet.width).1 + sheet.height > dimension)
  {
    hide Written;
  }

  // ---- every run ----

  function After(dimension: u32, s: Shelf, requests: seq<Sheet>): Shelf {
    if requests == [] then s
    else Ensure(dimension, After(dimension, s, requests[..|requests| - 1]), requests[|requests| - 1]).0
  }

  function Answer(dimension: u32, s: Shelf, requests: seq<Sheet>, i: nat): Result<Region, Refusal>
    requires i < |requests|
  {
    Ensure(dimension, After(dimension, s, requests[..i]), requests[i]).1
  }

  lemma {:induction false} RunKeepsPacking(dimension: u32, s: Shelf, requests: seq<Sheet>)
    requires Packed(dimension, s) && dimension < U32_MAX
    ensures Packed(dimension, After(dimension, s, requests))
    ensures Keeps(s, After(dimension, s, requests))
  {
    if requests != [] {
      var n := |requests| - 1;
      RunKeepsPacking(dimension, s, requests[..n]);
      RequestKeepsPacking(dimension, After(dimension, s, requests[..n]), requests[n]);
    }
  }

  lemma {:induction false} AfterSplits(dimension: u32, s: Shelf, first: seq<Sheet>, second: seq<Sheet>)
    ensures After(dimension, s, first + second) == After(dimension, After(dimension, s, first), second)
    decreases |second|
  {
    if second == [] {
      assert first + second == first;
    } else {
      var n := |second| - 1;
      AfterSplits(dimension, s, first, second[..n]);
      assert (first + second)[..|first + second| - 1] == first + second[..n];
    }
  }

  /** No two sheets ever share a texel and none lies outside the texture, whatever was asked before. */
  lemma RegionsNeverOverlap(dimension: u32, texture: Texture, requests: seq<Sheet>, p: Path, q: Path)
    requires dimension < U32_MAX
    requires var s := After(dimension, Empty(texture), requests); p in s.entries && q in s.entries && p != q
    ensures var s := After(dimension, Empty(texture), requests);
      Disjoint(s.entries[p], s.entries[q]) && InBounds(dimension, dimension, s.entries[p])
  {
    RunKeepsPacking(dimension, Empty(texture), requests);
  }

  /** Texels kept under every region keep showing the sheet written there. */
  lemma ShownStays(a: Shelf, b: Shelf, sheet: Sheet, r: Region)
    requires Keeps(a, b) && sheet.resource in a.entries && a.entries[sheet.resource] == r
    requires WellSized(sheet) && Shows(a.texture, sheet, r)
    ensures Shows(b.texture, sheet, r)
  {
    forall column: nat, row: nat | column < sheet.width && row < sheet.height
      ensures b.texture(Texel(r.x + column, r.y + row)) == Some(PixelOf(sheet, column, row))
    {
      assert Covers(r, Texel(r.x + column, r.y + row));
    }
  }

  lemma UpTo(dimension: u32, s: Shelf, requests: seq<Sheet>, i: nat)
    requires i < |requests|
    ensures After(dimension, s, requests)
         == After(dimension, Ensure(dimension, After(dimension, s, requests[..i]), requests[i]).0, requests[i + 1..])
  {
    var first := requests[..i + 1];
    assert first[..|first| - 1] == requests[..i] && first[|first| - 1] == requests[i];
    assert requests == first + requests[i + 1..];
    AfterSplits(dimension, s, first, requests[i + 1..]);
  }

  /** Once granted, a sheet keeps its region, and its pixels if this grant uploaded them, for the rest of the run. */
  lemma GrantSurvives(dimension: u32, texture: Texture, requests: seq<Sheet>, i: nat)
    requires dimension < U32_MAX && i < |requests|
    requires Answer(dimension, Empty(texture), requests, i).Success?
    ensures var before := After(dimension, Empty(texture), requests[..i]);
      Granted(before, After(dimension, Empty(texture), requests), requests[i],
              Answer(dimension, Empty(texture), requests, i).value)
  {
    hide Ensure, After, Packed, Shows;
    var start := Empty(texture);
    var before := After(dimension, start, requests[..i]);
    var (granted, answer) := Ensure(dimension, before, requests[i]);
    EmptyIsPacked(dimension, texture);
    RunKeepsPacking(dimension, start, requests[..i]);
    RequestKeepsPacking(dimension, before, requests[i]);
    RunKeepsPacking(dimension, granted, requests[i + 1..]);
    UpTo(dimension, start, requests, i);
    if requests[i].resource !in before.entries {
      ShownStays(granted, After(dimension, start, requests), requests[i], answer.value);
    }
  }

  lemma EmptyIsPacked(dimension: u32, texture: Texture)
    ensures Packed(dimension, Empty(texture))
  {
  }

  /** A granted sheet is granted the same place on every later request, unless the request changes its size. */
  lemma RegionsNeverMove(dimension: u32, texture: Texture, requests: seq<Sheet>, i: nat, j: nat)
    requires dimension < U32_MAX && i < j < |requests|
    requires requests[i].resource == requests[j].resource
    requires Answer(dimension, Empty(texture), requests, i).Success?
    ensures var first := Answer(dimension, Empty(texture), requests, i);
      var again := Answer(dimension, Empty(texture), requests, j);
      if requests[j].width == requests[i].width && requests[j].height == requests[i].height
      then again == first else again == Failure(DimensionsChanged)
  {
    hide After, Packed, Shows;
    assert requests[..j][..i] == requests[..i];
    GrantSurvives(dimension, texture, requests[..j], i);
  }

  // ---- runs that must be granted ----

  ghost predicate DistinctTakeable(dimension: u32, requests: seq<Sheet>) {
    && (forall i :: 0 <= i < |requests| ==> Takeable(dimension, requests[i]))
    && forall i, j :: 0 <= i < j < |requests| ==> requests[i].resource != requests[j].resource
  }

  function Widths(requests: seq<Sheet>): nat {
    if requests == [] then 0 else Widths(requests[..|requests| - 1]) + requests[|requests| - 1].width
  }

  function Heights(requests: seq<Sheet>): nat {
    if requests == [] then 0 else Heights(requests[..|requests| - 1]) + requests[|requests| - 1].height
  }

  lemma {:induction false} OnlyRequested(dimension: u32, texture: Texture, requests: seq<Sheet>, p: Path)
    requires forall i :: 0 <= i < |requests| ==> requests[i].resource != p
    ensures p !in After(dimension, Empty(texture), requests).entries
  {
    if requests != [] {
      OnlyRequested(dimension, texture, requests[..|requests| - 1], p);
    }
  }

  /** The last of a run of different sheets, asked of the state before it. */
  lemma LastIs(dimension: u32, texture: Texture, requests: seq<Sheet>)
    requires dimension < U32_MAX && DistinctTakeable(dimension, requests) && requests != []
    ensures var n := |requests| - 1;
      var s, sheet := After(dimension, Empty(texture), requests[..n]), requests[n];
      var after := After(dimension, Empty(texture), requests);
      var (x, y) := Corner(dimension, s, sheet.width);
      && DistinctTakeable(dimension, requests[..n])
      && (y + sheet.height <= dimension ==>
            && Answer(dimension, Empty(texture), requests, n) == Success(Region(x, y, sheet.width, sheet.height))
            && after.nextX == x + sheet.width && after.nextY == y
            && after.rowHeight == Max(if y == s.nextY then s.rowHeight else 0, sheet.height))
  {
    var n := |requests| - 1;
    RunKeepsPacking(dimension, Empty(texture), requests[..n]);
    OnlyRequested(dimension, texture, requests[..n], requests[n].resource);
    GrantedIff(dimension, After(dimension, Empty(texture), requests[..n]), requests[n]);
    hide Packed, Ensure, Takeable;
  }

  lemma {:induction false} RowState(dimension: u32, texture: Texture, requests: seq<Sheet>)
    requires dimension < U32_MAX && DistinctTakeable(dimension, requests) && Widths(requests) <= dimension
    ensures var s := After(dimension, Empty(texture), requests);
      s.nextX == Widths(requests) && s.nextY == 0
    ensures requests != [] ==>
      var n := |requests| - 1;
      Answer(dimension, Empty(texture), requests, n)
        == Success(Region(Widths(requests[..n]), 0, requests[n].width, requests[n].height))
  {
    if requests != [] {
      LastIs(dimension, texture, requests);
      RowState(dimension, texture, requests[..|requests| - 1]);
      assert Takeable(dimension, requests[|requests| - 1]);
      hide After, Answer, DistinctTakeable;
    }
  }

  lemma {:induction false} PrefixSums(requests: seq<Sheet>, n: nat)
    requires n <= |requests|
    ensures Widths(requests[..n]) <= Widths(requests) && Heights(requests[..n]) <= Heights(requests)
  {
    if n < |requests| {
      PrefixSums(requests[..|requests| - 1], n);
      assert requests[..|requests| - 1][..n] == requests[..n];
    } else {
      assert requests[..n] == requests;
    }
  }

  lemma PrefixDistinct(dimension: u32, requests: seq<Sheet>, n: nat)
    requires n <= |requests| && DistinctTakeable(dimension, requests)
    ensures DistinctTakeable(dimension, requests[..n])
  {
    hide Takeable;
  }

  lemma SameAnswer(dimension: u32, s: Shelf, requests: seq<Sheet>, i: nat)
    requires i < |requests|
    ensures Answer(dimension, s, requests[..i + 1], i) == Answer(dimension, s, requests, i)
  {
    assert requests[..i + 1][..i] == requests[..i];
  }

  /** Different sheets that fit side by side stand side by side, in the order they were asked for. */
  lemma RowIsGranted(dimension: u32, texture: Texture, requests: seq<Sheet>, i: nat)
    requires dimension < U32_MAX && DistinctTakeable(dimension, requests) && Widths(requests) <= dimension
    requires i < |requests|
    ensures Answer(dimension, Empty(texture), requests, i)
         == Success(Region(Widths(requests[..i]), 0, requests[i].width, requests[i].height))
  {
    PrefixSums(requests, i + 1);
    SameAnswer(dimension, Empty(texture), requests, i);
    PrefixDistinct(dimension, requests, i + 1);
    hide Answer, DistinctTakeable, Widths, Heights;
    var some := requests[..i + 1];
    assert some[..i] == requests[..i] && some[i] == requests[i];
    RowState(dimension, texture, some);
  }

  lemma {:induction false} StackState(dimension: u32, texture: Texture, requests: seq<Sheet>)
    requires dimension < U32_MAX && DistinctTakeable(dimension, requests) && Heights(requests) <= dimension
    ensures var s := After(dimension, Empty(texture), requests);
      s.nextY + s.rowHeight <= Heights(requests)
    ensures requests != [] ==> Answer(dimension, Empty(texture), requests, |requests| - 1).Success?
  {
    if requests != [] {
      LastIs(dimension, texture, requests);
      StackState(dimension, texture, requests[..|requests| - 1]);
      hide After, Answer, DistinctTakeable;
    }
  }

  /** Different sheets whose heights add up to no more than the atlas are all granted, whatever their order. */
  lemma StackIsGranted(dimension: u32, texture: Texture, requests: seq<Sheet>, i: nat)
    requires dimension < U32_MAX && DistinctTakeable(dimension, requests) && Heights(requests) <= dimension
    requires i < |requests|
    ensures Answer(dimension, Empty(texture), requests, i).Success?
  {
    PrefixSums(requests, i + 1);
    SameAnswer(dimension, Empty(texture), requests, i);
    PrefixDistinct(dimension, requests, i + 1);
    hide Answer, DistinctTakeable, Widths, Heights;
    StackState(dimension, texture, requests[..i + 1]);
  }

  // ---- the object ----

  class DmiAtlas {
    const dimension: u32
    var nextX: u32
    var nextY: u32
    var rowHeight: u32
    var entries: map<Path, Region>
    var texture: Texture

    function State(): Shelf
      reads this
    {
      Shelf(nextX, nextY, rowHeight, entries, texture)
    }

    ghost predicate Valid()
      reads this
    {
      dimension < U32_MAX && Packed(dimension, State())
    }

    /** The one caller passes at most 8192; the packing needs no more than that saturation cannot hide an overflow. */
    constructor (limit: u32, blank: Texture)
      requires limit < U32_MAX
      ensures dimension == Max(limit, 1) && State() == Empty(blank) && Valid()
    {
      dimension := Max(limit, 1);
      nextX, nextY, rowHeight := 0, 0, 0;
      entries := map[];
      texture := blank;
    }

    method EnsureSheet(sheet: Sheet) returns (answer: Result<Region, Refusal>)
      requires Valid()
      modifies this
      ensures Valid() && (State(), answer) == Ensure(dimension, old(State()), sheet)
      ensures Keeps(old(State()), State())
      ensures answer.Success? ==> Granted(old(State()), State(), sheet, answer.value)
      ensures answer.Failure? ==> entries == old(entries) && texture == old(texture)
      ensures sheet.resource !in old(entries) ==>
        var (x, y) := Corner(dimension, old(State()), sheet.width);
        && (answer.Success? <==> Takeable(dimension, sheet) && y + sheet.height <= dimension)
        && (answer.Success? ==> answer.value == Region(x, y, sheet.width, sheet.height))
    {
      RequestKeepsPacking(dimension, State(), sheet);
      if sheet.resource !in entries {
        GrantedIff(dimension, State(), sheet);
      }
      if sheet.resource in entries {
        var region := entries[sheet.resource];
        if (region.width, region.height) != (sheet.width, sheet.height) {
          return Failure(DimensionsChanged);
        }
        return Success(region);
      }
      if sheet.width * sheet.height * 4 > U64_MAX {
        return Failure(DimensionsOverflow);
      }
      if |sheet.rgba| != sheet.width * sheet.height * 4 {
        return Failure(WrongLength);
      }
      if sheet.width > dimension || sheet.height > dimension {
        return Failure(ExceedsAtlas);
      }
      if nextX > 0 && SaturatingAdd(nextX, sheet.width) > dimension {
        nextY := SaturatingAdd(nextY, rowHeight);
        nextX := 0;
        rowHeight := 0;
      }
      if SaturatingAdd(nextY, sheet.height) > dimension {
        return Failure(AtlasFull);
      }
      var region := Region(nextX, nextY, sheet.width, sheet.height);
      texture := Written(texture, sheet, nextX, nextY);
      nextX := SaturatingAdd(nextX, sheet.width);
      rowHeight := Max(rowHeight, sheet.height);
      entries := entries[sheet.resource := region];
      answer := Success(region);
    }
  }
}
