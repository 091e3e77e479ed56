/**
  The per-frame sprite atlas: shelf packing, then a copy of every sprite's pixels
  (crates/dm-client/src/gpu.rs:26-34, 527-625).
 */
module SpriteAtlas {
  import opened Wrappers
  import opened MachineIntegers
  import opened Rectangles

  const MAX_ATLAS_WIDTH: nat := 4096

  /** What packing reads of a sprite to be drawn. */
  datatype Sprite = Sprite(width: u32, height: u32, pixels: seq<u32>)

  datatype Refusal = TooWide | WrongPixelCount | Aborted

  datatype Atlas = Atlas(width: nat, height: nat, pixels: seq<u32>, placements: seq<Texel>)

  // ---- the atlas width ----

  function Widest(sprites: seq<Sprite>): u32 {
    if sprites == [] then 0 else
      var n := |sprites| - 1;
      Max(Widest(sprites[..n]), sprites[n].width)
  }

  function Combined(sprites: seq<Sprite>): u32 {
    if sprites == [] then 0 else
      var n := |sprites| - 1;
      SaturatingAdd(Combined(sprites[..n]), sprites[n].width)
  }

  function AtlasWidth(sprites: seq<Sprite>): u32 {
    var widest := if sprites == [] then 1 else Widest(sprites);
    Max(Max(widest, Min(Combined(sprites), MAX_ATLAS_WIDTH)), 1)
  }

  predicate Narrow(width: nat, sprites: seq<Sprite>) {
    forall i :: 0 <= i < |sprites| ==> sprites[i].width <= width
  }

  lemma {:induction false} WidestIsAWidth(sprites: seq<Sprite>)
    ensures Narrow(Widest(sprites), sprites)
    ensures sprites != [] ==> exists i :: 0 <= i < |sprites| && sprites[i].width == Widest(sprites)
  {
    if sprites != [] {
      var n := |sprites| - 1;
      WidestIsAWidth(sprites[..n]);
      assert forall i :: 0 <= i < n ==> sprites[i] == sprites[..n][i];
    }
  }

  /** The packer refuses for width exactly when one sprite alone is too wide. */
  lemma TooWideIff(sprites: seq<Sprite>)
    ensures AtlasWidth(sprites) <= MAX_ATLAS_WIDTH <==> Narrow(MAX_ATLAS_WIDTH, sprites)
    ensures Narrow(AtlasWidth(sprites), sprites)
  {
    WidestIsAWidth(sprites);
  }

  // ---- shelves ----

  datatype Cursor = Cursor(x: nat, y: nat, rowHeight: nat)

  /** Where a sprite goes: beside the last one, or on a new shelf when that would cross the width. */
  function Beside(width: u32, c: Cursor, w: u32, saturate: bool): Cursor {
    if c.x > 0 && c.x + w > width then
      Cursor(0, if saturate then Min(c.y + c.rowHeight, U32_MAX) else c.y + c.rowHeight, 0)
    else c
  }

  /** The cursor after a list of sprites, with 32-bit saturation as stored or without it. */
  function After(width: u32, sprites: seq<Sprite>, saturate: bool): Cursor {
    if sprites == [] then Cursor(0, 0, 0)
    else
      var n := |sprites| - 1;
      var c := Beside(width, After(width, sprites[..n], saturate), sprites[n].width, saturate);
      Cursor(c.x + sprites[n].width, c.y, Max(c.rowHeight, sprites[n].height))
  }

  function Placed(width: u32, sprites: seq<Sprite>, i: nat, saturate: bool): Region
    requires i < |sprites|
  {
    var c := Beside(width, After(width, sprites[..i], saturate), sprites[i].width, saturate);
    Region(c.x, c.y, sprites[i].width, sprites[i].height)
  }

  function AtlasHeight(width: u32, sprites: seq<Sprite>): u32 {
    var c := After(width, sprites, true);
    Max(Min(c.y + c.rowHeight, U32_MAX), 1)
  }

  /** The height the shelves need when nothing saturates. */
  function ShelfHeight(width: u32, sprites: seq<Sprite>): nat {
    var c := After(width, sprites, false);
    c.y + c.rowHeight
  }

  predicate OnShelves(c: Cursor, r: Region) {
    || c.y == U32_MAX
    || r.y + r.height <= c.y
    || (r.y == c.y && r.x + r.width <= c.x && r.height <= c.rowHeight)
  }

  lemma {:induction false} ShelvesHold(width: u32, sprites: seq<Sprite>)
    requires Narrow(width, sprites)
    ensures After(width, sprites, true).x <= width && After(width, sprites, true).y <= U32_MAX
    ensures forall i :: 0 <= i < |sprites| ==> OnShelves(After(width, sprites, true), Placed(width, sprites, i, true))
  {
    if sprites != [] {
      var n := |sprites| - 1;
      ShelvesHold(width, sprites[..n]);
      forall i | 0 <= i < n
        ensures OnShelves(After(width, sprites, true), Placed(width, sprites, i, true))
      {
        assert sprites[..n][..i] == sprites[..i];
        assert OnShelves(After(width, sprites[..n], true), Placed(width, sprites[..n], i, true));
      }
    }
  }

  lemma PlacedFitsWidth(width: u32, sprites: seq<Sprite>, i: nat)
    requires Narrow(width, sprites) && i < |sprites|
    ensures Placed(width, sprites, i, true).x + sprites[i].width <= width
    ensures Placed(width, sprites, i, true).y <= U32_MAX
  {
    ShelvesHold(width, sprites[..i]);
  }

  /** Two placements never share a texel, unless saturation pushed the later one past the last 32-bit row. */
  lemma PlacementsAreDisjoint(width: u32, sprites: seq<Sprite>, i: nat, j: nat)
    requires Narrow(width, sprites) && i < j < |sprites|
    requires sprites[j].width == 0 || Placed(width, sprites, j, true).y + sprites[j].height <= U32_MAX
    ensures Disjoint(Placed(width, sprites, i, true), Placed(width, sprites, j, true))
  {
    ShelvesHold(width, sprites[..j]);
    assert sprites[..j][..i] == sprites[..i];
    assert OnShelves(After(width, sprites[..j], true), Placed(width, sprites[..j], i, true));
  }

  lemma {:induction false} SaturationOnlyCapsY(width: u32, sprites: seq<Sprite>)
    ensures var exact := After(width, sprites, false);
      After(width, sprites, true) == Cursor(exact.x, Min(exact.y, U32_MAX), exact.rowHeight)
  {
    if sprites != [] {
      SaturationOnlyCapsY(width, sprites[..|sprites| - 1]);
    }
  }

  lemma HeightStep(width: u32, sprites: seq<Sprite>)
    requires sprites != []
    ensures var n := |sprites| - 1;
      ShelfHeight(width, sprites)
        == Max(ShelfHeight(width, sprites[..n]), Placed(width, sprites, n, false).y + sprites[n].height)
  {
  }

  lemma PlacedEarlier(width: u32, sprites: seq<Sprite>, n: nat, i: nat)
    requires i < n <= |sprites|
    ensures Placed(width, sprites, i, false) == Placed(width, sprites[..n], i, false)
  {
    assert sprites[..n][..i] == sprites[..i];
  }

  function Edge(width: u32, sprites: seq<Sprite>, i: nat): nat
    requires i < |sprites|
  {
    Placed(width, sprites, i, false).y + sprites[i].height
  }

  /** No edge lies below the shelf height... */
  lemma {:induction false} EdgesInside(width: u32, sprites: seq<Sprite>, i: nat)
    requires i < |sprites|
    ensures Edge(width, sprites, i) <= ShelfHeight(width, sprites)
  {
    var n := |sprites| - 1;
    HeightStep(width, sprites);
    if i < n {
      EdgesInside(width, sprites[..n], i);
      PlacedEarlier(width, sprites, n, i);
    }
  }

  /** ...and a sprite that has a height reaches it. */
  lemma {:induction false} HeightIsAnEdge(width: u32, sprites: seq<Sprite>) returns (i: nat)
    requires ShelfHeight(width, sprites) > 0
    ensures i < |sprites| && sprites[i].height > 0 && Edge(width, sprites, i) == ShelfHeight(width, sprites)
  {
    hide Placed;
    assert sprites != [];
    var n := |sprites| - 1;
    HeightStep(width, sprites);
    PlacedInside(width, sprites, n);
    if ShelfHeight(width, sprites[..n]) == ShelfHeight(width, sprites) {
      i := HeightIsAnEdge(width, sprites[..n]);
      PlacedEarlier(width, sprites, n, i);
    } else {
      i := n;
    }
  }

  lemma PlacedInside(width: u32, sprites: seq<Sprite>, n: nat)
    requires n < |sprites|
    ensures Placed(width, sprites, n, false).y <= ShelfHeight(width, sprites[..n])
  {
  }

  /** Every placement lies inside the atlas exactly when the shelves fit in 32 bits of height. */
  lemma InBoundsIff(width: u32, sprites: seq<Sprite>)
    requires Narrow(width, sprites)
    ensures (forall i :: 0 <= i < |sprites| ==>
              InBounds(width, AtlasHeight(width, sprites), Placed(width, sprites, i, true)))
       <==> ShelfHeight(width, sprites) <= U32_MAX
  {
    SaturationOnlyCapsY(width, sprites);
    if ShelfHeight(width, sprites) <= U32_MAX {
      forall i | 0 <= i < |sprites|
        ensures InBounds(width, AtlasHeight(width, sprites), Placed(width, sprites, i, true))
      {
        EdgesInside(width, sprites, i);
        SaturationOnlyCapsY(width, sprites[..i]);
        PlacedFitsWidth(width, sprites, i);
      }
    } else {
      var i := HeightIsAnEdge(width, sprites);
      SaturationOnlyCapsY(width, sprites[..i]);
      assert Placed(width, sprites, i, true).y == Min(Placed(width, sprites, i, false).y, U32_MAX);
      assert !InBounds(width, AtlasHeight(width, sprites), Placed(width, sprites, i, true));
    }
  }

  // ---- pixels ----

  /** The pixel a row-major buffer keeps at (x, y). */
  function At(pixels: seq<u32>, width: nat, x: nat, y: nat): Option<u32> {
    if Index(width, x, y) < |pixels| then Some(pixels[Index(width, x, y)]) else None
  }

  ghost predicate RowShown(pixels: seq<u32>, width: nat, sprite: Sprite, at: Texel, row: nat) {
    forall column: nat :: column < sprite.width ==>
      && At(sprite.pixels, sprite.width, column, row).Some?
      && At(pixels, width, at.x + column, at.y + row) == At(sprite.pixels, sprite.width, column, row)
  }

  /** The buffer shows the sprite, pixel for pixel, with its corner at `at`. */
  ghost predicate Shown(pixels: seq<u32>, width: nat, sprite: Sprite, at: Texel) {
    forall row: nat :: row < sprite.height ==> RowShown(pixels, width, sprite, at, row)
  }

  /** Nothing changed outside `r`. */
  ghost predicate SameOutside(before: seq<u32>, after: seq<u32>, width: nat, r: Region) {
    && |before| == |after|
    && forall x: nat, y: nat :: x < width && !Covers(r, Texel(x, y)) ==>
        At(after, width, x, y) == At(before, width, x, y)
  }

  predicate Sized(sprite: Sprite) {
    |sprite.pixels| == sprite.width * sprite.height
  }

  function Box(sprite: Sprite, at: Texel): Region {
    Region(at.x, at.y, sprite.width, sprite.height)
  }

  lemma RowStays(before: seq<u32>, after: seq<u32>, width: nat, sprite: Sprite, at: Texel, row: nat, r: Region)
    requires RowShown(before, width, sprite, at, row) && SameOutside(before, after, width, r)
    requires at.x + sprite.width <= width && row < sprite.height
    requires Disjoint(Region(at.x, at.y + row, sprite.width, 1), r)
    ensures RowShown(after, width, sprite, at, row)
  {
    hide At;
    forall column: nat | column < sprite.width
      ensures At(after, width, at.x + column, at.y + row) == At(sprite.pixels, sprite.width, column, row)
    {
      assert Covers(Region(at.x, at.y + row, sprite.width, 1), Texel(at.x + column, at.y + row));
      assert At(before, width, at.x + column, at.y + row) == At(sprite.pixels, sprite.width, column, row);
    }
  }

  lemma ShownStays(before: seq<u32>, after: seq<u32>, width: nat, sprite: Sprite, at: Texel, r: Region)
    requires Shown(before, width, sprite, at) && SameOutside(before, after, width, r)
    requires at.x + sprite.width <= width && Disjoint(Box(sprite, at), r)
    ensures Shown(after, width, sprite, at)
  {
    hide RowShown, SameOutside;
    forall row: nat | row < sprite.height
      ensures RowShown(after, width, sprite, at, row)
    {
      forall t | Covers(Region(at.x, at.y + row, sprite.width, 1), t)
        ensures Covers(Box(sprite, at), t)
      {
      }
      RowStays(before, after, width, sprite, at, row, r);
    }
  }

  /** `after` is `before` with one row of the sprite copied to offset `to`. */
  ghost predicate Spliced(before: seq<u32>, after: seq<u32>, to: nat, slice: seq<u32>) {
    && |after| == |before| && to + |slice| <= |before|
    && (forall k :: 0 <= k < |slice| ==> after[to + k] == slice[k])
    && (forall k :: 0 <= k < |before| && !(to <= k < to + |slice|) ==> after[k] == before[k])
  }

  function RowSlice(sprite: Sprite, row: nat): (slice: seq<u32>)
    requires Sized(sprite) && row < sprite.height
    ensures |slice| == sprite.width
  {
    SourceRow(sprite, row);
    sprite.pixels[Index(sprite.width, 0, row)..][..sprite.width]
  }

  lemma RowLands(before: seq<u32>, after: seq<u32>, width: nat, sprite: Sprite, at: Texel, row: nat)
    requires Sized(sprite) && row < sprite.height
    requires Spliced(before, after, Index(width, at.x, at.y + row), RowSlice(sprite, row))
    ensures RowShown(after, width, sprite, at, row)
  {
    var slice, to := RowSlice(sprite, row), Index(width, at.x, at.y + row);
    SourceRow(sprite, row);
    forall column: nat | column < sprite.width
      ensures At(sprite.pixels, sprite.width, column, row) == Some(slice[column])
      ensures At(after, width, at.x + column, at.y + row) == Some(slice[column])
    {
      assert Index(width, at.x + column, at.y + row) == to + column;
      assert Index(sprite.width, column, row) == Index(sprite.width, 0, row) + column;
    }
  }

  lemma RowStaysInside(before: seq<u32>, after: seq<u32>, width: nat, at: Texel, row: nat, slice: seq<u32>)
    requires Spliced(before, after, Index(width, at.x, at.y + row), slice) && at.x + |slice| <= width
    ensures SameOutside(before, after, width, Region(at.x, at.y + row, |slice|, 1))
  {
    var to, r := Index(width, at.x, at.y + row), Region(at.x, at.y + row, |slice|, 1);
    forall x: nat, y: nat | x < width && !Covers(r, Texel(x, y))
      ensures At(after, width, x, y) == At(before, width, x, y)
    {
      var k := Index(width, x, y);
      if to <= k < to + |slice| {
        assert Index(width, at.x + (k - to), at.y + row) == k;
        IndexInjective(width, x, y, at.x + (k - to), at.y + row);
      }
    }
  }

  lemma RowWithin(width: nat, height: nat, x: nat, y: nat, n: nat)
    requires n > 0 && Index(width, x, y) + n <= width * height
    ensures y < height
  {
    if height <= y {
      RowsAdd(width, height, y);
    }
  }

  lemma RowsAdd(width: nat, height: nat, y: nat)
    requires height <= y
    ensures height * width <= y * width
  {
  }

  lemma SourceRow(sprite: Sprite, row: nat)
    requires Sized(sprite) && row < sprite.height
    ensures Index(sprite.width, 0, row) + sprite.width <= |sprite.pixels|
  {
    assert (row + 1) * sprite.width <= sprite.height * sprite.width;
  }

  lemma RowFits(width: nat, height: nat, sprite: Sprite, at: Texel, row: nat)
    requires at.x + sprite.width <= width && at.y + row < height
    ensures Index(width, at.x, at.y + row) + sprite.width <= width * height
  {
    assert (at.y + row + 1) * width <= height * width;
  }

  /** Rows shown so far survive writing another row of the same sprite, and changes stay inside its box. */
  lemma RowsAccumulate(
      start: seq<u32>, before: seq<u32>, after: seq<u32>, width: nat, sprite: Sprite, at: Texel, row: nat)
    requires row < sprite.height && at.x + sprite.width <= width
    requires SameOutside(start, before, width, Box(sprite, at))
    requires SameOutside(before, after, width, Region(at.x, at.y + row, sprite.width, 1))
    requires forall r: nat :: r < row ==> RowShown(before, width, sprite, at, r)
    ensures SameOutside(start, after, width, Box(sprite, at))
    ensures forall r: nat :: r < row ==> RowShown(after, width, sprite, at, r)
  {
    hide RowShown, SameOutside;
    forall r: nat | r < row
      ensures RowShown(after, width, sprite, at, r)
    {
      RowStays(before, after, width, sprite, at, r, Region(at.x, at.y + row, sprite.width, 1));
    }
    InnerChange(start, before, after, width, Box(sprite, at), Region(at.x, at.y + row, sprite.width, 1));
  }

  lemma InnerChange(start: seq<u32>, before: seq<u32>, after: seq<u32>, width: nat, outer: Region, inner: Region)
    requires SameOutside(start, before, width, outer) && SameOutside(before, after, width, inner)
    requires forall t :: Covers(inner, t) ==> Covers(outer, t)
    ensures SameOutside(start, after, width, outer)
  {
    hide At;
    forall x: nat, y: nat | x < width && !Covers(outer, Texel(x, y))
      ensures At(after, width, x, y) == At(start, width, x, y)
    {
      assert !Covers(inner, Texel(x, y));
      assert At(before, width, x, y) == At(start, width, x, y);
    }
  }

  /** Copies one sprite row by row; a row outside the buffer aborts. */
  method CopySprite(pixels: array<u32>, width: nat, height: nat, sprite: Sprite, at: Texel) returns (ok: bool)
    requires pixels.Length == width * height && Sized(sprite) && at.x + sprite.width <= width
    requires at.y <= U32_MAX && height <= U32_MAX
    modifies pixels
    ensures ok ==> Shown(pixels[..], width, sprite, at)
    ensures ok ==> SameOutside(old(pixels[..]), pixels[..], width, Box(sprite, at))
    ensures ok && sprite.width > 0 && sprite.height > 0 ==> at.y + sprite.height <= height
    ensures at.y + sprite.height <= height ==> ok
  {
    ghost var start := pixels[..];
    for row := 0 to sprite.height
      invariant SameOutside(start, pixels[..], width, Box(sprite, at))
      invariant forall r: nat :: r < row ==> RowShown(pixels[..], width, sprite, at, r)
      invariant row > 0 && sprite.width > 0 ==> at.y + row <= height
    {
      ghost var before := pixels[..];
      if at.y + row < height {
        RowFits(width, height, sprite, at, row);
      }
      SourceRow(sprite, row);
      var from := Index(sprite.width, 0, row);
      var to := Index(width, at.x, Wrapped(at.y + row));
      if to + sprite.width > pixels.Length {
        return false;
      }
      forall k | 0 <= k < sprite.width {
        pixels[to + k] := sprite.pixels[from + k];
      }
      if sprite.width > 0 {
        assert Wrapped(at.y + row) == at.y + row;
        assert Spliced(before, pixels[..], to, RowSlice(sprite, row));
        RowLands(before, pixels[..], width, sprite, at, row);
        RowStaysInside(before, pixels[..], width, at, row, RowSlice(sprite, row));
        RowWithin(width, height, at.x, at.y + row, sprite.width);
      } else {
        assert pixels[..] == before;
      }
      RowsAccumulate(start, before, pixels[..], width, sprite, at, row);
    }
    ok := true;
  }

  // ---- the whole build ----

  lemma AfterNone(width: u32, sprites: seq<Sprite>)
    ensures After(width, sprites[..0], true) == Cursor(0, 0, 0)
  {
  }

  lemma AfterNext(width: u32, sprites: seq<Sprite>, i: nat)
    requires i < |sprites| && Narrow(width, sprites)
    ensures var c := Beside(width, After(width, sprites[..i], true), sprites[i].width, true);
      && After(width, sprites[..i + 1], true)
          == Cursor(c.x + sprites[i].width, c.y, Max(c.rowHeight, sprites[i].height))
      && Placed(width, sprites, i, true) == Region(c.x, c.y, sprites[i].width, sprites[i].height)
    ensures After(width, sprites[..i], true).x <= width
  {
    assert sprites[..i + 1][..i] == sprites[..i];
    ShelvesHold(width, sprites[..i]);
  }

  method PlaceSprites(width: u32, sprites: seq<Sprite>) returns (placements: seq<Texel>, height: u32)
    requires Narrow(width, sprites) && width <= MAX_ATLAS_WIDTH
    ensures |placements| == |sprites|
    ensures forall i :: 0 <= i < |sprites| ==> Box(sprites[i], placements[i]) == Placed(width, sprites, i, true)
    ensures height == AtlasHeight(width, sprites)
  {
    AfterNone(width, sprites);
    hide After, Placed, Narrow;
    placements := [];
    var x: u32, y: u32, rowHeight: u32 := 0, 0, 0;
    for i := 0 to |sprites|
      invariant |placements| == i
      invariant Cursor(x, y, rowHeight) == After(width, sprites[..i], true)
      invariant forall j :: 0 <= j < i ==> Box(sprites[j], placements[j]) == Placed(width, sprites, j, true)
    {
      AfterNext(width, sprites, i);
      var sprite := sprites[i];
      if x > 0 && SaturatingAdd(x, sprite.width) > width {
        y := SaturatingAdd(y, rowHeight);
        x := 0;
        rowHeight := 0;
      }
      placements := placements + [Texel(x, y)];
      x := SaturatingAdd(x, sprite.width);
      rowHeight := Max(rowHeight, sprite.height);
    }
    assert sprites[..|sprites|] == sprites;
    height := Max(SaturatingAdd(y, rowHeight), 1);
  }

  predicate HasArea(sprite: Sprite) {
    sprite.width > 0 && sprite.height > 0
  }

  /** Every sprite with an area has its own texels inside the atlas, and every sprite's pixels are there. */
  ghost predicate Faithful(sprites: seq<Sprite>, atlas: Atlas) {
    && |atlas.placements| == |sprites|
    && |atlas.pixels| == atlas.width * atlas.height
    && (forall i :: 0 <= i < |sprites| ==>
      && Shown(atlas.pixels, atlas.width, sprites[i], atlas.placements[i])
      && (HasArea(sprites[i]) ==> InBounds(atlas.width, atlas.height, Box(sprites[i], atlas.placements[i]))))
    && (forall i, j :: 0 <= i < j < |sprites| ==>
      Disjoint(Box(sprites[i], atlas.placements[i]), Box(sprites[j], atlas.placements[j])))
  }

  predicate AllSized(sprites: seq<Sprite>) {
    forall i :: 0 <= i < |sprites| ==> Sized(sprites[i])
  }

  /** Where the packer put everything, in the terms the copy needs. */
  ghost predicate Laid(width: u32, height: u32, sprites: seq<Sprite>, placements: seq<Texel>) {
    && |placements| == |sprites|
    && (forall i :: 0 <= i < |sprites| ==> placements[i].x + sprites[i].width <= width && placements[i].y <= U32_MAX)
    && (forall i, j ::
         0 <= i < j < |sprites| && (HasArea(sprites[j]) ==> placements[j].y + sprites[j].height <= height) ==>
      Disjoint(Box(sprites[i], placements[i]), Box(sprites[j], placements[j])))
  }

  lemma PlacementsAreLaid(width: u32, sprites: seq<Sprite>, placements: seq<Texel>)
    requires Narrow(width, sprites) && |placements| == |sprites|
    requires forall i :: 0 <= i < |sprites| ==> Box(sprites[i], placements[i]) == Placed(width, sprites, i, true)
    ensures Laid(width, AtlasHeight(width, sprites), sprites, placements)
    ensures ShelfHeight(width, sprites) <= U32_MAX ==>
      forall i :: 0 <= i < |sprites| ==> placements[i].y + sprites[i].height <= AtlasHeight(width, sprites)
  {
    var height := AtlasHeight(width, sprites);
    forall i | 0 <= i < |sprites|
      ensures placements[i].x + sprites[i].width <= width && placements[i].y <= U32_MAX
      ensures ShelfHeight(width, sprites) <= U32_MAX ==> placements[i].y + sprites[i].height <= height
    {
      PlacedFitsWidth(width, sprites, i);
      InBoundsIff(width, sprites);
      assert Box(sprites[i], placements[i]) == Placed(width, sprites, i, true);
    }
    forall i, j | 0 <= i < j < |sprites| && (HasArea(sprites[j]) ==> placements[j].y + sprites[j].height <= height)
      ensures Disjoint(Box(sprites[i], placements[i]), Box(sprites[j], placements[j]))
    {
      assert Box(sprites[i], placements[i]) == Placed(width, sprites, i, true);
      assert Box(sprites[j], placements[j]) == Placed(width, sprites, j, true);
      if HasArea(sprites[j]) {
        PlacementsAreDisjoint(width, sprites, i, j);
      }
    }
  }

  /** Everything about the first `n` sprites that the copy has established. */
  ghost predicate Copied(
      pixels: seq<u32>, width: u32, height: u32, sprites: seq<Sprite>, placements: seq<Texel>, n: nat)
    requires n <= |sprites| == |placements|
  {
    forall j :: 0 <= j < n ==>
      && Sized(sprites[j])
      && Shown(pixels, width, sprites[j], placements[j])
      && (HasArea(sprites[j]) ==> placements[j].y + sprites[j].height <= height)
  }

  lemma CopyKeepsEarlier(
      before: seq<u32>, after: seq<u32>, width: u32, height: u32, sprites: seq<Sprite>, placements: seq<Texel>, n: nat)
    requires Laid(width, height, sprites, placements) && n < |sprites|
    requires Copied(before, width, height, sprites, placements, n)
    requires Sized(sprites[n]) && Shown(after, width, sprites[n], placements[n])
    requires SameOutside(before, after, width, Box(sprites[n], placements[n]))
    requires HasArea(sprites[n]) ==> placements[n].y + sprites[n].height <= height
    ensures Copied(after, width, height, sprites, placements, n + 1)
  {
    forall j | 0 <= j < n
      ensures Shown(after, width, sprites[j], placements[j])
    {
      ShownStays(before, after, width, sprites[j], placements[j], Box(sprites[n], placements[n]));
    }
  }

  method BuildAtlas(sprites: seq<Sprite>) returns (r: Result<Atlas, Refusal>)
    ensures r.Success? ==> AllSized(sprites) && Faithful(sprites, r.value)
    ensures r == Failure(TooWide) <==> exists i :: 0 <= i < |sprites| && sprites[i].width > MAX_ATLAS_WIDTH
    ensures Narrow(MAX_ATLAS_WIDTH, sprites) && ShelfHeight(AtlasWidth(sprites), sprites) <= U32_MAX ==>
      (r.Success? <==> AllSized(sprites)) && r != Failure(Aborted)
  {
    hide ShelfHeight, AtlasHeight, Shown, SameOutside, AtlasWidth, Disjoint, Placed;
    var width := AtlasWidth(sprites);
    TooWideIff(sprites);
    if width > MAX_ATLAS_WIDTH {
      return Failure(TooWide);
    }
    var placements, height := PlaceSprites(width, sprites);
    PlacementsAreLaid(width, sprites, placements);
    var pixels := new u32[width * height](_ => 0);
    for i := 0 to |sprites|
      invariant Copied(pixels[..], width, height, sprites, placements, i)
    {
      var sprite, at := sprites[i], placements[i];
      if |sprite.pixels| != sprite.width * sprite.height {
        return Failure(WrongPixelCount);
      }
      ghost var before := pixels[..];
      var ok := CopySprite(pixels, width, height, sprite, at);
      if !ok {
        return Failure(Aborted);
      }
      CopyKeepsEarlier(before, pixels[..], width, height, sprites, placements, i);
    }
    r := Success(Atlas(width, height, pixels[..], placements));
  }
}
