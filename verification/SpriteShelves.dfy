/**
  Where the sprite packer puts each sprite and how large the atlas becomes, said without its cursor
  (crates/dm-client/src/gpu.rs:534-581).
 */
module SpriteShelves {
  import opened MachineIntegers
  import opened Rectangles
  import opened SpriteAtlas

  function TotalWidth(sprites: seq<Sprite>): nat {
    if sprites == [] then 0 else TotalWidth(sprites[..|sprites| - 1]) + sprites[|sprites| - 1].width
  }

  lemma {:induction false} CombinedIs(sprites: seq<Sprite>)
    ensures Combined(sprites) == if TotalWidth(sprites) <= U32_MAX then TotalWidth(sprites) else U32_MAX
    ensures forall i :: 0 <= i < |sprites| ==> sprites[i].width <= TotalWidth(sprites)
  {
    if sprites != [] {
      var n := |sprites| - 1;
      CombinedIs(sprites[..n]);
      assert forall i :: 0 <= i < n ==> sprites[i] == sprites[..n][i];
    }
  }

  /** Sprites that are not too wide share one row if 4096 allows it; the atlas is never without a column. */
  lemma AtlasWidthIs(sprites: seq<Sprite>)
    requires forall i :: 0 <= i < |sprites| ==> sprites[i].width <= 4096
    ensures AtlasWidth(sprites) ==
        if TotalWidth(sprites) == 0 then 1 else if TotalWidth(sprites) <= 4096 then TotalWidth(sprites) else 4096
  {
    CombinedIs(sprites);
    WidestIsAWidth(sprites);
  }

  lemma FirstPlacement(width: u32, sprites: seq<Sprite>)
    requires sprites != []
    ensures Placed(width, sprites, 0, false) == Region(0, 0, sprites[0].width, sprites[0].height)
  {
    assert sprites[..0] == [];
  }

  /** What is stored differs from the exact placement only where a row number does not fit 32 bits. */
  lemma StoredPlacement(width: u32, sprites: seq<Sprite>, i: nat)
    requires i < |sprites|
    ensures var exact, stored := Placed(width, sprites, i, false), Placed(width, sprites, i, true);
      && stored == exact.(y := stored.y)
      && stored.y == if exact.y <= U32_MAX then exact.y else U32_MAX
  {
    SaturationOnlyCapsY(width, sprites[..i]);
  }

  /** The next sprite stands beside the last one if the width allows, and otherwise under everything placed so far. */
  lemma NextPlacement(width: u32, sprites: seq<Sprite>, i: nat)
    requires i + 1 < |sprites|
    ensures var last, next := Placed(width, sprites, i, false), Placed(width, sprites, i + 1, false);
      var right := last.x + last.width;
      && (right == 0 || right + next.width <= width ==> next.x == right && next.y == last.y)
      && (right > 0 && right + next.width > width ==>
            && next.x == 0
            && (forall k :: 0 <= k <= i ==> Edge(width, sprites, k) <= next.y)
            && (next.y > 0 ==> exists k :: 0 <= k <= i && Edge(width, sprites, k) == next.y))
  {
    hide Edge;
    var some := sprites[..i + 1];
    assert some[..i] == sprites[..i];
    forall k | 0 <= k <= i
      ensures Edge(width, sprites, k) == Edge(width, some, k) <= ShelfHeight(width, some)
    {
      EdgesInside(width, some, k);
      SameEdge(width, sprites, i + 1, k);
    }
    if ShelfHeight(width, some) > 0 {
      var k := HeightIsAnEdge(width, some);
      assert Edge(width, sprites, k) == ShelfHeight(width, some);
    }
  }

  lemma SameEdge(width: u32, sprites: seq<Sprite>, n: nat, k: nat)
    requires k < n <= |sprites|
    ensures Edge(width, sprites, k) == Edge(width, sprites[..n], k)
  {
    PlacedEarlier(width, sprites, n, k);
  }

  /** The atlas reaches down to its lowest sprite, as far as 32 bits go, and is never without a row. */
  lemma AtlasHeightIs(width: u32, sprites: seq<Sprite>, bottom: nat)
    requires forall k :: 0 <= k < |sprites| ==> Edge(width, sprites, k) <= bottom
    requires bottom > 0 ==> exists k :: 0 <= k < |sprites| && Edge(width, sprites, k) == bottom
    ensures AtlasHeight(width, sprites) == if bottom == 0 then 1 else if bottom <= U32_MAX then bottom else U32_MAX
  {
    hide Edge;
    SaturationOnlyCapsY(width, sprites);
    forall k | 0 <= k < |sprites|
      ensures Edge(width, sprites, k) <= ShelfHeight(width, sprites)
    {
      EdgesInside(width, sprites, k);
    }
    if ShelfHeight(width, sprites) > 0 {
      var k := HeightIsAnEdge(width, sprites);
    }
    assert ShelfHeight(width, sprites) == bottom;
  }
}
