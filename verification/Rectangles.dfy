/** Pixel rectangles. */
module Rectangles {
  datatype Texel = Texel(x: nat, y: nat)

  datatype Region = Region(x: nat, y: nat, width: nat, height: nat)

  predicate Covers(r: Region, t: Texel) {
    r.x <= t.x < r.x + r.width && r.y <= t.y < r.y + r.height
  }

  ghost predicate Disjoint(r: Region, s: Region) {
    forall t :: !(Covers(r, t) && Covers(s, t))
  }

  predicate InBounds(width: nat, height: nat, r: Region) {
    r.x + r.width <= width && r.y + r.height <= height
  }

  /** Where a row-major buffer of the given width keeps a texel. */
  function Index(width: nat, x: nat, y: nat): nat {
    y * width + x
  }

  lemma IndexInRange(width: nat, height: nat, x: nat, y: nat)
    requires x < width && y < height
    ensures Index(width, x, y) < width * height
  {
    assert y * width + x + 1 <= (y + 1) * width;
    assert (y + 1) * width <= height * width;
  }

  lemma IndexIncreases(width: nat, x: nat, y: nat, x': nat, y': nat)
    requires x < width && y < y'
    ensures Index(width, x, y) < Index(width, x', y')
  {
    assert y * width + x + 1 <= (y + 1) * width;
    assert (y + 1) * width <= y' * width;
  }

  lemma IndexInjective(width: nat, x: nat, y: nat, x': nat, y': nat)
    requires x < width && x' < width && Index(width, x, y) == Index(width, x', y')
    ensures x == x' && y == y'
  {
    if y < y' {
      IndexIncreases(width, x, y, x', y');
    } else if y' < y {
      IndexIncreases(width, x', y', x, y);
    }
  }
}
