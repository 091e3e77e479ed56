/**
  Recursive layout of window panes
  (crates/dm-client/src/layout.rs:229-444, 453-477).
 */
module Panes {
  import opened Wrappers
  import opened Collections
  import opened MachineIntegers
  import opened Rectangles

  datatype Anchor = Anchor(x: int, y: int)

  datatype Splitter = Splitter(left: string, right: string, vertical: bool, percent: nat)

  /** A control as the layout reads it; `splitter` is present for CHILD controls. */
  datatype PaneControl = PaneControl(address: string, base: Region, anchor1: Option<Anchor>, anchor2: Option<Anchor>,
                                     splitter: Option<Splitter>)

  /** `source` is the design size of the window's main control; controls that are not laid out are `None`. */
  datatype PaneWindow = PaneWindow(id: string, source: Option<Region>, controls: seq<Option<PaneControl>>)

  // ---- geometry ----

  /** Division toward zero. */
  function Truncated(a: int, b: nat): int
    requires b > 0
  {
    if a >= 0 then a / b else -((-a) / b)
  }

  /** The quotient of the magnitudes, with the sign of the dividend. */
  lemma TruncatedIs(a: int, b: nat)
    requires b > 0
    ensures var q := Truncated(a, b);
      var size, whole := if a >= 0 then a else -a, if a >= 0 then q else -q;
      whole >= 0 && whole * b <= size < whole * b + b
  {
    Quotient(if a >= 0 then a else -a, b);
  }

  lemma Quotient(n: nat, b: nat)
    requires b > 0
    ensures n / b >= 0 && n / b * b <= n < n / b * b + b
  {
    assert n == n / b * b + n % b;
  }

  function AnchorDelta(delta: int, anchor: Option<int>): int {
    if anchor.Some? && anchor.value >= 0 then Truncated(delta * anchor.value, 100) else 0
  }

  function ToU32(n: int): u32 {
    if 0 <= n <= U32_MAX then n else 0
  }

  function Horizontal(a: Option<Anchor>): Option<int> {
    if a.Some? then Some(a.value.x) else None
  }

  function Vertical(a: Option<Anchor>): Option<int> {
    if a.Some? then Some(a.value.y) else None
  }

  predicate Small(r: Region) {
    r.x <= U32_MAX && r.y <= U32_MAX && r.width <= U32_MAX && r.height <= U32_MAX
  }

  function AnchoredRect(c: PaneControl, source: Region, target: Region): (r: Region)
    requires Small(target)
    ensures Small(r)
  {
    var dx, dy := target.width - source.width, target.height - source.height;
    var left := c.base.x + AnchorDelta(dx, Horizontal(c.anchor1));
    var top := c.base.y + AnchorDelta(dy, Vertical(c.anchor1));
    var right := Wrapped(c.base.x + c.base.width) + AnchorDelta(dx, Horizontal(c.anchor2));
    var bottom := Wrapped(c.base.y + c.base.height) + AnchorDelta(dy, Vertical(c.anchor2));
    Region(SaturatingAdd(target.x, ToU32(Max(left, 0))), SaturatingAdd(target.y, ToU32(Max(top, 0))),
           ToU32(Max(right - left, 0)), ToU32(Max(bottom - top, 0)))
  }

  /** The saturating product never hands the first pane more than there is. */
  lemma ShareFits(extent: u32, percent: nat)
    requires percent <= 100
    ensures SaturatingMul(extent, percent) / 100 <= extent
  {
    if extent * percent < U32_LIMIT {
      assert extent * percent <= extent * 100;
    } else {
      assert extent * 100 >= extent * percent;
    }
  }

  function SplitRect(r: Region, vertical: bool, percent: nat, onlyOne: bool): (halves: (Region, Region))
    requires Small(r) && percent <= 100
    ensures Small(halves.0) && Small(halves.1)
  {
    if onlyOne then (r, Region(Wrapped(r.x + r.width), r.y, 0, r.height))
    else if vertical then
      ShareFits(r.width, percent);
      var first := SaturatingMul(r.width, percent) / 100;
      (r.(width := first), r.(x := Wrapped(r.x + first), width := r.width - first))
    else
      ShareFits(r.height, percent);
      var first := SaturatingMul(r.height, percent) / 100;
      (r.(height := first), r.(y := Wrapped(r.y + first), height := r.height - first))
  }

  // ---- resolution ----

  function PaneWithId(windows: seq<PaneWindow>, id: string): Option<PaneWindow> {
    if windows == [] then None
    else if windows[0].id == id then Some(windows[0])
    else PaneWithId(windows[1..], id)
  }

  lemma {:induction false} PaneAnswers(windows: seq<PaneWindow>, id: string)
    ensures PaneWithId(windows, id).Some? ==>
        PaneWithId(windows, id).value in windows && PaneWithId(windows, id).value.id == id
  {
    if windows != [] && windows[0].id != id {
      PaneAnswers(windows[1..], id);
    }
  }

  /** Windows that are not on the active stack. */
  ghost function Inactive(windows: seq<PaneWindow>, active: seq<string>): set<string> {
    set w | w in windows && w.id !in active :: w.id
  }

  lemma Activated(windows: seq<PaneWindow>, id: string, active: seq<string>)
    requires id !in active && PaneWithId(windows, id).Some?
    ensures |Inactive(windows, active + [id])| < |Inactive(windows, active)|
  {
    PaneAnswers(windows, id);
    assert id in Inactive(windows, active);
    assert Inactive(windows, active + [id]) <= Inactive(windows, active) - {id};
    SubsetSize(Inactive(windows, active + [id]), Inactive(windows, active) - {id});
  }

  predicate SmallPercents(windows: seq<PaneWindow>) {
    forall w, c :: w in windows && c in w.controls && c.Some? && c.value.splitter.Some? ==>
        c.value.splitter.value.percent <= 100
  }

  type Placement = map<string, Region>

  function SourceOf(w: PaneWindow, viewport: Region): Region {
    if w.source.Some? then w.source.value else Region(0, 0, viewport.width, viewport.height)
  }

  function ResolveWindow(
      windows: seq<PaneWindow>, id: string, viewport: Region, resolved: Placement, active: seq<string>): Placement
    requires SmallPercents(windows) && Small(viewport)
    decreases |Inactive(windows, active)|, 0, 0
  {
    var w := PaneWithId(windows, id);
    if id in active || w.None? then resolved
    else
      Activated(windows, id, active);
      PaneAnswers(windows, id);
      ResolveControls(windows, w.value.controls, SourceOf(w.value, viewport), viewport, resolved, active + [id])
  }

  function ResolveControls(
      windows: seq<PaneWindow>, controls: seq<Option<PaneControl>>, source: Region, viewport: Region,
      resolved: Placement, active: seq<string>): Placement
    requires SmallPercents(windows) && Small(viewport) && Percents(controls)
    decreases |Inactive(windows, active)|, 2, |controls|
  {
    if controls == [] then resolved
    else
      var n := |controls| - 1;
      var before := ResolveControls(windows, controls[..n], source, viewport, resolved, active);
      ResolveControl(windows, controls[n], source, viewport, before, active)
  }

  predicate Percents(controls: seq<Option<PaneControl>>) {
    forall c :: c in controls && c.Some? && c.value.splitter.Some? ==> c.value.splitter.value.percent <= 100
  }

  function ResolveControl(windows: seq<PaneWindow>, c: Option<PaneControl>, source: Region, viewport: Region,
                          resolved: Placement, active: seq<string>): Placement
    requires SmallPercents(windows) && Small(viewport) && Percents([c])
    decreases |Inactive(windows, active)|, 1, 0
  {
    if c.None? then resolved
    else
      var r := AnchoredRect(c.value, source, viewport);
      if c.value.splitter.None? then resolved[c.value.address := r]
      else
        var s := c.value.splitter.value;
        assert c in [c];
        var halves := SplitRect(r, s.vertical, s.percent, s.right == "");
        var first := if s.left == "" then resolved else ResolveWindow(windows, s.left, halves.0, resolved, active);
        if s.right == "" then first else ResolveWindow(windows, s.right, halves.1, first, active)
  }

  /** The shared map and active stack of the recursive layout. */
  class PaneResolver {
    const windows: seq<PaneWindow>
    var resolved: Placement
    var active: seq<string>

    constructor (windows: seq<PaneWindow>)
      ensures this.windows == windows && resolved == map[] && active == []
    {
      this.windows, resolved, active := windows, map[], [];
    }

    /** Terminates on every skin, cyclic ones included, and leaves the active stack as it found it. */
    method ResolvePaneWindow(id: string, viewport: Region)
      requires SmallPercents(windows) && Small(viewport)
      modifies this
      ensures active == old(active)
      ensures resolved == ResolveWindow(windows, id, viewport, old(resolved), old(active))
      decreases |Inactive(windows, active)|, 0
    {
      if id in active {
        return;
      }
      var found := PaneWithId(windows, id);
      if found.None? {
        return;
      }
      ghost var start, below := resolved, active;
      Activated(windows, id, active);
      PaneAnswers(windows, id);
      var w := found.value;
      active := active + [id];
      var source := SourceOf(w, viewport);
      for i := 0 to |w.controls|
        invariant active == below + [id]
        invariant resolved == ResolveControls(windows, w.controls[..i], source, viewport, start, below + [id])
      {
        assert w.controls[..i + 1][..i] == w.controls[..i];
        if w.controls[i].Some? {
          PlaceControl(w.controls[i].value, source, viewport);
        }
      }
      assert w.controls[..|w.controls|] == w.controls;
      active := active[..|active| - 1];
    }

    method PlaceControl(c: PaneControl, source: Region, viewport: Region)
      requires SmallPercents(windows) && Small(viewport) && Percents([Some(c)])
      modifies this
      ensures active == old(active)
      ensures resolved == ResolveControl(windows, Some(c), source, viewport, old(resolved), old(active))
      decreases |Inactive(windows, active)|, 1
    {
      var r := AnchoredRect(c, source, viewport);
      if c.splitter.None? {
        resolved := resolved[c.address := r];
        return;
      }
      var s := c.splitter.value;
      assert Some(c) in [Some(c)];
      var halves := SplitRect(r, s.vertical, s.percent, s.right == "");
      if s.left != "" {
        ResolvePaneWindow(s.left, halves.0);
      }
      if s.right != "" {
        ResolvePaneWindow(s.right, halves.1);
      }
    }
  }

  // ---- trees of full-size panes ----

  /** A window that is one full-size control, split between two windows, handed whole to one, or shown. */
  datatype PaneTree =
    | Leaf(id: string, address: string)
    | Whole(id: string, address: string, vertical: bool, percent: nat, only: PaneTree)
    | Fork(id: string, address: string, vertical: bool, percent: nat, left: PaneTree, right: PaneTree)

  function Laid(controls: seq<Option<PaneControl>>): seq<PaneControl> {
    if controls == [] then []
    else
      var n := |controls| - 1;
      Laid(controls[..n]) + if controls[n].Some? then [controls[n].value] else []
  }

  /** The control fills its window's design size and is anchored to all four edges. */
  predicate FullSize(c: PaneControl, source: Region) {
    && c.base == Region(0, 0, source.width, source.height)
    && source.width <= U32_MAX && source.height <= U32_MAX
    && c.anchor1 == Some(Anchor(0, 0))
    && c.anchor2 == Some(Anchor(100, 100))
  }

  function SplitterOf(t: PaneTree): Option<Splitter> {
    match t
    case Leaf(_, _) => None
    case Whole(_, _, vertical, percent, only) => Some(Splitter(only.id, "", vertical, percent))
    case Fork(_, _, vertical, percent, left, right) => Some(Splitter(left.id, right.id, vertical, percent))
  }

  /** The skin's windows are laid out as the tree says. */
  predicate Describes(windows: seq<PaneWindow>, t: PaneTree) {
    var w := PaneWithId(windows, t.id);
    && t.id != "" && w.Some? && w.value.source.Some?
    && |Laid(w.value.controls)| == 1
    && (var c := Laid(w.value.controls)[0];
        FullSize(c, w.value.source.value) && c.address == t.address && c.splitter == SplitterOf(t))
    && match t
       case Leaf(_, _) => true
       case Whole(_, _, _, percent, only) => percent <= 100 && Describes(windows, only)
       case Fork(_, _, _, percent, left, right) =>
         percent <= 100 && Describes(windows, left) && Describes(windows, right)
  }

  function Ids(t: PaneTree): seq<string> {
    match t
    case Leaf(id, _) => [id]
    case Whole(id, _, _, _, only) => [id] + Ids(only)
    case Fork(id, _, _, _, left, right) => [id] + Ids(left) + Ids(right)
  }

  predicate Distinct(s: seq<string>) {
    forall i, j :: 0 <= i < j < |s| ==> s[i] != s[j]
  }

  datatype Tile = Tile(address: string, rect: Region)

  function Leaves(t: PaneTree, viewport: Region): seq<Tile>
    requires Small(viewport) && Bounded(t)
  {
    match t
    case Leaf(_, address) => [Tile(address, viewport)]
    case Whole(_, _, _, _, only) => Leaves(only, viewport)
    case Fork(_, _, vertical, percent, left, right) =>
      var halves := SplitRect(viewport, vertical, percent, false);
      Leaves(left, halves.0) + Leaves(right, halves.1)
  }

  predicate Bounded(t: PaneTree) {
    match t
    case Leaf(_, _) => true
    case Whole(_, _, _, percent, only) => percent <= 100 && Bounded(only)
    case Fork(_, _, _, percent, left, right) => percent <= 100 && Bounded(left) && Bounded(right)
  }

  lemma {:induction false} DescribedIsBounded(windows: seq<PaneWindow>, t: PaneTree)
    requires Describes(windows, t)
    ensures Bounded(t)
  {
    match t
    case Leaf(_, _) =>
    case Whole(_, _, _, _, only) => DescribedIsBounded(windows, only);
    case Fork(_, _, _, _, left, right) =>
      DescribedIsBounded(windows, left);
      DescribedIsBounded(windows, right);
  }

  // ---- the tree tiles its viewport ----

  function Coverage(tiles: seq<Tile>, t: Texel): nat {
    if tiles == [] then 0 else Coverage(tiles[..|tiles| - 1], t) + if Covers(tiles[|tiles| - 1].rect, t) then 1 else 0
  }

  lemma {:induction false} CoverageAppend(a: seq<Tile>, b: seq<Tile>, t: Texel)
    ensures Coverage(a + b, t) == Coverage(a, t) + Coverage(b, t)
  {
    if b == [] {
      assert a + b == a;
    } else {
      assert (a + b)[..|a + b| - 1] == a + b[..|b| - 1];
      CoverageAppend(a, b[..|b| - 1], t);
    }
  }

  /** The far edges stay within 32 bits. */
  predicate Fits(r: Region) {
    r.x + r.width <= U32_MAX && r.y + r.height <= U32_MAX
  }

  lemma SideBySide(r: Region, first: nat, t: Texel)
    requires Fits(r) && first <= r.width
    ensures var left, right := r.(width := first), r.(x := Wrapped(r.x + first), width := r.width - first);
      && Fits(left) && Fits(right)
      && (Covers(r, t) <==> Covers(left, t) || Covers(right, t))
      && !(Covers(left, t) && Covers(right, t))
  {
    assert Wrapped(r.x + first) == r.x + first;
  }

  lemma OneAboveOther(r: Region, first: nat, t: Texel)
    requires Fits(r) && first <= r.height
    ensures var upper, lower := r.(height := first), r.(y := Wrapped(r.y + first), height := r.height - first);
      && Fits(upper) && Fits(lower)
      && (Covers(r, t) <==> Covers(upper, t) || Covers(lower, t))
      && !(Covers(upper, t) && Covers(lower, t))
  {
    assert Wrapped(r.y + first) == r.y + first;
  }

  /** The two halves of a split are disjoint and cover it. */
  lemma HalvesPartition(r: Region, vertical: bool, percent: nat, t: Texel)
    requires Fits(r) && percent <= 100
    ensures var halves := SplitRect(r, vertical, percent, false);
      && Fits(halves.0) && Fits(halves.1)
      && (Covers(r, t) <==> Covers(halves.0, t) || Covers(halves.1, t))
      && !(Covers(halves.0, t) && Covers(halves.1, t))
  {
    hide Covers, Wrapped, SaturatingMul;
    if vertical {
      ShareFits(r.width, percent);
      SideBySide(r, SaturatingMul(r.width, percent) / 100, t);
    } else {
      ShareFits(r.height, percent);
      OneAboveOther(r, SaturatingMul(r.height, percent) / 100, t);
    }
  }

  /** A vertical split divides the width and a horizontal one the height; the first pane gets the share asked for. */
  lemma SplitShares(r: Region, percent: nat)
    requires Small(r) && percent <= 100
    ensures var (left, right) := SplitRect(r, true, percent, false);
      && left.x == r.x && left.width + right.width == r.width
      && right.x == (r.x + left.width) % 0x1_0000_0000
      && left.y == right.y == r.y && left.height == right.height == r.height
      && (r.width * percent < 0x1_0000_0000 ==> left.width == r.width * percent / 100)
      && (r.width * percent >= 0x1_0000_0000 ==> left.width == 42_949_672)
    ensures var (upper, lower) := SplitRect(r, false, percent, false);
      && upper.y == r.y && upper.height + lower.height == r.height
      && lower.y == (r.y + upper.height) % 0x1_0000_0000
      && upper.x == lower.x == r.x && upper.width == lower.width == r.width
      && (r.height * percent < 0x1_0000_0000 ==> upper.height == r.height * percent / 100)
      && (r.height * percent >= 0x1_0000_0000 ==> upper.height == 42_949_672)
    ensures forall vertical :: SplitRect(r, vertical, percent, true).0 == r
  {
  }

  /** Every pixel of the viewport belongs to exactly one leaf, and no leaf reaches outside it. */
  lemma {:induction false} LeavesTile(t: PaneTree, viewport: Region, pixel: Texel)
    requires Fits(viewport) && Bounded(t)
    ensures Coverage(Leaves(t, viewport), pixel) == if Covers(viewport, pixel) then 1 else 0
  {
    match t
    case Leaf(_, address) =>
      assert [Tile(address, viewport)][..0] == [];
    case Whole(_, _, _, _, only) => LeavesTile(only, viewport, pixel);
    case Fork(_, _, vertical, percent, left, right) =>
      HalvesPartition(viewport, vertical, percent, pixel);
      var halves := SplitRect(viewport, vertical, percent, false);
      LeavesTile(left, halves.0, pixel);
      LeavesTile(right, halves.1, pixel);
      CoverageAppend(Leaves(left, halves.0), Leaves(right, halves.1), pixel);
  }

  // ---- the layout of such a skin is its tree's leaves ----

  function Placed(resolved: Placement, tiles: seq<Tile>): Placement {
    if tiles == [] then resolved
    else Placed(resolved, tiles[..|tiles| - 1])[tiles[|tiles| - 1].address := tiles[|tiles| - 1].rect]
  }

  lemma {:induction false} PlacedAppend(resolved: Placement, a: seq<Tile>, b: seq<Tile>)
    ensures Placed(resolved, a + b) == Placed(Placed(resolved, a), b)
  {
    if b == [] {
      assert a + b == a;
    } else {
      assert (a + b)[..|a + b| - 1] == a + b[..|b| - 1];
      PlacedAppend(resolved, a, b[..|b| - 1]);
    }
  }

  /** An absent anchor and a negative one hold the edge where it is. */
  predicate Holds(anchor: Option<int>, percent: nat) {
    if anchor.Some? && anchor.value >= 0 then percent == anchor.value else percent == 0
  }

  /**
    The first anchor moves the left and top edges and the second the right and bottom ones, each by its
    percentage of what the window is larger, or smaller, than it was designed.
   */
  lemma AnchorsMoveEdges(c: PaneControl, source: Region, target: Region, k: int, m: int,
                         left: nat, top: nat, right: nat, bottom: nat)
    requires Small(target)
    requires target.width - source.width == 100 * k && target.height - source.height == 100 * m
    requires Holds(Horizontal(c.anchor1), left) && Holds(Vertical(c.anchor1), top)
    requires Holds(Horizontal(c.anchor2), right) && Holds(Vertical(c.anchor2), bottom)
    requires c.base.x + c.base.width <= U32_MAX && c.base.y + c.base.height <= U32_MAX
    requires 0 <= c.base.x + k * left && 0 <= c.base.y + m * top
    requires target.x + c.base.x + k * left <= U32_MAX && target.y + c.base.y + m * top <= U32_MAX
    requires 0 <= c.base.width + k * right - k * left <= U32_MAX
    requires 0 <= c.base.height + m * bottom - m * top <= U32_MAX
    ensures AnchoredRect(c, source, target) == Region(
        target.x + c.base.x + k * left, target.y + c.base.y + m * top,
        c.base.width + k * right - k * left, c.base.height + m * bottom - m * top)
  {
    EdgeMoves(k, Horizontal(c.anchor1), left);
    EdgeMoves(m, Vertical(c.anchor1), top);
    EdgeMoves(k, Horizontal(c.anchor2), right);
    EdgeMoves(m, Vertical(c.anchor2), bottom);
    hide AnchorDelta, Holds, Horizontal, Vertical, AnchoredRect;
    MovedRect(c, source, target, k * left, m * top, k * right, m * bottom);
  }

  lemma MovedRect(c: PaneControl, source: Region, target: Region, a: int, b: int, d: int, e: int)
    requires Small(target)
    requires var dx, dy := target.width - source.width, target.height - source.height;
      && AnchorDelta(dx, Horizontal(c.anchor1)) == a && AnchorDelta(dy, Vertical(c.anchor1)) == b
      && AnchorDelta(dx, Horizontal(c.anchor2)) == d && AnchorDelta(dy, Vertical(c.anchor2)) == e
    requires c.base.x + c.base.width <= U32_MAX && c.base.y + c.base.height <= U32_MAX
    requires 0 <= c.base.x + a && 0 <= c.base.y + b
    requires target.x + c.base.x + a <= U32_MAX && target.y + c.base.y + b <= U32_MAX
    requires 0 <= c.base.width + d - a <= U32_MAX && 0 <= c.base.height + e - b <= U32_MAX
    ensures AnchoredRect(c, source, target) == Region(
        target.x + c.base.x + a, target.y + c.base.y + b, c.base.width + d - a, c.base.height + e - b)
  {
    hide AnchorDelta, Horizontal, Vertical;
  }

  lemma EdgeMoves(k: int, anchor: Option<int>, percent: nat)
    requires Holds(anchor, percent)
    ensures AnchorDelta(100 * k, anchor) == k * percent
  {
    assert (100 * k) * percent == 100 * (k * percent);
  }

  lemma FullSizeFills(c: PaneControl, source: Region, viewport: Region)
    requires FullSize(c, source) && Fits(viewport)
    ensures AnchoredRect(c, source, viewport) == viewport
  {
    var dx, dy := viewport.width - source.width, viewport.height - source.height;
    assert Truncated(dx * 0, 100) == 0 && Truncated(dy * 0, 100) == 0;
    assert Truncated(dx * 100, 100) == dx && Truncated(dy * 100, 100) == dy;
  }

  lemma {:induction false} OneLaidControl(windows: seq<PaneWindow>, controls: seq<Option<PaneControl>>, source: Region,
                                          viewport: Region, resolved: Placement, active: seq<string>)
    requires SmallPercents(windows) && Small(viewport) && Percents(controls)
    requires |Laid(controls)| <= 1
    ensures Laid(controls) == [] ==> ResolveControls(windows, controls, source, viewport, resolved, active) == resolved
    ensures |Laid(controls)| == 1 ==> Percents([Some(Laid(controls)[0])])
    ensures |Laid(controls)| == 1 ==>
      (ResolveControls(windows, controls, source, viewport, resolved, active)
        == ResolveControl(windows, Some(Laid(controls)[0]), source, viewport, resolved, active))
  {
    if controls != [] {
      var n := |controls| - 1;
      OneLaidControl(windows, controls[..n], source, viewport, resolved, active);
      assert controls[n] in controls;
    }
  }

  predicate Avoids(t: PaneTree, active: seq<string>) {
    forall id :: id in Ids(t) ==> id !in active
  }

  /** Laying out the root of a described tree places exactly its leaves. */
  lemma {:induction false} LayoutIsLeaves(
      windows: seq<PaneWindow>, t: PaneTree, viewport: Region, resolved: Placement, active: seq<string>)
    requires SmallPercents(windows) && Fits(viewport) && Describes(windows, t) && Bounded(t)
    requires Distinct(Ids(t)) && Avoids(t, active)
    ensures ResolveWindow(windows, t.id, viewport, resolved, active) == Placed(resolved, Leaves(t, viewport))
    decreases t
  {
    var w := PaneWithId(windows, t.id).value;
    var c := Laid(w.controls)[0];
    var source := w.source.value;
    PaneAnswers(windows, t.id);
    HeadId(t);
    OneLaidControl(windows, w.controls, source, viewport, resolved, active + [t.id]);
    FullSizeFills(c, source, viewport);
    match t
    case Leaf(_, address) =>
      assert [Tile(address, viewport)][..0] == [];
    case Whole(_, _, _, _, only) =>
      IdsBelow(t, only, active);
      assert only.id != "";
      LayoutIsLeaves(windows, only, viewport, resolved, active + [t.id]);
    case Fork(_, _, vertical, percent, left, right) =>
      IdsBelow(t, left, active);
      IdsBelow(t, right, active);
      HalvesPartition(viewport, vertical, percent, Texel(0, 0));
      var halves := SplitRect(viewport, vertical, percent, false);
      LayoutIsLeaves(windows, left, halves.0, resolved, active + [t.id]);
      var first := Placed(resolved, Leaves(left, halves.0));
      LayoutIsLeaves(windows, right, halves.1, first, active + [t.id]);
      PlacedAppend(resolved, Leaves(left, halves.0), Leaves(right, halves.1));
  }

  lemma HeadId(t: PaneTree)
    ensures Ids(t) != [] && Ids(t)[0] == t.id && t.id in Ids(t)
  {
  }

  lemma IdsBelow(t: PaneTree, child: PaneTree, active: seq<string>)
    requires Distinct(Ids(t)) && Avoids(t, active)
    requires (t.Whole? && child == t.only) || (t.Fork? && (child == t.left || child == t.right))
    ensures Distinct(Ids(child)) && Avoids(child, active + [t.id])
  {
    var below := Ids(child);
    if t.Whole? {
      assert Ids(t) == [t.id] + below + [];
      MiddleIsDistinct([t.id], below, []);
    } else if child == t.left {
      assert Ids(t) == [t.id] + below + Ids(t.right);
      MiddleIsDistinct([t.id], below, Ids(t.right));
    } else {
      assert Ids(t) == ([t.id] + Ids(t.left)) + below + [];
      MiddleIsDistinct([t.id] + Ids(t.left), below, []);
      assert t.id in [t.id] + Ids(t.left);
    }
  }

  lemma MiddleIsDistinct(before: seq<string>, part: seq<string>, after: seq<string>)
    requires Distinct(before + part + after)
    ensures Distinct(part)
    ensures forall id :: id in part ==> id !in before && id in before + part + after
  {
    var all := before + part + after;
    forall i, j | 0 <= i < j < |part|
      ensures part[i] != part[j]
    {
      assert all[|before| + i] == part[i] && all[|before| + j] == part[j];
    }
    forall i, j | 0 <= i < |before| && 0 <= j < |part|
      ensures before[i] != part[j]
    {
      assert all[i] == before[i] && all[|before| + j] == part[j];
    }
  }

  lemma {:induction false} PlacedReads(resolved: Placement, tiles: seq<Tile>, i: nat)
    requires i < |tiles| && forall j, k :: 0 <= j < k < |tiles| ==> tiles[j].address != tiles[k].address
    ensures tiles[i].address in Placed(resolved, tiles) && Placed(resolved, tiles)[tiles[i].address] == tiles[i].rect
  {
    var n := |tiles| - 1;
    if i < n {
      PlacedReads(resolved, tiles[..n], i);
    }
  }

  predicate Addressed(tiles: seq<Tile>, address: string) {
    exists i :: 0 <= i < |tiles| && tiles[i].address == address
  }

  lemma {:induction false} PlacedOnly(tiles: seq<Tile>, address: string)
    requires address in Placed(map[], tiles)
    ensures Addressed(tiles, address)
  {
    var n := |tiles| - 1;
    if tiles[n].address != address {
      PlacedOnly(tiles[..n], address);
      var i :| 0 <= i < n && tiles[..n][i].address == address;
      assert tiles[i].address == address;
    }
  }

  predicate OwnAddresses(tiles: seq<Tile>) {
    forall j, k :: 0 <= j < k < |tiles| ==> tiles[j].address != tiles[k].address
  }

  // ---- leaf addresses ----

  /** Every control's address starts with its window's id and a dot. */
  predicate Rooted(windows: seq<PaneWindow>) {
    forall w, c :: w in windows && c in w.controls && c.Some? ==> w.id + "." <= c.value.address
  }

  function LeafIds(t: PaneTree): seq<string> {
    match t
    case Leaf(id, _) => [id]
    case Whole(_, _, _, _, only) => LeafIds(only)
    case Fork(_, _, _, _, left, right) => LeafIds(left) + LeafIds(right)
  }

  lemma {:induction false} LaidAreControls(controls: seq<Option<PaneControl>>, c: PaneControl)
    requires c in Laid(controls)
    ensures Some(c) in controls
  {
    var n := |controls| - 1;
    if controls[n] != Some(c) {
      LaidAreControls(controls[..n], c);
    }
  }

  lemma {:induction false} LeafAddresses(windows: seq<PaneWindow>, t: PaneTree, viewport: Region)
    requires Small(viewport) && Describes(windows, t) && Bounded(t) && Rooted(windows)
    ensures var tiles := Leaves(t, viewport);
      && |tiles| == |LeafIds(t)|
      && forall i :: 0 <= i < |tiles| ==> LeafIds(t)[i] + "." <= tiles[i].address
  {
    match t
    case Leaf(id, _) =>
      var w := PaneWithId(windows, id).value;
      PaneAnswers(windows, id);
      LaidAreControls(w.controls, Laid(w.controls)[0]);
    case Whole(_, _, _, _, only) => LeafAddresses(windows, only, viewport);
    case Fork(_, _, vertical, percent, left, right) =>
      var halves := SplitRect(viewport, vertical, percent, false);
      LeafAddresses(windows, left, halves.0);
      LeafAddresses(windows, right, halves.1);
  }

  lemma {:induction false} LeafIdsAreDistinct(t: PaneTree)
    requires Distinct(Ids(t))
    ensures Distinct(LeafIds(t)) && forall id :: id in LeafIds(t) ==> id in Ids(t)
  {
    match t
    case Leaf(_, _) =>
    case Whole(id, _, _, _, only) =>
      assert Ids(t) == [id] + Ids(only) + [];
      MiddleIsDistinct([id], Ids(only), []);
      LeafIdsAreDistinct(only);
    case Fork(id, _, _, _, left, right) =>
      assert Ids(t) == ([id] + Ids(left)) + Ids(right) + [];
      MiddleIsDistinct([id], Ids(left), Ids(right));
      MiddleIsDistinct([id] + Ids(left), Ids(right), []);
      LeafIdsAreDistinct(left);
      LeafIdsAreDistinct(right);
      var a, b := LeafIds(left), LeafIds(right);
      forall i, j | 0 <= i < j < |a + b|
        ensures (a + b)[i] != (a + b)[j]
      {
        if i < |a| <= j {
          assert a[i] in Ids(left) && b[j - |a|] in Ids(right);
        }
      }
  }

  predicate DotFree(ids: seq<string>) {
    forall i :: 0 <= i < |ids| ==> '.' !in ids[i]
  }

  lemma DotEndsId(a: string, b: string, address: string)
    requires '.' !in a && '.' !in b && a + "." <= address && b + "." <= address
    ensures a == b
  {
    assert address[|a|] == '.' && address[|b|] == '.';
    assert forall i :: 0 <= i < |a| ==> address[i] == a[i] != '.';
    assert forall i :: 0 <= i < |b| ==> address[i] == b[i] != '.';
    assert a == address[..|a|] && b == address[..|b|];
  }

  /** Distinct window ids without dots give every leaf an address of its own. */
  lemma LeavesOwnAddresses(windows: seq<PaneWindow>, t: PaneTree, viewport: Region)
    requires Small(viewport) && Describes(windows, t) && Bounded(t) && Rooted(windows)
    requires Distinct(Ids(t)) && DotFree(Ids(t))
    ensures OwnAddresses(Leaves(t, viewport))
  {
    LeafAddresses(windows, t, viewport);
    LeafIdsAreDistinct(t);
    var tiles, ids := Leaves(t, viewport), LeafIds(t);
    forall j, k | 0 <= j < k < |tiles|
      ensures tiles[j].address != tiles[k].address
    {
      assert ids[j] in Ids(t) && ids[k] in Ids(t);
      if tiles[j].address == tiles[k].address {
        DotEndsId(ids[j], ids[k], tiles[j].address);
      }
    }
  }

  /**
    For a skin that is a tree of full-size panes, none reused, the layout of the root window places
    exactly the tree's leaves, and their rectangles cover every viewport pixel exactly once.
   */
  lemma LayoutTilesViewport(windows: seq<PaneWindow>, t: PaneTree, viewport: Region)
    requires SmallPercents(windows) && Fits(viewport) && Describes(windows, t) && Distinct(Ids(t))
    ensures Bounded(t)
    ensures var tiles := Leaves(t, viewport);
      var layout := ResolveWindow(windows, t.id, viewport, map[], []);
      && (OwnAddresses(tiles) ==> forall i :: 0 <= i < |tiles| ==>
           tiles[i].address in layout && layout[tiles[i].address] == tiles[i].rect)
      && (forall address :: address in layout ==> Addressed(tiles, address))
      && (forall pixel :: Coverage(tiles, pixel) == if Covers(viewport, pixel) then 1 else 0)
  {
    DescribedIsBounded(windows, t);
    var tiles := Leaves(t, viewport);
    LayoutIsLeaves(windows, t, viewport, map[], []);
    if OwnAddresses(tiles) {
      forall i | 0 <= i < |tiles|
        ensures tiles[i].address in Placed(map[], tiles) && Placed(map[], tiles)[tiles[i].address] == tiles[i].rect
      {
        PlacedReads(map[], tiles, i);
      }
    }
    forall address | address in Placed(map[], tiles)
      ensures Addressed(tiles, address)
    {
      PlacedOnly(tiles, address);
    }
    forall pixel
      ensures Coverage(tiles, pixel) == if Covers(viewport, pixel) then 1 else 0
    {
      LeavesTile(t, viewport, pixel);
    }
  }
}
