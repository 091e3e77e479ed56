/**
  What the pane layout reads of the window state, and the layout of the root window
  (crates/dm-client/src/layout.rs:5-17, 229-330, 388-391, 453-477; crates/dm-dmf/src/lib.rs:355-392).
 */
module PaneSkin {
  import opened Wrappers
  import opened MachineIntegers
  import opened Numerals
  import opened Strings
  import opened Rectangles
  import opened ControlTrees
  import opened UiStates
  import opened Panes

  predicate Truthy(value: string) {
    Lower(Trim(value)) in {"true", "yes", "1"}
  }

  predicate Falsy(value: string) {
    Lower(Trim(value)) in {"false", "no", "0"}
  }

  function PairAt(value: string, separator: char): Option<(u32, u32)> {
    var parts := SplitOnce(value, separator);
    if parts.None? then None
    else
      var left, right := Parse(Trim(parts.value.0), 10, U32_MAX), Parse(Trim(parts.value.1), 10, U32_MAX);
      if left.None? || right.None? then None else Some((left.value, right.value))
  }

  /** The skin's own rectangle: both `pos` and `size`, or nothing. */
  function PixelRect(control: Control): (r: Option<Region>)
    ensures r.Some? ==> Small(r.value)
  {
    var pos, size := Declared(control.properties, "pos"), Declared(control.properties, "size");
    if pos.None? || size.None? then None
    else
      var at, extent := PairAt(pos.value, ','), PairAt(Lower(size.value), 'x');
      if at.None? || extent.None? then None else Some(Region(at.value.0, at.value.1, extent.value.0, extent.value.1))
  }

  function Text(ui: Ui, address: string, name: string): string {
    var value := Winget(ui, address, name);
    if value.Success? then value.value else ""
  }

  function EffectiveRect(ui: Ui, address: string, declared: Region): Region {
    var at := PairAt(Trim(Text(ui, address, "pos")), ',');
    var extent := PairAt(Trim(Text(ui, address, "size")), 'x');
    var moved := if at.Some? then declared.(x := at.value.0, y := at.value.1) else declared;
    if extent.Some? then moved.(width := extent.value.0, height := extent.value.1) else moved
  }

  const I32_MIN_MAGNITUDE: nat := 0x8000_0000

  function ParseSigned(s: string): Option<int> {
    if s != "" && s[0] == '-' then
      var digits := if |s| > 1 && s[1] == '+' then None else Parse(s[1..], 10, I32_MIN_MAGNITUDE);
      if digits.None? then None
      else
        var magnitude: int := digits.value;
        Some(-magnitude)
    else
      var digits := Parse(s, 10, I32_MIN_MAGNITUDE - 1);
      if digits.None? then None else Some(digits.value)
  }

  function AnchorAt(value: string): Option<Anchor> {
    var parts := SplitOnce(value, ',');
    if parts.None? then None
    else
      var x, y := ParseSigned(Trim(parts.value.0)), ParseSigned(Trim(parts.value.1));
      if x.None? || y.None? then None else Some(Anchor(x.value, y.value))
  }

  function SplitterAt(ui: Ui, address: string): Splitter {
    var share := Parse(Text(ui, address, "splitter"), 10, U32_MAX);
    Splitter(Text(ui, address, "left"), Text(ui, address, "right"), Truthy(Text(ui, address, "is-vert")),
             Min(if share.Some? then share.value else 50, 100))
  }

  /** A control the layout places: identified, not the main control, not hidden, with a rectangle. */
  function PaneOf(ui: Ui, window: string, control: Control): Option<PaneControl> {
    if control.kind == MainType || control.id.None? then None
    else
      var address := window + "." + control.id.value;
      var declared := PixelRect(control);
      if Falsy(Text(ui, address, "is-visible")) || declared.None? then None
      else
        var kind := Declared(control.properties, "type");
        var splits := kind.Some? && SameName(kind.value, "CHILD");
        Some(PaneControl(address, EffectiveRect(ui, address, declared.value),
          AnchorAt(Text(ui, address, "anchor1")), AnchorAt(Text(ui, address, "anchor2")),
          if splits then Some(SplitterAt(ui, address)) else None))
  }

  function MainControl(controls: seq<Control>): Option<Control> {
    if controls == [] then None
    else if controls[0].kind == MainType then Some(controls[0])
    else MainControl(controls[1..])
  }

  function MainRect(window: Window): (r: Option<Region>)
    ensures r.Some? ==> Small(r.value)
  {
    var main := MainControl(window.controls);
    if main.Some? then PixelRect(main.value) else None
  }

  function WindowOf(ui: Ui, window: Window): PaneWindow {
    PaneWindow(window.id, MainRect(window),
      seq(|window.controls|, i requires 0 <= i < |window.controls| => PaneOf(ui, window.id, window.controls[i])))
  }

  function PaneWindows(ui: Ui): seq<PaneWindow> {
    seq(|ui.tree.windows|, i requires 0 <= i < |ui.tree.windows| => WindowOf(ui, ui.tree.windows[i]))
  }

  lemma PaneIsBounded(ui: Ui, window: string, control: Control)
    ensures Percents([PaneOf(ui, window, control)])
  {
  }

  /** No splitter asks for more than the whole, whatever the skin or the game set. */
  lemma PaneWindowsAreBounded(ui: Ui)
    ensures SmallPercents(PaneWindows(ui))
  {
    hide PaneOf;
    forall w, c | w in PaneWindows(ui) && c in w.controls && c.Some? && c.value.splitter.Some?
      ensures c.value.splitter.value.percent <= 100
    {
      var i :| 0 <= i < |ui.tree.windows| && w == WindowOf(ui, ui.tree.windows[i]);
      var j :| 0 <= j < |w.controls| && c == w.controls[j];
      PaneIsBounded(ui, w.id, ui.tree.windows[i].controls[j]);
      assert c in [c];
    }
  }

  lemma PaneIsRooted(ui: Ui, window: string, control: Control)
    ensures PaneOf(ui, window, control).Some? ==> window + "." <= PaneOf(ui, window, control).value.address
  {
  }

  lemma PaneWindowsAreRooted(ui: Ui)
    ensures Rooted(PaneWindows(ui))
  {
    hide PaneOf;
    forall w, c | w in PaneWindows(ui) && c in w.controls && c.Some?
      ensures w.id + "." <= c.value.address
    {
      var i :| 0 <= i < |ui.tree.windows| && w == WindowOf(ui, ui.tree.windows[i]);
      var j :| 0 <= j < |w.controls| && c == w.controls[j];
      PaneIsRooted(ui, w.id, ui.tree.windows[i].controls[j]);
    }
  }

  predicate HasDefaultMain(ui: Ui, window: Window) {
    exists i :: 0 <= i < |window.controls| && window.controls[i].kind == MainType
      && Truthy(Text(ui, window.id + "." + IdOf(window.controls[i]), "is-default"))
  }

  function DefaultWindow(ui: Ui, windows: seq<Window>): Option<Window> {
    if windows == [] then None
    else if HasDefaultMain(ui, windows[0]) then Some(windows[0])
    else DefaultWindow(ui, windows[1..])
  }

  function RootWindow(ui: Ui): Option<Window> {
    var chosen := DefaultWindow(ui, ui.tree.windows);
    if chosen.Some? then chosen
    else if ui.tree.windows != [] then Some(ui.tree.windows[0])
    else None
  }

  /** The surface's size, or the root window's own, or 1024 by 768. */
  function Viewport(ui: Ui, size: Option<(u32, u32)>): (r: Region)
    ensures Fits(r) && r.x == 0 && r.y == 0
  {
    var root := RootWindow(ui);
    var own := if root.Some? then MainRect(root.value) else None;
    if size.Some? then Region(0, 0, size.value.0, size.value.1)
    else if own.Some? then Region(0, 0, own.value.width, own.value.height)
    else Region(0, 0, 1024, 768)
  }

  method ResolvePaneLayout(ui: Ui, size: Option<(u32, u32)>) returns (controls: Placement)
    ensures SmallPercents(PaneWindows(ui))
    ensures controls == (if RootWindow(ui).None? then map[]
      else ResolveWindow(PaneWindows(ui), RootWindow(ui).value.id, Viewport(ui, size), map[], []))
  {
    PaneWindowsAreBounded(ui);
    var root := RootWindow(ui);
    if root.None? {
      return map[];
    }
    var resolver := new PaneResolver(PaneWindows(ui));
    resolver.ResolvePaneWindow(root.value.id, Viewport(ui, size));
    controls := resolver.resolved;
  }

  /** A surface whose root window is a tree of full-size panes is tiled by their leaves. */
  lemma SurfaceIsTiled(ui: Ui, size: Option<(u32, u32)>, t: PaneTree)
    requires RootWindow(ui).Some? && t.id == RootWindow(ui).value.id
    requires Describes(PaneWindows(ui), t) && Distinct(Ids(t))
    ensures SmallPercents(PaneWindows(ui)) && Bounded(t)
    ensures var layout := ResolveWindow(PaneWindows(ui), t.id, Viewport(ui, size), map[], []);
      var tiles := Leaves(t, Viewport(ui, size));
      && (DotFree(Ids(t)) ==> OwnAddresses(tiles))
      && (OwnAddresses(tiles) ==> forall i :: 0 <= i < |tiles| ==>
           tiles[i].address in layout && layout[tiles[i].address] == tiles[i].rect)
      && (forall address :: address in layout ==> Addressed(tiles, address))
      && (forall pixel :: Coverage(tiles, pixel) == if Covers(Viewport(ui, size), pixel) then 1 else 0)
  {
    PaneWindowsAreBounded(ui);
    PaneWindowsAreRooted(ui);
    LayoutTilesViewport(PaneWindows(ui), t, Viewport(ui, size));
    if DotFree(Ids(t)) {
      LeavesOwnAddresses(PaneWindows(ui), t, Viewport(ui, size));
    }
  }
}
