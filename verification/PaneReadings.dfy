/**
  What the layout makes of the texts of properties, and which window is the root
  (crates/dm-client/src/layout.rs:229-266, 316-335, 388-391, 453-477; crates/dm-dmf/src/lib.rs:392-424).
 */
module PaneReadings {
  import opened Wrappers
  import opened MachineIntegers
  import opened Numerals
  import opened Strings
  import opened Rectangles
  import opened ControlTrees
  import opened UiStates
  import opened UiNames
  import opened Selectors
  import opened Panes
  import opened PaneSkin

  // ---- numbers ----

  predicate Digits(s: string) {
    forall i :: 0 <= i < |s| ==> '0' <= s[i] <= '9'
  }

  lemma {:induction false} PrintedDigits(n: nat)
    ensures Digits(Print(n, 10))
    decreases n
  {
    if n >= 10 {
      Shrinks(n, 10);
      PrintedDigits(n / 10);
    }
  }

  function PrintSigned(n: int): string {
    if n < 0 then "-" + Print(-n, 10) else Print(n, 10)
  }

  /** Every 32-bit number reads back. */
  lemma SignedReadsBack(n: int)
    requires -0x8000_0000 <= n < 0x8000_0000
    ensures ParseSigned(PrintSigned(n)) == Some(n)
  {
    hide Parse;
    if n < 0 {
      var magnitude := -n;
      PrintedDigits(magnitude);
      ParsePrinted(magnitude, 10, 0x8000_0000);
      assert PrintSigned(n)[1..] == Print(magnitude, 10);
    } else {
      PrintedDigits(n);
      ParsePrinted(n, 10, 0x7FFF_FFFF);
    }
  }

  /** Nothing outside the 32-bit range is read. */
  lemma SignedIsBounded(s: string)
    ensures ParseSigned(s).Some? ==> -0x8000_0000 <= ParseSigned(s).value < 0x8000_0000
  {
    hide ValueOf, AllDigits;
  }

  lemma DigitsAreTrimmed(s: string)
    requires Digits(s)
    ensures Trim(s) == s && Trim("-" + s) == "-" + s
  {
    TrimmedIsTrim(s);
    TrimmedIsTrim("-" + s);
  }

  lemma PairReads(x: u32, y: u32, separator: char)
    requires !('0' <= separator <= '9')
    ensures PairAt(Print(x, 10) + [separator] + Print(y, 10), separator) == Some((x, y))
  {
    hide Parse, Print, Trim;
    PrintedDigits(x);
    PrintedDigits(y);
    DigitsAreTrimmed(Print(x, 10));
    DigitsAreTrimmed(Print(y, 10));
    SplitJoined(Print(x, 10), separator, Print(y, 10));
    ParsePrinted(x, 10, U32_MAX);
    ParsePrinted(y, 10, U32_MAX);
  }

  /** An anchor is its two numbers around a comma. */
  lemma AnchorReads(x: int, y: int)
    requires -0x8000_0000 <= x < 0x8000_0000 && -0x8000_0000 <= y < 0x8000_0000
    ensures AnchorAt(PrintSigned(x) + "," + PrintSigned(y)) == Some(Anchor(x, y))
  {
    SignedReadsBack(x);
    SignedReadsBack(y);
    hide ParseSigned, Print, Trim;
    SignedIsTrimmed(x);
    SignedIsTrimmed(y);
    SplitJoined(PrintSigned(x), ',', PrintSigned(y));
  }

  lemma SignedIsTrimmed(n: int)
    ensures Trim(PrintSigned(n)) == PrintSigned(n) && ',' !in PrintSigned(n)
  {
    hide Print, Trim;
    PrintedDigits(if n < 0 then -n else n);
    DigitsAreTrimmed(Print(if n < 0 then -n else n, 10));
  }

  // ---- rectangles ----

  lemma LowerPair(w: u32, h: u32)
    ensures Lower(Print(w, 10) + "x" + Print(h, 10)) == Print(w, 10) + "x" + Print(h, 10)
  {
    PrintedDigits(w);
    PrintedDigits(h);
    hide Print;
  }

  /** A skin's rectangle is its `pos`, two numbers around a comma, and its `size`, two around an `x`. */
  lemma RectReads(control: Control, x: u32, y: u32, w: u32, h: u32)
    requires Declared(control.properties, "pos") == Some(Print(x, 10) + "," + Print(y, 10))
    requires Declared(control.properties, "size") == Some(Print(w, 10) + "x" + Print(h, 10))
    ensures PixelRect(control) == Some(Region(x, y, w, h))
  {
    hide Print, PairAt, Declared, Lower;
    PairReads(x, y, ',');
    PairReads(w, h, 'x');
    LowerPair(w, h);
  }

  lemma PairIsTrimmed(x: u32, y: u32, separator: char)
    requires !White(separator)
    ensures Trim(Print(x, 10) + [separator] + Print(y, 10)) == Print(x, 10) + [separator] + Print(y, 10)
  {
    hide Print;
    PrintedDigits(x);
    PrintedDigits(y);
    TrimmedIsTrim(Print(x, 10) + [separator] + Print(y, 10));
  }

  /** A readable runtime `pos` moves a control and a readable runtime `size` resizes it; otherwise it keeps its own. */
  lemma RuntimeRect(ui: Ui, address: string, declared: Region, x: u32, y: u32, w: u32, h: u32)
    ensures var r := EffectiveRect(ui, address, declared);
      && (Winget(ui, address, "pos") == Success(Print(x, 10) + "," + Print(y, 10)) ==> r.x == x && r.y == y)
      && (Winget(ui, address, "size") == Success(Print(w, 10) + "x" + Print(h, 10)) ==> r.width == w && r.height == h)
      && (Winget(ui, address, "pos") == Success("") ==> r.x == declared.x && r.y == declared.y)
      && (Winget(ui, address, "size") == Success("") ==> r.width == declared.width && r.height == declared.height)
  {
    hide Print, PairAt, Winget, Trim;
    PairIsTrimmed(x, y, ',');
    PairReads(x, y, ',');
    PairIsTrimmed(w, h, 'x');
    PairReads(w, h, 'x');
    TrimmedIsTrim("");
    NoPair(',');
    NoPair('x');
  }

  lemma NoPair(separator: char)
    ensures PairAt("", separator).None?
  {
  }

  // ---- words ----

  /** `true`, `yes` and `1` are yes and `false`, `no` and `0` are no, in any casing, with any white space around. */
  lemma WordsIff(value: string)
    ensures Truthy(value) <==> Affirms(value)
    ensures Falsy(value) <==> Alike(Trim(value), "false") || Alike(Trim(value), "no") || Alike(Trim(value), "0")
  {
    hide Alike, Lower, Trim;
    LowersTo(Trim(value), "true");
    LowersTo(Trim(value), "yes");
    LowersTo(Trim(value), "1");
    LowersTo(Trim(value), "false");
    LowersTo(Trim(value), "no");
    LowersTo(Trim(value), "0");
  }

  /** The share of the first pane: the number given, at most 100, or half when it cannot be read. */
  lemma ShareReads(ui: Ui, address: string, share: u32)
    ensures Winget(ui, address, "splitter") == Success(Print(share, 10)) ==>
        SplitterAt(ui, address).percent == if share <= 100 then share else 100
    ensures Winget(ui, address, "splitter") == Success("") ==> SplitterAt(ui, address).percent == 50
    ensures forall left :: Winget(ui, address, "left") == Success(left) ==> SplitterAt(ui, address).left == left
    ensures forall right :: Winget(ui, address, "right") == Success(right) ==> SplitterAt(ui, address).right == right
    ensures forall v :: Winget(ui, address, "is-vert") == Success(v) ==>
      (SplitterAt(ui, address).vertical <==> Affirms(v))
  {
    hide Print, Winget, Affirms;
    ParsePrinted(share, 10, U32_MAX);
    forall v
      ensures Truthy(v) <==> Affirms(v)
    {
      WordsIff(v);
    }
  }

  /** Which controls take part: not the main control, identified, not hidden, and with a rectangle of their own. */
  lemma PlacedIff(ui: Ui, window: string, control: Control)
    requires control.id.Some?
    ensures var address := window + "." + control.id.value;
      forall visible :: Winget(ui, address, "is-visible") == Success(visible) ==>
        (PaneOf(ui, window, control).Some? <==>
           && control.kind != MainType && PixelRect(control).Some?
           && !(Alike(Trim(visible), "false") || Alike(Trim(visible), "no") || Alike(Trim(visible), "0")))
    ensures PaneOf(ui, window, control).Some? ==>
        PaneOf(ui, window, control).value.address == window + "." + control.id.value
    ensures PaneOf(ui, window, control).Some? ==>
      (PaneOf(ui, window, control).value.splitter.Some? <==>
         Declared(control.properties, "type").Some? && Alike(Declared(control.properties, "type").value, "child"))
  {
    hide Winget, Alike, Trim, PixelRect, EffectiveRect, SplitterAt, AnchorAt, Falsy;
    forall v
      ensures Falsy(v) <==> Alike(Trim(v), "false") || Alike(Trim(v), "no") || Alike(Trim(v), "0")
    {
      WordsIff(v);
    }
    if Declared(control.properties, "type").Some? {
      ChildIff(Declared(control.properties, "type").value);
    }
  }

  /** A placed control takes its anchors and its split from the properties of its own address. */
  lemma PlacedTakes(ui: Ui, window: string, control: Control)
    requires control.id.Some? && PaneOf(ui, window, control).Some?
    ensures var address, pane := window + "." + control.id.value, PaneOf(ui, window, control).value;
      && PixelRect(control).Some? && pane.base == EffectiveRect(ui, address, PixelRect(control).value)
      && (forall a :: Winget(ui, address, "anchor1") == Success(a) ==> pane.anchor1 == AnchorAt(a))
      && (forall a :: Winget(ui, address, "anchor2") == Success(a) ==> pane.anchor2 == AnchorAt(a))
      && (pane.splitter.Some? ==> pane.splitter.value == SplitterAt(ui, address))
  {
    hide Winget, PixelRect, EffectiveRect, SplitterAt, AnchorAt, Falsy, Declared;
  }

  lemma ChildIff(kind: string)
    ensures SameName(kind, "CHILD") <==> Alike(kind, "child")
  {
    SameNameIff(kind, "child");
    assert Lower("CHILD") == "child" == Lower("child");
  }

  // ---- the root window ----

  /** Some main control of the window is the default one. */
  ghost predicate Leads(ui: Ui, window: Window) {
    exists c :: c in window.controls && c.kind == MainType &&
      var value := Winget(ui, window.id + "." + IdOf(c), "is-default");
      value.Success? && Affirms(value.value)
  }

  lemma LeadsIff(ui: Ui, window: Window)
    ensures HasDefaultMain(ui, window) <==> Leads(ui, window)
  {
    hide Winget, Truthy, Affirms;
    forall v
      ensures Truthy(v) <==> Affirms(v)
    {
      WordsIff(v);
    }
    NotAffirmed();
    forall c | c in window.controls
      ensures exists i :: 0 <= i < |window.controls| && window.controls[i] == c
    {
    }
  }

  lemma NotAffirmed()
    ensures !Affirms("")
  {
    TrimmedIsTrim("");
  }

  /** The root is the first window with a default main control, or else the first window. */
  lemma {:induction false} RootIs(ui: Ui, i: nat)
    requires i < |ui.tree.windows| && Leads(ui, ui.tree.windows[i])
    requires forall j :: 0 <= j < i ==> !Leads(ui, ui.tree.windows[j])
    ensures RootWindow(ui) == Some(ui.tree.windows[i])
  {
    DefaultIs(ui, ui.tree.windows, i);
  }

  lemma {:induction false} DefaultIs(ui: Ui, windows: seq<Window>, i: nat)
    requires i < |windows| && Leads(ui, windows[i])
    requires forall j :: 0 <= j < i ==> !Leads(ui, windows[j])
    ensures DefaultWindow(ui, windows) == Some(windows[i])
  {
    LeadsIff(ui, windows[0]);
    hide Leads, HasDefaultMain;
    if i > 0 {
      assert !Leads(ui, windows[0]);
      assert forall j :: 0 <= j < i - 1 ==> windows[1..][j] == windows[j + 1];
      DefaultIs(ui, windows[1..], i - 1);
    }
  }

  lemma {:induction false} NoDefault(ui: Ui, windows: seq<Window>)
    requires forall w :: w in windows ==> !Leads(ui, w)
    ensures DefaultWindow(ui, windows) == None
  {
    if windows != [] {
      LeadsIff(ui, windows[0]);
      NoDefault(ui, windows[1..]);
    }
  }

  lemma RootOtherwise(ui: Ui)
    requires forall w :: w in ui.tree.windows ==> !Leads(ui, w)
    ensures RootWindow(ui) == if ui.tree.windows == [] then None else Some(ui.tree.windows[0])
  {
    NoDefault(ui, ui.tree.windows);
  }

  lemma {:induction false} FirstMain(controls: seq<Control>, i: nat)
    requires i <= |controls| && forall j :: 0 <= j < i ==> controls[j].kind != MainType
    requires i < |controls| ==> controls[i].kind == MainType
    ensures MainControl(controls) == if i < |controls| then Some(controls[i]) else None
  {
    if i > 0 {
      FirstMain(controls[1..], i - 1);
    }
  }

  /** Without a surface size the viewport is as large as the root's first main control, or 1024 by 768. */
  lemma ViewportIs(ui: Ui, width: u32, height: u32, i: nat, own: Region)
    ensures Viewport(ui, Some((width, height))) == Region(0, 0, width, height)
    ensures RootWindow(ui).None? ==> Viewport(ui, None) == Region(0, 0, 1024, 768)
    ensures RootWindow(ui).Some? ==>
      var controls := RootWindow(ui).value.controls;
      && ((forall c :: c in controls ==> c.kind != MainType) ==> Viewport(ui, None) == Region(0, 0, 1024, 768))
      && (i < |controls| && controls[i].kind == MainType &&
          (forall j :: 0 <= j < i ==> controls[j].kind != MainType) ==>
            && (PixelRect(controls[i]) == Some(own) ==> Viewport(ui, None) == Region(0, 0, own.width, own.height))
            && (PixelRect(controls[i]) == None ==> Viewport(ui, None) == Region(0, 0, 1024, 768)))
  {
    hide PixelRect, RootWindow;
    if RootWindow(ui).Some? {
      var controls := RootWindow(ui).value.controls;
      if forall c :: c in controls ==> c.kind != MainType {
        FirstMain(controls, |controls|);
      }
      if i < |controls| && controls[i].kind == MainType && forall j :: 0 <= j < i ==> controls[j].kind != MainType {
        FirstMain(controls, i);
      }
    }
  }
}
