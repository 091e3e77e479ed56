/**
  The implicit browser window of a `browse` whose selector names nothing in the skin
  (crates/dm-dmf/src/lib.rs:748-800, 880-933).
 */
module BrowserWindows {
  import opened Wrappers
  import opened Strings
  import opened ControlTrees
  import opened Assignments
  import opened UiStates
  import opened UiWindows
  import opened UiNames

  const TEMPLATE := "popupwindow"

  const SETTINGS: seq<Assignment> :=
    [Assignment("type", "BROWSER"), Assignment("is-visible", "true"), Assignment("pos", "0,0")]

  const SETTINGS_TEXT := "type=BROWSER" + ";" + ("is-visible=true" + ";" + "pos=0,0")

  /** The runtime `type` if it is not blank, else the declared one. */
  predicate IsBrowser(ui: Ui, address: string) {
    var key := Resolve(ui, address);
    && key.Success?
    && var runtime := ValueAt(ui, key.value, "type");
       if Trim(runtime) != "" then SameName(runtime, "BROWSER")
       else SkinControl(ui, key.value).Some? && SkinControl(ui, key.value).value.kind == BrowserType
  }

  /** Clones the popup template and then configures the clone; a refusal of the second step leaves the first. */
  function EnsureBrowser(ui: Ui, window: string): (Ui, Option<UiError>) {
    if IsBrowser(ui, window) then (ui, None)
    else
      var cloned := Winclone(ui, TEMPLATE, window);
      if cloned.Failure? then (ui, Some(cloned.error))
      else
        var configured := Winset(cloned.value, window, SETTINGS_TEXT);
        if configured.Failure? then (cloned.value, Some(configured.error)) else (configured.value, None)
  }

  method EnsureBrowserWindow(state: UiState, window: string) returns (error: Option<UiError>)
    requires state.Valid()
    modifies state
    ensures state.Valid() && (state.State(), error) == EnsureBrowser(old(state.State()), window)
  {
    if IsBrowser(state.State(), window) {
      return None;
    }
    error := state.WincloneTo(TEMPLATE, window);
    if error.Some? {
      return;
    }
    error := state.WinsetParameters(window, SETTINGS_TEXT);
  }

  predicate HasTemplate(ui: Ui) {
    WindowWithId(ui.tree.windows + ui.tree.auxiliary, TEMPLATE).Some?
  }

  lemma SettingsText()
    ensures BareJoined(SETTINGS) == SETTINGS_TEXT
  {
    FirstSetting();
    SecondSetting();
    ThirdSetting();
    hide Bare;
    assert SETTINGS[1..] == [SETTINGS[1], SETTINGS[2]] && SETTINGS[1..][1..] == [SETTINGS[2]];
  }

  lemma FirstSetting()
    ensures Bare(SETTINGS[0]) == "type=BROWSER" && BareAssignment(SETTINGS[0])
  {
  }

  lemma SecondSetting()
    ensures Bare(SETTINGS[1]) == "is-visible=true" && BareAssignment(SETTINGS[1])
  {
  }

  lemma ThirdSetting()
    ensures Bare(SETTINGS[2]) == "pos=0,0" && BareAssignment(SETTINGS[2])
  {
  }

  lemma SettingsParse()
    ensures ParseFrom(SETTINGS_TEXT, "", OUTSIDE) == Success(SETTINGS)
  {
    SettingsText();
    FirstSetting();
    SecondSetting();
    ThirdSetting();
    hide ParseFrom, BareJoined, BareAssignment;
    ParseInvertsBareJoin(SETTINGS);
  }

  lemma SettingsNameNoParent()
    ensures FirstParent(SETTINGS) == ""
  {
    assert FirstParent(SETTINGS[1..][1..][1..]) == "";
    assert SETTINGS[1..][0] == SETTINGS[1] && SETTINGS[1..][1..][0] == SETTINGS[2];
    assert FirstParent(SETTINGS[1..][1..]) == "";
    assert FirstParent(SETTINGS[1..]) == "";
  }

  /** The settings are accepted exactly when the name means a control by then. */
  lemma SettingsAcceptedIff(ui: Ui, window: string)
    ensures Winset(ui, window, SETTINGS_TEXT).Success? <==> Resolve(ui, window).Success?
  {
    SettingsParse();
    SettingsNameNoParent();
    hide Resolve, ParseFrom, FirstParent;
  }

  // ---- what the clone makes resolvable ----

  predicate Dotted(window: string) {
    SplitOnce(window, '.').Some?
  }

  /** The clone would answer to the bare name through the template's own control or its runtime state. */
  predicate Answers(ui: Ui, window: string) {
    || Addressable(ui.tree, TEMPLATE, TEMPLATE).Some?
    || Lands(ui.overrides, window)
  }

  predicate Lands(overrides: seq<ControlOverride>, window: string) {
    exists i :: 0 <= i < |overrides| && overrides[i].window == TEMPLATE
             && (overrides[i].control == TEMPLATE || overrides[i].control == window)
  }

  /** What the bare name means apart from an earlier clone of that name. */
  function Rivals(ui: Ui, window: string): seq<string> {
    TreeMatches(ui.tree.windows + ui.tree.auxiliary, window)
      + OverrideMatches(ui.overrides, window) + CloneMatches(ui.tree, Without(ui.clones, window), window)
  }

  /** After the clone the bare name has exactly one meaning. */
  predicate Settles(ui: Ui, window: string) {
    var meanings := Rivals(ui, window) + if Answers(ui, window) then [window] else [];
    meanings != [] && AllSame(meanings)
  }

  lemma {:induction false} StoreMatches(
      overrides: seq<ControlOverride>, key: Key, properties: seq<Assignment>, id: string)
    ensures forall w :: (w in OverrideMatches(Store(overrides, key, properties), id)
      <==> w in OverrideMatches(overrides, id) || (w == key.window && key.control == id))
  {
    var i := Position(overrides, key);
    if i < |overrides| {
      SameKeysSameMatches(overrides, Store(overrides, key, properties), "", id);
      if key.control == id {
        HeldIsMatched(overrides, i);
      }
    } else {
      OverrideMatchesAppend(overrides, ControlOverride(key.window, key.control, properties), id);
    }
  }

  lemma {:induction false} HeldIsMatched(overrides: seq<ControlOverride>, i: nat)
    requires i < |overrides|
    ensures overrides[i].window in OverrideMatches(overrides, overrides[i].control)
  {
    if i < |overrides| - 1 {
      HeldIsMatched(overrides[..|overrides| - 1], i);
    }
  }

  lemma {:induction false} CopyMatches(into: seq<ControlOverride>, from: seq<ControlOverride>, window: string)
    ensures forall w :: (w in OverrideMatches(CopyOverrides(into, from, TEMPLATE, window), window)
      <==> w in OverrideMatches(into, window) || (w == window && Lands(from, window)))
  {
    if from != [] {
      var n := |from| - 1;
      CopyMatches(into, from[..n], window);
      LandsStep(from, window);
      if from[n].window == TEMPLATE {
        StoreMatches(CopyOverrides(into, from[..n], TEMPLATE, window),
                     Landed(TEMPLATE, window, from[n].control), from[n].properties, window);
      }
      hide OverrideMatches, Lands;
    }
  }

  lemma LandsStep(from: seq<ControlOverride>, window: string)
    requires from != []
    ensures var o := from[|from| - 1];
      Lands(from, window) <==>
        Lands(from[..|from| - 1], window) || (o.window == TEMPLATE && (o.control == TEMPLATE || o.control == window))
  {
    var n := |from| - 1;
    if Lands(from[..n], window) {
      var i :| 0 <= i < n && from[..n][i].window == TEMPLATE
            && (from[..n][i].control == TEMPLATE || from[..n][i].control == window);
      assert from[i] == from[..n][i];
    }
    if Lands(from, window) {
      var i :| 0 <= i <= n && from[i].window == TEMPLATE && (from[i].control == TEMPLATE || from[i].control == window);
      assert i < n ==> from[..n][i] == from[i];
    }
  }

  lemma {:induction false} CloneMatchesAppend(
      tree: ControlTree, clones: seq<ClonedWindow>, clone: ClonedWindow, id: string)
    ensures forall w :: (w in CloneMatches(tree, clones + [clone], id) <==>
      w in CloneMatches(tree, clones, id)
      || (w == clone.destination && Addressable(tree, clone.source, SourceControl(clone, id)).Some?))
  {
    if clones == [] {
      assert [] + [clone] == [clone] && [clone][1..] == [];
    } else {
      CloneMatchesAppend(tree, clones[1..], clone, id);
      assert (clones + [clone])[1..] == clones[1..] + [clone];
    }
  }

  lemma ClonedMatches(ui: Ui, window: string)
    ensures forall w :: (w in Matches(CloneWindow(ui, TEMPLATE, window), window)
      <==> w in Rivals(ui, window) || (w == window && Answers(ui, window)))
  {
    CopyMatches(ui.overrides, ui.overrides, window);
    CloneMatchesAppend(ui.tree, Without(ui.clones, window), ClonedWindow(TEMPLATE, window), window);
    hide OverrideMatches, CloneMatches, TreeMatches, CopyOverrides, Without, Lands;
  }

  /** Whether all entries agree depends on which entries there are, not on how often. */
  lemma SameMembership(a: seq<string>, b: seq<string>)
    requires forall w :: w in a <==> w in b
    ensures (a == []) == (b == []) && AllSame(a) == AllSame(b)
  {
    if a != [] {
      assert a[0] in b;
    }
    if b != [] {
      assert b[0] in a;
    }
    SameMembers(a);
    SameMembers(b);
  }

  /** The cloned bare name resolves exactly when it has one meaning. */
  lemma BareSettlesIff(ui: Ui, window: string)
    requires !Dotted(window) && Selected(ui.tree, window).None?
    ensures Resolve(CloneWindow(ui, TEMPLATE, window), window).Success? <==> Settles(ui, window)
  {
    ClonedMatches(ui, window);
    SameMembership(Matches(CloneWindow(ui, TEMPLATE, window), window),
                   Rivals(ui, window) + if Answers(ui, window) then [window] else []);
    hide Matches, Rivals, Answers;
  }

  // ---- dotted names ----

  lemma {:induction false} SplitJoins(s: string, at: char)
    requires SplitOnce(s, at).Some?
    ensures var parts := SplitOnce(s, at).value; s == parts.0 + [at] + parts.1 && at !in parts.0
  {
    if s[0] != at {
      SplitJoins(s[1..], at);
      assert s == [s[0]] + s[1..];
    }
  }

  lemma {:induction false} OtherCloneKept(clones: seq<ClonedWindow>, clone: ClonedWindow, window: string)
    requires window != clone.destination
    ensures CloneOf(Without(clones, clone.destination) + [clone], window) == CloneOf(clones, window)
  {
    var rest := Without(clones, clone.destination) + [clone];
    if clones == [] {
      assert rest == [clone] && [clone][1..] == [];
    } else {
      OtherCloneKept(clones[1..], clone, window);
      if clones[0].destination != clone.destination {
        assert rest == [clones[0]] + (Without(clones[1..], clone.destination) + [clone]);
        assert rest[1..] == Without(clones[1..], clone.destination) + [clone];
      }
    }
  }

  lemma StoreElsewhere(
      overrides: seq<ControlOverride>, key: Key, properties: seq<Assignment>, window: string, control: string)
    requires !Names(key.window, window)
    ensures Overridden(Store(overrides, key, properties), window, control) == Overridden(overrides, window, control)
  {
    if Position(overrides, key) < |overrides| {
      SameKeysSameMatches(overrides, Store(overrides, key, properties), window, control);
    } else {
      OverriddenAppend(overrides, ControlOverride(key.window, key.control, properties), window, control);
    }
  }

  lemma {:induction false} CopyElsewhere(into: seq<ControlOverride>, from: seq<ControlOverride>, destination: string,
                                         window: string, control: string)
    requires !Names(destination, window)
    ensures Overridden(CopyOverrides(into, from, TEMPLATE, destination), window, control)
        == Overridden(into, window, control)
  {
    hide Store, Overridden, Names;
    if from != [] {
      var n := |from| - 1;
      CopyElsewhere(into, from[..n], destination, window, control);
      if from[n].window == TEMPLATE {
        StoreElsewhere(CopyOverrides(into, from[..n], TEMPLATE, destination),
                       Landed(TEMPLATE, destination, from[n].control), from[n].properties, window, control);
      }
    }
  }

  lemma DottedIsNoSection(window: string, control: string)
    requires '.' !in window
    ensures !Names(window + "." + control, window)
  {
    var address := window + "." + control;
    assert address[|window|] == '.';
    assert '.' in address;
    assert '.' !in "macro:" + window && '.' !in "menu:" + window;
  }

  /** A dotted name means after the clone what it meant before. */
  lemma DottedKeepsMeaning(ui: Ui, window: string)
    requires Dotted(window)
    ensures Resolve(CloneWindow(ui, TEMPLATE, window), window) == Resolve(ui, window)
  {
    var (outer, inner) := SplitOnce(window, '.').value;
    SplitJoins(window, '.');
    assert window == outer + "." + inner;
    DottedIsNoSection(outer, inner);
    OtherCloneKept(ui.clones, ClonedWindow(TEMPLATE, window), outer);
    CopyElsewhere(ui.overrides, ui.overrides, window, outer, inner);
    hide CopyOverrides, Without, Overridden;
  }

  // ---- exactly when the window is refused, and what is left behind ----

  /** The name will not settle on one control. */
  predicate Unsettled(ui: Ui, window: string) {
    Dotted(window) || !Settles(ui, window)
  }

  /** For a name nothing answers to yet, the outcome and everything it leaves, from the state before. */
  lemma EnsureBrowserIff(ui: Ui, window: string)
    requires window != "" && Resolve(ui, window).Failure?
    ensures var (after, error) := EnsureBrowser(ui, window);
      && (error.Some? <==> !HasTemplate(ui) || Unsettled(ui, window))
      && (error.Some? ==> after == if HasTemplate(ui) then CloneWindow(ui, TEMPLATE, window) else ui)
  {
    if HasTemplate(ui) {
      SettingsAcceptedIff(CloneWindow(ui, TEMPLATE, window), window);
      if Dotted(window) {
        DottedKeepsMeaning(ui, window);
      } else {
        BareSettlesIff(ui, window);
      }
    }
    hide Winset, CloneWindow, Settles, Dotted, HasTemplate;
  }

  /** A window that was granted answers to its name and is a browser. */
  lemma GrantedIsBrowser(ui: Ui, window: string)
    requires Kept(ui) && window != "" && Resolve(ui, window).Failure? && EnsureBrowser(ui, window).1.None?
    ensures Winget(EnsureBrowser(ui, window).0, window, "type") == Success("BROWSER")
    ensures Winget(EnsureBrowser(ui, window).0, window, "is-visible") == Success("true")
    ensures Winget(EnsureBrowser(ui, window).0, window, "pos") == Success("0,0")
  {
    SettingIsRead(ui, window, 0);
    SettingIsRead(ui, window, 1);
    SettingIsRead(ui, window, 2);
  }

  lemma SettingIsRead(ui: Ui, window: string, i: nat)
    requires Kept(ui) && window != "" && Resolve(ui, window).Failure? && EnsureBrowser(ui, window).1.None?
    requires i < |SETTINGS|
    ensures Winget(EnsureBrowser(ui, window).0, window, SETTINGS[i].name) == Success(SETTINGS[i].value)
  {
    var cloned := Winclone(ui, TEMPLATE, window).value;
    WincloneKeeps(ui, TEMPLATE, window);
    SettingsParse();
    WingetReadsWinset(cloned, window, SETTINGS_TEXT, SETTINGS[i].name);
    LastAssigned(SETTINGS, i);
  }

  /** What counts as a browser: the runtime type unless it is blank, in any casing, and then the skin's. */
  lemma IsBrowserIff(ui: Ui, address: string)
    ensures Resolve(ui, address).Failure? ==> !IsBrowser(ui, address)
    ensures Resolve(ui, address).Success? ==>
      var key := Resolve(ui, address).value;
      var runtime := ValueAt(ui, key, "type");
      && (Trim(runtime) != "" ==> (IsBrowser(ui, address) <==> Alike(runtime, "browser")))
      && (Trim(runtime) == "" ==> (IsBrowser(ui, address) <==>
            SkinControl(ui, key).Some? && SkinControl(ui, key).value.kind == BrowserType))
  {
    hide Resolve, ValueAt, SkinControl, Trim, Alike;
    if Resolve(ui, address).Success? {
      BrowserIff(ValueAt(ui, Resolve(ui, address).value, "type"));
    }
  }

  lemma BrowserIff(kind: string)
    ensures SameName(kind, "BROWSER") <==> Alike(kind, "browser")
  {
    SameNameIff(kind, "browser");
    assert Lower("BROWSER") == "browser" == Lower("browser");
  }

  /** The template is the window or section with this very id. */
  lemma TemplateIs(ui: Ui)
    ensures HasTemplate(ui) <==> exists w :: w in ui.tree.windows + ui.tree.auxiliary && w.id == "popupwindow"
  {
    WindowFound(ui.tree.windows + ui.tree.auxiliary, TEMPLATE);
  }

  lemma {:induction false} WindowFound(windows: seq<Window>, id: string)
    ensures WindowWithId(windows, id).Some? <==> exists w :: w in windows && w.id == id
  {
    if windows != [] {
      WindowFound(windows[1..], id);
      assert forall w :: w in windows <==> w == windows[0] || w in windows[1..];
    }
  }

  /** A refused request that changed the state: the clone stays although the window was refused. */
  predicate LeavesClone(ui: Ui, window: string) {
    && window != ""
    && Resolve(ui, window).Failure?
    && HasTemplate(ui)
    && Unsettled(ui, window)
    && CloneWindow(ui, TEMPLATE, window) != ui
  }

  /** With the popup template, every unresolved dotted name is refused after the clone was made, and the clone stays. */
  lemma RefusedBrowseLeavesClone(ui: Ui, window: string)
    requires HasTemplate(ui) && Dotted(window) && Resolve(ui, window).Failure? && CloneOf(ui.clones, window).None?
    ensures var (after, error) := EnsureBrowser(ui, window);
      && error.Some? && CloneOf(after.clones, window) == Some(ClonedWindow(TEMPLATE, window))
      && after != ui && LeavesClone(ui, window)
  {
    assert window != "";
    EnsureBrowserIff(ui, window);
    NewCloneIsFound(ui.clones, TEMPLATE, window);
  }

  /** A bare name that means nothing is refused exactly when neither the template nor its runtime state answers. */
  lemma UnknownNameIff(ui: Ui, window: string)
    requires HasTemplate(ui) && window != "" && !Dotted(window) &&
        Resolve(ui, window) == Failure(UnknownControl(window))
    ensures EnsureBrowser(ui, window).1.Some? <==> !Answers(ui, window)
  {
    EnsureBrowserIff(ui, window);
    NoRivals(ui, window);
    hide EnsureBrowser, Rivals, Answers, HasTemplate, Dotted, Resolve;
  }

  lemma NoRivals(ui: Ui, window: string)
    requires Matches(ui, window) == []
    ensures Rivals(ui, window) == []
  {
    FewerClones(ui.tree, ui.clones, window, window);
    var tree, held := TreeMatches(ui.tree.windows + ui.tree.auxiliary, window), OverrideMatches(ui.overrides, window);
    var cloned := CloneMatches(ui.tree, ui.clones, window);
    assert |Matches(ui, window)| == |tree| + |held| + |cloned|;
    NoneOf(CloneMatches(ui.tree, Without(ui.clones, window), window), cloned);
  }

  lemma NoneOf(a: seq<string>, b: seq<string>)
    requires forall w :: w in a ==> w in b
    ensures b == [] ==> a == []
  {
    if a != [] {
      assert a[0] in b;
    }
  }

  lemma {:induction false} FewerClones(tree: ControlTree, clones: seq<ClonedWindow>, destination: string, id: string)
    ensures forall w :: w in CloneMatches(tree, Without(clones, destination), id) ==>
        w in CloneMatches(tree, clones, id)
    ensures forall w :: w in CloneMatches(tree, clones, id) && w != destination ==>
      w in CloneMatches(tree, Without(clones, destination), id)
  {
    if clones != [] {
      FewerClones(tree, clones[1..], destination, id);
      var rest := Without(clones[1..], destination);
      assert ([clones[0]] + rest)[1..] == rest;
    }
  }

  /** A name that is ambiguous stays so when the clone answers to it, and is refused. */
  lemma AmbiguousNameIsRefused(ui: Ui, window: string)
    requires HasTemplate(ui) && window != "" && !Dotted(window) &&
        Resolve(ui, window) == Failure(AmbiguousControl(window))
    requires Answers(ui, window)
    ensures EnsureBrowser(ui, window).1.Some?
  {
    EnsureBrowserIff(ui, window);
    FewerClones(ui.tree, ui.clones, window, window);
    var matches, meanings := Matches(ui, window), Rivals(ui, window) + [window];
    var i :| 0 <= i < |matches| && matches[i] != matches[0];
    var other := if matches[0] != window then matches[0] else matches[i];
    assert other in matches && other != window;
    assert other in Rivals(ui, window);
    SameMembers(meanings);
    assert other in meanings && window in meanings;
  }

  // ---- a refused window is refused again ----

  lemma StoreLands(overrides: seq<ControlOverride>, key: Key, properties: seq<Assignment>, window: string)
    ensures Lands(Store(overrides, key, properties), window)
       <==> Lands(overrides, window) || (key.window == TEMPLATE && (key.control == TEMPLATE || key.control == window))
  {
    var i, after := Position(overrides, key), Store(overrides, key, properties);
    if i < |overrides| {
      SameKeysLand(overrides, after, window);
      SameKeysLand(after, overrides, window);
      assert Is(overrides[i], key);
    } else {
      LandsStep(after, window);
      assert after[..|overrides|] == overrides;
    }
  }

  lemma SameKeysLand(a: seq<ControlOverride>, b: seq<ControlOverride>, window: string)
    requires |a| == |b| && forall i :: 0 <= i < |a| ==> a[i].window == b[i].window && a[i].control == b[i].control
    ensures Lands(a, window) ==> Lands(b, window)
  {
    if Lands(a, window) {
      var i :| 0 <= i < |a| && a[i].window == TEMPLATE && (a[i].control == TEMPLATE || a[i].control == window);
      assert b[i].window == TEMPLATE;
    }
  }

  lemma {:induction false} CopyLands(into: seq<ControlOverride>, from: seq<ControlOverride>, window: string)
    ensures Lands(into, window) ==> Lands(CopyOverrides(into, from, TEMPLATE, window), window)
    ensures Lands(CopyOverrides(into, from, TEMPLATE, window), window) ==> Lands(into, window) || Lands(from, window)
  {
    if from != [] {
      var n := |from| - 1;
      CopyLands(into, from[..n], window);
      LandsStep(from, window);
      if from[n].window == TEMPLATE {
        StoreLands(CopyOverrides(into, from[..n], TEMPLATE, window),
                   Landed(TEMPLATE, window, from[n].control), from[n].properties, window);
      }
      hide Lands, Store;
    }
  }

  lemma {:induction false} WithoutTwice(clones: seq<ClonedWindow>, clone: ClonedWindow)
    ensures Without(Without(clones, clone.destination) + [clone], clone.destination)
        == Without(clones, clone.destination)
  {
    if clones == [] {
      assert [] + [clone] == [clone] && [clone][1..] == [];
    } else {
      WithoutTwice(clones[1..], clone);
      var rest := Without(clones[1..], clone.destination);
      if clones[0].destination != clone.destination {
        assert ([clones[0]] + rest) + [clone] == [clones[0]] + (rest + [clone]);
        assert ([clones[0]] + (rest + [clone]))[1..] == rest + [clone];
      }
    }
  }

  lemma ClonedRivals(ui: Ui, window: string)
    ensures var cloned := CloneWindow(ui, TEMPLATE, window);
      && (Answers(cloned, window) <==> Answers(ui, window))
      && (forall w :: w in Rivals(cloned, window)
            <==> w in Rivals(ui, window) || (w == window && Lands(ui.overrides, window)))
  {
    CopyMatches(ui.overrides, ui.overrides, window);
    CopyLands(ui.overrides, ui.overrides, window);
    WithoutTwice(ui.clones, ClonedWindow(TEMPLATE, window));
    hide OverrideMatches, CloneMatches, TreeMatches, CopyOverrides, Without, Lands, Addressable;
  }

  lemma SettlesAgain(ui: Ui, window: string)
    ensures Settles(CloneWindow(ui, TEMPLATE, window), window) <==> Settles(ui, window)
  {
    var cloned := CloneWindow(ui, TEMPLATE, window);
    ClonedRivals(ui, window);
    AnswerLands(ui, window);
    SameMembership(Rivals(cloned, window) + if Answers(cloned, window) then [window] else [],
                   Rivals(ui, window) + if Answers(ui, window) then [window] else []);
    hide Rivals, Answers, Lands, CloneWindow;
  }

  lemma AnswerLands(ui: Ui, window: string)
    ensures Lands(ui.overrides, window) ==> Answers(ui, window)
  {
  }

  /** Whatever a refused request leaves behind, the same request is refused again. */
  lemma RefusedAgain(ui: Ui, window: string)
    requires window != "" && Resolve(ui, window).Failure? && EnsureBrowser(ui, window).1.Some?
    ensures var after := EnsureBrowser(ui, window).0;
      Resolve(after, window).Failure? && EnsureBrowser(after, window).1.Some?
  {
    EnsureBrowserIff(ui, window);
    if HasTemplate(ui) {
      var cloned := CloneWindow(ui, TEMPLATE, window);
      StillUnresolved(ui, window);
      SettlesAgain(ui, window);
      EnsureBrowserIff(cloned, window);
    }
    hide EnsureBrowser, Settles, Resolve, Dotted;
  }

  lemma StillUnresolved(ui: Ui, window: string)
    requires HasTemplate(ui) && window != "" && Resolve(ui, window).Failure? && Unsettled(ui, window)
    ensures Resolve(CloneWindow(ui, TEMPLATE, window), window).Failure?
  {
    if Dotted(window) {
      DottedKeepsMeaning(ui, window);
    } else {
      BareSettlesIff(ui, window);
    }
    hide Settles, CloneWindow, HasTemplate, ResolveBare, ResolvePair;
  }
}
