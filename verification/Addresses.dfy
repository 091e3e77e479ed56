/**
  What an address means, in terms of the windows that have such a control
  (crates/dm-dmf/src/lib.rs:321-352, 990-1063, 1080-1095).
 */
module Addresses {
  import opened Wrappers
  import opened Strings
  import opened ControlTrees
  import opened Assignments
  import opened UiStates
  import opened UiNames

  // ---- the skin's controls ----

  ghost predicate Has(window: Window, id: string) {
    exists c :: c in window.controls && c.id == Some(id)
  }

  ghost predicate FirstControl(controls: seq<Control>, id: string, i: int) {
    0 <= i < |controls| && controls[i].id == Some(id) && forall j :: 0 <= j < i ==> controls[j].id != Some(id)
  }

  lemma {:induction false} ControlNamedIff(controls: seq<Control>, id: string)
    ensures match ControlNamed(controls, id)
      case Some(c) => exists i :: FirstControl(controls, id, i) && controls[i] == c
      case None => forall c :: c in controls ==> c.id != Some(id)
  {
    if controls != [] {
      if controls[0].id == Some(id) {
        assert FirstControl(controls, id, 0);
      } else {
        ControlNamedIff(controls[1..], id);
        if ControlNamed(controls, id).Some? {
          var i :| FirstControl(controls[1..], id, i) && controls[1..][i] == ControlNamed(controls, id).value;
          assert FirstControl(controls, id, i + 1);
        }
      }
    }
  }

  /** The first window of an id. */
  ghost predicate FirstWindow(windows: seq<Window>, id: string, i: int) {
    0 <= i < |windows| && windows[i].id == id && forall j :: 0 <= j < i ==> windows[j].id != id
  }

  lemma {:induction false} WindowWithIdIff(windows: seq<Window>, id: string)
    ensures match WindowWithId(windows, id)
      case Some(w) => exists i :: FirstWindow(windows, id, i) && windows[i] == w
      case None => forall w :: w in windows ==> w.id != id
  {
    if windows != [] {
      if windows[0].id == id {
        assert FirstWindow(windows, id, 0);
      } else {
        WindowWithIdIff(windows[1..], id);
        if WindowWithId(windows, id).Some? {
          var i :| FirstWindow(windows[1..], id, i) && windows[1..][i] == WindowWithId(windows, id).value;
          assert FirstWindow(windows, id, i + 1);
        }
      }
    }
  }

  /** `macro:` and `menu:` sections also answer to what follows the prefix. */
  predicate Answers(id: string, namespace: string) {
    || id == namespace
    || (|id| == 6 + |namespace| && id[..6] == "macro:" && id[6..] == namespace)
    || (|id| == 5 + |namespace| && id[..5] == "menu:" && id[5..] == namespace)
  }

  lemma AnswersIff(id: string, namespace: string)
    ensures Names(id, namespace) <==> Answers(id, namespace)
  {
    assert id == "macro:" + namespace <==> |id| == 6 + |namespace| && id[..6] == "macro:" && id[6..] == namespace by {
      assert |id| >= 6 ==> id == id[..6] + id[6..];
    }
    assert id == "menu:" + namespace <==> |id| == 5 + |namespace| && id[..5] == "menu:" && id[5..] == namespace by {
      assert |id| >= 5 ==> id == id[..5] + id[5..];
    }
  }

  ghost predicate FirstSection(sections: seq<Window>, namespace: string, i: int) {
    0 <= i < |sections| && Answers(sections[i].id, namespace) &&
    forall j :: 0 <= j < i ==> !Answers(sections[j].id, namespace)
  }

  lemma {:induction false} SectionIff(sections: seq<Window>, namespace: string)
    ensures match Section(sections, namespace)
      case Some(s) => exists i :: FirstSection(sections, namespace, i) && sections[i] == s
      case None => forall s :: s in sections ==> !Answers(s.id, namespace)
  {
    if sections != [] {
      hide Answers, Names;
      AnswersIff(sections[0].id, namespace);
      if Names(sections[0].id, namespace) {
        assert FirstSection(sections, namespace, 0);
      } else {
        SectionIff(sections[1..], namespace);
        if Section(sections, namespace).Some? {
          var i :| FirstSection(sections[1..], namespace, i) && sections[1..][i] == Section(sections, namespace).value;
          assert FirstSection(sections, namespace, i + 1);
        }
      }
    }
  }

  /** The first window of that id has the control, or the first section that answers to it. */
  ghost predicate InSkin(tree: ControlTree, namespace: string, id: string) {
    || (exists i :: FirstWindow(tree.windows, namespace, i) && Has(tree.windows[i], id))
    || (exists i :: FirstSection(tree.auxiliary, namespace, i) && Has(tree.auxiliary[i], id))
  }

  lemma InSkinIff(tree: ControlTree, namespace: string, id: string)
    ensures Addressable(tree, namespace, id).Some? <==> InSkin(tree, namespace, id)
  {
    hide FirstWindow, FirstSection;
    WindowWithIdIff(tree.windows, namespace);
    SectionIff(tree.auxiliary, namespace);
    var window, section := WindowWithId(tree.windows, namespace), Section(tree.auxiliary, namespace);
    if window.Some? {
      HasIff(window.value, id);
    }
    if section.Some? {
      HasIff(section.value, id);
    }
    OnlyFirst(tree, namespace);
  }

  lemma HasIff(window: Window, id: string)
    ensures ControlNamed(window.controls, id).Some? <==> Has(window, id)
  {
    ControlNamedIff(window.controls, id);
  }

  lemma OnlyFirst(tree: ControlTree, namespace: string)
    ensures forall i, j :: FirstWindow(tree.windows, namespace, i) && FirstWindow(tree.windows, namespace, j) ==> i == j
    ensures forall i, j ::
      FirstSection(tree.auxiliary, namespace, i) && FirstSection(tree.auxiliary, namespace, j) ==> i == j
    ensures WindowWithId(tree.windows, namespace).None? ==> forall i :: !FirstWindow(tree.windows, namespace, i)
    ensures Section(tree.auxiliary, namespace).None? ==> forall i :: !FirstSection(tree.auxiliary, namespace, i)
  {
    WindowWithIdIff(tree.windows, namespace);
    SectionIff(tree.auxiliary, namespace);
  }

  // ---- bare addresses ----

  /** Some window of the skin, some runtime assignment or some clone puts a control of this id into `window`. */
  ghost predicate Hosts(ui: Ui, window: string, id: string) {
    || (exists w :: w in ui.tree.windows + ui.tree.auxiliary && w.id == window && Has(w, id))
    || (exists o :: o in ui.overrides && o.window == window && o.control == id)
    || (exists c :: c in ui.clones && c.destination == window &&
          InSkin(ui.tree, c.source, if id == c.destination then c.source else id))
  }

  lemma {:induction false} TreeMatchesIff(windows: seq<Window>, id: string, window: string)
    ensures window in TreeMatches(windows, id) <==> exists w :: w in windows && w.id == window && Has(w, id)
  {
    if windows != [] {
      hide Has;
      HasIff(windows[0], id);
      TreeMatchesIff(windows[1..], id, window);
      assert forall w :: w in windows <==> w == windows[0] || w in windows[1..];
    }
  }

  lemma {:induction false} OverrideMatchesIff(overrides: seq<ControlOverride>, id: string, window: string)
    ensures window in OverrideMatches(overrides, id) <==>
        exists o :: o in overrides && o.window == window && o.control == id
  {
    if overrides != [] {
      var n := |overrides| - 1;
      OverrideMatchesIff(overrides[..n], id, window);
      assert forall o :: o in overrides <==> o == overrides[n] || o in overrides[..n];
    }
  }

  lemma {:induction false} CloneMatchesIff(tree: ControlTree, clones: seq<ClonedWindow>, id: string, window: string)
    ensures window in CloneMatches(tree, clones, id) <==>
        exists c :: c in clones && c.destination == window &&
          InSkin(tree, c.source, if id == c.destination then c.source else id)
  {
    if clones != [] {
      hide InSkin;
      InSkinIff(tree, clones[0].source, SourceControl(clones[0], id));
      CloneMatchesIff(tree, clones[1..], id, window);
      assert forall c :: c in clones <==> c == clones[0] || c in clones[1..];
    }
  }

  lemma HostsIff(ui: Ui, window: string, id: string)
    ensures window in Matches(ui, id) <==> Hosts(ui, window, id)
  {
    hide Has, InSkin;
    TreeMatchesIff(ui.tree.windows + ui.tree.auxiliary, id, window);
    OverrideMatchesIff(ui.overrides, id, window);
    CloneMatchesIff(ui.tree, ui.clones, id, window);
  }

  /** A bare id means the one window that hosts it; it is unknown when none does and ambiguous when several do. */
  lemma BareMeans(ui: Ui, address: string)
    requires '.' !in address && Selected(ui.tree, address).None?
    ensures match Resolve(ui, address)
      case Success(key) =>
        key.control == address && forall w :: Hosts(ui, w, address) <==> w == key.window
      case Failure(UnknownControl(a)) => a == address && forall w :: !Hosts(ui, w, address)
      case Failure(AmbiguousControl(a)) =>
        a == address && exists v, w :: Hosts(ui, v, address) && Hosts(ui, w, address) && v != w
      case Failure(BadAssignment(_)) => false
  {
    hide Hosts, Matches, Selected;
    NoSplit(address, '.');
    var matches := Matches(ui, address);
    forall w
      ensures w in matches <==> Hosts(ui, w, address)
    {
      HostsIff(ui, w, address);
    }
    if matches != [] {
      SameMembers(matches);
      assert matches[0] in matches;
    }
  }

  lemma {:induction false} NoSplit(s: string, at: char)
    requires at !in s
    ensures SplitOnce(s, at).None?
  {
    if s != "" {
      NoSplit(s[1..], at);
    }
  }

  // ---- pairs ----

  ghost predicate FirstClone(clones: seq<ClonedWindow>, destination: string, i: int) {
    0 <= i < |clones| && clones[i].destination == destination &&
    forall j :: 0 <= j < i ==> clones[j].destination != destination
  }

  lemma {:induction false} CloneOfIff(clones: seq<ClonedWindow>, destination: string)
    ensures match CloneOf(clones, destination)
      case Some(c) => exists i :: FirstClone(clones, destination, i) && clones[i] == c
      case None => forall c :: c in clones ==> c.destination != destination
  {
    if clones != [] {
      if clones[0].destination == destination {
        assert FirstClone(clones, destination, 0);
      } else {
        CloneOfIff(clones[1..], destination);
        if CloneOf(clones, destination).Some? {
          var i :| FirstClone(clones[1..], destination, i) && clones[1..][i] == CloneOf(clones, destination).value;
          assert FirstClone(clones, destination, i + 1);
        }
      }
    }
  }

  predicate Meets(o: ControlOverride, window: string, control: string) {
    Answers(o.window, window) && o.control == control
  }

  ghost predicate FirstMeeting(overrides: seq<ControlOverride>, window: string, control: string, i: int) {
    0 <= i < |overrides| && Meets(overrides[i], window, control) &&
    forall j :: 0 <= j < i ==> !Meets(overrides[j], window, control)
  }

  lemma {:induction false} OverriddenIff(overrides: seq<ControlOverride>, window: string, control: string)
    ensures match Overridden(overrides, window, control)
      case Some(w) => exists i :: FirstMeeting(overrides, window, control, i) && overrides[i].window == w
      case None => forall o :: o in overrides ==> !Meets(o, window, control)
  {
    if overrides != [] {
      hide Answers, Names;
      var n := |overrides| - 1;
      OverriddenIff(overrides[..n], window, control);
      AnswersIff(overrides[n].window, window);
      var earlier := Overridden(overrides[..n], window, control);
      if earlier.Some? {
        var i :| FirstMeeting(overrides[..n], window, control, i) && overrides[..n][i].window == earlier.value;
        assert FirstMeeting(overrides, window, control, i);
      } else if Overridden(overrides, window, control).Some? {
        assert forall j :: 0 <= j < n ==> overrides[j] in overrides[..n];
        assert FirstMeeting(overrides, window, control, n);
      } else {
        assert forall o :: o in overrides <==> o == overrides[n] || o in overrides[..n];
      }
    }
  }

  /** The first clone named `window` shows the control. */
  ghost predicate Cloned(ui: Ui, window: string, control: string) {
    exists i :: FirstClone(ui.clones, window, i) &&
      InSkin(ui.tree, ui.clones[i].source, if control == window then ui.clones[i].source else control)
  }

  /** A pair means a clone's control, then the first runtime assignment it fits, then the skin's control. */
  lemma PairMeans(ui: Ui, window: string, control: string)
    requires '.' !in window && Selected(ui.tree, window + "." + control).None?
    ensures Cloned(ui, window, control) ==> Resolve(ui, window + "." + control) == Success(Key(window, control))
    ensures !Cloned(ui, window, control) ==>
      forall i :: FirstMeeting(ui.overrides, window, control, i) ==>
        Resolve(ui, window + "." + control) == Success(Key(ui.overrides[i].window, control))
    ensures !Cloned(ui, window, control) && (forall o :: o in ui.overrides ==> !Meets(o, window, control)) ==>
      Resolve(ui, window + "." + control) ==
      if InSkin(ui.tree, window, control) then Success(Key(window, control))
      else Failure(UnknownControl(window + "." + control))
  {
    hide Selected, InSkin, Meets, Addressable;
    SplitJoined(window, '.', control);
    CloneOfIff(ui.clones, window);
    OverriddenIff(ui.overrides, window, control);
    InSkinIff(ui.tree, window, control);
    var clone := CloneOf(ui.clones, window);
    if clone.Some? {
      InSkinIff(ui.tree, clone.value.source, if control == window then clone.value.source else control);
    }
    assert Cloned(ui, window, control) <==> InClone(ui, window, control);
  }

  // ---- values ----

  ghost predicate WindowShows(tree: ControlTree, namespace: string, id: string, control: Control, i: int, k: int) {
    && FirstWindow(tree.windows, namespace, i)
    && FirstControl(tree.windows[i].controls, id, k) && tree.windows[i].controls[k] == control
  }

  ghost predicate SectionShows(tree: ControlTree, namespace: string, id: string, control: Control, i: int, k: int) {
    && FirstSection(tree.auxiliary, namespace, i)
    && FirstControl(tree.auxiliary[i].controls, id, k) && tree.auxiliary[i].controls[k] == control
  }

  /** The control of the skin itself that is meant: the window's, or else the section's. */
  ghost predicate SkinShows(tree: ControlTree, namespace: string, id: string, control: Control) {
    || (exists i, k :: WindowShows(tree, namespace, id, control, i, k))
    || ((forall i :: FirstWindow(tree.windows, namespace, i) ==> !Has(tree.windows[i], id)) &&
          exists i, k :: SectionShows(tree, namespace, id, control, i, k))
  }

  lemma FirstNamed(controls: seq<Control>, id: string, k: int)
    requires FirstControl(controls, id, k)
    ensures ControlNamed(controls, id) == Some(controls[k])
  {
    ControlNamedIff(controls, id);
    assert controls[k] in controls;
  }

  lemma AddressableIs(tree: ControlTree, namespace: string, id: string, control: Control)
    requires SkinShows(tree, namespace, id, control)
    ensures Addressable(tree, namespace, id) == Some(control)
  {
    WindowWithIdIff(tree.windows, namespace);
    SectionIff(tree.auxiliary, namespace);
    OnlyFirst(tree, namespace);
    hide FirstControl, Has, Answers;
    if i, k :| WindowShows(tree, namespace, id, control, i, k) {
      FirstNamed(tree.windows[i].controls, id, k);
    } else {
      if WindowWithId(tree.windows, namespace).Some? {
        HasIff(WindowWithId(tree.windows, namespace).value, id);
      }
      var i, k :| SectionShows(tree, namespace, id, control, i, k);
      FirstNamed(tree.auxiliary[i].controls, id, k);
    }
  }

  ghost predicate FirstOverride(overrides: seq<ControlOverride>, key: Key, i: int) {
    0 <= i < |overrides| && overrides[i].window == key.window && overrides[i].control == key.control &&
    forall j :: 0 <= j < i ==> overrides[j].window != key.window || overrides[j].control != key.control
  }

  lemma OverrideIs(overrides: seq<ControlOverride>, key: Key)
    ensures forall i :: FirstOverride(overrides, key, i) ==> OverrideAt(overrides, key) == overrides[i].properties
    ensures (forall i :: !FirstOverride(overrides, key, i)) ==> OverrideAt(overrides, key) == []
  {
    var p := Position(overrides, key);
    assert p < |overrides| ==> FirstOverride(overrides, key, p);
  }

  /** The last runtime value of a name, in any casing, is the one read. */
  lemma ReadsRuntime(ui: Ui, key: Key, name: string, i: int, k: int)
    requires FirstOverride(ui.overrides, key, i)
    requires LastAlike(AssignedNames(ui.overrides[i].properties), name, k)
    ensures ValueAt(ui, key, name) == ui.overrides[i].properties[k].value
  {
    hide LastAlike;
    OverrideIs(ui.overrides, key);
    AssignedAt(ui.overrides[i].properties, name, k);
  }

  /** Without one, the last value the skin declares, for a clone that of its source; otherwise the empty text. */
  lemma ReadsSkin(ui: Ui, key: Key, name: string, namespace: string, id: string, control: Control)
    requires forall i :: FirstOverride(ui.overrides, key, i) ==>
      forall a :: a in ui.overrides[i].properties ==> !Alike(a.name, name)
    requires forall i :: FirstClone(ui.clones, key.window, i) ==>
      && namespace == ui.clones[i].source
      && id == if key.control == ui.clones[i].destination then ui.clones[i].source else key.control
    requires (forall i :: !FirstClone(ui.clones, key.window, i)) ==> namespace == key.window && id == key.control
    requires SkinShows(ui.tree, namespace, id, control)
    ensures forall k :: LastAlike(DeclaredNames(control.properties), name, k) ==>
        ValueAt(ui, key, name) == control.properties[k].value
    ensures (forall p :: p in control.properties ==> !Alike(p.key, name)) ==> ValueAt(ui, key, name) == ""
  {
    AssignedIff(OverrideAt(ui.overrides, key), name);
    OverrideIs(ui.overrides, key);
    CloneOfIff(ui.clones, key.window);
    DeclaredIff(control.properties, name);
    AddressableIs(ui.tree, namespace, id, control);
    hide Alike, SkinShows, FirstOverride, Addressable;
  }

  // ---- creation ----

  predicate FirstAlike(names: seq<string>, name: string, i: int) {
    0 <= i < |names| && Alike(names[i], name) && forall j :: 0 <= j < i ==> !Alike(names[j], name)
  }

  lemma {:induction false} FirstParentIs(assignments: seq<Assignment>)
    ensures forall i :: FirstAlike(AssignedNames(assignments), "parent", i) ==>
        FirstParent(assignments) == assignments[i].value
    ensures (forall a :: a in assignments ==> !Alike(a.name, "parent")) ==> FirstParent(assignments) == ""
  {
    if assignments != [] {
      FirstParentIs(assignments[1..]);
      SameNameIff(assignments[0].name, "parent");
      hide Alike;
      assert AssignedNames(assignments)[1..] == AssignedNames(assignments[1..]);
      assert AssignedNames(assignments)[0] == assignments[0].name;
      forall i | FirstAlike(AssignedNames(assignments), "parent", i)
        ensures FirstParent(assignments) == assignments[i].value
      {
        if i > 0 {
          assert FirstAlike(AssignedNames(assignments[1..]), "parent", i - 1);
        }
      }
    }
  }

  /**
    An unknown bare address is created in the window or section its first `parent` names, or in the window of the
    control it names; without one the write is refused.
   */
  lemma CreatedUnder(ui: Ui, address: string, assignments: seq<Assignment>, parent: string)
    requires Resolve(ui, address) == Failure(UnknownControl(address)) && '.' !in address && address != ""
    requires
      || (exists i :: FirstAlike(AssignedNames(assignments), "parent", i) && assignments[i].value == parent)
      || (parent == "" && forall a :: a in assignments ==> !Alike(a.name, "parent"))
    ensures var sections := ui.tree.windows + ui.tree.auxiliary;
      && (parent == "" ==> Target(ui, address, assignments) == Failure(UnknownControl(address)))
      && (parent != "" ==>
            && (forall i :: FirstSection(sections, parent, i) ==>
                  Target(ui, address, assignments) == Success(Key(sections[i].id, address)))
            && ((forall s :: s in sections ==> !Answers(s.id, parent)) ==>
                  Target(ui, address, assignments) ==
                  match Resolve(ui, parent)
                  case Success(key) => Success(Key(key.window, address))
                  case Failure(_) => Failure(UnknownControl(parent))))
  {
    hide Resolve, Answers, Alike;
    NoSplit(address, '.');
    FirstParentIs(assignments);
    SectionIff(ui.tree.windows + ui.tree.auxiliary, parent);
  }

  /** An unknown pair is created where its first `parent` is a window or section, and only in that very one. */
  lemma CreatedPair(ui: Ui, window: string, control: string, assignments: seq<Assignment>, k: int, i: int, home: string)
    requires var address := window + "." + control; Resolve(ui, address) == Failure(UnknownControl(address))
    requires '.' !in window && FirstAlike(AssignedNames(assignments), "parent", k) && assignments[k].value != ""
    requires FirstSection(ui.tree.windows + ui.tree.auxiliary, assignments[k].value, i)
    requires forall j :: FirstSection(ui.tree.auxiliary, window, j) ==> home == ui.tree.auxiliary[j].id
    requires (forall s :: s in ui.tree.auxiliary ==> !Answers(s.id, window)) ==> home == window
    ensures var sections := ui.tree.windows + ui.tree.auxiliary;
      Target(ui, window + "." + control, assignments) ==
      if home == sections[i].id && control != "" then Success(Key(home, control))
      else Failure(UnknownControl(window + "." + control))
  {
    hide Resolve, Answers, Alike;
    SplitJoined(window, '.', control);
    FirstParentIs(assignments);
    SectionIff(ui.tree.windows + ui.tree.auxiliary, assignments[k].value);
    SectionIff(ui.tree.auxiliary, window);
  }
}
