/**
  Listing and cloning over the window state, and the state object itself
  (crates/dm-dmf/src/lib.rs:557-620, 646-746, 885-950).
 */
module UiWindows {
  import opened Wrappers
  import opened Strings
  import opened ControlTrees
  import opened Assignments
  import opened UiStates

  // ---- listing every property ----

  function AsAssignments(properties: seq<Property>): (r: seq<Assignment>)
    ensures |r| == |properties|
  {
    seq(|properties|, i requires 0 <= i < |properties| => Assignment(properties[i].key, properties[i].value))
  }

  /** Case-folded name to the last spelling and value. */
  function Collected(list: seq<Assignment>): (m: map<string, Assignment>)
    ensures forall k :: k in m ==> Lower(m[k].name) == k
  {
    if list == [] then map[]
    else Collected(list[..|list| - 1])[Lower(list[|list| - 1].name) := list[|list| - 1]]
  }

  /** The skin's declarations, then the runtime values that replace them. */
  function AllProperties(ui: Ui, key: Key): seq<Assignment> {
    var control := SkinControl(ui, key);
    (if control.Some? then AsAssignments(control.value.properties) else []) + OverrideAt(ui.overrides, key)
  }

  function ByName(entries: map<string, Assignment>): map<string, string>
    requires forall k :: k in entries ==> Lower(entries[k].name) == k
  {
    map k | k in entries :: entries[k].name := entries[k].value
  }

  function WingetAll(ui: Ui, address: string): Result<map<string, string>, UiError> {
    var key := Resolve(ui, address);
    if key.Failure? then Failure(key.error) else Success(ByName(Collected(AllProperties(ui, key.value))))
  }

  lemma {:induction false} CollectedReads(list: seq<Assignment>, name: string)
    ensures Lower(name) in Collected(list) <==> Assigned(list, name).Some?
    ensures Lower(name) in Collected(list) ==> Collected(list)[Lower(name)].value == Assigned(list, name).value
  {
    if list != [] {
      CollectedReads(list[..|list| - 1], name);
    }
  }

  lemma {:induction false} AssignedAppend(a: seq<Assignment>, b: seq<Assignment>, name: string)
    ensures Assigned(a + b, name) == if Assigned(b, name).Some? then Assigned(b, name) else Assigned(a, name)
  {
    if b == [] {
      assert a + b == a;
    } else {
      var n := |b| - 1;
      assert (a + b)[..|a + b| - 1] == a + b[..n];
      AssignedAppend(a, b[..n], name);
    }
  }

  lemma {:induction false} DeclaredIsAssigned(properties: seq<Property>, name: string)
    ensures Declared(properties, name) == Assigned(AsAssignments(properties), name)
  {
    if properties != [] {
      var n := |properties| - 1;
      DeclaredIsAssigned(properties[..n], name);
      assert AsAssignments(properties)[..n] == AsAssignments(properties[..n]);
    }
  }

  lemma AllPropertiesRead(ui: Ui, key: Key, name: string)
    ensures ValueAt(ui, key, name)
         == if Assigned(AllProperties(ui, key), name).Some? then Assigned(AllProperties(ui, key), name).value else ""
  {
    var control := SkinControl(ui, key);
    var declared := if control.Some? then AsAssignments(control.value.properties) else [];
    AssignedAppend(declared, OverrideAt(ui.overrides, key), name);
    if control.Some? {
      DeclaredIsAssigned(control.value.properties, name);
    }
  }

  /**
    The listing and the single reads agree: every listed entry reads as listed, and a property listed
    under no spelling reads as empty.
   */
  lemma ListingAgrees(ui: Ui, address: string, name: string)
    requires WingetAll(ui, address).Success?
    ensures var listing := WingetAll(ui, address).value;
      && Winget(ui, address, name).Success?
      && (forall n :: n in listing && SameName(n, name) ==> Winget(ui, address, name) == Success(listing[n]))
      && ((forall n :: n in listing ==> !SameName(n, name)) ==> Winget(ui, address, name) == Success(""))
  {
    hide SkinControl, Resolve, Position;
    var key := Resolve(ui, address).value;
    var list := AllProperties(ui, key);
    var entries := Collected(list);
    AllPropertiesRead(ui, key, name);
    CollectedReads(list, name);
    if Lower(name) in entries {
      var n := entries[Lower(name)].name;
      assert n in ByName(entries) && SameName(n, name);
    }
  }

  // ---- cloning ----

  function Without(clones: seq<ClonedWindow>, destination: string): seq<ClonedWindow> {
    if clones == [] then []
    else if clones[0].destination == destination then Without(clones[1..], destination)
    else [clones[0]] + Without(clones[1..], destination)
  }

  /** Where a copied override lands. */
  function Landed(source: string, destination: string, control: string): Key {
    Key(destination, if control == source then destination else control)
  }

  function CopyOverrides(into: seq<ControlOverride>, from: seq<ControlOverride>, source: string, destination: string)
    : seq<ControlOverride>
  {
    if from == [] then into
    else
      var n := |from| - 1;
      var before := CopyOverrides(into, from[..n], source, destination);
      if from[n].window == source then Store(before, Landed(source, destination, from[n].control), from[n].properties)
      else before
  }

  function CloneWindow(ui: Ui, source: string, destination: string): Ui {
    Ui(ui.tree, CopyOverrides(ui.overrides, ui.overrides, source, destination),
       Without(ui.clones, destination) + [ClonedWindow(source, destination)])
  }

  function Winclone(ui: Ui, source: string, destination: string): Result<Ui, UiError> {
    if WindowWithId(ui.tree.windows + ui.tree.auxiliary, source).Some? then
      if destination == "" then Failure(UnknownControl(destination)) else Success(CloneWindow(ui, source, destination))
    else
      var from, to := Resolve(ui, source), Resolve(ui, destination);
      if from.Failure? then Failure(from.error)
      else if to.Failure? then Failure(to.error)
      else Success(ui.(overrides := Store(ui.overrides, to.value, OverrideAt(ui.overrides, from.value))))
  }

  lemma StoreKeeps(ui: Ui, key: Key, properties: seq<Assignment>)
    requires Kept(ui) && DistinctNames(properties)
    ensures Kept(ui.(overrides := Store(ui.overrides, key, properties)))
  {
    StoreReads(ui.overrides, key, properties, key);
    StoredAreDistinct(ui, key, properties);
  }

  lemma {:induction false} CopyKeeps(ui: Ui, from: seq<ControlOverride>, source: string, destination: string)
    requires Kept(ui) && forall i :: 0 <= i < |from| ==> DistinctNames(from[i].properties)
    ensures Kept(ui.(overrides := CopyOverrides(ui.overrides, from, source, destination)))
  {
    if from != [] {
      var n := |from| - 1;
      CopyKeeps(ui, from[..n], source, destination);
      var before := ui.(overrides := CopyOverrides(ui.overrides, from[..n], source, destination));
      if from[n].window == source {
        StoreKeeps(before, Landed(source, destination, from[n].control), from[n].properties);
      }
    }
  }

  lemma WincloneKeeps(ui: Ui, source: string, destination: string)
    requires Kept(ui) && Winclone(ui, source, destination).Success?
    ensures Kept(Winclone(ui, source, destination).value)
  {
    if WindowWithId(ui.tree.windows + ui.tree.auxiliary, source).Some? {
      CopyKeeps(ui, ui.overrides, source, destination);
    } else {
      var from, to := Resolve(ui, source).value, Resolve(ui, destination).value;
      OverrideIsDistinct(ui, from);
      StoreKeeps(ui, to, OverrideAt(ui.overrides, from));
    }
  }

  /** A destination with no runtime state of its own. */
  predicate Fresh(overrides: seq<ControlOverride>, destination: string) {
    forall i :: 0 <= i < |overrides| ==> overrides[i].window != destination
  }

  predicate NoControl(overrides: seq<ControlOverride>, key: Key) {
    forall i :: 0 <= i < |overrides| ==> !Is(overrides[i], key)
  }

  lemma OverrideAtAppend(overrides: seq<ControlOverride>, o: ControlOverride, key: Key)
    requires DistinctKeys(overrides + [o])
    ensures OverrideAt(overrides + [o], key) == if Is(o, key) then o.properties else OverrideAt(overrides, key)
  {
    var all := overrides + [o];
    var p, q := Position(overrides, key), Position(all, key);
    if p < |overrides| {
      assert Is(all[p], key);
      forall j | 0 <= j < p
        ensures !Is(all[j], key)
      {
        assert !Is(overrides[j], key);
      }
    } else {
      forall j | 0 <= j < |overrides|
        ensures !Is(all[j], key)
      {
        assert !Is(overrides[j], key);
      }
      assert all[|overrides|] == o;
    }
  }

  /** The copied overrides of one control, at the place it lands. */
  lemma {:induction false} CopiedReads(into: seq<ControlOverride>, from: seq<ControlOverride>,
                                       source: string, destination: string, control: string)
    requires DistinctKeys(into) && DistinctKeys(from) && Fresh(into, destination) && source != destination
    requires control != destination && NoControl(from, Key(source, destination))
    ensures DistinctKeys(CopyOverrides(into, from, source, destination))
    ensures OverrideAt(CopyOverrides(into, from, source, destination), Landed(source, destination, control))
         == OverrideAt(from, Key(source, control))
  {
    var landed := Landed(source, destination, control);
    if from == [] {
      assert Position(into, landed) == |into|;
    } else {
      var n := |from| - 1;
      var o := from[n];
      assert from == from[..n] + [o];
      forall i | 0 <= i < n
        ensures !Is(from[..n][i], Key(source, destination))
      {
        assert !Is(from[i], Key(source, destination));
      }
      CopiedReads(into, from[..n], source, destination, control);
      OverrideAtAppend(from[..n], o, Key(source, control));
      if o.window == source {
        assert !Is(o, Key(source, destination));
        StoreReads(CopyOverrides(into, from[..n], source, destination), Landed(source, destination, o.control),
            o.properties, landed);
      }
    }
  }

  lemma {:induction false} CopySparesSource(into: seq<ControlOverride>, from: seq<ControlOverride>,
                                            source: string, destination: string, key: Key)
    requires DistinctKeys(into) && key.window != destination
    ensures DistinctKeys(CopyOverrides(into, from, source, destination))
    ensures OverrideAt(CopyOverrides(into, from, source, destination), key) == OverrideAt(into, key)
  {
    if from != [] {
      var n := |from| - 1;
      CopySparesSource(into, from[..n], source, destination, key);
      if from[n].window == source {
        StoreReads(CopyOverrides(into, from[..n], source, destination), Landed(source, destination, from[n].control),
            from[n].properties, key);
      }
    }
  }

  lemma {:induction false} NewCloneIsFound(clones: seq<ClonedWindow>, source: string, destination: string)
    ensures CloneOf(Without(clones, destination) + [ClonedWindow(source, destination)], destination)
         == Some(ClonedWindow(source, destination))
  {
    var added := [ClonedWindow(source, destination)];
    if clones == [] {
      assert Without(clones, destination) + added == added;
    } else {
      NewCloneIsFound(clones[1..], source, destination);
      if clones[0].destination != destination {
        var rest := Without(clones[1..], destination) + added;
        assert Without(clones, destination) + added == [clones[0]] + rest;
        assert ([clones[0]] + rest)[1..] == rest;
      }
    }
  }

  /** A window cloned to a fresh name reads, control by control, exactly like its source. */
  lemma CloneReadsLikeSource(ui: Ui, source: string, destination: string, control: string, name: string)
    requires Kept(ui) && source != destination && control != destination
    requires CloneOf(ui.clones, source).None? && Fresh(ui.overrides, destination)
    requires NoControl(ui.overrides, Key(source, destination))
    ensures ValueAt(CloneWindow(ui, source, destination), Landed(source, destination, control), name)
         == ValueAt(ui, Key(source, control), name)
  {
    CopiedReads(ui.overrides, ui.overrides, source, destination, control);
    NewCloneIsFound(ui.clones, source, destination);
  }

  /** No runtime state under the name itself or under a macro or menu set of that name. */
  predicate Unused(overrides: seq<ControlOverride>, namespace: string) {
    forall i :: 0 <= i < |overrides| ==> !Names(overrides[i].window, namespace)
  }

  predicate Holds(overrides: seq<ControlOverride>, key: Key) {
    exists i :: 0 <= i < |overrides| && Is(overrides[i], key)
  }

  predicate OnlyPlain(overrides: seq<ControlOverride>, namespace: string) {
    forall i :: 0 <= i < |overrides| && Names(overrides[i].window, namespace) ==> overrides[i].window == namespace
  }

  lemma StoreHolds(overrides: seq<ControlOverride>, key: Key, properties: seq<Assignment>, other: Key)
    ensures Holds(Store(overrides, key, properties), key)
    ensures Holds(overrides, other) ==> Holds(Store(overrides, key, properties), other)
    ensures OnlyPlain(overrides, key.window) ==> OnlyPlain(Store(overrides, key, properties), key.window)
  {
    var p, after := Position(overrides, key), Store(overrides, key, properties);
    assert Is(after[p], key);
    if Holds(overrides, other) {
      var i :| 0 <= i < |overrides| && Is(overrides[i], other);
      assert Is(after[i], other);
    }
  }

  lemma {:induction false} CopiedLands(into: seq<ControlOverride>, from: seq<ControlOverride>,
                                       source: string, destination: string, control: string)
    requires OnlyPlain(into, destination)
    ensures OnlyPlain(CopyOverrides(into, from, source, destination), destination)
    ensures Holds(from, Key(source, control)) ==>
      Holds(CopyOverrides(into, from, source, destination), Landed(source, destination, control))
  {
    hide Store, OnlyPlain;
    if from != [] {
      var n := |from| - 1;
      var landed := Landed(source, destination, control);
      CopiedLands(into, from[..n], source, destination, control);
      if from[n].window == source {
        StoreHolds(CopyOverrides(into, from[..n], source, destination),
                   Landed(source, destination, from[n].control), from[n].properties, landed);
      }
      if Holds(from, Key(source, control)) && !Is(from[n], Key(source, control)) {
        var i :| 0 <= i <= n && Is(from[i], Key(source, control));
        assert Is(from[..n][i], Key(source, control));
      }
    }
  }

  lemma {:induction false} HeldIsOverridden(overrides: seq<ControlOverride>, window: string, control: string)
    requires OnlyPlain(overrides, window) && Holds(overrides, Key(window, control))
    ensures Overridden(overrides, window, control) == Some(window)
  {
    var n := |overrides| - 1;
    var i :| 0 <= i <= n && Is(overrides[i], Key(window, control));
    forall j | 0 <= j < n && Names(overrides[..n][j].window, window)
      ensures overrides[..n][j].window == window
    {
      assert overrides[j] == overrides[..n][j];
    }
    if i < n {
      assert Is(overrides[..n][i], Key(window, control));
      HeldIsOverridden(overrides[..n], window, control);
    } else if Overridden(overrides[..n], window, control).Some? {
      OverriddenIsHeld(overrides[..n], window, control);
    }
  }

  lemma {:induction false} OverriddenIsHeld(overrides: seq<ControlOverride>, window: string, control: string)
    requires Overridden(overrides, window, control).Some?
    ensures var w := Overridden(overrides, window, control).value;
      Names(w, window) && Holds(overrides, Key(w, control))
      && (OnlyPlain(overrides, window) ==> w == window)
  {
    var n := |overrides| - 1;
    if Overridden(overrides[..n], window, control).Some? {
      OverriddenIsHeld(overrides[..n], window, control);
      var w := Overridden(overrides, window, control).value;
      var i :| 0 <= i < n && Is(overrides[..n][i], Key(w, control));
      assert Is(overrides[i], Key(w, control));
    } else {
      assert Is(overrides[n], Key(overrides[n].window, control));
    }
  }

  /** An address whose window part is `window`. */
  predicate Qualifies(window: string) {
    window != "" && window[0] != ':' && '.' !in window
  }

  lemma QualifiedResolves(ui: Ui, window: string, control: string)
    requires Qualifies(window)
    ensures Resolve(ui, window + "." + control) == ResolvePair(ui, window + "." + control, window, control)
  {
    SplitJoined(window, '.', control);
    assert window + ['.'] + control == window + "." + control;
  }

  /**
    The same by address: what a qualified address of the source reads is what the corresponding address of the
    clone reads. In the clone the destination's own name stands for the source's own control.
   */
  lemma CloneAddressReads(ui: Ui, source: string, destination: string, control: string, name: string)
    requires Kept(ui) && Qualifies(source) && Qualifies(destination) && source != destination && control != destination
    requires CloneOf(ui.clones, source).None? && Unused(ui.overrides, destination)
    requires NoControl(ui.overrides, Key(source, destination))
    requires Resolve(ui, source + "." + control) == Success(Key(source, control))
    ensures Winget(CloneWindow(ui, source, destination),
                   destination + "." + Landed(source, destination, control).control, name)
         == Winget(ui, source + "." + control, name)
  {
    var cloned, landed := CloneWindow(ui, source, destination), Landed(source, destination, control);
    QualifiedResolves(ui, source, control);
    QualifiedResolves(cloned, destination, landed.control);
    CloneReadsLikeSource(ui, source, destination, control, name);
    NewCloneIsFound(ui.clones, source, destination);
    if Addressable(ui.tree, source, control).None? {
      OverriddenIsHeld(ui.overrides, source, control);
      CopiedLands(ui.overrides, ui.overrides, source, destination, control);
      HeldIsOverridden(cloned.overrides, destination, landed.control);
    }
    hide ValueAt, CopyOverrides, Without;
  }

  /** Cloning a window leaves every other window's runtime values alone. */
  lemma CloneSparesOthers(ui: Ui, source: string, destination: string, key: Key)
    requires Kept(ui) && key.window != destination
    ensures OverrideAt(CloneWindow(ui, source, destination).overrides, key) == OverrideAt(ui.overrides, key)
  {
    CopySparesSource(ui.overrides, ui.overrides, source, destination, key);
  }

  // ---- where the laws stop: two keys for one macro element ----

  const PRESS := Control(Some("k"), UnknownType, [])
  const MACROS := ControlTree([], [Window("macro:m", [PRESS])])

  /**
    Writing a macro element through `set.id` gives it an override under the bare set name, so the
    same element's bare id becomes ambiguous: read and write laws hold per address, not per element.
   */
  lemma BareIdTurnsAmbiguous()
    ensures var ui := Ui(MACROS, [], []);
      && Resolve(ui, "k") == Success(Key("macro:m", "k"))
      && Resolve(ui, "m.k") == Success(Key("m", "k"))
      && Resolve(Assign(ui, Key("m", "k"), []), "k") == Failure(AmbiguousControl("k"))
  {
    var ui := Ui(MACROS, [], []);
    var tree := ui.tree.windows + ui.tree.auxiliary;
    assert tree == [Window("macro:m", [PRESS])];
    assert TreeMatches(tree, "k") == ["macro:m"] + TreeMatches([], "k");
    assert Matches(ui, "k") == ["macro:m"];
    assert SplitOnce("k", '.').None? by {
      assert "k"[1..] == "";
    }
    SplitJoined("m", '.', "k");
    assert "m" + ['.'] + "k" == "m.k";
    assert Section(MACROS.auxiliary, "m") == Some(Window("macro:m", [PRESS])) by {
      assert "macro:" + "m" == "macro:m";
    }
    var o := ControlOverride("m", "k", []);
    var after := Assign(ui, Key("m", "k"), []);
    assert after.overrides == [o];
    OverrideMatchesAppend([], o, "k");
    assert [] + [o] == [o];
    assert Matches(after, "k") == ["macro:m", "m"];
    assert "macro:m"[1] != "m"[0];
    assert |"macro:m"| != |"m"|;
    assert !AllSame(["macro:m", "m"]) by {
      assert ["macro:m", "m"][1] == "m" && ["macro:m", "m"][0] == "macro:m";
    }
  }

  // ---- the object ----

  class UiState {
    const tree: ControlTree
    var overrides: seq<ControlOverride>
    var clonedWindows: seq<ClonedWindow>

    function State(): Ui
      reads this
    {
      Ui(tree, overrides, clonedWindows)
    }

    predicate Valid()
      reads this
    {
      Kept(State())
    }

    constructor (tree: ControlTree)
      ensures State() == Ui(tree, [], []) && Valid()
    {
      this.tree := tree;
      overrides, clonedWindows := [], [];
    }

    /** The index of a control's override, added empty if it had none. */
    method OverridesMut(key: Key) returns (index: nat)
      modifies this`overrides
      ensures index == Position(old(overrides), key) && index < |overrides| && Is(overrides[index], key)
      ensures overrides == Store(old(overrides), key, OverrideAt(old(overrides), key))
    {
      index := Position(overrides, key);
      if index == |overrides| {
        overrides := overrides + [ControlOverride(key.window, key.control, [])];
      }
    }

    /** Applies an assignment list; on an error nothing changes. */
    method WinsetParameters(control: string, parameters: string) returns (error: Option<UiError>)
      requires Valid()
      modifies this`overrides
      ensures Valid()
      ensures var expected := Winset(old(State()), control, parameters);
        if expected.Success? then error == None && State() == expected.value
        else error == Some(expected.error) && State() == old(State())
    {
      var parsed := ParseAssignments(parameters);
      if parsed.Failure? {
        return Some(BadAssignment(parsed.error));
      }
      var assignments := parsed.value;
      var key := Target(State(), control, assignments);
      if key.Failure? {
        return Some(key.error);
      }
      AssignKeeps(State(), key.value, assignments);
      hide Target, Kept, ParseFrom;
      AssignTo(key.value, assignments);
      error := None;
    }

    /** The assignment loop over one control's override. */
    method AssignTo(key: Key, assignments: seq<Assignment>)
      modifies this`overrides
      ensures State() == Assign(old(State()), key, assignments)
    {
      hide SetProperty, Position;
      StoredTwice(overrides, key, SetAll(OverrideAt(overrides, key), assignments));
      ghost var before := overrides;
      var index := OverridesMut(key);
      var properties := overrides[index].properties;
      ghost var first := properties;
      for i := 0 to |assignments|
        invariant properties == SetAll(first, assignments[..i])
      {
        assert assignments[..i + 1][..i] == assignments[..i];
        properties := SetProperty(properties, assignments[i]);
      }
      assert assignments[..|assignments|] == assignments;
      overrides := overrides[index := overrides[index].(properties := properties)];
    }

    method WingetProperty(control: string, property: string) returns (r: Result<string, UiError>)
      ensures r == Winget(State(), control, property)
    {
      var key := Resolve(State(), control);
      if key.Failure? {
        return Failure(key.error);
      }
      var position := Position(overrides, key.value);
      if position < |overrides| {
        var value := Assigned(overrides[position].properties, property);
        if value.Some? {
          return Success(value.value);
        }
      }
      r := Success(SkinValue(State(), key.value, property));
    }

    method WingetAllProperties(control: string) returns (r: Result<map<string, string>, UiError>)
      ensures r == WingetAll(State(), control)
    {
      hide Resolve, AllProperties, SkinControl, OverrideAt;
      var key := Resolve(State(), control);
      if key.Failure? {
        return Failure(key.error);
      }
      var list := AllProperties(State(), key.value);
      var properties: map<string, Assignment> := map[];
      for i := 0 to |list|
        invariant properties == Collected(list[..i])
      {
        assert list[..i + 1][..i] == list[..i];
        properties := properties[Lower(list[i].name) := list[i]];
      }
      assert list[..|list|] == list;
      r := Success(ByName(properties));
    }

    method WincloneTo(source: string, destination: string) returns (error: Option<UiError>)
      requires Valid()
      modifies this
      ensures Valid()
      ensures var expected := Winclone(old(State()), source, destination);
        if expected.Success? then error == None && State() == expected.value
        else error == Some(expected.error) && State() == old(State())
    {
      ghost var before := State();
      if Winclone(before, source, destination).Success? {
        WincloneKeeps(before, source, destination);
      }
      if WindowWithId(tree.windows + tree.auxiliary, source).Some? {
        if destination == "" {
          return Some(UnknownControl(destination));
        }
        clonedWindows := Without(clonedWindows, destination) + [ClonedWindow(source, destination)];
        var copied := overrides;
        for i := 0 to |copied|
          invariant overrides == CopyOverrides(copied, copied[..i], source, destination)
          invariant clonedWindows == Without(before.clones, destination) + [ClonedWindow(source, destination)]
        {
          assert copied[..i + 1][..i] == copied[..i];
          if copied[i].window == source {
            var key := Landed(source, destination, copied[i].control);
            StoredTwice(overrides, key, copied[i].properties);
            var index := OverridesMut(key);
            overrides := overrides[index := overrides[index].(properties := copied[i].properties)];
          }
        }
        assert copied[..|copied|] == copied;
        return None;
      }
      var from := Resolve(State(), source);
      if from.Failure? {
        return Some(from.error);
      }
      var to := Resolve(State(), destination);
      if to.Failure? {
        return Some(to.error);
      }
      var properties := OverrideAt(overrides, from.value);
      StoredTwice(overrides, to.value, properties);
      var index := OverridesMut(to.value);
      overrides := overrides[index := overrides[index].(properties := properties)];
      error := None;
    }
  }

  lemma StoredTwice(overrides: seq<ControlOverride>, key: Key, properties: seq<Assignment>)
    ensures var once := Store(overrides, key, OverrideAt(overrides, key));
      var i := Position(overrides, key);
      && i < |once| && once[i].properties == OverrideAt(overrides, key)
      && Store(overrides, key, properties) == once[i := once[i].(properties := properties)]
  {
  }
}
