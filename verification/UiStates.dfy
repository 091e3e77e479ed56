/**
  One client's runtime window state over a skin
  (crates/dm-dmf/src/lib.rs:486-746, 880-1110).
 */
module UiStates {
  import opened Wrappers
  import opened Strings
  import opened ControlTrees
  import opened Assignments

  datatype ControlOverride = ControlOverride(window: string, control: string, properties: seq<Assignment>)

  datatype ClonedWindow = ClonedWindow(source: string, destination: string)

  datatype Ui = Ui(tree: ControlTree, overrides: seq<ControlOverride>, clones: seq<ClonedWindow>)

  datatype UiError = UnknownControl(address: string) | AmbiguousControl(address: string) | BadAssignment(fault: Fault)

  /** Where a control's runtime properties are kept. */
  datatype Key = Key(window: string, control: string)

  // ---- lookup ----

  function CloneOf(clones: seq<ClonedWindow>, destination: string): Option<ClonedWindow> {
    if clones == [] then None
    else if clones[0].destination == destination then Some(clones[0])
    else CloneOf(clones[1..], destination)
  }

  predicate Is(o: ControlOverride, key: Key) {
    o.window == key.window && o.control == key.control
  }

  function Position(overrides: seq<ControlOverride>, key: Key): (i: nat)
    ensures i <= |overrides|
    ensures i < |overrides| ==> Is(overrides[i], key)
    ensures forall j :: 0 <= j < i ==> !Is(overrides[j], key)
  {
    if overrides == [] || Is(overrides[0], key) then 0 else 1 + Position(overrides[1..], key)
  }

  function OverrideAt(overrides: seq<ControlOverride>, key: Key): seq<Assignment> {
    var i := Position(overrides, key);
    if i < |overrides| then overrides[i].properties else []
  }

  /** The last runtime assignment of a property. */
  function Assigned(properties: seq<Assignment>, name: string): Option<string> {
    if properties == [] then None
    else
      var n := |properties| - 1;
      if SameName(properties[n].name, name) then Some(properties[n].value) else Assigned(properties[..n], name)
  }

  // ---- addresses ----

  function TreeMatches(windows: seq<Window>, id: string): seq<string> {
    if windows == [] then []
    else
      var rest := TreeMatches(windows[1..], id);
      if ControlNamed(windows[0].controls, id).Some? then [windows[0].id] + rest else rest
  }

  function OverrideMatches(overrides: seq<ControlOverride>, id: string): seq<string> {
    if overrides == [] then []
    else
      var n := |overrides| - 1;
      OverrideMatches(overrides[..n], id) + if overrides[n].control == id then [overrides[n].window] else []
  }

  function SourceControl(clone: ClonedWindow, id: string): string {
    if id == clone.destination then clone.source else id
  }

  function CloneMatches(tree: ControlTree, clones: seq<ClonedWindow>, id: string): seq<string> {
    if clones == [] then []
    else
      var rest := CloneMatches(tree, clones[1..], id);
      var found := Addressable(tree, clones[0].source, SourceControl(clones[0], id));
      if found.Some? then [clones[0].destination] + rest else rest
  }

  function Matches(ui: Ui, id: string): seq<string> {
    TreeMatches(ui.tree.windows + ui.tree.auxiliary, id)
      + OverrideMatches(ui.overrides, id) + CloneMatches(ui.tree, ui.clones, id)
  }

  predicate AllSame(windows: seq<string>) {
    forall i :: 0 <= i < |windows| ==> windows[i] == windows[0]
  }

  function ResolveBare(ui: Ui, address: string): Result<Key, UiError> {
    var matches := Matches(ui, address);
    if matches == [] then Failure(UnknownControl(address))
    else if AllSame(matches) then Success(Key(matches[0], address))
    else Failure(AmbiguousControl(address))
  }

  predicate InClone(ui: Ui, window: string, control: string) {
    var clone := CloneOf(ui.clones, window);
    && clone.Some?
    && Addressable(ui.tree, clone.value.source, if control == window then clone.value.source else control).Some?
  }

  /** The first override the pair `window.control` can mean. */
  function Overridden(overrides: seq<ControlOverride>, window: string, control: string): Option<string> {
    if overrides == [] then None
    else
      var n := |overrides| - 1;
      var earlier := Overridden(overrides[..n], window, control);
      if earlier.Some? then earlier
      else if Names(overrides[n].window, window) && overrides[n].control == control then Some(overrides[n].window)
      else None
  }

  function ResolvePair(ui: Ui, address: string, window: string, control: string): Result<Key, UiError> {
    if InClone(ui, window, control) then Success(Key(window, control))
    else
      var overridden := Overridden(ui.overrides, window, control);
      if overridden.Some? then Success(Key(overridden.value, control))
      else if Addressable(ui.tree, window, control).Some? then Success(Key(window, control))
      else Failure(UnknownControl(address))
  }

  function Resolve(ui: Ui, address: string): Result<Key, UiError> {
    var selected := Selected(ui.tree, address);
    if selected.Some? then Success(Key(selected.value.0, selected.value.1))
    else
      var parts := SplitOnce(address, '.');
      if parts.None? then ResolveBare(ui, address) else ResolvePair(ui, address, parts.value.0, parts.value.1)
  }

  // ---- reading ----

  function SkinControl(ui: Ui, key: Key): Option<Control> {
    var clone := CloneOf(ui.clones, key.window);
    var window := if clone.Some? then clone.value.source else key.window;
    var control := if clone.Some? && key.control == clone.value.destination then clone.value.source else key.control;
    Addressable(ui.tree, window, control)
  }

  function SkinValue(ui: Ui, key: Key, name: string): string {
    var control := SkinControl(ui, key);
    var declared := if control.Some? then Declared(control.value.properties, name) else None;
    if declared.Some? then declared.value else ""
  }

  function ValueAt(ui: Ui, key: Key, name: string): string {
    var runtime := Assigned(OverrideAt(ui.overrides, key), name);
    if runtime.Some? then runtime.value else SkinValue(ui, key, name)
  }

  /** `winget` at an address that is neither a `;` list nor a `.*` wildcard. */
  function Winget(ui: Ui, address: string, name: string): Result<string, UiError> {
    var key := Resolve(ui, address);
    if key.Failure? then Failure(key.error) else Success(ValueAt(ui, key.value, name))
  }

  // ---- writing ----

  function SetProperty(properties: seq<Assignment>, a: Assignment): seq<Assignment> {
    if properties == [] then [a]
    else if SameName(properties[0].name, a.name) then [properties[0].(value := a.value)] + properties[1..]
    else [properties[0]] + SetProperty(properties[1..], a)
  }

  function SetAll(properties: seq<Assignment>, assignments: seq<Assignment>): seq<Assignment> {
    if assignments == [] then properties
    else SetProperty(SetAll(properties, assignments[..|assignments| - 1]), assignments[|assignments| - 1])
  }

  function Store(overrides: seq<ControlOverride>, key: Key, properties: seq<Assignment>): seq<ControlOverride> {
    var i := Position(overrides, key);
    if i < |overrides| then overrides[i := overrides[i].(properties := properties)]
    else overrides + [ControlOverride(key.window, key.control, properties)]
  }

  function FirstParent(assignments: seq<Assignment>): string {
    if assignments == [] then ""
    else if SameName(assignments[0].name, "parent") then assignments[0].value
    else FirstParent(assignments[1..])
  }

  function ParentWindow(ui: Ui, parent: string): Option<string> {
    var section := Section(ui.tree.windows + ui.tree.auxiliary, parent);
    if section.Some? then Some(section.value.id)
    else
      var key := Resolve(ui, parent);
      if key.Success? then Some(key.value.window) else None
  }

  /** The key a new control would get from its address, were its parent `parent`. */
  function NewKey(ui: Ui, address: string, parent: string): Key {
    var parts := SplitOnce(address, '.');
    if parts.None? then Key(parent, address)
    else
      var section := Section(ui.tree.auxiliary, parts.value.0);
      Key(if section.Some? then section.value.id else parts.value.0, parts.value.1)
  }

  function Created(ui: Ui, address: string, assignments: seq<Assignment>): Result<Key, UiError> {
    var parent := FirstParent(assignments);
    if parent == "" then Failure(UnknownControl(address))
    else
      var window := ParentWindow(ui, parent);
      if window.None? then Failure(UnknownControl(parent))
      else
        var key := NewKey(ui, address, window.value);
        if key.window != window.value || key.control == "" then Failure(UnknownControl(address)) else Success(key)
  }

  /** An unknown control is created when the assignments name its parent. */
  function Target(ui: Ui, address: string, assignments: seq<Assignment>): Result<Key, UiError> {
    var key := Resolve(ui, address);
    if key.Failure? && key.error.UnknownControl? then Created(ui, address, assignments) else key
  }

  function Assign(ui: Ui, key: Key, assignments: seq<Assignment>): Ui {
    ui.(overrides := Store(ui.overrides, key, SetAll(OverrideAt(ui.overrides, key), assignments)))
  }

  function Winset(ui: Ui, address: string, parameters: string): Result<Ui, UiError> {
    var assignments := ParseFrom(parameters, "", OUTSIDE);
    if assignments.Failure? then Failure(BadAssignment(assignments.error))
    else
      var key := Target(ui, address, assignments.value);
      if key.Failure? then Failure(key.error) else Success(Assign(ui, key.value, assignments.value))
  }

  // ---- what every operation keeps ----

  predicate DistinctNames(properties: seq<Assignment>) {
    forall i, j :: 0 <= i < j < |properties| ==> !SameName(properties[i].name, properties[j].name)
  }

  predicate DistinctKeys(overrides: seq<ControlOverride>) {
    forall i, j :: 0 <= i < j < |overrides| ==>
      overrides[i].window != overrides[j].window || overrides[i].control != overrides[j].control
  }

  predicate Kept(ui: Ui) {
    && DistinctKeys(ui.overrides)
    && forall i :: 0 <= i < |ui.overrides| ==> DistinctNames(ui.overrides[i].properties)
  }

  lemma {:induction false} SetPropertyFacts(properties: seq<Assignment>, a: Assignment)
    requires DistinctNames(properties)
    ensures var after := SetProperty(properties, a);
      && DistinctNames(after)
      && |properties| <= |after| <= |properties| + 1
      && (forall i :: 0 <= i < |properties| ==> after[i].name == properties[i].name)
      && (|after| > |properties| ==> after[|properties|] == a)
  {
    if properties != [] && !SameName(properties[0].name, a.name) {
      SetPropertyFacts(properties[1..], a);
      var rest := SetProperty(properties[1..], a);
      var after := SetProperty(properties, a);
      forall i, j | 0 <= i < j < |after|
        ensures !SameName(after[i].name, after[j].name)
      {
        if i == 0 {
          assert j - 1 < |properties[1..]| ==> after[j].name == properties[1..][j - 1].name;
        } else {
          assert after[i] == rest[i - 1] && after[j] == rest[j - 1];
        }
      }
    }
  }

  lemma AssignedHead(first: Assignment, rest: seq<Assignment>, name: string)
    ensures Assigned([first] + rest, name)
         == if Assigned(rest, name).Some? then Assigned(rest, name)
            else if SameName(first.name, name) then Some(first.value) else None
  {
    if rest == [] {
      assert [first] + rest == [first] && [first][..0] == [];
    } else {
      var n := |rest| - 1;
      AssignedHead(first, rest[..n], name);
      assert ([first] + rest)[..n + 1] == [first] + rest[..n];
    }
  }

  lemma {:induction false} NotAssigned(properties: seq<Assignment>, name: string)
    requires forall i :: 0 <= i < |properties| ==> !SameName(properties[i].name, name)
    ensures Assigned(properties, name).None?
  {
    if properties != [] {
      NotAssigned(properties[..|properties| - 1], name);
    }
  }

  lemma {:induction false} SetPropertyReads(properties: seq<Assignment>, a: Assignment, name: string)
    requires DistinctNames(properties)
    ensures Assigned(SetProperty(properties, a), name)
         == if SameName(a.name, name) then Some(a.value) else Assigned(properties, name)
  {
    if properties == [] {
      assert [a][..0] == [];
    } else {
      var first, rest := properties[0], properties[1..];
      assert properties == [first] + rest;
      AssignedHead(first, rest, name);
      if SameName(first.name, a.name) {
        AssignedHead(first.(value := a.value), rest, name);
        if SameName(first.name, name) {
          NotAssigned(rest, name);
        }
      } else {
        SetPropertyReads(rest, a, name);
        AssignedHead(first, SetProperty(rest, a), name);
      }
    }
  }

  lemma {:induction false} SetAllReads(properties: seq<Assignment>, assignments: seq<Assignment>, name: string)
    requires DistinctNames(properties)
    ensures DistinctNames(SetAll(properties, assignments))
    ensures Assigned(SetAll(properties, assignments), name)
         == if Assigned(assignments, name).Some? then Assigned(assignments, name) else Assigned(properties, name)
  {
    if assignments != [] {
      var n := |assignments| - 1;
      SetAllReads(properties, assignments[..n], name);
      SetPropertyFacts(SetAll(properties, assignments[..n]), assignments[n]);
      SetPropertyReads(SetAll(properties, assignments[..n]), assignments[n], name);
    }
  }

  lemma StoreReads(overrides: seq<ControlOverride>, key: Key, properties: seq<Assignment>, other: Key)
    requires DistinctKeys(overrides)
    ensures DistinctKeys(Store(overrides, key, properties))
    ensures OverrideAt(Store(overrides, key, properties), other)
         == if other == key then properties else OverrideAt(overrides, other)
  {
    var after := Store(overrides, key, properties);
    forall i, j | 0 <= i < j < |after|
      ensures after[i].window != after[j].window || after[i].control != after[j].control
    {
      assert j == |overrides| ==> !Is(overrides[i], key);
    }
    var p := Position(overrides, other);
    if other == key {
      assert Is(after[Position(overrides, key)], key);
    } else if p < |overrides| {
      assert Is(after[p], other);
      forall j | 0 <= j < p
        ensures !Is(after[j], other)
      {
        assert !Is(overrides[j], other);
      }
    } else {
      forall j | 0 <= j < |overrides|
        ensures !Is(after[j], other)
      {
        assert !Is(overrides[j], other);
      }
    }
  }

  lemma AssignKeeps(ui: Ui, key: Key, assignments: seq<Assignment>)
    requires Kept(ui)
    ensures Kept(Assign(ui, key, assignments))
    ensures forall name ::
      (ValueAt(Assign(ui, key, assignments), key, name)
        == if Assigned(assignments, name).Some? then Assigned(assignments, name).value else ValueAt(ui, key, name))
    ensures forall other, name :: other != key ==>
        ValueAt(Assign(ui, key, assignments), other, name) == ValueAt(ui, other, name)
  {
    hide Assigned, SetAll, Store, Position, SkinValue;
    var now := SetAll(OverrideAt(ui.overrides, key), assignments);
    var after := Store(ui.overrides, key, now);
    OverrideIsDistinct(ui, key);
    forall name
      ensures Assigned(now, name) == if Assigned(assignments, name).Some? then Assigned(assignments, name)
                                     else Assigned(OverrideAt(ui.overrides, key), name)
      ensures DistinctNames(now)
    {
      SetAllReads(OverrideAt(ui.overrides, key), assignments, name);
    }
    SetAllReads(OverrideAt(ui.overrides, key), assignments, "");
    forall other
      ensures OverrideAt(after, other) == if other == key then now else OverrideAt(ui.overrides, other)
    {
      StoreReads(ui.overrides, key, now, other);
    }
    StoreReads(ui.overrides, key, now, key);
    StoredAreDistinct(ui, key, now);
    forall other, name
      ensures SkinValue(Assign(ui, key, assignments), other, name) == SkinValue(ui, other, name)
    {
      SameSkin(ui, Assign(ui, key, assignments), other, name);
    }
  }

  lemma SameSkin(a: Ui, b: Ui, key: Key, name: string)
    requires a.tree == b.tree && a.clones == b.clones
    ensures SkinValue(a, key, name) == SkinValue(b, key, name)
  {
  }

  lemma OverrideIsDistinct(ui: Ui, key: Key)
    requires Kept(ui)
    ensures DistinctNames(OverrideAt(ui.overrides, key))
  {
  }

  lemma StoredAreDistinct(ui: Ui, key: Key, properties: seq<Assignment>)
    requires Kept(ui) && DistinctNames(properties)
    ensures var after := Store(ui.overrides, key, properties);
      forall i :: 0 <= i < |after| ==> DistinctNames(after[i].properties)
  {
  }

  // ---- the same address keeps meaning the same control ----

  lemma {:induction false} OverrideMatchesAppend(overrides: seq<ControlOverride>, o: ControlOverride, id: string)
    ensures OverrideMatches(overrides + [o], id)
         == OverrideMatches(overrides, id) + if o.control == id then [o.window] else []
  {
    assert (overrides + [o])[..|overrides|] == overrides;
  }

  lemma {:induction false} SameKeysSameMatches(
      a: seq<ControlOverride>, b: seq<ControlOverride>, window: string, id: string)
    requires |a| == |b| && forall i :: 0 <= i < |a| ==> a[i].window == b[i].window && a[i].control == b[i].control
    ensures OverrideMatches(a, id) == OverrideMatches(b, id)
    ensures Overridden(a, window, id) == Overridden(b, window, id)
  {
    if a != [] {
      SameKeysSameMatches(a[..|a| - 1], b[..|b| - 1], window, id);
    }
  }

  lemma OverriddenAppend(overrides: seq<ControlOverride>, o: ControlOverride, window: string, id: string)
    ensures Overridden(overrides + [o], window, id)
         == if Overridden(overrides, window, id).Some? then Overridden(overrides, window, id)
            else if Names(o.window, window) && o.control == id then Some(o.window) else None
  {
    assert (overrides + [o])[..|overrides|] == overrides;
  }

  /** An override stored under a key the address already means does not change what it means. */
  lemma ResolvedStaysResolved(ui: Ui, address: string, properties: seq<Assignment>)
    requires Resolve(ui, address).Success?
    ensures var key := Resolve(ui, address).value;
      Resolve(ui.(overrides := Store(ui.overrides, key, properties)), address) == Success(key)
  {
    var key := Resolve(ui, address).value;
    var after := ui.(overrides := Store(ui.overrides, key, properties));
    var parts := SplitOnce(address, '.');
    if Selected(ui.tree, address).Some? {
    } else if Position(ui.overrides, key) < |ui.overrides| {
      SameKeysSameMatches(ui.overrides, after.overrides, if parts.Some? then parts.value.0 else "",
                          if parts.Some? then parts.value.1 else address);
    } else if parts.None? {
      BareStays(ui, after, address, ControlOverride(key.window, key.control, properties));
    } else {
      OverriddenAppend(ui.overrides, ControlOverride(key.window, key.control, properties), parts.value.0,
          parts.value.1);
    }
  }

  lemma BareStays(ui: Ui, after: Ui, address: string, o: ControlOverride)
    requires ResolveBare(ui, address) == Success(Key(o.window, address)) && o.control == address
    requires after == ui.(overrides := ui.overrides + [o])
    ensures ResolveBare(after, address) == Success(Key(o.window, address))
  {
    OverrideMatchesAppend(ui.overrides, o, address);
    var tree := TreeMatches(ui.tree.windows + ui.tree.auxiliary, address);
    var stored, cloned := OverrideMatches(ui.overrides, address), CloneMatches(ui.tree, ui.clones, address);
    var before, now := tree + stored + cloned, tree + (stored + [o.window]) + cloned;
    forall i | 0 <= i < |now|
      ensures now[i] == o.window
    {
      var at := |tree| + |stored|;
      if i != at {
        var k := if i < at then i else i - 1;
        assert now[i] == before[k];
        assert before[k] == before[0];
      }
    }
  }

  lemma BareCreated(ui: Ui, after: Ui, address: string, o: ControlOverride)
    requires Matches(ui, address) == [] && o.control == address
    requires after == ui.(overrides := ui.overrides + [o])
    ensures ResolveBare(after, address) == Success(Key(o.window, address))
  {
    OverrideMatchesAppend(ui.overrides, o, address);
    var tree := TreeMatches(ui.tree.windows + ui.tree.auxiliary, address);
    var stored, cloned := OverrideMatches(ui.overrides, address), CloneMatches(ui.tree, ui.clones, address);
    assert |tree| + |stored| + |cloned| == |Matches(ui, address)|;
    assert Matches(after, address) == [o.window];
  }

  lemma PairCreated(ui: Ui, after: Ui, address: string, window: string, control: string, o: ControlOverride)
    requires ResolvePair(ui, address, window, control).Failure?
    requires Names(o.window, window) && o.control == control
    requires after == ui.(overrides := ui.overrides + [o])
    ensures ResolvePair(after, address, window, control) == Success(Key(o.window, control))
  {
    OverriddenAppend(ui.overrides, o, window, control);
  }

  /** A control created under its parent is what its address means from then on. */
  lemma CreatedResolves(ui: Ui, address: string, assignments: seq<Assignment>, properties: seq<Assignment>)
    requires Resolve(ui, address) == Failure(UnknownControl(address)) && Created(ui, address, assignments).Success?
    ensures var key := Created(ui, address, assignments).value;
      Resolve(ui.(overrides := Store(ui.overrides, key, properties)), address) == Success(key)
  {
    var key := Created(ui, address, assignments).value;
    var o := ControlOverride(key.window, key.control, properties);
    var after := ui.(overrides := ui.overrides + [o]);
    var parts := SplitOnce(address, '.');
    hide ParentWindow, FirstParent, Selected, TreeMatches, CloneMatches, InClone;
    if parts.None? {
      assert OverrideMatches(ui.overrides, address) == [] by {
        assert |OverrideMatches(ui.overrides, address)| <= |Matches(ui, address)|;
      }
      UnknownHasNoOverride(ui.overrides, key, address);
      BareCreated(ui, after, address, o);
    } else {
      SectionAnswers(ui.tree.auxiliary, parts.value.0);
      UnknownHasNoPair(ui.overrides, key, parts.value.0, parts.value.1);
      PairCreated(ui, after, address, parts.value.0, parts.value.1, o);
    }
  }

  lemma {:induction false} UnknownHasNoOverride(overrides: seq<ControlOverride>, key: Key, address: string)
    requires OverrideMatches(overrides, address) == [] && key.control == address
    ensures Position(overrides, key) == |overrides|
  {
    if overrides != [] {
      var n := |overrides| - 1;
      UnknownHasNoOverride(overrides[..n], key, address);
      forall j | 0 <= j < n
        ensures !Is(overrides[j], key)
      {
        assert !Is(overrides[..n][j], key);
      }
    }
  }

  lemma {:induction false} UnknownHasNoPair(overrides: seq<ControlOverride>, key: Key, window: string, control: string)
    requires Overridden(overrides, window, control).None? && Names(key.window, window) && key.control == control
    ensures Position(overrides, key) == |overrides|
  {
    if overrides != [] {
      var n := |overrides| - 1;
      UnknownHasNoPair(overrides[..n], key, window, control);
      forall j | 0 <= j < n
        ensures !Is(overrides[j], key)
      {
        assert !Is(overrides[..n][j], key);
      }
    }
  }

  lemma UnknownNamesItself(ui: Ui, address: string)
    requires Resolve(ui, address).Failure? && Resolve(ui, address).error.UnknownControl?
    ensures Resolve(ui, address) == Failure(UnknownControl(address))
  {
  }

  lemma TargetResolves(ui: Ui, address: string, assignments: seq<Assignment>)
    requires Target(ui, address, assignments).Success?
    ensures var key := Target(ui, address, assignments).value;
      Resolve(Assign(ui, key, assignments), address) == Success(key)
  {
    hide Resolve, Created;
    var key := Target(ui, address, assignments).value;
    var properties := SetAll(OverrideAt(ui.overrides, key), assignments);
    if Resolve(ui, address).Success? {
      ResolvedStaysResolved(ui, address, properties);
    } else {
      UnknownNamesItself(ui, address);
      CreatedResolves(ui, address, assignments, properties);
    }
  }

  /**
    A successful `winset` is read back at its own address: the last case-insensitive assignment of each
    property it names and, for a control that already resolved, the old value of every other property.
   */
  lemma WingetReadsWinset(ui: Ui, address: string, parameters: string, name: string)
    requires Kept(ui) && Winset(ui, address, parameters).Success?
    ensures var after := Winset(ui, address, parameters).value;
      var runtime := Assigned(ParseFrom(parameters, "", OUTSIDE).value, name);
      && Kept(after)
      && Winget(after, address, name).Success?
      && (runtime.Some? ==> Winget(after, address, name) == Success(runtime.value))
      && (runtime.None? && Resolve(ui, address).Success? ==> Winget(after, address, name) == Winget(ui, address, name))
  {
    hide Resolve, Created, Assign, ValueAt;
    var assignments := ParseFrom(parameters, "", OUTSIDE).value;
    var key := Target(ui, address, assignments).value;
    TargetResolves(ui, address, assignments);
    AssignKeeps(ui, key, assignments);
  }

  // ---- what a write does to the meaning of other addresses ----

  predicate HasOverride(ui: Ui, key: Key) {
    Position(ui.overrides, key) < |ui.overrides|
  }

  /** A bare id keeps its meaning unless the new override is one more place, or the first, it could mean. */
  predicate BareIsStable(ui: Ui, key: Key, id: string) {
    || key.control != id
    || HasOverride(ui, key)
    || (Matches(ui, id) != [] && (!AllSame(Matches(ui, id)) || Matches(ui, id)[0] == key.window))
  }

  /** A pair keeps its meaning unless the new override is the first one it could mean and the skin did not agree. */
  predicate PairIsStable(ui: Ui, key: Key, window: string, control: string) {
    || HasOverride(ui, key)
    || InClone(ui, window, control)
    || Overridden(ui.overrides, window, control).Some?
    || !(Names(key.window, window) && key.control == control)
    || (Addressable(ui.tree, window, control).Some? && key.window == window)
  }

  /** Whether an address means the same before and after the first runtime assignment under `key`. */
  predicate IsStable(ui: Ui, key: Key, address: string) {
    || Selected(ui.tree, address).Some?
    || var parts := SplitOnce(address, '.');
       if parts.None? then BareIsStable(ui, key, address) else PairIsStable(ui, key, parts.value.0, parts.value.1)
  }

  lemma OneMoreMatch(ui: Ui, key: Key, properties: seq<Assignment>, address: string)
    requires !HasOverride(ui, key) && key.control == address
    ensures var after := ui.(overrides := Store(ui.overrides, key, properties));
      && (forall w :: w in Matches(after, address) <==> w in Matches(ui, address) || w == key.window)
      && Matches(after, address) != []
  {
    OverrideMatchesAppend(ui.overrides, ControlOverride(key.window, key.control, properties), address);
  }

  lemma SameMembers(windows: seq<string>)
    ensures windows != [] ==> (AllSame(windows) <==> forall w :: w in windows ==> w == windows[0])
  {
    if windows != [] && forall w :: w in windows ==> w == windows[0] {
      forall i | 0 <= i < |windows|
        ensures windows[i] == windows[0]
      {
        assert windows[i] in windows;
      }
    }
  }

  lemma BareStableIff(ui: Ui, key: Key, properties: seq<Assignment>, address: string)
    ensures ResolveBare(ui.(overrides := Store(ui.overrides, key, properties)), address) == ResolveBare(ui, address)
       <==> BareIsStable(ui, key, address)
  {
    var after := ui.(overrides := Store(ui.overrides, key, properties));
    if HasOverride(ui, key) {
      SameKeysSameMatches(ui.overrides, after.overrides, "", address);
    } else if key.control != address {
      OverrideMatchesAppend(ui.overrides, ControlOverride(key.window, key.control, properties), address);
      assert OverrideMatches(ui.overrides, address) + [] == OverrideMatches(ui.overrides, address);
    } else {
      OneMoreMatch(ui, key, properties, address);
      SameMembers(Matches(ui, address));
      SameMembers(Matches(after, address));
      hide Matches, Store;
      var before, now := Matches(ui, address), Matches(after, address);
      assert key.window in now;
      if before != [] {
        assert before[0] in now;
      }
      assert now[0] in now;
    }
  }

  lemma PairStableIff(ui: Ui, key: Key, properties: seq<Assignment>, address: string, window: string, control: string)
    ensures var after := ui.(overrides := Store(ui.overrides, key, properties));
      (ResolvePair(after, address, window, control) == ResolvePair(ui, address, window, control))
      == PairIsStable(ui, key, window, control)
  {
    var after := ui.(overrides := Store(ui.overrides, key, properties));
    if HasOverride(ui, key) {
      SameKeysSameMatches(ui.overrides, after.overrides, window, control);
    } else {
      OverriddenAppend(ui.overrides, ControlOverride(key.window, key.control, properties), window, control);
    }
  }

  /** A write changes what an address means exactly when the address is not stable for the written key. */
  lemma ResolvesAlikeIff(ui: Ui, key: Key, properties: seq<Assignment>, address: string)
    ensures Resolve(ui.(overrides := Store(ui.overrides, key, properties)), address) == Resolve(ui, address)
       <==> IsStable(ui, key, address)
  {
    hide ResolveBare, ResolvePair, BareIsStable, PairIsStable, Store;
    var parts := SplitOnce(address, '.');
    if Selected(ui.tree, address).None? {
      if parts.None? {
        BareStableIff(ui, key, properties, address);
      } else {
        PairStableIff(ui, key, properties, address, parts.value.0, parts.value.1);
      }
    }
  }

  /** Every address that is stable for the written key and does not mean it reads, or is refused, as before. */
  lemma OtherControlsUnchanged(ui: Ui, address: string, parameters: string, other: string, name: string)
    requires Kept(ui) && Winset(ui, address, parameters).Success?
    requires var key := Target(ui, address, ParseFrom(parameters, "", OUTSIDE).value).value;
      IsStable(ui, key, other) && Resolve(ui, other) != Success(key)
    ensures Winget(Winset(ui, address, parameters).value, other, name) == Winget(ui, other, name)
  {
    hide Resolve, Created, ValueAt, IsStable;
    var assignments := ParseFrom(parameters, "", OUTSIDE).value;
    var key := Target(ui, address, assignments).value;
    ResolvesAlikeIff(ui, key, SetAll(OverrideAt(ui.overrides, key), assignments), other);
    AssignKeeps(ui, key, assignments);
  }

  /** Quoted assignments arrive: every value sent is the value read, whatever it contains. */
  lemma QuotedWinsetReadsBack(ui: Ui, address: string, list: seq<Assignment>, i: nat)
    requires Kept(ui) && GoodNames(list) && i < |list| && Winset(ui, address, Joined(list)).Success?
    requires forall j :: i < j < |list| ==> !SameName(list[j].name, list[i].name)
    ensures Winget(Winset(ui, address, Joined(list)).value, address, list[i].name) == Success(list[i].value)
  {
    hide Winset, Winget, ParseFrom, GoodNames;
    ParseInvertsJoin(list);
    LastAssigned(list, i);
    WingetReadsWinset(ui, address, Joined(list), list[i].name);
  }

  lemma {:induction false} LastAssigned(list: seq<Assignment>, i: nat)
    requires i < |list| && forall j :: i < j < |list| ==> !SameName(list[j].name, list[i].name)
    ensures Assigned(list, list[i].name) == Some(list[i].value)
  {
    if i < |list| - 1 {
      LastAssigned(list[..|list| - 1], i);
    }
  }
}
