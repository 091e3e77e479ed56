/**
  When `winclone` is granted and what it copies, also onto a name that is in use
  (crates/dm-dmf/src/lib.rs:906-952).
 */
module Winclones {
  import opened Wrappers
  import opened ControlTrees
  import opened Assignments
  import opened UiStates
  import opened UiWindows
  import opened Addresses

  ghost predicate IsWindow(tree: ControlTree, id: string) {
    exists w :: w in tree.windows + tree.auxiliary && w.id == id
  }

  /** A window clones to every name but the empty one; a control clones where both addresses mean a control. */
  lemma ClonedIff(ui: Ui, source: string, destination: string)
    ensures IsWindow(ui.tree, source) ==>
      (Winclone(ui, source, destination).Success? <==> destination != "") &&
      (destination == "" ==> Winclone(ui, source, destination) == Failure(UnknownControl("")))
    ensures !IsWindow(ui.tree, source) ==>
      var from, to := Resolve(ui, source), Resolve(ui, destination);
      (Winclone(ui, source, destination).Success? <==> from.Success? && to.Success?) &&
      (from.Failure? ==> Winclone(ui, source, destination) == Failure(from.error)) &&
      (from.Success? && to.Failure? ==> Winclone(ui, source, destination) == Failure(to.error))
  {
    hide Resolve, CloneWindow;
    WindowWithIdIff(ui.tree.windows + ui.tree.auxiliary, source);
  }

  /** A control clone takes the other control's runtime values and keeps its own skin; nothing else changes. */
  lemma ControlCloneReads(ui: Ui, source: string, destination: string, key: Key, name: string)
    requires Kept(ui) && !IsWindow(ui.tree, source)
    requires Resolve(ui, source).Success? && Resolve(ui, destination).Success?
    ensures Winclone(ui, source, destination).Success?
    ensures var after := Winclone(ui, source, destination).value;
      var from, to := Resolve(ui, source).value, Resolve(ui, destination).value;
      var copied := Assigned(OverrideAt(ui.overrides, from), name);
      ValueAt(after, key, name) ==
      if key != to then ValueAt(ui, key, name)
      else if copied.Some? then copied.value else SkinValue(ui, to, name)
  {
    hide Resolve, Assigned, Position, CloneWindow, Addressable;
    WindowWithIdIff(ui.tree.windows + ui.tree.auxiliary, source);
    var from, to := Resolve(ui, source).value, Resolve(ui, destination).value;
    StoreReads(ui.overrides, to, OverrideAt(ui.overrides, from), key);
  }

  /** The clone is the one of its name from then on, and clones of other names stay what they were. */
  lemma CloneIsRemembered(ui: Ui, source: string, destination: string, other: string)
    ensures CloneOf(CloneWindow(ui, source, destination).clones, other) ==
        if other == destination then Some(ClonedWindow(source, destination)) else CloneOf(ui.clones, other)
  {
    if other == destination {
      NewCloneIsFound(ui.clones, source, destination);
    } else {
      OtherClonesStay(ui.clones, source, destination, other);
    }
  }

  lemma {:induction false} OtherClonesStay(
      clones: seq<ClonedWindow>, source: string, destination: string, other: string)
    requires other != destination
    ensures CloneOf(Without(clones, destination) + [ClonedWindow(source, destination)], other) == CloneOf(clones, other)
  {
    var added := [ClonedWindow(source, destination)];
    if clones == [] {
      assert Without(clones, destination) + added == added;
    } else {
      OtherClonesStay(clones[1..], source, destination, other);
      if clones[0].destination != destination {
        var rest := Without(clones[1..], destination) + added;
        assert Without(clones, destination) + added == [clones[0]] + rest;
        assert ([clones[0]] + rest)[1..] == rest;
      }
    }
  }

  /** A window clone replaces what was set under its name where the source has something set, and only there. */
  lemma CloneOverwrites(ui: Ui, source: string, destination: string, control: string)
    requires Kept(ui) && source != destination && control != source && control != destination
    ensures OverrideAt(CloneWindow(ui, source, destination).overrides, Key(destination, control)) ==
        if Holds(ui.overrides, Key(source, control)) then OverrideAt(ui.overrides, Key(source, control))
        else OverrideAt(ui.overrides, Key(destination, control))
  {
    CopyOverwrites(ui.overrides, ui.overrides, source, destination, control);
  }

  lemma {:induction false} CopyOverwrites(
      into: seq<ControlOverride>, from: seq<ControlOverride>, source: string, destination: string, control: string)
    requires DistinctKeys(into) && DistinctKeys(from)
    requires source != destination && control != source && control != destination
    ensures DistinctKeys(CopyOverrides(into, from, source, destination))
    ensures OverrideAt(CopyOverrides(into, from, source, destination), Key(destination, control)) ==
        if Holds(from, Key(source, control)) then OverrideAt(from, Key(source, control))
        else OverrideAt(into, Key(destination, control))
  {
    if from != [] {
      var n := |from| - 1;
      var o, key := from[n], Key(source, control);
      assert from == from[..n] + [o];
      CopyOverwrites(into, from[..n], source, destination, control);
      OverrideAtAppend(from[..n], o, key);
      assert Holds(from, key) <==> Holds(from[..n], key) || Is(o, key) by {
        HoldsAppend(from[..n], o, key);
      }
      if o.window == source {
        StoreReads(CopyOverrides(into, from[..n], source, destination), Landed(source, destination, o.control),
            o.properties, Key(destination, control));
      }
    }
  }

  lemma HoldsAppend(overrides: seq<ControlOverride>, o: ControlOverride, key: Key)
    ensures Holds(overrides + [o], key) <==> Holds(overrides, key) || Is(o, key)
  {
    var all := overrides + [o];
    if Holds(overrides, key) {
      var i :| 0 <= i < |overrides| && Is(overrides[i], key);
      assert Is(all[i], key);
    }
    if Is(o, key) {
      assert Is(all[|overrides|], key);
    }
    if Holds(all, key) {
      var i :| 0 <= i < |all| && Is(all[i], key);
      assert i < |overrides| ==> Is(overrides[i], key);
    }
  }
}
