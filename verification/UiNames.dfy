/**
  Property names are compared without regard to ASCII case, the last one wins,
  and runtime assignments come before the skin
  (crates/dm-dmf/src/lib.rs:382-391, 602-621, 675-707).
 */
module UiNames {
  import opened Wrappers
  import opened ControlTrees
  import opened Assignments
  import opened UiStates

  /** Equal, or one ASCII letter in its two cases. */
  predicate SameLetter(x: char, y: char) {
    || x == y
    || (65 <= x as int <= 90 && y as int == x as int + 32)
    || (65 <= y as int <= 90 && x as int == y as int + 32)
  }

  predicate Alike(a: string, b: string) {
    |a| == |b| && forall i :: 0 <= i < |a| ==> SameLetter(a[i], b[i])
  }

  lemma SameNameIff(a: string, b: string)
    ensures SameName(a, b) <==> Alike(a, b)
  {
    if SameName(a, b) {
      forall i | 0 <= i < |a|
        ensures SameLetter(a[i], b[i])
      {
        assert Lower(a)[i] == Lower(b)[i];
      }
    }
    if Alike(a, b) {
      forall i | 0 <= i < |a|
        ensures Lower(a)[i] == Lower(b)[i]
      {
        assert SameLetter(a[i], b[i]);
      }
    }
  }

  // ---- the last value of a name ----

  predicate LastAlike(names: seq<string>, name: string, i: int) {
    && 0 <= i < |names| && Alike(names[i], name)
    && forall j :: i < j < |names| ==> !Alike(names[j], name)
  }

  lemma EarlierStaysLast(names: seq<string>, name: string, i: int)
    requires names != [] && !Alike(names[|names| - 1], name) && LastAlike(names[..|names| - 1], name, i)
    ensures LastAlike(names, name, i)
  {
    hide Alike;
  }

  function AssignedNames(properties: seq<Assignment>): seq<string> {
    seq(|properties|, i requires 0 <= i < |properties| => properties[i].name)
  }

  function DeclaredNames(properties: seq<Property>): seq<string> {
    seq(|properties|, i requires 0 <= i < |properties| => properties[i].key)
  }

  lemma {:induction false} AssignedIff(properties: seq<Assignment>, name: string)
    ensures match Assigned(properties, name)
      case Some(value) => exists i :: LastAlike(AssignedNames(properties), name, i) && properties[i].value == value
      case None => forall i :: 0 <= i < |properties| ==> !Alike(properties[i].name, name)
  {
    if properties != [] {
      var n := |properties| - 1;
      SameNameIff(properties[n].name, name);
      if SameName(properties[n].name, name) {
        assert LastAlike(AssignedNames(properties), name, n);
      } else {
        AssignedIff(properties[..n], name);
        if Assigned(properties, name).Some? {
          var i :| LastAlike(AssignedNames(properties[..n]), name, i) &&
            properties[i].value == Assigned(properties, name).value;
          assert AssignedNames(properties)[..n] == AssignedNames(properties[..n]);
          EarlierStaysLast(AssignedNames(properties), name, i);
        }
      }
    }
  }

  lemma AssignedAt(properties: seq<Assignment>, name: string, i: int)
    requires LastAlike(AssignedNames(properties), name, i)
    ensures Assigned(properties, name) == Some(properties[i].value)
  {
    hide Assigned, Alike;
    AssignedIff(properties, name);
    assert Alike(properties[i].name, name);
  }

  lemma {:induction false} DeclaredIff(properties: seq<Property>, name: string)
    ensures match Declared(properties, name)
      case Some(value) => exists i :: LastAlike(DeclaredNames(properties), name, i) && properties[i].value == value
      case None => forall i :: 0 <= i < |properties| ==> !Alike(properties[i].key, name)
  {
    if properties != [] {
      var n := |properties| - 1;
      SameNameIff(properties[n].key, name);
      if SameName(properties[n].key, name) {
        assert LastAlike(DeclaredNames(properties), name, n);
      } else {
        DeclaredIff(properties[..n], name);
        if Declared(properties, name).Some? {
          var i :| LastAlike(DeclaredNames(properties[..n]), name, i) &&
            properties[i].value == Declared(properties, name).value;
          assert DeclaredNames(properties)[..n] == DeclaredNames(properties[..n]);
          EarlierStaysLast(DeclaredNames(properties), name, i);
        }
      }
    }
  }

  // ---- recasing ----

  lemma {:induction false} RecasedAssigned(properties: seq<Assignment>, name: string, recased: string)
    requires SameName(name, recased)
    ensures Assigned(properties, name) == Assigned(properties, recased)
  {
    if properties != [] {
      RecasedAssigned(properties[..|properties| - 1], name, recased);
    }
  }

  lemma {:induction false} RecasedDeclared(properties: seq<Property>, name: string, recased: string)
    requires SameName(name, recased)
    ensures Declared(properties, name) == Declared(properties, recased)
  {
    if properties != [] {
      RecasedDeclared(properties[..|properties| - 1], name, recased);
    }
  }

  /** Every casing of a property name reads alike. */
  lemma RecasedWinget(ui: Ui, address: string, name: string, recased: string)
    requires Alike(name, recased)
    ensures Winget(ui, address, name) == Winget(ui, address, recased)
  {
    hide Resolve, Assigned, Declared, SkinControl;
    SameNameIff(name, recased);
    if Resolve(ui, address).Success? {
      var key := Resolve(ui, address).value;
      RecasedAssigned(OverrideAt(ui.overrides, key), name, recased);
      if SkinControl(ui, key).Some? {
        RecasedDeclared(SkinControl(ui, key).value.properties, name, recased);
      }
    }
  }

  /** A write under one casing is read under every other, and the last write of a name is the one read. */
  lemma RecasedWinsetReads(ui: Ui, address: string, parameters: string, i: nat, name: string)
    requires Kept(ui) && Winset(ui, address, parameters).Success?
    requires var names := AssignedNames(ParseFrom(parameters, "", OUTSIDE).value); LastAlike(names, name, i)
    ensures Winget(Winset(ui, address, parameters).value, address, name) ==
        Success(ParseFrom(parameters, "", OUTSIDE).value[i].value)
  {
    hide Kept, Winget, ParseFrom, Assigned, LastAlike, Target, Assign;
    WingetReadsWinset(ui, address, parameters, name);
    AssignedAt(ParseFrom(parameters, "", OUTSIDE).value, name, i);
  }
}
