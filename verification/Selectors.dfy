/**
  What a `:type` address selects
  (crates/dm-dmf/src/lib.rs:443-457, 955-989).
 */
module Selectors {
  import opened Wrappers
  import opened Strings
  import opened ControlTrees
  import opened UiNames

  // ---- the names of types ----

  predicate NoCapitals(s: string) {
    forall i :: 0 <= i < |s| ==> !(65 <= s[i] as int <= 90)
  }

  lemma LowersTo(name: string, literal: string)
    requires NoCapitals(literal)
    ensures Lower(name) == literal <==> Alike(name, literal)
  {
    SameNameIff(name, literal);
    assert Lower(literal) == literal;
  }

  /** Seven names, in any casing. */
  lemma TypeNamedIff(name: string)
    ensures TypeNamed(name) == MainType <==> Alike(name, "main")
    ensures TypeNamed(name) == MapType <==> Alike(name, "map")
    ensures TypeNamed(name) == BrowserType <==> Alike(name, "browser")
    ensures TypeNamed(name) == InputType <==> Alike(name, "input")
    ensures TypeNamed(name) == OutputType <==> Alike(name, "output")
    ensures TypeNamed(name) == LabelType <==> Alike(name, "label")
    ensures TypeNamed(name) == ButtonType <==> Alike(name, "button")
  {
    hide Alike, Lower;
    LowersTo(name, "main");
    LowersTo(name, "map");
    LowersTo(name, "browser");
    LowersTo(name, "input");
    LowersTo(name, "output");
    LowersTo(name, "label");
    LowersTo(name, "button");
  }

  // ---- the order of candidates ----

  /** The first `k` characters agree and then `a` ends or has the smaller character. */
  predicate BelowAt(a: string, b: string, k: nat) {
    && k <= |a| && k < |b| && a[..k] == b[..k]
    && (k == |a| || a[k] < b[k])
  }

  lemma {:induction false} BelowIff(a: string, b: string)
    ensures Below(a, b) <==> exists k: nat :: k <= |a| && BelowAt(a, b, k)
  {
    if a == "" || b == "" {
      assert b != "" ==> BelowAt(a, b, 0);
    } else {
      BelowIff(a[1..], b[1..]);
      if a[0] == b[0] {
        if k: nat :| k <= |a[1..]| && BelowAt(a[1..], b[1..], k) {
          assert a[..k + 1] == [a[0]] + a[1..][..k] && b[..k + 1] == [b[0]] + b[1..][..k];
          assert BelowAt(a, b, k + 1);
        }
        if k: nat :| k <= |a| && BelowAt(a, b, k) {
          assert k > 0 && a[1..][..k - 1] == a[..k][1..] && b[1..][..k - 1] == b[..k][1..];
          assert BelowAt(a[1..], b[1..], k - 1);
        }
      } else {
        assert a[0] < b[0] ==> BelowAt(a, b, 0);
        if k: nat :| k <= |a| && BelowAt(a, b, k) && k > 0 {
          assert a[..k][0] == b[..k][0];
        }
      }
    }
  }

  lemma {:induction false} BelowIsTransitive(a: string, b: string, c: string)
    requires Below(a, b) && Below(b, c)
    ensures Below(a, c)
  {
    if a != "" && a[0] == b[0] == c[0] {
      BelowIsTransitive(a[1..], b[1..], c[1..]);
    }
  }

  lemma {:induction false} BelowIsTotal(a: string, b: string)
    ensures !(Below(a, b) && Below(b, a))
    ensures a == b || Below(a, b) || Below(b, a)
  {
    if a != "" && b != "" && a[0] == b[0] {
      BelowIsTotal(a[1..], b[1..]);
      assert a == [a[0]] + a[1..] && b == [b[0]] + b[1..];
    }
  }

  lemma PrecedesIsOrder(a: Candidate, b: Candidate, c: Candidate)
    ensures !Precedes(a, a)
    ensures Precedes(a, b) && Precedes(b, c) ==> Precedes(a, c)
    ensures !Precedes(b, a) && !Precedes(c, b) ==> !Precedes(c, a)
  {
    hide Below, IsDefault;
    BelowOrders(a.window, b.window, c.window);
    BelowOrders(IdOf(a.control), IdOf(b.control), IdOf(c.control));
  }

  lemma BelowOrders(a: string, b: string, c: string)
    ensures !Below(a, a)
    ensures a == b || Below(a, b) || Below(b, a)
    ensures b == c || Below(b, c) || Below(c, b)
    ensures a == c || Below(a, c) || Below(c, a)
    ensures Below(a, b) ==> !Below(b, a)
    ensures Below(b, c) ==> !Below(c, b)
    ensures Below(a, c) ==> !Below(c, a)
    ensures Below(a, b) && Below(b, c) ==> Below(a, c)
    ensures Below(c, b) && Below(b, a) ==> Below(c, a)
  {
    hide Below;
    BelowIsTotal(a, a);
    BelowIsTotal(a, b);
    BelowIsTotal(b, c);
    BelowIsTotal(a, c);
    if Below(a, b) && Below(b, c) {
      BelowIsTransitive(a, b, c);
    }
    if Below(c, b) && Below(b, a) {
      BelowIsTransitive(c, b, a);
    }
  }

  // ---- the selection ----

  ghost predicate Stands(sections: seq<Window>, kind: ControlType, c: Candidate) {
    c.control.kind == kind &&
    exists i :: 0 <= i < |sections| && sections[i].id == c.window && c.control in sections[i].controls
  }

  lemma {:induction false} OfTypeIff(window: Window, controls: seq<Control>, kind: ControlType, c: Candidate)
    ensures c in OfType(window, controls, kind) <==>
        c.window == window.id && c.control in controls && c.control.kind == kind
  {
    if controls != [] {
      OfTypeIff(window, controls[1..], kind, c);
      assert controls == [controls[0]] + controls[1..];
    }
  }

  lemma {:induction false} AllOfTypeIff(sections: seq<Window>, kind: ControlType, c: Candidate)
    ensures c in AllOfType(sections, kind) <==> Stands(sections, kind, c)
  {
    if sections != [] {
      AllOfTypeIff(sections[1..], kind, c);
      OfTypeIff(sections[0], sections[0].controls, kind, c);
      if Stands(sections[1..], kind, c) {
        var i :| 0 <= i < |sections[1..]| && sections[1..][i].id == c.window && c.control in sections[1..][i].controls;
        assert sections[i + 1].id == c.window;
      }
      if Stands(sections, kind, c) && !(c.window == sections[0].id && c.control in sections[0].controls) {
        var i :| 0 <= i < |sections| && sections[i].id == c.window && c.control in sections[i].controls;
        assert sections[1..][i - 1].id == c.window;
      }
    }
  }

  lemma {:induction false} FirstIsLeast(candidates: seq<Candidate>)
    ensures First(candidates).None? <==> candidates == []
    ensures First(candidates).Some? ==>
      First(candidates).value in candidates &&
      forall c :: c in candidates ==> !Precedes(c, First(candidates).value)
  {
    if candidates != [] {
      hide Precedes;
      FirstIsLeast(candidates[1..]);
      var first, rest := First(candidates).value, First(candidates[1..]);
      PrecedesIsOrder(candidates[0], candidates[0], candidates[0]);
      forall c | c in candidates
        ensures !Precedes(c, first)
      {
        if rest.Some? {
          PrecedesIsOrder(first, rest.value, c);
          PrecedesIsOrder(rest.value, candidates[0], rest.value);
        }
        assert c == candidates[0] || c in candidates[1..];
      }
    }
  }

  /** Declared a default: the last `is-default`, in any casing, is `true`, `yes` or `1`, in any casing. */
  ghost predicate Default(control: Control) {
    exists i :: LastAlike(DeclaredNames(control.properties), "is-default", i) && Affirms(control.properties[i].value)
  }

  predicate Affirms(value: string) {
    var v := Trim(value);
    Alike(v, "true") || Alike(v, "yes") || Alike(v, "1")
  }

  lemma DefaultIff(control: Control)
    ensures IsDefault(control) <==> Default(control)
  {
    hide Alike, Lower, Trim, Declared;
    var properties := control.properties;
    DeclaredIff(properties, "is-default");
    forall value
      ensures Lower(Trim(value)) in {"true", "yes", "1"} <==> Affirms(value)
    {
      LowersTo(Trim(value), "true");
      LowersTo(Trim(value), "yes");
      LowersTo(Trim(value), "1");
    }
    forall i, j | LastAlike(DeclaredNames(properties), "is-default", i) &&
      LastAlike(DeclaredNames(properties), "is-default", j)
      ensures i == j
    {
    }
    if Declared(properties, "is-default").None? {
      forall i
        ensures !LastAlike(DeclaredNames(properties), "is-default", i)
      {
      }
    }
  }

  ghost predicate Lesser(a: string, b: string) {
    exists k: nat :: k <= |a| && BelowAt(a, b, k)
  }

  /** Anonymous controls come before all but the empty name. */
  ghost predicate LesserId(a: Option<string>, b: Option<string>) {
    b.Some? && if a.Some? then Lesser(a.value, b.value) else b.value != ""
  }

  /** Defaults first, then by the window's name and the control's, character by character. */
  ghost predicate Earlier(a: Candidate, b: Candidate) {
    || (Default(a.control) && !Default(b.control))
    || (Default(a.control) == Default(b.control) &&
          (Lesser(a.window, b.window) || (a.window == b.window && LesserId(a.control.id, b.control.id))))
  }

  lemma BelowEmpty(s: string)
    ensures (Below("", s) <==> s != "") && !Below(s, "")
  {
  }

  lemma PrecedesIff(a: Candidate, b: Candidate)
    ensures Precedes(a, b) <==> Earlier(a, b)
  {
    hide Below, Lesser, IsDefault, Default;
    DefaultIff(a.control);
    DefaultIff(b.control);
    LesserIff(a.window, b.window);
    LesserIff(IdOf(a.control), IdOf(b.control));
    BelowIsTotal(a.window, b.window);
    BelowEmpty(IdOf(a.control));
    BelowEmpty(IdOf(b.control));
  }

  lemma LesserIff(a: string, b: string)
    ensures Below(a, b) <==> Lesser(a, b)
  {
    BelowIff(a, b);
  }

  /** The selected control is one of the type that no other of the type comes before. */
  lemma SelectedIsEarliest(tree: ControlTree, name: string)
    requires Selected(tree, ":" + name).Some?
    ensures var (window, id) := Selected(tree, ":" + name).value;
      exists c :: Stands(tree.windows + tree.auxiliary, TypeNamed(name), c) &&
        c.window == window && c.control.id == Some(id) &&
        forall d :: Stands(tree.windows + tree.auxiliary, TypeNamed(name), d) ==> !Earlier(d, c)
  {
    hide TypeNamed, Stands, Earlier, Precedes;
    assert (":" + name)[1..] == name;
    var sections, kind := tree.windows + tree.auxiliary, TypeNamed(name);
    FirstIsLeast(AllOfType(sections, kind));
    var c := First(AllOfType(sections, kind)).value;
    AllOfTypeIff(sections, kind, c);
    forall d | Stands(sections, kind, d)
      ensures !Earlier(d, c)
    {
      AllOfTypeIff(sections, kind, d);
      PrecedesIff(d, c);
    }
  }

  /** Nothing is selected without a colon, a known type or a control of it; identified controls always are. */
  lemma SelectedWhen(tree: ControlTree, address: string)
    ensures !(":" <= address) ==> Selected(tree, address).None?
    ensures ":" <= address ==>
      var kind := TypeNamed(address[1..]);
      var sections := tree.windows + tree.auxiliary;
      var some := exists c :: Stands(sections, kind, c);
      var identified := forall c :: Stands(sections, kind, c) ==> c.control.id.Some?;
      && (kind == UnknownType || !some ==> Selected(tree, address).None?)
      && (kind != UnknownType && some && identified ==> Selected(tree, address).Some?)
  {
    hide TypeNamed, Stands;
    if ":" <= address {
      var sections, kind := tree.windows + tree.auxiliary, TypeNamed(address[1..]);
      FirstIsLeast(AllOfType(sections, kind));
      forall c
        ensures c in AllOfType(sections, kind) <==> Stands(sections, kind, c)
      {
        AllOfTypeIff(sections, kind, c);
      }
    }
  }
}
