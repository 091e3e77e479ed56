/**
  Cloning the same window to the same name twice, as a refused page does each time it is tried
  (crates/dm-dmf/src/lib.rs:885-933).
 */
module RepeatedClones {
  import opened Assignments
  import opened UiStates
  import opened UiWindows
  import opened BrowserWindows

  // ---- storing under two keys ----

  lemma StoreOver(overrides: seq<ControlOverride>, key: Key, first: seq<Assignment>, second: seq<Assignment>)
    ensures Store(Store(overrides, key, first), key, second) == Store(overrides, key, second)
  {
    PositionAfter(overrides, key, first, key);
  }

  lemma PositionAfter(overrides: seq<ControlOverride>, key: Key, properties: seq<Assignment>, other: Key)
    ensures var p, q := Position(overrides, other), Position(Store(overrides, key, properties), other);
      (p < |overrides| || other == key) ==> q == p
    ensures var p, q := Position(overrides, other), Position(Store(overrides, key, properties), other);
      (p == |overrides| && other != key) ==> q == |Store(overrides, key, properties)|
  {
    var after := Store(overrides, key, properties);
    var p, q := Position(overrides, other), Position(after, other);
    forall j | 0 <= j < |overrides|
      ensures Is(after[j], other) == Is(overrides[j], other)
    {
    }
    if other == key {
      assert Is(after[Position(overrides, key)], other);
    }
    if q < |overrides| {
      assert Is(after[q], other) && Is(overrides[q], other);
    }
    if p < |overrides| {
      assert Is(overrides[p], other) && Is(after[p], other);
    }
  }

  /** Stores under different keys commute once the key that came second has a place. */
  lemma StoresCommute(
      overrides: seq<ControlOverride>, held: Key, first: seq<Assignment>, key: Key, second: seq<Assignment>)
    requires Holds(overrides, held) && held != key
    ensures Store(Store(overrides, held, first), key, second) == Store(Store(overrides, key, second), held, first)
  {
    PositionAfter(overrides, held, first, key);
    PositionAfter(overrides, key, second, held);
    var p, q := Position(overrides, held), Position(overrides, key);
    if q < |overrides| {
      assert Is(overrides[p], held) && Is(overrides[q], key);
      assert p != q;
    }
  }

  // ---- copying twice ----

  /** Every landing place of the copied overrides is there already. */
  predicate HoldsLandings(
      overrides: seq<ControlOverride>, from: seq<ControlOverride>, source: string, destination: string)
  {
    forall i :: 0 <= i < |from| && from[i].window == source ==>
      Holds(overrides, Landed(source, destination, from[i].control))
  }

  lemma {:induction false} CopyKeepsHolding(into: seq<ControlOverride>, from: seq<ControlOverride>,
                                         source: string, destination: string, key: Key)
    requires Holds(into, key)
    ensures Holds(CopyOverrides(into, from, source, destination), key)
  {
    if from != [] {
      var n := |from| - 1;
      CopyKeepsHolding(into, from[..n], source, destination, key);
      PositionAfter(CopyOverrides(into, from[..n], source, destination), Landed(source, destination, from[n].control),
                    from[n].properties, key);
    }
  }

  lemma {:induction false} CopyHoldsLandings(into: seq<ControlOverride>, from: seq<ControlOverride>,
                                             source: string, destination: string)
    ensures HoldsLandings(CopyOverrides(into, from, source, destination), from, source, destination)
  {
    if from != [] {
      var n := |from| - 1;
      var before := CopyOverrides(into, from[..n], source, destination);
      CopyHoldsLandings(into, from[..n], source, destination);
      forall i | 0 <= i <= n && from[i].window == source
        ensures Holds(CopyOverrides(into, from, source, destination), Landed(source, destination, from[i].control))
      {
        assert i < n ==> from[..n][i] == from[i];
        PositionAfter(before, Landed(source, destination, from[n].control), from[n].properties,
                      Landed(source, destination, from[i].control));
      }
    }
  }

  /** What a store before a copy put under a key is undone by the same store after it. */
  lemma {:induction false} StoreAroundCopy(into: seq<ControlOverride>, from: seq<ControlOverride>, source: string,
                                           destination: string, key: Key, properties: seq<Assignment>)
    requires HoldsLandings(into, from, source, destination)
    ensures Store(CopyOverrides(Store(into, key, properties), from, source, destination), key, properties)
         == Store(CopyOverrides(into, from, source, destination), key, properties)
  {
    if from == [] {
      StoreOver(into, key, properties, properties);
    } else {
      var n := |from| - 1;
      var o, fewer := from[n], from[..n];
      assert forall i :: 0 <= i < n ==> fewer[i] == from[i];
      StoreAroundCopy(into, fewer, source, destination, key, properties);
      if o.window == source {
        var landed := Landed(source, destination, o.control);
        var stored := Store(into, key, properties);
        assert Holds(into, landed);
        PositionAfter(into, key, properties, landed);
        var a, b := CopyOverrides(stored, fewer, source, destination), CopyOverrides(into, fewer, source, destination);
        CopyKeepsHolding(stored, fewer, source, destination, landed);
        CopyKeepsHolding(into, fewer, source, destination, landed);
        hide Store, Position;
        if landed == key {
          StoreOver(a, key, o.properties, properties);
          StoreOver(b, key, o.properties, properties);
        } else {
          StoresCommute(a, landed, o.properties, key, properties);
          StoresCommute(b, landed, o.properties, key, properties);
        }
      }
    }
  }

  /** Copying the same overrides again changes nothing. */
  lemma {:induction false} CopyTwice(
      into: seq<ControlOverride>, from: seq<ControlOverride>, source: string, destination: string)
    ensures CopyOverrides(CopyOverrides(into, from, source, destination), from, source, destination)
         == CopyOverrides(into, from, source, destination)
  {
    if from != [] {
      var n := |from| - 1;
      var o, fewer := from[n], from[..n];
      CopyTwice(into, fewer, source, destination);
      if o.window == source {
        var once := CopyOverrides(into, fewer, source, destination);
        CopyHoldsLandings(into, fewer, source, destination);
        StoreAroundCopy(once, fewer, source, destination, Landed(source, destination, o.control), o.properties);
      }
      hide Store, HoldsLandings;
    }
  }

  // ---- what a clone leaves to copy ----

  /** The overrides a clone of `source` copies. */
  function Picked(from: seq<ControlOverride>, source: string): seq<ControlOverride> {
    if from == [] then []
    else
      var n := |from| - 1;
      Picked(from[..n], source) + if from[n].window == source then [from[n]] else []
  }

  lemma CopyPush(
      into: seq<ControlOverride>, from: seq<ControlOverride>, o: ControlOverride, source: string, destination: string)
    ensures var before := CopyOverrides(into, from, source, destination);
      CopyOverrides(into, from + [o], source, destination)
        == if o.window == source then Store(before, Landed(source, destination, o.control), o.properties) else before
  {
    assert (from + [o])[..|from|] == from;
  }

  lemma {:induction false} CopyIsOfPicked(into: seq<ControlOverride>, from: seq<ControlOverride>,
                                          source: string, destination: string)
    ensures CopyOverrides(into, from, source, destination)
        == CopyOverrides(into, Picked(from, source), source, destination)
  {
    if from != [] {
      var n := |from| - 1;
      CopyIsOfPicked(into, from[..n], source, destination);
      if from[n].window == source {
        CopyPush(into, Picked(from[..n], source), from[n], source, destination);
      } else {
        assert Picked(from, source) == Picked(from[..n], source);
      }
      hide Store;
    }
  }

  lemma {:induction false} SamePicked(a: seq<ControlOverride>, b: seq<ControlOverride>, source: string)
    requires |a| == |b|
    requires forall i :: 0 <= i < |a| ==> a[i] == b[i] || (a[i].window != source && b[i].window != source)
    ensures Picked(a, source) == Picked(b, source)
  {
    if a != [] {
      SamePicked(a[..|a| - 1], b[..|a| - 1], source);
    }
  }

  lemma PickedAfterStore(overrides: seq<ControlOverride>, key: Key, properties: seq<Assignment>, source: string)
    requires key.window != source
    ensures Picked(Store(overrides, key, properties), source) == Picked(overrides, source)
  {
    var after := Store(overrides, key, properties);
    if Holds(overrides, key) {
      SamePicked(overrides, after, source);
    } else {
      assert after[..|overrides|] == overrides;
      assert Picked(overrides, source) + [] == Picked(overrides, source);
    }
  }

  lemma {:induction false} PickedAfterCopy(into: seq<ControlOverride>, from: seq<ControlOverride>,
                                           source: string, destination: string)
    requires source != destination
    ensures Picked(CopyOverrides(into, from, source, destination), source) == Picked(into, source)
  {
    if from != [] {
      var n := |from| - 1;
      PickedAfterCopy(into, from[..n], source, destination);
      if from[n].window == source {
        PickedAfterStore(CopyOverrides(into, from[..n], source, destination),
                         Landed(source, destination, from[n].control), from[n].properties, source);
      }
      hide Store, Picked;
    }
  }

  /** A window copied onto itself stays as it is. */
  lemma {:induction false} CopyOntoItself(overrides: seq<ControlOverride>, n: nat, source: string)
    requires DistinctKeys(overrides) && n <= |overrides|
    ensures CopyOverrides(overrides, overrides[..n], source, source) == overrides
  {
    if n > 0 {
      CopyOntoItself(overrides, n - 1, source);
      assert overrides[..n][..n - 1] == overrides[..n - 1];
      var o := overrides[n - 1];
      var key := Landed(source, source, o.control);
      if o.window == source {
        assert Is(o, key);
        assert Position(overrides, key) == n - 1;
      }
    }
  }

  // ---- the clone, again ----

  lemma CopyAgain(overrides: seq<ControlOverride>, source: string, destination: string)
    requires DistinctKeys(overrides)
    ensures var once := CopyOverrides(overrides, overrides, source, destination);
      CopyOverrides(once, once, source, destination) == once
  {
    var once := CopyOverrides(overrides, overrides, source, destination);
    if source == destination {
      assert overrides[..|overrides|] == overrides;
      CopyOntoItself(overrides, |overrides|, source);
    } else {
      PickedAfterCopy(overrides, overrides, source, destination);
      CopyIsOfPicked(overrides, overrides, source, destination);
      CopyIsOfPicked(once, once, source, destination);
      CopyTwice(overrides, Picked(overrides, source), source, destination);
    }
  }

  /** Cloning a window to the same name again changes nothing. */
  lemma CloneAgain(ui: Ui, source: string, destination: string)
    requires Kept(ui)
    ensures CloneWindow(CloneWindow(ui, source, destination), source, destination)
        == CloneWindow(ui, source, destination)
  {
    CopyAgain(ui.overrides, source, destination);
    WithoutTwice(ui.clones, ClonedWindow(source, destination));
    hide CopyOverrides, Without;
  }

  /** A request for a browser window that is refused twice leaves what the first one left. */
  lemma RefusedTwice(ui: Ui, window: string)
    requires Kept(ui) && window != "" && Resolve(ui, window).Failure? && EnsureBrowser(ui, window).1.Some?
    ensures var after := EnsureBrowser(ui, window).0;
      && Resolve(after, window).Failure? && EnsureBrowser(after, window).1.Some?
      && EnsureBrowser(after, window).0 == after
  {
    var after := EnsureBrowser(ui, window).0;
    RefusedAgain(ui, window);
    EnsureBrowserIff(ui, window);
    EnsureBrowserIff(after, window);
    CloneAgain(ui, TEMPLATE, window);
    hide EnsureBrowser, CloneWindow, Resolve, Unsettled;
  }
}
