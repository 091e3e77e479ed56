/**
  Splicing declarations into expansion order with one moving index per file
  (crates/dm-compiler/src/lib.rs:3449-3487).
 */
module Sweep {
  import opened Wrappers
  import opened Expansion

  datatype Unit = Unit(file: nat, index: nat)

  /** Per file, the original start offset of each declaration; `None` for files without syntax. */
  type Starts = seq<Option<seq<nat>>>

  predicate Monotone(starts: seq<nat>) {
    forall i, j :: 0 <= i < j < |starts| ==> starts[i] <= starts[j]
  }

  // ---- the naive form ----

  /** The declarations that start inside a segment, in order. */
  function InSegment(s: Segment, starts: seq<nat>): seq<Unit> {
    if starts == [] then []
    else
      var n := |starts| - 1;
      var before := InSegment(s, starts[..n]);
      if Inside(s, starts[n]) then before + [Unit(s.file, n)] else before
  }

  predicate HasSyntax(files: Starts, file: nat) {
    file < |files| && files[file].Some?
  }

  function Naive(files: Starts, segments: seq<Segment>): seq<Unit> {
    if segments == [] then []
    else
      var n := |segments| - 1;
      var before := Naive(files, segments[..n]);
      if HasSyntax(files, segments[n].file)
      then before + InSegment(segments[n], files[segments[n].file].value) else before
  }

  // ---- the sweep ----

  /** The first index at or after `from` whose declaration starts at or after `offset`. */
  function SkipTo(starts: seq<nat>, from: nat, offset: nat): (r: nat)
    requires from <= |starts|
    ensures from <= r <= |starts|
    ensures forall i :: from <= i < r ==> starts[i] < offset
    ensures r < |starts| ==> starts[r] >= offset
    decreases |starts| - from
  {
    if from < |starts| && starts[from] < offset then SkipTo(starts, from + 1, offset) else from
  }

  function Range(file: nat, from: nat, to: nat): (r: seq<Unit>)
    requires from <= to
    ensures |r| == to - from && forall k :: 0 <= k < |r| ==> r[k] == Unit(file, from + k)
  {
    seq(to - from, k requires 0 <= k < to - from => Unit(file, from + k))
  }

  datatype Progress = Progress(units: seq<Unit>, next: seq<nat>)

  predicate ValidNext(files: Starts, next: seq<nat>) {
    && |next| == |files|
    && forall f :: 0 <= f < |files| && files[f].Some? ==> next[f] <= |files[f].value|
  }

  function Advance(files: Starts, at: Progress, s: Segment): (r: Progress)
    requires ValidNext(files, at.next)
    ensures ValidNext(files, r.next)
  {
    if !HasSyntax(files, s.file) then at
    else
      var starts := files[s.file].value;
      var from := SkipTo(starts, at.next[s.file], s.start);
      var to := SkipTo(starts, from, s.end);
      Progress(at.units + Range(s.file, from, to), at.next[s.file := to])
  }

  function Swept(files: Starts, segments: seq<Segment>): (r: Progress)
    ensures ValidNext(files, r.next)
  {
    if segments == [] then Progress([], seq(|files|, _ => 0))
    else Advance(files, Swept(files, segments[..|segments| - 1]), segments[|segments| - 1])
  }

  method ExpandedDefinitionUnits(p: Project, files: Starts) returns (units: seq<Unit>)
    requires ValidProject(p) && |files| == |p.lengths|
    ensures units == Swept(files, ExpandProject(p).segments).units
  {
    var segments := ExpansionSegments(p);
    units := [];
    var next: seq<nat> := seq(|files|, _ => 0);
    for k := 0 to |segments|
      invariant ValidNext(files, next)
      invariant Progress(units, next) == Swept(files, segments[..k])
    {
      assert segments[..k + 1][..k] == segments[..k];
      var segment := segments[k];
      if HasSyntax(files, segment.file) {
        var starts := files[segment.file].value;
        var index, taken := TakeSegment(starts, next[segment.file], segment);
        units := units + taken;
        next := next[segment.file := index];
      }
    }
    assert segments[..|segments|] == segments;
  }

  /** Skips the declarations before the segment, then takes those inside it. */
  method TakeSegment(starts: seq<nat>, from: nat, s: Segment) returns (index: nat, taken: seq<Unit>)
    requires from <= |starts|
    ensures var first := SkipTo(starts, from, s.start);
      index == SkipTo(starts, first, s.end) && taken == Range(s.file, first, index)
  {
    index := from;
    while index < |starts| && starts[index] < s.start
      invariant from <= index <= |starts| && SkipTo(starts, index, s.start) == SkipTo(starts, from, s.start)
    {
      index := index + 1;
    }
    var first := index;
    taken := [];
    while index < |starts|
      invariant first <= index <= |starts| && SkipTo(starts, index, s.end) == SkipTo(starts, first, s.end)
      invariant taken == Range(s.file, first, index)
    {
      if starts[index] >= s.end {
        break;
      }
      taken := taken + [Unit(s.file, index)];
      index := index + 1;
    }
  }

  // ---- each declaration at most once, in order ----

  function IndicesOf(units: seq<Unit>, file: nat): seq<nat> {
    if units == [] then []
    else
      var n := |units| - 1;
      var before := IndicesOf(units[..n], file);
      if units[n].file == file then before + [units[n].index] else before
  }

  predicate StrictlyIncreasing(indices: seq<nat>, bound: nat) {
    && (forall i, j :: 0 <= i < j < |indices| ==> indices[i] < indices[j])
    && (forall i :: 0 <= i < |indices| ==> indices[i] < bound)
  }

  lemma {:induction false} IndicesAppend(a: seq<Unit>, b: seq<Unit>, file: nat)
    ensures IndicesOf(a + b, file) == IndicesOf(a, file) + IndicesOf(b, file)
  {
    if b == [] {
      assert a + b == a;
    } else {
      var n := |b| - 1;
      IndicesAppend(a, b[..n], file);
      assert (a + b)[..|a| + n] == a + b[..n];
    }
  }

  lemma {:induction false} IndicesOfRange(file: nat, from: nat, to: nat, other: nat)
    requires from <= to
    ensures other != file ==> IndicesOf(Range(file, from, to), other) == []
    ensures IndicesOf(Range(file, from, to), file) == Consecutive(from, to)
    decreases (to) - from
  {
    if from < to {
      IndicesOfRange(file, from, to - 1, other);
      assert Range(file, from, to)[..to - from - 1] == Range(file, from, to - 1);
    }
  }

  function Consecutive(from: nat, to: nat): (r: seq<nat>)
    requires from <= to
    ensures |r| == to - from && forall k :: 0 <= k < |r| ==> r[k] == from + k
  {
    seq(to - from, k => from + k)
  }

  /** Whatever the segments and starts, a file's declarations come out once at most and in order. */
  lemma {:induction false} SweepIsIncreasing(files: Starts, segments: seq<Segment>, file: nat)
    requires HasSyntax(files, file)
    ensures StrictlyIncreasing(IndicesOf(Swept(files, segments).units, file), Swept(files, segments).next[file])
  {
    if segments != [] {
      var n := |segments| - 1;
      SweepIsIncreasing(files, segments[..n], file);
      var before, s := Swept(files, segments[..n]), segments[n];
      if HasSyntax(files, s.file) {
        var starts := files[s.file].value;
        var from := SkipTo(starts, before.next[s.file], s.start);
        var to := SkipTo(starts, from, s.end);
        IndicesAppend(before.units, Range(s.file, from, to), file);
        IndicesOfRange(s.file, from, to, file);
      }
    }
  }

  // ---- the sweep is the naive form ----

  function LastEnd(segments: seq<Segment>): nat {
    if segments == [] then 0 else segments[|segments| - 1].end
  }

  lemma SkipOnward(starts: seq<nat>, low: nat, high: nat)
    requires Monotone(starts) && low <= high
    ensures SkipTo(starts, SkipTo(starts, 0, low), high) == SkipTo(starts, 0, high)
  {
    var a, b := SkipTo(starts, 0, low), SkipTo(starts, 0, high);
    var c := SkipTo(starts, a, high);
    assert forall i :: 0 <= i < c ==> starts[i] < high;
  }

  lemma {:induction false} SegmentIsRange(s: Segment, starts: seq<nat>, from: nat, to: nat)
    requires from <= to <= |starts|
    requires forall i :: 0 <= i < |starts| ==> (Inside(s, starts[i]) <==> from <= i < to)
    ensures InSegment(s, starts) == Range(s.file, from, to)
  {
    if starts != [] {
      var n := |starts| - 1;
      forall i | 0 <= i < n
        ensures starts[..n][i] == starts[i]
      {
      }
      SegmentIsRange(s, starts[..n], if from < n then from else n, if to < n then to else n);
    }
  }

  lemma MonotoneSegment(s: Segment, starts: seq<nat>)
    requires Monotone(starts) && s.start <= s.end
    ensures InSegment(s, starts) == Range(s.file, SkipTo(starts, 0, s.start), SkipTo(starts, 0, s.end))
  {
    var from, to := SkipTo(starts, 0, s.start), SkipTo(starts, 0, s.end);
    SkipOnward(starts, s.start, s.end);
    SegmentIsRange(s, starts, from, to);
  }

  /**
    When a file's declarations start in order and its segments are increasing and disjoint, sweeping gives
    the same units as filtering every declaration of the file for every segment.
   */
  lemma {:induction false} SweepIsNaive(files: Starts, segments: seq<Segment>)
    requires forall f :: 0 <= f < |files| && files[f].Some? ==> Monotone(files[f].value)
    requires forall f :: 0 <= f < |files| ==> Increasing(Of(segments, f))
    ensures Swept(files, segments).units == Naive(files, segments)
    ensures forall f :: 0 <= f < |files| && files[f].Some? ==>
      Swept(files, segments).next[f] == SkipTo(files[f].value, 0, LastEnd(Of(segments, f)))
  {
    if segments != [] {
      var n := |segments| - 1;
      var s := segments[n];
      forall f | 0 <= f < |files|
        ensures Increasing(Of(segments[..n], f))
      {
        FewerIncrease(segments, f);
      }
      SweepIsNaive(files, segments[..n]);
      var before := Swept(files, segments[..n]);
      if HasSyntax(files, s.file) {
        OneMore(files, segments, before);
      }
    }
  }

  lemma FewerIncrease(segments: seq<Segment>, file: nat)
    requires segments != [] && Increasing(Of(segments, file))
    ensures var n := |segments| - 1;
      && Increasing(Of(segments[..n], file))
      && (segments[n].file == file ==> LastEnd(Of(segments[..n], file)) <= segments[n].start < segments[n].end)
  {
    var n := |segments| - 1;
    var all, fewer := Of(segments, file), Of(segments[..n], file);
    if segments[n].file == file {
      assert all == fewer + [segments[n]];
      assert forall i :: 0 <= i < |fewer| ==> all[i] == fewer[i];
      assert all[|fewer|] == segments[n];
    }
  }

  lemma OneMore(files: Starts, segments: seq<Segment>, before: Progress)
    requires segments != [] && ValidNext(files, before.next)
    requires var n := |segments| - 1; var s := segments[n];
      && HasSyntax(files, s.file) && Monotone(files[s.file].value)
      && Increasing(Of(segments, s.file))
      && before.next[s.file] == SkipTo(files[s.file].value, 0, LastEnd(Of(segments[..n], s.file)))
    ensures var s := segments[|segments| - 1];
      var after := Advance(files, before, s);
      && after.units == before.units + InSegment(s, files[s.file].value)
      && after.next == before.next[s.file := SkipTo(files[s.file].value, 0, s.end)]
  {
    var s := segments[|segments| - 1];
    var starts := files[s.file].value;
    FewerIncrease(segments, s.file);
    SkipOnward(starts, LastEnd(Of(segments[..|segments| - 1], s.file)), s.start);
    SkipOnward(starts, s.start, s.end);
    MonotoneSegment(s, starts);
  }

  // ---- over a whole project ----

  predicate DirectivesInside(p: Project, file: nat)
    requires file < |p.lengths|
  {
    var directives := DirectivesOf(p.includes, file);
    forall i :: 0 <= i < |directives| ==> directives[i].end <= p.lengths[file]
  }

  lemma DirectivesSpan(p: Project, file: nat)
    requires ValidProject(p)
    ensures Spans(DirectivesOf(p.includes, file)) && Ordered(DirectivesOf(p.includes, file))
  {
    var directives := DirectivesOf(p.includes, file);
    DirectivesAreTheFiles(p.includes, file);
    forall i | 0 <= i < |directives|
      ensures directives[i].start <= directives[i].end
    {
      assert directives[i] in p.includes;
    }
  }

  lemma ExpansionIncreases(p: Project, file: nat)
    requires ValidProject(p) && file < |p.lengths|
    ensures Increasing(Of(ExpandProject(p).segments, file))
  {
    ExpansionIsPieces(p, file);
    DirectivesSpan(p, file);
    PiecesIncrease(file, DirectivesOf(p.includes, file), 0, p.lengths[file]);
  }

  lemma {:induction false} InSegmentHolds(s: Segment, starts: seq<nat>, u: Unit)
    ensures u in InSegment(s, starts) <==> u.file == s.file && u.index < |starts| && Inside(s, starts[u.index])
  {
    if starts != [] {
      InSegmentHolds(s, starts[..|starts| - 1], u);
    }
  }

  predicate SomeInside(segments: seq<Segment>, file: nat, offset: nat) {
    exists s :: s in Of(segments, file) && Inside(s, offset)
  }

  lemma SomeInsideStep(segments: seq<Segment>, file: nat, offset: nat)
    requires segments != []
    ensures var n := |segments| - 1;
      SomeInside(segments, file, offset) <==>
        SomeInside(segments[..n], file, offset) || (segments[n].file == file && Inside(segments[n], offset))
  {
    var n := |segments| - 1;
    if SomeInside(segments[..n], file, offset) {
      var s :| s in Of(segments[..n], file) && Inside(s, offset);
      assert s in Of(segments, file);
    }
    if segments[n].file == file && Inside(segments[n], offset) {
      assert segments[n] in Of(segments, file);
    }
  }

  lemma {:induction false} NaiveHolds(files: Starts, segments: seq<Segment>, u: Unit)
    ensures u in Naive(files, segments) <==>
      && HasSyntax(files, u.file)
      && u.index < |files[u.file].value|
      && SomeInside(segments, u.file, files[u.file].value[u.index])
  {
    if segments == [] {
    } else {
      var n := |segments| - 1;
      NaiveHolds(files, segments[..n], u);
      if HasSyntax(files, segments[n].file) {
        InSegmentHolds(segments[n], files[segments[n].file].value, u);
      }
      if HasSyntax(files, u.file) && u.index < |files[u.file].value| {
        SomeInsideStep(segments, u.file, files[u.file].value[u.index]);
      }
    }
  }

  /**
    The units of a project whose declarations start in order: every declaration of an included file that
    starts outside its include directives is there exactly once, in order within its file, and nothing else is.
   */
  lemma EveryDeclarationIsSpliced(p: Project, files: Starts, u: Unit)
    requires ValidProject(p) && |files| == |p.lengths| && HasSyntax(files, u.file) && u.index < |files[u.file].value|
    requires forall f :: 0 <= f < |files| && files[f].Some? ==> Monotone(files[f].value)
    requires DirectivesInside(p, u.file)
    ensures var units := Swept(files, ExpandProject(p).segments).units;
      var offset := files[u.file].value[u.index];
      && (u in units <==>
            && u.file in ExpandProject(p).seen
            && offset < p.lengths[u.file]
            && !InDirective(DirectivesOf(p.includes, u.file), offset))
      && StrictlyIncreasing(IndicesOf(units, u.file), |files[u.file].value|)
  {
    hide Naive, Swept, ExpandProject, Of, Pieces, DirectivesOf, Increasing, IndicesOf;
    var segments := ExpandProject(p).segments;
    forall f | 0 <= f < |files|
      ensures Increasing(Of(segments, f))
    {
      ExpansionIncreases(p, f);
    }
    SweepIsNaive(files, segments);
    NaiveHolds(files, segments, u);
    SweepIsIncreasing(files, segments, u.file);
    ExpansionIsPieces(p, u.file);
    DirectivesSpan(p, u.file);
    PiecesAreTheRest(u.file, DirectivesOf(p.includes, u.file), 0, p.lengths[u.file], files[u.file].value[u.index]);
  }
}
