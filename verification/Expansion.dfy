/**
  The textual order of an include-once project
  (crates/dm-project/src/lib.rs:340-402).
 */
module Expansion {
  import opened Wrappers
  import opened Collections
  import opened MachineIntegers

  /** A directive inside a file; `target` is the project file it includes, if it is one. */
  datatype Include = Include(source: nat, start: nat, end: nat, target: Option<nat>)

  /** `lengths[f]` is the size of file `f`; file 0 is the root. */
  datatype Project = Project(lengths: seq<nat>, includes: seq<Include>)

  datatype Segment = Segment(file: nat, start: nat, end: nat)

  predicate ValidProject(p: Project) {
    forall i :: 0 <= i < |p.includes| ==>
      && p.includes[i].source < |p.lengths|
      && p.includes[i].start <= p.includes[i].end
      && (p.includes[i].target.Some? ==> p.includes[i].target.value < |p.lengths|)
  }

  // ---- one file's directives, in source order ----

  predicate Before(a: Include, b: Include) {
    a.start < b.start || (a.start == b.start && a.end < b.end)
  }

  function Insert(sorted: seq<Include>, x: Include): (r: seq<Include>)
    ensures multiset(r) == multiset(sorted) + multiset{x}
    ensures |r| == |sorted| + 1
  {
    if sorted == [] || Before(x, sorted[0]) then [x] + sorted
    else
      assert sorted == [sorted[0]] + sorted[1..];
      [sorted[0]] + Insert(sorted[1..], x)
  }

  /** The library's stable sort by start and end. */
  function DirectivesOf(includes: seq<Include>, file: nat): (r: seq<Include>) {
    if includes == [] then []
    else
      var n := |includes| - 1;
      var before := DirectivesOf(includes[..n], file);
      if includes[n].source == file then Insert(before, includes[n]) else before
  }

  predicate Ordered(directives: seq<Include>) {
    forall i, j :: 0 <= i < j < |directives| ==> directives[i].start <= directives[j].start
  }

  lemma {:induction false} InsertKeepsOrder(sorted: seq<Include>, x: Include)
    requires Ordered(sorted)
    ensures Ordered(Insert(sorted, x))
    ensures forall d :: d in Insert(sorted, x) <==> d == x || d in sorted
  {
    if sorted != [] && !Before(x, sorted[0]) {
      InsertKeepsOrder(sorted[1..], x);
      var rest := Insert(sorted[1..], x);
      assert sorted == [sorted[0]] + sorted[1..];
      forall j | 0 <= j < |rest|
        ensures sorted[0].start <= rest[j].start
      {
        assert rest[j] in rest;
      }
    }
  }

  /** The directives of a file, all of them and no others, by start. */
  lemma {:induction false} DirectivesAreTheFiles(includes: seq<Include>, file: nat)
    ensures Ordered(DirectivesOf(includes, file))
    ensures forall d :: d in DirectivesOf(includes, file) <==> d in includes && d.source == file
  {
    if includes != [] {
      var n := |includes| - 1;
      DirectivesAreTheFiles(includes[..n], file);
      assert includes == includes[..n] + [includes[n]];
      if includes[n].source == file {
        InsertKeepsOrder(DirectivesOf(includes[..n], file), includes[n]);
      }
    }
  }

  /** By start, then by end. */
  predicate Sorted(directives: seq<Include>) {
    forall i, j :: 0 <= i < j < |directives| ==> !Before(directives[j], directives[i])
  }

  lemma {:induction false} InsertKeepsSorted(sorted: seq<Include>, x: Include)
    requires Sorted(sorted)
    ensures Sorted(Insert(sorted, x))
  {
    if sorted != [] && !Before(x, sorted[0]) {
      InsertKeepsSorted(sorted[1..], x);
      var rest := Insert(sorted[1..], x);
      assert multiset(rest) == multiset(sorted[1..]) + multiset{x};
      forall j | 0 <= j < |rest|
        ensures !Before(rest[j], sorted[0])
      {
        assert rest[j] in multiset(rest);
      }
    }
  }

  /** Each of a file's directives as often as the project lists it, by start and then by end. */
  lemma {:induction false} DirectivesAreSorted(includes: seq<Include>, file: nat, d: Include)
    ensures Sorted(DirectivesOf(includes, file))
    ensures var ds := DirectivesOf(includes, file);
      forall i, j :: 0 <= i < j < |ds| ==>
        ds[i].start < ds[j].start || (ds[i].start == ds[j].start && ds[i].end <= ds[j].end)
    ensures multiset(DirectivesOf(includes, file))[d] == if d.source == file then multiset(includes)[d] else 0
  {
    if includes != [] {
      var n := |includes| - 1;
      DirectivesAreSorted(includes[..n], file, d);
      assert includes == includes[..n] + [includes[n]];
      if includes[n].source == file {
        InsertKeepsSorted(DirectivesOf(includes[..n], file), includes[n]);
      }
    }
  }

  /** The directives of a file that cover the same bytes, in the order of the list. */
  function Ties(list: seq<Include>, file: nat, start: nat, end: nat): seq<Include> {
    if list == [] then []
    else
      var n := |list| - 1;
      var before := Ties(list[..n], file, start, end);
      if list[n].source == file && list[n].start == start && list[n].end == end then before + [list[n]] else before
  }

  lemma {:induction false} TiesAppend(a: seq<Include>, b: seq<Include>, file: nat, start: nat, end: nat)
    ensures Ties(a + b, file, start, end) == Ties(a, file, start, end) + Ties(b, file, start, end)
  {
    if b == [] {
      assert a + b == a;
    } else {
      var n := |b| - 1;
      TiesAppend(a, b[..n], file, start, end);
      assert (a + b)[..|a + b| - 1] == a + b[..n];
    }
  }

  /** Inserting goes behind what covers the same bytes. */
  lemma {:induction false} InsertKeepsTies(sorted: seq<Include>, x: Include, file: nat, start: nat, end: nat)
    requires Sorted(sorted)
    ensures Ties(Insert(sorted, x), file, start, end) ==
        Ties(sorted, file, start, end) + Ties([x], file, start, end)
  {
    if sorted != [] && !Before(x, sorted[0]) {
      var first, rest := [sorted[0]], sorted[1..];
      InsertKeepsTies(rest, x, file, start, end);
      assert sorted == first + rest && Insert(sorted, x) == first + Insert(rest, x);
      TiesAppend(first, rest, file, start, end);
      TiesAppend(first, Insert(rest, x), file, start, end);
      hide Ties, Insert;
      Regroup(Ties(first, file, start, end), Ties(rest, file, start, end), Ties([x], file, start, end));
    } else {
      assert Insert(sorted, x) == [x] + sorted;
      TiesAppend([x], sorted, file, start, end);
      OneTie(x, file, start, end);
      hide Insert;
      if x.source == file && x.start == start && x.end == end {
        NoTies(sorted, x);
        EmptySides([x]);
      } else {
        EmptySides(Ties(sorted, file, start, end));
      }
    }
  }

  lemma OneTie(x: Include, file: nat, start: nat, end: nat)
    ensures Ties([x], file, start, end) ==
        if x.source == file && x.start == start && x.end == end then [x] else []
  {
    assert [x][..0] == [];
  }

  lemma {:induction false} NoTies(sorted: seq<Include>, x: Include)
    requires Sorted(sorted) && (sorted == [] || Before(x, sorted[0]))
    ensures Ties(sorted, x.source, x.start, x.end) == []
  {
    if sorted != [] {
      var n := |sorted| - 1;
      assert n > 0 ==> !Before(sorted[n], sorted[0]);
      NoTies(sorted[..n], x);
    }
  }

  /** Directives that cover the same bytes keep the order the project lists them in. */
  lemma {:induction false} DirectivesKeepTies(includes: seq<Include>, file: nat, start: nat, end: nat)
    ensures Ties(DirectivesOf(includes, file), file, start, end) == Ties(includes, file, start, end)
  {
    if includes != [] {
      var n := |includes| - 1;
      DirectivesKeepTies(includes[..n], file, start, end);
      assert [includes[n]][..0] == [];
      if includes[n].source == file {
        DirectivesAreSorted(includes[..n], file, includes[n]);
        InsertKeepsTies(DirectivesOf(includes[..n], file), includes[n], file, start, end);
      }
    }
  }

  // ---- expansion as recursive inclusion ----

  function Piece(file: nat, start: nat, end: nat): seq<Segment> {
    if start < end then [Segment(file, start, end)] else []
  }

  datatype Expanded = Expanded(segments: seq<Segment>, seen: set<nat>)

  function Unseen(p: Project, seen: set<nat>): (r: set<nat>)
    ensures forall f: nat :: f in r <==> f < |p.lengths| && f !in seen
  {
    set f: nat | f < |p.lengths| && f !in seen
  }

  lemma NewFile(p: Project, seen: set<nat>, file: nat)
    requires file < |p.lengths| && file !in seen
    ensures |Unseen(p, seen + {file})| < |Unseen(p, seen)|
  {
    assert file in seen + {file};
    FewerUnseen(p, seen, seen + {file});
  }

  lemma FewerUnseen(p: Project, seen: set<nat>, more: set<nat>)
    requires seen <= more
    ensures |Unseen(p, more)| <= |Unseen(p, seen)|
    ensures (exists f :: f in more && f !in seen && f < |p.lengths|) ==> |Unseen(p, more)| < |Unseen(p, seen)|
  {
    SubsetSize(Unseen(p, more), Unseen(p, seen));
    if f :| f in more && f !in seen && f < |p.lengths| {
      SubsetSize(Unseen(p, more), Unseen(p, seen) - {f});
    }
  }

  /**
    The rest of a file from `cursor` and directive `next`: text up to each directive, then
    the included file in its place if this is its first inclusion.
   */
  function Expand(p: Project, file: nat, next: nat, cursor: nat, seen: set<nat>): (r: Expanded)
    requires ValidProject(p) && file < |p.lengths| && next <= |DirectivesOf(p.includes, file)|
    ensures seen <= r.seen
    decreases |Unseen(p, seen)|, |DirectivesOf(p.includes, file)| - next
  {
    var directives := DirectivesOf(p.includes, file);
    if next == |directives| then Expanded(Piece(file, cursor, p.lengths[file]), seen)
    else
      var d := directives[next];
      DirectivesAreTheFiles(p.includes, file);
      assert d in directives && d in p.includes;
      var text, past := Piece(file, cursor, d.start), Max(cursor, d.end);
      if d.target.None? || d.target.value in seen then
        var rest := Expand(p, file, next + 1, past, seen);
        Expanded(text + rest.segments, rest.seen)
      else
        var target := d.target.value;
        FewerUnseen(p, seen, seen + {target});
        assert target in seen + {target} && target !in seen;
        var included := Expand(p, target, 0, 0, seen + {target});
        FewerUnseen(p, seen, included.seen);
        assert target in included.seen;
        var rest := Expand(p, file, next + 1, past, included.seen);
        Expanded(text + included.segments + rest.segments, rest.seen)
  }

  function ExpandProject(p: Project): Expanded
    requires ValidProject(p)
  {
    if |p.lengths| == 0 then Expanded([], {}) else Expand(p, 0, 0, 0, {0})
  }

  // ---- expansion with an explicit stack ----

  datatype Frame = Frame(file: nat, next: nat, cursor: nat)

  predicate ValidFrame(p: Project, f: Frame) {
    f.file < |p.lengths| && f.next <= |DirectivesOf(p.includes, f.file)|
  }

  predicate ValidStack(p: Project, stack: seq<Frame>) {
    forall i :: 0 <= i < |stack| ==> ValidFrame(p, stack[i])
  }

  /** What finishing every frame, innermost first, will produce. */
  function Unwind(p: Project, stack: seq<Frame>, seen: set<nat>): seq<Segment>
    requires ValidProject(p) && ValidStack(p, stack)
    decreases |stack|
  {
    if stack == [] then []
    else
      var n := |stack| - 1;
      assert ValidFrame(p, stack[n]);
      var top := Expand(p, stack[n].file, stack[n].next, stack[n].cursor, seen);
      top.segments + Unwind(p, stack[..n], top.seen)
  }

  lemma UnwindPush(p: Project, stack: seq<Frame>, f: Frame, seen: set<nat>)
    requires ValidProject(p) && ValidStack(p, stack) && ValidFrame(p, f)
    ensures ValidStack(p, stack + [f])
    ensures var top := Expand(p, f.file, f.next, f.cursor, seen);
      Unwind(p, stack + [f], seen) == top.segments + Unwind(p, stack, top.seen)
  {
    assert (stack + [f])[..|stack|] == stack;
  }

  function Remaining(p: Project, stack: seq<Frame>): nat
    requires ValidStack(p, stack)
    decreases |stack|
  {
    if stack == [] then 0
    else
      var n := |stack| - 1;
      assert ValidFrame(p, stack[n]);
      Remaining(p, stack[..n]) + 1 + |DirectivesOf(p.includes, stack[n].file)| - stack[n].next
  }

  lemma RemainingPush(p: Project, stack: seq<Frame>, f: Frame)
    requires ValidStack(p, stack) && ValidFrame(p, f)
    ensures ValidStack(p, stack + [f])
    ensures Remaining(p, stack + [f]) == Remaining(p, stack) + 1 + |DirectivesOf(p.includes, f.file)| - f.next
  {
    assert (stack + [f])[..|stack|] == stack;
  }

  /** One directive of the top frame that includes nothing new. */
  lemma StepOver(p: Project, below: seq<Frame>, f: Frame, seen: set<nat>)
    requires ValidProject(p) && ValidStack(p, below) && ValidFrame(p, f)
    requires f.next < |DirectivesOf(p.includes, f.file)|
    requires var d := DirectivesOf(p.includes, f.file)[f.next]; d.target.None? || d.target.value in seen
    ensures var d := DirectivesOf(p.includes, f.file)[f.next];
      var after := Frame(f.file, f.next + 1, Max(f.cursor, d.end));
      && ValidStack(p, below + [f]) && ValidStack(p, below + [after])
      && Unwind(p, below + [f], seen) == Piece(f.file, f.cursor, d.start) + Unwind(p, below + [after], seen)
  {
    var d := DirectivesOf(p.includes, f.file)[f.next];
    var after := Frame(f.file, f.next + 1, Max(f.cursor, d.end));
    UnwindPush(p, below, f, seen);
    UnwindPush(p, below, after, seen);
    var rest := Expand(p, after.file, after.next, after.cursor, seen);
    Regroup(Piece(f.file, f.cursor, d.start), rest.segments, Unwind(p, below, rest.seen));
  }

  /** One directive of the top frame that includes a file for the first time. */
  lemma StepInto(p: Project, below: seq<Frame>, f: Frame, seen: set<nat>)
    requires ValidProject(p) && ValidStack(p, below) && ValidFrame(p, f)
    requires f.next < |DirectivesOf(p.includes, f.file)|
    requires var d := DirectivesOf(p.includes, f.file)[f.next];
      d.target.Some? && d.target.value !in seen && d.target.value < |p.lengths|
    ensures var d := DirectivesOf(p.includes, f.file)[f.next];
      var after, inner := Frame(f.file, f.next + 1, Max(f.cursor, d.end)), Frame(d.target.value, 0, 0);
      && ValidStack(p, below + [f]) && ValidStack(p, below + [after] + [inner])
      && Unwind(p, below + [f], seen)
           == Piece(f.file, f.cursor, d.start) + Unwind(p, below + [after] + [inner], seen + {d.target.value})
  {
    hide DirectivesOf, Piece, Unseen, ValidProject, Unwind;
    var d := DirectivesOf(p.includes, f.file)[f.next];
    var after, inner := Frame(f.file, f.next + 1, Max(f.cursor, d.end)), Frame(d.target.value, 0, 0);
    UnwindPush(p, below, f, seen);
    ExpandInto(p, f.file, f.next, f.cursor, seen);
    hide Expand;
    var included := Expand(p, inner.file, 0, 0, seen + {inner.file});
    UnwindPush(p, below, after, included.seen);
    UnwindPush(p, below + [after], inner, seen + {inner.file});
    var rest := Expand(p, after.file, after.next, after.cursor, included.seen);
    var text, tail := Piece(f.file, f.cursor, d.start), Unwind(p, below, rest.seen);
    Regroup(text + included.segments, rest.segments, tail);
    Regroup(text, included.segments, rest.segments + tail);
  }

  /** Text moved from what is still to come to what has been written. */
  lemma Emitted(p: Project, segments: seq<Segment>, text: seq<Segment>,
                stack: seq<Frame>, seen: set<nat>, after: seq<Frame>, later: set<nat>)
    requires ValidProject(p) && ValidStack(p, stack) && ValidStack(p, after)
    requires Unwind(p, stack, seen) == text + Unwind(p, after, later)
    ensures segments + Unwind(p, stack, seen) == (segments + text) + Unwind(p, after, later)
  {
    hide Unwind;
    Regroup(segments, text, Unwind(p, after, later));
  }

  lemma UnwindRoot(p: Project)
    requires ValidProject(p) && |p.lengths| > 0
    ensures ValidStack(p, [Frame(0, 0, 0)]) && Unwind(p, [Frame(0, 0, 0)], {0}) == ExpandProject(p).segments
  {
    EmptySides([Frame(0, 0, 0)]);
    UnwindPush(p, [], Frame(0, 0, 0), {0});
    EmptySides(ExpandProject(p).segments);
  }

  /** The end of the top frame's file, or one of its directives. */
  method Turn(p: Project, below: seq<Frame>, f: Frame, seen: set<nat>)
    returns (text: seq<Segment>, after: seq<Frame>, later: set<nat>)
    requires ValidProject(p) && ValidStack(p, below) && ValidFrame(p, f)
    ensures ValidStack(p, below + [f]) && ValidStack(p, after)
    ensures Unwind(p, below + [f], seen) == text + Unwind(p, after, later)
    ensures |Unseen(p, later)| < |Unseen(p, seen)|
         || (later == seen && Remaining(p, after) < Remaining(p, below + [f]))
  {
    RemainingPush(p, below, f);
    var directives := DirectivesOf(p.includes, f.file);
    if f.next == |directives| {
      Finish(p, below, f, seen);
      return Piece(f.file, f.cursor, p.lengths[f.file]), below, seen;
    }
    var d := directives[f.next];
    TargetIsFile(p, f.file, f.next);
    var next := Frame(f.file, f.next + 1, Max(f.cursor, d.end));
    text := Piece(f.file, f.cursor, d.start);
    if d.target.Some? && d.target.value !in seen {
      StepInto(p, below, f, seen);
      NewFile(p, seen, d.target.value);
      after, later := below + [next] + [Frame(d.target.value, 0, 0)], seen + {d.target.value};
    } else {
      StepOver(p, below, f, seen);
      RemainingPush(p, below, next);
      after, later := below + [next], seen;
    }
  }

  /** The project's source stream after every include is spliced in. */
  method ExpansionSegments(p: Project) returns (segments: seq<Segment>)
    requires ValidProject(p)
    ensures segments == ExpandProject(p).segments
  {
    if |p.lengths| == 0 {
      return [];
    }
    segments := [];
    var expanded: set<nat> := {0};
    var stack: seq<Frame> := [Frame(0, 0, 0)];
    UnwindRoot(p);
    hide Unwind, Expand, ExpandProject, DirectivesOf, Unseen, Remaining, ValidProject;
    EmptySides(Unwind(p, stack, expanded));
    while stack != []
      invariant ValidStack(p, stack)
      invariant segments + Unwind(p, stack, expanded) == ExpandProject(p).segments
      decreases |Unseen(p, expanded)|, Remaining(p, stack)
    {
      var below, f := stack[..|stack| - 1], stack[|stack| - 1];
      assert stack == below + [f] && ValidFrame(p, f);
      var text, after, later := Turn(p, below, f, expanded);
      Emitted(p, segments, text, stack, expanded, after, later);
      segments, stack, expanded := segments + text, after, later;
    }
    UnwindNothing(p, expanded);
    EmptySides(segments);
  }

  lemma UnwindNothing(p: Project, seen: set<nat>)
    requires ValidProject(p)
    ensures Unwind(p, [], seen) == []
  {
  }

  lemma Finish(p: Project, below: seq<Frame>, f: Frame, seen: set<nat>)
    requires ValidProject(p) && ValidStack(p, below) && ValidFrame(p, f)
    requires f.next == |DirectivesOf(p.includes, f.file)|
    ensures ValidStack(p, below + [f])
    ensures Unwind(p, below + [f], seen) == Piece(f.file, f.cursor, p.lengths[f.file]) + Unwind(p, below, seen)
  {
    UnwindPush(p, below, f, seen);
  }

  // ---- the pieces of one file ----

  function Pieces(file: nat, directives: seq<Include>, cursor: nat, length: nat): seq<Segment> {
    if directives == [] then Piece(file, cursor, length)
    else
      Piece(file, cursor, directives[0].start)
        + Pieces(file, directives[1..], Max(cursor, directives[0].end), length)
  }

  function Of(segments: seq<Segment>, file: nat): seq<Segment> {
    if segments == [] then []
    else
      var n := |segments| - 1;
      if segments[n].file == file then Of(segments[..n], file) + [segments[n]] else Of(segments[..n], file)
  }

  lemma {:induction false} OfAppend(a: seq<Segment>, b: seq<Segment>, file: nat)
    ensures Of(a + b, file) == Of(a, file) + Of(b, file)
  {
    if b == [] {
      assert a + b == a;
    } else {
      var n := |b| - 1;
      OfAppend(a, b[..n], file);
      assert (a + b)[..|a| + n] == a + b[..n];
    }
  }

  lemma OfPiece(file: nat, start: nat, end: nat, other: nat)
    ensures Of(Piece(file, start, end), other) == if other == file then Piece(file, start, end) else []
  {
    var s := Segment(file, start, end);
    assert [s][..0] == [];
  }

  predicate OnlyPieces(p: Project, before: set<nat>, r: Expanded, other: nat)
    requires ValidProject(p)
  {
    Of(r.segments, other) ==
      if other in r.seen && other !in before && other < |p.lengths|
      then Pieces(other, DirectivesOf(p.includes, other), 0, p.lengths[other])
      else []
  }

  lemma ExpandOver(p: Project, file: nat, next: nat, cursor: nat, seen: set<nat>)
    requires ValidProject(p) && file < |p.lengths| && next < |DirectivesOf(p.includes, file)|
    requires var d := DirectivesOf(p.includes, file)[next]; d.target.None? || d.target.value in seen
    ensures var d := DirectivesOf(p.includes, file)[next];
      var rest := Expand(p, file, next + 1, Max(cursor, d.end), seen);
      Expand(p, file, next, cursor, seen) == Expanded(Piece(file, cursor, d.start) + rest.segments, rest.seen)
  {
  }

  lemma ExpandInto(p: Project, file: nat, next: nat, cursor: nat, seen: set<nat>)
    requires ValidProject(p) && file < |p.lengths| && next < |DirectivesOf(p.includes, file)|
    requires var d := DirectivesOf(p.includes, file)[next];
      d.target.Some? && d.target.value !in seen && d.target.value < |p.lengths|
    ensures var d := DirectivesOf(p.includes, file)[next];
      var included := Expand(p, d.target.value, 0, 0, seen + {d.target.value});
      var rest := Expand(p, file, next + 1, Max(cursor, d.end), included.seen);
      && d.target.value in included.seen
      && |Unseen(p, included.seen)| < |Unseen(p, seen)|
      && Expand(p, file, next, cursor, seen)
           == Expanded(Piece(file, cursor, d.start) + included.segments + rest.segments, rest.seen)
  {
    var target := DirectivesOf(p.includes, file)[next].target.value;
    var included := Expand(p, target, 0, 0, seen + {target});
    assert target in seen + {target};
    FewerUnseen(p, seen, included.seen);
  }

  lemma TargetIsFile(p: Project, file: nat, next: nat)
    requires ValidProject(p) && next < |DirectivesOf(p.includes, file)|
    ensures var d := DirectivesOf(p.includes, file)[next]; d.target.Some? ==> d.target.value < |p.lengths|
  {
    DirectivesAreTheFiles(p.includes, file);
    assert DirectivesOf(p.includes, file)[next] in p.includes;
  }

  lemma OfThree(a: seq<Segment>, b: seq<Segment>, c: seq<Segment>, file: nat)
    ensures var (x, y, z) := (Of(a, file), Of(b, file), Of(c, file));
      && Of(a + b + c, file) == x + y + z
      && (x == [] ==> x + y + z == y + z) && (y == [] ==> x + y + z == x + z) && (z == [] ==> x + y + z == x + y)
      && (x == y == [] ==> x + y + z == z) && (x == z == [] ==> x + y + z == y) && (y == z == [] ==> x + y + z == x)
  {
    OfAppend(a + b, c, file);
    OfAppend(a, b, file);
  }

  /** What an included file and the rest after it emit together, of any one file. */
  lemma IntoEmits(p: Project, seen: set<nat>, text: seq<Segment>, included: Expanded, rest: Expanded,
                  target: nat, file: nat, other: nat)
    requires ValidProject(p) && file in seen && target !in seen && target < |p.lengths|
    requires seen + {target} <= included.seen <= rest.seen
    requires other != file ==> Of(text, other) == []
    requires if other == target
      then Of(included.segments, target) == Pieces(target, DirectivesOf(p.includes, target), 0, p.lengths[target])
      else OnlyPieces(p, seen + {target}, included, other)
    requires other != file ==> OnlyPieces(p, included.seen, rest, other)
    ensures other == file ==>
      Of(text + included.segments + rest.segments, file) == Of(text, file) + Of(rest.segments, file)
    ensures other != file ==>
      OnlyPieces(p, seen, Expanded(text + included.segments + rest.segments, rest.seen), other)
  {
    hide Of, Pieces, DirectivesOf, ValidProject;
    OfThree(text, included.segments, rest.segments, other);
  }

  /** Expanding a file emits exactly its own pieces and, of each file first included on the way, exactly that file's. */
  lemma {:induction false} ExpandEmitsPieces(p: Project, file: nat, next: nat, cursor: nat, seen: set<nat>, other: nat)
    requires ValidProject(p) && file < |p.lengths| && next <= |DirectivesOf(p.includes, file)| && file in seen
    ensures var r := Expand(p, file, next, cursor, seen);
      if other == file
      then Of(r.segments, file) == Pieces(file, DirectivesOf(p.includes, file)[next..], cursor, p.lengths[file])
      else OnlyPieces(p, seen, r, other)
    decreases |Unseen(p, seen)|, |DirectivesOf(p.includes, file)| - next
  {
    var directives := DirectivesOf(p.includes, file);
    PiecesStep(file, directives, next, cursor, p.lengths[file]);
    if next == |directives| {
      OfPiece(file, cursor, p.lengths[file], other);
    } else {
      hide Pieces, Of, Expand, DirectivesOf, Piece, Unseen, ValidProject;
      var d := directives[next];
      var text, past := Piece(file, cursor, d.start), Max(cursor, d.end);
      TargetIsFile(p, file, next);
      OfPiece(file, cursor, d.start, other);
      if d.target.None? || d.target.value in seen {
        ExpandOver(p, file, next, cursor, seen);
        ExpandEmitsPieces(p, file, next + 1, past, seen, other);
        OfAppend(text, Expand(p, file, next + 1, past, seen).segments, other);
        EmptySides(Of(Expand(p, file, next + 1, past, seen).segments, other));
      } else {
        var target := d.target.value;
        ExpandInto(p, file, next, cursor, seen);
        NewFile(p, seen, target);
        var included := Expand(p, target, 0, 0, seen + {target});
        ExpandEmitsPieces(p, target, 0, 0, seen + {target}, other);
        ExpandEmitsPieces(p, file, next + 1, past, included.seen, other);
        var rest := Expand(p, file, next + 1, past, included.seen);
        assert DirectivesOf(p.includes, target)[0..] == DirectivesOf(p.includes, target);
        hide OnlyPieces;
        IntoEmits(p, seen, text, included, rest, target, file, other);
      }
    }
  }

  lemma PiecesStep(file: nat, directives: seq<Include>, next: nat, cursor: nat, length: nat)
    requires next <= |directives|
    ensures next == |directives| ==> Pieces(file, directives[next..], cursor, length) == Piece(file, cursor, length)
    ensures next < |directives| ==>
      (Pieces(file, directives[next..], cursor, length)
        == Piece(file, cursor, directives[next].start)
         + Pieces(file, directives[next + 1..], Max(cursor, directives[next].end), length))
  {
  }

  /** Each file that is ever included contributes its own pieces, once; other files contribute nothing. */
  lemma ExpansionIsPieces(p: Project, file: nat)
    requires ValidProject(p)
    ensures var r := ExpandProject(p);
      Of(r.segments, file) ==
        if file in r.seen && file < |p.lengths|
        then Pieces(file, DirectivesOf(p.includes, file), 0, p.lengths[file]) else []
  {
    if |p.lengths| > 0 {
      ExpandEmitsPieces(p, 0, 0, 0, {0}, file);
      assert DirectivesOf(p.includes, 0)[0..] == DirectivesOf(p.includes, 0);
    }
  }

  // ---- the pieces are what the directives leave ----

  /** Non-empty, in source order, and not overlapping. */
  predicate Increasing(pieces: seq<Segment>) {
    && (forall i :: 0 <= i < |pieces| ==> pieces[i].start < pieces[i].end)
    && (forall i, j :: 0 <= i < j < |pieces| ==> pieces[i].end <= pieces[j].start)
  }

  predicate Spans(directives: seq<Include>) {
    forall i :: 0 <= i < |directives| ==> directives[i].start <= directives[i].end
  }

  lemma {:induction false} PiecesIncrease(file: nat, directives: seq<Include>, cursor: nat, length: nat)
    requires Spans(directives)
    ensures Increasing(Pieces(file, directives, cursor, length))
    ensures forall s :: s in Pieces(file, directives, cursor, length) ==> s.file == file && cursor <= s.start
  {
    if directives != [] {
      var d := directives[0];
      PiecesIncrease(file, directives[1..], Max(cursor, d.end), length);
      var rest := Pieces(file, directives[1..], Max(cursor, d.end), length);
      forall j | 0 <= j < |rest|
        ensures Max(cursor, d.end) <= rest[j].start
      {
        assert rest[j] in rest;
      }
    }
  }

  predicate Inside(s: Segment, offset: nat) {
    s.start <= offset < s.end
  }

  predicate SomePiece(pieces: seq<Segment>, offset: nat) {
    exists s :: s in pieces && Inside(s, offset)
  }

  predicate InDirective(directives: seq<Include>, offset: nat) {
    exists i :: 0 <= i < |directives| && directives[i].start <= offset < directives[i].end
  }

  /** From the cursor on, a byte is in a piece exactly when it is in the file and in no directive. */
  lemma {:induction false} PiecesAreTheRest(file: nat, directives: seq<Include>, cursor: nat, length: nat, offset: nat)
    requires Spans(directives) && Ordered(directives) && cursor <= offset
    requires forall i :: 0 <= i < |directives| ==> directives[i].end <= length
    ensures SomePiece(Pieces(file, directives, cursor, length), offset)
       <==> offset < length && !InDirective(directives, offset)
  {
    if directives == [] {
      if offset < length {
        EmptySides(Piece(file, cursor, length));
        PieceCovers(file, cursor, length, [], offset);
      }
    } else {
      var d, rest := directives[0], directives[1..];
      var past := Max(cursor, d.end);
      var later := Pieces(file, rest, past, length);
      LaterPieces(file, directives, cursor, length, offset);
      if offset < d.start {
        BeforeDirectives(directives, offset);
        PieceCovers(file, cursor, d.start, later, offset);
      } else if offset < past {
        assert directives[0].start <= offset < directives[0].end;
      } else {
        PiecesAreTheRest(file, rest, past, length, offset);
        DirectiveLater(directives, offset);
      }
    }
  }

  /** At or past the first directive, only the pieces after it matter; short of its end, none of them does. */
  lemma LaterPieces(file: nat, directives: seq<Include>, cursor: nat, length: nat, offset: nat)
    requires Spans(directives) && directives != []
    ensures var d := directives[0];
      var past := Max(cursor, d.end);
      var later := Pieces(file, directives[1..], past, length);
      && Pieces(file, directives, cursor, length) == Piece(file, cursor, d.start) + later
      && (offset >= d.start ==>
           (SomePiece(Pieces(file, directives, cursor, length), offset) <==> SomePiece(later, offset)))
      && (offset < past ==> !SomePiece(later, offset))
  {
    var d := directives[0];
    var past := Max(cursor, d.end);
    var later := Pieces(file, directives[1..], past, length);
    PiecesIncrease(file, directives[1..], past, length);
    hide Pieces;
    var all := Piece(file, cursor, d.start) + later;
    if SomePiece(later, offset) {
      var s :| s in later && Inside(s, offset);
      assert s in all;
    }
  }

  lemma PieceCovers(file: nat, start: nat, end: nat, later: seq<Segment>, offset: nat)
    requires start <= offset < end
    ensures SomePiece(Piece(file, start, end) + later, offset)
  {
    assert Segment(file, start, end) in Piece(file, start, end) + later;
    assert Inside(Segment(file, start, end), offset);
  }

  lemma BeforeDirectives(directives: seq<Include>, offset: nat)
    requires Ordered(directives) && directives != [] && offset < directives[0].start
    ensures !InDirective(directives, offset)
  {
  }

  lemma DirectiveLater(directives: seq<Include>, offset: nat)
    requires directives != [] && directives[0].end <= offset
    ensures InDirective(directives, offset) <==> InDirective(directives[1..], offset)
  {
    if InDirective(directives, offset) {
      var i :| 0 <= i < |directives| && directives[i].start <= offset < directives[i].end;
      assert directives[1..][i - 1] == directives[i];
    }
    if InDirective(directives[1..], offset) {
      var i :| 0 <= i < |directives[1..]| && directives[1..][i].start <= offset < directives[1..][i].end;
      assert directives[i + 1] == directives[1..][i];
    }
  }

  // ---- which files are included ----

  predicate Targets(p: Project, file: nat, from: nat, target: nat)
    requires from <= |DirectivesOf(p.includes, file)|
  {
    exists i :: from <= i < |DirectivesOf(p.includes, file)| && DirectivesOf(p.includes, file)[i].target == Some(target)
  }

  predicate IncludedBy(p: Project, file: nat, target: nat) {
    exists i :: 0 <= i < |p.includes| && p.includes[i].source == file && p.includes[i].target == Some(target)
  }

  /** No file of the set includes a file outside it. */
  ghost predicate Closed(p: Project, files: set<nat>) {
    forall f: nat, t: nat :: f in files && IncludedBy(p, f, t) ==> t in files
  }

  lemma TargetsAreIncludes(p: Project, file: nat, target: nat)
    ensures Targets(p, file, 0, target) <==> IncludedBy(p, file, target)
  {
    var directives := DirectivesOf(p.includes, file);
    DirectivesAreTheFiles(p.includes, file);
    if Targets(p, file, 0, target) {
      var i :| 0 <= i < |directives| && directives[i].target == Some(target);
      assert directives[i] in p.includes;
    }
    if IncludedBy(p, file, target) {
      var i :| 0 <= i < |p.includes| && p.includes[i].source == file && p.includes[i].target == Some(target);
      assert p.includes[i] in directives;
    }
  }

  lemma TargetsStep(p: Project, file: nat, from: nat, target: nat)
    requires from < |DirectivesOf(p.includes, file)|
    ensures Targets(p, file, from, target)
       <==> DirectivesOf(p.includes, file)[from].target == Some(target) || Targets(p, file, from + 1, target)
  {
  }

  /** Expansion reaches everything the rest of the file, or a file first included on the way, includes. */
  lemma {:induction false} ExpandReaches(
      p: Project, file: nat, next: nat, cursor: nat, seen: set<nat>, f: nat, target: nat)
    requires ValidProject(p) && file < |p.lengths| && next <= |DirectivesOf(p.includes, file)|
    ensures var r := Expand(p, file, next, cursor, seen);
      && (Targets(p, file, next, target) ==> target in r.seen)
      && (f in r.seen && f !in seen && Targets(p, f, 0, target) ==> target in r.seen)
    decreases |Unseen(p, seen)|, |DirectivesOf(p.includes, file)| - next
  {
    if next < |DirectivesOf(p.includes, file)| {
      var d := DirectivesOf(p.includes, file)[next];
      TargetsStep(p, file, next, target);
      TargetIsFile(p, file, next);
      hide Expand, DirectivesOf, Unseen, ValidProject, Targets;
      if d.target.None? || d.target.value in seen {
        ExpandOver(p, file, next, cursor, seen);
        ExpandReaches(p, file, next + 1, Max(cursor, d.end), seen, f, target);
      } else {
        ExpandInto(p, file, next, cursor, seen);
        NewFile(p, seen, d.target.value);
        var included := Expand(p, d.target.value, 0, 0, seen + {d.target.value});
        ExpandReaches(p, d.target.value, 0, 0, seen + {d.target.value}, f, target);
        ExpandReaches(p, file, next + 1, Max(cursor, d.end), included.seen, f, target);
      }
    }
  }

  /** Expansion stays inside any closed set it starts in. */
  lemma {:induction false} ExpandStays(p: Project, file: nat, next: nat, cursor: nat, seen: set<nat>, files: set<nat>)
    requires ValidProject(p) && file < |p.lengths| && next <= |DirectivesOf(p.includes, file)|
    requires Closed(p, files) && file in files && seen <= files
    ensures Expand(p, file, next, cursor, seen).seen <= files
    decreases |Unseen(p, seen)|, |DirectivesOf(p.includes, file)| - next
  {
    if next < |DirectivesOf(p.includes, file)| {
      var d := DirectivesOf(p.includes, file)[next];
      TargetIsFile(p, file, next);
      if d.target.Some? {
        assert Targets(p, file, 0, d.target.value);
        TargetsAreIncludes(p, file, d.target.value);
      }
      hide Expand, DirectivesOf, Unseen, ValidProject, Targets, IncludedBy;
      if d.target.None? || d.target.value in seen {
        ExpandOver(p, file, next, cursor, seen);
        ExpandStays(p, file, next + 1, Max(cursor, d.end), seen, files);
      } else {
        ExpandInto(p, file, next, cursor, seen);
        NewFile(p, seen, d.target.value);
        var included := Expand(p, d.target.value, 0, 0, seen + {d.target.value});
        ExpandStays(p, d.target.value, 0, 0, seen + {d.target.value}, files);
        ExpandStays(p, file, next + 1, Max(cursor, d.end), included.seen, files);
      }
    }
  }

  /** The files spliced in are exactly those the root includes, directly or through others, even on include cycles. */
  lemma SeenIsLeastClosed(p: Project, files: set<nat>)
    requires ValidProject(p) && |p.lengths| > 0
    ensures var seen := ExpandProject(p).seen;
      && 0 in seen && Closed(p, seen)
      && (0 in files && Closed(p, files) ==> seen <= files)
  {
    hide Expand, Targets, IncludedBy;
    var seen := ExpandProject(p).seen;
    assert 0 in {0};
    forall f: nat, t: nat | f in seen && IncludedBy(p, f, t)
      ensures t in seen
    {
      TargetsAreIncludes(p, f, t);
      ExpandReaches(p, 0, 0, 0, {0}, f, t);
    }
    if 0 in files && Closed(p, files) {
      ExpandStays(p, 0, 0, 0, {0}, files);
    }
  }
}
