/**
  Numbered UI events from the server's retained batch to the client's presentation
  (crates/dm-lifecycle/src/ipc.rs:729-766; crates/dm-client/src/main.rs:106-175, 1604-1689, 2014-2032;
  crates/dm-client/src/ui_commands.rs:180-284).
 */
module UiDelivery {
  import opened Wrappers
  import opened MachineIntegers
  import opened Collections

  datatype Numbered<+E> = Numbered(sequence: nat, event: E)

  /** A command either changes the presentation, perhaps with work for the browser owner, or is refused. */
  datatype Outcome<+S, +U> = Applied(state: S, update: Option<U>) | Rejected(state: S)

  datatype Commit<+U, +R> = BrowserCommit(update: U) | ResourceCommit(resource: R)

  datatype Rules<!S, !E, !U, !R> = Rules(apply: (S, E) -> Outcome<S, U>, resource: E -> Option<R>, capacity: nat)

  // ---- the server side: stop and wait ----

  datatype Server<+E> = Server(outbound: seq<E>, retained: seq<Numbered<E>>, next: nat)

  function Number<E>(events: seq<E>, first: nat): (r: seq<Numbered<E>>)
    ensures |r| == |events|
    ensures forall i :: 0 <= i < |r| ==> r[i] == Numbered(first + i, events[i])
  {
    seq(|events|, i requires 0 <= i < |events| => Numbered(first + i, events[i]))
  }

  /** New events are taken only once everything before them is acknowledged. */
  function Poll<E>(s: Server<E>): Server<E> {
    if s.retained != [] then s
    else Server([], Number(s.outbound, s.next), s.next + |s.outbound|)
  }

  function Unacknowledged<E>(events: seq<Numbered<E>>, sequence: nat): seq<Numbered<E>> {
    if events == [] then []
    else if events[0].sequence > sequence then [events[0]] + Unacknowledged(events[1..], sequence)
    else Unacknowledged(events[1..], sequence)
  }

  function Acknowledge<E>(s: Server<E>, sequence: nat): Server<E> {
    s.(retained := Unacknowledged(s.retained, sequence))
  }

  // ---- the client side ----

  /** `missed` counts browser commits refused by a full owner queue. */
  datatype Client<+S, +E, +U, +R> =
    Client(last: nat, state: S, deferred: seq<Numbered<E>>, waiting: bool, delivered: seq<Commit<U, R>>, missed: nat)

  /** One pass over a batch. */
  datatype Pass<+S, +U, +R> =
    Pass(last: nat, state: S, queue: seq<Commit<U, R>>, missed: nat, acknowledged: Option<nat>, stopped: bool)

  function OnResource<S, E, U, R>(rules: Rules<S, E, U, R>, p: Pass<S, U, R>, e: E): Pass<S, U, R> {
    var resource := rules.resource(e);
    if resource.None? then p
    else if |p.queue| >= rules.capacity then p.(stopped := true)
    else p.(queue := p.queue + [ResourceCommit(resource.value)])
  }

  /** An event already applied is acknowledged again without effect. */
  function OnEvent<S, E, U, R>(rules: Rules<S, E, U, R>, p: Pass<S, U, R>, n: Numbered<E>): Pass<S, U, R> {
    if n.sequence <= p.last then OnResource(rules, p.(acknowledged := Some(n.sequence)), n.event)
    else
      match rules.apply(p.state, n.event)
      case Rejected(s) => p.(state := s, stopped := true)
      case Applied(s, None) =>
        OnResource(rules, p.(state := s, last := n.sequence, acknowledged := Some(n.sequence)), n.event)
      case Applied(s, Some(u)) =>
        if |p.queue| >= rules.capacity then p.(state := s, last := n.sequence, missed := p.missed + 1, stopped := true)
        else
          OnResource(rules, p.(state := s, last := n.sequence, acknowledged := Some(n.sequence),
                               queue := p.queue + [BrowserCommit(u)]), n.event)
  }

  function OnEvents<S, E, U, R>(rules: Rules<S, E, U, R>, p: Pass<S, U, R>, events: seq<Numbered<E>>): Pass<S, U, R>
    decreases |events|
  {
    if events == [] || p.stopped then p else OnEvents(rules, OnEvent(rules, p, events[0]), events[1..])
  }

  function Begin<S, E, U, R>(c: Client<S, E, U, R>): Pass<S, U, R> {
    Pass(c.last, c.state, [], c.missed, None, false)
  }

  /** A poll's reply, if one arrived; the result names the sequence to acknowledge. */
  function Receive<S, E, U, R>(rules: Rules<S, E, U, R>, c: Client<S, E, U, R>, polled: Option<seq<Numbered<E>>>)
    : (Client<S, E, U, R>, Option<nat>)
  {
    if polled.None? then (c, None)
    else if c.waiting then (c.(deferred := c.deferred + polled.value), None)
    else
      var p := OnEvents(rules, Begin(c), c.deferred + polled.value);
      (Client(p.last, p.state, [], false, c.delivered + p.queue, p.missed), p.acknowledged)
  }

  // ---- what the client should be showing ----

  function Shown<S, E, U>(apply: (S, E) -> Outcome<S, U>, base: S, events: seq<E>): S {
    if events == [] then base
    else apply(Shown(apply, base, events[..|events| - 1]), events[|events| - 1]).state
  }

  function Updates<S, E, U>(apply: (S, E) -> Outcome<S, U>, base: S, events: seq<E>): seq<U> {
    if events == [] then []
    else
      var n := |events| - 1;
      var outcome := apply(Shown(apply, base, events[..n]), events[n]);
      Updates(apply, base, events[..n]) +
        if outcome.Applied? && outcome.update.Some? then [outcome.update.value] else []
  }

  predicate Accepted<S, E, U>(apply: (S, E) -> Outcome<S, U>, base: S, events: seq<E>) {
    events == [] ||
    var n := |events| - 1;
    Accepted(apply, base, events[..n]) && apply(Shown(apply, base, events[..n]), events[n]).Applied?
  }

  predicate RefusesCleanly<S(==), E, U>(apply: (S, E) -> Outcome<S, U>, s: S, e: E) {
    apply(s, e).Rejected? ==> apply(s, e).state == s
  }

  /** No event of the log, tried when its turn comes, is refused with a trace left behind. */
  predicate AtomicAlong<S(==), E, U>(apply: (S, E) -> Outcome<S, U>, base: S, log: seq<E>) {
    forall k :: 0 <= k < |log| && Accepted(apply, base, log[..k]) ==>
      RefusesCleanly(apply, Shown(apply, base, log[..k]), log[k])
  }

  /** A refused event, tried again, is refused again and changes nothing more. */
  predicate RefusesAlike<S(==), E, U>(apply: (S, E) -> Outcome<S, U>, s: S, e: E) {
    apply(s, e).Rejected? ==>
      var after := apply(s, e).state;
      apply(after, e).Rejected? && apply(after, e).state == after
  }

  /** So it is with every event of the log, tried when its turn comes. */
  predicate AlikeAlong<S(==), E, U>(apply: (S, E) -> Outcome<S, U>, base: S, log: seq<E>) {
    forall k :: 0 <= k < |log| && Accepted(apply, base, log[..k]) ==>
      RefusesAlike(apply, Shown(apply, base, log[..k]), log[k])
  }

  lemma AtomicIsAlike<S, E, U>(apply: (S, E) -> Outcome<S, U>, base: S, log: seq<E>)
    requires AtomicAlong(apply, base, log)
    ensures AlikeAlong(apply, base, log)
  {
    hide Shown, Accepted;
    forall k | 0 <= k < |log| && Accepted(apply, base, log[..k])
      ensures RefusesAlike(apply, Shown(apply, base, log[..k]), log[k])
    {
      assert RefusesCleanly(apply, Shown(apply, base, log[..k]), log[k]);
    }
  }

  function BrowserUpdates<U, R>(commits: seq<Commit<U, R>>): seq<U> {
    if commits == [] then []
    else
      var n := |commits| - 1;
      BrowserUpdates(commits[..n]) + if commits[n].BrowserCommit? then [commits[n].update] else []
  }

  // ---- runs on one connection ----

  /** `log` is the history of every event the server has numbered, oldest first. */
  datatype System<+S, +E, +U, +R> = System(server: Server<E>, client: Client<S, E, U, R>, log: seq<E>)

  datatype PollFate = Arrives | ReplyLost | NeverSent
  datatype AckFate = Reaches | Fails

  datatype Action<+E> = Produce(event: E) | PollRound(poll: PollFate, ack: AckFate) | SetWaiting(waiting: bool)

  function Start<S, E, U, R>(base: S, waiting: bool): System<S, E, U, R> {
    System(Server([], [], 1), Client(0, base, [], waiting, [], 0), [])
  }

  /** The server answers a poll, numbering what it takes. */
  function Asked<S, E, U, R>(sys: System<S, E, U, R>): System<S, E, U, R> {
    sys.(server := Poll(sys.server),
         log := if sys.server.retained == [] then sys.log + sys.server.outbound else sys.log)
  }

  /** The client handles the reply and acknowledges what it can. */
  function Answered<S, E, U, R>(
      rules: Rules<S, E, U, R>, sys: System<S, E, U, R>, poll: PollFate, ack: AckFate): System<S, E, U, R>
  {
    var (client, reply) := Receive(rules, sys.client, if poll == Arrives then Some(sys.server.retained) else None);
    sys.(client := client,
         server := if reply.Some? && ack == Reaches then Acknowledge(sys.server, reply.value) else sys.server)
  }

  function Step<S, E, U, R>(rules: Rules<S, E, U, R>, sys: System<S, E, U, R>, action: Action<E>): System<S, E, U, R> {
    match action
    case Produce(e) => sys.(server := sys.server.(outbound := sys.server.outbound + [e]))
    case SetWaiting(w) => sys.(client := sys.client.(waiting := w))
    case PollRound(poll, ack) => Answered(rules, if poll == NeverSent then sys else Asked(sys), poll, ack)
  }

  function Run<S, E, U, R>(
      rules: Rules<S, E, U, R>, sys: System<S, E, U, R>, actions: seq<Action<E>>): System<S, E, U, R>
  {
    if actions == [] then sys
    else Step(rules, Run(rules, sys, actions[..|actions| - 1]), actions[|actions| - 1])
  }

  // ---- tries that are refused ----

  predicate RefusesEvent<S, E, U, R>(rules: Rules<S, E, U, R>, p: Pass<S, U, R>, n: Numbered<E>) {
    n.sequence > p.last && rules.apply(p.state, n.event).Rejected?
  }

  predicate BatchRefuses<S, E, U, R>(rules: Rules<S, E, U, R>, p: Pass<S, U, R>, events: seq<Numbered<E>>)
    decreases |events|
  {
    && events != [] && !p.stopped
    && (RefusesEvent(rules, p, events[0]) || BatchRefuses(rules, OnEvent(rules, p, events[0]), events[1..]))
  }

  predicate RoundRefuses<S, E, U, R>(
      rules: Rules<S, E, U, R>, c: Client<S, E, U, R>, polled: Option<seq<Numbered<E>>>)
  {
    polled.Some? && !c.waiting && BatchRefuses(rules, Begin(c), c.deferred + polled.value)
  }

  /** In this round the client tries an event and refuses it. */
  predicate StepRefuses<S, E, U, R>(rules: Rules<S, E, U, R>, sys: System<S, E, U, R>, action: Action<E>) {
    action.PollRound? && action.poll == Arrives && RoundRefuses(rules, sys.client, Some(Asked(sys).server.retained))
  }

  predicate RunRefuses<S, E, U, R>(rules: Rules<S, E, U, R>, sys: System<S, E, U, R>, actions: seq<Action<E>>) {
    actions != [] &&
    var n := |actions| - 1;
    RunRefuses(rules, sys, actions[..n]) || StepRefuses(rules, Run(rules, sys, actions[..n]), actions[n])
  }

  // ---- the invariant ----

  function Tail<E>(log: seq<E>, from: nat): seq<Numbered<E>>
    requires from <= |log|
  {
    Number(log[from..], from + 1)
  }

  /** Genuine events, none of which skips past the ones applied or listed before it. */
  predicate GapFree<E(==)>(log: seq<E>, last: nat, events: seq<Numbered<E>>)
    decreases |events|
  {
    events == [] || (
      var n := events[0];
      && 1 <= n.sequence <= last + 1 && n.sequence <= |log|
      && n.event == log[n.sequence - 1]
      && GapFree(log, if n.sequence > last then n.sequence else last, events[1..]))
  }

  predicate ServerOk<E(==)>(s: Server<E>, log: seq<E>) {
    && s.next == |log| + 1
    && |s.retained| <= |log|
    && s.retained == Tail(log, |log| - |s.retained|)
  }

  /** The state the events up to `last` lead to or, once the next one was tried and refused, what that one try left. */
  predicate Reached<S(==), E, U>(apply: (S, E) -> Outcome<S, U>, base: S, log: seq<E>, last: nat, state: S, tried: bool)
    requires last <= |log|
  {
    var shown := Shown(apply, base, log[..last]);
    if tried then last < |log| && apply(shown, log[last]).Rejected? && state == apply(shown, log[last]).state
    else state == shown
  }

  /** Everything up to `last` has been shown exactly once, in order; refused browser commits are counted. */
  predicate Exact<S(==), E, U(==), R>(rules: Rules<S, E, U, R>, base: S, log: seq<E>, last: nat, state: S,
                                      commits: seq<Commit<U, R>>, missed: nat, tried: bool) {
    && last <= |log|
    && Reached(rules.apply, base, log, last, state, tried)
    && Accepted(rules.apply, base, log[..last])
    && |BrowserUpdates(commits)| + missed == |Updates(rules.apply, base, log[..last])|
    && (missed == 0 ==> BrowserUpdates(commits) == Updates(rules.apply, base, log[..last]))
  }

  predicate Invariant<S(==), E(==), U(==), R>(rules: Rules<S, E, U, R>, base: S, sys: System<S, E, U, R>, tried: bool) {
    && ServerOk(sys.server, sys.log)
    && |sys.log| - |sys.server.retained| <= sys.client.last
    && GapFree(sys.log, sys.client.last, sys.client.deferred)
    && Exact(rules, base, sys.log, sys.client.last, sys.client.state, sys.client.delivered, sys.client.missed,
             tried)
  }

  // ---- batches have no gaps ----

  lemma {:induction false} GapFreeGrows<E>(log: seq<E>, last: nat, events: seq<Numbered<E>>, more: seq<E>, later: nat)
    requires GapFree(log, last, events) && last <= later
    ensures GapFree(log + more, later, events)
    decreases |events|
  {
    if events != [] {
      var n := events[0].sequence;
      GapFreeGrows(log, if n > last then n else last, events[1..], more, if n > later then n else later);
    }
  }

  lemma {:induction false} GapFreeAppend<E>(log: seq<E>, last: nat, first: seq<Numbered<E>>, second: seq<Numbered<E>>)
    requires GapFree(log, last, first) && GapFree(log, last, second)
    ensures GapFree(log, last, first + second)
    decreases |first|
  {
    if first == [] {
      assert first + second == second;
    } else {
      var n := first[0].sequence;
      var now := if n > last then n else last;
      GapFreeGrows(log, last, second, [], now);
      assert log + [] == log;
      GapFreeAppend(log, now, first[1..], second);
      assert (first + second)[1..] == first[1..] + second;
    }
  }

  lemma {:induction false} TailIsGapFree<E>(log: seq<E>, from: nat, last: nat)
    requires from <= |log| && from <= last
    ensures GapFree(log, last, Tail(log, from))
    decreases |log| - from
  {
    if from < |log| {
      var now := if from + 1 > last then from + 1 else last;
      TailIsGapFree(log, from + 1, now);
      assert Tail(log, from)[1..] == Tail(log, from + 1);
    }
  }

  lemma {:induction false} AcknowledgedTail<E>(log: seq<E>, from: nat, sequence: nat)
    requires from <= |log| && sequence <= |log|
    ensures sequence <= from ==> Unacknowledged(Tail(log, from), sequence) == Tail(log, from)
    ensures sequence > from ==> Unacknowledged(Tail(log, from), sequence) == Tail(log, sequence)
    decreases |log| - from
  {
    hide Tail, Unacknowledged;
    if from < |log| {
      TailHead(log, from);
      AcknowledgedTail(log, from + 1, sequence);
      UnacknowledgedHead(Numbered(from + 1, log[from]), Tail(log, from + 1), sequence);
    } else {
      NothingAcknowledged(log, sequence);
    }
  }

  lemma NothingAcknowledged<E>(log: seq<E>, sequence: nat)
    ensures Unacknowledged(Tail(log, |log|), sequence) == Tail(log, |log|)
  {
  }

  lemma UnacknowledgedHead<E>(head: Numbered<E>, rest: seq<Numbered<E>>, sequence: nat)
    ensures Unacknowledged([head] + rest, sequence)
         == if head.sequence > sequence then [head] + Unacknowledged(rest, sequence) else Unacknowledged(rest, sequence)
  {
    assert ([head] + rest)[1..] == rest;
  }

  lemma TailHead<E>(log: seq<E>, from: nat)
    requires from < |log|
    ensures Tail(log, from) == [Numbered(from + 1, log[from])] + Tail(log, from + 1)
  {
  }

  // ---- one event ----

  lemma BrowserUpdatesPush<U, R>(commits: seq<Commit<U, R>>, commit: Commit<U, R>)
    ensures BrowserUpdates(commits + [commit])
         == BrowserUpdates(commits) + if commit.BrowserCommit? then [commit.update] else []
  {
    assert (commits + [commit])[..|commits|] == commits;
  }

  lemma NextShown<S, E, U>(apply: (S, E) -> Outcome<S, U>, base: S, log: seq<E>, last: nat)
    requires last < |log|
    ensures var outcome := apply(Shown(apply, base, log[..last]), log[last]);
      && Shown(apply, base, log[..last + 1]) == outcome.state
      && (Accepted(apply, base, log[..last + 1]) <==> Accepted(apply, base, log[..last]) && outcome.Applied?)
      && Updates(apply, base, log[..last + 1]) == Updates(apply, base, log[..last]) +
           if outcome.Applied? && outcome.update.Some? then [outcome.update.value] else []
  {
    assert log[..last + 1][..last] == log[..last];
  }

  lemma ResourceKeepsExact<S, E, U, R>(rules: Rules<S, E, U, R>, base: S, log: seq<E>, delivered: seq<Commit<U, R>>,
                                       p: Pass<S, U, R>, e: E, tried: bool)
    requires Exact(rules, base, log, p.last, p.state, delivered + p.queue, p.missed, tried)
    ensures var q := OnResource(rules, p, e);
      && Exact(rules, base, log, q.last, q.state, delivered + q.queue, q.missed, tried)
      && q.last == p.last && q.acknowledged == p.acknowledged
  {
    hide Reached, Accepted, Updates, Shown, BrowserUpdates;
    var resource := rules.resource(e);
    if resource.Some? {
      BrowserUpdatesPush(delivered + p.queue, ResourceCommit(resource.value));
      assert delivered + (p.queue + [ResourceCommit(resource.value)])
          == (delivered + p.queue) + [ResourceCommit(resource.value)];
    }
  }

  lemma EventKeepsExact<S(!new), E(!new), U, R>(
      rules: Rules<S, E, U, R>, base: S, log: seq<E>, delivered: seq<Commit<U, R>>,
      p: Pass<S, U, R>, n: Numbered<E>, tried: bool)
    requires AlikeAlong(rules.apply, base, log)
    requires Exact(rules, base, log, p.last, p.state, delivered + p.queue, p.missed, tried)
    requires GapFree(log, p.last, [n])
    ensures var q := OnEvent(rules, p, n);
      && Exact(rules, base, log, q.last, q.state, delivered + q.queue, q.missed, tried || RefusesEvent(rules, p, n))
      && p.last <= q.last
      && (q.last == (if n.sequence > p.last then n.sequence else p.last) || q.stopped)
      && (q.acknowledged == p.acknowledged || (q.acknowledged == Some(n.sequence) && n.sequence <= q.last))
  {
    hide Shown, Updates, Accepted, BrowserUpdates;
    if n.sequence <= p.last {
      ResourceKeepsExact(rules, base, log, delivered, p.(acknowledged := Some(n.sequence)), n.event, tried);
    } else {
      NextShown(rules.apply, base, log, p.last);
      assert RefusesAlike(rules.apply, Shown(rules.apply, base, log[..p.last]), log[p.last]);
      match rules.apply(p.state, n.event)
      case Rejected(_) =>
      case Applied(s, None) =>
        ResourceKeepsExact(rules, base, log, delivered,
          p.(state := s, last := n.sequence, acknowledged := Some(n.sequence)), n.event, false);
      case Applied(s, Some(u)) =>
        if |p.queue| < rules.capacity {
          BrowserUpdatesPush(delivered + p.queue, BrowserCommit(u));
          assert delivered + (p.queue + [BrowserCommit(u)]) == (delivered + p.queue) + [BrowserCommit(u)];
          ResourceKeepsExact(rules, base, log, delivered,
            p.(state := s, last := n.sequence, acknowledged := Some(n.sequence), queue := p.queue + [BrowserCommit(u)]),
            n.event, false);
        }
    }
  }

  // ---- one batch, one round, every run ----

  lemma {:induction false} BatchKeepsExact<S(!new), E(!new), U, R>(
      rules: Rules<S, E, U, R>, base: S, log: seq<E>, delivered: seq<Commit<U, R>>,
      p: Pass<S, U, R>, events: seq<Numbered<E>>, tried: bool)
    requires AlikeAlong(rules.apply, base, log)
    requires Exact(rules, base, log, p.last, p.state, delivered + p.queue, p.missed, tried)
    requires GapFree(log, p.last, events) || p.stopped
    requires p.acknowledged.Some? ==> p.acknowledged.value <= p.last
    ensures var q := OnEvents(rules, p, events);
      && Exact(rules, base, log, q.last, q.state, delivered + q.queue, q.missed,
          tried || BatchRefuses(rules, p, events))
      && p.last <= q.last
      && (q.acknowledged.Some? ==> q.acknowledged.value <= q.last)
    decreases |events|
  {
    hide Exact, OnEvent, RefusesEvent;
    if events != [] && !p.stopped {
      assert GapFree(log, p.last, [events[0]]);
      EventKeepsExact(rules, base, log, delivered, p, events[0], tried);
      BatchKeepsExact(rules, base, log, delivered, OnEvent(rules, p, events[0]), events[1..],
                      tried || RefusesEvent(rules, p, events[0]));
    }
  }

  lemma ReceiveKeepsExact<S(!new), E(!new), U, R>(rules: Rules<S, E, U, R>, base: S, log: seq<E>,
                                      c: Client<S, E, U, R>, polled: Option<seq<Numbered<E>>>, tried: bool)
    requires AlikeAlong(rules.apply, base, log)
    requires Exact(rules, base, log, c.last, c.state, c.delivered, c.missed, tried)
    requires GapFree(log, c.last, c.deferred)
    requires polled.Some? ==> GapFree(log, c.last, polled.value)
    ensures var (d, reply) := Receive(rules, c, polled);
      && Exact(rules, base, log, d.last, d.state, d.delivered, d.missed, tried || RoundRefuses(rules, c, polled))
      && GapFree(log, d.last, d.deferred)
      && c.last <= d.last
      && (reply.Some? ==> reply.value <= d.last)
  {
    hide Exact, OnEvents, BatchRefuses;
    if polled.Some? {
      GapFreeAppend(log, c.last, c.deferred, polled.value);
      if !c.waiting {
        assert c.delivered + [] == c.delivered;
        BatchKeepsExact(rules, base, log, c.delivered, Begin(c), c.deferred + polled.value, tried);
      }
    }
  }

  lemma PollKeepsServer<E>(s: Server<E>, log: seq<E>)
    requires ServerOk(s, log)
    ensures ServerOk(Poll(s), if s.retained == [] then log + s.outbound else log)
  {
    if s.retained == [] {
      var longer := log + s.outbound;
      assert longer[|log|..] == s.outbound;
      assert Number(s.outbound, s.next) == Tail(longer, |log|);
    }
  }

  lemma AckKeepsServer<E>(s: Server<E>, log: seq<E>, sequence: nat)
    requires ServerOk(s, log) && sequence <= |log|
    ensures var t := Acknowledge(s, sequence);
      && ServerOk(t, log)
      && |log| - |t.retained| == if sequence > |log| - |s.retained| then sequence else |log| - |s.retained|
  {
    AcknowledgedTail(log, |log| - |s.retained|, sequence);
  }

  lemma GrowingLogKeepsExact<S, E, U, R>(
      rules: Rules<S, E, U, R>, base: S, log: seq<E>, more: seq<E>, c: Client<S, E, U, R>,
      tried: bool)
    requires Exact(rules, base, log, c.last, c.state, c.delivered, c.missed, tried)
    ensures Exact(rules, base, log + more, c.last, c.state, c.delivered, c.missed, tried)
  {
    assert (log + more)[..c.last] == log[..c.last];
  }

  lemma AskedKeepsInvariant<S, E, U, R>(rules: Rules<S, E, U, R>, base: S, sys: System<S, E, U, R>, tried: bool)
    requires Invariant(rules, base, sys, tried)
    ensures Invariant(rules, base, Asked(sys), tried)
  {
    hide Exact, GapFree, Poll, ServerOk;
    PollKeepsServer(sys.server, sys.log);
    BatchLength(sys.server, sys.log);
    if sys.server.retained == [] {
      GapFreeGrows(sys.log, sys.client.last, sys.client.deferred, sys.server.outbound, sys.client.last);
      GrowingLogKeepsExact(rules, base, sys.log, sys.server.outbound, sys.client, tried);
    }
  }

  lemma RetainedIsGapFree<E>(s: Server<E>, log: seq<E>, last: nat)
    requires ServerOk(s, log) && |log| - |s.retained| <= last
    ensures GapFree(log, last, s.retained)
  {
    TailIsGapFree(log, |log| - |s.retained|, last);
  }

  lemma AnsweredKeepsInvariant<S(!new), E(!new), U, R>(
      rules: Rules<S, E, U, R>, base: S, sys: System<S, E, U, R>, poll: PollFate, ack: AckFate, tried: bool)
    requires AlikeAlong(rules.apply, base, sys.log) && Invariant(rules, base, sys, tried)
    ensures var polled := if poll == Arrives then Some(sys.server.retained) else None;
      Invariant(rules, base, Answered(rules, sys, poll, ack), tried || RoundRefuses(rules, sys.client, polled))
  {
    hide Exact, Receive, GapFree, Acknowledge, ServerOk, AlikeAlong, RoundRefuses;
    RetainedIsGapFree(sys.server, sys.log, sys.client.last);
    var polled := if poll == Arrives then Some(sys.server.retained) else None;
    ReceiveKeepsExact(rules, base, sys.log, sys.client, polled, tried);
    var (client, reply) := Receive(rules, sys.client, polled);
    ExactLast(rules, base, sys.log, client, tried || RoundRefuses(rules, sys.client, polled));
    if reply.Some? {
      AckKeepsServer(sys.server, sys.log, reply.value);
    }
  }

  lemma StepKeepsInvariant<S(!new), E(!new), U, R>(
      rules: Rules<S, E, U, R>, base: S, sys: System<S, E, U, R>, action: Action<E>,
      tried: bool)
    requires AlikeAlong(rules.apply, base, Step(rules, sys, action).log) && Invariant(rules, base, sys, tried)
    ensures Invariant(rules, base, Step(rules, sys, action), tried || StepRefuses(rules, sys, action))
  {
    hide Exact, GapFree, Receive, Poll, Acknowledge, AlikeAlong, BatchRefuses;
    if action.PollRound? {
      AskedKeepsInvariant(rules, base, sys, tried);
      var asked := if action.poll == NeverSent then sys else Asked(sys);
      AnsweredKeepsInvariant(rules, base, asked, action.poll, action.ack, tried);
    }
  }

  lemma BatchLength<E>(s: Server<E>, log: seq<E>)
    requires ServerOk(s, log)
    ensures s.retained == [] ==> |Poll(s).retained| == |s.outbound|
    ensures s.retained != [] ==> Poll(s) == s
  {
  }

  lemma ExactLast<S, E, U, R>(rules: Rules<S, E, U, R>, base: S, log: seq<E>, c: Client<S, E, U, R>, tried: bool)
    requires Exact(rules, base, log, c.last, c.state, c.delivered, c.missed, tried)
    ensures c.last <= |log|
  {
  }

  lemma AlikePrefix<S, E, U>(apply: (S, E) -> Outcome<S, U>, base: S, log: seq<E>, longer: seq<E>)
    requires AlikeAlong(apply, base, longer) && log <= longer
    ensures AlikeAlong(apply, base, log)
  {
    forall k | 0 <= k < |log| && Accepted(apply, base, log[..k])
      ensures RefusesAlike(apply, Shown(apply, base, log[..k]), log[k])
    {
      assert longer[..k] == log[..k] && longer[k] == log[k];
    }
  }

  lemma LogGrows<S, E, U, R>(rules: Rules<S, E, U, R>, sys: System<S, E, U, R>, action: Action<E>)
    ensures sys.log <= Step(rules, sys, action).log
  {
  }

  lemma {:induction false} RunKeepsInvariant<S(!new), E(!new), U, R>(
      rules: Rules<S, E, U, R>, base: S, sys: System<S, E, U, R>, actions: seq<Action<E>>)
    requires Invariant(rules, base, sys, false) && AlikeAlong(rules.apply, base, Run(rules, sys, actions).log)
    ensures Invariant(rules, base, Run(rules, sys, actions), RunRefuses(rules, sys, actions))
  {
    hide Step, Invariant, AlikeAlong, StepRefuses;
    if actions != [] {
      var before := Run(rules, sys, actions[..|actions| - 1]);
      LogGrows(rules, before, actions[|actions| - 1]);
      AlikePrefix(rules.apply, base, before.log, Run(rules, sys, actions).log);
      RunKeepsInvariant(rules, base, sys, actions[..|actions| - 1]);
      StepKeepsInvariant(rules, base, before, actions[|actions| - 1], RunRefuses(rules, sys, actions[..|actions| - 1]));
    }
  }

  lemma StartIsOk<S, E, U, R>(rules: Rules<S, E, U, R>, base: S, waiting: bool)
    ensures Invariant(rules, base, Start(base, waiting), false)
  {
    var log: seq<E> := [];
    assert log[..0] == [];
    assert ServerOk(Server([], [], 1), log) by {
      assert Tail(log, 0) == [];
    }
    assert Exact(rules, base, log, 0, base, [], 0, false);
  }

  /**
    However polls, replies and acknowledgements are lost and whatever is deferred at startup, the
    presentation is the numbered events 1..last applied once each in order, with what one try of the next event
    left behind if the run tried and refused it; and the server has dropped no event the client has not applied.
   */
  lemma ExactlyOnceInOrder<S(!new), E(!new), U, R>(
      rules: Rules<S, E, U, R>, base: S, waiting: bool, actions: seq<Action<E>>)
    requires AlikeAlong(rules.apply, base, Run(rules, Start(base, waiting), actions).log)
    ensures var sys := Run(rules, Start(base, waiting), actions);
      && sys.client.last <= |sys.log|
      && Reached(rules.apply, base, sys.log, sys.client.last, sys.client.state,
                 RunRefuses(rules, Start(base, waiting), actions))
      && Accepted(rules.apply, base, sys.log[..sys.client.last])
      && |sys.log| - |sys.server.retained| <= sys.client.last
      && (forall i :: 0 <= i < |sys.server.retained| ==>
            sys.server.retained[i].sequence == |sys.log| - |sys.server.retained| + i + 1)
  {
    hide Run, Shown, Updates, Accepted, BrowserUpdates, AlikeAlong, RunRefuses, Reached;
    StartIsOk(rules, base, waiting);
    RunKeepsInvariant(rules, base, Start(base, waiting), actions);
  }

  /** Where refusals leave nothing behind, the presentation is exactly the applied events. */
  lemma CleanRefusalsShowLog<S(!new), E(!new), U, R>(
      rules: Rules<S, E, U, R>, base: S, waiting: bool, actions: seq<Action<E>>)
    requires AtomicAlong(rules.apply, base, Run(rules, Start(base, waiting), actions).log)
    ensures var sys := Run(rules, Start(base, waiting), actions);
      && sys.client.last <= |sys.log|
      && sys.client.state == Shown(rules.apply, base, sys.log[..sys.client.last])
  {
    var sys := Run(rules, Start(base, waiting), actions);
    AtomicIsAlike(rules.apply, base, sys.log);
    ExactlyOnceInOrder(rules, base, waiting, actions);
    hide Run, Shown, Accepted, RunRefuses;
    if RunRefuses(rules, Start(base, waiting), actions) {
      assert RefusesCleanly(rules.apply, Shown(rules.apply, base, sys.log[..sys.client.last]),
          sys.log[sys.client.last]);
    }
  }

  // ---- which batches overrun the owner queue ----

  function ResourceOf<S, E, U, R>(rules: Rules<S, E, U, R>, e: E): seq<Commit<U, R>> {
    var resource := rules.resource(e);
    if resource.Some? then [ResourceCommit(resource.value)] else []
  }

  function UpdateOf<U, R>(update: Option<U>): seq<Commit<U, R>> {
    if update.Some? then [BrowserCommit(update.value)] else []
  }

  /** What one event leads to if there is room: the last sequence and state after it, and its commits. */
  datatype Effect<+S, +U, +R> = Refused | Taken(last: nat, state: S, commits: seq<Commit<U, R>>)

  function EffectOf<S, E, U, R>(rules: Rules<S, E, U, R>, last: nat, state: S, n: Numbered<E>): Effect<S, U, R> {
    if n.sequence <= last then Taken(last, state, ResourceOf(rules, n.event))
    else
      match rules.apply(state, n.event)
      case Rejected(_) => Refused
      case Applied(s, update) => Taken(n.sequence, s, UpdateOf(update) + ResourceOf(rules, n.event))
  }

  /** The commits a batch asks for, up to its first refusal, were the queue unlimited. */
  function Wanted<S, E, U, R>(
      rules: Rules<S, E, U, R>, last: nat, state: S, events: seq<Numbered<E>>): seq<Commit<U, R>>
    decreases |events|
  {
    if events == [] then []
    else
      var effect := EffectOf(rules, last, state, events[0]);
      if effect.Refused? then [] else effect.commits + Wanted(rules, effect.last, effect.state, events[1..])
  }

  /** `queue` and `missed` after asking for `all` commits. */
  predicate Capped<U(==), R(==)>(capacity: nat, all: seq<Commit<U, R>>, queue: seq<Commit<U, R>>, extra: int) {
    if |all| <= capacity then queue == all && extra == 0
    else queue == all[..capacity] && extra == if all[capacity].BrowserCommit? then 1 else 0
  }

  /** What one event does to a pass with room in the queue. */
  predicate Follows<S(==), E, U(==), R(==)>(rules: Rules<S, E, U, R>, p: Pass<S, U, R>, n: Numbered<E>,
                                           q: Pass<S, U, R>, effect: Effect<S, U, R>) {
    if effect.Refused? then q.stopped && q.queue == p.queue && q.missed == p.missed
    else
      var all := p.queue + effect.commits;
      && Capped(rules.capacity, all, q.queue, q.missed - p.missed)
      && q.stopped == (|all| > rules.capacity)
      && (!q.stopped ==> q.last == effect.last && q.state == effect.state)
      && (|all| > rules.capacity && all[rules.capacity].ResourceCommit? ==>
            q.acknowledged == Some(n.sequence) && ResourceOf(rules, n.event) == [all[rules.capacity]])
  }

  lemma OneEffect<S, E, U, R>(rules: Rules<S, E, U, R>, p: Pass<S, U, R>, n: Numbered<E>)
    requires |p.queue| <= rules.capacity && !p.stopped
    ensures Follows(rules, p, n, OnEvent(rules, p, n), EffectOf(rules, p.last, p.state, n))
  {
    hide OnResource, ResourceOf, Capped;
    if n.sequence <= p.last {
      OneResource(rules, p.(acknowledged := Some(n.sequence)), n.event);
    } else if rules.apply(p.state, n.event).Applied? {
      NewEffect(rules, p, n);
    }
  }

  lemma NewEffect<S, E, U, R>(rules: Rules<S, E, U, R>, p: Pass<S, U, R>, n: Numbered<E>)
    requires |p.queue| <= rules.capacity && !p.stopped
    requires n.sequence > p.last && rules.apply(p.state, n.event).Applied?
    ensures Follows(rules, p, n, OnEvent(rules, p, n), EffectOf(rules, p.last, p.state, n))
  {
    var outcome := rules.apply(p.state, n.event);
    hide OnResource, ResourceOf, Capped, Follows;
    if outcome.update.None? {
      SilentEffect(rules, p, outcome.state, n);
    } else if |p.queue| < rules.capacity {
      RoomyEffect(rules, p, outcome.state, n, outcome.update.value);
    } else {
      FullEffect(rules, p, outcome.state, n, outcome.update.value);
    }
  }

  lemma SilentEffect<S, E, U, R>(rules: Rules<S, E, U, R>, p: Pass<S, U, R>, s: S, n: Numbered<E>)
    requires |p.queue| <= rules.capacity && !p.stopped
    ensures Follows(rules, p, n,
      OnResource(rules, p.(state := s, last := n.sequence, acknowledged := Some(n.sequence)), n.event),
      Taken(n.sequence, s, UpdateOf(None) + ResourceOf(rules, n.event)))
  {
    EmptySides(ResourceOf(rules, n.event));
    OneResource(rules, p.(state := s, last := n.sequence, acknowledged := Some(n.sequence)), n.event);
    hide OnResource, ResourceOf, Capped;
  }

  lemma RoomyEffect<S, E, U, R>(rules: Rules<S, E, U, R>, p: Pass<S, U, R>, s: S, n: Numbered<E>, u: U)
    requires |p.queue| < rules.capacity && !p.stopped
    ensures Follows(rules, p, n,
      OnResource(rules, p.(state := s, last := n.sequence, acknowledged := Some(n.sequence),
                           queue := p.queue + [BrowserCommit(u)]), n.event),
      Taken(n.sequence, s, UpdateOf(Some(u)) + ResourceOf(rules, n.event)))
  {
    UpdateThenResource(rules, p, s, n, u);
    hide OnResource, ResourceOf, Capped;
  }

  lemma FullEffect<S, E, U, R>(rules: Rules<S, E, U, R>, p: Pass<S, U, R>, s: S, n: Numbered<E>, u: U)
    requires |p.queue| == rules.capacity && !p.stopped
    ensures Follows(rules, p, n, p.(state := s, last := n.sequence, missed := p.missed + 1, stopped := true),
      Taken(n.sequence, s, UpdateOf(Some(u)) + ResourceOf(rules, n.event)))
  {
    UpdateRefused(rules.capacity, p.queue, u, ResourceOf(rules, n.event));
    hide ResourceOf, Capped;
  }

  lemma UpdateThenResource<S, E, U, R>(rules: Rules<S, E, U, R>, p: Pass<S, U, R>, s: S, n: Numbered<E>, u: U)
    requires |p.queue| < rules.capacity && !p.stopped
    ensures var pushed := p.(state := s, last := n.sequence, acknowledged := Some(n.sequence),
        queue := p.queue + [BrowserCommit(u)]);
      var q, all := OnResource(rules, pushed, n.event), p.queue + ([BrowserCommit(u)] + ResourceOf(rules, n.event));
      && Capped(rules.capacity, all, q.queue, 0)
      && q == pushed.(queue := q.queue, stopped := |all| > rules.capacity)
      && (|all| > rules.capacity ==> ResourceOf(rules, n.event) == [all[rules.capacity]])
  {
    var queue := p.queue + [BrowserCommit(u)];
    Regroup(p.queue, [BrowserCommit(u)], ResourceOf(rules, n.event));
    hide OnResource, ResourceOf;
    OneResource(rules, p.(state := s, last := n.sequence, acknowledged := Some(n.sequence), queue := queue), n.event);
  }

  lemma UpdateRefused<U, R>(capacity: nat, queue: seq<Commit<U, R>>, u: U, resource: seq<Commit<U, R>>)
    requires |queue| == capacity
    ensures var all := queue + ([BrowserCommit(u)] + resource);
      Capped(capacity, all, queue, 1) && |all| > capacity && all[capacity] == BrowserCommit(u)
  {
    var all := queue + ([BrowserCommit(u)] + resource);
    assert all[..capacity] == queue;
  }

  lemma OneResource<S, E, U, R>(rules: Rules<S, E, U, R>, p: Pass<S, U, R>, e: E)
    requires |p.queue| <= rules.capacity && !p.stopped
    ensures var q, all := OnResource(rules, p, e), p.queue + ResourceOf(rules, e);
      && Capped(rules.capacity, all, q.queue, 0)
      && q == p.(queue := q.queue, stopped := |all| > rules.capacity)
      && (|all| > rules.capacity ==> ResourceOf(rules, e) == [all[rules.capacity]])
  {
    EmptySides(p.queue);
  }

  /** A pass queues the commits its batch asks for as far as the capacity goes; the first one over it is refused. */
  lemma {:induction false} PassIsCapped<S, E, U, R>(
      rules: Rules<S, E, U, R>, p: Pass<S, U, R>, events: seq<Numbered<E>>)
    requires |p.queue| <= rules.capacity && !p.stopped
    ensures var q := OnEvents(rules, p, events);
      Capped(rules.capacity, p.queue + Wanted(rules, p.last, p.state, events), q.queue, q.missed - p.missed)
    decreases |events|
  {
    if events == [] {
      assert p.queue + [] == p.queue;
    } else {
      OneEffect(rules, p, events[0]);
      var effect, q := EffectOf(rules, p.last, p.state, events[0]), OnEvent(rules, p, events[0]);
      hide OnEvent, EffectOf;
      assert p.queue + [] == p.queue;
      if effect.Taken? {
        var later := Wanted(rules, effect.last, effect.state, events[1..]);
        Regroup(p.queue, effect.commits, later);
        if !q.stopped {
          PassIsCapped(rules, q, events[1..]);
        } else {
          CappedEarly(rules.capacity, p.queue + effect.commits, later, q.queue, q.missed - p.missed);
        }
      }
    }
  }

  lemma CappedEarly<U, R>(
      capacity: nat, all: seq<Commit<U, R>>, later: seq<Commit<U, R>>, queue: seq<Commit<U, R>>, extra: int)
    requires |all| > capacity && Capped(capacity, all, queue, extra)
    ensures Capped(capacity, all + later, queue, extra)
  {
    assert (all + later)[..capacity] == all[..capacity];
  }

  /** The commit that does not fit, if there is one. */
  function FirstRefused<S, E, U, R>(rules: Rules<S, E, U, R>, c: Client<S, E, U, R>, polled: Option<seq<Numbered<E>>>)
    : Option<Commit<U, R>>
  {
    if polled.None? || c.waiting then None
    else
      var wanted := Wanted(rules, c.last, c.state, c.deferred + polled.value);
      if |wanted| > rules.capacity then Some(wanted[rules.capacity]) else None
  }

  lemma RoundMisses<S, E, U, R>(rules: Rules<S, E, U, R>, c: Client<S, E, U, R>, polled: Option<seq<Numbered<E>>>)
    ensures var refused := FirstRefused(rules, c, polled);
      Receive(rules, c, polled).0.missed == c.missed + if refused.Some? && refused.value.BrowserCommit? then 1 else 0
  {
    if polled.Some? && !c.waiting {
      PassIsCapped(rules, Begin(c), c.deferred + polled.value);
      EmptySides(Wanted(rules, c.last, c.state, c.deferred + polled.value));
      hide Wanted, OnEvents;
    }
  }

  /** In this round the first commit over the queue's capacity is a browser update. */
  predicate Overruns<S, E, U, R>(rules: Rules<S, E, U, R>, sys: System<S, E, U, R>, action: Action<E>) {
    && action.PollRound?
    && action.poll == Arrives
    && var refused := FirstRefused(rules, sys.client, Some(Asked(sys).server.retained));
       refused.Some? && refused.value.BrowserCommit?
  }

  predicate NeverOverruns<S, E, U, R>(rules: Rules<S, E, U, R>, sys: System<S, E, U, R>, actions: seq<Action<E>>) {
    actions == [] ||
    var n := |actions| - 1;
    NeverOverruns(rules, sys, actions[..n]) && !Overruns(rules, Run(rules, sys, actions[..n]), actions[n])
  }

  lemma StepMisses<S, E, U, R>(rules: Rules<S, E, U, R>, sys: System<S, E, U, R>, action: Action<E>)
    ensures Step(rules, sys, action).client.missed == sys.client.missed + if Overruns(rules, sys, action) then 1 else 0
  {
    hide Receive, FirstRefused, Poll, Acknowledge;
    if action.PollRound? {
      var asked := if action.poll == NeverSent then sys else Asked(sys);
      RoundMisses(rules, sys.client, if action.poll == Arrives then Some(asked.server.retained) else None);
      NoPollNoRefusal(rules, sys.client);
    }
  }

  lemma NoPollNoRefusal<S, E, U, R>(rules: Rules<S, E, U, R>, c: Client<S, E, U, R>)
    ensures FirstRefused(rules, c, None).None?
  {
  }

  lemma {:induction false} RunMisses<S, E, U, R>(
      rules: Rules<S, E, U, R>, sys: System<S, E, U, R>, actions: seq<Action<E>>)
    ensures Run(rules, sys, actions).client.missed >= sys.client.missed
    ensures Run(rules, sys, actions).client.missed == sys.client.missed <==> NeverOverruns(rules, sys, actions)
  {
    hide Step, Overruns;
    if actions != [] {
      var n := |actions| - 1;
      RunMisses(rules, sys, actions[..n]);
      StepMisses(rules, Run(rules, sys, actions[..n]), actions[n]);
    }
  }

  /**
    The browser owner got every update, in order, exactly when in no round of the run the first commit
    over the queue's capacity, counted over the deferred and polled events up to a refusal, was an update.
   */
  lemma BrowserUpdatesCompleteIff<S(!new), E(!new), U, R>(
      rules: Rules<S, E, U, R>, base: S, waiting: bool, actions: seq<Action<E>>)
    requires AlikeAlong(rules.apply, base, Run(rules, Start(base, waiting), actions).log)
    ensures var sys := Run(rules, Start(base, waiting), actions);
      && sys.client.last <= |sys.log|
      && (NeverOverruns(rules, Start(base, waiting), actions) <==>
           BrowserUpdates(sys.client.delivered) == Updates(rules.apply, base, sys.log[..sys.client.last]))
  {
    hide Run, Shown, Updates, Accepted, BrowserUpdates, AlikeAlong, NeverOverruns, RunRefuses, Reached;
    StartIsOk(rules, base, waiting);
    RunKeepsInvariant(rules, base, Start(base, waiting), actions);
    RunMisses(rules, Start(base, waiting), actions);
  }

  lemma RunSplits<S, E, U, R>(
      rules: Rules<S, E, U, R>, sys: System<S, E, U, R>, first: seq<Action<E>>, second: seq<Action<E>>)
    ensures Run(rules, sys, first + second) == Run(rules, Run(rules, sys, first), second)
    decreases |second|
  {
    if second == [] {
      EmptySides(first);
    } else {
      var n := |second| - 1;
      RunSplits(rules, sys, first, second[..n]);
      assert second == second[..n] + [second[n]];
      Regroup(first, second[..n], [second[n]]);
      RunPush(rules, sys, first + second[..n], second[n]);
      RunPush(rules, Run(rules, sys, first), second[..n], second[n]);
      hide Run, Step;
    }
  }

  lemma RunPush<S, E, U, R>(rules: Rules<S, E, U, R>, sys: System<S, E, U, R>, actions: seq<Action<E>>, last: Action<E>)
    ensures Run(rules, sys, actions + [last]) == Step(rules, Run(rules, sys, actions), last)
  {
    hide Step;
    assert (actions + [last])[..|actions|] == actions;
  }

  /** An update lost once is never made up for, whatever follows. */
  lemma LossIsForGood<S(!new), E(!new), U, R>(
      rules: Rules<S, E, U, R>, base: S, waiting: bool, actions: seq<Action<E>>, more: seq<Action<E>>)
    requires AlikeAlong(rules.apply, base, Run(rules, Start(base, waiting), actions + more).log)
    requires !NeverOverruns(rules, Start(base, waiting), actions)
    ensures var sys := Run(rules, Start(base, waiting), actions + more);
      sys.client.last <= |sys.log| &&
      BrowserUpdates(sys.client.delivered) != Updates(rules.apply, base, sys.log[..sys.client.last])
  {
    var start := Start<S, E, U, R>(base, waiting);
    RunMisses(rules, start, actions);
    RunSplits(rules, start, actions, more);
    RunMisses(rules, Run(rules, start, actions), more);
    RunMisses(rules, start, actions + more);
    hide Run, Updates, BrowserUpdates, AlikeAlong, NeverOverruns;
    BrowserUpdatesCompleteIff(rules, base, waiting, actions + more);
  }

  // ---- resources ----

  /**
    When the first commit over the capacity is a resource, its event is acknowledged all the same: the resource
    is not queued, and the server's next batch begins after it.
   */
  lemma RefusedResourceIsAcknowledged<S, E, U, R>(
      rules: Rules<S, E, U, R>, c: Client<S, E, U, R>, polled: seq<Numbered<E>>, server: Server<E>) returns (i: nat)
    requires var refused := FirstRefused(rules, c, Some(polled)); refused.Some? && refused.value.ResourceCommit?
    ensures var events := c.deferred + polled;
      var (after, reply) := Receive(rules, c, Some(polled));
      && i < |events|
      && ResourceOf(rules, events[i].event) == [FirstRefused(rules, c, Some(polled)).value]
      && reply == Some(events[i].sequence)
      && after.delivered == c.delivered + Wanted(rules, c.last, c.state, events)[..rules.capacity]
      && (forall n :: n in Acknowledge(server, reply.value).retained ==> n.sequence > events[i].sequence)
  {
    var events := c.deferred + polled;
    assert [] + Wanted(rules, c.last, c.state, events) == Wanted(rules, c.last, c.state, events);
    PassIsCapped(rules, Begin(c), events);
    i := LastAcknowledged(rules, Begin(c), events);
    UnacknowledgedIsLater(server.retained, events[i].sequence);
  }

  lemma {:induction false} UnacknowledgedIsLater<E>(events: seq<Numbered<E>>, sequence: nat)
    ensures forall n :: n in Unacknowledged(events, sequence) ==> n.sequence > sequence
  {
    if events != [] {
      UnacknowledgedIsLater(events[1..], sequence);
    }
  }

  lemma {:induction false} LastAcknowledged<S, E, U, R>(
      rules: Rules<S, E, U, R>, p: Pass<S, U, R>, events: seq<Numbered<E>>)
    returns (i: nat)
    requires |p.queue| <= rules.capacity && !p.stopped
    requires var all := p.queue + Wanted(rules, p.last, p.state, events);
      |all| > rules.capacity && all[rules.capacity].ResourceCommit?
    ensures var all := p.queue + Wanted(rules, p.last, p.state, events);
      && i < |events|
      && OnEvents(rules, p, events).acknowledged == Some(events[i].sequence)
      && ResourceOf(rules, events[i].event) == [all[rules.capacity]]
    decreases |events|
  {
    assert events != [];
    OneEffect(rules, p, events[0]);
    var effect, q := EffectOf(rules, p.last, p.state, events[0]), OnEvent(rules, p, events[0]);
    hide OnEvent, EffectOf, ResourceOf;
    var later := Wanted(rules, effect.last, effect.state, events[1..]);
    Regroup(p.queue, effect.commits, later);
    if q.stopped {
      i := 0;
    } else {
      var k := LastAcknowledged(rules, q, events[1..]);
      i := k + 1;
    }
  }

  // ---- room, and progress ----

  /** No command leaves both a browser update and a resource behind. */
  ghost predicate OneCommitEach<S(!new), E(!new), U, R>(rules: Rules<S, E, U, R>) {
    forall s, e :: rules.resource(e).Some? && rules.apply(s, e).Applied? ==> rules.apply(s, e).update.None?
  }

  lemma {:induction false} AcceptedPrefix<S, E, U>(apply: (S, E) -> Outcome<S, U>, base: S, log: seq<E>, k: nat)
    requires Accepted(apply, base, log) && k < |log|
    ensures apply(Shown(apply, base, log[..k]), log[k]).Applied?
  {
    var n := |log| - 1;
    if k < n {
      AcceptedPrefix(apply, base, log[..n], k);
      assert log[..n][..k] == log[..k];
    }
  }

  lemma EventRuns<S(!new), E(!new), U, R>(
      rules: Rules<S, E, U, R>, base: S, log: seq<E>, p: Pass<S, U, R>, n: Numbered<E>)
    requires OneCommitEach(rules) && Accepted(rules.apply, base, log)
    requires p.last <= |log| && p.state == Shown(rules.apply, base, log[..p.last])
    requires GapFree(log, p.last, [n]) && !p.stopped && |p.queue| < rules.capacity
    ensures var q := OnEvent(rules, p, n);
      && !q.stopped && q.missed == p.missed && |q.queue| <= |p.queue| + 1
      && q.acknowledged == Some(n.sequence)
      && q.last == (if n.sequence > p.last then n.sequence else p.last) && q.last <= |log|
      && q.state == Shown(rules.apply, base, log[..q.last])
  {
    hide Accepted, Shown;
    if n.sequence > p.last {
      AcceptedPrefix(rules.apply, base, log, p.last);
      NextShown(rules.apply, base, log, p.last);
      assert rules.apply(p.state, n.event).Applied?;
    }
  }

  lemma {:induction false} BatchRuns<S(!new), E(!new), U, R>(
      rules: Rules<S, E, U, R>, base: S, log: seq<E>, p: Pass<S, U, R>, events: seq<Numbered<E>>)
    requires OneCommitEach(rules) && Accepted(rules.apply, base, log)
    requires p.last <= |log| && p.state == Shown(rules.apply, base, log[..p.last])
    requires GapFree(log, p.last, events) && !p.stopped && |p.queue| + |events| <= rules.capacity
    ensures var q := OnEvents(rules, p, events);
      && q.missed == p.missed && p.last <= q.last <= |log|
      && (events != [] ==> q.acknowledged == Some(events[|events| - 1].sequence)
                           && events[|events| - 1].sequence <= q.last)
    decreases |events|
  {
    hide Accepted, Shown, OnEvent, OneCommitEach;
    if events != [] {
      assert GapFree(log, p.last, [events[0]]);
      EventRuns(rules, base, log, p, events[0]);
      BatchRuns(rules, base, log, OnEvent(rules, p, events[0]), events[1..]);
    }
  }

  /**
    Nothing gets stuck: once startup is over, one undisturbed round in which every numbered event is
    acceptable and the batch fits the owner queue shows everything, loses nothing and empties the server's batch.
   */
  lemma UndisturbedRoundCatchesUp<S(!new), E(!new), U, R>(rules: Rules<S, E, U, R>, base: S, sys: System<S, E, U, R>,
      tried: bool)
    requires OneCommitEach(rules) && Invariant(rules, base, sys, tried)
    requires !sys.client.waiting && Accepted(rules.apply, base, Asked(sys).log)
    requires |sys.client.deferred| + |Asked(sys).server.retained| <= rules.capacity
    ensures var after := Step(rules, sys, PollRound(Arrives, Reaches));
      && after.client.last == |after.log| && after.server.retained == [] && after.client.deferred == []
      && after.client.missed == sys.client.missed && after.log == Asked(sys).log
  {
    hide Accepted, Exact, GapFree, OneCommitEach, Poll, Receive;
    AskedKeepsInvariant(rules, base, sys, tried);
    var asked := Asked(sys);
    RetainedIsGapFree(asked.server, asked.log, sys.client.last);
    ReceiveCatchesUp(rules, base, asked.log, sys.client, asked.server.retained, tried);
    if asked.server.retained != [] {
      AckKeepsServer(asked.server, asked.log, |asked.log|);
    }
  }

  lemma ReceiveCatchesUp<S(!new), E(!new), U, R>(
      rules: Rules<S, E, U, R>, base: S, log: seq<E>, c: Client<S, E, U, R>,
      batch: seq<Numbered<E>>, tried: bool)
    requires OneCommitEach(rules) && !c.waiting && Accepted(rules.apply, base, log)
    requires Exact(rules, base, log, c.last, c.state, c.delivered, c.missed, tried)
    requires GapFree(log, c.last, c.deferred) && GapFree(log, c.last, batch)
    requires |batch| <= |log| && |log| - |batch| <= c.last && batch == Tail(log, |log| - |batch|)
    requires |c.deferred| + |batch| <= rules.capacity
    ensures var (d, reply) := Receive(rules, c, Some(batch));
      && d.last == |log| && d.deferred == [] && d.missed == c.missed
      && (batch != [] ==> reply == Some(|log|))
  {
    hide Accepted, Shown, Updates, BrowserUpdates, OnEvent, OneCommitEach, GapFree, OnEvents;
    if c.last < |log| {
      AcceptedPrefix(rules.apply, base, log, c.last);
    }
    GapFreeAppend(log, c.last, c.deferred, batch);
    BatchRuns(rules, base, log, Begin(c), c.deferred + batch);
    if batch != [] {
      assert (c.deferred + batch)[|c.deferred + batch| - 1] == batch[|batch| - 1] == Numbered(|log|, log[|log| - 1]);
    }
  }

  // ---- the owner queue ----

  datatype Tagged<+T> = Tagged(generation: nat, command: T)

  function Raised(counter: nat, more: nat): nat {
    if counter + more < U64_MAX then counter + more else U64_MAX
  }

  /** Diagnostic counters stop at the last 64-bit number. */
  lemma RaisedIs(counter: nat, more: nat)
    requires counter < 0x1_0000_0000_0000_0000
    ensures Raised(counter, more) ==
        if counter + more < 0x1_0000_0000_0000_0000 then counter + more else 0xFFFF_FFFF_FFFF_FFFF
  {
  }

  function Current<T>(commands: seq<Tagged<T>>, generation: nat): seq<T> {
    if commands == [] then []
    else if commands[0].generation == generation then [commands[0].command] + Current(commands[1..], generation)
    else Current(commands[1..], generation)
  }

  lemma CurrentHead<T>(head: Tagged<T>, rest: seq<Tagged<T>>, generation: nat)
    ensures Current([head] + rest, generation)
         == if head.generation == generation then [head.command] + Current(rest, generation)
             else Current(rest, generation)
  {
    assert ([head] + rest)[1..] == rest;
  }

  lemma {:induction false} CurrentAppend<T>(first: seq<Tagged<T>>, second: seq<Tagged<T>>, generation: nat)
    ensures Current(first + second, generation) == Current(first, generation) + Current(second, generation)
  {
    if first == [] {
      EmptySides(second);
      EmptySides(Current(second, generation));
    } else {
      hide Current;
      var head, rest := first[0], first[1..];
      CurrentAppend(rest, second, generation);
      CurrentHead(head, rest, generation);
      CurrentHead(head, rest + second, generation);
      assert first == [head] + rest && first + second == [head] + (rest + second);
      Regroup([head.command], Current(rest, generation), Current(second, generation));
    }
  }

  class UiOwnerCommandQueue<T> {
    var generation: nat
    const capacity: nat
    var commands: seq<Tagged<T>>
    var staleDropped: nat
    var overflowRejected: nat

    /** The commands still to be run, oldest first. */
    function Pending(): seq<T>
      reads this
    {
      Current(commands, generation)
    }

    predicate Valid()
      reads this
    {
      |commands| <= capacity
    }

    constructor (generation: nat, capacity: nat)
      ensures Valid() && this.generation == generation && this.capacity == capacity && commands == []
      ensures staleDropped == 0 && overflowRejected == 0
    {
      this.generation, this.capacity := generation, capacity;
      commands := [];
      staleDropped, overflowRejected := 0, 0;
    }

    /** Commands tagged with any other generation are discarded. */
    method AdvanceGeneration(next: nat)
      requires Valid()
      modifies this
      ensures Valid() && generation == next && overflowRejected == old(overflowRejected)
      ensures Pending() == Current(old(commands), next) && |Pending()| == |commands| <= |old(commands)|
      ensures staleDropped == Raised(old(staleDropped), |old(commands)| - |commands|)
    {
      var kept: seq<Tagged<T>> := [];
      for i := 0 to |commands|
        invariant commands == old(commands) && overflowRejected == old(overflowRejected)
        invariant staleDropped == old(staleDropped) && |kept| <= i
        invariant Current(kept, next) == Current(commands[..i], next) && |Current(kept, next)| == |kept|
      {
        assert commands[..i + 1] == commands[..i] + [commands[i]];
        CurrentAppend(commands[..i], [commands[i]], next);
        if commands[i].generation == next {
          CurrentAppend(kept, [commands[i]], next);
          kept := kept + [commands[i]];
        }
      }
      assert commands[..|commands|] == commands;
      staleDropped := Raised(staleDropped, |commands| - |kept|);
      commands := kept;
      generation := next;
    }

    method Push(tag: nat, command: T) returns (accepted: bool)
      requires Valid()
      modifies this
      ensures Valid() && generation == old(generation)
      ensures accepted <==> tag == generation && old(|commands|) < capacity
      ensures Pending() == old(Pending()) + if accepted then [command] else []
      ensures |commands| == old(|commands|) + if accepted then 1 else 0
      ensures staleDropped == if tag != generation then Raised(old(staleDropped), 1) else old(staleDropped)
      ensures overflowRejected ==
        if tag == generation && !accepted then Raised(old(overflowRejected), 1) else old(overflowRejected)
    {
      if tag != generation {
        staleDropped := Raised(staleDropped, 1);
        return false;
      }
      if |commands| == capacity {
        overflowRejected := Raised(overflowRejected, 1);
        return false;
      }
      CurrentAppend(commands, [Tagged(tag, command)], generation);
      commands := commands + [Tagged(tag, command)];
      accepted := true;
    }

    /** The oldest command of the current generation; older ones are discarded on the way. */
    method PopCurrent() returns (command: Option<T>)
      requires Valid()
      modifies this
      ensures Valid() && generation == old(generation) && overflowRejected == old(overflowRejected)
      ensures command == if old(Pending()) == [] then None else Some(old(Pending())[0])
      ensures Pending() == if old(Pending()) == [] then [] else old(Pending())[1..]
      ensures if command.Some? then |commands| < |old(commands)| else commands == []
    {
      while |commands| > 0
        invariant |commands| <= |old(commands)|
        invariant generation == old(generation) && overflowRejected == old(overflowRejected)
        invariant Pending() == old(Pending())
        decreases |commands|
      {
        var first := commands[0];
        commands := commands[1..];
        if first.generation == generation {
          return Some(first.command);
        }
        staleDropped := Raised(staleDropped, 1);
      }
      command := None;
    }
  }
}
