/**
  Which resource commits reach the owner queue over a run
  (crates/dm-lifecycle/src/ipc.rs:729-766; crates/dm-client/src/main.rs:1604-1689).
 */
module ResourceDelivery {
  import opened Wrappers
  import opened Collections
  import opened UiDelivery
  import opened RefusedEvents

  // ---- what rounds ask for, event by event ----

  /** A commit and the sequence of the event it is for. */
  datatype Order<+U, +R> = Order(sequence: nat, commit: Commit<U, R>)

  function Ordered<U, R>(sequence: nat, commits: seq<Commit<U, R>>): (r: seq<Order<U, R>>)
    ensures |r| == |commits| && forall i :: 0 <= i < |r| ==> r[i] == Order(sequence, commits[i])
  {
    seq(|commits|, i requires 0 <= i < |commits| => Order(sequence, commits[i]))
  }

  function Commits<U, R>(orders: seq<Order<U, R>>): (r: seq<Commit<U, R>>)
    ensures |r| == |orders| && forall i :: 0 <= i < |r| ==> r[i] == orders[i].commit
  {
    seq(|orders|, i requires 0 <= i < |orders| => orders[i].commit)
  }

  /** The commits a batch asks for, with the events they are for, were the queue unlimited. */
  function Orders<S, E, U, R>(rules: Rules<S, E, U, R>, last: nat, state: S, events: seq<Numbered<E>>): seq<Order<U, R>>
    decreases |events|
  {
    if events == [] then []
    else
      var effect := EffectOf(rules, last, state, events[0]);
      if effect.Refused? then []
      else Ordered(events[0].sequence, effect.commits) + Orders(rules, effect.last, effect.state, events[1..])
  }

  function Cut<T>(s: seq<T>, room: nat): (r: seq<T>)
    ensures r <= s && |r| == if |s| <= room then |s| else room
  {
    if |s| <= room then s else s[..room]
  }

  lemma CutHead<T>(first: seq<T>, rest: seq<T>, room: nat)
    requires |first| <= room
    ensures Cut(first + rest, room) == first + Cut(rest, room - |first|)
  {
  }

  lemma CommitsJoin<U, R>(first: seq<Order<U, R>>, second: seq<Order<U, R>>)
    ensures Commits(first + second) == Commits(first) + Commits(second)
  {
  }

  lemma CommitsOrdered<U, R>(sequence: nat, commits: seq<Commit<U, R>>)
    ensures Commits(Ordered(sequence, commits)) == commits
  {
  }

  lemma {:induction false} OrdersAreWanted<S, E, U, R>(
      rules: Rules<S, E, U, R>, last: nat, state: S, events: seq<Numbered<E>>)
    ensures Commits(Orders(rules, last, state, events)) == Wanted(rules, last, state, events)
    decreases |events|
  {
    if events != [] {
      var effect := EffectOf(rules, last, state, events[0]);
      hide EffectOf, Commits, Ordered;
      if effect.Taken? {
        OrdersAreWanted(rules, effect.last, effect.state, events[1..]);
        CommitsJoin(Ordered(events[0].sequence, effect.commits), Orders(rules, effect.last, effect.state, events[1..]));
        CommitsOrdered(events[0].sequence, effect.commits);
      } else {
        assert Commits<U, R>([]) == [];
      }
    } else {
      assert Commits<U, R>([]) == [];
    }
  }

  /** The orders of the batch a round handles, if it handles one. */
  function RoundOrders<S, E, U, R>(rules: Rules<S, E, U, R>, sys: System<S, E, U, R>, action: Action<E>)
    : seq<Order<U, R>>
  {
    if !action.PollRound? || action.poll != Arrives || sys.client.waiting then []
    else Orders(rules, sys.client.last, sys.client.state, sys.client.deferred + Asked(sys).server.retained)
  }

  /** Everything queued over a run, with the events it was queued for. */
  function Trace<S, E, U, R>(rules: Rules<S, E, U, R>, sys: System<S, E, U, R>, actions: seq<Action<E>>)
    : seq<Order<U, R>>
  {
    if actions == [] then []
    else
      var n := |actions| - 1;
      Trace(rules, sys, actions[..n])
        + Cut(RoundOrders(rules, Run(rules, sys, actions[..n]), actions[n]), rules.capacity)
  }

  lemma CommitsCut<U, R>(orders: seq<Order<U, R>>, room: nat)
    ensures Commits(Cut(orders, room)) == Cut(Commits(orders), room)
  {
  }

  lemma ReceiveDelivers<S, E, U, R>(rules: Rules<S, E, U, R>, c: Client<S, E, U, R>, events: seq<Numbered<E>>)
    requires !c.waiting
    ensures Receive(rules, c, Some(events)).0.delivered
         == c.delivered + Commits(Cut(Orders(rules, c.last, c.state, c.deferred + events), rules.capacity))
  {
    var batch := c.deferred + events;
    PassIsCapped(rules, Begin(c), batch);
    OrdersAreWanted(rules, c.last, c.state, batch);
    EmptySides(Wanted(rules, c.last, c.state, batch));
    CommitsCut(Orders(rules, c.last, c.state, batch), rules.capacity);
    hide Wanted, Orders, OnEvents, Commits;
  }

  lemma NothingDelivered<S, E, U, R>(rules: Rules<S, E, U, R>, c: Client<S, E, U, R>, polled: Option<seq<Numbered<E>>>)
    requires polled.None? || c.waiting
    ensures Receive(rules, c, polled).0.delivered == c.delivered
  {
  }

  lemma StepDelivers<S, E, U, R>(rules: Rules<S, E, U, R>, sys: System<S, E, U, R>, action: Action<E>)
    ensures Step(rules, sys, action).client.delivered
         == sys.client.delivered + Commits(Cut(RoundOrders(rules, sys, action), rules.capacity))
  {
    hide Receive, Orders, Poll, Acknowledge;
    if action.PollRound? && action.poll == Arrives && !sys.client.waiting {
      ReceiveDelivers(rules, sys.client, Asked(sys).server.retained);
      hide Commits;
    } else {
      EmptySides(sys.client.delivered);
      assert Commits<U, R>([]) == [];
      hide Commits;
      if action.PollRound? {
        NothingDelivered(rules, sys.client, if action.poll == Arrives then Some(Asked(sys).server.retained) else None);
      }
    }
  }

  /** What the owner ran over a run is the trace. */
  lemma {:induction false} DeliveredIsTrace<S, E, U, R>(
      rules: Rules<S, E, U, R>, sys: System<S, E, U, R>, actions: seq<Action<E>>)
    ensures Run(rules, sys, actions).client.delivered == sys.client.delivered + Commits(Trace(rules, sys, actions))
  {
    hide Step, RoundOrders, Commits;
    if actions == [] {
      assert Commits<U, R>([]) == [];
      EmptySides(sys.client.delivered);
    } else {
      var n := |actions| - 1;
      var before := Run(rules, sys, actions[..n]);
      var now := Cut(RoundOrders(rules, before, actions[n]), rules.capacity);
      DeliveredIsTrace(rules, sys, actions[..n]);
      StepDelivers(rules, before, actions[n]);
      CommitsJoin(Trace(rules, sys, actions[..n]), now);
      Regroup(sys.client.delivered, Commits(Trace(rules, sys, actions[..n])), Commits(now));
    }
  }

  // ---- resources of dropped events ----

  /** How many events the server has dropped. */
  function Dropped<S, E, U, R>(sys: System<S, E, U, R>): int {
    |sys.log| - |sys.server.retained|
  }

  predicate Carries<S, E, U, R>(rules: Rules<S, E, U, R>, log: seq<E>, n: nat) {
    1 <= n <= |log| && rules.resource(log[n - 1]).Some?
  }

  function ResourceOrder<S, E, U, R>(rules: Rules<S, E, U, R>, log: seq<E>, n: nat): Order<U, R>
    requires Carries(rules, log, n)
  {
    Order(n, ResourceCommit(rules.resource(log[n - 1]).value))
  }

  /** The resource of every event up to `dropped` was queued at least once. */
  predicate AllQueued<S, E, U(==), R(==)>(
      rules: Rules<S, E, U, R>, log: seq<E>, dropped: int, trace: seq<Order<U, R>>)
  {
    forall n: nat :: n <= dropped && Carries(rules, log, n) ==> ResourceOrder(rules, log, n) in trace
  }

  /**
    A round that loses a resource: its acknowledgement reaches the server, and the first commit over the queue's
    capacity is a resource that was queued neither in an earlier round nor earlier in this one.
   */
  predicate Loses<S, E, U(==), R(==)>(
      rules: Rules<S, E, U, R>, sys: System<S, E, U, R>, trace: seq<Order<U, R>>, action: Action<E>)
  {
    var orders := RoundOrders(rules, sys, action);
    && action.PollRound? && action.ack == Reaches
    && |orders| > rules.capacity && orders[rules.capacity].commit.ResourceCommit?
    && orders[rules.capacity] !in trace + Cut(orders, rules.capacity)
  }

  predicate NeverLoses<S, E, U(==), R(==)>(
      rules: Rules<S, E, U, R>, sys: System<S, E, U, R>, actions: seq<Action<E>>)
  {
    actions == [] ||
    var n := |actions| - 1;
    && NeverLoses(rules, sys, actions[..n])
    && !Loses(rules, Run(rules, sys, actions[..n]), Trace(rules, sys, actions[..n]), actions[n])
  }

  // ---- batches begin where the server's memory does ----

  predicate After<E(==)>(events: seq<Numbered<E>>, dropped: int) {
    forall n :: n in events ==> n.sequence > dropped
  }

  /** What the client has deferred was polled since the last event the server dropped. */
  predicate Fetched<S, E(==), U, R>(sys: System<S, E, U, R>) {
    && InOrder(sys)
    && 0 <= Dropped(sys)
    && GapFree(sys.log, Dropped(sys), sys.client.deferred)
    && After(sys.client.deferred, Dropped(sys))
  }

  lemma RetainedIsAfter<E>(s: Server<E>, log: seq<E>)
    requires ServerOk(s, log)
    ensures After(s.retained, |log| - |s.retained|)
    ensures GapFree(log, |log| - |s.retained|, s.retained)
  {
    RetainedIsGapFree(s, log, |log| - |s.retained|);
  }

  lemma AskedIsFetched<S, E, U, R>(sys: System<S, E, U, R>)
    requires Fetched(sys)
    ensures Fetched(Asked(sys)) && Dropped(Asked(sys)) == Dropped(sys)
    ensures sys.log <= Asked(sys).log
    ensures var batch := sys.client.deferred + Asked(sys).server.retained;
      GapFree(Asked(sys).log, Dropped(sys), batch) && After(batch, Dropped(sys))
  {
    hide GapFree, Poll, ServerOk;
    AskedInOrder(sys);
    PollKeepsServer(sys.server, sys.log);
    BatchLength(sys.server, sys.log);
    if sys.server.retained == [] {
      GapFreeGrows(sys.log, Dropped(sys), sys.client.deferred, sys.server.outbound, Dropped(sys));
    }
    var asked := Asked(sys);
    RetainedIsAfter(asked.server, asked.log);
    GapFreeAppend(asked.log, Dropped(sys), sys.client.deferred, asked.server.retained);
  }

  // ---- one event of a batch ----

  lemma EventAcknowledges<S, E, U, R>(rules: Rules<S, E, U, R>, p: Pass<S, U, R>, n: Numbered<E>)
    requires |p.queue| <= rules.capacity && !p.stopped
    ensures var q, effect := OnEvent(rules, p, n), EffectOf(rules, p.last, p.state, n);
      && (effect.Refused? ==> q.stopped && q.acknowledged == p.acknowledged)
      && (effect.Taken? && !q.stopped ==> q.acknowledged == Some(n.sequence))
      && (effect.Taken? && q.stopped ==>
            var all := p.queue + effect.commits;
            && |all| > rules.capacity
            && q.acknowledged == if all[rules.capacity].ResourceCommit? then Some(n.sequence) else p.acknowledged)
  {
    OneEffect(rules, p, n);
    if n.sequence > p.last && rules.apply(p.state, n.event).Applied? {
      var update := rules.apply(p.state, n.event).update;
      if update.Some? && |p.queue| >= rules.capacity {
        UpdateRefused(rules.capacity, p.queue, update.value, ResourceOf(rules, n.event));
      }
    }
  }

  lemma EffectCarries<S, E, U, R>(rules: Rules<S, E, U, R>, log: seq<E>, last: nat, state: S, n: Numbered<E>)
    requires 1 <= n.sequence <= |log| && n.event == log[n.sequence - 1]
    ensures var effect := EffectOf(rules, last, state, n);
      effect.Taken? ==>
        && (Carries(rules, log, n.sequence) ==>
              ResourceOrder(rules, log, n.sequence) in Ordered(n.sequence, effect.commits))
        && (forall o :: o in Ordered(n.sequence, effect.commits) && o.commit.ResourceCommit? ==>
              Carries(rules, log, n.sequence) && o == ResourceOrder(rules, log, n.sequence))
  {
    var effect := EffectOf(rules, last, state, n);
    if effect.Taken? {
      var orders := Ordered(n.sequence, effect.commits);
      if Carries(rules, log, n.sequence) {
        assert orders[|orders| - 1] == ResourceOrder(rules, log, n.sequence);
      }
    }
  }

  // ---- a whole batch ----

  /** Orders are for events of the batch, and resource orders for the resources of those events. */
  lemma {:induction false} OrdersAreGenuine<S, E, U, R>(
      rules: Rules<S, E, U, R>, log: seq<E>, seen: nat, last: nat, state: S, events: seq<Numbered<E>>, dropped: int)
    requires GapFree(log, seen, events) && After(events, dropped)
    ensures forall o :: o in Orders(rules, last, state, events) ==>
      && dropped < o.sequence
      && (o.commit.ResourceCommit? ==> Carries(rules, log, o.sequence) && o == ResourceOrder(rules, log, o.sequence))
    decreases |events|
  {
    if events != [] {
      var n := events[0];
      var effect := EffectOf(rules, last, state, n);
      if effect.Taken? {
        assert n in events;
        EffectCarries(rules, log, last, state, n);
        OrdersAreGenuine(rules, log, if n.sequence > seen then n.sequence else seen, effect.last, effect.state,
                         events[1..], dropped);
      }
      hide EffectOf, GapFree, Carries;
    }
  }

  /** The event's resource is among what is queued, or it is the order that does not fit. */
  predicate Met<S, E, U(==), R(==)>(
      rules: Rules<S, E, U, R>, log: seq<E>, orders: seq<Order<U, R>>, room: nat, n: nat)
  {
    Carries(rules, log, n) ==>
      var order := ResourceOrder(rules, log, n);
      order in Cut(orders, room) || (|orders| > room && orders[room] == order)
  }

  lemma MetLater<S, E, U, R>(rules: Rules<S, E, U, R>, log: seq<E>, first: seq<Order<U, R>>, rest: seq<Order<U, R>>,
                             room: nat, n: nat)
    requires |first| <= room && Met(rules, log, rest, room - |first|, n)
    ensures Met(rules, log, first + rest, room, n)
  {
    CutHead(first, rest, room);
  }

  lemma MetNow<S, E, U, R>(rules: Rules<S, E, U, R>, log: seq<E>, first: seq<Order<U, R>>, rest: seq<Order<U, R>>,
                           room: nat, n: nat)
    requires |first| <= room && (Carries(rules, log, n) ==> ResourceOrder(rules, log, n) in first)
    ensures Met(rules, log, first + rest, room, n)
  {
    CutHead(first, rest, room);
  }

  /** Whatever a pass acknowledges, the resources of all events since `seen` are met. */
  predicate Covered<S, E, U(==), R(==)>(
      rules: Rules<S, E, U, R>, log: seq<E>, orders: seq<Order<U, R>>, room: nat, seen: nat, acknowledged: Option<nat>)
  {
    acknowledged.Some? ==> forall n: nat :: seen < n <= acknowledged.value ==> Met(rules, log, orders, room, n)
  }

  lemma GapFreeHead<E>(log: seq<E>, seen: nat, events: seq<Numbered<E>>)
    requires events != [] && GapFree(log, seen, events)
    ensures var n := events[0];
      && 1 <= n.sequence <= seen + 1 && n.sequence <= |log| && n.event == log[n.sequence - 1]
      && GapFree(log, if n.sequence > seen then n.sequence else seen, events[1..])
  {
  }

  lemma {:induction false} BatchCovers<S, E, U, R>(
      rules: Rules<S, E, U, R>, log: seq<E>, p: Pass<S, U, R>, seen: nat, events: seq<Numbered<E>>)
    requires |p.queue| <= rules.capacity && !p.stopped && GapFree(log, seen, events)
    ensures var q, orders := OnEvents(rules, p, events), Orders(rules, p.last, p.state, events);
      || q.acknowledged == p.acknowledged
      || Covered(rules, log, orders, rules.capacity - |p.queue|, seen, q.acknowledged)
    decreases |events|
  {
    hide OnEvent, EffectOf, GapFree, Covered, Ordered, Carries, ResourceOf;
    if events != [] {
      var n := events[0];
      var q, effect := OnEvent(rules, p, n), EffectOf(rules, p.last, p.state, n);
      GapFreeHead(log, seen, events);
      EventAcknowledges(rules, p, n);
      OneEffect(rules, p, n);
      if effect.Taken? {
        EffectCarries(rules, log, p.last, p.state, n);
        var first := Ordered(n.sequence, effect.commits);
        var rest := Orders(rules, effect.last, effect.state, events[1..]);
        var room := rules.capacity - |p.queue|;
        if q.stopped {
          StoppedCovers(rules, log, p.queue, effect.commits, rest, seen, n.sequence);
        } else {
          BatchCovers(rules, log, q, if n.sequence > seen then n.sequence else seen, events[1..]);
          TakenCovers(rules, log, first, rest, room, seen, n, OnEvents(rules, q, events[1..]).acknowledged);
        }
      }
    }
  }

  lemma StoppedCovers<S, E, U, R>(
      rules: Rules<S, E, U, R>, log: seq<E>, queue: seq<Commit<U, R>>, commits: seq<Commit<U, R>>,
      rest: seq<Order<U, R>>,
      seen: nat, n: nat)
    requires |queue| <= rules.capacity < |queue + commits| && n <= seen + 1
    requires forall o :: o in Ordered(n, commits) && o.commit.ResourceCommit? ==>
      Carries(rules, log, n) && o == ResourceOrder(rules, log, n)
    ensures (queue + commits)[rules.capacity].ResourceCommit? ==>
      Covered(rules, log, Ordered(n, commits) + rest, rules.capacity - |queue|, seen, Some(n))
  {
    var first, room := Ordered(n, commits), rules.capacity - |queue|;
    assert first[room] in first;
    assert (first + rest)[room] == first[room] && (queue + commits)[rules.capacity] == commits[room];
  }

  lemma TakenCovers<S, E, U, R>(
      rules: Rules<S, E, U, R>, log: seq<E>, first: seq<Order<U, R>>, rest: seq<Order<U, R>>, room: nat, seen: nat,
      n: Numbered<E>, acknowledged: Option<nat>)
    requires |first| <= room && n.sequence <= seen + 1
    requires Carries(rules, log, n.sequence) ==> ResourceOrder(rules, log, n.sequence) in first
    requires var now := if n.sequence > seen then n.sequence else seen;
      acknowledged == Some(n.sequence) || Covered(rules, log, rest, room - |first|, now, acknowledged)
    ensures Covered(rules, log, first + rest, room, seen, acknowledged)
  {
    hide Met;
    if acknowledged.Some? {
      forall k: nat | seen < k <= acknowledged.value
        ensures Met(rules, log, first + rest, room, k)
      {
        if k == n.sequence {
          MetNow(rules, log, first, rest, room, k);
        } else {
          MetLater(rules, log, first, rest, room, k);
        }
      }
    }
  }

  /** A pass that cannot queue a resource acknowledges the resource's event. */
  lemma {:induction false} RefusedIsAcknowledged<S, E, U, R>(
      rules: Rules<S, E, U, R>, p: Pass<S, U, R>, events: seq<Numbered<E>>)
    requires |p.queue| <= rules.capacity && !p.stopped
    requires var orders, room := Orders(rules, p.last, p.state, events), rules.capacity - |p.queue|;
      |orders| > room && orders[room].commit.ResourceCommit?
    ensures var orders, room := Orders(rules, p.last, p.state, events), rules.capacity - |p.queue|;
      OnEvents(rules, p, events).acknowledged == Some(orders[room].sequence)
    decreases |events|
  {
    assert events != [];
    var n, room := events[0], rules.capacity - |p.queue|;
    var q, effect := OnEvent(rules, p, n), EffectOf(rules, p.last, p.state, n);
    EventAcknowledges(rules, p, n);
    OneEffect(rules, p, n);
    assert effect.Taken?;
    var first := Ordered(n.sequence, effect.commits);
    var rest := Orders(rules, effect.last, effect.state, events[1..]);
    if q.stopped {
      assert (first + rest)[room] == first[room];
      assert (p.queue + effect.commits)[rules.capacity] == effect.commits[room];
    } else {
      assert (first + rest)[room] == rest[room - |first|];
      RefusedIsAcknowledged(rules, q, events[1..]);
    }
    hide OnEvent, EffectOf;
  }

  // ---- one round ----

  function Acknowledged<S, E, U, R>(rules: Rules<S, E, U, R>, sys: System<S, E, U, R>): Option<nat> {
    OnEvents(rules, Begin(sys.client), sys.client.deferred + Asked(sys).server.retained).acknowledged
  }

  predicate Handles<S, E, U, R>(sys: System<S, E, U, R>, action: Action<E>) {
    action.PollRound? && action.poll == Arrives && !sys.client.waiting
  }

  lemma EmptyIsFetched<E>(log: seq<E>, dropped: nat)
    ensures GapFree(log, dropped, []) && After<E>([], dropped)
  {
  }

  lemma HandledReply<S, E, U, R>(rules: Rules<S, E, U, R>, sys: System<S, E, U, R>, action: Action<E>)
    requires Handles(sys, action)
    ensures var after := Step(rules, sys, action);
      && after.client.deferred == [] && after.log == Asked(sys).log
      && after.server == if Acknowledged(rules, sys).Some? && action.ack == Reaches
                         then Acknowledge(Asked(sys).server, Acknowledged(rules, sys).value) else Asked(sys).server
  {
    hide OnEvents, Poll, Acknowledge;
  }

  /** How far a handled round moves the server's memory. */
  lemma HandledDrops<S(!new), E, U, R>(rules: Rules<S, E, U, R>, sys: System<S, E, U, R>, action: Action<E>)
    requires Fetched(sys) && Handles(sys, action)
    ensures var after, reply := Step(rules, sys, action), Acknowledged(rules, sys);
      && Fetched(after) && after.log == Asked(sys).log
      && (reply.Some? ==> reply.value <= |after.log|)
      && Dropped(after)
           == if action.ack == Reaches && reply.Some? && reply.value > Dropped(sys) then reply.value else Dropped(sys)
  {
    var asked, reply := Asked(sys), Acknowledged(rules, sys);
    AskedIsFetched(sys);
    StepInOrder(rules, sys, action);
    HandledReply(rules, sys, action);
    hide GapFree, Poll, Acknowledge, OnEvents, Step;
    GapFreeGrows(asked.log, Dropped(sys), sys.client.deferred + asked.server.retained, [], sys.client.last);
    assert asked.log + [] == asked.log;
    BatchInOrder(rules, asked.log, Begin(sys.client), sys.client.deferred + asked.server.retained);
    if reply.Some? {
      AckKeepsServer(asked.server, asked.log, reply.value);
    }
    EmptyIsFetched(asked.log, Dropped(Step(rules, sys, action)));
  }

  lemma OtherRound<S, E, U, R>(rules: Rules<S, E, U, R>, sys: System<S, E, U, R>, action: Action<E>)
    requires action.PollRound? && action.poll != NeverSent && !Handles(sys, action)
    ensures var after := Step(rules, sys, action);
      && after == Asked(sys).(client := after.client)
      && after.client.deferred == sys.client.deferred
           + if action.poll == Arrives then Asked(sys).server.retained else []
  {
    hide OnEvents, Acknowledge, Poll;
    EmptySides(sys.client.deferred);
  }

  lemma OtherStep<S(!new), E, U, R>(rules: Rules<S, E, U, R>, sys: System<S, E, U, R>, action: Action<E>)
    requires Fetched(sys) && !Handles(sys, action)
    ensures var after := Step(rules, sys, action);
      Fetched(after) && sys.log <= after.log && Dropped(after) == Dropped(sys)
  {
    StepInOrder(rules, sys, action);
    if action.PollRound? && action.poll != NeverSent {
      hide GapFree, InOrder, Step, Asked;
      AskedIsFetched(sys);
      OtherRound(rules, sys, action);
      EmptySides(sys.client.deferred);
      AskedKeepsClient(sys);
    } else {
      LocalStep(rules, sys, action);
    }
  }

  lemma AskedKeepsClient<S, E, U, R>(sys: System<S, E, U, R>)
    ensures Asked(sys).client == sys.client
  {
  }

  lemma LocalStep<S, E, U, R>(rules: Rules<S, E, U, R>, sys: System<S, E, U, R>, action: Action<E>)
    requires !action.PollRound? || action.poll == NeverSent
    ensures var after := Step(rules, sys, action);
      && after.log == sys.log && after.server.retained == sys.server.retained
      && after.client.deferred == sys.client.deferred
  {
    hide OnEvents, Acknowledge, Asked;
  }

  lemma SameQueued<S, E, U, R>(
      rules: Rules<S, E, U, R>, log: seq<E>, longer: seq<E>, dropped: int, trace: seq<Order<U, R>>)
    requires log <= longer && dropped <= |log|
    ensures AllQueued(rules, log, dropped, trace) == AllQueued(rules, longer, dropped, trace)
  {
    forall n: nat | n <= dropped
      ensures Carries(rules, log, n) == Carries(rules, longer, n)
      ensures Carries(rules, log, n) ==> ResourceOrder(rules, log, n) == ResourceOrder(rules, longer, n)
    {
      assert 1 <= n ==> log[n - 1] == longer[n - 1];
    }
  }

  /** The arithmetic of one handled round, with its orders and what it acknowledged. */
  lemma HandledQueuedIff<S, E, U, R>(
      rules: Rules<S, E, U, R>, log: seq<E>, trace: seq<Order<U, R>>, orders: seq<Order<U, R>>, before: nat,
      reply: Option<nat>, reaches: bool)
    requires before <= |log|
    requires reply.None? || Covered(rules, log, orders, rules.capacity, before, reply)
    requires forall o :: o in orders ==>
      && before < o.sequence
      && (o.commit.ResourceCommit? ==> Carries(rules, log, o.sequence) && o == ResourceOrder(rules, log, o.sequence))
    requires |orders| > rules.capacity && orders[rules.capacity].commit.ResourceCommit? ==>
      reply == Some(orders[rules.capacity].sequence)
    ensures var dropped := if reaches && reply.Some? && reply.value > before then reply.value else before;
      var loses := reaches && |orders| > rules.capacity && orders[rules.capacity].commit.ResourceCommit?
                   && orders[rules.capacity] !in trace + Cut(orders, rules.capacity);
      AllQueued(rules, log, before, trace) && !loses <==>
        AllQueued(rules, log, dropped, trace + Cut(orders, rules.capacity))
  {
    var cut, cap := Cut(orders, rules.capacity), rules.capacity;
    var dropped := if reaches && reply.Some? && reply.value > before then reply.value else before;
    var loses := reaches && |orders| > cap && orders[cap].commit.ResourceCommit? && orders[cap] !in trace + cut;
    assert forall o :: o in cut ==> o in orders;
    hide Carries, Cut;
    if |orders| > cap && orders[cap].commit.ResourceCommit? {
      assert orders[cap] in orders;
      if reaches && AllQueued(rules, log, dropped, trace + cut) {
        assert ResourceOrder(rules, log, orders[cap].sequence) in trace + cut;
      }
    }
    if AllQueued(rules, log, dropped, trace + cut) {
      forall n: nat | n <= before && Carries(rules, log, n)
        ensures ResourceOrder(rules, log, n) in trace
      {
        assert ResourceOrder(rules, log, n) in trace + cut;
      }
    }
    if AllQueued(rules, log, before, trace) && !loses {
      forall n: nat | n <= dropped && Carries(rules, log, n)
        ensures ResourceOrder(rules, log, n) in trace + cut
      {
        if n > before {
          assert Met(rules, log, orders, cap, n);
        }
      }
    }
  }

  /** One step loses no resource exactly when it is no losing round. */
  lemma StepQueuedIff<S(!new), E, U, R>(
      rules: Rules<S, E, U, R>, sys: System<S, E, U, R>, trace: seq<Order<U, R>>, action: Action<E>)
    requires Fetched(sys)
    ensures var after := Step(rules, sys, action);
      && Fetched(after)
      && (AllQueued(rules, sys.log, Dropped(sys), trace) && !Loses(rules, sys, trace, action) <==>
            AllQueued(rules, after.log, Dropped(after), trace + Cut(RoundOrders(rules, sys, action), rules.capacity)))
  {
    hide AllQueued, GapFree, ServerOk, Step, Asked;
    if Handles(sys, action) {
      HandledDrops(rules, sys, action);
      AskedIsFetched(sys);
      var log, batch := Asked(sys).log, sys.client.deferred + Asked(sys).server.retained;
      var orders := Orders(rules, sys.client.last, sys.client.state, batch);
      SameQueued(rules, sys.log, log, Dropped(sys), trace);
      BatchCovers(rules, log, Begin(sys.client), Dropped(sys), batch);
      OrdersAreGenuine(rules, log, Dropped(sys), sys.client.last, sys.client.state, batch, Dropped(sys));
      if |orders| > rules.capacity && orders[rules.capacity].commit.ResourceCommit? {
        RefusedIsAcknowledged(rules, Begin(sys.client), batch);
      }
      hide Orders, OnEvents, Covered, Carries, ResourceOrder, Cut;
      HandledQueuedIff(rules, log, trace, orders, Dropped(sys), Acknowledged(rules, sys), action.ack == Reaches);
    } else {
      OtherStep(rules, sys, action);
      SameQueued(rules, sys.log, Step(rules, sys, action).log, Dropped(sys), trace);
      EmptySides(trace);
    }
  }

  // ---- every run ----

  lemma {:induction false} RunQueuedIff<S(!new), E, U, R>(
      rules: Rules<S, E, U, R>, base: S, waiting: bool, actions: seq<Action<E>>)
    ensures var start := Start<S, E, U, R>(base, waiting);
      var sys := Run(rules, start, actions);
      && Fetched(sys)
      && (AllQueued(rules, sys.log, Dropped(sys), Trace(rules, start, actions)) <==> NeverLoses(rules, start, actions))
  {
    var start := Start<S, E, U, R>(base, waiting);
    if actions == [] {
      StartIsFetched<S, E, U, R>(base, waiting);
    } else {
      var n := |actions| - 1;
      RunQueuedIff(rules, base, waiting, actions[..n]);
      StepQueuedIff(rules, Run(rules, start, actions[..n]), Trace(rules, start, actions[..n]), actions[n]);
      hide Step, AllQueued, Loses, Fetched, RoundOrders, Cut;
    }
  }

  lemma StartIsFetched<S, E, U, R>(base: S, waiting: bool)
    ensures var start := Start<S, E, U, R>(base, waiting); Fetched(start) && Dropped(start) == 0
  {
    StartInOrder<S, E, U, R>(base, waiting);
  }

  /**
    The resource of every event the server has dropped was queued at least once exactly when the run has no round
    whose acknowledgement reaches the server although the first commit over the capacity is a resource not queued
    before; and then the owner has run the commit of every one of those resources.
   */
  lemma ResourcesCompleteIff<S(!new), E, U, R>(
      rules: Rules<S, E, U, R>, base: S, waiting: bool, actions: seq<Action<E>>)
    ensures var start := Start<S, E, U, R>(base, waiting);
      var sys := Run(rules, start, actions);
      && (NeverLoses(rules, start, actions) <==> AllQueued(rules, sys.log, Dropped(sys), Trace(rules, start, actions)))
      && sys.client.delivered == Commits(Trace(rules, start, actions))
      && (NeverLoses(rules, start, actions) ==> forall n: nat :: n <= Dropped(sys) && Carries(rules, sys.log, n) ==>
            ResourceOrder(rules, sys.log, n).commit in sys.client.delivered)
  {
    var start := Start<S, E, U, R>(base, waiting);
    var sys, trace := Run(rules, start, actions), Trace(rules, start, actions);
    RunQueuedIff(rules, base, waiting, actions);
    DeliveredIsTrace(rules, start, actions);
    EmptySides(Commits(trace));
    hide Run, Trace, NeverLoses, Carries, Fetched;
    if NeverLoses(rules, start, actions) {
      forall n: nat | n <= Dropped(sys) && Carries(rules, sys.log, n)
        ensures ResourceOrder(rules, sys.log, n).commit in sys.client.delivered
      {
        var i :| 0 <= i < |trace| && trace[i] == ResourceOrder(rules, sys.log, n);
        assert Commits(trace)[i] == trace[i].commit;
      }
    }
  }

  // ---- a loss is for good ----

  lemma StepSparesDropped<S(!new), E, U, R>(rules: Rules<S, E, U, R>, sys: System<S, E, U, R>, action: Action<E>)
    requires Fetched(sys)
    ensures var after := Step(rules, sys, action);
      && Fetched(after) && sys.log <= after.log && Dropped(sys) <= Dropped(after)
      && (forall o :: o in Cut(RoundOrders(rules, sys, action), rules.capacity) ==> o.sequence > Dropped(sys))
  {
    hide GapFree, ServerOk, Step, Asked;
    if Handles(sys, action) {
      HandledDrops(rules, sys, action);
      AskedIsFetched(sys);
      OrdersAreGenuine(rules, Asked(sys).log, Dropped(sys), sys.client.last, sys.client.state,
                       sys.client.deferred + Asked(sys).server.retained, Dropped(sys));
    } else {
      OtherStep(rules, sys, action);
    }
    hide Orders;
  }

  lemma {:induction false} RunSparesDropped<S(!new), E, U, R>(
      rules: Rules<S, E, U, R>, sys: System<S, E, U, R>, more: seq<Action<E>>)
    requires Fetched(sys)
    ensures var after := Run(rules, sys, more);
      && Fetched(after) && sys.log <= after.log && Dropped(sys) <= Dropped(after)
      && (forall o :: o in Trace(rules, sys, more) ==> o.sequence > Dropped(sys))
  {
    if more != [] {
      var n := |more| - 1;
      RunSparesDropped(rules, sys, more[..n]);
      StepSparesDropped(rules, Run(rules, sys, more[..n]), more[n]);
    }
    hide Step, Fetched, RoundOrders, Cut;
  }

  lemma {:induction false} TraceSplits<S, E, U, R>(
      rules: Rules<S, E, U, R>, sys: System<S, E, U, R>, first: seq<Action<E>>, second: seq<Action<E>>)
    ensures Trace(rules, sys, first + second) == Trace(rules, sys, first) + Trace(rules, Run(rules, sys, first), second)
    decreases |second|
  {
    if second == [] {
      EmptySides(first);
      EmptySides(Trace(rules, sys, first));
    } else {
      var n := |second| - 1;
      TraceSplits(rules, sys, first, second[..n]);
      RunSplits(rules, sys, first, second[..n]);
      assert second == second[..n] + [second[n]];
      Regroup(first, second[..n], [second[n]]);
      TracePush(rules, sys, first + second[..n], second[n]);
      TracePush(rules, Run(rules, sys, first), second[..n], second[n]);
      Regroup(Trace(rules, sys, first), Trace(rules, Run(rules, sys, first), second[..n]),
              Cut(RoundOrders(rules, Run(rules, sys, first + second[..n]), second[n]), rules.capacity));
      hide Run, Trace, RoundOrders, Cut;
    }
  }

  lemma TracePush<S, E, U, R>(
      rules: Rules<S, E, U, R>, sys: System<S, E, U, R>, actions: seq<Action<E>>, last: Action<E>)
    ensures Trace(rules, sys, actions + [last])
         == Trace(rules, sys, actions) + Cut(RoundOrders(rules, Run(rules, sys, actions), last), rules.capacity)
  {
    hide RoundOrders, Cut;
    assert (actions + [last])[..|actions|] == actions;
  }

  /** A resource the server dropped without its having been queued is never queued, whatever follows. */
  lemma LostResourceStaysLost<S(!new), E, U, R>(
      rules: Rules<S, E, U, R>, base: S, waiting: bool, actions: seq<Action<E>>, more: seq<Action<E>>, n: nat)
    requires var start := Start<S, E, U, R>(base, waiting);
      var sys := Run(rules, start, actions);
      n <= Dropped(sys) && Carries(rules, sys.log, n) &&
          ResourceOrder(rules, sys.log, n) !in Trace(rules, start, actions)
    ensures var start := Start<S, E, U, R>(base, waiting);
      var sys := Run(rules, start, actions + more);
      && n <= Dropped(sys) && Carries(rules, sys.log, n)
      && ResourceOrder(rules, sys.log, n) !in Trace(rules, start, actions + more)
  {
    var start := Start<S, E, U, R>(base, waiting);
    var sys := Run(rules, start, actions);
    RunQueuedIff(rules, base, waiting, actions);
    RunSplits(rules, start, actions, more);
    TraceSplits(rules, start, actions, more);
    RunSparesDropped(rules, sys, more);
    hide Run, Trace, Fetched;
    assert Run(rules, start, actions + more).log[n - 1] == sys.log[n - 1];
  }
}
