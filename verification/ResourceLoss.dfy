/**
  Resources the client loses to a full owner queue, and one that a failed acknowledgement saves, by example
  (crates/dm-client/src/main.rs:142-156, 1655-1668).
 */
module ResourceLoss {
  import opened Collections
  import opened UiDelivery
  import opened RefusedEvents
  import opened ResourceDelivery
  import opened UiCommands
  import opened OwnerQueueLoss

  type UiOrder<+Sound> = Order<Update<Sound>, Asset>

  /** Resource commands with names the client accepts. */
  predicate Serves<Session, Sound>(skin: Skin<Session>, commands: seq<Command<Sound>>) {
    forall i :: 0 <= i < |commands| ==> commands[i].BrowseResource? && skin.resourcePath(commands[i].name).Some?
  }

  function AssetOrders<Session, Sound>(skin: Skin<Session>, commands: seq<Command<Sound>>, first: nat)
    : (r: seq<UiOrder<Sound>>)
    requires Serves(skin, commands)
    ensures |r| == |commands|
    ensures forall i :: 0 <= i < |r| ==> r[i].sequence == first + i && r[i].commit.ResourceCommit?
  {
    seq(|commands|, i requires 0 <= i < |commands| =>
      Order(first + i, ResourceCommit(Asset(skin.resourcePath(commands[i].name).value, commands[i].data))))
  }

  // ---- orders, head by head ----

  lemma OrdersHead<S, E, U, R>(rules: Rules<S, E, U, R>, last: nat, s: S, n: Numbered<E>, rest: seq<Numbered<E>>)
    ensures var effect := EffectOf(rules, last, s, n);
      effect.Taken? ==>
        Orders(rules, last, s, [n] + rest)
          == Ordered(n.sequence, effect.commits) + Orders(rules, effect.last, effect.state, rest)
  {
    assert ([n] + rest)[1..] == rest;
  }

  lemma NumberHead<E>(events: seq<E>, first: nat)
    requires events != []
    ensures Number(events, first) == [Numbered(first, events[0])] + Number(events[1..], first + 1)
  {
  }

  lemma AssetEffect<Session(!new), Sound(!new)>(
      skin: Skin<Session>, rules: UiRules<Session, Sound>, last: nat, s: Presented<Session>,
      n: Numbered<Command<Sound>>)
    requires rules == RulesOf(skin, rules.capacity) && Serves(skin, [n.event])
    ensures var effect := EffectOf(rules, last, s, n);
      effect.Taken? && Ordered(n.sequence, effect.commits) == AssetOrders(skin, [n.event], n.sequence)
  {
    assert n.event == [n.event][0];
    RulesAre<Session, Sound>(skin, rules.capacity);
    EmptySides<Commit<Update<Sound>, Asset>>(ResourceOf(rules, n.event));
  }

  lemma AssetOrdersHead<Session, Sound>(skin: Skin<Session>, commands: seq<Command<Sound>>, first: nat)
    requires commands != [] && Serves(skin, commands)
    ensures Serves(skin, [commands[0]]) && Serves(skin, commands[1..])
    ensures AssetOrders(skin, commands, first)
         == AssetOrders(skin, [commands[0]], first) + AssetOrders(skin, commands[1..], first + 1)
  {
  }

  /** Resource commands ask for their resources whenever they come, applied before or not. */
  lemma {:induction false} AssetsOrdered<Session(!new), Sound(!new)>(
      skin: Skin<Session>, rules: UiRules<Session, Sound>, last: nat, s: Presented<Session>,
      commands: seq<Command<Sound>>, first: nat)
    requires rules == RulesOf(skin, rules.capacity) && Serves(skin, commands)
    ensures Orders(rules, last, s, Number(commands, first)) == AssetOrders(skin, commands, first)
    decreases |commands|
  {
    if commands != [] {
      hide RulesOf, Orders, Number, EffectOf, AssetOrders, Serves, Ordered;
      AssetOrdersHead(skin, commands, first);
      var n := Numbered(first, commands[0]);
      AssetEffect(skin, rules, last, s, n);
      var effect := EffectOf(rules, last, s, n);
      AssetsOrdered(skin, rules, effect.last, effect.state, commands[1..], first + 1);
      NumberHead(commands, first);
      OrdersHead(rules, last, s, n, Number(commands[1..], first + 1));
    }
  }

  // ---- producing orders nothing ----

  lemma {:induction false} ProducedTrace<S, E, U, R>(rules: Rules<S, E, U, R>, base: S, events: seq<E>)
    ensures var start := Start<S, E, U, R>(base, false);
      Trace(rules, start, Produced(events)) == [] && NeverLoses(rules, start, Produced(events))
  {
    if events != [] {
      var start, n := Start<S, E, U, R>(base, false), |events| - 1;
      ProducedTrace(rules, base, events[..n]);
      ProducedPush(events);
      hide Run, Produced, Orders;
      TracePush(rules, start, Produced(events[..n]), Produce(events[n]));
      LosesPush(rules, start, Produced(events[..n]), Produce(events[n]));
    }
  }

  lemma LosesPush<S, E, U, R>(
      rules: Rules<S, E, U, R>, sys: System<S, E, U, R>, actions: seq<Action<E>>, last: Action<E>)
    ensures NeverLoses(rules, sys, actions + [last]) <==>
      NeverLoses(rules, sys, actions) && !Loses(rules, Run(rules, sys, actions), Trace(rules, sys, actions), last)
  {
    assert (actions + [last])[..|actions|] == actions;
  }

  // ---- the first two rounds ----

  /** The system once the events are produced and nothing is fetched. */
  function Ready<S, E, U, R>(base: S, events: seq<E>): System<S, E, U, R> {
    Start<S, E, U, R>(base, false).(server := Server(events, [], 1))
  }

  lemma FirstOrders<S, E, U, R>(rules: Rules<S, E, U, R>, base: S, events: seq<E>, ack: AckFate)
    ensures RoundOrders(rules, Ready(base, events), PollRound(Arrives, ack))
        == Orders(rules, 0, base, Number(events, 1))
  {
    EmptySides(Number(events, 1));
    hide Orders, Number;
  }

  /** After a round whose acknowledgement fails the same batch comes again. */
  lemma SecondOrders<S, E, U, R>(rules: Rules<S, E, U, R>, base: S, events: seq<E>)
    ensures var sys := Step(rules, Ready(base, events), PollRound(Arrives, Fails));
      RoundOrders(rules, sys, PollRound(Arrives, Reaches))
        == Orders(rules, sys.client.last, sys.client.state, Number(events, 1))
  {
    FirstRound(rules, base, events);
    EmptySides(Number(events, 1));
    var sys := Step(rules, Ready(base, events), PollRound(Arrives, Fails));
    hide Orders, OnEvents;
    assert sys.server.retained == Number(events, 1) && sys.server.outbound == [];
    assert Asked(sys).server.retained == Number(events, 1);
  }

  /** Whether one or two rounds after the events were produced lose a resource. */
  lemma TwoRounds<S, E, U, R>(rules: Rules<S, E, U, R>, base: S, events: seq<E>, ack: AckFate)
    ensures var start, one := Start<S, E, U, R>(base, false), PollRound(Arrives, ack);
      var first := Orders(rules, 0, base, Number(events, 1));
      && (NeverLoses(rules, start, Produced(events) + [one]) <==> !Loses(rules, Ready(base, events), [], one))
      && Trace(rules, start, Produced(events) + [one]) == Cut(first, rules.capacity)
      && (NeverLoses(rules, start, Produced(events) + [one] + [PollRound(Arrives, Reaches)]) <==>
            && !Loses(rules, Ready(base, events), [], one)
            && !Loses(rules, Step(rules, Ready(base, events), one), Cut(first, rules.capacity),
                PollRound(Arrives, Reaches)))
  {
    var start, one := Start<S, E, U, R>(base, false), PollRound(Arrives, ack);
    ProducedRun(rules, base, events);
    ProducedTrace(rules, base, events);
    FirstOrders(rules, base, events, ack);
    hide Run, Trace, NeverLoses, Produced, Loses, Orders, RoundOrders, Step, Cut;
    LosesPush(rules, start, Produced(events), one);
    TracePush(rules, start, Produced(events), one);
    RunPush(rules, start, Produced(events), one);
    LosesPush(rules, start, Produced(events) + [one], PollRound(Arrives, Reaches));
    EmptySides(Cut(Orders(rules, 0, base, Number(events, 1)), rules.capacity));
  }

  // ---- one resource too many ----

  lemma AssetsDistinct<Session, Sound>(skin: Skin<Session>, commands: seq<Command<Sound>>, capacity: nat)
    requires Serves(skin, commands) && |commands| > capacity
    ensures var orders := AssetOrders(skin, commands, 1);
      orders[capacity].commit.ResourceCommit? && orders[capacity] !in Cut(orders, capacity) + Cut(orders, capacity)
      && orders[capacity] !in [] + Cut(orders, capacity)
  {
    var orders := AssetOrders(skin, commands, 1);
    assert orders[capacity].sequence == capacity + 1;
    assert forall o :: o in Cut(orders, capacity) ==> o.sequence <= capacity;
  }

  /**
    Resources produced together: the round that fetches them loses one exactly when they are more than the queue
    holds and the acknowledgement arrives; and trying the batch again after a failed acknowledgement does not help.
   */
  lemma ResourcesServedIff<Session(!new), Sound(!new)>(
      skin: Skin<Session>, capacity: nat, base: Presented<Session>, commands: seq<Command<Sound>>, ack: AckFate)
    requires Serves(skin, commands)
    ensures var rules := RulesOf<Session, Sound>(skin, capacity);
      var start, produced := Start<Presented<Session>, Command<Sound>, Update<Sound>, Asset>(base, false),
          Produced(commands);
      && (NeverLoses(rules, start, produced + [PollRound(Arrives, ack)]) <==> ack == Fails || |commands| <= capacity)
      && (NeverLoses(rules, start, produced + [PollRound(Arrives, Fails)] + [PollRound(Arrives, Reaches)]) <==>
            |commands| <= capacity)
  {
    var rules := RulesOf<Session, Sound>(skin, capacity);
    assert rules.capacity == capacity;
    var once := Step(rules, Ready(base, commands), PollRound(Arrives, Fails));
    TwoRounds(rules, base, commands, ack);
    TwoRounds(rules, base, commands, Fails);
    FirstOrders(rules, base, commands, ack);
    FirstOrders(rules, base, commands, Fails);
    SecondOrders(rules, base, commands);
    hide NeverLoses, RoundOrders, RulesOf, Step, Orders, Produced, Number;
    AssetsOrdered(skin, rules, 0, base, commands, 1);
    AssetsOrdered(skin, rules, once.client.last, once.client.state, commands, 1);
    if |commands| > capacity {
      AssetsDistinct(skin, commands, capacity);
    }
    hide AssetOrders, Serves, Cut;
  }

  // ---- a failed acknowledgement that saves a resource ----

  function LinkOrders<Sound>(urls: seq<string>, first: nat): (r: seq<UiOrder<Sound>>)
    ensures |r| == |urls| && forall i :: 0 <= i < |r| ==> r[i].commit.BrowserCommit?
  {
    seq(|urls|, i requires 0 <= i < |urls| => Order(first + i, BrowserCommit(OpenLink(urls[i]))))
  }

  lemma LinkOrdersHead<Sound>(urls: seq<string>, first: nat)
    requires urls != []
    ensures LinkOrders<Sound>(urls, first)
         == Ordered(first, [BrowserCommit(OpenLink(urls[0]))]) + LinkOrders(urls[1..], first + 1)
  {
  }

  lemma OldLinkEffect<Session(!new), Sound(!new)>(
      skin: Skin<Session>, rules: UiRules<Session, Sound>, s: Presented<Session>, last: nat, sequence: nat, url: string)
    requires rules == RulesOf(skin, rules.capacity) && sequence <= last
    ensures EffectOf(rules, last, s, Numbered(sequence, Link(url))) == Taken(last, s, [])
  {
    RulesAre<Session, Sound>(skin, rules.capacity);
  }

  lemma LinksThen<Sound>(urls: seq<string>, rest: seq<Numbered<Command<Sound>>>, first: nat)
    requires urls != []
    ensures Number(Links<Sound>(urls), first) + rest
         == [Numbered(first, Link(urls[0]))] + (Number(Links(urls[1..]), first + 1) + rest)
  {
    LinksHead<Sound>(urls, first);
    Regroup([Numbered(first, Link(urls[0]))], Number(Links<Sound>(urls[1..]), first + 1), rest);
  }

  lemma {:induction false} NewLinksOrdered<Session(!new), Sound(!new)>(
      skin: Skin<Session>, rules: UiRules<Session, Sound>, s: Presented<Session>, last: nat, urls: seq<string>,
      rest: seq<Numbered<Command<Sound>>>)
    requires rules == RulesOf(skin, rules.capacity)
    ensures Orders(rules, last, s, Number(Links(urls), last + 1) + rest)
         == LinkOrders(urls, last + 1) + Orders(rules, last + |urls|, s, rest)
    decreases |urls|
  {
    if urls == [] {
      assert Number(Links<Sound>(urls), last + 1) + rest == rest;
      EmptySides(Orders(rules, last, s, rest));
    } else {
      hide RulesOf, Orders, EffectOf, Ordered, Number, Links, LinkOrders;
      LinksThen(urls, rest, last + 1);
      LinkEffect(skin, rules, s, last, urls[0]);
      NewLinksOrdered(skin, rules, s, last + 1, urls[1..], rest);
      OrdersHead(rules, last, s, Numbered(last + 1, Link(urls[0])), Number(Links(urls[1..]), last + 2) + rest);
      LinkOrdersHead<Sound>(urls, last + 1);
      Regroup(Ordered(last + 1, [BrowserCommit(OpenLink(urls[0]))]), LinkOrders(urls[1..], last + 2),
              Orders(rules, last + |urls|, s, rest));
    }
  }

  lemma {:induction false} OldLinksOrdered<Session(!new), Sound(!new)>(
      skin: Skin<Session>, rules: UiRules<Session, Sound>, s: Presented<Session>, last: nat, urls: seq<string>,
      first: nat,
      rest: seq<Numbered<Command<Sound>>>)
    requires rules == RulesOf(skin, rules.capacity) && first + |urls| <= last + 1
    ensures Orders(rules, last, s, Number(Links(urls), first) + rest) == Orders(rules, last, s, rest)
    decreases |urls|
  {
    if urls == [] {
      assert Number(Links<Sound>(urls), first) + rest == rest;
    } else {
      hide RulesOf, Orders, EffectOf, Number, Links;
      LinksThen(urls, rest, first);
      OldLinkEffect(skin, rules, s, last, first, urls[0]);
      OldLinksOrdered(skin, rules, s, last, urls[1..], first + 1, rest);
      OrdersHead(rules, last, s, Numbered(first, Link(urls[0])), Number(Links(urls[1..]), first + 1) + rest);
      EmptySides(Orders(rules, last, s, rest));
    }
  }

  lemma NumberJoin<E>(events: seq<E>, last: E, first: nat)
    ensures Number(events + [last], first) == Number(events, first) + [Numbered(first + |events|, last)]
  {
  }

  /** A full queue of links and a resource after them, all in one batch. */
  function LinksAnd<Sound>(urls: seq<string>, resource: Command<Sound>): seq<Command<Sound>> {
    Links(urls) + [resource]
  }

  lemma FullOrders<Session(!new), Sound(!new)>(
      skin: Skin<Session>, rules: UiRules<Session, Sound>, base: Presented<Session>, urls: seq<string>,
      resource: Command<Sound>)
    requires rules == RulesOf(skin, rules.capacity) && Serves(skin, [resource])
    ensures Orders(rules, 0, base, Number(LinksAnd(urls, resource), 1))
         == LinkOrders(urls, 1) + AssetOrders(skin, [resource], |urls| + 1)
  {
    hide RulesOf, Orders, Serves, AssetOrders;
    NumberJoin(Links<Sound>(urls), resource, 1);
    assert Number([resource], |urls| + 1) == [Numbered(|urls| + 1, resource)];
    NewLinksOrdered(skin, rules, base, 0, urls, Number([resource], |urls| + 1));
    AssetsOrdered(skin, rules, |urls|, base, [resource], |urls| + 1);
  }

  lemma LaterOrders<Session(!new), Sound(!new)>(
      skin: Skin<Session>, rules: UiRules<Session, Sound>, s: Presented<Session>, last: nat, urls: seq<string>,
      resource: Command<Sound>)
    requires rules == RulesOf(skin, rules.capacity) && Serves(skin, [resource]) && |urls| <= last
    ensures Orders(rules, last, s, Number(LinksAnd(urls, resource), 1)) == AssetOrders(skin, [resource], |urls| + 1)
  {
    hide RulesOf, Orders, Serves, AssetOrders;
    NumberJoin(Links<Sound>(urls), resource, 1);
    assert Number([resource], |urls| + 1) == [Numbered(|urls| + 1, resource)];
    OldLinksOrdered(skin, rules, s, last, urls, 1, Number([resource], |urls| + 1));
    AssetsOrdered(skin, rules, last, s, [resource], |urls| + 1);
  }

  /** The first round applies the whole batch, the resource command included. */
  lemma FirstRoundApplies<S(!new), E, U, R>(rules: Rules<S, E, U, R>, base: S, events: seq<E>, ack: AckFate)
    requires var orders := Orders(rules, 0, base, Number(events, 1));
      && |orders| > rules.capacity && orders[rules.capacity].commit.ResourceCommit?
      && orders[rules.capacity].sequence == |events|
    ensures Step(rules, Ready(base, events), PollRound(Arrives, ack)).client.last == |events|
  {
    var ready := Ready<S, E, U, R>(base, events);
    ReadyBatch<S, E, U, R>(base, events);
    WholeIsGapFree(events);
    hide OnEvents, Orders, Number, Step, Asked, GapFree;
    HandledLast(rules, ready, PollRound(Arrives, ack));
    RefusedIsAcknowledged(rules, Begin(ready.client), Number(events, 1));
    BatchInOrder(rules, events, Begin(ready.client), Number(events, 1));
  }

  lemma WholeIsGapFree<E>(events: seq<E>)
    ensures GapFree(events, 0, Number(events, 1))
  {
    TailIsGapFree(events, 0, 0);
    assert events[0..] == events && Tail(events, 0) == Number(events, 1);
  }

  lemma HandledLast<S, E, U, R>(rules: Rules<S, E, U, R>, sys: System<S, E, U, R>, action: Action<E>)
    requires Handles(sys, action)
    ensures Step(rules, sys, action).client.last
         == OnEvents(rules, Begin(sys.client), sys.client.deferred + Asked(sys).server.retained).last
  {
    hide OnEvents, Poll, Acknowledge;
  }

  lemma ReadyBatch<S, E, U, R>(base: S, events: seq<E>)
    ensures var ready := Ready<S, E, U, R>(base, events);
      ready.client.deferred + Asked(ready).server.retained == Number(events, 1)
  {
    EmptySides(Number(events, 1));
  }

  lemma FullThenResource<S, E, U, R>(
      rules: Rules<S, E, U, R>, sys: System<S, E, U, R>, action: Action<E>, links: seq<Order<U, R>>, order: Order<U, R>)
    requires action.PollRound? && RoundOrders(rules, sys, action) == links + [order]
    requires |links| == rules.capacity && order.commit.ResourceCommit?
    requires forall i :: 0 <= i < |links| ==> links[i].commit.BrowserCommit?
    ensures Loses(rules, sys, [], action) <==> action.ack == Reaches
  {
    assert (links + [order])[rules.capacity] == order && Cut(links + [order], rules.capacity) == links;
    EmptySides(links);
    hide RoundOrders;
  }

  lemma RoomForAll<S, E, U, R>(
      rules: Rules<S, E, U, R>, sys: System<S, E, U, R>, trace: seq<Order<U, R>>, action: Action<E>)
    requires |RoundOrders(rules, sys, action)| <= rules.capacity
    ensures !Loses(rules, sys, trace, action)
  {
  }

  /**
    A resource behind a full queue of updates is lost when the acknowledgement of that round arrives, and saved
    when it fails: the updates are not asked for again, so the next round has room for the resource.
   */
  lemma FailedAcknowledgementSaves<Session(!new), Sound(!new)>(
      skin: Skin<Session>, capacity: nat, base: Presented<Session>, urls: seq<string>, resource: Command<Sound>)
    requires |urls| == capacity >= 1 && Serves(skin, [resource])
    ensures var rules := RulesOf<Session, Sound>(skin, capacity);
      var start := Start<Presented<Session>, Command<Sound>, Update<Sound>, Asset>(base, false);
      var produced := Produced(LinksAnd(urls, resource));
      && !NeverLoses(rules, start, produced + [PollRound(Arrives, Reaches)])
      && NeverLoses(rules, start, produced + [PollRound(Arrives, Fails)] + [PollRound(Arrives, Reaches)])
  {
    var rules := RulesOf<Session, Sound>(skin, capacity);
    assert rules.capacity == capacity;
    var events, links := LinksAnd(urls, resource), LinkOrders<Sound>(urls, 1);
    var order := AssetOrders(skin, [resource], |urls| + 1);
    assert order == [order[0]];
    var ready, once := Ready<Presented<Session>, Command<Sound>, Update<Sound>, Asset>(base, events),
      Step(rules, Ready(base, events), PollRound(Arrives, Fails));
    FullOrders(skin, rules, base, urls, resource);
    hide NeverLoses, Loses, RoundOrders, RulesOf, Step, Orders, Produced, Number, Links, LinksAnd, AssetOrders, Ready,
        Cut;
    FirstOrders(rules, base, events, Reaches);
    FirstOrders(rules, base, events, Fails);
    FullThenResource(rules, ready, PollRound(Arrives, Reaches), links, order[0]);
    FullThenResource(rules, ready, PollRound(Arrives, Fails), links, order[0]);
    TwoRounds(rules, base, events, Reaches);
    TwoRounds(rules, base, events, Fails);
    LinksAndLength(urls, resource);
    FirstRoundApplies(rules, base, events, Fails);
    LaterOrders(skin, rules, once.client.state, once.client.last, urls, resource);
    SecondOrders(rules, base, events);
    RoomForAll(rules, once, Cut(links + order, capacity), PollRound(Arrives, Reaches));
  }

  lemma LinksAndLength<Sound>(urls: seq<string>, resource: Command<Sound>)
    ensures |LinksAnd(urls, resource)| == |urls| + 1
  {
  }
}
