/**
  Browser updates the client loses to a full owner queue, by example
  (crates/dm-client/src/main.rs:142-156, 1635-1650).
 */
module OwnerQueueLoss {
  import opened Wrappers
  import opened Collections
  import opened UiDelivery
  import opened UiCommands

  function Links<Sound>(urls: seq<string>): (r: seq<Command<Sound>>)
    ensures |r| == |urls| && forall i :: 0 <= i < |urls| ==> r[i] == Link(urls[i])
  {
    seq(|urls|, i requires 0 <= i < |urls| => Link(urls[i]))
  }

  function Produced<E>(events: seq<E>): (r: seq<Action<E>>)
    ensures |r| == |events| && forall i :: 0 <= i < |events| ==> r[i] == Produce(events[i])
  {
    seq(|events|, i requires 0 <= i < |events| => Produce(events[i]))
  }

  lemma ProducedPush<E>(events: seq<E>)
    requires events != []
    ensures var n := |events| - 1;
      events == events[..n] + [events[n]] && Produced(events) == Produced(events[..n]) + [Produce(events[n])]
  {
  }

  lemma {:induction false} ProducedRun<S, E, U, R>(rules: Rules<S, E, U, R>, base: S, events: seq<E>)
    ensures var start := Start<S, E, U, R>(base, false);
      && Run(rules, start, Produced(events)) == start.(server := Server(events, [], 1))
      && NeverOverruns(rules, start, Produced(events))
  {
    if events != [] {
      var start, n := Start<S, E, U, R>(base, false), |events| - 1;
      ProducedRun(rules, base, events[..n]);
      ProducedPush(events);
      hide Run, NeverOverruns, Produced, Asked, Answered, FirstRefused;
      RunPush(rules, start, Produced(events[..n]), Produce(events[n]));
      OneMoreAction(rules, start, Produced(events[..n]), Produce(events[n]));
    }
  }

  function Opened<Sound>(urls: seq<string>): (r: seq<Commit<Update<Sound>, Asset>>)
    ensures |r| == |urls| && forall i :: 0 <= i < |urls| ==> r[i] == BrowserCommit(OpenLink(urls[i]))
  {
    seq(|urls|, i requires 0 <= i < |urls| => BrowserCommit(OpenLink(urls[i])))
  }

  lemma WantedHead<S, E, U, R>(rules: Rules<S, E, U, R>, last: nat, s: S, n: Numbered<E>, rest: seq<Numbered<E>>)
    ensures var effect := EffectOf(rules, last, s, n);
      effect.Taken? ==>
        Wanted(rules, last, s, [n] + rest) == effect.commits + Wanted(rules, effect.last, effect.state, rest)
  {
    assert ([n] + rest)[1..] == rest;
  }

  lemma LinksHead<Sound>(urls: seq<string>, first: nat)
    requires urls != []
    ensures Number(Links<Sound>(urls), first)
         == [Numbered(first, Link(urls[0]))] + Number(Links(urls[1..]), first + 1)
    ensures Opened<Sound>(urls) == [BrowserCommit(OpenLink(urls[0]))] + Opened(urls[1..])
  {
  }

  /** Numbered links that are all new ask for one browser update each. */
  lemma {:induction false} LinksWanted<Session(!new), Sound(!new)>(
      skin: Skin<Session>, rules: UiRules<Session, Sound>, s: Presented<Session>, last: nat, urls: seq<string>)
    requires rules == RulesOf(skin, rules.capacity)
    ensures Wanted(rules, last, s, Number(Links(urls), last + 1)) == Opened(urls)
    decreases |urls|
  {
    if urls != [] {
      hide RulesOf, Wanted, Number, Links, Opened, EffectOf;
      LinkEffect(skin, rules, s, last, urls[0]);
      LinksWanted(skin, rules, s, last + 1, urls[1..]);
      LinksHead<Sound>(urls, last + 1);
      WantedHead(rules, last, s, Numbered(last + 1, Link(urls[0])), Number(Links(urls[1..]), last + 2));
    }
  }

  lemma LinkEffect<Session(!new), Sound(!new)>(
      skin: Skin<Session>, rules: UiRules<Session, Sound>, s: Presented<Session>, last: nat, url: string)
    requires rules == RulesOf(skin, rules.capacity)
    ensures EffectOf(rules, last, s, Numbered(last + 1, Link(url)))
        == Taken(last + 1, s, [BrowserCommit(OpenLink(url))])
  {
    RulesAre<Session, Sound>(skin, rules.capacity);
    EmptySides<Commit<Update<Sound>, Asset>>([BrowserCommit(OpenLink(url))]);
  }

  lemma LinksAreAtomic<Session(!new), Sound(!new)>(
      skin: Skin<Session>, rules: UiRules<Session, Sound>, base: Presented<Session>, urls: seq<string>)
    requires rules == RulesOf(skin, rules.capacity)
    ensures AtomicAlong(rules.apply, base, Links(urls))
  {
    RulesAre<Session, Sound>(skin, rules.capacity);
    hide RulesOf;
  }

  lemma FirstRound<S, E, U, R>(rules: Rules<S, E, U, R>, base: S, events: seq<E>)
    ensures var ready := Start<S, E, U, R>(base, false).(server := Server(events, [], 1));
      var wanted := Wanted(rules, 0, base, Number(events, 1));
      && Asked(ready).log == events
      && FirstRefused(rules, ready.client, Some(Asked(ready).server.retained))
           == if |wanted| > rules.capacity then Some(wanted[rules.capacity]) else None
  {
    EmptySides(events);
    EmptySides(Number(events, 1));
    hide Wanted, Number;
  }

  /** The round that fetches the links overruns the queue exactly when there are too many of them. */
  lemma RoundOverrunsIff<Session(!new), Sound(!new)>(
      skin: Skin<Session>, rules: UiRules<Session, Sound>, base: Presented<Session>, urls: seq<string>)
    requires rules == RulesOf(skin, rules.capacity)
    ensures var start := Start<Presented<Session>, Command<Sound>, Update<Sound>, Asset>(base, false);
      var ready := start.(server := Server(Links(urls), [], 1));
      && Asked(ready).log == Links(urls)
      && (Overruns(rules, ready, PollRound(Arrives, Reaches)) <==> |urls| > rules.capacity)
  {
    hide RulesOf, Wanted, Number, Asked, FirstRefused, Start;
    LinksWanted(skin, rules, base, 0, urls);
    FirstRound(rules, base, Links<Sound>(urls));
  }

  /**
    Links produced together and fetched in one undisturbed round are all opened exactly when there are no
    more of them than the owner queue holds.
   */
  lemma LinksOpenedIff<Session(!new), Sound(!new)>(
      skin: Skin<Session>, capacity: nat, base: Presented<Session>, urls: seq<string>)
    ensures var rules := RulesOf<Session, Sound>(skin, capacity);
      var sys := Run(rules, Start(base, false), Produced(Links(urls)) + [PollRound(Arrives, Reaches)]);
      && sys.client.last <= |sys.log|
      && (|urls| <= capacity <==>
           BrowserUpdates(sys.client.delivered) == Updates(rules.apply, base, sys.log[..sys.client.last]))
  {
    var rules := RulesOf<Session, Sound>(skin, capacity);
    assert rules.capacity == capacity;
    var links := Links<Sound>(urls);
    var start := Start<Presented<Session>, Command<Sound>, Update<Sound>, Asset>(base, false);
    var round := PollRound(Arrives, Reaches);
    ProducedRun(rules, base, links);
    RoundOverrunsIff(skin, rules, base, urls);
    LinksAreAtomic(skin, rules, base, urls);
    hide RulesOf, Run, Overruns, Asked, AtomicAlong, AlikeAlong, Updates, BrowserUpdates, Step, Links, Produced,
        NeverOverruns;
    RunPush(rules, start, Produced(links), round);
    OneMoreAction(rules, start, Produced(links), round);
    LogOfRound(rules, Run(rules, start, Produced(links)), round);
    AtomicIsAlike(rules.apply, base, links);
    BrowserUpdatesCompleteIff(rules, base, false, Produced(links) + [round]);
  }

  lemma LogOfRound<S, E, U, R>(rules: Rules<S, E, U, R>, sys: System<S, E, U, R>, action: Action<E>)
    requires action.PollRound? && action.poll != NeverSent
    ensures Step(rules, sys, action).log == Asked(sys).log
  {
  }

  lemma OneMoreAction<S, E, U, R>(
      rules: Rules<S, E, U, R>, sys: System<S, E, U, R>, actions: seq<Action<E>>, last: Action<E>)
    ensures NeverOverruns(rules, sys, actions + [last])
       <==> NeverOverruns(rules, sys, actions) && !Overruns(rules, Run(rules, sys, actions), last)
  {
    assert (actions + [last])[..|actions|] == actions;
  }
}
