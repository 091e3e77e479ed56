/**
  What holds of delivery whatever a refused event leaves behind, and what a refused event does to the ones after it
  (crates/dm-lifecycle/src/ipc.rs:729-766; crates/dm-client/src/main.rs:1604-1689).
 */
module RefusedEvents {
  import opened Wrappers
  import opened UiDelivery

  /** The server keeps everything the client has not applied, and the client holds no event it could skip to. */
  predicate InOrder<S, E(==), U, R>(sys: System<S, E, U, R>) {
    && ServerOk(sys.server, sys.log)
    && |sys.log| - |sys.server.retained| <= sys.client.last <= |sys.log|
    && GapFree(sys.log, sys.client.last, sys.client.deferred)
  }

  /** Refused now, an event is refused again. */
  ghost predicate RefusedForGood<S(!new), E, U>(apply: (S, E) -> Outcome<S, U>, e: E) {
    forall s :: apply(s, e).Rejected? ==> apply(apply(s, e).state, e).Rejected?
  }

  /** The next event the client needs is refused in the state it is in, and ever after. */
  ghost predicate Blocked<S(!new), E, U>(apply: (S, E) -> Outcome<S, U>, log: seq<E>, last: nat, state: S) {
    last < |log| && apply(state, log[last]).Rejected? && RefusedForGood(apply, log[last])
  }

  // ---- one event, one batch ----

  lemma EventInOrder<S(!new), E, U, R>(rules: Rules<S, E, U, R>, log: seq<E>, p: Pass<S, U, R>, n: Numbered<E>)
    requires p.last <= |log| && GapFree(log, p.last, [n])
    ensures var q := OnEvent(rules, p, n);
      && p.last <= q.last <= |log|
      && (q.last == (if n.sequence > p.last then n.sequence else p.last) || q.stopped)
      && (q.acknowledged == p.acknowledged || (q.acknowledged == Some(n.sequence) && n.sequence <= q.last))
      && (Blocked(rules.apply, log, p.last, p.state) ==>
            q.last == p.last && Blocked(rules.apply, log, q.last, q.state))
  {
  }

  lemma {:induction false} BatchInOrder<S(!new), E, U, R>(
      rules: Rules<S, E, U, R>, log: seq<E>, p: Pass<S, U, R>, events: seq<Numbered<E>>)
    requires p.last <= |log| && (GapFree(log, p.last, events) || p.stopped)
    requires p.acknowledged.Some? ==> p.acknowledged.value <= p.last
    ensures var q := OnEvents(rules, p, events);
      && p.last <= q.last <= |log|
      && (q.acknowledged.Some? ==> q.acknowledged.value <= q.last)
      && (Blocked(rules.apply, log, p.last, p.state) ==>
            q.last == p.last && Blocked(rules.apply, log, q.last, q.state))
    decreases |events|
  {
    hide OnEvent, Blocked;
    if events != [] && !p.stopped {
      assert GapFree(log, p.last, [events[0]]);
      EventInOrder(rules, log, p, events[0]);
      BatchInOrder(rules, log, OnEvent(rules, p, events[0]), events[1..]);
    }
  }

  // ---- one step ----

  lemma AskedInOrder<S, E, U, R>(sys: System<S, E, U, R>)
    requires InOrder(sys)
    ensures InOrder(Asked(sys)) && sys.log <= Asked(sys).log
  {
    hide GapFree, Poll, ServerOk;
    PollKeepsServer(sys.server, sys.log);
    BatchLength(sys.server, sys.log);
    if sys.server.retained == [] {
      GapFreeGrows(sys.log, sys.client.last, sys.client.deferred, sys.server.outbound, sys.client.last);
    }
  }

  lemma AnsweredInOrder<S(!new), E, U, R>(
      rules: Rules<S, E, U, R>, sys: System<S, E, U, R>, poll: PollFate, ack: AckFate)
    requires InOrder(sys)
    ensures var after := Answered(rules, sys, poll, ack);
      && InOrder(after) && sys.client.last <= after.client.last && after.log == sys.log
      && (Blocked(rules.apply, sys.log, sys.client.last, sys.client.state) ==>
            after.client.last == sys.client.last &&
                Blocked(rules.apply, sys.log, after.client.last, after.client.state))
  {
    hide OnEvents, GapFree, Acknowledge, ServerOk, Blocked;
    RetainedIsGapFree(sys.server, sys.log, sys.client.last);
    if poll == Arrives {
      var batch := sys.client.deferred + sys.server.retained;
      GapFreeAppend(sys.log, sys.client.last, sys.client.deferred, sys.server.retained);
      if !sys.client.waiting {
        BatchInOrder(rules, sys.log, Begin(sys.client), batch);
        NothingDeferred(sys.log, OnEvents(rules, Begin(sys.client), batch).last);
        var reply := Receive(rules, sys.client, Some(sys.server.retained)).1;
        if reply.Some? {
          AckKeepsServer(sys.server, sys.log, reply.value);
        }
      }
    }
  }

  lemma NothingDeferred<E>(log: seq<E>, last: nat)
    ensures GapFree(log, last, [])
  {
  }

  lemma LongerLogBlocks<S(!new), E, U>(apply: (S, E) -> Outcome<S, U>, log: seq<E>, longer: seq<E>, last: nat, state: S)
    requires Blocked(apply, log, last, state) && log <= longer
    ensures Blocked(apply, longer, last, state)
  {
    assert longer[last] == log[last];
  }

  lemma StepInOrder<S(!new), E, U, R>(rules: Rules<S, E, U, R>, sys: System<S, E, U, R>, action: Action<E>)
    requires InOrder(sys)
    ensures var after := Step(rules, sys, action);
      && InOrder(after) && sys.client.last <= after.client.last
      && (Blocked(rules.apply, sys.log, sys.client.last, sys.client.state) ==>
            after.client.last == sys.client.last &&
                Blocked(rules.apply, after.log, after.client.last, after.client.state))
  {
    hide GapFree, Poll, Acknowledge, Receive, Blocked;
    if action.PollRound? {
      AskedInOrder(sys);
      var asked := if action.poll == NeverSent then sys else Asked(sys);
      if Blocked(rules.apply, sys.log, sys.client.last, sys.client.state) {
        LongerLogBlocks(rules.apply, sys.log, asked.log, sys.client.last, sys.client.state);
      }
      AnsweredInOrder(rules, asked, action.poll, action.ack);
    }
  }

  // ---- every run ----

  lemma {:induction false} RunInOrder<S(!new), E, U, R>(
      rules: Rules<S, E, U, R>, sys: System<S, E, U, R>, actions: seq<Action<E>>)
    requires InOrder(sys)
    ensures var after := Run(rules, sys, actions);
      && InOrder(after) && sys.client.last <= after.client.last
      && (Blocked(rules.apply, sys.log, sys.client.last, sys.client.state) ==>
            after.client.last == sys.client.last &&
                Blocked(rules.apply, after.log, after.client.last, after.client.state))
  {
    hide Step, InOrder, Blocked;
    if actions != [] {
      var n := |actions| - 1;
      RunInOrder(rules, sys, actions[..n]);
      StepInOrder(rules, Run(rules, sys, actions[..n]), actions[n]);
    }
  }

  /** Whatever refusals leave behind, the server never drops an event the client has not applied. */
  lemma NothingIsDropped<S(!new), E, U, R>(rules: Rules<S, E, U, R>, base: S, waiting: bool, actions: seq<Action<E>>)
    ensures InOrder(Run(rules, Start(base, waiting), actions))
  {
    StartInOrder<S, E, U, R>(base, waiting);
    RunInOrder(rules, Start(base, waiting), actions);
  }

  lemma StartInOrder<S, E, U, R>(base: S, waiting: bool)
    ensures InOrder(Start<S, E, U, R>(base, waiting))
  {
    var log: seq<E> := [];
    assert Tail(log, 0) == [];
  }

  /** Once the next event is refused for good, no run whatever applies it or any later event. */
  lemma RefusalStopsDelivery<S(!new), E, U, R>(
      rules: Rules<S, E, U, R>, base: S, waiting: bool, actions: seq<Action<E>>, more: seq<Action<E>>)
    requires var sys := Run(rules, Start(base, waiting), actions);
      Blocked(rules.apply, sys.log, sys.client.last, sys.client.state)
    ensures Run(rules, Start(base, waiting), actions + more).client.last
         == Run(rules, Start(base, waiting), actions).client.last
  {
    hide Run, InOrder, Blocked;
    NothingIsDropped(rules, base, waiting, actions);
    RunSplits(rules, Start(base, waiting), actions, more);
    RunInOrder(rules, Run(rules, Start(base, waiting), actions), more);
  }
}
