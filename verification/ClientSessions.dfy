/**
  UI commands applied to a client session, which is one window state and the native layout derived from it
  (crates/dm-client/src/ui_commands.rs:180-285; crates/dm-dmf/src/lib.rs:885-900, 1157-1195).
 */
module ClientSessions {
  import opened Wrappers
  import opened Assignments
  import opened UiStates
  import opened UiNames
  import opened UiWindows
  import opened BrowserWindows
  import opened UiDelivery
  import opened UiCommands
  import opened RefusedEvents
  import opened RepeatedClones

  datatype ClientState<+Layout> = ClientState(ui: Ui, layout: Layout)

  type Shows<+Layout> = Presented<ClientState<Layout>>

  function ApplyWinset<Layout>(
      refresh: (Layout, Ui) -> Layout, s: ClientState<Layout>, control: string, parameters: string)
    : (ClientState<Layout>, bool)
  {
    var written := Winset(s.ui, control, parameters);
    if written.Success? then (ClientState(written.value, refresh(s.layout, written.value)), true) else (s, false)
  }

  function ApplyEnsure<Layout>(s: ClientState<Layout>, window: string): (ClientState<Layout>, bool) {
    var (ui, error) := EnsureBrowser(s.ui, window);
    (s.(ui := ui), error.None?)
  }

  /** The session's own operations; what only reads the session stays with `reads`. */
  function SessionSkin<Layout>(
      reading: Skin<ClientState<Layout>>, refresh: (Layout, Ui) -> Layout): Skin<ClientState<Layout>>
  {
    reading.(winset := (s, c, p) => ApplyWinset(refresh, s, c, p),
             ensureBrowser := (s, w) => ApplyEnsure(s, w),
             present := (s: ClientState<Layout>, w) => Resolve(s.ui, w).Success?)
  }

  lemma SessionSkinIs<Layout(!new)>(reading: Skin<ClientState<Layout>>, refresh: (Layout, Ui) -> Layout)
    ensures var skin := SessionSkin(reading, refresh);
      && (forall s, c, p :: skin.winset(s, c, p) == ApplyWinset(refresh, s, c, p))
      && (forall s, w :: skin.ensureBrowser(s, w) == ApplyEnsure(s, w))
      && (forall s: ClientState<Layout>, w :: skin.present(s, w) == Resolve(s.ui, w).Success?)
  {
    hide ApplyWinset, ApplyEnsure, Resolve;
  }

  /** A property write reaches the window state and the layout made from it, or is refused and changes nothing. */
  lemma WinsetShows<Layout(!new), Sound(!new)>(
      reading: Skin<ClientState<Layout>>, refresh: (Layout, Ui) -> Layout, s: Shows<Layout>,
      control: string, parameters: string)
    ensures var outcome := Perform<ClientState<Layout>, Sound>(SessionSkin(reading, refresh), s,
        WinSet(control, parameters));
      match Winset(s.session.ui, control, parameters)
      case Failure(_) => outcome == Rejected(s)
      case Success(ui) => outcome == Applied(s.(session := ClientState(ui, refresh(s.session.layout, ui))), None)
  {
    SessionSkinIs(reading, refresh);
    hide SessionSkin, Winset;
  }

  /** After an applied write every casing of a written name reads the last value written. */
  lemma WrittenIsRead<Layout(!new), Sound(!new)>(
      reading: Skin<ClientState<Layout>>, refresh: (Layout, Ui) -> Layout, s: Shows<Layout>,
      control: string, parameters: string, i: nat, name: string)
    requires Kept(s.session.ui) && Winset(s.session.ui, control, parameters).Success?
    requires LastAlike(AssignedNames(ParseFrom(parameters, "", OUTSIDE).value), name, i)
    ensures var outcome := Perform<ClientState<Layout>, Sound>(SessionSkin(reading, refresh), s,
        WinSet(control, parameters));
      Winget(outcome.state.session.ui, control, name) == Success(ParseFrom(parameters, "", OUTSIDE).value[i].value)
  {
    WinsetShows<Layout, Sound>(reading, refresh, s, control, parameters);
    RecasedWinsetReads(s.session.ui, control, parameters, i, name);
    hide Perform, Winset, Winget, ParseFrom, LastAlike;
  }

  /** A page for a name that means nothing is shown in the window then made for it, or refused with what that left. */
  lemma PageMakesWindow<Layout(!new), Sound(!new)>(
      reading: Skin<ClientState<Layout>>, refresh: (Layout, Ui) -> Layout, s: Shows<Layout>,
      window: string, html: string)
    requires window != "" && Resolve(s.session.ui, window).Failure?
    ensures var outcome := Perform<ClientState<Layout>, Sound>(SessionSkin(reading, refresh), s, Browse(window, html));
      var (ui, error) := EnsureBrowser(s.session.ui, window);
      var session := s.session.(ui := ui);
      var shown := reading.browserControl(session, window);
      var key := if shown.Some? then shown.value else window;
      if error.Some? then outcome == Rejected(s.(session := session))
      else outcome == Applied(s.(session := session, html := s.html[key := html]),
                              if shown.Some? then Some(Html(shown.value, html)) else None)
  {
    SessionSkinIs(reading, refresh);
    assert SessionSkin(reading, refresh).browserControl == reading.browserControl;
    hide SessionSkin, EnsureBrowser, Resolve;
  }

  // ---- which refusals leave a trace ----

  /** Trying to show a page leaves a cloned popup window behind, although the page is refused. */
  predicate Strands<Layout, Sound>(s: Shows<Layout>, command: Command<Sound>) {
    command.Browse? && LeavesClone(s.session.ui, command.window)
  }

  /** A refused request changes the window state exactly when it strands a clone. */
  lemma LeavesCloneIff(ui: Ui, window: string)
    requires window != "" && Resolve(ui, window).Failure?
    ensures var (after, error) := EnsureBrowser(ui, window); (error.Some? && after != ui) <==> LeavesClone(ui, window)
  {
    EnsureBrowserIff(ui, window);
    hide EnsureBrowser, CloneWindow, HasTemplate, Unsettled, Resolve;
  }

  lemma RefusalLeavesTraceIff<Layout(!new), Sound(!new)>(
      reading: Skin<ClientState<Layout>>, refresh: (Layout, Ui) -> Layout, s: Shows<Layout>, command: Command<Sound>)
    ensures var outcome := Perform<ClientState<Layout>, Sound>(SessionSkin(reading, refresh), s, command);
      (outcome.Rejected? && outcome.state != s) <==> Strands(s, command)
  {
    var skin := SessionSkin(reading, refresh);
    SessionSkinIs(reading, refresh);
    hide SessionSkin, LeavesClone, EnsureBrowser, Winset, Resolve;
    match command {
      case Browse(window, html) =>
        if window != "" && !skin.present(s.session, window) {
          LeavesCloneIff(s.session.ui, window);
          RefusedPage<Layout, Sound>(skin, s, window, html);
        } else {
          NothingToStrand(s.session.ui, window);
        }
      case WinSet(_, _) =>
      case Output(_, _) =>
        hide ApplyWinset, ApplyEnsure;
      case Link(_) =>
      case BrowseResource(_, _) =>
      case Ask(_) =>
      case Play(_) =>
    }
  }

  lemma RefusedPage<Layout, Sound>(skin: Skin<ClientState<Layout>>, s: Shows<Layout>, window: string, html: string)
    requires window != "" && !skin.present(s.session, window)
    requires skin.ensureBrowser(s.session, window) == ApplyEnsure(s.session, window)
    ensures var outcome := ShowPage<ClientState<Layout>, Sound>(skin, s, window, html);
      var (after, error) := EnsureBrowser(s.session.ui, window);
      && (outcome.Rejected? <==> error.Some?)
      && (outcome.Rejected? ==> (outcome.state == s <==> after == s.session.ui))
  {
    var (after, error) := EnsureBrowser(s.session.ui, window);
    hide EnsureBrowser;
    assert after == s.session.ui ==> s.(session := s.session.(ui := after)) == s;
    assert s.(session := s.session.(ui := after)).session.ui == after;
  }

  lemma NothingToStrand(ui: Ui, window: string)
    requires window == "" || Resolve(ui, window).Success?
    ensures !LeavesClone(ui, window)
  {
  }

  /** The same with the popup template cloned to the name. */
  function WithClone<Layout>(s: Shows<Layout>, window: string): Shows<Layout> {
    s.(session := s.session.(ui := CloneWindow(s.session.ui, TEMPLATE, window)))
  }

  /** What a refusal leaves: the clone if the page strands one, nothing otherwise. */
  lemma RefusalLeaves<Layout(!new), Sound(!new)>(
      reading: Skin<ClientState<Layout>>, refresh: (Layout, Ui) -> Layout, s: Shows<Layout>, command: Command<Sound>)
    requires Perform(SessionSkin(reading, refresh), s, command).Rejected?
    ensures Perform(SessionSkin(reading, refresh), s, command).state
         == if Strands(s, command) then WithClone(s, command.window) else s
  {
    var skin := SessionSkin(reading, refresh);
    RefusalLeavesTraceIff(reading, refresh, s, command);
    SessionSkinIs(reading, refresh);
    hide SessionSkin, EnsureBrowser, CloneWindow, Resolve, Winset;
    if Strands(s, command) {
      EnsureBrowserIff(s.session.ui, command.window);
      hide Unsettled, HasTemplate;
    }
  }

  lemma StrandsChanges<Layout(!new), Sound>(s: Shows<Layout>, command: Command<Sound>)
    requires Strands(s, command)
    ensures WithClone(s, command.window) != s
  {
    hide CloneWindow, Resolve, HasTemplate, Unsettled;
    assert WithClone(s, command.window).session.ui != s.session.ui;
  }

  // ---- delivery to a real session ----

  type SessionRules<!Layout, !Sound> = UiRules<ClientState<Layout>, Sound>

  function SessionRulesOf<Layout, Sound>(
      reading: Skin<ClientState<Layout>>, refresh: (Layout, Ui) -> Layout, capacity: nat): SessionRules<Layout, Sound>
  {
    RulesOf(SessionSkin(reading, refresh), capacity)
  }

  lemma RefusesCleanlyIff<Layout(!new), Sound(!new)>(
      reading: Skin<ClientState<Layout>>, refresh: (Layout, Ui) -> Layout, capacity: nat,
      s: Shows<Layout>, command: Command<Sound>)
    ensures RefusesCleanly(SessionRulesOf<Layout, Sound>(reading, refresh, capacity).apply, s, command) <==>
        !Strands(s, command)
  {
    RulesAre<ClientState<Layout>, Sound>(SessionSkin(reading, refresh), capacity);
    RefusalLeavesTraceIff(reading, refresh, s, command);
    hide Perform, SessionSkin, RulesOf;
  }

  /** No command of the log, tried when its turn comes, strands a clone. */
  predicate NoneStranded<Layout, Sound>(
      rules: SessionRules<Layout, Sound>, base: Shows<Layout>, log: seq<Command<Sound>>)
  {
    forall k :: 0 <= k < |log| && Accepted(rules.apply, base, log[..k]) ==>
      !Strands(Shown(rules.apply, base, log[..k]), log[k])
  }

  lemma AtomicAlongIff<Layout(!new), Sound(!new)>(
      reading: Skin<ClientState<Layout>>, refresh: (Layout, Ui) -> Layout, capacity: nat,
      base: Shows<Layout>, log: seq<Command<Sound>>)
    ensures var rules := SessionRulesOf<Layout, Sound>(reading, refresh, capacity);
      AtomicAlong(rules.apply, base, log) <==> NoneStranded(rules, base, log)
  {
    var rules := SessionRulesOf<Layout, Sound>(reading, refresh, capacity);
    forall s: Shows<Layout>, command: Command<Sound>
      ensures RefusesCleanly(rules.apply, s, command) <==> !Strands(s, command)
    {
      RefusesCleanlyIff(reading, refresh, capacity, s, command);
    }
    hide SessionRulesOf, RefusesCleanly, Strands;
  }

  // ---- skins without a popup template ----

  lemma PerformKeepsTree<Layout(!new), Sound(!new)>(
      reading: Skin<ClientState<Layout>>, refresh: (Layout, Ui) -> Layout, s: Shows<Layout>, command: Command<Sound>)
    ensures Perform(SessionSkin(reading, refresh), s, command).state.session.ui.tree == s.session.ui.tree
  {
    SessionSkinIs(reading, refresh);
    EnsureKeepsTree(s.session.ui, if command.Browse? then command.window else "");
    hide SessionSkin, EnsureBrowser, Resolve, Target;
  }

  lemma EnsureKeepsTree(ui: Ui, window: string)
    ensures EnsureBrowser(ui, window).0.tree == ui.tree
  {
    hide IsBrowser, Target, CopyOverrides, Without, Resolve;
  }

  lemma {:induction false} ShownKeepsTree<Layout(!new), Sound(!new)>(
      reading: Skin<ClientState<Layout>>, refresh: (Layout, Ui) -> Layout, capacity: nat,
      base: Shows<Layout>, log: seq<Command<Sound>>)
    ensures var rules := SessionRulesOf<Layout, Sound>(reading, refresh, capacity);
      Shown(rules.apply, base, log).session.ui.tree == base.session.ui.tree
  {
    var rules := SessionRulesOf<Layout, Sound>(reading, refresh, capacity);
    RulesAre<ClientState<Layout>, Sound>(SessionSkin(reading, refresh), capacity);
    hide Perform, SessionSkin, RulesOf;
    if log != [] {
      var n := |log| - 1;
      ShownKeepsTree(reading, refresh, capacity, base, log[..n]);
      PerformKeepsTree(reading, refresh, Shown(rules.apply, base, log[..n]), log[n]);
    }
  }

  /** With no section for popup windows there is nothing to clone, so no log strands anything. */
  lemma NoTemplateNoneStranded<Layout(!new), Sound(!new)>(
      reading: Skin<ClientState<Layout>>, refresh: (Layout, Ui) -> Layout, capacity: nat,
      base: Shows<Layout>, log: seq<Command<Sound>>)
    requires !HasTemplate(base.session.ui)
    ensures NoneStranded(SessionRulesOf<Layout, Sound>(reading, refresh, capacity), base, log)
  {
    var rules := SessionRulesOf<Layout, Sound>(reading, refresh, capacity);
    hide SessionRulesOf;
    forall k | 0 <= k < |log| && Accepted(rules.apply, base, log[..k])
      ensures !Strands(Shown(rules.apply, base, log[..k]), log[k])
    {
      ShownKeepsTree(reading, refresh, capacity, base, log[..k]);
    }
  }

  // ---- a command refused again ----

  lemma PerformKeepsKept<Layout(!new), Sound(!new)>(
      reading: Skin<ClientState<Layout>>, refresh: (Layout, Ui) -> Layout, s: Shows<Layout>, command: Command<Sound>)
    requires Kept(s.session.ui)
    ensures Kept(Perform(SessionSkin(reading, refresh), s, command).state.session.ui)
  {
    SessionSkinIs(reading, refresh);
    hide SessionSkin, Resolve, EnsureBrowser, Winset, Kept;
    if command.Browse? {
      EnsureKeepsKept(s.session.ui, command.window);
    } else if command.WinSet? {
      WinsetKeepsKept(s.session.ui, command.control, command.parameters);
    }
  }

  lemma WinsetKeepsKept(ui: Ui, address: string, parameters: string)
    requires Kept(ui)
    ensures Winset(ui, address, parameters).Success? ==> Kept(Winset(ui, address, parameters).value)
  {
    if Winset(ui, address, parameters).Success? {
      WingetReadsWinset(ui, address, parameters, "");
    }
  }

  lemma EnsureKeepsKept(ui: Ui, window: string)
    requires Kept(ui)
    ensures Kept(EnsureBrowser(ui, window).0)
  {
    hide IsBrowser, Winclone, Winset, Kept;
    var cloned := Winclone(ui, TEMPLATE, window);
    if cloned.Success? {
      WincloneKeeps(ui, TEMPLATE, window);
      WinsetKeepsKept(cloned.value, window, SETTINGS_TEXT);
    }
  }

  lemma {:induction false} ShownIsKept<Layout(!new), Sound(!new)>(
      reading: Skin<ClientState<Layout>>, refresh: (Layout, Ui) -> Layout, capacity: nat,
      base: Shows<Layout>, log: seq<Command<Sound>>)
    requires Kept(base.session.ui)
    ensures Kept(Shown(SessionRulesOf<Layout, Sound>(reading, refresh, capacity).apply, base, log).session.ui)
  {
    var rules := SessionRulesOf<Layout, Sound>(reading, refresh, capacity);
    RulesAre<ClientState<Layout>, Sound>(SessionSkin(reading, refresh), capacity);
    hide Perform, SessionSkin, RulesOf, Kept;
    if log != [] {
      var n := |log| - 1;
      ShownIsKept(reading, refresh, capacity, base, log[..n]);
      PerformKeepsKept(reading, refresh, Shown(rules.apply, base, log[..n]), log[n]);
    }
  }

  lemma CommandRefusedAgain<Layout(!new), Sound(!new)>(
      reading: Skin<ClientState<Layout>>, refresh: (Layout, Ui) -> Layout, s: Shows<Layout>, command: Command<Sound>)
    requires Perform(SessionSkin(reading, refresh), s, command).Rejected?
    ensures var skin := SessionSkin(reading, refresh);
      var after := Perform(skin, s, command).state;
      && Perform(skin, after, command).Rejected?
      && (Kept(s.session.ui) ==> Perform(skin, after, command).state == after)
  {
    var skin := SessionSkin(reading, refresh);
    SessionSkinIs(reading, refresh);
    hide SessionSkin, EnsureBrowser, Winset, Resolve, Kept;
    if command.Browse? {
      var window := command.window;
      assert window != "" && Resolve(s.session.ui, window).Failure?;
      RefusedAgain(s.session.ui, window);
      if Kept(s.session.ui) {
        RefusedTwice(s.session.ui, window);
      }
    } else {
      RefusalLeavesTraceIff(reading, refresh, s, command);
    }
  }

  lemma SessionsAreAlike<Layout(!new), Sound(!new)>(
      reading: Skin<ClientState<Layout>>, refresh: (Layout, Ui) -> Layout, capacity: nat,
      base: Shows<Layout>, log: seq<Command<Sound>>)
    requires Kept(base.session.ui)
    ensures AlikeAlong(SessionRulesOf<Layout, Sound>(reading, refresh, capacity).apply, base, log)
  {
    var rules := SessionRulesOf<Layout, Sound>(reading, refresh, capacity);
    RulesAre<ClientState<Layout>, Sound>(SessionSkin(reading, refresh), capacity);
    hide Perform, SessionSkin, RulesOf, Kept, Shown;
    forall k | 0 <= k < |log| && Accepted(rules.apply, base, log[..k])
      ensures RefusesAlike(rules.apply, Shown(rules.apply, base, log[..k]), log[k])
    {
      ShownIsKept(reading, refresh, capacity, base, log[..k]);
      if rules.apply(Shown(rules.apply, base, log[..k]), log[k]).Rejected? {
        CommandRefusedAgain(reading, refresh, Shown(rules.apply, base, log[..k]), log[k]);
      }
    }
  }

  // ---- every run ----

  /** The run tried the next command, and it is a page that strands a clone. */
  predicate Stranded<Layout, Sound>(
      rules: SessionRules<Layout, Sound>, base: Shows<Layout>, waiting: bool, actions: seq<Action<Command<Sound>>>)
  {
    var sys := Run(rules, Start(base, waiting), actions);
    && RunRefuses(rules, Start(base, waiting), actions)
    && sys.client.last < |sys.log|
    && Strands(Shown(rules.apply, base, sys.log[..sys.client.last]), sys.log[sys.client.last])
  }

  /**
    Delivery for the client's own commands, session and window state, over every run: the commands up to `last`
    were applied once each in order; the client shows what they lead to, with one clone added exactly when the
    next command was tried and strands it, however often it was tried; the server dropped nothing beyond `last`;
    and the browser owner got every update exactly when no round overran its queue.
   */
  lemma PresentationIsTheEventLog<Layout(!new), Sound(!new)>(
      reading: Skin<ClientState<Layout>>, refresh: (Layout, Ui) -> Layout, capacity: nat,
      base: Shows<Layout>, waiting: bool, actions: seq<Action<Command<Sound>>>)
    requires Kept(base.session.ui)
    ensures var rules := SessionRulesOf<Layout, Sound>(reading, refresh, capacity);
      var sys := Run(rules, Start(base, waiting), actions);
      && sys.client.last <= |sys.log|
      && |sys.log| - |sys.server.retained| <= sys.client.last
      && Accepted(rules.apply, base, sys.log[..sys.client.last])
      && var shown := Shown(rules.apply, base, sys.log[..sys.client.last]);
         var stranded := Stranded(rules, base, waiting, actions);
      && sys.client.state == (if stranded then WithClone(shown, sys.log[sys.client.last].window) else shown)
      && (sys.client.state != shown <==> stranded)
      && (NeverOverruns(rules, Start(base, waiting), actions) <==>
           BrowserUpdates(sys.client.delivered) == Updates(rules.apply, base, sys.log[..sys.client.last]))
  {
    var rules := SessionRulesOf<Layout, Sound>(reading, refresh, capacity);
    var sys := Run(rules, Start(base, waiting), actions);
    SessionsAreAlike(reading, refresh, capacity, base, sys.log);
    hide Run, NeverOverruns, Shown, Accepted, Updates, BrowserUpdates, RunRefuses, AlikeAlong, Kept;
    ExactlyOnceInOrder(rules, base, waiting, actions);
    BrowserUpdatesCompleteIff(rules, base, waiting, actions);
    if RunRefuses(rules, Start(base, waiting), actions) {
      RulesAre<ClientState<Layout>, Sound>(SessionSkin(reading, refresh), capacity);
      hide RulesOf, Perform, SessionSkin, Strands, WithClone;
      var shown, next := Shown(rules.apply, base, sys.log[..sys.client.last]), sys.log[sys.client.last];
      RefusalLeaves(reading, refresh, shown, next);
      if Strands(shown, next) {
        StrandsChanges(shown, next);
      }
    }
  }

  /** Without a popup template the client shows, after every run, exactly what the applied commands lead to. */
  lemma NoTemplateShowsLog<Layout(!new), Sound(!new)>(
      reading: Skin<ClientState<Layout>>, refresh: (Layout, Ui) -> Layout, capacity: nat,
      base: Shows<Layout>, waiting: bool, actions: seq<Action<Command<Sound>>>)
    requires !HasTemplate(base.session.ui)
    ensures var rules := SessionRulesOf<Layout, Sound>(reading, refresh, capacity);
      var sys := Run(rules, Start(base, waiting), actions);
      && sys.client.last <= |sys.log|
      && sys.client.state == Shown(rules.apply, base, sys.log[..sys.client.last])
  {
    var rules := SessionRulesOf<Layout, Sound>(reading, refresh, capacity);
    var sys := Run(rules, Start(base, waiting), actions);
    NoTemplateNoneStranded(reading, refresh, capacity, base, sys.log);
    AtomicAlongIff(reading, refresh, capacity, base, sys.log);
    hide SessionRulesOf, Run, NoneStranded, AtomicAlong;
    CleanRefusalsShowLog(rules, base, waiting, actions);
  }

  /** One round is enough: a page that strands a clone leaves the client showing it though nothing was applied. */
  lemma StrandingShows<Layout(!new), Sound(!new)>(
      reading: Skin<ClientState<Layout>>, refresh: (Layout, Ui) -> Layout, capacity: nat,
      base: Shows<Layout>, page: Command<Sound>, ack: AckFate)
    requires Strands(base, page)
    ensures var rules := SessionRulesOf<Layout, Sound>(reading, refresh, capacity);
      var sys := Run(rules, Start(base, false), [Produce(page), PollRound(Arrives, ack)]);
      && sys.log == [page] && sys.client.last == 0
      && sys.client.state == WithClone(base, page.window) != base
  {
    var rules := SessionRulesOf<Layout, Sound>(reading, refresh, capacity);
    RulesAre<ClientState<Layout>, Sound>(SessionSkin(reading, refresh), capacity);
    RefusalLeavesTraceIff(reading, refresh, base, page);
    RefusalLeaves(reading, refresh, base, page);
    RefusedFirst(rules, base, page, ack);
    hide Perform, SessionSkin, RulesOf;
  }

  lemma RefusedFirst<S, E, U, R>(rules: Rules<S, E, U, R>, base: S, e: E, ack: AckFate)
    requires rules.apply(base, e).Rejected?
    ensures var sys := Run(rules, Start(base, false), [Produce(e), PollRound(Arrives, ack)]);
      && sys.log == [e] && sys.client.last == 0 && sys.client.state == rules.apply(base, e).state
  {
    var start := Start<S, E, U, R>(base, false);
    RunPush(rules, start, [], Produce(e));
    assert [] + [Produce(e)] == [Produce(e)];
    RunPush(rules, start, [Produce(e)], PollRound(Arrives, ack));
    assert [Produce(e)] + [PollRound(Arrives, ack)] == [Produce(e), PollRound(Arrives, ack)];
    var one := Run(rules, start, [Produce(e)]);
    assert one == start.(server := Server([e], [], 1));
    assert [] + [e] == [e];
    assert Asked(one).server.retained == [Numbered(1, e)];
    var batch := [Numbered(1, e)];
    assert [] + batch == batch;
    var p := Begin<S, E, U, R>(Client(0, base, [], false, [], 0));
    assert OnEvent(rules, p, batch[0]).stopped;
    assert OnEvents(rules, p, batch) == OnEvent(rules, p, batch[0]);
  }

  // ---- a refusal is for good ----

  /**
    When the client refuses the next event, no run whatever applies that event or any later one: the session
    changes only through events, and none of them is taken before the refused one.
   */
  lemma RefusedCommandStopsDelivery<Layout(!new), Sound(!new)>(
      reading: Skin<ClientState<Layout>>, refresh: (Layout, Ui) -> Layout, capacity: nat,
      base: Shows<Layout>, waiting: bool, actions: seq<Action<Command<Sound>>>, more: seq<Action<Command<Sound>>>)
    requires var rules := SessionRulesOf<Layout, Sound>(reading, refresh, capacity);
      var sys := Run(rules, Start(base, waiting), actions);
      sys.client.last < |sys.log| && rules.apply(sys.client.state, sys.log[sys.client.last]).Rejected?
    ensures var rules := SessionRulesOf<Layout, Sound>(reading, refresh, capacity);
      Run(rules, Start(base, waiting), actions + more).client.last
          == Run(rules, Start(base, waiting), actions).client.last
  {
    var rules := SessionRulesOf<Layout, Sound>(reading, refresh, capacity);
    var sys := Run(rules, Start(base, waiting), actions);
    RulesAre<ClientState<Layout>, Sound>(SessionSkin(reading, refresh), capacity);
    var command := sys.log[sys.client.last];
    hide RulesOf, Perform, SessionSkin, Run;
    forall s | rules.apply(s, command).Rejected?
      ensures rules.apply(rules.apply(s, command).state, command).Rejected?
    {
      CommandRefusedAgain(reading, refresh, s, command);
    }
    RefusalStopsDelivery(rules, base, waiting, actions, more);
  }

  // ---- retained output over runs ----

  lemma TrimmedOverRuns<Layout(!new), Sound(!new)>(
      reading: Skin<ClientState<Layout>>, refresh: (Layout, Ui) -> Layout, capacity: nat,
      base: Shows<Layout>, waiting: bool, actions: seq<Action<Command<Sound>>>, control: string, limit: nat)
    requires Kept(base.session.ui) && |Retained(base.output, control)| <= limit
    requires var rules := SessionRulesOf<Layout, Sound>(reading, refresh, capacity);
      var sys := Run(rules, Start(base, waiting), actions);
      && sys.client.last <= |sys.log|
      && SteadyLimit(SessionSkin(reading, refresh), base, sys.log[..sys.client.last], control, limit)
    ensures var rules := SessionRulesOf<Layout, Sound>(reading, refresh, capacity);
      var sys := Run(rules, Start(base, waiting), actions);
      && sys.client.last <= |sys.log|
      && Retained(sys.client.state.output, control)
           == LastLines(Transcript(SessionSkin(reading, refresh), base, sys.log[..sys.client.last], control), limit)
  {
    var rules := SessionRulesOf<Layout, Sound>(reading, refresh, capacity);
    var skin := SessionSkin(reading, refresh);
    var sys := Run(rules, Start(base, waiting), actions);
    hide SessionSkin, Run, Shown, Presenting, Transcript, Stranded, NeverOverruns, Updates, BrowserUpdates, SteadyLimit;
    hide Accepted, RulesOf, LastLines, Retained, Kept, CloneWindow;
    PresentationIsTheEventLog(reading, refresh, capacity, base, waiting, actions);
    ShownIsPresenting(rules, skin, base, sys.log[..sys.client.last]);
    TrimmedTranscript(skin, base, sys.log[..sys.client.last], control, limit);
  }

  /** After every run the lines a control retains are the last of everything the applied commands wrote to it. */
  lemma RetainedOverRuns<Layout(!new), Sound(!new)>(
      reading: Skin<ClientState<Layout>>, refresh: (Layout, Ui) -> Layout, capacity: nat,
      base: Shows<Layout>, waiting: bool, actions: seq<Action<Command<Sound>>>, control: string, limit: nat)
    requires Kept(base.session.ui) && |Retained(base.output, control)| <= limit
    requires var rules := SessionRulesOf<Layout, Sound>(reading, refresh, capacity);
      var sys := Run(rules, Start(base, waiting), actions);
      && sys.client.last <= |sys.log|
      && SteadyLimit(SessionSkin(reading, refresh), base, sys.log[..sys.client.last], control, limit)
    ensures var rules := SessionRulesOf<Layout, Sound>(reading, refresh, capacity);
      var sys := Run(rules, Start(base, waiting), actions);
      && sys.client.last <= |sys.log|
      && IsTail(Retained(sys.client.state.output, control),
                Transcript(SessionSkin(reading, refresh), base, sys.log[..sys.client.last], control), limit)
  {
    var rules := SessionRulesOf<Layout, Sound>(reading, refresh, capacity);
    var skin := SessionSkin(reading, refresh);
    var sys := Run(rules, Start(base, waiting), actions);
    hide *;
    TrimmedOverRuns(reading, refresh, capacity, base, waiting, actions, control, limit);
    LastLinesAre(Transcript(skin, base, sys.log[..sys.client.last], control), limit);
  }
}
