/**
  The client's presentation of inbound UI commands, and the client loop that feeds it
  (crates/dm-client/src/ui_commands.rs:66-76, 172-285; crates/dm-client/src/main.rs:1604-1689, 2014-2032).
 */
module UiCommands {
  import opened Wrappers
  import opened Collections
  import opened Strings
  import opened UiDelivery

  datatype PromptKind = TextPrompt | MessagePrompt | NumberPrompt | ColorPrompt | FilePrompt | ListPrompt | AlertPrompt

  datatype Prompt = Prompt(id: nat, kind: PromptKind, title: string, message: string, default: string,
                           choices: seq<string>, canCancel: bool, edit: string, selected: nat)

  datatype Command<+Sound> =
    | Link(url: string)
    | WinSet(control: string, parameters: string)
    | Output(target: Option<string>, message: string)
    | BrowseResource(name: string, data: seq<bv8>)
    | Browse(window: string, html: string)
    | Ask(prompt: Prompt)
    | Play(sound: Sound)

  datatype Update<+Sound> =
    | OpenLink(url: string)
    | Html(control: string, html: string)
    | Resource(control: string, path: string)
    | Script(control: string, script: string)
    | Audio(sound: Sound)

  /** A named browser asset. */
  datatype Asset = Asset(name: string, data: seq<bv8>)

  /** The presentation's fields together with the session and layout it is applied to. */
  datatype Presented<+Session> = Presented(
    html: map<string, string>,
    output: map<string, seq<string>>,
    resources: map<string, seq<bv8>>,
    prompts: seq<Prompt>,
    session: Session)

  /** What the presentation asks of the session, the skin layout and the resource names. */
  datatype Skin<!Session> = Skin(
    winset: (Session, string, string) -> (Session, bool),
    ensureBrowser: (Session, string) -> (Session, bool),
    present: (Session, string) -> bool,
    firstOutput: Session -> Option<string>,
    scriptTarget: (Session, string) -> Option<string>,
    outputControl: (Session, string) -> Option<string>,
    browserControl: (Session, string) -> Option<string>,
    lineLimit: (Session, string) -> nat,
    scriptCall: (string, string) -> string,
    resourcePath: string -> Option<string>,
    lines: string -> seq<string>)

  // ---- one command ----

  function LastLines(lines: seq<string>, limit: nat): seq<string> {
    if |lines| > limit then lines[|lines| - limit..] else lines
  }

  function Retained(output: map<string, seq<string>>, control: string): seq<string> {
    if control in output then output[control] else []
  }

  /** The first index of the default choice, or the first choice. */
  function Selected(choices: seq<string>, default: string): (i: nat)
    ensures default in choices ==> i < |choices| && choices[i] == default && default !in choices[..i]
    ensures default !in choices ==> i == 0
  {
    if choices == [] || choices[0] == default || default !in choices then 0
    else
      assert choices == [choices[0]] + choices[1..];
      var rest := Selected(choices[1..], default);
      assert choices[..rest + 1] == [choices[0]] + choices[1..][..rest];
      rest + 1
  }

  function ShowOutput<Session, Sound>(skin: Skin<Session>, s: Presented<Session>, control: string, message: string)
    : Outcome<Presented<Session>, Update<Sound>>
  {
    var parts := SplitOnce(control, ':');
    var target := if parts.Some? then skin.scriptTarget(s.session, parts.value.0) else None;
    if target.Some? then Applied(s, Some(Script(target.value, skin.scriptCall(parts.value.1, message))))
    else
      var output := skin.outputControl(s.session, control);
      if output.Some? then
        var lines := Retained(s.output, output.value) + skin.lines(message);
        var kept := LastLines(lines, skin.lineLimit(s.session, output.value));
        Applied(s.(output := s.output[output.value := kept]), None)
      else
        var browser := skin.browserControl(s.session, control);
        var path := skin.resourcePath(message);
        if browser.None? || path.None? then Rejected(s) else Applied(s, Some(Resource(browser.value, path.value)))
  }

  function ShowPage<Session, Sound>(skin: Skin<Session>, s: Presented<Session>, window: string, html: string)
    : Outcome<Presented<Session>, Update<Sound>>
  {
    var missing := window != "" && !skin.present(s.session, window);
    var (session, ok) := if missing then skin.ensureBrowser(s.session, window) else (s.session, true);
    if !ok then Rejected(s.(session := session))
    else
      var resolved := skin.browserControl(session, window);
      var key := if resolved.Some? then resolved.value else window;
      Applied(s.(session := session, html := s.html[key := html]),
              if resolved.Some? then Some(Html(resolved.value, html)) else None)
  }

  function Perform<Session, Sound>(skin: Skin<Session>, s: Presented<Session>, command: Command<Sound>)
    : Outcome<Presented<Session>, Update<Sound>>
  {
    match command
    case Link(url) => Applied(s, Some(OpenLink(url)))
    case WinSet(control, parameters) =>
      var (session, ok) := skin.winset(s.session, control, parameters);
      if ok then Applied(s.(session := session), None) else Rejected(s.(session := session))
    case Output(target, message) =>
      var control := if target.Some? then target else skin.firstOutput(s.session);
      if control.None? then Rejected(s) else ShowOutput(skin, s, control.value, message)
    case BrowseResource(name, data) =>
      var path := skin.resourcePath(name);
      if path.None? then Rejected(s) else Applied(s.(resources := s.resources[path.value := data]), None)
    case Browse(window, html) => ShowPage(skin, s, window, html)
    case Ask(prompt) =>
      var asked := prompt.(edit := prompt.default, selected := Selected(prompt.choices, prompt.default));
      Applied(s.(prompts := s.prompts + [asked]), None)
    case Play(sound) => Applied(s, Some(Audio(sound)))
  }

  function AssetOf<Session, Sound>(skin: Skin<Session>, command: Command<Sound>): Option<Asset> {
    if command.BrowseResource? && skin.resourcePath(command.name).Some? then
      Some(Asset(skin.resourcePath(command.name).value, command.data))
    else None
  }

  type UiRules<!Session, !Sound> = Rules<Presented<Session>, Command<Sound>, Update<Sound>, Asset>

  function RulesOf<Session, Sound>(skin: Skin<Session>, capacity: nat): UiRules<Session, Sound> {
    Rules((s, c) => Perform(skin, s, c), c => AssetOf(skin, c), capacity)
  }

  lemma RulesAre<Session(!new), Sound(!new)>(skin: Skin<Session>, capacity: nat)
    ensures var rules := RulesOf<Session, Sound>(skin, capacity);
      && rules.capacity == capacity
      && (forall s, c :: rules.apply(s, c) == Perform(skin, s, c))
      && (forall c :: rules.resource(c) == AssetOf(skin, c))
  {
  }

  // ---- one commit each ----

  lemma CommandsCommitOnce<Session(!new), Sound(!new)>(skin: Skin<Session>, capacity: nat)
    ensures OneCommitEach(RulesOf<Session, Sound>(skin, capacity))
  {
    var rules := RulesOf<Session, Sound>(skin, capacity);
    forall s: Presented<Session>, c: Command<Sound> | rules.resource(c).Some? && rules.apply(s, c).Applied?
      ensures rules.apply(s, c).update.None?
    {
      assert rules.apply(s, c) == Perform(skin, s, c) && rules.resource(c) == AssetOf(skin, c);
    }
  }

  /** A question waits behind those asked before it,
      its answer preset to the default and to the default's first place. */
  lemma AskWaitsItsTurn<Session, Sound>(skin: Skin<Session>, s: Presented<Session>, prompt: Prompt)
    ensures var outcome := Perform<Session, Sound>(skin, s, Ask(prompt));
      exists i :: 0 <= i <= |prompt.choices| &&
        outcome == Applied(s.(prompts := s.prompts + [prompt.(edit := prompt.default, selected := i)]), None) &&
        (if prompt.default in prompt.choices
         then i < |prompt.choices| && prompt.choices[i] == prompt.default && prompt.default !in prompt.choices[..i]
         else i == 0)
  {
    var i := Selected(prompt.choices, prompt.default);
  }

  /** Links and sounds go to the browser owner and change nothing of the presentation. */
  lemma OwnersCommands<Session, Sound>(skin: Skin<Session>, s: Presented<Session>, url: string, sound: Sound)
    ensures Perform<Session, Sound>(skin, s, Link(url)) == Applied(s, Some(OpenLink(url)))
    ensures Perform(skin, s, Play(sound)) == Applied(s, Some(Audio(sound)))
  {
  }

  // ---- the presentation after a log of commands ----

  function Presenting<Session, Sound>(
      skin: Skin<Session>, base: Presented<Session>, log: seq<Command<Sound>>): Presented<Session>
  {
    if log == [] then base
    else Perform(skin, Presenting(skin, base, log[..|log| - 1]), log[|log| - 1]).state
  }

  lemma {:induction false} ShownIsPresenting<Session(!new), Sound(!new)>(
      rules: UiRules<Session, Sound>, skin: Skin<Session>, base: Presented<Session>, log: seq<Command<Sound>>)
    requires rules == RulesOf(skin, rules.capacity)
    ensures Shown(rules.apply, base, log) == Presenting(skin, base, log)
  {
    if log != [] {
      var n := |log| - 1;
      ShownIsPresenting(rules, skin, base, log[..n]);
      assert rules.apply(Presenting(skin, base, log[..n]), log[n])
          == Perform(skin, Presenting(skin, base, log[..n]), log[n]);
    }
  }

  /** No later command of the log stores an asset under `path`. */
  ghost predicate LastStored<Session, Sound>(
      skin: Skin<Session>, log: seq<Command<Sound>>, k: int, path: string)
  {
    && 0 <= k < |log| && log[k].BrowseResource? && skin.resourcePath(log[k].name) == Some(path)
    && forall j :: k < j < |log| && log[j].BrowseResource? ==> skin.resourcePath(log[j].name) != Some(path)
  }

  /** The asset kept under a path is the last one sent for it. */
  lemma {:induction false} LastAssetIsKept<Session, Sound>(
      skin: Skin<Session>, base: Presented<Session>, log: seq<Command<Sound>>, k: int, path: string)
    requires LastStored(skin, log, k, path)
    ensures var resources := Presenting(skin, base, log).resources; path in resources && resources[path] == log[k].data
  {
    var n := |log| - 1;
    if k < n {
      LastAssetIsKept(skin, base, log[..n], k, path);
    }
    hide Presenting;
    StepKeepsAssets(skin, Presenting(skin, base, log[..n]), log[n], path);
    assert Presenting(skin, base, log) == Perform(skin, Presenting(skin, base, log[..n]), log[n]).state by {
      LastStep(skin, base, log);
    }
  }

  lemma LastStep<Session, Sound>(skin: Skin<Session>, base: Presented<Session>, log: seq<Command<Sound>>)
    requires log != []
    ensures var n := |log| - 1;
      Presenting(skin, base, log) == Perform(skin, Presenting(skin, base, log[..n]), log[n]).state
  {
  }

  lemma StepKeepsAssets<Session, Sound>(
      skin: Skin<Session>, s: Presented<Session>, command: Command<Sound>, path: string)
    ensures var after := Perform(skin, s, command).state.resources;
      if command.BrowseResource? && skin.resourcePath(command.name) == Some(path)
      then path in after && after[path] == command.data
      else (path in after <==> path in s.resources) && (path in s.resources ==> after[path] == s.resources[path])
  {
  }

  // ---- retained output ----

  lemma TrimOnce(a: seq<string>, b: seq<string>, limit: nat)
    ensures LastLines(LastLines(a, limit) + b, limit) == LastLines(a + b, limit)
  {
  }

  /** As many lines as the limit allows, and line for line the end of `all`. */
  ghost predicate IsTail(kept: seq<string>, all: seq<string>, limit: nat) {
    && |kept| == (if |all| <= limit then |all| else limit)
    && forall k :: 0 <= k < |kept| ==> kept[k] == all[|all| - |kept| + k]
  }

  lemma LastLinesAre(all: seq<string>, limit: nat)
    ensures IsTail(LastLines(all, limit), all, limit)
  {
  }

  /** The lines one command adds to an output control, if it is the one addressed. */
  function LinesTo<Session, Sound>(skin: Skin<Session>, s: Presented<Session>, command: Command<Sound>, control: string)
    : Option<seq<string>>
  {
    if !command.Output? then None
    else
      var target := if command.target.Some? then command.target else skin.firstOutput(s.session);
      if target.None? then None
      else
        var parts := SplitOnce(target.value, ':');
        if parts.Some? && skin.scriptTarget(s.session, parts.value.0).Some? then None
        else if skin.outputControl(s.session, target.value) == Some(control) then Some(skin.lines(command.message))
        else None
  }

  /** Everything ever written to a control, after what it started with. */
  function Transcript<Session, Sound>(
      skin: Skin<Session>, base: Presented<Session>, log: seq<Command<Sound>>, control: string): seq<string>
  {
    if log == [] then Retained(base.output, control)
    else
      var n := |log| - 1;
      var lines := LinesTo(skin, Presenting(skin, base, log[..n]), log[n], control);
      Transcript(skin, base, log[..n], control) + if lines.Some? then lines.value else []
  }

  lemma PerformRetains<Session, Sound>(
      skin: Skin<Session>, s: Presented<Session>, command: Command<Sound>, control: string)
    ensures var lines := LinesTo(skin, s, command, control);
      Retained(Perform(skin, s, command).state.output, control)
        == if lines.None? then Retained(s.output, control)
           else LastLines(Retained(s.output, control) + lines.value, skin.lineLimit(s.session, control))
  {
  }

  /** At no event of the log does the control's limit differ from `limit`. */
  predicate SteadyLimit<Session, Sound>(
      skin: Skin<Session>, base: Presented<Session>, log: seq<Command<Sound>>, control: string, limit: nat)
  {
    forall k :: 0 <= k < |log| ==>
      skin.lineLimit(Presenting(skin, base, log[..k]).session, control) == limit
  }

  lemma SteadyPrefix<Session, Sound>(
      skin: Skin<Session>, base: Presented<Session>, log: seq<Command<Sound>>, n: nat, control: string, limit: nat)
    requires n <= |log| && SteadyLimit(skin, base, log, control, limit)
    ensures SteadyLimit(skin, base, log[..n], control, limit)
  {
    hide Presenting;
    forall k | 0 <= k < n
      ensures skin.lineLimit(Presenting(skin, base, log[..n][..k]).session, control) == limit
    {
      assert log[..n][..k] == log[..k];
    }
  }

  /**
    Trimming after every event keeps the same lines as trimming the whole transcript once: as many as the limit
    allows, and counted from the end the lines of the transcript.
   */
  lemma OutputIsTranscriptTail<Session, Sound>(
      skin: Skin<Session>, base: Presented<Session>, log: seq<Command<Sound>>, control: string, limit: nat)
    requires SteadyLimit(skin, base, log, control, limit) && |Retained(base.output, control)| <= limit
    ensures IsTail(Retained(Presenting(skin, base, log).output, control), Transcript(skin, base, log, control), limit)
  {
    hide Presenting, Transcript, SteadyLimit, LastLines;
    TrimmedTranscript(skin, base, log, control, limit);
    LastLinesAre(Transcript(skin, base, log, control), limit);
  }

  lemma {:induction false} TrimmedTranscript<Session, Sound>(
      skin: Skin<Session>, base: Presented<Session>, log: seq<Command<Sound>>, control: string, limit: nat)
    requires SteadyLimit(skin, base, log, control, limit) && |Retained(base.output, control)| <= limit
    ensures Retained(Presenting(skin, base, log).output, control)
         == LastLines(Transcript(skin, base, log, control), limit)
  {
    if log != [] {
      var n := |log| - 1;
      SteadyPrefix(skin, base, log, n, control, limit);
      TrimmedTranscript(skin, base, log[..n], control, limit);
      var before := Presenting(skin, base, log[..n]);
      PerformRetains(skin, before, log[n], control);
      assert skin.lineLimit(Presenting(skin, base, log[..n]).session, control) == limit;
      hide Perform, LastLines, LinesTo;
      var lines := LinesTo(skin, before, log[n], control);
      if lines.Some? {
        TrimOnce(Transcript(skin, base, log[..n], control), lines.value, limit);
      } else {
        EmptySides(Transcript(skin, base, log[..n], control));
      }
    }
  }

  /**
    A message for an output control: the lines kept are the last of those from before and its own, as many as
    the limit allows, and other controls keep theirs.
   */
  lemma OutputShowsMessage<Session, Sound>(
      skin: Skin<Session>, s: Presented<Session>, target: string, message: string, control: string)
    requires SplitOnce(target, ':').None? || skin.scriptTarget(s.session, SplitOnce(target, ':').value.0).None?
    requires skin.outputControl(s.session, target) == Some(control)
    ensures var outcome := Perform<Session, Sound>(skin, s, Output(Some(target), message));
      var all := Retained(s.output, control) + skin.lines(message);
      var kept, limit := Retained(outcome.state.output, control), skin.lineLimit(s.session, control);
      && outcome == Applied(s.(output := s.output[control := kept]), None)
      && IsTail(kept, all, limit)
      && (skin.lines(message) != [] && limit > 0 ==>
            kept != [] && kept[|kept| - 1] == skin.lines(message)[|skin.lines(message)| - 1])
  {
    hide SplitOnce, LastLines;
    LastLinesAre(Retained(s.output, control) + skin.lines(message), skin.lineLimit(s.session, control));
  }

  // ---- the objects ----

  class UiPresentation<Session(!new), Sound(!new)> {
    const skin: Skin<Session>
    var lastSequence: nat
    var browserHtml: map<string, string>
    var outputText: map<string, seq<string>>
    var browserResources: map<string, seq<bv8>>
    var pendingPrompts: seq<Prompt>
    ghost var takenPrompts: seq<Prompt>

    /** The prompts of the presentation are all those ever asked; the ones already taken come first. */
    ghost function State(session: Session): Presented<Session>
      reads this
    {
      Presented(browserHtml, outputText, browserResources, takenPrompts + pendingPrompts, session)
    }

    constructor (skin: Skin<Session>)
      ensures this.skin == skin && lastSequence == 0 && pendingPrompts == [] && takenPrompts == []
      ensures forall session :: State(session) == Presented(map[], map[], map[], [], session)
    {
      this.skin := skin;
      lastSequence := 0;
      browserHtml, outputText, browserResources, pendingPrompts, takenPrompts := map[], map[], map[], [], [];
    }

    /** The prompt asked longest ago is taken from the queue. */
    method PopPrompt() returns (prompt: Option<Prompt>)
      modifies this`pendingPrompts, this`takenPrompts
      ensures forall session :: State(session) == old(State(session))
      ensures old(pendingPrompts) == [] ==> prompt == None && pendingPrompts == []
      ensures old(pendingPrompts) != [] ==>
        && prompt == Some(old(pendingPrompts)[0]) && pendingPrompts == old(pendingPrompts)[1..]
      ensures takenPrompts == old(takenPrompts) + if prompt.Some? then [prompt.value] else []
    {
      if pendingPrompts == [] {
        return None;
      }
      prompt := Some(pendingPrompts[0]);
      Regroup(takenPrompts, [pendingPrompts[0]], pendingPrompts[1..]);
      assert pendingPrompts == [pendingPrompts[0]] + pendingPrompts[1..];
      takenPrompts, pendingPrompts := takenPrompts + [pendingPrompts[0]], pendingPrompts[1..];
    }

    /** Applies a command once; a sequence already applied has no effect. */
    method Apply(sequence: nat, command: Command<Sound>, session: Session)
      returns (applied: bool, update: Option<Update<Sound>>, after: Session)
      modifies this
      ensures takenPrompts == old(takenPrompts)
      ensures sequence <= old(lastSequence) ==>
        applied && update == None && State(after) == old(State(session)) && lastSequence == old(lastSequence)
      ensures sequence > old(lastSequence) ==>
        var outcome := Perform(skin, old(State(session)), command);
        && State(after) == outcome.state && applied == outcome.Applied?
        && update == (if outcome.Applied? then outcome.update else None)
        && lastSequence == if outcome.Applied? then sequence else old(lastSequence)
    {
      after, update := session, None;
      if sequence <= lastSequence {
        return true, None, session;
      }
      match command {
      case Link(url) =>
        update := Some(OpenLink(url));
      case WinSet(control, parameters) =>
        var reply := skin.winset(session, control, parameters);
        after := reply.0;
        if !reply.1 {
          return false, None, after;
        }
      case Output(target, message) =>
        var control := if target.Some? then target else skin.firstOutput(session);
        if control.None? {
          return false, None, session;
        }
        applied, update := AppendOutput(control.value, message, session);
        if !applied {
          return;
        }
      case BrowseResource(name, data) =>
        var path := skin.resourcePath(name);
        if path.None? {
          return false, None, session;
        }
        browserResources := browserResources[path.value := data];
      case Browse(window, html) =>
        if window != "" && !skin.present(session, window) {
          var reply := skin.ensureBrowser(session, window);
          after := reply.0;
          if !reply.1 {
            return false, None, after;
          }
        }
        var resolved := skin.browserControl(after, window);
        if resolved.Some? {
          browserHtml := browserHtml[resolved.value := html];
          update := Some(Html(resolved.value, html));
        } else {
          browserHtml := browserHtml[window := html];
        }
      case Ask(prompt) =>
        var asked := prompt.(edit := prompt.default, selected := Selected(prompt.choices, prompt.default));
        Regroup(takenPrompts, pendingPrompts, [asked]);
        pendingPrompts := pendingPrompts + [asked];
      case Play(sound) =>
        update := Some(Audio(sound));
      }
      lastSequence := sequence;
      applied := true;
    }

    method AppendOutput(control: string, message: string, session: Session)
      returns (applied: bool, update: Option<Update<Sound>>)
      modifies this
      ensures var outcome := ShowOutput<Session, Sound>(skin, old(State(session)), control, message);
        && State(session) == outcome.state && applied == outcome.Applied?
        && update == (if outcome.Applied? then outcome.update else None)
      ensures lastSequence == old(lastSequence) && takenPrompts == old(takenPrompts)
    {
      var parts := SplitOnce(control, ':');
      if parts.Some? {
        var target := skin.scriptTarget(session, parts.value.0);
        if target.Some? {
          return true, Some(Script(target.value, skin.scriptCall(parts.value.1, message)));
        }
      }
      var output := skin.outputControl(session, control);
      if output.Some? {
        var lines := Retained(outputText, output.value) + skin.lines(message);
        outputText := outputText[output.value := LastLines(lines, skin.lineLimit(session, output.value))];
        return true, None;
      }
      var browser := skin.browserControl(session, control);
      var path := skin.resourcePath(message);
      if browser.None? || path.None? {
        return false, None;
      }
      return true, Some(Resource(browser.value, path.value));
    }
  }

  /**
    The part of the client that polls, defers during the startup snapshot, applies and acknowledges.
    `delivered` is everything the owner loop has run.
   */
  class LocalClient<Session(!new), Sound(!new)> {
    const presentation: UiPresentation<Session, Sound>
    const ownerCommands: UiOwnerCommandQueue<Commit<Update<Sound>, Asset>>
    const generation: nat
    var session: Session
    var startupSnapshotActive: bool
    var deferredLiveUi: seq<Numbered<Command<Sound>>>
    var delivered: seq<Commit<Update<Sound>, Asset>>
    var activePrompt: Option<Prompt>
    ghost var missed: nat
    ghost var finishedPrompts: seq<Prompt>

    ghost const Repr: set<object> := {this, presentation, ownerCommands}

    /** The prompts taken from the presentation are the finished ones and the active one. */
    ghost predicate PromptsInOrder()
      reads Repr
    {
      presentation.takenPrompts == finishedPrompts + if activePrompt.Some? then [activePrompt.value] else []
    }

    /** Every prompt the client has taken over: the finished ones, the active one and those waiting for it. */
    ghost function Prompts(): seq<Prompt>
      reads this, presentation
    {
      finishedPrompts + (if activePrompt.Some? then [activePrompt.value] else []) + presentation.pendingPrompts
    }

    /** Between calls the owner queue is empty, and no prompt waits while none is active. */
    ghost predicate Valid()
      reads Repr
    {
      && ownerCommands.Valid() && ownerCommands.generation == generation
      && |ownerCommands.commands| == 0
      && PromptsInOrder() && (activePrompt.None? ==> presentation.pendingPrompts == [])
    }

    ghost function State(): Client<Presented<Session>, Command<Sound>, Update<Sound>, Asset>
      reads Repr
    {
      Client(presentation.lastSequence, presentation.State(session), deferredLiveUi, startupSnapshotActive,
             delivered, missed)
    }

    ghost function UiRulesHere(): UiRules<Session, Sound>
      reads this, presentation, ownerCommands
    {
      RulesOf(presentation.skin, ownerCommands.capacity)
    }

    constructor (skin: Skin<Session>, session: Session, generation: nat, capacity: nat, startup: bool)
      ensures Valid() && fresh(Repr)
      ensures presentation.skin == skin && ownerCommands.capacity == capacity
      ensures State() == Client(0, Presented(map[], map[], map[], [], session), [], startup, [], 0)
    {
      presentation := new UiPresentation(skin);
      ownerCommands := new UiOwnerCommandQueue(generation, capacity);
      this.session, this.generation, startupSnapshotActive := session, generation, startup;
      deferredLiveUi, delivered, missed := [], [], 0;
      activePrompt, finishedPrompts := None, [];
    }

    ghost function PassNow(acknowledged: Option<nat>, stopped: bool)
      : Pass<Presented<Session>, Update<Sound>, Asset>
      reads Repr
    {
      Pass(presentation.lastSequence, presentation.State(session), ownerCommands.Pending(), missed,
           acknowledged, stopped)
    }

    /** Runs every queued owner command. */
    method DrainUiOwnerCommands()
      requires ownerCommands.Valid()
      modifies this`delivered, ownerCommands
      ensures ownerCommands.Valid() && ownerCommands.generation == old(ownerCommands.generation)
      ensures |ownerCommands.commands| == 0 && delivered == old(delivered) + old(ownerCommands.Pending())
    {
      while true
        invariant ownerCommands.Valid() && ownerCommands.generation == old(ownerCommands.generation)
        invariant delivered + ownerCommands.Pending() == old(delivered) + old(ownerCommands.Pending())
        decreases |ownerCommands.commands|
      {
        var command := ownerCommands.PopCurrent();
        if command.None? {
          return;
        }
        delivered := delivered + [command.value];
      }
    }

    /** Activates the prompt asked longest ago, if none is active. */
    method ActivatePrompt()
      requires PromptsInOrder()
      modifies this`activePrompt, presentation
      ensures PromptsInOrder() && (activePrompt.None? ==> presentation.pendingPrompts == [])
      ensures State() == old(State())
    {
      if activePrompt.None? {
        activePrompt := presentation.PopPrompt();
      }
    }

    /** An answered prompt makes room for the one asked next; an answer that was not sent changes nothing. */
    method FinishActivePrompt(sent: bool)
      requires Valid()
      modifies this`activePrompt, this`finishedPrompts, presentation
      ensures Valid() && State() == old(State()) && State().state.prompts == Prompts()
      ensures finishedPrompts == old(finishedPrompts)
        + if sent && old(activePrompt).Some? then [old(activePrompt).value] else []
    {
      if activePrompt.Some? && sent {
        finishedPrompts := finishedPrompts + [activePrompt.value];
        activePrompt := presentation.PopPrompt();
      }
    }

    /** Queues the resource a command carries, if any; a full owner queue ends the batch. */
    method CommitResource(command: Command<Sound>, acknowledged: Option<nat>) returns (stopped: bool)
      requires ownerCommands.Valid() && ownerCommands.generation == generation
      requires |ownerCommands.Pending()| == |ownerCommands.commands|
      modifies ownerCommands
      ensures ownerCommands.Valid() && ownerCommands.generation == generation
      ensures |ownerCommands.Pending()| == |ownerCommands.commands|
      ensures PassNow(acknowledged, stopped) == OnResource(UiRulesHere(), old(PassNow(acknowledged, false)), command)
    {
      hide Perform, AssetOf;
      RulesAre<Session, Sound>(presentation.skin, ownerCommands.capacity);
      hide RulesOf;
      var asset := AssetOf(presentation.skin, command);
      stopped := false;
      if asset.Some? {
        var pushed := ownerCommands.Push(generation, ResourceCommit(asset.value));
        stopped := !pushed;
      }
    }

    /** One event of a batch; a full owner queue or a refusal ends the batch. */
    method ApplyEvent(n: Numbered<Command<Sound>>, acknowledged: Option<nat>) returns (now: Option<nat>, stopped: bool)
      requires ownerCommands.Valid() && ownerCommands.generation == generation
      requires |ownerCommands.Pending()| == |ownerCommands.commands|
      modifies Repr
      ensures ownerCommands.Valid() && ownerCommands.generation == generation
      ensures |ownerCommands.Pending()| == |ownerCommands.commands|
      ensures deferredLiveUi == old(deferredLiveUi) && startupSnapshotActive == old(startupSnapshotActive)
      ensures delivered == old(delivered) && activePrompt == old(activePrompt) &&
          finishedPrompts == old(finishedPrompts)
      ensures presentation.takenPrompts == old(presentation.takenPrompts)
      ensures PassNow(now, stopped) == OnEvent(UiRulesHere(), old(PassNow(acknowledged, false)), n)
    {
      hide Perform, OnResource;
      RulesAre<Session, Sound>(presentation.skin, ownerCommands.capacity);
      hide RulesOf;
      now := acknowledged;
      var applied, update, after := presentation.Apply(n.sequence, n.event, session);
      session := after;
      if update.Some? {
        var pushed := ownerCommands.Push(generation, BrowserCommit(update.value));
        if !pushed {
          missed := missed + 1;
          return now, true;
        }
      }
      if !applied {
        return now, true;
      }
      now := Some(n.sequence);
      stopped := CommitResource(n.event, now);
    }

    /** The events of a batch, up to the first that ends it. */
    method ApplyEvents(events: seq<Numbered<Command<Sound>>>) returns (acknowledged: Option<nat>)
      requires Valid()
      modifies Repr
      ensures ownerCommands.Valid() && ownerCommands.generation == generation && PromptsInOrder()
      ensures deferredLiveUi == old(deferredLiveUi) && startupSnapshotActive == old(startupSnapshotActive)
      ensures delivered == old(delivered) && finishedPrompts == old(finishedPrompts)
      ensures exists stopped ::
        PassNow(acknowledged, stopped) == OnEvents(UiRulesHere(), old(PassNow(None, false)), events)
    {
      acknowledged := None;
      ghost var rules, begin := UiRulesHere(), PassNow(None, false);
      var i, stopped := 0, false;
      while i < |events| && !stopped
        invariant 0 <= i <= |events|
        invariant ownerCommands.Valid() && ownerCommands.generation == generation
        invariant |ownerCommands.Pending()| == |ownerCommands.commands|
        invariant deferredLiveUi == old(deferredLiveUi) && startupSnapshotActive == old(startupSnapshotActive)
        invariant delivered == old(delivered) && finishedPrompts == old(finishedPrompts)
        invariant activePrompt == old(activePrompt) && presentation.takenPrompts == old(presentation.takenPrompts)
        invariant OnEvents(rules, begin, events) == OnEvents(rules, PassNow(acknowledged, stopped), events[i..])
      {
        assert events[i..][0] == events[i] && events[i..][1..] == events[i + 1..];
        acknowledged, stopped := ApplyEvent(events[i], acknowledged);
        i := i + 1;
      }
      assert PassNow(acknowledged, stopped) == OnEvents(rules, begin, events);
    }

    /** A poll's events, if any arrived; the result is the sequence to acknowledge. */
    method ApplyInboundUi(polled: Option<seq<Numbered<Command<Sound>>>>) returns (acknowledged: Option<nat>)
      requires Valid()
      modifies Repr
      ensures Valid() && finishedPrompts == old(finishedPrompts) && State().state.prompts == Prompts()
      ensures (State(), acknowledged) == Receive(UiRulesHere(), old(State()), polled)
    {
      hide OnEvents, RulesOf;
      acknowledged := None;
      if polled.None? {
        return;
      }
      if startupSnapshotActive {
        deferredLiveUi := deferredLiveUi + polled.value;
        return;
      }
      var events := deferredLiveUi + polled.value;
      deferredLiveUi := [];
      acknowledged := ApplyEvents(events);
      DrainUiOwnerCommands();
      ActivatePrompt();
    }
  }
}
