/**
  Recording a protocol session and playing it back
  (crates/dm-client/src/transport.rs:334-480).
 */
module Replay {
  import opened Wrappers
  import opened MachineIntegers
  import opened Collections
  import opened Codecs

  /** The platform's UTF-8 conversions. */
  datatype Utf8 = Utf8(encode: string -> seq<byte>, decode: seq<byte> -> Option<string>)

  ghost predicate Faithful(u: Utf8) {
    && (forall s :: u.decode(u.encode(s)) == Some(s))
    && (forall b :: u.decode(b).Some? ==> u.encode(u.decode(b).value) == b)
  }

  /** One request and its reply. */
  datatype Exchange = Exchange(command: string, response: string)

  datatype Fault = NotAReplay | Truncated | NotText | NoResponse(command: string)

  const MAGIC: seq<byte> := [0x44, 0x36, 0x34, 0x52, 0x45, 0x50, 0x4C, 0x41, 0x59, 0x00, 0x01]   // "D64REPLAY\0\x01"

  /** Nine letters, a zero and a one. */
  lemma MagicSpells()
    ensures |MAGIC| == 11 && Spells(MAGIC[..9], "D64REPLAY") && MAGIC[9..] == [0, 1]
  {
  }

  // ---- blobs ----

  predicate Fits(text: seq<byte>) {
    |text| < U32_LIMIT
  }

  function Blob(text: seq<byte>): seq<byte> {
    LittleEndian(4, |text|) + text
  }

  /** A blob and what follows it; nothing when the input ends before it does. */
  function ReadBlob(input: seq<byte>): Option<(seq<byte>, seq<byte>)> {
    if |input| < 4 then None
    else
      var length := FromLittleEndian(input[..4]);
      if |input| - 4 < length then None else Some((input[4..4 + length], input[4 + length..]))
  }

  lemma BlobReads(text: seq<byte>, rest: seq<byte>)
    requires Fits(text)
    ensures ReadBlob(Blob(text) + rest) == Some((text, rest))
  {
    Widths();
    LittleEndianRoundTrip(4, |text|);
    var input := Blob(text) + rest;
    assert input[..4] == LittleEndian(4, |text|);
    assert input[4..4 + |text|] == text && input[4 + |text|..] == rest;
  }

  lemma ReadIsBlob(input: seq<byte>)
    requires ReadBlob(input).Some?
    ensures var (text, rest) := ReadBlob(input).value; Fits(text) && input == Blob(text) + rest
  {
    Widths();
    FromLittleEndianRoundTrip(input[..4]);
    var (text, rest) := ReadBlob(input).value;
    assert input == input[..4] + (text + rest);
    Regroup(input[..4], text, rest);
  }

  // ---- the file ----

  function EntryBytes(u: Utf8, e: Exchange): seq<byte> {
    Blob(u.encode(e.command)) + Blob(u.encode(e.response))
  }

  /** The command comes first; each text stands behind its length in four bytes. */
  lemma EntryIs(u: Utf8, e: Exchange)
    ensures var command, response := u.encode(e.command), u.encode(e.response);
      EntryBytes(u, e) == LittleEndian(4, |command|) + command + LittleEndian(4, |response|) + response
  {
    Regroup(LittleEndian(4, |u.encode(e.command)|) + u.encode(e.command),
      LittleEndian(4, |u.encode(e.response)|), u.encode(e.response));
  }

  function FileBytes(u: Utf8, entries: seq<Exchange>): seq<byte> {
    if entries == [] then [] else EntryBytes(u, entries[0]) + FileBytes(u, entries[1..])
  }

  function AddEntry(e: Exchange, rest: Result<seq<Exchange>, Fault>): Result<seq<Exchange>, Fault> {
    if rest.Failure? then rest else Success([e] + rest.value)
  }

  /** Fewer than four bytes where a command would begin are the end of the recording. */
  function ReadEntries(u: Utf8, input: seq<byte>): Result<seq<Exchange>, Fault>
    decreases |input|
  {
    if |input| < 4 then Success([])
    else
      var command := ReadBlob(input);
      var response := if command.Some? then ReadBlob(command.value.1) else None;
      if response.None? then Failure(Truncated)
      else
        var asked, told := u.decode(command.value.0), u.decode(response.value.0);
        if asked.None? || told.None? then Failure(NotText)
        else AddEntry(Exchange(asked.value, told.value), ReadEntries(u, response.value.1))
  }

  predicate EntryFits(u: Utf8, e: Exchange) {
    Fits(u.encode(e.command)) && Fits(u.encode(e.response))
  }

  lemma EntryReads(u: Utf8, e: Exchange, rest: seq<byte>)
    requires Faithful(u) && EntryFits(u, e)
    ensures ReadEntries(u, EntryBytes(u, e) + rest) == AddEntry(e, ReadEntries(u, rest))
  {
    var command, response := Blob(u.encode(e.command)), Blob(u.encode(e.response));
    Regroup(command, response, rest);
    BlobReads(u.encode(e.command), response + rest);
    BlobReads(u.encode(e.response), rest);
  }

  predicate AllFit(u: Utf8, entries: seq<Exchange>) {
    forall i :: 0 <= i < |entries| ==> EntryFits(u, entries[i])
  }

  /** Reading a recording gives back its entries. */
  lemma {:induction false} FileReads(u: Utf8, entries: seq<Exchange>)
    requires Faithful(u) && AllFit(u, entries)
    ensures ReadEntries(u, FileBytes(u, entries)) == Success(entries)
  {
    if entries != [] {
      FileReads(u, entries[1..]);
      EntryReads(u, entries[0], FileBytes(u, entries[1..]));
      assert entries == [entries[0]] + entries[1..];
    }
  }

  /** Whatever reads as a recording is one, up to an incomplete length at the end. */
  lemma {:induction false} ReadIsFile(u: Utf8, input: seq<byte>) returns (tail: seq<byte>)
    requires Faithful(u) && ReadEntries(u, input).Success?
    ensures |tail| < 4 && input == FileBytes(u, ReadEntries(u, input).value) + tail
    decreases |input|
  {
    if |input| < 4 {
      tail := input;
    } else {
      var (command, after) := ReadBlob(input).value;
      var (response, rest) := ReadBlob(after).value;
      ReadIsBlob(input);
      ReadIsBlob(after);
      tail := ReadIsFile(u, rest);
      var entries := ReadEntries(u, rest).value;
      Regroup(Blob(command), Blob(response), rest);
      Regroup(Blob(command) + Blob(response), FileBytes(u, entries), tail);
      assert ReadEntries(u, input).value[1..] == entries;
    }
  }

  lemma PrefixBlob(text: seq<byte>, rest: seq<byte>, n: nat)
    requires Fits(text) && n <= |Blob(text) + rest|
    ensures var cut := (Blob(text) + rest)[..n];
      ReadBlob(cut) == if n < |Blob(text)| then None else Some((text, rest[..n - |Blob(text)|]))
  {
    Widths();
    LittleEndianRoundTrip(4, |text|);
    var cut := (Blob(text) + rest)[..n];
    if n < |Blob(text)| {
      if n >= 4 {
        assert cut[..4] == LittleEndian(4, |text|);
      }
    } else {
      assert cut == Blob(text) + rest[..n - |Blob(text)|];
      BlobReads(text, rest[..n - |Blob(text)|]);
    }
  }

  lemma CutEntry(u: Utf8, e: Exchange, more: seq<byte>, n: nat)
    requires Faithful(u) && EntryFits(u, e) && n <= |EntryBytes(u, e)| + |more|
    ensures var read := ReadEntries(u, (EntryBytes(u, e) + more)[..n]);
      if n < 4 then read == Success([])
      else if n < |EntryBytes(u, e)| then read == Failure(Truncated)
      else read == AddEntry(e, ReadEntries(u, more[..n - |EntryBytes(u, e)|]))
  {
    hide ReadBlob, Blob;
    var command, response := Blob(u.encode(e.command)), Blob(u.encode(e.response));
    Regroup(command, response, more);
    PrefixBlob(u.encode(e.command), response + more, n);
    if n >= |command| {
      PrefixBlob(u.encode(e.response), more, n - |command|);
    }
  }

  /** A recording cut short anywhere is refused or plays a prefix of the session; it never plays anything else. */
  lemma {:induction false} CutRecordingIsPrefix(u: Utf8, entries: seq<Exchange>, n: nat)
    requires Faithful(u) && AllFit(u, entries) && n <= |FileBytes(u, entries)|
    ensures var read := ReadEntries(u, FileBytes(u, entries)[..n]);
      read == Failure(Truncated) || (read.Success? && read.value <= entries)
  {
    if entries != [] {
      var e := entries[0];
      CutEntry(u, e, FileBytes(u, entries[1..]), n);
      hide ReadEntries, EntryBytes;
      if n >= 4 && n >= |EntryBytes(u, e)| {
        CutRecordingIsPrefix(u, entries[1..], n - |EntryBytes(u, e)|);
        assert entries == [e] + entries[1..];
      }
    }
  }

  // ---- recording ----

  const RESOURCE := "resource "

  predicate IsResource(command: string) {
    RESOURCE <= command
  }

  function Resources(session: seq<Exchange>): (r: set<string>)
    ensures forall c :: c in r <==> IsResource(c) && exists i :: 0 <= i < |session| && session[i].command == c
  {
    set i | 0 <= i < |session| && IsResource(session[i].command) :: session[i].command
  }

  /** What is written of a session: a resource request only the first time. */
  function Kept(session: seq<Exchange>): seq<Exchange> {
    if session == [] then []
    else
      var n := |session| - 1;
      if session[n].command in Resources(session[..n]) then Kept(session[..n]) else Kept(session[..n]) + [session[n]]
  }

  class ReplayRecorder {
    var file: seq<byte>
    var recordedResources: set<string>

    constructor ()
      ensures file == MAGIC && recordedResources == {}
    {
      file, recordedResources := MAGIC, {};
    }

    predicate Holds(u: Utf8, session: seq<Exchange>)
      reads this
    {
      file == MAGIC + FileBytes(u, Kept(session)) && recordedResources == Resources(session)
    }

    /** Appends one exchange; a blob of four gigabytes or more is refused. */
    method Record(u: Utf8, command: string, response: string, ghost session: seq<Exchange>) returns (ok: bool)
      requires Holds(u, session)
      modifies this
      ensures ok ==> Holds(u, session + [Exchange(command, response)])
      ensures EntryFits(u, Exchange(command, response)) ==> ok
    {
      var e := Exchange(command, response);
      ghost var longer := session + [e];
      assert longer[..|session|] == session;
      ResourcesGrow(session, e);
      if IsResource(command) {
        if command in recordedResources {
          return true;
        }
        recordedResources := recordedResources + {command};
      }
      if !Fits(u.encode(command)) {
        return false;
      }
      file := file + Blob(u.encode(command));
      if !Fits(u.encode(response)) {
        return false;
      }
      file := file + Blob(u.encode(response));
      FileAppend(u, Kept(session), e);
      Regroup(MAGIC + FileBytes(u, Kept(session)), Blob(u.encode(command)), Blob(u.encode(response)));
      Regroup(MAGIC, FileBytes(u, Kept(session)), EntryBytes(u, e));
      ok := true;
    }
  }

  lemma ResourcesGrow(session: seq<Exchange>, e: Exchange)
    ensures Resources(session + [e]) == Resources(session) + if IsResource(e.command) then {e.command} else {}
  {
    var longer := session + [e];
    forall c | c in Resources(session) || (IsResource(e.command) && c == e.command)
      ensures c in Resources(longer)
    {
      if c == e.command && IsResource(c) {
        assert longer[|session|].command == c;
      } else {
        var i :| 0 <= i < |session| && session[i].command == c;
        assert longer[i].command == c;
      }
    }
  }

  lemma {:induction false} FileAppend(u: Utf8, entries: seq<Exchange>, e: Exchange)
    ensures FileBytes(u, entries + [e]) == FileBytes(u, entries) + EntryBytes(u, e)
  {
    if entries == [] {
      assert entries + [e] == [e] && [e][1..] == [];
    } else {
      FileAppend(u, entries[1..], e);
      assert (entries + [e])[1..] == entries[1..] + [e];
      Regroup(EntryBytes(u, entries[0]), FileBytes(u, entries[1..]), EntryBytes(u, e));
    }
  }

  // ---- playback ----

  /** The replies recorded for one command, in order. */
  function RepliesTo(entries: seq<Exchange>, command: string): seq<string> {
    if entries == [] then []
    else
      var n := |entries| - 1;
      var before := RepliesTo(entries[..n], command);
      if entries[n].command == command then before + [entries[n].response] else before
  }

  datatype Player = Player(responses: map<string, seq<string>>, repeatable: map<string, string>)

  function Queue(p: Player, command: string): seq<string> {
    if command in p.responses then p.responses[command] else []
  }

  function Load(entries: seq<Exchange>): Player {
    if entries == [] then Player(map[], map[])
    else
      var n := |entries| - 1;
      var p, e := Load(entries[..n]), entries[n];
      Player(p.responses[e.command := Queue(p, e.command) + [e.response]],
             if IsResource(e.command) then p.repeatable[e.command := e.response] else p.repeatable)
  }

  const IGNORED := ["browser_topic", "client_command", "screen_pointer", "map_pointer", "prompt_response"]

  function IgnoredKind(command: string, kinds: seq<string>): Option<string> {
    if kinds == [] then None
    else if kinds[0] + " " <= command then Some(kinds[0])
    else IgnoredKind(command, kinds[1..])
  }

  /** The answer once every recorded reply to the command is used up. */
  function Fallback(p: Player, command: string): Result<string, Fault> {
    if "ui_events " <= command then Success("ok ui_events count=0\n")
    else
      var kind := IgnoredKind(command, IGNORED);
      if kind.Some? then Success("ok " + kind.value + " replay=ignored\n")
      else if command in p.repeatable then Success(p.repeatable[command])
      else if IsResource(command) then Success("ok resource datahex=")
      else Failure(NoResponse(command))
  }

  function Answer(p: Player, command: string): Result<string, Fault> {
    if Queue(p, command) != [] then Success(Queue(p, command)[0]) else Fallback(p, command)
  }

  function Next(p: Player, command: string): Player {
    if Queue(p, command) == [] then p else p.(responses := p.responses[command := Queue(p, command)[1..]])
  }

  function Play(p: Player, commands: seq<string>): Player {
    if commands == [] then p else Next(Play(p, commands[..|commands| - 1]), commands[|commands| - 1])
  }

  function Times(commands: seq<string>, command: string): nat {
    if commands == [] then 0
    else Times(commands[..|commands| - 1], command) + if commands[|commands| - 1] == command then 1 else 0
  }

  lemma IgnoredStep(command: string, i: nat, prefix: string)
    requires i < |IGNORED| && prefix == IGNORED[i] + " "
    ensures IgnoredKind(command, IGNORED[i..]) ==
        if prefix <= command then Some(IGNORED[i]) else IgnoredKind(command, IGNORED[i + 1..])
  {
    assert IGNORED[i..][1..] == IGNORED[i + 1..];
  }

  lemma IgnoredKinds(command: string)
    ensures IgnoredKind(command, IGNORED) ==
        if "browser_topic " <= command then Some("browser_topic")
        else if "client_command " <= command then Some("client_command")
        else if "screen_pointer " <= command then Some("screen_pointer")
        else if "map_pointer " <= command then Some("map_pointer")
        else if "prompt_response " <= command then Some("prompt_response")
        else None
  {
    assert IGNORED[0..] == IGNORED && IGNORED[5..] == [];
    assert IgnoredKind(command, []) == None;
    hide IgnoredKind;
    IgnoredStep(command, 0, "browser_topic ");
    IgnoredStep(command, 1, "client_command ");
    IgnoredStep(command, 2, "screen_pointer ");
    IgnoredStep(command, 3, "map_pointer ");
    IgnoredStep(command, 4, "prompt_response ");
  }

  lemma BeginsWith(command: string, prefix: string)
    requires prefix != "" && prefix <= command
    ensures command[0] == prefix[0]
  {
  }

  function Ignored(kind: string): Result<string, Fault> {
    Success("ok " + kind + " replay=ignored\n")
  }

  /** Once its recorded replies are used up, every kind of command has its own answer, and the rest are refused. */
  lemma ExhaustedAnswers(p: Player, command: string)
    requires Queue(p, command) == []
    ensures "ui_events " <= command ==> Answer(p, command) == Success("ok ui_events count=0\n")
    ensures "browser_topic " <= command ==> Answer(p, command) == Ignored("browser_topic")
    ensures "client_command " <= command ==> Answer(p, command) == Ignored("client_command")
    ensures "screen_pointer " <= command ==> Answer(p, command) == Ignored("screen_pointer")
    ensures "map_pointer " <= command ==> Answer(p, command) == Ignored("map_pointer")
    ensures "prompt_response " <= command ==> Answer(p, command) == Ignored("prompt_response")
    ensures "resource " <= command ==> Answer(p, command) == Success(
        if command in p.repeatable then p.repeatable[command] else "ok resource datahex=")
    ensures !Answered(command) ==> (Answer(p, command) ==
        if command in p.repeatable then Success(p.repeatable[command]) else Failure(NoResponse(command)))
  {
    hide IgnoredKind;
    IgnoredKinds(command);
    var prefixes := ["ui_events ", "browser_topic ", "client_command ", "screen_pointer ", "map_pointer ",
                     "prompt_response ", "resource "];
    forall i | 0 <= i < |prefixes| && prefixes[i] <= command
      ensures command != "" && command[0] == prefixes[i][0]
    {
      BeginsWith(command, prefixes[i]);
    }
    assert "ui_events " <= command ==> command[0] == prefixes[0][0];
    assert "browser_topic " <= command ==> command[0] == prefixes[1][0];
    assert "client_command " <= command ==> command[0] == prefixes[2][0];
    assert "screen_pointer " <= command ==> command[0] == prefixes[3][0];
    assert "map_pointer " <= command ==> command[0] == prefixes[4][0];
    assert "prompt_response " <= command ==> command[0] == prefixes[5][0];
    assert "resource " <= command ==> command[0] == prefixes[6][0];
  }

  predicate Answered(command: string) {
    || "ui_events " <= command || "resource " <= command
    || "browser_topic " <= command || "client_command " <= command
    || "screen_pointer " <= command || "map_pointer " <= command || "prompt_response " <= command
  }

  class ReplayReader {
    var responses: map<string, seq<string>>
    var repeatableResources: map<string, string>

    function State(): Player
      reads this
    {
      Player(responses, repeatableResources)
    }

    constructor (entries: seq<Exchange>)
      ensures State() == Load(entries)
    {
      var queues: map<string, seq<string>> := map[];
      var resources: map<string, string> := map[];
      for i := 0 to |entries|
        invariant Player(queues, resources) == Load(entries[..i])
      {
        assert entries[..i + 1][..i] == entries[..i];
        var e := entries[i];
        if IsResource(e.command) {
          resources := resources[e.command := e.response];
        }
        queues := queues[e.command := (if e.command in queues then queues[e.command] else []) + [e.response]];
      }
      assert entries[..|entries|] == entries;
      responses, repeatableResources := queues, resources;
    }

    method Issue(command: string) returns (r: Result<string, Fault>)
      modifies this
      ensures r == Answer(old(State()), command) && State() == Next(old(State()), command)
    {
      if command in responses && responses[command] != [] {
        r := Success(responses[command][0]);
        responses := responses[command := responses[command][1..]];
        return;
      }
      r := Fallback(State(), command);
    }
  }

  /** Opens a recording. */
  method OpenReplay(u: Utf8, input: seq<byte>) returns (r: Result<ReplayReader, Fault>)
    ensures r.Success? <==> MAGIC <= input && ReadEntries(u, input[|MAGIC|..]).Success?
    ensures r.Success? ==> fresh(r.value) && r.value.State() == Load(ReadEntries(u, input[|MAGIC|..]).value)
  {
    if !(MAGIC <= input) {
      return Failure(NotAReplay);
    }
    var rest := input[|MAGIC|..];
    var entries: seq<Exchange> := [];
    ghost var whole := ReadEntries(u, rest);
    assert whole.Success? ==> [] + whole.value == whole.value;
    while |rest| >= 4
      invariant whole == var more := ReadEntries(u, rest); if more.Failure? then more else Success(entries + more.value)
      decreases |rest|
    {
      var command := ReadBlob(rest);
      if command.None? {
        return Failure(Truncated);
      }
      var response := ReadBlob(command.value.1);
      if response.None? {
        return Failure(Truncated);
      }
      var asked, told := u.decode(command.value.0), u.decode(response.value.0);
      if asked.None? || told.None? {
        return Failure(NotText);
      }
      ghost var more := ReadEntries(u, response.value.1);
      var e := Exchange(asked.value, told.value);
      assert more.Success? ==> entries + ([e] + more.value) == (entries + [e]) + more.value;
      entries := entries + [e];
      rest := response.value.1;
    }
    assert entries + [] == entries;
    var reader := new ReplayReader(entries);
    r := Success(reader);
  }

  // ---- what playback answers ----

  lemma {:induction false} LoadQueues(entries: seq<Exchange>, command: string)
    ensures Queue(Load(entries), command) == RepliesTo(entries, command)
  {
    if entries != [] {
      LoadQueues(entries[..|entries| - 1], command);
    }
  }

  lemma {:induction false} PlayQueues(p: Player, commands: seq<string>, command: string)
    ensures Play(p, commands).repeatable == p.repeatable
    ensures var k := Times(commands, command);
      Queue(Play(p, commands), command) == if k <= |Queue(p, command)| then Queue(p, command)[k..] else []
  {
    if commands != [] {
      PlayQueues(p, commands[..|commands| - 1], command);
    }
  }

  lemma RepliesPush(entries: seq<Exchange>, e: Exchange, command: string)
    ensures RepliesTo(entries + [e], command)
         == if e.command == command then RepliesTo(entries, command) + [e.response] else RepliesTo(entries, command)
  {
    assert (entries + [e])[..|entries|] == entries;
  }

  lemma ResourceAdded(session: seq<Exchange>, e: Exchange, command: string)
    ensures command in Resources(session + [e]) <==>
      command in Resources(session) || (IsResource(command) && command == e.command)
  {
    ResourcesGrow(session, e);
  }

  lemma KeptPush(session: seq<Exchange>, e: Exchange)
    ensures Kept(session + [e]) == if e.command in Resources(session) then Kept(session) else Kept(session) + [e]
  {
    assert (session + [e])[..|session|] == session;
  }

  function FirstOnly(replies: seq<string>): seq<string> {
    if replies == [] then [] else [replies[0]]
  }

  /** The file keeps every reply to an ordinary command and the first reply to a resource. */
  lemma {:induction false} KeptReplies(session: seq<Exchange>, command: string)
    ensures RepliesTo(Kept(session), command)
         == if IsResource(command) then FirstOnly(RepliesTo(session, command)) else RepliesTo(session, command)
    ensures command in Resources(session) <==> IsResource(command) && RepliesTo(session, command) != []
  {
    if session != [] {
      var before, e := session[..|session| - 1], session[|session| - 1];
      KeptReplies(before, command);
      assert session == before + [e];
      hide Kept, Resources, RepliesTo, IsResource;
      ResourceAdded(before, e, command);
      KeptPush(before, e);
      RepliesPush(before, e, command);
      RepliesPush(Kept(before), e, command);
    }
  }

  lemma {:induction false} LoadRepeats(entries: seq<Exchange>, command: string)
    requires IsResource(command) && RepliesTo(entries, command) != []
    ensures command in Load(entries).repeatable
    ensures Load(entries).repeatable[command] == RepliesTo(entries, command)[|RepliesTo(entries, command)| - 1]
  {
    var n := |entries| - 1;
    if entries[n].command != command {
      LoadRepeats(entries[..n], command);
    }
  }

  lemma {:induction false} NoKind(command: string, kinds: seq<string>)
    requires forall kind :: kind in kinds ==> !(kind + " " <= command)
    ensures IgnoredKind(command, kinds).None?
  {
    if kinds != [] {
      assert kinds[0] in kinds;
      NoKind(command, kinds[1..]);
    }
  }

  lemma ResourceIsNoOther(command: string)
    requires IsResource(command)
    ensures !("ui_events " <= command) && IgnoredKind(command, IGNORED).None?
  {
    assert command[0] == 'r' && command[..9] == RESOURCE;
    forall kind | kind in IGNORED
      ensures !(kind + " " <= command)
    {
      assert (kind + " ")[0] == kind[0] != 'r';
    }
    NoKind(command, IGNORED);
  }

  /**
    Recording a session, reopening the file and issuing commands in any interleaving: the k-th issue of a
    command gets its k-th recorded reply, as long as the session had that many, exactly when the command is not
    a resource request or the session's k-th reply to it equals the first.
   */
  lemma PlaybackRepeatsSessionIff(u: Utf8, session: seq<Exchange>, commands: seq<string>, command: string)
    requires Faithful(u) && AllFit(u, Kept(session))
    requires Times(commands, command) < |RepliesTo(session, command)|
    ensures var read := ReadEntries(u, (MAGIC + FileBytes(u, Kept(session)))[|MAGIC|..]);
      var replies, k := RepliesTo(session, command), Times(commands, command);
      && read.Success?
      && (Answer(Play(Load(read.value), commands), command) == Success(replies[k])
          <==> (IsResource(command) ==> replies[k] == replies[0]))
  {
    var kept, k := Kept(session), Times(commands, command);
    assert (MAGIC + FileBytes(u, kept))[|MAGIC|..] == FileBytes(u, kept);
    FileReads(u, kept);
    LoadQueues(kept, command);
    PlayQueues(Load(kept), commands, command);
    KeptReplies(session, command);
    hide FileBytes, ReadEntries, Kept, Load, Play, RepliesTo, Times, IgnoredKind, IsResource, AllFit, Faithful, Queue;
    if IsResource(command) {
      ResourceIsNoOther(command);
      LoadRepeats(kept, command);
    }
  }

  /** However often a recorded resource is requested, playback answers with its first reply. */
  lemma ResourceGetsFirstReply(u: Utf8, session: seq<Exchange>, commands: seq<string>, command: string)
    requires Faithful(u) && AllFit(u, Kept(session)) && IsResource(command)
    requires Times(commands, command) < |RepliesTo(session, command)|
    ensures var read := ReadEntries(u, (MAGIC + FileBytes(u, Kept(session)))[|MAGIC|..]);
      && read.Success?
      && Answer(Play(Load(read.value), commands), command) == Success(RepliesTo(session, command)[0])
  {
    var kept := Kept(session);
    assert (MAGIC + FileBytes(u, kept))[|MAGIC|..] == FileBytes(u, kept);
    FileReads(u, kept);
    LoadQueues(kept, command);
    PlayQueues(Load(kept), commands, command);
    KeptReplies(session, command);
    hide FileBytes, ReadEntries, Kept, Load, Play, RepliesTo, Times, IgnoredKind, IsResource, AllFit, Faithful, Queue;
    ResourceIsNoOther(command);
    LoadRepeats(kept, command);
  }

  /** A session that requests a resource twice and gets two replies plays the first one twice. */
  lemma SecondReplyIsForgotten(u: Utf8, name: string, first: string, second: string)
    requires Faithful(u) && EntryFits(u, Exchange(RESOURCE + name, first)) && first != second
    ensures var command := RESOURCE + name;
      var session := [Exchange(command, first), Exchange(command, second)];
      var read := ReadEntries(u, (MAGIC + FileBytes(u, Kept(session)))[|MAGIC|..]);
      && RepliesTo(session, command) == [first, second] && read.Success?
      && Answer(Play(Load(read.value), []), command) == Success(first)
      && Answer(Play(Load(read.value), [command]), command) == Success(first) != Success(second)
  {
    var command := RESOURCE + name;
    var once := [Exchange(command, first)];
    var session := [Exchange(command, first), Exchange(command, second)];
    assert session == once + [Exchange(command, second)] && once == [] + [Exchange(command, first)];
    RepliesPush([], Exchange(command, first), command);
    RepliesPush(once, Exchange(command, second), command);
    assert once[0].command == command;
    KeptPush([], Exchange(command, first));
    KeptPush(once, Exchange(command, second));
    assert Kept(session) == once;
    assert Times([command], command) == 1 && Times([], command) == 0;
    hide Kept, Load, Play, RepliesTo, Times, FileBytes, ReadEntries, Queue, Faithful;
    ResourceGetsFirstReply(u, session, [], command);
    ResourceGetsFirstReply(u, session, [command], command);
  }
}
