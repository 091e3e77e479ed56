/**
  The `name=value;name=value` text of window commands: quoting on one side, parsing on the other
  (crates/dm-client/src/transport.rs:1089-1091; crates/dm-dmf/src/lib.rs:1387-1440, 1780-1832).
 */
module Assignments {
  import opened Wrappers
  import opened Collections
  import opened Strings

  datatype Assignment = Assignment(name: string, value: string)

  datatype Fault = MalformedAssignment(source: string) | UnterminatedQuote

  // ---- quoting ----

  function Replace(s: string, c: char, with: string): string {
    if s == "" then "" else (if s[0] == c then with else [s[0]]) + Replace(s[1..], c, with)
  }

  function Quote(value: string): string {
    "\"" + Replace(Replace(value, '\\', "\\\\"), '\"', "\\\"") + "\""
  }

  // ---- the content of a quoted value ----

  datatype QuotedResult = Complete(decoded: string, consumed: nat) | Unterminated | NotQuoted

  /** What a backslash followed by `c` stands for. */
  function Unescaped(c: char, quote: char): string {
    match c
    case 'n' => "\n"
    case 'r' => "\r"
    case 't' => "\t"
    case '\\' => "\\"
    case _ => if c == quote then [c] else ['\\', c]
  }

  /** The text up to the closing quote, and what follows it. */
  function Content(rest: string, quote: char, escaped: bool): Option<(string, string)>
    decreases |rest|
  {
    if rest == "" then None
    else if !escaped && rest[0] == '\\' then Content(rest[1..], quote, true)
    else if !escaped && rest[0] == quote then Some(("", rest[1..]))
    else
      var more := Content(rest[1..], quote, false);
      Extended(if escaped then Unescaped(rest[0], quote) else [rest[0]], more)
  }

  function QuotedText(source: string, quote: char): QuotedResult {
    if source == "" || source[0] != quote then NotQuoted
    else
      var content := Content(source[1..], quote, false);
      if content.None? then Unterminated else
        ContentLeavesSuffix(source[1..], quote, false);
        Complete(content.value.0, |source| - |content.value.1|)
  }

  lemma {:induction false} ContentLeavesSuffix(rest: string, quote: char, escaped: bool)
    ensures var content := Content(rest, quote, escaped);
      content.Some? ==> |content.value.1| < |rest| && content.value.1 == rest[|rest| - |content.value.1|..]
    decreases |rest|
  {
    if rest != "" && (escaped || rest[0] == '\\' || rest[0] != quote) {
      ContentLeavesSuffix(rest[1..], quote, !escaped && rest[0] == '\\');
    }
  }

  function Extended(decoded: string, more: Option<(string, string)>): Option<(string, string)> {
    if more.None? then None else Some((decoded + more.value.0, more.value.1))
  }

  lemma ExtendedTwice(a: string, b: string, more: Option<(string, string)>)
    ensures Extended(a, Extended(b, more)) == Extended(a + b, more)
    ensures Extended("", more) == more
  {
    if more.Some? {
      assert a + (b + more.value.0) == (a + b) + more.value.0;
      assert "" + more.value.0 == more.value.0;
    }
  }

  method QuotedContent(source: string, quote: char) returns (r: QuotedResult)
    ensures r == QuotedText(source, quote)
    ensures r.Complete? ==> 0 < r.consumed <= |source|
  {
    if source == "" || source[0] != quote {
      return NotQuoted;
    }
    ghost var whole := Content(source[1..], quote, false);
    ContentLeavesSuffix(source[1..], quote, false);
    var decoded, escaped := "", false;
    ExtendedTwice("", "", whole);
    for i := 1 to |source|
      invariant whole == Extended(decoded, Content(source[i..], quote, escaped))
    {
      var c := source[i];
      ExtendedTwice(decoded, if escaped then Unescaped(c, quote) else [c], Content(source[i + 1..], quote, false));
      assert source[i..][0] == c && source[i..][1..] == source[i + 1..];
      if escaped {
        decoded := decoded + Unescaped(c, quote);
        escaped := false;
      } else if c == '\\' {
        escaped := true;
      } else if c == quote {
        return Complete(decoded, i + 1);
      } else {
        decoded := decoded + [c];
      }
    }
    r := Unterminated;
  }

  // ---- one assignment ----

  function ParseOne(source: string): Result<Assignment, Fault> {
    var parts := SplitOnce(source, '=');
    var malformed := Failure(MalformedAssignment(Trim(source)));
    if parts.None? || Trim(parts.value.0) == "" then malformed
    else
      var name, value := Trim(parts.value.0), Trim(parts.value.1);
      if value == "" || value[0] !in "\"\'" then Success(Assignment(name, value))
      else
        match QuotedText(value, value[0])
        case Complete(decoded, consumed) =>
          if consumed <= |value| && Trim(value[consumed..]) == "" then Success(Assignment(name, decoded)) else malformed
        case Unterminated => Failure(UnterminatedQuote)
        case NotQuoted => malformed
  }

  method ParseAssignment(source: string) returns (r: Result<Assignment, Fault>)
    ensures r == ParseOne(source)
  {
    var parts := SplitOnce(source, '=');
    if parts.None? {
      return Failure(MalformedAssignment(Trim(source)));
    }
    var name := Trim(parts.value.0);
    if name == "" {
      return Failure(MalformedAssignment(Trim(source)));
    }
    var value := Trim(parts.value.1);
    if value != "" && value[0] in "\"\'" {
      var content := QuotedContent(value, value[0]);
      if content.Unterminated? {
        return Failure(UnterminatedQuote);
      }
      if content.NotQuoted? || Trim(value[content.consumed..]) != "" {
        return Failure(MalformedAssignment(Trim(source)));
      }
      value := content.decoded;
    }
    r := Success(Assignment(name, value));
  }

  // ---- a list of assignments ----

  /** Which quote is open, if any, and whether the next character is escaped. */
  datatype Scan = Scan(quote: Option<char>, escaped: bool)

  const OUTSIDE := Scan(None, false)

  predicate Separates(scan: Scan, c: char) {
    !scan.escaped && scan.quote.None? && c == ';'
  }

  function Advance(scan: Scan, c: char): Scan {
    if scan.escaped then scan.(escaped := false)
    else if c == '\\' && scan.quote.Some? then scan.(escaped := true)
    else if scan.quote == Some(c) then scan.(quote := None)
    else if scan.quote.None? && c in "\"\'" then scan.(quote := Some(c))
    else scan
  }

  function Prepend(first: seq<Assignment>, rest: Result<seq<Assignment>, Fault>): Result<seq<Assignment>, Fault> {
    if rest.Failure? then rest else Success(first + rest.value)
  }

  /** Parses `rest` when `current` is the assignment begun before it. */
  function ParseFrom(rest: string, current: string, scan: Scan): Result<seq<Assignment>, Fault>
    decreases |rest|
  {
    if rest == "" then
      if scan.quote.Some? then Failure(UnterminatedQuote)
      else if Trim(current) == "" then Success([])
      else
        var last := ParseOne(current);
        if last.Failure? then Failure(last.error) else Success([last.value])
    else if Separates(scan, rest[0]) then
      var first := ParseOne(current);
      if first.Failure? then Failure(first.error) else Prepend([first.value], ParseFrom(rest[1..], "", OUTSIDE))
    else ParseFrom(rest[1..], current + [rest[0]], Advance(scan, rest[0]))
  }

  method ParseAssignments(parameters: string) returns (r: Result<seq<Assignment>, Fault>)
    ensures r == ParseFrom(parameters, "", OUTSIDE)
  {
    var assignments: seq<Assignment> := [];
    var start := 0;
    var scan := OUTSIDE;
    ghost var whole := ParseFrom(parameters, "", OUTSIDE);
    assert parameters[0..] == parameters && parameters[0..0] == "";
    assert whole.Success? ==> [] + whole.value == whole.value;
    for i := 0 to |parameters|
      invariant 0 <= start <= i
      invariant whole == Prepend(assignments, ParseFrom(parameters[i..], parameters[start..i], scan))
    {
      var c := parameters[i];
      assert parameters[i..][0] == c && parameters[i..][1..] == parameters[i + 1..];
      if Separates(scan, c) {
        var one := ParseAssignment(parameters[start..i]);
        if one.Failure? {
          return Failure(one.error);
        }
        ghost var more := ParseFrom(parameters[i + 1..], "", OUTSIDE);
        assert more.Success? ==> assignments + ([one.value] + more.value) == (assignments + [one.value]) + more.value;
        assignments := assignments + [one.value];
        start := i + 1;
        assert parameters[start..i + 1] == "";
        scan := OUTSIDE;
      } else {
        assert parameters[start..i + 1] == parameters[start..i] + [c];
        scan := Advance(scan, c);
      }
    }
    assert parameters[start..|parameters|] == parameters[start..] && parameters[|parameters|..] == "";
    if scan.quote.Some? {
      return Failure(UnterminatedQuote);
    }
    assert assignments + [] == assignments;
    if Trim(parameters[start..]) != "" {
      var one := ParseAssignment(parameters[start..]);
      if one.Failure? {
        return Failure(one.error);
      }
      assignments := assignments + [one.value];
    }
    r := Success(assignments);
  }

  // ---- quoting is undone ----

  function Escape(c: char): string {
    if c == '\\' then "\\\\" else if c == '\"' then "\\\"" else [c]
  }

  function EscapeAll(s: string): string {
    if s == "" then "" else Escape(s[0]) + EscapeAll(s[1..])
  }

  lemma ReplaceHead(x: char, rest: string, c: char, with: string)
    ensures Replace([x] + rest, c, with) == (if x == c then with else [x]) + Replace(rest, c, with)
  {
    assert ([x] + rest)[1..] == rest;
  }

  lemma {:induction false} ReplaceAppend(a: string, b: string, c: char, with: string)
    ensures Replace(a + b, c, with) == Replace(a, c, with) + Replace(b, c, with)
  {
    if a == "" {
      assert a + b == b;
      assert Replace(a, c, with) == "";
    } else {
      var first, more := a[0], a[1..];
      ReplaceAppend(more, b, c, with);
      assert a == [first] + more && a + b == [first] + (more + b);
      hide Replace;
      ReplaceHead(first, more, c, with);
      ReplaceHead(first, more + b, c, with);
      Regroup(if first == c then with else [first], Replace(more, c, with), Replace(b, c, with));
    }
  }

  /** The two replacements together escape character by character. */
  lemma {:induction false} QuoteEscapes(s: string)
    ensures Replace(Replace(s, '\\', "\\\\"), '\"', "\\\"") == EscapeAll(s)
  {
    if s != "" {
      QuoteEscapes(s[1..]);
      var head, rest := if s[0] == '\\' then "\\\\" else [s[0]], Replace(s[1..], '\\', "\\\\");
      ReplaceAppend(head, rest, '\"', "\\\"");
      assert Replace(s, '\\', "\\\\") == head + rest;
      EscapeHead(s[0]);
    }
  }

  lemma EscapeHead(c: char)
    ensures Replace(if c == '\\' then "\\\\" else [c], '\"', "\\\"") == Escape(c)
  {
    if c == '\\' {
      assert "\\\\" == ['\\'] + "\\";
      assert Replace("\\", '\"', "\\\"") == "\\";
    } else {
      assert [c][1..] == "";
    }
  }

  lemma {:induction false} ContentOfEscaped(v: string, tail: string)
    ensures Content(EscapeAll(v) + "\"" + tail, '\"', false) == Some((v, tail))
  {
    var text := EscapeAll(v) + "\"" + tail;
    if v == "" {
      assert text[1..] == tail;
    } else {
      ContentOfEscaped(v[1..], tail);
      var more := EscapeAll(v[1..]) + "\"" + tail;
      assert text == Escape(v[0]) + more;
      if v[0] in "\\\"" {
        assert text[1..][0] == v[0] && text[1..][1..] == more;
      } else {
        assert text[1..] == more;
      }
      assert v == [v[0]] + v[1..];
    }
  }

  lemma QuotedValueReads(v: string)
    ensures QuotedText(Quote(v), '\"') == Complete(v, |Quote(v)|)
  {
    QuoteEscapes(v);
    ContentOfEscaped(v, "");
    assert Quote(v)[1..] == EscapeAll(v) + "\"" + "";
  }

  const INSIDE := Scan(Some('\"'), false)

  lemma ScanEscape(c: char, more: string, current: string)
    ensures ParseFrom(Escape(c) + more, current, INSIDE) == ParseFrom(more, current + Escape(c), INSIDE)
  {
    hide ParseOne, Trim;
    var text := Escape(c) + more;
    if c in "\\\"" {
      assert text[1..][0] == c && text[1..][1..] == more;
      assert current + ['\\'] + [c] == current + Escape(c);
    } else {
      assert text[1..] == more;
    }
  }

  lemma ScanClose(tail: string, current: string)
    ensures ParseFrom("\"" + tail, current, INSIDE) == ParseFrom(tail, current + "\"", OUTSIDE)
  {
    hide ParseOne, Trim;
    assert ("\"" + tail)[1..] == tail;
  }

  lemma {:induction false} ScanEscaped(v: string, tail: string, current: string)
    ensures ParseFrom(EscapeAll(v) + "\"" + tail, current, INSIDE)
        == ParseFrom(tail, current + EscapeAll(v) + "\"", OUTSIDE)
  {
    hide ParseFrom, Escape;
    if v == "" {
      ScanClose(tail, current);
      assert EscapeAll(v) + "\"" + tail == "\"" + tail;
      assert current + EscapeAll(v) == current;
    } else {
      var more := EscapeAll(v[1..]) + "\"" + tail;
      assert EscapeAll(v) + "\"" + tail == Escape(v[0]) + more;
      ScanEscape(v[0], more, current);
      ScanEscaped(v[1..], tail, current + Escape(v[0]));
      assert current + Escape(v[0]) + EscapeAll(v[1..]) == current + EscapeAll(v);
    }
  }

  /** A quoted value is scanned as part of the current assignment, whatever it contains. */
  lemma ScanQuoted(v: string, tail: string, current: string)
    ensures ParseFrom(Quote(v) + tail, current, OUTSIDE) == ParseFrom(tail, current + Quote(v), OUTSIDE)
  {
    hide ParseOne, Trim;
    QuoteEscapes(v);
    var text := Quote(v) + tail;
    assert text[0] == '\"' && text[1..] == EscapeAll(v) + "\"" + tail;
    ScanEscaped(v, tail, current + ['\"']);
    assert current + ['\"'] + EscapeAll(v) + "\"" == current + Quote(v);
  }

  // ---- names ----

  /** Scanning the name meets no separator and leaves no quote open. */
  predicate Passes(name: string, scan: Scan) {
    if name == "" then scan.quote.None?
    else !Separates(scan, name[0]) && Passes(name[1..], Advance(scan, name[0]))
  }

  predicate GoodName(name: string) {
    name != "" && Trimmed(name) && '=' !in name && Passes(name, OUTSIDE)
  }

  lemma {:induction false} PlainNamePasses(name: string)
    requires '\"' !in name && '\'' !in name && ';' !in name
    ensures Passes(name, OUTSIDE)
  {
    if name != "" {
      PlainNamePasses(name[1..]);
    }
  }

  /** Trimmed non-empty names free of the equals sign, semicolons and quotes survive with every value. */
  lemma PlainNameRoundTrips(name: string, value: string)
    requires name != "" && Trimmed(name)
    requires '=' !in name && ';' !in name && '\"' !in name && '\'' !in name
    ensures ParseFrom(Written(Assignment(name, value)), "", OUTSIDE) == Success([Assignment(name, value)])
  {
    PlainNamePasses(name);
    RoundTripsIff(name);
  }

  predicate Reachable(scan: Scan) {
    scan.escaped ==> scan.quote.Some?
  }

  lemma {:induction false} ScanName(name: string, tail: string, current: string, scan: Scan)
    requires Passes(name, scan) && Reachable(scan) && '=' !in name
    ensures ParseFrom(name + "=" + tail, current, scan) == ParseFrom(tail, current + name + "=", OUTSIDE)
  {
    var text := name + "=" + tail;
    if name == "" {
      assert text[0] == '=' && text[1..] == tail;
      assert current + name + "=" == current + ['='];
    } else {
      assert text[0] == name[0] && text[1..] == name[1..] + "=" + tail;
      ScanName(name[1..], tail, current + [name[0]], Advance(scan, name[0]));
      assert current + [name[0]] + name[1..] == current + name;
    }
  }

  function Written(a: Assignment): string {
    a.name + "=" + Quote(a.value)
  }

  lemma QuoteIsTrimmed(v: string)
    ensures Trim(Quote(v)) == Quote(v) && Quote(v)[0] == '\"'
  {
    TrimmedIsTrim(Quote(v));
  }

  lemma WrittenParses(a: Assignment)
    requires GoodName(a.name)
    ensures ParseOne(Written(a)) == Success(a) && Trim(Written(a)) != ""
  {
    SplitJoined(a.name, '=', Quote(a.value));
    assert a.name + ['='] + Quote(a.value) == Written(a);
    TrimmedIsTrim(a.name);
    QuoteIsTrimmed(a.value);
    QuotedValueReads(a.value);
    assert Quote(a.value)[|Quote(a.value)|..] == "";
    TrimmedIsTrim(Written(a));
  }

  lemma ScanWritten(a: Assignment, tail: string)
    requires GoodName(a.name)
    ensures ParseFrom(Written(a) + tail, "", OUTSIDE) == ParseFrom(tail, Written(a), OUTSIDE)
  {
    hide ParseFrom, Quote;
    var after := Quote(a.value) + tail;
    assert Written(a) + tail == a.name + "=" + after;
    ScanName(a.name, after, "", OUTSIDE);
    ScanQuoted(a.value, tail, "" + a.name + "=");
    assert "" + a.name + "=" + Quote(a.value) == Written(a);
  }

  // ---- lists ----

  function Joined(list: seq<Assignment>): string {
    if list == [] then ""
    else if |list| == 1 then Written(list[0])
    else Written(list[0]) + ";" + Joined(list[1..])
  }

  predicate GoodNames(list: seq<Assignment>) {
    forall i :: 0 <= i < |list| ==> GoodName(list[i].name)
  }

  /** Joining quoted assignments with semicolons and parsing gives the same list back. */
  lemma {:induction false} ParseInvertsJoin(list: seq<Assignment>)
    requires GoodNames(list)
    ensures ParseFrom(Joined(list), "", OUTSIDE) == Success(list)
  {
    hide ParseOne, Quote, GoodName;
    if list != [] {
      var a := list[0];
      WrittenParses(a);
      if |list| == 1 {
        ScanWritten(a, "");
        assert Written(a) + "" == Written(a);
        assert list == [a];
      } else {
        ParseInvertsJoin(list[1..]);
        var tail := ";" + Joined(list[1..]);
        ScanWritten(a, tail);
        assert Written(a) + tail == Joined(list);
        assert tail[0] == ';' && tail[1..] == Joined(list[1..]);
        assert list == [a] + list[1..];
      }
    }
  }

  // ---- bare values ----

  predicate Plain(s: string) {
    '\"' !in s && '\'' !in s && ';' !in s
  }

  predicate BareAssignment(a: Assignment) {
    && a.name != "" && Trimmed(a.name) && '=' !in a.name && Plain(a.name)
    && Trimmed(a.value) && Plain(a.value)
  }

  function Bare(a: Assignment): string {
    a.name + "=" + a.value
  }

  function BareJoined(list: seq<Assignment>): string {
    if list == [] then ""
    else if |list| == 1 then Bare(list[0])
    else Bare(list[0]) + ";" + BareJoined(list[1..])
  }

  lemma {:induction false} ScanPlain(text: string, tail: string, current: string)
    requires Plain(text)
    ensures ParseFrom(text + tail, current, OUTSIDE) == ParseFrom(tail, current + text, OUTSIDE)
  {
    hide ParseOne, Trim;
    if text == "" {
      EmptySides(tail);
      EmptySides(current);
    } else {
      assert (text + tail)[0] == text[0] && (text + tail)[1..] == text[1..] + tail;
      ScanPlain(text[1..], tail, current + [text[0]]);
      assert current + [text[0]] + text[1..] == current + text;
    }
  }

  lemma BareParses(a: Assignment)
    requires BareAssignment(a)
    ensures ParseOne(Bare(a)) == Success(a) && Trim(Bare(a)) != "" && Plain(Bare(a))
  {
    SplitJoined(a.name, '=', a.value);
    assert a.name + ['='] + a.value == Bare(a);
    TrimmedIsTrim(a.name);
    TrimmedIsTrim(a.value);
    EqualsSurvives(Bare(a), |a.name|);
  }

  lemma {:induction false} EqualsSurvives(s: string, i: nat)
    requires i < |s| && !White(s[i])
    ensures Trim(s) != ""
  {
    TrimStartKeeps(s, i);
    TrimEndKeeps(TrimStart(s));
  }

  lemma {:induction false} TrimStartKeeps(s: string, i: nat)
    requires i < |s| && !White(s[i])
    ensures TrimStart(s) != "" && !White(TrimStart(s)[0])
  {
    if White(s[0]) {
      TrimStartKeeps(s[1..], i - 1);
    }
  }

  lemma {:induction false} TrimEndKeeps(s: string)
    requires s != "" && !White(s[0])
    ensures TrimEnd(s) != ""
  {
    if White(s[|s| - 1]) {
      TrimEndKeeps(s[..|s| - 1]);
    }
  }

  /** Bare assignments joined with semicolons parse to themselves. */
  lemma {:induction false} ParseInvertsBareJoin(list: seq<Assignment>)
    requires forall i :: 0 <= i < |list| ==> BareAssignment(list[i])
    ensures ParseFrom(BareJoined(list), "", OUTSIDE) == Success(list)
  {
    hide ParseOne, Bare, BareAssignment;
    if list != [] {
      var a := list[0];
      BareParses(a);
      EmptySides(Bare(a));
      if |list| == 1 {
        ScanPlain(Bare(a), "", "");
        assert list == [a];
      } else {
        ParseInvertsBareJoin(list[1..]);
        var tail := ";" + BareJoined(list[1..]);
        ScanPlain(Bare(a), tail, "");
        assert Bare(a) + tail == BareJoined(list);
        assert tail[0] == ';' && tail[1..] == BareJoined(list[1..]);
        assert list == [a] + list[1..];
      }
    }
  }

  // ---- exactly which names work ----

  lemma {:induction false} SplitParts(s: string, at: char)
    ensures SplitOnce(s, at).Some? <==> at in s
    ensures SplitOnce(s, at).Some? ==> at !in SplitOnce(s, at).value.0
  {
    if s != "" && s[0] != at {
      SplitParts(s[1..], at);
      assert s == [s[0]] + s[1..];
    }
  }

  /** Whatever parses has a name that is trimmed, non-empty and free of the equals sign. */
  lemma ParsedName(source: string)
    requires ParseOne(source).Success?
    ensures var name := ParseOne(source).value.name; name != "" && Trimmed(name) && '=' !in name
  {
    SplitParts(source, '=');
    TrimIsTrimmed(SplitOnce(source, '=').value.0);
  }

  lemma {:induction false} ParsedNames(rest: string, current: string, scan: Scan)
    requires ParseFrom(rest, current, scan).Success?
    ensures forall a :: a in ParseFrom(rest, current, scan).value ==>
      a.name != "" && Trimmed(a.name) && '=' !in a.name
    decreases |rest|
  {
    if rest == "" {
      if Trim(current) != "" {
        ParsedName(current);
      }
    } else if Separates(scan, rest[0]) {
      ParsedName(current);
      ParsedNames(rest[1..], "", OUTSIDE);
    } else {
      ParsedNames(rest[1..], current + [rest[0]], Advance(scan, rest[0]));
    }
  }

  lemma TwoQuotesStayOpen(scan: Scan, current: string)
    requires scan.quote.Some? && scan.quote.value in "\"\'"
    ensures ParseFrom("=\"\"", current, scan).Failure?
  {
    var a := Advance(scan, '=');
    var b := Advance(a, '\"');
    var c := Advance(b, '\"');
    assert "=\"\""[1..] == "\"\"" && "\"\""[1..] == "\"" && "\""[1..] == "";
    assert c.quote.Some?;
  }

  lemma {:induction false} BadNameFails(name: string, current: string, scan: Scan)
    requires !Passes(name, scan) && '=' !in name && '=' !in current
    requires Reachable(scan) && (scan.quote.Some? ==> scan.quote.value in "\"\'")
    ensures ParseFrom(name + "=\"\"", current, scan).Failure?
  {
    var text := name + "=\"\"";
    if name == "" {
      assert text == "=\"\"";
      TwoQuotesStayOpen(scan, current);
    } else {
      assert text[0] == name[0] && text[1..] == name[1..] + "=\"\"";
      if Separates(scan, name[0]) {
        SplitParts(current, '=');
      } else {
        BadNameFails(name[1..], current + [name[0]], Advance(scan, name[0]));
      }
    }
  }

  /** A name survives quoting and parsing with every value exactly when it is a good name. */
  lemma RoundTripsIff(name: string)
    ensures (forall v :: ParseFrom(Written(Assignment(name, v)), "", OUTSIDE) == Success([Assignment(name, v)]))
       <==> GoodName(name)
  {
    if GoodName(name) {
      forall v
        ensures ParseFrom(Written(Assignment(name, v)), "", OUTSIDE) == Success([Assignment(name, v)])
      {
        ParseInvertsJoin([Assignment(name, v)]);
      }
    } else {
      var a := Assignment(name, "");
      assert Written(a) == name + "=\"\"";
      if name != "" && Trimmed(name) && '=' !in name {
        BadNameFails(name, "", OUTSIDE);
      } else if ParseFrom(Written(a), "", OUTSIDE).Success? {
        ParsedNames(Written(a), "", OUTSIDE);
        assert ParseFrom(Written(a), "", OUTSIDE) != Success([a]) by {
          assert a in [a];
        }
      }
    }
  }
}
