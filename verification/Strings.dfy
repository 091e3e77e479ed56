/** The string operations of the standard library that the client uses. */
module Strings {
  import opened Wrappers

  /** Splits at the first separator. */
  function SplitOnce(s: string, at: char): Option<(string, string)> {
    if s == "" then None
    else if s[0] == at then Some(("", s[1..]))
    else
      var rest := SplitOnce(s[1..], at);
      if rest.None? then None else Some(([s[0]] + rest.value.0, rest.value.1))
  }

  lemma {:induction false} SplitJoined(left: string, at: char, right: string)
    requires at !in left
    ensures SplitOnce(left + [at] + right, at) == Some((left, right))
  {
    var s := left + [at] + right;
    if left == "" {
      assert s[1..] == right;
    } else {
      SplitJoined(left[1..], at, right);
      assert s[1..] == left[1..] + [at] + right;
      assert left == [left[0]] + left[1..];
    }
  }

  /** The Unicode White_Space property. */
  predicate White(c: char) {
    || '\U{9}' <= c <= '\U{D}' || c == ' ' || c == '\U{85}' || c == '\U{A0}' || c == '\U{1680}'
    || '\U{2000}' <= c <= '\U{200A}' || c == '\U{2028}' || c == '\U{2029}' || c == '\U{202F}'
    || c == '\U{205F}' || c == '\U{3000}'
  }

  /** The same characters by code: twenty-five of them. */
  lemma WhiteCodes(c: char)
    ensures White(c) <==> (c as int) in {
        9, 10, 11, 12, 13, 32, 133, 160, 5760, 8192, 8193, 8194, 8195, 8196, 8197, 8198, 8199, 8200, 8201, 8202,
        8232, 8233, 8239, 8287, 12288}
  {
  }

  function TrimStart(s: string): string {
    if s != "" && White(s[0]) then TrimStart(s[1..]) else s
  }

  function TrimEnd(s: string): string {
    if s != "" && White(s[|s| - 1]) then TrimEnd(s[..|s| - 1]) else s
  }

  function Trim(s: string): string {
    TrimEnd(TrimStart(s))
  }

  predicate Trimmed(s: string) {
    s == "" || (!White(s[0]) && !White(s[|s| - 1]))
  }

  lemma TrimmedIsTrim(s: string)
    requires Trimmed(s)
    ensures Trim(s) == s
  {
  }

  lemma {:induction false} TrimEndFacts(s: string)
    ensures TrimEnd(s) <= s && (TrimEnd(s) != "" ==> !White(TrimEnd(s)[|TrimEnd(s)| - 1]))
  {
    if s != "" && White(s[|s| - 1]) {
      TrimEndFacts(s[..|s| - 1]);
    }
  }

  lemma {:induction false} TrimStartFacts(s: string)
    ensures |TrimStart(s)| <= |s| && TrimStart(s) == s[|s| - |TrimStart(s)|..]
    ensures TrimStart(s) != "" ==> !White(TrimStart(s)[0])
  {
    if s != "" && White(s[0]) {
      TrimStartFacts(s[1..]);
    }
  }

  /** Trimming leaves no outer whitespace and takes nothing else. */
  lemma TrimIsTrimmed(s: string)
    ensures Trimmed(Trim(s))
    ensures forall c :: c in Trim(s) ==> c in s
  {
    TrimStartFacts(s);
    TrimEndFacts(TrimStart(s));
    var t := TrimStart(s);
    forall c | c in Trim(s)
      ensures c in s
    {
      var i :| 0 <= i < |Trim(s)| && Trim(s)[i] == c;
      assert t[i] == c;
    }
  }
}
