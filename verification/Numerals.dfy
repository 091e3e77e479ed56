/** Unsigned numerals as the standard library prints and parses them. */
module Numerals {
  import opened Wrappers

  function DigitOf(c: char): nat {
    if '0' <= c <= '9' then c as int - '0' as int
    else if 'a' <= c <= 'z' then c as int - 'a' as int + 10
    else if 'A' <= c <= 'Z' then c as int - 'A' as int + 10
    else 36
  }

  function DigitChar(d: nat): char
    requires d < 16
  {
    "0123456789abcdef"[d]
  }

  predicate AllDigits(s: string, radix: nat) {
    forall i :: 0 <= i < |s| ==> DigitOf(s[i]) < radix
  }

  function ValueOf(s: string, radix: nat): nat {
    if s == "" then 0
    else ValueOf(s[..|s| - 1], radix) * radix + DigitOf(s[|s| - 1])
  }

  /** An optional plus sign and at least one digit, with a value no larger than `limit`. */
  function Parse(s: string, radix: nat, limit: nat): Option<nat> {
    var digits := if s != "" && s[0] == '+' then s[1..] else s;
    if digits == "" || !AllDigits(digits, radix) || ValueOf(digits, radix) > limit then None
    else Some(ValueOf(digits, radix))
  }

  function Print(n: nat, radix: nat): (s: string)
    requires 2 <= radix <= 16
    ensures s != "" && s[0] != '+'
    decreases n
  {
    if n < radix then [DigitChar(n)]
    else
      Shrinks(n, radix);
      Print(n / radix, radix) + [DigitChar(n % radix)]
  }

  lemma Shrinks(n: nat, radix: nat)
    requires 2 <= radix <= n
    ensures 0 <= n / radix < n && n / radix * radix + n % radix == n
  {
    var q := n / radix;
    assert q * radix + n % radix == n;
    Grows(q, radix);
  }

  lemma Grows(q: nat, radix: nat)
    requires 2 <= radix
    ensures q * 2 <= q * radix
  {
  }

  lemma DigitRoundTrips(d: nat)
    requires d < 16
    ensures DigitOf(DigitChar(d)) == d
  {
  }

  lemma PushDigit(s: string, c: char, radix: nat)
    ensures ValueOf(s + [c], radix) == ValueOf(s, radix) * radix + DigitOf(c)
  {
    assert (s + [c])[..|s|] == s;
  }

  lemma OneDigit(c: char, radix: nat)
    ensures ValueOf([c], radix) == DigitOf(c)
  {
    PushDigit("", c, radix);
    assert "" + [c] == [c];
  }

  lemma {:induction false} PrintIsValue(n: nat, radix: nat)
    requires 2 <= radix <= 16
    ensures AllDigits(Print(n, radix), radix) && ValueOf(Print(n, radix), radix) == n
    decreases n
  {
    hide DigitOf, DigitChar, ValueOf;
    if n < radix {
      DigitRoundTrips(n);
      OneDigit(DigitChar(n), radix);
    } else {
      var high, low := n / radix, n % radix;
      Shrinks(n, radix);
      PrintIsValue(high, radix);
      DigitRoundTrips(low);
      PushDigit(Print(high, radix), DigitChar(low), radix);
    }
  }

  lemma ParsePrinted(n: nat, radix: nat, limit: nat)
    requires 2 <= radix <= 16 && n <= limit
    ensures Parse(Print(n, radix), radix, limit) == Some(n)
  {
    PrintIsValue(n, radix);
  }

  predicate DecimalDigit(c: char) {
    '0' <= c <= '9'
  }

  predicate HexDigit(c: char) {
    '0' <= c <= '9' || 'a' <= c <= 'f' || 'A' <= c <= 'F'
  }

  /** What is accepted: an optional plus sign, then one or more digits of the radix, up to the limit. */
  lemma ParseAccepts(s: string, limit: nat)
    ensures var digits := if s != "" && s[0] == '+' then s[1..] else s;
      && (Parse(s, 10, limit).Some? <==>
            digits != "" && (forall c :: c in digits ==> DecimalDigit(c)) && ValueOf(digits, 10) <= limit)
      && (Parse(s, 16, limit).Some? <==>
            digits != "" && (forall c :: c in digits ==> HexDigit(c)) && ValueOf(digits, 16) <= limit)
  {
    DigitsIff(if s != "" && s[0] == '+' then s[1..] else s);
    hide ValueOf, AllDigits, DecimalDigit, HexDigit;
  }

  lemma DigitsIff(s: string)
    ensures AllDigits(s, 10) <==> forall c :: c in s ==> DecimalDigit(c)
    ensures AllDigits(s, 16) <==> forall c :: c in s ==> HexDigit(c)
  {
    DigitIff();
    hide DigitOf, DecimalDigit, HexDigit;
    if forall c :: c in s ==> DecimalDigit(c) {
      assert forall i :: 0 <= i < |s| ==> s[i] in s;
    }
    if forall c :: c in s ==> HexDigit(c) {
      assert forall i :: 0 <= i < |s| ==> s[i] in s;
    }
  }

  lemma DigitIff()
    ensures forall c :: DigitOf(c) < 10 <==> DecimalDigit(c)
    ensures forall c :: DigitOf(c) < 16 <==> HexDigit(c)
  {
  }
}
