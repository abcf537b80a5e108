/**
 * The text side of the SHADOW ray files: lines split into whitespace
 * separated tokens the way java.util.Scanner splits them, integers written
 * as java.util.Formatter's "%d" writes them and read back as
 * Scanner.nextInt reads them.
 */
module TextFormat {
  import opened Wrappers
  import opened Bytes

  /** The characters Character.isWhitespace accepts in the ASCII range; Scanner splits tokens on runs of them. */
  predicate IsSpace(c: char)
  {
    c == ' ' || c == '\t' || c == '\n' || c == '\U{B}' || c == '\U{C}' || c == '\r'
    || ('\U{1C}' <= c <= '\U{1F}')
  }

  /** A non-empty run of non-space characters. */
  predicate IsToken(t: string)
  {
    |t| > 0 && forall i :: 0 <= i < |t| ==> !IsSpace(t[i])
  }

  /** The non-space characters at the front of s. */
  function LeadingToken(s: string): (t: string)
    ensures |t| <= |s| && t == s[..|t|]
    ensures forall i :: 0 <= i < |t| ==> !IsSpace(t[i])
    ensures |t| < |s| ==> IsSpace(s[|t|])
  {
    if s == [] || IsSpace(s[0]) then [] else [s[0]] + LeadingToken(s[1..])
  }

  /** The tokens of a line, in the order Scanner.next / nextInt / nextDouble return them. */
  function Tokens(s: string): (ts: seq<string>)
    ensures forall i :: 0 <= i < |ts| ==> IsToken(ts[i])
    decreases |s|
  {
    if s == [] then []
    else if IsSpace(s[0]) then Tokens(s[1..])
    else
      var t := LeadingToken(s);
      [t] + Tokens(s[|t|..])
  }

  /** A token followed by a space or the end of the line is read whole. */
  lemma {:induction false} LeadingTokenOf(t: string, rest: string)
    requires forall i :: 0 <= i < |t| ==> !IsSpace(t[i])
    requires rest == [] || IsSpace(rest[0])
    ensures LeadingToken(t + rest) == t
  {
    if t != [] {
      assert (t + rest)[1..] == t[1..] + rest;
      LeadingTokenOf(t[1..], rest);
    }
  }

  /** The first token of `t + rest` is t when a space or the end of the line follows it. */
  lemma SingleToken(t: string, rest: string)
    requires IsToken(t)
    requires rest == [] || IsSpace(rest[0])
    ensures Tokens(t + rest) == [t] + Tokens(rest)
  {
    LeadingTokenOf(t, rest);
    assert (t + rest)[|t|..] == rest;
  }

  /** The front of a line that ends in a space keeps its leading token when more text follows. */
  lemma {:induction false} LeadingTokenKept(a: string, b: string)
    requires |LeadingToken(a)| < |a|
    ensures LeadingToken(a + b) == LeadingToken(a)
  {
    if a != [] && !IsSpace(a[0]) {
      assert (a + b)[1..] == a[1..] + b;
      LeadingTokenKept(a[1..], b);
    }
  }

  /** Tokens of a line that is cut after a space are the tokens of both parts. */
  lemma {:induction false} TokensSplit(a: string, b: string)
    requires a == [] || IsSpace(a[|a| - 1])
    ensures Tokens(a + b) == Tokens(a) + Tokens(b)
    decreases |a|
  {
    if a == [] {
      assert a + b == b;
    } else if IsSpace(a[0]) {
      assert (a + b)[1..] == a[1..] + b;
      TokensSplit(a[1..], b);
    } else {
      var t := LeadingToken(a);
      LeadingTokenKept(a, b);
      assert (a + b)[|t|..] == a[|t|..] + b;
      TokensSplit(a[|t|..], b);
    }
  }

  predicate IsDigit(c: char)
  {
    '0' <= c <= '9'
  }

  predicate AllDigits(s: string)
  {
    forall i :: 0 <= i < |s| ==> IsDigit(s[i])
  }

  /** The decimal digit character of d. */
  function Digit(d: nat): (c: char)
    requires d < 10
    ensures IsDigit(c) && c as int - '0' as int == d
  {
    ('0' as int + d) as char
  }

  /** The digits of u in decimal, most significant first, with no leading zero. */
  function NatString(u: nat): (s: string)
    ensures |s| >= 1 && AllDigits(s)
  {
    if u < 10 then [Digit(u)] else NatString(u / 10) + [Digit(u % 10)]
  }

  /** The value of a string of decimal digits. */
  function DigitsValue(s: string): (u: nat)
    requires AllDigits(s)
  {
    if s == [] then 0 else DigitsValue(s[..|s| - 1]) * 10 + (s[|s| - 1] as int - '0' as int)
  }

  lemma {:induction false} NatStringValue(u: nat)
    ensures DigitsValue(NatString(u)) == u
  {
    if u >= 10 {
      var s := NatString(u);
      assert s[..|s| - 1] == NatString(u / 10);
      NatStringValue(u / 10);
    }
  }

  /** Formatter "%d": an optional minus sign, then the decimal digits. */
  function DecimalString(v: int): (s: string)
  {
    if v < 0 then "-" + NatString(-v) else NatString(v)
  }

  /** Scanner.nextInt on a token: an optional sign and decimal digits whose value is a Java int. */
  function ParseInt(t: string): (r: Option<int>)
    ensures r.Some? ==> InRange(r.value, 4)
  {
    var signed := |t| > 0 && (t[0] == '-' || t[0] == '+');
    var digits := if signed then t[1..] else t;
    if digits == [] || !AllDigits(digits) then None
    else
      var v: int := if signed && t[0] == '-' then -(DigitsValue(digits) as int) else DigitsValue(digits);
      if InRange(v, 4) then Some(v) else None
  }

  /** A Java int written with "%d" is one token, and Scanner.nextInt reads it back. */
  lemma DecimalRoundTrip(v: int)
    requires InRange(v, 4)
    ensures IsToken(DecimalString(v))
    ensures ParseInt(DecimalString(v)) == Some(v)
  {
    var s := DecimalString(v);
    if v < 0 {
      NatStringValue(-v);
      assert s[1..] == NatString(-v);
    } else {
      NatStringValue(v);
    }
  }
}
