/** Base-16 decoding of the ticker values, restricted to well-formed digit
    strings (either letter case), with a lower-case encoder as its inverse. */
module Hex {

  predicate IsHexDigit(c: char)
  {
    '0' <= c <= '9' || 'a' <= c <= 'f' || 'A' <= c <= 'F'
  }

  predicate IsHexText(s: string)
  {
    forall i :: 0 <= i < |s| ==> IsHexDigit(s[i])
  }

  /** A non-empty string of hexadecimal digits. */
  type HexText = s: string | |s| > 0 && IsHexText(s) witness "0"

  function DigitValue(c: char): (v: nat)
    requires IsHexDigit(c)
    ensures v < 16
  {
    if '0' <= c <= '9' then c as int - '0' as int
    else if 'a' <= c <= 'f' then c as int - 'a' as int + 10
    else c as int - 'A' as int + 10
  }

  function Digit(v: nat): (c: char)
    requires v < 16
    ensures IsHexDigit(c) && DigitValue(c) == v
  {
    if v < 10 then ('0' as int + v) as char else ('a' as int + v - 10) as char
  }

  function Pow16(n: nat): (p: nat)
    ensures p >= 1
  {
    if n == 0 then 1 else 16 * Pow16(n - 1)
  }

  /** The value of a digit string, most significant digit first. */
  function HexValue(s: string): (v: nat)
    requires IsHexText(s)
    ensures v < Pow16(|s|)
  {
    if s == [] then 0 else 16 * HexValue(s[..|s| - 1]) + DigitValue(s[|s| - 1])
  }

  /** The digit string with 'A'..'F' written as 'a'..'f'. */
  function Lower(s: string): (t: string)
    ensures |t| == |s|
    ensures IsHexText(s) ==> IsHexText(t)
  {
    if s == [] then []
    else
      var c := s[|s| - 1];
      Lower(s[..|s| - 1]) + [if 'A' <= c <= 'F' then (c as int - 'A' as int + 'a' as int) as char else c]
  }

  /** Letter case does not matter: an upper-case digit has the value of its
      lower-case spelling. */
  lemma {:induction false} HexValueIgnoresCase(s: string)
    requires IsHexText(s)
    ensures HexValue(s) == HexValue(Lower(s))
  {
    if s != [] {
      var init := s[..|s| - 1];
      HexValueIgnoresCase(init);
      var t := Lower(s);
      assert t[..|t| - 1] == Lower(init);
    }
  }

  /** Leading zeros do not change the value. */
  lemma {:induction false} HexValueIgnoresLeadingZero(s: string)
    requires IsHexText(s)
    ensures HexValue(['0'] + s) == HexValue(s)
  {
    if s != [] {
      var init := s[..|s| - 1];
      HexValueIgnoresLeadingZero(init);
      var t := ['0'] + s;
      assert t[..|t| - 1] == ['0'] + init;
    } else {
      assert ['0'][..0] == [];
    }
  }

  function ToHex(n: nat): (s: HexText)
  {
    if n < 16 then [Digit(n)] else ToHex(n / 16) + [Digit(n % 16)]
  }

  /** Decoding undoes encoding: every natural number is the value of its digits. */
  lemma {:induction false} HexRoundTrip(n: nat)
    ensures HexValue(ToHex(n)) == n
  {
    var s := ToHex(n);
    if n < 16 {
      assert s[..0] == [];
    } else {
      HexRoundTrip(n / 16);
      assert s[..|s| - 1] == ToHex(n / 16);
    }
  }
}
