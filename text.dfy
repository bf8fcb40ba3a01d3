/**
 * The few string operations of JavaScript the core relies on: rendering a
 * number in decimal (`String(n)`, template literals), `padStart` with zeros,
 * and `String.prototype.trim`.
 */
module Text {

  predicate IsDigit(c: char) { '0' <= c <= '9' }

  predicate AllDigits(s: string) { forall i :: 0 <= i < |s| ==> IsDigit(s[i]) }

  function DigitValue(c: char): (d: nat)
    requires IsDigit(c)
    ensures d < 10
  {
    c as int - '0' as int
  }

  function DigitChar(d: nat): (c: char)
    requires d < 10
    ensures IsDigit(c) && DigitValue(c) == d
  {
    ('0' as int + d) as char
  }

  /** The decimal rendering of a non-negative integer, without leading zeros. */
  function NatToString(n: nat): (s: string)
    ensures |s| >= 1 && AllDigits(s)
    ensures s[0] == '0' ==> n == 0
    ensures n < 10 <==> |s| == 1
    decreases n
  {
    if n < 10 then [DigitChar(n)] else NatToString(n / 10) + [DigitChar(n % 10)]
  }

  /** The value of a string of decimal digits. */
  function ParseNat(s: string): nat
    requires AllDigits(s)
    decreases |s|
  {
    if s == [] then 0 else ParseNat(s[..|s| - 1]) * 10 + DigitValue(s[|s| - 1])
  }

  /** Reading back a rendered number gives the number. */
  lemma {:induction false} ParseNatToString(n: nat)
    ensures ParseNat(NatToString(n)) == n
    decreases n
  {
    var s := NatToString(n);
    if n >= 10 {
      var p := NatToString(n / 10);
      assert s[..|s| - 1] == p;
      ParseNatToString(n / 10);
    }
  }

  /** Zeros in front of digits do not change their value. */
  lemma {:induction false} ParseNatLeadingZeros(z: string, s: string)
    requires AllDigits(s)
    requires forall i :: 0 <= i < |z| ==> z[i] == '0'
    ensures AllDigits(z + s) && ParseNat(z + s) == ParseNat(s)
    decreases |s|
  {
    if s == [] {
      assert z + s == z;
      ParseNatOfZeros(z);
    } else {
      var t := s[..|s| - 1];
      assert (z + s)[..|z + s| - 1] == z + t;
      ParseNatLeadingZeros(z, t);
    }
  }

  lemma {:induction false} ParseNatOfZeros(z: string)
    requires forall i :: 0 <= i < |z| ==> z[i] == '0'
    ensures AllDigits(z) && ParseNat(z) == 0
    decreases |z|
  {
    if z != [] {
      ParseNatOfZeros(z[..|z| - 1]);
    }
  }

  /** JavaScript's `String(i)` for an integer: a minus sign, then the digits. */
  function IntToString(i: int): (s: string)
    ensures |s| >= 1
    ensures s[0] == '-' <==> i < 0
    ensures i >= 0 ==> s == NatToString(i)
  {
    if i < 0 then "-" + NatToString(-i) else NatToString(i)
  }

  /** `s.padStart(2, "0")`. */
  function PadStart2(s: string): (r: string)
    ensures |r| == if |s| >= 2 then |s| else 2
    ensures AllDigits(s) ==> AllDigits(r) && ParseNat(r) == ParseNat(s)
  {
    var pad := seq(if |s| >= 2 then 0 else 2 - |s|, _ => '0');
    if AllDigits(s) then
      ParseNatLeadingZeros(pad, s);
      pad + s
    else
      pad + s
  }

  /**
   * The characters `String.prototype.trim` removes: the ECMAScript
   * WhiteSpace and LineTerminator code points.
   */
  predicate IsJsWhitespace(c: char)
  {
    || c == '\t' || c == '\n' || c == '\U{000B}' || c == '\U{000C}' || c == '\r'
    || c == ' ' || c == '\U{00A0}' || c == '\U{1680}'
    || ('\U{2000}' <= c <= '\U{200A}')
    || c == '\U{2028}' || c == '\U{2029}' || c == '\U{202F}' || c == '\U{205F}'
    || c == '\U{3000}' || c == '\U{FEFF}'
  }

  predicate AllWhitespace(s: string) { forall i :: 0 <= i < |s| ==> IsJsWhitespace(s[i]) }

  /** Leading whitespace removed. */
  function TrimStart(s: string): string
    decreases |s|
  {
    if s != [] && IsJsWhitespace(s[0]) then TrimStart(s[1..]) else s
  }

  /** What `TrimStart` drops is whitespace, and what it keeps starts otherwise. */
  lemma {:induction false} TrimStartSlice(s: string)
    ensures var r := TrimStart(s);
      && |r| <= |s| && r == s[|s| - |r|..]
      && AllWhitespace(s[..|s| - |r|])
      && (r != [] ==> !IsJsWhitespace(r[0]))
    decreases |s|
  {
    if s != [] && IsJsWhitespace(s[0]) {
      TrimStartSlice(s[1..]);
      var r := TrimStart(s[1..]);
      assert s[..|s| - |r|] == [s[0]] + s[1..][..|s| - 1 - |r|];
    }
  }

  /** Trailing whitespace removed. */
  function TrimEnd(s: string): string
    decreases |s|
  {
    if s != [] && IsJsWhitespace(s[|s| - 1]) then TrimEnd(s[..|s| - 1]) else s
  }

  /** What `TrimEnd` drops is whitespace, and what it keeps ends otherwise. */
  lemma {:induction false} TrimEndSlice(s: string)
    ensures var r := TrimEnd(s);
      && |r| <= |s| && r == s[..|r|]
      && AllWhitespace(s[|r|..])
      && (r != [] ==> !IsJsWhitespace(r[|r| - 1]))
    decreases |s|
  {
    if s != [] && IsJsWhitespace(s[|s| - 1]) {
      TrimEndSlice(s[..|s| - 1]);
      var r := TrimEnd(s[..|s| - 1]);
      assert s[|r|..] == s[..|s| - 1][|r|..] + [s[|s| - 1]];
    }
  }

  /** `String.prototype.trim`: leading and trailing whitespace removed. */
  function Trim(s: string): string
  {
    TrimEnd(TrimStart(s))
  }

  /** How many leading characters `Trim` drops. */
  function TrimOffset(s: string): (i: nat)
    ensures i <= |s|
  {
    TrimStartSlice(s);
    |s| - |TrimStart(s)|
  }

  /**
   * The trimmed string is the slice of `s` between a whitespace prefix and a
   * whitespace suffix, and it starts and ends with a non-whitespace character
   * unless it is empty.
   */
  lemma TrimSlice(s: string)
    ensures var r, i := Trim(s), TrimOffset(s);
      && i + |r| <= |s| && r == s[i..i + |r|]
      && AllWhitespace(s[..i]) && AllWhitespace(s[i + |r|..])
      && (r != [] ==> !IsJsWhitespace(r[0]) && !IsJsWhitespace(r[|r| - 1]))
  {
    var t := TrimStart(s);
    TrimStartSlice(s);
    TrimEndSlice(t);
    var r := TrimEnd(t);
    var i := |s| - |t|;
    assert r == s[i..i + |r|];
    assert s[i + |r|..] == t[|r|..];
    if r != [] {
      assert r[0] == t[0];
    }
  }

  lemma AllWhitespaceAppend(a: string, b: string)
    requires AllWhitespace(a) && AllWhitespace(b)
    ensures AllWhitespace(a + b)
  {}

  /** The trimmed string is empty exactly when every character is whitespace. */
  lemma TrimEmptyIffBlank(s: string)
    ensures Trim(s) == [] <==> AllWhitespace(s)
  {
    TrimSlice(s);
    var r := Trim(s);
    var i := TrimOffset(s);
    if r == [] {
      assert s == s[..i] + s[i..];
      AllWhitespaceAppend(s[..i], s[i..]);
    } else {
      assert !IsJsWhitespace(s[i]);
    }
  }
}
