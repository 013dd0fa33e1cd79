/**
 * Scores and their `%.2f` rendering. A score is an integer count of
 * hundredths of a point, so `%.2f` is exact: an optional minus sign, the
 * whole points in decimal without leading zeros, a dot, two digits.
 */
module Decimal {
  import opened Wrappers

  predicate IsDigit(c: char)
  {
    '0' <= c <= '9'
  }

  predicate AllDigits(s: string)
  {
    forall i :: 0 <= i < |s| ==> IsDigit(s[i])
  }

  function DigitValue(c: char): (d: nat)
    requires IsDigit(c)
    ensures d < 10
  {
    c as int - '0' as int
  }

  function DigitChar(d: nat): (c: char)
    requires d < 10
    ensures IsDigit(c) && DigitValue(c) == d
  {
    ('0' as int + d) as char
  }

  /** The decimal numeral of `n` without leading zeros, as `str(n)` writes it. */
  function NatToString(n: nat): (s: string)
    ensures |s| >= 1 && AllDigits(s)
    ensures |s| > 1 ==> s[0] != '0'
    decreases n
  {
    if n < 10 then [DigitChar(n)]
    else NatToString(n / 10) + [DigitChar(n % 10)]
  }

  /** The number a string of decimal digits denotes (0 for the empty string). */
  function DigitsValue(s: string): nat
    requires AllDigits(s)
  {
    if s == [] then 0
    else 10 * DigitsValue(s[..|s| - 1]) + DigitValue(s[|s| - 1])
  }

  lemma {:induction false} DigitsValueOfNatToString(n: nat)
    ensures DigitsValue(NatToString(n)) == n
    decreases n
  {
    if n >= 10 {
      var s := NatToString(n);
      assert s[..|s| - 1] == NatToString(n / 10);
      DigitsValueOfNatToString(n / 10);
    }
  }

  /** `'%.2f' % (h / 100)` for a score of `h` hundredths. */
  function FormatHundredths(h: int): string
  {
    if h < 0 then "-" + FormatUnsigned(-h) else FormatUnsigned(h)
  }

  /** The unsigned part: whole points, a dot, then tenths and hundredths. */
  function FormatUnsigned(a: nat): string
  {
    NatToString(a / 100) + "." + [DigitChar(a / 10 % 10), DigitChar(a % 10)]
  }

  /** An unsigned rendering has at least four characters, all digits but the dot. */
  lemma FormatUnsignedShape(a: nat)
    ensures |FormatUnsigned(a)| >= 4 && IsDigit(FormatUnsigned(a)[0])
    ensures forall i :: 0 <= i < |FormatUnsigned(a)| ==> IsDigit(FormatUnsigned(a)[i]) || FormatUnsigned(a)[i] == '.'
  {
    var whole := NatToString(a / 100);
    assert forall i :: 0 <= i < |whole| ==> IsDigit(whole[i]);
  }

  /** A rendered score has at least four characters and neither a space nor a newline. */
  lemma FormatHundredthsShape(h: int)
    ensures |FormatHundredths(h)| >= 4
    ensures ' ' !in FormatHundredths(h) && '\n' !in FormatHundredths(h)
  {
    var u := FormatUnsigned(if h < 0 then -h else h);
    FormatUnsignedShape(if h < 0 then -h else h);
    var s := FormatHundredths(h);
    forall i | 0 <= i < |s|
      ensures s[i] != ' ' && s[i] != '\n'
    {
      if h < 0 && i > 0 {
        assert s[i] == u[i - 1];
      }
    }
  }

  /** Reads an unsigned `<digits>.<digit><digit>` numeral as hundredths. */
  function ParseUnsigned(s: string): Option<nat>
  {
    if |s| >= 4 && s[|s| - 3] == '.' && AllDigits(s[..|s| - 3])
       && IsDigit(s[|s| - 2]) && IsDigit(s[|s| - 1])
    then Some(100 * DigitsValue(s[..|s| - 3]) + 10 * DigitValue(s[|s| - 2]) + DigitValue(s[|s| - 1]))
    else None
  }

  /** Reads a numeral written by `FormatHundredths`, with an optional leading minus sign. */
  function ParseHundredths(s: string): Option<int>
  {
    if |s| >= 1 && s[0] == '-' then
      match ParseUnsigned(s[1..])
      case Some(a) => Some(-(a as int))
      case None => None
    else
      match ParseUnsigned(s)
      case Some(a) => Some(a as int)
      case None => None
  }

  /** Whole points, tenths and hundredths put back together give the score. */
  lemma SplitHundredths(a: nat)
    ensures 100 * (a / 100) + 10 * (a / 10 % 10) + a % 10 == a
  {
    var t := a / 10;
    assert a == 10 * t + a % 10;
    assert t == 10 * (t / 10) + t % 10;
    assert t / 10 == a / 100;
  }

  /** An unsigned rendering reads back as the number it was written from. */
  lemma ParseFormatUnsigned(a: nat)
    ensures ParseUnsigned(FormatUnsigned(a)) == Some(a)
  {
    var whole := NatToString(a / 100);
    var u := FormatUnsigned(a);
    assert u[..|u| - 3] == whole;
    DigitsValueOfNatToString(a / 100);
    SplitHundredths(a);
  }

  /** Every score reads back from its rendering. */
  lemma ParseFormatHundredths(h: int)
    ensures ParseHundredths(FormatHundredths(h)) == Some(h)
  {
    var a := if h < 0 then -h else h;
    var u := FormatUnsigned(a);
    ParseFormatUnsigned(a);
    FormatUnsignedShape(a);
    if h < 0 {
      assert ("-" + u)[1..] == u;
    }
  }

  /** Two example scores: 100.00 and 95.00 points. */
  lemma ExampleScores()
    ensures FormatHundredths(10000) == "100.00"
    ensures FormatHundredths(9500) == "95.00"
  {
    assert DigitChar(0) == '0' && DigitChar(1) == '1';
    assert DigitChar(9) == '9' && DigitChar(5) == '5';
    assert NatToString(1) == "1";
    assert NatToString(10) == "10";
    assert NatToString(100) == "100";
    assert NatToString(9) == "9";
    assert NatToString(95) == "95";
  }
}
