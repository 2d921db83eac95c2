/** How the handlers print numbers into text (JavaScript's decimal rendering of an integer). */
module Render {
  import opened Records

  predicate IsDigit(c: char) {
    '0' <= c <= '9'
  }

  function DigitChar(d: nat): (c: char)
    requires d < 10
    ensures IsDigit(c)
  {
    (d + '0' as int) as char
  }

  function DigitValue(c: char): nat
    requires IsDigit(c)
  {
    c as int - '0' as int
  }

  /** The decimal text of `n`: digits only, no leading zero. */
  function Decimal(n: nat): (s: string)
    ensures |s| >= 1
    ensures forall i :: 0 <= i < |s| ==> IsDigit(s[i])
    ensures s[0] == '0' ==> n == 0 && s == "0"
  {
    if n < 10 then [DigitChar(n)] else Decimal(n / 10) + [DigitChar(n % 10)]
  }

  /** Reads a string of digits as a number. */
  function ParseDecimal(s: string): nat
    requires forall i :: 0 <= i < |s| ==> IsDigit(s[i])
  {
    if s == [] then 0 else ParseDecimal(s[..|s| - 1]) * 10 + DigitValue(s[|s| - 1])
  }

  /** Decimal text is read back as the number it was made from. */
  lemma {:induction false} DecimalRoundTrip(n: nat)
    ensures ParseDecimal(Decimal(n)) == n
  {
    if n >= 10 {
      DecimalRoundTrip(n / 10);
      var s := Decimal(n);
      assert s[..|s| - 1] == Decimal(n / 10);
    }
  }

  /** The text of an integer, with a leading '-' when it is negative. */
  function IntText(i: int): (s: string)
    ensures |s| >= 1
    ensures (s[0] == '-') <==> i < 0
    ensures i < 0 ==> |s| >= 2 && forall k :: 1 <= k < |s| ==> IsDigit(s[k])
    ensures i >= 0 ==> forall k :: 0 <= k < |s| ==> IsDigit(s[k])
  {
    if i < 0 then "-" + Decimal(-i) else Decimal(i)
  }

  /** Reads an optionally signed string of digits as an integer. */
  function ParseIntText(s: string): Option<int> {
    if |s| >= 2 && s[0] == '-' && forall k :: 1 <= k < |s| ==> IsDigit(s[k]) then
      Some(-(ParseDecimal(s[1..]) as int))
    else if |s| >= 1 && forall k :: 0 <= k < |s| ==> IsDigit(s[k]) then
      Some(ParseDecimal(s))
    else None
  }

  /** An integer's text reads back as that integer. */
  lemma IntTextRoundTrip(i: int)
    ensures ParseIntText(IntText(i)) == Some(i)
  {
    if i < 0 {
      assert IntText(i)[1..] == Decimal(-i);
      DecimalRoundTrip(-i);
    } else {
      DecimalRoundTrip(i);
    }
  }
}
