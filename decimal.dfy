/** Python's `str(n)` / f-string rendering of an `int` in base 10, with its inverse. */
module Decimal {

  import opened Wrappers

  predicate IsDigit(c: char) { '0' <= c <= '9' }

  function DigitChar(d: nat): (c: char)
    requires d < 10
    ensures IsDigit(c) && c as int - '0' as int == d
  {
    ('0' as int + d) as char
  }

  /** The digits of `n`, most significant first, with no leading zero. */
  function NatToDecimal(n: nat): (s: string)
    decreases n
  {
    if n < 10 then [DigitChar(n)] else NatToDecimal(n / 10) + [DigitChar(n % 10)]
  }

  /** Python's `str(n)` for an integer: a minus sign before the magnitude when negative. */
  function IntToDecimal(n: int): (s: string)
  {
    if n < 0 then "-" + NatToDecimal(-n) else NatToDecimal(n)
  }

  function DigitValue(c: char): (d: nat)
    requires IsDigit(c)
    ensures d < 10
  {
    c as int - '0' as int
  }

  /** The value of a string of decimal digits. */
  function DecimalValue(s: string): nat
    requires forall i :: 0 <= i < |s| ==> IsDigit(s[i])
  {
    if s == [] then 0 else 10 * DecimalValue(s[..|s| - 1]) + DigitValue(s[|s| - 1])
  }

  /**
   * Reads back what IntToDecimal writes; None for text that is not a decimal integer in
   * that exact form (so "-0", "+1" and "007" are refused).
   */
  function ParseInt(s: string): (r: Option<int>)
  {
    if s != [] && s[0] == '-' then
      if WellFormedDigits(s[1..]) && s[1] != '0' then Some(0 - DecimalValue(s[1..]) as int) else None
    else if WellFormedDigits(s) then Some(DecimalValue(s))
    else None
  }

  /** Nonempty, all digits, and no leading zero unless the number is 0 itself. */
  predicate WellFormedDigits(s: string)
  {
    && s != []
    && (forall i :: 0 <= i < |s| ==> IsDigit(s[i]))
    && (s[0] == '0' ==> |s| == 1)
  }

  lemma {:induction false} NatToDecimalRoundTrip(n: nat)
    ensures WellFormedDigits(NatToDecimal(n))
    ensures DecimalValue(NatToDecimal(n)) == n
    ensures (NatToDecimal(n)[0] == '0') == (n == 0)
    decreases n
  {
    if n >= 10 {
      NatToDecimalRoundTrip(n / 10);
      var s := NatToDecimal(n);
      assert s[..|s| - 1] == NatToDecimal(n / 10);
    }
  }

  /** `int(str(n)) == n`: the rendering loses nothing. */
  lemma IntToDecimalRoundTrip(n: int)
    ensures ParseInt(IntToDecimal(n)) == Some(n)
  {
    if n < 0 {
      NatToDecimalRoundTrip(-n);
      var s := IntToDecimal(n);
      assert s[1..] == NatToDecimal(-n);
    } else {
      NatToDecimalRoundTrip(n);
    }
  }

  /** Digits with a nonzero leading digit have a positive value. */
  lemma {:induction false} DecimalValuePositive(s: string)
    requires s != [] && s[0] != '0'
    requires forall i :: 0 <= i < |s| ==> IsDigit(s[i])
    ensures DecimalValue(s) > 0
    decreases |s|
  {
    if |s| > 1 {
      DecimalValuePositive(s[..|s| - 1]);
    }
  }

  /** Well-formed digits are exactly the rendering of their value. */
  lemma {:induction false} DecimalValueRoundTrip(s: string)
    requires WellFormedDigits(s)
    ensures NatToDecimal(DecimalValue(s)) == s
    decreases |s|
  {
    var last := s[|s| - 1];
    if |s| == 1 {
      assert DigitChar(DigitValue(last)) == last;
      assert s == [last];
    } else {
      var front := s[..|s| - 1];
      assert front[0] == s[0];
      DecimalValuePositive(front);
      DecimalValueRoundTrip(front);
      var v := DecimalValue(s);
      assert v == 10 * DecimalValue(front) + DigitValue(last);
      assert v / 10 == DecimalValue(front) && v % 10 == DigitValue(last);
      assert DigitChar(DigitValue(last)) == last;
      assert s == front + [last];
    }
  }

  /** ParseInt accepts only what IntToDecimal writes: one text per integer. */
  lemma ParseIntExact(s: string, n: int)
    requires ParseInt(s) == Some(n)
    ensures s == IntToDecimal(n)
  {
    if s != [] && s[0] == '-' {
      var t := s[1..];
      DecimalValuePositive(t);
      DecimalValueRoundTrip(t);
      assert s == "-" + t;
    } else {
      DecimalValueRoundTrip(s);
    }
  }
}
