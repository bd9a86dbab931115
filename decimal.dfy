/** Decimal text of integers in ASCII digits, as Kotlin's string templates
    (`"$n"`) produce it, together with the reading of such text back into a
    number. The `%d` / `%0Nd` conversions of `String.format` print the same
    text in a locale whose digits are the ASCII ones. */
module Decimal {

  predicate IsDigit(c: char) {
    '0' <= c <= '9'
  }

  predicate AllDigits(s: string) {
    forall i :: 0 <= i < |s| ==> IsDigit(s[i])
  }

  function Pow10(n: nat): (r: nat)
    ensures r >= 1
  {
    if n == 0 then 1 else 10 * Pow10(n - 1)
  }

  function DigitChar(d: nat): (c: char)
    requires d < 10
    ensures IsDigit(c) && c as int - '0' as int == d
  {
    ('0' as int + d) as char
  }

  /** The number a string of digits denotes (leading zeros allowed). */
  function DecimalValue(s: string): nat
    requires AllDigits(s)
  {
    if s == [] then 0
    else 10 * DecimalValue(s[..|s| - 1]) + (s[|s| - 1] as int - '0' as int)
  }

  /** `%d` of a non-negative number: its digits, most significant first,
      without leading zeros. */
  function NatToDecimal(n: nat): (r: string)
    ensures 1 <= |r| && AllDigits(r)
    ensures r[0] == '0' ==> n == 0
  {
    if n < 10 then [DigitChar(n)] else NatToDecimal(n / 10) + [DigitChar(n % 10)]
  }

  /** `"$n"` of a Kotlin `Long`: a minus sign before the digits of a
      negative number. */
  function IntToDecimal(i: int): (r: string)
    ensures 1 <= |r|
    ensures i >= 0 ==> AllDigits(r)
    ensures i < 0 ==> r[0] == '-' && AllDigits(r[1..])
    ensures i >= 0 ==> DecimalValue(r) == i
    ensures i < 0 ==> DecimalValue(r[1..]) == -i
  {
    if i < 0 then
      NatToDecimalRoundTrip(-i);
      var r := "-" + NatToDecimal(-i);
      assert r[1..] == NatToDecimal(-i);
      r
    else
      NatToDecimalRoundTrip(i);
      NatToDecimal(i)
  }

  function Zeros(k: nat): (r: string)
    ensures |r| == k && AllDigits(r)
  {
    if k == 0 then [] else Zeros(k - 1) + "0"
  }

  /** `%0Nd` of a non-negative number: its digits, with zeros in front up
      to `width` characters. */
  function ZeroPadded(n: nat, width: nat): (r: string)
    ensures AllDigits(r) && width <= |r| && 1 <= |r|
  {
    var d := NatToDecimal(n);
    (if |d| < width then Zeros(width - |d|) else []) + d
  }

  /** Reading the digits of a number gives the number back. */
  lemma {:induction false} NatToDecimalRoundTrip(n: nat)
    ensures DecimalValue(NatToDecimal(n)) == n
  {
    if n >= 10 {
      var d := NatToDecimal(n);
      NatToDecimalRoundTrip(n / 10);
      assert d[..|d| - 1] == NatToDecimal(n / 10);
    }
  }

  /** A number below 10^w has at most w digits. */
  lemma {:induction false} NatToDecimalLength(n: nat, w: nat)
    requires n < Pow10(w)
    ensures |NatToDecimal(n)| <= w || (n == 0 && w == 0)
  {
    if n >= 10 {
      assert w >= 1;
      NatToDecimalLength(n / 10, w - 1);
    }
  }

  /** Leading zeros do not change the value of a string of digits. */
  lemma {:induction false} LeadingZerosValue(k: nat, s: string)
    requires AllDigits(s)
    ensures DecimalValue(Zeros(k) + s) == DecimalValue(s)
  {
    if s == [] {
      assert Zeros(k) + s == Zeros(k);
      ZerosValue(k);
    } else {
      var t := Zeros(k) + s;
      assert t[..|t| - 1] == Zeros(k) + s[..|s| - 1];
      LeadingZerosValue(k, s[..|s| - 1]);
    }
  }

  lemma {:induction false} ZerosValue(k: nat)
    ensures DecimalValue(Zeros(k)) == 0
  {
    if k > 0 {
      assert Zeros(k)[..k - 1] == Zeros(k - 1);
      ZerosValue(k - 1);
    }
  }

  /** Zero padding keeps the value. */
  lemma ZeroPaddedValue(n: nat, width: nat)
    ensures DecimalValue(ZeroPadded(n, width)) == n
  {
    var d := NatToDecimal(n);
    NatToDecimalRoundTrip(n);
    if |d| < width {
      LeadingZerosValue(width - |d|, d);
    } else {
      assert ZeroPadded(n, width) == d;
    }
  }

  /** `%0Nd` of a number below 10^N is exactly N characters wide. */
  lemma ZeroPaddedWidth(n: nat, width: nat)
    requires n < Pow10(width) && width >= 1
    ensures |ZeroPadded(n, width)| == width
  {
    NatToDecimalLength(n, width);
  }
}
