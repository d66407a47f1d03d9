/**
 * Decimal rendering of integers, as C#'s int.ToString() and the custom
 * numeric format "00" produce it, with the value it denotes.
 */
module Text {
  predicate IsDigit(c: char) { '0' <= c <= '9' }

  predicate AllDigits(s: string) { forall i :: 0 <= i < |s| ==> IsDigit(s[i]) }

  function DigitChar(d: nat): (c: char)
    requires d < 10
    ensures IsDigit(c)
  {
    ['0', '1', '2', '3', '4', '5', '6', '7', '8', '9'][d]
  }

  function DigitValue(c: char): nat
    requires IsDigit(c)
  {
    (c as int - '0' as int) as nat
  }

  /** The number a string of decimal digits denotes. */
  function DigitsValue(s: string): nat
    requires AllDigits(s)
  {
    if |s| == 0 then 0 else DigitsValue(s[..|s| - 1]) * 10 + DigitValue(s[|s| - 1])
  }

  /** n.ToString() for n >= 0: the shortest digit string denoting n. */
  function NatToString(n: nat): (r: string)
    ensures |r| >= 1 && AllDigits(r)
    ensures |r| > 1 ==> r[0] != '0'
    ensures DigitsValue(r) == n
    decreases n
  {
    if n < 10 then
      assert DigitValue(DigitChar(n)) == n;
      [DigitChar(n)]
    else
      var r := NatToString(n / 10) + [DigitChar(n % 10)];
      assert r[..|r| - 1] == NatToString(n / 10);
      assert DigitValue(DigitChar(n % 10)) == n % 10;
      r
  }

  /** n.ToString() for any int: a minus sign before the digits of a negative number. */
  function IntToString(n: int): (r: string)
    ensures n >= 0 ==> r == NatToString(n)
    ensures n < 0 ==> r == "-" + NatToString(-n)
  {
    if n >= 0 then NatToString(n) else "-" + NatToString(-n)
  }

  /** The custom format "00": the digits of n, with a leading zero below 10. */
  function ZeroPad2(n: nat): (r: string)
    ensures |r| >= 2 && AllDigits(r)
    ensures DigitsValue(r) == n
    ensures n >= 10 ==> r == NatToString(n)
  {
    if n < 10 then
      var r := "0" + NatToString(n);
      assert r[..|r| - 1] == "0";
      assert DigitsValue("0"[..0]) == 0;
      r
    else NatToString(n)
  }
}
