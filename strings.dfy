/** The Python string operations the modelled code is built from:
    repetition `s * n`, `str(i)` of an integer, and the zero-padded
    integer format `f'{i:0{w}}'`. */
module Strings {

  function Max(a: int, b: int): int { if a < b then b else a }

  /** `s * n`: `n` copies of `s`, and the empty string when `n <= 0`. */
  function Repeat(s: string, n: int): (r: string)
    ensures |r| == if n <= 0 then 0 else n * |s|
    ensures |s| == 1 ==> forall k :: 0 <= k < |r| ==> r[k] == s[0]
    decreases n
  {
    if n <= 0 then "" else s + Repeat(s, n - 1)
  }

  /** `" " * n` */
  function Spaces(n: int): string { Repeat(" ", n) }

  /** The row `row` shows only blanks from column `col` on. */
  predicate BlankFrom(row: string, col: nat)
  {
    forall k :: col <= k < |row| ==> row[k] == ' '
  }

  /** Text of printable characters only: no escape, carriage return, line
      feed or other C0 or C1 control character, so each character takes one
      column. */
  predicate Printable(s: string)
  {
    forall k :: 0 <= k < |s| ==> ' ' <= s[k] && !('\U{7F}' <= s[k] <= '\U{9F}')
  }

  predicate IsDigit(c: char) { '0' <= c <= '9' }

  predicate AllDigits(s: string)
  {
    forall k :: 0 <= k < |s| ==> IsDigit(s[k])
  }

  function DigitChar(d: nat): (c: char)
    requires d < 10
    ensures IsDigit(c)
  {
    (d + '0' as int) as char
  }

  function DigitValue(c: char): (d: nat)
    requires IsDigit(c)
    ensures d < 10
  {
    c as int - '0' as int
  }

  /** The number a string of decimal digits denotes (the reference
      definition that `NatToDecimal` is checked against). */
  function DecimalValue(s: string): nat
    requires AllDigits(s)
  {
    if s == [] then 0 else 10 * DecimalValue(s[..|s| - 1]) + DigitValue(s[|s| - 1])
  }

  /** `str(n)` for `n >= 0`: the shortest decimal numeral of `n`. */
  function NatToDecimal(n: nat): (r: string)
    ensures 1 <= |r|
    ensures AllDigits(r)
    ensures DecimalValue(r) == n
    ensures r[0] == '0' ==> r == "0"
  {
    if n < 10 then [DigitChar(n)]
    else
      var high, low := NatToDecimal(n / 10), DigitChar(n % 10);
      assert (high + [low])[..|high + [low]| - 1] == high;
      high + [low]
  }

  /** A longer numeral never denotes a smaller number. */
  lemma {:induction false} DecimalLengthMonotone(i: nat, j: nat)
    requires i <= j
    ensures |NatToDecimal(i)| <= |NatToDecimal(j)|
  {
    if i >= 10 {
      DecimalLengthMonotone(i / 10, j / 10);
    }
  }

  /** `str(i)` for any integer `i`. */
  function IntToDecimal(i: int): (r: string)
    ensures |r| == if i < 0 then 1 + |NatToDecimal(-i)| else |NatToDecimal(i)|
    ensures i >= 0 ==> AllDigits(r) && DecimalValue(r) == i
    ensures i < 0 ==> r[0] == '-' && AllDigits(r[1..]) && DecimalValue(r[1..]) == -i
  {
    if i < 0 then "-" + NatToDecimal(-i) else NatToDecimal(i)
  }

  lemma {:induction false} ZerosDenoteZero(z: string)
    requires forall k :: 0 <= k < |z| ==> z[k] == '0'
    ensures AllDigits(z) && DecimalValue(z) == 0
  {
    if z != [] {
      ZerosDenoteZero(z[..|z| - 1]);
    }
  }

  /** Leading zeros do not change the number a numeral denotes. */
  lemma {:induction false} LeadingZeros(z: string, d: string)
    requires forall k :: 0 <= k < |z| ==> z[k] == '0'
    requires AllDigits(d)
    ensures AllDigits(z + d) && DecimalValue(z + d) == DecimalValue(d)
  {
    if d == [] {
      assert z + d == z;
      ZerosDenoteZero(z);
    } else {
      var init := d[..|d| - 1];
      assert (z + d)[..|z + d| - 1] == z + init;
      LeadingZeros(z, init);
    }
  }

  /** `f'{i:0{width}}'`: `str(i)` padded with zeros after the sign up to
      `width` characters; a numeral already as wide is left as it is. */
  function ZeroPadded(i: int, width: nat): (r: string)
    ensures |r| == Max(width, |IntToDecimal(i)|)
    ensures i >= 0 ==> AllDigits(r) && DecimalValue(r) == i
    ensures i < 0 ==> r[0] == '-' && AllDigits(r[1..]) && DecimalValue(r[1..]) == -i
  {
    if i >= 0 then
      var digits := NatToDecimal(i);
      var zeros := Repeat("0", width - |digits|);
      LeadingZeros(zeros, digits);
      zeros + digits
    else
      var digits := NatToDecimal(-i);
      var zeros := Repeat("0", width - 1 - |digits|);
      LeadingZeros(zeros, digits);
      assert ("-" + zeros + digits)[1..] == zeros + digits;
      "-" + zeros + digits
  }
}
