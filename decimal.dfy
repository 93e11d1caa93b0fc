/**
 * Decimal text of non-negative integers, as the fulfilment screen produces it
 * with JavaScript's `String(n)` / `n.toString()` (for integers below 2^53),
 * and left padding with `String.prototype.padStart`. `ParseDecimal` is the
 * reading direction, used to state round trips.
 */
module Decimal {

  /** True of the characters '0' .. '9'. */
  predicate IsDigit(c: char) {
    '0' <= c <= '9'
  }

  /** True of strings made only of decimal digits. */
  predicate AllDigits(s: string) {
    forall i :: 0 <= i < |s| ==> IsDigit(s[i])
  }

  /** The value of one digit character. */
  function DigitValue(c: char): (d: nat)
    requires IsDigit(c)
    ensures d < 10
  {
    c as int - '0' as int
  }

  /** The character that spells the digit `d`. */
  function DigitChar(d: nat): (c: char)
    requires d < 10
    ensures IsDigit(c) && DigitValue(c) == d
  {
    ('0' as int + d) as char
  }

  /**
   * The decimal text of a non-negative integer: its digits, most significant
   * first, with no leading zero (zero itself is "0"). This is what
   * JavaScript's `String(n)` gives for integers below 2^53, which covers every
   * value the screen converts (digits 0..9 and times 0..60).
   */
  function NatToString(n: nat): (s: string)
    ensures |s| >= 1 && AllDigits(s)
    ensures s[0] == '0' <==> n == 0
    ensures n < 10 <==> |s| == 1
    decreases n
  {
    if n < 10 then [DigitChar(n)] else NatToString(n / 10) + [DigitChar(n % 10)]
  }

  /** The value of a string of digits; the empty string reads as 0. */
  function ParseDecimal(s: string): nat
    requires AllDigits(s)
  {
    if s == [] then 0 else ParseDecimal(s[..|s| - 1]) * 10 + DigitValue(s[|s| - 1])
  }

  /** Reading back the text of `n` gives `n`. */
  lemma {:induction false} ParseNatToString(n: nat)
    ensures ParseDecimal(NatToString(n)) == n
    decreases n
  {
    var s := NatToString(n);
    if n < 10 {
      assert s[..0] == [];
    } else {
      assert s[..|s| - 1] == NatToString(n / 10);
      ParseNatToString(n / 10);
    }
  }

  /** The text of `n` has at most two characters exactly when `n < 100`. */
  lemma {:induction false} NatToStringTwoDigits(n: nat)
    ensures |NatToString(n)| <= 2 <==> n < 100
  {
    if n >= 10 {
      assert |NatToString(n)| == |NatToString(n / 10)| + 1;
      assert n / 10 >= 10 <==> n >= 100;
    }
  }

  /** The string of `k` copies of `c`. */
  function Repeat(c: char, k: nat): (r: string)
    ensures |r| == k && forall i :: 0 <= i < k ==> r[i] == c
  {
    seq(k, _ => c)
  }

  /**
   * `s.padStart(width, fill)` with a one-character fill: `s` itself when it is
   * at least `width` long, otherwise `s` preceded by enough copies of `fill`
   * to make it exactly `width` long.
   */
  function PadStart(s: string, width: nat, fill: char): (r: string)
    ensures |s| >= width ==> r == s
    ensures |r| == if |s| >= width then |s| else width
    ensures r[|r| - |s|..] == s
    ensures forall i :: 0 <= i < |r| - |s| ==> r[i] == fill
  {
    if |s| >= width then s else Repeat(fill, width - |s|) + s
  }

  /** Leading zeros do not change the value of a digit string. */
  lemma {:induction false} ParseLeadingZeros(k: nat, s: string)
    requires AllDigits(s)
    ensures AllDigits(Repeat('0', k) + s)
    ensures ParseDecimal(Repeat('0', k) + s) == ParseDecimal(s)
    decreases k, |s|
  {
    var z := Repeat('0', k) + s;
    if k == 0 {
      assert z == s;
    } else if s == [] {
      assert z == Repeat('0', k - 1) + ['0'];
      assert z[..|z| - 1] == Repeat('0', k - 1) + [];
      ParseLeadingZeros(k - 1, []);
    } else {
      var init := s[..|s| - 1];
      assert z[..|z| - 1] == Repeat('0', k) + init;
      assert z[|z| - 1] == s[|s| - 1];
      ParseLeadingZeros(k, init);
    }
  }

  /**
   * Padding the text of a number below 100 to width two with '0' gives exactly
   * two digits that still read as the number.
   */
  lemma TwoDigitField(n: nat)
    requires n < 100
    ensures |PadStart(NatToString(n), 2, '0')| == 2
    ensures AllDigits(PadStart(NatToString(n), 2, '0'))
    ensures ParseDecimal(PadStart(NatToString(n), 2, '0')) == n
  {
    var s := NatToString(n);
    NatToStringTwoDigits(n);
    ParseNatToString(n);
    if |s| < 2 {
      assert PadStart(s, 2, '0') == Repeat('0', 1) + s;
      ParseLeadingZeros(1, s);
    }
  }
}
