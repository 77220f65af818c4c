/** Decimal rendering of non-negative integers as JavaScript does it
    (`n.toString()`), left padding (`s.padStart(width, fill)`), and the
    two-digit `pad` every clock and timepiece display is built from. */
module Text {

  predicate IsDigit(c: char) {
    '0' <= c <= '9'
  }

  predicate AllDigits(s: string) {
    forall i :: 0 <= i < |s| ==> IsDigit(s[i])
  }

  function DigitChar(d: nat): (c: char)
    requires d < 10
    ensures IsDigit(c) && DigitValue(c) == d
  {
    ('0' as int + d) as char
  }

  function DigitValue(c: char): nat
    requires IsDigit(c)
  {
    c as int - '0' as int
  }

  /** `n.toString()` for an integer n >= 0: decimal digits, most significant
      first, with no leading zero except for 0 itself. */
  function NatToString(n: nat): string
    decreases n
  {
    if n < 10 then [DigitChar(n)] else NatToString(n / 10) + [DigitChar(n % 10)]
  }

  /** The string is digits only, starts with '0' only for 0 itself, and is a
      single digit exactly for numbers below 10. */
  lemma {:induction false} NatToStringDigits(n: nat)
    ensures var s := NatToString(n);
      && 1 <= |s| && AllDigits(s)
      && (s[0] == '0' <==> n == 0)
      && (|s| == 1 <==> n < 10)
    decreases n
  {
    if n >= 10 {
      NatToStringDigits(n / 10);
    }
  }

  /** The value of a string of decimal digits; the reading side of NatToString. */
  function DecimalValue(s: string): nat
    requires AllDigits(s)
  {
    if s == [] then 0 else DecimalValue(s[..|s| - 1]) * 10 + DigitValue(s[|s| - 1])
  }

  /** Reading back what NatToString wrote gives the number again. */
  lemma {:induction false} DecimalRoundTrip(n: nat)
    ensures AllDigits(NatToString(n)) && DecimalValue(NatToString(n)) == n
  {
    NatToStringDigits(n);
    if n >= 10 {
      var s := NatToString(n);
      assert s[..|s| - 1] == NatToString(n / 10);
      DecimalRoundTrip(n / 10);
    }
  }

  /** Leading zeros do not change the value of a digit string. */
  lemma {:induction false} LeadingZero(s: string)
    requires AllDigits(s)
    ensures AllDigits("0" + s) && DecimalValue("0" + s) == DecimalValue(s)
  {
    if s != [] {
      var t := "0" + s;
      assert t[..|t| - 1] == "0" + s[..|s| - 1];
      LeadingZero(s[..|s| - 1]);
    }
  }

  function Repeat(c: char, k: nat): (r: string)
    ensures |r| == k
  {
    if k == 0 then [] else [c] + Repeat(c, k - 1)
  }

  /** `s.padStart(width, fill)` with a one-character fill: s itself when it is
      already wide enough, otherwise s behind enough copies of fill. */
  function PadStart(s: string, width: nat, fill: char): string {
    if |s| >= width then s else Repeat(fill, width - |s|) + s
  }

  lemma {:induction false} RepeatAll(c: char, k: nat)
    ensures forall i :: 0 <= i < k ==> Repeat(c, k)[i] == c
  {
    if k > 0 {
      RepeatAll(c, k - 1);
    }
  }

  /** padStart returns s when it is already wide enough; otherwise s ends
      the result, which is exactly `width` long and filled in front. */
  lemma PadStartSpec(s: string, width: nat, fill: char)
    ensures var r := PadStart(s, width, fill);
      && |r| == (if |s| >= width then |s| else width)
      && r[|r| - |s|..] == s
      && forall i :: 0 <= i < |r| - |s| ==> r[i] == fill
  {
    if |s| < width {
      RepeatAll(fill, width - |s|);
    }
  }

  /** `number.toString().padStart(2, '0')`. */
  function Pad(n: nat): string {
    PadStart(NatToString(n), 2, '0')
  }

  /** A number below 100 is padded to exactly its two decimal digits. */
  lemma PadTwoDigits(n: nat)
    requires n < 100
    ensures Pad(n) == [DigitChar(n / 10), DigitChar(n % 10)]
  {
    if n >= 10 {
      assert NatToString(n / 10) == [DigitChar(n / 10)];
    }
  }

  /** Padding leaves numbers of two or more digits as they are and puts one
      '0' in front of a single digit. */
  lemma PadOnlyWidens(n: nat)
    ensures n >= 10 ==> Pad(n) == NatToString(n)
    ensures n < 10 ==> Pad(n) == "0" + NatToString(n)
  {
    NatToStringDigits(n);
  }

  /** Padding never changes the number the digits stand for. */
  lemma PadValue(n: nat)
    ensures AllDigits(Pad(n)) && DecimalValue(Pad(n)) == n
  {
    DecimalRoundTrip(n);
    if n < 10 {
      LeadingZero(NatToString(n));
    }
  }
}
