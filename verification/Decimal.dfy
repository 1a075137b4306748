/**
 Decimal text of natural numbers, shared by the one-time codes and the FIX fields: printing, padding
 with zeros, reading back, and how many digits a number takes.  A text that is all digits reads as
 one number whatever zeros it starts with.
 */
module Decimal {

  function DigitChar(d: int): char
    requires 0 <= d < 10
  {
    "0123456789"[d]
  }

  predicate IsDigit(c: char) { '0' <= c <= '9' }

  function DigitValue(c: char): int
    requires IsDigit(c)
  {
    c as int - '0' as int
  }

  predicate AllDigits(s: string) { forall i | 0 <= i < |s| :: IsDigit(s[i]) }

  function ToDecimal(n: nat): (s: string)
    ensures s != []
  {
    if n < 10 then [DigitChar(n)] else ToDecimal(n / 10) + [DigitChar(n % 10)]
  }

  function Value(s: string): (n: nat)
    requires AllDigits(s)
  {
    if s == [] then 0 else 10 * Value(s[..|s| - 1]) + DigitValue(s[|s| - 1])
  }

  function Pow10(w: nat): (p: nat)
    ensures p > 0
  {
    if w == 0 then 1 else 10 * Pow10(w - 1)
  }

  /** Zeros in front until there are at least `width` characters. */
  function PadStart(s: string, width: nat): (p: string)
    ensures |p| == if |s| < width then width else |s|
    decreases width - |s|
  {
    if |s| >= width then s else PadStart(['0'] + s, width)
  }

  lemma DigitRoundTrip(d: int)
    requires 0 <= d < 10
    ensures IsDigit(DigitChar(d)) && DigitValue(DigitChar(d)) == d
  {
  }

  lemma {:induction false} DecimalValue(n: nat)
    ensures AllDigits(ToDecimal(n)) && Value(ToDecimal(n)) == n
  {
    hide DigitChar, DigitValue, IsDigit;
    DigitRoundTrip(n % 10);
    if n < 10 {
    } else {
      DecimalValue(n / 10);
    }
  }

  lemma {:induction false} LeadingZero(s: string)
    requires AllDigits(s)
    ensures AllDigits(['0'] + s) && Value(['0'] + s) == Value(s)
  {
    if s == [] {
      assert ['0'] + s == ['0'];
    } else {
      var n := |s| - 1;
      LeadingZero(s[..n]);
      assert (['0'] + s)[..n + 1] == ['0'] + s[..n];
    }
  }

  lemma {:induction false} PaddedValue(s: string, width: nat)
    requires AllDigits(s)
    ensures AllDigits(PadStart(s, width)) && Value(PadStart(s, width)) == Value(s)
    decreases width - |s|
  {
    if |s| < width {
      LeadingZero(s);
      PaddedValue(['0'] + s, width);
    }
  }

  lemma {:induction false} DecimalLength(n: nat, w: nat)
    requires w >= 1 && n < Pow10(w)
    ensures |ToDecimal(n)| <= w
  {
    if n >= 10 {
      DecimalLength(n / 10, w - 1);
    }
  }

  /** A number below `10^w`, padded: exactly `w` digits that read back as the number. */
  lemma FixedWidth(n: nat, w: nat)
    requires w >= 1 && n < Pow10(w)
    ensures |PadStart(ToDecimal(n), w)| == w && AllDigits(PadStart(ToDecimal(n), w))
    ensures Value(PadStart(ToDecimal(n), w)) == n
  {
    DecimalLength(n, w);
    DecimalValue(n);
    PaddedValue(ToDecimal(n), w);
  }
}
