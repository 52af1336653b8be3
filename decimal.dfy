/**
 * Decimal numerals as JavaScript writes and reads them for integers: `String(n)` (and a
 * number placed in a template string), `Number(s)`, and `padStart(2, "0")`.
 */
module Decimal {
  import opened Wrappers
  import Text

  predicate IsDigit(c: char) {
    '0' <= c <= '9'
  }

  predicate AllDigits(s: string) {
    forall i :: 0 <= i < |s| ==> IsDigit(s[i])
  }

  function DigitValue(c: char): (d: nat)
    requires IsDigit(c)
    ensures d < 10
  {
    c as int - '0' as int
  }

  function DigitChar(d: nat): (c: char)
    requires d < 10
    ensures IsDigit(c) && DigitValue(c) == d
  {
    ('0' as int + d) as char
  }

  /** The value of a string of decimal digits, most significant first (leading zeros allowed). */
  function DigitsValue(s: string): nat
    requires AllDigits(s)
  {
    if s == [] then 0 else DigitsValue(s[..|s| - 1]) * 10 + DigitValue(s[|s| - 1])
  }

  /** A numeral without superfluous leading zeros: what `String(n)` produces. */
  predicate Canonical(s: string) {
    AllDigits(s) && |s| >= 1 && (s[0] == '0' ==> |s| == 1)
  }

  /** `String(n)` for a non-negative integer: its decimal digits, most significant first. */
  function NatToDecimal(n: nat): string {
    if n < 10 then [DigitChar(n)] else NatToDecimal(n / 10) + [DigitChar(n % 10)]
  }

  /** What `String(n)` writes is the canonical numeral whose value is `n`. */
  lemma {:induction false} NatToDecimalValue(n: nat)
    ensures Canonical(NatToDecimal(n)) && DigitsValue(NatToDecimal(n)) == n
    decreases n
  {
    if n >= 10 {
      NatToDecimalValue(n / 10);
      var r := NatToDecimal(n);
      assert r[..|r| - 1] == NatToDecimal(n / 10);
    }
  }

  /** `String(n)` for any integer: a `-` sign in front of the numeral of `-n` when `n` is negative. */
  function IntToDecimal(n: int): string {
    if n < 0 then "-" + NatToDecimal(-n) else NatToDecimal(n)
  }

  /**
   * `Number(s)` for the numerals this application produces: surrounding whitespace is
   * ignored, blank gives 0, an optional sign may precede a run of decimal digits, and
   * anything else is NaN (`None`).
   */
  function ToNumber(s: string): Option<int> {
    NumeralValue(Text.Trim(s))
  }

  /** The value of an already trimmed numeral. */
  function NumeralValue(t: string): Option<int> {
    if t == [] then Some(0)
    else if AllDigits(t) then Some(DigitsValue(t))
    else if |t| > 1 && t[0] == '-' && AllDigits(t[1..]) then Some(-(DigitsValue(t[1..]) as int))
    else if |t| > 1 && t[0] == '+' && AllDigits(t[1..]) then Some(DigitsValue(t[1..]))
    else None
  }

  /** A non-empty run of digits reads as the number it spells. */
  lemma NumberOfDigits(s: string)
    requires AllDigits(s) && s != []
    ensures ToNumber(s) == Some(DigitsValue(s))
  {
    assert !Text.IsSpace(s[0]) && !Text.IsSpace(s[|s| - 1]);
    Text.TrimUnchanged(s);
  }

  /** Reading back what `String(n)` wrote gives `n`: the numeral is an exact encoding of the integer. */
  lemma NumberOfDecimal(n: int)
    ensures ToNumber(IntToDecimal(n)) == Some(n)
  {
    if n < 0 {
      NumberOfNegative(n);
    } else {
      NatToDecimalValue(n);
      NumberOfDigits(IntToDecimal(n));
    }
  }

  lemma NumberOfNegative(n: int)
    requires n < 0
    ensures ToNumber(IntToDecimal(n)) == Some(n)
  {
    NegativeNumeral(n);
    NegativeTrimmed(n);
  }

  lemma NegativeNumeral(n: int)
    requires n < 0
    ensures NumeralValue(IntToDecimal(n)) == Some(n)
  {
    var d := IntToDecimal(n);
    NatToDecimalValue(-n);
    assert d[1..] == NatToDecimal(-n);
    assert !IsDigit(d[0]);
  }

  lemma NegativeTrimmed(n: int)
    requires n < 0
    ensures Text.Trim(IntToDecimal(n)) == IntToDecimal(n)
  {
    var d := IntToDecimal(n);
    NatToDecimalValue(-n);
    assert !Text.IsSpace(d[0]) && !Text.IsSpace(d[|d| - 1]);
    Text.TrimUnchanged(d);
  }

  /** `String(n)` is a canonical numeral, after a `-` sign when `n` is negative. */
  lemma IntToDecimalCanonical(n: int)
    ensures var d := IntToDecimal(n);
      && (n < 0 ==> |d| >= 2 && d[0] == '-' && Canonical(d[1..]))
      && (n >= 0 ==> Canonical(d))
  {
    var d := IntToDecimal(n);
    if n < 0 {
      NatToDecimalValue(-n);
      assert d[1..] == NatToDecimal(-n);
    } else {
      NatToDecimalValue(n);
    }
  }

  /** Distinct integers are written as distinct numerals. */
  lemma IntToDecimalInjective(m: int, n: int)
    requires IntToDecimal(m) == IntToDecimal(n)
    ensures m == n
  {
    NumberOfDecimal(m);
    NumberOfDecimal(n);
  }

  /** A canonical numeral is exactly what `String` writes for its value. */
  lemma {:induction false} DecimalOfDigits(s: string)
    requires Canonical(s)
    ensures NatToDecimal(DigitsValue(s)) == s
    decreases |s|
  {
    if |s| > 1 {
      var p := s[..|s| - 1];
      assert Canonical(p);
      LeadingDigitPositive(p);
      DecimalOfDigits(p);
      NatToDecimalValue(DigitsValue(p));
      var n := DigitsValue(s);
      assert n / 10 == DigitsValue(p) && n % 10 == DigitValue(s[|s| - 1]);
      assert s == p + [s[|s| - 1]];
    }
  }

  /** A numeral that starts with a non-zero digit denotes a positive number. */
  lemma {:induction false} LeadingDigitPositive(s: string)
    requires AllDigits(s) && |s| >= 1 && s[0] != '0'
    ensures DigitsValue(s) >= 1
    decreases |s|
  {
    if |s| > 1 {
      LeadingDigitPositive(s[..|s| - 1]);
    }
  }

  predicate AllZeros(z: string) {
    forall i :: 0 <= i < |z| ==> z[i] == '0'
  }

  /** A run of zeros is worth nothing. */
  lemma {:induction false} ZerosValue(z: string)
    requires AllZeros(z)
    ensures AllDigits(z) && DigitsValue(z) == 0
    decreases |z|
  {
    if z != [] {
      ZerosValue(z[..|z| - 1]);
    }
  }

  /** Leading zeros do not change the value of a numeral. */
  lemma {:induction false} LeadingZerosValue(z: string, s: string)
    requires AllZeros(z) && AllDigits(s)
    ensures AllDigits(z + s) && DigitsValue(z + s) == DigitsValue(s)
    decreases |s|
  {
    if s == [] {
      assert z + s == z;
      ZerosValue(z);
    } else {
      var p := s[..|s| - 1];
      assert (z + s)[..|z + s| - 1] == z + p;
      LeadingZerosValue(z, p);
    }
  }

  /** `s.padStart(width, "0")`. */
  function PadStart(s: string, width: nat): (r: string)
    ensures |r| == if |s| >= width then |s| else width
    ensures r[|r| - |s|..] == s
    ensures forall i :: 0 <= i < |r| - |s| ==> r[i] == '0'
  {
    if |s| >= width then s else seq(width - |s|, _ => '0') + s
  }

  /**
   * A one- or two-digit numeral read with `Number` and written back with
   * `String(..).padStart(2, "0")` is the same digits, padded to two.
   */
  lemma PadTwoDigits(s: string)
    requires AllDigits(s) && 1 <= |s| <= 2
    ensures PadStart(NatToDecimal(DigitsValue(s)), 2) == if |s| == 1 then "0" + s else s
  {
    if |s| == 2 && s[0] == '0' {
      var t := s[1..];
      assert DigitsValue(s) == DigitsValue(t) by {
        assert s[..1][..0] == [] && t[..0] == [];
      }
      DecimalOfDigits(t);
      assert "0" + t == s;
    } else {
      DecimalOfDigits(s);
    }
  }
}
