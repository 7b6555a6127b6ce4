/**
 * Decimal integer text as Java's `Integer.parseInt` / `Long.parseLong` read it
 * in radix 10 (which is what `new Integer(s)` and `new Long(s)` do): an
 * optional `+` or `-`, then one or more digits, and a value inside the range
 * of the target type. Digits are the ASCII digits `0`..`9`.
 */
module Decimal {
  import opened Wrappers

  const Int32Min: int := -0x8000_0000
  const Int32Max: int := 0x7fff_ffff
  const Int64Min: int := -0x8000_0000_0000_0000
  const Int64Max: int := 0x7fff_ffff_ffff_ffff

  predicate IsDigit(c: char) {
    '0' <= c <= '9'
  }

  predicate AllDigits(s: string) {
    forall i :: 0 <= i < |s| ==> IsDigit(s[i])
  }

  function DigitValue(c: char): nat
    requires IsDigit(c)
  {
    c as int - '0' as int
  }

  function DigitChar(d: nat): (c: char)
    requires d < 10
    ensures IsDigit(c) && DigitValue(c) == d
  {
    ('0' as int + d) as char
  }

  /** The number a run of digits denotes, most significant digit first. */
  function DigitsValue(s: string): nat
    requires AllDigits(s)
    decreases |s|
  {
    if s == [] then 0 else 10 * DigitsValue(s[..|s| - 1]) + DigitValue(s[|s| - 1])
  }

  /** The digits of `n` without leading zeros (the digits of `Integer.toString`). */
  function NatToDigits(n: nat): (s: string)
    ensures |s| > 0 && AllDigits(s)
    ensures |s| == 1 || s[0] != '0'
    decreases n
  {
    if n < 10 then [DigitChar(n)] else NatToDigits(n / 10) + [DigitChar(n % 10)]
  }

  /** `Integer.toString` / `Long.toString` in radix 10. */
  function IntToDecimal(n: int): string {
    if n < 0 then "-" + NatToDigits(-n) else NatToDigits(n)
  }

  predicate IsSign(c: char) {
    c == '-' || c == '+'
  }

  /** The text after an optional leading sign. */
  function Magnitude(s: string): (m: string)
    ensures |m| <= |s|
  {
    if |s| > 0 && IsSign(s[0]) then s[1..] else s
  }

  /** An optional sign followed by one or more digits. */
  predicate IsDecimalLiteral(s: string) {
    |Magnitude(s)| > 0 && AllDigits(Magnitude(s))
  }

  /** The signed number a decimal literal denotes. */
  function LiteralValue(s: string): int
    requires IsDecimalLiteral(s)
  {
    if s[0] == '-' then -(DigitsValue(Magnitude(s)) as int) else DigitsValue(Magnitude(s))
  }

  /**
   * Radix-10 parse with range [lo, hi]: None wherever Java throws
   * `NumberFormatException` (empty text, a sign alone, a non-digit, a value
   * out of range).
   */
  function ParseDecimal(s: string, lo: int, hi: int): (r: Option<int>)
    ensures r.Some? <==> IsDecimalLiteral(s) && lo <= LiteralValue(s) <= hi
    ensures r.Some? ==> r.value == LiteralValue(s) && lo <= r.value <= hi
    ensures r.Some? && s[0] != '-' ==> r.value >= 0
  {
    if !IsDecimalLiteral(s) then None
    else if lo <= LiteralValue(s) <= hi then Some(LiteralValue(s))
    else None
  }

  /** Reading back the digits of `n` gives `n`. */
  lemma {:induction false} DigitsOfNat(n: nat)
    ensures DigitsValue(NatToDigits(n)) == n
    decreases n
  {
    if n >= 10 {
      var s := NatToDigits(n);
      DigitsOfNat(n / 10);
      assert s[..|s| - 1] == NatToDigits(n / 10);
    }
  }

  /** A run of digits with a nonzero leading digit denotes a positive number. */
  lemma {:induction false} LeadingNonzeroPositive(s: string)
    requires |s| > 0 && AllDigits(s) && s[0] != '0'
    ensures DigitsValue(s) > 0
    decreases |s|
  {
    if |s| > 1 {
      LeadingNonzeroPositive(s[..|s| - 1]);
    }
  }

  /** Conversely, digits without leading zeros are the digits of their value. */
  lemma {:induction false} NatToDigitsOfValue(s: string)
    requires |s| > 0 && AllDigits(s) && (|s| == 1 || s[0] != '0')
    ensures NatToDigits(DigitsValue(s)) == s
    decreases |s|
  {
    if |s| > 1 {
      var init := s[..|s| - 1];
      LeadingNonzeroPositive(init);
      NatToDigitsOfValue(init);
      var n := DigitsValue(s);
      assert n / 10 == DigitsValue(init) && n % 10 == DigitValue(s[|s| - 1]);
      assert s == init + [s[|s| - 1]];
    }
  }

  /** Every in-range number survives `toString` followed by `parseInt`. */
  lemma ParseDecimalRoundTrip(n: int, lo: int, hi: int)
    requires lo <= n <= hi
    ensures ParseDecimal(IntToDecimal(n), lo, hi) == Some(n)
  {
    var s := IntToDecimal(n);
    if n < 0 {
      assert Magnitude(s) == NatToDigits(-n);
      DigitsOfNat(-n);
    } else {
      assert Magnitude(s) == NatToDigits(n);
      DigitsOfNat(n);
    }
  }

  /** A run of digits with its leading zeros dropped, keeping at least one digit. */
  function StripZeros(d: string): (m: string)
    requires |d| > 0 && AllDigits(d)
    ensures |m| > 0 && AllDigits(m) && (|m| == 1 || m[0] != '0')
    decreases |d|
  {
    if |d| > 1 && d[0] == '0' then StripZeros(d[1..]) else d
  }

  /**
   * The text `toString` prints for the value of a literal: no `+`, no leading
   * zeros, and no sign on zero.
   */
  function Canonical(s: string): string
    requires IsDecimalLiteral(s)
  {
    var m := StripZeros(Magnitude(s));
    if s[0] == '-' && m != "0" then "-" + m else m
  }

  /** A leading zero does not change the value of a run of digits. */
  lemma {:induction false} LeadingZeroValue(d: string)
    requires AllDigits(d)
    ensures AllDigits("0" + d) && DigitsValue("0" + d) == DigitsValue(d)
    decreases |d|
  {
    if d != [] {
      var init := d[..|d| - 1];
      LeadingZeroValue(init);
      assert ("0" + d)[..|"0" + d| - 1] == "0" + init;
    }
  }

  /** Dropping leading zeros keeps the value. */
  lemma {:induction false} StripZerosValue(d: string)
    requires |d| > 0 && AllDigits(d)
    ensures DigitsValue(StripZeros(d)) == DigitsValue(d)
    decreases |d|
  {
    if |d| > 1 && d[0] == '0' {
      StripZerosValue(d[1..]);
      LeadingZeroValue(d[1..]);
      assert d == "0" + d[1..];
    }
  }

  /**
   * Every text the parse accepts (`+5`, `007`, `-0` among them) denotes the
   * number whose `toString` is its canonical form.
   */
  lemma ParseDecimalCanonical(s: string, lo: int, hi: int)
    requires ParseDecimal(s, lo, hi).Some?
    ensures IntToDecimal(ParseDecimal(s, lo, hi).value) == Canonical(s)
  {
    var m := StripZeros(Magnitude(s));
    StripZerosValue(Magnitude(s));
    NatToDigitsOfValue(m);
    if m != "0" && |m| > 1 {
      LeadingNonzeroPositive(m);
    }
  }
}
