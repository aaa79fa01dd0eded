/**
 * Decimal rendering of integers, as Swift's string interpolation `"\(page)"`
 * renders an `Int`, and a reader for such text with the behaviour of Swift's
 * `Int.init?(_ description: String)`: an optional sign, one or more ASCII
 * digits, and `nil` when the value does not fit in 64 bits.
 */
module Decimal {
  import opened Wrappers

  const MinInt64: int := -0x8000_0000_0000_0000
  const MaxInt64: int := 0x7FFF_FFFF_FFFF_FFFF

  /** Swift's `Int` on every 64-bit platform the package targets. */
  type Int64 = x: int | MinInt64 <= x <= MaxInt64

  predicate IsDigit(c: char) {
    '0' <= c <= '9'
  }

  predicate AllDigits(s: string) {
    forall i :: 0 <= i < |s| ==> IsDigit(s[i])
  }

  function DigitValue(c: char): (d: nat)
    requires IsDigit(c)
    ensures d < 10
  {
    c as int - '0' as int
  }

  function DigitChar(d: nat): (c: char)
    requires d < 10
    ensures IsDigit(c) && DigitValue(c) == d
  {
    ('0' as int + d) as char
  }

  /** The value of a string of digits, most significant digit first. */
  function DigitsValue(s: string): nat
    requires AllDigits(s)
  {
    if s == [] then 0 else DigitsValue(s[..|s| - 1]) * 10 + DigitValue(s[|s| - 1])
  }

  /** Digits with no superfluous leading zero: "0", "7", "42", but not "" or "007". */
  predicate IsCanonicalNat(s: string) {
    |s| > 0 && AllDigits(s) && (s[0] == '0' ==> |s| == 1)
  }

  /** The text `"\(i)"` produces: a canonical magnitude, with a '-' before it when negative. */
  predicate IsCanonicalInt(s: string) {
    IsCanonicalNat(s) || (|s| > 1 && s[0] == '-' && IsCanonicalNat(s[1..]) && s[1..] != "0")
  }

  /** Base-10 digits of `n`, most significant first. */
  function NatToString(n: nat): (s: string)
    ensures IsCanonicalNat(s)
    ensures s[0] == '0' <==> n == 0
    ensures |s| == 1 <==> n < 10
  {
    if n < 10 then [DigitChar(n)] else NatToString(n / 10) + [DigitChar(n % 10)]
  }

  /** Swift's rendering of an `Int` by string interpolation. */
  function IntToString(i: int): (s: string)
    ensures IsCanonicalInt(s)
    ensures |s| > 0 && (s[0] == '-' <==> i < 0)
  {
    if i < 0 then "-" + NatToString(-i) else NatToString(i)
  }

  /** Reading an integer back, as `Int(s)` does in Swift. */
  function ParseInt(s: string): (r: Option<int>)
    ensures r.Some? ==> MinInt64 <= r.value <= MaxInt64
    ensures r.Some? ==> |s| > 0 && (AllDigits(s) || ((s[0] == '-' || s[0] == '+') && AllDigits(s[1..])))
  {
    var signed := |s| > 0 && (s[0] == '-' || s[0] == '+');
    var digits := if signed then s[1..] else s;
    if |digits| == 0 || !AllDigits(digits) then None
    else
      var v: int := if signed && s[0] == '-' then -(DigitsValue(digits) as int) else DigitsValue(digits);
      if MinInt64 <= v <= MaxInt64 then Some(v) else None
  }

  /** The value of digits is at least their leading digit. */
  lemma {:induction false} LeadingDigitBound(s: string)
    requires |s| > 0 && AllDigits(s)
    ensures DigitsValue(s) >= DigitValue(s[0])
  {
    if |s| > 1 {
      var p := s[..|s| - 1];
      assert p[0] == s[0];
      LeadingDigitBound(p);
    }
  }

  /** Reading the digits of `n` gives `n` back. */
  lemma {:induction false} NatRoundTrip(n: nat)
    ensures DigitsValue(NatToString(n)) == n
  {
    if n >= 10 {
      var s := NatToString(n);
      assert s[..|s| - 1] == NatToString(n / 10);
      NatRoundTrip(n / 10);
    }
  }

  /** A canonical digit string is the rendering of its own value. */
  lemma {:induction false} NatCanonical(s: string)
    requires IsCanonicalNat(s)
    ensures NatToString(DigitsValue(s)) == s
  {
    if |s| > 1 {
      var p := s[..|s| - 1];
      var d := DigitValue(s[|s| - 1]);
      assert p[0] == s[0];
      assert IsCanonicalNat(p);
      LeadingDigitBound(p);
      NatCanonical(p);
      var v := DigitsValue(s);
      assert v == DigitsValue(p) * 10 + d;
      assert v / 10 == DigitsValue(p) && v % 10 == d;
      assert NatToString(v) == p + [DigitChar(d)];
      assert DigitChar(d) == s[|s| - 1];
      assert s == p + [s[|s| - 1]];
    }
  }

  /** Rendering an `Int` and reading it back gives the same `Int`. */
  lemma IntRoundTrip(i: Int64)
    ensures ParseInt(IntToString(i)) == Some(i)
  {
    var s := IntToString(i);
    if i < 0 {
      var m: nat := -(i as int);
      var t := NatToString(m);
      assert s == "-" + t && s[1..] == t;
      NatRoundTrip(m);
    } else {
      var t := NatToString(i);
      assert s == t && IsDigit(s[0]);
      NatRoundTrip(i);
    }
  }

  /**
   * `IntToString(i)` is exactly the canonical text that reads as `i`:
   * the rendering is canonical and reads back as `i`, and no other canonical text reads as `i`.
   */
  lemma IntToStringCharacterized(i: Int64, s: string)
    ensures IntToString(i) == s <==> IsCanonicalInt(s) && ParseInt(s) == Some(i)
  {
    if IntToString(i) == s {
      IntRoundTrip(i);
    }
    if IsCanonicalInt(s) && ParseInt(s) == Some(i) {
      if IsCanonicalNat(s) {
        assert !(s[0] == '-' || s[0] == '+');
        NatCanonical(s);
      } else {
        var t := s[1..];
        assert t[0] != '0';
        LeadingDigitBound(t);
        NatCanonical(t);
        assert s == "-" + t;
      }
    }
  }

  /** Distinct `Int`s render to distinct text. */
  lemma IntToStringInjective(i: Int64, j: Int64)
    requires IntToString(i) == IntToString(j)
    ensures i == j
  {
    IntRoundTrip(i);
    IntRoundTrip(j);
  }
}
