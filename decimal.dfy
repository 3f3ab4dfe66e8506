/** Decimal values as the ledger stores them (MongoDB Decimal128), their
    plain string form (what `getTransactions` renders) and the parser used
    for the positive-decimal request fields. */
module Decimals {
  import opened Wrappers

  /** A non-negative decimal number: `coefficient / 10^scale`. Trailing
      zeros are significant to the representation (`1.50` has coefficient
      150 and scale 2), as they are to Decimal128. */
  datatype Decimal = Decimal(coefficient: nat, scale: nat)

  function Pow10(n: nat): (r: nat)
    ensures r >= 1
  {
    if n == 0 then 1 else 10 * Pow10(n - 1)
  }

  /** The exact rational value of a decimal, as big.js computes with it. */
  function Value(d: Decimal): real
  {
    d.coefficient as real / Pow10(d.scale) as real
  }

  lemma ValuePositive(d: Decimal)
    ensures Value(d) > 0.0 <==> d.coefficient > 0
    ensures Value(d) >= 0.0
  {
    var p := Pow10(d.scale) as real;
    assert p >= 1.0;
    assert Value(d) * p == d.coefficient as real;
  }

  predicate IsDigit(c: char)
  {
    '0' <= c <= '9'
  }

  predicate AllDigits(s: string)
  {
    forall i :: 0 <= i < |s| ==> IsDigit(s[i])
  }

  function DigitValue(c: char): nat
    requires IsDigit(c)
  {
    c as int - '0' as int
  }

  function DigitChar(n: nat): (c: char)
    requires n < 10
    ensures IsDigit(c) && DigitValue(c) == n
  {
    ('0' as int + n) as char
  }

  /** The number a string of decimal digits denotes (most significant first). */
  function DigitsToNat(s: string): nat
    requires AllDigits(s)
  {
    if s == [] then 0 else 10 * DigitsToNat(s[..|s| - 1]) + DigitValue(s[|s| - 1])
  }

  /** The shortest decimal digit string of a natural number. */
  function NatToDigits(n: nat): (s: string)
    ensures |s| >= 1 && AllDigits(s)
  {
    if n < 10 then [DigitChar(n)] else NatToDigits(n / 10) + [DigitChar(n % 10)]
  }

  lemma {:induction false} DigitsRoundTrip(n: nat)
    ensures DigitsToNat(NatToDigits(n)) == n
  {
    if n >= 10 {
      var s := NatToDigits(n);
      assert s[..|s| - 1] == NatToDigits(n / 10);
      DigitsRoundTrip(n / 10);
    }
  }

  function Zeros(k: nat): (z: string)
    ensures |z| == k && AllDigits(z)
    ensures forall i :: 0 <= i < k ==> z[i] == '0'
  {
    seq(k, _ => '0')
  }

  lemma {:induction false} ZerosDenoteZero(k: nat)
    ensures DigitsToNat(Zeros(k)) == 0
  {
    if k > 0 {
      assert Zeros(k)[..k - 1] == Zeros(k - 1);
      ZerosDenoteZero(k - 1);
    }
  }

  /** Leading zeros do not change the number a digit string denotes. */
  lemma {:induction false} LeadingZeros(k: nat, s: string)
    requires AllDigits(s)
    ensures AllDigits(Zeros(k) + s) && DigitsToNat(Zeros(k) + s) == DigitsToNat(s)
  {
    var z := Zeros(k);
    if s == [] {
      assert z + s == z;
      ZerosDenoteZero(k);
    } else {
      assert (z + s)[..|z + s| - 1] == z + s[..|s| - 1];
      LeadingZeros(k, s[..|s| - 1]);
    }
  }

  function PadLeft(s: string, width: nat): (r: string)
    ensures |r| >= width && |r| >= |s|
  {
    if |s| >= width then s else Zeros(width - |s|) + s
  }

  /** Index of the first occurrence of `c` in `s`, or `|s|` when there is none. */
  function IndexOf(s: string, c: char): (k: nat)
    ensures k <= |s|
    ensures k < |s| ==> s[k] == c
    ensures forall j :: 0 <= j < k ==> s[j] != c
  {
    if s == [] then 0
    else if s[0] == c then 0
    else 1 + IndexOf(s[1..], c)
  }

  /** Plain (non-exponent) rendering of a decimal: integer digits, then,
      when the scale is positive, a point and exactly `scale` fraction
      digits, with leading zeros padded in ("0.05"). */
  function ToString(d: Decimal): string
  {
    var digits := NatToDigits(d.coefficient);
    if d.scale == 0 then digits
    else
      var padded := PadLeft(digits, d.scale + 1);
      padded[..|padded| - d.scale] + "." + padded[|padded| - d.scale..]
  }

  /** Parses an unsigned decimal literal: digits with at most one point and
      at least one digit ("12", "0.5", ".5", "5."). */
  function Parse(s: string): Option<Decimal>
  {
    var k := IndexOf(s, '.');
    if k == |s| then
      if s != [] && AllDigits(s) then Some(Decimal(DigitsToNat(s), 0)) else None
    else
      var whole, frac := s[..k], s[k + 1..];
      if AllDigits(whole) && AllDigits(frac) && |whole| + |frac| > 0
      then Some(Decimal(DigitsToNat(whole + frac), |frac|))
      else None
  }

  /** The first point of `a + "." + b` is the one after the digits `a`. */
  lemma {:induction false} IndexOfPoint(a: string, b: string)
    requires AllDigits(a)
    ensures IndexOf(a + "." + b, '.') == |a|
  {
    if a != [] {
      assert (a + "." + b)[1..] == a[1..] + "." + b;
      IndexOfPoint(a[1..], b);
    }
  }

  lemma {:induction false} IndexOfDigits(s: string)
    requires AllDigits(s)
    ensures IndexOf(s, '.') == |s|
  {
    if s != [] {
      IndexOfDigits(s[1..]);
    }
  }

  lemma ParseWithPoint(whole: string, frac: string, digits: string)
    requires AllDigits(whole) && AllDigits(frac) && |whole| > 0
    requires digits == whole + frac
    ensures AllDigits(digits)
    ensures Parse(whole + "." + frac) == Some(Decimal(DigitsToNat(digits), |frac|))
  {
    var s := whole + "." + frac;
    IndexOfPoint(whole, frac);
    assert s[..|whole|] == whole && s[|whole| + 1..] == frac;
  }

  lemma ParseWithoutPoint(s: string)
    requires AllDigits(s) && s != []
    ensures Parse(s) == Some(Decimal(DigitsToNat(s), 0))
  {
    IndexOfDigits(s);
  }

  /** The coefficient's digits, left-padded with zeros to `scale + 1` digits. */
  lemma PaddedDigits(d: Decimal) returns (padded: string)
    ensures padded == PadLeft(NatToDigits(d.coefficient), d.scale + 1)
    ensures AllDigits(padded) && DigitsToNat(padded) == d.coefficient
  {
    var digits := NatToDigits(d.coefficient);
    DigitsRoundTrip(d.coefficient);
    padded := PadLeft(digits, d.scale + 1);
    if |digits| < d.scale + 1 {
      LeadingZeros(d.scale + 1 - |digits|, digits);
    }
  }

  /** A positive-scale rendering is integer digits, a point and `scale` fraction digits. */
  lemma ToStringParts(d: Decimal) returns (whole: string, frac: string, padded: string)
    requires d.scale > 0
    ensures ToString(d) == whole + "." + frac
    ensures AllDigits(whole) && AllDigits(frac) && |whole| > 0 && |frac| == d.scale
    ensures padded == whole + frac && AllDigits(padded) && DigitsToNat(padded) == d.coefficient
  {
    padded := PaddedDigits(d);
    var n := |padded| - d.scale;
    whole, frac := padded[..n], padded[n..];
    assert whole + frac == padded;
  }

  /** The rendered string denotes exactly the stored decimal: no precision
      is lost and the scale (trailing zeros included) survives. */
  lemma ParseToString(d: Decimal)
    ensures Parse(ToString(d)) == Some(d)
  {
    if d.scale == 0 {
      DigitsRoundTrip(d.coefficient);
      ParseWithoutPoint(NatToDigits(d.coefficient));
    } else {
      var whole, frac, padded := ToStringParts(d);
      ParseWithPoint(whole, frac, padded);
    }
  }

  /** A digit string without superfluous leading zero: "0", or a first
      digit other than '0'. */
  predicate NoLeadingZero(s: string)
  {
    AllDigits(s) && |s| > 0 && (s == "0" || s[0] != '0')
  }

  /** The plain literals `ToString` produces: canonical integer digits,
      optionally followed by a point and at least one fraction digit. */
  predicate Canonical(s: string)
  {
    var k := IndexOf(s, '.');
    if k == |s| then NoLeadingZero(s)
    else NoLeadingZero(s[..k]) && |s| > k + 1 && AllDigits(s[k + 1..])
  }

  /** A digit string whose first digit is not '0' denotes a positive number. */
  lemma {:induction false} NonZeroLead(s: string)
    requires AllDigits(s) && |s| > 0 && s[0] != '0'
    ensures DigitsToNat(s) >= 1
  {
    if |s| > 1 {
      NonZeroLead(s[..|s| - 1]);
    }
  }

  /** The shortest digits of `n` have no superfluous leading zero. */
  lemma {:induction false} NatToDigitsLead(n: nat)
    ensures NoLeadingZero(NatToDigits(n))
    ensures n > 0 ==> NatToDigits(n)[0] != '0'
  {
    if n >= 10 {
      NatToDigitsLead(n / 10);
    }
  }

  /** A digit string without superfluous leading zero is the shortest
      digit string of the number it denotes. */
  lemma {:induction false} CanonicalDigits(s: string)
    requires NoLeadingZero(s)
    ensures NatToDigits(DigitsToNat(s)) == s
  {
    var last := s[|s| - 1];
    assert DigitChar(DigitValue(last)) == last;
    if |s| > 1 {
      var front := s[..|s| - 1];
      assert front[0] == s[0] != '0';
      NonZeroLead(front);
      CanonicalDigits(front);
      var n := DigitsToNat(s);
      assert n / 10 == DigitsToNat(front) && n % 10 == DigitValue(last);
    }
  }

  /** Padding to one digit more than `w` adds one leading zero. */
  lemma PadLeftOneMore(s: string, w: nat)
    requires |s| <= w
    ensures PadLeft(s, w + 1) == "0" + PadLeft(s, w)
  {
    if |s| < w {
      assert Zeros(w + 1 - |s|) == "0" + Zeros(w - |s|);
    }
  }

  /** The digits of the number a digit string `t` denotes, padded to
      `|t| + 1` digits, are `t` with one leading zero. */
  lemma {:induction false} PadBack(t: string)
    requires AllDigits(t)
    ensures PadLeft(NatToDigits(DigitsToNat(t)), |t| + 1) == "0" + t
  {
    var n := NatToDigits(DigitsToNat(t));
    if t == [] {
    } else if t[0] == '0' {
      var rest := t[1..];
      assert Zeros(1) + rest == t;
      LeadingZeros(1, rest);
      PadBack(rest);
      assert |PadLeft(n, |rest| + 1)| == |t|;
      PadLeftOneMore(n, |t|);
    } else {
      CanonicalDigits(t);
      assert Zeros(1) == "0";
    }
  }

  /** Rendering a canonical literal `whole.frac` after parsing it gives it back. */
  lemma ToStringParseWithPoint(whole: string, frac: string)
    requires NoLeadingZero(whole) && AllDigits(frac) && |frac| > 0
    ensures Parse(whole + "." + frac).Some?
    ensures ToString(Parse(whole + "." + frac).value) == whole + "." + frac
  {
    ParseWithPoint(whole, frac, whole + frac);
    var d := Decimal(DigitsToNat(whole + frac), |frac|);
    var padded := PadLeft(NatToDigits(d.coefficient), d.scale + 1);
    if whole == "0" {
      assert Zeros(1) + frac == whole + frac;
      LeadingZeros(1, frac);
      PadBack(frac);
      assert padded == "0" + frac;
    } else {
      assert (whole + frac)[0] == whole[0];
      CanonicalDigits(whole + frac);
      assert padded == whole + frac;
    }
    assert padded[..|padded| - d.scale] == whole && padded[|padded| - d.scale..] == frac;
  }

  /** Rendering a canonical literal after parsing it gives back the very
      same string. */
  lemma ToStringParse(s: string)
    requires Canonical(s)
    ensures Parse(s).Some? && ToString(Parse(s).value) == s
  {
    var k := IndexOf(s, '.');
    if k == |s| {
      ParseWithoutPoint(s);
      CanonicalDigits(s);
    } else {
      var whole, frac := s[..k], s[k + 1..];
      assert s == whole + "." + frac;
      ToStringParseWithPoint(whole, frac);
    }
  }

  /** Every rendering is a canonical literal. */
  lemma ToStringCanonical(d: Decimal)
    ensures Canonical(ToString(d))
  {
    var digits := NatToDigits(d.coefficient);
    NatToDigitsLead(d.coefficient);
    if d.scale == 0 {
      IndexOfDigits(digits);
    } else {
      var whole, frac, padded := ToStringParts(d);
      IndexOfPoint(whole, frac);
      var s := whole + "." + frac;
      assert s[..|whole|] == whole && s[|whole| + 1..] == frac;
      if |digits| < d.scale + 1 {
        assert whole == "0";
      } else {
        assert padded == digits && whole[0] == digits[0];
      }
    }
  }
}
