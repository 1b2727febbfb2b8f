/**
 * Numbers as the upload page reads and writes them: `parseFloat` (the longest
 * decimal prefix after leading white space, NaN when there is none) and
 * `toFixed(2)` (two fractional digits, ties rounded up in magnitude). Numbers
 * are exact rationals here; NaN is `None`.
 */
module Decimal {
  import opened Wrappers
  import opened Text
  import opened Digits

  /** The number of digits at the front of `s`. */
  function LeadingDigits(s: string): (k: nat)
    ensures k <= |s| && AllDigits(s[..k])
    ensures k < |s| ==> !IsDigit(s[k])
  {
    if s != [] && IsDigit(s[0]) then
      var k := 1 + LeadingDigits(s[1..]);
      assert s[..k] == [s[0]] + s[1..][..k - 1];
      k
    else 0
  }

  /** `10^e` for a signed exponent. */
  function Scale(e: int): (p: real)
    ensures p > 0.0
  {
    if e >= 0 then Pow10(e) as real else 1.0 / Pow10(-e) as real
  }

  /** The exponent part at the front of `s` (`e`/`E`, optional sign, at least one digit), if any. */
  function Exponent(s: string): int {
    if |s| >= 2 && (s[0] == 'e' || s[0] == 'E') then
      var digits := if s[1] == '+' || s[1] == '-' then s[2..] else s[1..];
      var k := LeadingDigits(digits);
      if k == 0 then 0
      else if s[1] == '-' then 0 - ValueOf(digits[..k])
      else ValueOf(digits[..k])
    else 0
  }

  /**
   * The mantissa at the front of `u`, as its digits before the point, its
   * digits after the point and the text that follows it.
   */
  function SplitMantissa(u: string): (string, string, string) {
    var i := LeadingDigits(u);
    if i < |u| && u[i] == '.' then
      var after := u[i + 1..];
      var j := LeadingDigits(after);
      (u[..i], after[..j], after[j..])
    else (u[..i], [], u[i..])
  }

  /** The value of `whole.frac` times `10^e`: the digit run `whole frac` scaled by `10^(e - |frac|)`. */
  function LiteralValue(whole: string, frac: string, e: int): real
    requires AllDigits(whole) && AllDigits(frac)
  {
    ValueOf(whole + frac) as real * Scale(e - |frac|)
  }

  /**
   * The unsigned decimal literal at the front of `u`: digits, an optional
   * point with optional digits, an optional exponent; or a point followed by
   * digits. None when the front of `u` has no mantissa digit.
   */
  function ParseUnsigned(u: string): Option<real> {
    var (whole, frac, rest) := SplitMantissa(u);
    if whole == [] && frac == [] then None
    else Some(LiteralValue(whole, frac, Exponent(rest)))
  }

  /** `parseFloat(s)`; `None` stands for NaN. */
  function ParseFloat(s: string): Option<real> {
    ParseSigned(TrimStart(s))
  }

  /** An optional sign, then an unsigned literal. */
  function ParseSigned(t: string): Option<real> {
    if t != [] && (t[0] == '+' || t[0] == '-') then
      var v := ParseUnsigned(t[1..]);
      if v.Some? && t[0] == '-' then Some(-v.value) else v
    else ParseUnsigned(t)
  }

  /** `Number.isNaN(x) ? 0 : x`, the fallback the balancete columns use. */
  function OrZero(x: Option<real>): real {
    match x
    case None => 0.0
    case Some(v) => v
  }

  /** The whole number of hundredths nearest to `m`, the larger one on a tie. */
  function Cents(m: real): nat
    requires m >= 0.0
  {
    (m * 100.0 + 0.5).Floor
  }

  /** `m` rounded to two places as `toFixed(2)` rounds a non-negative number. */
  function Round2(v: real): real {
    if v < 0.0 then -(Cents(-v) as real / 100.0) else Cents(v) as real / 100.0
  }

  /** Text of the form `[-]digits.dd`: what `toFixed(2)` gives for a number. */
  predicate IsTwoPlaces(r: string) {
    var body := if r != [] && r[0] == '-' then r[1..] else r;
    && |body| >= 4
    && body[|body| - 3] == '.'
    && AllDigits(body[..|body| - 3])
    && AllDigits(body[|body| - 2..])
  }

  /** `toFixed(2)` of a non-negative number: whole part, point, two digits. */
  function FixedMagnitude(m: real): (r: string)
    requires m >= 0.0
    ensures IsTwoPlaces(r) && IsDigit(r[0])
  {
    var n := Cents(m);
    var whole := NatToString(n / 100);
    var dd := ZeroPad(n % 100, 2);
    ZeroPadValue(n % 100, 2);
    TwoDigitsFit(n % 100);
    var r := whole + "." + dd;
    assert r[..|r| - 3] == whole && r[|r| - 2..] == dd;
    r
  }

  /** `Number(x).toFixed(2)`: "NaN" for NaN, otherwise exactly two fractional digits. */
  function ToFixed2(x: Option<real>): (r: string)
    ensures x.None? ==> r == "NaN"
    ensures x.Some? ==> IsTwoPlaces(r) && (r[0] == '-' <==> x.value < 0.0)
  {
    match x
    case None => "NaN"
    case Some(v) =>
      if v < 0.0 then
        var f := FixedMagnitude(-v);
        assert ("-" + f)[1..] == f;
        "-" + f
      else FixedMagnitude(v)
  }

  lemma TwoDigitsFit(n: nat)
    requires n < 100
    ensures |NatToString(n)| <= 2
  {
    if n >= 10 {
      assert NatToString(n) == NatToString(n / 10) + [DigitChar(n % 10)];
    }
  }

  /** Parsing what `toFixed(2)` printed gives the number rounded to two places. */
  lemma ToFixed2RoundTrip(v: real)
    ensures ParseFloat(ToFixed2(Some(v))) == Some(Round2(v))
  {
    var t := ToFixed2(Some(v));
    if v < 0.0 {
      var m := -v;
      ParseFixedMagnitude(m);
      assert t[1..] == FixedMagnitude(m);
      ParseFloatNegated(t, Cents(m) as real / 100.0);
    } else {
      ParseFixedMagnitude(v);
      ParseFloatUnsigned(t);
    }
  }

  /** A minus sign in front of a literal that starts with a digit negates it. */
  lemma ParseFloatNegated(s: string, c: real)
    requires |s| >= 2 && s[0] == '-' && IsDigit(s[1]) && ParseUnsigned(s[1..]) == Some(c)
    ensures ParseFloat(s) == Some(-c)
  {
    assert !IsSpace(s[0]);
    assert TrimStart(s) == s;
  }

  /** The unsigned text of `toFixed(2)` starts with a digit and parses to the rounded magnitude. */
  lemma ParseFixedMagnitude(m: real)
    requires m >= 0.0
    ensures var f := FixedMagnitude(m);
            f != [] && IsDigit(f[0]) && ParseUnsigned(f) == Some(Cents(m) as real / 100.0)
  {
    var n := Cents(m);
    var whole := NatToString(n / 100);
    var dd := ZeroPad(n % 100, 2);
    ZeroPadValue(n % 100, 2);
    TwoDigitsFit(n % 100);
    NatToStringValue(n / 100);
    ParseDigitsPointDigits(whole, dd);
    assert FixedMagnitude(m) == whole + "." + dd == whole + ("." + dd);
    assert (n / 100) as real + (n % 100) as real / 100.0 == n as real / 100.0;
  }

  /** The literal `whole.dd` (two fractional digits, nothing after) parses to its value. */
  lemma ParseDigitsPointDigits(whole: string, dd: string)
    requires whole != [] && AllDigits(whole) && AllDigits(dd) && |dd| == 2
    ensures ParseUnsigned(whole + ("." + dd)) == Some(ValueOf(whole) as real + ValueOf(dd) as real / 100.0)
  {
    SplitPointDigits(whole, dd);
    assert Exponent([]) == 0;
    assert ParseUnsigned(whole + ("." + dd)) == Some(LiteralValue(whole, dd, 0));
    HundredthsValue(whole, dd);
  }

  /** The digit runs `whole` and `dd` read as `whole.dd`. */
  lemma HundredthsValue(whole: string, dd: string)
    requires AllDigits(whole) && AllDigits(dd) && |dd| == 2
    ensures LiteralValue(whole, dd, 0) == ValueOf(whole) as real + ValueOf(dd) as real / 100.0
  {
    var a, b := ValueOf(whole), ValueOf(dd);
    var n := ValueOf(whole + dd);
    ValueOfAppend(whole, dd);
    assert Pow10(2) == 100 by {
      assert Pow10(1) == 10;
    }
    assert n == a * 100 + b;
    assert Scale(0 - |dd|) == 1.0 / 100.0;
    assert LiteralValue(whole, dd, 0) == n as real * (1.0 / 100.0);
    assert n as real == a as real * 100.0 + b as real;
  }

  lemma SplitPointDigits(whole: string, frac: string)
    requires AllDigits(whole) && AllDigits(frac)
    ensures SplitMantissa(whole + ("." + frac)) == (whole, frac, [])
  {
    var u := whole + ("." + frac);
    LeadingDigitsStop(whole, "." + frac);
    assert u[..|whole|] == whole;
    assert u[|whole|] == '.';
    assert u[|whole| + 1..] == frac;
    LeadingDigitsAll(frac);
    assert frac[..|frac|] == frac && frac[|frac|..] == [];
  }

  lemma {:induction false} LeadingDigitsStop(d: string, rest: string)
    requires AllDigits(d) && (rest == [] || !IsDigit(rest[0]))
    ensures LeadingDigits(d + rest) == |d|
  {
    if d != [] {
      assert (d + rest)[1..] == d[1..] + rest;
      LeadingDigitsStop(d[1..], rest);
    } else {
      assert d + rest == rest;
    }
  }

  lemma LeadingDigitsAll(d: string)
    requires AllDigits(d)
    ensures LeadingDigits(d) == |d|
  {
    LeadingDigitsStop(d, []);
    assert d + [] == d;
  }

  /** A whole number of hundredths is printed exactly: rounding leaves it alone. */
  lemma Round2Cents(c: int)
    ensures Round2(c as real / 100.0) == c as real / 100.0
  {
    if c < 0 {
      assert Cents(-(c as real / 100.0)) == -c;
    } else {
      assert Cents(c as real / 100.0) == c;
    }
  }

  /** `String(n)` for a natural number parses back to `n`. */
  lemma ParseFloatNat(n: nat)
    ensures ParseFloat(NatToString(n)) == Some(n as real)
  {
    ParseFloatDigits(NatToString(n));
    NatToStringValue(n);
  }

  /** A bare run of digits parses to its value. */
  lemma ParseFloatDigits(d: string)
    requires d != [] && AllDigits(d)
    ensures ParseFloat(d) == Some(ValueOf(d) as real)
  {
    ParseFloatUnsigned(d);
    assert SplitMantissa(d) == (d, [], []) by {
      LeadingDigitsAll(d);
      assert d[..|d|] == d && d[|d|..] == [];
    }
    assert Exponent([]) == 0;
    assert Scale(0) == 1.0;
    assert d + [] == d;
    assert LiteralValue(d, [], 0) == ValueOf(d) as real;
  }

  /** Text that starts with a digit is read without sign or white-space handling. */
  lemma ParseFloatUnsigned(s: string)
    requires s != [] && IsDigit(s[0])
    ensures ParseFloat(s) == ParseUnsigned(s)
  {
    assert TrimStart(s) == s;
  }

  /** Leading white space does not change what `parseFloat` reads. */
  lemma ParseFloatSkipsSpace(p: string, s: string)
    requires AllSpace(p)
    ensures ParseFloat(p + s) == ParseFloat(s)
  {
    TrimStartAfterSpace(p, s);
  }

  lemma {:induction false} TrimStartAfterSpace(p: string, s: string)
    requires AllSpace(p)
    ensures TrimStart(p + s) == TrimStart(s)
  {
    if p != [] {
      assert (p + s)[1..] == p[1..] + s;
      TrimStartAfterSpace(p[1..], s);
    } else {
      assert p + s == s;
    }
  }

  /** Text whose first visible character cannot start a number is NaN. */
  lemma ParseFloatNaN(s: string)
    requires var t := TrimStart(s);
             t == [] || !(IsDigit(t[0]) || t[0] == '.' || t[0] == '+' || t[0] == '-')
    ensures ParseFloat(s) == None
  {
  }
}
