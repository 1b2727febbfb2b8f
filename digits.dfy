/**
 * Decimal digit strings: the `\d` character class of the period pattern, the
 * value of a digit run (`Number("07")`) and the rendering of a natural number
 * with and without zero padding.
 */
module Digits {

  /** `\d` without the `u` flag: the ASCII digits only. */
  predicate IsDigit(c: char) {
    '0' <= c <= '9'
  }

  predicate AllDigits(s: string) {
    forall i :: 0 <= i < |s| ==> IsDigit(s[i])
  }

  function DigitValue(c: char): (d: nat)
    requires IsDigit(c)
    ensures d < 10
  {
    c as int - '0' as int
  }

  function DigitChar(d: nat): (c: char)
    requires d < 10
    ensures IsDigit(c) && DigitValue(c) == d
  {
    ('0' as int + d) as char
  }

  /** The value of a run of digits, most significant first; the empty run is 0. */
  function ValueOf(s: string): nat
    requires AllDigits(s)
  {
    if s == [] then 0 else ValueOf(s[..|s| - 1]) * 10 + DigitValue(s[|s| - 1])
  }

  /** The shortest decimal rendering of `n`, as `String(n)` gives it. */
  function NatToString(n: nat): (r: string)
    ensures AllDigits(r) && r != []
    ensures |r| > 1 ==> r[0] != '0'
  {
    if n < 10 then [DigitChar(n)] else NatToString(n / 10) + [DigitChar(n % 10)]
  }

  /** `n` rendered with zeros in front up to `width` characters. */
  function ZeroPad(n: nat, width: nat): (r: string)
    ensures AllDigits(r)
  {
    var d := NatToString(n);
    Zeros(if |d| < width then width - |d| else 0) + d
  }

  function Zeros(k: nat): (r: string)
    ensures |r| == k && AllDigits(r)
    ensures forall i :: 0 <= i < k ==> r[i] == '0'
  {
    seq(k, _ => '0')
  }

  /** Reading back a rendering gives the number. */
  lemma {:induction false} NatToStringValue(n: nat)
    ensures ValueOf(NatToString(n)) == n
  {
    if n >= 10 {
      NatToStringValue(n / 10);
      var r := NatToString(n);
      assert r[..|r| - 1] == NatToString(n / 10);
    }
  }

  /** Two numbers with the same rendering are equal. */
  lemma NatToStringInjective(m: nat, n: nat)
    requires NatToString(m) == NatToString(n)
    ensures m == n
  {
    NatToStringValue(m);
    NatToStringValue(n);
  }

  /** Leading zeros do not change the value of a digit run. */
  lemma {:induction false} ValueOfLeadingZeros(k: nat, s: string)
    requires AllDigits(s)
    ensures ValueOf(Zeros(k) + s) == ValueOf(s)
  {
    if s == [] {
      ZerosValue(k);
      assert Zeros(k) + s == Zeros(k);
    } else {
      var init := s[..|s| - 1];
      assert (Zeros(k) + s)[..|Zeros(k) + s| - 1] == Zeros(k) + init;
      ValueOfLeadingZeros(k, init);
    }
  }

  lemma {:induction false} ZerosValue(k: nat)
    ensures ValueOf(Zeros(k)) == 0
  {
    if k > 0 {
      assert Zeros(k)[..k - 1] == Zeros(k - 1);
      ZerosValue(k - 1);
    }
  }

  /** A padded rendering has the requested width (when the number fits) and reads back as the number. */
  lemma ZeroPadValue(n: nat, width: nat)
    ensures ValueOf(ZeroPad(n, width)) == n
    ensures |NatToString(n)| <= width ==> |ZeroPad(n, width)| == width
  {
    var d := NatToString(n);
    ValueOfLeadingZeros(if |d| < width then width - |d| else 0, d);
    NatToStringValue(n);
  }

  /** The value of a concatenation of digit runs. */
  lemma {:induction false} ValueOfAppend(s: string, t: string)
    requires AllDigits(s) && AllDigits(t)
    ensures ValueOf(s + t) == ValueOf(s) * Pow10(|t|) + ValueOf(t)
  {
    if t != [] {
      var init := t[..|t| - 1];
      assert (s + t)[..|s + t| - 1] == s + init;
      ValueOfAppend(s, init);
    } else {
      assert s + t == s;
    }
  }

  /** A run of `k` digits is worth less than `10^k`. */
  lemma {:induction false} ValueOfBound(s: string)
    requires AllDigits(s)
    ensures ValueOf(s) < Pow10(|s|)
  {
    if s != [] {
      ValueOfBound(s[..|s| - 1]);
    }
  }

  /** Two digit runs of the same length with the same value are the same run. */
  lemma {:induction false} ValueOfInjective(s: string, t: string)
    requires AllDigits(s) && AllDigits(t) && |s| == |t| && ValueOf(s) == ValueOf(t)
    ensures s == t
  {
    if s != [] {
      var si, ti := s[..|s| - 1], t[..|t| - 1];
      var a, b := DigitValue(s[|s| - 1]), DigitValue(t[|t| - 1]);
      assert ValueOf(si) * 10 + a == ValueOf(ti) * 10 + b;
      assert a == b && ValueOf(si) == ValueOf(ti);
      ValueOfInjective(si, ti);
      assert s[|s| - 1] == t[|t| - 1];
      assert s == si + [s[|s| - 1]] && t == ti + [t[|t| - 1]];
    }
  }

  /** A number below `10^width` is written in at most `width` digits. */
  lemma {:induction false} NatToStringFits(n: nat, width: nat)
    requires 1 <= width && n < Pow10(width)
    ensures |NatToString(n)| <= width
  {
    if n >= 10 {
      assert width >= 2;
      NatToStringFits(n / 10, width - 1);
    }
  }

  /** Zero-padding the value of a digit run to its own length gives the run back: `"07"` stays `"07"`. */
  lemma ZeroPadDigits(s: string)
    requires AllDigits(s) && s != []
    ensures ZeroPad(ValueOf(s), |s|) == s
  {
    var n := ValueOf(s);
    ValueOfBound(s);
    NatToStringFits(n, |s|);
    ZeroPadValue(n, |s|);
    ValueOfInjective(ZeroPad(n, |s|), s);
  }

  function Pow10(k: nat): (p: nat)
    ensures p >= 1
  {
    if k == 0 then 1 else 10 * Pow10(k - 1)
  }
}
