/**
 * The DFC amount cell: pt-BR text such as "179.487,30" is rewritten to
 * "179487.30" (every `.` removed, then the first `,` turned into `.`), read
 * with `parseFloat` and printed again with `toFixed(2)`.
 */
module Amount {
  import opened Wrappers
  import opened Digits
  import opened Decimal

  /** `s.replace(/\./g, '')`: the characters of `s` other than `.`, in order. */
  function RemoveDots(s: string): (r: string)
    ensures '.' !in r && |r| <= |s|
  {
    if s == [] then []
    else (if s[0] == '.' then [] else [s[0]]) + RemoveDots(s[1..])
  }

  /** `s.replace(',', '.')`: only the first comma becomes a point. */
  function ReplaceFirstComma(s: string): (r: string)
    ensures |r| == |s|
  {
    if s == [] then []
    else if s[0] == ',' then ['.'] + s[1..]
    else [s[0]] + ReplaceFirstComma(s[1..])
  }

  /** The text handed to `parseFloat`. */
  function CleanAmount(s: string): string {
    ReplaceFirstComma(RemoveDots(s))
  }

  /** The stored `valor`: `Number.parseFloat(CleanAmount(s)).toFixed(2)`. */
  function NormalizeAmount(s: string): (r: string)
    ensures r == "NaN" || IsTwoPlaces(r)
  {
    ToFixed2(ParseFloat(CleanAmount(s)))
  }

  /** Dots go, everything else stays in place. */
  lemma {:induction false} RemoveDotsAppend(a: string, b: string)
    ensures RemoveDots(a + b) == RemoveDots(a) + RemoveDots(b)
  {
    if a != [] {
      assert (a + b)[1..] == a[1..] + b;
      RemoveDotsAppend(a[1..], b);
    } else {
      assert a + b == b;
    }
  }

  lemma {:induction false} RemoveDotsNone(s: string)
    requires '.' !in s
    ensures RemoveDots(s) == s
  {
    if s != [] {
      RemoveDotsNone(s[1..]);
    }
  }

  /**
   * The rewrite touches exactly one character: the first comma, which becomes
   * a point; text without a comma is unchanged.
   */
  lemma {:induction false} ReplaceFirstCommaSplits(a: string, b: string)
    requires ',' !in a
    ensures ReplaceFirstComma(a + "," + b) == a + "." + b
    ensures ReplaceFirstComma(a) == a
  {
    if a != [] {
      assert (a + "," + b)[1..] == a[1..] + "," + b;
      ReplaceFirstCommaSplits(a[1..], b);
    } else {
      assert a + "," + b == [','] + b;
    }
  }

  /** Text after cleaning holds a point exactly when the input held a comma. */
  lemma {:induction false} CleanAmountPoint(s: string)
    ensures '.' in CleanAmount(s) <==> ',' in s
  {
    var r := RemoveDots(s);
    CommaSurvives(s);
    if ',' in r {
      var k :| 0 <= k < |r| && r[k] == ',';
      var i := FirstComma(r);
      assert r == r[..i] + "," + r[i + 1..];
      ReplaceFirstCommaSplits(r[..i], r[i + 1..]);
      assert CleanAmount(s)[i] == '.';
    } else {
      ReplaceFirstCommaSplits(r, []);
    }
  }

  function FirstComma(s: string): (i: nat)
    requires ',' in s
    ensures i < |s| && s[i] == ',' && ',' !in s[..i]
  {
    if s[0] == ',' then 0
    else
      var i := 1 + FirstComma(s[1..]);
      assert s[..i] == [s[0]] + s[1..][..i - 1];
      i
  }

  lemma {:induction false} CommaSurvives(s: string)
    ensures ',' in RemoveDots(s) <==> ',' in s
  {
    if s != [] {
      CommaSurvives(s[1..]);
      assert s == [s[0]] + s[1..];
    }
  }

  // ---------------------------------------------------------------------------
  // pt-BR rendering, the format the cash-flow export uses.

  /** Digits grouped by three from the right with `.`: "1234567" becomes "1.234.567". */
  function Group(d: string): string {
    if |d| <= 3 then d else Group(d[..|d| - 3]) + "." + d[|d| - 3..]
  }

  /** `c` hundredths written the pt-BR way: optional `-`, grouped whole part, `,`, two digits. */
  function FormatBR(c: int): string {
    var m: nat := if c < 0 then -c else c;
    (if c < 0 then "-" else "") + Group(NatToString(m / 100)) + "," + ZeroPad(m % 100, 2)
  }

  lemma {:induction false} RemoveDotsGroup(d: string)
    requires AllDigits(d)
    ensures RemoveDots(Group(d)) == d
  {
    if |d| <= 3 {
      RemoveDotsNone(d);
    } else {
      var hi, lo := d[..|d| - 3], d[|d| - 3..];
      assert AllDigits(hi) && AllDigits(lo);
      var g := Group(hi);
      assert Group(d) == g + "." + lo;
      calc {
        RemoveDots(Group(d));
        RemoveDots(g + "." + lo);
        { RemoveDotsAppend(g + ".", lo); }
        RemoveDots(g + ".") + RemoveDots(lo);
        { RemoveDotsAppend(g, "."); }
        RemoveDots(g) + RemoveDots(".") + RemoveDots(lo);
        { RemoveDotsGroup(hi); RemoveDotsNone(lo); assert RemoveDots(".") == []; }
        hi + [] + lo;
      }
      assert d == hi + lo;
    }
  }

  /**
   * Cleaning a pt-BR amount yields the plain rendering of the same number, the
   * very text `toFixed(2)` prints for it.
   */
  lemma CleanFormatBR(c: int)
    ensures CleanAmount(FormatBR(c)) == ToFixed2(Some(c as real / 100.0))
  {
    var m: nat := if c < 0 then -c else c;
    var sign := if c < 0 then "-" else "";
    CleanGrouped(sign, NatToString(m / 100), ZeroPad(m % 100, 2));
    FixedOfHundredths(c);
  }

  lemma CleanGrouped(sign: string, whole: string, dd: string)
    requires sign == "" || sign == "-"
    requires AllDigits(whole) && AllDigits(dd)
    ensures CleanAmount(sign + Group(whole) + "," + dd) == sign + whole + "." + dd
  {
    RemoveDotsAppend(sign + Group(whole) + ",", dd);
    RemoveDotsAppend(sign + Group(whole), ",");
    RemoveDotsAppend(sign, Group(whole));
    RemoveDotsGroup(whole);
    RemoveDotsNone(sign);
    RemoveDotsNone(",");
    RemoveDotsNone(dd);
    assert RemoveDots(sign + Group(whole) + "," + dd) == (sign + whole) + "," + dd;
    assert ',' !in sign + whole;
    ReplaceFirstCommaSplits(sign + whole, dd);
  }

  /** `toFixed(2)` of a whole number of hundredths. */
  lemma FixedOfHundredths(c: int)
    ensures var m: nat := if c < 0 then -c else c;
            ToFixed2(Some(c as real / 100.0))
            == (if c < 0 then "-" else "") + NatToString(m / 100) + "." + ZeroPad(m % 100, 2)
  {
    var m: nat := if c < 0 then -c else c;
    CentsOfHundredths(m);
    if c < 0 {
      assert -(c as real / 100.0) == m as real / 100.0;
    } else {
      assert "" + NatToString(m / 100) == NatToString(m / 100);
    }
  }

  lemma CentsOfHundredths(m: nat)
    ensures Cents(m as real / 100.0) == m
  {
  }

  /**
   * A pt-BR amount is stored as the plain two-place rendering of its value:
   * "1.234,56" is stored as "1234.56" and "-0,50" as "-0.50".
   */
  lemma NormalizeFormatBR(c: int)
    ensures NormalizeAmount(FormatBR(c)) == CleanAmount(FormatBR(c))
    ensures ParseFloat(NormalizeAmount(FormatBR(c))) == Some(c as real / 100.0)
  {
    CleanFormatBR(c);
    ToFixed2RoundTrip(c as real / 100.0);
    Round2Cents(c);
  }

  /** The worked example: "1.234,56" is stored as "1234.56". */
  lemma ThousandsExample()
    ensures CleanAmount("1.234,56") == "1234.56"
  {
    assert Group("1234") == "1.234";
    CleanGrouped("", "1234", "56");
    assert "" + Group("1234") + "," + "56" == "1.234,56";
    assert "" + "1234" + "." + "56" == "1234.56";
  }

  /**
   * A cell the workbook holds as the number 2.5 prints as "2.5"; the point is
   * taken for a thousands separator and removed, so the cleaned text reads
   * as 25.
   */
  lemma NumericCellLosesPoint()
    ensures CleanAmount("2.5") == "25"
  {
  }

  /** The amount text "2.5", as such a cell prints, is stored as "25.00". */
  lemma NumericCellStored()
    ensures NormalizeAmount("2.5") == "25.00"
  {
    NumericCellParsed();
    TwentyFivePrinted();
  }

  lemma NumericCellParsed()
    ensures ParseFloat(CleanAmount("2.5")) == Some(2500 as real / 100.0)
  {
    assert NatToString(25) == "25";
    NumericCellLosesPoint();
    ParseFloatNat(25);
  }

  lemma TwentyFivePrinted()
    ensures ToFixed2(Some(2500 as real / 100.0)) == "25.00"
  {
    var digits, pad := NatToString(25), ZeroPad(0, 2);
    assert digits == "25" && pad == "00";
    assert 2500 / 100 == 25 && 2500 % 100 == 0;
    FixedOfHundredths(2500);
    assert "" + digits + "." + pad == "25.00";
  }
}
