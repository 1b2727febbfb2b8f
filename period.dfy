/**
 * The reporting period written in a header cell: the pattern
 * `(\d{2}\/\d{2}\/\d{4})\s*-\s*(\d{2}\/\d{2}\/\d{4})`, searched anywhere in
 * the text, and the conversion of each captured `DD/MM/YYYY` into the
 * `YYYY-MM-DD` text stored as `periodo_inicio` / `periodo_fim`, the way
 * `new Date(year, month - 1, day).toISOString().split('T')[0]` produces it.
 */
module Period {
  import opened Wrappers
  import opened Text
  import opened Digits

  // ---------------------------------------------------------------------------
  // The pattern.

  /** `\d{2}\/\d{2}\/\d{4}`. */
  predicate IsDateToken(t: string) {
    && |t| == 10
    && IsDigit(t[0]) && IsDigit(t[1]) && t[2] == '/'
    && IsDigit(t[3]) && IsDigit(t[4]) && t[5] == '/'
    && IsDigit(t[6]) && IsDigit(t[7]) && IsDigit(t[8]) && IsDigit(t[9])
  }

  predicate DateTokenAt(s: string, i: nat) {
    i + 10 <= |s| && IsDateToken(s[i..i + 10])
  }

  /** How much white space a greedy `\s*` takes at `i`. */
  function SpacesFrom(s: string, i: nat): (k: nat)
    requires i <= |s|
    ensures i + k <= |s|
    decreases |s| - i
  {
    if i < |s| && IsSpace(s[i]) then 1 + SpacesFrom(s, i + 1) else 0
  }

  /** The run is white space and is followed by something else or by the end. */
  lemma {:induction false} SpacesFromSpec(s: string, i: nat)
    requires i <= |s|
    ensures var k := SpacesFrom(s, i);
            AllSpace(s[i..i + k]) && (i + k < |s| ==> !IsSpace(s[i + k]))
    decreases |s| - i
  {
    if i < |s| && IsSpace(s[i]) {
      SpacesFromSpec(s, i + 1);
      var k := SpacesFrom(s, i);
      assert s[i..i + k] == [s[i]] + s[i + 1..i + k];
    }
  }

  /**
   * The match of the pattern that starts at `i`, as its two captured dates.
   * Backtracking cannot help either `\s*`: what follows each of them, a `-`
   * or a digit, is never white space, so only the longest run can succeed.
   */
  function MatchAt(s: string, i: nat): (r: Option<(string, string)>)
    ensures r.Some? ==> IsDateToken(r.value.0) && IsDateToken(r.value.1)
  {
    if !DateTokenAt(s, i) then None
    else
      var j := i + 10 + SpacesFrom(s, i + 10);
      if j < |s| && s[j] == '-' then
        var k := j + 1 + SpacesFrom(s, j + 1);
        if DateTokenAt(s, k) then Some((s[i..i + 10], s[k..k + 10])) else None
      else None
  }

  /** The first position from `i` on where a match starts. */
  function FirstMatch(s: string, i: nat): Option<nat>
    requires i <= |s|
    decreases |s| - i
  {
    if MatchAt(s, i).Some? then Some(i)
    else if i == |s| then None
    else FirstMatch(s, i + 1)
  }

  /** `periodoStr.match(pattern)`: the captured dates of the leftmost match, if there is one. */
  function Match(s: string): (r: Option<(string, string)>)
    ensures r.Some? ==> IsDateToken(r.value.0) && IsDateToken(r.value.1)
  {
    match FirstMatch(s, 0)
    case None => None
    case Some(i) => MatchAt(s, i)
  }

  lemma {:induction false} FirstMatchSpec(s: string, i: nat)
    requires i <= |s|
    ensures FirstMatch(s, i).Some? ==>
              var m := FirstMatch(s, i).value;
              i <= m <= |s| && MatchAt(s, m).Some? && forall j :: i <= j < m ==> MatchAt(s, j).None?
    ensures FirstMatch(s, i).None? ==> forall j :: i <= j <= |s| ==> MatchAt(s, j).None?
    decreases |s| - i
  {
    if MatchAt(s, i).None? && i < |s| {
      FirstMatchSpec(s, i + 1);
    }
  }

  /** The search finds the leftmost start at which the pattern matches, and fails only when it matches nowhere. */
  lemma MatchIsLeftmost(s: string)
    ensures Match(s).None? ==> forall i :: 0 <= i <= |s| ==> MatchAt(s, i).None?
    ensures Match(s).Some? ==>
              exists i :: 0 <= i <= |s| && Match(s) == MatchAt(s, i) && forall j :: 0 <= j < i ==> MatchAt(s, j).None?
  {
    FirstMatchSpec(s, 0);
  }

  /**
   * A date at `i`, white space up to a dash at `j`, white space up to a date
   * at `k`: the pattern matches at `i` and captures those two dates.
   */
  lemma MatchAtComposed(s: string, i: nat, j: nat, k: nat)
    requires i + 10 <= j < k && DateTokenAt(s, i) && DateTokenAt(s, k)
    requires AllSpace(s[i + 10..j]) && s[j] == '-' && AllSpace(s[j + 1..k])
    ensures MatchAt(s, i) == Some((s[i..i + 10], s[k..k + 10]))
  {
    SpacesExactly(s, i + 10, j - (i + 10));
    SpacesExactly(s, j + 1, k - (j + 1));
  }

  /** Every match is a date at `i`, white space up to a dash at `j`, and white space up to the second date at `k`. */
  lemma MatchAtDecomposed(s: string, i: nat) returns (j: nat, k: nat)
    requires MatchAt(s, i).Some?
    ensures i + 10 <= j < k && DateTokenAt(s, i) && DateTokenAt(s, k)
    ensures AllSpace(s[i + 10..j]) && s[j] == '-' && AllSpace(s[j + 1..k])
    ensures MatchAt(s, i) == Some((s[i..i + 10], s[k..k + 10]))
  {
    j := i + 10 + SpacesFrom(s, i + 10);
    SpacesFromSpec(s, i + 10);
    k := j + 1 + SpacesFrom(s, j + 1);
    SpacesFromSpec(s, j + 1);
  }

  /** A greedy `\s*` at `i` stops exactly after `n` characters of white space followed by something else. */
  lemma {:induction false} SpacesExactly(s: string, i: nat, n: nat)
    requires i + n < |s| && AllSpace(s[i..i + n]) && !IsSpace(s[i + n])
    ensures SpacesFrom(s, i) == n
    decreases n
  {
    if n > 0 {
      assert IsSpace(s[i..i + n][0]);
      assert s[i + 1..i + n] == s[i..i + n][1..];
      SpacesExactly(s, i + 1, n - 1);
    }
  }

  /** Without a dash there is no period. */
  lemma NoDashNoMatch(s: string)
    requires '-' !in s
    ensures Match(s) == None
  {
    FirstMatchSpec(s, 0);
  }

  /** "01/01/2025 - 31/01/2025" captures its two dates. */
  lemma MatchExample()
    ensures Match("01/01/2025 - 31/01/2025") == Some(("01/01/2025", "31/01/2025"))
  {
    var s := "01/01/2025 - 31/01/2025";
    assert IsSpace(' ');
    assert s[0..10] == "01/01/2025" && s[13..23] == "31/01/2025";
    assert s[10..11] == " " && s[12..13] == " ";
    MatchAtComposed(s, 0, 11, 13);
  }

  // ---------------------------------------------------------------------------
  // Calendar dates.

  /** A calendar date of the proleptic Gregorian calendar. */
  datatype Date = Date(year: nat, month: nat, day: nat)

  predicate IsLeap(y: nat) {
    y % 4 == 0 && (y % 100 != 0 || y % 400 == 0)
  }

  function DaysIn(y: nat, m: nat): (n: nat)
    requires 1 <= m <= 12
    ensures 28 <= n <= 31
  {
    if m == 2 then (if IsLeap(y) then 29 else 28)
    else if m == 4 || m == 6 || m == 9 || m == 11 then 30
    else 31
  }

  predicate Valid(d: Date) {
    1 <= d.month <= 12 && 1 <= d.day <= DaysIn(d.year, d.month)
  }

  /** The year `new Date` uses: 0 to 99 mean 1900 to 1999. */
  function FullYear(y: nat): (r: nat)
    ensures r >= 100
  {
    if y <= 99 then 1900 + y else y
  }

  /** The date `d - 1` days after the first of month `m` of year `y`. */
  function FromFirst(y: nat, m: nat, d: nat): (r: Date)
    requires 1 <= m <= 12 && d >= 1
    ensures Valid(r)
    decreases d
  {
    if d <= DaysIn(y, m) then Date(y, m, d)
    else if m == 12 then FromFirst(y + 1, 1, d - DaysIn(y, m))
    else FromFirst(y, m + 1, d - DaysIn(y, m))
  }

  /** `new Date(year, month - 1, day)`: a month outside 1..12 carries into the year, a day outside the month into the next or previous month. */
  function MakeDate(year: nat, month: nat, day: nat): (r: Date)
    ensures Valid(r)
  {
    var index := month as int - 1;
    var y: nat := FullYear(year) + index / 12;
    var m := index % 12 + 1;
    if day == 0 then
      if m == 1 then Date(y - 1, 12, 31) else Date(y, m - 1, DaysIn(y, m - 1))
    else FromFirst(y, m, day)
  }

  // Day numbers: a reference count of days, against which the normalisation is proved.

  function YearLength(y: nat): nat {
    if IsLeap(y) then 366 else 365
  }

  function DaysBeforeYear(y: nat): nat {
    if y == 0 then 0 else DaysBeforeYear(y - 1) + YearLength(y - 1)
  }

  function DaysBeforeMonth(y: nat, m: nat): nat
    requires 1 <= m <= 12
  {
    if m == 1 then 0 else DaysBeforeMonth(y, m - 1) + DaysIn(y, m - 1)
  }

  /** The number of day `d` of month `m` of year `y`, counted from the first day of year 0; `d` may lie outside the month. */
  function DayNumber(y: nat, m: nat, d: int): int
    requires 1 <= m <= 12
  {
    DaysBeforeYear(y) + DaysBeforeMonth(y, m) + d - 1
  }

  lemma YearOfMonths(y: nat)
    ensures DaysBeforeMonth(y, 12) + DaysIn(y, 12) == YearLength(y)
  {
    var feb := DaysIn(y, 2);
    assert DaysBeforeMonth(y, 2) == 31;
    assert DaysBeforeMonth(y, 3) == 31 + feb;
    assert DaysBeforeMonth(y, 4) == 62 + feb;
    assert DaysBeforeMonth(y, 5) == 92 + feb;
    assert DaysBeforeMonth(y, 6) == 123 + feb;
    assert DaysBeforeMonth(y, 7) == 153 + feb;
    assert DaysBeforeMonth(y, 8) == 184 + feb;
    assert DaysBeforeMonth(y, 9) == 215 + feb;
    assert DaysBeforeMonth(y, 10) == 245 + feb;
    assert DaysBeforeMonth(y, 11) == 276 + feb;
    assert DaysBeforeMonth(y, 12) == 306 + feb;
  }

  lemma {:induction false} FromFirstDayNumber(y: nat, m: nat, d: nat)
    requires 1 <= m <= 12 && d >= 1
    ensures var r := FromFirst(y, m, d); DayNumber(r.year, r.month, r.day) == DayNumber(y, m, d)
    decreases d
  {
    if d > DaysIn(y, m) {
      if m == 12 {
        YearOfMonths(y);
        FromFirstDayNumber(y + 1, 1, d - DaysIn(y, m));
      } else {
        FromFirstDayNumber(y, m + 1, d - DaysIn(y, m));
      }
    }
  }

  /**
   * What `new Date(year, month - 1, day)` means: the month index carries
   * whole years into the year, and the result is the valid date that lies
   * `day - 1` days after the first of the carried month (day 0 is the day
   * before it).
   */
  lemma MakeDateMeaning(year: nat, month: nat, day: nat)
    ensures var index := month as int - 1;
            var y := FullYear(year) + index / 12;
            var m := index % 12 + 1;
            var r := MakeDate(year, month, day);
            && y >= 0 && 1 <= m <= 12 && y * 12 + m == FullYear(year) * 12 + month
            && Valid(r) && DayNumber(r.year, r.month, r.day) == DayNumber(y, m, day)
  {
    var index := month as int - 1;
    var y: nat := FullYear(year) + index / 12;
    var m := index % 12 + 1;
    if day == 0 {
      if m == 1 {
        YearOfMonths(y - 1);
      }
    } else {
      FromFirstDayNumber(y, m, day);
    }
  }

  // ---------------------------------------------------------------------------
  // The stored text.

  /** The year as `toISOString` writes it: four digits, or a sign and six digits past 9999. */
  function YearText(y: nat): string {
    if y <= 9999 then ZeroPad(y, 4) else "+" + ZeroPad(y, 6)
  }

  /** `toISOString().split('T')[0]`. */
  function IsoDate(d: Date): string {
    YearText(d.year) + "-" + ZeroPad(d.month, 2) + "-" + ZeroPad(d.day, 2)
  }

  function DayOf(t: string): nat
    requires IsDateToken(t)
  {
    ValueOf(t[..2])
  }

  function MonthOf(t: string): nat
    requires IsDateToken(t)
  {
    ValueOf(t[3..5])
  }

  function YearOf(t: string): nat
    requires IsDateToken(t)
  {
    ValueOf(t[6..])
  }

  /** The stored bound for a captured `DD/MM/YYYY`. */
  function Bound(t: string): string
    requires IsDateToken(t)
  {
    IsoDate(MakeDate(YearOf(t), MonthOf(t), DayOf(t)))
  }

  /** A real date from year 100 on is stored as its own digits rearranged: "31/01/2025" becomes "2025-01-31". */
  lemma BoundOfValidDate(t: string)
    requires IsDateToken(t)
    requires YearOf(t) >= 100 && 1 <= MonthOf(t) <= 12 && 1 <= DayOf(t) <= DaysIn(YearOf(t), MonthOf(t))
    ensures Bound(t) == t[6..] + "-" + t[3..5] + "-" + t[..2]
  {
    var y, m, d := YearOf(t), MonthOf(t), DayOf(t);
    var index := m as int - 1;
    assert index / 12 == 0 && index % 12 + 1 == m;
    assert MakeDate(y, m, d) == FromFirst(y, m, d) == Date(y, m, d);
    assert AllDigits(t[6..]) && AllDigits(t[3..5]) && AllDigits(t[..2]);
    ValueOfBound(t[6..]);
    assert Pow10(4) == 10000 by {
      assert Pow10(2) == 100;
    }
    assert YearText(y) == ZeroPad(y, 4);
    ZeroPadDigits(t[6..]);
    ZeroPadDigits(t[3..5]);
    ZeroPadDigits(t[..2]);
  }

  /** The three numbers of a token, digit by digit. */
  lemma TokenFields(t: string)
    requires IsDateToken(t)
    ensures DayOf(t) == 10 * DigitValue(t[0]) + DigitValue(t[1])
    ensures MonthOf(t) == 10 * DigitValue(t[3]) + DigitValue(t[4])
    ensures YearOf(t) == 1000 * DigitValue(t[6]) + 100 * DigitValue(t[7]) + 10 * DigitValue(t[8]) + DigitValue(t[9])
  {
    ValueOfShort(t[..2]);
    ValueOfShort(t[3..5]);
    ValueOfShort(t[6..]);
  }

  lemma ValueOfShort(s: string)
    requires AllDigits(s) && 1 <= |s| <= 4
    ensures |s| == 1 ==> ValueOf(s) == DigitValue(s[0])
    ensures |s| == 2 ==> ValueOf(s) == 10 * DigitValue(s[0]) + DigitValue(s[1])
    ensures |s| == 3 ==> ValueOf(s) == 100 * DigitValue(s[0]) + 10 * DigitValue(s[1]) + DigitValue(s[2])
    ensures |s| == 4 ==> ValueOf(s) == 1000 * DigitValue(s[0]) + 100 * DigitValue(s[1]) + 10 * DigitValue(s[2]) + DigitValue(s[3])
  {
    if |s| == 1 {
      assert s[..0] == [];
    } else {
      var init := s[..|s| - 1];
      ValueOfShort(init);
      assert forall i :: 0 <= i < |init| ==> init[i] == s[i];
    }
  }

  /** "01/01/2025" is stored as "2025-01-01", and "31/01/2025" as "2025-01-31". */
  lemma BoundExamples(t: string, u: string)
    requires t == "01/01/2025" && u == "31/01/2025"
    ensures Bound(t) == "2025-01-01" && Bound(u) == "2025-01-31"
  {
    TokenFields(t);
    TokenFields(u);
    BoundOfValidDate(t);
    BoundOfValidDate(u);
    Rearranged(t, "2025-01-01");
    Rearranged(u, "2025-01-31");
  }

  lemma Rearranged(t: string, iso: string)
    requires (t == "01/01/2025" && iso == "2025-01-01") || (t == "31/01/2025" && iso == "2025-01-31")
    ensures t[6..] + "-" + t[3..5] + "-" + t[..2] == iso
  {
    var r := t[6..] + "-" + t[3..5] + "-" + t[..2];
    assert forall i :: 0 <= i < 10 ==> r[i] == iso[i];
  }

  /** Dates that are not real dates carry over, and two-digit years mean the 1900s: 31/02/2025 is 3 March 2025. */
  lemma MakeDateCarries()
    ensures MakeDate(2025, 2, 31) == Date(2025, 3, 3)
    ensures MakeDate(2025, 1, 0) == Date(2024, 12, 31)
    ensures MakeDate(2024, 13, 15) == Date(2025, 1, 15)
    ensures MakeDate(2024, 0, 1) == Date(2023, 12, 1)
    ensures MakeDate(25, 1, 1) == Date(1925, 1, 1)
    ensures MakeDate(2024, 2, 29) == Date(2024, 2, 29) && MakeDate(2023, 2, 29) == Date(2023, 3, 1)
  {
  }
}
