/**
 * String helpers with the behaviour of the JavaScript built-ins the upload page
 * relies on: `String.prototype.trim`, `Array.prototype.join` and a
 * case-insensitive suffix test.
 */
module Text {

  /** The characters `trim` (and `parseFloat`) skip: ECMAScript WhiteSpace and LineTerminator. */
  predicate IsSpace(c: char) {
    || c == ' ' || c == '\t' || c == '\n' || c == '\r'
    || c == '\U{000B}' || c == '\U{000C}' || c == '\U{00A0}' || c == '\U{1680}'
    || ('\U{2000}' <= c <= '\U{200A}')
    || c == '\U{2028}' || c == '\U{2029}' || c == '\U{202F}' || c == '\U{205F}'
    || c == '\U{3000}' || c == '\U{FEFF}'
  }

  predicate AllSpace(s: string) {
    forall i :: 0 <= i < |s| ==> IsSpace(s[i])
  }

  /** True when `s` neither starts nor ends with white space: what `trim` returns. */
  predicate IsTrimmed(s: string) {
    s == [] || (!IsSpace(s[0]) && !IsSpace(s[|s| - 1]))
  }

  /** Drops leading white space. */
  function TrimStart(s: string): string {
    if s != [] && IsSpace(s[0]) then TrimStart(s[1..]) else s
  }

  /** Drops trailing white space. */
  function TrimEnd(s: string): string {
    if s != [] && IsSpace(s[|s| - 1]) then TrimEnd(s[..|s| - 1]) else s
  }

  /** What `TrimStart` drops is white space, and what it keeps is a suffix starting with visible text. */
  lemma {:induction false} TrimStartSpec(s: string)
    ensures var r := TrimStart(s);
            |r| <= |s| && r == s[|s| - |r|..] && AllSpace(s[..|s| - |r|]) && (r == [] || !IsSpace(r[0]))
  {
    if s != [] && IsSpace(s[0]) {
      TrimStartSpec(s[1..]);
      var r := TrimStart(s);
      assert s[..|s| - |r|] == [s[0]] + s[1..][..|s| - 1 - |r|];
    }
  }

  /** What `TrimEnd` drops is white space, and what it keeps is a prefix ending with visible text. */
  lemma {:induction false} TrimEndSpec(s: string)
    ensures var r := TrimEnd(s);
            |r| <= |s| && r == s[..|r|] && AllSpace(s[|r|..]) && (r == [] || !IsSpace(r[|r| - 1]))
  {
    if s != [] && IsSpace(s[|s| - 1]) {
      TrimEndSpec(s[..|s| - 1]);
      var r := TrimEnd(s);
      assert s[|r|..] == s[..|s| - 1][|r|..] + [s[|s| - 1]];
    }
  }

  /** `s.trim()`. */
  function Trim(s: string): string {
    TrimEnd(TrimStart(s))
  }

  /**
   * `trim` removes exactly the white space around the text: the input is the
   * result padded on both sides with white space, and the result is trimmed.
   */
  lemma TrimSplits(s: string)
    ensures IsTrimmed(Trim(s))
    ensures exists a, b :: 0 <= a <= b <= |s| && Trim(s) == s[a..b]
                           && AllSpace(s[..a]) && AllSpace(s[b..])
  {
    var t := TrimStart(s);
    TrimStartSpec(s);
    var a := |s| - |t|;
    var r := TrimEnd(t);
    TrimEndSpec(t);
    var b := a + |r|;
    assert r != [] ==> r[0] == t[0];
    assert s[a..b] == r && s[b..] == t[|r|..];
  }

  /** Trimming white space around already trimmed text gives that text back. */
  lemma {:induction false} TrimPadded(p: string, t: string, q: string)
    requires AllSpace(p) && AllSpace(q) && IsTrimmed(t)
    ensures Trim(p + t + q) == t
  {
    if t == [] {
      assert p + t + q == p + q;
      TrimStartAllSpace(p + q);
    } else {
      assert p + t + q == p + (t + q);
      TrimStartPadded(p, t + q);
      TrimEndPadded(t, q);
    }
  }

  lemma {:induction false} TrimStartAllSpace(s: string)
    requires AllSpace(s)
    ensures TrimStart(s) == []
  {
    if s != [] {
      TrimStartAllSpace(s[1..]);
    }
  }

  lemma {:induction false} TrimStartPadded(p: string, u: string)
    requires AllSpace(p) && (u == [] || !IsSpace(u[0]))
    ensures TrimStart(p + u) == u
  {
    if p != [] {
      assert (p + u)[1..] == p[1..] + u;
      TrimStartPadded(p[1..], u);
    } else {
      assert p + u == u;
    }
  }

  lemma {:induction false} TrimEndPadded(t: string, q: string)
    requires AllSpace(q) && (t == [] || !IsSpace(t[|t| - 1]))
    ensures TrimEnd(t + q) == t
  {
    if q != [] {
      assert (t + q)[..|t + q| - 1] == t + q[..|q| - 1];
      TrimEndPadded(t, q[..|q| - 1]);
    } else {
      assert t + q == t;
    }
  }

  /** `trim` is idempotent. */
  lemma TrimIdempotent(s: string)
    ensures Trim(Trim(s)) == Trim(s)
  {
    TrimSplits(s);
    var t := Trim(s);
    assert [] + t + [] == t;
    TrimPadded([], t, []);
  }

  /** `parts.join(sep)`: the parts in order with `sep` between neighbours. */
  function Join(parts: seq<string>, sep: string): string {
    if parts == [] then ""
    else if |parts| == 1 then parts[0]
    else Join(parts[..|parts| - 1], sep) + sep + parts[|parts| - 1]
  }

  /** Joining non-empty parts gives the empty string exactly when there are no parts. */
  lemma {:induction false} JoinEmpty(parts: seq<string>, sep: string)
    requires forall i :: 0 <= i < |parts| ==> parts[i] != ""
    ensures Join(parts, sep) == "" <==> parts == []
  {
    if |parts| > 1 {
      JoinEmpty(parts[..|parts| - 1], sep);
      assert |Join(parts, sep)| >= |parts[|parts| - 1]| > 0;
    }
  }

  /** A joined string starts with the first part and ends with the last. */
  lemma {:induction false} JoinEnds(parts: seq<string>, sep: string)
    requires parts != []
    ensures var j := Join(parts, sep);
            |parts[0]| <= |j| && j[..|parts[0]|] == parts[0]
            && |parts[|parts| - 1]| <= |j| && j[|j| - |parts[|parts| - 1]|..] == parts[|parts| - 1]
  {
    if |parts| > 1 {
      var init := parts[..|parts| - 1];
      JoinEnds(init, sep);
      var j0 := Join(init, sep);
      assert Join(parts, sep) == j0 + sep + parts[|parts| - 1];
      assert (j0 + sep + parts[|parts| - 1])[..|parts[0]|] == j0[..|parts[0]|];
    }
  }

  /**
   * `c` and `d` match under the `i` flag of a regular expression without the
   * `u` flag, for the ASCII letters and punctuation of a file extension: the
   * same character, or the same ASCII letter in the two cases.
   */
  predicate SameIgnoringCase(c: char, d: char) {
    || c == d
    || ('A' <= c <= 'Z' && d as int == c as int + 32)
    || ('A' <= d <= 'Z' && c as int == d as int + 32)
  }

  /** Texts of one length that match character by character under the `i` flag. */
  predicate EqualsIgnoringCase(s: string, t: string) {
    |s| == |t| && forall i :: 0 <= i < |s| ==> SameIgnoringCase(s[i], t[i])
  }

  /** ASCII lower-casing of one character. */
  function LowerAscii(c: char): char {
    if 'A' <= c <= 'Z' then (c as int + 32) as char else c
  }

  function Lower(s: string): (r: string)
    ensures |r| == |s|
    ensures forall i :: 0 <= i < |s| ==> r[i] == LowerAscii(s[i])
  {
    seq(|s|, i requires 0 <= i < |s| => LowerAscii(s[i]))
  }

  /** Two characters lower-case alike exactly when they match up to ASCII case. */
  lemma LowerAsciiSame(c: char, d: char)
    ensures LowerAscii(c) == LowerAscii(d) <==> SameIgnoringCase(c, d)
  {
  }

  /** Two texts lower-case alike exactly when they match character by character up to ASCII case. */
  lemma LowerEqual(s: string, t: string)
    ensures Lower(s) == Lower(t) <==> EqualsIgnoringCase(s, t)
  {
    if Lower(s) == Lower(t) {
      forall i | 0 <= i < |s|
        ensures SameIgnoringCase(s[i], t[i])
      {
        assert Lower(s)[i] == Lower(t)[i];
        LowerAsciiSame(s[i], t[i]);
      }
    }
    if EqualsIgnoringCase(s, t) {
      forall i | 0 <= i < |s|
        ensures Lower(s)[i] == Lower(t)[i]
      {
        LowerAsciiSame(s[i], t[i]);
      }
    }
  }

  predicate EndsWith(s: string, suffix: string) {
    |suffix| <= |s| && s[|s| - |suffix|..] == suffix
  }
}
