/**
 * Normalisation of a balancete row: the account code with its leading zeros
 * stripped, and the account description assembled from the six description
 * columns with blanks and repeats dropped.
 */
module Account {

  /** `s.replace(/^0+/, '')`. */
  function StripLeadingZeros(s: string): (r: string)
    ensures |r| <= |s| && r == s[|s| - |r|..]
    ensures forall i :: 0 <= i < |s| - |r| ==> s[i] == '0'
    ensures r == [] || r[0] != '0'
  {
    if s != [] && s[0] == '0' then StripLeadingZeros(s[1..]) else s
  }

  /** A code as the table stores it: non-empty, and "0" or free of leading zeros. */
  predicate IsStoredCode(c: string) {
    c != "" && (c == "0" || c[0] != '0')
  }

  /** `codigo.replace(/^0+/, '') || '0'`: the stored account code. */
  function NormalizeCode(s: string): (r: string)
    ensures IsStoredCode(r)
  {
    var t := StripLeadingZeros(s);
    if t == "" then "0" else t
  }

  /** Normalising a stored code leaves it alone. */
  lemma NormalizeCodeIdempotent(s: string)
    ensures NormalizeCode(NormalizeCode(s)) == NormalizeCode(s)
  {
    var r := NormalizeCode(s);
    if r == "0" {
      assert StripLeadingZeros(r) == StripLeadingZeros(r[1..]);
    }
  }

  /**
   * The stored code is the input without its leading zeros, or "0" when the
   * input is nothing but zeros.
   */
  lemma NormalizeCodeMeaning(zeros: nat, t: string)
    requires t == [] || t[0] != '0'
    ensures NormalizeCode(seq(zeros, _ => '0') + t) == if t == [] then "0" else t
  {
    StripZerosPrefix(zeros, t);
  }

  lemma {:induction false} StripZerosPrefix(zeros: nat, t: string)
    requires t == [] || t[0] != '0'
    ensures StripLeadingZeros(seq(zeros, _ => '0') + t) == t
  {
    var s := seq(zeros, _ => '0') + t;
    if zeros > 0 {
      assert s[1..] == seq(zeros - 1, _ => '0') + t;
      StripZerosPrefix(zeros - 1, t);
    } else {
      assert s == t;
    }
  }

  /**
   * The description parts collected from the trimmed texts of the description
   * columns, left to right: each non-blank text that is not already a part.
   */
  function Collect(texts: seq<string>): (parts: seq<string>)
    ensures forall i :: 0 <= i < |parts| ==> parts[i] != ""
    ensures forall i, j :: 0 <= i < j < |parts| ==> parts[i] != parts[j]
    ensures forall v :: v in parts <==> v != "" && v in texts
  {
    if texts == [] then []
    else
      var init := texts[..|texts| - 1];
      var v := texts[|texts| - 1];
      assert texts == init + [v];
      var p := Collect(init);
      if v != "" && v !in p then p + [v] else p
  }

  /** The index of the first occurrence of `v` in `s`. */
  function FirstIndex(s: seq<string>, v: string): (i: nat)
    requires v in s
    ensures i < |s| && s[i] == v && v !in s[..i]
  {
    if s[0] == v then 0
    else
      var i := 1 + FirstIndex(s[1..], v);
      assert s[..i] == [s[0]] + s[1..][..i - 1];
      i
  }

  lemma FirstIndexPrefix(s: seq<string>, v: string, n: nat)
    requires n <= |s| && v in s[..n]
    ensures FirstIndex(s, v) == FirstIndex(s[..n], v)
  {
    var i, j := FirstIndex(s, v), FirstIndex(s[..n], v);
    assert s[..n][..j] == s[..j];
    assert v !in s[..i] && v !in s[..j];
  }

  /** Parts keep the order in which their first occurrences appear in the columns. */
  lemma {:induction false} CollectOrder(texts: seq<string>)
    ensures forall i, j :: 0 <= i < j < |Collect(texts)| ==>
              FirstIndex(texts, Collect(texts)[i]) < FirstIndex(texts, Collect(texts)[j])
  {
    if texts != [] {
      var n := |texts| - 1;
      var init := texts[..n];
      var v := texts[n];
      assert texts == init + [v];
      var p := Collect(init);
      CollectOrder(init);
      forall u | u in p
        ensures FirstIndex(texts, u) == FirstIndex(init, u) < n
      {
        FirstIndexPrefix(texts, u, n);
      }
      if v != "" && v !in p {
        assert v !in init;
        assert FirstIndex(texts, v) == n;
        var parts := p + [v];
        forall i, j | 0 <= i < j < |parts|
          ensures FirstIndex(texts, parts[i]) < FirstIndex(texts, parts[j])
        {
          assert parts[i] == p[i] && parts[i] in p;
          if j < |p| {
            assert parts[j] == p[j] && parts[j] in p;
            assert FirstIndex(init, p[i]) < FirstIndex(init, p[j]);
          }
        }
      } else {
        forall i, j | 0 <= i < j < |p|
          ensures FirstIndex(texts, p[i]) < FirstIndex(texts, p[j])
        {
          assert p[i] in p && p[j] in p;
          assert FirstIndex(init, p[i]) < FirstIndex(init, p[j]);
        }
      }
    }
  }
}
