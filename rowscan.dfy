/**
 * What both sheet scans have in common: rows are visited top to bottom until
 * the first row that stops the scan, and each row visited contributes zero or
 * more records, appended in row order.
 * The facts here are stated for any contribution, so the record a row
 * produces never has to be unfolded to reason about where it lands.
 */
module RowScan {
  /**
   * The first row from `r` on at which `stop` holds: where a `while (true)`
   * scan that breaks on `stop` ends. `bound` is a row known to stop it.
   */
  function FirstStop(stop: nat -> bool, r: nat, bound: nat): (e: nat)
    requires r <= bound && stop(bound)
    ensures r <= e <= bound && stop(e)
    ensures forall k :: r <= k < e ==> !stop(k)
    decreases bound - r
  {
    if stop(r) then r else FirstStop(stop, r + 1, bound)
  }

  /** The contributions of rows `lo` to `hi - 1`, concatenated in row order. */
  function Concat<T>(f: nat -> seq<T>, lo: nat, hi: nat): seq<T>
    requires lo <= hi
    decreases hi - lo
  {
    if lo == hi then [] else Concat(f, lo, hi - 1) + f(hi - 1)
  }

  /** Every record comes from one of the rows visited. */
  lemma {:induction false} ConcatSound<T>(f: nat -> seq<T>, lo: nat, hi: nat, x: T) returns (r: nat)
    requires lo <= hi && x in Concat(f, lo, hi)
    ensures lo <= r < hi && x in f(r)
    decreases hi - lo
  {
    if x in Concat(f, lo, hi - 1) {
      r := ConcatSound(f, lo, hi - 1, x);
    } else {
      r := hi - 1;
    }
  }

  /** Every record of every row visited is kept. */
  lemma {:induction false} ConcatComplete<T>(f: nat -> seq<T>, lo: nat, hi: nat, r: nat, x: T)
    requires lo <= r < hi && x in f(r)
    ensures x in Concat(f, lo, hi)
    decreases hi - lo
  {
    if r < hi - 1 {
      ConcatComplete(f, lo, hi - 1, r, x);
    }
  }

  /** Row order is kept: the records of the rows before `mid` come first. */
  lemma {:induction false} ConcatSplit<T>(f: nat -> seq<T>, lo: nat, mid: nat, hi: nat)
    requires lo <= mid <= hi
    ensures Concat(f, lo, hi) == Concat(f, lo, mid) + Concat(f, mid, hi)
    decreases hi - mid
  {
    if mid < hi {
      ConcatSplit(f, lo, mid, hi - 1);
    }
  }

  /** When no row gives more than one record, there are at most as many records as rows. */
  lemma {:induction false} ConcatAtMostOne<T>(f: nat -> seq<T>, lo: nat, hi: nat)
    requires lo <= hi
    requires forall r :: lo <= r < hi ==> |f(r)| <= 1
    ensures |Concat(f, lo, hi)| <= hi - lo
    decreases hi - lo
  {
    if lo < hi {
      ConcatAtMostOne(f, lo, hi - 1);
    }
  }

  /** When every row gives exactly one record, there are exactly as many records as rows. */
  lemma {:induction false} ConcatOnePerRow<T>(f: nat -> seq<T>, lo: nat, hi: nat)
    requires lo <= hi
    requires forall r :: lo <= r < hi ==> |f(r)| == 1
    ensures |Concat(f, lo, hi)| == hi - lo
    decreases hi - lo
  {
    if lo < hi {
      ConcatOnePerRow(f, lo, hi - 1);
    }
  }
}
