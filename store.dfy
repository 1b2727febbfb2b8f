/**
 * The two tables the upload writes, `balancetes` and `dfc`, and the way it
 * replaces a period: delete every row of the client and period, then insert
 * the new batch. The delete's outcome is never looked at; an insert either
 * adds the whole batch or fails with a message and adds nothing.
 */
module Store {
  import opened Wrappers
  import opened Records

  /** The rows of `rows` that do not carry `key`, in their order. */
  function Without(rows: seq<Record>, key: Key): (r: seq<Record>)
    ensures |r| <= |rows|
  {
    if rows == [] then []
    else Without(rows[..|rows| - 1], key) + (if rows[|rows| - 1].key == key then [] else [rows[|rows| - 1]])
  }

  /** The rows of `rows` that carry `key`, in their order: what a select on the period returns. */
  function RowsFor(rows: seq<Record>, key: Key): (r: seq<Record>)
    ensures |r| <= |rows|
  {
    if rows == [] then []
    else RowsFor(rows[..|rows| - 1], key) + (if rows[|rows| - 1].key == key then [rows[|rows| - 1]] else [])
  }

  /** The table after the delete (applied when `deleted`) and the insert (applied when it succeeds). */
  function Replaced(rows: seq<Record>, key: Key, batch: seq<Record>, deleted: bool, inserted: bool): seq<Record> {
    var afterDelete := if deleted then Without(rows, key) else rows;
    if inserted then afterDelete + batch else afterDelete
  }

  /** One table of the database. */
  class Table {
    var rows: seq<Record>

    constructor (rows: seq<Record>)
      ensures this.rows == rows
    {
      this.rows := rows;
    }

    /** `delete().eq('cliente_id', …).eq('periodo_inicio', …).eq('periodo_fim', …)`; `ok` says whether it went through. */
    method DeleteWhere(key: Key, ok: bool)
      modifies this
      ensures rows == if ok then Without(old(rows), key) else old(rows)
    {
      if ok {
        rows := Without(rows, key);
      }
    }

    /** `insert(batch)`: all of the batch is added, or `failure` comes back and nothing is. */
    method Insert(batch: seq<Record>, failure: Option<string>) returns (error: Option<string>)
      modifies this
      ensures error == failure
      ensures rows == if failure.None? then old(rows) + batch else old(rows)
    {
      error := failure;
      if failure.None? {
        rows := rows + batch;
      }
    }

    /** Delete the period's rows, then insert the batch: the two store calls of an upload. */
    method Replace(key: Key, batch: seq<Record>, deleteOk: bool, insertFailure: Option<string>) returns (error: Option<string>)
      modifies this
      ensures error == insertFailure
      ensures rows == Replaced(old(rows), key, batch, deleteOk, insertFailure.None?)
    {
      DeleteWhere(key, deleteOk);
      error := Insert(batch, insertFailure);
    }
  }

  // ---------------------------------------------------------------------------
  // Properties of a replacement.

  lemma {:induction false} RowsForAppend(a: seq<Record>, b: seq<Record>, key: Key)
    ensures RowsFor(a + b, key) == RowsFor(a, key) + RowsFor(b, key)
    decreases |b|
  {
    if b == [] {
      assert a + b == a;
    } else {
      assert (a + b)[..|a + b| - 1] == a + b[..|b| - 1];
      RowsForAppend(a, b[..|b| - 1], key);
    }
  }

  lemma {:induction false} RowsForAllKeyed(batch: seq<Record>, key: Key, other: Key)
    requires AllKeyed(batch, key)
    ensures RowsFor(batch, key) == batch
    ensures other != key ==> RowsFor(batch, other) == []
  {
    if batch != [] {
      var init := batch[..|batch| - 1];
      assert AllKeyed(init, key);
      RowsForAllKeyed(init, key, other);
      assert batch == init + [batch[|batch| - 1]];
    }
  }

  /** After the delete, nothing of the period is left, and every other period is as before. */
  lemma {:induction false} WithoutRowsFor(rows: seq<Record>, key: Key, other: Key)
    ensures RowsFor(Without(rows, key), key) == []
    ensures other != key ==> RowsFor(Without(rows, key), other) == RowsFor(rows, other)
  {
    if rows != [] {
      var init, last := rows[..|rows| - 1], rows[|rows| - 1];
      WithoutRowsFor(init, key, other);
      var kept: seq<Record> := if last.key == key then [] else [last];
      RowsForAppend(Without(init, key), kept, key);
      RowsForAppend(Without(init, key), kept, other);
      assert RowsFor(kept, key) == [] by {
        assert kept == [] || RowsFor(kept, key) == RowsFor([], key) + [];
      }
      assert rows == init + [last];
      RowsForAppend(init, [last], other);
      assert RowsFor([last], other) == RowsFor([], other) + (if last.key == other then [last] else []);
      assert kept != [] ==> RowsFor(kept, other) == RowsFor([], other) + (if last.key == other then [last] else []);
    }
  }

  /** A successful replacement leaves the period holding exactly the batch. */
  lemma ReplaceHoldsBatch(rows: seq<Record>, key: Key, batch: seq<Record>)
    requires AllKeyed(batch, key)
    ensures RowsFor(Replaced(rows, key, batch, true, true), key) == batch
  {
    WithoutRowsFor(rows, key, key);
    RowsForAppend(Without(rows, key), batch, key);
    RowsForAllKeyed(batch, key, key);
  }

  /** Whatever the outcome of the two calls, every other client or period keeps its rows. */
  lemma ReplaceKeepsOthers(rows: seq<Record>, key: Key, batch: seq<Record>, deleted: bool, inserted: bool, other: Key)
    requires AllKeyed(batch, key) && other != key
    ensures RowsFor(Replaced(rows, key, batch, deleted, inserted), other) == RowsFor(rows, other)
  {
    WithoutRowsFor(rows, key, other);
    var afterDelete := if deleted then Without(rows, key) else rows;
    RowsForAppend(afterDelete, batch, other);
    RowsForAllKeyed(batch, key, other);
  }

  /** Uploading the same batch twice leaves the same table as uploading it once. */
  lemma ReplaceIdempotent(rows: seq<Record>, key: Key, batch: seq<Record>)
    requires AllKeyed(batch, key)
    ensures Replaced(Replaced(rows, key, batch, true, true), key, batch, true, true) == Replaced(rows, key, batch, true, true)
  {
    WithoutAppend(Without(rows, key), batch, key);
    WithoutIdempotent(rows, key);
    WithoutAllKeyed(batch, key);
  }

  lemma {:induction false} WithoutAppend(a: seq<Record>, b: seq<Record>, key: Key)
    ensures Without(a + b, key) == Without(a, key) + Without(b, key)
    decreases |b|
  {
    if b == [] {
      assert a + b == a;
    } else {
      assert (a + b)[..|a + b| - 1] == a + b[..|b| - 1];
      WithoutAppend(a, b[..|b| - 1], key);
    }
  }

  lemma {:induction false} WithoutIdempotent(rows: seq<Record>, key: Key)
    ensures Without(Without(rows, key), key) == Without(rows, key)
  {
    if rows != [] {
      var init, last := rows[..|rows| - 1], rows[|rows| - 1];
      WithoutIdempotent(init, key);
      var kept: seq<Record> := if last.key == key then [] else [last];
      WithoutAppend(Without(init, key), kept, key);
      if kept != [] {
        assert Without(kept, key) == Without([], key) + kept;
      }
    }
  }

  lemma {:induction false} WithoutAllKeyed(batch: seq<Record>, key: Key)
    requires AllKeyed(batch, key)
    ensures Without(batch, key) == []
  {
    if batch != [] {
      assert AllKeyed(batch[..|batch| - 1], key);
      WithoutAllKeyed(batch[..|batch| - 1], key);
    }
  }

  /** When the delete goes through but the insert fails, the period is left with no rows at all. */
  lemma InsertFailureEmptiesPeriod(rows: seq<Record>, key: Key, batch: seq<Record>)
    ensures RowsFor(Replaced(rows, key, batch, true, false), key) == []
  {
    WithoutRowsFor(rows, key, key);
  }

  /** When the delete fails unnoticed and the insert succeeds, the old rows stay and the batch is added after them. */
  lemma DeleteFailureDuplicates(rows: seq<Record>, key: Key, batch: seq<Record>)
    requires AllKeyed(batch, key)
    ensures RowsFor(Replaced(rows, key, batch, false, true), key) == RowsFor(rows, key) + batch
  {
    RowsForAppend(rows, batch, key);
    RowsForAllKeyed(batch, key, key);
  }
}
