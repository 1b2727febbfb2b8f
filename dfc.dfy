/**
 * The DFC (cash-flow statement) scan: from row 7 down until the closing
 * balance line "DISPONIBILIDADES - NO FINAL DO PERÍODO" or a row with nothing
 * in columns A, D and O. Only rows with both a description (D) and an amount
 * (O) become records; the others are passed over.
 */
module Dfc {
  import opened Workbook
  import opened Records
  import opened Amount
  import RowScan

  const FirstRow: nat := 7
  const Sentinel := "DISPONIBILIDADES - NO FINAL DO PERÍODO"

  /** The scan stops at the closing balance line, or at a row whose A text is blank and whose D and O values are falsy. */
  predicate Stops(sheet: Sheet, r: nat) {
    var cellA := TextOf(At(sheet, r, ColA));
    cellA == Sentinel || (cellA == "" && Falsy(At(sheet, r, ColD)) && Falsy(At(sheet, r, ColO)))
  }

  /** `Stops` as a row predicate. */
  function StopsAt(sheet: Sheet): nat -> bool {
    (r: nat) => Stops(sheet, r)
  }

  /** Every row past the last one the sheet holds is empty, so it stops the scan. */
  lemma StopsPastLastRow(sheet: Sheet, r: nat)
    requires r > |sheet.rows|
    ensures StopsAt(sheet)(r)
  {
  }

  /** The row the scan stops at: the first stopping row from `FirstRow` on. */
  function End(sheet: Sheet): (e: nat)
    ensures FirstRow <= e && Stops(sheet, e)
    ensures forall k :: FirstRow <= k < e ==> !Stops(sheet, k)
  {
    var past := if FirstRow > |sheet.rows| then FirstRow else |sheet.rows| + 1;
    StopsPastLastRow(sheet, past);
    var e := RowScan.FirstStop(StopsAt(sheet), FirstRow, past);
    assert forall k :: FirstRow <= k < e ==> !Stops(sheet, k) by {
      forall k | FirstRow <= k < e
        ensures !Stops(sheet, k)
      {
        assert !StopsAt(sheet)(k);
      }
    }
    e
  }

  /** A row the scan passes over produces a record exactly when both its D and O texts are non-blank. */
  predicate Emits(sheet: Sheet, r: nat) {
    TextOf(At(sheet, r, ColD)) != "" && TextOf(At(sheet, r, ColO)) != ""
  }

  /** The record of row `r`: its own A text as the title, its D text, its O amount rewritten. */
  function Entry(sheet: Sheet, r: nat, key: Key): Record {
    DfcRow(key, TextOf(At(sheet, r, ColA)), TextOf(At(sheet, r, ColD)), NormalizeAmount(TextOf(At(sheet, r, ColO))))
  }

  /** What row `r` contributes: its entry when it has a description and an amount, nothing otherwise. */
  function RowRecords(sheet: Sheet, key: Key): nat -> seq<Record> {
    (r: nat) => if Emits(sheet, r) then [Entry(sheet, r, key)] else []
  }

  /** Everything the scan produces. */
  function Rows(sheet: Sheet, key: Key): seq<Record> {
    RowScan.Concat(RowRecords(sheet, key), FirstRow, End(sheet))
  }

  /** The record a passed-over row contributes, if any: the body of the `if (descricao && valorStr)`. */
  method ReadRow(sheet: Sheet, rowNum: nat, cellA: string, key: Key) returns (found: seq<Record>)
    requires cellA == TextOf(At(sheet, rowNum, ColA))
    ensures found == if Emits(sheet, rowNum) then [Entry(sheet, rowNum, key)] else []
  {
    var titulo := cellA;
    var descricao := TextOf(At(sheet, rowNum, ColD));
    var valorStr := TextOf(At(sheet, rowNum, ColO));
    found := [];
    if descricao != "" && valorStr != "" {
      var valorLimpo := ReplaceFirstComma(RemoveDots(valorStr));
      var valor := Decimal.ToFixed2(Decimal.ParseFloat(valorLimpo));
      found := [DfcRow(key, titulo, descricao, valor)];
    }
  }

  /** The `while (true)` scan of `handleDFCUpload`. */
  method Scan(sheet: Sheet, key: Key) returns (dfcData: seq<Record>)
    ensures dfcData == Rows(sheet, key)
  {
    dfcData := [];
    var rowNum := FirstRow;
    while true
      invariant FirstRow <= rowNum <= End(sheet)
      invariant dfcData == RowScan.Concat(RowRecords(sheet, key), FirstRow, rowNum)
      decreases End(sheet) - rowNum
    {
      var cellA := TextOf(At(sheet, rowNum, ColA));
      if cellA == Sentinel {
        assert Stops(sheet, rowNum);
        assert rowNum == End(sheet);
        break;
      }
      if cellA == "" && Falsy(At(sheet, rowNum, ColD)) && Falsy(At(sheet, rowNum, ColO)) {
        assert Stops(sheet, rowNum);
        assert rowNum == End(sheet);
        break;
      }
      assert rowNum < End(sheet);
      var found := ReadRow(sheet, rowNum, cellA, key);
      dfcData := dfcData + found;
      rowNum := rowNum + 1;
    }
  }

  // ---------------------------------------------------------------------------
  // Properties of the scan.

  /**
   * The scan's records are exactly the entries of the emitting rows before
   * the stop; each carries the A text of its own row as its title (blank
   * when that row has none), its D text as description, and an amount that
   * is "NaN" or has two decimal places.
   */
  lemma RowsMembers(sheet: Sheet, key: Key, rec: Record)
    ensures rec in Rows(sheet, key) <==>
              exists r :: FirstRow <= r < End(sheet) && Emits(sheet, r) && rec == Entry(sheet, r, key)
    ensures rec in Rows(sheet, key) ==>
              && rec.DfcRow? && rec.key == key && rec.descricao != "" && rec.titulo != Sentinel
              && (rec.valor == "NaN" || Decimal.IsTwoPlaces(rec.valor))
  {
    var e := End(sheet);
    if rec in Rows(sheet, key) {
      var r := RowScan.ConcatSound(RowRecords(sheet, key), FirstRow, e, rec);
      assert !Stops(sheet, r);
    }
    if exists r :: FirstRow <= r < e && Emits(sheet, r) && rec == Entry(sheet, r, key) {
      var r :| FirstRow <= r < e && Emits(sheet, r) && rec == Entry(sheet, r, key);
      RowScan.ConcatComplete(RowRecords(sheet, key), FirstRow, e, r, rec);
    }
  }

  /**
   * An amount `parseFloat` cannot read does not drop the row: the record is
   * stored with the text "NaN" as its amount.
   */
  lemma UnreadableAmountKept(sheet: Sheet, key: Key, r: nat)
    requires FirstRow <= r < End(sheet) && Emits(sheet, r)
    requires Decimal.ParseFloat(CleanAmount(TextOf(At(sheet, r, ColO)))).None?
    ensures Entry(sheet, r, key) in Rows(sheet, key) && Entry(sheet, r, key).valor == "NaN"
  {
    RowsMembers(sheet, key, Entry(sheet, r, key));
  }

  /** At most one record per row passed over. */
  lemma RowsCount(sheet: Sheet, key: Key)
    ensures |Rows(sheet, key)| <= End(sheet) - FirstRow
  {
    RowScan.ConcatAtMostOne(RowRecords(sheet, key), FirstRow, End(sheet));
  }

  /**
   * A row whose A text is blank but whose D cell holds only white space is
   * not a stop (the raw value is not falsy) and produces no record: the scan
   * passes over it and goes on.
   */
  lemma BlankLookingRowSkipped(sheet: Sheet, key: Key, r: nat)
    requires TextOf(At(sheet, r, ColA)) == "" && At(sheet, r, ColD) == Str(" ")
    ensures !Stops(sheet, r) && !Emits(sheet, r)
    ensures RowRecords(sheet, key)(r) == []
  {
    FalsyHasNoText(At(sheet, r, ColD));
  }

  /**
   * An amount cell that holds the number 2.5 rather than text is stored as
   * "25.00": its printed point is removed like a thousands separator.
   */
  lemma NumericAmountStored(sheet: Sheet, key: Key, r: nat)
    requires At(sheet, r, ColO) == Num("2.5")
    ensures Entry(sheet, r, key).valor == "25.00"
  {
    assert TextOf(Num("2.5")) == "2.5";
    NumericCellStored();
  }
}
