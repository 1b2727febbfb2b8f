/**
 * The balancete (trial balance) scan: from row 8 down, one record per row
 * until the code column is blank or reads "RESUMO DO BALANCETE".
 */
module Balancete {
  import opened Wrappers
  import Text
  import Digits
  import opened Decimal
  import opened Workbook
  import opened Records
  import opened Account
  import RowScan

  const FirstRow: nat := 8
  const Sentinel := "RESUMO DO BALANCETE"
  const Separator := " > "
  /** The description columns, I to N. */
  const FirstDescriptionCol: nat := 9
  const LastDescriptionCol: nat := 14

  /** The scan stops at a row whose trimmed code is blank or the summary heading. */
  predicate Stops(sheet: Sheet, r: nat) {
    var codigo := TextOf(At(sheet, r, ColA));
    codigo == "" || codigo == Sentinel
  }

  /** `Stops` as a row predicate. */
  function StopsAt(sheet: Sheet): nat -> bool {
    (r: nat) => Stops(sheet, r)
  }

  /** Every row past the last one the sheet holds is empty, so it stops the scan. */
  lemma StopsPastLastRow(sheet: Sheet, r: nat)
    requires r > |sheet.rows|
    ensures StopsAt(sheet)(r)
  {
  }

  /** The row the scan stops at: the first stopping row from `FirstRow` on. */
  function End(sheet: Sheet): (e: nat)
    ensures FirstRow <= e && Stops(sheet, e)
    ensures forall k :: FirstRow <= k < e ==> !Stops(sheet, k)
  {
    var past := if FirstRow > |sheet.rows| then FirstRow else |sheet.rows| + 1;
    StopsPastLastRow(sheet, past);
    var e := RowScan.FirstStop(StopsAt(sheet), FirstRow, past);
    assert forall k :: FirstRow <= k < e ==> !Stops(sheet, k) by {
      forall k | FirstRow <= k < e
        ensures !Stops(sheet, k)
      {
        assert !StopsAt(sheet)(k);
      }
    }
    e
  }

  /** The trimmed texts of the description columns of row `r`, left to right. */
  function DescriptionTexts(sheet: Sheet, r: nat): (texts: seq<string>)
    ensures |texts| == LastDescriptionCol - FirstDescriptionCol + 1
  {
    seq(LastDescriptionCol - FirstDescriptionCol + 1, i requires 0 <= i => TextOf(At(sheet, r, FirstDescriptionCol + i)))
  }

  /** `descricao_conta`. */
  function Description(sheet: Sheet, r: nat): string {
    Text.Join(Collect(DescriptionTexts(sheet, r)), Separator)
  }

  /** `parseFloat(cell.value?.toString() || '0')` with NaN read as 0. */
  function Money(c: Cell): real {
    var shown := match Shown(c) case None => "0" case Some(s) => if s == "" then "0" else s;
    OrZero(ParseFloat(shown))
  }

  /** The record the scan builds for row `r`. */
  function Entry(sheet: Sheet, r: nat, key: Key): Record {
    BalanceteRow(key,
                 NormalizeCode(TextOf(At(sheet, r, ColA))),
              TextOf(At(sheet, r, ColE)),
              Description(sheet, r),
              Money(At(sheet, r, ColV)),
              Money(At(sheet, r, ColY)),
              Money(At(sheet, r, ColAC)),
              Money(At(sheet, r, ColAI)))
  }

  /** What row `r` contributes: its one record. */
  function RowRecords(sheet: Sheet, key: Key): nat -> seq<Record> {
    (r: nat) => [Entry(sheet, r, key)]
  }

  /** Everything the scan produces: one record per row from row 8 up to the stopping row. */
  function Rows(sheet: Sheet, key: Key): seq<Record> {
    RowScan.Concat(RowRecords(sheet, key), FirstRow, End(sheet))
  }

  /** The description builder of one row: the `for (col = 9; col <= 14; col++)` loop. */
  method DescriptionParts(sheet: Sheet, r: nat) returns (parts: seq<string>)
    ensures parts == Collect(DescriptionTexts(sheet, r))
  {
    ghost var texts := DescriptionTexts(sheet, r);
    parts := [];
    for col := FirstDescriptionCol to LastDescriptionCol + 1
      invariant parts == Collect(texts[..col - FirstDescriptionCol])
    {
      var valor := TextOf(At(sheet, r, col));
      CollectStep(texts, col - FirstDescriptionCol);
      if valor != "" && valor !in parts {
        parts := parts + [valor];
      }
    }
    assert texts[..LastDescriptionCol + 1 - FirstDescriptionCol] == texts;
  }

  lemma CollectStep(texts: seq<string>, k: nat)
    requires k < |texts|
    ensures var p := Collect(texts[..k]);
            var v := texts[k];
            Collect(texts[..k + 1]) == if v != "" && v !in p then p + [v] else p
  {
    assert texts[..k + 1][..k] == texts[..k];
  }

  /** The record of one row: code, classification, description and the four balances. */
  method ReadRow(sheet: Sheet, rowNum: nat, codigo: string, key: Key) returns (balancete: Record)
    requires codigo == TextOf(At(sheet, rowNum, ColA))
    ensures balancete == Entry(sheet, rowNum, key)
  {
    var classificacao := TextOf(At(sheet, rowNum, ColE));
    var descricaoPartes := DescriptionParts(sheet, rowNum);
    var descricaoConta := Text.Join(descricaoPartes, Separator);
    var saldoAnterior := Money(At(sheet, rowNum, ColV));
    var debito := Money(At(sheet, rowNum, ColY));
    var credito := Money(At(sheet, rowNum, ColAC));
    var saldoAtual := Money(At(sheet, rowNum, ColAI));
    balancete := BalanceteRow(key, NormalizeCode(codigo), classificacao, descricaoConta,
                              saldoAnterior, debito, credito, saldoAtual);
  }

  /** The `while (true)` scan of `handleBalanceteUpload`. */
  method Scan(sheet: Sheet, key: Key) returns (balancetes: seq<Record>)
    ensures balancetes == Rows(sheet, key)
  {
    balancetes := [];
    var rowNum := FirstRow;
    while true
      invariant FirstRow <= rowNum <= End(sheet)
      invariant balancetes == RowScan.Concat(RowRecords(sheet, key), FirstRow, rowNum)
      decreases End(sheet) - rowNum
    {
      var codigo := TextOf(At(sheet, rowNum, ColA));
      if codigo == "" || codigo == Sentinel {
        assert Stops(sheet, rowNum);
        assert rowNum == End(sheet);
        break;
      }
      assert rowNum < End(sheet);
      var balancete := ReadRow(sheet, rowNum, codigo, key);
      balancetes := balancetes + [balancete];
      rowNum := rowNum + 1;
    }
  }

  /** The scan gives exactly one record per row before the stop. */
  lemma RowsCount(sheet: Sheet, key: Key)
    ensures |Rows(sheet, key)| == End(sheet) - FirstRow
  {
    var f, e := RowRecords(sheet, key), End(sheet);
    forall r | FirstRow <= r < e
      ensures |f(r)| == 1
    {
      assert f(r) == [Entry(sheet, r, key)];
    }
    RowScan.ConcatOnePerRow(f, FirstRow, e);
  }

  /** Records keep row order: the record of row `r` comes right after those of rows 8 to `r - 1`. */
  lemma RowsAt(sheet: Sheet, key: Key, r: nat)
    requires FirstRow <= r < End(sheet)
    ensures |Rows(sheet, key)| == End(sheet) - FirstRow
    ensures Rows(sheet, key)[r - FirstRow] == Entry(sheet, r, key)
  {
    var f, e := RowRecords(sheet, key), End(sheet);
    RowsCount(sheet, key);
    forall q | FirstRow <= q < r
      ensures |f(q)| == 1
    {
      assert f(q) == [Entry(sheet, q, key)];
    }
    RowScan.ConcatOnePerRow(f, FirstRow, r);
    RowScan.ConcatSplit(f, FirstRow, r, e);
    RowScan.ConcatSplit(f, r, r + 1, e);
    var before, after := RowScan.Concat(f, FirstRow, r), RowScan.Concat(f, r + 1, e);
    assert RowScan.Concat(f, r, r + 1) == [Entry(sheet, r, key)];
    assert Rows(sheet, key) == before + ([Entry(sheet, r, key)] + after);
  }

  /** The scan's records are exactly the entries of the rows before the stop. */
  lemma RowsMembers(sheet: Sheet, key: Key, rec: Record)
    ensures rec in Rows(sheet, key) <==> exists r :: FirstRow <= r < End(sheet) && rec == Entry(sheet, r, key)
  {
    var e := End(sheet);
    if rec in Rows(sheet, key) {
      var r := RowScan.ConcatSound(RowRecords(sheet, key), FirstRow, e, rec);
      assert RowRecords(sheet, key)(r) == [Entry(sheet, r, key)];
    }
    if exists r :: FirstRow <= r < e && rec == Entry(sheet, r, key) {
      var r :| FirstRow <= r < e && rec == Entry(sheet, r, key);
      assert rec in RowRecords(sheet, key)(r);
      RowScan.ConcatComplete(RowRecords(sheet, key), FirstRow, e, r, rec);
    }
  }

  // ---------------------------------------------------------------------------
  // Properties of the scan.

  /** Every record is a balancete row of the period, and its stored code is non-empty and is "0" or does not start with a zero. */
  lemma CodesNormalized(sheet: Sheet, key: Key, rec: Record)
    requires rec in Rows(sheet, key)
    ensures rec.BalanceteRow? && rec.key == key && IsStoredCode(rec.codigo)
  {
    RowsMembers(sheet, key, rec);
  }

  /** The description lists the distinct non-blank texts; it is empty exactly when all six cells are blank. */
  lemma DescriptionBlank(sheet: Sheet, r: nat)
    ensures Description(sheet, r) == "" <==>
              forall col :: FirstDescriptionCol <= col <= LastDescriptionCol ==> TextOf(At(sheet, r, col)) == ""
  {
    var texts := DescriptionTexts(sheet, r);
    var parts := Collect(texts);
    Text.JoinEmpty(parts, Separator);
    if parts == [] {
      forall col | FirstDescriptionCol <= col <= LastDescriptionCol
        ensures TextOf(At(sheet, r, col)) == ""
      {
        assert texts[col - FirstDescriptionCol] in texts;
      }
    } else {
      var v := parts[0];
      assert v in parts;
      var i :| 0 <= i < |texts| && texts[i] == v;
      assert TextOf(At(sheet, r, FirstDescriptionCol + i)) != "";
    }
  }

  /**
   * A monetary cell stores the number it holds: the parsed text when it reads
   * as a number, 0 when it is absent or does not read as one, never NaN.
   */
  lemma MoneyMeaning(c: Cell, n: nat)
    ensures c.Empty? ==> Money(c) == 0.0
    ensures c == Num(Digits.NatToString(n)) ==> Money(c) == n as real
    ensures c.Str? && c.s != "" && ParseFloat(c.s) == None ==> Money(c) == 0.0
    ensures c.Str? && c.s != "" && ParseFloat(c.s).Some? ==> Money(c) == ParseFloat(c.s).value
  {
    ParseFloatNat(0);
    assert Digits.NatToString(0) == "0";
    if c == Num(Digits.NatToString(n)) {
      ParseFloatNat(n);
    }
  }
}
