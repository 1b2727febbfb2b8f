/**
 * The first worksheet of an uploaded workbook, as the upload page sees it:
 * rows numbered from 1, columns numbered from 1 (A = 1), and cells that hold
 * nothing, text or a number. Rows past the last one hold nothing.
 */
module Workbook {
  import opened Wrappers
  import Text
  import Digits

  /** A cell value: absent, a string, or a number carried as the text `toString()` gives for it. */
  datatype Cell = Empty | Str(s: string) | Num(shown: string)

  /** `cell.value?.toString()`. */
  function Shown(c: Cell): Option<string> {
    match c
    case Empty => None
    case Str(s) => Some(s)
    case Num(shown) => Some(shown)
  }

  /** `cell.value?.toString().trim() || ''`: the trimmed text, "" for an absent value. */
  function TextOf(c: Cell): string {
    match Shown(c)
    case None => ""
    case Some(s) => Text.Trim(s)
  }

  /** The text of a cell carries no white space at either end. */
  lemma TextOfTrimmed(c: Cell)
    ensures Text.IsTrimmed(TextOf(c))
  {
    if c.Str? || c.Num? {
      Text.TrimSplits(Shown(c).value);
    }
  }

  /** `!cell.value`: absent, the empty string, or the number 0 or NaN. */
  predicate Falsy(c: Cell) {
    match c
    case Empty => true
    case Str(s) => s == ""
    case Num(shown) => shown == "0" || shown == "NaN"
  }

  /** A falsy cell has no text; a cell of white space has no text yet is not falsy. */
  lemma FalsyHasNoText(c: Cell)
    ensures Falsy(c) && !c.Num? ==> TextOf(c) == ""
    ensures c == Str(" ") ==> !Falsy(c) && TextOf(c) == ""
  {
    if c == Str(" ") {
      assert Text.IsSpace(' ');
      Text.TrimPadded(" ", "", "");
      assert " " + "" + "" == " ";
    }
  }

  /** The sheet: row `r` is `rows[r - 1]`, a map from column number to cell. */
  datatype Sheet = Sheet(rows: seq<map<nat, Cell>>)

  /** The cell at `row`, `col`; Empty outside the rows the sheet holds. */
  function At(sheet: Sheet, row: nat, col: nat): (c: Cell)
    ensures row == 0 || row > |sheet.rows| ==> c == Empty
  {
    if 1 <= row <= |sheet.rows| && col in sheet.rows[row - 1] then sheet.rows[row - 1][col] else Empty
  }

  // Column numbers of the letters the upload page addresses.
  const ColA: nat := 1
  const ColD: nat := 4
  const ColE: nat := 5
  const ColG: nat := 7
  const ColO: nat := 15
  const ColV: nat := 22
  const ColY: nat := 25
  const ColAC: nat := 29
  const ColAI: nat := 35

  /** A fixed cell address such as `G2`. */
  datatype Addr = Addr(row: nat, col: nat)

  function CellAt(sheet: Sheet, a: Addr): Cell {
    At(sheet, a.row, a.col)
  }

  /** Spreadsheet column letters: 1 is A, 26 is Z, 27 is AA. */
  function ColumnLetters(col: nat): (r: string)
    requires col >= 1
    ensures r != [] && forall i :: 0 <= i < |r| ==> 'A' <= r[i] <= 'Z'
  {
    var last := (('A' as int) + (col - 1) % 26) as char;
    if col <= 26 then [last] else ColumnLetters((col - 1) / 26) + [last]
  }

  /** The A1-style name of an address. */
  function Name(a: Addr): string
    requires a.col >= 1
  {
    ColumnLetters(a.col) + Digits.NatToString(a.row)
  }

  /** The column constants name the letters they stand for. */
  lemma ColumnNames()
    ensures ColumnLetters(ColA) == "A" && ColumnLetters(ColD) == "D" && ColumnLetters(ColE) == "E"
    ensures ColumnLetters(ColG) == "G" && ColumnLetters(ColO) == "O" && ColumnLetters(ColV) == "V"
    ensures ColumnLetters(ColY) == "Y" && ColumnLetters(ColAC) == "AC" && ColumnLetters(ColAI) == "AI"
  {
  }
}
