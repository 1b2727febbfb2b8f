# Spreadsheet ingestion of the accounting back-office

The back-office lets an operator upload two kinds of periodic statements for a
client: a trial balance ("balancete") and a cash-flow statement ("DFC").
Each comes as an Excel workbook. The upload page does the following:

1. It checks the file name (`.xlsx` or `.xls`, any case).
2. It loads the workbook and takes its first worksheet.
3. It reads the client's CNPJ (tax id) and the reporting period from the
   header cells: G2/G3 for a balancete, E2/E3 for a DFC.
4. It finds the one client with that CNPJ.
5. It matches the period text against `DD/MM/YYYY - DD/MM/YYYY` and turns
   both dates into ISO `YYYY-MM-DD` strings.
6. It scans the data region of the sheet into records of the chosen kind.
7. It replaces the client's period in the matching table: first a delete of
   every row with the same client and period, then an insert of the batch.

The first check that fails ends the upload with a single message.

This project models that pipeline in Dafny and proves what it does:

- Which rows each scan reads and where it stops.
- How account codes, descriptions and amounts are normalised.
- How the period text becomes the two stored dates.
- What the delete-then-insert leaves in the table, including when one of the
  two store calls fails.

The modules follow the page:

- `Text`, `Digits`, `Decimal` hold the JavaScript string and number
  primitives the page relies on: `trim`, `join`, `parseFloat`, `toFixed(2)`.
- `Workbook` holds the sheet and its cells.
- `Account` holds the account code and description rules.
- `Amount` holds the DFC amount rewriting.
- `RowScan` holds the row-by-row concatenation both scans share.
- `Balancete` and `Dfc` hold the two scans.
- `Store` holds the tables.
- `Period` holds the period pattern and the calendar.
- `Upload` holds the orchestration.

The row scans, the description loop, the tables and `handleUpload` are
methods. Each is proved against a function that states its result. Numbers
are exact rationals, and NaN is `None`.

Four behaviours of the page are easy to misread:

- A DFC row whose amount `parseFloat` cannot read is stored with the amount
  text "NaN". It is not skipped (`Dfc.UnreadableAmountKept`).
- A failed delete is not noticed. The insert still runs
  (`Store.DeleteFailureDuplicates`).
- The DFC CNPJ is read from E2. The message for a missing one names E3 (see
  Findings).
- A DFC amount cell that holds a number rather than text loses its decimal
  point, because the point is removed as a thousands separator: 2.5 is stored
  as "25.00" (`Dfc.NumericAmountStored`).

## Model

| member | source | states |
|---|---|---|
| Text.Trim | src/pages/Upload.tsx:41 | `trim()`: white space dropped at the start, then at the end; its properties are the lemmas below |
| Text.TrimSplits | src/pages/Upload.tsx:41 | `trim()` removes white space only at the two ends: the result is a contiguous slice of the input, only white space is cut away on either side, and the result has no white space at either end |
| Text.TrimPadded | src/pages/Upload.tsx:41 | trimmed text with white space added on either side trims back to itself |
| Text.TrimIdempotent | src/pages/Upload.tsx:41 | trimming twice gives what trimming once gives |
| Text.Join | src/pages/Upload.tsx:55 | `join(' > ')`: the parts in order with the separator between neighbours; its properties are the two lemmas below |
| Text.JoinEmpty | src/pages/Upload.tsx:55 | joining non-empty parts gives the empty string exactly when there are no parts |
| Text.JoinEnds | src/pages/Upload.tsx:55 | the joined text starts with the first part and ends with the last |
| Text.LowerAsciiSame | src/pages/Upload.tsx:196 | under the `i` flag two characters match exactly when they are equal or are the same ASCII letter in the two cases; lower-casing both makes them equal in exactly those cases |
| Text.LowerEqual | src/pages/Upload.tsx:196 | two texts lower-case to the same text exactly when they match character by character up to ASCII case |
| Digits.NatToString | src/pages/Upload.tsx:57 | `String(n)` of a whole number is a non-empty run of digits, without a leading zero unless it is "0" |
| Digits.NatToStringValue | src/pages/Upload.tsx:57 | reading the printed digits back gives the number |
| Digits.ValueOfAppend | src/pages/Upload.tsx:270 | the value of two digit runs side by side is the first scaled by ten to the length of the second, plus the second |
| Digits.ZeroPadValue | src/pages/Upload.tsx:273 | zero padding keeps the value and reaches the width whenever the number fits in it |
| Digits.ZeroPadDigits | src/pages/Upload.tsx:273 | padding the value of a digit run to the run's own length gives the run back, so "07" stays "07" |
| Digits.NatToStringInjective | src/pages/Upload.tsx:57 | two numbers printed alike are equal |
| Digits.ValueOfInjective | src/pages/Upload.tsx:270 | two digit runs of one length with one value are the same run |
| Digits.NatToStringFits | src/pages/Upload.tsx:273 | a number below ten to the `w` is printed in at most `w` digits |
| Decimal.LeadingDigits | src/pages/Upload.tsx:57 | the digit run at the front of a text is all digits and is followed by a non-digit or the end |
| Decimal.ParseFloat | src/pages/Upload.tsx:57 | `parseFloat`: leading white space skipped, an optional sign, the longest decimal literal with an optional exponent, or NaN when no digit starts it; its properties are the lemmas below |
| Decimal.ParseFloatDigits | src/pages/Upload.tsx:57 | `parseFloat` of a bare digit run is its value |
| Decimal.ParseFloatNat | src/pages/Upload.tsx:57 | `parseFloat(String(n))` is `n` |
| Decimal.ParseFloatUnsigned | src/pages/Upload.tsx:57 | text that starts with a digit is read as an unsigned literal |
| Decimal.ParseFloatSkipsSpace | src/pages/Upload.tsx:57 | leading white space does not change what `parseFloat` reads |
| Decimal.ParseFloatNaN | src/pages/Upload.tsx:57 | text whose first visible character cannot start a number reads as NaN |
| Decimal.ParseFloatNegated | src/pages/Upload.tsx:138 | a minus sign before a literal that starts with a digit negates its value |
| Decimal.FixedMagnitude | src/pages/Upload.tsx:138 | `toFixed(2)` of a non-negative number starts with a digit and has exactly two digits after a point |
| Decimal.ToFixed2 | src/pages/Upload.tsx:138 | `toFixed(2)` gives "NaN" for NaN; otherwise it gives two decimal places, with a leading minus exactly when the number is negative |
| Decimal.ParseFixedMagnitude | src/pages/Upload.tsx:138 | the unsigned text `toFixed(2)` prints parses to the number rounded to hundredths |
| Decimal.ParseDigitsPointDigits | src/pages/Upload.tsx:138 | `whole.dd` parses to `whole + dd/100` |
| Decimal.ToFixed2RoundTrip | src/pages/Upload.tsx:138 | parsing what `toFixed(2)` printed gives the number rounded to two places (ties away from zero) |
| Decimal.Round2Cents | src/pages/Upload.tsx:138 | a whole number of hundredths is left unchanged by that rounding |
| Workbook.At | src/pages/Upload.tsx:39 | a row outside the sheet has only empty cells |
| Workbook.TextOf | src/pages/Upload.tsx:41 | the trimmed printed value (`cell.value?.toString().trim()`), or "" for an empty cell |
| Workbook.TextOfTrimmed | src/pages/Upload.tsx:41 | the text read from a cell (`value?.toString().trim()`, or "") is always trimmed |
| Workbook.Falsy | src/pages/Upload.tsx:124 | `!cell.value`: an empty cell, the empty string, or the number 0 or NaN |
| Workbook.FalsyHasNoText | src/pages/Upload.tsx:124 | a falsy cell other than a number has no text; a cell holding one space is not falsy, yet its text is blank |
| Workbook.ColumnLetters | src/pages/Upload.tsx:41 | a column number is named by capital letters |
| Workbook.ColumnNames | src/pages/Upload.tsx:57-60 | the column numbers used are those of A, D, E, G, O, V, Y, AC and AI |
| Account.StripLeadingZeros | src/pages/Upload.tsx:66 | `replace(/^0+/, '')` removes exactly the leading zeros: what is removed is all zeros, what is left is a suffix that does not start with a zero |
| Account.StripZerosPrefix | src/pages/Upload.tsx:66 | zeros followed by a text that does not start with a zero strip to that text |
| Account.NormalizeCode | src/pages/Upload.tsx:66 | a stored code is never empty and is "0" or does not start with a zero |
| Account.NormalizeCodeMeaning | src/pages/Upload.tsx:66 | a code made of leading zeros and a rest is stored as the rest, or as "0" when the rest is empty |
| Account.NormalizeCodeIdempotent | src/pages/Upload.tsx:66 | normalising a stored code again changes nothing |
| Account.Collect | src/pages/Upload.tsx:48-53 | the description parts are non-empty, pairwise distinct, and are exactly the non-blank texts of the six cells |
| Account.CollectOrder | src/pages/Upload.tsx:48-53 | the parts keep the order in which their texts first occur, so the first occurrence wins |
| RowScan.ConcatSound | src/pages/Upload.tsx:62 | every record of a scan comes from one of the rows visited |
| RowScan.ConcatComplete | src/pages/Upload.tsx:140 | every record a visited row produces is kept |
| RowScan.ConcatSplit | src/pages/Upload.tsx:75 | records keep row order: those of the rows above come first |
| RowScan.ConcatAtMostOne | src/pages/Upload.tsx:133 | when no row produces more than one record, there are at most as many records as rows |
| RowScan.ConcatOnePerRow | src/pages/Upload.tsx:62 | when every row produces one record, there are exactly as many records as rows |
| RowScan.FirstStop | src/pages/Upload.tsx:35-43 | a `while (true)` scan that breaks on a row predicate ends at the first row from its start where the predicate holds: it holds there and at no row before |
| Balancete.Stops | src/pages/Upload.tsx:41-43 | the balancete scan breaks at a row whose trimmed code is blank or "RESUMO DO BALANCETE" |
| Balancete.End | src/pages/Upload.tsx:36-43 | the scan stops at the first row from 8 whose trimmed code is blank or "RESUMO DO BALANCETE"; no row before it stops the scan |
| Balancete.Description | src/pages/Upload.tsx:47-55 | `descricao_conta`: the distinct non-blank texts of columns 9 to 14 joined with " > " |
| Balancete.Money | src/pages/Upload.tsx:57-60 | `parseFloat` of the printed value, with "0" for an empty cell or empty text, and NaN read as 0 |
| Balancete.Entry | src/pages/Upload.tsx:62-73 | the record of one row: normalised code, classification from E, description, and the balances of V, Y, AC and AI |
| Balancete.DescriptionTexts | src/pages/Upload.tsx:48-49 | the texts of description columns 9 to 14, six of them |
| Balancete.DescriptionParts | src/pages/Upload.tsx:47-53 | the `for` loop collects exactly the distinct non-blank texts, first occurrence first |
| Balancete.ReadRow | src/pages/Upload.tsx:41-73 | one row's record: the normalised code, the classification, the joined description and the four balances |
| Balancete.Scan | src/pages/Upload.tsx:35-76 | the `while (true)` loop returns the records of rows 8 to the stopping row, in order |
| Balancete.RowsCount | src/pages/Upload.tsx:36-43 | exactly one record per row before the stop |
| Balancete.RowsAt | src/pages/Upload.tsx:62 | the record of row `r` is at position `r - 8` |
| Balancete.RowsMembers | src/pages/Upload.tsx:36-75 | a record is produced exactly when it is the entry of a row before the stop |
| Balancete.CodesNormalized | src/pages/Upload.tsx:62-66 | every record is a balancete row of the period, and its code is non-empty and "0" or without a leading zero |
| Balancete.DescriptionBlank | src/pages/Upload.tsx:47-55 | the description is empty exactly when all six description cells are blank |
| Balancete.MoneyMeaning | src/pages/Upload.tsx:57-60 | a balance is the parsed cell value; an absent or unreadable cell gives 0, never NaN |
| Dfc.Stops | src/pages/Upload.tsx:116-126 | the DFC scan breaks at the closing balance line, or at a row whose A text is blank while the raw D and O values are falsy |
| Dfc.End | src/pages/Upload.tsx:116-126 | the scan stops at the first row from 7 whose A text is the closing line, or whose A text is blank while D and O are falsy |
| Dfc.Emits | src/pages/Upload.tsx:133 | a row passed over produces a record exactly when its trimmed D and O texts are both non-blank |
| Dfc.Entry | src/pages/Upload.tsx:129-147 | the record of one row: its own A text as title, its D text, and its O text rewritten as the amount |
| Dfc.ReadRow | src/pages/Upload.tsx:128-148 | a row gives its entry exactly when its D and O texts are both non-blank, and nothing otherwise |
| Dfc.Scan | src/pages/Upload.tsx:113-152 | the `while (true)` loop returns the records of the emitting rows before the stop, in order |
| Dfc.RowsMembers | src/pages/Upload.tsx:116-147 | a record is produced exactly when it is the entry of an emitting row before the stop; every record is a DFC row of the period, its title is never the closing line, its description is non-blank, and its amount is "NaN" or has two decimals |
| Dfc.UnreadableAmountKept | src/pages/Upload.tsx:133-138 | a row whose amount does not read as a number is still stored, with amount "NaN" |
| Dfc.RowsCount | src/pages/Upload.tsx:133 | at most one record per row passed over |
| Dfc.BlankLookingRowSkipped | src/pages/Upload.tsx:124-133 | a row with blank A and a D cell holding one space neither stops the scan nor produces a record |
| Amount.RemoveDots | src/pages/Upload.tsx:135 | no point is left, and nothing is added |
| Amount.ReplaceFirstComma | src/pages/Upload.tsx:135 | the length is kept |
| Amount.ReplaceFirstCommaSplits | src/pages/Upload.tsx:135 | only the first comma becomes a point; text without a comma is unchanged |
| Amount.RemoveDotsAppend | src/pages/Upload.tsx:135 | removing points works piece by piece |
| Amount.RemoveDotsNone | src/pages/Upload.tsx:135 | text without a point is left unchanged |
| Amount.CommaSurvives | src/pages/Upload.tsx:135 | removing points keeps every comma |
| Amount.CleanAmount | src/pages/Upload.tsx:135 | `replace(/\./g, '').replace(',', '.')`: every point removed, then the first comma made a point |
| Amount.CleanAmountPoint | src/pages/Upload.tsx:135 | the cleaned text holds a point exactly when the input held a comma |
| Amount.NormalizeAmount | src/pages/Upload.tsx:135-138 | the stored amount is "NaN" or has exactly two decimal places |
| Amount.RemoveDotsGroup | src/pages/Upload.tsx:134-135 | removing the points from digits grouped by thousands gives the digits back |
| Amount.CleanFormatBR | src/pages/Upload.tsx:134-135 | cleaning the pt-BR rendering of an amount gives exactly its `toFixed(2)` text |
| Amount.NormalizeFormatBR | src/pages/Upload.tsx:135-138 | a pt-BR amount is stored as its cleaned text, which parses back to the same amount |
| Amount.CleanGrouped | src/pages/Upload.tsx:134-135 | a signed amount grouped by thousands with a decimal comma is cleaned to the same sign, the bare digits, a point and the decimals |
| Amount.ThousandsExample | src/pages/Upload.tsx:134-135 | "1.234,56" is cleaned to "1234.56" |
| Amount.NumericCellLosesPoint | src/pages/Upload.tsx:131-135 | the text "2.5", which a cell holding the number 2.5 prints, is cleaned to "25" |
| Amount.NumericCellStored | src/pages/Upload.tsx:131-138 | that text is stored as "25.00" |
| Dfc.NumericAmountStored | src/pages/Upload.tsx:131-147 | a DFC row whose amount cell holds the number 2.5 is stored with amount "25.00" |
| Store.Without | src/pages/Upload.tsx:83-88 | what is left after the delete is no longer than the table |
| Store.RowsFor | src/pages/Upload.tsx:86-88 | the rows of one key are no more than the table |
| Store.Table.DeleteWhere | src/pages/Upload.tsx:83-88 | the delete removes the rows of the key when it goes through, and changes nothing otherwise |
| Store.Table.Insert | src/pages/Upload.tsx:91-97 | the insert adds the whole batch at the end, or reports its error and adds nothing |
| Store.Table.Replace | src/pages/Upload.tsx:83-97 | the delete followed by the insert, with the insert's error passed on |
| Store.WithoutRowsFor | src/pages/Upload.tsx:83-88 | after the delete the key has no rows, and every other key keeps its rows |
| Store.WithoutIdempotent | src/pages/Upload.tsx:83-88 | deleting the same key twice is deleting it once |
| Store.ReplaceHoldsBatch | src/pages/Upload.tsx:83-93 | after a successful replacement the key holds exactly the batch |
| Store.ReplaceKeepsOthers | src/pages/Upload.tsx:83-93 | whatever the two calls answer, every other client or period keeps its rows |
| Store.ReplaceIdempotent | src/pages/Upload.tsx:83-93 | uploading the same batch twice leaves the table an upload of it once leaves |
| Store.InsertFailureEmptiesPeriod | src/pages/Upload.tsx:91-97 | when the delete went through and the insert fails, the period is left with no rows |
| Store.DeleteFailureDuplicates | src/pages/Upload.tsx:83-93 | when the delete fails unnoticed, the old rows stay and the batch is added after them |
| Period.SpacesFromSpec | src/pages/Upload.tsx:263 | the greedy `\s*` takes a run of white space followed by something else or by the end |
| Period.SpacesExactly | src/pages/Upload.tsx:263 | `\s*` takes exactly the white space before the first visible character |
| Period.MatchAt | src/pages/Upload.tsx:263 | both captured groups are `DD/MM/YYYY` tokens |
| Period.Match | src/pages/Upload.tsx:263 | both captured groups are `DD/MM/YYYY` tokens |
| Period.FirstMatchSpec | src/pages/Upload.tsx:263 | the search from a position finds the first later position where the pattern matches, and fails only when it matches at none of them |
| Period.MatchIsLeftmost | src/pages/Upload.tsx:263 | the search returns the leftmost match and fails only when the pattern matches nowhere |
| Period.MatchAtComposed | src/pages/Upload.tsx:263 | a date, white space, a dash, white space and a date match and capture the two dates |
| Period.MatchAtDecomposed | src/pages/Upload.tsx:263 | every match is a date, white space, a dash, white space and a date |
| Period.NoDashNoMatch | src/pages/Upload.tsx:263-266 | text without a dash has no match |
| Period.MatchExample | src/pages/Upload.tsx:263 | "01/01/2025 - 31/01/2025" captures "01/01/2025" and "31/01/2025" |
| Period.DaysIn | src/pages/Upload.tsx:273 | a month has 28 to 31 days |
| Period.FullYear | src/pages/Upload.tsx:273 | `new Date` reads years 0 to 99 as 1900 to 1999 |
| Period.FromFirst | src/pages/Upload.tsx:273 | counting days on from the first of a month always lands on a real calendar date |
| Period.MakeDate | src/pages/Upload.tsx:273 | `new Date(year, month - 1, day)` is always a real calendar date |
| Period.MakeDateMeaning | src/pages/Upload.tsx:273 | that date is the given day counted from the first of the given month, with the month carried into the year |
| Period.MakeDateCarries | src/pages/Upload.tsx:273 | 31/02/2025 becomes 3 March 2025, day 0 is the last day of the month before, month 13 is January of the next year, and year 25 is 1925 |
| Period.IsoDate | src/pages/Upload.tsx:273-274 | `toISOString().split('T')[0]`: four-digit year (a sign and six digits past 9999), two-digit month and day, joined by dashes |
| Period.Bound | src/pages/Upload.tsx:270-274 | a captured `DD/MM/YYYY` is split, given to `new Date(year, month - 1, day)`, and stored as its ISO date |
| Period.BoundOfValidDate | src/pages/Upload.tsx:269-274 | a real date from year 100 on is stored as `YYYY-MM-DD`, its own digits rearranged |
| Period.BoundExamples | src/pages/Upload.tsx:269-274 | "01/01/2025" is stored as "2025-01-01", "31/01/2025" as "2025-01-31" |
| Upload.AcceptedName | src/pages/Upload.tsx:196 | the extension test of the file name with the `i` flag, made on the lower-cased name |
| Upload.AcceptedNameMeaning | src/pages/Upload.tsx:196-197 | a name is accepted exactly when it ends in ".xlsx" or ".xls", each letter in either case |
| Upload.AcceptedAnyCase | src/pages/Upload.tsx:196 | a name ending in `.xlsx` or `.xls`, in any case, is accepted |
| Upload.RejectedWithoutDot | src/pages/Upload.tsx:196-197 | a name without a dot is refused |
| Upload.MatchingMembers | src/pages/Upload.tsx:237-240 | the clients found are exactly those with the CNPJ |
| Upload.MatchingTwice | src/pages/Upload.tsx:237-241 | two clients with the CNPJ give at least two matches |
| Upload.Lookup | src/pages/Upload.tsx:237-245 | `select('*').eq('cnpj', cnpj).single()`: the client when exactly one row carries the CNPJ, otherwise not found |
| Upload.LookupUnique | src/pages/Upload.tsx:237-245 | the client found is the one client with the CNPJ; none, or more than one, is not found |
| Upload.Header | src/pages/Upload.tsx:225-267 | the header checks in the page's order: CNPJ cell, client lookup, period cell, period pattern, giving the client, the period text and the key |
| Upload.Prepare | src/pages/Upload.tsx:196-282 | every check before the first store call, in the page's order: extension, workbook, first sheet, header, non-empty batch |
| Upload.BlankCnpjRejected | src/pages/Upload.tsx:226-233 | a blank CNPJ cell stops the upload with the CNPJ message |
| Upload.ClientBeforePeriod | src/pages/Upload.tsx:237-245 | an unknown CNPJ stops the upload before the period cell is looked at |
| Upload.BlankPeriodRejected | src/pages/Upload.tsx:249-256 | a blank period cell stops the upload with the period message |
| Upload.PeriodWithoutDash | src/pages/Upload.tsx:263-267 | a period text without a dash stops the upload with the format message |
| Upload.EmptyBatchRejected | src/pages/Upload.tsx:78-80 | a sheet whose scan finds nothing stops the upload before any store call |
| Upload.BatchKeyed | src/pages/Upload.tsx:62-65 | every record of a batch carries the client and period of the upload and is of the chosen kind |
| Upload.PrepareSuccess | src/pages/Upload.tsx:196-282 | an upload that passes every check has a non-empty batch read from the first sheet, keyed by the one client with the header's CNPJ and by the two stored period dates |
| Upload.PeriodExample | src/pages/Upload.tsx:263-274 | the period "01/01/2025 - 31/01/2025" is keyed "2025-01-01" to "2025-01-31" |
| Upload.UploadReplacesPeriod | src/pages/Upload.tsx:83-106 | after a successful upload the period holds exactly the batch, and the count reported is the batch's size |
| Upload.HandleUpload | src/pages/Upload.tsx:187-296 | the outcome is the first failing check's message, the insert's error, or the report; a failed check writes nothing; otherwise only the chosen kind's table is changed, by the delete-then-insert |
| Upload.Message | src/pages/Upload.tsx:197-266 | the message of each failure, with a missing CNPJ reported for the cell it is read from |
| Upload.MessageAsWritten | src/pages/Upload.tsx:229-232 | the messages as the page writes them: a missing DFC CNPJ is reported for E3 |
| Upload.CnpjMessageAsWritten | src/pages/Upload.tsx:229-232 | as written, a DFC without a CNPJ is reported missing from E3, though E2 is read |
| Upload.CellNames | src/pages/Upload.tsx:226-255 | the cells read are G2/G3 and E2/E3, and each missing-cell message names the cell actually read |

## Left out

- Loading the workbook is not modelled. This covers the `exceljs` load of the file's bytes and rich cell values (formulas, dates, rich text, booleans and error values). A `false` in D or O, for example, is falsy in the DFC stop test and prints "false"; neither is modelled. A file is its size plus the sheets a loader would find. A cell is empty, text, or a number together with the text `toString` prints for it.
- Decimal.ParseFloat: numbers are exact rationals, not IEEE doubles. `parseFloat` does not read "Infinity", and rounding of very long literals is not modelled.
- Decimal.ToFixed2: rounds the exact value half away from zero. It does not model how a double's binary value rounds. It does not model the exponential form `toFixed` uses from 1e21 on.
- Period.MakeDate: the local time zone of `new Date` and `toISOString` is taken to be UTC or west of it. A zone east of UTC shifts the stored date back one day, and that is not modelled.
- The client lookup, the delete and the insert are remote calls. Their answers are parameters: the client table, whether the delete went through, and the insert's error.
- A network failure of the client lookup is not modelled separately. It reads as "client not found", as the page reports it.
- Concurrent uploads of the same client and period are not modelled.
- The React state, the file input and the rendered page are not modelled (src/pages/Upload.tsx:15-29, 284-464). This includes the on-screen instructions, which say G2 and G3 for both kinds.
- The other pages, the session context and the database client configuration are not part of this model: src/pages/Dashboard.tsx, src/pages/Clientes.tsx, src/pages/ClienteDetalhes.tsx, src/contexts/AuthContext.tsx, src/lib/supabase.ts.
- Upload.HandleUpload: the `console` logging is left out.

## Findings

| source | as written | input that shows it | evidently intended | confidence | as-written member | corrected member |
|---|---|---|---|---|---|---|
| src/pages/Upload.tsx:229-232 | a DFC's CNPJ is read from E2, but a missing one is reported as missing from E3 | a DFC workbook whose E2 is blank: the page says "CNPJ não encontrado na célula E3" | the message names the cell actually read, E2 | high, not executed | Upload.CnpjMessageAsWritten | Upload.CellNames |
