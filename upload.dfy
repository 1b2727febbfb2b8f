/**
 * One upload, from the chosen file to the stored rows: the file-name check,
 * the workbook, the CNPJ and period header cells, the client lookup, the
 * period dates, the scan of the chosen kind, and the replacement of the
 * client's period in the matching table. The first check that fails ends the
 * upload with its message and nothing is written.
 */
module Upload {
  import opened Wrappers
  import opened Text
  import opened Workbook
  import opened Records
  import opened Store
  import Period
  import Balancete
  import Dfc

  /** What the user chose to upload. */
  datatype Kind = BalanceteUpload | DfcUpload

  /** The header cell the CNPJ is read from: G2 for a balancete, E2 for a DFC. */
  function CnpjCell(kind: Kind): Addr {
    match kind
    case BalanceteUpload => Addr(2, ColG)
    case DfcUpload => Addr(2, ColE)
  }

  /** The header cell the period is read from: G3 for a balancete, E3 for a DFC. */
  function PeriodCell(kind: Kind): Addr {
    match kind
    case BalanceteUpload => Addr(3, ColG)
    case DfcUpload => Addr(3, ColE)
  }

  /** `name.match(/\.(xlsx|xls)$/i)`. */
  predicate AcceptedName(name: string) {
    EndsWith(Lower(name), ".xlsx") || EndsWith(Lower(name), ".xls")
  }

  /** The chosen file: its size, and the worksheets the workbook loader finds in it (None when it cannot read it). */
  datatype File = File(byteLength: nat, worksheets: Option<seq<Sheet>>)

  /** Loading the workbook: an empty file is refused before the loader runs. */
  function Load(file: File): Option<seq<Sheet>> {
    if file.byteLength == 0 then None else file.worksheets
  }

  /** Why an upload stops. */
  datatype Failure =
    | BadExtension
    | BadWorkbook
    | NoWorksheet
    | NoCnpj(kind: Kind)
    | UnknownClient(cnpj: string)
    | NoPeriod(kind: Kind)
    | BadPeriod
    | NoRows(kind: Kind)
    | InsertFailed(kind: Kind, reason: string)

  /** The message shown for a failure; a missing CNPJ names the cell the CNPJ is read from. */
  function Message(f: Failure): string {
    match f
    case BadExtension => "Formato de arquivo inválido. Use apenas arquivos .xlsx ou .xls"
    case BadWorkbook =>
      "Arquivo Excel inválido ou corrompido. Verifique se o arquivo está íntegro e no formato correto (.xlsx ou .xls) e tente novamente."
    case NoWorksheet => "Planilha não encontrada"
    case NoCnpj(kind) => "CNPJ não encontrado na célula " + Name(CnpjCell(kind))
    case UnknownClient(cnpj) => "Cliente com CNPJ " + cnpj + " não encontrado. Cadastre o cliente primeiro."
    case NoPeriod(kind) => "Período não encontrado na célula " + Name(PeriodCell(kind))
    case BadPeriod => "Formato de período inválido. Use: DD/MM/YYYY - DD/MM/YYYY"
    case NoRows(kind) =>
      if kind == BalanceteUpload then "Nenhum dado encontrado na planilha" else "Nenhum dado DFC encontrado na planilha"
    case InsertFailed(kind, reason) =>
      (if kind == BalanceteUpload then "Erro ao inserir dados: " else "Erro ao inserir dados DFC: ") + reason
  }

  /** The messages as the page writes them: a DFC without a CNPJ is reported as missing from E3. */
  function MessageAsWritten(f: Failure): string {
    match f
    case NoCnpj(kind) => "CNPJ não encontrado na célula " + (if kind == BalanceteUpload then "G2" else "E3")
    case _ => Message(f)
  }

  /** The clients whose CNPJ is `cnpj`, in table order. */
  function Matching(clientes: seq<Client>, cnpj: string): seq<Client> {
    if clientes == [] then []
    else
      var last := clientes[|clientes| - 1];
      Matching(clientes[..|clientes| - 1], cnpj) + (if last.cnpj == cnpj then [last] else [])
  }

  /** `select('*').eq('cnpj', cnpj).single()`: the client, when exactly one row carries the CNPJ. */
  function Lookup(clientes: seq<Client>, cnpj: string): Option<Client> {
    var found := Matching(clientes, cnpj);
    if |found| == 1 then Some(found[0]) else None
  }

  /** Everything the checks establish before anything is written. */
  datatype Plan = Plan(kind: Kind, cliente: Client, periodoStr: string, key: Key, batch: seq<Record>)

  /** The records the chosen kind's scan reads from the sheet. */
  function Batch(kind: Kind, sheet: Sheet, key: Key): seq<Record> {
    match kind
    case BalanceteUpload => Balancete.Rows(sheet, key)
    case DfcUpload => Dfc.Rows(sheet, key)
  }

  /**
   * The header checks, in the page's order: the CNPJ cell, the client it
   * names, the period cell, the period pattern. On success, the client, the
   * period text and the key the rows will carry.
   */
  function Header(kind: Kind, sheet: Sheet, clientes: seq<Client>): Result<(Client, string, Key), Failure> {
    var cnpj := TextOf(CellAt(sheet, CnpjCell(kind)));
    if cnpj == "" then Failure(NoCnpj(kind))
    else
      match Lookup(clientes, cnpj)
      case None => Failure(UnknownClient(cnpj))
      case Some(cliente) =>
        var periodoStr := TextOf(CellAt(sheet, PeriodCell(kind)));
        if periodoStr == "" then Failure(NoPeriod(kind))
        else
          match Period.Match(periodoStr)
          case None => Failure(BadPeriod)
          case Some((inicioStr, fimStr)) =>
            Success((cliente, periodoStr, Key(cliente.id, Period.Bound(inicioStr), Period.Bound(fimStr))))
  }

  /** The checks of an upload in the order the page makes them, up to the first store call. */
  function Prepare(kind: Kind, fileName: string, file: File, clientes: seq<Client>): Result<Plan, Failure> {
    if !AcceptedName(fileName) then Failure(BadExtension)
    else
      match Load(file)
      case None => Failure(BadWorkbook)
      case Some(worksheets) =>
        if worksheets == [] then Failure(NoWorksheet)
        else
          var sheet := worksheets[0];
          match Header(kind, sheet, clientes)
          case Failure(f) => Failure(f)
          case Success((cliente, periodoStr, key)) =>
            var batch := Batch(kind, sheet, key);
            if batch == [] then Failure(NoRows(kind))
            else Success(Plan(kind, cliente, periodoStr, key, batch))
  }

  /** What the page shows after a successful upload. */
  datatype UploadResult = UploadResult(message: string, cliente: string, cnpj: string, periodo: string, registros: nat, tipo: Kind)

  function Report(plan: Plan): UploadResult {
    UploadResult(if plan.kind == BalanceteUpload then "Balancete importado com sucesso" else "DFC importado com sucesso",
                 plan.cliente.nome, plan.cliente.cnpj, plan.periodoStr, |plan.batch|, plan.kind)
  }

  /** The outcome of an upload whose checks passed, given how the insert went. */
  function Finish(plan: Plan, insertFailure: Option<string>): Result<UploadResult, Failure> {
    match insertFailure
    case None => Success(Report(plan))
    case Some(reason) => Failure(InsertFailed(plan.kind, reason))
  }

  /**
   * `handleUpload`: check, read, scan, then delete the period's rows and insert
   * the batch in the table of the chosen kind. `deleteOk` and `insertFailure`
   * stand for what the database answers to the two calls.
   */
  method HandleUpload(kind: Kind, fileName: string, file: File, clientes: seq<Client>,
                      balancetes: Table, dfc: Table, deleteOk: bool, insertFailure: Option<string>)
    returns (outcome: Result<UploadResult, Failure>)
    requires balancetes != dfc
    modifies balancetes, dfc
    ensures var plan := Prepare(kind, fileName, file, clientes);
            && (plan.Failure? ==> outcome == Failure(plan.error))
            && (plan.Success? ==> outcome == Finish(plan.value, insertFailure))
    ensures var plan := Prepare(kind, fileName, file, clientes);
            && (plan.Failure? ==> balancetes.rows == old(balancetes.rows) && dfc.rows == old(dfc.rows))
            && (plan.Success? && kind == BalanceteUpload ==>
                  && balancetes.rows == Replaced(old(balancetes.rows), plan.value.key, plan.value.batch, deleteOk, insertFailure.None?)
                  && dfc.rows == old(dfc.rows))
            && (plan.Success? && kind == DfcUpload ==>
                  && dfc.rows == Replaced(old(dfc.rows), plan.value.key, plan.value.batch, deleteOk, insertFailure.None?)
                  && balancetes.rows == old(balancetes.rows))
  {
    if !AcceptedName(fileName) {
      return Failure(BadExtension);
    }
    var worksheets := Load(file);
    if worksheets.None? {
      return Failure(BadWorkbook);
    }
    if worksheets.value == [] {
      return Failure(NoWorksheet);
    }
    var worksheet := worksheets.value[0];
    var header := Header(kind, worksheet, clientes);
    if header.Failure? {
      return Failure(header.error);
    }
    var (cliente, periodoStr, key) := header.value;
    var batch;
    var table;
    if kind == BalanceteUpload {
      batch := Balancete.Scan(worksheet, key);
      table := balancetes;
    } else {
      batch := Dfc.Scan(worksheet, key);
      table := dfc;
    }
    if batch == [] {
      return Failure(NoRows(kind));
    }
    var plan := Plan(kind, cliente, periodoStr, key, batch);
    var error := table.Replace(key, batch, deleteOk, insertFailure);
    outcome := Finish(plan, error);
  }

  // ---------------------------------------------------------------------------
  // Properties of an upload.

  /** `name` ends in `ext`, letter for letter up to ASCII case. */
  predicate EndsIgnoringCase(name: string, ext: string) {
    |ext| <= |name| && EqualsIgnoringCase(name[|name| - |ext|..], ext)
  }

  /** A lower-case suffix of the lower-cased name is that suffix of the name up to case. */
  lemma EndsLower(name: string, ext: string)
    requires Lower(ext) == ext
    ensures EndsWith(Lower(name), ext) <==> EndsIgnoringCase(name, ext)
  {
    if |ext| <= |name| {
      var tail := name[|name| - |ext|..];
      assert Lower(name)[|name| - |ext|..] == Lower(tail);
      LowerEqual(tail, ext);
    }
  }

  /** A name is accepted exactly when it ends in ".xlsx" or ".xls", each letter in either case. */
  lemma AcceptedNameMeaning(name: string)
    ensures AcceptedName(name) <==> EndsIgnoringCase(name, ".xlsx") || EndsIgnoringCase(name, ".xls")
  {
    assert Lower(".xlsx") == ".xlsx";
    assert Lower(".xls") == ".xls";
    EndsLower(name, ".xlsx");
    EndsLower(name, ".xls");
  }

  /** A file is accepted by its extension alone, in any mix of upper and lower case. */
  lemma AcceptedAnyCase(stem: string, ext: string)
    requires Lower(ext) == ".xlsx" || Lower(ext) == ".xls"
    ensures AcceptedName(stem + ext)
  {
    var l := Lower(stem + ext);
    assert l[|l| - |ext|..] == Lower(ext);
  }

  /** A name without a dot has no extension and is refused. */
  lemma RejectedWithoutDot(name: string)
    requires '.' !in name
    ensures !AcceptedName(name)
  {
    AcceptedNameMeaning(name);
    if |name| >= 5 {
      assert name[|name| - 5..][0] == name[|name| - 5] != '.';
      assert !SameIgnoringCase(name[|name| - 5..][0], ".xlsx"[0]);
    }
    if |name| >= 4 {
      assert name[|name| - 4..][0] == name[|name| - 4] != '.';
      assert !SameIgnoringCase(name[|name| - 4..][0], ".xls"[0]);
    }
  }

  lemma {:induction false} MatchingMembers(clientes: seq<Client>, cnpj: string, c: Client)
    ensures c in Matching(clientes, cnpj) <==> c in clientes && c.cnpj == cnpj
  {
    if clientes != [] {
      var init := clientes[..|clientes| - 1];
      MatchingMembers(init, cnpj, c);
      assert clientes == init + [clientes[|clientes| - 1]];
    }
  }

  lemma {:induction false} MatchingTwice(clientes: seq<Client>, cnpj: string, i: nat, j: nat)
    requires i < j < |clientes| && clientes[i].cnpj == cnpj && clientes[j].cnpj == cnpj
    ensures |Matching(clientes, cnpj)| >= 2
  {
    var init := clientes[..|clientes| - 1];
    if j == |clientes| - 1 {
      MatchingMembers(init, cnpj, clientes[i]);
      assert clientes[i] in init;
    } else {
      MatchingTwice(init, cnpj, i, j);
    }
  }

  /**
   * The lookup finds the client only when exactly one row carries the CNPJ:
   * none, or two rows (even two equal ones), and the upload reports the
   * client as not found.
   */
  lemma LookupUnique(clientes: seq<Client>, cnpj: string)
    ensures Lookup(clientes, cnpj).Some? ==>
              var c := Lookup(clientes, cnpj).value;
              c in clientes && c.cnpj == cnpj && forall d :: d in clientes && d.cnpj == cnpj ==> d == c
    ensures (forall c :: c in clientes ==> c.cnpj != cnpj) ==> Lookup(clientes, cnpj).None?
    ensures (exists i, j :: 0 <= i < j < |clientes| && clientes[i].cnpj == cnpj && clientes[j].cnpj == cnpj) ==>
              Lookup(clientes, cnpj).None?
  {
    var found := Matching(clientes, cnpj);
    if |found| == 1 {
      var c := found[0];
      MatchingMembers(clientes, cnpj, c);
      forall d | d in clientes && d.cnpj == cnpj
        ensures d == c
      {
        MatchingMembers(clientes, cnpj, d);
      }
    }
    if found != [] {
      MatchingMembers(clientes, cnpj, found[0]);
    }
    if exists i, j :: 0 <= i < j < |clientes| && clientes[i].cnpj == cnpj && clientes[j].cnpj == cnpj {
      var i, j :| 0 <= i < j < |clientes| && clientes[i].cnpj == cnpj && clientes[j].cnpj == cnpj;
      MatchingTwice(clientes, cnpj, i, j);
    }
  }

  /** Every record of a batch carries the batch's key, and is of the chosen kind. */
  lemma BatchKeyed(kind: Kind, sheet: Sheet, key: Key)
    ensures AllKeyed(Batch(kind, sheet, key), key)
    ensures forall i :: 0 <= i < |Batch(kind, sheet, key)| ==>
              (Batch(kind, sheet, key)[i].BalanceteRow? <==> kind == BalanceteUpload)
  {
    var batch := Batch(kind, sheet, key);
    if kind == BalanceteUpload {
      forall i | 0 <= i < |batch|
        ensures batch[i].key == key && batch[i].BalanceteRow?
      {
        Balancete.CodesNormalized(sheet, key, batch[i]);
      }
    } else {
      forall i | 0 <= i < |batch|
        ensures batch[i].key == key && batch[i].DfcRow?
      {
        Dfc.RowsMembers(sheet, key, batch[i]);
      }
    }
  }

  /**
   * A plan that passed every check has a non-empty batch keyed by the
   * client's id and the two period dates, and names the one client whose
   * CNPJ is written in the header cell.
   */
  lemma PrepareSuccess(kind: Kind, fileName: string, file: File, clientes: seq<Client>)
    requires Prepare(kind, fileName, file, clientes).Success?
    ensures AcceptedName(fileName) && Load(file).Some? && Load(file).value != []
    ensures var plan := Prepare(kind, fileName, file, clientes).value;
            var sheet := Load(file).value[0];
            var m := Period.Match(plan.periodoStr);
            && plan.kind == kind && plan.batch != [] && AllKeyed(plan.batch, plan.key)
            && plan.cliente in clientes && plan.cliente.cnpj == TextOf(CellAt(sheet, CnpjCell(kind)))
            && plan.key.clienteId == plan.cliente.id
            && plan.periodoStr == TextOf(CellAt(sheet, PeriodCell(kind))) && m.Some?
            && plan.key.periodoInicio == Period.Bound(m.value.0) && plan.key.periodoFim == Period.Bound(m.value.1)
            && plan.batch == Batch(kind, sheet, plan.key)
  {
    var plan := Prepare(kind, fileName, file, clientes).value;
    var sheet := Load(file).value[0];
    LookupUnique(clientes, TextOf(CellAt(sheet, CnpjCell(kind))));
    BatchKeyed(kind, sheet, plan.key);
  }

  /** A CNPJ cell that is empty or holds only white space stops the upload before the client is looked up. */
  lemma BlankCnpjRejected(kind: Kind, fileName: string, file: File, clientes: seq<Client>)
    requires AcceptedName(fileName) && Load(file).Some? && Load(file).value != []
    requires var c := CellAt(Load(file).value[0], CnpjCell(kind));
             c.Empty? || (c.Str? && AllSpace(c.s)) || (c.Num? && AllSpace(c.shown))
    ensures Prepare(kind, fileName, file, clientes) == Failure(NoCnpj(kind))
  {
    var c := CellAt(Load(file).value[0], CnpjCell(kind));
    if !c.Empty? {
      Text.TrimStartAllSpace(Shown(c).value);
      assert TextOf(c) == "";
    }
  }

  /** The client is looked up before the period cell is read: an unknown CNPJ is reported whatever the period cell holds. */
  lemma ClientBeforePeriod(kind: Kind, fileName: string, file: File, clientes: seq<Client>)
    requires AcceptedName(fileName) && Load(file).Some? && Load(file).value != []
    requires var cnpj := TextOf(CellAt(Load(file).value[0], CnpjCell(kind)));
             cnpj != "" && forall c :: c in clientes ==> c.cnpj != cnpj
    ensures Prepare(kind, fileName, file, clientes) == Failure(UnknownClient(TextOf(CellAt(Load(file).value[0], CnpjCell(kind)))))
  {
    LookupUnique(clientes, TextOf(CellAt(Load(file).value[0], CnpjCell(kind))));
  }

  /** A header whose CNPJ names a client but whose period cell is blank stops the upload with the period cell's message. */
  lemma BlankPeriodRejected(kind: Kind, fileName: string, file: File, clientes: seq<Client>)
    requires AcceptedName(fileName) && Load(file).Some? && Load(file).value != []
    requires var sheet := Load(file).value[0];
             var cnpj := TextOf(CellAt(sheet, CnpjCell(kind)));
             var c := CellAt(sheet, PeriodCell(kind));
             && cnpj != "" && Lookup(clientes, cnpj).Some?
             && (c.Empty? || (c.Str? && AllSpace(c.s)) || (c.Num? && AllSpace(c.shown)))
    ensures Prepare(kind, fileName, file, clientes) == Failure(NoPeriod(kind))
  {
    var c := CellAt(Load(file).value[0], PeriodCell(kind));
    if !c.Empty? {
      Text.TrimStartAllSpace(Shown(c).value);
      assert TextOf(c) == "";
    }
  }

  /**
   * A sheet whose header passes but whose scan finds no record stops the
   * upload before any store call; `HandleUpload` then leaves both tables as
   * they were.
   */
  lemma EmptyBatchRejected(kind: Kind, fileName: string, file: File, clientes: seq<Client>)
    requires AcceptedName(fileName) && Load(file).Some? && Load(file).value != []
    requires var sheet := Load(file).value[0];
             var header := Header(kind, sheet, clientes);
             header.Success? && Batch(kind, sheet, header.value.2) == []
    ensures Prepare(kind, fileName, file, clientes) == Failure(NoRows(kind))
  {
  }

  /** A period text without a dash is refused once the client is known. */
  lemma PeriodWithoutDash(kind: Kind, fileName: string, file: File, clientes: seq<Client>)
    requires AcceptedName(fileName) && Load(file).Some? && Load(file).value != []
    requires var sheet := Load(file).value[0];
             var cnpj := TextOf(CellAt(sheet, CnpjCell(kind)));
             var periodoStr := TextOf(CellAt(sheet, PeriodCell(kind)));
             cnpj != "" && Lookup(clientes, cnpj).Some? && periodoStr != "" && '-' !in periodoStr
    ensures Prepare(kind, fileName, file, clientes) == Failure(BadPeriod)
  {
    Period.NoDashNoMatch(TextOf(CellAt(Load(file).value[0], PeriodCell(kind))));
  }

  /** The period "01/01/2025 - 31/01/2025" gives rows keyed from "2025-01-01" to "2025-01-31". */
  lemma PeriodExample(kind: Kind, fileName: string, file: File, clientes: seq<Client>)
    requires Prepare(kind, fileName, file, clientes).Success?
    requires Prepare(kind, fileName, file, clientes).value.periodoStr == "01/01/2025 - 31/01/2025"
    ensures var key := Prepare(kind, fileName, file, clientes).value.key;
            key.periodoInicio == "2025-01-01" && key.periodoFim == "2025-01-31"
  {
    PrepareSuccess(kind, fileName, file, clientes);
    Period.MatchExample();
    Period.BoundExamples("01/01/2025", "31/01/2025");
  }

  /** After an upload whose delete and insert both go through, the client's period holds exactly the new batch. */
  lemma UploadReplacesPeriod(kind: Kind, fileName: string, file: File, clientes: seq<Client>, rows: seq<Record>)
    requires Prepare(kind, fileName, file, clientes).Success?
    ensures var plan := Prepare(kind, fileName, file, clientes).value;
            && RowsFor(Replaced(rows, plan.key, plan.batch, true, true), plan.key) == plan.batch
            && |plan.batch| == Finish(plan, None).value.registros
  {
    var plan := Prepare(kind, fileName, file, clientes).value;
    PrepareSuccess(kind, fileName, file, clientes);
    ReplaceHoldsBatch(rows, plan.key, plan.batch);
  }

  /**
   * The CNPJ message names the cell that was read for a balancete, but not
   * for a DFC: the DFC's CNPJ is read from E2 and the message says E3.
   */
  lemma CnpjMessageAsWritten()
    ensures Name(CnpjCell(DfcUpload)) == "E2"
    ensures MessageAsWritten(NoCnpj(DfcUpload)) == "CNPJ não encontrado na célula E3"
    ensures MessageAsWritten(NoCnpj(DfcUpload)) != Message(NoCnpj(DfcUpload))
    ensures MessageAsWritten(NoCnpj(BalanceteUpload)) == Message(NoCnpj(BalanceteUpload))
  {
    CellNames();
    var prefix := "CNPJ não encontrado na célula ";
    assert (prefix + "E3")[|prefix| + 1] != (prefix + "E2")[|prefix| + 1];
  }

  /** The cells each kind reads: G2 and G3 for a balancete, E2 and E3 for a DFC; each missing-cell message names the cell read. */
  lemma CellNames()
    ensures Name(CnpjCell(BalanceteUpload)) == "G2" && Name(PeriodCell(BalanceteUpload)) == "G3"
    ensures Name(CnpjCell(DfcUpload)) == "E2" && Name(PeriodCell(DfcUpload)) == "E3"
    ensures forall kind :: Message(NoCnpj(kind)) == "CNPJ não encontrado na célula " + Name(CnpjCell(kind))
    ensures forall kind :: Message(NoPeriod(kind)) == "Período não encontrado na célula " + Name(PeriodCell(kind))
  {
    ColumnNames();
    assert Digits.NatToString(2) == "2" && Digits.NatToString(3) == "3";
  }
}
