/** The rows the upload writes to the `balancetes` and `dfc` tables, and the client it looks up. */
module Records {

  /** The period key every row carries: `cliente_id`, `periodo_inicio`, `periodo_fim`. */
  datatype Key = Key(clienteId: int, periodoInicio: string, periodoFim: string)

  datatype Record =
    | BalanceteRow(key: Key, codigo: string, classificacao: string, descricaoConta: string,
                saldoAnterior: real, debito: real, credito: real, saldoAtual: real)
    | DfcRow(key: Key, titulo: string, descricao: string, valor: string)

  /** A row of the `clientes` table, as far as the upload reads it. */
  datatype Client = Client(id: int, nome: string, cnpj: string)

  predicate AllKeyed(batch: seq<Record>, key: Key) {
    forall i :: 0 <= i < |batch| ==> batch[i].key == key
  }
}
