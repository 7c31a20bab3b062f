/**
 * Offset pagination as the repositories implement it: fetch one row more
 * than the page size, and report a next cursor only when that extra row
 * exists.
 */
module Paginacao {
  import opened Wrappers
  import Tabela

  /** `cursor` is an offset into the table, `limite` the page size. */
  datatype EntradaPaginacao = EntradaPaginacao(cursor: int, limite: int)

  datatype SaidaPaginacao<+T> = SaidaPaginacao(itens: seq<T>, proximoCursor: Option<int>)

  /** The bounds the transport layer validates: offset at least 0, page size at least 1. */
  predicate EntradaValida(e: EntradaPaginacao) {
    e.cursor >= 0 && e.limite >= 1
  }

  /** `listar({cursor, limite})`: the page is the rows from position `cursor`
      on, at most `limite` of them, and the next cursor is present exactly
      when rows remain after the page. */
  function Listar<T>(linhas: seq<T>, e: EntradaPaginacao): (s: SaidaPaginacao<T>)
    requires EntradaValida(e)
    ensures |s.itens| <= e.limite
    ensures e.cursor >= |linhas| ==> s.itens == []
    ensures e.cursor < |linhas| ==> s.itens == linhas[e.cursor..Tabela.Min(e.cursor + e.limite, |linhas|)]
    ensures s.proximoCursor == if e.cursor + e.limite < |linhas| then Some(e.cursor + e.limite) else None
  {
    var rows := Tabela.Janela(linhas, e.cursor, e.limite + 1);
    var temMais := |rows| > e.limite;
    SaidaPaginacao(if temMais then rows[..e.limite] else rows,
                   if temMais then Some(e.cursor + e.limite) else None)
  }

  /** A client that starts at offset 0 and requests the next page until the
      cursor comes back null collects every row of the table exactly once,
      in table order, whatever the page size. */
  method PercorrerTudo<T>(linhas: seq<T>, limite: nat) returns (todos: seq<T>)
    requires limite >= 1
    ensures todos == linhas
  {
    todos := [];
    var cursor: Option<int> := Some(0);
    while cursor.Some?
      invariant cursor.Some? ==> 0 <= cursor.value <= |linhas| && todos == linhas[..cursor.value]
      invariant cursor.None? ==> todos == linhas
      decreases if cursor.Some? then |linhas| - cursor.value + 1 else 0
    {
      var pagina := Listar(linhas, EntradaPaginacao(cursor.value, limite));
      todos := todos + pagina.itens;
      cursor := pagina.proximoCursor;
    }
  }
}
