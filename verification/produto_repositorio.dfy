/**
 * `produtoRepository`: the `produto` table as a sequence of records in scan
 * order, with its serial id counter. `id` is the primary key, `nome` is
 * unique.
 */
module ProdutoRepositorio {
  import opened Wrappers
  import opened Tabela
  import opened ProdutoDominio
  import Paginacao

  function Id(d: ProdutoData): int { d.id }
  function Nome(d: ProdutoData): string { d.nome }

  /** `WHERE id = ...` */
  function ComId(id: int): ProdutoData -> bool { (d: ProdutoData) => d.id == id }
  /** `WHERE nome = ...` */
  function ComNome(nome: string): ProdutoData -> bool { (d: ProdutoData) => d.nome == nome }
  /** `SET` every column from `novo`. */
  function Sobrescrever(novo: ProdutoData): ProdutoData -> ProdutoData { (_: ProdutoData) => novo }

  /** A row other than `id` already holds `nome`. */
  predicate NomeEmUsoPorOutro(linhas: seq<ProdutoData>, id: int, nome: string) {
    exists i :: 0 <= i < |linhas| && linhas[i].nome == nome && linhas[i].id != id
  }

  /** A stored row's own name is never "in use by another row". */
  lemma NomeProprioLivre(linhas: seq<ProdutoData>, d: ProdutoData)
    requires Unicos(linhas, Nome) && d in linhas
    ensures !NomeEmUsoPorOutro(linhas, d.id, d.nome)
  {
    var k :| 0 <= k < |linhas| && linhas[k] == d;
    forall i | 0 <= i < |linhas| && linhas[i].nome == d.nome ensures i == k {
      assert Nome(linhas[i]) == Nome(linhas[k]);
    }
  }

  class TabelaProduto {
    var linhas: seq<ProdutoData>
    /** The next value of the `serial` sequence behind `id`. */
    var serial: int

    ghost predicate Valid()
      reads this
    {
      && Unicos(linhas, Id)
      && Unicos(linhas, Nome)
      && forall i :: 0 <= i < |linhas| ==> linhas[i].id < serial
    }

    constructor ()
      ensures Valid() && linhas == [] && serial == 1
    {
      linhas, serial := [], 1;
    }

    /** `buscarPorId`: the row with that id, or null when there is none. */
    method BuscarPorId(id: int) returns (r: Option<ProdutoData>)
      ensures r == Primeiro(linhas, ComId(id))
      ensures r.Some? ==> r.value in linhas && r.value.id == id
      ensures r.None? <==> forall i :: 0 <= i < |linhas| ==> linhas[i].id != id
    {
      r := Primeiro(linhas, ComId(id));
    }

    /** `listar`: one page of the table. */
    method Listar(e: Paginacao.EntradaPaginacao) returns (s: Paginacao.SaidaPaginacao<ProdutoData>)
      requires Paginacao.EntradaValida(e)
      ensures s == Paginacao.Listar(linhas, e)
    {
      s := Paginacao.Listar(linhas, e);
    }

    /** `criar`: `data.id` is ignored; the row gets the next serial value,
        every other column is stored as given. A name already in the table
        makes the insert raise (the serial value is still consumed). */
    method Criar(data: ProdutoData) returns (r: Resposta<ProdutoData>)
      requires Valid()
      modifies this
      ensures Valid()
      ensures serial == old(serial) + 1
      ensures var novo := data.(id := old(serial));
        if Existe(old(linhas), ComNome(data.nome)) then r == Violacao && linhas == old(linhas)
        else r == Ok(novo) && linhas == old(linhas) + [novo]
      ensures r.Ok? ==> !Existe(old(linhas), ComId(r.valor.id))
    {
      var novo := data.(id := serial);
      serial := serial + 1;
      if Existe(linhas, ComNome(data.nome)) {
        return Violacao;
      }
      linhas := linhas + [novo];
      r := Ok(novo);
    }

    /** `atualizar`: overwrites every column but `id` of the row with that id
        and returns it; null with no change when no row has that id. A name
        held by another row makes the update raise. */
    method Atualizar(id: int, data: ProdutoData) returns (r: Resposta<ProdutoData>)
      requires Valid()
      modifies this`linhas
      ensures Valid()
      ensures var novo := data.(id := id);
        if !Existe(old(linhas), ComId(id)) then r == Nulo && linhas == old(linhas)
        else if NomeEmUsoPorOutro(old(linhas), id, data.nome) then r == Violacao && linhas == old(linhas)
        else r == Ok(novo) && linhas == Substituir(old(linhas), ComId(id), Sobrescrever(novo))
    {
      if !Existe(linhas, ComId(id)) {
        return Nulo;
      }
      if NomeEmUsoPorOutro(linhas, id, data.nome) {
        return Violacao;
      }
      var novo := data.(id := id);
      SubstituirPreservaUnicos(linhas, ComId(id), Sobrescrever(novo), Id);
      var depois := Substituir(linhas, ComId(id), Sobrescrever(novo));
      forall i, j | 0 <= i < j < |depois| ensures depois[i].nome != depois[j].nome {
        assert Id(linhas[i]) != Id(linhas[j]) && Nome(linhas[i]) != Nome(linhas[j]);
      }
      linhas := depois;
      r := Ok(novo);
    }
  }
}
