/**
 * `dbCategoriaRepository`: plain CRUD over the `categoria` table (serial
 * `id`, unique `nome`), with no domain layer in between.
 */
module CategoriaRepositorio {
  import opened Wrappers
  import opened Tabela
  import Paginacao

  datatype CategoriaData = CategoriaData(id: int, nome: string, descricao: string)

  /** The input of `criar`: a category without its id. */
  datatype NovaCategoria = NovaCategoria(nome: string, descricao: string)

  /** The input of `atualizar`: any subset of the non-id columns. */
  datatype CategoriaParcial = CategoriaParcial(nome: Option<string>, descricao: Option<string>)

  function Id(c: CategoriaData): int { c.id }
  function Nome(c: CategoriaData): string { c.nome }
  function ComId(id: int): CategoriaData -> bool { (c: CategoriaData) => c.id == id }
  function ComNome(nome: string): CategoriaData -> bool { (c: CategoriaData) => c.nome == nome }

  /** `SET` only the columns the partial record supplies. */
  function Mesclar(c: CategoriaData, p: CategoriaParcial): CategoriaData {
    c.(nome := p.nome.GetOr(c.nome), descricao := p.descricao.GetOr(c.descricao))
  }

  function Mesclagem(p: CategoriaParcial): CategoriaData -> CategoriaData {
    (c: CategoriaData) => Mesclar(c, p)
  }

  /** A partial update changes exactly the supplied fields and never the id;
      an empty one changes nothing. */
  lemma MesclarSoAltera(c: CategoriaData, p: CategoriaParcial)
    ensures Mesclar(c, p).id == c.id
    ensures Mesclar(c, p).nome == if p.nome.Some? then p.nome.value else c.nome
    ensures Mesclar(c, p).descricao == if p.descricao.Some? then p.descricao.value else c.descricao
    ensures p == CategoriaParcial(None, None) ==> Mesclar(c, p) == c
  {
  }

  /** A row other than `id` already holds `nome`. */
  predicate NomeEmUsoPorOutro(linhas: seq<CategoriaData>, id: int, nome: string) {
    exists i :: 0 <= i < |linhas| && linhas[i].nome == nome && linhas[i].id != id
  }

  /** Merging a partial record into the row with `id` keeps ids unique and
      below the serial, and keeps names unique unless the new name belongs
      to another row. */
  lemma AtualizarPreservaChaves(linhas: seq<CategoriaData>, id: int, parcial: CategoriaParcial, serial: int)
    requires Unicos(linhas, Id) && Unicos(linhas, Nome)
    requires forall i :: 0 <= i < |linhas| ==> linhas[i].id < serial
    requires !(parcial.nome.Some? && NomeEmUsoPorOutro(linhas, id, parcial.nome.value))
    ensures var depois := Substituir(linhas, ComId(id), Mesclagem(parcial));
      && Unicos(depois, Id) && Unicos(depois, Nome)
      && forall i :: 0 <= i < |depois| ==> depois[i].id < serial
  {
    SubstituirPreservaUnicos(linhas, ComId(id), Mesclagem(parcial), Id);
    var depois := Substituir(linhas, ComId(id), Mesclagem(parcial));
    forall i, j | 0 <= i < j < |depois| ensures depois[i].nome != depois[j].nome {
      assert Id(linhas[i]) != Id(linhas[j]) && Nome(linhas[i]) != Nome(linhas[j]);
    }
  }

  class TabelaCategoria {
    var linhas: seq<CategoriaData>
    /** The next value of the `serial` sequence behind `id`. */
    var serial: int

    ghost predicate Valid()
      reads this
    {
      && Unicos(linhas, Id)
      && Unicos(linhas, Nome)
      && forall i :: 0 <= i < |linhas| ==> linhas[i].id < serial
    }

    constructor ()
      ensures Valid() && linhas == [] && serial == 1
    {
      linhas, serial := [], 1;
    }

    /** `buscarPorId`: the row with that id, or null when there is none. */
    method BuscarPorId(id: int) returns (r: Option<CategoriaData>)
      ensures r == Primeiro(linhas, ComId(id))
      ensures r.Some? ==> r.value in linhas && r.value.id == id
      ensures r.None? <==> forall i :: 0 <= i < |linhas| ==> linhas[i].id != id
    {
      r := Primeiro(linhas, ComId(id));
    }

    /** `listar`: one page of the table. */
    method Listar(e: Paginacao.EntradaPaginacao) returns (s: Paginacao.SaidaPaginacao<CategoriaData>)
      requires Paginacao.EntradaValida(e)
      ensures s == Paginacao.Listar(linhas, e)
    {
      s := Paginacao.Listar(linhas, e);
    }

    /** `criar`: a fresh serial id, nome and descricao as given; a name
        already in the table makes the insert raise. */
    method Criar(data: NovaCategoria) returns (r: Resposta<CategoriaData>)
      requires Valid()
      modifies this
      ensures Valid()
      ensures serial == old(serial) + 1
      ensures var nova := CategoriaData(old(serial), data.nome, data.descricao);
        if Existe(old(linhas), ComNome(data.nome)) then r == Violacao && linhas == old(linhas)
        else r == Ok(nova) && linhas == old(linhas) + [nova]
      ensures r.Ok? ==> !Existe(old(linhas), ComId(r.valor.id))
    {
      var nova := CategoriaData(serial, data.nome, data.descricao);
      serial := serial + 1;
      if Existe(linhas, ComNome(data.nome)) {
        return Violacao;
      }
      linhas := linhas + [nova];
      r := Ok(nova);
    }

    /** `atualizar`: changes only the supplied fields of the row with that
        id and returns it; null with no change when the id is absent. A
        supplied name held by another row makes the update raise. */
    method Atualizar(id: int, parcial: CategoriaParcial) returns (r: Resposta<CategoriaData>)
      requires Valid()
      modifies this`linhas
      ensures Valid()
      ensures match Primeiro(old(linhas), ComId(id))
        case None => r == Nulo && linhas == old(linhas)
        case Some(c) =>
          if parcial.nome.Some? && NomeEmUsoPorOutro(old(linhas), id, parcial.nome.value) then
            r == Violacao && linhas == old(linhas)
          else
            r == Ok(Mesclar(c, parcial)) && linhas == Substituir(old(linhas), ComId(id), Mesclagem(parcial))
    {
      var atual := Primeiro(linhas, ComId(id));
      if atual.None? {
        return Nulo;
      }
      if parcial.nome.Some? && NomeEmUsoPorOutro(linhas, id, parcial.nome.value) {
        return Violacao;
      }
      AtualizarPreservaChaves(linhas, id, parcial, serial);
      linhas := Substituir(linhas, ComId(id), Mesclagem(parcial));
      r := Ok(Mesclar(atual.value, parcial));
    }

    /** `deletar`: true exactly when a row with that id existed; afterwards
        no row has it, and every other row is still there. */
    method Deletar(id: int) returns (existia: bool)
      requires Valid()
      modifies this`linhas
      ensures Valid()
      ensures existia <==> Existe(old(linhas), ComId(id))
      ensures linhas == Remover(old(linhas), ComId(id))
      ensures Primeiro(linhas, ComId(id)).None?
      ensures forall c :: c in old(linhas) && c.id != id ==> c in linhas
    {
      existia := Existe(linhas, ComId(id));
      RemoverPreservaUnicos(linhas, ComId(id), Id);
      RemoverPreservaUnicos(linhas, ComId(id), Nome);
      var depois := Remover(linhas, ComId(id));
      forall i | 0 <= i < |depois| ensures depois[i].id < serial {
        assert depois[i] in linhas;
      }
      linhas := depois;
    }
  }
}
