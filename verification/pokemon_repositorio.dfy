/**
 * `dbPokemonRepository`: the `pokemon` table as a sequence of records in
 * scan order. The caller supplies the id on insert and `id` is the primary
 * key; `nome` carries no constraint of its own here.
 */
module PokemonRepositorio {
  import opened Wrappers
  import opened Tabela
  import opened PokemonDominio

  function Id(d: PokemonData): int { d.id }
  function ComId(id: int): PokemonData -> bool { (d: PokemonData) => d.id == id }
  function ComNome(nome: string): PokemonData -> bool { (d: PokemonData) => d.nome == nome }
  function Sobrescrever(novo: PokemonData): PokemonData -> PokemonData { (_: PokemonData) => novo }

  class TabelaPokemon {
    var linhas: seq<PokemonData>

    ghost predicate Valid()
      reads this
    {
      Unicos(linhas, Id)
    }

    constructor ()
      ensures Valid() && linhas == []
    {
      linhas := [];
    }

    /** `buscarPorId`: the row with that id, or null when there is none. */
    method BuscarPorId(id: int) returns (r: Option<PokemonData>)
      ensures r == Primeiro(linhas, ComId(id))
      ensures r.Some? ==> r.value in linhas && r.value.id == id
      ensures r.None? <==> forall i :: 0 <= i < |linhas| ==> linhas[i].id != id
    {
      r := Primeiro(linhas, ComId(id));
    }

    /** `buscarPorNome`: a row with that name, or null when there is none. */
    method BuscarPorNome(nome: string) returns (r: Option<PokemonData>)
      ensures r == Primeiro(linhas, ComNome(nome))
      ensures r.Some? ==> r.value in linhas && r.value.nome == nome
      ensures r.None? <==> forall i :: 0 <= i < |linhas| ==> linhas[i].nome != nome
    {
      r := Primeiro(linhas, ComNome(nome));
    }

    /** `buscarTodos`: every row, in table order. */
    method BuscarTodos() returns (r: seq<PokemonData>)
      ensures r == linhas
    {
      r := linhas;
    }

    /** `criar`: inserts the record as given, caller-supplied id included; an
        id already in the table makes the insert raise. */
    method Criar(data: PokemonData) returns (r: Resposta<PokemonData>)
      requires Valid()
      modifies this`linhas
      ensures Valid()
      ensures if Existe(old(linhas), ComId(data.id)) then r == Violacao && linhas == old(linhas)
              else r == Ok(data) && linhas == old(linhas) + [data]
    {
      if Existe(linhas, ComId(data.id)) {
        return Violacao;
      }
      linhas := linhas + [data];
      r := Ok(data);
    }

    /** `atualizar`: overwrites name, types, level, hit points and sprite of
        the row with that id, never its id; null with no change when absent. */
    method Atualizar(id: int, data: PokemonData) returns (r: Resposta<PokemonData>)
      requires Valid()
      modifies this`linhas
      ensures Valid()
      ensures if !Existe(old(linhas), ComId(id)) then r == Nulo && linhas == old(linhas)
              else r == Ok(data.(id := id)) && linhas == Substituir(old(linhas), ComId(id), Sobrescrever(data.(id := id)))
    {
      if !Existe(linhas, ComId(id)) {
        return Nulo;
      }
      SubstituirPreservaUnicos(linhas, ComId(id), Sobrescrever(data.(id := id)), Id);
      linhas := Substituir(linhas, ComId(id), Sobrescrever(data.(id := id)));
      r := Ok(data.(id := id));
    }

    /** `deletar`: true exactly when a row with that id existed; it removes
        that row and only it. */
    method Deletar(id: int) returns (existia: bool)
      requires Valid()
      modifies this`linhas
      ensures Valid()
      ensures existia <==> Existe(old(linhas), ComId(id))
      ensures linhas == Remover(old(linhas), ComId(id))
      ensures Primeiro(linhas, ComId(id)).None?
      ensures forall d :: d in old(linhas) && d.id != id ==> d in linhas
    {
      existia := Existe(linhas, ComId(id));
      RemoverPreservaUnicos(linhas, ComId(id), Id);
      linhas := Remover(linhas, ComId(id));
    }

    /** `criarSeNaoExiste`, one transaction: null and no insert when a row
        already has that name; otherwise the insert of `criar`. */
    method CriarSeNaoExiste(data: PokemonData) returns (r: Resposta<PokemonData>)
      requires Valid()
      modifies this`linhas
      ensures Valid()
      ensures Existe(old(linhas), ComNome(data.nome)) ==> r == Nulo && linhas == old(linhas)
      ensures !Existe(old(linhas), ComNome(data.nome)) ==>
        if Existe(old(linhas), ComId(data.id)) then r == Violacao && linhas == old(linhas)
        else r == Ok(data) && linhas == old(linhas) + [data]
    {
      var existente := Primeiro(linhas, ComNome(data.nome));
      if existente.Some? {
        return Nulo;
      }
      r := Criar(data);
    }

    /** `buscarEAtualizar`, one transaction: null and no change when the id is
        absent or `transformar` gives null; otherwise the row takes the
        non-id fields of the transformed record and is returned. */
    method BuscarEAtualizar(id: int, transformar: PokemonData -> Option<PokemonData>) returns (r: Option<PokemonData>)
      requires Valid()
      modifies this`linhas
      ensures Valid()
      ensures match Primeiro(old(linhas), ComId(id))
        case None => r.None? && linhas == old(linhas)
        case Some(d) =>
          match transformar(d)
          case None => r.None? && linhas == old(linhas)
          case Some(t) => r == Some(t.(id := id))
                          && linhas == Substituir(old(linhas), ComId(id), Sobrescrever(t.(id := id)))
    {
      var row := Primeiro(linhas, ComId(id));
      if row.None? {
        return None;
      }
      var resultado := transformar(row.value);
      if resultado.None? {
        return None;
      }
      var atualizado := Atualizar(id, resultado.value);
      r := if atualizado.Ok? then Some(atualizado.valor) else None;
    }
  }
}
