/**
 * The `Pokemon` use cases: duplicate-name rejection on creation, and
 * re-validation of the stored record before training.
 */
module PokemonAplicacao {
  import opened Wrappers
  import opened Tabela
  import opened PokemonDominio
  import opened PokemonRepositorio

  /** `criarPokemon`: null with no insert when the name is taken or the
      level is below 1; otherwise the input record is inserted unchanged. */
  method CriarPokemon(repo: TabelaPokemon, data: PokemonData) returns (r: Resposta<PokemonData>)
    requires repo.Valid()
    modifies repo`linhas
    ensures repo.Valid()
    ensures Existe(old(repo.linhas), ComNome(data.nome)) ==> r == Nulo && repo.linhas == old(repo.linhas)
    ensures data.nivel < 1 ==> r == Nulo && repo.linhas == old(repo.linhas)
    ensures !Existe(old(repo.linhas), ComNome(data.nome)) && data.nivel >= 1 ==>
      if Existe(old(repo.linhas), ComId(data.id)) then r == Violacao && repo.linhas == old(repo.linhas)
      else r == Ok(data) && repo.linhas == old(repo.linhas) + [data]
  {
    var existente := repo.BuscarPorNome(data.nome);
    if existente.Some? {
      return Nulo;
    }
    var pokemon := Pokemon.Criar(data);
    if pokemon == null {
      return Nulo;
    }
    r := repo.Criar(pokemon.ParaDados());
  }

  /** `treinarPokemon`: null with no write when the id is absent or the
      stored level is below 1; otherwise the trained record is written under
      the same id and returned. */
  method TreinarPokemon(repo: TabelaPokemon, id: int) returns (r: Resposta<PokemonData>)
    requires repo.Valid()
    modifies repo`linhas
    ensures repo.Valid()
    ensures match Primeiro(old(repo.linhas), ComId(id))
      case None => r == Nulo && repo.linhas == old(repo.linhas)
      case Some(d) =>
        if d.nivel < 1 then r == Nulo && repo.linhas == old(repo.linhas)
        else r == Ok(Treinado(d)) && repo.linhas == Substituir(old(repo.linhas), ComId(id), Sobrescrever(Treinado(d)))
    ensures r.Ok? ==> var d := Primeiro(old(repo.linhas), ComId(id)).value;
      r.valor.id == id && r.valor.nivel == d.nivel + 1 && r.valor.hp == d.hp + 5
  {
    var dados := repo.BuscarPorId(id);
    if dados.None? {
      return Nulo;
    }
    var pokemon := Pokemon.Criar(dados.value);
    if pokemon == null {
      return Nulo;
    }
    pokemon.Treinar();
    r := repo.Atualizar(id, pokemon.ParaDados());
  }
}
