/**
 * The `Produto` use cases: each one reads through the repository, restores
 * the entity, applies exactly one guarded operation and writes back only
 * when that operation succeeded. Every repository call is one atomic step.
 */
module ProdutoAplicacao {
  import opened Wrappers
  import opened Tabela
  import opened ProdutoDominio
  import opened ProdutoRepositorio

  /** The contract shared by the id-based use cases, over the table before
      and after and the result: no row with `id`, or `op` refuses, means a
      null result and no write; otherwise the record `op` produced is written
      under the same id and returned. */
  ghost predicate BuscaAplicaGrava(
    antes: seq<ProdutoData>, depois: seq<ProdutoData>, id: int,
    op: ProdutoData -> Option<ProdutoData>, r: Resposta<ProdutoData>)
  {
    match Primeiro(antes, ComId(id))
    case None => r == Nulo && depois == antes
    case Some(d) =>
      match op(d)
      case None => r == Nulo && depois == antes
      case Some(n) => r == Ok(n) && n.id == id && MesmaIdentidade(d, n)
                      && depois == Substituir(antes, ComId(id), Sobrescrever(n))
  }

  /** `criarProduto`: a non-positive price returns null without touching the
      repository; otherwise the new record (no stock, active) is inserted. */
  method CriarProduto(repo: TabelaProduto, input: CriarProdutoInput) returns (r: Resposta<ProdutoData>)
    requires repo.Valid()
    modifies repo
    ensures repo.Valid()
    ensures input.preco <= 0.0 ==> r == Nulo && repo.linhas == old(repo.linhas) && repo.serial == old(repo.serial)
    ensures input.preco > 0.0 ==>
      && Criado(input).Some?
      && repo.serial == old(repo.serial) + 1
      && if Existe(old(repo.linhas), ComNome(input.nome)) then r == Violacao && repo.linhas == old(repo.linhas)
         else r == Ok(Criado(input).value.(id := old(repo.serial))) && repo.linhas == old(repo.linhas) + [r.valor]
    ensures r.Ok? ==> r.valor.estoque == 0 && r.valor.ativo && r.valor.preco == input.preco
  {
    var produto := Produto.Criar(input);
    if produto == null {
      return Nulo;
    }
    r := repo.Criar(produto.Exportar());
  }

  method AdicionarEstoqueProduto(repo: TabelaProduto, id: int, quantidade: int) returns (r: Resposta<ProdutoData>)
    requires repo.Valid()
    modifies repo`linhas
    ensures repo.Valid()
    ensures BuscaAplicaGrava(old(repo.linhas), repo.linhas, id, d => ComEstoqueAdicionado(d, quantidade), r)
    ensures quantidade <= 0 ==> r == Nulo && repo.linhas == old(repo.linhas)
  {
    var dados := repo.BuscarPorId(id);
    if dados.None? {
      return Nulo;
    }
    var produto := new Produto.Restaurar(dados.value);
    var ok := produto.AdicionarEstoque(quantidade);
    if !ok {
      return Nulo;
    }
    NomeProprioLivre(repo.linhas, dados.value);
    r := repo.Atualizar(id, produto.Exportar());
  }

  method RemoverEstoqueProduto(repo: TabelaProduto, id: int, quantidade: int) returns (r: Resposta<ProdutoData>)
    requires repo.Valid()
    modifies repo`linhas
    ensures repo.Valid()
    ensures BuscaAplicaGrava(old(repo.linhas), repo.linhas, id, d => ComEstoqueRemovido(d, quantidade), r)
    ensures r.Ok? ==>
      var antes := Primeiro(old(repo.linhas), ComId(id)).value;
      r.valor.estoque == antes.estoque - quantidade && (antes.estoque >= 0 ==> r.valor.estoque >= 0)
  {
    var dados := repo.BuscarPorId(id);
    if dados.None? {
      return Nulo;
    }
    var produto := new Produto.Restaurar(dados.value);
    var ok := produto.RemoverEstoque(quantidade);
    if !ok {
      return Nulo;
    }
    NomeProprioLivre(repo.linhas, dados.value);
    r := repo.Atualizar(id, produto.Exportar());
  }

  method AlterarPrecoProduto(repo: TabelaProduto, id: int, novoPreco: real) returns (r: Resposta<ProdutoData>)
    requires repo.Valid()
    modifies repo`linhas
    ensures repo.Valid()
    ensures BuscaAplicaGrava(old(repo.linhas), repo.linhas, id, d => ComPrecoAlterado(d, novoPreco), r)
    ensures novoPreco <= 0.0 ==> r == Nulo && repo.linhas == old(repo.linhas)
  {
    var dados := repo.BuscarPorId(id);
    if dados.None? {
      return Nulo;
    }
    var produto := new Produto.Restaurar(dados.value);
    var ok := produto.AlterarPreco(novoPreco);
    if !ok {
      return Nulo;
    }
    NomeProprioLivre(repo.linhas, dados.value);
    r := repo.Atualizar(id, produto.Exportar());
  }

  /** `ativarProduto`: on an existing id, succeeds exactly when the stored
      stock is positive. */
  method AtivarProduto(repo: TabelaProduto, id: int) returns (r: Resposta<ProdutoData>)
    requires repo.Valid()
    modifies repo`linhas
    ensures repo.Valid()
    ensures BuscaAplicaGrava(old(repo.linhas), repo.linhas, id, Ativado, r)
    ensures Existe(old(repo.linhas), ComId(id)) ==> (r.Ok? <==> Primeiro(old(repo.linhas), ComId(id)).value.estoque > 0)
  {
    var dados := repo.BuscarPorId(id);
    if dados.None? {
      return Nulo;
    }
    var produto := new Produto.Restaurar(dados.value);
    var ok := produto.Ativar();
    if !ok {
      return Nulo;
    }
    NomeProprioLivre(repo.linhas, dados.value);
    r := repo.Atualizar(id, produto.Exportar());
  }

  /** `desativarProduto`: on an existing id, always writes `ativo = false`. */
  method DesativarProduto(repo: TabelaProduto, id: int) returns (r: Resposta<ProdutoData>)
    requires repo.Valid()
    modifies repo`linhas
    ensures repo.Valid()
    ensures BuscaAplicaGrava(old(repo.linhas), repo.linhas, id, d => Some(Desativado(d)), r)
    ensures Existe(old(repo.linhas), ComId(id)) ==> r.Ok? && !r.valor.ativo
  {
    var dados := repo.BuscarPorId(id);
    if dados.None? {
      return Nulo;
    }
    var produto := new Produto.Restaurar(dados.value);
    produto.Desativar();
    NomeProprioLivre(repo.linhas, dados.value);
    r := repo.Atualizar(id, produto.Exportar());
  }
}
