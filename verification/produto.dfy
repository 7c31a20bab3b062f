/**
 * The `Produto` entity: a product whose price, stock and active flag change
 * only through guarded operations that report success with a boolean and
 * leave the state untouched when they refuse.
 */
module ProdutoDominio {
  import opened Wrappers

  /** Price is a `real`: the code only compares it with 0 and assigns it.
      `imagemUrl` is an opaque optional key. */
  datatype CriarProdutoInput = CriarProdutoInput(nome: string, descricao: string, preco: real, imagemUrl: Option<string>)

  datatype ProdutoData = ProdutoData(
    id: int, nome: string, descricao: string, preco: real,
    estoque: int, ativo: bool, imagemUrl: Option<string>)

  // ----- The transitions, on plain records -------------------------------

  /** `criar`: refuses a non-positive price; otherwise an unsaved (id 0),
      active product with no stock. */
  function Criado(input: CriarProdutoInput): Option<ProdutoData> {
    if input.preco <= 0.0 then None
    else Some(ProdutoData(0, input.nome, input.descricao, input.preco, 0, true, input.imagemUrl))
  }

  function ComEstoqueAdicionado(d: ProdutoData, quantidade: int): Option<ProdutoData> {
    if quantidade <= 0 then None else Some(d.(estoque := d.estoque + quantidade))
  }

  function ComEstoqueRemovido(d: ProdutoData, quantidade: int): Option<ProdutoData> {
    if quantidade <= 0 then None
    else if d.estoque < quantidade then None
    else Some(d.(estoque := d.estoque - quantidade))
  }

  function ComPrecoAlterado(d: ProdutoData, novoPreco: real): Option<ProdutoData> {
    if novoPreco <= 0.0 then None else Some(d.(preco := novoPreco))
  }

  function Ativado(d: ProdutoData): Option<ProdutoData> {
    if d.estoque <= 0 then None else Some(d.(ativo := true))
  }

  function Desativado(d: ProdutoData): ProdutoData {
    d.(ativo := false)
  }

  /** The getter `disponivel`. */
  predicate EstaDisponivel(d: ProdutoData) {
    d.ativo && d.estoque > 0
  }

  /** The state after a guarded transition: the new record on success, the
      old one on refusal. */
  function Apos(d: ProdutoData, r: Option<ProdutoData>): ProdutoData {
    r.GetOr(d)
  }

  /** The fields no operation may touch. */
  predicate MesmaIdentidade(a: ProdutoData, b: ProdutoData) {
    a.id == b.id && a.nome == b.nome && a.descricao == b.descricao && a.imagemUrl == b.imagemUrl
  }

  /** What the guards keep once it holds: a positive price, a stock that is
      not negative. (The active flag is NOT tied to the stock.) */
  predicate Valido(d: ProdutoData) {
    d.preco > 0.0 && d.estoque >= 0
  }

  // ----- The class --------------------------------------------------------

  class Produto {
    const id: int
    const nome: string
    const descricao: string
    const imagemUrl: Option<string>
    var preco: real
    var estoque: int
    var ativo: bool

    /** `exportar`: the plain record of the current state. */
    function Exportar(): ProdutoData
      reads this
    {
      ProdutoData(id, nome, descricao, preco, estoque, ativo, imagemUrl)
    }

    /** `restaurar` (the private constructor): rehydrates any record, with no
        validation, so that exporting gives the record back. */
    constructor Restaurar(data: ProdutoData)
      ensures Exportar() == data
    {
      id, nome, descricao, imagemUrl := data.id, data.nome, data.descricao, data.imagemUrl;
      preco, estoque, ativo := data.preco, data.estoque, data.ativo;
    }

    /** `criar`: null exactly when the price is not positive. */
    static method Criar(input: CriarProdutoInput) returns (p: Produto?)
      ensures p == null <==> input.preco <= 0.0
      ensures p != null ==> fresh(p) && Criado(input) == Some(p.Exportar())
      ensures p != null ==> p.id == 0 && p.estoque == 0 && p.ativo && p.preco == input.preco
      ensures p != null ==> p.nome == input.nome && p.descricao == input.descricao && p.imagemUrl == input.imagemUrl
    {
      if input.preco <= 0.0 {
        return null;
      }
      p := new Produto.Restaurar(ProdutoData(0, input.nome, input.descricao, input.preco, 0, true, input.imagemUrl));
    }

    /** `disponivel`. */
    function Disponivel(): (r: bool)
      reads this
      ensures r == EstaDisponivel(Exportar())
    {
      ativo && estoque > 0
    }

    method AdicionarEstoque(quantidade: int) returns (ok: bool)
      modifies this`estoque
      ensures ok <==> quantidade > 0
      ensures ok ==> estoque == old(estoque) + quantidade
      ensures Exportar() == Apos(old(Exportar()), ComEstoqueAdicionado(old(Exportar()), quantidade))
    {
      if quantidade <= 0 {
        return false;
      }
      estoque := estoque + quantidade;
      return true;
    }

    method RemoverEstoque(quantidade: int) returns (ok: bool)
      modifies this`estoque
      ensures ok <==> 0 < quantidade <= old(estoque)
      ensures ok ==> estoque == old(estoque) - quantidade
      ensures Exportar() == Apos(old(Exportar()), ComEstoqueRemovido(old(Exportar()), quantidade))
    {
      if quantidade <= 0 {
        return false;
      }
      if estoque < quantidade {
        return false;
      }
      estoque := estoque - quantidade;
      return true;
    }

    method AlterarPreco(novoPreco: real) returns (ok: bool)
      modifies this`preco
      ensures ok <==> novoPreco > 0.0
      ensures ok ==> preco == novoPreco
      ensures Exportar() == Apos(old(Exportar()), ComPrecoAlterado(old(Exportar()), novoPreco))
    {
      if novoPreco <= 0.0 {
        return false;
      }
      preco := novoPreco;
      return true;
    }

    method Ativar() returns (ok: bool)
      modifies this`ativo
      ensures ok <==> old(estoque) > 0
      ensures ok ==> ativo
      ensures Exportar() == Apos(old(Exportar()), Ativado(old(Exportar())))
    {
      if estoque <= 0 {
        return false;
      }
      ativo := true;
      return true;
    }

    method Desativar()
      modifies this`ativo
      ensures !ativo
      ensures Exportar() == Desativado(old(Exportar()))
    {
      ativo := false;
    }
  }

  // ----- Properties of the transitions ------------------------------------

  /** `criar` fails exactly on a non-positive price; a created product is
      active with zero stock, so it is valid yet not available: the code does
      not make "active implies stock" an invariant. */
  lemma CriadoSemEstoque(input: CriarProdutoInput)
    ensures Criado(input).None? <==> input.preco <= 0.0
    ensures Criado(input).Some? ==>
      var d := Criado(input).value;
      d.id == 0 && d.estoque == 0 && d.ativo && d.preco == input.preco && Valido(d) && !EstaDisponivel(d)
  {
  }

  /** Adding then removing the same positive quantity succeeds twice and
      gives back the original record exactly when the stock was not negative
      (a restored record with negative stock cannot give the units back). */
  lemma AdicionarDepoisRemover(d: ProdutoData, quantidade: int)
    requires quantidade > 0
    ensures ComEstoqueAdicionado(d, quantidade).Some?
    ensures ComEstoqueRemovido(ComEstoqueAdicionado(d, quantidade).value, quantidade) == Some(d) <==> d.estoque >= 0
  {
    var a := d.(estoque := d.estoque + quantidade);
    assert a.(estoque := a.estoque - quantidade) == d;
  }

  /** Removing stock never takes a non-negative stock below zero. */
  lemma RemoverNaoNegativa(d: ProdutoData, quantidade: int)
    requires d.estoque >= 0
    ensures Apos(d, ComEstoqueRemovido(d, quantidade)).estoque >= 0
    ensures ComEstoqueRemovido(d, quantidade).None? <==> quantidade <= 0 || d.estoque < quantidade
  {
  }

  /** Activation succeeds exactly when there is stock; deactivation keeps
      stock and price. */
  lemma AtivacaoDependeDoEstoque(d: ProdutoData)
    ensures Ativado(d).Some? <==> d.estoque > 0
    ensures Ativado(d).Some? ==> EstaDisponivel(Ativado(d).value)
    ensures var n := Desativado(d); !n.ativo && n.estoque == d.estoque && n.preco == d.preco && !EstaDisponivel(n)
  {
  }

  /** One named operation of the entity, as a caller would invoke it. */
  datatype Operacao =
    | Adicionar(quantidade: int)
    | Remover(quantidade: int)
    | Reprecificar(novoPreco: real)
    | Ativacao
    | Desativacao

  function Passo(d: ProdutoData, op: Operacao): ProdutoData {
    match op
    case Adicionar(q) => Apos(d, ComEstoqueAdicionado(d, q))
    case Remover(q) => Apos(d, ComEstoqueRemovido(d, q))
    case Reprecificar(p) => Apos(d, ComPrecoAlterado(d, p))
    case Ativacao => Apos(d, Ativado(d))
    case Desativacao => Desativado(d)
  }

  /** The record after applying `ops` in order, refused ones included. */
  function Executar(d: ProdutoData, ops: seq<Operacao>): ProdutoData
    decreases |ops|
  {
    if ops == [] then d else Executar(Passo(d, ops[0]), ops[1..])
  }

  /** Every operation keeps a positive price and a non-negative stock, and
      none changes id, name, description or image. */
  lemma PassoPreserva(d: ProdutoData, op: Operacao)
    requires Valido(d)
    ensures Valido(Passo(d, op)) && MesmaIdentidade(d, Passo(d, op))
  {
  }

  /** Hence so does any history of operations. */
  lemma {:induction false} ExecutarPreserva(d: ProdutoData, ops: seq<Operacao>)
    requires Valido(d)
    ensures Valido(Executar(d, ops)) && MesmaIdentidade(d, Executar(d, ops))
    decreases |ops|
  {
    if ops != [] {
      PassoPreserva(d, ops[0]);
      ExecutarPreserva(Passo(d, ops[0]), ops[1..]);
    }
  }
}
