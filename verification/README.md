# Starter template core, modelled in Dafny

The repository is a full-stack TypeScript starter. Its self-contained logic is modelled here:

- **The `Produto` entity** (`ProdutoDominio`). A product whose price, stock and active flag change only through guarded operations. Each operation reports success with a boolean and leaves the state untouched when it refuses.
- **The `Produto` use cases** (`ProdutoAplicacao`). Each one fetches the row, restores the entity, applies one operation and writes back only on success.
- **The three repositories over an abstract table** (`Tabela`, `Paginacao`, `ProdutoRepositorio`, `CategoriaRepositorio`, `PokemonRepositorio`).
  - A table is a sequence of rows in scan order, and each repository call is one atomic step.
  - The classes hold the rows and, where the id is `serial`, the next serial value.
  - Offset pagination fetches one row more than the page size and reports a next cursor only when that extra row exists.
- **The `Pokemon` entity and its use cases** (`PokemonDominio`, `PokemonAplicacao`).
- **The string helpers of the n8n sync scripts**:
  - the `.env` parser and the configuration loaders of `n8n/shared.ts` and `scripts/n8n-shared.ts` (`EnvN8n`, over the string operations in `Texto`);
  - `slugificar` (`Slug`);
  - the two versions of `limparWorkflow` (`Workflow`).
- **The client key of the rate limiter** (`RateLimit`).

Entities whose fields the source updates in place (`Produto`, `Pokemon`, the repository tables) are classes. Each mutator states the whole new state as a function of the old one; the properties are then proved about those functions. Loops in the source become methods with loop invariants, proved against a specification function:

- the `.env` parsing loop;
- the `CAMPOS_WORKFLOW` copy loop.

One more method, `Paginacao.PercorrerTudo`, is not in the source. It is a client that follows `proximoCursor` until it is null, and it states what the pagination promises such a client.

Unique and primary-key violations raise an exception in the source. The model returns them as the `Violacao` outcome, with the table unchanged.

## Model

| member | source | states |
|---|---|---|
| ProdutoDominio.Produto.Restaurar | packages/core/src/domains/example-domain.ts:15-23 | rehydrating any record, with no validation, then exporting gives the record back |
| ProdutoDominio.Produto.Criar | packages/core/src/domains/example-domain.ts:25-39 | null exactly when the price is not positive; otherwise a fresh entity with id 0, no stock, active, and name, description, price and image from the input |
| ProdutoDominio.Produto.Disponivel | packages/core/src/domains/example-domain.ts:57-59 | available means active with positive stock |
| ProdutoDominio.Produto.AdicionarEstoque | packages/core/src/domains/example-domain.ts:61-67 | succeeds exactly for a positive quantity, then stock grows by it; on refusal nothing changes; no other field ever changes |
| ProdutoDominio.Produto.RemoverEstoque | packages/core/src/domains/example-domain.ts:69-78 | succeeds exactly when 0 < quantity <= stock, then stock shrinks by it; on refusal nothing changes |
| ProdutoDominio.Produto.AlterarPreco | packages/core/src/domains/example-domain.ts:80-86 | succeeds exactly for a positive price, which then replaces the old one; on refusal nothing changes |
| ProdutoDominio.Produto.Ativar | packages/core/src/domains/example-domain.ts:88-94 | succeeds exactly when stock is positive, then the product is active; on refusal nothing changes |
| ProdutoDominio.Produto.Desativar | packages/core/src/domains/example-domain.ts:96-98 | always clears the active flag and changes nothing else |
| ProdutoDominio.CriadoSemEstoque | packages/core/src/domains/example-domain.ts:25-39 | creation fails exactly on a non-positive price; a created product is valid and active but not available, since its stock is 0 |
| ProdutoDominio.AdicionarDepoisRemover | packages/core/src/domains/example-domain.ts:61-78 | adding a positive quantity succeeds; removing it again restores the record exactly when the stock was not negative |
| ProdutoDominio.RemoverNaoNegativa | packages/core/src/domains/example-domain.ts:69-78 | removal refuses exactly on a non-positive quantity or insufficient stock, and never takes a non-negative stock below zero |
| ProdutoDominio.AtivacaoDependeDoEstoque | packages/core/src/domains/example-domain.ts:88-98 | activation succeeds exactly with stock and then makes the product available; deactivation keeps stock and price and leaves it unavailable |
| ProdutoDominio.PassoPreserva | packages/core/src/domains/example-domain.ts:61-98 | every operation, refused or not, keeps a positive price and a non-negative stock, and never changes id, name, description or image |
| ProdutoDominio.ExecutarPreserva | packages/core/src/domains/example-domain.ts:61-98 | the same holds for any sequence of operations |
| ProdutoAplicacao.CriarProduto | packages/core/src/application/example-domain.ts:8-16 | a non-positive price returns null with no insert; otherwise the new record (no stock, active) is inserted under the next serial id, or the name clash raises |
| ProdutoAplicacao.AdicionarEstoqueProduto | packages/core/src/application/example-domain.ts:18-35 | an absent id or a refused addition returns null with no write; otherwise the record with the added stock is written under the same id and returned, differing from the stored one only in stock |
| ProdutoAplicacao.RemoverEstoqueProduto | packages/core/src/application/example-domain.ts:37-54 | the same for removal; a written stock is the old one minus the quantity and is never negative when the stored one was not |
| ProdutoAplicacao.AlterarPrecoProduto | packages/core/src/application/example-domain.ts:56-70 | the same for the price; a non-positive price never writes |
| ProdutoAplicacao.AtivarProduto | packages/core/src/application/example-domain.ts:72-86 | on an existing id, succeeds exactly when the stored stock is positive; refusal writes nothing |
| ProdutoAplicacao.DesativarProduto | packages/core/src/application/example-domain.ts:88-99 | on an existing id, always writes the record with `ativo = false` under the same id |
| Tabela.Primeiro | packages/infra/src/db/repositories/example-domain.ts:22-30 | `LIMIT 1`: a row of the table satisfying the condition; none exactly when no row satisfies it |
| Tabela.Janela | packages/infra/src/db/repositories/example-domain.ts:33-37 | offset/limit: at most `limite` rows, the consecutive ones from the offset, none past the end |
| Tabela.Substituir | packages/infra/src/db/repositories/example-domain.ts:65-76 | update where: every matching row rewritten, every other row and the order kept |
| Tabela.Remover | packages/infra/src/db/repositories/example-crud.ts:67-70 | delete where: exactly the non-matching rows remain; with no match the table is unchanged |
| Tabela.RemoverPreservaUnicos | packages/infra/src/db/repositories/example-crud.ts:66-73 | deleting rows keeps a key unique |
| Tabela.SubstituirPreservaUnicos | packages/infra/src/db/repositories/example-crud.ts:56-64 | an update that keeps the key of each row it touches keeps that key unique |
| Paginacao.Listar | packages/infra/src/db/repositories/example-domain.ts:32-46 | at most `limite` items, the table rows from position `cursor` in order; the next cursor is `cursor + limite` exactly when rows remain after the page, else null |
| Paginacao.PercorrerTudo | packages/infra/src/db/repositories/example-domain.ts:32-46 | a client starting at 0 and following the next cursor until null collects every row exactly once, in table order |
| ProdutoRepositorio.TabelaProduto.BuscarPorId | packages/infra/src/db/repositories/example-domain.ts:22-30 | the row with that id, or null exactly when no row has it |
| ProdutoRepositorio.TabelaProduto.Listar | packages/infra/src/db/repositories/example-domain.ts:32-46 | the page `Paginacao.Listar` describes, over the product table |
| ProdutoRepositorio.TabelaProduto.Criar | packages/infra/src/db/repositories/example-domain.ts:48-62 | ignores the given id and stores every other field as given under the next serial id, which no row holds; a name already present raises and changes no row |
| ProdutoRepositorio.TabelaProduto.Atualizar | packages/infra/src/db/repositories/example-domain.ts:64-79 | null with no change for an absent id; a name held by another row raises; otherwise every non-id field of that row is overwritten and the row returned, and ids and names stay unique |
| CategoriaRepositorio.MesclarSoAltera | packages/infra/src/db/repositories/example-crud.ts:56-64 | a partial update changes exactly the supplied fields and never the id; an empty one changes nothing |
| CategoriaRepositorio.AtualizarPreservaChaves | packages/infra/src/db/repositories/example-crud.ts:56-64 | merging into one row keeps ids unique and below the serial, and names unique unless the new name belongs to another row |
| CategoriaRepositorio.TabelaCategoria.BuscarPorId | packages/infra/src/db/repositories/example-crud.ts:18-26 | the row with that id, or null exactly when no row has it |
| CategoriaRepositorio.TabelaCategoria.Listar | packages/infra/src/db/repositories/example-crud.ts:28-42 | the page `Paginacao.Listar` describes, over the category table |
| CategoriaRepositorio.TabelaCategoria.Criar | packages/infra/src/db/repositories/example-crud.ts:44-54 | a fresh serial id no row holds, with name and description as given; a name already present raises and changes no row |
| CategoriaRepositorio.TabelaCategoria.Atualizar | packages/infra/src/db/repositories/example-crud.ts:56-64 | null with no change for an absent id; a supplied name held by another row raises; otherwise only the supplied fields of that row change and the merged row is returned |
| CategoriaRepositorio.TabelaCategoria.Deletar | packages/infra/src/db/repositories/example-crud.ts:66-73 | true exactly when a row with that id existed; afterwards none has it and every other row is still there |
| PokemonDominio.TreinarVezes | packages/core/src/domains/example.ts:36-39 | after n trainings the level grew by n and hit points by 5n, everything else is as before, and a level of at least 1 stays so |
| PokemonDominio.Pokemon.constructor | packages/core/src/domains/example.ts:11-18 | the entity holds exactly the given record |
| PokemonDominio.Pokemon.Criar | packages/core/src/domains/example.ts:20-26 | null exactly when the level is below 1; otherwise exporting the entity gives the input back |
| PokemonDominio.Pokemon.Treinar | packages/core/src/domains/example.ts:36-39 | level + 1 and hit points + 5; id, name, types and sprite unchanged |
| PokemonRepositorio.TabelaPokemon.BuscarPorId | packages/infra/src/db/repositories/example.ts:21-29 | the row with that id, or null exactly when no row has it |
| PokemonRepositorio.TabelaPokemon.BuscarPorNome | packages/infra/src/db/repositories/example.ts:31-39 | a row with that name, or null exactly when no row has it |
| PokemonRepositorio.TabelaPokemon.BuscarTodos | packages/infra/src/db/repositories/example.ts:41-44 | every row, in table order |
| PokemonRepositorio.TabelaPokemon.Criar | packages/infra/src/db/repositories/example.ts:46-60 | inserts the record as given, caller-supplied id included; an id already present raises and changes nothing |
| PokemonRepositorio.TabelaPokemon.Atualizar | packages/infra/src/db/repositories/example.ts:62-76 | null with no change for an absent id; otherwise the row takes every field but the id and is returned |
| PokemonRepositorio.TabelaPokemon.Deletar | packages/infra/src/db/repositories/example.ts:78-85 | true exactly when a row with that id existed; that row goes and every other row stays |
| PokemonRepositorio.TabelaPokemon.CriarSeNaoExiste | packages/infra/src/db/repositories/example.ts:87-113 | null with no insert when a row has the name; otherwise the insert of `criar` |
| PokemonRepositorio.TabelaPokemon.BuscarEAtualizar | packages/infra/src/db/repositories/example.ts:115-146 | null with no change when the id is absent or the transform gives null; otherwise the row takes the transformed non-id fields, keeps its id, and is returned |
| PokemonAplicacao.CriarPokemon | packages/core/src/application/example.ts:4-20 | null with no insert when the name is taken or the level is below 1; otherwise the input record is inserted unchanged |
| PokemonAplicacao.TreinarPokemon | packages/core/src/application/example.ts:22-40 | null with no write for an absent id or a stored level below 1; otherwise level + 1 and hit points + 5 are written under the same id, all else unchanged |
| Texto.InicioTexto | n8n/shared.ts:48 | where `trim` starts: only whitespace before it, a non-space at it |
| Texto.FimTexto | n8n/shared.ts:48 | where `trim` ends: only whitespace after it, a non-space just before it |
| Texto.TrimInicio | n8n/shared.ts:48 | the start half of `trim`: the text from where it starts, beginning with a non-space |
| Texto.TrimFim | n8n/shared.ts:48 | the end half of `trim`: the text up to where it ends, ending with a non-space |
| Texto.Trim | n8n/shared.ts:48 | the trimmed text has no whitespace at either end and is no longer than the input |
| Texto.TrimValor | n8n/shared.ts:48 | `trim` keeps exactly the text between where it starts and where it ends, and nothing for all-whitespace text |
| Texto.TrimVazio | n8n/shared.ts:48-49 | trimming gives the empty string exactly for all-whitespace text |
| Texto.TrimIdempotente | n8n/shared.ts:56-59 | trimming twice is trimming once |
| Texto.TrimAposUmLado | n8n/shared.ts:56-59 | trimming after either one-sided trim is trimming |
| Texto.TrimComuta | n8n/shared.ts:56-59 | the two ends can be trimmed in either order |
| Texto.IndiceDe | n8n/shared.ts:52 | `indexOf`: -1 exactly when the character is absent, otherwise its first position |
| Texto.DividirJuntar | n8n/shared.ts:47 | joining the pieces of `split` with the separator gives the string back |
| Texto.DividirSemSeparador | n8n/shared.ts:47 | no piece of `split` holds the separator |
| Texto.DividirSemOcorrencia | n8n/shared.ts:47 | a string without the separator splits into itself |
| Texto.PrimeiroSegmento | apps/server/src/rate-limit.ts:9-11 | `split(sep)[0]`: the prefix before the first separator, which holds none, or the whole string |
| Texto.PrimeiroSegmentoAntesDoSeparador | apps/server/src/rate-limit.ts:9-11 | whatever follows the first separator does not affect the first segment |
| Texto.AparaUma | n8n/shared.ts:57-60 | the edge-stripping `replace` with a one-character class: a class character is dropped from each end independently, whether or not the other end has one, and nothing else changes |
| EnvN8n.InterpretarEnv | n8n/shared.ts:46-62 | the parsing loop yields the dictionary the lines describe, each assignment applied in order |
| EnvN8n.LinhaIgnorada | n8n/shared.ts:47-55 | a line assigns nothing exactly when it is blank after trimming, starts with `#`, or holds no `=` |
| EnvN8n.LinhaChaveValor | n8n/shared.ts:52-60 | a line `k=v` whose key is not blank and does not start with `#` assigns the trimmed `k` the trimmed `v` with one edge quote dropped on each side, whatever `=` signs `v` holds |
| EnvN8n.UltimaOcorrenciaVence | n8n/shared.ts:61 | a repeated key takes the value of its last assignment |
| EnvN8n.ChaveAusente | n8n/shared.ts:46-62 | a key no line assigns is absent from the dictionary |
| EnvN8n.UltimaAtribuicaoVence | scripts/n8n-shared.ts:64 | in any sequence of assignments the last one to a key decides its value |
| EnvN8n.ChaveNuncaAtribuida | scripts/n8n-shared.ts:48-65 | a key never assigned is absent |
| EnvN8n.CarregarEnvN8n | n8n/shared.ts:66-90 | a complete environment is returned as is; any result has three non-empty fields |
| EnvN8n.EnvCompletoIgnoraArquivo | n8n/shared.ts:71-73 | with all three variables truthy in the environment the file plays no part |
| EnvN8n.EnvPrecedeArquivo | n8n/shared.ts:75-89 | each field is the environment value when defined, even empty, else the file value; loading succeeds exactly when all three chosen values are non-empty, and returns them |
| EnvN8n.EnvVazioBloqueia | n8n/shared.ts:77-87 | a variable defined but empty in the environment hides the file and makes loading fail |
| EnvN8n.CarregarEnvScripts | scripts/n8n-shared.ts:67-78 | succeeds exactly when all three variables are present and non-empty in the parsed file, returning exactly those values |
| EnvN8n.CarregadoresConcordam | scripts/n8n-shared.ts:67-78 | with an empty environment the two loaders agree on the same dictionary |
| Slug.Minusculas | n8n/shared.ts:94 | `toLowerCase`: same length, every character lowered |
| Slug.SemMarcas | n8n/shared.ts:96 | no combining mark remains, and text without marks is unchanged |
| Slug.SemMarcasFiltro | n8n/shared.ts:96 | mark removal is a filter: it works piece by piece over a concatenation, drops a mark and keeps any other character |
| Slug.Hifenizar | n8n/shared.ts:97 | only `[a-z0-9-]`, no `--`, no longer than the input |
| Slug.PalavrasSaoPalavras | n8n/shared.ts:97 | each word of a text is a non-empty run of letters and digits |
| Slug.PalavrasVazias | n8n/shared.ts:97 | a text has no words exactly when it has no letter or digit |
| Slug.PalavraUnica | n8n/shared.ts:97 | a single run of letters and digits is one word |
| Slug.PalavrasSeparadas | n8n/shared.ts:97 | any character other than a letter or digit separates words: the words of `a + [c] + b` are those of `a` followed by those of `b` |
| Slug.HifenizarPalavras | n8n/shared.ts:97 | replacing each run of other characters with one `-` gives the words joined with `-`, plus one `-` at each end where the text has a separator |
| Slug.Slugificar | n8n/shared.ts:92-99 | only `[a-z0-9-]`, no `--`, no `-` at either end |
| Slug.SlugPalavras | n8n/shared.ts:92-99 | the slug is the words of the lowered, mark-free text joined with single `-`, and nothing else |
| Slug.AparaHifenDaForma | n8n/shared.ts:98 | dropping the edge dashes of collapsed text leaves none there and creates no `--` |
| Slug.HifenizarIdentidade | n8n/shared.ts:97 | text already made of `[a-z0-9-]` without `--` passes the collapsing step unchanged |
| Slug.SlugFixo | scripts/n8n-shared.ts:81-88 | a string in slug form is its own slug |
| Slug.SlugIdempotente | scripts/n8n-shared.ts:81-88 | slugifying a slug gives it back |
| Slug.SlugPreservaAlfanumericos | scripts/n8n-shared.ts:81-88 | the slug keeps every letter and digit of the lowered, mark-free text, in order |
| Workflow.LimparWorkflow | n8n/shared.ts:154-161 | the cleaned record has exactly name, nodes, connections and settings, each the workflow's own |
| Workflow.LimparIgnoraResto | n8n/shared.ts:154-161 | id, activation, tags and extra keys play no part in the cleaned record |
| Workflow.Projecao | scripts/n8n-shared.ts:38-43 | the keys kept are exactly those both present and listed in `CAMPOS_WORKFLOW`, with their values |
| Workflow.LimparCampos | scripts/n8n-shared.ts:143-151 | the copy loop yields exactly that projection: no key outside the list is ever added |
| Workflow.VersoesConcordam | scripts/n8n-shared.ts:143-151 | on a workflow carrying its declared fields, the key-by-key copy equals the field-by-field record of `n8n/shared.ts` |
| RateLimit.ChaveCliente | apps/server/src/rate-limit.ts:8-18 | a non-blank first forwarded entry is the key, trimmed and free of commas and edge whitespace; otherwise the peer address, even empty, and only without it `"unknown-client"` |
| RateLimit.SegmentosSeguintesIgnorados | apps/server/src/rate-limit.ts:9-15 | entries after the first comma never affect the key |
| RateLimit.CabecalhoUnico | apps/server/src/rate-limit.ts:9-15 | a header without commas is the key, trimmed |
| RateLimit.EntradaEmBrancoUsaIp | apps/server/src/rate-limit.ts:13-17 | a blank first entry falls back to the peer address, whatever follows it |

## Left out

- Front end, HTTP routers, authentication, the server wiring, integrations (S3, fetch), CLI prompts and database bootstrap are outside the core. Examples are `exportarProduto`'s presigned URL, `requisicaoN8n`, `listarWorkflows` and `buscarWorkflow`.
- Price is a `real`, because the code only compares it with 0 and assigns it. The `numeric(10,2)` storage and the `Number`/`String` conversions are not modelled.
- Timestamps (`createdAt`, `updatedAt`) are not modelled, because no modelled operation reads them.
- The image column is one opaque optional string. The contract calls it `imagemUrl`, while the repository and routers call it `imagemKey`.
- The entity getters (`preco`, `estoque`, `ativo`, `nivel`, `hp`) are the class fields themselves.
- The repositories are in-memory sequences in one fixed scan order. SQL gives no order without `ORDER BY`, so which row `LIMIT 1` or a page returns first is a modelling choice.
- A sequence is used instead of a map because pagination works on positions.
- Concurrency is not modelled: each repository call is one atomic step. This covers the race between the fetch and the write in the use cases, and the transactions of `criarSeNaoExiste` and `buscarEAtualizar`.
- A raised constraint exception is the `Violacao` outcome with the table unchanged, not an exception.
- A `Violacao` from `criar` still consumes a serial value, as a PostgreSQL sequence does.
- The `pokemon` table's schema is not part of this model. The model takes the caller-supplied id as primary key and assumes no constraint on `nome`.
- The `.env` file reading is not modelled. `carregarEnvArquivo` returning `{}` on a failed read is `VarsDoArquivo(None)`.
- `scripts/n8n-shared.ts`'s `readFile` throwing on a missing file is not modelled.
- The loaders take the already parsed dictionary, so the lazy reading in `carregarEnv` is not observable here.
- The error output and `process.exit(1)` are the `None` result.
- `trim` is over ASCII whitespace only. Unicode spaces, line separators and the byte-order mark are not modelled.
- `toLowerCase` lowers ASCII letters only. The `normalize("NFD")` decomposition is not modelled; the mark removal after it is modelled on whatever text reaches it.
- JavaScript own-property subtleties of `campo in workflow` (inherited keys such as `__proto__`) are not modelled. A workflow object is a `map`.
- EnvN8n.InterpretarEnv: the `.env` dictionary is a `map`, so a line with the key `__proto__` is stored like any other. In the source, `vars[key] = value` on a plain object does not create that key.
- The rate limiter's middleware wiring is not modelled: the `RATE_LIMITS` windows are constants only. The header and peer address are inputs.
- Nothing in the code keeps an active product's stock positive:
  - `criar` makes an active product with stock 0;
  - `removerEstoque` can empty an active product.
- ProdutoAplicacao.AdicionarEstoqueProduto: stock and ids are unbounded integers. In the database, `estoque` and the `serial` ids are 32-bit `integer` columns. An addition taking the stock past 2147483647 fails at `TabelaProduto.Atualizar` with an out-of-range error, while the model writes the row.
- CategoriaRepositorio.TabelaCategoria.Atualizar: a partial update with no field set is a successful no-op that returns the row. The source passes it straight to the ORM's `.set(...)`, and an update with nothing to set is rejected there; that library behaviour is not part of this model.
- AdicionarDepoisRemover: the add-then-remove round trip is promised only for a record whose stock is not negative. `restaurar` accepts any record, and for a negative stock the removal refuses.
