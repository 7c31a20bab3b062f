/**
 * Configuration loading of the n8n sync helpers: the `.env` line parser
 * (one definition serves `n8n/shared.ts` and `scripts/n8n-shared.ts`, which
 * carry the same loop), the environment-over-file precedence of the first,
 * and the file-only validation of the second.
 */
module EnvN8n {
  import opened Wrappers
  import opened Texto

  predicate EhAspa(c: char) {
    c == '"' || c == '\''
  }

  /** One line of a `.env` file: nothing for a blank line, a comment or a
      line without `=`; otherwise the key (the trimmed text before the first
      `=`) and the value (the trimmed text after it, with one quote dropped
      from each end independently). */
  function AnalisarLinha(linha: string): Option<(string, string)> {
    AnalisarAparada(Trim(linha))
  }

  /** The same, on the already trimmed line `t`. */
  function AnalisarAparada(t: string): Option<(string, string)> {
    if t == [] || t[0] == '#' then None
    else
      var i := IndiceDe(t, '=');
      if i < 0 then None
      else Some((Trim(t[..i]), AparaUma(Trim(t[i + 1..]), EhAspa)))
  }

  /** The assignments the lines make, in order. */
  function Analisar(linhas: seq<string>): (r: seq<Option<(string, string)>>)
    ensures |r| == |linhas|
    ensures forall j :: 0 <= j < |linhas| ==> r[j] == AnalisarLinha(linhas[j])
  {
    seq(|linhas|, j requires 0 <= j < |linhas| => AnalisarLinha(linhas[j]))
  }

  /** `vars` after one assignment. */
  function Atribuir(vars: map<string, string>, a: Option<(string, string)>): map<string, string> {
    match a
    case None => vars
    case Some(kv) => vars[kv.0 := kv.1]
  }

  /** `vars` after the assignments, in order. */
  function Aplicar(atribuicoes: seq<Option<(string, string)>>): map<string, string> {
    if atribuicoes == [] then map[]
    else Atribuir(Aplicar(atribuicoes[..|atribuicoes| - 1]), atribuicoes[|atribuicoes| - 1])
  }

  /** The `vars` dictionary the lines produce. */
  function Interpretar(linhas: seq<string>): map<string, string> {
    Aplicar(Analisar(linhas))
  }

  /** The assignment is to key `k`. */
  predicate Define(a: Option<(string, string)>, k: string) {
    a.Some? && a.value.0 == k
  }

  function InterpretarConteudo(conteudo: string): map<string, string> {
    Interpretar(Dividir(conteudo, '\n'))
  }

  /** The parsing loop: one pass over the lines filling `vars`. */
  method InterpretarEnv(conteudo: string) returns (vars: map<string, string>)
    ensures vars == InterpretarConteudo(conteudo)
  {
    var linhas := Dividir(conteudo, '\n');
    ghost var atribuicoes := Analisar(linhas);
    vars := map[];
    for i := 0 to |linhas|
      invariant vars == Aplicar(atribuicoes[..i])
    {
      assert atribuicoes[..i + 1][..i] == atribuicoes[..i];
      assert Aplicar(atribuicoes[..i + 1]) == Atribuir(vars, AnalisarLinha(linhas[i]));
      var trimmed := Trim(linhas[i]);
      if trimmed == [] || trimmed[0] == '#' {
        assert AnalisarLinha(linhas[i]) == None;
        continue;
      }
      var eqIndex := IndiceDe(trimmed, '=');
      if eqIndex == -1 {
        assert AnalisarLinha(linhas[i]) == None;
        continue;
      }
      var key := Trim(trimmed[..eqIndex]);
      var value := AparaUma(Trim(trimmed[eqIndex + 1..]), EhAspa);
      assert AnalisarLinha(linhas[i]) == Some((key, value));
      vars := vars[key := value];
    }
    assert atribuicoes[..|linhas|] == atribuicoes;
  }

  /** Blank lines, comments and lines without `=` assign nothing, and every
      other line assigns something. */
  lemma LinhaIgnorada(linha: string)
    ensures AnalisarLinha(linha).None? <==>
      var t := Trim(linha); t == [] || t[0] == '#' || '=' !in t
  {
  }

  /** A line `k=v` whose key part is neither blank nor a comment assigns the
      trimmed `k` the trimmed, quote-stripped `v`, whatever `v` holds,
      further `=` signs included. */
  lemma LinhaChaveValor(k: string, v: string)
    requires '=' !in k
    requires Trim(k) != [] && Trim(k)[0] != '#'
    ensures AnalisarLinha(k + "=" + v) == Some((Trim(k), AparaUma(Trim(v), EhAspa)))
  {
    ChaveAparada(k);
    TrimLinha(k, v);
    TrimAposUmLado(k);
    TrimAposUmLado(v);
    AnalisarAparadaChaveValor(TrimInicio(k), TrimFim(v));
  }

  /** The start-trimmed key keeps what the key promises. */
  lemma ChaveAparada(k: string)
    requires '=' !in k
    requires Trim(k) != [] && Trim(k)[0] != '#'
    ensures var x := TrimInicio(k);
      x != [] && x[0] != '#' && forall j :: 0 <= j < |x| ==> x[j] != '='
  {
    var x := TrimInicio(k);
    assert forall j :: 0 <= j < |x| ==> x[j] == k[|k| - |x| + j];
    assert x[0] == Trim(k)[0];
  }

  /** A trimmed line `x=w`, with `x` a key without `=` that does not open
      a comment. */
  lemma AnalisarAparadaChaveValor(x: string, w: string)
    requires x != [] && x[0] != '#' && forall j :: 0 <= j < |x| ==> x[j] != '='
    ensures AnalisarAparada(x + ['='] + w) == Some((Trim(x), AparaUma(Trim(w), EhAspa)))
  {
    var t := x + ['='] + w;
    PrimeiroIgual(x, w);
    assert t[..|x|] == x && t[|x| + 1..] == w;
  }

  /** The first `=` of `x=w` is the one after `x`. */
  lemma PrimeiroIgual(x: string, w: string)
    requires forall j :: 0 <= j < |x| ==> x[j] != '='
    ensures IndiceDe(x + ['='] + w, '=') == |x|
  {
    var t := x + ['='] + w;
    assert forall j :: 0 <= j < |x| ==> t[j] == x[j];
    assert t[|x|] == '=';
  }

  /** Trimming a `k=v` line trims the start of `k` and the end of `v`. */
  lemma TrimLinha(k: string, v: string)
    requires TrimInicio(k) != []
    ensures Trim(k + "=" + v) == TrimInicio(k) + ['='] + TrimFim(v)
  {
    var x := TrimInicio(k);
    assert k + "=" + v == k + (['='] + v);
    TrimInicioConcat(k, ['='] + v);
    assert x + (['='] + v) == (x + ['=']) + v;
    TrimFimConcat(x + ['='], v);
  }

  /** The value of a key is the one of its last assignment. */
  lemma {:induction false} UltimaAtribuicaoVence(atribuicoes: seq<Option<(string, string)>>, i: nat)
    requires i < |atribuicoes| && atribuicoes[i].Some?
    requires forall j :: i < j < |atribuicoes| ==> !Define(atribuicoes[j], atribuicoes[i].value.0)
    ensures var kv := atribuicoes[i].value;
      kv.0 in Aplicar(atribuicoes) && Aplicar(atribuicoes)[kv.0] == kv.1
  {
    var n := |atribuicoes|;
    if i < n - 1 {
      var prefixo := atribuicoes[..n - 1];
      UltimaAtribuicaoVence(prefixo, i);
      assert !Define(atribuicoes[n - 1], atribuicoes[i].value.0);
    }
  }

  /** A key no assignment names is absent. */
  lemma {:induction false} ChaveNuncaAtribuida(atribuicoes: seq<Option<(string, string)>>, k: string)
    requires forall j :: 0 <= j < |atribuicoes| ==> !Define(atribuicoes[j], k)
    ensures k !in Aplicar(atribuicoes)
  {
    var n := |atribuicoes|;
    if n > 0 {
      ChaveNuncaAtribuida(atribuicoes[..n - 1], k);
      assert !Define(atribuicoes[n - 1], k);
    }
  }

  /** In a `.env` file the last line assigning a key decides its value. */
  lemma UltimaOcorrenciaVence(linhas: seq<string>, i: nat)
    requires i < |linhas| && AnalisarLinha(linhas[i]).Some?
    requires forall j :: i < j < |linhas| ==> !Define(AnalisarLinha(linhas[j]), AnalisarLinha(linhas[i]).value.0)
    ensures var kv := AnalisarLinha(linhas[i]).value;
      kv.0 in Interpretar(linhas) && Interpretar(linhas)[kv.0] == kv.1
  {
    UltimaAtribuicaoVence(Analisar(linhas), i);
  }

  /** A key no line of a `.env` file assigns is absent from `vars`. */
  lemma ChaveAusente(linhas: seq<string>, k: string)
    requires forall j :: 0 <= j < |linhas| ==> !Define(AnalisarLinha(linhas[j]), k)
    ensures k !in Interpretar(linhas)
  {
    ChaveNuncaAtribuida(Analisar(linhas), k);
  }

  // ----- carregarEnv -------------------------------------------------------

  datatype ConfigN8n = ConfigN8n(baseUrl: string, apiKey: string, tag: string)

  const N8N_URL: string := "N8N_URL"
  const N8N_API_KEY: string := "N8N_API_KEY"
  const N8N_PROJECT_TAG: string := "N8N_PROJECT_TAG"

  /** `obj.KEY`: undefined when the key is absent. */
  function Ler(m: map<string, string>, k: string): Option<string> {
    if k in m then Some(m[k]) else None
  }

  /** JavaScript truthiness of a string that may be undefined. */
  predicate Verdadeiro(v: Option<string>) {
    v.Some? && v.value != ""
  }

  /** `a ?? b`: falls back only when `a` is undefined, not when it is empty. */
  function OuSenao(a: Option<string>, b: Option<string>): Option<string> {
    if a.Some? then a else b
  }

  /** All three variables are set and non-empty in `m`. */
  predicate Completo(m: map<string, string>) {
    Verdadeiro(Ler(m, N8N_URL)) && Verdadeiro(Ler(m, N8N_API_KEY)) && Verdadeiro(Ler(m, N8N_PROJECT_TAG))
  }

  /** `carregarEnvArquivo`: the parsed `n8n/.env`, or `{}` when the file
      cannot be read (`None`). */
  function VarsDoArquivo(arquivo: Option<string>): map<string, string> {
    match arquivo
    case None => map[]
    case Some(conteudo) => InterpretarConteudo(conteudo)
  }

  /** `carregarEnv` of `n8n/shared.ts`, given the process environment and
      the dictionary `carregarEnvArquivo` yields (`VarsDoArquivo` of the
      file); `None` is the exit with an error. */
  function CarregarEnvN8n(processEnv: map<string, string>, arquivo: map<string, string>): (r: Option<ConfigN8n>)
    ensures Completo(processEnv) ==>
      r == Some(ConfigN8n(processEnv[N8N_URL], processEnv[N8N_API_KEY], processEnv[N8N_PROJECT_TAG]))
    ensures r.Some? ==> r.value.baseUrl != "" && r.value.apiKey != "" && r.value.tag != ""
  {
    var baseUrl := Ler(processEnv, N8N_URL);
    var apiKey := Ler(processEnv, N8N_API_KEY);
    var tag := Ler(processEnv, N8N_PROJECT_TAG);
    if Verdadeiro(baseUrl) && Verdadeiro(apiKey) && Verdadeiro(tag) then
      Some(ConfigN8n(baseUrl.value, apiKey.value, tag.value))
    else
      var b := OuSenao(baseUrl, Ler(arquivo, N8N_URL));
      var a := OuSenao(apiKey, Ler(arquivo, N8N_API_KEY));
      var t := OuSenao(tag, Ler(arquivo, N8N_PROJECT_TAG));
      if Verdadeiro(b) && Verdadeiro(a) && Verdadeiro(t) then Some(ConfigN8n(b.value, a.value, t.value))
      else None
  }

  /** With a complete environment the file is never consulted. */
  lemma EnvCompletoIgnoraArquivo(processEnv: map<string, string>, a1: map<string, string>, a2: map<string, string>)
    requires Completo(processEnv)
    ensures CarregarEnvN8n(processEnv, a1) == CarregarEnvN8n(processEnv, a2)
  {
  }

  /** Each field comes from the environment whenever the variable is defined
      there, even empty, and from the file otherwise; loading fails exactly
      when one of the chosen values is missing or empty. */
  lemma EnvPrecedeArquivo(processEnv: map<string, string>, arquivo: map<string, string>)
    ensures var b := OuSenao(Ler(processEnv, N8N_URL), Ler(arquivo, N8N_URL));
      var a := OuSenao(Ler(processEnv, N8N_API_KEY), Ler(arquivo, N8N_API_KEY));
      var t := OuSenao(Ler(processEnv, N8N_PROJECT_TAG), Ler(arquivo, N8N_PROJECT_TAG));
      && (CarregarEnvN8n(processEnv, arquivo).Some? <==> Verdadeiro(b) && Verdadeiro(a) && Verdadeiro(t))
      && (CarregarEnvN8n(processEnv, arquivo).Some? ==>
            CarregarEnvN8n(processEnv, arquivo).value == ConfigN8n(b.value, a.value, t.value))
  {
  }

  /** A variable defined but empty in the environment hides the file's value,
      so loading fails. */
  lemma EnvVazioBloqueia(processEnv: map<string, string>, arquivo: map<string, string>, k: string)
    requires k == N8N_URL || k == N8N_API_KEY || k == N8N_PROJECT_TAG
    requires k in processEnv && processEnv[k] == ""
    ensures CarregarEnvN8n(processEnv, arquivo).None?
  {
  }

  /** `carregarEnv` of `scripts/n8n-shared.ts`, given the dictionary parsed
      from `scripts/.env` (`InterpretarConteudo` of the file): it fails when
      any of the three variables is missing or empty, and otherwise returns
      exactly those three values. */
  function CarregarEnvScripts(vars: map<string, string>): (r: Option<ConfigN8n>)
    ensures r.Some? <==> Completo(vars)
    ensures r.Some? ==> r.value == ConfigN8n(vars[N8N_URL], vars[N8N_API_KEY], vars[N8N_PROJECT_TAG])
  {
    var baseUrl := Ler(vars, N8N_URL);
    var apiKey := Ler(vars, N8N_API_KEY);
    var tag := Ler(vars, N8N_PROJECT_TAG);
    if !(Verdadeiro(baseUrl) && Verdadeiro(apiKey) && Verdadeiro(tag)) then None
    else Some(ConfigN8n(baseUrl.value, apiKey.value, tag.value))
  }

  /** With an empty environment the two loaders agree on the same file. */
  lemma CarregadoresConcordam(vars: map<string, string>)
    ensures CarregarEnvN8n(map[], vars) == CarregarEnvScripts(vars)
  {
  }
}
