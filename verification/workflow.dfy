/**
 * `limparWorkflow` of the n8n sync helpers: the remote workflow reduced to
 * the four fields kept under version control. `n8n/shared.ts` builds the
 * record field by field; `scripts/n8n-shared.ts` copies, key by key, the
 * names listed in `CAMPOS_WORKFLOW` that the object holds.
 */
module Workflow {

  /** The JSON values the n8n API returns. */
  datatype Json =
    | JNull
    | JBool(b: bool)
    | JNum(n: int)
    | JStr(s: string)
    | JArr(itens: seq<Json>)
    | JObj(campos: map<string, Json>)

  datatype TagN8n = TagN8n(id: string, name: string)

  /** A workflow as the API returns it; `outros` holds the keys beyond the
      declared ones. */
  datatype WorkflowRemoto = WorkflowRemoto(
    id: string,
    name: string,
    active: bool,
    tags: seq<TagN8n>,
    nodes: seq<Json>,
    connections: map<string, Json>,
    settings: map<string, Json>,
    outros: map<string, Json>)

  datatype WorkflowLimpo = WorkflowLimpo(
    name: string,
    nodes: seq<Json>,
    connections: map<string, Json>,
    settings: map<string, Json>)

  /** `limparWorkflow` of `n8n/shared.ts`. */
  function LimparWorkflow(w: WorkflowRemoto): (r: WorkflowLimpo)
    ensures r.name == w.name && r.nodes == w.nodes
    ensures r.connections == w.connections && r.settings == w.settings
  {
    WorkflowLimpo(w.name, w.nodes, w.connections, w.settings)
  }

  /** Id, activation, tags and extra keys play no part in the cleaned
      workflow. */
  lemma LimparIgnoraResto(w1: WorkflowRemoto, w2: WorkflowRemoto)
    requires w1.name == w2.name && w1.nodes == w2.nodes
    requires w1.connections == w2.connections && w1.settings == w2.settings
    ensures LimparWorkflow(w1) == LimparWorkflow(w2)
  {
  }

  const CAMPOS_WORKFLOW: seq<string> := ["name", "nodes", "connections", "settings"]

  /** The keys of `obj` that `CAMPOS_WORKFLOW` lists, with their values. */
  function Projecao(obj: map<string, Json>): (r: map<string, Json>)
    ensures r.Keys == obj.Keys * (set c | c in CAMPOS_WORKFLOW)
    ensures forall c :: c in r ==> r[c] == obj[c]
  {
    map c | c in obj && c in CAMPOS_WORKFLOW :: obj[c]
  }

  /** `limparWorkflow` of `scripts/n8n-shared.ts`: one pass over
      `CAMPOS_WORKFLOW` copying each listed key the object holds. */
  method LimparCampos(workflow: map<string, Json>) returns (limpo: map<string, Json>)
    ensures limpo == Projecao(workflow)
  {
    limpo := map[];
    for i := 0 to |CAMPOS_WORKFLOW|
      invariant limpo.Keys == workflow.Keys * (set j | 0 <= j < i :: CAMPOS_WORKFLOW[j])
      invariant forall c :: c in limpo ==> limpo[c] == workflow[c]
    {
      var campo := CAMPOS_WORKFLOW[i];
      if campo in workflow {
        limpo := limpo[campo := workflow[campo]];
      }
    }
    assert (set j | 0 <= j < |CAMPOS_WORKFLOW| :: CAMPOS_WORKFLOW[j]) == (set c | c in CAMPOS_WORKFLOW);
  }

  function TagComoJson(t: TagN8n): Json {
    JObj(map["id" := JStr(t.id), "name" := JStr(t.name)])
  }

  /** The JSON object of a remote workflow: its extra keys and the declared
      fields. */
  function ObjetoRemoto(w: WorkflowRemoto): map<string, Json> {
    w.outros
      ["id" := JStr(w.id)]
      ["active" := JBool(w.active)]
      ["tags" := JArr(seq(|w.tags|, k requires 0 <= k < |w.tags| => TagComoJson(w.tags[k])))]
      ["name" := JStr(w.name)]
      ["nodes" := JArr(w.nodes)]
      ["connections" := JObj(w.connections)]
      ["settings" := JObj(w.settings)]
  }

  /** The JSON object of a cleaned workflow. */
  function ObjetoLimpo(l: WorkflowLimpo): map<string, Json> {
    map[
      "name" := JStr(l.name),
      "nodes" := JArr(l.nodes),
      "connections" := JObj(l.connections),
      "settings" := JObj(l.settings)]
  }

  /** An object holding every listed key projects onto exactly those
      entries. */
  lemma ProjecaoCompleta(obj: map<string, Json>, l: map<string, Json>)
    requires l.Keys == set c | c in CAMPOS_WORKFLOW
    requires forall c :: c in l ==> c in obj && obj[c] == l[c]
    ensures Projecao(obj) == l
  {
  }

  /** The remote object carries the four kept fields under their names. */
  lemma ObjetoRemotoCampos(w: WorkflowRemoto)
    ensures var o := ObjetoRemoto(w);
      && "name" in o && o["name"] == JStr(w.name)
      && "nodes" in o && o["nodes"] == JArr(w.nodes)
      && "connections" in o && o["connections"] == JObj(w.connections)
      && "settings" in o && o["settings"] == JObj(w.settings)
  {
  }

  /** The cleaned object holds exactly the listed keys. */
  lemma ObjetoLimpoChaves(l: WorkflowLimpo)
    ensures ObjetoLimpo(l).Keys == set c | c in CAMPOS_WORKFLOW
  {
  }

  /** On a workflow that has its declared fields the two versions agree:
      the key-by-key copy yields exactly the cleaned record. */
  lemma VersoesConcordam(w: WorkflowRemoto)
    ensures Projecao(ObjetoRemoto(w)) == ObjetoLimpo(LimparWorkflow(w))
  {
    ObjetoRemotoCampos(w);
    ObjetoLimpoChaves(LimparWorkflow(w));
    ProjecaoCompleta(ObjetoRemoto(w), ObjetoLimpo(LimparWorkflow(w)));
  }
}
