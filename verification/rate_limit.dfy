/**
 * The rate limiter's client key (`apps/server/src/rate-limit.ts`): the
 * first entry of `x-forwarded-for`, trimmed, when it is not blank; else the
 * peer address the server reports; else a fixed fallback. The request's
 * header and the server's peer address are inputs.
 */
module RateLimit {
  import opened Wrappers
  import opened Texto

  /** A window length in milliseconds and the requests allowed in it. */
  datatype Limite = Limite(duration: nat, max: nat)

  const RATE_LIMIT_RPC: Limite := Limite(60 * 1000, 120)
  const RATE_LIMIT_API: Limite := Limite(60 * 1000, 60)

  const CLIENTE_DESCONHECIDO: string := "unknown-client"

  /** `headers.get("x-forwarded-for")?.split(",")[0]?.trim()`. */
  function PrimeiraEntrada(xff: Option<string>): Option<string> {
    match xff
    case None => None
    case Some(h) => Some(Trim(PrimeiroSegmento(h, ',')))
  }

  /** `rateLimitGenerator`: a usable forwarded entry wins, and it is a
      single address without commas or surrounding whitespace; otherwise
      the peer address, even an empty one, and only without it the
      fallback. */
  function ChaveCliente(xff: Option<string>, ip: Option<string>): (r: string)
    ensures PrimeiraEntrada(xff).Some? && PrimeiraEntrada(xff).value != [] ==>
      && r == PrimeiraEntrada(xff).value
      && (forall k :: 0 <= k < |r| ==> r[k] != ',')
      && !EhEspaco(r[0]) && !EhEspaco(r[|r| - 1])
    ensures !(PrimeiraEntrada(xff).Some? && PrimeiraEntrada(xff).value != []) ==>
      r == (if ip.Some? then ip.value else CLIENTE_DESCONHECIDO)
  {
    var entrada := PrimeiraEntrada(xff);
    if entrada.Some? && entrada.value != [] then entrada.value
    else ip.GetOr(CLIENTE_DESCONHECIDO)
  }

  /** With a comma in the header, the key is the trimmed text before it and
      what follows never matters. */
  lemma SegmentosSeguintesIgnorados(a: string, b1: string, b2: string, ip: Option<string>)
    requires forall k :: 0 <= k < |a| ==> a[k] != ','
    requires Trim(a) != []
    ensures ChaveCliente(Some(a + "," + b1), ip) == Trim(a)
    ensures ChaveCliente(Some(a + "," + b1), ip) == ChaveCliente(Some(a + "," + b2), ip)
  {
    PrimeiroSegmentoAntesDoSeparador(a, b1, ',');
    PrimeiroSegmentoAntesDoSeparador(a, b2, ',');
  }

  /** A header without commas is used whole, trimmed. */
  lemma CabecalhoUnico(a: string, ip: Option<string>)
    requires forall k :: 0 <= k < |a| ==> a[k] != ','
    requires Trim(a) != []
    ensures ChaveCliente(Some(a), ip) == Trim(a)
  {
    PrimeiroSegmentoSemSeparador(a, ',');
  }

  /** A blank first entry falls back to the peer address, whatever follows
      the comma. */
  lemma EntradaEmBrancoUsaIp(a: string, b: string, ip: Option<string>)
    requires forall k :: 0 <= k < |a| ==> EhEspaco(a[k])
    ensures ChaveCliente(Some(a + "," + b), ip) == ip.GetOr(CLIENTE_DESCONHECIDO)
  {
    assert forall k :: 0 <= k < |a| ==> a[k] != ',';
    PrimeiroSegmentoAntesDoSeparador(a, b, ',');
    TrimVazio(a);
  }
}
