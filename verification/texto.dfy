/**
 * The JavaScript string operations the helpers rely on, restricted to what
 * they are used for: `trim` (over ASCII whitespace), `indexOf` and `split`
 * with a one-character separator, and the edge-stripping
 * `replace(/^X|X$/g, "")` with a one-character class `X`.
 */
module Texto {

  /** The ASCII characters `trim` removes. */
  predicate EhEspaco(c: char) {
    c == ' ' || c == '\t' || c == '\n' || c == '\r' || c == '\U{000B}' || c == '\U{000C}'
  }

  /** The first non-whitespace position at or after `i`, or `|s|`. */
  function InicioDesde(s: string, i: nat): (r: nat)
    requires i <= |s|
    ensures i <= r <= |s|
    ensures forall k :: i <= k < r ==> EhEspaco(s[k])
    ensures r < |s| ==> !EhEspaco(s[r])
    decreases |s| - i
  {
    if i == |s| || !EhEspaco(s[i]) then i else InicioDesde(s, i + 1)
  }

  /** One past the last non-whitespace position before `j`, or 0. */
  function FimAte(s: string, j: nat): (r: nat)
    requires j <= |s|
    ensures r <= j
    ensures forall k :: r <= k < j ==> EhEspaco(s[k])
    ensures r > 0 ==> !EhEspaco(s[r - 1])
  {
    if j == 0 || !EhEspaco(s[j - 1]) then j else FimAte(s, j - 1)
  }

  /** Where the text of `s` starts: the first non-whitespace position, or
      `|s|` when there is none. */
  function InicioTexto(s: string): (i: nat)
    ensures i <= |s|
    ensures forall k :: 0 <= k < i ==> EhEspaco(s[k])
    ensures i < |s| ==> !EhEspaco(s[i])
  {
    InicioDesde(s, 0)
  }

  /** Where the text of `s` ends: one past the last non-whitespace position,
      or 0 when there is none. */
  function FimTexto(s: string): (j: nat)
    ensures j <= |s|
    ensures forall k :: j <= k < |s| ==> EhEspaco(s[k])
    ensures j > 0 ==> !EhEspaco(s[j - 1])
  {
    FimAte(s, |s|)
  }

  /** The two positions are the only ones with their defining properties. */
  lemma InicioUnico(s: string, i: nat)
    requires i <= |s| && (i < |s| ==> !EhEspaco(s[i]))
    requires forall k :: 0 <= k < i ==> EhEspaco(s[k])
    ensures InicioTexto(s) == i
  {
  }

  lemma FimUnico(s: string, j: nat)
    requires j <= |s| && (j > 0 ==> !EhEspaco(s[j - 1]))
    requires forall k :: j <= k < |s| ==> EhEspaco(s[k])
    ensures FimTexto(s) == j
  {
  }

  /** `trimStart`. */
  function TrimInicio(s: string): (r: string)
    ensures |r| <= |s| && r == s[|s| - |r|..]
    ensures r == s[InicioTexto(s)..]
    ensures r == [] || !EhEspaco(r[0])
  {
    s[InicioTexto(s)..]
  }

  /** `trimEnd`. */
  function TrimFim(s: string): (r: string)
    ensures |r| <= |s| && r == s[..|r|]
    ensures r == s[..FimTexto(s)]
    ensures r == [] || !EhEspaco(r[|r| - 1])
  {
    s[..FimTexto(s)]
  }

  /** `trim`: what lies between the first and the last non-whitespace
      characters. */
  function Trim(s: string): (r: string)
    ensures r == [] || (!EhEspaco(r[0]) && !EhEspaco(r[|r| - 1]))
    ensures |r| <= |s|
  {
    TrimFim(TrimInicio(s))
  }

  /** What `trim` keeps: the text between its start and its end, or nothing
      when there is no text. */
  lemma TrimValor(s: string)
    ensures InicioTexto(s) < |s| ==> InicioTexto(s) < FimTexto(s) && Trim(s) == s[InicioTexto(s)..FimTexto(s)]
    ensures InicioTexto(s) == |s| ==> Trim(s) == []
  {
    var i, j := InicioTexto(s), FimTexto(s);
    if i < |s| {
      FimUnico(s[i..], j - i);
    }
  }

  /** `trim` gives the empty string exactly for all-whitespace text. */
  lemma TrimVazio(s: string)
    ensures Trim(s) == [] <==> forall k :: 0 <= k < |s| ==> EhEspaco(s[k])
  {
    if InicioTexto(s) < |s| {
      var x := TrimInicio(s);
      assert !EhEspaco(x[0]);
    }
  }

  /** `s.indexOf(c)`: the first position of `c`, or -1. */
  function IndiceDe(s: string, c: char): (r: int)
    ensures -1 <= r < |s|
    ensures r == -1 ==> forall k :: 0 <= k < |s| ==> s[k] != c
    ensures r >= 0 ==> s[r] == c && forall k :: 0 <= k < r ==> s[k] != c
  {
    IndiceDesde(s, c, 0)
  }

  /** The first position of `c` at or after `i`, or -1. */
  function IndiceDesde(s: string, c: char, i: nat): (r: int)
    requires i <= |s|
    ensures r == -1 || i <= r < |s|
    ensures r == -1 ==> forall k :: i <= k < |s| ==> s[k] != c
    ensures r >= 0 ==> s[r] == c && forall k :: i <= k < r ==> s[k] != c
    decreases |s| - i
  {
    if i == |s| then -1
    else if s[i] == c then i
    else IndiceDesde(s, c, i + 1)
  }

  /** `s.split(sep)`: the pieces between separators, at least one. */
  function Dividir(s: string, sep: char): (r: seq<string>)
    ensures |r| >= 1
    decreases |s|
  {
    var i := IndiceDe(s, sep);
    if i < 0 then [s]
    else [s[..i]] + Dividir(s[i + 1..], sep)
  }

  /** `pieces.join(sep)`. */
  function Juntar(partes: seq<string>, sep: char): string
    requires |partes| >= 1
  {
    if |partes| == 1 then partes[0] else partes[0] + [sep] + Juntar(partes[1..], sep)
  }

  predicate SemSeparador(partes: seq<string>, sep: char) {
    forall j, k :: 0 <= j < |partes| && 0 <= k < |partes[j]| ==> partes[j][k] != sep
  }

  /** No piece holds the separator. */
  lemma {:induction false} DividirSemSeparador(s: string, sep: char)
    ensures SemSeparador(Dividir(s, sep), sep)
    decreases |s|
  {
    var i := IndiceDe(s, sep);
    if i >= 0 {
      DividirSemSeparador(s[i + 1..], sep);
      SemSeparadorCons(s[..i], Dividir(s[i + 1..], sep), sep);
    }
  }

  lemma SemSeparadorCons(p: string, resto: seq<string>, sep: char)
    requires forall k :: 0 <= k < |p| ==> p[k] != sep
    requires SemSeparador(resto, sep)
    ensures SemSeparador([p] + resto, sep)
  {
    var partes := [p] + resto;
    forall j, k | 0 <= j < |partes| && 0 <= k < |partes[j]| ensures partes[j][k] != sep {
      if j > 0 {
        assert partes[j] == resto[j - 1];
      }
    }
  }

  /** Joining the pieces with the separator gives back the string. */
  lemma {:induction false} DividirJuntar(s: string, sep: char)
    ensures Juntar(Dividir(s, sep), sep) == s
    decreases |s|
  {
    var i := IndiceDe(s, sep);
    if i >= 0 {
      var resto := Dividir(s[i + 1..], sep);
      DividirJuntar(s[i + 1..], sep);
      JuntarCons(s[..i], resto, sep);
      assert s == s[..i] + [sep] + s[i + 1..];
    }
  }

  lemma JuntarCons(p: string, resto: seq<string>, sep: char)
    requires |resto| >= 1
    ensures Juntar([p] + resto, sep) == p + [sep] + Juntar(resto, sep)
  {
    assert ([p] + resto)[1..] == resto;
  }

  /** A string without the separator is a single piece. */
  lemma DividirSemOcorrencia(s: string, sep: char)
    requires sep !in s
    ensures Dividir(s, sep) == [s]
  {
    assert forall k :: 0 <= k < |s| ==> s[k] != sep;
  }

  /** `s.split(sep)[0]`: everything before the first separator, or all of
      `s` when it has none. */
  function PrimeiroSegmento(s: string, sep: char): (r: string)
    ensures |r| <= |s| && r == s[..|r|]
    ensures forall k :: 0 <= k < |r| ==> r[k] != sep
    ensures |r| < |s| ==> s[|r|] == sep
  {
    Dividir(s, sep)[0]
  }

  /** The first segment is what precedes the first separator, whatever
      follows it. */
  lemma PrimeiroSegmentoAntesDoSeparador(a: string, b: string, sep: char)
    requires forall k :: 0 <= k < |a| ==> a[k] != sep
    ensures PrimeiroSegmento(a + [sep] + b, sep) == a
  {
    var s := a + [sep] + b;
    assert forall k :: 0 <= k < |a| ==> s[k] == a[k];
    assert s[|a|] == sep;
  }

  /** Without a separator the first segment is the whole string. */
  lemma PrimeiroSegmentoSemSeparador(a: string, sep: char)
    requires forall k :: 0 <= k < |a| ==> a[k] != sep
    ensures PrimeiroSegmento(a, sep) == a
  {
  }

  /** `s.replace(/^X|X$/g, "")` where `p` is the class `X`: drops one
      leading and one trailing character of the class; a lone such
      character is dropped once. */
  function AparaUma(s: string, p: char -> bool): (r: string)
    ensures |s| - 2 <= |r| <= |s|
    ensures (s == [] || !p(s[0])) && (s == [] || !p(s[|s| - 1])) ==> r == s
    ensures |s| >= 2 && p(s[0]) && p(s[|s| - 1]) ==> r == s[1..|s| - 1]
    ensures |s| >= 2 && p(s[0]) && !p(s[|s| - 1]) ==> r == s[1..]
    ensures |s| >= 2 && !p(s[0]) && p(s[|s| - 1]) ==> r == s[..|s| - 1]
    ensures |s| == 1 && p(s[0]) ==> r == []
  {
    var a := if |s| > 0 && p(s[0]) then 1 else 0;
    var b := if |s| > a && p(s[|s| - 1]) then |s| - 1 else |s|;
    s[a..b]
  }

  // ----- Algebra of trimming, used by the `.env` line lemmas --------------

  /** Text that starts with a non-space keeps its tail when trimmed at the start. */
  lemma TrimInicioConcat(a: string, b: string)
    requires TrimInicio(a) != []
    ensures TrimInicio(a + b) == TrimInicio(a) + b
  {
    var i := InicioTexto(a);
    InicioUnico(a + b, i);
    assert (a + b)[i..] == a[i..] + b;
  }

  /** Text that ends with a non-space keeps its head when trimmed at the end. */
  lemma TrimFimConcat(a: string, b: string)
    requires a != [] && !EhEspaco(a[|a| - 1])
    ensures TrimFim(a + b) == a + TrimFim(b)
  {
    var j := FimTexto(b);
    FimUnico(a + b, |a| + j);
    assert (a + b)[..|a| + j] == a + b[..j];
  }

  /** Text without whitespace at either end is left alone. */
  lemma TrimSemBordas(s: string)
    requires s == [] || (!EhEspaco(s[0]) && !EhEspaco(s[|s| - 1]))
    ensures TrimInicio(s) == s && TrimFim(s) == s && Trim(s) == s
  {
    InicioUnico(s, 0);
    FimUnico(s, |s|);
  }

  /** The two ends can be trimmed in either order. */
  lemma TrimComuta(s: string)
    ensures TrimInicio(TrimFim(s)) == TrimFim(TrimInicio(s))
  {
    var i, j := InicioTexto(s), FimTexto(s);
    if i < |s| {
      assert i < j;
      InicioUnico(s[..j], i);
      FimUnico(s[i..], j - i);
      assert s[..j][i..] == s[i..][..j - i];
    } else {
      FimUnico(s, 0);
    }
  }

  lemma TrimInicioIdempotente(s: string)
    ensures TrimInicio(TrimInicio(s)) == TrimInicio(s)
  {
    InicioUnico(TrimInicio(s), 0);
  }

  lemma TrimFimIdempotente(s: string)
    ensures TrimFim(TrimFim(s)) == TrimFim(s)
  {
    FimUnico(TrimFim(s), |TrimFim(s)|);
  }

  /** Trimming after either one-sided trim is trimming. */
  lemma TrimAposUmLado(s: string)
    ensures Trim(TrimInicio(s)) == Trim(s) && Trim(TrimFim(s)) == Trim(s)
  {
    TrimInicioIdempotente(s);
    TrimComuta(s);
    TrimFimIdempotente(TrimInicio(s));
  }

  /** Trimming twice is trimming once. */
  lemma TrimIdempotente(s: string)
    ensures Trim(Trim(s)) == Trim(s)
  {
    TrimSemBordas(Trim(s));
  }
}
