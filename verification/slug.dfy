/**
 * `slugificar` of the n8n sync helpers (identical in `n8n/shared.ts` and
 * `scripts/n8n-shared.ts`): lowercase, drop combining marks, turn every run
 * of characters other than `[a-z0-9]` into one `-`, and drop a `-` at
 * either end.
 */
module Slug {
  import opened Texto

  predicate EhAlfanumerico(c: char) {
    ('a' <= c <= 'z') || ('0' <= c <= '9')
  }

  predicate EhHifen(c: char) {
    c == '-'
  }

  /** The characters a slug is made of. */
  predicate CharDeSlug(c: char) {
    EhAlfanumerico(c) || c == '-'
  }

  /** No two dashes in a row. */
  predicate SemHifenDuplo(s: string) {
    forall k :: 0 <= k < |s| - 1 ==> !(s[k] == '-' && s[k + 1] == '-')
  }

  /** `toLowerCase` on one character, over the ASCII letters. */
  function Minusculo(c: char): char {
    if 'A' <= c <= 'Z' then (c as int + 32) as char else c
  }

  /** `toLowerCase`: every character lowered, nothing else changed. */
  function Minusculas(s: string): (r: string)
    ensures |r| == |s|
    ensures forall k :: 0 <= k < |s| ==> r[k] == Minusculo(s[k])
  {
    seq(|s|, k requires 0 <= k < |s| => Minusculo(s[k]))
  }

  /** The combining diacritical marks, U+0300 to U+036F. */
  predicate EhMarca(c: char) {
    '\U{0300}' <= c <= '\U{036F}'
  }

  /** `replace(/[̀-ͯ]/g, "")`: the string without its marks. */
  function SemMarcas(s: string): (r: string)
    ensures |r| <= |s|
    ensures forall k :: 0 <= k < |r| ==> !EhMarca(r[k])
    ensures (forall k :: 0 <= k < |s| ==> !EhMarca(s[k])) ==> r == s
  {
    if s == [] then []
    else if EhMarca(s[|s| - 1]) then SemMarcas(s[..|s| - 1])
    else SemMarcas(s[..|s| - 1]) + [s[|s| - 1]]
  }

  /** Removing the marks is a filter: it works piece by piece, dropping a
      mark and keeping any other character. */
  lemma {:induction false} SemMarcasFiltro(a: string, b: string)
    ensures SemMarcas(a + b) == SemMarcas(a) + SemMarcas(b)
    ensures |b| == 1 ==> SemMarcas(b) == if EhMarca(b[0]) then [] else b
    decreases |b|
  {
    if b == [] {
      assert a + b == a;
    } else {
      var b' := b[..|b| - 1];
      assert (a + b)[..|a + b| - 1] == a + b';
      SemMarcasFiltro(a, b');
      if |b| == 1 {
        assert b' == [];
      }
    }
  }

  /** `replace(/[^a-z0-9]+/g, "-")`, read left to right: a letter or digit
      is kept; any other character becomes a `-` unless the previous one
      already did. */
  function Hifenizar(s: string): (r: string)
    ensures forall k :: 0 <= k < |r| ==> CharDeSlug(r[k])
    ensures SemHifenDuplo(r)
    ensures |r| <= |s|
  {
    if s == [] then []
    else
      var r := Hifenizar(s[..|s| - 1]);
      var c := s[|s| - 1];
      if EhAlfanumerico(c) then r + [c]
      else if r != [] && r[|r| - 1] == '-' then r
      else r + ['-']
  }

  /** `slugificar`: only `[a-z0-9-]`, no `--`, no `-` at either end. */
  function Slugificar(texto: string): (r: string)
    ensures forall k :: 0 <= k < |r| ==> CharDeSlug(r[k])
    ensures SemHifenDuplo(r)
    ensures r == [] || (r[0] != '-' && r[|r| - 1] != '-')
  {
    var h := Hifenizar(SemMarcas(Minusculas(texto)));
    AparaHifenDaForma(h);
    AparaUma(h, EhHifen)
  }

  /** Dropping the edge dashes of a collapsed string leaves none there and
      creates no `--`. */
  lemma AparaHifenDaForma(h: string)
    requires forall k :: 0 <= k < |h| ==> CharDeSlug(h[k])
    requires SemHifenDuplo(h)
    ensures var r := AparaUma(h, EhHifen);
      && (forall k :: 0 <= k < |r| ==> CharDeSlug(r[k]))
      && SemHifenDuplo(r)
      && (r == [] || (r[0] != '-' && r[|r| - 1] != '-'))
  {
    var a := if |h| > 0 && EhHifen(h[0]) then 1 else 0;
    var b := if |h| > a && EhHifen(h[|h| - 1]) then |h| - 1 else |h|;
    var r := h[a..b];
    assert AparaUma(h, EhHifen) == r;
    assert forall k :: 0 <= k < |r| ==> r[k] == h[a + k];
  }

  /** A string already in slug form passes through the run-collapsing
      step unchanged. */
  lemma {:induction false} HifenizarIdentidade(s: string)
    requires forall k :: 0 <= k < |s| ==> CharDeSlug(s[k])
    requires SemHifenDuplo(s)
    ensures Hifenizar(s) == s
  {
    if s != [] {
      var p := s[..|s| - 1];
      HifenizarIdentidade(p);
      assert s == p + [s[|s| - 1]];
    }
  }

  /** A string in slug form is its own slug. */
  lemma SlugFixo(s: string)
    requires forall k :: 0 <= k < |s| ==> CharDeSlug(s[k])
    requires SemHifenDuplo(s)
    requires s == [] || (s[0] != '-' && s[|s| - 1] != '-')
    ensures Slugificar(s) == s
  {
    MinusculasIdentidade(s);
    assert SemMarcas(s) == s by {
      assert forall k :: 0 <= k < |s| ==> !EhMarca(s[k]);
    }
    HifenizarIdentidade(s);
    assert AparaUma(s, EhHifen) == s;
  }

  lemma MinusculasIdentidade(s: string)
    requires forall k :: 0 <= k < |s| ==> CharDeSlug(s[k])
    ensures Minusculas(s) == s
  {
    assert forall k :: 0 <= k < |s| ==> Minusculo(s[k]) == s[k];
  }

  // ----- The slug as the words of the text joined with `-` --------------

  /** A word: a non-empty run of letters and digits. */
  predicate Palavra(w: string) {
    w != [] && forall k :: 0 <= k < |w| ==> EhAlfanumerico(w[k])
  }

  /** The list of words with `c` appended to the last one. */
  function Estender(ws: seq<string>, c: char): seq<string>
    requires ws != []
  {
    ws[..|ws| - 1] + [ws[|ws| - 1] + [c]]
  }

  /** The words of `s`: its maximal runs of letters and digits, in order.
      A letter or digit right after another one extends the current word,
      any other one starts a new word, and the remaining characters only
      separate words. */
  function Palavras(s: string): seq<string> {
    if s == [] then []
    else
      var p, c := s[..|s| - 1], s[|s| - 1];
      var ws := Palavras(p);
      if !EhAlfanumerico(c) then ws
      else if p != [] && EhAlfanumerico(p[|p| - 1]) && ws != [] then Estender(ws, c)
      else ws + [[c]]
  }

  /** `Palavras` read on a text given as a prefix and a last character. */
  lemma PalavrasPasso(p: string, c: char)
    ensures Palavras(p + [c]) ==
      if !EhAlfanumerico(c) then Palavras(p)
      else if p != [] && EhAlfanumerico(p[|p| - 1]) && Palavras(p) != [] then Estender(Palavras(p), c)
      else Palavras(p) + [[c]]
  {
    assert (p + [c])[..|p|] == p;
  }

  /** Each word is a non-empty run of letters and digits. */
  lemma {:induction false} PalavrasSaoPalavras(s: string)
    ensures forall i :: 0 <= i < |Palavras(s)| ==> Palavra(Palavras(s)[i])
    decreases |s|
  {
    if s != [] {
      var p, c := s[..|s| - 1], s[|s| - 1];
      PalavrasSaoPalavras(p);
      var ws := Palavras(p);
      if EhAlfanumerico(c) && p != [] && EhAlfanumerico(p[|p| - 1]) && ws != [] {
        assert Palavra(ws[|ws| - 1] + [c]) by { assert Palavra(ws[|ws| - 1]); }
      } else if EhAlfanumerico(c) {
        assert Palavra([c]);
      }
    }
  }

  /** A text has words exactly when it has a letter or digit. */
  lemma {:induction false} PalavrasVazias(s: string)
    ensures Palavras(s) == [] <==> forall k :: 0 <= k < |s| ==> !EhAlfanumerico(s[k])
    decreases |s|
  {
    if s != [] {
      var p := s[..|s| - 1];
      PalavrasVazias(p);
      assert forall k :: 0 <= k < |p| ==> p[k] == s[k];
    }
  }

  /** A text ending in a letter or digit has words. */
  lemma TerminaEmPalavra(s: string)
    requires s != [] && EhAlfanumerico(s[|s| - 1])
    ensures Palavras(s) != []
  {
    PalavrasVazias(s);
  }

  /** A single word is its own list of words. */
  lemma {:induction false} PalavraUnica(w: string)
    requires Palavra(w)
    ensures Palavras(w) == [w]
    decreases |w|
  {
    var p, c := w[..|w| - 1], w[|w| - 1];
    if p != [] {
      PalavraUnica(p);
    }
    assert w == p + [c];
    PalavrasPasso(p, c);
  }

  lemma EstenderConcat(u: seq<string>, v: seq<string>, c: char)
    requires v != []
    ensures Estender(u + v, c) == u + Estender(v, c)
  {
    assert (u + v)[..|u + v| - 1] == u + v[..|v| - 1];
  }

  /** A character other than a letter or digit ends one word: the words on
      either side of it are kept apart. */
  lemma {:induction false} PalavrasSeparadas(a: string, c: char, b: string)
    requires !EhAlfanumerico(c)
    ensures Palavras(a + [c] + b) == Palavras(a) + Palavras(b)
    decreases |b|
  {
    if b == [] {
      assert a + [c] + b == a + [c];
      PalavrasPasso(a, c);
    } else {
      var b', d := b[..|b| - 1], b[|b| - 1];
      var p := a + [c] + b';
      assert a + [c] + b == p + [d];
      assert b == b' + [d];
      assert p[|p| - 1] == if b' == [] then c else b'[|b'| - 1];
      PalavrasSeparadas(a, c, b');
      PalavrasPasso(p, d);
      PalavrasPasso(b', d);
      if EhAlfanumerico(d) && b' != [] && EhAlfanumerico(b'[|b'| - 1]) {
        TerminaEmPalavra(b');
        EstenderConcat(Palavras(a), Palavras(b'), d);
      }
    }
  }

  /** The words joined with `-`; no words give the empty string. */
  function Unir(ws: seq<string>): string {
    if ws == [] then []
    else if |ws| == 1 then ws[0]
    else Unir(ws[..|ws| - 1]) + "-" + ws[|ws| - 1]
  }

  /** Extending the last word extends the joined text. */
  lemma EstenderUltima(ws: seq<string>, c: char)
    requires ws != []
    ensures Unir(Estender(ws, c)) == Unir(ws) + [c]
  {
    var vs := Estender(ws, c);
    assert vs[..|ws| - 1] == ws[..|ws| - 1];
  }

  /** A new last word goes after one `-`. */
  lemma UnirNovaPalavra(ws: seq<string>, w: string)
    requires ws != []
    ensures Unir(ws + [w]) == Unir(ws) + "-" + w
  {
    assert (ws + [w])[..|ws|] == ws;
  }

  /** Joined words start and end with a letter or digit. */
  lemma {:induction false} UnirBordas(ws: seq<string>)
    requires ws != [] && forall i :: 0 <= i < |ws| ==> Palavra(ws[i])
    ensures var u := Unir(ws); u != [] && EhAlfanumerico(u[0]) && EhAlfanumerico(u[|u| - 1])
    decreases |ws|
  {
    if |ws| > 1 {
      UnirBordas(ws[..|ws| - 1]);
    }
  }

  /** The `-` collapsing leaves in front of the words: one when the text
      starts with a separator. */
  function Antes(s: string): string {
    if s != [] && !EhAlfanumerico(s[0]) then "-" else ""
  }

  /** The `-` collapsing leaves after the words: one when the text has a
      word and ends with a separator. */
  function Depois(s: string): string {
    if Palavras(s) != [] && !EhAlfanumerico(s[|s| - 1]) then "-" else ""
  }

  /** Collapsing runs gives the words joined with `-`, with one `-` more at
      an end where the text has a separator. */
  lemma {:induction false} HifenizarPalavras(s: string)
    ensures Hifenizar(s) == Antes(s) + Unir(Palavras(s)) + Depois(s)
    decreases |s|
  {
    if s != [] {
      var p, c := s[..|s| - 1], s[|s| - 1];
      HifenizarPalavras(p);
      if p != [] {
        assert s[0] == p[0];
      }
      if EhAlfanumerico(c) {
        HifenizarPalavra(p, c);
      } else {
        HifenizarSeparador(p, c);
      }
      assert s == p + [c];
    }
  }

  /** The step of `HifenizarPalavras` for a letter or digit. */
  lemma HifenizarPalavra(p: string, c: char)
    requires EhAlfanumerico(c)
    requires Hifenizar(p) == Antes(p) + Unir(Palavras(p)) + Depois(p)
    ensures Hifenizar(p + [c]) == Antes(p) + Unir(Palavras(p + [c]))
  {
    HifenizarLetra(p, c);
    PalavrasPasso(p, c);
    if p != [] && EhAlfanumerico(p[|p| - 1]) {
      TerminaEmPalavra(p);
      EstenderPalavra(p, c);
    } else if Palavras(p) == [] {
      PrimeiraPalavra(Hifenizar(p), Antes(p), c);
    } else {
      assert Depois(p) == "-";
      NovaPalavra(Hifenizar(p), Antes(p), Palavras(p), c);
    }
  }

  /** A letter or digit is copied to the collapsed text. */
  lemma HifenizarLetra(p: string, c: char)
    requires EhAlfanumerico(c)
    ensures Hifenizar(p + [c]) == Hifenizar(p) + [c]
  {
    assert (p + [c])[..|p|] == p;
  }

  /** The first letter or digit starts the first word. */
  lemma PrimeiraPalavra(h: string, a: string, c: char)
    requires h == a + Unir([]) + ""
    ensures h + [c] == a + Unir([[c]])
  {
  }

  /** A letter or digit after another one extends the last word. */
  lemma EstenderPalavra(p: string, c: char)
    requires Palavras(p) != [] && Depois(p) == ""
    requires Hifenizar(p) == Antes(p) + Unir(Palavras(p)) + Depois(p)
    ensures Hifenizar(p) + [c] == Antes(p) + Unir(Estender(Palavras(p), c))
  {
    var ws := Palavras(p);
    EstenderUltima(ws, c);
    var a, u := Antes(p), Unir(ws);
    assert Hifenizar(p) == a + u;
  }

  /** A letter or digit after a separator starts a new word. */
  lemma NovaPalavra(h: string, a: string, ws: seq<string>, c: char)
    requires ws != [] && h == a + Unir(ws) + "-"
    ensures h + [c] == a + Unir(ws + [[c]])
  {
    UnirNovaPalavra(ws, [c]);
    var u := Unir(ws);
    assert h + [c] == a + (u + "-" + [c]);
  }

  /** The step of `HifenizarPalavras` for any other character. */
  lemma HifenizarSeparador(p: string, c: char)
    requires !EhAlfanumerico(c)
    requires Hifenizar(p) == Antes(p) + Unir(Palavras(p)) + Depois(p)
    ensures Hifenizar(p + [c]) == Antes(p + [c]) + Unir(Palavras(p + [c])) + Depois(p + [c])
  {
    var s := p + [c];
    assert s[..|s| - 1] == p;
    PalavrasPasso(p, c);
    var ws := Palavras(p);
    if ws == [] {
      PalavrasVazias(p);
      assert p != [] ==> !EhAlfanumerico(p[0]);
    } else {
      PalavrasSaoPalavras(p);
      UnirBordas(ws);
      assert p != [] && s[0] == p[0];
    }
  }

  /** The slug is the words of the lowered, mark-free text joined with
      `-`: every run of other characters between two words became exactly
      one `-`, and none is left at the ends. */
  lemma SlugPalavras(texto: string)
    ensures Slugificar(texto) == Unir(Palavras(SemMarcas(Minusculas(texto))))
  {
    var x := SemMarcas(Minusculas(texto));
    HifenizarPalavras(x);
    var h, ws := Hifenizar(x), Palavras(x);
    var a, u, d := Antes(x), Unir(ws), Depois(x);
    if ws == [] {
      assert h == a;
    } else {
      PalavrasSaoPalavras(x);
      UnirBordas(ws);
      AparaBordas(a, u, d);
    }
  }

  /** Dropping the edge dashes around text that starts and ends with a
      letter or digit leaves that text. */
  lemma AparaBordas(a: string, u: string, d: string)
    requires a == "" || a == "-"
    requires d == "" || d == "-"
    requires u != [] && EhAlfanumerico(u[0]) && EhAlfanumerico(u[|u| - 1])
    ensures AparaUma(a + u + d, EhHifen) == u
  {
    var h := a + u + d;
    assert h[|a|..|a| + |u|] == u;
    assert h[0] == (if a == [] then u[0] else '-');
    assert h[|h| - 1] == (if d == [] then u[|u| - 1] else '-');
  }

  /** Slugifying a slug gives it back. */
  lemma SlugIdempotente(texto: string)
    ensures Slugificar(Slugificar(texto)) == Slugificar(texto)
  {
    SlugFixo(Slugificar(texto));
  }

  /** The letters and digits of `s`, in order. */
  function Alfanumericos(s: string): string {
    if s == [] then []
    else if EhAlfanumerico(s[|s| - 1]) then Alfanumericos(s[..|s| - 1]) + [s[|s| - 1]]
    else Alfanumericos(s[..|s| - 1])
  }

  lemma {:induction false} AlfanumericosConcat(a: string, b: string)
    ensures Alfanumericos(a + b) == Alfanumericos(a) + Alfanumericos(b)
    decreases |b|
  {
    if b == [] {
      assert a + b == a;
    } else {
      var b' := b[..|b| - 1];
      assert (a + b)[..|a + b| - 1] == a + b';
      AlfanumericosConcat(a, b');
    }
  }

  /** Collapsing runs keeps every letter and digit, in order. */
  lemma {:induction false} HifenizarPreservaAlfanumericos(s: string)
    ensures Alfanumericos(Hifenizar(s)) == Alfanumericos(s)
  {
    if s != [] {
      var p := s[..|s| - 1];
      var c := s[|s| - 1];
      HifenizarPreservaAlfanumericos(p);
      var r := Hifenizar(p);
      if EhAlfanumerico(c) {
        AlfanumericosConcat(r, [c]);
        assert Alfanumericos([c]) == [c];
      } else if !(r != [] && r[|r| - 1] == '-') {
        AlfanumericosConcat(r, ['-']);
        assert Alfanumericos(['-']) == [];
      }
    }
  }

  /** Dropping edge dashes keeps every letter and digit. */
  lemma AparaHifenPreservaAlfanumericos(s: string)
    ensures Alfanumericos(AparaUma(s, EhHifen)) == Alfanumericos(s)
  {
    var a := if |s| > 0 && EhHifen(s[0]) then 1 else 0;
    var b := if |s| > a && EhHifen(s[|s| - 1]) then |s| - 1 else |s|;
    assert s == s[..a] + s[a..b] + s[b..];
    AlfanumericosConcat(s[..a] + s[a..b], s[b..]);
    AlfanumericosConcat(s[..a], s[a..b]);
    assert a == 1 ==> s[..a] == ['-'];
    assert b == |s| - 1 ==> s[b..] == ['-'];
    assert Alfanumericos(['-']) == [];
  }

  /** The slug holds every letter and digit of the lowered text, in order:
      only the separators change. */
  lemma SlugPreservaAlfanumericos(texto: string)
    ensures Alfanumericos(Slugificar(texto)) == Alfanumericos(SemMarcas(Minusculas(texto)))
  {
    var x := SemMarcas(Minusculas(texto));
    HifenizarPreservaAlfanumericos(x);
    AparaHifenPreservaAlfanumericos(Hifenizar(x));
  }
}
