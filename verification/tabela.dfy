/**
 * A relational table seen as a sequence of rows in scan order, and the SQL
 * statements the repositories issue against it, each one atomic step:
 * `SELECT ... WHERE p LIMIT 1`, `OFFSET/LIMIT`, `UPDATE ... WHERE p` and
 * `DELETE ... WHERE p`.
 */
module Tabela {
  import opened Wrappers

  /** Outcome of an INSERT or UPDATE ... RETURNING: the returned row, no row
      (the source's `null`), or the exception a unique or primary-key
      constraint raises. */
  datatype Resposta<+T> = Ok(valor: T) | Nulo | Violacao

  /** No two rows share the same `chave`. */
  ghost predicate Unicos<T, K>(linhas: seq<T>, chave: T -> K) {
    forall i, j :: 0 <= i < j < |linhas| ==> chave(linhas[i]) != chave(linhas[j])
  }

  /** Some row satisfies `p`. */
  predicate Existe<T>(linhas: seq<T>, p: T -> bool) {
    exists i :: 0 <= i < |linhas| && p(linhas[i])
  }

  /** `SELECT * WHERE p LIMIT 1`: the first row satisfying `p`, if any. */
  function Primeiro<T>(linhas: seq<T>, p: T -> bool): (r: Option<T>)
    ensures r.Some? ==> r.value in linhas && p(r.value)
    ensures r.None? <==> !Existe(linhas, p)
  {
    if linhas == [] then None
    else if p(linhas[0]) then Some(linhas[0])
    else
      var r := Primeiro(linhas[1..], p);
      assert Existe(linhas, p) ==> Existe(linhas[1..], p) by {
        if Existe(linhas, p) {
          var i :| 0 <= i < |linhas| && p(linhas[i]);
          assert linhas[1..][i - 1] == linhas[i];
        }
      }
      r
  }

  /** `OFFSET deslocamento LIMIT limite`. */
  function Janela<T>(linhas: seq<T>, deslocamento: nat, limite: nat): (r: seq<T>)
    ensures |r| <= limite
    ensures deslocamento >= |linhas| ==> r == []
    ensures deslocamento < |linhas| ==> r == linhas[deslocamento..Min(deslocamento + limite, |linhas|)]
  {
    if deslocamento >= |linhas| then []
    else linhas[deslocamento..Min(deslocamento + limite, |linhas|)]
  }

  function Min(a: int, b: int): int {
    if a <= b then a else b
  }

  /** `UPDATE ... SET f(row) WHERE p(row)`: every matching row is rewritten,
      every other row and the order are kept. */
  function Substituir<T>(linhas: seq<T>, p: T -> bool, f: T -> T): (r: seq<T>)
    ensures |r| == |linhas|
    ensures forall i :: 0 <= i < |linhas| ==> r[i] == if p(linhas[i]) then f(linhas[i]) else linhas[i]
  {
    seq(|linhas|, i requires 0 <= i < |linhas| => if p(linhas[i]) then f(linhas[i]) else linhas[i])
  }

  /** `DELETE ... WHERE p(row)`: the matching rows are dropped, the others
      kept. */
  function Remover<T(!new)>(linhas: seq<T>, p: T -> bool): (r: seq<T>)
    ensures forall x :: x in r <==> x in linhas && !p(x)
    ensures !Existe(linhas, p) ==> r == linhas
  {
    if linhas == [] then []
    else
      var resto := Remover(linhas[1..], p);
      assert !Existe(linhas, p) ==> !Existe(linhas[1..], p) by {
        if Existe(linhas[1..], p) {
          var i :| 0 <= i < |linhas[1..]| && p(linhas[1..][i]);
          assert linhas[i + 1] == linhas[1..][i];
        }
      }
      assert linhas == [linhas[0]] + linhas[1..];
      if p(linhas[0]) then resto else [linhas[0]] + resto
  }

  /** Deleting rows keeps a key unique. */
  lemma {:induction false} RemoverPreservaUnicos<T(!new), K>(linhas: seq<T>, p: T -> bool, chave: T -> K)
    requires Unicos(linhas, chave)
    ensures Unicos(Remover(linhas, p), chave)
  {
    if linhas != [] {
      var resto := linhas[1..];
      assert Unicos(resto, chave) by {
        forall i, j | 0 <= i < j < |resto| ensures chave(resto[i]) != chave(resto[j]) {
          assert resto[i] == linhas[i + 1] && resto[j] == linhas[j + 1];
        }
      }
      RemoverPreservaUnicos(resto, p, chave);
      if !p(linhas[0]) {
        var r := Remover(linhas, p);
        var rr := Remover(resto, p);
        assert r == [linhas[0]] + rr;
        forall j | 1 <= j < |r| ensures chave(r[0]) != chave(r[j]) {
          assert r[j] == rr[j - 1];
          assert rr[j - 1] in resto;
          var k :| 0 <= k < |resto| && resto[k] == rr[j - 1];
          assert linhas[k + 1] == resto[k];
        }
      }
    }
  }

  /** Rewriting rows in place keeps a key unique when the rewrite keeps the
      key of each row it touches. */
  lemma SubstituirPreservaUnicos<T, K>(linhas: seq<T>, p: T -> bool, f: T -> T, chave: T -> K)
    requires Unicos(linhas, chave)
    requires forall x :: x in linhas && p(x) ==> chave(f(x)) == chave(x)
    ensures Unicos(Substituir(linhas, p, f), chave)
  {
    var r := Substituir(linhas, p, f);
    forall i, j | 0 <= i < j < |r| ensures chave(r[i]) != chave(r[j]) {
      assert linhas[i] in linhas && linhas[j] in linhas;
    }
  }
}
