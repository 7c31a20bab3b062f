/**
 * The `Pokemon` entity: created only with level at least 1; training raises
 * the level by 1 and the hit points by 5.
 */
module PokemonDominio {

  datatype PokemonData = PokemonData(
    id: int, nome: string, tipos: seq<string>, nivel: int, hp: int, sprite: string)

  /** The record after one `treinar`. */
  function Treinado(d: PokemonData): PokemonData {
    d.(nivel := d.nivel + 1, hp := d.hp + 5)
  }

  /** The record after `n` calls of `treinar`. */
  function TreinadoVezes(d: PokemonData, n: nat): PokemonData {
    if n == 0 then d else Treinado(TreinadoVezes(d, n - 1))
  }

  /** After `n` trainings the level grew by `n` and the hit points by `5n`;
      id, name, types and sprite are those of the start, and a level of at
      least 1 stays at least 1. */
  lemma {:induction false} TreinarVezes(d: PokemonData, n: nat)
    ensures TreinadoVezes(d, n).nivel == d.nivel + n
    ensures TreinadoVezes(d, n).hp == d.hp + 5 * n
    ensures TreinadoVezes(d, n).(nivel := d.nivel, hp := d.hp) == d
    ensures d.nivel >= 1 ==> TreinadoVezes(d, n).nivel >= 1
  {
    if n > 0 {
      TreinarVezes(d, n - 1);
    }
  }

  class Pokemon {
    const id: int
    const nome: string
    const tipos: seq<string>
    var nivel: int
    var hp: int
    const sprite: string

    /** `paraDados`: the plain record of the current state. */
    function ParaDados(): PokemonData
      reads this
    {
      PokemonData(id, nome, tipos, nivel, hp, sprite)
    }

    /** The private constructor: copies the record, types included. */
    constructor (data: PokemonData)
      ensures ParaDados() == data
    {
      id, nome, tipos, sprite := data.id, data.nome, data.tipos, data.sprite;
      nivel, hp := data.nivel, data.hp;
    }

    /** `criar`: null exactly when the level is below 1; otherwise exporting
        the new entity gives the input back. */
    static method Criar(data: PokemonData) returns (p: Pokemon?)
      ensures p == null <==> data.nivel < 1
      ensures p != null ==> fresh(p) && p.ParaDados() == data
    {
      if data.nivel < 1 {
        return null;
      }
      p := new Pokemon(data);
    }

    /** `treinar`: one more level, five more hit points, nothing else. */
    method Treinar()
      modifies this`nivel, this`hp
      ensures nivel == old(nivel) + 1 && hp == old(hp) + 5
      ensures ParaDados() == Treinado(old(ParaDados()))
    {
      nivel := nivel + 1;
      hp := hp + 5;
    }
  }
}
