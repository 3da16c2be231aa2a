/** Bomb placement by rejection sampling. The random generator of both engines is modelled as the
    finite sequence of (row, column) pairs it draws; a draw that lands on a bomb is skipped. */
module Placement {
  import opened Grid

  type Draw = (int, int)

  /** Every draw lies on the board, as `Random.Next(0, n)` returns a value in [0, n). */
  predicate OnBoard(rows: int, columns: int, draws: seq<Draw>) {
    forall d :: d in draws ==> InBounds(rows, columns, d.0, d.1)
  }

  function Drawn(draws: seq<Draw>): set<Draw> {
    set d | d in draws
  }

  /** The draws suffice when they are on the board and hit at least `bombs` distinct positions:
      the generation loop then ends before the draws run out. */
  predicate Suffice(rows: int, columns: int, bombs: int, draws: seq<Draw>) {
    OnBoard(rows, columns, draws) && 0 <= bombs <= |Drawn(draws)|
  }

  /** The positions chosen by taking the draws in order, skipping repeats, until `bombs` are
      chosen, starting from the positions in `acc`. */
  function ChosenFrom(acc: set<Draw>, draws: seq<Draw>, bombs: int): set<Draw>
    decreases |draws|
  {
    if |acc| == bombs || draws == [] then acc
    else ChosenFrom(acc + {draws[0]}, draws[1..], bombs)
  }

  function Chosen(draws: seq<Draw>, bombs: int): set<Draw> {
    ChosenFrom({}, draws, bombs)
  }

  lemma {:induction false} ChosenFromSize(acc: set<Draw>, draws: seq<Draw>, bombs: int)
    requires |acc| <= bombs <= |acc + Drawn(draws)|
    ensures |ChosenFrom(acc, draws, bombs)| == bombs
    ensures acc <= ChosenFrom(acc, draws, bombs) <= acc + Drawn(draws)
    decreases |draws|
  {
    if |acc| != bombs && draws != [] {
      assert acc + Drawn(draws) == (acc + {draws[0]}) + Drawn(draws[1..]) by {
        assert draws == [draws[0]] + draws[1..];
      }
      ChosenFromSize(acc + {draws[0]}, draws[1..], bombs);
    }
  }

  /** Sufficient draws choose exactly `bombs` positions, each of them drawn. */
  lemma ChosenSize(rows: int, columns: int, bombs: int, draws: seq<Draw>)
    requires Suffice(rows, columns, bombs, draws)
    ensures |Chosen(draws, bombs)| == bombs
    ensures forall d :: d in Chosen(draws, bombs) ==> d in draws && InBounds(rows, columns, d.0, d.1)
  {
    assert {} + Drawn(draws) == Drawn(draws);
    ChosenFromSize({}, draws, bombs);
  }

  /** Consuming one more draw: the choice made from the rest of the draws is unchanged. */
  lemma ChosenStep(draws: seq<Draw>, k: nat, bombs: int)
    requires k < |draws| && |Drawn(draws[..k])| != bombs
    ensures ChosenFrom(Drawn(draws[..k]), draws[k..], bombs)
         == ChosenFrom(Drawn(draws[..k + 1]), draws[k + 1..], bombs)
    ensures Drawn(draws[..k + 1]) == Drawn(draws[..k]) + {draws[k]}
  {
    assert draws[..k + 1] == draws[..k] + [draws[k]];
    assert draws[k..][0] == draws[k] && draws[k..][1..] == draws[k + 1..];
    assert Drawn(draws[..k + 1]) == Drawn(draws[..k]) + {draws[k]};
  }

  /** Once `bombs` positions are chosen, the remaining draws are not consulted. */
  lemma ChosenFromDone(acc: set<Draw>, draws: seq<Draw>, bombs: int)
    requires |acc| == bombs
    ensures ChosenFrom(acc, draws, bombs) == acc
  {
  }
}
