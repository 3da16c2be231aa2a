/** The board geometry shared by both engines: blocks are stored row by row, a neighbour list holds
    the in-bounds blocks among the eight compass offsets, in the order both engines add them. */
module Grid {
  import opened Wrappers
  import opened Counting

  /** The storage index of the block at (row, column). */
  function Index(columns: int, row: int, column: int): int {
    row * columns + column
  }

  function RowOf(columns: int, i: int): int {
    if columns > 0 then i / columns else 0
  }

  function ColumnOf(columns: int, i: int): int {
    if columns > 0 then i % columns else 0
  }

  predicate InBounds(rows: int, columns: int, row: int, column: int) {
    0 <= row < rows && 0 <= column < columns
  }

  /** Euclidean division of `q * d + r`, for a remainder in range, gives back `q` and `r`. */
  lemma DivModUnique(x: int, d: int, q: int, r: int)
    requires 0 < d && 0 <= r < d && x == q * d + r
    ensures x / d == q && x % d == r
  {
    var q', r' := x / d, x % d;
    assert d * (q - q') == r' - r;
    if q > q' {
      MulAtLeast(q - q', d);
    } else if q < q' {
      MulAtLeast(q' - q, d);
    }
  }

  lemma MulAtLeast(a: int, d: int)
    requires 1 <= a && 0 < d
    ensures d * a >= d
  {
    assert d * a == d * (a - 1) + d;
    assert d * (a - 1) >= 0;
  }

  /** An in-bounds position is stored at an index of the board, from which it can be recovered. */
  lemma IndexOf(rows: int, columns: int, row: int, column: int)
    requires InBounds(rows, columns, row, column)
    ensures 0 <= Index(columns, row, column) < rows * columns
    ensures RowOf(columns, Index(columns, row, column)) == row
    ensures ColumnOf(columns, Index(columns, row, column)) == column
  {
    var i := row * columns + column;
    assert row * columns >= 0;
    MulAtLeast(rows - row, columns);
    assert rows * columns == (rows - row) * columns + row * columns;
    DivModUnique(i, columns, row, column);
  }

  /** Every index of the board is the index of an in-bounds position. */
  lemma PositionOf(rows: int, columns: int, i: int)
    requires 0 <= rows && 0 <= columns && 0 <= i < rows * columns
    ensures columns > 0
    ensures InBounds(rows, columns, RowOf(columns, i), ColumnOf(columns, i))
    ensures Index(columns, RowOf(columns, i), ColumnOf(columns, i)) == i
  {
    var q := i / columns;
    assert i == columns * q + i % columns;
  }

  /** The lookup of a block by placement: nothing out of bounds, the block's index otherwise. */
  function Locate(rows: int, columns: int, row: int, column: int): (b: Option<nat>)
    ensures b.Some? <==> InBounds(rows, columns, row, column)
    ensures b.Some? ==> b.value == Index(columns, row, column) < rows * columns
  {
    if row < 0 || column < 0 || row >= rows || column >= columns then None
    else IndexOf(rows, columns, row, column); Some(Index(columns, row, column))
  }

  /** What adding a possibly absent neighbour contributes to a neighbour list. */
  function Located(b: Option<nat>): (s: seq<nat>)
    ensures |s| <= 1
  {
    match b
    case None => []
    case Some(i) => [i]
  }

  /** The neighbour list of the block at (row, column): the eight lookups in the order in which
      both engines add them, each contributing its block when it is on the board. */
  function NeighboursOf(rows: int, columns: int, row: int, column: int): (s: seq<nat>)
    ensures |s| <= 8
    ensures forall j :: j in s ==> j < rows * columns
  {
    Located(Locate(rows, columns, row - 1, column))
    + Located(Locate(rows, columns, row - 1, column - 1))
    + Located(Locate(rows, columns, row - 1, column + 1))
    + Located(Locate(rows, columns, row, column - 1))
    + Located(Locate(rows, columns, row, column + 1))
    + Located(Locate(rows, columns, row + 1, column))
    + Located(Locate(rows, columns, row + 1, column - 1))
    + Located(Locate(rows, columns, row + 1, column + 1))
  }

  /** The neighbour list as it is built, one lookup at a time, onto an empty list. */
  lemma NeighboursInSteps(rows: int, columns: int, row: int, column: int)
    ensures NeighboursOf(rows, columns, row, column) ==
      []
      + Located(Locate(rows, columns, row - 1, column))
      + Located(Locate(rows, columns, row - 1, column - 1))
      + Located(Locate(rows, columns, row - 1, column + 1))
      + Located(Locate(rows, columns, row, column - 1))
      + Located(Locate(rows, columns, row, column + 1))
      + Located(Locate(rows, columns, row + 1, column))
      + Located(Locate(rows, columns, row + 1, column - 1))
      + Located(Locate(rows, columns, row + 1, column + 1))
  {
    assert [] + Located(Locate(rows, columns, row - 1, column)) == Located(Locate(rows, columns, row - 1, column));
  }

  /** The neighbour list of the block stored at index `i`. */
  function Neighbours(rows: int, columns: int, i: int): seq<nat> {
    NeighboursOf(rows, columns, RowOf(columns, i), ColumnOf(columns, i))
  }

  /** One lookup contributes exactly the block stored at that position, if it is on the board. */
  lemma LocatedMember(rows: int, columns: int, row: int, column: int, j: int)
    requires 0 <= rows && 0 <= columns
    ensures j in Located(Locate(rows, columns, row, column)) <==>
            0 <= j < rows * columns && RowOf(columns, j) == row && ColumnOf(columns, j) == column
  {
    if InBounds(rows, columns, row, column) {
      IndexOf(rows, columns, row, column);
    }
    if 0 <= j < rows * columns {
      PositionOf(rows, columns, j);
    }
  }

  /** Two distinct blocks of the board that touch at a side or a corner. */
  predicate Adjacent(rows: int, columns: int, i: int, j: int) {
    && 0 <= i < rows * columns && 0 <= j < rows * columns && i != j
    && -1 <= RowOf(columns, j) - RowOf(columns, i) <= 1
    && -1 <= ColumnOf(columns, j) - ColumnOf(columns, i) <= 1
  }

  /** Two indices of the board are equal exactly when their positions are. */
  lemma SamePosition(rows: int, columns: int, i: int, j: int)
    requires 0 <= rows && 0 <= columns && 0 <= i < rows * columns && 0 <= j < rows * columns
    ensures i == j <==> RowOf(columns, i) == RowOf(columns, j) && ColumnOf(columns, i) == ColumnOf(columns, j)
  {
    PositionOf(rows, columns, i);
    PositionOf(rows, columns, j);
  }

  /** Membership in a neighbour list, one lookup at a time. */
  lemma NeighboursOfMember(rows: int, columns: int, row: int, column: int, j: int)
    requires 0 <= rows && 0 <= columns
    ensures j in NeighboursOf(rows, columns, row, column) <==>
            0 <= j < rows * columns &&
            var dr, dc := RowOf(columns, j) - row, ColumnOf(columns, j) - column;
            -1 <= dr <= 1 && -1 <= dc <= 1 && (dr, dc) != (0, 0)
  {
    LocatedMember(rows, columns, row - 1, column, j);
    LocatedMember(rows, columns, row - 1, column - 1, j);
    LocatedMember(rows, columns, row - 1, column + 1, j);
    LocatedMember(rows, columns, row, column - 1, j);
    LocatedMember(rows, columns, row, column + 1, j);
    LocatedMember(rows, columns, row + 1, column, j);
    LocatedMember(rows, columns, row + 1, column - 1, j);
    LocatedMember(rows, columns, row + 1, column + 1, j);
  }

  /** The neighbours of a block are exactly the blocks adjacent to it: never the block itself. */
  lemma NeighboursSpec(rows: int, columns: int, i: int, j: int)
    requires 0 <= rows && 0 <= columns && 0 <= i < rows * columns
    ensures columns > 0
    ensures j in Neighbours(rows, columns, i) <==> Adjacent(rows, columns, i, j)
  {
    PositionOf(rows, columns, i);
    NeighboursOfMember(rows, columns, RowOf(columns, i), ColumnOf(columns, i), j);
    if 0 <= j < rows * columns {
      SamePosition(rows, columns, i, j);
    }
  }

  /** Adjacency is symmetric, so each block is a neighbour of its neighbours. */
  lemma NeighboursSymmetric(rows: int, columns: int, i: int, j: int)
    requires 0 <= rows && 0 <= columns && 0 <= i < rows * columns && 0 <= j < rows * columns
    ensures columns > 0
    ensures j in Neighbours(rows, columns, i) <==> i in Neighbours(rows, columns, j)
  {
    NeighboursSpec(rows, columns, i, j);
    NeighboursSpec(rows, columns, j, i);
  }

  /** Lookups at two different positions never contribute the same block. */
  lemma LookupsDisjoint(rows: int, columns: int, row1: int, column1: int, row2: int, column2: int)
    requires 0 <= rows && 0 <= columns && (row1, column1) != (row2, column2)
    ensures forall x :: x in Located(Locate(rows, columns, row1, column1)) ==>
                        x !in Located(Locate(rows, columns, row2, column2))
  {
    forall x | x in Located(Locate(rows, columns, row1, column1))
      ensures x !in Located(Locate(rows, columns, row2, column2))
    {
      LocatedMember(rows, columns, row1, column1, x);
      LocatedMember(rows, columns, row2, column2, x);
    }
  }

  /** A neighbour list never holds a block twice. */
  lemma NeighboursOfDistinct(rows: int, columns: int, row: int, column: int)
    requires 0 <= rows && 0 <= columns
    ensures Distinct(NeighboursOf(rows, columns, row, column))
  {
    LookupsDisjoint(rows, columns, row - 1, column, row - 1, column - 1);
    DistinctConcat(Located(Locate(rows, columns, row - 1, column)),
                   Located(Locate(rows, columns, row - 1, column - 1)));
    LookupsDisjoint(rows, columns, row - 1, column, row - 1, column + 1);
    LookupsDisjoint(rows, columns, row - 1, column - 1, row - 1, column + 1);
    DistinctConcat(Located(Locate(rows, columns, row - 1, column)) + Located(Locate(rows, columns, row - 1, column - 1)),
                   Located(Locate(rows, columns, row - 1, column + 1)));
    LookupsDisjoint(rows, columns, row - 1, column, row, column - 1);
    LookupsDisjoint(rows, columns, row - 1, column - 1, row, column - 1);
    LookupsDisjoint(rows, columns, row - 1, column + 1, row, column - 1);
    DistinctConcat(Located(Locate(rows, columns, row - 1, column)) + Located(Locate(rows, columns, row - 1, column - 1)) + Located(Locate(rows, columns, row - 1, column + 1)),
                   Located(Locate(rows, columns, row, column - 1)));
    LookupsDisjoint(rows, columns, row - 1, column, row, column + 1);
    LookupsDisjoint(rows, columns, row - 1, column - 1, row, column + 1);
    LookupsDisjoint(rows, columns, row - 1, column + 1, row, column + 1);
    LookupsDisjoint(rows, columns, row, column - 1, row, column + 1);
    DistinctConcat(Located(Locate(rows, columns, row - 1, column)) + Located(Locate(rows, columns, row - 1, column - 1)) + Located(Locate(rows, columns, row - 1, column + 1)) + Located(Locate(rows, columns, row, column - 1)),
                   Located(Locate(rows, columns, row, column + 1)));
    LookupsDisjoint(rows, columns, row - 1, column, row + 1, column);
    LookupsDisjoint(rows, columns, row - 1, column - 1, row + 1, column);
    LookupsDisjoint(rows, columns, row - 1, column + 1, row + 1, column);
    LookupsDisjoint(rows, columns, row, column - 1, row + 1, column);
    LookupsDisjoint(rows, columns, row, column + 1, row + 1, column);
    DistinctConcat(Located(Locate(rows, columns, row - 1, column)) + Located(Locate(rows, columns, row - 1, column - 1)) + Located(Locate(rows, columns, row - 1, column + 1)) + Located(Locate(rows, columns, row, column - 1)) + Located(Locate(rows, columns, row, column + 1)),
                   Located(Locate(rows, columns, row + 1, column)));
    LookupsDisjoint(rows, columns, row - 1, column, row + 1, column - 1);
    LookupsDisjoint(rows, columns, row - 1, column - 1, row + 1, column - 1);
    LookupsDisjoint(rows, columns, row - 1, column + 1, row + 1, column - 1);
    LookupsDisjoint(rows, columns, row, column - 1, row + 1, column - 1);
    LookupsDisjoint(rows, columns, row, column + 1, row + 1, column - 1);
    LookupsDisjoint(rows, columns, row + 1, column, row + 1, column - 1);
    DistinctConcat(Located(Locate(rows, columns, row - 1, column)) + Located(Locate(rows, columns, row - 1, column - 1)) + Located(Locate(rows, columns, row - 1, column + 1)) + Located(Locate(rows, columns, row, column - 1)) + Located(Locate(rows, columns, row, column + 1)) + Located(Locate(rows, columns, row + 1, column)),
                   Located(Locate(rows, columns, row + 1, column - 1)));
    LookupsDisjoint(rows, columns, row - 1, column, row + 1, column + 1);
    LookupsDisjoint(rows, columns, row - 1, column - 1, row + 1, column + 1);
    LookupsDisjoint(rows, columns, row - 1, column + 1, row + 1, column + 1);
    LookupsDisjoint(rows, columns, row, column - 1, row + 1, column + 1);
    LookupsDisjoint(rows, columns, row, column + 1, row + 1, column + 1);
    LookupsDisjoint(rows, columns, row + 1, column, row + 1, column + 1);
    LookupsDisjoint(rows, columns, row + 1, column - 1, row + 1, column + 1);
    DistinctConcat(Located(Locate(rows, columns, row - 1, column)) + Located(Locate(rows, columns, row - 1, column - 1)) + Located(Locate(rows, columns, row - 1, column + 1)) + Located(Locate(rows, columns, row, column - 1)) + Located(Locate(rows, columns, row, column + 1)) + Located(Locate(rows, columns, row + 1, column)) + Located(Locate(rows, columns, row + 1, column - 1)),
                   Located(Locate(rows, columns, row + 1, column + 1)));
  }

  /** A neighbour list holds at most eight blocks and none of them twice. */
  lemma NeighboursDistinct(rows: int, columns: int, i: int)
    requires 0 <= rows && 0 <= columns
    ensures Distinct(Neighbours(rows, columns, i)) && |Neighbours(rows, columns, i)| <= 8
  {
    NeighboursOfDistinct(rows, columns, RowOf(columns, i), ColumnOf(columns, i));
  }
}
