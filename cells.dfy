/** src/Views/CellView.xaml.cs: a single cell of the board with its own mutators. Its state is
    exposed as a value, Cell, so that what each mutator does can be stated once as a function and
    reasoned about with lemmas. */
module Cells {

  /** The kind of a cell. Its declaration (src/Enums) is not part of this model; it is taken to
      have the same three values as the block kinds, the first of which is the default. */
  datatype CellType = None | Number | Bomb

  /** Everything about a cell that can change. */
  datatype Cell = Cell(cellType: CellType, isUncovered: bool, isFlagged: bool, bombsNearby: int)

  /** SetAsBomb: a bomb with no count. */
  function AsBomb(c: Cell): (r: Cell)
    ensures r.cellType == Bomb && r.bombsNearby == 0
    ensures r.isUncovered == c.isUncovered && r.isFlagged == c.isFlagged
  {
    c.(cellType := Bomb, bombsNearby := 0)
  }

  /** SetAsNumber: a number with count 0, to be incremented. */
  function AsNumber(c: Cell): (r: Cell)
    ensures r.cellType == Number && r.bombsNearby == 0
    ensures r.isUncovered == c.isUncovered && r.isFlagged == c.isFlagged
  {
    c.(cellType := Number, bombsNearby := 0)
  }

  /** Uncover: the cell is uncovered; nothing else changes. */
  function Uncovered(c: Cell): (r: Cell)
    ensures r.isUncovered
    ensures r.cellType == c.cellType && r.isFlagged == c.isFlagged && r.bombsNearby == c.bombsNearby
  {
    if c.isUncovered then c else c.(isUncovered := true)
  }

  /** ToggleFlag: the flag flips, whether or not the cell is uncovered. */
  function Toggled(c: Cell): (r: Cell)
    ensures r.isFlagged != c.isFlagged
    ensures r.cellType == c.cellType && r.isUncovered == c.isUncovered && r.bombsNearby == c.bombsNearby
  {
    c.(isFlagged := !c.isFlagged)
  }

  /** Increment: one more bomb nearby. */
  function Incremented(c: Cell): (r: Cell)
    ensures r.bombsNearby == c.bombsNearby + 1
    ensures r.cellType == c.cellType && r.isUncovered == c.isUncovered && r.isFlagged == c.isFlagged
  {
    c.(bombsNearby := c.bombsNearby + 1)
  }

  /** Uncovering a second time changes nothing. */
  lemma UncoverIdempotent(c: Cell)
    ensures Uncovered(Uncovered(c)) == Uncovered(c)
    ensures c.isUncovered ==> Uncovered(c) == c
  {
  }

  /** Toggling the flag twice is the identity. */
  lemma ToggleInvolution(c: Cell)
    ensures Toggled(Toggled(c)) == c
  {
  }

  /** A number cell counted `k` times holds `k`. */
  function IncrementedTimes(c: Cell, k: nat): Cell
    decreases k
  {
    if k == 0 then c else Incremented(IncrementedTimes(c, k - 1))
  }

  lemma {:induction false} NumberCounts(c: Cell, k: nat)
    ensures IncrementedTimes(AsNumber(c), k) == c.(cellType := Number, bombsNearby := k)
    decreases k
  {
    if k > 0 {
      NumberCounts(c, k - 1);
    }
  }

  class CellView {
    const row: int
    const column: int
    var cellType: CellType
    var isUncovered: bool
    var isFlagged: bool
    var bombsNearby: int

    function State(): Cell
      reads this
    {
      Cell(cellType, isUncovered, isFlagged, bombsNearby)
    }

    /** A cell at (row, column); its other properties start at their defaults. */
    constructor (row: int, column: int)
      ensures this.row == row && this.column == column
      ensures State() == Cell(None, false, false, 0)
    {
      this.row := row;
      this.column := column;
      cellType := None;
      isUncovered := false;
      isFlagged := false;
      bombsNearby := 0;
    }

    method SetAsBomb()
      modifies this
      ensures State() == AsBomb(old(State()))
    {
      cellType := Bomb;
      bombsNearby := 0;
    }

    method SetAsNumber()
      modifies this
      ensures State() == AsNumber(old(State()))
    {
      cellType := Number;
      bombsNearby := 0;
    }

    method Uncover()
      modifies this
      ensures State() == Uncovered(old(State()))
    {
      if isUncovered {
        return;
      }
      isUncovered := true;
    }

    method ToggleFlag()
      modifies this
      ensures State() == Toggled(old(State()))
    {
      isFlagged := !isFlagged;
    }

    method Increment()
      modifies this
      ensures State() == Incremented(old(State()))
    {
      bombsNearby := bombsNearby + 1;
    }
  }
}
