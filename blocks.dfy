/** The blocks of the current engine (src/Views/BlockView.xaml.cs) as records, and what bomb
    placement establishes about them. The mutating BlockView methods themselves live on the
    GameView class that owns the blocks (module Views). */
module Blocks {
  import opened Counting
  import opened Grid

  /** The kind of a block. The default value, which every block starts with, is None. */
  datatype BlockType = None | Number | Bomb

  /** A block: its fixed position, its kind and count, what the player has done to it, and
      whether the game still listens to its events. Its list of neighbours is kept beside it, as
      the list at the same index of a sequence of neighbour lists (indices into the board). */
  datatype Block = Block(
    row: int,
    column: int,
    blockType: BlockType,
    isUncovered: bool,
    isFlagged: bool,
    number: nat,
    subscribed: bool)

  /** A block as the GameView creates it and subscribes to it. */
  function NewBlock(row: int, column: int): Block {
    Block(row, column, None, false, false, 0, true)
  }

  predicate IsBomb(b: Block) {
    b.blockType == Bomb
  }

  /** A block that still counts towards UncoveredBlocksRemaining. */
  predicate IsCoveredSafe(b: Block) {
    !b.isUncovered && b.blockType != Bomb
  }

  predicate IsFlaggedBlock(b: Block) {
    b.isFlagged
  }

  /** Which blocks of the board are bombs. */
  function BombMap(s: seq<Block>): (m: seq<bool>)
    ensures |m| == |s| && forall k :: 0 <= k < |s| ==> m[k] == IsBomb(s[k])
  {
    seq(|s|, k requires 0 <= k < |s| => IsBomb(s[k]))
  }

  /** What UpdateNeighbours does to one neighbour: a bomb is skipped, a number is incremented,
      a None block is made a number (its count reset to 0) and then incremented. */
  function Bumped(b: Block): (r: Block)
    ensures r.row == b.row && r.column == b.column && r.isUncovered == b.isUncovered &&
            r.isFlagged == b.isFlagged && r.subscribed == b.subscribed
    ensures IsBomb(b) ==> r == b
    ensures !IsBomb(b) ==> r.blockType == Number && r.number == if b.blockType == Number then b.number + 1 else 1
  {
    match b.blockType
    case Bomb => b
    case Number => b.(number := b.number + 1)
    case None => b.(blockType := Number, number := 1)
  }

  /** UpdateNeighbours on the board: every block listed in `idx` is bumped. */
  function BumpedAt(s: seq<Block>, idx: seq<nat>): (r: seq<Block>)
    ensures |r| == |s|
    ensures forall j :: 0 <= j < |s| ==> r[j] == if j in idx then Bumped(s[j]) else s[j]
  {
    seq(|s|, j requires 0 <= j < |s| => if j in idx then Bumped(s[j]) else s[j])
  }

  /** Every block's count is right: a bomb holds 0, any other block holds the number of bombs
      among its neighbours, and it is of type None exactly when that number is 0. */
  ghost predicate Numbered(s: seq<Block>, links: seq<seq<nat>>) {
    |links| == |s| &&
    forall j :: 0 <= j < |s| ==>
      if s[j].blockType == Bomb then s[j].number == 0
      else s[j].number == Marked(BombMap(s), links[j]) && (s[j].blockType == None <==> s[j].number == 0)
  }

  /** The board after bomb placement: `bombs` bombs, and every count right. */
  ghost predicate Settled(bombs: int, s: seq<Block>, links: seq<seq<nat>>) {
    CountIf(s, IsBomb) == bombs && Numbered(s, links)
  }

  /** Every block sits at its own index, and the neighbour list of that index lists the blocks
      around it. */
  ghost predicate Wired(rows: int, columns: int, s: seq<Block>, links: seq<seq<nat>>) {
    0 <= rows && 0 <= columns && |s| == rows * columns && |links| == |s| &&
    forall j :: 0 <= j < |s| ==>
      s[j].row == RowOf(columns, j) && s[j].column == ColumnOf(columns, j) &&
      links[j] == Neighbours(rows, columns, j)
  }

  /** The neighbour lists form a symmetric relation on the board, with no list repeating a block. */
  ghost predicate Symmetric(links: seq<seq<nat>>) {
    && (forall j :: 0 <= j < |links| ==> Distinct(links[j]))
    && (forall j, n :: 0 <= j < |links| && n in links[j] ==> n < |links|)
    && (forall i, j :: 0 <= i < |links| && 0 <= j < |links| ==> (j in links[i] <==> i in links[j]))
  }

  /** The lists SetNeighbours builds have these properties. */
  lemma WiredSymmetric(rows: int, columns: int, s: seq<Block>, links: seq<seq<nat>>)
    requires Wired(rows, columns, s, links)
    ensures Symmetric(links)
  {
    forall j | 0 <= j < |links| ensures Distinct(links[j]) {
      NeighboursDistinct(rows, columns, j);
    }
    forall i, j | 0 <= i < |links| && 0 <= j < |links|
      ensures j in links[i] <==> i in links[j]
    {
      NeighboursSymmetric(rows, columns, i, j);
    }
  }

  /** Before any bomb is placed, with every block of type None and count 0, every count is right. */
  lemma BlankNumbered(s: seq<Block>, links: seq<seq<nat>>)
    requires |links| == |s|
    requires forall j :: 0 <= j < |s| ==> s[j].blockType == None && s[j].number == 0
    ensures Numbered(s, links) && CountIf(s, IsBomb) == 0
  {
    forall j | 0 <= j < |s|
      ensures Marked(BombMap(s), links[j]) == 0
    {
      MarkedNone(BombMap(s), links[j]);
    }
    CountIfNone(s, IsBomb);
  }

  lemma {:induction false} MarkedNone(m: seq<bool>, idx: seq<nat>)
    requires forall k :: 0 <= k < |m| ==> !m[k]
    ensures Marked(m, idx) == 0
  {
    if idx != [] {
      MarkedNone(m, idx[1..]);
    }
  }

  /** Two blocks at the same position in the same state of play, whatever their kinds and
      counts. */
  predicate SamePlay(a: Block, b: Block) {
    a.row == b.row && a.column == b.column && a.isUncovered == b.isUncovered &&
    a.isFlagged == b.isFlagged && a.subscribed == b.subscribed
  }

  /** Placing a bomb leaves every block where it was and as the player left it. */
  lemma PlacementKeepsPlay(s0: seq<Block>, links: seq<seq<nat>>, b: nat, s1: seq<Block>)
    requires b < |s0| && b < |links|
    requires s1 == BumpedAt(s0[b := s0[b].(blockType := Bomb, number := 0)], links[b])
    ensures |s1| == |s0| && forall j :: 0 <= j < |s1| ==> SamePlay(s0[j], s1[j])
  {
  }

  /** Placing one bomb at `b` (SetAsBomb followed by UpdateNeighbours) keeps every count right.
      This rests on the neighbour relation being symmetric and its lists free of repeats. */
  lemma PlacementStep(s0: seq<Block>, links: seq<seq<nat>>, b: nat, s1: seq<Block>)
    requires Symmetric(links) && b < |s0| && s0[b].blockType != Bomb && Numbered(s0, links)
    requires s1 == BumpedAt(s0[b := s0[b].(blockType := Bomb, number := 0)], links[b])
    ensures Numbered(s1, links) && BombMap(s1) == BombMap(s0)[b := true]
    ensures CountIf(s1, IsBomb) == CountIf(s0, IsBomb) + 1
  {
    var m0, m1 := BombMap(s0), BombMap(s1);
    assert m1 == m0[b := true];
    forall j | 0 <= j < |s1| && s1[j].blockType != Bomb
      ensures s1[j].number == Marked(m1, links[j])
      ensures s1[j].blockType == None <==> s1[j].number == 0
    {
      MarkedSet(m0, b, links[j]);
    }
    var s' := s0[b := s1[b]];
    CountIfUpdate(s0, b, s1[b], IsBomb);
    forall j | 0 <= j < |s1| ensures IsBomb(s1[j]) <==> IsBomb(s'[j]) {
    }
    CountIfPointwise(s1, s', IsBomb);
  }
}
