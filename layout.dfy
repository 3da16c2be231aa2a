/** The board a GameView lays out before play: bomb placement as the generation loop carries it
    out, the board it arrives at, and what a laid board guarantees. Both engines build their
    board this way. */
module Layout {
  import opened Config
  import opened Counting
  import opened Grid
  import opened Placement
  import opened Blocks

  /** What a block keeps from bomb placement on: position and kind and count never change
      during play. */
  predicate SameLayout(a: Block, b: Block) {
    a.row == b.row && a.column == b.column && a.blockType == b.blockType && a.number == b.number
  }

  /** What GenerateBombs has established after consuming the first `k` draws and placing
      `generated` bombs: the bombs sit exactly at the positions drawn so far, every count is right,
      no block has been touched by the player, and the rest of the draws will complete the
      choice Chosen(draws, bombs). */
  ghost predicate PlacedSoFar(config: GameConfig, s: seq<Block>, links: seq<seq<nat>>, draws: seq<Draw>, k: int, generated: int) {
    && 0 <= k <= |draws| && generated == |Drawn(draws[..k])| <= config.bombs
    && ChosenFrom(Drawn(draws[..k]), draws[k..], config.bombs) == Chosen(draws, config.bombs)
    && Numbered(s, links) && CountIf(s, IsBomb) == generated
    && (forall j :: 0 <= j < |s| ==>
          (IsBomb(s[j]) <==> (RowOf(config.columns, j), ColumnOf(config.columns, j)) in Drawn(draws[..k])))
    && (forall j :: 0 <= j < |s| ==>
          s[j].row == RowOf(config.columns, j) && s[j].column == ColumnOf(config.columns, j) &&
          !s[j].isUncovered && !s[j].isFlagged && s[j].subscribed)
  }

  lemma PlacedAtStart(config: GameConfig, s: seq<Block>, links: seq<seq<nat>>, draws: seq<Draw>)
    requires 0 <= config.bombs && |links| == |s|
    requires forall j :: 0 <= j < |s| ==> s[j] == NewBlock(RowOf(config.columns, j), ColumnOf(config.columns, j))
    ensures PlacedSoFar(config, s, links, draws, 0, 0)
  {
    BlankNumbered(s, links);
    assert draws[..0] == [] && draws[0..] == draws;
  }

  /** While bombs are missing, draws remain: sufficient draws hold enough distinct positions. */
  lemma DrawsLeft(config: GameConfig, s: seq<Block>, links: seq<seq<nat>>, draws: seq<Draw>, k: int, generated: int)
    requires Suffice(config.rows, config.columns, config.bombs, draws)
    requires PlacedSoFar(config, s, links, draws, k, generated) && generated != config.bombs
    ensures k < |draws|
  {
    assert draws[..|draws|] == draws;
  }

  /** Once `bombs` bombs are placed, they sit exactly at the chosen positions. */
  lemma PlacedAtEnd(config: GameConfig, s: seq<Block>, links: seq<seq<nat>>, draws: seq<Draw>, k: int)
    requires PlacedSoFar(config, s, links, draws, k, config.bombs)
    ensures Settled(config.bombs, s, links)
    ensures forall j :: 0 <= j < |s| ==>
      (IsBomb(s[j]) <==> (RowOf(config.columns, j), ColumnOf(config.columns, j)) in Chosen(draws, config.bombs))
    ensures forall j :: 0 <= j < |s| ==>
      s[j].row == RowOf(config.columns, j) && s[j].column == ColumnOf(config.columns, j) &&
      !s[j].isUncovered && !s[j].isFlagged && s[j].subscribed
  {
    ChosenFromDone(Drawn(draws[..k]), draws[k..], config.bombs);
  }

  /** Whether the block at index `j` is one of the bombs the draws choose. */
  ghost function BombAt(config: GameConfig, draws: seq<Draw>, j: int): bool {
    (RowOf(config.columns, j), ColumnOf(config.columns, j)) in Chosen(draws, config.bombs)
  }

  /** The board a new game starts with: bombs at the chosen positions, every other block a
      number exactly when some neighbour is a bomb, holding how many are; nothing uncovered
      or flagged, and every block subscribed. */
  ghost function InitialBoard(config: GameConfig, draws: seq<Draw>): (s: seq<Block>)
    requires 0 <= config.rows && 0 <= config.columns
    ensures |s| == config.rows * config.columns
  {
    var n := config.rows * config.columns;
    var bombs := seq(n, k => BombAt(config, draws, k));
    seq(n, j requires 0 <= j < n =>
      var around := Marked(bombs, Neighbours(config.rows, config.columns, j));
      Block(RowOf(config.columns, j), ColumnOf(config.columns, j),
            if bombs[j] then Bomb else if around == 0 then None else Number,
            false, false, if bombs[j] then 0 else around, true))
  }

  /** The board bomb generation leaves is the initial board of the draws. */
  lemma GeneratedIsInitial(config: GameConfig, draws: seq<Draw>, s: seq<Block>, links: seq<seq<nat>>)
    requires Wired(config.rows, config.columns, s, links) && Numbered(s, links)
    requires forall j :: 0 <= j < |s| ==> (IsBomb(s[j]) <==> BombAt(config, draws, j))
    requires forall j :: 0 <= j < |s| ==> !s[j].isUncovered && !s[j].isFlagged && s[j].subscribed
    ensures s == InitialBoard(config, draws)
  {
    var n := config.rows * config.columns;
    var bombs := seq(n, k => BombAt(config, draws, k));
    assert BombMap(s) == bombs;
    var t := InitialBoard(config, draws);
    forall j | 0 <= j < |s| ensures s[j] == t[j] {
      assert links[j] == Neighbours(config.rows, config.columns, j);
    }
  }

  /** On a board where nothing is uncovered or flagged, every block but the bombs is left to
      uncover, and no flag is placed. */
  lemma Started(rows: int, columns: int, bombs: int, s: seq<Block>)
    requires |s| == rows * columns && CountIf(s, IsBomb) == bombs
    requires forall j :: 0 <= j < |s| ==> !s[j].isUncovered && !s[j].isFlagged
    ensures CountIf(s, IsCoveredSafe) == rows * columns - bombs
    ensures CountIf(s, IsFlaggedBlock) == 0
  {
    CountIfSplit(s, (b: Block) => true, IsBomb, IsCoveredSafe);
    CountIfAll(s, (b: Block) => true);
    CountIfNone(s, IsFlaggedBlock);
  }

  /** The neighbour list of every block of a board, at the block's index. */
  ghost function NeighbourLists(rows: int, columns: int): (links: seq<seq<nat>>)
    requires 0 <= rows && 0 <= columns
    ensures |links| == rows * columns
    ensures forall j :: 0 <= j < |links| ==> links[j] == Neighbours(rows, columns, j)
  {
    seq(rows * columns, j => Neighbours(rows, columns, j))
  }

  /** Every neighbour list names blocks of the board. */
  ghost predicate Bounded(links: seq<seq<nat>>) {
    forall j, n :: 0 <= j < |links| && n in links[j] ==> n < |links|
  }

  /** A layout as bomb placement leaves it: one block per cell wired to its neighbours, the
      neighbour relation symmetric, `bombs` bombs and every count right. */
  ghost predicate Laid(config: GameConfig, layout: seq<Block>, links: seq<seq<nat>>) {
    && Wired(config.rows, config.columns, layout, links) && Symmetric(links)
    && Settled(config.bombs, layout, links)
  }

  /** The board a new game starts from: no block is uncovered or flagged, every block is
      subscribed, and every neighbour list names blocks of the board. */
  lemma FreshBoard(config: GameConfig, draws: seq<Draw>)
    requires 0 <= config.rows && 0 <= config.columns
    ensures forall j :: 0 <= j < |InitialBoard(config, draws)| ==>
      var b := InitialBoard(config, draws)[j]; !b.isUncovered && !b.isFlagged && b.subscribed
    ensures Bounded(NeighbourLists(config.rows, config.columns))
  {
    var links := NeighbourLists(config.rows, config.columns);
    forall j, n | 0 <= j < |links| && n in links[j] ensures n < |links| {
      assert links[j] == Neighbours(config.rows, config.columns, j);
    }
  }
}
