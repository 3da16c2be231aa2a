/** The older engine: src/GameView.xaml.cs with the BlockView methods of src/BlockView.xaml.cs it
    calls. Its BlockView holds a block's kind as two flags, IsBomb and IsNumber, which SetAsBomb
    and SetAsNumber always assign together; they are never both set, so the kind is kept here as
    the BlockType of the shared Block record (Bomb for IsBomb, Number for IsNumber, None for
    neither). The old blocks stay subscribed to their GameView for good and never unsubscribe.
    As in the current engine, the GameView owns its blocks in a flat row-major array and each
    BlockView method becomes a GameView method taking the index of its block. */
module Legacy {
  import Wrappers
  import opened Config
  import opened Counting
  import opened Grid
  import opened Placement
  import opened Blocks
  import opened Events
  import opened Layout
  import opened Spread
  import opened Decimal

  /** The game-level state of an old GameView, apart from its blocks: GameStatus (0 while the
      game is in progress, 1 once lost, 2 once won), the count of blocks not yet exposed, bombs
      included, whether mouse input reaches the blocks, and the message boxes shown so far. */
  datatype Session = Session(
    status: int,
    unexposedBlocksRemaining: int,
    inputEnabled: bool,
    messages: seq<Message>)

  /** A block that still counts towards _unexposedBlocksRemaining. */
  predicate IsCovered(b: Block) {
    !b.isUncovered
  }

  predicate IsCoveredBomb(b: Block) {
    !b.isUncovered && IsBomb(b)
  }

  /** OnExposed: one block fewer is unexposed, and the game is won when what remains
      unexposed is exactly the bombs while the game is in progress. */
  function AfterExposed(c: Session, bombs: int): Session {
    var counted := c.(unexposedBlocksRemaining := c.unexposedBlocksRemaining - 1);
    if counted.unexposedBlocksRemaining - bombs == 0 && counted.status == 0
    then counted.(status := 2, messages := counted.messages + [Winner])
    else counted
  }

  /** The session after `k` exposures heard one after the other. */
  function AfterExposes(c: Session, k: nat, bombs: int): Session
    decreases k
  {
    if k == 0 then c else AfterExposes(AfterExposed(c, bombs), k - 1, bombs)
  }

  /** A left click on a covered bomb, as the game hears it: first the bomb's own exposure, which
      may pass the win test, then OnBombClicked, which sets the status to lost, switches input
      off, exposes the other bombs and shows the loser's message. */
  function Detonation(c: Session, bombs: int): Session {
    var hit := AfterExposed(c, bombs);
    hit.(status := 1, inputEnabled := false,
         unexposedBlocksRemaining := c.unexposedBlocksRemaining - bombs,
         messages := hit.messages + [Loser])
  }

  /** What OnBombClicked does to one block: a bomb is exposed. */
  function Detonated(b: Block): Block {
    if IsBomb(b) then b.(isUncovered := true) else b
  }

  /** The Text of the blocks: a number shows its count in decimal, and a block of type None
      shows nothing (a null string). A bomb keeps whatever text it had before it was made one. */
  ghost predicate Labelled(s: seq<Block>, texts: seq<Wrappers.Option<string>>) {
    |texts| == |s| &&
    forall j :: 0 <= j < |s| && !IsBomb(s[j]) ==>
      texts[j] == if s[j].blockType == Number then Wrappers.Some(Digits(s[j].number)) else Wrappers.None
  }

  /** A game in play on `layout`: the blocks keep their layout, the counter counts the blocks not
      yet exposed, input is on until the game is lost, the bombs are exposed exactly when it is
      lost, a won game has no safe block covered, a game still in progress with no safe block
      covered has exposed nothing, and the messages shown fit the status. A lost game may have
      shown the winner's message first. */
  ghost predicate Playing(config: GameConfig, layout: seq<Block>, s: seq<Block>, c: Session) {
    && |s| == |layout|
    && (forall j :: 0 <= j < |s| ==> SameLayout(layout[j], s[j]))
    && CountIf(s, IsBomb) == config.bombs
    && c.unexposedBlocksRemaining == CountIf(s, IsCovered)
    && 0 <= c.status <= 2
    && c.inputEnabled == (c.status != 1)
    && (forall j :: 0 <= j < |s| && IsBomb(s[j]) ==> s[j].isUncovered == (c.status == 1))
    && (c.status == 2 ==> CountIf(s, IsCoveredSafe) == 0)
    && (c.status == 0 && CountIf(s, IsCoveredSafe) == 0 ==> forall j :: 0 <= j < |s| ==> !s[j].isUncovered)
    && (c.status == 0 ==> c.messages == [])
    && (c.status == 2 ==> c.messages == [Winner])
    && (c.status == 1 ==> c.messages == [Loser] || c.messages == [Winner, Loser])
  }

  /** A freshly laid board starts a game: in progress, every block unexposed, input on and no
      message shown. */
  lemma NewGame(config: GameConfig, layout: seq<Block>, links: seq<seq<nat>>)
    requires Laid(config, layout, links)
    requires forall j :: 0 <= j < |layout| ==> !layout[j].isUncovered && !layout[j].isFlagged
    ensures Playing(config, layout, layout, Session(0, config.rows * config.columns, true, []))
  {
    CountIfAll(layout, IsCovered);
  }

  /** Until the game is lost, no bomb is exposed, so the counter less the bombs is the number of
      safe blocks still covered. */
  lemma UnexposedSafe(config: GameConfig, layout: seq<Block>, s: seq<Block>, c: Session)
    requires Playing(config, layout, s, c) && c.status != 1
    ensures c.unexposedBlocksRemaining - config.bombs == CountIf(s, IsCoveredSafe)
  {
    CountIfSplit(s, IsCovered, IsCoveredSafe, IsCoveredBomb);
    CountIfSame(s, IsCoveredBomb, IsBomb);
  }

  /** A won game has every block that is not a bomb exposed, and only the bombs left unexposed. */
  lemma WonCleared(config: GameConfig, layout: seq<Block>, s: seq<Block>, c: Session)
    requires Playing(config, layout, s, c) && c.status == 2
    ensures forall j :: 0 <= j < |s| && !IsBomb(s[j]) ==> s[j].isUncovered
    ensures c.unexposedBlocksRemaining == config.bombs
  {
    CountIfNone(s, IsCoveredSafe);
    UnexposedSafe(config, layout, s, c);
  }

  /** Playing, exposing a covered block that is not a bomb or flagged is heard by the game: the
      game was in progress, the invariant holds after, the game is won exactly when it was the
      last safe block, and a win leaves input on. */
  lemma ExposePlaying(config: GameConfig, layout: seq<Block>, s: seq<Block>, c: Session, i: nat)
    requires Playing(config, layout, s, c) && c.status != 1
    requires i < |s| && IsCoveredSafe(s[i]) && !s[i].isFlagged
    ensures c.status == 0
    ensures Playing(config, layout, s[i := s[i].(isUncovered := true)], AfterExposed(c, config.bombs))
    ensures AfterExposed(c, config.bombs).status == if CountIf(s, IsCoveredSafe) == 1 then 2 else 0
    ensures AfterExposed(c, config.bombs).inputEnabled
  {
    var x := s[i].(isUncovered := true);
    UnexposedSafe(config, layout, s, c);
    CountIfUpdate(s, i, x, IsBomb);
    CountIfUpdate(s, i, x, IsCovered);
    CountIfUpdate(s, i, x, IsCoveredSafe);
  }

  /** Playing, flagging or unflagging a covered block changes nothing the game counts. */
  lemma FlagPlaying(config: GameConfig, layout: seq<Block>, s: seq<Block>, c: Session, i: nat)
    requires Playing(config, layout, s, c)
    requires i < |s| && !s[i].isUncovered
    ensures Playing(config, layout, s[i := s[i].(isFlagged := !s[i].isFlagged)], c)
  {
    var x := s[i].(isFlagged := !s[i].isFlagged);
    CountIfUpdate(s, i, x, IsBomb);
    CountIfUpdate(s, i, x, IsCovered);
    CountIfUpdate(s, i, x, IsCoveredSafe);
  }

  /** Playing, a bomb click exposes every bomb; the counter drops by the number of bombs and
      the game is lost. */
  lemma DetonatePlaying(config: GameConfig, layout: seq<Block>, s: seq<Block>, s': seq<Block>, c: Session)
    requires Playing(config, layout, s, c) && c.inputEnabled
    requires |s'| == |s| && forall j :: 0 <= j < |s| ==> s'[j] == Detonated(s[j])
    ensures CountIf(s', IsCovered) == c.unexposedBlocksRemaining - config.bombs
    ensures Playing(config, layout, s', Detonation(c, config.bombs))
  {
    UnexposedSafe(config, layout, s, c);
    CountIfSplit(s', IsCovered, IsCoveredSafe, IsCoveredBomb);
    CountIfNone(s', IsCoveredBomb);
    CountIfPointwise(s, s', IsCoveredSafe);
    CountIfPointwise(s, s', IsBomb);
  }

  /** The old engine's double report: a bomb clicked while exactly one safe block is still
      covered passes the win test through the bomb's own exposure, so the winner's message is
      shown before the loser's; and since a win leaves input on, a bomb clicked after a win
      does the same. Any other bomb click shows the loser's message alone. */
  lemma WinnerThenLoser(config: GameConfig, layout: seq<Block>, s: seq<Block>, c: Session)
    requires Playing(config, layout, s, c) && c.inputEnabled
    ensures Detonation(c, config.bombs).status == 1
    ensures Detonation(c, config.bombs).messages ==
      if c.status == 2 || CountIf(s, IsCoveredSafe) == 1 then [Winner, Loser] else [Loser]
  {
    UnexposedSafe(config, layout, s, c);
  }

  /** From a game in progress, `k` exposures of safe blocks, no more than are covered, count the
      counter down by `k`; the game is won, with the winner's message shown, exactly when only
      the bombs are left. Input stays as it was. */
  lemma {:induction false} ExposesInPlay(c: Session, k: nat, bombs: int)
    requires c.status == 0 && 0 < k <= c.unexposedBlocksRemaining - bombs
    ensures AfterExposes(c, k, bombs).unexposedBlocksRemaining == c.unexposedBlocksRemaining - k
    ensures AfterExposes(c, k, bombs).status == if c.unexposedBlocksRemaining - k == bombs then 2 else 0
    ensures AfterExposes(c, k, bombs).messages ==
      c.messages + if c.unexposedBlocksRemaining - k == bombs then [Winner] else []
    ensures AfterExposes(c, k, bombs).inputEnabled == c.inputEnabled
    decreases k
  {
    if k > 1 {
      ExposesInPlay(AfterExposed(c, bombs), k - 1, bombs);
    }
  }

  /** A spread that exposed `k` safe blocks of a game in progress, leaving the counter `k` lower
      and the status won exactly when only the bombs are left, made exactly the session changes
      of `k` exposures. */
  lemma SpreadSessions(c0: Session, c: Session, k: nat, bombs: int)
    requires c0.messages == (if c0.status == 2 then [Winner] else [])
    requires c.messages == (if c.status == 2 then [Winner] else [])
    requires c.inputEnabled == c0.inputEnabled
    requires c.unexposedBlocksRemaining == c0.unexposedBlocksRemaining - k
    requires k > 0 ==> c0.status == 0 && c.unexposedBlocksRemaining >= bombs
    requires c.status == if k == 0 then c0.status else if c.unexposedBlocksRemaining == bombs then 2 else 0
    ensures c == AfterExposes(c0, k, bombs)
  {
    if k > 0 {
      ExposesInPlay(c0, k, bombs);
    }
  }

  /** UpdateNeighbours on the texts: every listed block that is not a bomb shows its bumped count. */
  function Relabelled(t: seq<Wrappers.Option<string>>, s: seq<Block>, idx: seq<nat>): (r: seq<Wrappers.Option<string>>)
    requires |t| == |s|
    ensures |r| == |t|
    ensures forall j :: 0 <= j < |t| ==>
      r[j] == if j in idx && !IsBomb(s[j]) then Wrappers.Some(Digits(Bumped(s[j]).number)) else t[j]
  {
    seq(|t|, j requires 0 <= j < |t| =>
      if j in idx && !IsBomb(s[j]) then Wrappers.Some(Digits(Bumped(s[j]).number)) else t[j])
  }

  /** Placing one bomb at `b` keeps every text right: each neighbour that is not a bomb has
      become a number showing its new count, and nothing else has changed text. */
  lemma PlacementLabels(s0: seq<Block>, t0: seq<Wrappers.Option<string>>, links: seq<seq<nat>>, b: nat,
                        s1: seq<Block>, t1: seq<Wrappers.Option<string>>)
    requires b < |s0| && b < |links| && Labelled(s0, t0)
    requires s1 == BumpedAt(s0[b := s0[b].(blockType := Bomb, number := 0)], links[b])
    requires t1 == Relabelled(t0, s0[b := s0[b].(blockType := Bomb, number := 0)], links[b])
    ensures Labelled(s1, t1)
  {
  }

  /** What GenerateBombs has established, together with the texts the counts have written. */
  ghost predicate Drawing(config: GameConfig, s: seq<Block>, texts: seq<Wrappers.Option<string>>,
                          links: seq<seq<nat>>, draws: seq<Draw>, k: int, generated: int) {
    PlacedSoFar(config, s, links, draws, k, generated) && Labelled(s, texts)
  }

  class GameView {
    const config: GameConfig
    const blocks: array<Block>
    /** The neighbour list of each block, at the block's index. */
    const neighbours: array<seq<nat>>
    /** The Text property of each block, at the block's index; None is a null string. */
    const texts: array<Wrappers.Option<string>>
    /** GameStatus: 0 in progress, 1 lost, 2 won. */
    var status: int
    var unexposedBlocksRemaining: int
    /** IsHitTestVisible: whether mouse input reaches the blocks. */
    var inputEnabled: bool
    /** The message boxes shown so far. */
    var messages: seq<Message>
    /** The board as bomb placement left it. */
    ghost const layout: seq<Block>
    /** The neighbour lists SetNeighbours builds. */
    ghost const links: seq<seq<nat>>

    ghost function Current(): Session
      reads this
    {
      Session(status, unexposedBlocksRemaining, inputEnabled, messages)
    }

    /** The board has one block per cell, at its own index, wired to its neighbours. */
    ghost predicate Board()
      reads this, blocks, neighbours
    {
      Wired(config.rows, config.columns, blocks[..], neighbours[..])
    }

    /** Creates the board of a new game from the draws of its random source. Every block starts
        unexposed, bombs included. */
    constructor (config: GameConfig, draws: seq<Draw>)
      requires 0 <= config.rows && 0 <= config.columns
      requires Suffice(config.rows, config.columns, config.bombs, draws)
      ensures this.config == config && Consistent() && Laid(config, layout, links)
      ensures blocks[..] == layout == InitialBoard(config, draws)
      ensures links == NeighbourLists(config.rows, config.columns)
      ensures Labelled(layout, texts[..])
      ensures Current() == Session(0, config.rows * config.columns, true, [])
    {
      this.config := config;
      blocks := new Block[config.rows * config.columns];
      neighbours := new seq<nat>[config.rows * config.columns](_ => []);
      texts := new Wrappers.Option<string>[config.rows * config.columns](_ => Wrappers.None);
      layout := InitialBoard(config, draws);
      links := NeighbourLists(config.rows, config.columns);
      unexposedBlocksRemaining := config.rows * config.columns;
      status := 0;
      inputEnabled := true;
      messages := [];
      new;
      Initialize(draws);
      FreshBoard(config, draws);
      assert blocks[..] == layout && neighbours[..] == links;
      NewGame(config, layout, links);
      assert Current() == Session(0, config.rows * config.columns, true, []);
    }

    /** Builds the board: the blocks, their neighbour lists, then the bombs. */
    method Initialize(draws: seq<Draw>)
      requires 0 <= config.rows && 0 <= config.columns
      requires Suffice(config.rows, config.columns, config.bombs, draws)
      requires blocks.Length == neighbours.Length == texts.Length == config.rows * config.columns
      requires forall j :: 0 <= j < neighbours.Length ==> neighbours[j] == [] && texts[j] == Wrappers.None
      modifies blocks, neighbours, texts
      ensures blocks[..] == InitialBoard(config, draws)
      ensures neighbours[..] == NeighbourLists(config.rows, config.columns)
      ensures Laid(config, blocks[..], neighbours[..])
      ensures Labelled(blocks[..], texts[..])
    {
      AddBlocks();
      SetNeighbours();
      GenerateBombs(draws);
      GeneratedIsInitial(config, draws, blocks[..], neighbours[..]);
    }

    /** Creates one block per cell, each with the game listening to it. */
    method AddBlocks()
      requires 0 <= config.rows && 0 <= config.columns && blocks.Length == config.rows * config.columns
      modifies blocks
      ensures forall j :: 0 <= j < blocks.Length ==>
        blocks[j] == NewBlock(RowOf(config.columns, j), ColumnOf(config.columns, j))
    {
      var rows, columns := config.rows, config.columns;
      for i := 0 to rows
        invariant forall r, c :: 0 <= r < i && 0 <= c < columns ==>
          Index(columns, r, c) < blocks.Length && blocks[Index(columns, r, c)] == NewBlock(r, c)
      {
        for j := 0 to columns
          invariant forall r, c :: 0 <= r < i && 0 <= c < columns ==>
            Index(columns, r, c) < blocks.Length && blocks[Index(columns, r, c)] == NewBlock(r, c)
          invariant forall c :: 0 <= c < j ==>
            Index(columns, i, c) < blocks.Length && blocks[Index(columns, i, c)] == NewBlock(i, c)
        {
          IndexOf(rows, columns, i, j);
          forall r, c | 0 <= r < i && 0 <= c < columns ensures Index(columns, r, c) != Index(columns, i, j) {
            IndexOf(rows, columns, r, c);
          }
          forall c | 0 <= c < j ensures Index(columns, i, c) != Index(columns, i, j) {
            IndexOf(rows, columns, i, c);
          }
          blocks[Index(columns, i, j)] := NewBlock(i, j);
        }
      }
      forall k | 0 <= k < blocks.Length
        ensures blocks[k] == NewBlock(RowOf(columns, k), ColumnOf(columns, k))
      {
        PositionOf(rows, columns, k);
      }
    }

    /** The block at (row, column), or none (null) when that position is off the board. */
    method TryGetBlock(row: int, column: int) returns (b: Wrappers.Option<nat>)
      requires 0 <= config.rows && 0 <= config.columns
      ensures b == Locate(config.rows, config.columns, row, column)
    {
      if row < 0 || column < 0 || row >= config.rows || column >= config.columns {
        return Wrappers.None;
      }
      IndexOf(config.rows, config.columns, row, column);
      return Wrappers.Some(Index(config.columns, row, column));
    }

    /** Appends the looked-up block, unless it is null, to the neighbour list of block `i`. */
    method AddNeighbour(i: nat, neighbour: Wrappers.Option<nat>)
      requires i < neighbours.Length
      modifies neighbours
      ensures neighbours[i] == old(neighbours[i]) + Located(neighbour)
      ensures forall k :: 0 <= k < neighbours.Length && k != i ==> neighbours[k] == old(neighbours[k])
    {
      if neighbour.Some? {
        neighbours[i] := neighbours[i] + [neighbour.value];
      }
    }

    /** The eight lookups SetNeighbours makes for one block, in the source's order. */
    method LinkBlock(i: nat)
      requires 0 <= config.rows && 0 <= config.columns
      requires i < blocks.Length == neighbours.Length && neighbours[i] == []
      modifies neighbours
      ensures neighbours[i] == NeighboursOf(config.rows, config.columns, blocks[i].row, blocks[i].column)
      ensures forall k :: 0 <= k < neighbours.Length && k != i ==> neighbours[k] == old(neighbours[k])
    {
      var row, column := blocks[i].row, blocks[i].column;
      ghost var acc := [];
      var n;
      n := TryGetBlock(row - 1, column);
      AddNeighbour(i, n);
      acc := acc + Located(Locate(config.rows, config.columns, row - 1, column));
      assert neighbours[i] == acc;
      n := TryGetBlock(row - 1, column - 1);
      AddNeighbour(i, n);
      acc := acc + Located(Locate(config.rows, config.columns, row - 1, column - 1));
      assert neighbours[i] == acc;
      n := TryGetBlock(row - 1, column + 1);
      AddNeighbour(i, n);
      acc := acc + Located(Locate(config.rows, config.columns, row - 1, column + 1));
      assert neighbours[i] == acc;
      n := TryGetBlock(row, column - 1);
      AddNeighbour(i, n);
      acc := acc + Located(Locate(config.rows, config.columns, row, column - 1));
      assert neighbours[i] == acc;
      n := TryGetBlock(row, column + 1);
      AddNeighbour(i, n);
      acc := acc + Located(Locate(config.rows, config.columns, row, column + 1));
      assert neighbours[i] == acc;
      n := TryGetBlock(row + 1, column);
      AddNeighbour(i, n);
      acc := acc + Located(Locate(config.rows, config.columns, row + 1, column));
      assert neighbours[i] == acc;
      n := TryGetBlock(row + 1, column - 1);
      AddNeighbour(i, n);
      acc := acc + Located(Locate(config.rows, config.columns, row + 1, column - 1));
      assert neighbours[i] == acc;
      n := TryGetBlock(row + 1, column + 1);
      AddNeighbour(i, n);
      acc := acc + Located(Locate(config.rows, config.columns, row + 1, column + 1));
      assert neighbours[i] == acc;
      assert forall k :: 0 <= k < neighbours.Length && k != i ==> neighbours[k] == old(neighbours[k]);
      NeighboursInSteps(config.rows, config.columns, row, column);
    }

    /** Gives every block the list of the blocks around it. */
    method SetNeighbours()
      requires 0 <= config.rows && 0 <= config.columns
      requires blocks.Length == neighbours.Length == config.rows * config.columns
      requires forall j :: 0 <= j < blocks.Length ==>
        blocks[j] == NewBlock(RowOf(config.columns, j), ColumnOf(config.columns, j)) && neighbours[j] == []
      modifies neighbours
      ensures Board()
    {
      for i := 0 to blocks.Length
        invariant forall j :: 0 <= j < i ==> neighbours[j] == Neighbours(config.rows, config.columns, j)
        invariant forall j :: i <= j < blocks.Length ==> neighbours[j] == []
      {
        LinkBlock(i);
      }
    }

    /** IsBomb set, IsNumber cleared, Number 0; the Text is left as it was. */
    method SetAsBomb(i: nat)
      requires i < blocks.Length
      modifies blocks
      ensures blocks[..] == old(blocks[..])[i := old(blocks[i]).(blockType := Bomb, number := 0)]
    {
      blocks[i] := blocks[i].(blockType := Bomb, number := 0);
    }

    /** IsBomb cleared, IsNumber set, Number 0. */
    method SetAsNumber(i: nat)
      requires i < blocks.Length
      modifies blocks
      ensures blocks[..] == old(blocks[..])[i := old(blocks[i]).(blockType := Number, number := 0)]
    {
      blocks[i] := blocks[i].(blockType := Number, number := 0);
    }

    /** Number goes up by one, and the Text shows it in decimal. */
    method Increment(i: nat)
      requires i < blocks.Length == texts.Length
      modifies blocks, texts
      ensures blocks[..] == old(blocks[..])[i := old(blocks[i]).(number := old(blocks[i]).number + 1)]
      ensures texts[..] == old(texts[..])[i := Wrappers.Some(Digits(old(blocks[i]).number + 1))]
    {
      blocks[i] := blocks[i].(number := blocks[i].number + 1);
      texts[i] := Wrappers.Some(Digits(blocks[i].number));
    }

    /** Counts the bomb at `b` into each of its neighbours, leaving neighbouring bombs alone;
        every neighbour counted shows its new count. */
    method UpdateNeighbours(b: nat)
      requires b < neighbours.Length && blocks.Length == texts.Length
      requires Distinct(neighbours[b]) && forall n :: n in neighbours[b] ==> n < blocks.Length
      modifies blocks, texts
      ensures blocks[..] == BumpedAt(old(blocks[..]), neighbours[b])
      ensures texts[..] == Relabelled(old(texts[..]), old(blocks[..]), neighbours[b])
    {
      var list := neighbours[b];
      for t := 0 to |list|
        invariant forall j :: 0 <= j < blocks.Length ==>
          blocks[j] == if j in list[..t] then Bumped(old(blocks[j])) else old(blocks[j])
        invariant forall j :: 0 <= j < texts.Length ==>
          texts[j] == if j in list[..t] && !IsBomb(old(blocks[j]))
                      then Wrappers.Some(Digits(blocks[j].number)) else old(texts[j])
      {
        var n := list[t];
        assert n in list;
        assert list[..t + 1] == list[..t] + [n];
        assert n !in list[..t];
        if blocks[n].blockType == Bomb {
          continue;
        }
        if blocks[n].blockType == Number {
          Increment(n);
        } else {
          SetAsNumber(n);
          Increment(n);
        }
      }
      assert list[..|list|] == list;
      assert blocks[..] == BumpedAt(old(blocks[..]), list);
      assert texts[..] == Relabelled(old(texts[..]), old(blocks[..]), list);
    }

    /** SetAsBomb followed by UpdateNeighbours on a block that is not yet a bomb: one more bomb,
        and every count and every text still right. */
    method PlaceBomb(b: nat)
      requires b < blocks.Length == neighbours.Length == texts.Length && !IsBomb(blocks[b])
      requires Symmetric(neighbours[..]) && Numbered(blocks[..], neighbours[..])
      requires Labelled(blocks[..], texts[..])
      modifies blocks, texts
      ensures Numbered(blocks[..], neighbours[..]) && Labelled(blocks[..], texts[..])
      ensures BombMap(blocks[..]) == BombMap(old(blocks[..]))[b := true]
      ensures CountIf(blocks[..], IsBomb) == CountIf(old(blocks[..]), IsBomb) + 1
      ensures forall j :: 0 <= j < blocks.Length ==> SamePlay(old(blocks[j]), blocks[j])
    {
      ghost var s0, t0 := blocks[..], texts[..];
      SetAsBomb(b);
      UpdateNeighbours(b);
      PlacementStep(s0, neighbours[..], b, blocks[..]);
      PlacementKeepsPlay(s0, neighbours[..], b, blocks[..]);
      PlacementLabels(s0, t0, neighbours[..], b, blocks[..], texts[..]);
    }

    /** One turn of the generation loop: take the next draw and place a bomb there unless one
        is there already. */
    method DrawBomb(draws: seq<Draw>, k: nat, generated: int) returns (generated': int)
      requires 0 <= config.rows && 0 <= config.columns
      requires blocks.Length == neighbours.Length == texts.Length == config.rows * config.columns
      requires OnBoard(config.rows, config.columns, draws) && Symmetric(neighbours[..])
      requires Drawing(config, blocks[..], texts[..], neighbours[..], draws, k, generated)
      requires k < |draws| && generated != config.bombs
      modifies blocks, texts
      ensures Drawing(config, blocks[..], texts[..], neighbours[..], draws, k + 1, generated')
    {
      var rows, columns, bombs := config.rows, config.columns, config.bombs;
      var (row, column) := draws[k];
      assert draws[k] in draws;
      IndexOf(rows, columns, row, column);
      var b := Index(columns, row, column);
      ChosenStep(draws, k, bombs);
      forall j | 0 <= j < blocks.Length
        ensures (RowOf(columns, j), ColumnOf(columns, j)) == (row, column) <==> j == b
      {
        PositionOf(rows, columns, j);
      }
      ghost var before := Drawn(draws[..k]);
      assert (row, column) in before <==> IsBomb(blocks[b]);
      generated' := generated;
      if !IsBomb(blocks[b]) {
        PlaceBomb(b);
        generated' := generated + 1;
        assert |before + {(row, column)}| == |before| + 1;
      } else {
        assert before + {(row, column)} == before;
      }
    }

    /** Places bombs at the drawn positions, skipping a draw that lands on a bomb, until
        `bombs` bombs are placed; each placement counts itself into its neighbours. */
    method GenerateBombs(draws: seq<Draw>)
      requires Board() && Suffice(config.rows, config.columns, config.bombs, draws)
      requires texts.Length == blocks.Length
      requires forall j :: 0 <= j < blocks.Length ==>
        blocks[j] == NewBlock(RowOf(config.columns, j), ColumnOf(config.columns, j)) && texts[j] == Wrappers.None
      modifies blocks, texts
      ensures Board() && Symmetric(neighbours[..]) && Settled(config.bombs, blocks[..], neighbours[..])
      ensures Labelled(blocks[..], texts[..])
      ensures forall j :: 0 <= j < blocks.Length ==>
        (IsBomb(blocks[j]) <==> (RowOf(config.columns, j), ColumnOf(config.columns, j)) in Chosen(draws, config.bombs))
      ensures forall j :: 0 <= j < blocks.Length ==>
        !blocks[j].isUncovered && !blocks[j].isFlagged && blocks[j].subscribed
    {
      var generated, k := 0, 0;
      WiredSymmetric(config.rows, config.columns, blocks[..], neighbours[..]);
      PlacedAtStart(config, blocks[..], neighbours[..], draws);
      while generated != config.bombs
        invariant Drawing(config, blocks[..], texts[..], neighbours[..], draws, k, generated)
        decreases |draws| - k
      {
        DrawsLeft(config, blocks[..], neighbours[..], draws, k, generated);
        generated := DrawBomb(draws, k, generated);
        k := k + 1;
      }
      PlacedAtEnd(config, blocks[..], neighbours[..], draws, k);
    }

    /** The class invariant: the neighbour lists are the ones built at construction, and the blocks
        and the session are those of a game played on the layout placed then. That layout itself
        is Laid(config, layout, links), which the constructor establishes once and for all. */
    ghost predicate Consistent()
      reads this, blocks, neighbours
    {
      && blocks.Length == neighbours.Length
      && neighbours[..] == links && Bounded(links)
      && Playing(config, layout, blocks[..], Current())
    }

    /** The handler of every block's OnExposed. */
    method OnExposed()
      modifies this
      ensures Current() == AfterExposed(old(Current()), config.bombs)
    {
      unexposedBlocksRemaining := unexposedBlocksRemaining - 1;
      if unexposedBlocksRemaining - config.bombs == 0 && status == 0 {
        status := 2;
        messages := messages + [Winner];
      }
    }

    /** Exposes block `i`; the game hears of it when the block was not exposed yet. */
    method Expose(i: nat)
      requires i < blocks.Length
      modifies this, blocks
      ensures blocks[..] == old(blocks[..])[i := old(blocks[i]).(isUncovered := true)]
      ensures Current() == if old(blocks[i].isUncovered) then old(Current())
                           else AfterExposed(old(Current()), config.bombs)
    {
      if blocks[i].isUncovered {
        return;
      }
      blocks[i] := blocks[i].(isUncovered := true);
      OnExposed();
    }

    /** The handler of every block's OnBombClicked: the game is lost and input switched off, then
        every bomb is exposed in row-major order, each exposure heard, and the loser's message is
        shown. */
    method OnBombClicked()
      modifies this, blocks
      ensures forall j :: 0 <= j < blocks.Length ==> blocks[j] == Detonated(old(blocks[j]))
      ensures status == 1 && !inputEnabled && messages == old(messages) + [Loser]
      ensures unexposedBlocksRemaining - CountIf(blocks[..], IsCovered) ==
              old(unexposedBlocksRemaining) - CountIf(old(blocks[..]), IsCovered)
    {
      status := 1;
      inputEnabled := false;
      for j := 0 to blocks.Length
        invariant forall k :: 0 <= k < j ==> blocks[k] == Detonated(old(blocks[k]))
        invariant forall k :: j <= k < blocks.Length ==> blocks[k] == old(blocks[k])
        invariant status == 1 && !inputEnabled && messages == old(messages)
        invariant unexposedBlocksRemaining - CountIf(blocks[..], IsCovered) ==
                  old(unexposedBlocksRemaining) - CountIf(old(blocks[..]), IsCovered)
      {
        if IsBomb(blocks[j]) {
          ghost var s := blocks[..];
          Expose(j);
          CountIfUpdate(s, j, s[j].(isUncovered := true), IsCovered);
        }
      }
      messages := messages + [Loser];
    }

    /** Exposes block `i` unless it is flagged, exposed or a bomb, and when it is not a number
        goes on with each of its neighbours in list order. `order` is the ghost record of the
        blocks it exposed, in the order it exposed them. */
    method SpreadExpose(i: nat) returns (ghost order: seq<nat>)
      requires Consistent() && status != 1 && i < blocks.Length
      modifies this, blocks
      decreases unexposedBlocksRemaining, 1
      ensures Consistent() && status != 1
      ensures Spreading(old(blocks[..]), blocks[..], layout, links, order)
      ensures order == [] <==> Cleared(old(blocks[i]))
      ensures order != [] ==> order[0] == i && old(status) == 0
      ensures forall j :: ClosedAt(old(blocks[..]), blocks[..], links, j)
      ensures Cleared(blocks[i])
      ensures unexposedBlocksRemaining == old(unexposedBlocksRemaining) - |order|
      ensures status == if order == [] then old(status)
                        else if unexposedBlocksRemaining == config.bombs then 2 else 0
    {
      if blocks[i].isFlagged || blocks[i].isUncovered || blocks[i].blockType == Bomb {
        order := [];
        return;
      }
      ghost var s0, c0 := blocks[..], Current();
      ExposePlaying(config, layout, s0, c0, i);
      UnexposedSafe(config, layout, s0, c0);
      Expose(i);
      SpreadFirst(s0, blocks[..], layout, links, i);
      order := [i];
      if blocks[i].blockType == Number {
        return;
      }
      order := SpreadNeighbours(i, s0, order, old(unexposedBlocksRemaining));
      SpreadDone(s0, blocks[..], layout, links, order, i);
    }

    /** The loop of SpreadExpose over the neighbours of block `i`, of type None, which it has
        just exposed: `first` is what the spread from `i` has exposed so far, and `order` is
        that followed by what the spreads from the neighbours expose. */
    method SpreadNeighbours(i: nat, ghost s0: seq<Block>, ghost first: seq<nat>, ghost bound: int)
      returns (ghost order: seq<nat>)
      requires Consistent() && status != 1 && i < |layout| && layout[i].blockType == None
      requires SpreadSoFar(s0, blocks[..], layout, links, first, i, 0)
      requires unexposedBlocksRemaining < bound
      requires status == if unexposedBlocksRemaining == config.bombs then 2 else 0
      modifies this, blocks
      decreases bound, 0
      ensures Consistent() && status != 1
      ensures SpreadSoFar(s0, blocks[..], layout, links, order, i, |links[i]|)
      ensures unexposedBlocksRemaining == old(unexposedBlocksRemaining) + |first| - |order|
      ensures status == if unexposedBlocksRemaining == config.bombs then 2 else 0
    {
      order := first;
      var list := neighbours[i];
      assert list == links[i];
      for t := 0 to |list|
        invariant Consistent() && status != 1
        invariant SpreadSoFar(s0, blocks[..], layout, links, order, i, t)
        invariant unexposedBlocksRemaining == old(unexposedBlocksRemaining) + |first| - |order|
        invariant unexposedBlocksRemaining <= old(unexposedBlocksRemaining)
        invariant status == if unexposedBlocksRemaining == config.bombs then 2 else 0
      {
        assert list[t] in links[i];
        ghost var sb := blocks[..];
        var more := SpreadExpose(list[t]);
        SpreadNext(s0, sb, blocks[..], layout, links, order, more, i, t);
        order := order + more;
      }
    }

    /** The mouse handler of block `i`: the left button exposes, the right button flags, and
        any other button does nothing. */
    method OnMouseDown(i: nat, button: MouseButton) returns (ghost order: seq<nat>)
      requires Consistent() && inputEnabled && i < blocks.Length
      modifies this, blocks
      ensures Consistent()
      ensures button == Left && old(blocks[i].isFlagged) ==>
        blocks[..] == old(blocks[..]) && Current() == old(Current())
      ensures button == Left && !old(blocks[i].isFlagged) && old(blocks[i].blockType) == Bomb ==>
        (forall j :: 0 <= j < blocks.Length ==> blocks[j] == Detonated(old(blocks[j]))) &&
        Current() == Detonation(old(Current()), config.bombs)
      ensures button == Left && !old(blocks[i].isFlagged) && old(blocks[i].blockType) == Number ==>
        blocks[..] == old(blocks[..])[i := old(blocks[i]).(isUncovered := true)] &&
        Current() == if old(blocks[i].isUncovered) then old(Current()) else AfterExposed(old(Current()), config.bombs)
      ensures button == Left && !old(blocks[i].isFlagged) && old(blocks[i].blockType) == None ==>
        Spreading(old(blocks[..]), blocks[..], layout, links, order) &&
        (forall j :: ClosedAt(old(blocks[..]), blocks[..], links, j)) &&
        blocks[i].isUncovered && (order == [] <==> old(blocks[i].isUncovered)) &&
        Current() == AfterExposes(old(Current()), |order|, config.bombs)
      ensures button == Right && old(blocks[i].isUncovered) ==>
        blocks[..] == old(blocks[..]) && Current() == old(Current())
      ensures button == Right && !old(blocks[i].isUncovered) ==>
        blocks[..] == old(blocks[..])[i := old(blocks[i]).(isFlagged := !old(blocks[i].isFlagged))] &&
        Current() == old(Current())
      ensures button != Left && button != Right ==>
        blocks[..] == old(blocks[..]) && Current() == old(Current())
      ensures button != Left || old(blocks[i].isFlagged) || old(blocks[i].blockType) != None ==> order == []
      ensures status == 1 <==> button == Left && !old(blocks[i].isFlagged) && old(blocks[i].blockType) == Bomb
      ensures button == Left && !old(blocks[i].isFlagged) && old(blocks[i].blockType) == Bomb ==>
        messages == if old(status) == 2 || CountIf(old(blocks[..]), IsCoveredSafe) == 1
                    then [Winner, Loser] else [Loser]
    {
      order := [];
      match button
      case Left =>
        order := LeftButtonDown(i);
      case Right =>
        RightButtonDown(i);
      case _ =>
    }

    /** The left-button case of OnMouseDown. */
    method LeftButtonDown(i: nat) returns (ghost order: seq<nat>)
      requires Consistent() && inputEnabled && i < blocks.Length
      modifies this, blocks
      ensures Consistent()
      ensures old(blocks[i].isFlagged) ==> blocks[..] == old(blocks[..]) && Current() == old(Current())
      ensures !old(blocks[i].isFlagged) && old(blocks[i].blockType) == Bomb ==>
        (forall j :: 0 <= j < blocks.Length ==> blocks[j] == Detonated(old(blocks[j]))) &&
        Current() == Detonation(old(Current()), config.bombs)
      ensures !old(blocks[i].isFlagged) && old(blocks[i].blockType) == Number ==>
        blocks[..] == old(blocks[..])[i := old(blocks[i]).(isUncovered := true)] &&
        Current() == if old(blocks[i].isUncovered) then old(Current()) else AfterExposed(old(Current()), config.bombs)
      ensures !old(blocks[i].isFlagged) && old(blocks[i].blockType) == None ==>
        Spreading(old(blocks[..]), blocks[..], layout, links, order) &&
        (forall j :: ClosedAt(old(blocks[..]), blocks[..], links, j)) &&
        blocks[i].isUncovered && (order == [] <==> old(blocks[i].isUncovered)) &&
        Current() == AfterExposes(old(Current()), |order|, config.bombs)
      ensures old(blocks[i].isFlagged) || old(blocks[i].blockType) != None ==> order == []
      ensures status == 1 <==> !old(blocks[i].isFlagged) && old(blocks[i].blockType) == Bomb
      ensures !old(blocks[i].isFlagged) && old(blocks[i].blockType) == Bomb ==>
        messages == if old(status) == 2 || CountIf(old(blocks[..]), IsCoveredSafe) == 1
                    then [Winner, Loser] else [Loser]
    {
      order := [];
      if blocks[i].isFlagged {
        return;
      }
      ghost var s0, c0 := blocks[..], Current();
      match blocks[i].blockType {
        case Bomb =>
          HitBomb(i);
        case Number =>
          if !blocks[i].isUncovered {
            ExposePlaying(config, layout, s0, c0, i);
          } else {
            assert s0[i := s0[i].(isUncovered := true)] == s0;
          }
          Expose(i);
          assert blocks[..] == s0[i := s0[i].(isUncovered := true)];
        case None =>
          order := SpreadExpose(i);
          UnexposedSafe(config, layout, blocks[..], Current());
          SpreadSessions(c0, Current(), |order|, config.bombs);
      }
    }

    /** The bomb case of the left button: the bomb is exposed, then OnBombClicked is raised. */
    method HitBomb(i: nat)
      requires Consistent() && inputEnabled && i < blocks.Length && IsBomb(blocks[i])
      modifies this, blocks
      ensures Consistent()
      ensures forall j :: 0 <= j < blocks.Length ==> blocks[j] == Detonated(old(blocks[j]))
      ensures Current() == Detonation(old(Current()), config.bombs)
      ensures messages == if old(status) == 2 || CountIf(old(blocks[..]), IsCoveredSafe) == 1
                          then [Winner, Loser] else [Loser]
    {
      ghost var s0, c0 := blocks[..], Current();
      Expose(i);
      ghost var s1 := blocks[..];
      OnBombClicked();
      assert forall j :: 0 <= j < |s0| ==> blocks[..][j] == Detonated(s0[j]);
      DetonatePlaying(config, layout, s0, blocks[..], c0);
      CountIfUpdate(s0, i, s1[i], IsCovered);
      WinnerThenLoser(config, layout, s0, c0);
    }

    /** The right-button case of OnMouseDown: a block not yet exposed is flagged or unflagged,
        and the game is not told. */
    method RightButtonDown(i: nat)
      requires Consistent() && i < blocks.Length
      modifies blocks
      ensures Consistent()
      ensures old(blocks[i].isUncovered) ==> blocks[..] == old(blocks[..])
      ensures !old(blocks[i].isUncovered) ==>
        blocks[..] == old(blocks[..])[i := old(blocks[i]).(isFlagged := !old(blocks[i].isFlagged))]
    {
      if blocks[i].isUncovered {
        return;
      }
      FlagPlaying(config, layout, blocks[..], Current(), i);
      blocks[i] := blocks[i].(isFlagged := !blocks[i].isFlagged);
    }

    /** A mouse press on block `i`: it reaches the block's handler only while input is enabled,
        which is until the game is lost; a won game still takes clicks. */
    method Click(i: nat, button: MouseButton) returns (ghost order: seq<nat>)
      requires Consistent() && i < blocks.Length
      modifies this, blocks
      ensures Consistent()
      ensures !old(inputEnabled) ==> blocks[..] == old(blocks[..]) && Current() == old(Current())
      ensures old(status) == 1 ==> blocks[..] == old(blocks[..]) && Current() == old(Current())
      ensures old(status) != 1 ==> (status == 1 <==>
        button == Left && !old(blocks[i].isFlagged) && old(blocks[i].blockType) == Bomb)
      ensures old(status) != 1 && button == Left && !old(blocks[i].isFlagged) && old(blocks[i].blockType) == Bomb ==>
        messages == if old(status) == 2 || CountIf(old(blocks[..]), IsCoveredSafe) == 1
                    then [Winner, Loser] else [Loser]
    {
      order := [];
      if inputEnabled {
        order := OnMouseDown(i, button);
      }
    }
  }
}
