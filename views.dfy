/** The current engine: src/Views/GameView.xaml.cs with the BlockView methods of
    src/Views/BlockView.xaml.cs it calls. The GameView owns its blocks in a flat row-major array;
    a BlockView method becomes a GameView method taking the index of the block it runs on. */
module Views {
  import Wrappers
  import opened Config
  import opened Counting
  import opened Grid
  import opened Placement
  import opened Blocks
  import opened Events
  import opened Layout
  import opened Spread

  datatype GameState = Ready | InProgress | Won | Lost

  /** The game-level state of a GameView, apart from its blocks. */
  datatype Session = Session(
    state: GameState,
    flagsRemaining: int,
    uncoveredBlocksRemaining: int,
    timeElapsed: int,
    timerRunning: bool,
    inputEnabled: bool,
    messages: seq<Message>)

  /** The message box EndGame shows for the state it ends in. */
  function Report(state: GameState): (r: seq<Message>)
    ensures state == Won ==> r == [Winner]
    ensures state == Lost ==> r == [Loser]
    ensures state != Won && state != Lost ==> r == []
  {
    match state
    case Won => [Winner]
    case Lost => [Loser]
    case _ => []
  }

  /** EndGame(state): the timer stops, the state is set, input is switched off and the
      state's message is shown. */
  function Ended(c: Session, state: GameState): Session {
    c.(timerRunning := false, state := state, inputEnabled := false, messages := c.messages + Report(state))
  }

  /** OnUncover: the first uncover starts the game and its timer; every uncover counts one block
      down; reaching zero while in progress wins. */
  function AfterUncover(c: Session): Session {
    var started := if c.state == Ready then c.(state := InProgress, timerRunning := true) else c;
    var counted := started.(uncoveredBlocksRemaining := started.uncoveredBlocksRemaining - 1);
    if counted.uncoveredBlocksRemaining == 0 && counted.state == InProgress then Ended(counted, Won)
    else counted
  }

  /** What UncoverAllBombs does to one block: a bomb is unsubscribed and uncovered. */
  function Exposed(b: Block): Block {
    if IsBomb(b) then b.(subscribed := false, isUncovered := true) else b
  }

  /** A game in play on `layout`: the blocks keep their layout, the counters count the board,
      the bombs are exposed exactly when the game is lost, and the timer, the input and the
      messages follow the state. */
  ghost predicate Playing(config: GameConfig, layout: seq<Block>, s: seq<Block>, c: Session) {
    && |s| == |layout|
    && (forall j :: 0 <= j < |s| ==> SameLayout(layout[j], s[j]))
    && c.uncoveredBlocksRemaining == CountIf(s, IsCoveredSafe)
    && c.flagsRemaining == config.bombs - CountIf(s, IsFlaggedBlock)
    && (forall j :: 0 <= j < |s| && !IsBomb(s[j]) ==> s[j].subscribed)
    && (forall j :: 0 <= j < |s| && IsBomb(s[j]) ==>
          if c.state == Lost then s[j].isUncovered && !s[j].subscribed
          else !s[j].isUncovered && s[j].subscribed)
    && (c.state == Ready ==> forall j :: 0 <= j < |s| ==> !s[j].isUncovered)
    && (c.state == InProgress ==> c.uncoveredBlocksRemaining > 0)
    && (c.state == Won ==> c.uncoveredBlocksRemaining == 0)
    && Coherent(c)
  }

  /** The timer runs while the game is in progress, input is enabled until it ends, and the
      message of the state, if any, has been shown. */
  predicate Coherent(c: Session) {
    && c.timerRunning == (c.state == InProgress)
    && c.inputEnabled == (c.state == Ready || c.state == InProgress)
    && c.messages == Report(c.state)
  }

  /** A freshly laid board starts a game: ready, every flag left, every safe block to uncover,
      no time elapsed, the timer off, input on and no message shown. */
  lemma NewGame(config: GameConfig, layout: seq<Block>, links: seq<seq<nat>>)
    requires Laid(config, layout, links)
    requires forall j :: 0 <= j < |layout| ==>
      !layout[j].isUncovered && !layout[j].isFlagged && layout[j].subscribed
    ensures Playing(config, layout, layout,
      Session(Ready, config.bombs, config.rows * config.columns - config.bombs, 0, false, true, []))
  {
    Started(config.rows, config.columns, config.bombs, layout);
  }

  /** Playing, a covered block that is not a bomb or flagged is uncovered and the game hears of
      it: the invariant holds after, and the game is won exactly when it was the last one. */
  lemma UncoverPlaying(config: GameConfig, layout: seq<Block>, s: seq<Block>, c: Session, i: nat)
    requires Playing(config, layout, s, c) && c.state != Lost
    requires i < |s| && IsCoveredSafe(s[i]) && !s[i].isFlagged
    ensures Playing(config, layout, s[i := s[i].(isUncovered := true)], AfterUncover(c))
    ensures AfterUncover(c).state == if c.uncoveredBlocksRemaining == 1 then Won else InProgress
  {
    var x := s[i].(isUncovered := true);
    CountIfUpdate(s, i, x, IsCoveredSafe);
    CountIfUpdate(s, i, x, IsFlaggedBlock);
  }

  /** Playing, flagging or unflagging a covered block moves the flag counter by one. */
  lemma FlagPlaying(config: GameConfig, layout: seq<Block>, s: seq<Block>, c: Session, i: nat)
    requires Playing(config, layout, s, c) && c.inputEnabled
    requires i < |s| && !s[i].isUncovered
    ensures Playing(config, layout, s[i := s[i].(isFlagged := !s[i].isFlagged)],
                    c.(flagsRemaining := c.flagsRemaining + if s[i].isFlagged then 1 else -1))
  {
    var x := s[i].(isFlagged := !s[i].isFlagged);
    CountIfUpdate(s, i, x, IsCoveredSafe);
    CountIfUpdate(s, i, x, IsFlaggedBlock);
  }

  /** Playing, an explosion exposes every bomb and loses the game. */
  lemma ExplodePlaying(config: GameConfig, layout: seq<Block>, s: seq<Block>, s': seq<Block>, c: Session)
    requires Playing(config, layout, s, c) && c.inputEnabled
    requires |s'| == |s| && forall j :: 0 <= j < |s| ==> s'[j] == Exposed(s[j])
    ensures Playing(config, layout, s', Ended(c, Lost))
  {
    CountIfPointwise(s, s', IsCoveredSafe);
    CountIfPointwise(s, s', IsFlaggedBlock);
  }

  /** Play never changes what a block says: on a laid board, the blocks in play hold the same
      bombs and the right counts. */
  lemma PlayKeepsCounts(config: GameConfig, layout: seq<Block>, links: seq<seq<nat>>, s: seq<Block>, c: Session)
    requires Laid(config, layout, links) && Playing(config, layout, s, c)
    ensures Settled(config.bombs, s, links)
  {
    assert BombMap(s) == BombMap(layout);
    CountIfPointwise(layout, s, IsBomb);
  }

  /** A won game has every block that is not a bomb uncovered. */
  lemma WonCleared(config: GameConfig, layout: seq<Block>, s: seq<Block>, c: Session)
    requires Playing(config, layout, s, c) && c.state == Won
    ensures forall j :: 0 <= j < |s| && !IsBomb(s[j]) ==> s[j].isUncovered
  {
    CountIfNone(s, IsCoveredSafe);
  }

  /** The session after `k` uncovers heard one after the other. */
  function AfterUncovers(c: Session, k: nat): Session
    decreases k
  {
    if k == 0 then c else AfterUncovers(AfterUncover(c), k - 1)
  }

  lemma {:induction false} AfterUncoversAdd(c: Session, a: nat, b: nat)
    ensures AfterUncovers(AfterUncovers(c, a), b) == AfterUncovers(c, a + b)
    decreases a
  {
    if a > 0 {
      AfterUncoversAdd(AfterUncover(c), a - 1, b);
    }
  }

  /** From a game that is ready or in progress, `k` uncovers, at most as many as blocks remain,
      count the counter down by `k`; the game is then in progress with its timer running, or
      won with the timer off, input off and the winner's message shown exactly when no block
      remains. Flags and time are untouched. */
  lemma {:induction false} UncoversInPlay(c: Session, k: nat)
    requires c.state == Ready || c.state == InProgress
    requires c.state == InProgress ==> c.timerRunning
    requires c.inputEnabled && 0 < k <= c.uncoveredBlocksRemaining
    ensures AfterUncovers(c, k).uncoveredBlocksRemaining == c.uncoveredBlocksRemaining - k
    ensures AfterUncovers(c, k).state == if c.uncoveredBlocksRemaining == k then Won else InProgress
    ensures AfterUncovers(c, k).timerRunning == (c.uncoveredBlocksRemaining != k)
    ensures AfterUncovers(c, k).inputEnabled == (c.uncoveredBlocksRemaining != k)
    ensures AfterUncovers(c, k).messages == c.messages + if c.uncoveredBlocksRemaining == k then [Winner] else []
    ensures AfterUncovers(c, k).flagsRemaining == c.flagsRemaining
    ensures AfterUncovers(c, k).timeElapsed == c.timeElapsed
    decreases k
  {
    if k > 1 {
      UncoversInPlay(AfterUncover(c), k - 1);
    }
  }

  /** A spread that uncovered `k` blocks from a game that was ready or in progress, leaving the
      counter `k` lower and the state in progress or, with nothing left, won, has made exactly
      the session changes of `k` uncovers. */
  lemma SpreadSessions(c0: Session, c: Session, k: nat)
    requires Coherent(c0) && c0.inputEnabled && Coherent(c)
    requires c.flagsRemaining == c0.flagsRemaining && c.timeElapsed == c0.timeElapsed
    requires c.uncoveredBlocksRemaining == c0.uncoveredBlocksRemaining - k >= 0
    requires c.state == if k == 0 then c0.state else if c.uncoveredBlocksRemaining == 0 then Won else InProgress
    ensures c == AfterUncovers(c0, k)
  {
    if k > 0 {
      UncoversInPlay(c0, k);
    }
  }

  class GameView {
    const config: GameConfig
    const blocks: array<Block>
    /** The neighbour list of each block, at the block's index. */
    const neighbours: array<seq<nat>>
    var state: GameState
    var flagsRemaining: int
    var uncoveredBlocksRemaining: int
    var timeElapsed: int
    var timerRunning: bool
    /** IsHitTestVisible: whether mouse input reaches the blocks. */
    var inputEnabled: bool
    /** The message boxes shown so far. */
    var messages: seq<Message>
    /** The board as bomb placement left it. */
    ghost const layout: seq<Block>
    /** The neighbour lists SetNeighbours builds. */
    ghost const links: seq<seq<nat>>

    ghost function Current(): Session
      reads this
    {
      Session(state, flagsRemaining, uncoveredBlocksRemaining, timeElapsed, timerRunning, inputEnabled, messages)
    }

    /** The board has one block per cell, at its own index, wired to its neighbours. */
    ghost predicate Board()
      reads this, blocks, neighbours
    {
      Wired(config.rows, config.columns, blocks[..], neighbours[..])
    }

    /** Creates the board of a new game from the draws of its random source. */
    constructor (config: GameConfig, draws: seq<Draw>)
      requires 0 <= config.rows && 0 <= config.columns
      requires Suffice(config.rows, config.columns, config.bombs, draws)
      ensures this.config == config && Consistent() && Laid(config, layout, links)
      ensures blocks[..] == layout == InitialBoard(config, draws)
      ensures links == NeighbourLists(config.rows, config.columns)
      ensures Current() == Session(Ready, config.bombs, config.rows * config.columns - config.bombs, 0, false, true, [])
    {
      this.config := config;
      blocks := new Block[config.rows * config.columns];
      neighbours := new seq<nat>[config.rows * config.columns](_ => []);
      layout := InitialBoard(config, draws);
      links := NeighbourLists(config.rows, config.columns);
      state := Ready;
      timeElapsed := 0;
      timerRunning := false;
      inputEnabled := true;
      messages := [];
      flagsRemaining := config.bombs;
      uncoveredBlocksRemaining := config.rows * config.columns - config.bombs;
      new;
      Initialize(draws);
      FreshBoard(config, draws);
      assert blocks[..] == layout && neighbours[..] == links;
      NewGame(config, layout, links);
      assert Current() == Session(Ready, config.bombs, config.rows * config.columns - config.bombs, 0, false, true, []);
    }

    /** Builds the board: the blocks, their neighbour lists, then the bombs. */
    method Initialize(draws: seq<Draw>)
      requires 0 <= config.rows && 0 <= config.columns
      requires Suffice(config.rows, config.columns, config.bombs, draws)
      requires blocks.Length == neighbours.Length == config.rows * config.columns
      requires forall j :: 0 <= j < neighbours.Length ==> neighbours[j] == []
      modifies blocks, neighbours
      ensures blocks[..] == InitialBoard(config, draws)
      ensures neighbours[..] == NeighbourLists(config.rows, config.columns)
      ensures Laid(config, blocks[..], neighbours[..])
    {
      AddBlocks();
      SetNeighbours();
      GenerateBombs(draws);
      GeneratedIsInitial(config, draws, blocks[..], neighbours[..]);
    }

    /** Creates one subscribed block per cell. */
    method AddBlocks()
      requires 0 <= config.rows && 0 <= config.columns && blocks.Length == config.rows * config.columns
      modifies blocks
      ensures forall j :: 0 <= j < blocks.Length ==>
        blocks[j] == NewBlock(RowOf(config.columns, j), ColumnOf(config.columns, j))
    {
      var rows, columns := config.rows, config.columns;
      for i := 0 to rows
        invariant forall r, c :: 0 <= r < i && 0 <= c < columns ==>
          Index(columns, r, c) < blocks.Length && blocks[Index(columns, r, c)] == NewBlock(r, c)
      {
        for j := 0 to columns
          invariant forall r, c :: 0 <= r < i && 0 <= c < columns ==>
            Index(columns, r, c) < blocks.Length && blocks[Index(columns, r, c)] == NewBlock(r, c)
          invariant forall c :: 0 <= c < j ==>
            Index(columns, i, c) < blocks.Length && blocks[Index(columns, i, c)] == NewBlock(i, c)
        {
          IndexOf(rows, columns, i, j);
          forall r, c | 0 <= r < i && 0 <= c < columns ensures Index(columns, r, c) != Index(columns, i, j) {
            IndexOf(rows, columns, r, c);
          }
          forall c | 0 <= c < j ensures Index(columns, i, c) != Index(columns, i, j) {
            IndexOf(rows, columns, i, c);
          }
          blocks[Index(columns, i, j)] := NewBlock(i, j);
        }
      }
      forall k | 0 <= k < blocks.Length
        ensures blocks[k] == NewBlock(RowOf(columns, k), ColumnOf(columns, k))
      {
        PositionOf(rows, columns, k);
      }
    }

    /** The block at (row, column), or none when that position is off the board. */
    method TryGetBlockByPlacement(row: int, column: int) returns (b: Wrappers.Option<nat>)
      requires 0 <= config.rows && 0 <= config.columns
      ensures b == Locate(config.rows, config.columns, row, column)
    {
      if row < 0 || column < 0 || row >= config.rows || column >= config.columns {
        return Wrappers.None;
      }
      IndexOf(config.rows, config.columns, row, column);
      return Wrappers.Some(Index(config.columns, row, column));
    }

    /** Appends the looked-up block, if any, to the neighbour list of block `i`. */
    method AddNeighbour(i: nat, neighbour: Wrappers.Option<nat>)
      requires i < neighbours.Length
      modifies neighbours
      ensures neighbours[i] == old(neighbours[i]) + Located(neighbour)
      ensures forall k :: 0 <= k < neighbours.Length && k != i ==> neighbours[k] == old(neighbours[k])
    {
      if neighbour.Some? {
        neighbours[i] := neighbours[i] + [neighbour.value];
      }
    }

    /** The eight lookups SetNeighbours makes for one block, in the source's order. */
    method LinkBlock(i: nat)
      requires 0 <= config.rows && 0 <= config.columns
      requires i < blocks.Length == neighbours.Length && neighbours[i] == []
      modifies neighbours
      ensures neighbours[i] == NeighboursOf(config.rows, config.columns, blocks[i].row, blocks[i].column)
      ensures forall k :: 0 <= k < neighbours.Length && k != i ==> neighbours[k] == old(neighbours[k])
    {
      var row, column := blocks[i].row, blocks[i].column;
      ghost var acc := [];
      var n;
      n := TryGetBlockByPlacement(row - 1, column);
      AddNeighbour(i, n);
      acc := acc + Located(Locate(config.rows, config.columns, row - 1, column));
      assert neighbours[i] == acc;
      n := TryGetBlockByPlacement(row - 1, column - 1);
      AddNeighbour(i, n);
      acc := acc + Located(Locate(config.rows, config.columns, row - 1, column - 1));
      assert neighbours[i] == acc;
      n := TryGetBlockByPlacement(row - 1, column + 1);
      AddNeighbour(i, n);
      acc := acc + Located(Locate(config.rows, config.columns, row - 1, column + 1));
      assert neighbours[i] == acc;
      n := TryGetBlockByPlacement(row, column - 1);
      AddNeighbour(i, n);
      acc := acc + Located(Locate(config.rows, config.columns, row, column - 1));
      assert neighbours[i] == acc;
      n := TryGetBlockByPlacement(row, column + 1);
      AddNeighbour(i, n);
      acc := acc + Located(Locate(config.rows, config.columns, row, column + 1));
      assert neighbours[i] == acc;
      n := TryGetBlockByPlacement(row + 1, column);
      AddNeighbour(i, n);
      acc := acc + Located(Locate(config.rows, config.columns, row + 1, column));
      assert neighbours[i] == acc;
      n := TryGetBlockByPlacement(row + 1, column - 1);
      AddNeighbour(i, n);
      acc := acc + Located(Locate(config.rows, config.columns, row + 1, column - 1));
      assert neighbours[i] == acc;
      n := TryGetBlockByPlacement(row + 1, column + 1);
      AddNeighbour(i, n);
      acc := acc + Located(Locate(config.rows, config.columns, row + 1, column + 1));
      assert neighbours[i] == acc;
      assert forall k :: 0 <= k < neighbours.Length && k != i ==> neighbours[k] == old(neighbours[k]);
      NeighboursInSteps(config.rows, config.columns, row, column);
    }

    /** Gives every block the list of the blocks around it. */
    method SetNeighbours()
      requires 0 <= config.rows && 0 <= config.columns
      requires blocks.Length == neighbours.Length == config.rows * config.columns
      requires forall j :: 0 <= j < blocks.Length ==>
        blocks[j] == NewBlock(RowOf(config.columns, j), ColumnOf(config.columns, j)) && neighbours[j] == []
      modifies neighbours
      ensures Board()
    {
      for i := 0 to blocks.Length
        invariant forall j :: 0 <= j < i ==> neighbours[j] == Neighbours(config.rows, config.columns, j)
        invariant forall j :: i <= j < blocks.Length ==> neighbours[j] == []
      {
        LinkBlock(i);
      }
    }

    method SetAsBomb(i: nat)
      requires i < blocks.Length
      modifies blocks
      ensures blocks[..] == old(blocks[..])[i := old(blocks[i]).(blockType := Bomb, number := 0)]
    {
      blocks[i] := blocks[i].(blockType := Bomb, number := 0);
    }

    method SetAsNumber(i: nat)
      requires i < blocks.Length
      modifies blocks
      ensures blocks[..] == old(blocks[..])[i := old(blocks[i]).(blockType := Number, number := 0)]
    {
      blocks[i] := blocks[i].(blockType := Number, number := 0);
    }

    method Increment(i: nat)
      requires i < blocks.Length
      modifies blocks
      ensures blocks[..] == old(blocks[..])[i := old(blocks[i]).(number := old(blocks[i]).number + 1)]
    {
      blocks[i] := blocks[i].(number := blocks[i].number + 1);
    }

    /** Counts the bomb at `b` into each of its neighbours, leaving neighbouring bombs alone. */
    method UpdateNeighbours(b: nat)
      requires b < neighbours.Length
      requires Distinct(neighbours[b]) && forall n :: n in neighbours[b] ==> n < blocks.Length
      modifies blocks
      ensures blocks[..] == BumpedAt(old(blocks[..]), neighbours[b])
    {
      var list := neighbours[b];
      for t := 0 to |list|
        invariant forall j :: 0 <= j < blocks.Length ==>
          blocks[j] == if j in list[..t] then Bumped(old(blocks[j])) else old(blocks[j])
      {
        var n := list[t];
        assert n in list;
        assert list[..t + 1] == list[..t] + [n];
        assert n !in list[..t];
        match blocks[n].blockType
        case Bomb =>
        case Number =>
          Increment(n);
        case None =>
          SetAsNumber(n);
          Increment(n);
      }
      assert list[..|list|] == list;
      assert blocks[..] == BumpedAt(old(blocks[..]), list);
    }

    /** SetAsBomb followed by UpdateNeighbours on a block that is not yet a bomb: one more bomb,
        and every count still right. */
    method PlaceBomb(b: nat)
      requires b < blocks.Length == neighbours.Length && !IsBomb(blocks[b])
      requires Symmetric(neighbours[..]) && Numbered(blocks[..], neighbours[..])
      modifies blocks
      ensures Numbered(blocks[..], neighbours[..])
      ensures BombMap(blocks[..]) == BombMap(old(blocks[..]))[b := true]
      ensures CountIf(blocks[..], IsBomb) == CountIf(old(blocks[..]), IsBomb) + 1
      ensures forall j :: 0 <= j < blocks.Length ==> SamePlay(old(blocks[j]), blocks[j])
    {
      ghost var s0 := blocks[..];
      SetAsBomb(b);
      UpdateNeighbours(b);
      PlacementStep(s0, neighbours[..], b, blocks[..]);
      PlacementKeepsPlay(s0, neighbours[..], b, blocks[..]);
    }

    /** One turn of the generation loop: take the next draw and place a bomb there unless one
        is there already. */
    method DrawBomb(draws: seq<Draw>, k: nat, generated: int) returns (generated': int)
      requires 0 <= config.rows && 0 <= config.columns && blocks.Length == neighbours.Length == config.rows * config.columns
      requires OnBoard(config.rows, config.columns, draws) && Symmetric(neighbours[..])
      requires PlacedSoFar(config, blocks[..], neighbours[..], draws, k, generated)
      requires k < |draws| && generated != config.bombs
      modifies blocks
      ensures PlacedSoFar(config, blocks[..], neighbours[..], draws, k + 1, generated')
    {
      var rows, columns, bombs := config.rows, config.columns, config.bombs;
      var (row, column) := draws[k];
      assert draws[k] in draws;
      IndexOf(rows, columns, row, column);
      var b := Index(columns, row, column);
      ChosenStep(draws, k, bombs);
      forall j | 0 <= j < blocks.Length
        ensures (RowOf(columns, j), ColumnOf(columns, j)) == (row, column) <==> j == b
      {
        PositionOf(rows, columns, j);
      }
      ghost var before := Drawn(draws[..k]);
      assert (row, column) in before <==> IsBomb(blocks[b]);
      generated' := generated;
      if !IsBomb(blocks[b]) {
        PlaceBomb(b);
        generated' := generated + 1;
        assert |before + {(row, column)}| == |before| + 1;
      } else {
        assert before + {(row, column)} == before;
      }
    }

    /** Places bombs at the drawn positions, skipping a draw that lands on a bomb, until
        `bombs` bombs are placed; each placement counts itself into its neighbours. */
    method GenerateBombs(draws: seq<Draw>)
      requires Board() && Suffice(config.rows, config.columns, config.bombs, draws)
      requires forall j :: 0 <= j < blocks.Length ==>
        blocks[j] == NewBlock(RowOf(config.columns, j), ColumnOf(config.columns, j))
      modifies blocks
      ensures Board() && Symmetric(neighbours[..]) && Settled(config.bombs, blocks[..], neighbours[..])
      ensures forall j :: 0 <= j < blocks.Length ==>
        (IsBomb(blocks[j]) <==> (RowOf(config.columns, j), ColumnOf(config.columns, j)) in Chosen(draws, config.bombs))
      ensures forall j :: 0 <= j < blocks.Length ==>
        !blocks[j].isUncovered && !blocks[j].isFlagged && blocks[j].subscribed
    {
      var generated, k := 0, 0;
      WiredSymmetric(config.rows, config.columns, blocks[..], neighbours[..]);
      PlacedAtStart(config, blocks[..], neighbours[..], draws);
      while generated != config.bombs
        invariant PlacedSoFar(config, blocks[..], neighbours[..], draws, k, generated)
        decreases |draws| - k
      {
        DrawsLeft(config, blocks[..], neighbours[..], draws, k, generated);
        generated := DrawBomb(draws, k, generated);
        k := k + 1;
      }
      PlacedAtEnd(config, blocks[..], neighbours[..], draws, k);
    }

    /** The class invariant: the neighbour lists are the ones built at construction, and the blocks
        and the session are those of a game played on the layout placed then. That layout itself
        is Laid(config, layout, links), which the constructor establishes once and for all. */
    ghost predicate Consistent()
      reads this, blocks, neighbours
    {
      && blocks.Length == neighbours.Length
      && neighbours[..] == links && Bounded(links)
      && Playing(config, layout, blocks[..], Current())
    }

    method BeginTimer()
      modifies this
      ensures Current() == old(Current()).(timerRunning := true)
    {
      timerRunning := true;
    }

    method StopTimer()
      modifies this
      ensures Current() == old(Current()).(timerRunning := false)
    {
      timerRunning := false;
    }

    /** The timer's Elapsed handler. It does not look at the state of the game. */
    method Tick()
      modifies this
      ensures Current() == old(Current()).(timeElapsed := old(timeElapsed) + 1)
    {
      timeElapsed := timeElapsed + 1;
    }

    method EndGame(s: GameState)
      modifies this
      ensures Current() == Ended(old(Current()), s)
    {
      StopTimer();
      state := s;
      inputEnabled := false;
      match s
      case Won =>
        messages := messages + [Winner];
      case Lost =>
        messages := messages + [Loser];
      case _ =>
    }

    method OnUncover()
      modifies this
      ensures Current() == AfterUncover(old(Current()))
    {
      if state == Ready {
        state := InProgress;
        BeginTimer();
      }
      uncoveredBlocksRemaining := uncoveredBlocksRemaining - 1;
      if uncoveredBlocksRemaining == 0 && state == InProgress {
        EndGame(Won);
      }
    }

    method OnFlag(flagged: bool)
      modifies this
      ensures Current() == old(Current()).(flagsRemaining := old(flagsRemaining) + if flagged then -1 else 1)
    {
      flagsRemaining := flagsRemaining + if flagged then -1 else 1;
    }

    /** Uncovers block `i`; the game hears of it when the block was covered and is subscribed. */
    method Uncover(i: nat)
      requires i < blocks.Length
      modifies this, blocks
      ensures blocks[..] == old(blocks[..])[i := old(blocks[i]).(isUncovered := true)]
      ensures Current() == if !old(blocks[i].isUncovered) && old(blocks[i].subscribed)
                           then AfterUncover(old(Current())) else old(Current())
    {
      if blocks[i].isUncovered {
        return;
      }
      blocks[i] := blocks[i].(isUncovered := true);
      if blocks[i].subscribed {
        OnUncover();
      }
    }

    /** Unsubscribes and uncovers every bomb, in index order. */
    method UncoverAllBombs()
      modifies this, blocks
      ensures forall j :: 0 <= j < blocks.Length ==> blocks[j] == Exposed(old(blocks[j]))
      ensures Current() == old(Current())
    {
      for j := 0 to blocks.Length
        invariant forall k :: 0 <= k < j ==> blocks[k] == Exposed(old(blocks[k]))
        invariant forall k :: j <= k < blocks.Length ==> blocks[k] == old(blocks[k])
        invariant Current() == old(Current())
      {
        if IsBomb(blocks[j]) {
          blocks[j] := blocks[j].(subscribed := false);
          Uncover(j);
        }
      }
    }

    method OnExplode()
      modifies this, blocks
      ensures forall j :: 0 <= j < blocks.Length ==> blocks[j] == Exposed(old(blocks[j]))
      ensures Current() == Ended(old(Current()), Lost)
    {
      UncoverAllBombs();
      EndGame(Lost);
    }

    /** Uncovers block `i` unless it is flagged, uncovered or a bomb, and when it is of type None
        goes on with each of its neighbours in list order. `order` is the ghost record of the
        blocks it uncovered, in the order it uncovered them. */
    method SpreadUncover(i: nat) returns (ghost order: seq<nat>)
      requires Consistent() && state != Lost && i < blocks.Length
      modifies this, blocks
      decreases uncoveredBlocksRemaining, 1
      ensures Consistent() && state != Lost
      ensures Spreading(old(blocks[..]), blocks[..], layout, links, order)
      ensures order == [] <==> Cleared(old(blocks[i]))
      ensures order != [] ==> order[0] == i
      ensures forall j :: ClosedAt(old(blocks[..]), blocks[..], links, j)
      ensures Cleared(blocks[i])
      ensures flagsRemaining == old(flagsRemaining) && timeElapsed == old(timeElapsed)
      ensures uncoveredBlocksRemaining == old(uncoveredBlocksRemaining) - |order|
      ensures state == if order == [] then old(state) else if uncoveredBlocksRemaining == 0 then Won else InProgress
    {
      if blocks[i].isFlagged || blocks[i].isUncovered || blocks[i].blockType == Bomb {
        order := [];
        return;
      }
      ghost var s0, c0 := blocks[..], Current();
      UncoverPlaying(config, layout, s0, c0, i);
      Uncover(i);
      SpreadFirst(s0, blocks[..], layout, links, i);
      order := [i];
      if blocks[i].blockType == Number {
        return;
      }
      order := SpreadNeighbours(i, s0, order, old(uncoveredBlocksRemaining));
      SpreadDone(s0, blocks[..], layout, links, order, i);
    }

    /** The loop of SpreadUncover over the neighbours of block `i`, of type None, which it has
        just uncovered: `first` is what the spread from `i` has uncovered so far, and `order` is
        that followed by what the spreads from the neighbours uncover. */
    method SpreadNeighbours(i: nat, ghost s0: seq<Block>, ghost first: seq<nat>, ghost bound: int)
      returns (ghost order: seq<nat>)
      requires Consistent() && state != Lost && i < |layout| && layout[i].blockType == None
      requires SpreadSoFar(s0, blocks[..], layout, links, first, i, 0)
      requires uncoveredBlocksRemaining < bound
      requires state == if uncoveredBlocksRemaining == 0 then Won else InProgress
      modifies this, blocks
      decreases bound, 0
      ensures Consistent() && state != Lost
      ensures SpreadSoFar(s0, blocks[..], layout, links, order, i, |links[i]|)
      ensures flagsRemaining == old(flagsRemaining) && timeElapsed == old(timeElapsed)
      ensures uncoveredBlocksRemaining == old(uncoveredBlocksRemaining) + |first| - |order|
      ensures state == if uncoveredBlocksRemaining == 0 then Won else InProgress
    {
      order := first;
      var list := neighbours[i];
      assert list == links[i];
      for t := 0 to |list|
        invariant Consistent() && state != Lost
        invariant SpreadSoFar(s0, blocks[..], layout, links, order, i, t)
        invariant flagsRemaining == old(flagsRemaining) && timeElapsed == old(timeElapsed)
        invariant uncoveredBlocksRemaining == old(uncoveredBlocksRemaining) + |first| - |order|
        invariant uncoveredBlocksRemaining <= old(uncoveredBlocksRemaining)
        invariant state == if uncoveredBlocksRemaining == 0 then Won else InProgress
      {
        assert list[t] in links[i];
        ghost var sb := blocks[..];
        var more := SpreadUncover(list[t]);
        SpreadNext(s0, sb, blocks[..], layout, links, order, more, i, t);
        order := order + more;
      }
    }

    /** The mouse handler of block `i`: the left button uncovers, the right button flags, and
        any other button does nothing. */
    method OnMouseDown(i: nat, button: MouseButton) returns (ghost order: seq<nat>)
      requires Consistent() && inputEnabled && i < blocks.Length
      modifies this, blocks
      ensures Consistent()
      ensures button == Left && old(blocks[i].isFlagged) ==>
        blocks[..] == old(blocks[..]) && Current() == old(Current())
      ensures button == Left && !old(blocks[i].isFlagged) && old(blocks[i].blockType) == Bomb ==>
        (forall j :: 0 <= j < blocks.Length ==> blocks[j] == Exposed(old(blocks[j]))) &&
        Current() == Ended(old(Current()), Lost)
      ensures button == Left && !old(blocks[i].isFlagged) && old(blocks[i].blockType) == Number ==>
        blocks[..] == old(blocks[..])[i := old(blocks[i]).(isUncovered := true)] &&
        Current() == if old(blocks[i].isUncovered) then old(Current()) else AfterUncover(old(Current()))
      ensures button == Left && !old(blocks[i].isFlagged) && old(blocks[i].blockType) == None ==>
        Spreading(old(blocks[..]), blocks[..], layout, links, order) &&
        (forall j :: ClosedAt(old(blocks[..]), blocks[..], links, j)) &&
        blocks[i].isUncovered && (order == [] <==> old(blocks[i].isUncovered)) &&
        Current() == AfterUncovers(old(Current()), |order|)
      ensures button == Right && old(blocks[i].isUncovered) ==>
        blocks[..] == old(blocks[..]) && Current() == old(Current())
      ensures button == Right && !old(blocks[i].isUncovered) ==>
        blocks[..] == old(blocks[..])[i := old(blocks[i]).(isFlagged := !old(blocks[i].isFlagged))] &&
        Current() == old(Current()).(flagsRemaining := old(flagsRemaining) + if old(blocks[i].isFlagged) then 1 else -1)
      ensures button != Left && button != Right ==>
        blocks[..] == old(blocks[..]) && Current() == old(Current())
      ensures button != Left || old(blocks[i].isFlagged) || old(blocks[i].blockType) != None ==> order == []
      ensures state == Lost <==> button == Left && !old(blocks[i].isFlagged) && old(blocks[i].blockType) == Bomb
    {
      order := [];
      match button
      case Left =>
        order := LeftButtonDown(i);
      case Right =>
        RightButtonDown(i);
      case _ =>
    }

    /** The left-button case of OnMouseDown. */
    method LeftButtonDown(i: nat) returns (ghost order: seq<nat>)
      requires Consistent() && inputEnabled && i < blocks.Length
      modifies this, blocks
      ensures Consistent()
      ensures old(blocks[i].isFlagged) ==> blocks[..] == old(blocks[..]) && Current() == old(Current())
      ensures !old(blocks[i].isFlagged) && old(blocks[i].blockType) == Bomb ==>
        (forall j :: 0 <= j < blocks.Length ==> blocks[j] == Exposed(old(blocks[j]))) &&
        Current() == Ended(old(Current()), Lost)
      ensures !old(blocks[i].isFlagged) && old(blocks[i].blockType) == Number ==>
        blocks[..] == old(blocks[..])[i := old(blocks[i]).(isUncovered := true)] &&
        Current() == if old(blocks[i].isUncovered) then old(Current()) else AfterUncover(old(Current()))
      ensures !old(blocks[i].isFlagged) && old(blocks[i].blockType) == None ==>
        Spreading(old(blocks[..]), blocks[..], layout, links, order) &&
        (forall j :: ClosedAt(old(blocks[..]), blocks[..], links, j)) &&
        blocks[i].isUncovered && (order == [] <==> old(blocks[i].isUncovered)) &&
        Current() == AfterUncovers(old(Current()), |order|)
      ensures old(blocks[i].isFlagged) || old(blocks[i].blockType) != None ==> order == []
      ensures state == Lost <==> !old(blocks[i].isFlagged) && old(blocks[i].blockType) == Bomb
    {
      order := [];
      if blocks[i].isFlagged {
        return;
      }
      ghost var s0, c0 := blocks[..], Current();
      match blocks[i].blockType {
        case Bomb =>
          assert blocks[i].subscribed;
          OnExplode();
          assert forall j :: 0 <= j < |s0| ==> blocks[..][j] == Exposed(s0[j]);
          ExplodePlaying(config, layout, s0, blocks[..], c0);
          assert Consistent();
        case Number =>
          if !blocks[i].isUncovered {
            UncoverPlaying(config, layout, s0, c0, i);
          } else {
            assert s0[i := s0[i].(isUncovered := true)] == s0;
          }
          Uncover(i);
          assert blocks[..] == s0[i := s0[i].(isUncovered := true)];
          assert Consistent();
        case None =>
          order := SpreadUncover(i);
          SpreadSessions(c0, Current(), |order|);
      }
    }

    /** The right-button case of OnMouseDown. */
    method RightButtonDown(i: nat)
      requires Consistent() && inputEnabled && i < blocks.Length
      modifies this, blocks
      ensures Consistent()
      ensures old(blocks[i].isUncovered) ==> blocks[..] == old(blocks[..]) && Current() == old(Current())
      ensures !old(blocks[i].isUncovered) ==>
        blocks[..] == old(blocks[..])[i := old(blocks[i]).(isFlagged := !old(blocks[i].isFlagged))] &&
        Current() == old(Current()).(flagsRemaining := old(flagsRemaining) + if old(blocks[i].isFlagged) then 1 else -1)
    {
      if blocks[i].isUncovered {
        return;
      }
      ghost var s0, c0 := blocks[..], Current();
      FlagPlaying(config, layout, s0, c0, i);
      assert blocks[i].subscribed;
      blocks[i] := blocks[i].(isFlagged := !blocks[i].isFlagged);
      OnFlag(blocks[i].isFlagged);
    }

    /** A mouse press on block `i`: it reaches the block's handler only while input is enabled,
        so once the game is won or lost nothing changes any more. */
    method Click(i: nat, button: MouseButton) returns (ghost order: seq<nat>)
      requires Consistent() && i < blocks.Length
      modifies this, blocks
      ensures Consistent()
      ensures !old(inputEnabled) ==> blocks[..] == old(blocks[..]) && Current() == old(Current())
      ensures old(state) == Won || old(state) == Lost ==> blocks[..] == old(blocks[..]) && Current() == old(Current())
      ensures old(inputEnabled) ==> (state == Lost <==>
        button == Left && !old(blocks[i].isFlagged) && old(blocks[i].blockType) == Bomb)
    {
      order := [];
      assert Coherent(Current());
      if inputEnabled {
        order := OnMouseDown(i, button);
      }
    }
  }
}
