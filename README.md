# Minesweeper board engine, modelled in Dafny

This project models the logic of a WPF Minesweeper game. Its model checks the following:

- The game builds a rows × columns board of blocks and links each block to its in-bounds neighbours.
- It places bombs by rejection sampling, and every placed bomb raises the count of each neighbour that is not a bomb.
- A left click may:
  - set off a bomb;
  - uncover a number;
  - start a flood fill from a blank block.
- A right click flags or unflags a covered block.
- A session layer counts the flags and the blocks left to uncover, and decides when the game is won or lost.

The repository holds two generations of this engine, and both are modelled:

- **Current engine** (`src/Views/GameView.xaml.cs`, `src/Views/BlockView.xaml.cs`): module `Views`. Its state is Ready, InProgress, Won or Lost.
- **Older engine** (`src/GameView.xaml.cs`, `src/BlockView.xaml.cs`): module `Legacy`, modelled as written.
  - Its integer status is 0 in progress, 1 lost and 2 won.
  - Its counter of unexposed blocks includes the bombs.
  - Clicking a bomb exposes that bomb first. That exposure can pass the win test, so the game may show "Winner" and then "Loser" for the same click.
  - A win leaves input on.

Smaller pieces:

- the per-cell record `CellView` (module `Cells`);
- the window (`src/MainWindow.xaml.cs`, module `Window`): the preset table, the validation of a custom game, the choice of the next game and the replacement of the game shown;
- the elapsed-time formatter (`src/Converters/TimespanStringConverter.cs`, module `Timespan`).

`GameConfig` is a datatype (module `Config`).

How each engine becomes a Dafny class:

- Each engine's `GameView` is a class that owns its blocks:
  - an `array<Block>` in row-major order (index `row * columns + column`);
  - an `array<seq<nat>>` of neighbour lists, one list of indices per block;
  - fields for the session counters.
- Each BlockView method is a method of that class taking the index of its block.
- A BlockView event raised on its GameView (`OnUncover`, `OnExplode`, `OnFlag`, `OnExposed`, `OnBombClicked`) is a direct call to the handler.
- In the current engine, `UncoverAllBombs` unsubscribes the bombs before it uncovers them. A per-block `subscribed` flag models this, so those uncovers do not reach `OnUncover`.
- The `Random` source is a sequence of (row, column) draws given to the constructor. `Suffice` demands that the draws lie on the board and hit at least `bombs` distinct positions, so the generation loop terminates.
- Message boxes are appended to a `messages` log.
- `IsHitTestVisible` is the `inputEnabled` flag, and `Click` honours it.

Shared modules:

- `Grid`: the board geometry and the neighbour lists.
- `Placement`: which positions the draws select.
- `Blocks`: block records and what placing a bomb does to the counts.
- `Layout`: the board each constructor arrives at.
- `Spread`: what the flood fill does.
- `Counting`: counting over sequences.
- `Decimal`: `int.ToString()` and the D2 format.

Important invariants:

- `Layout.Laid` holds of each engine's board after construction:
  - every block sits at its own index and is wired to exactly its adjacent blocks;
  - the neighbour relation is symmetric and free of repeats;
  - there are exactly `bombs` bombs;
  - every block that is not a bomb holds the number of bombs around it, and is of type None exactly when that number is 0.
- The class invariant `Consistent()` of each engine ties the live blocks and counters to that layout.
  - The current engine: `UncoveredBlocksRemaining` equals the number of covered non-bomb blocks, and `FlagsRemaining` equals `Bombs` minus the flags placed.
  - The older engine: its counter equals the number of blocks not yet exposed.

## Model

| member | source | states |
|---|---|---|
| Grid.Locate | src/Views/GameView.xaml.cs:133-139 | TryGetBlockByPlacement finds a block exactly when (row, column) is in bounds. The block found is the one stored at that position's index. |
| Grid.NeighboursOf | src/Views/GameView.xaml.cs:98-113 | The list SetNeighbours builds for a block has at most eight entries, all of them on the board. |
| Grid.NeighboursOfMember | src/Views/GameView.xaml.cs:102-111 | A block is in a neighbour list exactly when one of the eight offsets locates it. |
| Grid.NeighboursSpec | src/Views/GameView.xaml.cs:98-113 | The neighbours of block i are exactly the blocks adjacent to it, at a side or a corner. Block i is never its own neighbour. |
| Grid.NeighboursSymmetric | src/Views/GameView.xaml.cs:98-113 | j is a neighbour of i exactly when i is a neighbour of j. |
| Grid.NeighboursOfDistinct | src/Views/GameView.xaml.cs:102-111 | No block is added twice to the same neighbour list. |
| Grid.NeighboursDistinct | src/Views/GameView.xaml.cs:98-113 | Every neighbour list has at most eight entries, none repeated. |
| Grid.LookupsDisjoint | src/Views/GameView.xaml.cs:133-139 | Lookups at two different positions never return the same block. |
| Grid.IndexOf | src/Views/GameView.xaml.cs:133-139 | An in-bounds position is stored at an index of the board, and the position can be read back from that index. |
| Grid.PositionOf | src/Views/GameView.xaml.cs:73-96 | Every index of the board holds the block of one in-bounds position. |
| Blocks.WiredSymmetric | src/Views/GameView.xaml.cs:98-113 | Neighbour lists built by SetNeighbours are free of repeats, stay on the board and form a symmetric relation. |
| Blocks.Bumped | src/Views/BlockView.xaml.cs:99-116 | UpdateNeighbours leaves a bomb neighbour unchanged. A Number neighbour gains exactly 1. A None neighbour becomes a Number holding 1. Position and play state never change. |
| Blocks.BlankNumbered | src/Views/GameView.xaml.cs:73-96 | Before any bomb is placed, every count is right and there is no bomb. |
| Blocks.PlacementStep | src/Views/GameView.xaml.cs:124-128 | SetAsBomb then UpdateNeighbours on a non-bomb keeps every count right: bombs hold 0, other blocks the number of bombs around them, None exactly when that is 0. The bomb map gains exactly that block, and the bomb count rises by one. |
| Blocks.PlacementKeepsPlay | src/Views/GameView.xaml.cs:124-128 | Placing a bomb leaves every block's position, uncovered and flagged flags and subscription unchanged. |
| Placement.ChosenSize | src/Views/GameView.xaml.cs:115-131 | Sufficient draws select exactly `bombs` positions, each one drawn and on the board. |
| Placement.ChosenFromSize | src/Views/GameView.xaml.cs:119-130 | Skipping repeated draws until `bombs` positions are held yields exactly `bombs` of them, all from the draws. |
| Placement.ChosenStep | src/Views/GameView.xaml.cs:121-129 | Consuming one more draw adds it to the positions drawn and leaves the final choice unchanged. |
| Placement.ChosenFromDone | src/Views/GameView.xaml.cs:119 | Once `bombs` positions are held, the loop stops consulting draws. |
| Layout.PlacedAtStart | src/Views/GameView.xaml.cs:117 | The generation loop's invariant holds before the first draw. |
| Layout.DrawsLeft | src/Views/GameView.xaml.cs:119 | While bombs are still missing, sufficient draws are not used up, so the loop terminates. |
| Layout.PlacedAtEnd | src/Views/GameView.xaml.cs:119-131 | When the loop ends, `bombs` bombs sit exactly at the chosen positions and every count is right. |
| Layout.GeneratedIsInitial | src/Views/GameView.xaml.cs:65-71 | The board the constructor builds is a function of the config and the draws only. |
| Layout.Started | src/Views/GameView.xaml.cs:23-24 | On a fresh board, Rows*Columns - Bombs safe blocks are covered and no flag is placed. |
| Layout.FreshBoard | src/Views/GameView.xaml.cs:73-96 | A new board has nothing uncovered or flagged, every block subscribed, and every neighbour list pointing into the board. |
| Spread.SpreadTrans | src/Views/BlockView.xaml.cs:149-161 | Two spreads in a row are a spread: a block once cleared stays cleared. |
| Spread.ChainedConcat | src/Views/BlockView.xaml.cs:159-160 | The recursive calls on the neighbours of a None block extend the chain of uncovered blocks. Every block after the first is a neighbour of an earlier None block. |
| Spread.NewlyUncoveredConcat | src/Views/BlockView.xaml.cs:154-160 | The blocks two steps uncover are those of the first step, then those of the second, each listed once. |
| Spread.SpreadCompose | src/Views/BlockView.xaml.cs:154-160 | A spread followed by a spread from one of its None block's neighbours is a single spread from the first block. |
| Spread.SpreadFirst | src/Views/BlockView.xaml.cs:151-157 | Uncovering the clicked covered, unflagged non-bomb block is the first step of a spread. A Number block stops the spread there. |
| Spread.SpreadNext | src/Views/BlockView.xaml.cs:159-160 | After the spread from the next neighbour, that neighbour is cleared and the loop's invariant holds one neighbour further. |
| Spread.SpreadDone | src/Views/BlockView.xaml.cs:159-160 | After all neighbours, every None block the spread uncovered has all its neighbours cleared: uncovered, flagged or a bomb. |
| Counting.CountIfUpdate | src/Views/GameView.xaml.cs:162 | Changing one block changes a count by exactly that block's contribution. |
| Counting.CountIfSplit | src/Views/GameView.xaml.cs:24 | A count over a disjoint union is the sum of the two counts. |
| Counting.CountIfNone | src/Views/GameView.xaml.cs:23 | A count is zero exactly when nothing satisfies the predicate. |
| Counting.MarkedSet | src/Views/BlockView.xaml.cs:99-116 | Making one block a bomb raises the bomb count of a repeat-free neighbour list by one exactly when the list holds that block. |
| Counting.DistinctConcat | src/Views/GameView.xaml.cs:102-111 | Joining repeat-free lists with no common entry gives a repeat-free list. |
| Decimal.Digits | src/BlockView.xaml.cs:107 | `Number.ToString()`: at least one digit, no leading zero, a single digit exactly below 10. |
| Decimal.ValueOfDigits | src/BlockView.xaml.cs:107 | The text Increment writes reads back as the number. |
| Decimal.DigitsInjective | src/BlockView.xaml.cs:107 | Different numbers get different texts. |
| Decimal.DigitsBelowHundred | src/Converters/TimespanStringConverter.cs:13 | Numbers below 100 have at most two digits. |
| Views.Report | src/Views/GameView.xaml.cs:180-188 | EndGame shows "Winner" for Won and "Loser" for Lost, and no message for any other state. |
| Views.NewGame | src/Views/GameView.xaml.cs:17-27 | A new game is in play: Ready, FlagsRemaining = Bombs, UncoveredBlocksRemaining = Rows*Columns - Bombs, timer off, input on. |
| Views.UncoverPlaying | src/Views/GameView.xaml.cs:154-166 | Uncovering a covered safe block keeps the invariant. The game becomes InProgress, or Won when it was the last covered safe block. |
| Views.FlagPlaying | src/Views/GameView.xaml.cs:168-171 | Flagging adds -1 and unflagging +1, with no clamping. The invariant still holds. |
| Views.ExplodePlaying | src/Views/GameView.xaml.cs:148-152 | Uncovering and unsubscribing every bomb and ending as Lost keeps the invariant: FlagsRemaining and the safe-block counter are unchanged. |
| Views.PlayKeepsCounts | src/Views/GameView.xaml.cs:115-131 | During play, every block still holds the number of bombs around it. |
| Views.WonCleared | src/Views/GameView.xaml.cs:164-165 | In a won game, every non-bomb block is uncovered. |
| Views.AfterUncoversAdd | src/Views/GameView.xaml.cs:154-166 | a uncovers heard and then b more are a+b uncovers. |
| Views.UncoversInPlay | src/Views/GameView.xaml.cs:154-166 | k uncovers from Ready or InProgress: the counter drops by k, and the game is won, with the timer stopped, input off and "Winner" shown, exactly when k was all that was left. Flags and time are untouched. |
| Views.SpreadSessions | src/Views/BlockView.xaml.cs:149-161 | The session after a flood fill of k blocks is that of k OnUncover calls. |
| Views.GameView.constructor | src/Views/GameView.xaml.cs:17-27 | The board is the initial board of the draws, laid and wired. The session is Ready, with Bombs flags and Rows*Columns - Bombs blocks to uncover, no time elapsed, timer off and input on. |
| Views.GameView.Initialize | src/Views/GameView.xaml.cs:65-71 | AddBlocks, SetNeighbours and GenerateBombs produce the initial board and its neighbour lists, and the result is laid. |
| Views.GameView.AddBlocks | src/Views/GameView.xaml.cs:73-96 | Every index holds a fresh block at its own row and column. |
| Views.GameView.TryGetBlockByPlacement | src/Views/GameView.xaml.cs:133-139 | Returns null out of bounds and the block at (row, column) otherwise. |
| Views.GameView.AddNeighbour | src/Views/BlockView.xaml.cs:91-97 | A null neighbour changes nothing. Otherwise exactly that block is appended to this block's list. Other lists are unchanged. |
| Views.GameView.LinkBlock | src/Views/GameView.xaml.cs:100-112 | A block's list becomes the eight lookups in source order, and no other list changes. |
| Views.GameView.SetNeighbours | src/Views/GameView.xaml.cs:98-113 | Every block's list is exactly its neighbour list. |
| Views.GameView.SetAsBomb | src/Views/BlockView.xaml.cs:65-69 | The block becomes a Bomb with Number 0, and nothing else changes. |
| Views.GameView.SetAsNumber | src/Views/BlockView.xaml.cs:71-75 | The block becomes a Number with Number 0, and nothing else changes. |
| Views.GameView.Increment | src/Views/BlockView.xaml.cs:86-89 | The block's Number rises by exactly 1. |
| Views.GameView.UpdateNeighbours | src/Views/BlockView.xaml.cs:99-116 | Every non-bomb neighbour becomes a Number with count +1. Bomb neighbours and all other blocks are unchanged. |
| Views.GameView.PlaceBomb | src/Views/GameView.xaml.cs:124-128 | Every count stays right, the bomb map gains the block and there is one more bomb. The player-visible state of every block is unchanged. |
| Views.GameView.DrawBomb | src/Views/GameView.xaml.cs:121-129 | One draw: a bomb already there is skipped, and any other block becomes a bomb and `generated` rises. The loop invariant is kept. |
| Views.GameView.GenerateBombs | src/Views/GameView.xaml.cs:115-131 | Ends with exactly Bombs bombs, at the positions the draws select. Every non-bomb block holds its bomb-neighbour count and is None exactly when that is 0. |
| Views.GameView.BeginTimer | src/Views/GameView.xaml.cs:202-213 | Starts the timer and changes nothing else. |
| Views.GameView.StopTimer | src/Views/GameView.xaml.cs:215-218 | Stops the timer and changes nothing else. |
| Views.GameView.Tick | src/Views/GameView.xaml.cs:205-211 | TimeElapsed rises by 1, whatever the state of the game. |
| Views.GameView.EndGame | src/Views/GameView.xaml.cs:173-189 | Stops the timer, sets the state, disables input and shows "Winner" or "Loser" for Won or Lost. |
| Views.GameView.OnUncover | src/Views/GameView.xaml.cs:154-166 | Ready becomes InProgress and begins the timer. The counter drops by one, and reaching 0 while InProgress ends the game as Won. |
| Views.GameView.OnFlag | src/Views/GameView.xaml.cs:168-171 | FlagsRemaining changes by -1 on a flag and +1 on an unflag. |
| Views.GameView.Uncover | src/Views/BlockView.xaml.cs:77-84 | The block ends uncovered. OnUncover is raised only when it was covered and is still subscribed, so an uncovered block is not counted twice. |
| Views.GameView.UncoverAllBombs | src/Views/GameView.xaml.cs:191-200 | Every bomb is unsubscribed and uncovered, flagged or not, and nothing else changes. The session is untouched, because bombs no longer reach OnUncover. |
| Views.GameView.OnExplode | src/Views/GameView.xaml.cs:148-152 | Every bomb is uncovered and the game ends as Lost, from any state, Ready included. FlagsRemaining is unchanged. |
| Views.GameView.SpreadUncover | src/Views/BlockView.xaml.cs:149-161 | Uncovers only covered, unflagged non-bombs and changes nothing else. It does nothing from a cleared block and stops at Numbers. Every None block it uncovers ends with all neighbours cleared, and every newly uncovered block after the first is a neighbour of an earlier None one. The counter drops by the number uncovered, and the invariant is kept. |
| Views.GameView.SpreadNeighbours | src/Views/BlockView.xaml.cs:159-160 | The loop over a None block's neighbours carries the spread through every neighbour. |
| Views.GameView.OnMouseDown | src/Views/BlockView.xaml.cs:118-147 | Left button: a flagged block ignores it; a Bomb raises OnExplode only; a Number uncovers only itself; a None block spreads. Right button: an uncovered block ignores it; otherwise the flag flips and OnFlag gets the new value. Other buttons do nothing. The game is Lost exactly after a left click on an unflagged bomb. |
| Views.GameView.LeftButtonDown | src/Views/BlockView.xaml.cs:122-137 | The left-button cases of OnMouseDown, each with its exact effect on the blocks and the session. |
| Views.GameView.RightButtonDown | src/Views/BlockView.xaml.cs:139-145 | An uncovered block ignores the right button. Otherwise the flag flips and FlagsRemaining moves by one. |
| Views.GameView.Click | src/Views/GameView.xaml.cs:178 | A click after the game is won or lost changes nothing. |
| Legacy.NewGame | src/GameView.xaml.cs:15-22 | A new game: status 0, Rows*Columns blocks unexposed, input on, no message. |
| Legacy.UnexposedSafe | src/GameView.xaml.cs:131-139 | Unless the game is lost, the counter minus Bombs is the number of covered safe blocks. |
| Legacy.WonCleared | src/GameView.xaml.cs:135-139 | In a won game, every safe block is exposed and only the bombs are left unexposed. |
| Legacy.ExposePlaying | src/GameView.xaml.cs:131-139 | Exposing a covered safe block keeps the invariant. The status becomes 2 exactly when it was the last, and input stays on. |
| Legacy.FlagPlaying | src/BlockView.xaml.cs:160-166 | Flipping a flag keeps the invariant and leaves the session untouched: no event is raised. |
| Legacy.DetonatePlaying | src/GameView.xaml.cs:120-129 | Exposing every bomb and setting status 1 keeps the invariant. The counter drops by the number of bombs still covered. |
| Legacy.WinnerThenLoser | src/BlockView.xaml.cs:144-147 | A bomb click always ends with status 1. It shows "Winner" then "Loser" when the game was already won or exactly one safe block was covered, and "Loser" alone otherwise. |
| Legacy.ExposesInPlay | src/GameView.xaml.cs:131-139 | k exposures in progress lower the counter by k. The status becomes 2, with "Winner" shown, exactly when only the bombs are left. Input is unchanged. |
| Legacy.SpreadSessions | src/BlockView.xaml.cs:170-184 | The session after a spread of k blocks is that of k OnExposed calls. |
| Legacy.PlacementLabels | src/GameView.xaml.cs:103-107 | Placing a bomb keeps every non-bomb text right: a Number shows its count and a None block shows nothing. |
| Legacy.GameView.constructor | src/GameView.xaml.cs:15-22 | The board is the initial board of the draws, laid, wired and labelled. The counter starts at Rows*Columns, with status 0 and input on. |
| Legacy.GameView.Initialize | src/GameView.xaml.cs:38-44 | AddBlocks, SetNeighbours and GenerateBombs produce the initial board, its neighbour lists and its texts. |
| Legacy.GameView.AddBlocks | src/GameView.xaml.cs:53-75 | Every index holds a fresh block at its own row and column. |
| Legacy.GameView.TryGetBlock | src/GameView.xaml.cs:112-118 | Returns null out of bounds and the block at (row, column) otherwise. |
| Legacy.GameView.AddNeighbour | src/BlockView.xaml.cs:110-116 | A null neighbour changes nothing. Otherwise exactly that block is appended, and other lists are unchanged. |
| Legacy.GameView.LinkBlock | src/GameView.xaml.cs:79-91 | A block's list becomes the eight lookups in source order, and no other list changes. |
| Legacy.GameView.SetNeighbours | src/GameView.xaml.cs:77-92 | Every block's list is exactly its neighbour list. |
| Legacy.GameView.SetAsBomb | src/BlockView.xaml.cs:81-86 | IsBomb set and IsNumber cleared, with Number 0; nothing else changes. |
| Legacy.GameView.SetAsNumber | src/BlockView.xaml.cs:88-93 | IsNumber set and IsBomb cleared, with Number 0; nothing else changes. |
| Legacy.GameView.Increment | src/BlockView.xaml.cs:104-108 | Number rises by 1, and Text becomes its decimal string. |
| Legacy.GameView.UpdateNeighbours | src/BlockView.xaml.cs:118-134 | Every non-bomb neighbour becomes a number with count +1 and shows the new count. Bomb neighbours are untouched. |
| Legacy.GameView.PlaceBomb | src/GameView.xaml.cs:103-107 | Every count and text stays right, and there is one more bomb, at that block. The player-visible state is unchanged. |
| Legacy.GameView.DrawBomb | src/GameView.xaml.cs:100-108 | One draw: an existing bomb is skipped, and any other block becomes a bomb. The loop invariant is kept. |
| Legacy.GameView.GenerateBombs | src/GameView.xaml.cs:94-110 | Ends with exactly Bombs bombs, at the positions the draws select, and every count and text right. |
| Legacy.GameView.OnExposed | src/GameView.xaml.cs:131-140 | The counter drops by 1. Status becomes 2, with "Winner" shown, when the counter minus Bombs reaches 0 while status is 0. |
| Legacy.GameView.Expose | src/BlockView.xaml.cs:95-102 | The block ends exposed. OnExposed fires only when it was not already exposed. |
| Legacy.GameView.OnBombClicked | src/GameView.xaml.cs:120-129 | Status 1 and input off. Every bomb is exposed, each exposure lowering the counter, and "Loser" is shown. |
| Legacy.GameView.SpreadExpose | src/BlockView.xaml.cs:170-184 | Exposes only covered, unflagged non-bombs and stops at numbers. Every None block exposed ends with all neighbours cleared. The counter drops by the number exposed, and the win test runs on each exposure. |
| Legacy.GameView.SpreadNeighbours | src/BlockView.xaml.cs:180-183 | The loop over a None block's neighbours carries the spread through every neighbour. |
| Legacy.GameView.OnMouseDown | src/BlockView.xaml.cs:136-168 | Left button: a flagged block ignores it; a bomb is exposed and then OnBombClicked is raised; a None block spreads; a number exposes only itself. Right button: an unexposed block's flag flips and no event is raised. The status is 1 exactly after a left click on an unflagged bomb. |
| Legacy.GameView.LeftButtonDown | src/BlockView.xaml.cs:140-158 | The left-button cases, each with its exact effect on the blocks and the session, including the Winner-then-Loser messages. |
| Legacy.GameView.HitBomb | src/BlockView.xaml.cs:144-149 | The bomb's own exposure, then OnBombClicked. A game won before, or one safe block short of winning, shows "Winner" then "Loser". |
| Legacy.GameView.RightButtonDown | src/BlockView.xaml.cs:160-166 | An exposed block ignores the right button. Otherwise the flag flips, and the session does not change. |
| Legacy.GameView.Click | src/GameView.xaml.cs:123 | Only a loss disables input. A won game still takes clicks, and a bomb clicked then sets status 1 after "Winner". |
| Cells.AsBomb | src/Views/CellView.xaml.cs:56-60 | CellType Bomb with BombsNearby 0; the uncovered and flagged flags are kept. |
| Cells.AsNumber | src/Views/CellView.xaml.cs:62-66 | CellType Number with BombsNearby 0; the uncovered and flagged flags are kept. |
| Cells.Uncovered | src/Views/CellView.xaml.cs:68-74 | The cell is uncovered and nothing else changes. |
| Cells.Toggled | src/Views/CellView.xaml.cs:76-79 | IsFlagged flips, whether or not the cell is uncovered. |
| Cells.Incremented | src/Views/CellView.xaml.cs:81-84 | BombsNearby rises by exactly 1. |
| Cells.UncoverIdempotent | src/Views/CellView.xaml.cs:68-74 | A second Uncover changes nothing. |
| Cells.ToggleInvolution | src/Views/CellView.xaml.cs:76-79 | Two ToggleFlag calls are the identity. |
| Cells.NumberCounts | src/Views/CellView.xaml.cs:62-84 | SetAsNumber followed by k Increments holds k. |
| Cells.CellView.constructor | src/Views/CellView.xaml.cs:12-18 | Row and Column are set once and are constants; the other properties start at their defaults. |
| Cells.CellView.SetAsBomb | src/Views/CellView.xaml.cs:56-60 | The state becomes AsBomb of the old state. |
| Cells.CellView.SetAsNumber | src/Views/CellView.xaml.cs:62-66 | The state becomes AsNumber of the old state. |
| Cells.CellView.Uncover | src/Views/CellView.xaml.cs:68-74 | The state becomes Uncovered of the old state. |
| Cells.CellView.ToggleFlag | src/Views/CellView.xaml.cs:76-79 | The state becomes Toggled of the old state. |
| Cells.CellView.Increment | src/Views/CellView.xaml.cs:81-84 | The state becomes Incremented of the old state. |
| Timespan.D2 | src/Converters/TimespanStringConverter.cs:13 | The "D2" format: all digits, at least two, exactly two below 100, and it reads back as the number. |
| Timespan.ZeroPadded | src/Converters/TimespanStringConverter.cs:13 | The zero D2 pads with does not change the value. |
| Timespan.Convert | src/Converters/TimespanStringConverter.cs:9-18 | Five characters: two digits of (value / 60) % 60, a colon, two digits of value % 60. |
| Timespan.HoursDropped | src/Converters/TimespanStringConverter.cs:11-15 | Whole hours more give the same text. |
| Timespan.WholeHours | src/Converters/TimespanStringConverter.cs:11-15 | A whole number of hours, 3600 seconds among them, shows "00:00". |
| Timespan.ConvertInjective | src/Converters/TimespanStringConverter.cs:11-15 | Equal texts mean equal minutes and seconds fields. |
| Timespan.ConvertBack | src/Converters/TimespanStringConverter.cs:20-23 | Always fails. |
| Window.CustomConfig | src/MainWindow.xaml.cs:53-77 | Accepted exactly when rows are 1..99, columns 1..99 and bombs 1..rows*columns, and then the config is exactly the parsed numbers. The checks run in the order rows, columns, bombs, and the bombs complaint names rows*columns. |
| Window.PresetsValid | src/MainWindow.xaml.cs:11-16 | Easy 10/10/10, Normal 20/20/40 and Hard 20/20/100 all pass the custom validator unchanged. |
| Window.CustomRoundTrip | src/MainWindow.xaml.cs:55-76 | A config typed in is accepted exactly when it is valid, and comes back unchanged. |
| Window.ChoiceValid | src/MainWindow.xaml.cs:24-37 | A chosen game is always valid. No game is chosen exactly when no preset is checked and Custom is unchecked or invalid. Easy, then Medium, then Hard win over Custom. |
| Window.WithoutOnlyGame | src/MainWindow.xaml.cs:41-43 | Removing the only game removes every game and keeps the other children in order. |
| Window.AppendChild | src/MainWindow.xaml.cs:50 | Adding a child adds it to the games or to the other children. |
| Window.Replaced | src/MainWindow.xaml.cs:41-50 | Removing the existing game, if any, and adding the new one leaves the new one as the only game, with the other children unchanged. |
| Window.Start | src/MainWindow.xaml.cs:45 | `new GameView(config)` of the older engine: a fresh game in progress, with status 0, Rows*Columns blocks unexposed and input on. Its board is laid: blocks wired to their neighbours, exactly Bombs bombs, and every other block holding its bomb-neighbour count. |
| Window.MainWindow.constructor | src/MainWindow.xaml.cs:18-22 | Startup shows one game, a laid Normal one, beside the window's own controls. |
| Window.MainWindow.CreateNewGame | src/MainWindow.xaml.cs:39-51 | Afterwards exactly one game child exists, the new one, laid on `config`, and it is the DataContext. The other children are unchanged. |
| Window.MainWindow.TryParseCustomConfig | src/MainWindow.xaml.cs:53-77 | Returns true with the parsed config exactly when valid. Otherwise it returns false with no config and shows the message for the first failing field. |
| Window.MainWindow.NewGameOnClick | src/MainWindow.xaml.cs:24-37 | Starts the game Choice selects. When nothing valid is chosen, the current game and DataContext stay, and only an invalid custom game shows a message. |

## Left out

- WPF plumbing is left out because it is UI with no game logic. This covers:
  - DependencyProperty registration and `InitializeComponent`;
  - the `GameGrid` row and column definitions, `Grid.SetRow` and `Grid.SetColumn`;
  - adding blocks to `GameGrid.Children`;
  - `GetAllBlocks`, whose row-major walk is the index order of the block array.
- `System.Timers.Timer` and `Dispatcher.Invoke` are left out: they are concurrency and thread marshalling.
  - `BeginTimer` and `StopTimer` only set `timerRunning`.
  - A timer tick is the method `Tick`, which raises `TimeElapsed` with no state guard, as in the source.
  - `BeginTimer` adding one more Elapsed handler on every call is not modelled.
- `Random` seeded from `Guid.NewGuid()` is a parameter: the sequence of draws.
  - `Suffice` asks that the draws lie on the board and hold at least Bombs distinct positions.
  - With fewer distinct positions, or Bombs > Rows*Columns, the source loops for ever. The model demands that its callers rule this out.
- `Interlocked.Decrement` is a plain decrement, because the model is sequential.
- `int.TryParse` of the text boxes and the radio buttons' `IsChecked` are inputs. They arrive as optional integers and booleans.
- The message boxes are appended to a log and not displayed.
- `src/Enums` is not part of this model. The members of GameState, BlockType and CellType are inferred from their uses. Their defaults are taken to be Ready and None.
- `TimeSpan.FromSeconds` is replaced by integer division and remainder on the seconds.
- Timespan.Convert: requires a non-negative count and does not model TimeSpan's behaviour for negative values; the elapsed time is never negative.
- The older engine's Text of a bomb keeps whatever it showed before SetAsBomb. The model leaves that text unconstrained.
- The current engine cannot be won when Bombs == Rows*Columns.
  - UncoveredBlocksRemaining starts at 0, and no safe block can raise OnUncover.
  - The model keeps this behaviour.
- Blocks' neighbour lists are a separate array beside the block records rather than a field of each record. The order and contents of each list are those of SetNeighbours.
- Window.MainWindow.NewGameOnClick: requires sufficient draws for whatever game it starts, as the GameView constructor does.
