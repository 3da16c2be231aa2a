/** src/MainWindow.xaml.cs: the preset table, the validation of a custom game, the choice of the
    next game when "New game" is clicked, and the replacement of the game shown. The window's
    `new GameView(config)` names the GameView of namespace Minesweeper, the older engine (module
    Legacy). The text boxes and radio buttons are inputs: each text box arrives already read by
    int.TryParse (None where that fails), each radio button as a boolean. */
module Window {
  import Wrappers
  import opened Config
  import opened Placement
  import opened Decimal
  import Layout
  import Legacy

  datatype Difficulty = Easy | Normal | Hard

  /** The preset table. */
  function Preset(d: Difficulty): GameConfig {
    match d
    case Easy => GameConfig(10, 10, 10)
    case Normal => GameConfig(20, 20, 40)
    case Hard => GameConfig(20, 20, 100)
  }

  /** The limits a custom game must keep: 1 to 99 rows, 1 to 99 columns, and at least one bomb
      but no more bombs than cells. */
  predicate Valid(c: GameConfig) {
    1 <= c.rows <= 99 && 1 <= c.columns <= 99 && 1 <= c.bombs <= c.rows * c.columns
  }

  /** A parsed text box holding an integer from 1 to `hi`. */
  predicate InRange(v: Wrappers.Option<int>, hi: int) {
    v.Some? && 0 < v.value <= hi
  }

  /** The complaint shown for the first field found wrong; the bombs complaint names the number
      of cells. */
  datatype Complaint = BadRows | BadColumns | BadBombs(cells: nat)

  /** The text of the message box that shows a complaint. */
  function ComplaintText(c: Complaint): string {
    match c
    case BadRows => "Rows count must be a valid integer between [1-99]"
    case BadColumns => "Columns count must be a valid integer between [1-99]"
    case BadBombs(cells) => "Bombs count must be a valid integer between [1-" + Digits(cells) + "]"
  }

  /** The checks of TryParseCustomConfig, rows first, then columns, then bombs: the custom
      game, or the complaint about the first field that is missing or out of range. */
  function CustomConfig(rows: Wrappers.Option<int>, columns: Wrappers.Option<int>, bombs: Wrappers.Option<int>)
    : (r: Wrappers.Result<GameConfig, Complaint>)
    ensures r.Success? <==> rows.Some? && columns.Some? && bombs.Some? &&
                            Valid(GameConfig(rows.value, columns.value, bombs.value))
    ensures r.Success? ==> r.value == GameConfig(rows.value, columns.value, bombs.value)
    ensures !InRange(rows, 99) ==> r == Wrappers.Failure(BadRows)
    ensures InRange(rows, 99) && !InRange(columns, 99) ==> r == Wrappers.Failure(BadColumns)
    ensures InRange(rows, 99) && InRange(columns, 99) && !InRange(bombs, rows.value * columns.value) ==>
      r == Wrappers.Failure(BadBombs(rows.value * columns.value))
  {
    if !InRange(rows, 99) then Wrappers.Failure(BadRows)
    else if !InRange(columns, 99) then Wrappers.Failure(BadColumns)
    else if !InRange(bombs, rows.value * columns.value) then Wrappers.Failure(BadBombs(rows.value * columns.value))
    else Wrappers.Success(GameConfig(rows.value, columns.value, bombs.value))
  }

  /** Every preset keeps the limits of a custom game, and typing a preset's numbers in gives
      that preset. */
  lemma PresetsValid(d: Difficulty)
    ensures Valid(Preset(d))
    ensures CustomConfig(Wrappers.Some(Preset(d).rows), Wrappers.Some(Preset(d).columns), Wrappers.Some(Preset(d).bombs))
            == Wrappers.Success(Preset(d))
  {
  }

  /** Exactly the configurations within the limits are accepted when typed in, and each of them
      comes back unchanged. */
  lemma CustomRoundTrip(c: GameConfig)
    ensures Valid(c) <==>
      CustomConfig(Wrappers.Some(c.rows), Wrappers.Some(c.columns), Wrappers.Some(c.bombs)) == Wrappers.Success(c)
  {
  }

  /** The game NewGameOnClick starts: the first checked of Easy, Medium and Hard gives its
      preset; otherwise Custom, when checked and valid, gives the custom game; otherwise none. */
  function Choice(easy: bool, medium: bool, hard: bool, custom: bool,
                  parsed: Wrappers.Result<GameConfig, Complaint>): Wrappers.Option<GameConfig> {
    if easy then Wrappers.Some(Preset(Easy))
    else if medium then Wrappers.Some(Preset(Normal))
    else if hard then Wrappers.Some(Preset(Hard))
    else if custom && parsed.Success? then Wrappers.Some(parsed.value)
    else Wrappers.None
  }

  /** Whatever is chosen keeps the limits of a custom game; a preset wins over Custom, and an
      invalid custom game chooses nothing. */
  lemma ChoiceValid(easy: bool, medium: bool, hard: bool, custom: bool,
                    rows: Wrappers.Option<int>, columns: Wrappers.Option<int>, bombs: Wrappers.Option<int>)
    ensures var chosen := Choice(easy, medium, hard, custom, CustomConfig(rows, columns, bombs));
      && (chosen.Some? ==> Valid(chosen.value))
      && (chosen.None? <==> !easy && !medium && !hard && (!custom || CustomConfig(rows, columns, bombs).Failure?))
      && (easy || medium || hard ==> chosen.Some? && chosen.value in {Preset(Easy), Preset(Normal), Preset(Hard)})
  {
    PresetsValid(Easy);
    PresetsValid(Normal);
    PresetsValid(Hard);
  }

  /** A child of MainGrid: one of the window's own controls, or a game. */
  datatype Child = Control(name: string) | Game(view: Legacy.GameView)

  /** The games among the children, in order. */
  function Games(s: seq<Child>): seq<Legacy.GameView> {
    if s == [] then [] else (if s[0].Game? then [s[0].view] else []) + Games(s[1..])
  }

  /** The other children, in order. */
  function Others(s: seq<Child>): seq<Child> {
    if s == [] then [] else (if s[0].Game? then [] else [s[0]]) + Others(s[1..])
  }

  /** Children.Remove: the first occurrence of `x` removed. */
  function Without(s: seq<Child>, x: Child): seq<Child> {
    if s == [] then [] else if s[0] == x then s[1..] else [s[0]] + Without(s[1..], x)
  }

  /** Removing the only game leaves the other children, and no game. */
  lemma {:induction false} WithoutOnlyGame(s: seq<Child>, g: Legacy.GameView)
    requires Games(s) == [g]
    ensures Games(Without(s, Game(g))) == [] && Others(Without(s, Game(g))) == Others(s)
  {
    if s[0].Game? {
      assert Games(s) == [s[0].view] + Games(s[1..]);
      assert Games(s)[0] == s[0].view;
      assert s[0] == Game(g);
      assert Without(s, Game(g)) == s[1..];
      NoGames(s[1..]);
      assert Others(s) == Others(s[1..]);
    } else {
      assert Games(s) == Games(s[1..]);
      WithoutOnlyGame(s[1..], g);
      var w := Without(s[1..], Game(g));
      assert Without(s, Game(g)) == [s[0]] + w;
      assert ([s[0]] + w)[0] == s[0] && ([s[0]] + w)[1..] == w;
      assert Games([s[0]] + w) == Games(w);
      assert Others([s[0]] + w) == [s[0]] + Others(w);
      assert Others(s) == [s[0]] + Others(s[1..]);
    }
  }

  /** A sequence with no game consists of other children only. */
  lemma {:induction false} NoGames(s: seq<Child>)
    requires Games(s) == []
    ensures Others(s) == s
  {
    if s != [] {
      NoGames(s[1..]);
    }
  }

  /** Adding a child at the end adds it to the games or the others. */
  lemma {:induction false} AppendChild(s: seq<Child>, x: Child)
    ensures Games(s + [x]) == Games(s) + (if x.Game? then [x.view] else [])
    ensures Others(s + [x]) == Others(s) + (if x.Game? then [] else [x])
  {
    if s != [] {
      AppendChild(s[1..], x);
      assert (s + [x])[1..] == s[1..] + [x];
    }
  }

  class MainWindow {
    /** MainGrid.Children. */
    var children: seq<Child>
    /** The DataContext: the game the window's bindings show. */
    var dataContext: Wrappers.Option<Legacy.GameView>
    /** The message boxes shown so far. */
    var messages: seq<string>

    /** The window shows at most one game. */
    ghost predicate Valid()
      reads this
    {
      |Games(children)| <= 1
    }

    /** The window with its own controls, starting a Normal game. */
    constructor (controls: seq<string>, draws: seq<Draw>)
      requires Suffice(20, 20, 40, draws)
      ensures Valid() && messages == []
      ensures Others(children) == seq(|controls|, k requires 0 <= k < |controls| => Control(controls[k]))
      ensures dataContext.Some? && fresh(dataContext.value) && Games(children) == [dataContext.value]
      ensures dataContext.value.config == Preset(Normal) && dataContext.value.Consistent()
      ensures Layout.Laid(Preset(Normal), dataContext.value.layout, dataContext.value.links)
    {
      children := seq(|controls|, k requires 0 <= k < |controls| => Control(controls[k]));
      dataContext := Wrappers.None;
      messages := [];
      new;
      NoGamesAmong(children);
      NoGames(children);
      CreateNewGame(Preset(Normal), draws);
    }

    /** Replaces the game shown, if any, with a new game of `config`, and shows it. */
    method CreateNewGame(config: GameConfig, draws: seq<Draw>)
      requires Valid() && 0 <= config.rows && 0 <= config.columns
      requires Suffice(config.rows, config.columns, config.bombs, draws)
      modifies this
      ensures Valid() && messages == old(messages)
      ensures Others(children) == old(Others(children))
      ensures dataContext.Some? && fresh(dataContext.value) && Games(children) == [dataContext.value]
      ensures dataContext.value.config == config && dataContext.value.Consistent()
      ensures dataContext.value.Current() == Legacy.Session(0, config.rows * config.columns, true, [])
      ensures Layout.Laid(config, dataContext.value.layout, dataContext.value.links)
    {
      ghost var before := children;
      if Games(children) != [] {
        children := Without(children, Game(Games(children)[0]));
      }
      var game := Start(config, draws);
      dataContext := Wrappers.Some(game);
      Replaced(before, children, game);
      children := children + [Game(game)];
    }

    /** TryParseCustomConfig: the custom game, or false with the complaint shown and no game. */
    method TryParseCustomConfig(rows: Wrappers.Option<int>, columns: Wrappers.Option<int>, bombs: Wrappers.Option<int>)
      returns (ok: bool, config: Wrappers.Option<GameConfig>)
      modifies this
      ensures ok == CustomConfig(rows, columns, bombs).Success?
      ensures config == if ok then Wrappers.Some(CustomConfig(rows, columns, bombs).value) else Wrappers.None
      ensures messages == old(messages) +
        if ok then [] else [ComplaintText(CustomConfig(rows, columns, bombs).error)]
      ensures children == old(children) && dataContext == old(dataContext)
    {
      var r := CustomConfig(rows, columns, bombs);
      if r.Failure? {
        messages := messages + [ComplaintText(r.error)];
        return false, Wrappers.None;
      }
      return true, Wrappers.Some(r.value);
    }

    /** The "New game" button: starts the chosen game, or, when nothing valid is chosen, keeps
        the game shown. The custom fields are read only when no preset is checked. */
    method NewGameOnClick(easy: bool, medium: bool, hard: bool, custom: bool,
                          rows: Wrappers.Option<int>, columns: Wrappers.Option<int>, bombs: Wrappers.Option<int>,
                          draws: seq<Draw>)
      requires Valid()
      requires var chosen := Choice(easy, medium, hard, custom, CustomConfig(rows, columns, bombs));
        chosen.Some? ==> Suffice(chosen.value.rows, chosen.value.columns, chosen.value.bombs, draws)
      modifies this
      ensures Valid()
      ensures var chosen := Choice(easy, medium, hard, custom, CustomConfig(rows, columns, bombs));
        && (chosen.None? ==> children == old(children) && dataContext == old(dataContext))
        && (chosen.Some? ==>
              Others(children) == old(Others(children)) &&
              dataContext.Some? && fresh(dataContext.value) && Games(children) == [dataContext.value] &&
              dataContext.value.config == chosen.value && dataContext.value.Consistent() &&
              Layout.Laid(chosen.value, dataContext.value.layout, dataContext.value.links))
      ensures messages == old(messages) +
        if !easy && !medium && !hard && custom && CustomConfig(rows, columns, bombs).Failure?
        then [ComplaintText(CustomConfig(rows, columns, bombs).error)] else []
    {
      ChoiceValid(easy, medium, hard, custom, rows, columns, bombs);
      if easy {
        CreateNewGame(Preset(Easy), draws);
      } else if medium {
        CreateNewGame(Preset(Normal), draws);
      } else if hard {
        CreateNewGame(Preset(Hard), draws);
      } else if custom {
        var ok, config := TryParseCustomConfig(rows, columns, bombs);
        if ok {
          CreateNewGame(config.value, draws);
        }
      }
    }
  }

  /** Removing the game, if any, and adding `g` leaves `g` the only game, with the other
      children as they were. */
  lemma Replaced(s: seq<Child>, rest: seq<Child>, g: Legacy.GameView)
    requires |Games(s)| <= 1
    requires rest == if Games(s) == [] then s else Without(s, Game(Games(s)[0]))
    ensures Games(rest + [Game(g)]) == [g] && Others(rest + [Game(g)]) == Others(s)
  {
    if Games(s) == [] {
      NoGames(s);
    } else {
      WithoutOnlyGame(s, Games(s)[0]);
    }
    AppendChild(rest, Game(g));
  }

  /** `new GameView(config)`, with what the window relies on. */
  method Start(config: GameConfig, draws: seq<Draw>) returns (game: Legacy.GameView)
    requires 0 <= config.rows && 0 <= config.columns
    requires Suffice(config.rows, config.columns, config.bombs, draws)
    ensures fresh(game) && game.config == config && game.Consistent()
    ensures game.Current() == Legacy.Session(0, config.rows * config.columns, true, [])
    ensures Layout.Laid(config, game.layout, game.links)
  {
    game := new Legacy.GameView(config, draws);
  }

  /** Controls alone hold no game. */
  lemma {:induction false} NoGamesAmong(s: seq<Child>)
    requires forall k :: 0 <= k < |s| ==> s[k].Control?
    ensures Games(s) == []
  {
    if s != [] {
      NoGamesAmong(s[1..]);
    }
  }
}
