/** What a game shows the player and what the player does to it: its message boxes and the
    mouse buttons its blocks react to. */
module Events {
  /** The text of a message box the game shows. */
  datatype Message = Winner | Loser

  datatype MouseButton = Left | Middle | Right | XButton1 | XButton2
}
