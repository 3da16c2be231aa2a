/** The dimensions of a game: src/GameConfig.cs, a record of three integers. */
module Config {

  datatype GameConfig = GameConfig(rows: int, columns: int, bombs: int)
}
