/** Board geometry and tile map of the game.  The game reads these as static
    constants; here they are one value passed to every operation that needs
    them, so that the proofs hold for any consistent configuration. */
module Config {

  /** The four movement directions a block can take ('U', 'D', 'L', 'R'). */
  const Directions: set<char> := {'U', 'D', 'L', 'R'}

  datatype Option<T> = None | Some(value: T)

  datatype GameConfig = GameConfig(
    tileSize: int,          // edge of one square tile, in pixels
    boardWidth: int,        // width of the playing field, in pixels
    rowCount: nat,          // rows of the tile map that are read
    columnCount: nat,       // columns of each row that are read
    tileMap: seq<string>)   // one string per row
  {
    /** A configuration the game can run with: positive sizes and a tile map
        with a character at every (row, column) that is read; rows and
        columns past those are never read. */
    predicate Valid() {
      tileSize > 0 && boardWidth > 0 &&
      rowCount <= |tileMap| &&
      forall r :: 0 <= r < rowCount ==> columnCount <= |tileMap[r]|
    }

    /** The character of the tile at row r, column c. */
    function TileAt(r: nat, c: nat): char
      requires Valid() && r < rowCount && c < columnCount
    {
      tileMap[r][c]
    }
  }
}
