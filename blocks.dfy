/** The game's one entity type: a rectangle on the board with an image, a
    remembered start position, a direction and a velocity.  Walls, food,
    ghosts, cherries and Pac-Man are all blocks. */
module Blocks {

  /** The pictures a block can carry.  Loading them is outside the model;
      only their identity matters.  NoImage stands for a null image. */
  datatype Image =
    | NoImage
    | WallImage
    | BlueGhostImage | OrangeGhostImage | PinkGhostImage | RedGhostImage
    | PacmanUpImage | PacmanDownImage | PacmanLeftImage | PacmanRightImage
    | CherryImage

  /** An axis-aligned integer rectangle: top-left corner and size. */
  datatype Rect = Rect(x: int, y: int, width: int, height: int)

  /** What a tile map places on the board: an image in a rectangle. */
  datatype Sprite = Sprite(image: Image, bounds: Rect)

  /** All fields of a block, as a value. */
  datatype BlockView = BlockView(
    x: int, y: int, width: int, height: int, image: Image,
    startX: int, startY: int, direction: char, velocityX: int, velocityY: int)

  /** The state of a block just built by the constructor. */
  function Created(image: Image, x: int, y: int, width: int, height: int): (v: BlockView)
    ensures v.x == v.startX == x && v.y == v.startY == y
    ensures v.width == width && v.height == height && v.image == image
    ensures v.direction == 'U' && v.velocityX == 0 && v.velocityY == 0
  {
    BlockView(x, y, width, height, image, x, y, 'U', 0, 0)
  }

  /** The effect of reset() on a block's fields. */
  function ResetView(v: BlockView): (r: BlockView)
    ensures r.x == r.startX && r.y == r.startY
    ensures r.(x := v.x, y := v.y) == v
  {
    v.(x := v.startX, y := v.startY)
  }

  /** Resetting a block twice is the same as resetting it once. */
  lemma ResetIdempotent(v: BlockView)
    ensures ResetView(ResetView(v)) == ResetView(v)
  {
  }

  class Block {
    var x: int
    var y: int
    var width: int
    var height: int
    var image: Image
    var startX: int
    var startY: int
    var direction: char
    var velocityX: int
    var velocityY: int

    /** The fields of this block as one value. */
    function View(): BlockView
      reads this
    {
      BlockView(x, y, width, height, image, startX, startY, direction, velocityX, velocityY)
    }

    /** The rectangle the block occupies. */
    function Bounds(): Rect
      reads this
    {
      Rect(x, y, width, height)
    }

    /** The image and rectangle of the block. */
    function Placed(): Sprite
      reads this
    {
      Sprite(image, Bounds())
    }

    /** The block stands still on its start position. */
    predicate Parked()
      reads this
    {
      x == startX && y == startY && velocityX == 0 && velocityY == 0
    }

    /** The block is parked and faces up: the state the constructor leaves
        it in. */
    predicate AtStart()
      reads this
    {
      Parked() && direction == 'U'
    }

    constructor (image: Image, x: int, y: int, width: int, height: int)
      ensures View() == Created(image, x, y, width, height)
      ensures AtStart() && Placed() == Sprite(image, Rect(x, y, width, height))
    {
      this.image := image;
      this.x := x;
      this.y := y;
      this.width := width;
      this.height := height;
      this.startX := x;
      this.startY := y;
      this.direction := 'U';
      this.velocityX := 0;
      this.velocityY := 0;
    }

    /** Moves the block back to where it was created. */
    method Reset()
      modifies this
      ensures View() == ResetView(old(View()))
    {
      x := startX;
      y := startY;
    }
  }
}
