/** The deterministic movement rules of the game panel: the probe block a
    quarter tile ahead, velocities by direction, the tunnel rows, the
    horizontal wrap-around of the board, the wall-guarded turn of Pac-Man,
    and Pac-Man's part of a game tick (its move, the food and the bonus
    cherry).  The panel's own fields (images, timer, random source) are not
    modelled; its operations take the game state they act on. */
module Panel {
  import opened Config
  import opened Blocks
  import opened CollisionHelper
  import opened State

  /** Points for eating the bonus cherry. */
  const CHERRY_SCORE: int := 500

  /** The unit step of a direction, as (dx, dy) with y growing downwards:
      'U' and 'D' move along y, 'L' and 'R' along x; 'U' and 'L' towards
      smaller coordinates, 'D' and 'R' towards larger ones.  (0, 0) for a
      character that is no direction. */
  function Heading(d: char): (h: (int, int))
    ensures d in Directions <==> h != (0, 0)
    ensures h.0 == 0 || h.1 == 0
    ensures -1 <= h.0 <= 1 && -1 <= h.1 <= 1
    ensures d in {'U', 'D'} ==> h.0 == 0 && h.1 != 0
    ensures d in {'L', 'R'} ==> h.1 == 0 && h.0 != 0
    ensures d in {'U', 'L'} ==> h.0 + h.1 == -1
    ensures d in {'D', 'R'} ==> h.0 + h.1 == 1
  {
    if d == 'U' then (0, -1)
    else if d == 'D' then (0, 1)
    else if d == 'L' then (-1, 0)
    else if d == 'R' then (1, 0)
    else (0, 0)
  }

  /** The rectangle of the probe block for a move of e in the given
      direction: e shifted a quarter tile that way, with e's size.  Any other
      character leaves it where e is.  Tile sizes are positive, so the
      integer division agrees with the game's truncating one. */
  function TestBlock(cfg: GameConfig, e: Rect, direction: char): (t: Rect)
    requires cfg.Valid()
    ensures t.width == e.width && t.height == e.height
    ensures t.x == e.x + Heading(direction).0 * (cfg.tileSize / 4)
    ensures t.y == e.y + Heading(direction).1 * (cfg.tileSize / 4)
  {
    var step := cfg.tileSize / 4;
    match direction
    case 'U' => Rect(e.x, e.y - step, e.width, e.height)
    case 'D' => Rect(e.x, e.y + step, e.width, e.height)
    case 'L' => Rect(e.x - step, e.y, e.width, e.height)
    case 'R' => Rect(e.x + step, e.y, e.width, e.height)
    case _ => Rect(e.x, e.y, e.width, e.height)
  }

  /** The fields of a block after its velocity is set from its direction at
      the given speed: along the direction's axis at minus the speed for 'U'
      and 'L', plus the speed for 'D' and 'R', and 0 across it.  A block
      facing no direction keeps its velocity. */
  function Steered(v: BlockView, speed: int): (s: BlockView)
    ensures s.(velocityX := v.velocityX, velocityY := v.velocityY) == v
    ensures v.direction in {'U', 'D'} ==> s.velocityX == 0 && (s.velocityY == speed || s.velocityY == -speed)
    ensures v.direction in {'L', 'R'} ==> s.velocityY == 0 && (s.velocityX == speed || s.velocityX == -speed)
    ensures v.direction in {'U', 'L'} ==> s.velocityX + s.velocityY == -speed
    ensures v.direction in {'D', 'R'} ==> s.velocityX + s.velocityY == speed
    ensures v.direction !in Directions ==> s == v
  {
    if v.direction in Directions then
      v.(velocityX := Heading(v.direction).0 * speed, velocityY := Heading(v.direction).1 * speed)
    else v
  }

  /** Sets the velocity of entity from its direction: a third of a tile per
      tick for a ghost, a quarter of a tile for anything else.  The tile size
      is positive, so the integer division agrees with the game's truncating
      one. */
  method UpdateVelocity(st: GameState, entity: Block)
    requires st.cfg.Valid()
    modifies entity
    ensures entity.View() ==
      Steered(old(entity.View()), if entity in st.ghosts then st.cfg.tileSize / 3 else st.cfg.tileSize / 4)
  {
    var speed := st.cfg.tileSize / 4;
    if entity in st.ghosts {
      speed := st.cfg.tileSize / 3;
    }
    match entity.direction {
      case 'U' =>
        entity.velocityX := 0;
        entity.velocityY := -speed;
      case 'D' =>
        entity.velocityX := 0;
        entity.velocityY := speed;
      case 'L' =>
        entity.velocityX := -speed;
        entity.velocityY := 0;
      case 'R' =>
        entity.velocityX := speed;
        entity.velocityY := 0;
      case _ =>
    }
  }

  /** The block lies strictly between the tops of rows 8 and 10 and within
      a tile of the left edge or of the right edge: its left side less than
      a tile from x = 0, or its right side less than a tile from the board's
      right edge. */
  predicate IsInTunnelArea(cfg: GameConfig, e: Rect): (inside: bool)
    ensures inside <==>
      8 * cfg.tileSize < e.y < 10 * cfg.tileSize &&
      (e.x < cfg.tileSize || cfg.boardWidth - (e.x + e.width) < cfg.tileSize)
  {
    (e.y > 8 * cfg.tileSize && e.y < 10 * cfg.tileSize) &&
    (e.x < cfg.tileSize || e.x > cfg.boardWidth - e.width - cfg.tileSize)
  }

  /** Between the tops of rows 8 and 10 lies the top of row 9 and no other. */
  lemma TunnelRow(t: int, r: int)
    requires t > 0
    ensures 8 * t < r * t < 10 * t <==> r == 9
  {
    if r <= 8 {
      assert (8 - r) * t >= 0;
    } else if r >= 10 {
      assert (r - 10) * t >= 0;
    }
  }

  /** A tile-sized block standing on the tile at row r, column c is in the
      tunnel area exactly when the tile is in row 9 and is either the first
      column or within two tiles of the right edge. */
  lemma TunnelTile(cfg: GameConfig, r: int, c: int)
    requires cfg.Valid()
    ensures var t := cfg.tileSize;
      IsInTunnelArea(cfg, Rect(c * t, r * t, t, t)) <==>
      r == 9 && (c <= 0 || c * t > cfg.boardWidth - 2 * t)
  {
    var t := cfg.tileSize;
    TunnelRow(t, r);
    if c <= 0 {
      assert c * t <= 0;
    } else {
      assert (c - 1) * t >= 0;
    }
  }

  /** Where a block at x with the given width ends up once the board's
      horizontal wrap-around is applied: one that has left on the left
      comes back at the right edge, one that has left on the right comes back
      just off the left edge, and any other stays.  A block of non-negative
      width is then never wholly past either edge. */
  function WrapAround(boardWidth: int, x: int, width: int): (wx: int)
    requires boardWidth > 0
    ensures wx == x || wx == boardWidth || wx == -width
    ensures width >= 0 ==> wx + width >= 0 && wx <= boardWidth
    ensures -width <= x <= boardWidth ==> wx == x
    ensures x + width < 0 ==> wx == boardWidth
    ensures x + width >= 0 && x > boardWidth ==> wx == -width
  {
    if x + width < 0 then boardWidth
    else if x > boardWidth then -width
    else x
  }

  /** Wrapping a block that has already been wrapped moves it no further. */
  lemma WrapAroundIdempotent(boardWidth: int, x: int, width: int)
    requires boardWidth > 0 && width >= 0
    ensures WrapAround(boardWidth, WrapAround(boardWidth, x, width), width) == WrapAround(boardWidth, x, width)
  {
  }

  /** Pac-Man's part of a tick: it moves by its velocity, wraps around the
      board, and steps back by its velocity when it then touches a wall.
      When no wrap took place, stepping back restores the position it had;
      after a wrap only y is restored. */
  method MovePacman(st: GameState)
    requires st.Valid()
    modifies st.pacman
    ensures var v := old(st.pacman.View());
      var wx := WrapAround(st.cfg.boardWidth, v.x + v.velocityX, v.width);
      var moved := Rect(wx, v.y + v.velocityY, v.width, v.height);
      st.pacman.View() ==
        if HitsAny(st.cfg.boardWidth, moved, st.walls) then v.(x := wx - v.velocityX)
        else v.(x := moved.x, y := moved.y)
    ensures var v := old(st.pacman.View());
      var wx := WrapAround(st.cfg.boardWidth, v.x + v.velocityX, v.width);
      wx == v.x + v.velocityX && HitsAny(st.cfg.boardWidth, Rect(wx, v.y + v.velocityY, v.width, v.height), st.walls) ==>
        st.pacman.View() == v
  {
    var p := st.pacman;
    ghost var v := p.View();
    p.x := p.x + p.velocityX;
    p.y := p.y + p.velocityY;
    if p.x + p.width < 0 {
      p.x := st.cfg.boardWidth;
    } else if p.x > st.cfg.boardWidth {
      p.x := -p.width;
    }
    assert p.View() == v.(x := WrapAround(st.cfg.boardWidth, v.x + v.velocityX, v.width), y := v.y + v.velocityY);
    var wall := CheckCollisionWithSet(st.cfg.boardWidth, p.Bounds(), st.walls);
    if wall != null {
      p.x := p.x - p.velocityX;
      p.y := p.y - p.velocityY;
    }
  }

  /** The food part of a tick: one food Pac-Man touches, if any, is removed
      for 10 points. */
  method EatFood(st: GameState)
    requires st.Valid()
    modifies st`foods, st`score
    ensures st.Valid()
    ensures st.foods <= old(st.foods) && |old(st.foods)| - |st.foods| <= 1
    ensures st.foods != old(st.foods) <==> HitsAny(st.cfg.boardWidth, st.pacman.Bounds(), old(st.foods))
    ensures forall f :: f in old(st.foods) && f !in st.foods ==> Collision(st.cfg.boardWidth, st.pacman.Bounds(), f.Bounds())
    ensures st.score == old(st.score) + if st.foods == old(st.foods) then 0 else FOOD_SCORE
  {
    var foodEaten := CheckCollisionWithSet(st.cfg.boardWidth, st.pacman.Bounds(), st.foods);
    if foodEaten != null {
      st.foods := st.foods - {foodEaten};
      st.score := st.score + FOOD_SCORE;
    }
  }

  /** The cherry part of a tick: a bonus cherry Pac-Man touches is eaten
      for 500 points and disappears. */
  method EatCherry(st: GameState)
    requires st.Valid()
    modifies st`score, st`cherry
    ensures st.Valid()
    ensures var ate := old(st.cherry) != null && Collision(st.cfg.boardWidth, st.pacman.Bounds(), old(st.cherry.Bounds()));
      (ate ==> st.score == old(st.score) + CHERRY_SCORE && st.cherry == null) &&
      (!ate ==> st.score == old(st.score) && st.cherry == old(st.cherry))
  {
    if st.cherry != null && Collision(st.cfg.boardWidth, st.pacman.Bounds(), st.cherry.Bounds()) {
      st.score := st.score + CHERRY_SCORE;
      st.cherry := null;
    }
  }

  /** The image of Pac-Man facing the given direction; img for a character
      that is no direction. */
  function Facing(d: char, img: Image): (i: Image)
    ensures d in Directions ==> i in {PacmanUpImage, PacmanDownImage, PacmanLeftImage, PacmanRightImage}
    ensures d == 'U' ==> i == PacmanUpImage
    ensures d == 'D' ==> i == PacmanDownImage
    ensures d == 'L' ==> i == PacmanLeftImage
    ensures d == 'R' ==> i == PacmanRightImage
    ensures d !in Directions ==> i == img
  {
    match d
    case 'U' => PacmanUpImage
    case 'D' => PacmanDownImage
    case 'L' => PacmanLeftImage
    case 'R' => PacmanRightImage
    case _ => img
  }

  /** Each of the four directions has its own image of Pac-Man. */
  lemma FacingDistinct(d: char, e: char, img: Image, img': Image)
    requires d in Directions && e in Directions && Facing(d, img) == Facing(e, img')
    ensures d == e
  {
  }

  /** Before any wrap-around, the probe for a direction lies exactly where
      a block steered that way at a quarter tile per tick moves by its
      velocity; so when the probe touches no wall, neither does that
      unwrapped step.  When the step leaves the block not wholly past either
      edge of the board the wrap keeps it there, and the step's final
      position is the probe's.  A step that wraps lands elsewhere, and the
      probe says nothing about walls there. */
  lemma ProbeIsNextStep(cfg: GameConfig, v: BlockView, d: char, walls: set<Block>)
    requires cfg.Valid() && d in Directions
    ensures var s := Steered(v.(direction := d), cfg.tileSize / 4);
      var probe := TestBlock(cfg, Rect(v.x, v.y, v.width, v.height), d);
      var next := Rect(s.x + s.velocityX, s.y + s.velocityY, s.width, s.height);
      probe == next && HitsAny(cfg.boardWidth, probe, walls) == HitsAny(cfg.boardWidth, next, walls) &&
      (-next.width <= next.x <= cfg.boardWidth ==> WrapAround(cfg.boardWidth, next.x, next.width) == probe.x)
  {
  }

  /** Turns Pac-Man towards direction when the probe a quarter tile that
      way touches no wall: it takes the direction, the velocity of that
      direction and the image facing it.  When the probe touches a wall
      Pac-Man is left as it was.  By ProbeIsNextStep, after a turn to one of
      the four directions the step Pac-Man's new velocity leads to is clear
      of walls. */
  method UpdatePacmanDirection(st: GameState, direction: char)
    requires st.Valid()
    modifies st.pacman
    ensures var v := old(st.pacman.View());
      var probe := TestBlock(st.cfg, Rect(v.x, v.y, v.width, v.height), direction);
      st.pacman.View() ==
        if HitsAny(st.cfg.boardWidth, probe, st.walls) then v
        else Steered(v.(direction := direction), st.cfg.tileSize / 4).(image := Facing(direction, v.image))
  {
    var p := st.pacman;
    var temp := TestBlock(st.cfg, p.Bounds(), direction);
    var wall := CheckCollisionWithSet(st.cfg.boardWidth, temp, st.walls);
    if wall == null {
      p.direction := direction;
      UpdateVelocity(st, p);
      match direction {
        case 'U' => p.image := PacmanUpImage;
        case 'D' => p.image := PacmanDownImage;
        case 'L' => p.image := PacmanLeftImage;
        case 'R' => p.image := PacmanRightImage;
        case _ =>
      }
    }
  }
}
