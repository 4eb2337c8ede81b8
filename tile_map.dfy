/** What the tile map puts on the board, as a specification: for each kind
    of tile, the set of sprites it yields, built row by row and column by
    column in the order the map is read. */
module TileMap {
  import opened Config
  import opened Blocks

  /** Food pellets are 4x4 squares 14 pixels in from their tile's corner. */
  const FOOD_OFFSET: int := 14
  const FOOD_SIZE: int := 4

  datatype TileKind = WallTile | GhostTile | PacmanTile | FoodTile | CherryTile | OtherTile

  /** 'X' wall, 'b' 'o' 'p' 'r' the four ghosts, 'P' Pac-Man, ' ' food,
      'C' cherry; any other character places nothing. */
  function KindOf(ch: char): (k: TileKind)
    ensures k == WallTile <==> ch == 'X'
    ensures k == GhostTile <==> ch in {'b', 'o', 'p', 'r'}
    ensures k == PacmanTile <==> ch == 'P'
    ensures k == FoodTile <==> ch == ' '
    ensures k == CherryTile <==> ch == 'C'
  {
    match ch
    case 'X' => WallTile
    case 'b' => GhostTile
    case 'o' => GhostTile
    case 'p' => GhostTile
    case 'r' => GhostTile
    case 'P' => PacmanTile
    case ' ' => FoodTile
    case 'C' => CherryTile
    case _ => OtherTile
  }

  /** The sprite placed for the tile at row r, column c: a tile-sized block
      at (c * tileSize, r * tileSize), except food, which is small and
      centred. */
  function TileSprite(cfg: GameConfig, r: nat, c: nat): (s: Sprite)
    requires cfg.Valid() && r < cfg.rowCount && c < cfg.columnCount
    ensures KindOf(cfg.TileAt(r, c)) == FoodTile ==>
      s.bounds == Rect(c * cfg.tileSize + FOOD_OFFSET, r * cfg.tileSize + FOOD_OFFSET, FOOD_SIZE, FOOD_SIZE)
    ensures KindOf(cfg.TileAt(r, c)) != FoodTile ==>
      s.bounds == Rect(c * cfg.tileSize, r * cfg.tileSize, cfg.tileSize, cfg.tileSize)
  {
    var x := c * cfg.tileSize;
    var y := r * cfg.tileSize;
    var t := cfg.tileSize;
    match cfg.TileAt(r, c)
    case 'X' => Sprite(WallImage, Rect(x, y, t, t))
    case 'b' => Sprite(BlueGhostImage, Rect(x, y, t, t))
    case 'o' => Sprite(OrangeGhostImage, Rect(x, y, t, t))
    case 'p' => Sprite(PinkGhostImage, Rect(x, y, t, t))
    case 'r' => Sprite(RedGhostImage, Rect(x, y, t, t))
    case 'P' => Sprite(PacmanRightImage, Rect(x, y, t, t))
    case ' ' => Sprite(NoImage, Rect(x + FOOD_OFFSET, y + FOOD_OFFSET, FOOD_SIZE, FOOD_SIZE))
    case 'C' => Sprite(CherryImage, Rect(x, y, t, t))
    case _ => Sprite(NoImage, Rect(x, y, t, t))
  }

  /** What a prefix of the map places, in reading order: the sprites of the
      walls, food, ghosts and cherries, and the Pac-Man sprite last read. */
  datatype Placement = Placement(
    walls: set<Sprite>, foods: set<Sprite>, ghosts: set<Sprite>, cherries: set<Sprite>,
    pacman: Option<Sprite>)

  const Nothing := Placement({}, {}, {}, {}, None)

  /** The sprites a placement holds for a kind of tile that becomes a set
      member; Pac-Man and other characters have none. */
  function OfKind(p: Placement, kind: TileKind): set<Sprite> {
    match kind
    case WallTile => p.walls
    case FoodTile => p.foods
    case GhostTile => p.ghosts
    case CherryTile => p.cherries
    case _ => {}
  }

  /** The placement after reading one more tile, of the given kind, with the
      given sprite: its sprite joins the set of its kind, a 'P' replaces
      Pac-Man, and any other character changes nothing. */
  function Place(p: Placement, kind: TileKind, s: Sprite): (q: Placement)
    ensures forall k :: OfKind(q, k) == OfKind(p, k) + (if k == kind && k != PacmanTile && k != OtherTile then {s} else {})
    ensures q.pacman == if kind == PacmanTile then Some(s) else p.pacman
  {
    match kind
    case WallTile => p.(walls := p.walls + {s})
    case FoodTile => p.(foods := p.foods + {s})
    case GhostTile => p.(ghosts := p.ghosts + {s})
    case CherryTile => p.(cherries := p.cherries + {s})
    case PacmanTile => p.(pacman := Some(s))
    case OtherTile => p
  }

  /** Row r, column c is a position of the reading order: a tile, or the
      end of a row, or the end of the map. */
  predicate InReading(cfg: GameConfig, r: nat, c: nat) {
    r <= cfg.rowCount && c <= cfg.columnCount && (r == cfg.rowCount ==> c == 0)
  }

  /** Tile (j, k) is read before position (r, c). */
  predicate ReadBefore(j: nat, k: nat, r: nat, c: nat) {
    j < r || (j == r && k < c)
  }

  /** What the tiles read before row r, column c place, reading the map row
      by row and each row from left to right. */
  function Before(cfg: GameConfig, r: nat, c: nat): Placement
    requires cfg.Valid() && InReading(cfg, r, c)
    decreases r, c
  {
    if c == 0 then
      if r == 0 then Nothing else Before(cfg, r - 1, cfg.columnCount)
    else
      Place(Before(cfg, r, c - 1), KindOf(cfg.TileAt(r, c - 1)), TileSprite(cfg, r, c - 1))
  }

  /** What the whole map places. */
  function Level(cfg: GameConfig): Placement
    requires cfg.Valid()
  {
    Before(cfg, cfg.rowCount, 0)
  }

  /** Every tile read of a kind that becomes a set member contributes its
      sprite to that kind's set. */
  lemma {:induction false} BeforeComplete(cfg: GameConfig, r: nat, c: nat, j: nat, k: nat)
    requires cfg.Valid() && InReading(cfg, r, c) && ReadBefore(j, k, r, c) && k < cfg.columnCount
    ensures TileSprite(cfg, j, k) in OfKind(Before(cfg, r, c), KindOf(cfg.TileAt(j, k))) ||
      KindOf(cfg.TileAt(j, k)) in {PacmanTile, OtherTile}
    decreases r, c
  {
    if c == 0 {
      BeforeComplete(cfg, r - 1, cfg.columnCount, j, k);
    } else if j != r || k != c - 1 {
      BeforeComplete(cfg, r, c - 1, j, k);
    }
  }

  /** The sprite s comes from some tile of the given kind read before row
      r, column c. */
  ghost predicate FromTile(cfg: GameConfig, kind: TileKind, s: Sprite, r: nat, c: nat)
    requires cfg.Valid()
  {
    exists j: nat, k: nat :: j < cfg.rowCount && k < cfg.columnCount && ReadBefore(j, k, r, c) &&
      KindOf(cfg.TileAt(j, k)) == kind && s == TileSprite(cfg, j, k)
  }

  /** Every sprite placed comes from a tile of its kind read so far; so
      does Pac-Man. */
  lemma {:induction false} BeforeSound(cfg: GameConfig, r: nat, c: nat, kind: TileKind, s: Sprite)
    requires cfg.Valid() && InReading(cfg, r, c)
    ensures s in OfKind(Before(cfg, r, c), kind) ==> FromTile(cfg, kind, s, r, c)
    ensures Before(cfg, r, c).pacman == Some(s) ==> FromTile(cfg, PacmanTile, s, r, c)
    decreases r, c
  {
    if c == 0 {
      if r > 0 {
        BeforeSound(cfg, r - 1, cfg.columnCount, kind, s);
        if FromTile(cfg, kind, s, r - 1, cfg.columnCount) {
          var j: nat, k: nat :| j < cfg.rowCount && k < cfg.columnCount && ReadBefore(j, k, r - 1, cfg.columnCount) &&
            KindOf(cfg.TileAt(j, k)) == kind && s == TileSprite(cfg, j, k);
          assert ReadBefore(j, k, r, c);
        }
        if FromTile(cfg, PacmanTile, s, r - 1, cfg.columnCount) {
          var j: nat, k: nat :| j < cfg.rowCount && k < cfg.columnCount && ReadBefore(j, k, r - 1, cfg.columnCount) &&
            KindOf(cfg.TileAt(j, k)) == PacmanTile && s == TileSprite(cfg, j, k);
          assert ReadBefore(j, k, r, c);
        }
      }
    } else {
      BeforeSound(cfg, r, c - 1, kind, s);
      if FromTile(cfg, kind, s, r, c - 1) {
        var j: nat, k: nat :| j < cfg.rowCount && k < cfg.columnCount && ReadBefore(j, k, r, c - 1) &&
          KindOf(cfg.TileAt(j, k)) == kind && s == TileSprite(cfg, j, k);
        assert ReadBefore(j, k, r, c);
      }
      if FromTile(cfg, PacmanTile, s, r, c - 1) {
        var j: nat, k: nat :| j < cfg.rowCount && k < cfg.columnCount && ReadBefore(j, k, r, c - 1) &&
          KindOf(cfg.TileAt(j, k)) == PacmanTile && s == TileSprite(cfg, j, k);
        assert ReadBefore(j, k, r, c);
      }
      assert ReadBefore(r, c - 1, r, c);
    }
  }

  /** Two tiles of the same kind never yield the same sprite: the position
      of a sprite gives back its tile. */
  lemma TileSpriteInjective(cfg: GameConfig, j: nat, k: nat, r: nat, c: nat)
    requires cfg.Valid() && j < cfg.rowCount && k < cfg.columnCount && r < cfg.rowCount && c < cfg.columnCount
    requires KindOf(cfg.TileAt(j, k)) == KindOf(cfg.TileAt(r, c))
    requires TileSprite(cfg, j, k) == TileSprite(cfg, r, c)
    ensures j == r && k == c
  {
    var t := cfg.tileSize;
    assert k * t == c * t && j * t == r * t;
    assert (k - c) * t == 0 && (j - r) * t == 0;
  }

  /** The sprite of the tile at row r, column c is not yet among the
      sprites of its kind when that tile is read: each tile adds one sprite
      of its own. */
  lemma PlaceFresh(cfg: GameConfig, r: nat, c: nat)
    requires cfg.Valid() && r < cfg.rowCount && c < cfg.columnCount
    ensures TileSprite(cfg, r, c) !in OfKind(Before(cfg, r, c), KindOf(cfg.TileAt(r, c)))
  {
    var kind, s := KindOf(cfg.TileAt(r, c)), TileSprite(cfg, r, c);
    BeforeSound(cfg, r, c, kind, s);
    if s in OfKind(Before(cfg, r, c), kind) {
      var j: nat, k: nat :| j < cfg.rowCount && k < cfg.columnCount && ReadBefore(j, k, r, c) &&
        KindOf(cfg.TileAt(j, k)) == kind && s == TileSprite(cfg, j, k);
      TileSpriteInjective(cfg, j, k, r, c);
      assert false;
    }
  }

  /** Pac-Man starts on the last 'P' tile read: if tile (j, k) is a 'P' and
      no 'P' follows it before (r, c), Pac-Man's sprite is that tile's. */
  lemma {:induction false} BeforeLastPacman(cfg: GameConfig, r: nat, c: nat, j: nat, k: nat)
    requires cfg.Valid() && InReading(cfg, r, c) && ReadBefore(j, k, r, c) && k < cfg.columnCount
    requires cfg.TileAt(j, k) == 'P'
    requires forall j': nat, k': nat :: ReadBefore(j', k', r, c) && ReadBefore(j, k, j', k') && k' < cfg.columnCount ==>
      cfg.TileAt(j', k') != 'P'
    ensures Before(cfg, r, c).pacman == Some(TileSprite(cfg, j, k))
    decreases r, c
  {
    if c == 0 {
      BeforeLastPacman(cfg, r - 1, cfg.columnCount, j, k);
    } else if j != r || k != c - 1 {
      assert ReadBefore(j, k, r, c - 1);
      BeforeLastPacman(cfg, r, c - 1, j, k);
    }
  }

  /** No Pac-Man is placed when no 'P' tile is read. */
  lemma {:induction false} BeforeNoPacman(cfg: GameConfig, r: nat, c: nat)
    requires cfg.Valid() && InReading(cfg, r, c)
    requires forall j: nat, k: nat :: ReadBefore(j, k, r, c) && k < cfg.columnCount ==> cfg.TileAt(j, k) != 'P'
    ensures Before(cfg, r, c).pacman == None
    decreases r, c
  {
    if c == 0 {
      if r > 0 {
        BeforeNoPacman(cfg, r - 1, cfg.columnCount);
      }
    } else {
      BeforeNoPacman(cfg, r, c - 1);
    }
  }
}
