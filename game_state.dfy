/** The game's state: the blocks on the board, the score, the lives, the
    high score and the cherry power-up, and the rules that update them on
    every tick. */
module State {
  import opened Config
  import opened Blocks
  import opened CollisionHelper
  import opened TileMap

  const INITIAL_LIVES: int := 3
  const FOOD_SCORE: int := 10
  const CHERRY_POWER_SCORE: int := 20
  const GHOST_SCORE: int := 50
  /** How long a cherry keeps the ghosts edible, in milliseconds. */
  const CHERRY_POWER_MILLIS: int := 5000

  /** The sprites of a set of blocks. */
  ghost function SpritesOf(s: set<Block>): set<Sprite>
    reads s
  {
    set b | b in s :: b.Placed()
  }

  twostate lemma SpritesOfUnchanged(s: set<Block>)
    requires forall b :: b in s ==> b.Placed() == old(b.Placed())
    ensures SpritesOf(s) == old(SpritesOf(s)) && OnePerSprite(s) == old(OnePerSprite(s))
  {
    forall p | p in SpritesOf(s) ensures p in old(SpritesOf(s)) {
      var b :| b in s && b.Placed() == p;
      assert old(b.Placed()) == p;
    }
    forall p | p in old(SpritesOf(s)) ensures p in SpritesOf(s) {
      var b :| b in s && old(b.Placed()) == p;
      assert b.Placed() == p;
    }
  }

  /** No two blocks of s have the same sprite. */
  ghost predicate OnePerSprite(s: set<Block>)
    reads s
  {
    forall a, b :: a in s && b in s && a.Placed() == b.Placed() ==> a == b
  }

  /** A set of blocks with one block per sprite has as many blocks as
      sprites. */
  lemma {:induction false} OnePerSpriteCount(s: set<Block>)
    requires OnePerSprite(s)
    ensures |s| == |SpritesOf(s)|
    decreases s
  {
    if s != {} {
      var x :| x in s;
      var s' := s - {x};
      assert OnePerSprite(s');
      OnePerSpriteCount(s');
      assert SpritesOf(s) == SpritesOf(s') + {x.Placed()};
      assert x.Placed() !in SpritesOf(s');
    } else {
      assert SpritesOf(s) == {};
    }
  }

  /** The fields of the blocks of s, as a value. */
  ghost function ViewsOf(s: set<Block>): (vs: map<Block, BlockView>)
    reads s
    ensures vs.Keys == s && forall b :: b in s ==> vs[b] == b.View()
  {
    map b | b in s :: b.View()
  }

  ghost predicate AllAtStart(s: set<Block>)
    reads s
  {
    forall b :: b in s ==> b.AtStart()
  }

  /** Every block the ghost map m records stands at its start with the
      sprite m gives it. */
  ghost predicate Tracks(m: map<Block, Sprite>)
    reads m.Keys
  {
    forall b :: b in m ==> b.AtStart() && b.Placed() == m[b]
  }

  /** The sprites m records for the blocks of s. */
  function SpritesIn(s: set<Block>, m: map<Block, Sprite>): set<Sprite>
    requires s <= m.Keys
  {
    set b | b in s :: m[b]
  }

  lemma TracksSprites(s: set<Block>, m: map<Block, Sprite>)
    requires s <= m.Keys && Tracks(m)
    ensures SpritesOf(s) == SpritesIn(s, m) && AllAtStart(s)
  {
  }

  /** The blocks of s hold the sprites ps, as m records them, one block
      per sprite. */
  ghost predicate Holds(s: set<Block>, m: map<Block, Sprite>, ps: set<Sprite>)
  {
    s <= m.Keys && SpritesIn(s, m) == ps &&
    forall a, b :: a in s && b in s && m[a] == m[b] ==> a == b
  }

  /** Recording a new block b with sprite p in m leaves what s holds alone;
      adding b to s adds p, when p is new to s. */
  lemma HoldsAdd(s: set<Block>, m: map<Block, Sprite>, ps: set<Sprite>, b: Block, p: Sprite)
    requires Holds(s, m, ps) && b !in m
    ensures Holds(s, m[b := p], ps)
    ensures p !in ps ==> Holds(s + {b}, m[b := p], ps + {p})
  {
    assert m[b := p][b] == p;
    assert SpritesIn(s, m[b := p]) == ps;
    if p !in ps {
      assert SpritesIn(s + {b}, m[b := p]) == ps + {p};
    }
  }

  /** The block sets w, f, g, ch hold, as the ghost map m records, the
      sprites e places, one block per sprite. */
  ghost predicate SetsMatch(m: map<Block, Sprite>, w: set<Block>, f: set<Block>, g: set<Block>, ch: set<Block>, e: Placement)
  {
    Holds(w, m, e.walls) && Holds(f, m, e.foods) && Holds(g, m, e.ghosts) && Holds(ch, m, e.cherries)
  }

  /** The set of the given kind gains b, if there is one. */
  function AddTo(kind: TileKind, want: TileKind, s: set<Block>, b: Block?): (s': set<Block>)
    ensures s' == if kind == want && b != null then s + {b} else s
  {
    if kind == want && b != null then s + {b} else s
  }

  /** Recording in m the block b built for a tile, and adding it to the set
      of its kind, keeps the sets in step with the placement, provided the
      tile's sprite is new to its kind. */
  lemma SetsStep(m: map<Block, Sprite>, w: set<Block>, f: set<Block>, g: set<Block>, ch: set<Block>,
                 e: Placement, kind: TileKind, sprite: Sprite, b: Block?)
    requires SetsMatch(m, w, f, g, ch, e)
    requires b == null <==> kind in {OtherTile, PacmanTile}
    requires b !in m
    requires kind !in {OtherTile, PacmanTile} ==> sprite !in OfKind(e, kind)
    ensures var m' := if b == null then m else m[b as Block := sprite];
      SetsMatch(m', AddTo(kind, WallTile, w, b), AddTo(kind, FoodTile, f, b), AddTo(kind, GhostTile, g, b),
                AddTo(kind, CherryTile, ch, b), Place(e, kind, sprite))
  {
    if b != null {
      HoldsAdd(w, m, e.walls, b, sprite);
      HoldsAdd(f, m, e.foods, b, sprite);
      HoldsAdd(g, m, e.ghosts, b, sprite);
      HoldsAdd(ch, m, e.cherries, b, sprite);
    }
  }

  /** The rectangle of a block with the fields v once it is back on its
      start. */
  function StartRect(v: BlockView): (r: Rect)
    ensures r.x == ResetView(v).x && r.y == ResetView(v).y && r.width == v.width && r.height == v.height
  {
    Rect(v.startX, v.startY, v.width, v.height)
  }

  /** No ghost of s, back on its start, touches Pac-Man back on its start;
      pv and vs record their fields. */
  ghost predicate StartsApart(boardWidth: int, pv: BlockView, s: set<Block>, vs: map<Block, BlockView>)
    requires boardWidth > 0
  {
    s <= vs.Keys && forall g :: g in s ==> !Collision(boardWidth, StartRect(vs[g]), StartRect(pv))
  }

  /** pac, at, pv and vs record one and the same Pac-Man and ghosts s: the
      rectangles are those the fields give. */
  predicate Recorded(pac: Rect, s: set<Block>, at: map<Block, Rect>, pv: BlockView, vs: map<Block, BlockView>)
  {
    s <= at.Keys && s <= vs.Keys && pac == Rect(pv.x, pv.y, pv.width, pv.height) &&
    forall g :: g in s ==> at[g] == Rect(vs[g].x, vs[g].y, vs[g].width, vs[g].height)
  }

  function Max(a: int, b: int): (m: int)
    ensures m >= a && m >= b && (m == a || m == b)
  {
    if a >= b then a else b
  }

  class GameState {
    const cfg: GameConfig
    var walls: set<Block>
    var foods: set<Block>
    var ghosts: set<Block>
    var cherries: set<Block>
    var pacman: Block?
    var score: int
    var highScore: int
    var lives: int
    var gameOver: bool
    var isCherryActive: bool
    var cherryEndTime: int
    /** The single bonus cherry the panel spawns and eats, if any. */
    var cherry: Block?

    /** The four block sets are pairwise disjoint. */
    ghost predicate SetsDisjoint()
      reads this
    {
      walls !! foods && walls !! ghosts && walls !! cherries &&
      foods !! ghosts && foods !! cherries && ghosts !! cherries
    }

    /** Pac-Man exists and belongs to none of the block sets. */
    ghost predicate Valid()
      reads this
    {
      cfg.Valid() && pacman != null && SetsDisjoint() &&
      pacman !in walls && pacman !in foods && pacman !in ghosts && pacman !in cherries
    }

    /** The four block sets hold, block for block, the sprites the tile map
        places. */
    ghost predicate LevelSets()
      reads this, walls, foods, ghosts, cherries
    {
      cfg.Valid() &&
      SpritesOf(walls) == Level(cfg).walls && SpritesOf(foods) == Level(cfg).foods &&
      SpritesOf(ghosts) == Level(cfg).ghosts && SpritesOf(cherries) == Level(cfg).cherries &&
      OnePerSprite(walls) && OnePerSprite(foods) && OnePerSprite(ghosts) && OnePerSprite(cherries)
    }

    /** A loaded level has as many walls, food, ghosts and cherries as the
        tile map places. */
    lemma LevelSetsCount()
      requires LevelSets()
      ensures |walls| == |Level(cfg).walls| && |foods| == |Level(cfg).foods|
      ensures |ghosts| == |Level(cfg).ghosts| && |cherries| == |Level(cfg).cherries|
    {
      OnePerSpriteCount(walls);
      OnePerSpriteCount(foods);
      OnePerSpriteCount(ghosts);
      OnePerSpriteCount(cherries);
    }

    /** The board as a level starts: every block where the tile map puts it,
        standing still; the ghosts may face any direction.  Pac-Man is the
        one the map places, facing up; a map without a 'P' leaves the
        previous Pac-Man, back on its start. */
    ghost predicate FreshLevel()
      reads this, walls, foods, ghosts, cherries, pacman
    {
      cfg.Valid() && pacman != null &&
      LevelSets() &&
      pacman.Parked() &&
      (Level(cfg).pacman.Some? ==> Level(cfg).pacman == Some(pacman.Placed()) && pacman.AtStart()) &&
      AllAtStart(walls) && AllAtStart(foods) && AllAtStart(cherries) &&
      forall g :: g in ghosts ==> g.Parked() && g.direction in Directions
    }

    constructor (cfg: GameConfig)
      requires cfg.Valid() && Level(cfg).pacman.Some?
      ensures this.cfg == cfg && Valid() && FreshLevel() && AllAtStart(ghosts)
      ensures score == 0 && highScore == 0 && lives == INITIAL_LIVES
      ensures !gameOver && !isCherryActive && cherryEndTime == 0 && cherry == null
    {
      this.cfg := cfg;
      walls, foods, ghosts, cherries := {}, {}, {}, {};
      pacman := null;
      score, highScore, lives := 0, 0, INITIAL_LIVES;
      gameOver, isCherryActive, cherryEndTime := false, false, 0;
      cherry := null;
      new;
      LoadMap();
    }

    /** The blocks the ghost map m records each stand at their start with
        their recorded sprite, and the block sets are pairwise disjoint;
        Pac-Man is built from the sprite pac expects, or is still pac0 when
        no 'P' has been read, and belongs to no set. */
    ghost predicate LoadedSoFar(m: map<Block, Sprite>, pac0: Block?, pac: Option<Sprite>)
      reads this, m.Keys, pacman
    {
      SetsDisjoint() && Tracks(m) &&
      (pac.None? ==> pacman == pac0) &&
      (pac.Some? ==> pacman != null && pacman.AtStart() && Some(pacman.Placed()) == pac) &&
      (pacman != null ==> pacman !in walls && pacman !in foods && pacman !in ghosts && pacman !in cherries)
    }

    /** Loading has reached placement e: the blocks built so far are as
        LoadedSoFar says, and the block sets hold the sprites e places. */
    ghost predicate Loaded(m: map<Block, Sprite>, pac0: Block?, e: Placement)
      reads this, m.Keys, pacman
    {
      LoadedSoFar(m, pac0, e.pacman) && SetsMatch(m, walls, foods, ghosts, cherries, e)
    }

    /** The block sets hold, block for block, the sprites the tile map
        places, each block standing at its start; Pac-Man stands on the last
        'P' tile, or is still pac0 when the map has none, and belongs to no
        set. */
    ghost predicate MapLoaded(pac0: Block?)
      reads this, walls, foods, ghosts, cherries, pacman
    {
      cfg.Valid() && SetsDisjoint() &&
      LevelSets() &&
      AllAtStart(walls) && AllAtStart(foods) && AllAtStart(ghosts) && AllAtStart(cherries) &&
      (Level(cfg).pacman.None? ==> pacman == pac0) &&
      (Level(cfg).pacman.Some? ==> pacman != null && pacman.AtStart() && pacman.Placed() == Level(cfg).pacman.value) &&
      (pacman != null ==>
        pacman !in walls && pacman !in foods && pacman !in ghosts && pacman !in cherries)
    }

    /** Rebuilds the four block sets from the tile map, reading it row by row,
        and builds Pac-Man anew at each 'P' tile read. */
    method LoadMap()
      requires cfg.Valid()
      modifies this`walls, this`foods, this`ghosts, this`cherries, this`pacman
      ensures MapLoaded(old(pacman))
      ensures fresh(walls) && fresh(foods) && fresh(ghosts) && fresh(cherries)
      ensures pacman == old(pacman) || fresh(pacman)
    {
      walls, foods, ghosts, cherries := {}, {}, {}, {};
      ghost var m: map<Block, Sprite> := map[];
      ghost var e := Before(cfg, 0, 0);
      var r := 0;
      while r < cfg.rowCount
        invariant 0 <= r <= cfg.rowCount && e == Before(cfg, r, 0)
        invariant Loaded(m, old(pacman), e)
        invariant fresh(walls) && fresh(foods) && fresh(ghosts) && fresh(cherries)
        invariant pacman == old(pacman) || fresh(pacman)
      {
        m := LoadRow(r, m, old(pacman));
        r := r + 1;
        e := Before(cfg, r, 0);
      }
      LoadedAll(m, old(pacman));
    }

    /** Once every row is read, the sets hold the sprites of the whole map
        and Pac-Man stands on the last 'P' tile. */
    lemma LoadedAll(m: map<Block, Sprite>, pac0: Block?)
      requires cfg.Valid() && Loaded(m, pac0, Level(cfg))
      ensures MapLoaded(pac0)
    {
      TracksSprites(walls, m);
      TracksSprites(foods, m);
      TracksSprites(ghosts, m);
      TracksSprites(cherries, m);
    }

    /** The inner loop of LoadMap: reads row r column by column. */
    method LoadRow(r: nat, ghost m: map<Block, Sprite>, ghost pac0: Block?) returns (ghost m': map<Block, Sprite>)
      requires cfg.Valid() && r < cfg.rowCount
      requires Loaded(m, pac0, Before(cfg, r, 0))
      modifies this`walls, this`foods, this`ghosts, this`cherries, this`pacman
      ensures Loaded(m', pac0, Before(cfg, r + 1, 0))
      ensures fresh(walls - old(walls)) && fresh(foods - old(foods))
      ensures fresh(ghosts - old(ghosts)) && fresh(cherries - old(cherries))
      ensures pacman == old(pacman) || fresh(pacman)
    {
      m' := m;
      var c := 0;
      while c < cfg.columnCount
        invariant 0 <= c <= cfg.columnCount
        invariant Loaded(m', pac0, Before(cfg, r, c))
        invariant fresh(walls - old(walls)) && fresh(foods - old(foods))
        invariant fresh(ghosts - old(ghosts)) && fresh(cherries - old(cherries))
        invariant pacman == old(pacman) || fresh(pacman)
      {
        var kind := KindOf(cfg.tileMap[r][c]);
        var sprite := TileSprite(cfg, r, c);
        ghost var e, m0, w, f, g, ch := Before(cfg, r, c), m', walls, foods, ghosts, cherries;
        var b: Block?;
        b, m' := LoadTile(kind, sprite, m', pac0, e.pacman);
        PlaceFresh(cfg, r, c);
        SetsStep(m0, w, f, g, ch, e, kind, sprite, b);
        c := c + 1;
      }
    }

    /** One step of the inner loop: builds the block for a tile of the
        given kind with the given sprite and adds it to the set of its kind,
        or makes it Pac-Man; any other character builds nothing.  The block
        added to a set is returned; Pac-Man is not. */
    method LoadTile(kind: TileKind, sprite: Sprite, ghost m: map<Block, Sprite>, ghost pac0: Block?, ghost pac: Option<Sprite>)
      returns (b: Block?, ghost m': map<Block, Sprite>)
      requires LoadedSoFar(m, pac0, pac)
      modifies this`walls, this`foods, this`ghosts, this`cherries, this`pacman
      ensures LoadedSoFar(m', pac0, if kind == PacmanTile then Some(sprite) else pac)
      ensures b == null <==> kind in {OtherTile, PacmanTile}
      ensures b !in m
      ensures m' == if b == null then m else m[b as Block := sprite]
      ensures walls == AddTo(kind, WallTile, old(walls), b)
      ensures foods == AddTo(kind, FoodTile, old(foods), b)
      ensures ghosts == AddTo(kind, GhostTile, old(ghosts), b)
      ensures cherries == AddTo(kind, CherryTile, old(cherries), b)
      ensures (b == null || fresh(b)) && (pacman == old(pacman) || fresh(pacman))
    {
      m' := m;
      b := null;
      if kind == OtherTile {
        return;
      }
      var n := new Block(sprite.image, sprite.bounds.x, sprite.bounds.y, sprite.bounds.width, sprite.bounds.height);
      if kind == PacmanTile {
        pacman := n;
        return;
      }
      b := n;
      m' := m[n := sprite];
      match kind {
        case WallTile => walls := walls + {n};
        case GhostTile => ghosts := ghosts + {n};
        case FoodTile => foods := foods + {n};
        case CherryTile => cherries := cherries + {n};
      }
    }

    /** Puts Pac-Man back on its start, standing still, and every ghost back
        on its start, facing a direction drawn at random (any of the four,
        here). */
    method ResetPositions()
      requires pacman != null && pacman !in ghosts
      modifies pacman, ghosts
      ensures pacman.View() == ResetView(old(pacman.View())).(velocityX := 0, velocityY := 0)
      ensures forall g :: g in ghosts ==>
        g.direction in Directions && g.View() == ResetView(old(g.View())).(direction := g.direction)
    {
      pacman.Reset();
      pacman.velocityX := 0;
      pacman.velocityY := 0;
      var rest := ghosts;
      while rest != {}
        invariant rest <= ghosts
        invariant forall g :: g in ghosts && g !in rest ==>
          g.direction in Directions && g.View() == ResetView(old(g.View())).(direction := g.direction)
        invariant forall g :: g in rest ==> g.View() == old(g.View())
        invariant pacman.View() == ResetView(old(pacman.View())).(velocityX := 0, velocityY := 0)
        decreases rest
      {
        var g :| g in rest;
        g.Reset();
        var d :| d in Directions;
        g.direction := d;
        rest := rest - {g};
      }
    }

    /** Rebuilds the level from the tile map and resets every position: the
        two steps the game takes when the food runs out and when a new game
        starts. */
    method StartLevel()
      requires Valid()
      modifies this`walls, this`foods, this`ghosts, this`cherries, this`pacman, pacman
      ensures Valid() && FreshLevel()
    {
      LoadMap();
      label Loaded:
      ResetPositions();
      SpritesOfUnchanged@Loaded(ghosts);
    }

    /** Moves Pac-Man by its velocity, and moves it back when it then
        overlaps a wall. */
    method MovePacman()
      requires Valid()
      modifies pacman
      ensures var v := old(pacman.View());
        var moved := Rect(v.x + v.velocityX, v.y + v.velocityY, v.width, v.height);
        pacman.View() == if HitsAny(cfg.boardWidth, moved, walls) then v else v.(x := moved.x, y := moved.y)
      ensures pacman.View() != old(pacman.View()) ==> !HitsAny(cfg.boardWidth, pacman.Bounds(), walls)
    {
      pacman.x := pacman.x + pacman.velocityX;
      pacman.y := pacman.y + pacman.velocityY;
      var wall := CheckCollisionWithSet(cfg.boardWidth, pacman.Bounds(), walls);
      if wall != null {
        pacman.x := pacman.x - pacman.velocityX;
        pacman.y := pacman.y - pacman.velocityY;
      }
    }

    /** Eats food: every food Pac-Man overlaps scores 10, and one of them,
        the last one met, is removed.  When no food is left the level
        starts again.  Returns the food removed, or null. */
    method CheckFoodCollision() returns (eaten: Block?)
      requires Valid()
      modifies this`score, this`walls, this`foods, this`ghosts, this`cherries, this`pacman, pacman
      ensures Valid()
      ensures var hits := old(Colliding(cfg.boardWidth, pacman.Bounds(), foods));
        score == old(score) + FOOD_SCORE * |hits| &&
        (eaten == null <==> hits == {}) && (eaten != null ==> eaten in hits)
      ensures var rest := if eaten == null then old(foods) else old(foods) - {eaten as Block};
        (rest != {} ==>
          foods == rest && walls == old(walls) && ghosts == old(ghosts) && cherries == old(cherries) &&
          pacman == old(pacman) && pacman.View() == old(pacman.View())) &&
        (rest == {} ==> FreshLevel())
    {
      CollidingAtBounds(cfg.boardWidth, pacman.Bounds(), foods);
      eaten := ScoreFoods(pacman.Bounds(), foods, BoundsOf(foods));
      if eaten != null {
        foods := foods - {eaten};
      }
      if foods == {} {
        StartLevel();
      }
    }

    /** The scan of the food: 10 points for every member of s that collides
        with pac; returns the last one met, or null. */
    method ScoreFoods(pac: Rect, s: set<Block>, ghost at: map<Block, Rect>) returns (eaten: Block?)
      requires cfg.Valid() && at == BoundsOf(s)
      modifies this`score
      ensures var hits := CollidingAt(cfg.boardWidth, pac, s, at);
        score == old(score) + FOOD_SCORE * |hits| &&
        (eaten == null <==> hits == {}) && (eaten != null ==> eaten in hits)
    {
      eaten := null;
      var rest := s;
      ghost var done, hits := {}, {};
      while rest != {}
        invariant rest <= s && done == s - rest
        invariant hits == CollidingAt(cfg.boardWidth, pac, done, at)
        invariant score == old(score) + FOOD_SCORE * |hits|
        invariant (eaten == null <==> hits == {}) && (eaten != null ==> eaten in hits)
        decreases rest
      {
        var food :| food in rest;
        assert food.Bounds() == at[food];
        CollidingAtAdd(cfg.boardWidth, pac, done, at, food);
        if Collision(cfg.boardWidth, pac, food.Bounds()) {
          eaten := food;
          score := score + FOOD_SCORE;
          hits := hits + {food};
        }
        done := done + {food};
        rest := rest - {food};
      }
      assert done == s;
    }

    /** Gives Pac-Man the cherry power until now + 5000 milliseconds, and 20
        points. */
    method ActivateCherryPower(now: int)
      modifies this`isCherryActive, this`cherryEndTime, this`score
      ensures isCherryActive && cherryEndTime == now + CHERRY_POWER_MILLIS
      ensures score == old(score) + CHERRY_POWER_SCORE
    {
      isCherryActive := true;
      cherryEndTime := now + CHERRY_POWER_MILLIS;
      score := score + CHERRY_POWER_SCORE;
    }

    /** Eats cherries: every cherry Pac-Man overlaps activates the cherry
        power, and one of them, the last one met, is removed.  Returns the
        cherry removed, or null. */
    method CheckCherryCollision(now: int) returns (eaten: Block?)
      requires Valid()
      modifies this`cherries, this`isCherryActive, this`cherryEndTime, this`score
      ensures Valid()
      ensures var hits := old(Colliding(cfg.boardWidth, pacman.Bounds(), cherries));
        score == old(score) + CHERRY_POWER_SCORE * |hits| &&
        (eaten == null <==> hits == {}) && (eaten != null ==> eaten in hits) &&
        (hits == {} ==> isCherryActive == old(isCherryActive) && cherryEndTime == old(cherryEndTime)) &&
        (hits != {} ==> isCherryActive && cherryEndTime == now + CHERRY_POWER_MILLIS)
      ensures cherries == if eaten == null then old(cherries) else old(cherries) - {eaten as Block}
    {
      CollidingAtBounds(cfg.boardWidth, pacman.Bounds(), cherries);
      eaten := PowerUpCherries(now, pacman.Bounds(), cherries, BoundsOf(cherries));
      if eaten != null {
        cherries := cherries - {eaten};
      }
    }

    /** The scan of the cherries: the cherry power is activated once for
        every member of s that collides with pac; returns the last one met,
        or null. */
    method PowerUpCherries(now: int, pac: Rect, s: set<Block>, ghost at: map<Block, Rect>) returns (eaten: Block?)
      requires cfg.Valid() && at == BoundsOf(s)
      modifies this`isCherryActive, this`cherryEndTime, this`score
      ensures var hits := CollidingAt(cfg.boardWidth, pac, s, at);
        score == old(score) + CHERRY_POWER_SCORE * |hits| &&
        (eaten == null <==> hits == {}) && (eaten != null ==> eaten in hits) &&
        (hits == {} ==> isCherryActive == old(isCherryActive) && cherryEndTime == old(cherryEndTime)) &&
        (hits != {} ==> isCherryActive && cherryEndTime == now + CHERRY_POWER_MILLIS)
    {
      eaten := null;
      var rest := s;
      ghost var done, hits := {}, {};
      while rest != {}
        invariant rest <= s && done == s - rest
        invariant hits == CollidingAt(cfg.boardWidth, pac, done, at)
        invariant score == old(score) + CHERRY_POWER_SCORE * |hits|
        invariant (eaten == null <==> hits == {}) && (eaten != null ==> eaten in hits)
        invariant hits == {} ==> isCherryActive == old(isCherryActive) && cherryEndTime == old(cherryEndTime)
        invariant hits != {} ==> isCherryActive && cherryEndTime == now + CHERRY_POWER_MILLIS
        decreases rest
      {
        var cherry :| cherry in rest;
        assert cherry.Bounds() == at[cherry];
        CollidingAtAdd(cfg.boardWidth, pac, done, at, cherry);
        if Collision(cfg.boardWidth, pac, cherry.Bounds()) {
          eaten := cherry;
          ActivateCherryPower(now);
          hits := hits + {cherry};
        }
        done := done + {cherry};
        rest := rest - {cherry};
      }
      assert done == s;
    }

    /** Meets the ghosts.  Under the cherry power every ghost touching
        Pac-Man goes back to its start for 50 points.  Otherwise each touch
        costs a life and sends everyone back to the start, and the game
        ends, keeping the better of score and high score, once no life is
        left.  The cherry flag is read once per ghost but nothing here
        changes it, so the two passes are separate loops. */
    method CheckGhostCollision()
      requires Valid()
      modifies this`score, this`lives, this`gameOver, this`highScore, pacman, ghosts
      ensures Valid() && highScore >= old(highScore)
      ensures var hits := old(Colliding(cfg.boardWidth, pacman.Bounds(), ghosts));
        isCherryActive ==>
          score == old(score) + GHOST_SCORE * |hits| &&
          lives == old(lives) && gameOver == old(gameOver) && highScore == old(highScore) &&
          pacman.View() == old(pacman.View()) &&
          forall g :: g in ghosts ==> g.View() == if g in hits then ResetView(old(g.View())) else old(g.View())
      ensures var hits := old(Colliding(cfg.boardWidth, pacman.Bounds(), ghosts));
        !isCherryActive ==>
          score == old(score) &&
          (lives < old(lives) <==> hits != {}) && old(lives) - |ghosts| <= lives <= old(lives) &&
          (old(lives) > 0 ==> lives >= 0) &&
          gameOver == (old(gameOver) || (lives == 0 && lives < old(lives))) &&
          highScore == (if lives == 0 && lives < old(lives) then Max(old(highScore), score) else old(highScore)) &&
          (lives < old(lives) && StartsApart(cfg.boardWidth, old(pacman.View()), ghosts, old(ViewsOf(ghosts))) ==>
             lives == old(lives) - 1) &&
          Positions(old(pacman.View()), old(ViewsOf(ghosts)), lives < old(lives) && !(lives == 0 && old(lives) == 1))
    {
      CollidingAtBounds(cfg.boardWidth, pacman.Bounds(), ghosts);
      if isCherryActive {
        EatGhosts(pacman.Bounds(), ghosts, BoundsOf(ghosts), ViewsOf(ghosts));
      } else {
        LoseLives(pacman.Bounds(), BoundsOf(ghosts), pacman.View(), ViewsOf(ghosts));
      }
    }

    /** The pass under the cherry power over the ghosts s, with Pac-Man's
        rectangle pac: each ghost that collides with Pac-Man is reset, for 50
        points; the others are left alone.  The ghost arguments at and vs
        record the ghosts' rectangles and fields beforehand. */
    method EatGhosts(pac: Rect, s: set<Block>, ghost at: map<Block, Rect>, ghost vs: map<Block, BlockView>)
      requires cfg.Valid() && at == BoundsOf(s) && vs == ViewsOf(s)
      modifies this`score, s
      ensures var hits := CollidingAt(cfg.boardWidth, pac, s, at);
        score == old(score) + GHOST_SCORE * |hits| &&
        forall g :: g in s ==> g.View() == if g in hits then ResetView(vs[g]) else vs[g]
    {
      var rest := s;
      ghost var done := {};
      while rest != {}
        invariant rest <= s && done == s - rest
        invariant GhostsEaten(pac, s, done, at, vs, old(score))
        decreases rest
      {
        var g :| g in rest;
        EatGhost(g, pac, s, done, at, vs, old(score));
        done := done + {g};
        rest := rest - {g};
      }
      assert done == s;
    }

    /** The state after the cherry pass has met the ghosts done: 50 points
        for each of them that collided, those reset, every other ghost as it
        was. */
    ghost predicate GhostsEaten(pac: Rect, s: set<Block>, done: set<Block>, at: map<Block, Rect>,
                                vs: map<Block, BlockView>, score0: int)
      requires cfg.Valid()
      reads this, s
    {
      done <= s && s <= at.Keys && s <= vs.Keys &&
      (forall g :: g in s ==> at[g] == Rect(vs[g].x, vs[g].y, vs[g].width, vs[g].height)) &&
      var hits := CollidingAt(cfg.boardWidth, pac, done, at);
      score == score0 + GHOST_SCORE * |hits| &&
      forall g :: g in s ==> g.View() == if g in hits then ResetView(vs[g]) else vs[g]
    }

    /** One ghost of the cherry pass. */
    method EatGhost(g: Block, pac: Rect, ghost s: set<Block>, ghost done: set<Block>, ghost at: map<Block, Rect>,
                    ghost vs: map<Block, BlockView>, ghost score0: int)
      requires cfg.Valid() && g in s && g !in done && GhostsEaten(pac, s, done, at, vs, score0)
      modifies this`score, g
      ensures GhostsEaten(pac, s, done + {g}, at, vs, score0)
    {
      CollidingAtAdd(cfg.boardWidth, pac, done, at, g);
      CollisionSymmetric(cfg.boardWidth, g.Bounds(), pac);
      if Collision(cfg.boardWidth, g.Bounds(), pac) {
        g.Reset();
        score := score + GHOST_SCORE;
      }
    }

    /** The pass without the cherry power: each ghost that collides with
        Pac-Man, as things stand when it is met, costs one life; the last
        life ends the game and the pass, otherwise Pac-Man and the ghosts go
        back to their starts.  The ghost arguments record Pac-Man's rectangle
        and fields and the ghosts' rectangles and fields beforehand.  When
        no ghost on its start touches Pac-Man on its start, a pass that
        costs a life costs exactly one. */
    method LoseLives(ghost pac: Rect, ghost at: map<Block, Rect>, ghost pv: BlockView, ghost vs: map<Block, BlockView>)
      requires cfg.Valid() && pacman != null && pacman !in ghosts && pac == pacman.Bounds() && at == BoundsOf(ghosts)
      requires pv == pacman.View() && vs == ViewsOf(ghosts)
      modifies this`lives, this`gameOver, this`highScore, pacman, ghosts
      ensures lives < old(lives) <==> HitsAnyAt(cfg.boardWidth, pac, ghosts, at)
      ensures old(lives) - |ghosts| <= lives <= old(lives)
      ensures old(lives) > 0 ==> lives >= 0
      ensures lives < old(lives) && StartsApart(cfg.boardWidth, pv, ghosts, vs) ==> lives == old(lives) - 1
      ensures gameOver == (old(gameOver) || (lives == 0 && lives < old(lives)))
      ensures highScore == if lives == 0 && lives < old(lives) then Max(old(highScore), score) else old(highScore)
      ensures Positions(pv, vs, lives < old(lives) && !(lives == 0 && old(lives) == 1))
    {
      var rest := ghosts;
      ghost var apart := StartsApart(cfg.boardWidth, pv, ghosts, vs);
      while rest != {}
        invariant rest <= ghosts
        invariant LivesLost(pac, rest, at, pv, vs, apart, old(lives), old(gameOver), old(highScore)) == true
        decreases rest
      {
        var g :| g in rest;
        var over := MeetGhost(g, pac, rest, at, pv, vs, apart, old(lives), old(gameOver), old(highScore));
        if over {
          return;
        }
        rest := rest - {g};
      }
    }

    /** Pac-Man and the ghosts have the fields pv and vs record (moved
        false), or have been sent back to their starts from there (moved
        true): Pac-Man standing still, each ghost facing one of the four
        directions, every other field kept. */
    ghost predicate Positions(pv: BlockView, vs: map<Block, BlockView>, moved: bool)
      reads this, pacman, ghosts
    {
      pacman != null && ghosts <= vs.Keys &&
      if !moved then
        pacman.View() == pv && ViewsOf(ghosts) == vs
      else
        pacman.View() == ResetView(pv).(velocityX := 0, velocityY := 0) &&
        forall g :: g in ghosts ==> g.direction in Directions && g.View() == ResetView(vs[g]).(direction := g.direction)
    }

    /** The state while the pass without the cherry power goes on, the
        ghosts rest still to be met: as long as no life was lost, nothing
        has changed and none of the ghosts met collided; once one was lost,
        some ghost collided to begin with, Pac-Man and the ghosts were sent
        back to their starts, and, when apart says the starts are apart,
        only one life was lost.  The loop and its proof step state it as
        LivesLost(...) == true, which the verifier keeps as one fact instead
        of one per conjunct. */
    ghost predicate LivesLost(pac: Rect, rest: set<Block>, at: map<Block, Rect>, pv: BlockView,
                              vs: map<Block, BlockView>, apart: bool, lives0: int, gameOver0: bool, highScore0: int)
      reads this, pacman, ghosts
    {
      cfg.Valid() && pacman != null && pacman !in ghosts && Recorded(pac, ghosts, at, pv, vs) &&
      (apart ==> StartsApart(cfg.boardWidth, pv, ghosts, vs)) &&
      gameOver == gameOver0 && highScore == highScore0 &&
      lives0 - (|ghosts| - |rest|) <= lives <= lives0 && (lives0 > 0 ==> lives > 0) &&
      Positions(pv, vs, lives < lives0) &&
      (lives == lives0 ==> forall b :: b in ghosts && b !in rest ==> !Collision(cfg.boardWidth, pac, at[b])) &&
      (lives < lives0 ==>
        HitsAnyAt(cfg.boardWidth, pac, ghosts, at) &&
        (apart ==> lives == lives0 - 1))
    }

    /** The proof step of the pass without the cherry power: TouchGhost on
        one more ghost keeps LivesLost, or ends the pass with the last life,
        which with the starts apart (apart) was the only one lost. */
    method MeetGhost(g: Block, ghost pac: Rect, ghost rest: set<Block>, ghost at: map<Block, Rect>, ghost pv: BlockView,
                     ghost vs: map<Block, BlockView>, ghost apart: bool, ghost lives0: int, ghost gameOver0: bool, ghost highScore0: int)
      returns (over: bool)
      requires g in rest && rest <= ghosts && LivesLost(pac, rest, at, pv, vs, apart, lives0, gameOver0, highScore0) == true
      modifies this`lives, this`gameOver, this`highScore, pacman, ghosts
      ensures !over ==> LivesLost(pac, rest - {g}, at, pv, vs, apart, lives0, gameOver0, highScore0)
      ensures over ==>
        lives == 0 && lives0 - |ghosts| <= lives < lives0 && gameOver &&
        highScore == Max(highScore0, score) && HitsAnyAt(cfg.boardWidth, pac, ghosts, at) &&
        Positions(pv, vs, lives0 > 1) && (apart ==> lives0 == 1)
    {
      if lives == lives0 {
        assert g.Bounds() == at[g] && pacman.Bounds() == pac;
        CollisionSymmetric(cfg.boardWidth, g.Bounds(), pac);
      } else {
        assert g.Bounds() == StartRect(vs[g]) && pacman.Bounds() == StartRect(pv);
      }
      ghost var hit := Collision(cfg.boardWidth, g.Bounds(), pacman.Bounds());
      if !hit {
        LivesLostSkip(pac, rest, g, at, pv, vs, apart, lives0, gameOver0, highScore0);
      }
      over := TouchGhost(g);
    }

    /** One ghost of the pass without the cherry power: a touch costs
        exactly one life; losing the last ends the game, keeping the better
        of score and high score, and over reports it, with nothing else
        changed; any other touch sends Pac-Man and the ghosts back to their
        starts.  Without a touch nothing changes. */
    method TouchGhost(g: Block) returns (over: bool)
      requires cfg.boardWidth > 0 && pacman != null && pacman !in ghosts
      modifies this`lives, this`gameOver, this`highScore, pacman, ghosts
      ensures lives == old(lives) - if old(Collision(cfg.boardWidth, g.Bounds(), pacman.Bounds())) then 1 else 0
      ensures over <==> old(Collision(cfg.boardWidth, g.Bounds(), pacman.Bounds())) && old(lives) == 1
      ensures gameOver == (old(gameOver) || over)
      ensures highScore == if over then Max(old(highScore), score) else old(highScore)
      ensures over || !old(Collision(cfg.boardWidth, g.Bounds(), pacman.Bounds())) ==>
        pacman.View() == old(pacman.View()) && ViewsOf(ghosts) == old(ViewsOf(ghosts))
      ensures !over && old(Collision(cfg.boardWidth, g.Bounds(), pacman.Bounds())) ==>
        pacman.View() == ResetView(old(pacman.View())).(velocityX := 0, velocityY := 0) &&
        forall h :: h in ghosts ==> h.direction in Directions && h.View() == ResetView(old(h.View())).(direction := h.direction)
    {
      if Collision(cfg.boardWidth, g.Bounds(), pacman.Bounds()) {
        lives := lives - 1;
        if lives == 0 {
          gameOver := true;
          if score > highScore {
            highScore := score;
          }
          return true;
        }
        ResetPositions();
      }
      return false;
    }

    /** Passing over a ghost that does not touch Pac-Man keeps the pass's
        state. */
    lemma LivesLostSkip(pac: Rect, rest: set<Block>, g: Block, at: map<Block, Rect>, pv: BlockView,
                        vs: map<Block, BlockView>, apart: bool, lives0: int, gameOver0: bool, highScore0: int)
      requires g in rest && rest <= ghosts && LivesLost(pac, rest, at, pv, vs, apart, lives0, gameOver0, highScore0) == true
      requires lives == lives0 ==> !Collision(cfg.boardWidth, pac, at[g])
      ensures LivesLost(pac, rest - {g}, at, pv, vs, apart, lives0, gameOver0, highScore0)
    {
    }


    /** Ends the cherry power once its time is up. */
    method CheckCherryStatus(now: int)
      modifies this`isCherryActive
      ensures isCherryActive == (old(isCherryActive) && now <= cherryEndTime)
    {
      if isCherryActive && now > cherryEndTime {
        isCherryActive := false;
      }
    }

    /** Starts a new game: score 0, three lives, no cherry power, and a
        fresh level; the high score is kept. */
    method ResetGame()
      requires Valid()
      modifies this`score, this`lives, this`gameOver, this`isCherryActive
      modifies this`walls, this`foods, this`ghosts, this`cherries, this`pacman, pacman
      ensures Valid() && FreshLevel()
      ensures score == 0 && lives == INITIAL_LIVES && !gameOver && !isCherryActive
      ensures highScore == old(highScore) && cherryEndTime == old(cherryEndTime)
    {
      score := 0;
      lives := INITIAL_LIVES;
      gameOver := false;
      isCherryActive := false;
      StartLevel();
    }
  }
}
