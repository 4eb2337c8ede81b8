# Pac-Man game rules in Dafny

This project models the rules of a small Swing Pac-Man game and proves
properties about them. The parts modelled are:

- **Collision.** The rectangle collision test with horizontal wrap-around
  (`CollisionHelper.collision`) and the first-match search over a set of
  blocks (`checkCollisionWithSet`).
- **Blocks.** The `Block` entity, with its constructor and `reset`.
- **Game state.** The bookkeeping in `GameState`:
  - loading the tile map into the wall, food, ghost and cherry sets;
  - Pac-Man's move-then-undo step;
  - food, cherry and ghost collisions, with score, lives, game over and high score;
  - the cherry power-up timer;
  - `resetGame`.
- **Panel.** The deterministic movement helpers of `GamePanel`:
  - the probe block a quarter tile ahead;
  - velocities by direction;
  - the tunnel area;
  - the screen wrap-around;
  - the wall-guarded turn of Pac-Man;
  - Pac-Man's, the food's and the bonus cherry's parts of a game tick.

Files, one module each:

- `game_config.dfy` (`Config`): the board constants as one `GameConfig`
  value. The game reads them from a `GameConfig` class that is not part of
  this model, so every proof holds for any tile size and board width above 0
  and any tile map whose rows are long enough.
- `blocks.dfy` (`Blocks`): `Block` as a class with its ten fields.
  - `View()` gives all ten fields as a value, and `Bounds()` gives its rectangle.
  - `Created` and `ResetView` state what the constructor and `reset` leave.
- `collision_helper.dfy` (`CollisionHelper`): `Collision` on rectangles, and
  `CheckCollisionWithSet` as a read-only search loop.
- `tile_map.dfy` (`TileMap`): a specification of what the tile map places. It
  is one fold, `Before`, over the tiles in reading order. Lemmas show that the
  fold contains every tile's sprite, contains nothing else, and keeps the
  last `'P'` as Pac-Man.
- `game_state.dfy` (`State`): `GameState` as a class. The four block sets are
  `set<Block>` fields that the methods reassign.
  - The loops of the source are `while` loops over a shrinking set. The order
    in which a Java `HashSet` hands out its members is not modelled: the next
    member is any one left (`:|`).
  - The ghost map and ghost arguments of the loops record the rectangles and
    fields of the blocks before the loop, so that the contracts can speak
    about the state the scan started from.
- `game_panel.dfy` (`Panel`): the panel's operations. Each takes the
  `GameState` it acts on.

Time is an explicit `now` argument. Randomness is an arbitrary choice. The
source's inconsistencies are resolved as follows:

- `GameState` calls `CollisionHelper.checkCollision` (pacman/GameState.java:72),
  which is modelled as `CollisionHelper.collision`.
- `Block.updateDirection` (pacman/GameState.java:245) is modelled as setting
  the direction.
- The bonus cherry that the panel reads and writes (`state.cherry`) is a
  field `cherry` of `GameState`.

## Model

| member | source | states |
|---|---|---|
| `Blocks.Created` | pacman/Block.java:12-24 | a new block stands at its start position `(x, y)`, with the given image and size, facing `'U'` with velocity 0 |
| `Blocks.Block.constructor` | pacman/Block.java:16-24 | the constructor leaves exactly the fields `Created` describes: start position equal to the position, facing up, standing still |
| `Blocks.ResetView` | pacman/Block.java:26-29 | after `reset`, x and y equal startX and startY, and every other field (size, image, start, direction, velocities) is what it was |
| `Blocks.Block.Reset` | pacman/Block.java:26-29 | `reset` changes the block's fields exactly as `ResetView` says |
| `Blocks.ResetIdempotent` | pacman/Block.java:26-29 | resetting twice leaves the same fields as resetting once |
| `CollisionHelper.WrappedX` | pacman/CollisionHelper.java:14-27 | the wrapped x is x + boardWidth exactly when x < width; it is x - boardWidth exactly when x >= width and x > boardWidth - width; otherwise it is x; at most one shift is applied |
| `CollisionHelper.Collision` | pacman/CollisionHelper.java:4-33 | a plain overlap on both axes is a collision, and every collision has the vertical intervals overlapping; being a function on values, it changes neither block |
| `CollisionHelper.CollisionSymmetric` | pacman/CollisionHelper.java:4-33 | `collision(a, b) == collision(b, a)` for all rectangles and board widths |
| `CollisionHelper.CheckCollisionWithSet` | pacman/CollisionHelper.java:35-42 | the result is null iff no member of the set collides with the entity (so an empty set gives null); a non-null result is a member that collides |
| `TileMap.KindOf` | pacman/GameState.java:39-55 | the switch on the tile character: 'X' is a wall, 'b' 'o' 'p' 'r' a ghost, 'P' Pac-Man, ' ' food and 'C' a cherry, each kind for exactly those characters; any other character is of no kind |
| `TileMap.TileSprite` | pacman/GameState.java:35-54 | the block for the tile at row r, column c: a tile-sized square at (c*T, r*T), except food, which is a 4x4 square at (c*T+14, r*T+14) |
| `TileMap.Place` | pacman/GameState.java:39-55 | reading one tile adds its sprite to the set of its kind ('X' walls, 'b' 'o' 'p' 'r' ghosts, ' ' food, 'C' cherries) and no other set; 'P' replaces Pac-Man; any other character changes nothing |
| `TileMap.BeforeComplete` | pacman/GameState.java:33-57 | every tile read so far whose kind has a set contributes its sprite to that set |
| `TileMap.BeforeSound` | pacman/GameState.java:33-57 | every sprite in a set, and the Pac-Man sprite, comes from some tile of that kind read earlier |
| `TileMap.TileSpriteInjective` | pacman/GameState.java:36-54 | two tiles of the same kind never yield the same sprite: the sprite's position gives back row and column |
| `TileMap.PlaceFresh` | pacman/GameState.java:39-55 | when a tile is read, its sprite is not yet among the sprites of its kind, so every tile adds a sprite of its own |
| `TileMap.BeforeLastPacman` | pacman/GameState.java:50-51 | Pac-Man is built from the last 'P' tile read |
| `TileMap.BeforeNoPacman` | pacman/GameState.java:33-57 | with no 'P' tile read, no Pac-Man is built |
| `State.OnePerSpriteCount` | pacman/GameState.java:39-55 | a set in which no two blocks share a sprite has exactly as many blocks as sprites |
| `State.Max` | pacman/GameState.java:144-146 | the new high score is the larger of high score and score |
| `State.GameState.constructor` | pacman/GameState.java:19-25 | a new game state has the map's level loaded with every block, ghosts included, standing on its start facing up, score 0, high score 0, 3 lives, no game over and no cherry power |
| `State.GameState.LoadMap` | pacman/GameState.java:27-58 | the four sets are cleared and then hold exactly the sprites of the map's tiles of their kind, with no two blocks of a set sharing a sprite and every block of the four sets newly built (one new block per tile), each block on its start, the sets pairwise disjoint; Pac-Man is the block of the last 'P' tile, or unchanged when there is none |
| `State.GameState.LevelSetsCount` | pacman/GameState.java:27-58 | a loaded level has as many walls, food, ghosts and cherries as the tile map places sprites of those kinds |
| `State.GameState.LoadRow` | pacman/GameState.java:34-56 | reading one row of the map extends the loaded sets from the placement before the row to the placement after it |
| `State.GameState.LoadTile` | pacman/GameState.java:35-55 | one tile adds a new block to exactly the set of its kind, or becomes Pac-Man, or adds nothing |
| `State.GameState.LoadedAll` | pacman/GameState.java:27-58 | once every row is read, the sets hold the sprites of the whole map and every block stands on its start |
| `State.GameState.ResetPositions` | pacman/GameState.java:237-247 | Pac-Man is back on its start with velocity 0; every ghost is back on its start, facing one of the four directions, with its other fields unchanged |
| `State.GameState.StartLevel` | pacman/GameState.java:117-120 | reloading the map and resetting positions gives a fresh level: every set as the map places it, every block standing on its start |
| `State.GameState.MovePacman` | pacman/GameState.java:67-78 | Pac-Man ends at its old position plus its velocity when that position touches no wall, and at exactly its old position otherwise |
| `State.GameState.CheckFoodCollision` | pacman/GameState.java:107-121 | the score rises by 10 for every food Pac-Man overlaps; at most one food is removed, and one is removed iff some food overlaps; when no food is left, the level is reloaded and positions reset |
| `State.GameState.ScoreFoods` | pacman/GameState.java:108-114 | the scan adds 10 per overlapping food and returns one of them, or null iff there is none |
| `State.GameState.ActivateCherryPower` | pacman/GameState.java:161-165 | the cherry power becomes active until now + 5000 ms, and the score rises by 20 |
| `State.GameState.CheckCherryCollision` | pacman/GameState.java:123-132 | every cherry Pac-Man overlaps activates the power (+20 each); one of them is removed iff there is one; with none, the power and its end time are unchanged |
| `State.GameState.PowerUpCherries` | pacman/GameState.java:124-130 | the scan activates the power once per overlapping cherry and returns one of them, or null iff there is none |
| `State.GameState.CheckGhostCollision` | pacman/GameState.java:134-153 | with the cherry power on, each ghost overlapping Pac-Man is reset to its start for +50 and nothing else changes; without it, lives drop iff some ghost overlaps at the start, by at most one per ghost, and by exactly one when no ghost's start touches Pac-Man's start; at 0 lives the game is over and the high score is the max of high score and score; after a loss that did not end the game on the first touch, Pac-Man stands still on its start and every ghost is on its start facing one of the four directions, with all other fields kept; with no loss nothing moves; the high score never decreases |
| `State.GameState.EatGhosts` | pacman/GameState.java:135-139 | under the cherry power the pass resets exactly the ghosts that overlap Pac-Man and scores 50 for each |
| `State.GameState.EatGhost` | pacman/GameState.java:136-139 | one ghost met under the cherry power: reset and +50 iff it overlaps Pac-Man |
| `State.GameState.LoseLives` | pacman/GameState.java:135-152 | without the cherry power a life is lost iff some ghost overlapped at the start; at most one life per ghost is lost, and exactly one when no ghost's start touches Pac-Man's start; losing the last life ends the game, updates the high score and stops the pass; a loss that leaves the game running sends Pac-Man (standing still) and the ghosts (facing one of the four directions) back to their starts with all other fields kept; with no loss nothing changes |
| `State.GameState.MeetGhost` | pacman/GameState.java:135-152 | one more ghost of that pass keeps its invariant: no life lost and no ghost met so far touching, or a loss with everyone back on their starts and, with the starts apart, exactly one life lost; a pass it ends lost the last life, with the game over, the high score updated, and, with the starts apart, only that one life lost |
| `State.GameState.TouchGhost` | pacman/GameState.java:136-150 | a ghost touching Pac-Man costs exactly one life and a ghost that does not costs none; losing the last life ends the game, keeps the larger of score and high score and reports the end with nothing moved; any other touch sends Pac-Man (standing still) and the ghosts back to their starts with all other fields kept; without a touch nothing changes |
| `State.GameState.CheckCherryStatus` | pacman/GameState.java:155-159 | the cherry power stays on iff it was on and now is not past its end time |
| `State.GameState.ResetGame` | pacman/GameState.java:249-256 | score 0, 3 lives, no game over, no cherry power and a fresh level; the high score and the cherry end time are kept |
| `Panel.Heading` | pacman/GamePanel.java:92-105 | exactly the four directions have a step, of length one along one axis: 'U' and 'D' along y, 'L' and 'R' along x, 'U' and 'L' negative, 'D' and 'R' positive (y grows downwards) |
| `Panel.TestBlock` | pacman/GamePanel.java:88-108 | the probe has the entity's size and is shifted by T/4 in the direction (U: y-, D: y+, L: x-, R: x+); any other direction leaves the position; being a function on values, it leaves the entity unmodified |
| `Panel.Steered` | pacman/GamePanel.java:151-168 | only the velocity changes: 'U' and 'D' give x velocity 0 and y velocity ±speed, 'L' and 'R' the reverse, negative for 'U' and 'L' and positive for 'D' and 'R'; any other direction changes nothing |
| `Panel.UpdateVelocity` | pacman/GamePanel.java:145-169 | the entity's fields become `Steered` at speed T/3 when it is one of the ghosts and T/4 otherwise; with T > 0, Dafny's division agrees with Java's |
| `Panel.IsInTunnelArea` | pacman/GamePanel.java:171-175 | a block is in the tunnel area iff its y is strictly between 8 and 10 tiles and it lies less than a tile from the left edge (x < T) or its right side is less than a tile from the right edge |
| `Panel.TunnelRow` | pacman/GamePanel.java:172 | between the tops of rows 8 and 10 the only tile row is row 9 |
| `Panel.TunnelTile` | pacman/GamePanel.java:171-175 | a tile-sized block on tile (r, c) is in the tunnel area iff r = 9 and c is the first column or within two tiles of the right edge |
| `Panel.WrapAround` | pacman/GamePanel.java:258-263 | a block wholly past the left edge (x + width < 0) comes back at x = boardWidth, one wholly past the right edge (x > boardWidth) comes back at x = -width, and any other keeps its x; a block of non-negative width is afterwards not wholly past either edge |
| `Panel.WrapAroundIdempotent` | pacman/GamePanel.java:258-263 | applying the wrap a second time moves nothing |
| `Panel.MovePacman` | pacman/GamePanel.java:255-269 | Pac-Man moves by its velocity and wraps; when it then touches a wall, it steps back by its velocity, so with no wrap its position is exactly restored, while after a wrap it steps back from the wrapped x and only y is restored |
| `Panel.EatFood` | pacman/GamePanel.java:310-315 | at most one food is removed, only one that Pac-Man touches, and one is removed iff Pac-Man touches some food; the score rises by 10 iff one was removed |
| `Panel.EatCherry` | pacman/GamePanel.java:318-321 | when a bonus cherry exists and touches Pac-Man, the score rises by 500 and the cherry becomes null; otherwise neither changes |
| `Panel.Facing` | pacman/GamePanel.java:398-411 | 'U', 'D', 'L' and 'R' give Pac-Man's up, down, left and right images; any other character leaves the image as it was |
| `Panel.FacingDistinct` | pacman/GamePanel.java:398-411 | different directions give different images |
| `Panel.ProbeIsNextStep` | pacman/GamePanel.java:392-396 | before any wrap-around, the probe for a direction is exactly Pac-Man's position plus the velocity a turn that way at T/4 gives, so an accepted turn's unwrapped step touches no wall; when that step leaves Pac-Man not wholly past either edge, the wrap keeps it and the step lands on the probe |
| `Panel.UpdatePacmanDirection` | pacman/GamePanel.java:392-413 | when the probe touches no wall, Pac-Man takes the direction, the velocity of that direction and the image facing it; when it touches a wall, Pac-Man is unchanged |

## Left out

- Integer width: coordinates, scores and lives are mathematical integers. Java's 32-bit `int` and 64-bit `long` overflow is not modelled; the game's values are small.
- Panel.ProbeIsNextStep: a step that wraps around the board lands away from the probe, so for such a step the probe does not show that the wrapped position is clear of walls; the game's own `updatePacmanDirection` does not check it either.
- Time: `System.currentTimeMillis()` is the argument `now` of `ActivateCherryPower`, `CheckCherryCollision` and `CheckCherryStatus`.
- Randomness: the random ghost direction chosen in `resetPositions` is an arbitrary member of the four directions.
- Iteration order: the order of a `HashSet` is an arbitrary choice of the next member. The food and cherry scans return the member they remove as an out-parameter, which the Java keeps in a local variable.
- Ghost movement: `GameState.moveGhosts` and the ghost loop of the panel's `move` are left out. They are driven by random draws: `updateGhostDirection`, `initializeGhosts`, the tunnel steering and the panel's ghost-Pac-Man collision. `GameState.update` and `checkCollisions` only sequence other methods, among them the unmodelled `moveGhosts`.
- Cherry spawning: `maybeSpawnCherry` and `isValidCherryPosition` depend on the clock and on random positions.
- The panel's own `loadMap`, `resetPositions`, constructor and level-complete step are left out. Its map loader duplicates `GameState.loadMap` without cherries, and its reset calls the random `updateGhostDirection`.
- Drawing, the Swing timer, key handling (`draw`, `paintComponent`, `handlePlayerInput`, `keyPressed`), `App`, `GameAssets` (images are tags of the `Image` datatype) and `HighScoreManager` (file I/O) are left out.
- State.GameState.constructor: requires a map with a 'P' tile, so that Pac-Man exists. The Java leaves `pacman` null without one, and every call that touches Pac-Man (`update`, `draw`, `handlePlayerInput`, `resetPositions`, `resetGame`) would fail.
- State.GameState.CheckGhostCollision: reads the cherry flag once, where the Java reads it for each ghost. Nothing in the loop changes the flag, so this is the same behaviour.
- State.GameState.CheckGhostCollision: without the cherry power, the exact number of lives lost is stated only when no ghost's start touches Pac-Man's start: then it is one. Otherwise a reset puts Pac-Man on its start, where a ghost met later in the pass may touch it again. Which ghosts come later depends on the `HashSet` order, which is not modelled, so only the bounds are stated.
- State.GameState.LoseLives: the same limit as `CheckGhostCollision`; each step (`TouchGhost`) costs exactly one life per touch.
