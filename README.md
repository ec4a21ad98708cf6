# Infinite tile game: a verified model of its core

`game.js` is a browser game on an infinite grid of square tiles. Each tile
holds five black obstacle rectangles. About one tile in five also holds a
collectible key. The tiles are generated lazily from `Math.random()` the
first time anything asks for them, and cached for the rest of the run.

The player moves with the arrow keys in unit steps, and obstacles block
those steps. Each tile has a rotating hazard cone that drains the player's
health. A "system health" level drains a little every frame. The game is
over when either level reaches zero.

This project models the game's core in Dafny and proves properties of it:

- `geometry.dfy` (module `Geometry`) holds the constants, the tile, obstacle
  and key values, and the strict expanded-rectangle overlap test.
- `tile_features.dfy` (module `TileFeatures`) describes what a fresh tile
  contains, as pure functions of the random draws that generate it:
  - the five jittered obstacles;
  - the rejection-sampled key placement, with at most 20 attempts.
- `collision.dfy` (module `Collision`) covers the collision query's geometry:
  - JavaScript's `%` and the floor division that locate the player's tile;
  - the window of tiles that is scanned;
  - a proof that the screen-space obstacle test is the world-space test
    translated.
- `rules.dfy` (module `Rules`) covers:
  - health draining with clamping at zero and the game-over flag;
  - the pickup reach and the cone's radius test;
  - key bookkeeping;
  - the arrow keys.
- `game_state.dfy` (module `GameState`) has the class `Game`, one object for
  the script's global state:
  - the player, `systemHealth`, `gameOver` and the two memo maps;
  - the imperative operations that update them: the memoized generators,
    the collision query, the key handler, and the per-frame update with
    pickup, hazard damage and depletion.

Modelling choices:

- **Random draws.** `Math.random()` is an injected stream
  `rng: nat -> real` read through a cursor `drawn`; `Game.Random` consumes
  one draw. Every draw is assumed to lie in [0, 1), which is what
  `UnitDraws` requires. The generators, from `GetOrGenerateBlackTiles` up
  to `GetOrGenerateKeys` and `FetchTile`, state exactly which draws they
  used and what they built from them. The scanning methods above them
  (`IsCollidingWithBlackTile`, `Step`, `KeyDown`, `VisitTile`, `VisitRow`,
  `VisitVisibleTiles` and `Update`) state it through two ghost maps of
  `Game`:
  - `obstacleDraw` records, for each cached tile, the draw its obstacles
    were generated from;
  - `keyDraw` records, for each tile with a key, the draw of that key's
    candidate.

  The class invariant (`Traced`) ties every cache entry to its recorded
  draw. Each scanning method's `DrawsWithin` clause says that every draw
  it records lies in the stretch of the stream it consumed, with room for
  the whole entry: ten draws for obstacles, two for a key.
- **Tile keys.** A tile is the pair `(col, row)` in place of the string
  produced by `getTileKey`.
- **Number types.** Player positions are `int`. The source only ever moves
  them by ±1 from 0, so the JavaScript doubles stay exact integers.
  Geometry inside a tile is `real`.

The model follows the code in three details that are easy to misread:

- Key placement and collision use strict comparisons (`>`, `<`), so a box
  that only touches an obstacle's edge does not overlap it.
- The key handler keeps moving the player after the game is over, because
  it never looks at `gameOver`.
- Each obstacle's corner is jittered around (40, 40), so its centre lies
  around (80, 80), not at the tile's centre (100, 100).

## Model

| member | source | states |
|---|---|---|
| Rules.Drain | game.js:213-217 | subtracting an amount clamps at zero; the game-over flag is set exactly when the level was at most the amount, exactly when the result is zero; otherwise the amount is subtracted exactly |
| Rules.SystemAfterClosedForm | game.js:276-283 | from a live system, N frames leave `level - N*0.015`, or zero with a system failure once `N*0.015 >= level` |
| Rules.HazardKeepsHealthValid | game.js:213-217 | a hazard hit keeps both health levels within [0, 100] and keeps "game over iff a level is zero", and never raises health |
| Rules.DepletionKeepsHealthValid | game.js:277-283 | a frame's system drain keeps the same invariant and never raises system health |
| Rules.CollectedAfterNewTile | game.js:68-73 | caching a fresh tile's key list (at most one key, uncollected) leaves the set of collected tiles unchanged |
| Rules.CollectedAfterPickup | game.js:188-189 | collecting a tile's uncollected key adds exactly that tile to the collected set, so the collected count grows by one |
| Rules.InReach | game.js:186-187 | definition (no contract): the key's screen position within 20 units of the screen centre, on squared distances |
| Rules.InCone | game.js:194-212 | definition (no contract): the player within the cone's radius of the tile centre, on squared distances, and inside the abstract sweep |
| Rules.SystemAfter | game.js:276-283 | definition (no contract): system health after N frames of depletion, each one `Drain` step; Update's system-health clause is one step of it |
| Rules.Collect | game.js:175-190 | the pickup pass over a key list keeps every key in place and marks it collected iff it already was or is within reach |
| Rules.CollectAtMostOne | game.js:175-190 | on a list of at most one key, the pass collects the key exactly when it is uncollected and within reach, and otherwise changes nothing |
| Rules.KeysEvolveTrans | game.js:188 | keys that only move from uncollected to collected over two stretches do so over both together |
| Rules.Delta | game.js:254-262 | every key press moves each axis by at most one unit, and never both axes at once |
| Geometry.TileScale | game.js:57-58 | a unit draw scaled across the tile lies in [0, 200) |
| Geometry.BoxOverlap | game.js:60-65 | definition (no contract): strict overlap of a square of half-width r around a point with a rectangle |
| Collision.Offset | game.js:82-83 | definition (no contract): the double JavaScript remainder `((p % 250) + 250) % 250` |
| Collision.StartIndex | game.js:84-85 | the floor division: the position lies in the tile-spacing interval starting at `StartIndex(p) * 250` |
| Collision.WindowTiles | game.js:79-80 | the ceiling plus two: the window count `r` is the least with `extent <= (r - 2) * 250` |
| Collision.ObstacleHit | game.js:93-107 | definition (no contract): the screen-space test of one obstacle of window tile (col, row) against the candidate position |
| Collision.OffsetSplitsPosition | game.js:82-85 | the double JavaScript remainder is the floor modulus: it lies in [0, 250), and the position is `startIndex*250 + offset` |
| Collision.ScreenHitIsWorldHit | game.js:93-107 | the screen-space test of an obstacle against the candidate holds iff the world-space test against the tile at `start + (col,row)` holds, whatever the current position |
| Collision.TileClearPersists | game.js:96 | a generated tile that does not block the candidate keeps not blocking it as the cache grows |
| Collision.BlockedPersists | game.js:89-110 | a blocking answer stays true when more tiles are cached |
| Collision.ClearPersists | game.js:89-114 | a clear answer over a fully generated window stays clear when more tiles are cached |
| TileFeatures.Scatter | game.js:39-40 | a unit draw turned into a jitter lies in [-30, 30) |
| TileFeatures.MakeObstacle | game.js:38-41 | definition (no contract): obstacle i of a tile, from two consecutive draws |
| TileFeatures.Candidate | game.js:57-58 | definition (no contract): the uncollected key candidate of two consecutive draws, scaled by 200 |
| TileFeatures.KeyHits | game.js:60-65 | definition (no contract): the strict overlap of a key's box with one obstacle |
| TileFeatures.KeyOverlaps | game.js:60-65 | definition (no contract): the `some` walk over a tile's obstacles |
| TileFeatures.ObstacleRun | game.js:37-42 | the loop's first n obstacles: n of them, obstacle i built from draws `at+2i` (x jitter) and `at+2i+1` (y jitter) |
| TileFeatures.GeneratedObstaclesWellFormed | game.js:37-42 | every generated tile has 5 obstacles of size 80 by 80, each with x and y in [10, 70) |
| TileFeatures.KeyOverlapsSome | game.js:60-65 | the obstacle walk answers true iff the key's box overlaps some obstacle of the list |
| TileFeatures.PlaceKey | game.js:56-71 | a placement run yields at most one key and consumes two draws per attempt; with no key it has used all `2*tries` draws |
| TileFeatures.PlaceKeySkip | game.js:67-70 | an overlapping candidate is dropped and the run goes on from the next two draws with one attempt fewer |
| TileFeatures.PlaceKeyTake | game.js:67-69 | a clear candidate is taken, unmodified and uncollected, and the run stops after its two draws |
| TileFeatures.PlaceKeyEmptyIffAllOverlap | game.js:56-71 | the run ends with no key iff every one of its attempts overlaps an obstacle |
| TileFeatures.PlaceKeyFirstFit | game.js:56-71 | a run that yields a key yields the candidate of the first non-overlapping attempt j, after `2j+2` draws, every earlier attempt having overlapped |
| TileFeatures.FirstFitShift | game.js:56-70 | a leading overlapping attempt moves the first fit one attempt later |
| TileFeatures.PlaceKeyDrawn | game.js:56-71 | a key that a run yields is the candidate of two draws `d`, `d+1` that the run consumed |
| TileFeatures.PlacedKeyInTile | game.js:57-68 | a placed key is uncollected, lies in [0, 200) on both axes, and overlaps no obstacle of its tile |
| GameState.NewObstaclesKeepFeaturesValid | game.js:43 | caching a new tile's well-formed obstacle list keeps every cached key inside its tile and clear of its obstacles |
| GameState.PickupKeepsFeaturesValid | game.js:188 | marking a key collected keeps the store valid, and changes no key's position or the length of any list |
| GameState.NewKeysKeepFeaturesValid | game.js:73 | caching a new tile's placed key list keeps the store valid and changes no existing entry |
| GameState.KeyPlacedFromParts | game.js:54-71 | fetching the obstacles first, possibly generating them, and then running the placement from the next draw is what key placement for a rolled tile means |
| GameState.DrawsWithinTrans | game.js:39-58 | two consecutive stretches of generation, each recording draws within the stretch it consumed, make one stretch |
| GameState.NewObstaclesKeepTraced | game.js:43 | caching the obstacles generated from draw `d` and recording `d` keeps every entry tied to its draw |
| GameState.PickupKeepsTraced | game.js:188 | marking a key collected keeps it tied to its draw, since it does not move |
| GameState.NewKeysKeepTraced | game.js:73 | caching a new key list whose key is the candidate of draw `d`, and recording `d`, keeps every entry tied to its draw |
| GameState.KeysGeneratedDrawn | game.js:52-71 | a generated key list is empty, or holds the uncollected candidate of two draws inside the stretch that generation consumed |
| GameState.KeysGeneratedCached | game.js:54 | generating the keys of a tile whose obstacles are already cached changes no cached obstacles |
| GameState.FetchedFromParts | game.js:169-175 | fetching the obstacles and then the keys of a tile, as each of those methods describes, is what TileFetched says |
| GameState.Game.constructor | game.js:18-24 | the starting state: player at the origin with speed 30, 0 keys and health 100; system health 100; not over; empty caches |
| GameState.Game.Random | game.js:39-58 | returns the next draw of the stream and advances the cursor by one |
| GameState.Game.GetOrGenerateBlackTiles | game.js:32-45 | a cached tile is returned with no draw and an unchanged cache; otherwise the 5 obstacles are built from the next 10 draws and cached, with that draw recorded; old entries are never changed |
| GameState.Game.GenerateObstacleList | game.js:36-42 | the loop returns exactly the obstacle list generated from the current draw and uses 10 draws |
| GameState.Game.GetOrGenerateKeys | game.js:48-75 | a cached tile's key list (possibly empty) is returned with no draw and nothing changed; otherwise the list is generated as KeysGenerated says and cached, its key uncollected and its draw recorded; no key ever moves or becomes uncollected |
| GameState.Game.CacheKeys | game.js:73 | a fresh key list is stored for its tile, its key's draw is recorded, and nothing else changes |
| GameState.Game.GenerateKeys | game.js:52-72 | one roll draw: if it is at least 0.2 the list is empty and nothing else changes; else the tile's obstacles are fetched (cached) and the placement run follows; the key found is uncollected, inside the tile, clear of the obstacles |
| GameState.Game.PlaceTileKey | game.js:54-71 | the obstacles are fetched or generated and then exactly PlaceKey's run follows from the draw after them |
| GameState.Game.TryPlacement | game.js:57-69 | one attempt: two draws scaled by 200, kept iff the key box overlaps none of the obstacles |
| GameState.Game.PlaceKeyAttempts | game.js:56-71 | the attempt loop returns exactly PlaceKey's keys and leaves the cursor at PlaceKey's next draw |
| GameState.Game.IsCollidingWithBlackTile | game.js:78-115 | the answer is true iff some generated window tile around the current position has an obstacle hitting the candidate; a false answer means the whole window is generated; only the draw cursor and the obstacle cache change, only by adding tiles of the scanned window around the current position, each generated from ten draws the query consumed |
| GameState.Game.ScanRow | game.js:90-112 | one window row, left to right: a true answer names a generated tile of the row that blocks the candidate; a false answer means every tile of the row is generated and clear; every tile it adds is a tile of that row, within the window's columns |
| GameState.Game.ScanTile | game.js:91-111 | one window tile is generated if need be, no other cache entry changes, and the answer is true iff one of its obstacles hits the candidate |
| GameState.Game.Step | game.js:261-265 | x moves by dx exactly when the x candidate is not blocked; y is then tested from the possibly updated x and moves by dy exactly when not blocked; new tiles come from draws consumed in the step, and each lies in the window scanned for the x candidate or in the one scanned for the y candidate |
| GameState.Game.KeyDown | game.js:253-267 | `speed` steps in the key's direction: an axis with delta 0 never moves, and an axis with delta ±1 moves monotonically by at most `speed`; new tiles come from draws consumed in the handler, and each lies in the box of windows scanned from positions within `speed` of the start |
| GameState.Game.PickUp | game.js:175-191 | the tile's key list becomes its Collect pass, and the key count grows by one exactly when the tile's key is uncollected and within 20 units of the screen centre |
| GameState.Game.ApplySweep | game.js:209-218 | inside the cone's radius and sweep, health drops by 0.2 clamped at zero and a zero sets game over; outside, nothing changes |
| GameState.Game.FetchTile | game.js:169-175 | the tile's obstacles are fetched and then its keys, as TileFetched says: new obstacles from the current draw, a new key list generated from the draw after them, a cached list returned with no draw; no other cache entry changes |
| GameState.Game.VisitTile | game.js:159-219 | one scanned tile: new obstacles are those of the current draw and no other tile changes; the key list becomes the Collect pass of the list as fetched, and the key count grows by one exactly when that collects a key; inside the cone health drops by exactly one hazard drain, which sets game over at zero, and outside nothing changes |
| GameState.Game.VisitRow | game.js:158-220 | every tile of one window row is generated; caches only grow, keys only become collected, the key count never falls, health never rises, game over is never undone, and new entries come from draws consumed in the row; both caches gain entries only for tiles of that row within the window's columns |
| GameState.Game.VisitVisibleTiles | game.js:145-221 | after the scan every tile of the window is generated, with the same monotonic and draw facts as VisitRow; both caches gain entries only for tiles of the window |
| GameState.Game.Update | game.js:270-290 | once over, a frame changes nothing; otherwise every window tile is generated, both caches gain entries only for window tiles, new entries come from draws consumed in the frame, system health drains by 0.015 clamped at zero, and a zero ends the game |
| GameState.Game.VisitCell | game.js:159-219 | the inner loop's body at window position (col, row): that world tile becomes cached in both maps, no other entry of either cache changes, with the same monotonic and draw facts as VisitTile |
| GameState.AddedInRowStep | game.js:158-160 | visiting the next tile of a row, which changes only that tile's entry, widens the stretch of columns where added tiles lie by one |
| GameState.AddedRowInScan | game.js:158-160 | a row of added tiles within the window's columns, on top of the rows above it, keeps every added tile inside the window |
| GameState.AddedInRow | game.js:158-160 | definition (no contract): every added tile lies in one row, in a stretch of columns |
| Collision.InScan | game.js:89-92 | definition (no contract): a world tile lies in the window scanned around a position, at `start + (col,row)` with (col, row) in the window |
| Collision.InSpan | game.js:84-92 | definition (no contract): the box of tiles scanned from any position in a range |
| Collision.StartIndexMonotone | game.js:84-85 | the start tile never decreases as the position grows |
| Collision.InScanInSpan | game.js:84-92 | the window scanned from a position inside a range lies in that range's box |
| Collision.InSpanWidens | game.js:84-92 | a wider range of positions has a wider box |
| Collision.ScansStayInSpan | game.js:253-267 | one more key-handler step, scanning windows within one unit of the range, keeps every added tile in the widened box |
| Rules.SystemAfterNextFrame | game.js:276-283 | one more frame on a live system is the `Drain` step of Update's system-health clause from the level after N frames, so N Update frames from a live system give `SystemAfter` |
| TileFeatures.GenerateObstacles | game.js:36-42 | definition (no contract): the five obstacles of a tile, from ten consecutive draws |
| TileFeatures.AttemptOverlaps | game.js:57-65 | definition (no contract): the candidate of one attempt overlaps some obstacle of the tile |
| TileFeatures.WellFormedObstacles | game.js:36-42 | definition (no contract): five obstacles of size 80 by 80 with corners in [10, 70) |
| TileFeatures.KeyPlacedIn | game.js:57-68 | definition (no contract): a key inside the tile, in [0, 200) on both axes, and clear of every obstacle |
| GameState.KeysGenerated | game.js:52-73 | definition (no contract): the key list of a new tile from a stretch of draws: empty, with one draw and no cache change, on a roll of at least 0.2; else the placement run after the tile's obstacles |
| GameState.KeyPlaced | game.js:54-71 | definition (no contract): the obstacles fetched or generated, then the placement run from the draw after them |
| GameState.TileFetched | game.js:169-175 | definition (no contract): what fetching a tile's obstacles and keys does to the caches and the draw cursor |
| Collision.JsRem | game.js:82-83 | definition (no contract): JavaScript's `%`, whose result takes the dividend's sign |
| Collision.InWindow | game.js:89-90 | definition (no contract): window positions run from -1 up to, not including, the window count on each axis |
| Collision.WorldTile | game.js:91-92 | definition (no contract): the world tile at window position (col, row) is `start + (col,row)` |
| Collision.WorldHit | game.js:93-107 | definition (no contract): the world-space strict overlap of a candidate with an obstacle of a tile |
| Collision.TileBlocks | game.js:97-110 | definition (no contract): some obstacle of the tile hits the candidate |
| Collision.TileClear | game.js:96-110 | definition (no contract): a window tile is generated and none of its obstacles hits the candidate |
| Collision.Blocked | game.js:89-114 | definition (no contract): some generated window tile blocks the candidate |
| Collision.WindowCached | game.js:89-114 | definition (no contract): every tile of the window is generated |
| Rules.Collects | game.js:176-187 | definition (no contract): a tile's key is uncollected and within reach |
| Rules.HealthValid | game.js:213-217 | definition (no contract): both levels in [0, 100], and the game over iff one is zero |
| Rules.CollectedTiles | game.js:188-189 | definition (no contract): the set of tiles whose key is collected |
| Rules.KeyLater | game.js:188 | definition (no contract): a key keeps its position, and a collected key stays collected |

Every method of `Game` also keeps the class invariant `Valid()`:

- every cached obstacle list has five well-formed obstacles;
- every tile has at most one key, inside the tile and clear of its cached
  obstacles;
- both health levels are in [0, 100], and the game is over iff one of them
  is zero;
- the key count equals the number of tiles whose key is collected;
- every cached obstacle list is the one generated from its recorded draw,
  and every cached key sits where the candidate of its recorded draw put
  it (`Traced`).

Iterated over frames with no hazard hit, Update's system-health clause is
`Rules.SystemAfter`, and `Rules.SystemAfterClosedForm` gives its closed
form.

## Left out

- Drawing is not modelled: the canvas and DOM calls, the grid lines, the
  status and health texts, and the base-station colour (`baseStationTile`,
  which changes only a fill colour). The status text written on the frame
  after a system failure reads "YOU DIED" because `update` sets it on every
  frame once the game is over; this is display-only.
- Frame scheduling (`requestAnimationFrame`) and the event dispatch of
  `keydown` are the host's. Here `Update` is one frame and `KeyDown` is one
  key event.
- `performance.now()` is out of scope: the hazard's time is a parameter
  `now` of a frame. The source reads the clock once per tile, so in the
  source tiles of one frame can see slightly different times.
- The trigonometric part of the cone test is not modelled: `atan2`, the
  `% 2π` wrap-around and the π/12 half-width are an abstract `SweepTest`
  parameter. The radius test is kept, on squared distances.
- `Math.hypot` comparisons are expressed on squared distances, which is
  equivalent for non-negative distances.
- IEEE-754 double arithmetic is modelled with exact `real` numbers (health,
  draws, jitter and key positions). Rounding is not captured.
- `Math.random()` is an injected stream, not a real random source.
- `getTileKey`'s string key is modelled as an integer pair instead. Distinct
  pairs give distinct strings, so the maps behave the same.
- The canvas size is a constant of the model. The source assigns it once,
  from the window size (game.js:4-5), and never changes it.
- The keys `forEach` in pickup handles at most one key, which is all a tile
  can have by the class invariant.
- GameState.Game.KeyDown: its contract bounds each axis's displacement. It
  does not list the `speed` individual steps as a trace; each step's exact
  effect is stated by `Step`. The tiles it adds are bounded by one box
  around all positions within `speed` of the start, not by the windows of
  the positions the player actually passed.
- GameState.Game.VisitCell: states which entries change and the monotonic
  and draw facts; the tile's exact effect, at its screen corner
  `(col * 250 - offsetX, row * 250 - offsetY)`, is stated by `VisitTile`.
- GameState.Game.VisitRow: states coverage of the row, monotonic facts and
  where new draws were recorded. It does not state the exact number of keys
  collected, the exact health lost or the left-to-right order of the tiles;
  each tile's exact effect is stated by `VisitTile`.
- GameState.Game.VisitVisibleTiles: states the same facts as VisitRow for
  the whole window. It does not state the exact totals of the frame or the
  row-by-row order; each tile's exact effect is stated by `VisitTile`.
- GameState.Game.VisitTile: does not itself state that a new key list is
  the one KeysGenerated describes; `FetchTile`, which it calls, states that.
  VisitTile ties the key to its draw through the class invariant.
- Draw order across tiles: the scanning methods' `DrawsWithin` clauses
  state that each recorded draw lies in the stretch consumed, and the same
  methods state which tiles can be added. They do not state that different
  tiles used disjoint draws, or in which order the tiles consumed them.
- GameState.Game.Random: does not itself state that the draw is in [0, 1).
  That bound comes from `UnitDraws` in the class invariant.
