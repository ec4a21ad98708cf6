/** The game's mutable state and the operations that change it
    (game.js:18-24, 32-115, 175-219, 253-283): the memoized tile-feature
    store, the collision query, the arrow-key handler and the per-frame
    update with key pickup, hazard damage and system-health depletion. */
module GameState {
  import opened Geometry
  import opened TileFeatures
  import opened Collision
  import opened Rules

  /** Every cached obstacle list is one that generation produces, every
      tile has at most one key, and every key lies inside its tile, clear
      of that tile's (cached) obstacles. The condition is stated tile by
      tile, and quantified only over that per-tile statement. */
  ghost predicate FeaturesValid(tileFeatures: map<Tile, seq<Obstacle>>, keyMap: map<Tile, seq<Key>>)
  {
    forall t {:trigger TileValid(tileFeatures, keyMap, t)} :: TileValid(tileFeatures, keyMap, t)
  }

  /** FeaturesValid for one tile t. */
  ghost predicate TileValid(tileFeatures: map<Tile, seq<Obstacle>>, keyMap: map<Tile, seq<Key>>, t: Tile)
  {
    && (t in tileFeatures ==> WellFormedObstacles(tileFeatures[t]))
    && (t in keyMap ==>
          |keyMap[t]| <= 1
          && (keyMap[t] != [] ==> t in tileFeatures && KeyPlacedIn(keyMap[t][0], tileFeatures[t])))
  }

  /** Caching a new tile's well-formed obstacle list keeps the store valid. */
  lemma NewObstaclesKeepFeaturesValid(tileFeatures: map<Tile, seq<Obstacle>>, keyMap: map<Tile, seq<Key>>,
                                      t: Tile, obs: seq<Obstacle>)
    requires FeaturesValid(tileFeatures, keyMap) && t !in tileFeatures && WellFormedObstacles(obs)
    ensures FeaturesValid(tileFeatures[t := obs], keyMap)
  {
    var tileFeatures' := tileFeatures[t := obs];
    forall u ensures TileValid(tileFeatures', keyMap, u) {
      assert TileValid(tileFeatures, keyMap, u);
    }
  }

  /** Marking a tile's key collected keeps the store valid. */
  lemma PickupKeepsFeaturesValid(tileFeatures: map<Tile, seq<Obstacle>>, keyMap: map<Tile, seq<Key>>, t: Tile)
    requires FeaturesValid(tileFeatures, keyMap) && t in keyMap && keyMap[t] != []
    ensures FeaturesValid(tileFeatures, keyMap[t := [keyMap[t][0].(collected := true)]])
    ensures KeysEvolve(keyMap, keyMap[t := [keyMap[t][0].(collected := true)]])
  {
    assert TileValid(tileFeatures, keyMap, t);
    var keyMap' := keyMap[t := [keyMap[t][0].(collected := true)]];
    forall u ensures TileValid(tileFeatures, keyMap', u) && KeyEvolves(keyMap, keyMap', u) {
      assert TileValid(tileFeatures, keyMap, u);
    }
  }

  /** Caching a new tile's key list, when any key in it lies inside the
      tile and clears its obstacles, keeps the store valid. */
  lemma NewKeysKeepFeaturesValid(tileFeatures: map<Tile, seq<Obstacle>>, keyMap: map<Tile, seq<Key>>,
                                 t: Tile, found: seq<Key>)
    requires FeaturesValid(tileFeatures, keyMap) && t !in keyMap && |found| <= 1
    requires found != [] ==> t in tileFeatures && KeyPlacedIn(found[0], tileFeatures[t])
    ensures FeaturesValid(tileFeatures, keyMap[t := found])
    ensures KeysEvolve(keyMap, keyMap[t := found])
  {
    var keyMap' := keyMap[t := found];
    forall u ensures TileValid(tileFeatures, keyMap', u) && KeyEvolves(keyMap, keyMap', u) {
      assert TileValid(tileFeatures, keyMap, u);
    }
  }

  /** What generating tile (col, row)'s keys does, from draw `start` on:
      one draw decides whether the tile gets a key at all (below
      KEY_CHANCE it does); if so, KeyPlaced says what follows. */
  ghost predicate KeysGenerated(rng: RandomSource, tileFeatures: map<Tile, seq<Obstacle>>, tileFeatures': map<Tile, seq<Obstacle>>,
                                start: nat, end: nat, col: int, row: int, found: seq<Key>)
  {
    if rng(start) >= KEY_CHANCE then
      found == [] && tileFeatures' == tileFeatures && end == start + 1
    else
      KeyPlaced(rng, tileFeatures, tileFeatures', start + 1, end, col, row, found)
  }

  /** Placing a key on tile (col, row) from draw `start` on: the tile's
      obstacles are fetched, and generated from the following draws when
      not cached yet, and then at most twenty placements follow. */
  ghost predicate KeyPlaced(rng: RandomSource, tileFeatures: map<Tile, seq<Obstacle>>, tileFeatures': map<Tile, seq<Obstacle>>,
                            start: nat, end: nat, col: int, row: int, found: seq<Key>)
  {
    var t := (col, row);
    if t in tileFeatures then
      && tileFeatures' == tileFeatures
      && var r := PlaceKey(rng, start, tileFeatures[t], PLACEMENT_ATTEMPTS);
         found == r.keys && end == r.next
    else
      var obs := GenerateObstacles(rng, start);
      && tileFeatures' == tileFeatures[t := obs]
      && var r := PlaceKey(rng, start + OBSTACLE_DRAWS, obs, PLACEMENT_ATTEMPTS);
         found == r.keys && end == r.next
  }

  /** KeyPlaced from its parts: the tile's obstacles as fetched, and the
      placement run from the draw after them. */
  lemma KeyPlacedFromParts(rng: RandomSource, tileFeatures: map<Tile, seq<Obstacle>>,
                           tileFeatures': map<Tile, seq<Obstacle>>, start: nat, placed: nat, end: nat,
                           col: int, row: int, found: seq<Key>)
    requires (col, row) in tileFeatures ==> tileFeatures' == tileFeatures && placed == start
    requires (col, row) !in tileFeatures ==>
               tileFeatures' == tileFeatures[(col, row) := GenerateObstacles(rng, start)]
               && placed == start + OBSTACLE_DRAWS
    requires (col, row) in tileFeatures'
    requires var r := PlaceKey(rng, placed, tileFeatures'[(col, row)], PLACEMENT_ATTEMPTS);
             found == r.keys && end == r.next
    ensures KeyPlaced(rng, tileFeatures, tileFeatures', start, end, col, row, found)
  {
  }

  /** Where each cached entry came from in the draw stream: the obstacles
      of a cached tile are exactly those generated from draw
      `obstacleDraw[t]` on, and the key of a tile that has one sits where
      the candidate of draw `keyDraw[t]` put it. The condition is stated
      tile by tile, and quantified only over that per-tile statement. */
  ghost predicate Traced(rng: RandomSource, tileFeatures: map<Tile, seq<Obstacle>>, keyMap: map<Tile, seq<Key>>,
                         obstacleDraw: map<Tile, nat>, keyDraw: map<Tile, nat>)
  {
    forall t {:trigger TileTraced(rng, tileFeatures, keyMap, obstacleDraw, keyDraw, t)} ::
      TileTraced(rng, tileFeatures, keyMap, obstacleDraw, keyDraw, t)
  }

  /** Traced for one tile t. */
  ghost predicate TileTraced(rng: RandomSource, tileFeatures: map<Tile, seq<Obstacle>>, keyMap: map<Tile, seq<Key>>,
                             obstacleDraw: map<Tile, nat>, keyDraw: map<Tile, nat>, t: Tile)
  {
    && (t in tileFeatures <==> t in obstacleDraw)
    && (t in tileFeatures ==> tileFeatures[t] == GenerateObstacles(rng, obstacleDraw[t]))
    && (t in keyDraw ==> t in keyMap)
    && (t in keyMap && keyMap[t] != [] ==> t in keyDraw && KeyAt(keyMap[t][0], Candidate(rng, keyDraw[t])))
  }

  /** Key `k` lies where candidate `c` was proposed. */
  predicate KeyAt(k: Key, c: Key)
  {
    k.x == c.x && k.y == c.y
  }

  /** `m'` keeps every entry of `m`, and every entry it adds is a draw
      index from `lo` on whose `width` draws were all taken before `hi`. */
  ghost predicate DrawsWithin(m: map<Tile, nat>, m': map<Tile, nat>, lo: nat, hi: nat, width: nat)
  {
    && lo <= hi
    && forall t {:trigger DrawWithin(m, m', lo, hi, width, t)} :: DrawWithin(m, m', lo, hi, width, t)
  }

  /** DrawsWithin for one tile t. */
  ghost predicate DrawWithin(m: map<Tile, nat>, m': map<Tile, nat>, lo: nat, hi: nat, width: nat, t: Tile)
  {
    && (t in m ==> t in m' && m'[t] == m[t])
    && (t in m' && t !in m ==> lo <= m'[t] && m'[t] + width <= hi)
  }

  /** Two stretches of generation, one after the other, make one. */
  lemma DrawsWithinTrans(m0: map<Tile, nat>, m1: map<Tile, nat>, m2: map<Tile, nat>, a: nat, b: nat, c: nat, width: nat)
    requires DrawsWithin(m0, m1, a, b, width) && DrawsWithin(m1, m2, b, c, width)
    ensures DrawsWithin(m0, m2, a, c, width)
  {
    forall t ensures DrawWithin(m0, m2, a, c, width, t) {
      assert DrawWithin(m0, m1, a, b, width, t) && DrawWithin(m1, m2, b, c, width, t);
    }
  }

  /** Caching a tile's obstacles generated from draw `d` keeps the trace. */
  lemma NewObstaclesKeepTraced(rng: RandomSource, tileFeatures: map<Tile, seq<Obstacle>>, keyMap: map<Tile, seq<Key>>,
                               obstacleDraw: map<Tile, nat>, keyDraw: map<Tile, nat>, t: Tile, d: nat)
    requires Traced(rng, tileFeatures, keyMap, obstacleDraw, keyDraw)
    ensures Traced(rng, tileFeatures[t := GenerateObstacles(rng, d)], keyMap, obstacleDraw[t := d], keyDraw)
  {
    var tileFeatures', obstacleDraw' := tileFeatures[t := GenerateObstacles(rng, d)], obstacleDraw[t := d];
    forall u ensures TileTraced(rng, tileFeatures', keyMap, obstacleDraw', keyDraw, u) {
      assert TileTraced(rng, tileFeatures, keyMap, obstacleDraw, keyDraw, u);
    }
  }

  /** Marking a key collected keeps the trace: the key does not move. */
  lemma PickupKeepsTraced(rng: RandomSource, tileFeatures: map<Tile, seq<Obstacle>>, keyMap: map<Tile, seq<Key>>,
                          obstacleDraw: map<Tile, nat>, keyDraw: map<Tile, nat>, t: Tile)
    requires Traced(rng, tileFeatures, keyMap, obstacleDraw, keyDraw) && t in keyMap && keyMap[t] != []
    ensures Traced(rng, tileFeatures, keyMap[t := [keyMap[t][0].(collected := true)]], obstacleDraw, keyDraw)
  {
    var keyMap' := keyMap[t := [keyMap[t][0].(collected := true)]];
    forall u ensures TileTraced(rng, tileFeatures, keyMap', obstacleDraw, keyDraw, u) {
      assert TileTraced(rng, tileFeatures, keyMap, obstacleDraw, keyDraw, u);
    }
  }

  /** Caching a new tile's key list, whose key (if any) is the candidate
      of draw `d`, keeps the trace once `d` is recorded. */
  lemma NewKeysKeepTraced(rng: RandomSource, tileFeatures: map<Tile, seq<Obstacle>>, keyMap: map<Tile, seq<Key>>,
                          obstacleDraw: map<Tile, nat>, keyDraw: map<Tile, nat>, t: Tile, found: seq<Key>, d: nat)
    requires Traced(rng, tileFeatures, keyMap, obstacleDraw, keyDraw) && t !in keyMap
    requires found != [] ==> KeyAt(found[0], Candidate(rng, d))
    ensures Traced(rng, tileFeatures, keyMap[t := found], obstacleDraw, if found != [] then keyDraw[t := d] else keyDraw)
  {
    var keyMap', keyDraw' := keyMap[t := found], if found != [] then keyDraw[t := d] else keyDraw;
    forall u ensures TileTraced(rng, tileFeatures, keyMap', obstacleDraw, keyDraw', u) {
      assert TileTraced(rng, tileFeatures, keyMap, obstacleDraw, keyDraw, u);
    }
  }

  /** Generating the keys of a tile whose obstacles are cached changes
      no cached obstacles. */
  lemma KeysGeneratedCached(rng: RandomSource, tileFeatures: map<Tile, seq<Obstacle>>,
                            tileFeatures': map<Tile, seq<Obstacle>>, start: nat, end: nat,
                            col: int, row: int, found: seq<Key>)
    requires (col, row) in tileFeatures
    requires KeysGenerated(rng, tileFeatures, tileFeatures', start, end, col, row, found)
    ensures tileFeatures' == tileFeatures
    ensures KeysGenerated(rng, tileFeatures', tileFeatures', start, end, col, row, found)
  {
  }

  /** A generated key list is empty or holds the uncollected candidate of
      two draws that generation consumed, from draw `d` on. */
  lemma KeysGeneratedDrawn(rng: RandomSource, tileFeatures: map<Tile, seq<Obstacle>>,
                           tileFeatures': map<Tile, seq<Obstacle>>, start: nat, end: nat,
                           col: int, row: int, found: seq<Key>) returns (d: nat)
    requires KeysGenerated(rng, tileFeatures, tileFeatures', start, end, col, row, found)
    ensures start <= end
    ensures found != [] ==> !found[0].collected && start <= d && d + 2 <= end && found[0] == Candidate(rng, d)
  {
    d := start;
    if rng(start) < KEY_CHANCE {
      var obs := if (col, row) in tileFeatures then tileFeatures[(col, row)] else GenerateObstacles(rng, start + 1);
      var placed := if (col, row) in tileFeatures then start + 1 else start + 1 + OBSTACLE_DRAWS;
      assert found == PlaceKey(rng, placed, obs, PLACEMENT_ATTEMPTS).keys;
      assert end == PlaceKey(rng, placed, obs, PLACEMENT_ATTEMPTS).next;
      if found != [] {
        d := PlaceKeyDrawn(rng, placed, obs, PLACEMENT_ATTEMPTS);
      }
    }
  }

  /** What fetching world tile t does, from draw `start` to draw `end`:
      it ends up with cached obstacles, no other cached tile changes, and
      new obstacles are those generated from draw `start`; a cached key
      list is returned as `generated` with no further draw, and a new one
      is generated as KeysGenerated says from the draw after the
      obstacles, holding only an uncollected key. */
  ghost predicate TileFetched(rng: RandomSource, tileFeatures: map<Tile, seq<Obstacle>>,
                              tileFeatures': map<Tile, seq<Obstacle>>, keyMap: map<Tile, seq<Key>>,
                              start: nat, end: nat, t: Tile, generated: seq<Key>)
  {
    && t in tileFeatures' && tileFeatures' == tileFeatures[t := tileFeatures'[t]]
    && (t !in tileFeatures ==> tileFeatures'[t] == GenerateObstacles(rng, start))
    && var keysFrom := start + (if t in tileFeatures then 0 else OBSTACLE_DRAWS);
       if t in keyMap then
         generated == keyMap[t] && end == keysFrom
       else
         && KeysGenerated(rng, tileFeatures', tileFeatures', keysFrom, end, t.0, t.1, generated)
         && (generated != [] ==> !generated[0].collected)
  }

  /** TileFetched from its parts: the obstacles fetched from draw `start`
      to draw `mid`, then the keys from `mid` to `end`. */
  lemma FetchedFromParts(rng: RandomSource, tileFeatures: map<Tile, seq<Obstacle>>,
                         tileFeatures': map<Tile, seq<Obstacle>>, tileFeatures'': map<Tile, seq<Obstacle>>,
                         keyMap: map<Tile, seq<Key>>, start: nat, mid: nat, end: nat, t: Tile, generated: seq<Key>)
    requires t in tileFeatures ==> tileFeatures' == tileFeatures && mid == start
    requires t !in tileFeatures ==>
               tileFeatures' == tileFeatures[t := GenerateObstacles(rng, start)] && mid == start + OBSTACLE_DRAWS
    requires t in keyMap ==> tileFeatures'' == tileFeatures' && end == mid && generated == keyMap[t]
    requires t !in keyMap ==>
               && KeysGenerated(rng, tileFeatures', tileFeatures'', mid, end, t.0, t.1, generated)
               && (generated != [] ==> !generated[0].collected)
    ensures TileFetched(rng, tileFeatures, tileFeatures'', keyMap, start, end, t, generated)
  {
    assert (t.0, t.1) == t;
    if t !in keyMap {
      KeysGeneratedCached(rng, tileFeatures', tileFeatures'', mid, end, t.0, t.1, generated);
    }
  }

  /** Updating a key to its own value changes nothing. */
  lemma UpdateSame<V>(m: map<Tile, V>, t: Tile)
    requires t in m
    ensures m[t := m[t]] == m
  {
  }

  /** A second update of the same key overrides the first. */
  lemma UpdateTwice<V>(m: map<Tile, V>, t: Tile, a: V, b: V)
    ensures m[t := a][t := b] == m[t := b]
  {
  }

  /** Every tile `m'` adds to `m` lies in `row`, at a column from `lo` up
      to, but not including, `hi`. */
  ghost predicate AddedInRow<V>(m: map<Tile, V>, m': map<Tile, V>, row: int, lo: int, hi: int)
  {
    forall t {:trigger RowAdded(m, m', row, lo, hi, t)} :: RowAdded(m, m', row, lo, hi, t)
  }

  /** Tile t, if `m'` adds it to `m`, lies in `row` between `lo` and `hi`. */
  predicate RowAdded<V>(m: map<Tile, V>, m': map<Tile, V>, row: int, lo: int, hi: int, t: Tile)
  {
    t in m' && t !in m ==> t.1 == row && lo <= t.0 < hi
  }

  /** Visiting the next tile t of a row widens the added stretch by one column. */
  lemma AddedInRowStep<V>(m: map<Tile, V>, m': map<Tile, V>, m'': map<Tile, V>, row: int, lo: int, t: Tile)
    requires AddedInRow(m, m', row, lo, t.0) && t.1 == row && lo <= t.0
    requires t in m'' && m'' == m'[t := m''[t]]
    ensures AddedInRow(m, m'', row, lo, t.0 + 1)
  {
    var hi := t.0 + 1;
    forall u ensures RowAdded(m, m'', row, lo, hi, u) {
      assert RowAdded(m, m', row, lo, t.0, u);
    }
  }

  /** Adding one more scanned row to the rows already scanned keeps every
      added tile inside the window, above the next row. */
  lemma AddedRowInScan<V>(vp: Viewport, m: map<Tile, V>, m': map<Tile, V>, m'': map<Tile, V>, px: int, py: int, row: int)
    requires -1 <= row < WindowTiles(vp.height)
    requires forall t :: t in m' && t !in m ==> InScan(vp, px, py, t) && t.1 < StartIndex(py) + row
    requires forall t :: t in m'' && t !in m' ==>
               t.1 == StartIndex(py) + row && -1 <= t.0 - StartIndex(px) < WindowTiles(vp.width)
    ensures forall t :: t in m'' && t !in m ==> InScan(vp, px, py, t) && t.1 < StartIndex(py) + row + 1
  {
  }

  class Game {
    /** The canvas; its size is fixed once the game starts. */
    const view: Viewport
    /** The random source and the number of draws consumed so far. */
    const rng: RandomSource
    var drawn: nat

    /** The player. */
    var px: int
    var py: int
    var speed: nat
    var keys: nat
    var health: real

    var systemHealth: real
    var gameOver: bool

    /** The memoized per-tile obstacles and keys; entries are never removed. */
    var tileFeatures: map<Tile, seq<Obstacle>>
    var keyMap: map<Tile, seq<Key>>

    /** For the proof only: the draw each cached tile's obstacles were
        generated from, and the draw each cached key was placed from. */
    ghost var obstacleDraw: map<Tile, nat>
    ghost var keyDraw: map<Tile, nat>

    ghost predicate Valid()
      reads this`tileFeatures, this`keyMap, this`keys, this`health, this`systemHealth, this`gameOver
      reads this`obstacleDraw, this`keyDraw
    {
      && UnitDraws(rng)
      && FeaturesValid(tileFeatures, keyMap)
      && Traced(rng, tileFeatures, keyMap, obstacleDraw, keyDraw)
      && HealthValid(health, systemHealth, gameOver)
      && keys == |CollectedTiles(keyMap)|
    }

    /** The state the script starts in (game.js:18-24). */
    constructor (view: Viewport, rng: RandomSource)
      requires UnitDraws(rng)
      ensures Valid()
      ensures this.view == view && this.rng == rng && drawn == 0
      ensures px == 0 && py == 0 && speed == PLAYER_SPEED && keys == 0
      ensures health == MAX_HEALTH && systemHealth == MAX_SYSTEM_HEALTH && !gameOver
      ensures tileFeatures == map[] && keyMap == map[]
    {
      this.view := view;
      this.rng := rng;
      drawn := 0;
      px, py, speed, keys, health := 0, 0, PLAYER_SPEED, 0, MAX_HEALTH;
      systemHealth, gameOver := MAX_SYSTEM_HEALTH, false;
      tileFeatures, keyMap := map[], map[];
      obstacleDraw, keyDraw := map[], map[];
    }

    /** `Math.random()`: the next draw. */
    method Random() returns (r: real)
      requires Valid()
      modifies this`drawn
      ensures Valid()
      ensures r == rng(old(drawn)) && drawn == old(drawn) + 1
    {
      r := rng(drawn);
      drawn := drawn + 1;
    }

    /** The obstacles of tile (col, row), generated from the next ten draws
        on the first request and returned from the cache ever after. */
    method GetOrGenerateBlackTiles(col: int, row: int) returns (obs: seq<Obstacle>)
      requires Valid()
      modifies this`drawn, this`tileFeatures, this`obstacleDraw
      ensures Valid()
      ensures Extends(old(tileFeatures), tileFeatures)
      ensures DrawsWithin(old(obstacleDraw), obstacleDraw, old(drawn), drawn, OBSTACLE_DRAWS)
      ensures (col, row) in tileFeatures && tileFeatures[(col, row)] == obs
      ensures (col, row) in old(tileFeatures) ==>
                tileFeatures == old(tileFeatures) && drawn == old(drawn)
      ensures (col, row) !in old(tileFeatures) ==>
                && obs == GenerateObstacles(rng, old(drawn))
                && drawn == old(drawn) + OBSTACLE_DRAWS
                && tileFeatures == old(tileFeatures)[(col, row) := obs]
    {
      var t := (col, row);
      if t in tileFeatures {
        return tileFeatures[t];
      }
      assert TileTraced(rng, tileFeatures, keyMap, obstacleDraw, keyDraw, t);
      obs := GenerateObstacleList();
      GeneratedObstaclesWellFormed(rng, old(drawn));
      NewObstaclesKeepFeaturesValid(tileFeatures, keyMap, t, obs);
      NewObstaclesKeepTraced(rng, tileFeatures, keyMap, obstacleDraw, keyDraw, t, old(drawn));
      tileFeatures := tileFeatures[t := obs];
      obstacleDraw := obstacleDraw[t := old(drawn)];
    }

    /** The generation loop of `getOrGenerateBlackTiles`: five obstacles,
        two draws each. */
    method GenerateObstacleList() returns (obs: seq<Obstacle>)
      requires Valid()
      modifies this`drawn
      ensures Valid()
      ensures obs == GenerateObstacles(rng, old(drawn))
      ensures drawn == old(drawn) + OBSTACLE_DRAWS
    {
      obs := [];
      for i := 0 to OBSTACLES_PER_TILE
        invariant Valid() && drawn == old(drawn) + 2 * i
        invariant obs == ObstacleRun(rng, old(drawn), i)
      {
        var rx := Random();
        var ry := Random();
        var scatterX := Scatter(rx);
        var scatterY := Scatter(ry);
        obs := obs + [Obstacle(OBSTACLE_SIZE / 2.0 + scatterX, OBSTACLE_SIZE / 2.0 + scatterY,
                               OBSTACLE_SIZE, OBSTACLE_SIZE)];
      }
    }

    /** The keys of tile (col, row): generated on the first request and
        cached for good, even when the list is empty. */
    method GetOrGenerateKeys(col: int, row: int) returns (found: seq<Key>)
      requires Valid()
      modifies this`drawn, this`tileFeatures, this`keyMap, this`obstacleDraw, this`keyDraw
      ensures Valid()
      ensures Extends(old(tileFeatures), tileFeatures)
      ensures KeysEvolve(old(keyMap), keyMap)
      ensures DrawsWithin(old(obstacleDraw), obstacleDraw, old(drawn), drawn, OBSTACLE_DRAWS)
      ensures DrawsWithin(old(keyDraw), keyDraw, old(drawn), drawn, 2)
      ensures (col, row) in keyMap && keyMap[(col, row)] == found
      ensures (col, row) in old(keyMap) ==>
                keyMap == old(keyMap) && tileFeatures == old(tileFeatures) && drawn == old(drawn)
      ensures (col, row) !in old(keyMap) ==>
                && keyMap == old(keyMap)[(col, row) := found]
                && KeysGenerated(rng, old(tileFeatures), tileFeatures, old(drawn), drawn, col, row, found)
                && (found != [] ==> !found[0].collected)
    {
      var t := (col, row);
      if t in keyMap {
        return keyMap[t];
      }
      found := GenerateKeys(col, row);
      ghost var d := KeysGeneratedDrawn(rng, old(tileFeatures), tileFeatures, old(drawn), drawn, col, row, found);
      CacheKeys(t, found, d, old(drawn));
    }

    /** The store step of `getOrGenerateKeys`: a freshly generated key list
        (its key, if any, the uncollected candidate of draws `d` and `d+1`,
        both taken from `lo` on) is cached for tile t. */
    method CacheKeys(t: Tile, found: seq<Key>, ghost d: nat, ghost lo: nat)
      requires Valid() && t !in keyMap && |found| <= 1 && lo <= drawn
      requires found != [] ==>
                 && !found[0].collected && t in tileFeatures && KeyPlacedIn(found[0], tileFeatures[t])
                 && lo <= d && d + 2 <= drawn && found[0] == Candidate(rng, d)
      modifies this`keyMap, this`keyDraw
      ensures Valid()
      ensures keyMap == old(keyMap)[t := found]
      ensures KeysEvolve(old(keyMap), keyMap)
      ensures DrawsWithin(old(keyDraw), keyDraw, lo, drawn, 2)
    {
      assert TileTraced(rng, tileFeatures, keyMap, obstacleDraw, keyDraw, t);
      CollectedAfterNewTile(keyMap, t, found);
      NewKeysKeepFeaturesValid(tileFeatures, keyMap, t, found);
      NewKeysKeepTraced(rng, tileFeatures, keyMap, obstacleDraw, keyDraw, t, found, d);
      keyMap := keyMap[t := found];
      if found != [] {
        keyDraw := keyDraw[t := d];
      }
    }

    /** The uncached branch of `getOrGenerateKeys`: the roll for a key. */
    method GenerateKeys(col: int, row: int) returns (found: seq<Key>)
      requires Valid()
      modifies this`drawn, this`tileFeatures, this`obstacleDraw
      ensures Valid()
      ensures Extends(old(tileFeatures), tileFeatures)
      ensures DrawsWithin(old(obstacleDraw), obstacleDraw, old(drawn), drawn, OBSTACLE_DRAWS)
      ensures KeysGenerated(rng, old(tileFeatures), tileFeatures, old(drawn), drawn, col, row, found)
      ensures |found| <= 1
      ensures found != [] ==>
                && !found[0].collected && (col, row) in tileFeatures
                && KeyPlacedIn(found[0], tileFeatures[(col, row)])
    {
      found := [];
      var roll := Random();
      if roll < KEY_CHANCE {
        ghost var drawnBefore := drawn;
        found := PlaceTileKey(col, row);
        DrawsWithinTrans(old(obstacleDraw), old(obstacleDraw), obstacleDraw, old(drawn), drawnBefore, drawn, OBSTACLE_DRAWS);
      }
    }

    /** The key placement of `getOrGenerateKeys` once the roll succeeded. */
    method PlaceTileKey(col: int, row: int) returns (found: seq<Key>)
      requires Valid()
      modifies this`drawn, this`tileFeatures, this`obstacleDraw
      ensures Valid()
      ensures Extends(old(tileFeatures), tileFeatures)
      ensures DrawsWithin(old(obstacleDraw), obstacleDraw, old(drawn), drawn, OBSTACLE_DRAWS)
      ensures KeyPlaced(rng, old(tileFeatures), tileFeatures, old(drawn), drawn, col, row, found)
      ensures |found| <= 1
      ensures found != [] ==>
                && !found[0].collected && (col, row) in tileFeatures
                && KeyPlacedIn(found[0], tileFeatures[(col, row)])
    {
      var blackTiles := GetOrGenerateBlackTiles(col, row);
      ghost var placed := drawn;
      found := PlaceKeyAttempts(blackTiles);
      DrawsWithinTrans(old(obstacleDraw), obstacleDraw, obstacleDraw, old(drawn), placed, drawn, OBSTACLE_DRAWS);
      PlacedKeyInTile(rng, placed, blackTiles, PLACEMENT_ATTEMPTS);
      KeyPlacedFromParts(rng, old(tileFeatures), tileFeatures, old(drawn), placed, drawn, col, row, found);
    }

    /** One placement attempt: two draws scaled to the tile, kept when the
        key's box overlaps none of `obs`. */
    method TryPlacement(obs: seq<Obstacle>) returns (k: seq<Key>)
      requires Valid()
      modifies this`drawn
      ensures Valid()
      ensures drawn == old(drawn) + 2
      ensures k == if AttemptOverlaps(rng, old(drawn), obs, 0) then [] else [Candidate(rng, old(drawn))]
    {
      var rx := Random();
      var ry := Random();
      var x := TileScale(rx);
      var y := TileScale(ry);
      k := if KeyOverlaps(x, y, obs) then [] else [Key(x, y, false)];
    }

    /** The placement loop of `getOrGenerateKeys`: up to twenty candidates,
        two draws each, the first one clear of `obs` taken. */
    method PlaceKeyAttempts(obs: seq<Obstacle>) returns (found: seq<Key>)
      requires Valid()
      modifies this`drawn
      ensures Valid()
      ensures var r := PlaceKey(rng, old(drawn), obs, PLACEMENT_ATTEMPTS);
              found == r.keys && drawn == r.next
    {
      found := [];
      var attempts := 0;
      while attempts < PLACEMENT_ATTEMPTS
        invariant Valid() && 0 <= attempts <= PLACEMENT_ATTEMPTS && found == []
        invariant PlaceKey(rng, drawn, obs, PLACEMENT_ATTEMPTS - attempts)
                  == PlaceKey(rng, old(drawn), obs, PLACEMENT_ATTEMPTS)
      {
        ghost var at := drawn;
        var k := TryPlacement(obs);
        if k != [] {
          PlaceKeyTake(rng, at, obs, PLACEMENT_ATTEMPTS - attempts);
          found := k;
          break;
        }
        PlaceKeySkip(rng, at, obs, PLACEMENT_ATTEMPTS - attempts);
        attempts := attempts + 1;
      }
    }

    /** `isCollidingWithBlackTile(nx, ny)`: scans the window of tiles around
        the current position, generating the ones not yet cached, and
        answers whether one of their obstacles blocks the candidate (nx, ny).
        It stops at the first blocking obstacle, so a `true` answer may
        leave later tiles of the window ungenerated. Every tile it adds
        holds the obstacles of ten consecutive draws that it consumed. */
    method IsCollidingWithBlackTile(nx: int, ny: int) returns (hit: bool)
      requires Valid()
      modifies this`drawn, this`tileFeatures, this`obstacleDraw
      ensures Valid()
      ensures Extends(old(tileFeatures), tileFeatures)
      ensures DrawsWithin(old(obstacleDraw), obstacleDraw, old(drawn), drawn, OBSTACLE_DRAWS)
      ensures hit <==> Blocked(tileFeatures, view, px, py, nx, ny)
      ensures !hit ==> WindowCached(tileFeatures, view, px, py)
      ensures forall t :: t in tileFeatures && t !in old(tileFeatures) ==> InScan(view, px, py, t)
    {
      var cols := WindowTiles(view.width);
      var rows := WindowTiles(view.height);
      for row := -1 to rows
        invariant Valid() && Extends(old(tileFeatures), tileFeatures)
        invariant DrawsWithin(old(obstacleDraw), obstacleDraw, old(drawn), drawn, OBSTACLE_DRAWS)
        invariant forall i, j :: -1 <= i < row && -1 <= j < cols ==>
                    TileClear(tileFeatures, view, px, py, nx, ny, j, i)
        invariant forall t :: t in tileFeatures && t !in old(tileFeatures) ==>
                    InScan(view, px, py, t) && t.1 < StartIndex(py) + row
      {
        ghost var before, drawBefore, drawnBefore := tileFeatures, obstacleDraw, drawn;
        var blocked := ScanRow(row, nx, ny);
        DrawsWithinTrans(old(obstacleDraw), drawBefore, obstacleDraw, old(drawn), drawnBefore, drawn, OBSTACLE_DRAWS);
        if blocked {
          var col :| -1 <= col < cols && WorldTile(px, py, col, row) in tileFeatures
                     && TileBlocks(view, px, py, nx, ny, col, row, tileFeatures[WorldTile(px, py, col, row)]);
          assert InWindow(view, col, row);
          return true;
        }
        forall i, j | -1 <= i <= row && -1 <= j < cols
          ensures TileClear(tileFeatures, view, px, py, nx, ny, j, i)
        {
          if i < row {
            TileClearPersists(before, tileFeatures, view, px, py, nx, ny, j, i);
          }
        }
      }
      forall col, row | InWindow(view, col, row)
        ensures TileClear(tileFeatures, view, px, py, nx, ny, col, row)
      {
      }
      hit := false;
    }

    /** One row of the collision scan, window columns -1 up to the window
        width, left to right, stopping at the first blocking tile. */
    method ScanRow(row: int, nx: int, ny: int) returns (hit: bool)
      requires Valid()
      modifies this`drawn, this`tileFeatures, this`obstacleDraw
      ensures Valid()
      ensures Extends(old(tileFeatures), tileFeatures)
      ensures DrawsWithin(old(obstacleDraw), obstacleDraw, old(drawn), drawn, OBSTACLE_DRAWS)
      ensures hit ==> exists col :: -1 <= col < WindowTiles(view.width) && WorldTile(px, py, col, row) in tileFeatures
                                    && TileBlocks(view, px, py, nx, ny, col, row, tileFeatures[WorldTile(px, py, col, row)])
      ensures !hit ==> forall col :: -1 <= col < WindowTiles(view.width) ==>
                         TileClear(tileFeatures, view, px, py, nx, ny, col, row)
      ensures forall t :: t in tileFeatures && t !in old(tileFeatures) ==>
                t.1 == StartIndex(py) + row && -1 <= t.0 - StartIndex(px) < WindowTiles(view.width)
    {
      var cols := WindowTiles(view.width);
      for col := -1 to cols
        invariant Valid() && Extends(old(tileFeatures), tileFeatures)
        invariant DrawsWithin(old(obstacleDraw), obstacleDraw, old(drawn), drawn, OBSTACLE_DRAWS)
        invariant forall j :: -1 <= j < col ==> TileClear(tileFeatures, view, px, py, nx, ny, j, row)
        invariant forall t :: t in tileFeatures && t !in old(tileFeatures) ==>
                    t.1 == StartIndex(py) + row && -1 <= t.0 - StartIndex(px) < col
      {
        ghost var before, drawBefore, drawnBefore := tileFeatures, obstacleDraw, drawn;
        var blocked := ScanTile(col, row, nx, ny);
        DrawsWithinTrans(old(obstacleDraw), drawBefore, obstacleDraw, old(drawn), drawnBefore, drawn, OBSTACLE_DRAWS);
        if blocked {
          return true;
        }
        forall j | -1 <= j <= col
          ensures TileClear(tileFeatures, view, px, py, nx, ny, j, row)
        {
          if j < col {
            TileClearPersists(before, tileFeatures, view, px, py, nx, ny, j, row);
          }
        }
      }
      hit := false;
    }

    /** One tile of the collision scan, at window position (col, row):
        its obstacles are fetched, generated if need be, and tested in
        order until one blocks the candidate (nx, ny). */
    method ScanTile(col: int, row: int, nx: int, ny: int) returns (hit: bool)
      requires Valid()
      modifies this`drawn, this`tileFeatures, this`obstacleDraw
      ensures Valid()
      ensures Extends(old(tileFeatures), tileFeatures)
      ensures DrawsWithin(old(obstacleDraw), obstacleDraw, old(drawn), drawn, OBSTACLE_DRAWS)
      ensures WorldTile(px, py, col, row) in tileFeatures
      ensures tileFeatures == old(tileFeatures)[WorldTile(px, py, col, row) := tileFeatures[WorldTile(px, py, col, row)]]
      ensures hit <==> TileBlocks(view, px, py, nx, ny, col, row, tileFeatures[WorldTile(px, py, col, row)])
    {
      var worldCol := StartIndex(px) + col;
      var worldRow := StartIndex(py) + row;
      var blackTiles := GetOrGenerateBlackTiles(worldCol, worldRow);
      for k := 0 to |blackTiles|
        invariant forall k' :: 0 <= k' < k ==> !ObstacleHit(view, px, py, nx, ny, col, row, blackTiles[k'])
      {
        if ObstacleHit(view, px, py, nx, ny, col, row, blackTiles[k]) {
          return true;
        }
      }
      hit := false;
    }

    /** One iteration of the key handler's loop: try the x step at the
        current row, then the y step from the possibly updated x. */
    method Step(dx: int, dy: int) returns (movedX: bool, movedY: bool)
      requires Valid()
      modifies this`drawn, this`tileFeatures, this`obstacleDraw, this`px, this`py
      ensures Valid()
      ensures Extends(old(tileFeatures), tileFeatures)
      ensures DrawsWithin(old(obstacleDraw), obstacleDraw, old(drawn), drawn, OBSTACLE_DRAWS)
      ensures px == (if movedX then old(px) + dx else old(px))
      ensures movedX <==> !Blocked(tileFeatures, view, old(px), old(py), old(px) + dx, old(py))
      ensures py == (if movedY then old(py) + dy else old(py))
      ensures movedY <==> !Blocked(tileFeatures, view, px, old(py), px, old(py) + dy)
      ensures forall t :: t in tileFeatures && t !in old(tileFeatures) ==>
                InScan(view, old(px), old(py), t) || InScan(view, px, old(py), t)
    {
      var newX := px + dx;
      var newY := py + dy;
      var blockedX := IsCollidingWithBlackTile(newX, py);
      ghost var afterX, drawAfterX, drawnX := tileFeatures, obstacleDraw, drawn;
      if !blockedX {
        px := newX;
      }
      var blockedY := IsCollidingWithBlackTile(px, newY);
      if !blockedY {
        py := newY;
      }
      movedX, movedY := !blockedX, !blockedY;
      DrawsWithinTrans(old(obstacleDraw), drawAfterX, obstacleDraw, old(drawn), drawnX, drawn, OBSTACLE_DRAWS);
      if blockedX {
        BlockedPersists(afterX, tileFeatures, view, old(px), old(py), newX, old(py));
      } else {
        ClearPersists(afterX, tileFeatures, view, old(px), old(py), newX, old(py));
      }
    }

    /** The keydown handler: `speed` iterations of Step in the key's
        direction. It does not look at `gameOver`. */
    method KeyDown(k: KeyPress)
      requires Valid()
      modifies this`drawn, this`tileFeatures, this`obstacleDraw, this`px, this`py
      ensures Valid()
      ensures Extends(old(tileFeatures), tileFeatures)
      ensures DrawsWithin(old(obstacleDraw), obstacleDraw, old(drawn), drawn, OBSTACLE_DRAWS)
      ensures Delta(k).0 == 0 ==> px == old(px)
      ensures Delta(k).0 == 1 ==> old(px) <= px <= old(px) + speed
      ensures Delta(k).0 == -1 ==> old(px) - speed <= px <= old(px)
      ensures Delta(k).1 == 0 ==> py == old(py)
      ensures Delta(k).1 == 1 ==> old(py) <= py <= old(py) + speed
      ensures Delta(k).1 == -1 ==> old(py) - speed <= py <= old(py)
      ensures forall t :: t in tileFeatures && t !in old(tileFeatures) ==>
                InSpan(view, old(px) - speed, old(px) + speed, old(py) - speed, old(py) + speed, t)
    {
      var (dx, dy) := Delta(k);
      for i := 0 to speed
        invariant Valid() && Extends(old(tileFeatures), tileFeatures)
        invariant DrawsWithin(old(obstacleDraw), obstacleDraw, old(drawn), drawn, OBSTACLE_DRAWS)
        invariant dx == 0 ==> px == old(px)
        invariant dx == 1 ==> old(px) <= px <= old(px) + i
        invariant dx == -1 ==> old(px) - i <= px <= old(px)
        invariant dy == 0 ==> py == old(py)
        invariant dy == 1 ==> old(py) <= py <= old(py) + i
        invariant dy == -1 ==> old(py) - i <= py <= old(py)
        invariant forall t :: t in tileFeatures && t !in old(tileFeatures) ==>
                    InSpan(view, old(px) - i, old(px) + i, old(py) - i, old(py) + i, t)
      {
        ghost var before, drawBefore, drawnBefore := tileFeatures, obstacleDraw, drawn;
        ghost var x, y := px, py;
        var _, _ := Step(dx, dy);
        DrawsWithinTrans(old(obstacleDraw), drawBefore, obstacleDraw, old(drawn), drawnBefore, drawn, OBSTACLE_DRAWS);
        ScansStayInSpan(view, old(tileFeatures), before, tileFeatures, old(px), old(py), i, x, y, px);
      }
    }

    /** Key pickup on tile t, whose corner is drawn at (sx, sy): an
        uncollected key within reach of the player is collected and counted. */
    method PickUp(t: Tile, sx: real, sy: real)
      requires Valid() && t in keyMap
      modifies this`keyMap, this`keys
      ensures Valid()
      ensures KeysEvolve(old(keyMap), keyMap)
      ensures keyMap == old(keyMap)[t := Collect(view, old(keyMap)[t], sx, sy)]
      ensures keys == old(keys) + (if Collects(view, old(keyMap)[t], sx, sy) then 1 else 0)
    {
      var ks := keyMap[t];
      assert TileValid(tileFeatures, keyMap, t);
      CollectAtMostOne(view, ks, sx, sy);
      if ks != [] && !ks[0].collected {
        var keyScreenX := sx + ks[0].x;
        var keyScreenY := sy + ks[0].y;
        if InReach(view, keyScreenX, keyScreenY) {
          CollectedAfterPickup(keyMap, t);
          PickupKeepsFeaturesValid(tileFeatures, keyMap, t);
          PickupKeepsTraced(rng, tileFeatures, keyMap, obstacleDraw, keyDraw, t);
          keyMap := keyMap[t := [ks[0].(collected := true)]];
          keys := keys + 1;
          return;
        }
      }
      UpdateSame(keyMap, t);
    }

    /** Hazard damage from tile t's cone, the tile's corner drawn at (sx, sy). */
    method ApplySweep(t: Tile, sx: real, sy: real, now: real, sweep: SweepTest)
      requires Valid()
      modifies this`health, this`gameOver
      ensures Valid()
      ensures if InCone(view, now, t, sx, sy, sweep) then
                health == Drain(old(health), HAZARD_DAMAGE).0
                && gameOver == (old(gameOver) || Drain(old(health), HAZARD_DAMAGE).1)
              else
                health == old(health) && gameOver == old(gameOver)
    {
      if InCone(view, now, t, sx, sy, sweep) {
        HazardKeepsHealthValid(health, systemHealth, gameOver);
        var (h, died) := Drain(health, HAZARD_DAMAGE);
        health := h;
        if died {
          gameOver := true;
        }
      }
    }

    /** The generation half of a visit to world tile t: its obstacles are
        fetched (generated from the next ten draws if new), then its keys
        (generated from the draws after that if new), `generated` being the
        tile's key list as it was before any pickup. */
    method FetchTile(t: Tile) returns (ghost generated: seq<Key>)
      requires Valid()
      modifies this`drawn, this`tileFeatures, this`keyMap, this`obstacleDraw, this`keyDraw
      ensures Valid()
      ensures Extends(old(tileFeatures), tileFeatures) && KeysEvolve(old(keyMap), keyMap)
      ensures DrawsWithin(old(obstacleDraw), obstacleDraw, old(drawn), drawn, OBSTACLE_DRAWS)
      ensures DrawsWithin(old(keyDraw), keyDraw, old(drawn), drawn, 2)
      ensures TileFetched(rng, old(tileFeatures), tileFeatures, old(keyMap), old(drawn), drawn, t, generated)
      ensures keyMap == old(keyMap)[t := generated]
    {
      assert (t.0, t.1) == t;
      var _ := GetOrGenerateBlackTiles(t.0, t.1);
      ghost var featuresBefore, drawBefore, drawnBefore := tileFeatures, obstacleDraw, drawn;
      generated := GetOrGenerateKeys(t.0, t.1);
      DrawsWithinTrans(old(obstacleDraw), drawBefore, obstacleDraw, old(drawn), drawnBefore, drawn, OBSTACLE_DRAWS);
      DrawsWithinTrans(old(keyDraw), old(keyDraw), keyDraw, old(drawn), drawnBefore, drawn, 2);
      FetchedFromParts(rng, old(tileFeatures), featuresBefore, tileFeatures, old(keyMap),
                       old(drawn), drawnBefore, drawn, t, generated);
      if t in old(keyMap) {
        UpdateSame(keyMap, t);
      }
    }

    /** One tile of `drawInfiniteTiles`'s scan: world tile t, its corner
        drawn at (sx, sy). The tile is fetched as FetchTile says (which
        also states the draws that generated it), then its key is offered
        for pickup and its hazard cone is applied. */
    method VisitTile(t: Tile, sx: real, sy: real, now: real, sweep: SweepTest) returns (ghost generated: seq<Key>)
      requires Valid()
      modifies this`drawn, this`tileFeatures, this`keyMap, this`keys, this`health, this`gameOver
      modifies this`obstacleDraw, this`keyDraw
      ensures Valid()
      ensures Extends(old(tileFeatures), tileFeatures) && KeysEvolve(old(keyMap), keyMap)
      ensures DrawsWithin(old(obstacleDraw), obstacleDraw, old(drawn), drawn, OBSTACLE_DRAWS)
      ensures DrawsWithin(old(keyDraw), keyDraw, old(drawn), drawn, 2)
      ensures old(keys) <= keys && health <= old(health) && (old(gameOver) ==> gameOver)
      ensures t in tileFeatures && tileFeatures == old(tileFeatures)[t := tileFeatures[t]]
      ensures t !in old(tileFeatures) ==> tileFeatures[t] == GenerateObstacles(rng, old(drawn))
      ensures t in old(keyMap) ==> generated == old(keyMap)[t]
      ensures t !in old(keyMap) ==> |generated| <= 1 && (generated != [] ==> !generated[0].collected)
      ensures keyMap == old(keyMap)[t := Collect(view, generated, sx, sy)]
      ensures keys == old(keys) + (if Collects(view, generated, sx, sy) then 1 else 0)
      ensures health == (if InCone(view, now, t, sx, sy, sweep) then Drain(old(health), HAZARD_DAMAGE).0
                         else old(health))
      ensures gameOver == (if InCone(view, now, t, sx, sy, sweep) then old(gameOver) || Drain(old(health), HAZARD_DAMAGE).1
                           else old(gameOver))
    {
      generated := FetchTile(t);
      ghost var fetched := keyMap;
      PickUp(t, sx, sy);
      KeysEvolveTrans(old(keyMap), fetched, keyMap);
      UpdateTwice(old(keyMap), t, generated, Collect(view, generated, sx, sy));
      ApplySweep(t, sx, sy, now, sweep);
    }

    /** The body of the scan's inner loop: the tile at window position
        (col, row) is visited with its corner at its screen position. */
    method VisitCell(col: int, row: int, now: real, sweep: SweepTest)
      requires Valid()
      modifies this`drawn, this`tileFeatures, this`keyMap, this`keys, this`health, this`gameOver
      modifies this`obstacleDraw, this`keyDraw
      ensures Valid()
      ensures Extends(old(tileFeatures), tileFeatures) && KeysEvolve(old(keyMap), keyMap)
      ensures DrawsWithin(old(obstacleDraw), obstacleDraw, old(drawn), drawn, OBSTACLE_DRAWS)
      ensures DrawsWithin(old(keyDraw), keyDraw, old(drawn), drawn, 2)
      ensures old(keys) <= keys && health <= old(health) && (old(gameOver) ==> gameOver)
      ensures WorldTile(px, py, col, row) in tileFeatures
      ensures tileFeatures == old(tileFeatures)[WorldTile(px, py, col, row) := tileFeatures[WorldTile(px, py, col, row)]]
      ensures WorldTile(px, py, col, row) in keyMap
      ensures keyMap == old(keyMap)[WorldTile(px, py, col, row) := keyMap[WorldTile(px, py, col, row)]]
    {
      var x := (col * TILE_SPACING - Offset(px)) as real;
      var y := (row * TILE_SPACING - Offset(py)) as real;
      ghost var _ := VisitTile(WorldTile(px, py, col, row), x, y, now, sweep);
    }

    /** The logic of `drawInfiniteTiles`: every tile of the window around
        the player is generated (obstacles, then keys), offers its key for
        pickup and applies its hazard cone; the scan goes row by row. */
    method VisitVisibleTiles(now: real, sweep: SweepTest)
      requires Valid()
      modifies this`drawn, this`tileFeatures, this`keyMap, this`keys, this`health, this`gameOver
      modifies this`obstacleDraw, this`keyDraw
      ensures Valid()
      ensures Extends(old(tileFeatures), tileFeatures)
      ensures KeysEvolve(old(keyMap), keyMap)
      ensures DrawsWithin(old(obstacleDraw), obstacleDraw, old(drawn), drawn, OBSTACLE_DRAWS)
      ensures DrawsWithin(old(keyDraw), keyDraw, old(drawn), drawn, 2)
      ensures old(keys) <= keys && health <= old(health)
      ensures old(gameOver) ==> gameOver
      ensures forall col, row :: InWindow(view, col, row) ==>
                WorldTile(px, py, col, row) in tileFeatures && WorldTile(px, py, col, row) in keyMap
      ensures forall t :: t in tileFeatures && t !in old(tileFeatures) ==> InScan(view, px, py, t)
      ensures forall t :: t in keyMap && t !in old(keyMap) ==> InScan(view, px, py, t)
    {
      var rows := WindowTiles(view.height);
      for row := -1 to rows
        invariant Valid() && Extends(old(tileFeatures), tileFeatures) && KeysEvolve(old(keyMap), keyMap)
        invariant DrawsWithin(old(obstacleDraw), obstacleDraw, old(drawn), drawn, OBSTACLE_DRAWS)
        invariant DrawsWithin(old(keyDraw), keyDraw, old(drawn), drawn, 2)
        invariant old(keys) <= keys && health <= old(health) && (old(gameOver) ==> gameOver)
        invariant forall i, j :: -1 <= i < row && -1 <= j < WindowTiles(view.width) ==>
                    WorldTile(px, py, j, i) in tileFeatures && WorldTile(px, py, j, i) in keyMap
        invariant forall t :: t in tileFeatures && t !in old(tileFeatures) ==>
                    InScan(view, px, py, t) && t.1 < StartIndex(py) + row
        invariant forall t :: t in keyMap && t !in old(keyMap) ==>
                    InScan(view, px, py, t) && t.1 < StartIndex(py) + row
      {
        ghost var before, keysBefore := tileFeatures, keyMap;
        ghost var drawBefore, keyDrawBefore, drawnBefore := obstacleDraw, keyDraw, drawn;
        VisitRow(row, now, sweep);
        AddedRowInScan(view, old(tileFeatures), before, tileFeatures, px, py, row);
        AddedRowInScan(view, old(keyMap), keysBefore, keyMap, px, py, row);
        KeysEvolveTrans(old(keyMap), keysBefore, keyMap);
        DrawsWithinTrans(old(obstacleDraw), drawBefore, obstacleDraw, old(drawn), drawnBefore, drawn, OBSTACLE_DRAWS);
        DrawsWithinTrans(old(keyDraw), keyDrawBefore, keyDraw, old(drawn), drawnBefore, drawn, 2);
        forall i, j | -1 <= i < row && -1 <= j < WindowTiles(view.width)
          ensures WorldTile(px, py, j, i) in tileFeatures && WorldTile(px, py, j, i) in keyMap
        {
          assert WorldTile(px, py, j, i) in before && WorldTile(px, py, j, i) in keysBefore;
          assert KeyEvolves(keysBefore, keyMap, WorldTile(px, py, j, i));
        }
      }
    }

    /** One row of the scan: the tiles at window columns -1 up to the
        window width, left to right. */
    method VisitRow(row: int, now: real, sweep: SweepTest)
      requires Valid()
      modifies this`drawn, this`tileFeatures, this`keyMap, this`keys, this`health, this`gameOver
      modifies this`obstacleDraw, this`keyDraw
      ensures Valid()
      ensures Extends(old(tileFeatures), tileFeatures)
      ensures KeysEvolve(old(keyMap), keyMap)
      ensures DrawsWithin(old(obstacleDraw), obstacleDraw, old(drawn), drawn, OBSTACLE_DRAWS)
      ensures DrawsWithin(old(keyDraw), keyDraw, old(drawn), drawn, 2)
      ensures old(keys) <= keys && health <= old(health)
      ensures old(gameOver) ==> gameOver
      ensures forall col :: -1 <= col < WindowTiles(view.width) ==>
                WorldTile(px, py, col, row) in tileFeatures && WorldTile(px, py, col, row) in keyMap
      ensures forall t :: t in tileFeatures && t !in old(tileFeatures) ==>
                t.1 == StartIndex(py) + row && -1 <= t.0 - StartIndex(px) < WindowTiles(view.width)
      ensures forall t :: t in keyMap && t !in old(keyMap) ==>
                t.1 == StartIndex(py) + row && -1 <= t.0 - StartIndex(px) < WindowTiles(view.width)
    {
      for col := -1 to WindowTiles(view.width)
        invariant Valid() && Extends(old(tileFeatures), tileFeatures) && KeysEvolve(old(keyMap), keyMap)
        invariant DrawsWithin(old(obstacleDraw), obstacleDraw, old(drawn), drawn, OBSTACLE_DRAWS)
        invariant DrawsWithin(old(keyDraw), keyDraw, old(drawn), drawn, 2)
        invariant old(keys) <= keys && health <= old(health) && (old(gameOver) ==> gameOver)
        invariant forall j :: -1 <= j < col ==>
                    WorldTile(px, py, j, row) in tileFeatures && WorldTile(px, py, j, row) in keyMap
        invariant AddedInRow(old(tileFeatures), tileFeatures, StartIndex(py) + row, StartIndex(px) - 1, StartIndex(px) + col)
        invariant AddedInRow(old(keyMap), keyMap, StartIndex(py) + row, StartIndex(px) - 1, StartIndex(px) + col)
      {
        ghost var before, keysBefore, drawBefore, keyDrawBefore, drawnBefore := tileFeatures, keyMap, obstacleDraw, keyDraw, drawn;
        VisitCell(col, row, now, sweep);
        AddedInRowStep(old(tileFeatures), before, tileFeatures, StartIndex(py) + row, StartIndex(px) - 1, WorldTile(px, py, col, row));
        AddedInRowStep(old(keyMap), keysBefore, keyMap, StartIndex(py) + row, StartIndex(px) - 1, WorldTile(px, py, col, row));
        KeysEvolveTrans(old(keyMap), keysBefore, keyMap);
        forall j | -1 <= j < col
          ensures WorldTile(px, py, j, row) in tileFeatures && WorldTile(px, py, j, row) in keyMap
        {
          assert KeyEvolves(keysBefore, keyMap, WorldTile(px, py, j, row));
        }
        DrawsWithinTrans(old(obstacleDraw), drawBefore, obstacleDraw, old(drawn), drawnBefore, drawn, OBSTACLE_DRAWS);
        DrawsWithinTrans(old(keyDraw), keyDrawBefore, keyDraw, old(drawn), drawnBefore, drawn, 2);
      }
      forall t | t in tileFeatures && t !in old(tileFeatures)
        ensures t.1 == StartIndex(py) + row && -1 <= t.0 - StartIndex(px) < WindowTiles(view.width)
      {
        assert RowAdded(old(tileFeatures), tileFeatures, StartIndex(py) + row, StartIndex(px) - 1, StartIndex(px) + WindowTiles(view.width), t);
      }
      forall t | t in keyMap && t !in old(keyMap)
        ensures t.1 == StartIndex(py) + row && -1 <= t.0 - StartIndex(px) < WindowTiles(view.width)
      {
        assert RowAdded(old(keyMap), keyMap, StartIndex(py) + row, StartIndex(px) - 1, StartIndex(px) + WindowTiles(view.width), t);
      }
    }

    /** One frame of `update`: frozen once the game is over; otherwise the
        tiles are visited, system health drains by one step and the game
        ends if it ran out. Iterated over frames with no hazard hit, the
        system-health clause is Rules.SystemAfter, whose closed form is
        Rules.SystemAfterClosedForm. */
    method Update(now: real, sweep: SweepTest)
      requires Valid()
      modifies this`drawn, this`tileFeatures, this`keyMap, this`keys, this`health, this`systemHealth, this`gameOver
      modifies this`obstacleDraw, this`keyDraw
      ensures Valid()
      ensures old(gameOver) ==>
                && gameOver && drawn == old(drawn) && tileFeatures == old(tileFeatures)
                && keyMap == old(keyMap) && keys == old(keys)
                && health == old(health) && systemHealth == old(systemHealth)
      ensures !old(gameOver) ==>
                && Extends(old(tileFeatures), tileFeatures)
                && KeysEvolve(old(keyMap), keyMap)
                && DrawsWithin(old(obstacleDraw), obstacleDraw, old(drawn), drawn, OBSTACLE_DRAWS)
                && DrawsWithin(old(keyDraw), keyDraw, old(drawn), drawn, 2)
                && (forall col, row :: InWindow(view, col, row) ==>
                      WorldTile(px, py, col, row) in tileFeatures && WorldTile(px, py, col, row) in keyMap)
                && (forall t :: t in tileFeatures && t !in old(tileFeatures) ==> InScan(view, px, py, t))
                && (forall t :: t in keyMap && t !in old(keyMap) ==> InScan(view, px, py, t))
                && old(keys) <= keys && health <= old(health)
                && systemHealth == Drain(old(systemHealth), HEALTH_DEPLETION_RATE).0
                && (Drain(old(systemHealth), HEALTH_DEPLETION_RATE).1 ==> gameOver)
    {
      if gameOver {
        return;
      }
      VisitVisibleTiles(now, sweep);
      DepletionKeepsHealthValid(health, systemHealth, gameOver);
      var (s, failed) := Drain(systemHealth, HEALTH_DEPLETION_RATE);
      systemHealth := s;
      if failed {
        gameOver := true;
      }
    }
  }
}
