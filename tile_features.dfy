/** What a freshly generated tile contains, as functions of the random
    draws consumed to generate it (game.js:32-75). The stateful store
    that caches these results is GameState.Game. */
module TileFeatures {
  import opened Geometry

  /** The random source: draw number `n` is `rng(n)`. */
  type RandomSource = nat -> real

  /** Every draw lies in [0, 1), as Math.random promises. */
  ghost predicate UnitDraws(rng: RandomSource)
  {
    forall n: nat :: 0.0 <= rng(n) < 1.0
  }

  const OBSTACLES_PER_TILE: nat := 5
  const OBSTACLE_SIZE: real := 80.0
  const KEY_CHANCE: real := 0.2
  const PLACEMENT_ATTEMPTS: nat := 20

  /** Draws used to generate one tile's obstacle list. */
  const OBSTACLE_DRAWS: nat := 2 * OBSTACLES_PER_TILE

  /** A unit draw turned into an obstacle's jitter, `(u - 0.5) * 60`, so
      within 30 of zero. The factor is a literal to keep the product linear. */
  function Scatter(u: real): (r: real)
    ensures 0.0 <= u < 1.0 ==> -30.0 <= r < 30.0
  {
    (u - 0.5) * 60.0
  }

  /** One obstacle made from draws `at` (x scatter) and `at + 1` (y scatter). */
  function MakeObstacle(rng: RandomSource, at: nat): Obstacle
  {
    Obstacle(OBSTACLE_SIZE / 2.0 + Scatter(rng(at)), OBSTACLE_SIZE / 2.0 + Scatter(rng(at + 1)),
             OBSTACLE_SIZE, OBSTACLE_SIZE)
  }

  /** The first `n` obstacles of a list generated from draw `at` on:
      obstacle `i` uses draws `at + 2i` and `at + 2i + 1`. */
  function ObstacleRun(rng: RandomSource, at: nat, n: nat): (r: seq<Obstacle>)
    ensures |r| == n
    ensures forall i :: 0 <= i < n ==> r[i] == MakeObstacle(rng, at + 2 * i)
  {
    if n == 0 then [] else ObstacleRun(rng, at, n - 1) + [MakeObstacle(rng, at + 2 * (n - 1))]
  }

  /** A whole tile's obstacle list, generated from draw `at` on. */
  function GenerateObstacles(rng: RandomSource, at: nat): seq<Obstacle>
  {
    ObstacleRun(rng, at, OBSTACLES_PER_TILE)
  }

  /** An obstacle as generation can produce it: 80 x 80, with its corner
      jittered by at most 30 around the local offset (40, 40). */
  ghost predicate WellFormedObstacle(o: Obstacle)
  {
    && o.w == OBSTACLE_SIZE && o.h == OBSTACLE_SIZE
    && 10.0 <= o.x < 70.0 && 10.0 <= o.y < 70.0
  }

  ghost predicate WellFormedObstacles(obs: seq<Obstacle>)
  {
    |obs| == OBSTACLES_PER_TILE && forall i :: 0 <= i < |obs| ==> WellFormedObstacle(obs[i])
  }

  /** Every generated obstacle list has five well-formed obstacles. */
  lemma GeneratedObstaclesWellFormed(rng: RandomSource, at: nat)
    requires UnitDraws(rng)
    ensures WellFormedObstacles(GenerateObstacles(rng, at))
  {
    var obs := GenerateObstacles(rng, at);
    forall i | 0 <= i < |obs| ensures WellFormedObstacle(obs[i]) {
      assert 0.0 <= rng(at + 2 * i) < 1.0 && 0.0 <= rng(at + 2 * i + 1) < 1.0;
    }
  }

  /** The key's box (half-width KEY_RADIUS) around (x, y) overlaps obstacle `o`. */
  predicate KeyHits(x: real, y: real, o: Obstacle)
  {
    BoxOverlap(x, y, KEY_RADIUS, o.x, o.y, o.w, o.h)
  }

  /** `obs.some(..)`: the key's box overlaps an obstacle of the list,
      tested from the first obstacle on. */
  predicate KeyOverlaps(x: real, y: real, obs: seq<Obstacle>)
    decreases |obs|
  {
    |obs| > 0 && (KeyHits(x, y, obs[0]) || KeyOverlaps(x, y, obs[1..]))
  }

  /** The list walk answers exactly whether some obstacle is hit. */
  lemma {:induction false} KeyOverlapsSome(x: real, y: real, obs: seq<Obstacle>)
    ensures KeyOverlaps(x, y, obs) <==> exists i :: 0 <= i < |obs| && KeyHits(x, y, obs[i])
    decreases |obs|
  {
    if |obs| > 0 {
      var rest := obs[1..];
      KeyOverlapsSome(x, y, rest);
      if KeyOverlaps(x, y, rest) {
        var i :| 0 <= i < |rest| && KeyHits(x, y, rest[i]);
        assert obs[i + 1] == rest[i];
      }
      if exists i :: 0 <= i < |obs| && KeyHits(x, y, obs[i]) {
        var i :| 0 <= i < |obs| && KeyHits(x, y, obs[i]);
        if i > 0 {
          assert rest[i - 1] == obs[i];
        }
      }
    }
  }

  /** The key a placement attempt proposes from draws `at` and `at + 1`,
      each scaled across the tile. */
  function Candidate(rng: RandomSource, at: nat): Key
  {
    Key(TileScale(rng(at)), TileScale(rng(at + 1)), false)
  }

  /** Attempt number `i` of a placement run starting at draw `at` overlaps. */
  predicate AttemptOverlaps(rng: RandomSource, at: nat, obs: seq<Obstacle>, i: nat)
  {
    var c := Candidate(rng, at + 2 * i);
    KeyOverlaps(c.x, c.y, obs)
  }

  /** The outcome of a placement run: the key list (empty or one key) and
      the index of the next unused draw. */
  datatype Placement = Placement(keys: seq<Key>, next: nat)

  /** Up to `tries` rejection-sampled placements from draw `at` on; the
      first candidate that overlaps no obstacle is taken. */
  function PlaceKey(rng: RandomSource, at: nat, obs: seq<Obstacle>, tries: nat): (r: Placement)
    ensures at <= r.next <= at + 2 * tries
    ensures |r.keys| <= 1
    ensures r.keys == [] ==> r.next == at + 2 * tries
    decreases tries
  {
    if tries == 0 then Placement([], at)
    else
      var c := Candidate(rng, at);
      if !KeyOverlaps(c.x, c.y, obs) then Placement([c], at + 2)
      else PlaceKey(rng, at + 2, obs, tries - 1)
  }

  /** A run whose first candidate overlaps goes on with the next two draws. */
  lemma PlaceKeySkip(rng: RandomSource, at: nat, obs: seq<Obstacle>, tries: nat)
    requires tries > 0 && AttemptOverlaps(rng, at, obs, 0)
    ensures PlaceKey(rng, at, obs, tries) == PlaceKey(rng, at + 2, obs, tries - 1)
  {
  }

  /** A run whose first candidate is clear takes it. */
  lemma PlaceKeyTake(rng: RandomSource, at: nat, obs: seq<Obstacle>, tries: nat)
    requires tries > 0 && !AttemptOverlaps(rng, at, obs, 0)
    ensures PlaceKey(rng, at, obs, tries) == Placement([Candidate(rng, at)], at + 2)
  {
  }

  /** A placement run ends with no key exactly when every one of its
      attempts overlaps an obstacle. */
  lemma {:induction false} PlaceKeyEmptyIffAllOverlap(rng: RandomSource, at: nat, obs: seq<Obstacle>, tries: nat)
    ensures PlaceKey(rng, at, obs, tries).keys == [] <==>
            forall i :: 0 <= i < tries ==> AttemptOverlaps(rng, at, obs, i)
    decreases tries
  {
    if tries > 0 {
      var rest := at + 2;
      PlaceKeyEmptyIffAllOverlap(rng, rest, obs, tries - 1);
      forall i | 0 <= i < tries - 1
        ensures AttemptOverlaps(rng, rest, obs, i) == AttemptOverlaps(rng, at, obs, i + 1)
      {
        assert rest + 2 * i == at + 2 * (i + 1);
      }
      if forall i :: 0 <= i < tries ==> AttemptOverlaps(rng, at, obs, i) {
        assert AttemptOverlaps(rng, at, obs, 0);
        forall i | 0 <= i < tries - 1 ensures AttemptOverlaps(rng, rest, obs, i) {
          assert AttemptOverlaps(rng, at, obs, i + 1);
        }
      } else if AttemptOverlaps(rng, at, obs, 0) {
        var k :| 0 <= k < tries && !AttemptOverlaps(rng, at, obs, k);
        assert !AttemptOverlaps(rng, rest, obs, k - 1);
      }
    }
  }

  /** Attempt `j` of a run from draw `at` is the first that overlaps nothing. */
  ghost predicate FirstFit(rng: RandomSource, at: nat, obs: seq<Obstacle>, j: nat)
  {
    !AttemptOverlaps(rng, at, obs, j) && forall i :: 0 <= i < j ==> AttemptOverlaps(rng, at, obs, i)
  }

  /** A run of `tries` attempts from draw `at` ends at attempt `j`, the
      first that overlaps nothing, and takes its candidate. */
  ghost predicate EndsAtFirstFit(rng: RandomSource, at: nat, obs: seq<Obstacle>, tries: nat, j: nat)
  {
    && j < tries && FirstFit(rng, at, obs, j)
    && PlaceKey(rng, at, obs, tries) == Placement([Candidate(rng, at + 2 * j)], at + 2 * j + 2)
  }

  /** When a placement run yields a key, it is the candidate of the first
      attempt that overlaps nothing, and every earlier attempt overlapped. */
  lemma {:induction false} PlaceKeyFirstFit(rng: RandomSource, at: nat, obs: seq<Obstacle>, tries: nat)
    requires PlaceKey(rng, at, obs, tries).keys != []
    ensures exists j: nat :: EndsAtFirstFit(rng, at, obs, tries, j)
    decreases tries
  {
    assert tries > 0;
    if AttemptOverlaps(rng, at, obs, 0) {
      var rest := at + 2;
      PlaceKeySkip(rng, at, obs, tries);
      PlaceKeyFirstFit(rng, rest, obs, tries - 1);
      var j: nat :| EndsAtFirstFit(rng, rest, obs, tries - 1, j);
      assert rest + 2 * j == at + 2 * (j + 1);
      FirstFitShift(rng, at, obs, j);
      assert EndsAtFirstFit(rng, at, obs, tries, j + 1);
    } else {
      PlaceKeyTake(rng, at, obs, tries);
      assert EndsAtFirstFit(rng, at, obs, tries, 0);
    }
  }

  /** A key that a placement run yields is the candidate of two draws
      that the run consumed. */
  lemma PlaceKeyDrawn(rng: RandomSource, at: nat, obs: seq<Obstacle>, tries: nat) returns (d: nat)
    requires PlaceKey(rng, at, obs, tries).keys != []
    ensures at <= d && d + 2 <= PlaceKey(rng, at, obs, tries).next
    ensures PlaceKey(rng, at, obs, tries).keys[0] == Candidate(rng, d)
  {
    PlaceKeyFirstFit(rng, at, obs, tries);
    var j: nat :| EndsAtFirstFit(rng, at, obs, tries, j);
    d := at + 2 * j;
  }

  /** Skipping one overlapping attempt shifts the first fit by one. */
  lemma FirstFitShift(rng: RandomSource, at: nat, obs: seq<Obstacle>, j: nat)
    requires AttemptOverlaps(rng, at, obs, 0)
    requires FirstFit(rng, at + 2, obs, j)
    ensures FirstFit(rng, at, obs, j + 1)
  {
    var rest := at + 2;
    assert rest + 2 * j == at + 2 * (j + 1);
    forall i | 0 <= i < j + 1 ensures AttemptOverlaps(rng, at, obs, i) {
      if i > 0 {
        assert AttemptOverlaps(rng, rest, obs, i - 1);
        assert rest + 2 * (i - 1) == at + 2 * i;
      }
    }
  }

  /** A key as its tile's generation leaves it: inside the tile and
      clear of every obstacle of that tile. */
  ghost predicate KeyPlacedIn(k: Key, obs: seq<Obstacle>)
  {
    0.0 <= k.x < TILE_SIZE as real && 0.0 <= k.y < TILE_SIZE as real && !KeyOverlaps(k.x, k.y, obs)
  }

  /** Any key a placement run yields is uncollected, inside the tile and
      clear of every obstacle. */
  lemma PlacedKeyInTile(rng: RandomSource, at: nat, obs: seq<Obstacle>, tries: nat)
    requires UnitDraws(rng)
    ensures var r := PlaceKey(rng, at, obs, tries);
            r.keys != [] ==> !r.keys[0].collected && KeyPlacedIn(r.keys[0], obs)
  {
    if PlaceKey(rng, at, obs, tries).keys != [] {
      PlaceKeyFirstFit(rng, at, obs, tries);
      var j: nat :| EndsAtFirstFit(rng, at, obs, tries, j);
      assert 0.0 <= rng(at + 2 * j) < 1.0 && 0.0 <= rng(at + 2 * j + 1) < 1.0;
    }
  }
}
