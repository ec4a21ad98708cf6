/** The game's state rules that do not depend on the tile cache: health
    draining and the game-over trigger (game.js:13-15, 213-217, 277-283),
    the key-pickup reach (game.js:186-187), the hazard cone's radius test
    (game.js:194-212), key bookkeeping, and the arrow keys (game.js:254-258). */
module Rules {
  import opened Geometry

  const MAX_HEALTH: real := 100.0
  const MAX_SYSTEM_HEALTH: real := 100.0
  const HEALTH_DEPLETION_RATE: real := 0.015
  const HAZARD_DAMAGE: real := 0.2
  const PLAYER_SPEED: nat := 30

  /** Radius of every hazard cone: half a tile plus half a gap. */
  const CONE_RADIUS: real := TILE_SIZE as real / 2.0 + GAP as real / 2.0

  /** Subtracting `amount` from a health level, clamped at zero; the flag
      says the level ran out and the game is over. */
  function Drain(level: real, amount: real): (r: (real, bool))
    ensures 0.0 <= r.0
    ensures r.1 <==> r.0 == 0.0
    ensures r.1 <==> level <= amount
    ensures !r.1 ==> r.0 + amount == level
  {
    var left := level - amount;
    if left <= 0.0 then (0.0, true) else (left, false)
  }

  /** System health after up to `frames` frames of the update loop, as long
      as the player's own health does not end the game: each frame drains
      HEALTH_DEPLETION_RATE, and the loop stops in the frame the system fails. */
  function SystemAfter(level: real, frames: nat): (real, bool)
    decreases frames
  {
    if frames == 0 then (level, false)
    else
      var (next, failed) := Drain(level, HEALTH_DEPLETION_RATE);
      if failed then (next, true) else SystemAfter(next, frames - 1)
  }

  /** One more frame of the update loop on a system that has not failed
      drains it once more: frame `frames + 1` is the `Drain` step that
      Update's system-health clause performs, from the level after
      `frames` frames. */
  lemma {:induction false} SystemAfterNextFrame(level: real, frames: nat)
    requires !SystemAfter(level, frames).1
    ensures SystemAfter(level, frames + 1) == Drain(SystemAfter(level, frames).0, HEALTH_DEPLETION_RATE)
    decreases frames
  {
    if frames > 0 {
      var (next, failed) := Drain(level, HEALTH_DEPLETION_RATE);
      SystemAfterNextFrame(next, frames - 1);
    }
  }

  /** From a live system, `frames` frames leave `level - frames * rate`,
      or zero and a system failure once that product reaches `level`. */
  lemma {:induction false} SystemAfterClosedForm(level: real, frames: nat)
    requires level > 0.0
    ensures SystemAfter(level, frames) ==
            if frames as real * HEALTH_DEPLETION_RATE >= level then (0.0, true)
            else (level - frames as real * HEALTH_DEPLETION_RATE, false)
    decreases frames
  {
    if frames > 0 {
      var (next, failed) := Drain(level, HEALTH_DEPLETION_RATE);
      if !failed {
        SystemAfterClosedForm(next, frames - 1);
        assert (frames - 1) as real * HEALTH_DEPLETION_RATE + HEALTH_DEPLETION_RATE == frames as real * HEALTH_DEPLETION_RATE;
      }
    }
  }

  /** Health levels stay in range and the game is over exactly when one
      of them has run out. */
  ghost predicate HealthValid(health: real, systemHealth: real, gameOver: bool)
  {
    && 0.0 <= health <= MAX_HEALTH
    && 0.0 <= systemHealth <= MAX_SYSTEM_HEALTH
    && (gameOver <==> health == 0.0 || systemHealth == 0.0)
  }

  /** A hazard hit on the player keeps the health invariant. */
  lemma HazardKeepsHealthValid(health: real, systemHealth: real, gameOver: bool)
    requires HealthValid(health, systemHealth, gameOver)
    ensures var (h, died) := Drain(health, HAZARD_DAMAGE);
            HealthValid(h, systemHealth, gameOver || died) && h <= health
  {
  }

  /** A frame's system drain keeps the health invariant. */
  lemma DepletionKeepsHealthValid(health: real, systemHealth: real, gameOver: bool)
    requires HealthValid(health, systemHealth, gameOver)
    ensures var (s, failed) := Drain(systemHealth, HEALTH_DEPLETION_RATE);
            HealthValid(health, s, gameOver || failed) && s <= systemHealth
  {
  }

  /** The player, drawn at the centre of the viewport, is within pickup
      distance of a key drawn at screen position (kx, ky); the source's
      `Math.hypot(..) <= playerRadius + keyRadius`, squared. */
  predicate InReach(vp: Viewport, kx: real, ky: real)
  {
    var dx := vp.width as real / 2.0 - kx;
    var dy := vp.height as real / 2.0 - ky;
    dx * dx + dy * dy <= (PLAYER_RADIUS + KEY_RADIUS) * (PLAYER_RADIUS + KEY_RADIUS)
  }

  /** The pickup test of a tile's keys, the tile's corner drawn at
      (sx, sy): its key is still there and within reach, and is collected. */
  predicate Collects(vp: Viewport, ks: seq<Key>, sx: real, sy: real)
  {
    ks != [] && !ks[0].collected && InReach(vp, sx + ks[0].x, sy + ks[0].y)
  }

  /** A tile's key list after the pickup pass over it: every key stays in
      place and is collected once it has been within reach. */
  function Collect(vp: Viewport, ks: seq<Key>, sx: real, sy: real): (r: seq<Key>)
    ensures |r| == |ks|
    ensures forall i :: 0 <= i < |ks| ==>
              r[i].x == ks[i].x && r[i].y == ks[i].y
              && (r[i].collected <==> ks[i].collected || InReach(vp, sx + ks[i].x, sy + ks[i].y))
  {
    seq(|ks|, i requires 0 <= i < |ks| =>
      if !ks[i].collected && InReach(vp, sx + ks[i].x, sy + ks[i].y) then ks[i].(collected := true) else ks[i])
  }

  /** On a list of at most one key, the pickup pass collects the key
      exactly when Collects holds, and otherwise changes nothing. */
  lemma CollectAtMostOne(vp: Viewport, ks: seq<Key>, sx: real, sy: real)
    requires |ks| <= 1
    ensures Collect(vp, ks, sx, sy) == if Collects(vp, ks, sx, sy) then [ks[0].(collected := true)] else ks
  {
    if ks != [] {
      assert Collect(vp, ks, sx, sy)[0] == if Collects(vp, ks, sx, sy) then ks[0].(collected := true) else ks[0];
    }
  }

  /** The angular half of the cone test (the player's bearing from the tile
      centre within a twelfth of pi of the cone's time-dependent angle),
      given the time, the world tile and the player's offset (dx, dy) from
      the tile centre. */
  type SweepTest = (real, int, int, real, real) -> bool

  /** The player lies in the hazard cone of world tile `t`, whose top-left
      corner is drawn at (sx, sy): strictly within CONE_RADIUS of the tile
      centre (the source's `Math.hypot(..) < coneRadius`, squared) and inside
      the cone's angular sweep. */
  predicate InCone(vp: Viewport, now: real, t: Tile, sx: real, sy: real, sweep: SweepTest)
  {
    var dx := vp.width as real / 2.0 - (sx + TILE_SIZE as real / 2.0);
    var dy := vp.height as real / 2.0 - (sy + TILE_SIZE as real / 2.0);
    dx * dx + dy * dy < CONE_RADIUS * CONE_RADIUS && sweep(now, t.0, t.1, dx, dy)
  }

  /** The tiles whose key has been collected. */
  function CollectedTiles(keyMap: map<Tile, seq<Key>>): set<Tile>
  {
    set t | t in keyMap && |keyMap[t]| == 1 && keyMap[t][0].collected
  }

  /** Adding a tile whose keys are all uncollected collects nothing. */
  lemma CollectedAfterNewTile(keyMap: map<Tile, seq<Key>>, t: Tile, keys: seq<Key>)
    requires t !in keyMap && |keys| <= 1 && (keys != [] ==> !keys[0].collected)
    ensures CollectedTiles(keyMap[t := keys]) == CollectedTiles(keyMap)
  {
  }

  /** Collecting a tile's uncollected key adds exactly that tile. */
  lemma CollectedAfterPickup(keyMap: map<Tile, seq<Key>>, t: Tile)
    requires t in keyMap && |keyMap[t]| == 1 && !keyMap[t][0].collected
    ensures var keyMap' := keyMap[t := [keyMap[t][0].(collected := true)]];
            CollectedTiles(keyMap') == CollectedTiles(keyMap) + {t}
            && t !in CollectedTiles(keyMap)
            && |CollectedTiles(keyMap')| == |CollectedTiles(keyMap)| + 1
  {
    var keyMap' := keyMap[t := [keyMap[t][0].(collected := true)]];
    assert CollectedTiles(keyMap') == CollectedTiles(keyMap) + {t};
  }

  /** A key at a later moment: same place, and collection never undone. */
  predicate KeyLater(k: Key, k': Key)
  {
    k'.x == k.x && k'.y == k.y && (k.collected ==> k'.collected)
  }

  /** `keyMap'` keeps every tile of `keyMap`, with the same keys at the same
      places, and only ever turns `collected` from false to true. The
      condition is stated tile by tile, and quantified only over that
      per-tile statement. */
  ghost predicate KeysEvolve(keyMap: map<Tile, seq<Key>>, keyMap': map<Tile, seq<Key>>)
  {
    forall t {:trigger KeyEvolves(keyMap, keyMap', t)} :: KeyEvolves(keyMap, keyMap', t)
  }

  /** KeysEvolve for one tile t. */
  ghost predicate KeyEvolves(keyMap: map<Tile, seq<Key>>, keyMap': map<Tile, seq<Key>>, t: Tile)
  {
    t in keyMap ==>
      t in keyMap' && |keyMap'[t]| == |keyMap[t]|
      && forall i :: 0 <= i < |keyMap[t]| ==> KeyLater(keyMap[t][i], keyMap'[t][i])
  }

  /** Two stretches of key evolution make one. */
  lemma KeysEvolveTrans(keyMap: map<Tile, seq<Key>>, keyMap': map<Tile, seq<Key>>, keyMap'': map<Tile, seq<Key>>)
    requires KeysEvolve(keyMap, keyMap') && KeysEvolve(keyMap', keyMap'')
    ensures KeysEvolve(keyMap, keyMap'')
  {
    forall t ensures KeyEvolves(keyMap, keyMap'', t) {
      assert KeyEvolves(keyMap, keyMap', t) && KeyEvolves(keyMap', keyMap'', t);
    }
  }

  /** The arrow keys the handler reacts to; any other key moves nothing. */
  datatype KeyPress = ArrowUp | ArrowDown | ArrowLeft | ArrowRight | OtherKey

  /** The unit direction (dx, dy) of a key press; `Math.sign` of it is itself. */
  function Delta(k: KeyPress): (d: (int, int))
    ensures -1 <= d.0 <= 1 && -1 <= d.1 <= 1
    ensures d.0 == 0 || d.1 == 0
  {
    match k
    case ArrowUp => (0, -1)
    case ArrowDown => (0, 1)
    case ArrowLeft => (-1, 0)
    case ArrowRight => (1, 0)
    case OtherKey => (0, 0)
  }
}
