/** Constants and value types shared by every part of the tile game:
    the tile grid, the obstacles and keys that live in a tile, and the
    expanded-rectangle overlap test used both for collisions and for
    key placement (game.js:8-12, 60-65, 103-107). */
module Geometry {

  /** Edge length of a square tile and the gap between two tiles. */
  const TILE_SIZE: int := 200
  const GAP: int := 50
  const TILE_SPACING: int := TILE_SIZE + GAP

  /** A unit draw scaled across the tile, `u * TILE_SIZE`. The factor is the
      literal 200.0 (TILE_SIZE) so that the product stays linear for the
      solver; nowhere else is the tile size written as a real literal. */
  function TileScale(u: real): (r: real)
    ensures 0.0 <= u < 1.0 ==> 0.0 <= r < TILE_SIZE as real
  {
    u * 200.0
  }

  const PLAYER_RADIUS: real := 12.0
  const KEY_RADIUS: real := 8.0

  /** A tile is identified by its world column and row. */
  type Tile = (int, int)

  /** The drawing surface; the player is always drawn at its centre. */
  datatype Viewport = Viewport(width: nat, height: nat)

  /** An obstacle rectangle (the source's bx, by, bw, bh), in coordinates
      local to its tile. */
  datatype Obstacle = Obstacle(x: real, y: real, w: real, h: real)

  /** A collectible key, in coordinates local to its tile. */
  datatype Key = Key(x: real, y: real, collected: bool)

  /** The box of half-width `r` around (cx, cy) overlaps the rectangle
      with corner (left, top), width `w` and height `h`; all four
      comparisons are strict, as in the source. */
  predicate BoxOverlap(cx: real, cy: real, r: real, left: real, top: real, w: real, h: real)
  {
    cx + r > left && cx - r < left + w && cy + r > top && cy - r < top + h
  }

  /** Map `m'` keeps every entry of `m` unchanged (it may have more). */
  ghost predicate Extends<K, V>(m: map<K, V>, m': map<K, V>)
  {
    forall k :: k in m ==> k in m' && m'[k] == m[k]
  }
}
