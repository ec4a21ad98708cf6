/** The collision query's geometry (game.js:78-115): which tiles it
    scans around the player, where it places them on screen, and when
    one obstacle blocks a candidate position. The query itself, which
    generates tiles as it scans them, is GameState.Game.IsCollidingWithBlackTile. */
module Collision {
  import opened Geometry

  /** JavaScript's `%` on integers: the remainder takes the sign of `a`. */
  function JsRem(a: int, b: int): int
    requires b > 0
  {
    if a >= 0 then a % b else -((-a) % b)
  }

  /** The player's offset inside its tile span, `((p % S) + S) % S`. */
  function Offset(p: int): int
  {
    JsRem(JsRem(p, TILE_SPACING) + TILE_SPACING, TILE_SPACING)
  }

  /** `Math.floor(p / TILE_SPACING)`: the tile span the player is in. */
  function StartIndex(p: int): (r: int)
    ensures r * TILE_SPACING <= p < (r + 1) * TILE_SPACING
  {
    p / TILE_SPACING
  }

  /** The double remainder is the floor modulus, so the player's
      coordinate splits into its tile span and the offset inside it. */
  lemma OffsetSplitsPosition(p: int)
    ensures 0 <= Offset(p) < TILE_SPACING
    ensures p == StartIndex(p) * TILE_SPACING + Offset(p)
  {
    var q, r := p / TILE_SPACING, p % TILE_SPACING;
    assert p == q * TILE_SPACING + r;
    if p >= 0 {
      assert JsRem(p, TILE_SPACING) == r;
      assert Offset(p) == (r + TILE_SPACING) % TILE_SPACING;
    } else {
      var m := (-p) % TILE_SPACING;
      assert JsRem(p, TILE_SPACING) == -m;
      assert 0 <= TILE_SPACING - m <= TILE_SPACING;
      if m == 0 {
        assert r == 0;
      } else {
        assert (-p) == ((-p) / TILE_SPACING) * TILE_SPACING + m;
        assert p == (-((-p) / TILE_SPACING) - 1) * TILE_SPACING + (TILE_SPACING - m);
        assert r == TILE_SPACING - m;
      }
    }
  }

  /** `Math.ceil(extent / TILE_SPACING) + 2`: window size along one axis. */
  function WindowTiles(extent: nat): (r: int)
    ensures (r - 3) * TILE_SPACING < extent <= (r - 2) * TILE_SPACING
  {
    (extent + TILE_SPACING - 1) / TILE_SPACING + 2
  }

  /** Window-relative tile (col, row) is scanned: both run from -1 up to,
      but not including, the window size. */
  predicate InWindow(vp: Viewport, col: int, row: int)
  {
    -1 <= col < WindowTiles(vp.width) && -1 <= row < WindowTiles(vp.height)
  }

  /** The world tile at window-relative position (col, row). */
  function WorldTile(px: int, py: int, col: int, row: int): Tile
  {
    (StartIndex(px) + col, StartIndex(py) + row)
  }

  /** World tile t is one of those scanned around (px, py): its position
      relative to the window's start tile is in the window. */
  predicate InScan(vp: Viewport, px: int, py: int, t: Tile)
  {
    InWindow(vp, t.0 - StartIndex(px), t.1 - StartIndex(py))
  }

  /** Tile t lies in the box of tiles scanned from positions with x
      between xlo and xhi and y between ylo and yhi. */
  predicate InSpan(vp: Viewport, xlo: int, xhi: int, ylo: int, yhi: int, t: Tile)
  {
    && StartIndex(xlo) - 1 <= t.0 < StartIndex(xhi) + WindowTiles(vp.width)
    && StartIndex(ylo) - 1 <= t.1 < StartIndex(yhi) + WindowTiles(vp.height)
  }

  /** A window scanned from inside the range of positions lies in the box. */
  lemma InScanInSpan(vp: Viewport, x: int, y: int, xlo: int, xhi: int, ylo: int, yhi: int, t: Tile)
    requires xlo <= x <= xhi && ylo <= y <= yhi && InScan(vp, x, y, t)
    ensures InSpan(vp, xlo, xhi, ylo, yhi, t)
  {
    StartIndexMonotone(xlo, x);
    StartIndexMonotone(x, xhi);
    StartIndexMonotone(ylo, y);
    StartIndexMonotone(y, yhi);
  }

  /** The box grows with the range of positions. */
  lemma InSpanWidens(vp: Viewport, xlo: int, xhi: int, ylo: int, yhi: int,
                     xlo': int, xhi': int, ylo': int, yhi': int, t: Tile)
    requires xlo' <= xlo && xhi <= xhi' && ylo' <= ylo && yhi <= yhi'
    requires InSpan(vp, xlo, xhi, ylo, yhi, t)
    ensures InSpan(vp, xlo', xhi', ylo', yhi', t)
  {
    StartIndexMonotone(xlo', xlo);
    StartIndexMonotone(xhi, xhi');
    StartIndexMonotone(ylo', ylo);
    StartIndexMonotone(yhi, yhi');
  }

  /** One more step from inside the range, scanning the windows at (x, y)
      and (x', y), keeps every generated tile inside the widened box. */
  lemma ScansStayInSpan(vp: Viewport, f0: map<Tile, seq<Obstacle>>, f1: map<Tile, seq<Obstacle>>,
                        f2: map<Tile, seq<Obstacle>>, ox: int, oy: int, i: nat, x: int, y: int, x': int)
    requires forall t :: t in f1 && t !in f0 ==> InSpan(vp, ox - i, ox + i, oy - i, oy + i, t)
    requires forall t :: t in f2 && t !in f1 ==> InScan(vp, x, y, t) || InScan(vp, x', y, t)
    requires ox - (i + 1) <= x <= ox + (i + 1) && ox - (i + 1) <= x' <= ox + (i + 1)
    requires oy - (i + 1) <= y <= oy + (i + 1)
    ensures forall t :: t in f2 && t !in f0 ==> InSpan(vp, ox - (i + 1), ox + (i + 1), oy - (i + 1), oy + (i + 1), t)
  {
    forall t | t in f2 && t !in f0
      ensures InSpan(vp, ox - (i + 1), ox + (i + 1), oy - (i + 1), oy + (i + 1), t)
    {
      if t in f1 {
        InSpanWidens(vp, ox - i, ox + i, oy - i, oy + i, ox - (i + 1), ox + (i + 1), oy - (i + 1), oy + (i + 1), t);
      } else if InScan(vp, x, y, t) {
        InScanInSpan(vp, x, y, ox - (i + 1), ox + (i + 1), oy - (i + 1), oy + (i + 1), t);
      } else {
        InScanInSpan(vp, x', y, ox - (i + 1), ox + (i + 1), oy - (i + 1), oy + (i + 1), t);
      }
    }
  }

  /** The start tile never decreases as the position grows. */
  lemma StartIndexMonotone(a: int, b: int)
    requires a <= b
    ensures StartIndex(a) <= StartIndex(b)
  {
  }

  /** The source's per-obstacle test, in screen coordinates: the tile at
      window-relative (col, row) is drawn at (col * S - offsetX, row * S -
      offsetY), and the player at the centre moved by the candidate's
      displacement from the current position (px, py). */
  predicate ObstacleHit(vp: Viewport, px: int, py: int, nx: int, ny: int, col: int, row: int, o: Obstacle)
  {
    var x := (col * TILE_SPACING - Offset(px)) as real;
    var y := (row * TILE_SPACING - Offset(py)) as real;
    var futureX := vp.width as real / 2.0 + (nx - px) as real;
    var futureY := vp.height as real / 2.0 + (ny - py) as real;
    BoxOverlap(futureX, futureY, PLAYER_RADIUS, x + o.x, y + o.y, o.w, o.h)
  }

  /** The same test in world coordinates: the tile's obstacle at its world
      corner, the player's box around the candidate shifted by the half
      viewport at which it is drawn. */
  predicate WorldHit(vp: Viewport, nx: int, ny: int, t: Tile, o: Obstacle)
  {
    BoxOverlap(nx as real + vp.width as real / 2.0, ny as real + vp.height as real / 2.0, PLAYER_RADIUS,
               (t.0 * TILE_SPACING) as real + o.x, (t.1 * TILE_SPACING) as real + o.y, o.w, o.h)
  }

  /** Testing in screen space is a pure translation of testing in world
      space: the answer does not depend on where the player currently is,
      only on the candidate and the tile. */
  lemma ScreenHitIsWorldHit(vp: Viewport, px: int, py: int, nx: int, ny: int, col: int, row: int, o: Obstacle)
    ensures ObstacleHit(vp, px, py, nx, ny, col, row, o) <==> WorldHit(vp, nx, ny, WorldTile(px, py, col, row), o)
  {
    OffsetSplitsPosition(px);
    OffsetSplitsPosition(py);
    var t := WorldTile(px, py, col, row);
    assert (col * TILE_SPACING - Offset(px)) - px == t.0 * TILE_SPACING - 2 * px;
    assert (row * TILE_SPACING - Offset(py)) - py == t.1 * TILE_SPACING - 2 * py;
  }

  /** Some obstacle of the list blocks the candidate. */
  predicate TileBlocks(vp: Viewport, px: int, py: int, nx: int, ny: int, col: int, row: int, obs: seq<Obstacle>)
  {
    exists k :: 0 <= k < |obs| && ObstacleHit(vp, px, py, nx, ny, col, row, obs[k])
  }

  /** Window tile (col, row) has been generated and blocks nothing. */
  ghost predicate TileClear(feats: map<Tile, seq<Obstacle>>, vp: Viewport, px: int, py: int, nx: int, ny: int, col: int, row: int)
  {
    var t := WorldTile(px, py, col, row);
    t in feats && !TileBlocks(vp, px, py, nx, ny, col, row, feats[t])
  }

  /** A generated, clear tile stays clear as the cache grows. */
  lemma TileClearPersists(feats: map<Tile, seq<Obstacle>>, feats': map<Tile, seq<Obstacle>>,
                          vp: Viewport, px: int, py: int, nx: int, ny: int, col: int, row: int)
    requires Extends(feats, feats') && TileClear(feats, vp, px, py, nx, ny, col, row)
    ensures TileClear(feats', vp, px, py, nx, ny, col, row)
  {
    var t := WorldTile(px, py, col, row);
    assert feats'[t] == feats[t];
  }

  /** Some generated tile of the window around (px, py) blocks (nx, ny). */
  ghost predicate Blocked(feats: map<Tile, seq<Obstacle>>, vp: Viewport, px: int, py: int, nx: int, ny: int)
  {
    exists col, row :: InWindow(vp, col, row) && WorldTile(px, py, col, row) in feats
                       && TileBlocks(vp, px, py, nx, ny, col, row, feats[WorldTile(px, py, col, row)])
  }

  /** Every tile of the window around (px, py) has been generated. */
  ghost predicate WindowCached(feats: map<Tile, seq<Obstacle>>, vp: Viewport, px: int, py: int)
  {
    forall col, row :: InWindow(vp, col, row) ==> WorldTile(px, py, col, row) in feats
  }

  /** A blocking answer stays true as the tile cache grows. */
  lemma BlockedPersists(feats: map<Tile, seq<Obstacle>>, feats': map<Tile, seq<Obstacle>>,
                        vp: Viewport, px: int, py: int, nx: int, ny: int)
    requires Extends(feats, feats') && Blocked(feats, vp, px, py, nx, ny)
    ensures Blocked(feats', vp, px, py, nx, ny)
  {
    var col, row :| InWindow(vp, col, row) && WorldTile(px, py, col, row) in feats
                    && TileBlocks(vp, px, py, nx, ny, col, row, feats[WorldTile(px, py, col, row)]);
    assert feats'[WorldTile(px, py, col, row)] == feats[WorldTile(px, py, col, row)];
  }

  /** A clear answer over a fully generated window also stays true as the
      cache grows, since the window's tiles never change. */
  lemma ClearPersists(feats: map<Tile, seq<Obstacle>>, feats': map<Tile, seq<Obstacle>>,
                      vp: Viewport, px: int, py: int, nx: int, ny: int)
    requires Extends(feats, feats') && WindowCached(feats, vp, px, py)
    requires !Blocked(feats, vp, px, py, nx, ny)
    ensures WindowCached(feats', vp, px, py) && !Blocked(feats', vp, px, py, nx, ny)
  {
  }
}
