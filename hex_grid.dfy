/**
 * Pointer picking and the hover state (src/hex_grid.rs): the cursor is centred
 * on the window, converted to fractional cube coordinates, rounded to the
 * nearest cube with the largest-error correction, bounds-checked against the
 * board radius and written into the `HoveredTile` slot, which the hover
 * indicator then mirrors.
 *
 * `f32` arithmetic is modelled by exact reals, `f32::round` by rounding half
 * away from zero, and `3_f32.sqrt()` by a parameter `sqrt3`.
 */
module HexGrid {
  import opened Hex
  import opened Board

  /** A cursor position in window pixels, y pointing down (Bevy's `Vec2`). */
  datatype Vec2 = Vec2(x: real, y: real)

  /** The window dimensions in pixels. */
  datatype Window = Window(width: real, height: real)

  /** Fractional cube coordinates of a point. */
  datatype FracHex = FracHex(q: real, r: real, s: real)

  function RealAbs(x: real): real {
    if x < 0.0 then -x else x
  }

  /** `f32::round`: the nearest integer, halfway cases away from zero. */
  function RoundHalfAway(x: real): (n: int)
    ensures -0.5 <= n as real - x <= 0.5
    ensures n as real - x == 0.5 ==> x > 0.0
    ensures x - n as real == 0.5 ==> x < 0.0
  {
    if x >= 0.0 then (x + 0.5).Floor else -((-x + 0.5).Floor)
  }

  /** An integer closer than one half to x is what x rounds to. */
  lemma RoundHalfAwayNearest(x: real, n: int)
    requires RealAbs(n as real - x) < 0.5
    ensures RoundHalfAway(x) == n
  {
    var m := RoundHalfAway(x);
    assert -1.0 < (m - n) as real < 1.0;
  }

  /**
   * The correction step: given the independent roundings q, r, s of f,
   * recompute the component with the largest rounding error from the other
   * two: q only when its error is strictly the largest, otherwise r when its
   * error exceeds s's, otherwise s.
   */
  function CorrectLargest(f: FracHex, q: int, r: int, s: int): (h: HexCoord)
    ensures h.IsCube()
    ensures || (h.r == r && h.s == s)
            || (h.q == q && h.s == s)
            || (h.q == q && h.r == r)
  {
    var qDiff, rDiff, sDiff := RealAbs(q as real - f.q), RealAbs(r as real - f.r), RealAbs(s as real - f.s);
    if qDiff > rDiff && qDiff > sDiff then HexCoord(-r - s, r, s)
    else if rDiff > sDiff then HexCoord(q, -q - s, s)
    else HexCoord(q, r, -q - r)
  }

  /**
   * Tie policy: a component is recomputed only when its error is the largest
   * (q only when strictly so, r when at least q's and above s's, s when at
   * least both); when the roundings already sum to zero nothing moves.
   */
  lemma CorrectLargestTiePolicy(f: FracHex, q: int, r: int, s: int)
    ensures var h := CorrectLargest(f, q, r, s);
      var dq, dr, ds := RealAbs(q as real - f.q), RealAbs(r as real - f.r), RealAbs(s as real - f.s);
      && (dq > dr && dq > ds ==> h.r == r && h.s == s)
      && (h.q != q ==> dq > dr && dq > ds)
      && (h.r != r ==> dr >= dq && dr > ds)
      && (h.s != s ==> ds >= dq && ds >= dr)
      && (q + r + s == 0 ==> h == HexCoord(q, r, s))
  {
  }

  /** Round every component independently, then apply the largest-error correction. */
  function CubeRound(f: FracHex): (h: HexCoord)
    ensures h.IsCube()
    ensures || (h.r == RoundHalfAway(f.r) && h.s == RoundHalfAway(f.s))
            || (h.q == RoundHalfAway(f.q) && h.s == RoundHalfAway(f.s))
            || (h.q == RoundHalfAway(f.q) && h.r == RoundHalfAway(f.r))
  {
    CorrectLargest(f, RoundHalfAway(f.q), RoundHalfAway(f.r), RoundHalfAway(f.s))
  }

  /**
   * For a point on the cube plane every component of the result lies within
   * 2/3 of the point: the two kept components within 1/2 by rounding, and the
   * recomputed one within 2/3 because it is the one whose rounding error was
   * largest.
   */
  lemma CubeRoundCloseness(f: FracHex)
    requires f.q + f.r + f.s == 0.0
    ensures var h := CubeRound(f);
      && -2.0 / 3.0 <= h.q as real - f.q <= 2.0 / 3.0
      && -2.0 / 3.0 <= h.r as real - f.r <= 2.0 / 3.0
      && -2.0 / 3.0 <= h.s as real - f.s <= 2.0 / 3.0
  {
    CorrectLargestCloseness(f, RoundHalfAway(f.q), RoundHalfAway(f.r), RoundHalfAway(f.s));
  }

  /** The correction applied to roundings within 1/2 of a point on the cube plane stays within 2/3. */
  lemma CorrectLargestCloseness(f: FracHex, q: int, r: int, s: int)
    requires f.q + f.r + f.s == 0.0
    requires -0.5 <= q as real - f.q <= 0.5 && -0.5 <= r as real - f.r <= 0.5 && -0.5 <= s as real - f.s <= 0.5
    ensures var h := CorrectLargest(f, q, r, s);
      && -2.0 / 3.0 <= h.q as real - f.q <= 2.0 / 3.0
      && -2.0 / 3.0 <= h.r as real - f.r <= 2.0 / 3.0
      && -2.0 / 3.0 <= h.s as real - f.s <= 2.0 / 3.0
  {
    var eq, er, es := q as real - f.q, r as real - f.r, s as real - f.s;
    var k := q + r + s;
    assert eq + er + es == k as real;
    if RealAbs(eq) > RealAbs(er) && RealAbs(eq) > RealAbs(es) {
      LargestErrorCorrection(eq, er, es, k);
      assert CorrectLargest(f, q, r, s) == HexCoord(q - k, r, s);
    } else if RealAbs(er) > RealAbs(es) {
      LargestErrorCorrection(er, eq, es, k);
      assert CorrectLargest(f, q, r, s) == HexCoord(q, r - k, s);
    } else {
      LargestErrorCorrection(es, eq, er, k);
      assert CorrectLargest(f, q, r, s) == HexCoord(q, r, s - k);
    }
  }

  /**
   * Rounding errors of at most 1/2 that sum to an integer k: moving the
   * component with the largest error by k leaves it within 2/3.
   */
  lemma LargestErrorCorrection(e: real, e1: real, e2: real, k: int)
    requires -0.5 <= e <= 0.5 && -0.5 <= e1 <= 0.5 && -0.5 <= e2 <= 0.5
    requires e + e1 + e2 == k as real
    requires RealAbs(e) >= RealAbs(e1) && RealAbs(e) >= RealAbs(e2)
    ensures -2.0 / 3.0 <= e - k as real <= 2.0 / 3.0
  {
    assert -1 <= k <= 1 by {
      assert -1.5 <= k as real <= 1.5;
    }
  }

  /**
   * If some cube lies closer than one half to the point in every component,
   * the rounding finds exactly that cube.
   */
  lemma CubeRoundFindsCloseCube(f: FracHex, h: HexCoord)
    requires h.IsCube()
    requires RealAbs(h.q as real - f.q) < 0.5 && RealAbs(h.r as real - f.r) < 0.5 && RealAbs(h.s as real - f.s) < 0.5
    ensures CubeRound(f) == h
  {
    RoundHalfAwayNearest(f.q, h.q);
    RoundHalfAwayNearest(f.r, h.r);
    RoundHalfAwayNearest(f.s, h.s);
  }

  /** Step 1: the cursor relative to the window centre. */
  function Centered(cursor: Vec2, window: Window): (c: Vec2)
    ensures c == Vec2(0.0, 0.0) <==> cursor == Vec2(window.width / 2.0, window.height / 2.0)
  {
    Vec2(cursor.x - 0.5 * window.width, cursor.y - 0.5 * window.height)
  }

  /** Step 2: fractional cube coordinates of a centred cursor position. */
  function Fractional(c: Vec2, tileSize: real, sqrt3: real): (f: FracHex)
    requires tileSize > 0.0
    ensures f.q + f.r + f.s == 0.0
  {
    var fq := (sqrt3 / 3.0 * c.x + -1.0 / 3.0 * c.y) / tileSize;
    var fr := (2.0 / 3.0) * c.y / tileSize;
    FracHex(fq, fr, -fq - fr)
  }

  /** Steps 3 and 4: round to a cube and keep it only when it lies on the board. */
  function PickRounded(f: FracHex, radius: int): (p: Option<HexCoord>)
    ensures p.Some? ==> p.value.IsCube() && InBounds(p.value, radius)
  {
    var h := CubeRound(f);
    if InBounds(h, radius) then Some(h) else None
  }

  /** Steps 1 to 4: the hex under the cursor, if it lies on the board. */
  function Pick(cursor: Vec2, window: Window, settings: BoardSettings, sqrt3: real): (p: Option<HexCoord>)
    requires settings.tileSize > 0.0
    ensures p.Some? ==> p.value.IsCube() && InBounds(p.value, settings.boardRadius)
  {
    PickRounded(Fractional(Centered(cursor, window), settings.tileSize, sqrt3), settings.boardRadius)
  }

  /** Picking yields a hex exactly when the rounded hex is within the board radius. */
  lemma PickSomeIffInBounds(cursor: Vec2, window: Window, settings: BoardSettings, sqrt3: real)
    requires settings.tileSize > 0.0
    ensures var h := CubeRound(Fractional(Centered(cursor, window), settings.tileSize, sqrt3));
      && (Pick(cursor, window, settings, sqrt3).Some? <==> InBounds(h, settings.boardRadius))
      && (Pick(cursor, window, settings, sqrt3).Some? ==> Pick(cursor, window, settings, sqrt3).value == h)
  {
  }

  /** Dividing t * v by a positive t gives back v. */
  lemma DivideOut(a: real, t: real, v: real)
    requires t > 0.0 && a == t * v
    ensures a / t == v
  {
  }

  /** A centred position of (0, 0) has fractional coordinates (0, 0, 0). */
  lemma FractionalAtOrigin(c: Vec2, tileSize: real, sqrt3: real)
    requires tileSize > 0.0 && c == Vec2(0.0, 0.0)
    ensures Fractional(c, tileSize, sqrt3) == FracHex(0.0, 0.0, 0.0)
  {
    DivideOut(sqrt3 / 3.0 * c.x + -1.0 / 3.0 * c.y, tileSize, 0.0);
    DivideOut((2.0 / 3.0) * c.y, tileSize, 0.0);
  }

  /** The origin of fractional space rounds to the centre hex. */
  lemma CubeRoundAtOrigin()
    ensures CubeRound(FracHex(0.0, 0.0, 0.0)) == DefaultHexCoord
  {
    assert RealAbs(0.0) == 0.0;
    CubeRoundFindsCloseCube(FracHex(0.0, 0.0, 0.0), DefaultHexCoord);
  }

  /** The centre hex is on every board, so the origin always picks it. */
  lemma PickRoundedAtOrigin(radius: int)
    requires radius >= 0
    ensures PickRounded(FracHex(0.0, 0.0, 0.0), radius) == Some(DefaultHexCoord)
  {
    assert InBounds(DefaultHexCoord, radius);
    CubeRoundAtOrigin();
  }

  /** A cursor whose centred position is the origin picks the centre hex, whatever the tile size. */
  lemma PickAtCentre(cursor: Vec2, window: Window, settings: BoardSettings, sqrt3: real)
    requires settings.tileSize > 0.0 && settings.boardRadius >= 0
    requires Centered(cursor, window) == Vec2(0.0, 0.0)
    ensures Pick(cursor, window, settings, sqrt3) == Some(DefaultHexCoord)
  {
    FractionalAtOrigin(Centered(cursor, window), settings.tileSize, sqrt3);
    PickRoundedAtOrigin(settings.boardRadius);
  }

  /** A cursor at the exact middle of the window is such a cursor. */
  lemma PickAtWindowCentre(window: Window, settings: BoardSettings, sqrt3: real)
    requires settings.tileSize > 0.0 && settings.boardRadius >= 0
    ensures Pick(Vec2(window.width / 2.0, window.height / 2.0), window, settings, sqrt3) == Some(DefaultHexCoord)
  {
    PickAtCentre(Vec2(window.width / 2.0, window.height / 2.0), window, settings, sqrt3);
  }

  /**
   * The fractional coordinates of a hex's pixel centre (y flipped into window
   * orientation) are exactly its cube coordinates.
   */
  lemma FractionalInvertsToScreenCoords(h: HexCoord, size: real, sqrt3: real)
    requires h.IsCube()
    requires size > 0.0
    requires sqrt3 * sqrt3 == 3.0
    ensures var p := ToScreenCoords(h, size, sqrt3);
      Fractional(Vec2(p.x, -p.y), size, sqrt3) == FracHex(h.q as real, h.r as real, h.s as real)
  {
    var p := ToScreenCoords(h, size, sqrt3);
    var c := Vec2(p.x, -p.y);
    var q, r := h.q as real, h.r as real;
    assert sqrt3 / 3.0 * c.x == size * (q + r / 2.0) by {
      calc {
        sqrt3 / 3.0 * c.x;
        sqrt3 / 3.0 * (size * (sqrt3 * q + sqrt3 / 2.0 * r));
        size * ((sqrt3 * sqrt3) / 3.0 * q + (sqrt3 * sqrt3) / 6.0 * r);
        size * (3.0 / 3.0 * q + 3.0 / 6.0 * r);
      }
    }
    assert -1.0 / 3.0 * c.y == size * (-r / 2.0);
    DivideOut(sqrt3 / 3.0 * c.x + -1.0 / 3.0 * c.y, size, q);
    assert (2.0 / 3.0) * c.y == size * r;
    DivideOut((2.0 / 3.0) * c.y, size, r);
  }

  /** A point that is already a cube rounds to itself. */
  lemma CubeRoundExact(h: HexCoord)
    requires h.IsCube()
    ensures CubeRound(FracHex(h.q as real, h.r as real, h.s as real)) == h
  {
    assert RealAbs(0.0) == 0.0;
    CubeRoundFindsCloseCube(FracHex(h.q as real, h.r as real, h.s as real), h);
  }

  /**
   * Picking inverts `to_screen_coords`: the cursor placed on the pixel centre
   * of an on-board hex (window y pointing down, world y pointing up) picks
   * that hex back.
   */
  lemma PickInvertsToScreenCoords(h: HexCoord, window: Window, settings: BoardSettings, sqrt3: real)
    requires h.IsCube() && InBounds(h, settings.boardRadius)
    requires settings.tileSize > 0.0
    requires sqrt3 * sqrt3 == 3.0
    ensures var p := ToScreenCoords(h, settings.tileSize, sqrt3);
      Pick(Vec2(window.width / 2.0 + p.x, window.height / 2.0 - p.y), window, settings, sqrt3) == Some(h)
  {
    var p := ToScreenCoords(h, settings.tileSize, sqrt3);
    assert Centered(Vec2(window.width / 2.0 + p.x, window.height / 2.0 - p.y), window) == Vec2(p.x, -p.y);
    FractionalInvertsToScreenCoords(h, settings.tileSize, sqrt3);
    CubeRoundExact(h);
  }

  /** The hover slot only ever holds on-board cubes. */
  predicate HoverValid(position: Option<HexCoord>, radius: int) {
    position.Some? ==> position.value.IsCube() && InBounds(position.value, radius)
  }

  /** `HoveredTile`: the hex under the cursor, if any. */
  class HoveredTile {
    var position: Option<HexCoord>

    /** `HoveredTile::default()`: nothing hovered. */
    constructor ()
      ensures position == None
    {
      position := None;
    }
  }

  /** The entity tagged `HoverIndicator`: its coordinate and visibility. */
  class HoverIndicator {
    var coord: HexCoord
    var visible: bool

    /** `setup_hover_indicator`: spawned hidden, at the origin. */
    constructor ()
      ensures coord == DefaultHexCoord && !visible
    {
      coord := DefaultHexCoord;
      visible := false;
    }
  }

  /**
   * The rounding step of `check_hex_hover_position`: round each component,
   * then overwrite the one with the largest error so that the three sum to zero.
   */
  method RoundToCube(fracQ: real, fracR: real, fracS: real) returns (q: int, r: int, s: int)
    ensures q + r + s == 0
    ensures HexCoord(q, r, s) == CubeRound(FracHex(fracQ, fracR, fracS))
  {
    q := RoundHalfAway(fracQ);
    r := RoundHalfAway(fracR);
    s := RoundHalfAway(fracS);

    var qDiff := RealAbs(q as real - fracQ);
    var rDiff := RealAbs(r as real - fracR);
    var sDiff := RealAbs(s as real - fracS);

    if qDiff > rDiff && qDiff > sDiff {
      q := -r - s;
    } else if rDiff > sDiff {
      r := -q - s;
    } else {
      s := -q - r;
    }
  }

  /**
   * `check_hex_hover_position`: with a cursor, overwrite the slot with the
   * picked hex (or nothing when off the board); without one, leave it alone.
   */
  method CheckHexHoverPosition(cursor: Option<Vec2>, window: Window, settings: BoardSettings, sqrt3: real,
                               hoveredTile: HoveredTile)
    requires settings.tileSize > 0.0
    modifies hoveredTile
    ensures cursor.None? ==> hoveredTile.position == old(hoveredTile.position)
    ensures cursor.Some? ==> hoveredTile.position == Pick(cursor.value, window, settings, sqrt3)
    ensures HoverValid(old(hoveredTile.position), settings.boardRadius) ==> HoverValid(hoveredTile.position, settings.boardRadius)
  {
    var tileSize := settings.tileSize;
    var boardSize := settings.boardRadius;
    if cursor.Some? {
      var position := cursor.value;
      var frac := Fractional(Centered(position, window), tileSize, sqrt3);

      var q, r, s := RoundToCube(frac.q, frac.r, frac.s);

      var hexPos := HexCoord(q, r, s);
      assert hexPos == CubeRound(frac);

      if Abs(q) <= boardSize && Abs(r) <= boardSize && Abs(s) <= boardSize {
        hoveredTile.position := Some(hexPos);
      } else {
        hoveredTile.position := None;
      }
    }
  }

  /**
   * `update_hover_indicator`: show the indicator exactly when a hex is
   * hovered, and move it there; when nothing is hovered it keeps its place.
   */
  method UpdateHoverIndicator(hoveredTile: HoveredTile, indicator: HoverIndicator)
    modifies indicator
    ensures indicator.visible == hoveredTile.position.Some?
    ensures indicator.coord == if hoveredTile.position.Some? then hoveredTile.position.value else old(indicator.coord)
  {
    if hoveredTile.position.Some? {
      indicator.coord := hoveredTile.position.value;
    }
    if hoveredTile.position.Some? {
      indicator.visible := true;
    } else {
      indicator.visible := false;
    }
  }
}
