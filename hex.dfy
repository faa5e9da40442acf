/**
 * Cube coordinates of the hexagonal board (src/hex_grid.rs, HexCoord) and the
 * queries on them shared by board generation, hover picking and selection.
 */
module Hex {

  datatype Option<T> = None | Some(value: T)

  /** A hex cell in cube coordinates. The source stores i32 components. */
  datatype HexCoord = HexCoord(q: int, r: int, s: int) {
    /** The cube invariant every well-formed coordinate satisfies. */
    predicate IsCube() {
      q + r + s == 0
    }
  }

  /** `HexCoord::default()`: the board centre. */
  const DefaultHexCoord: HexCoord := HexCoord(0, 0, 0)

  /** A screen-space position with depth; `to_screen_coords` always yields depth 0. */
  datatype Vec3 = Vec3(x: real, y: real, z: real)

  function Abs(n: int): nat {
    if n < 0 then -n else n
  }

  /** True when every cube component lies within `radius` of the centre. */
  predicate InBounds(h: HexCoord, radius: int) {
    Abs(h.q) <= radius && Abs(h.r) <= radius && Abs(h.s) <= radius
  }

  /**
   * `HexCoord::to_screen_coords`: the pixel centre of a hex for tiles of
   * circumradius `size`. `sqrt3` stands for the value of `3_f32.sqrt()`.
   * World y points up, so a larger r lies lower on the screen.
   */
  function ToScreenCoords(h: HexCoord, size: real, sqrt3: real): (p: Vec3)
    ensures p.z == 0.0
  {
    var x := size * (sqrt3 * h.q as real + sqrt3 / 2.0 * h.r as real);
    var y := -size * (3.0 / 2.0 * h.r as real);
    Vec3(x, y, 0.0)
  }
}
