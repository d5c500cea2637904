/**
 * The few egui geometry and colour types the game uses. Coordinates are
 * reals: egui's f32 rounding is not modelled.
 */
module Egui {

  /** A point on the screen (egui's `Pos2`). */
  datatype Pos2 = Pos2(x: real, y: real)

  /** A displacement between two points (egui's `Vec2`). */
  datatype Vec2 = Vec2(x: real, y: real)

  const ZERO: Vec2 := Vec2(0.0, 0.0)

  /** `p - q` on two points. */
  function Sub(p: Pos2, q: Pos2): Vec2 {
    Vec2(p.x - q.x, p.y - q.y)
  }

  /** `p + v`, a point moved by a displacement. */
  function Translate(p: Pos2, v: Vec2): Pos2 {
    Pos2(p.x + v.x, p.y + v.y)
  }

  /** `v * k`. */
  function Scale(v: Vec2, k: real): Vec2 {
    Vec2(v.x * k, v.y * k)
  }

  /** `v / k`. */
  function Div(v: Vec2, k: real): Vec2
    requires k != 0.0
  {
    Vec2(v.x / k, v.y / k)
  }

  /**
   * The Euclidean length of a vector (`Vec2::length`) is a square root,
   * which Dafny's reals do not provide; it is passed in as a function. The
   * only fact the model needs about it is that the zero vector has length 0.
   */
  type Length = Vec2 -> real

  predicate IsLength(len: Length) {
    len(ZERO) == 0.0
  }

  /** An axis-aligned rectangle given by its two corners (egui's `Rect`). */
  datatype Rect = Rect(min: Pos2, max: Pos2)

  /** `Rect::size`. */
  function Size(r: Rect): Vec2 {
    Sub(r.max, r.min)
  }

  /** `Rect::from_min_size`: the rectangle with this corner and this size. */
  function FromMinSize(min: Pos2, size: Vec2): (r: Rect)
    ensures r.min == min
    ensures Size(r) == size
  {
    Rect(min, Translate(min, size))
  }

  newtype Byte = x: int | 0 <= x < 256

  /** An sRGBA colour (egui's `Color32`). */
  datatype Color32 = Color32(r: Byte, g: Byte, b: Byte, a: Byte)

  const YELLOW: Color32 := Color32(255, 255, 0, 255)
}
