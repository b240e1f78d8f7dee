/** Optional values: the model's stand-in for the source's INFINITY sentinels
    and for Rust's own `Option`. */
module Optional {
  datatype Option<+T> = None | Some(value: T)
}

/** The part of the geometry kernel the simulation tick uses: two-component
    vectors over the reals, segments and circles. */
module Geometry {
  datatype Vector2 = Vector2(x: real, y: real)

  /** A line segment from `p1` to `p2`, as swept by a projectile in one tick. */
  datatype Segment2 = Segment2(p1: Vector2, p2: Vector2)

  /** The bounding circle of an entity. */
  datatype Circle = Circle(center: Vector2, radius: real)

  function Zero(): Vector2 {
    Vector2(0.0, 0.0)
  }

  function Add(a: Vector2, b: Vector2): Vector2 {
    Vector2(a.x + b.x, a.y + b.y)
  }

  function Sub(a: Vector2, b: Vector2): Vector2 {
    Vector2(a.x - b.x, a.y - b.y)
  }

  function Neg(a: Vector2): Vector2 {
    Vector2(-a.x, -a.y)
  }

  function Scale(k: real, a: Vector2): Vector2 {
    Vector2(k * a.x, k * a.y)
  }

  function LengthSquared(a: Vector2): real {
    a.x * a.x + a.y * a.y
  }
}
