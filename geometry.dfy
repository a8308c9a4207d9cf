/** The optional value used for unbound targets and empty click slots. */
module Wrappers {
  datatype Option<+T> = None | Some(value: T)
}

/** Plane vectors and the 2D affine transforms of a canvas context, over the reals. */
module Geometry {
  /** The engine's `Vector`: a pair of coordinates. */
  datatype Vector = Vector(x: real, y: real)

  /** A canvas transform `(a, b, c, d, e, f)`, as passed to `setTransform`. */
  datatype Transform = Transform(a: real, b: real, c: real, d: real, e: real, f: real)

  /** Where the transform sends a logical point: `(a*x + c*y + e, b*x + d*y + f)`. */
  function Apply(t: Transform, p: Vector): Vector
  {
    Vector(t.a * p.x + t.c * p.y + t.e, t.b * p.x + t.d * p.y + t.f)
  }
}
