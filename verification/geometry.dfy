/** Real-valued 3D vectors and the few operations the snap and the layout need.
    Coordinates are exact reals: floating-point rounding is not modelled. */
module Geometry {

  /** A value that may be absent: a query with no answer, an object not set. */
  datatype Option<T> = None | Some(value: T)

  datatype Vec3 = Vec3(x: real, y: real, z: real)

  function Add(a: Vec3, b: Vec3): Vec3 {
    Vec3(a.x + b.x, a.y + b.y, a.z + b.z)
  }

  function Sub(a: Vec3, b: Vec3): Vec3 {
    Vec3(a.x - b.x, a.y - b.y, a.z - b.z)
  }

  function Scale(s: real, v: Vec3): Vec3 {
    Vec3(s * v.x, s * v.y, s * v.z)
  }

  function Sq(r: real): real {
    r * r
  }

  /** Squared length of a vector. */
  function Norm2(v: Vec3): real {
    Sq(v.x) + Sq(v.y) + Sq(v.z)
  }

  /** Squared Euclidean distance: it orders points exactly as the distance
      does, so a nearest-point query needs no square root. */
  function Dist2(a: Vec3, b: Vec3): real {
    Norm2(Sub(a, b))
  }

  /** The squared distance is never negative, and it is zero exactly when the
      two points coincide. */
  lemma Dist2ZeroIffEqual(a: Vec3, b: Vec3)
    ensures Dist2(a, b) >= 0.0
    ensures Dist2(a, b) == 0.0 <==> a == b
  {
    var d := Sub(a, b);
    assert Dist2(a, b) == Sq(d.x) + Sq(d.y) + Sq(d.z);
    SquareNonNegative(d.x);
    SquareNonNegative(d.y);
    SquareNonNegative(d.z);
    if d.x != 0.0 { SquarePositive(d.x); }
    if d.y != 0.0 { SquarePositive(d.y); }
    if d.z != 0.0 { SquarePositive(d.z); }
  }

  lemma SquareNonNegative(r: real)
    ensures Sq(r) >= 0.0
  {
  }

  /** A nonzero real has a positive square. */
  lemma SquarePositive(r: real)
    requires r != 0.0
    ensures Sq(r) > 0.0
  {
    if r > 0.0 {
      ProductPositive(r, r, Sq(r));
    } else {
      ProductPositive(-r, -r, Sq(r));
    }
  }

  lemma ProductPositive(u: real, v: real, p: real)
    requires u > 0.0 && v > 0.0 && p == u * v
    ensures p > 0.0
  {
  }
}
