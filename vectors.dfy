/** Three-component vectors over the reals, standing in for the tracer's
    `Vec3d`. The same type carries points, directions and RGB colours.
    Only the exact-arithmetic operations are defined here; normalisation
    needs a square root and is supplied from outside (see `Elements.World`). */
module Vectors {

  datatype Vec = Vec(x: real, y: real, z: real)

  const Zero: Vec := Vec(0.0, 0.0, 0.0)

  function Add(a: Vec, b: Vec): Vec {
    Vec(a.x + b.x, a.y + b.y, a.z + b.z)
  }

  function Sub(a: Vec, b: Vec): Vec {
    Vec(a.x - b.x, a.y - b.y, a.z - b.z)
  }

  /** Scaling by a scalar. */
  function Scale(v: Vec, k: real): Vec {
    Vec(v.x * k, v.y * k, v.z * k)
  }

  /** Channel-wise product, used to filter one colour by another. */
  function Mul(a: Vec, b: Vec): Vec {
    Vec(a.x * b.x, a.y * b.y, a.z * b.z)
  }

  /** The opposite direction. */
  function Neg(v: Vec): Vec {
    Vec(-v.x, -v.y, -v.z)
  }

  function Dot(a: Vec, b: Vec): real {
    a.x * b.x + a.y * b.y + a.z * b.z
  }

  function LengthSquared(v: Vec): (r: real)
    ensures r >= 0.0
  {
    Dot(v, v)
  }

  function Max(a: real, b: real): real {
    if a >= b then a else b
  }

  function Min(a: real, b: real): real {
    if a <= b then a else b
  }

  /** `x` raised to the natural power `n`. */
  function Pow(x: real, n: nat): real {
    if n == 0 then 1.0 else x * Pow(x, n - 1)
  }

  /** Caps every channel at 1.0, leaving smaller channels alone. */
  function ClampToOne(v: Vec): (r: Vec)
    ensures r.x <= 1.0 && r.y <= 1.0 && r.z <= 1.0
    ensures r.x == (if v.x <= 1.0 then v.x else 1.0)
    ensures r.y == (if v.y <= 1.0 then v.y else 1.0)
    ensures r.z == (if v.z <= 1.0 then v.z else 1.0)
  {
    Vec(Min(1.0, v.x), Min(1.0, v.y), Min(1.0, v.z))
  }

  /** No channel is negative. */
  predicate NonNegative(v: Vec) {
    v.x >= 0.0 && v.y >= 0.0 && v.z >= 0.0
  }

  /** Every channel lies in [0, 1]: a displayable colour. */
  predicate InUnitCube(v: Vec) {
    NonNegative(v) && v.x <= 1.0 && v.y <= 1.0 && v.z <= 1.0
  }

  lemma {:induction false} PowNonNegative(x: real, n: nat)
    requires x >= 0.0
    ensures Pow(x, n) >= 0.0
  {
    if n > 0 {
      PowNonNegative(x, n - 1);
    }
  }

  lemma ProductNonNegative(a: real, b: real)
    requires a >= 0.0 && b >= 0.0
    ensures a * b >= 0.0
  {
  }

  /** A convex combination of two values in [0, 1] stays in [0, 1]. */
  lemma BlendChannel(a: real, b: real, k: real)
    requires 0.0 <= a <= 1.0 && 0.0 <= b <= 1.0 && 0.0 <= k <= 1.0
    ensures 0.0 <= a * (1.0 - k) + b * k <= 1.0
  {
    ProductNonNegative(a, 1.0 - k);
    ProductNonNegative(b, k);
    ProductNonNegative(1.0 - a, 1.0 - k);
    ProductNonNegative(1.0 - b, k);
    assert a * (1.0 - k) <= 1.0 - k;
    assert b * k <= k;
  }

  /** Blending two displayable colours with a weight in [0, 1] gives a
      displayable colour. */
  lemma BlendInUnitCube(a: Vec, b: Vec, k: real)
    requires InUnitCube(a) && InUnitCube(b) && 0.0 <= k <= 1.0
    ensures InUnitCube(Add(Scale(a, 1.0 - k), Scale(b, k)))
  {
    BlendChannel(a.x, b.x, k);
    BlendChannel(a.y, b.y, k);
    BlendChannel(a.z, b.z, k);
  }
}
