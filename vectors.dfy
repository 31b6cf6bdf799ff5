/** Three-component vectors over the reals (points, directions and linear RGB
    colours share the representation, as `glm::vec3` does), rays, and the
    library routines the model keeps abstract. */
module Vectors {

  datatype Vec3 = Vec3(x: real, y: real, z: real)

  const ORIGIN: Vec3 := Vec3(0.0, 0.0, 0.0)
  const BLACK: Vec3 := Vec3(0.0, 0.0, 0.0)
  const WHITE: Vec3 := Vec3(1.0, 1.0, 1.0)
  const CAMERA_FORWARD: Vec3 := Vec3(0.0, 0.0, -1.0)

  function Add(a: Vec3, b: Vec3): Vec3 { Vec3(a.x + b.x, a.y + b.y, a.z + b.z) }

  function Sub(a: Vec3, b: Vec3): Vec3 { Vec3(a.x - b.x, a.y - b.y, a.z - b.z) }

  function Neg(a: Vec3): Vec3 { Vec3(-a.x, -a.y, -a.z) }

  function Scale(s: real, a: Vec3): Vec3 { Vec3(s * a.x, s * a.y, s * a.z) }

  /** Component-wise product, glm's `operator*` on two vectors. */
  function Mul(a: Vec3, b: Vec3): Vec3 { Vec3(a.x * b.x, a.y * b.y, a.z * b.z) }

  function Dot(a: Vec3, b: Vec3): real { a.x * b.x + a.y * b.y + a.z * b.z }

  function Cross(a: Vec3, b: Vec3): Vec3
  {
    Vec3(a.y * b.z - a.z * b.y, a.z * b.x - a.x * b.z, a.x * b.y - a.y * b.x)
  }

  /** `vec3(s)`: the vector with all three components equal to `s`. */
  function Splat(s: real): Vec3 { Vec3(s, s, s) }

  lemma DotNeg(a: Vec3, b: Vec3)
    ensures Dot(Neg(a), b) == -Dot(a, b)
    ensures Dot(a, Neg(b)) == -Dot(a, b)
  {
  }

  lemma DotSelfNonNegative(a: Vec3)
    ensures Dot(a, a) >= 0.0
  {
  }

  lemma NonZeroSquare(x: real, sq: real)
    requires x != 0.0 && sq == x * x
    ensures sq > 0.0
  {
    var inv := 1.0 / x;
    assert (x * x) * inv == x * (x * inv);
    assert x * inv == 1.0;
    assert x * x >= 0.0;
  }

  /** Only the zero vector has zero squared length. */
  lemma DotSelfPositive(a: Vec3)
    requires a != ORIGIN
    ensures Dot(a, a) > 0.0
  {
    var p, q, r := a.x * a.x, a.y * a.y, a.z * a.z;
    assert p >= 0.0 && q >= 0.0 && r >= 0.0;
    if a.x != 0.0 {
      NonZeroSquare(a.x, p);
    } else if a.y != 0.0 {
      NonZeroSquare(a.y, q);
    } else {
      NonZeroSquare(a.z, r);
    }
    assert p + q + r > 0.0;
    assert Dot(a, a) == p + q + r;
  }

  /** Scaling a vector scales its squared length by the square of the factor. */
  lemma DotScaled(c: real, v: Vec3)
    ensures Dot(Scale(c, v), Scale(c, v)) == c * c * Dot(v, v)
  {
    assert (c * v.x) * (c * v.x) == c * c * (v.x * v.x);
    assert (c * v.y) * (c * v.y) == c * c * (v.y * v.y);
    assert (c * v.z) * (c * v.z) == c * c * (v.z * v.z);
  }

  lemma SquareOfProduct(a: real, b: real)
    ensures (a * a) * (b * b) == (a * b) * (a * b)
  {
  }

  /** A ray; its direction need not have unit length. */
  datatype Ray = Ray(origin: Vec3, dir: Vec3) {

    /** The point reached after travelling `t` times the direction. */
    function At(t: real): (p: Vec3)
      ensures Sub(p, origin) == Scale(t, dir)
      ensures t == 0.0 ==> p == origin
    {
      Add(origin, Scale(t, dir))
    }
  }

  /** The routines of the C++ and vector libraries that the model does not
      define: `std::sqrt`, `std::tan`, `glm::normalize`, and the `reflect` and
      `refract` helpers called by the materials. */
  datatype MathLib = MathLib(
    sqrt: real -> real,
    tan: real -> real,
    normalize: Vec3 -> Vec3,
    reflect: (Vec3, Vec3) -> Vec3,
    refract: (Vec3, Vec3, real) -> Vec3)
  {
    /** The only facts the model assumes of the library: `sqrt` is the
        non-negative square root on the non-negative reals. */
    ghost predicate Lawful()
    {
      forall x: real :: 0.0 <= x ==> 0.0 <= sqrt(x) && sqrt(x) * sqrt(x) == x
    }

    /** The Euclidean length, `glm::length(v)` (not the member `v.length()`,
        which gives the component count). */
    function Length(v: Vec3): real { sqrt(Dot(v, v)) }
  }

  /** Non-negative reals are ordered as their squares are. */
  lemma SquaresOrder(p: real, q: real)
    requires 0.0 <= p && 0.0 <= q && p * p <= q * q
    ensures p <= q
  {
    assert (p - q) * (p + q) == p * p - q * q;
    if p > q {
      ProductPositive(p - q, p + q);
    }
  }

  lemma ProductPositive(a: real, b: real)
    requires 0.0 < a && 0.0 < b
    ensures 0.0 < a * b
  {
  }

  lemma ProductNonNegative(a: real, b: real)
    requires 0.0 <= a && 0.0 <= b
    ensures 0.0 <= a * b
  {
    if a > 0.0 && b > 0.0 {
      ProductPositive(a, b);
    }
  }

  lemma ProductInUnit(a: real, b: real)
    requires 0.0 <= a <= 1.0 && 0.0 <= b <= 1.0
    ensures 0.0 <= a * b <= 1.0
  {
    ProductNonNegative(a, b);
    ProductNonNegative(1.0 - a, b);
    assert (1.0 - a) * b == b - a * b;
  }

  /** The square root is monotone. */
  lemma SqrtMonotone(lib: MathLib, a: real, b: real)
    requires lib.Lawful() && 0.0 <= a <= b
    ensures lib.sqrt(a) <= lib.sqrt(b)
  {
    SquaresOrder(lib.sqrt(a), lib.sqrt(b));
  }

  lemma SqrtOfSquare(lib: MathLib, a: real)
    requires lib.Lawful() && 0.0 <= a
    ensures lib.sqrt(a * a) == a
  {
    var s := lib.sqrt(a * a);
    SquaresOrder(s, a);
    SquaresOrder(a, s);
  }
}
