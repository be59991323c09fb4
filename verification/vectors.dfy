/** Exact real-valued 3-vectors and quaternions standing in for three.js
    `Vector3` and `Quaternion`. Only the operations the game code uses are
    defined; square roots are never taken (lengths are supplied by callers). */
module Vectors {

  datatype Vec3 = Vec3(x: real, y: real, z: real)

  datatype Quat = Quat(x: real, y: real, z: real, w: real)

  function Add(a: Vec3, b: Vec3): Vec3 {
    Vec3(a.x + b.x, a.y + b.y, a.z + b.z)
  }

  /** `multiplyScalar`. */
  function Scale(v: Vec3, k: real): Vec3 {
    Vec3(k * v.x, k * v.y, k * v.z)
  }

  function Dot(a: Vec3, b: Vec3): real {
    a.x * b.x + a.y * b.y + a.z * b.z
  }

  /** Squared length, `lengthSq`. */
  function Norm2(v: Vec3): real {
    Dot(v, v)
  }

  lemma Norm2NonNegative(v: Vec3)
    ensures Norm2(v) >= 0.0
  {
    assert v.x * v.x >= 0.0 && v.y * v.y >= 0.0 && v.z * v.z >= 0.0;
  }

  lemma ScaleNorm2(v: Vec3, k: real)
    ensures Norm2(Scale(v, k)) == k * k * Norm2(v)
  {
  }

  lemma ScaleDot(v: Vec3, k: real, p: Vec3)
    ensures Dot(Scale(v, k), p) == k * Dot(v, p)
  {
  }

  function Abs(x: real): real {
    if x < 0.0 then -x else x
  }

  /** Scaling twice is scaling once by the product. */
  lemma ScaleScale(v: Vec3, a: real, b: real)
    ensures Scale(Scale(v, a), b) == Scale(v, b * a)
  {
    assert b * (a * v.x) == (b * a) * v.x;
    assert b * (a * v.y) == (b * a) * v.y;
    assert b * (a * v.z) == (b * a) * v.z;
  }

  /** Only the zero vector has squared length 0. */
  lemma NullVector(v: Vec3)
    requires Norm2(v) == 0.0
    ensures v == Vec3(0.0, 0.0, 0.0)
  {
    assert v.x * v.x >= 0.0 && v.y * v.y >= 0.0 && v.z * v.z >= 0.0;
    assert v.x * v.x == 0.0 && v.y * v.y == 0.0 && v.z * v.z == 0.0;
    SquareZero(v.x);
    SquareZero(v.y);
    SquareZero(v.z);
  }

  lemma SquareZero(a: real)
    requires a * a == 0.0
    ensures a == 0.0
  {
    if a != 0.0 {
      SquareStrictlyMonotone(0.0, Abs(a));
    }
  }

  /** Dropping the vertical component never lengthens a vector. */
  lemma FlattenShortens(v: Vec3)
    ensures Norm2(Vec3(v.x, 0.0, v.z)) <= Norm2(v)
  {
    assert v.y * v.y >= 0.0;
  }

  /** Squaring keeps the order of non-negative lengths. */
  lemma SquareMonotone(a: real, b: real)
    requires 0.0 <= a <= b
    ensures a * a <= b * b
  {
    assert a * a <= a * b;
  }

  /** Squaring keeps the strict order of non-negative lengths. */
  lemma SquareStrictlyMonotone(a: real, b: real)
    requires 0.0 <= a < b
    ensures a * a < b * b
  {
    var d := b - a;
    assert d > 0.0 && b + a > 0.0;
    assert d * (b + a) > 0.0;
    assert d * (b + a) == b * b - a * a;
  }

  /** A vector of length at most `bound` stays within it once its vertical
      component is dropped. */
  lemma FlatWithin(v: Vec3, len: real, bound: real)
    requires 0.0 <= len <= bound && len * len == Norm2(v)
    ensures Norm2(Vec3(v.x, 0.0, v.z)) <= bound * bound
  {
    FlattenShortens(v);
    SquareMonotone(len, bound);
  }
}
