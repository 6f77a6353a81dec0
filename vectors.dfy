/** The small part of glm the renderer relies on: three-component vectors over
    the reals, a column-major 3x3 matrix, the clamp used before writing pixels,
    and normalisation. Square roots are not computed here: a length function is
    a parameter, and `IsNorm` is the one law it must obey. */
module Vectors {

  /** The constant the sources `#define` as PI. */
  const Pi: real := 3.141592653589793238462643383279502884

  datatype Vec3 = Vec3(x: real, y: real, z: real)

  const Zero: Vec3 := Vec3(0.0, 0.0, 0.0)

  function Add(a: Vec3, b: Vec3): Vec3 { Vec3(a.x + b.x, a.y + b.y, a.z + b.z) }

  function Sub(a: Vec3, b: Vec3): Vec3 { Vec3(a.x - b.x, a.y - b.y, a.z - b.z) }

  /** `k * a` in glm. */
  function Scale(k: real, a: Vec3): Vec3 { Vec3(k * a.x, k * a.y, k * a.z) }

  /** `a * b` on two vectors in glm: componentwise. */
  function Mul(a: Vec3, b: Vec3): Vec3 { Vec3(a.x * b.x, a.y * b.y, a.z * b.z) }

  /** `a / k` in glm. */
  function DivBy(a: Vec3, k: real): Vec3
    requires k != 0.0
  {
    Vec3(a.x / k, a.y / k, a.z / k)
  }

  function Dot(a: Vec3, b: Vec3): real { a.x * b.x + a.y * b.y + a.z * b.z }

  function Cross(a: Vec3, b: Vec3): Vec3
  {
    Vec3(a.y * b.z - a.z * b.y, a.z * b.x - a.x * b.z, a.x * b.y - a.y * b.x)
  }

  /** Every component is at least zero. */
  predicate NonNegative(a: Vec3) { a.x >= 0.0 && a.y >= 0.0 && a.z >= 0.0 }

  /** `a <= b` componentwise. */
  predicate Below(a: Vec3, b: Vec3) { a.x <= b.x && a.y <= b.y && a.z <= b.z }

  /** A glm `mat3`, stored as its three columns. */
  datatype Mat3 = Mat3(c0: Vec3, c1: Vec3, c2: Vec3)

  const ZeroMatrix: Mat3 := Mat3(Zero, Zero, Zero)

  /** The identity, which a default-constructed glm `mat3` holds in the glm
      releases before 0.9.9. */
  const Identity: Mat3 := Mat3(Vec3(1.0, 0.0, 0.0), Vec3(0.0, 1.0, 0.0), Vec3(0.0, 0.0, 1.0))

  /** `m * v` in glm (column-major). */
  function Apply(m: Mat3, v: Vec3): Vec3
  {
    Add(Add(Scale(v.x, m.c0), Scale(v.y, m.c1)), Scale(v.z, m.c2))
  }

  /** glm's scalar `clamp(v, lo, hi)`, that is `min(max(v, lo), hi)`. */
  function Clamp(v: real, lo: real, hi: real): real
  {
    var m := if v < lo then lo else v;
    if hi < m then hi else m
  }

  function ClampVec(a: Vec3, lo: real, hi: real): Vec3
  {
    Vec3(Clamp(a.x, lo, hi), Clamp(a.y, lo, hi), Clamp(a.z, lo, hi))
  }

  /** Clamping to a non-empty interval lands in it and keeps values already there. */
  lemma ClampWithin(v: real, lo: real, hi: real)
    requires lo <= hi
    ensures lo <= Clamp(v, lo, hi) <= hi
    ensures lo <= v <= hi ==> Clamp(v, lo, hi) == v
    ensures v < lo ==> Clamp(v, lo, hi) == lo
    ensures hi < v ==> Clamp(v, lo, hi) == hi
  {
  }

  /** A vector as IEEE arithmetic computes it: three ordinary numbers, or a value
      poisoned by NaN (normalising the zero vector multiplies zero by the
      infinite `inversesqrt(0)`, and NaN spreads through every later sum and
      product). */
  datatype MaybeNaN = Num(v: Vec3) | NaN

  /** `a * a`. Products of the reals here are kept behind `Sq` and `Prod` in
      contracts, so that facts about them combine by plain rewriting. */
  function Sq(a: real): real { a * a }

  function Prod(a: real, b: real): real { a * b }

  /** `norm` is the Euclidean length: `glm::length(v) == sqrt(dot(v, v))`. */
  ghost predicate IsNorm(norm: Vec3 -> real)
  {
    forall v :: 0.0 <= norm(v) && Sq(norm(v)) == Dot(v, v)
  }

  /** `glm::normalize(v)`, `v * inversesqrt(dot(v, v))`: NaN for the zero vector. */
  function Normalize(v: Vec3, norm: Vec3 -> real): MaybeNaN
  {
    var len := norm(v);
    if len == 0.0 then NaN else Num(Scale(1.0 / len, v))
  }

  /** Two numbers of the same sign have a positive product. */
  lemma ProdPositive(a: real, b: real)
    requires (a > 0.0 && b > 0.0) || (a < 0.0 && b < 0.0)
    ensures Prod(a, b) > 0.0
  {
  }

  /** A real square is never negative, and positive away from zero. */
  lemma SquareNonNegative(a: real)
    ensures Sq(a) >= 0.0
    ensures a != 0.0 ==> Sq(a) > 0.0
  {
    if a != 0.0 {
      ProdPositive(a, a);
      assert Sq(a) == Prod(a, a);
    }
  }

  lemma DotSelfNonNegative(v: Vec3)
    ensures Dot(v, v) >= 0.0
    ensures v != Zero ==> Dot(v, v) > 0.0
    ensures v == Zero ==> Dot(v, v) == 0.0
  {
    SquareNonNegative(v.x);
    SquareNonNegative(v.y);
    SquareNonNegative(v.z);
    assert Dot(v, v) == Sq(v.x) + Sq(v.y) + Sq(v.z);
    assert v != Zero ==> (v.x != 0.0 || v.y != 0.0 || v.z != 0.0);
  }

  /** Squaring is strictly increasing on the non-negative reals. */
  lemma SquareIncreasing(a: real, b: real)
    requires 0.0 <= a < b
    ensures Sq(a) < Sq(b)
  {
    assert Sq(b) - Sq(a) == Prod(b + a, b - a);
    ProdPositive(b + a, b - a);
  }

  /** Two non-negative numbers with the same square are equal. */
  lemma SquareRootUnique(a: real, b: real)
    requires 0.0 <= a && 0.0 <= b && Sq(a) == Sq(b)
    ensures a == b
  {
    if a < b {
      SquareIncreasing(a, b);
    } else if b < a {
      SquareIncreasing(b, a);
    }
  }

  /** Only the zero vector has length zero. */
  lemma NormZero(norm: Vec3 -> real, v: Vec3)
    requires IsNorm(norm)
    ensures norm(v) == 0.0 <==> v == Zero
  {
    assert Sq(norm(v)) == Dot(v, v);
    SquareNonNegative(norm(v));
    DotSelfNonNegative(v);
  }

  lemma DotScale(k: real, a: Vec3, b: Vec3)
    ensures Dot(Scale(k, a), b) == Prod(k, Dot(a, b))
    ensures Dot(a, Scale(k, b)) == Prod(k, Dot(a, b))
  {
  }

  lemma DotScaleSelf(k: real, a: Vec3)
    ensures Dot(Scale(k, a), Scale(k, a)) == Prod(Sq(k), Dot(a, a))
  {
  }

  /** `(1/len)^2 * len^2 == 1`. */
  lemma InverseSquare(len: real, d: real)
    requires len != 0.0 && Sq(len) == d
    ensures Prod(Sq(1.0 / len), d) == 1.0
  {
    var k := 1.0 / len;
    assert Prod(k, len) == 1.0;
    assert Prod(Sq(k), Sq(len)) == Sq(Prod(k, len));
  }

  /** Dividing a vector by its length gives a vector of length one. */
  lemma InverseScaleUnit(len: real, v: Vec3)
    requires len != 0.0 && Sq(len) == Dot(v, v)
    ensures Dot(Scale(1.0 / len, v), Scale(1.0 / len, v)) == 1.0
  {
    DotScaleSelf(1.0 / len, v);
    InverseSquare(len, Dot(v, v));
  }

  /** Normalising fails (yields NaN) exactly on the zero vector. */
  lemma NormalizeDefined(norm: Vec3 -> real, v: Vec3)
    requires IsNorm(norm)
    ensures Normalize(v, norm).Num? <==> v != Zero
    ensures v != Zero ==> norm(v) > 0.0
  {
    NormZero(norm, v);
  }

  /** Normalising a non-zero vector yields a positive multiple of it of length one. */
  lemma NormalizeUnit(norm: Vec3 -> real, v: Vec3)
    requires IsNorm(norm) && v != Zero
    ensures Normalize(v, norm).Num?
    ensures Normalize(v, norm).v == Scale(1.0 / norm(v), v) && 1.0 / norm(v) > 0.0
    ensures Dot(Normalize(v, norm).v, Normalize(v, norm).v) == 1.0
  {
    NormalizeDefined(norm, v);
    var len := norm(v);
    assert Sq(len) == Dot(v, v);
    InverseScaleUnit(len, v);
  }

  /** Scaling a unit vector by `k` gives a vector of length `|k|`. */
  lemma NormScaleUnit(norm: Vec3 -> real, k: real, u: Vec3)
    requires IsNorm(norm) && Dot(u, u) == 1.0
    ensures norm(Scale(k, u)) == if k < 0.0 then -k else k
  {
    var w := Scale(k, u);
    DotScaleSelf(k, u);
    assert Sq(norm(w)) == Dot(w, w);
    var a := if k < 0.0 then -k else k;
    assert Sq(a) == Sq(k);
    SquareRootUnique(norm(w), a);
  }

  /** The difference of two vectors is zero exactly when they are equal. */
  lemma SubZero(a: Vec3, b: Vec3)
    ensures Sub(a, b) == Zero <==> a == b
  {
  }

  lemma DotSymmetric(a: Vec3, b: Vec3)
    ensures Dot(a, b) == Dot(b, a)
  {
  }

  lemma DotSub(a: Vec3, b: Vec3, c: Vec3)
    ensures Dot(Sub(a, b), c) == Dot(a, c) - Dot(b, c)
    ensures Dot(c, Sub(a, b)) == Dot(c, a) - Dot(c, b)
  {
  }

  /** The Cauchy-Schwarz bound for unit vectors. */
  lemma UnitDotAtMostOne(a: Vec3, b: Vec3)
    requires Dot(a, a) == 1.0 && Dot(b, b) == 1.0
    ensures Dot(a, b) <= 1.0
  {
    var d := Sub(a, b);
    DotSelfNonNegative(d);
    DotSub(a, b, d);
    DotSub(a, b, a);
    DotSub(a, b, b);
    DotSymmetric(a, b);
  }

  lemma ProdNonNegative(a: real, b: real)
    requires a >= 0.0 && b >= 0.0
    ensures Prod(a, b) >= 0.0
  {
  }

  /** A factor in `[0, 1]` keeps each non-negative channel between zero and itself. */
  lemma ScaleBelow(k: real, a: Vec3)
    requires 0.0 <= k <= 1.0 && NonNegative(a)
    ensures NonNegative(Scale(k, a)) && Below(Scale(k, a), a)
  {
    assert a.x - k * a.x == Prod(1.0 - k, a.x);
    assert a.y - k * a.y == Prod(1.0 - k, a.y);
    assert a.z - k * a.z == Prod(1.0 - k, a.z);
    ProdNonNegative(1.0 - k, a.x);
    ProdNonNegative(1.0 - k, a.y);
    ProdNonNegative(1.0 - k, a.z);
    ProdNonNegative(k, a.x);
    ProdNonNegative(k, a.y);
    ProdNonNegative(k, a.z);
  }

  lemma ScaleOfZero(k: real)
    ensures Scale(k, Zero) == Zero
  {
  }

  lemma ScaleZero(a: Vec3)
    ensures Scale(0.0, a) == Zero
  {
  }

  /** `M (0, 0, f)` is the third column scaled by `f`. */
  lemma ApplyForward(m: Mat3, f: real)
    ensures Apply(m, Vec3(0.0, 0.0, f)) == Scale(f, m.c2)
  {
    ScaleZero(m.c0);
    ScaleZero(m.c1);
    assert Scale(0.0, m.c0) == Zero && Scale(0.0, m.c1) == Zero;
    assert Add(Add(Zero, Zero), Scale(f, m.c2)) == Scale(f, m.c2);
  }

  /** The identity matrix maps every vector to itself. */
  lemma ApplyIdentity(v: Vec3)
    ensures Apply(Identity, v) == v
  {
  }

  /** The zero matrix maps every vector to zero. */
  lemma ApplyZeroMatrix(v: Vec3)
    ensures Apply(ZeroMatrix, v) == Zero
  {
  }

  /** Scaling the left factor scales the cross product. */
  lemma CrossScaleLeft(k: real, c: Vec3, b: Vec3)
    ensures Cross(Scale(k, c), b) == Scale(k, Cross(c, b))
  {
    var l, r := Cross(Scale(k, c), b), Scale(k, Cross(c, b));
    assert l.x == r.x by { ScaleDifference(k, c.y, b.z, c.z, b.y); }
    assert l.y == r.y by { ScaleDifference(k, c.z, b.x, c.x, b.z); }
    assert l.z == r.z by { ScaleDifference(k, c.x, b.y, c.y, b.x); }
  }

  /** `(k a) b - (k c) d == k (a b - c d)`. */
  lemma ScaleDifference(k: real, a: real, b: real, c: real, d: real)
    ensures (k * a) * b - (k * c) * d == k * (a * b - c * d)
  {
    assert (k * a) * b == k * (a * b);
    assert (k * c) * d == k * (c * d);
  }

  /** A multiple of `b` is parallel to `b`. */
  lemma CrossScale(k: real, b: Vec3)
    ensures Cross(Scale(k, b), b) == Zero
  {
  }
}
