/** The vector helpers of the sampling utilities: orthogonal projection, the
    sphere and hemisphere samples, and their probability densities. The two
    uniform draws and the trigonometry that turn them into a direction on the
    unit sphere are not modelled: that direction is an argument. */
module Sampling {
  import opened Vectors

  /** `projectAOntoB(a, b)`: `dot(a, b) * b / dot(b, b)`, evaluated in the
      source's order. Projecting onto the zero vector divides zero by zero. */
  function Project(a: Vec3, b: Vec3): (c: MaybeNaN)
    ensures c.NaN? <==> Dot(b, b) == 0.0
  {
    var bb := Dot(b, b);
    if bb == 0.0 then NaN else Num(DivBy(Scale(Dot(a, b), b), bb))
  }

  /** Dividing the scaled vector equals scaling by the quotient. */
  lemma DivByScale(d: real, bb: real, b: Vec3)
    requires bb != 0.0
    ensures DivBy(Scale(d, b), bb) == Scale(d / bb, b)
  {
    assert (d * b.x) / bb == (d / bb) * b.x;
    assert (d * b.y) / bb == (d / bb) * b.y;
    assert (d * b.z) / bb == (d / bb) * b.z;
  }

  /** The projection is the multiple `(a.b / b.b) b` of `b`. */
  lemma ProjectIsMultiple(a: Vec3, b: Vec3)
    requires Dot(b, b) != 0.0
    ensures Project(a, b) == Num(Scale(Dot(a, b) / Dot(b, b), b))
  {
    DivByScale(Dot(a, b), Dot(b, b), b);
  }

  /** `(d / bb) * bb == d`. */
  lemma QuotientTimes(d: real, bb: real)
    requires bb != 0.0
    ensures Prod(d / bb, bb) == d
  {
  }

  /** What is left after projecting is orthogonal to `b`. */
  lemma ProjectOrthogonal(a: Vec3, b: Vec3)
    requires Dot(b, b) != 0.0
    ensures Dot(Project(a, b).v, b) == Dot(a, b)
    ensures Dot(Sub(a, Project(a, b).v), b) == 0.0
  {
    var k := Dot(a, b) / Dot(b, b);
    ProjectIsMultiple(a, b);
    DotScale(k, b, b);
    QuotientTimes(Dot(a, b), Dot(b, b));
    DotSub(a, Project(a, b).v, b);
  }

  /** Projecting the projection again changes nothing. */
  lemma ProjectIdempotent(a: Vec3, b: Vec3)
    requires Dot(b, b) != 0.0
    ensures Project(Project(a, b).v, b) == Project(a, b)
  {
    var c := Project(a, b).v;
    ProjectOrthogonal(a, b);
    ProjectIsMultiple(a, b);
    ProjectIsMultiple(c, b);
  }

  /** The projection is parallel to `b`. */
  lemma ProjectParallel(a: Vec3, b: Vec3)
    requires Dot(b, b) != 0.0
    ensures Cross(Project(a, b).v, b) == Zero
  {
    ProjectIsMultiple(a, b);
    CrossScale(Dot(a, b) / Dot(b, b), b);
  }

  /** `(d / bb) * d` is positive when `d` is non-zero and `bb` positive. */
  lemma QuotientSquarePositive(d: real, bb: real)
    requires bb > 0.0 && d != 0.0
    ensures Prod(d / bb, d) > 0.0
  {
    if d > 0.0 {
      ProdPositive(d / bb, d);
    } else {
      ProdPositive(d / bb, d);
    }
  }

  /** The projection of `a` vanishes exactly when `a` is orthogonal to `b`;
      otherwise it points to `a`'s side. */
  lemma ProjectSide(a: Vec3, b: Vec3)
    requires Dot(b, b) != 0.0
    ensures Project(a, b).v == Zero <==> Dot(a, b) == 0.0
    ensures Dot(a, b) != 0.0 ==> Dot(Project(a, b).v, a) > 0.0
  {
    var d := Dot(a, b);
    var bb := Dot(b, b);
    var c := Project(a, b).v;
    ProjectOrthogonal(a, b);
    DotSelfNonNegative(b);
    if d == 0.0 {
      ProjectIsMultiple(a, b);
      assert c == Scale(0.0, b);
    } else {
      ProjectIsMultiple(a, b);
      DotScale(d / bb, b, a);
      DotSymmetric(b, a);
      QuotientSquarePositive(d, bb);
      assert Dot(c, a) == Prod(d / bb, d);
    }
  }

  /** `uniformSphereSample(r)`: `r * normalize(dir)` for the sphere direction
      `dir` computed from the two draws. */
  function SphereSample(r: real, dir: Vec3, norm: Vec3 -> real): (s: MaybeNaN)
  {
    match Normalize(dir, norm)
    case NaN => NaN
    case Num(u) => Num(Scale(r, u))
  }

  /** A sphere sample lies at distance `|r|` from the origin. */
  lemma SphereSampleRadius(r: real, dir: Vec3, norm: Vec3 -> real)
    requires IsNorm(norm)
    ensures SphereSample(r, dir, norm).NaN? <==> dir == Zero
    ensures dir != Zero ==> norm(SphereSample(r, dir, norm).v) == if r < 0.0 then -r else r
  {
    NormalizeDefined(norm, dir);
    if dir != Zero {
      NormalizeUnit(norm, dir);
      NormScaleUnit(norm, r, Normalize(dir, norm).v);
    }
  }

  /** `uniformSphereSamplePDF(r)`: `1 / (r*r*4*PI)`. */
  function SphereSamplePdf(r: real): (p: real)
    requires r != 0.0
  {
    SquareNonNegative(r);
    assert r * r * 4.0 * Pi == Prod(Sq(r), 4.0 * Pi);
    ProdPositive(Sq(r), 4.0 * Pi);
    1.0 / (r * r * 4.0 * Pi)
  }

  /** `uniformHemisphereSamplePDF(r)`: `1 / (r*r*2*PI)`. */
  function HemisphereSamplePdf(r: real): (p: real)
    requires r != 0.0
  {
    SquareNonNegative(r);
    assert r * r * 2.0 * Pi == Prod(Sq(r), 2.0 * Pi);
    ProdPositive(Sq(r), 2.0 * Pi);
    1.0 / (r * r * 2.0 * Pi)
  }

  /** The sphere density integrates to one over the sphere's area `4 pi r^2`,
      and the hemisphere density is twice it, integrating to one over `2 pi r^2`. */
  lemma PdfNormalised(r: real)
    requires r != 0.0
    ensures SphereSamplePdf(r) > 0.0 && Prod(SphereSamplePdf(r), 4.0 * Pi * Sq(r)) == 1.0
    ensures HemisphereSamplePdf(r) > 0.0 && Prod(HemisphereSamplePdf(r), 2.0 * Pi * Sq(r)) == 1.0
    ensures HemisphereSamplePdf(r) == 2.0 * SphereSamplePdf(r)
  {
    var s := Sq(r);
    SquareNonNegative(r);
    ProdPositive(s, 4.0 * Pi);
    ProdPositive(s, 2.0 * Pi);
    assert r * r * 4.0 * Pi == 4.0 * Pi * s;
    assert r * r * 2.0 * Pi == 2.0 * Pi * s;
    assert SphereSamplePdf(r) == 1.0 / (4.0 * Pi * s);
    assert HemisphereSamplePdf(r) == 1.0 / (2.0 * Pi * s);
    ReciprocalTimes(4.0 * Pi * s);
    ReciprocalTimes(2.0 * Pi * s);
    ReciprocalHalf(2.0 * Pi * s);
  }

  lemma ReciprocalTimes(q: real)
    requires q > 0.0
    ensures 1.0 / q > 0.0 && Prod(1.0 / q, q) == 1.0
  {
  }

  lemma ReciprocalHalf(q: real)
    requires q > 0.0
    ensures 1.0 / q == 2.0 * (1.0 / (2.0 * q))
  {
  }

  /** `normalize(projectAOntoB(a, b))`. */
  function NormalizedProjection(a: Vec3, b: Vec3, norm: Vec3 -> real): MaybeNaN
  {
    match Project(a, b)
    case NaN => NaN
    case Num(c) => Normalize(c, norm)
  }

  /** `uniformHemisphereSample(axis, r)`: `normalize(projectAOntoB(axis, dir))`
      for the sphere direction `dir` computed from the two draws. The radius
      argument of the source is never read, so it is not a parameter here. */
  function HemisphereSample(axis: Vec3, dir: Vec3, norm: Vec3 -> real): MaybeNaN
  {
    NormalizedProjection(axis, dir, norm)
  }

  /** Normalising a vector keeps it on the side of any vector it has a
      positive dot product with, and parallel to any vector it is parallel to. */
  lemma NormalizeKeepsSide(norm: Vec3 -> real, c: Vec3, a: Vec3, b: Vec3)
    requires IsNorm(norm) && c != Zero && Dot(c, a) > 0.0 && Cross(c, b) == Zero
    ensures Normalize(c, norm).Num?
    ensures Dot(Normalize(c, norm).v, Normalize(c, norm).v) == 1.0
    ensures Dot(Normalize(c, norm).v, a) > 0.0
    ensures Cross(Normalize(c, norm).v, b) == Zero
  {
    NormalizeUnit(norm, c);
    var k := 1.0 / norm(c);
    DotScale(k, c, a);
    ProdPositive(k, Dot(c, a));
    CrossScaleLeft(k, c, b);
    ScaleOfZero(k);
  }

  /** The normalised projection of `a` onto `b` is defined exactly when `b` is
      non-zero and `a` is not orthogonal to it. */
  lemma NormalizedProjectionDefined(a: Vec3, b: Vec3, norm: Vec3 -> real)
    requires IsNorm(norm)
    ensures NormalizedProjection(a, b, norm).Num? <==> b != Zero && Dot(a, b) != 0.0
  {
    DotSelfNonNegative(b);
    if b != Zero {
      ProjectSide(a, b);
      NormalizeDefined(norm, Project(a, b).v);
    }
  }

  /** A defined normalised projection of `a` onto `b` is a unit vector parallel
      to `b` and strictly on `a`'s side. In the hemisphere sample `a` is the
      axis, so the sample always lands on the axis's side. */
  lemma NormalizedProjectionOnSide(a: Vec3, b: Vec3, norm: Vec3 -> real)
    requires IsNorm(norm) && b != Zero && Dot(a, b) != 0.0
    ensures NormalizedProjection(a, b, norm).Num?
    ensures var w := NormalizedProjection(a, b, norm).v;
      Dot(w, w) == 1.0 && Dot(w, a) > 0.0 && Cross(w, b) == Zero
  {
    DotSelfNonNegative(b);
    ProjectSide(a, b);
    ProjectParallel(a, b);
    NormalizeKeepsSide(norm, Project(a, b).v, a, b);
  }
}
