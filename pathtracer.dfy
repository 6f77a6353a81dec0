/** The Monte-Carlo renderer: the depth-bounded path estimator `TracePath`, the
    camera-sample jitter, and `Draw`, which keeps a running mean of the
    estimates of every pixel in a buffer and writes the clamped mean to the
    image after each update. The random draws are inputs: for every pass and
    pixel, four jitter values and one sphere direction per bounce. The camera's
    ray generation is a function parameter. */
module PathTracer {
  import opened Vectors
  import opened Sampling
  import opened Scene
  import opened Image

  const Width: int := 480
  const Height: int := 240

  /** What a ray that leaves the scene sees: `0.7 * (1, 1, 1)`. */
  const Sky: Vec3 := Vec3(0.7, 0.7, 0.7)

  /** A ray: origin and direction (the `w` parts of the source's `vec4`s are dropped). */
  datatype Ray = Ray(o: Vec3, d: Vec3)

  /** One path traced from ray `r`, which is at bounce `depth`. At each hit the
      sphere direction `draws(depth)` is folded onto the hit triangle's normal
      side, and the path restarts exactly at the hit point. The returned value is
      `emittance + BRDF * incoming * cos_theta / p`, in that order of operations.
      Two NaN short-circuits stand in for the source's behaviour: a NaN bounce
      direction stops the path here, where the source recurses with the NaN ray
      (which misses or reaches the limit, and yields NaN all the same), and a
      NaN incoming estimate makes the result NaN, as IEEE arithmetic does. */
  function TracePath(world: World, draws: nat -> Vec3, r: Ray, depth: nat, maxDepth: int): MaybeNaN
    decreases maxDepth - depth
  {
    if depth >= maxDepth then Num(Zero)
    else
      match Closest(world, r.o, r.d)
      case None => Num(Sky)
      case Some(hit) =>
        var triangle := world.triangles[hit.triangleIndex];
        match HemisphereSample(triangle.normal, draws(depth), world.norm)
        case NaN => NaN
        case Num(d) =>
          var p := HemisphereSamplePdf(1.0);
          var cosTheta := Dot(d, triangle.normal);
          var brdf := DivBy(triangle.color, Pi);
          match TracePath(world, draws, Ray(hit.position, d), depth + 1, maxDepth)
          case NaN => NaN
          case Num(incoming) =>
            Num(Add(triangle.emittance, DivBy(Scale(cosTheta, Mul(brdf, incoming)), p)))
  }

  /** Once the bounce limit is reached the path contributes black. */
  lemma TracePathDepthLimit(world: World, draws: nat -> Vec3, r: Ray, depth: nat, maxDepth: int)
    requires depth >= maxDepth
    ensures TracePath(world, draws, r, depth, maxDepth) == Num(Zero)
  {
  }

  /** Below the limit, a ray that hits nothing sees the sky colour. */
  lemma TracePathMiss(world: World, draws: nat -> Vec3, r: Ray, depth: nat, maxDepth: int)
    requires depth < maxDepth && Closest(world, r.o, r.d).None?
    ensures TracePath(world, draws, r, depth, maxDepth) == Num(Sky)
  {
  }

  /** `(color / PI) * incoming * cos / (1 / (2 PI))` is `2 cos (color * incoming)`. */
  lemma BounceTerm(cosTheta: real, color: Vec3, incoming: Vec3)
    ensures DivBy(Scale(cosTheta, Mul(DivBy(color, Pi), incoming)), HemisphereSamplePdf(1.0))
      == Scale(2.0 * cosTheta, Mul(color, incoming))
  {
    var p := HemisphereSamplePdf(1.0);
    assert p == 1.0 / (1.0 * 1.0 * 2.0 * Pi);
    BounceScalar(cosTheta, color.x, incoming.x);
    BounceScalar(cosTheta, color.y, incoming.y);
    BounceScalar(cosTheta, color.z, incoming.z);
  }

  lemma BounceScalar(cosTheta: real, c: real, i: real)
    ensures (cosTheta * ((c / Pi) * i)) / (1.0 / (1.0 * 1.0 * 2.0 * Pi)) == (2.0 * cosTheta) * (c * i)
  {
  }

  /** At a hit below the limit: the bounce direction is defined exactly when the
      drawn direction is non-zero and not orthogonal to the normal; it then has a
      positive cosine with the normal, and the estimate simplifies to
      `emittance + 2 cos (color * incoming)`. An undefined direction makes the
      estimate NaN. */
  lemma TracePathHit(world: World, draws: nat -> Vec3, r: Ray, depth: nat, maxDepth: int)
    requires IsNorm(world.norm)
    requires depth < maxDepth && Closest(world, r.o, r.d).Some?
    ensures var hit := Closest(world, r.o, r.d).value;
      var triangle := world.triangles[hit.triangleIndex];
      var s := HemisphereSample(triangle.normal, draws(depth), world.norm);
      && (s.Num? <==> draws(depth) != Zero && Dot(triangle.normal, draws(depth)) != 0.0)
      && (s.NaN? ==> TracePath(world, draws, r, depth, maxDepth).NaN?)
      && (s.Num? ==>
            var cosTheta := Dot(s.v, triangle.normal);
            && cosTheta > 0.0
            && TracePath(world, draws, r, depth, maxDepth) ==
                 match TracePath(world, draws, Ray(hit.position, s.v), depth + 1, maxDepth)
                 case NaN => NaN
                 case Num(incoming) =>
                   Num(Add(triangle.emittance, Scale(2.0 * cosTheta, Mul(triangle.color, incoming)))))
  {
    var hit := Closest(world, r.o, r.d).value;
    var triangle := world.triangles[hit.triangleIndex];
    var w := draws(depth);
    NormalizedProjectionDefined(triangle.normal, w, world.norm);
    var s := HemisphereSample(triangle.normal, w, world.norm);
    if s.Num? {
      NormalizedProjectionOnSide(triangle.normal, w, world.norm);
      var next := TracePath(world, draws, Ray(hit.position, s.v), depth + 1, maxDepth);
      if next.Num? {
        BounceTerm(Dot(s.v, triangle.normal), triangle.color, next.v);
      }
    }
  }

  /** At the last bounce a hit returns the triangle's own emittance. */
  lemma TracePathLastBounce(world: World, draws: nat -> Vec3, r: Ray, depth: nat, maxDepth: int)
    requires IsNorm(world.norm)
    requires depth + 1 == maxDepth && Closest(world, r.o, r.d).Some?
    requires var triangle := world.triangles[Closest(world, r.o, r.d).value.triangleIndex];
      draws(depth) != Zero && Dot(triangle.normal, draws(depth)) != 0.0
    ensures TracePath(world, draws, r, depth, maxDepth)
      == Num(world.triangles[Closest(world, r.o, r.d).value.triangleIndex].emittance)
  {
    TracePathHit(world, draws, r, depth, maxDepth);
    var triangle := world.triangles[Closest(world, r.o, r.d).value.triangleIndex];
    var s := HemisphereSample(triangle.normal, draws(depth), world.norm);
    assert Scale(2.0 * Dot(s.v, triangle.normal), Mul(triangle.color, Zero)) == Zero;
  }

  /** Every triangle has non-negative emittance and colour. */
  ghost predicate NonNegativeScene(world: World)
  {
    forall k :: 0 <= k < |world.triangles| ==>
      NonNegative(world.triangles[k].emittance) && NonNegative(world.triangles[k].color)
  }

  /** `e + k (c * i)` is non-negative when every factor is. */
  lemma BounceNonNegative(e: Vec3, k: real, c: Vec3, i: Vec3)
    requires NonNegative(e) && k >= 0.0 && NonNegative(c) && NonNegative(i)
    ensures NonNegative(Add(e, Scale(k, Mul(c, i))))
  {
    ProdNonNegative(c.x, i.x);
    ProdNonNegative(c.y, i.y);
    ProdNonNegative(c.z, i.z);
    ProdNonNegative(k, Prod(c.x, i.x));
    ProdNonNegative(k, Prod(c.y, i.y));
    ProdNonNegative(k, Prod(c.z, i.z));
    assert Scale(k, Mul(c, i)) == Vec3(Prod(k, Prod(c.x, i.x)), Prod(k, Prod(c.y, i.y)), Prod(k, Prod(c.z, i.z)));
  }

  /** In a scene without negative emittance or colour, every estimate that is a
      number is non-negative in each channel. */
  lemma {:induction false} TracePathNonNegative(world: World, draws: nat -> Vec3, r: Ray, depth: nat, maxDepth: int)
    requires IsNorm(world.norm) && NonNegativeScene(world)
    ensures TracePath(world, draws, r, depth, maxDepth).Num? ==>
      NonNegative(TracePath(world, draws, r, depth, maxDepth).v)
    decreases maxDepth - depth
  {
    if depth < maxDepth && Closest(world, r.o, r.d).Some? {
      TracePathHit(world, draws, r, depth, maxDepth);
      var hit := Closest(world, r.o, r.d).value;
      var triangle := world.triangles[hit.triangleIndex];
      var s := HemisphereSample(triangle.normal, draws(depth), world.norm);
      if s.Num? {
        var ray := Ray(hit.position, s.v);
        TracePathNonNegative(world, draws, ray, depth + 1, maxDepth);
        var next := TracePath(world, draws, ray, depth + 1, maxDepth);
        if next.Num? {
          BounceNonNegative(triangle.emittance, 2.0 * Dot(s.v, triangle.normal), triangle.color, next.v);
        }
      }
    }
  }

  /** The estimate reads only the draws of bounces `depth` to `maxDepth - 1`, so
      the recursion is at most `maxDepth - depth` calls deep. */
  lemma {:induction false} TracePathDrawsUsed(
    world: World, draws1: nat -> Vec3, draws2: nat -> Vec3, r: Ray, depth: nat, maxDepth: int)
    requires forall j: nat :: depth <= j < maxDepth ==> draws1(j) == draws2(j)
    ensures TracePath(world, draws1, r, depth, maxDepth) == TracePath(world, draws2, r, depth, maxDepth)
    decreases maxDepth - depth
  {
    if depth < maxDepth {
      match Closest(world, r.o, r.d)
      case None =>
      case Some(hit) =>
        var triangle := world.triangles[hit.triangleIndex];
        assert draws1(depth) == draws2(depth);
        match HemisphereSample(triangle.normal, draws1(depth), world.norm)
        case NaN =>
        case Num(d) =>
          TracePathDrawsUsed(world, draws1, draws2, Ray(hit.position, d), depth + 1, maxDepth);
    }
  }

  /** The film and lens offsets `rand() / RAND_MAX` used for one sample. */
  datatype Jitter = Jitter(filmX: real, filmY: real, lensU: real, lensV: real)

  /** The `CameraSample` handed to the camera: film point, lens point, time. */
  datatype CameraSample = CameraSample(filmX: real, filmY: real, lensU: real, lensV: real, time: real)

  function Sample(x: int, y: int, j: Jitter): CameraSample
  {
    CameraSample(x as real + j.filmX, y as real + j.filmY, j.lensU, j.lensV, 0.0)
  }

  /** Jitter drawn in [0, 1], as `rand() / (float)RAND_MAX` is, puts the film
      point inside pixel `(x, y)`'s square and the lens point in the unit square. */
  lemma SampleInPixel(x: int, y: int, j: Jitter)
    requires 0.0 <= j.filmX <= 1.0 && 0.0 <= j.filmY <= 1.0
    requires 0.0 <= j.lensU <= 1.0 && 0.0 <= j.lensV <= 1.0
    ensures var s := Sample(x, y, j);
      && x as real <= s.filmX <= x as real + 1.0
      && y as real <= s.filmY <= y as real + 1.0
      && 0.0 <= s.lensU <= 1.0 && 0.0 <= s.lensV <= 1.0
      && s.time == 0.0
  {
  }

  /** Everything one rendering depends on besides the buffer and the image:
      the scene, the camera's ray generation, the draws of every pass `i` and
      pixel `(x, y)`, and the bounce limit. */
  datatype Render = Render(
    world: World,
    camera: CameraSample -> Ray,
    jitter: (int, int, int) -> Jitter,
    bounces: (int, int, int) -> (nat -> Vec3),
    maxDepth: int)

  /** The estimate `TracePath(r, 0)` of pass `i` for pixel `(x, y)`. */
  function PixelEstimate(rc: Render, i: int, x: int, y: int): MaybeNaN
  {
    var ray := rc.camera(Sample(x, y, rc.jitter(i, x, y)));
    TracePath(rc.world, rc.bounces(i, x, y), ray, 0, rc.maxDepth)
  }

  /** The estimates of the first `n` passes for one pixel. */
  function Estimates(rc: Render, x: int, y: int, n: int): seq<MaybeNaN>
  {
    if n <= 0 then [] else seq(n, j => PixelEstimate(rc, j, x, y))
  }

  /** `(old * float(i) + color) / float(i + 1)` for the buffer value `old`, here `previous`; NaN in either operand spreads. */
  function MeanStep(previous: MaybeNaN, i: nat, color: MaybeNaN): MaybeNaN
  {
    match (previous, color)
    case (Num(o), Num(c)) => Num(DivBy(Add(Scale(i as real, o), c), (i + 1) as real))
    case _ => NaN
  }

  /** The buffer value after folding `MeanStep` over the estimates, starting from `init`. */
  function RunningMean(init: MaybeNaN, cs: seq<MaybeNaN>): MaybeNaN
  {
    if |cs| == 0 then init
    else MeanStep(RunningMean(init, cs[..|cs| - 1]), |cs| - 1, cs[|cs| - 1])
  }

  /** The sum of the estimates, NaN when any of them is. */
  function Sum(cs: seq<MaybeNaN>): MaybeNaN
  {
    if |cs| == 0 then Num(Zero)
    else match (Sum(cs[..|cs| - 1]), cs[|cs| - 1])
      case (Num(a), Num(b)) => Num(Add(a, b))
      case _ => NaN
  }

  /** The arithmetic mean of the estimates. */
  function SampleMean(cs: seq<MaybeNaN>): MaybeNaN
    requires |cs| > 0
  {
    match Sum(cs)
    case NaN => NaN
    case Num(s) => Num(DivBy(s, |cs| as real))
  }

  lemma MeanStepScalar(m: real, a: real, c: real)
    requires m > 0.0
    ensures (m * (a / m) + c) / (m + 1.0) == (a + c) / (m + 1.0)
  {
  }

  /** One more step of the running mean turns the mean of `n` estimates into the
      mean of `n + 1`. */
  lemma MeanStepExtends(s: Vec3, n: nat, c: Vec3)
    requires n > 0
    ensures MeanStep(Num(DivBy(s, n as real)), n, Num(c)) == Num(DivBy(Add(s, c), (n + 1) as real))
  {
    var m := n as real;
    MeanStepScalar(m, s.x, c.x);
    MeanStepScalar(m, s.y, c.y);
    MeanStepScalar(m, s.z, c.z);
  }

  /** Starting from any number, the running mean of `n >= 1` estimates is their
      arithmetic mean (the first step multiplies the start value by zero). */
  lemma {:induction false} RunningMeanIsSampleMean(init: MaybeNaN, cs: seq<MaybeNaN>)
    requires init.Num? && |cs| > 0
    ensures RunningMean(init, cs) == SampleMean(cs)
  {
    var n := |cs| - 1;
    var front := cs[..n];
    if n == 0 {
      assert front == [];
      assert Sum(cs) == match cs[0] case NaN => NaN case Num(c) => Num(Add(Zero, c));
      match cs[0]
      case NaN =>
      case Num(c) =>
        assert DivBy(Add(Scale(0.0, init.v), c), 1.0) == c;
        assert DivBy(Add(Zero, c), 1.0) == c;
    } else {
      RunningMeanIsSampleMean(init, front);
      match (Sum(front), cs[n])
      case (Num(s), Num(c)) =>
        MeanStepExtends(s, n, c);
      case _ =>
    }
  }

  /** The first `n + 1` estimates are the first `n` and then estimate `n`. */
  lemma EstimatesStep(rc: Render, x: int, y: int, n: nat)
    ensures Estimates(rc, x, y, n + 1)[..n] == Estimates(rc, x, y, n)
    ensures Estimates(rc, x, y, n + 1)[n] == PixelEstimate(rc, n, x, y)
  {
    assert Estimates(rc, x, y, n + 1)[..n] == Estimates(rc, x, y, n);
  }

  /** After pass `i`, pixel `(x, y)` holds the running mean over passes `0 .. i`. */
  lemma RunningMeanStep(rc: Render, init: MaybeNaN, x: int, y: int, i: nat)
    ensures RunningMean(init, Estimates(rc, x, y, i + 1))
      == MeanStep(RunningMean(init, Estimates(rc, x, y, i)), i, PixelEstimate(rc, i, x, y))
  {
    EstimatesStep(rc, x, y, i);
  }

  /** What the image shows for a buffer value: `clamp(255 * value, 0, 255)`
      converted to bytes. For a NaN value the clamp yields NaN, whose conversion
      to a byte is undefined. */
  function Display(value: MaybeNaN): (p: Pixel)
    ensures value.Num? ==> p.Rgb? && 0 <= p.r <= 255 && 0 <= p.g <= 255 && 0 <= p.b <= 255
  {
    match value
    case NaN => Unspecified
    case Num(v) =>
      SetPixelClamped(Scale(255.0, v));
      SetPixel(Num(ClampVec(Scale(255.0, v), 0.0, 255.0)))
  }

  /** One row `y` of pass `i`: every pixel of the row, left to right, gets the
      next running-mean value in the buffer and its displayed value in the image. */
  method DrawRow(rc: Render, i: nat, y: int, buffer: array2<MaybeNaN>, image: array2<Pixel>)
    requires buffer.Length0 == Width && buffer.Length1 == Height
    requires image.Length0 == Width && image.Length1 == Height
    requires 0 <= y < Height
    modifies buffer, image
    ensures forall x', y' :: 0 <= x' < Width && 0 <= y' < Height ==>
      buffer[x', y'] == if y' == y then MeanStep(old(buffer[x', y']), i, PixelEstimate(rc, i, x', y'))
                        else old(buffer[x', y'])
    ensures forall x', y' :: 0 <= x' < Width && 0 <= y' < Height ==>
      image[x', y'] == if y' == y then Display(buffer[x', y']) else old(image[x', y'])
  {
    var x := 0;
    while x < Width
      invariant 0 <= x <= Width
      invariant forall x', y' :: 0 <= x' < Width && 0 <= y' < Height ==>
        buffer[x', y'] == if y' == y && x' < x then MeanStep(old(buffer[x', y']), i, PixelEstimate(rc, i, x', y'))
                          else old(buffer[x', y'])
      invariant forall x', y' :: 0 <= x' < Width && 0 <= y' < Height ==>
        image[x', y'] == if y' == y && x' < x then Display(buffer[x', y']) else old(image[x', y'])
    {
      var color := PixelEstimate(rc, i, x, y);
      buffer[x, y] := MeanStep(buffer[x, y], i, color);
      image[x, y] := Display(buffer[x, y]);
      x := x + 1;
    }
  }

  /** Pass `i`: the rows top to bottom, so that every pixel is updated exactly once. */
  method DrawPass(rc: Render, i: nat, buffer: array2<MaybeNaN>, image: array2<Pixel>)
    requires buffer.Length0 == Width && buffer.Length1 == Height
    requires image.Length0 == Width && image.Length1 == Height
    modifies buffer, image
    ensures forall x, y :: 0 <= x < Width && 0 <= y < Height ==>
      buffer[x, y] == MeanStep(old(buffer[x, y]), i, PixelEstimate(rc, i, x, y))
    ensures forall x, y :: 0 <= x < Width && 0 <= y < Height ==>
      image[x, y] == Display(buffer[x, y])
  {
    var y := 0;
    while y < Height
      invariant 0 <= y <= Height
      invariant forall x', y' :: 0 <= x' < Width && 0 <= y' < Height ==>
        buffer[x', y'] == if y' < y then MeanStep(old(buffer[x', y']), i, PixelEstimate(rc, i, x', y'))
                          else old(buffer[x', y'])
      invariant forall x', y' :: 0 <= x' < Width && 0 <= y' < Height ==>
        image[x', y'] == if y' < y then Display(buffer[x', y']) else old(image[x', y'])
    {
      DrawRow(rc, i, y, buffer, image);
      y := y + 1;
    }
  }

  /** `Draw`: `numSamples` passes over the pixels. After pass `i` every pixel of
      the buffer holds the running mean of its `i + 1` estimates, and the image
      shows the clamped value; the buffer itself is never clamped. */
  method Draw(rc: Render, numSamples: int, buffer: array2<MaybeNaN>, image: array2<Pixel>)
    requires buffer.Length0 == Width && buffer.Length1 == Height
    requires image.Length0 == Width && image.Length1 == Height
    modifies buffer, image
    ensures forall x, y :: 0 <= x < Width && 0 <= y < Height ==>
      buffer[x, y] == RunningMean(old(buffer[x, y]), Estimates(rc, x, y, numSamples))
    ensures forall x, y :: 0 <= x < Width && 0 <= y < Height ==>
      image[x, y] == if numSamples > 0 then Display(buffer[x, y]) else old(image[x, y])
  {
    var i := 0;
    while i < numSamples
      invariant 0 <= i <= if numSamples < 0 then 0 else numSamples
      invariant forall x, y :: 0 <= x < Width && 0 <= y < Height ==>
        buffer[x, y] == RunningMean(old(buffer[x, y]), Estimates(rc, x, y, i))
      invariant forall x, y :: 0 <= x < Width && 0 <= y < Height ==>
        image[x, y] == if i > 0 then Display(buffer[x, y]) else old(image[x, y])
    {
      label PassStart:
      DrawPass(rc, i, buffer, image);
      forall x, y | 0 <= x < Width && 0 <= y < Height
        ensures buffer[x, y] == RunningMean(old(buffer[x, y]), Estimates(rc, x, y, i + 1))
      {
        assert old@PassStart(buffer[x, y]) == RunningMean(old(buffer[x, y]), Estimates(rc, x, y, i));
        assert buffer[x, y] == MeanStep(old@PassStart(buffer[x, y]), i, PixelEstimate(rc, i, x, y));
        RunningMeanStep(rc, old(buffer[x, y]), x, y, i);
      }
      i := i + 1;
    }
    assert forall x, y :: Estimates(rc, x, y, numSamples) == Estimates(rc, x, y, i);
  }

  /** With a bounce limit of zero or less every estimate is black, so a
      rendering that starts from the zero buffer leaves it zero and the image
      black. */
  lemma MaxDepthZeroBlack(rc: Render, x: int, y: int, n: int)
    requires rc.maxDepth <= 0
    ensures RunningMean(Num(Zero), Estimates(rc, x, y, n)) == Num(Zero)
    ensures Display(Num(Zero)) == Rgb(0, 0, 0)
  {
    var cs := Estimates(rc, x, y, n);
    if |cs| > 0 {
      RunningMeanIsSampleMean(Num(Zero), cs);
      SumOfZeros(cs);
    }
    DisplayZero();
  }

  lemma DisplayZero()
    ensures Display(Num(Zero)) == Rgb(0, 0, 0)
  {
    ScaleOfZero(255.0);
    assert ClampVec(Zero, 0.0, 255.0) == Zero;
    SetPixelBlack();
  }

  /** The sum and the mean of black estimates are black. */
  lemma {:induction false} SumOfZeros(cs: seq<MaybeNaN>)
    requires forall j :: 0 <= j < |cs| ==> cs[j] == Num(Zero)
    ensures Sum(cs) == Num(Zero)
    ensures |cs| > 0 ==> SampleMean(cs) == Num(Zero)
  {
    if |cs| > 0 {
      SumOfZeros(cs[..|cs| - 1]);
    }
  }
}
