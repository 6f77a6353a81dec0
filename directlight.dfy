/** The direct-lighting renderer: one primary ray per pixel through a pinhole
    camera rotated by `R`, and at the first hit the light of a single point
    source with inverse-square falloff, a clamped cosine and a shadow ray, plus
    a constant ambient term. The rotation `R` is an input: this renderer never
    assigns it (its `Update` is declared and never defined). */
module DirectLighting {
  import opened Vectors
  import opened Sampling
  import opened Scene
  import opened Image

  const Width: int := 300
  const Height: int := 300
  const FocalLength: real := 300.0

  const CameraPos: Vec3 := Vec3(0.0, 0.0, -3.0)
  const LightPos: Vec3 := Vec3(0.0, -0.5, -0.7)
  /** `14 * (1, 1, 1)` */
  const LightColor: Vec3 := Vec3(14.0, 14.0, 14.0)
  /** `0.5 * (1, 1, 1)` */
  const IndirectLight: Vec3 := Vec3(0.5, 0.5, 0.5)

  /** The offset along the shading normal that keeps the shadow ray off its own surface. */
  const ShadowBias: real := 0.0001

  /** The shading normal: the projection of `cameraPos - position` onto the
      face normal, normalised. */
  function ShadingNormal(world: World, inter: Intersection): MaybeNaN
    requires 0 <= inter.triangleIndex < |world.triangles|
  {
    var sourceToLight := Sub(CameraPos, inter.position);
    NormalizedProjection(sourceToLight, world.triangles[inter.triangleIndex].normal, world.norm)
  }

  /** The shading normal is defined exactly when the face normal is non-zero
      and not orthogonal to the view vector; it is then a unit vector parallel
      to the face normal, on the camera's side. */
  lemma ShadingNormalFacesCamera(world: World, inter: Intersection)
    requires IsNorm(world.norm) && 0 <= inter.triangleIndex < |world.triangles|
    ensures var n := world.triangles[inter.triangleIndex].normal;
      var s := Sub(CameraPos, inter.position);
      ShadingNormal(world, inter).Num? <==> n != Zero && Dot(s, n) != 0.0
    ensures ShadingNormal(world, inter).Num? ==>
      var n := world.triangles[inter.triangleIndex].normal;
      var s := Sub(CameraPos, inter.position);
      var normal := ShadingNormal(world, inter).v;
      && Dot(normal, normal) == 1.0
      && Cross(normal, n) == Zero
      && Dot(normal, s) > 0.0
  {
    var n := world.triangles[inter.triangleIndex].normal;
    var s := Sub(CameraPos, inter.position);
    NormalizedProjectionDefined(s, n, world.norm);
    if n != Zero && Dot(s, n) != 0.0 {
      NormalizedProjectionOnSide(s, n, world.norm);
    }
  }

  /** The start of the shadow ray. */
  function ShadowOrigin(position: Vec3, normal: Vec3): Vec3
  {
    Add(position, Scale(ShadowBias, normal))
  }

  /** The shadow query hits something no farther from the point than the light
      is. The ray starts just off the surface and is aimed at the light. */
  predicate Occluded(world: World, position: Vec3, normal: Vec3)
  {
    var toLight := Sub(LightPos, position);
    match Closest(world, ShadowOrigin(position, normal), toLight)
    case None => false
    case Some(blocker) => world.norm(Sub(blocker.position, position)) <= world.norm(toLight)
  }

  /** An occluded point has an accepted triangle on the shadow ray whose hit
      point lies within the light's distance of the point. */
  lemma OccludedByBlocker(world: World, position: Vec3, normal: Vec3)
    requires IsNorm(world.norm) && Occluded(world, position, normal)
    ensures var toLight := Sub(LightPos, position);
      var start := ShadowOrigin(position, normal);
      var blocker := Closest(world, start, toLight).value;
      var nd := Normalize(toLight, world.norm).v;
      var k := blocker.triangleIndex;
      && toLight != Zero
      && 0 <= k < |world.triangles|
      && Accepted(Solved(world, start, nd, k))
      && blocker.position == Add(start, Scale(Solved(world, start, nd, k).t, nd))
      && world.norm(Sub(blocker.position, position)) <= world.norm(toLight)
  {
    ClosestNearest(world, ShadowOrigin(position, normal), Sub(LightPos, position));
  }

  /** `DirectLight(i)`: NaN when the point is the light's position (its
      irradiance `lightColor / 0` is infinite and is multiplied by a zero
      cosine); black when the shading normal is undefined (every comparison
      with NaN fails, so the shadow query misses and the cosine is clamped to
      zero) or the point is in shadow; otherwise
      `color * lightColor / (4 PI r^2) * max(0, dot(radius, normal))`. */
  function DirectLight(world: World, inter: Intersection): (c: MaybeNaN)
    requires 0 <= inter.triangleIndex < |world.triangles|
  {
    var triangle := world.triangles[inter.triangleIndex];
    var toLight := Sub(LightPos, inter.position);
    var len := world.norm(toLight);
    match Normalize(toLight, world.norm)
    case NaN => NaN
    case Num(radius) =>
      SquareNonNegative(len);
      var r2 := Sq(len);
      var light := Irradiance(r2);
      match ShadingNormal(world, inter)
      case NaN => Num(Zero)
      case Num(normal) =>
        if Occluded(world, inter.position, normal) then Num(Zero)
        else
          Num(Scale(ClampedCosine(Dot(radius, normal)), Mul(triangle.color, light)))
  }

  /** The irradiance the light delivers at distance `sqrt(r2)`. */
  function Irradiance(r2: real): Vec3
    requires r2 != 0.0
  {
    DivBy(LightColor, 4.0 * Pi * r2)
  }

  /** A point in shadow, or without a shading normal, receives no direct light. */
  lemma DirectLightShadowed(world: World, inter: Intersection)
    requires IsNorm(world.norm) && 0 <= inter.triangleIndex < |world.triangles|
    requires inter.position != LightPos
    requires ShadingNormal(world, inter).NaN? ||
      Occluded(world, inter.position, ShadingNormal(world, inter).v)
    ensures DirectLight(world, inter) == Num(Zero)
  {
    SubZero(LightPos, inter.position);
    NormalizeDefined(world.norm, Sub(LightPos, inter.position));
  }

  /** The result is NaN exactly at the light's own position. */
  lemma DirectLightNaN(world: World, inter: Intersection)
    requires IsNorm(world.norm) && 0 <= inter.triangleIndex < |world.triangles|
    ensures DirectLight(world, inter).NaN? <==> inter.position == LightPos
  {
    SubZero(LightPos, inter.position);
    NormalizeDefined(world.norm, Sub(LightPos, inter.position));
  }

  /** The irradiance of a light with non-negative colour is non-negative. */
  lemma IrradianceNonNegative(r2: real)
    requires r2 > 0.0
    ensures NonNegative(Irradiance(r2))
  {
    ProdPositive(4.0 * Pi, r2);
  }

  /** The clamped cosine `max(0, c)`. */
  function ClampedCosine(c: real): (k: real)
    ensures k >= 0.0 && k >= c && (k == c || k == 0.0)
  {
    if c > 0.0 then c else 0.0
  }

  /** The lit case without any assumption on the length function. */
  lemma DirectLightLitValue(world: World, inter: Intersection)
    requires 0 <= inter.triangleIndex < |world.triangles|
    requires Normalize(Sub(LightPos, inter.position), world.norm).Num?
    requires ShadingNormal(world, inter).Num?
    requires !Occluded(world, inter.position, ShadingNormal(world, inter).v)
    ensures var len := world.norm(Sub(LightPos, inter.position));
      var radius := Normalize(Sub(LightPos, inter.position), world.norm).v;
      && Sq(len) != 0.0
      && DirectLight(world, inter) == Num(Scale(ClampedCosine(Dot(radius, ShadingNormal(world, inter).v)),
           Mul(world.triangles[inter.triangleIndex].color, Irradiance(Sq(len)))))
  {
    SquareNonNegative(world.norm(Sub(LightPos, inter.position)));
  }

  /** A lit point receives `color * lightColor / (4 PI r^2)` scaled by the
      clamped cosine between the unit direction to the light and the shading
      normal, where `r` is the distance to the light. */
  lemma DirectLightLit(world: World, inter: Intersection)
    requires IsNorm(world.norm) && 0 <= inter.triangleIndex < |world.triangles|
    requires inter.position != LightPos && ShadingNormal(world, inter).Num?
    requires !Occluded(world, inter.position, ShadingNormal(world, inter).v)
    ensures var toLight := Sub(LightPos, inter.position);
      && Dot(toLight, toLight) > 0.0
      && Normalize(toLight, world.norm).Num?
      && var radius := Normalize(toLight, world.norm).v;
         && Dot(radius, radius) == 1.0
         && DirectLight(world, inter) == Num(Scale(ClampedCosine(Dot(radius, ShadingNormal(world, inter).v)),
              Mul(world.triangles[inter.triangleIndex].color, Irradiance(Dot(toLight, toLight)))))
  {
    var toLight := Sub(LightPos, inter.position);
    SubZero(LightPos, inter.position);
    NormalizeDefined(world.norm, toLight);
    NormalizeUnit(world.norm, toLight);
    DotSelfNonNegative(toLight);
    assert Sq(world.norm(toLight)) == Dot(toLight, toLight);
    DirectLightLitValue(world, inter);
  }

  lemma ShadedBelow(k: real, color: Vec3, light: Vec3)
    requires 0.0 <= k <= 1.0 && NonNegative(color) && NonNegative(light)
    ensures NonNegative(Scale(k, Mul(color, light))) && Below(Scale(k, Mul(color, light)), Mul(color, light))
  {
    var m := Mul(color, light);
    ProdNonNegative(color.x, light.x);
    ProdNonNegative(color.y, light.y);
    ProdNonNegative(color.z, light.z);
    assert m == Vec3(Prod(color.x, light.x), Prod(color.y, light.y), Prod(color.z, light.z));
    ScaleBelow(k, m);
  }

  /** `color * irradiance * max(0, cos)` for a non-negative colour lies between
      zero and `color * irradiance` in every channel, the cosine of two unit
      vectors being at most one. */
  lemma DirectLightBounded(world: World, inter: Intersection)
    requires IsNorm(world.norm) && 0 <= inter.triangleIndex < |world.triangles|
    requires inter.position != LightPos && ShadingNormal(world, inter).Num?
    requires !Occluded(world, inter.position, ShadingNormal(world, inter).v)
    requires NonNegative(world.triangles[inter.triangleIndex].color)
    ensures var toLight := Sub(LightPos, inter.position);
      && Dot(toLight, toLight) > 0.0
      && DirectLight(world, inter).Num?
      && NonNegative(DirectLight(world, inter).v)
      && Below(DirectLight(world, inter).v,
           Mul(world.triangles[inter.triangleIndex].color, Irradiance(Dot(toLight, toLight))))
  {
    var toLight := Sub(LightPos, inter.position);
    DirectLightLit(world, inter);
    var color := world.triangles[inter.triangleIndex].color;
    var radius := Normalize(toLight, world.norm).v;
    var normal := ShadingNormal(world, inter).v;
    ShadingNormalFacesCamera(world, inter);
    UnitDotAtMostOne(radius, normal);
    var k := ClampedCosine(Dot(radius, normal));
    var light := Irradiance(Dot(toLight, toLight));
    IrradianceNonNegative(Dot(toLight, toLight));
    ShadedBelow(k, color, light);
  }

  /** The point `(x - W/2, y - H/2, f)` of pixel `(x, y)` in camera space. */
  function FilmPoint(x: int, y: int): Vec3
  {
    Vec3(x as real - Width as real / 2.0, y as real - Height as real / 2.0, FocalLength)
  }

  /** The primary ray direction for pixel `(x, y)`: `R (x - W/2, y - H/2, f)`. */
  function PrimaryDirection(r: Mat3, x: int, y: int): Vec3
  {
    Apply(r, FilmPoint(x, y))
  }

  /** With the identity for `R` (what the default-constructed global holds)
      every pixel's ray points at its film point, which is never zero, so the
      ray's normalisation is always defined. */
  lemma IdentityRotationFilmPoint(world: World, x: int, y: int)
    requires IsNorm(world.norm)
    ensures PrimaryDirection(Identity, x, y) == FilmPoint(x, y)
    ensures Normalize(PrimaryDirection(Identity, x, y), world.norm).Num?
  {
    ApplyIdentity(FilmPoint(x, y));
    NormalizeDefined(world.norm, FilmPoint(x, y));
  }

  /** The centre pixel looks along the forward column `R[2]`, scaled by the focal length. */
  lemma CentrePixelLooksForward(r: Mat3)
    ensures PrimaryDirection(r, Width / 2, Height / 2) == Scale(FocalLength, r.c2)
  {
    assert FilmPoint(Width / 2, Height / 2) == Vec3(0.0, 0.0, FocalLength);
    ApplyForward(r, FocalLength);
  }

  /** The colour of a hit pixel: `clamp(255 DirectLight + color * indirectLight, 0, 255)`. */
  function HitPixel(world: World, inter: Intersection): Pixel
    requires 0 <= inter.triangleIndex < |world.triangles|
  {
    match DirectLight(world, inter)
    case NaN => Unspecified
    case Num(direct) =>
      var ambient := Mul(world.triangles[inter.triangleIndex].color, IndirectLight);
      SetPixel(Num(ClampVec(Add(Scale(255.0, direct), ambient), 0.0, 255.0)))
  }

  /** What `Draw` writes at `(x, y)`: the hit colour, or black on a miss. */
  function PixelColor(world: World, r: Mat3, x: int, y: int): Pixel
  {
    match Closest(world, CameraPos, PrimaryDirection(r, x, y))
    case None => SetPixel(Num(Zero))
    case Some(inter) => HitPixel(world, inter)
  }

  /** A miss is black; a hit away from the light gives bytes in [0, 255] that
      are the whole parts of the clamped channels; a shadowed hit shows only the
      ambient term. */
  lemma PixelColorRule(world: World, r: Mat3, x: int, y: int)
    requires IsNorm(world.norm)
    ensures Closest(world, CameraPos, PrimaryDirection(r, x, y)).None? ==>
      PixelColor(world, r, x, y) == Rgb(0, 0, 0)
    ensures Closest(world, CameraPos, PrimaryDirection(r, x, y)).Some? ==>
      var inter := Closest(world, CameraPos, PrimaryDirection(r, x, y)).value;
      var ambient := Mul(world.triangles[inter.triangleIndex].color, IndirectLight);
      && (PixelColor(world, r, x, y).Rgb? <==> inter.position != LightPos)
      && (inter.position != LightPos ==>
            var total := Add(Scale(255.0, DirectLight(world, inter).v), ambient);
            var p := PixelColor(world, r, x, y);
            && p.r == Clamp(total.x, 0.0, 255.0).Floor
            && p.g == Clamp(total.y, 0.0, 255.0).Floor
            && p.b == Clamp(total.z, 0.0, 255.0).Floor
            && 0 <= p.r <= 255 && 0 <= p.g <= 255 && 0 <= p.b <= 255)
      && (ShadingNormal(world, inter).NaN? || Occluded(world, inter.position, ShadingNormal(world, inter).v) ==>
            inter.position != LightPos ==>
            PixelColor(world, r, x, y) == SetPixel(Num(ClampVec(ambient, 0.0, 255.0))))
  {
    SetPixelClamped(Zero);
    match Closest(world, CameraPos, PrimaryDirection(r, x, y))
    case None =>
    case Some(inter) =>
      DirectLightNaN(world, inter);
      if inter.position != LightPos {
        var ambient := Mul(world.triangles[inter.triangleIndex].color, IndirectLight);
        SetPixelClamped(Add(Scale(255.0, DirectLight(world, inter).v), ambient));
        if ShadingNormal(world, inter).NaN? || Occluded(world, inter.position, ShadingNormal(world, inter).v) {
          DirectLightShadowed(world, inter);
          assert Add(Scale(255.0, Zero), ambient) == ambient;
        }
      }
  }

  /** With an all-zero `R` every primary direction is zero, its normalisation
      is NaN, and every pixel is black. */
  lemma ZeroRotationBlack(world: World, x: int, y: int)
    requires IsNorm(world.norm)
    ensures PixelColor(world, ZeroMatrix, x, y) == Rgb(0, 0, 0)
  {
    ApplyZeroMatrix(FilmPoint(x, y));
    ClosestMiss(world, CameraPos, Zero);
    PixelColorRule(world, ZeroMatrix, x, y);
  }

  /** The body of `Draw`'s inner loop: cast the primary ray and colour the hit. */
  method ShadePixel(world: World, r: Mat3, x: int, y: int) returns (p: Pixel)
    ensures p == PixelColor(world, r, x, y)
  {
    var dir := PrimaryDirection(r, x, y);
    // The source's `inter` starts uninitialised; on a miss it is not read.
    var found, inter := ClosestIntersection(CameraPos, dir, world, Intersection(Zero, 0.0, 0));
    if found {
      p := HitPixel(world, inter);
    } else {
      p := SetPixel(Num(Zero));
    }
  }

  /** One row of `Draw`: pixels `0 .. W-1` of row `y` get `PixelColor`, other
      rows are left as they were. */
  method DrawRow(world: World, r: Mat3, y: int, image: array2<Pixel>)
    requires image.Length0 == Width && image.Length1 == Height && 0 <= y < Height
    modifies image
    ensures forall x :: 0 <= x < Width ==> image[x, y] == PixelColor(world, r, x, y)
    ensures forall x', y' :: 0 <= x' < Width && 0 <= y' < Height && y' != y ==>
      image[x', y'] == old(image[x', y'])
  {
    var x := 0;
    while x < Width
      invariant 0 <= x <= Width
      invariant forall x' :: 0 <= x' < x ==> image[x', y] == PixelColor(world, r, x', y)
      invariant forall x', y' :: 0 <= x' < Width && 0 <= y' < Height && y' != y ==>
        image[x', y'] == old(image[x', y'])
    {
      var p := ShadePixel(world, r, x, y);
      image[x, y] := p;
      x := x + 1;
    }
  }

  /** `Draw`: every pixel, row by row, gets `PixelColor`. */
  method Draw(world: World, r: Mat3, image: array2<Pixel>)
    requires image.Length0 == Width && image.Length1 == Height
    modifies image
    ensures forall x, y :: 0 <= x < Width && 0 <= y < Height ==> image[x, y] == PixelColor(world, r, x, y)
  {
    var y := 0;
    while y < Height
      invariant 0 <= y <= Height
      invariant forall x', y' :: 0 <= x' < Width && 0 <= y' < y ==> image[x', y'] == PixelColor(world, r, x', y')
    {
      DrawRow(world, r, y, image);
      y := y + 1;
    }
  }
}
