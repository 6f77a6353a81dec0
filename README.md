# thinlens path tracer — a Dafny model of its rendering core

The repository has two small renderers that share one scene format, a list of coloured, emitting triangles.

- **`code/src/pathtracer.cpp`** is a Monte-Carlo path tracer. For every pass it takes, for every pixel, a jittered camera sample, traces one path with `TracePath`, and folds the estimate into a per-pixel running mean `buffer[x][y]`. It then writes `clamp(255 * buffer, 0, 255)` to the bitmap.
- **`src/main.cpp`** is a direct-lighting renderer. It casts one primary ray per pixel through a pinhole camera rotated by `R`, and shades the first hit with `DirectLight`. That is a point light with inverse-square falloff, a clamped cosine against a shading normal obtained by projection, and a shadow ray. A constant ambient term is added.

Both renderers find hits with the same `ClosestIntersection`: a linear scan. It starts from the sentinel distance `FLT_MAX`, normalises the direction, and solves each triangle's 3x3 system for `(t, u, v)`. It keeps the strictly nearest triangle that passes the acceptance test. Of the sampling helpers of `utility.h`, the hemisphere sample (through the projection `projectAOntoB`) and its density feed `TracePath`. The uniform sphere sample and its density are modelled too, but nothing in the core calls them.

The model is over the reals and is split into six modules.

- **`Vectors`** (`vectors.dfy`) covers the part of glm the core uses.
  - Vectors, column-major `mat3`, and `clamp`.
  - `normalize`. Its square root is a length function `norm` that obeys `IsNorm` (`norm(v) >= 0` and `norm(v)^2 == dot(v, v)`).
  - NaN, as `MaybeNaN`. glm normalises as `v * inversesqrt(dot(v, v))`, so normalising the zero vector multiplies zero by infinity, and the result is NaN. NaN spreads through arithmetic, and every comparison with it is false.
- **`Image`** (`image.dfy`) covers `set_pixel`, whose float-to-`unsigned char` conversion truncates.
- **`Sampling`** (`sampling.dfy`) covers `utility.h`.
- **`Scene`** (`scene.dfy`) covers the triangles, the `Intersection` record, and `ClosestIntersection`.
  - The scan is a method with a loop, proved against the function `Closest`.
  - The value `glm::inverse(A) * b` is a function `solve` that each world carries.
- **`PathTracer`** (`pathtracer.dfy`) covers `TracePath` and the running-mean `Draw`.
  - `Draw` works in place on two `array2`s, the float buffer and the image.
  - It has one method per loop level.
- **`DirectLighting`** (`directlight.dfy`) covers `DirectLight`, the pixel rule and the `Draw` of `src/main.cpp`.

The random draws are inputs:
- for each pass and pixel, four jitter values and, for each bounce, the sphere direction of the hemisphere sample;
- the camera's `GenerateRay` is a function parameter of the rendering.

## Model

| member | source | states |
|---|---|---|
| Vectors.Normalize | code/src/pathtracer.cpp:210 | `glm::normalize`: `v` scaled by one over its length, NaN for a zero length; its contract is stated by `NormalizeDefined` and `NormalizeUnit` |
| Vectors.Clamp | code/src/pathtracer.cpp:194 | glm's `clamp` as `min(max(v, lo), hi)`; its contract is stated by `ClampWithin` |
| Vectors.NormalizeDefined | code/src/pathtracer.cpp:210 | normalising gives a number exactly when the vector is non-zero, and a non-zero vector has positive length |
| Vectors.NormalizeUnit | code/src/pathtracer.cpp:210 | a non-zero vector normalises to `v / length(v)`, which has length one |
| Vectors.ClampWithin | code/src/pathtracer.cpp:194 | `clamp(v, lo, hi)` lies in `[lo, hi]`, is `v` inside the interval, `lo` below it and `hi` above it |
| Image.Channel | code/src/pathtracer.cpp:197 | a float channel in `(-1, 256)` becomes a byte by truncation toward zero: its whole part when non-negative, zero between -1 and 0 |
| Image.SetPixel | code/src/pathtracer.cpp:197 | the pixel gets defined bytes exactly when the colour is a number and each channel fits a byte |
| Image.SetPixelClamped | code/src/pathtracer.cpp:194-197 | a colour clamped to `[0, 255]` always gives defined bytes, each the whole part of its clamped channel |
| Image.SetPixelBlack | src/main.cpp:100-111 | the colour `(0, 0, 0)` is written as the bytes `(0, 0, 0)` |
| Sampling.Project | code/include/int/thinlens/auxiliaries/utility.h:35-38 | the projection is undefined (NaN) exactly when `dot(b, b) == 0` |
| Sampling.ProjectIsMultiple | code/include/int/thinlens/auxiliaries/utility.h:36 | for `b != 0` the projection is `(a.b / b.b) b` |
| Sampling.ProjectOrthogonal | code/include/int/thinlens/auxiliaries/utility.h:35-38 | the projection has the same dot product with `b` as `a`, so `a - proj` is orthogonal to `b` |
| Sampling.ProjectIdempotent | code/include/int/thinlens/auxiliaries/utility.h:35-38 | projecting the projection onto `b` again returns it unchanged |
| Sampling.ProjectParallel | code/include/int/thinlens/auxiliaries/utility.h:36 | the projection is parallel to `b` (zero cross product) |
| Sampling.ProjectSide | code/include/int/thinlens/auxiliaries/utility.h:36 | the projection is zero exactly when `a` is orthogonal to `b`, and otherwise has a positive dot product with `a` |
| Sampling.SphereSample | code/include/int/thinlens/auxiliaries/utility.h:43-55 | `r * normalize(dir)` for the drawn sphere direction `dir`; its contract is stated by `SphereSampleRadius` |
| Sampling.SphereSampleRadius | code/include/int/thinlens/auxiliaries/utility.h:50-52 | `r * normalize(dir)` is NaN exactly for `dir == 0` and otherwise has length `abs(r)` |
| Sampling.SphereSamplePdf | code/include/int/thinlens/auxiliaries/utility.h:60-62 | `1 / (r r 4 PI)`; its contract is stated by `PdfNormalised` |
| Sampling.HemisphereSamplePdf | code/include/int/thinlens/auxiliaries/utility.h:84-86 | `1 / (r r 2 PI)`; its contract is stated by `PdfNormalised` |
| Sampling.PdfNormalised | code/include/int/thinlens/auxiliaries/utility.h:60-86 | for `r != 0` both densities are positive, `pdf * 4 PI r^2 == 1` for the sphere, `pdf * 2 PI r^2 == 1` for the hemisphere, and the hemisphere density is twice the sphere density |
| Sampling.HemisphereSample | code/include/int/thinlens/auxiliaries/utility.h:67-79 | `normalize(projectAOntoB(axis, dir))` for the drawn sphere direction `dir`, without the unread radius; its contract is stated by `NormalizedProjectionDefined` and `NormalizedProjectionOnSide` |
| Sampling.NormalizedProjectionDefined | code/include/int/thinlens/auxiliaries/utility.h:76 | `normalize(projectAOntoB(a, b))` is a number exactly when `b != 0` and `dot(a, b) != 0` |
| Sampling.NormalizedProjectionOnSide | code/include/int/thinlens/auxiliaries/utility.h:67-79 | a defined hemisphere sample is a unit vector parallel to the drawn direction with a strictly positive dot product with the axis |
| Scene.Scan | code/src/pathtracer.cpp:212-233 | the record kept after any prefix of the triangles names a triangle of that prefix at a distance below `FLT_MAX` |
| Scene.Closest | code/src/pathtracer.cpp:209-239 | a reported hit names a triangle in range at a distance below `FLT_MAX` |
| Scene.ClosestIntersection | code/src/pathtracer.cpp:203-240 | the loop returns true exactly when `Closest` finds a hit and then leaves that record in the out-parameter; otherwise the record holds the sentinel distance |
| Scene.ScanNearest | code/src/pathtracer.cpp:225-231 | no record exactly when no triangle is accepted below the sentinel; otherwise the record is accepted, at its own distance and position, no farther than any accepted triangle, and strictly nearer than every accepted triangle with a lower index |
| Scene.HitDistanceIsT | code/src/pathtracer.cpp:227-228 | with a unit direction the recorded `length(t * dir)` is `t` |
| Scene.ClosestMiss | src/main.cpp:123-153 | the query returns false exactly when the direction is zero or no triangle has `t > 0, u >= 0, v >= 0, u <= 1, v <= 1, u + v <= 1` with `t < FLT_MAX` |
| Scene.ClosestNearest | code/src/pathtracer.cpp:209-231 | on success the triangle is in range and accepted, its distance is its `t` and its position is `start + t normalize(dir)`; it is no farther than any accepted triangle, and ties go to the lowest index |
| PathTracer.TracePath | code/src/pathtracer.cpp:242-274 | the recursive estimator, with the source's branches and order of operations, plus NaN short-circuits that give the source's result (a NaN bounce direction or a NaN incoming estimate yields NaN); its contract is stated by `TracePathDepthLimit`, `TracePathMiss`, `TracePathHit`, `TracePathLastBounce`, `TracePathNonNegative` and `TracePathDrawsUsed` |
| PathTracer.TracePathDepthLimit | code/src/pathtracer.cpp:243-245 | at `depth >= maxDepth` the estimate is black |
| PathTracer.TracePathMiss | code/src/pathtracer.cpp:248-250 | below the limit a miss gives `0.7 (1, 1, 1)` |
| PathTracer.BounceTerm | code/src/pathtracer.cpp:263-273 | `(color / PI) incoming cos / (1 / 2 PI)` equals `2 cos (color incoming)` |
| PathTracer.TracePathHit | code/src/pathtracer.cpp:252-273 | at a hit the bounce direction is defined exactly when the draw is non-zero and not orthogonal to the normal; it then has a positive cosine and the estimate is `emittance + 2 cos (color * incoming)`, with the incoming light traced from the hit point itself; an undefined direction makes the estimate NaN |
| PathTracer.TracePathLastBounce | code/src/pathtracer.cpp:270-273 | a hit at the last bounce returns the triangle's emittance |
| PathTracer.TracePathNonNegative | code/src/pathtracer.cpp:242-274 | in a scene without negative emittance or colour every numeric estimate is non-negative |
| PathTracer.TracePathDrawsUsed | code/src/pathtracer.cpp:242-274 | the estimate depends only on the draws of bounces `depth .. maxDepth - 1` |
| PathTracer.MaxDepthZeroBlack | code/src/pathtracer.cpp:243-245 | with `maxDepth <= 0` every running mean from the zero buffer stays zero and displays black |
| PathTracer.SampleInPixel | code/src/pathtracer.cpp:182-185 | with jitter drawn in `[0, 1]` the film point lies in the pixel's square `[x, x + 1] x [y, y + 1]`, the lens point in the unit square, and the time is zero |
| PathTracer.MeanStep | code/src/pathtracer.cpp:193 | the update `(old i + c) / (i + 1)`, NaN when either operand is; its contract is stated by `MeanStepExtends` |
| PathTracer.RunningMean | code/src/pathtracer.cpp:175-193 | the buffer value after folding the update over the estimates of the passes so far; its contract is stated by `RunningMeanIsSampleMean` and `RunningMeanStep` |
| PathTracer.MeanStepExtends | code/src/pathtracer.cpp:193 | one update `(old i + c) / (i + 1)` turns the mean of `i` values into the mean of `i + 1` |
| PathTracer.RunningMeanIsSampleMean | code/src/pathtracer.cpp:175-193 | starting from any number, the buffer after `n >= 1` passes is the arithmetic mean of the `n` estimates (NaN when any estimate is NaN) |
| PathTracer.RunningMeanStep | code/src/pathtracer.cpp:191-193 | the running mean over `i + 1` passes is one update of the running mean over `i` passes |
| PathTracer.Display | code/src/pathtracer.cpp:194-197 | a numeric buffer value always shows as bytes in `[0, 255]` |
| PathTracer.DrawRow | code/src/pathtracer.cpp:180-198 | one row: every pixel of the row gets one running-mean update and its displayed value; no other pixel changes |
| PathTracer.DrawPass | code/src/pathtracer.cpp:179-199 | one pass updates every pixel exactly once and the image shows the updated buffer |
| PathTracer.Draw | code/src/pathtracer.cpp:175-200 | after `numSamples` passes every buffer pixel is the running mean of its estimates, unclamped, and the image shows its clamped value |
| DirectLighting.ShadingNormal | src/main.cpp:183-185 | the normalised projection of `cameraPos - position` onto the face normal; its contract is stated by `ShadingNormalFacesCamera` |
| DirectLighting.Occluded | src/main.cpp:196-198 | the shadow query from `position + 0.0001 normal` towards `lightPos - position` hits something no farther from the point than the light; its contract is stated by `OccludedByBlocker` |
| DirectLighting.DirectLight | src/main.cpp:156-202 | the direct-lighting value, NaN where the source's `inf * 0` arises; its contract is stated by `DirectLightNaN`, `DirectLightShadowed`, `DirectLightLit` and `DirectLightBounded` |
| DirectLighting.ShadingNormalFacesCamera | src/main.cpp:183-185 | the shading normal is defined exactly when the face normal is non-zero and not orthogonal to `cameraPos - position`; it is then a unit vector parallel to the face normal with a positive dot product with `cameraPos - position` |
| DirectLighting.OccludedByBlocker | src/main.cpp:196-198 | an occluded point has an accepted triangle on the ray from `position + 0.0001 normal` towards `lightPos - position`, hit no farther from the point than the light |
| DirectLighting.DirectLightShadowed | src/main.cpp:196-198 | a shadowed point, or one without a shading normal, receives zero |
| DirectLighting.DirectLightNaN | src/main.cpp:160-164 | the result is NaN exactly at the light's own position |
| DirectLighting.IrradianceNonNegative | src/main.cpp:164 | `lightColor / (4 PI r^2)` is non-negative |
| DirectLighting.ClampedCosine | src/main.cpp:200 | `max(0, c)` is non-negative, at least `c`, and is `c` or zero |
| DirectLighting.DirectLightLit | src/main.cpp:156-202 | an unshadowed point away from the light receives `color * lightColor / (4 PI r^2) * max(0, dot(radius, normal))` with `r^2 = dot(lightPos - position, lightPos - position)` and a unit `radius` |
| DirectLighting.DirectLightBounded | src/main.cpp:200 | for a non-negative colour the lit value is non-negative and at most `color * lightColor / (4 PI r^2)` in every channel |
| DirectLighting.PrimaryDirection | src/main.cpp:91-98 | `R (x - W/2, y - H/2, focalLength)`; its contract is stated by `IdentityRotationFilmPoint`, `CentrePixelLooksForward` and `ZeroRotationBlack` |
| DirectLighting.IdentityRotationFilmPoint | src/main.cpp:91-98 | with the identity for `R` every pixel's primary direction is its film point `(x - W/2, y - H/2, focalLength)`, which normalises to a number |
| DirectLighting.CentrePixelLooksForward | src/main.cpp:91-98 | the primary ray of the centre pixel is `focalLength` times the third column of `R` |
| DirectLighting.HitPixel | src/main.cpp:108-109 | the colour written for a hit, `clamp(255 DirectLight + color * indirectLight, 0, 255)` as bytes; its contract is stated by `PixelColorRule` |
| DirectLighting.PixelColor | src/main.cpp:100-111 | what `Draw` writes at a pixel: black on a miss, `HitPixel` on a hit; its contract is stated by `PixelColorRule`, `ZeroRotationBlack` and `ShadePixel` |
| DirectLighting.PixelColorRule | src/main.cpp:100-111 | a miss is black; a hit shows bytes in `[0, 255]` exactly when it is away from the light, each the whole part of `clamp(255 DirectLight + color * indirectLight, 0, 255)`; a shadowed hit shows only the ambient term |
| DirectLighting.ZeroRotationBlack | src/main.cpp:91-111 | with `R` all zero every primary direction is zero and every pixel is black |
| DirectLighting.ShadePixel | src/main.cpp:91-112 | one pixel: the primary ray is cast and the pixel gets `PixelColor` |
| DirectLighting.DrawRow | src/main.cpp:89-113 | one row: every pixel of the row gets `PixelColor`; no other row changes |
| DirectLighting.Draw | src/main.cpp:85-115 | every pixel of the image gets `PixelColor` |

## Left out

- Random numbers (`std::random_device`, `rand()`) are not modelled. The draws are inputs: four jitter values per pass and pixel, and one sphere direction per bounce.
- The trigonometry that turns two uniform numbers into a sphere direction (`sin`, `cos`, `acos`) is not modelled, so the sphere direction is an input.
- Square roots are not computed: `glm::length` is the parameter `norm`, constrained by `IsNorm`.
- `glm::inverse` and its singular case are not computed: each world carries a function `solve` that gives `(t, u, v)` for a triangle and a ray, and nothing constrains it to solve the linear system.
- Float rounding, overflow to infinity, and `float` as a type are not modelled: everything is over the reals.
  - The running-mean identity and the pdf identities hold only in that idealisation.
  - NaN is kept where the source's control flow produces it: normalising the zero vector, and `inf * 0` at the light's own position.
- Sampling.SphereSamplePdf: requires `r != 0`. At `r == 0` the source's float division gives infinity, which the reals cannot express. The function is not called anywhere in the core.
- Sampling.HemisphereSamplePdf: requires `r != 0`, for the same reason as the sphere density. Its only call, in `TracePath`, passes `r == 1`.
- Sampling.HemisphereSample: has no radius parameter, because `uniformHemisphereSample` never reads its `r`.
- Scene.ClosestIntersection: does not model that the source's uninitialised `Intersection` keeps unspecified position and index fields on a miss. The model starts from a given record and keeps its fields, and no caller reads them on a miss.
- `glm::clamp` of a NaN value yields NaN, and converting NaN to a byte is undefined. Such a pixel is `Unspecified`, as is any channel whose truncation does not fit a byte.
- The camera code (`PerspectiveCamera`, `GenerateRay`, the projective matrices) is not modelled. Ray generation is the parameter `camera` of a rendering.
- `Update` (the rotation matrices built from key presses) is not modelled, because it is trigonometry. In `src/main.cpp` the global matrix `R` is never assigned, so `R` is an input. A default-constructed glm matrix is the identity in the glm releases the code relies on, which `IdentityRotationFilmPoint` covers; `ZeroRotationBlack` covers an all-zero `R`, which later glm releases can give.
- Input and output are not modelled: reading camera parameters, parsing arguments, the range checks on them in `main`, loading the test model, the progress printout, and saving the bitmap.
- The bitmap is modelled as an `array2` of pixels, indexed `[x, y]` as `set_pixel(x, y, …)` is, without its byte layout.
- Self-intersection is not excluded, because the source does not exclude it: `TracePath` restarts exactly at the hit point. The shadow ray is offset by `0.0001` along the shading normal, as in the source.
