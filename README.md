# Ray Tracing in One Weekend: a Dafny model of the renderer core

This project models the core of a small C++ path tracer, Daniel-Sinkin's "Ray
Tracing in One Weekend". The tracer renders a scene of spheres and writes the
image as a Netpbm "P3" text file to standard output. The model covers the
following parts:

- **Intervals** (`Interval` in include/Util.h). Closed and open membership,
  `clamp`, and the `empty`/`universe` constants. Interval ends can be the IEEE
  infinities, so each end is a `Bound`: `NegInf`, `Finite(x)` or `PosInf`.
- **Random sampling** (include/Constants.h). `degrees_to_radians`, both
  `random_float` and both `random_vec3` overloads, the rejection loop of
  `random_vec3_n` including its exception after 1000 attempts, and
  `randomOnHemisphere`.
- **Hit records and spheres** (include/Util.h, include/models.h).
  `HitRecord::setFaceNormal`, `Sphere` and its `hit`, which picks the nearer
  root of the ray/sphere quadratic in an open window. `ModelList` is a class
  with `add`, `clear` and the `hit` loop, which narrows the window to the
  closest hit so far.
- **Materials** (include/materials.h). The `scatter` rules of the base
  material (absorbs), Lambertian, Metal and Dielectric, with Schlick's
  `reflectance`.
- **Pixel encoding** (include/Util.h, include/color.h). `writeColor` applies
  gamma 2, clamps to [0, 0.999] and scales by 256. The older `write_color`
  scales by 255.999 and does not clamp. Both print decimal text.
- **The camera** (include/camera.h). `Camera` is a class with its settings and
  derived fields. It models `initialize`, `getRay`, `sampleSquare`,
  `sampleDOFDisk`, the recursive `rayColor`, and the three nested loops of
  `render` with their output order.

Everything outside the program becomes an explicit parameter:

- **Random draws.** `std::rand` and the helpers `randomFloat` and
  `randomInUnitDisk` become an `Entropy` value. It holds three functions from a
  shared stream position `k` to a draw. Every random call reads position `k`
  and hands back the next position, so each operation returns a
  `Drawn(value, next)`.
- **Math library.** `std::sqrt`, `std::tan`, `glm::normalize`, `reflect` and
  `refract` become the fields of a `MathLib` value. The only assumption made
  about them is `MathLib.Lawful()`: `sqrt` is the non-negative square root.
- **Exceptions.** The exception `random_vec3_n` throws becomes the `Failure`
  case of a `Result`. It propagates through `scatter` and `rayColor` into
  `render`, which stops after the pixels already written.
- **Output.** The output stream becomes a sequence of `Line` values: the magic
  number, the size, the maximum value and one `Pixel` per pixel.
  `PixelText` gives the text of a pixel line.

Numbers are unbounded: reals for floats, integers for `int`. The C++ cast
`int(x)` is modelled as truncation toward zero (`Trunc`).

## Model

| member | source | states |
|---|---|---|
| Numeric.Trunc | include/color.h:18-20 | `int(x)` truncates toward zero: for x ≥ 0 it is the floor (n ≤ x < n+1), for x < 0 the ceiling |
| Numeric.TruncMonotone | include/Util.h:54-56 | truncation never decreases as its argument grows |
| Numeric.Min | include/materials.h:56 | `std::fmin`: no larger than either argument and equal to one of them |
| Numeric.Max | include/models.h:14 | `std::fmax`: no smaller than either argument and equal to one of them |
| Vectors.Ray.At | include/Util.h:67-69 | `at(t)` lies t directions from the origin (`at(t) - origin == t·dir`), and `at(0)` is the origin |
| Intervals.Interval.Contains | include/Util.h:18-20 | with finite ends, holds exactly when min ≤ x ≤ max; with one infinite end, exactly when the finite bound holds (min ≤ x, or x ≤ max); nothing lies in an interval starting at +∞ or ending at −∞; everything lies in (−∞, +∞) |
| Intervals.Interval.ContainsOpen | include/Util.h:22-24 | with finite ends, holds exactly when min < x < max; with one infinite end, exactly when the strict finite bound holds; the same fully infinite cases; open membership implies closed membership |
| Intervals.Interval.Clamp | include/Util.h:26-30 | returns x unchanged when `contains(x)`; on a non-empty interval the result lies between the ends |
| Intervals.Default | include/Util.h:10 | the default interval (+∞, −∞) contains no value, open or closed |
| Intervals.UniverseAndEmpty | include/Util.h:35-36 | every value is in `universe` and none is in `empty` |
| Intervals.ClampMonotone | include/Util.h:26-30 | on a non-empty interval `clamp` is monotone |
| Intervals.ClampIdempotent | include/Util.h:26-30 | clamping a clamped value changes nothing |
| Intervals.NarrowedWindow | include/models.h:69 | a value inside `(min, closest)` is inside `(min, max)` whenever closest ≤ max |
| Sampling.DegreesToRadians | include/Constants.h:41-43 | radians·180 = degrees·π, and 180 degrees is π |
| Sampling.RandomFloat | include/Constants.h:45 | one draw, result in [0, 1) for every `rand()` value in [0, RAND_MAX] |
| Sampling.RandomFloatIn | include/Constants.h:46 | one draw, result in [lo, hi) when lo < hi, exactly lo when lo = hi |
| Sampling.RandomVec3 | include/Constants.h:48 | three draws, every component in [0, 1) |
| Sampling.RandomVec3In | include/Constants.h:49 | three draws, every component in [lo, hi) when lo < hi |
| Sampling.UnitSampleWithin | include/Constants.h:51-60 | on success uses between 3 and 3·attempts draws |
| Sampling.UnitSample | include/Constants.h:51-60 | on success uses between 3 and 3000 draws (at most 1000 candidates) |
| Sampling.UnitSampleFails | include/Constants.h:53-60 | sampling fails (the exception) exactly when none of the first 1000 candidates (`Candidate`, the three draws of `random_vec3(-1, 1)`) passes the test of Constants.h:54-56 (`Acceptable`: 1e-8 < \|s\|² ≤ 1) |
| Sampling.UnitSampleSucceeds | include/Constants.h:53-58 | on success the result is the normalisation of the first acceptable candidate i, after 3·(i+1) draws |
| Sampling.UnitSampleStep | include/Constants.h:53-58 | one attempt: the candidate at k is accepted and normalised, or sampling continues 3 draws later with one attempt fewer |
| Sampling.RandomVec3N | include/Constants.h:51-61 | the counted loop with early return and throw computes exactly `UnitSample` |
| Sampling.RandomOnHemisphere | include/Constants.h:63-66 | fails exactly when the unit sample fails; otherwise returns the sample or its negation, with dot(result, n) ≥ 0 |
| Hits.HitRecord.SetFaceNormal | include/Util.h:92-95 | `isFrontFace` holds exactly when dot(dir, outward) < 0; n is outward or −outward accordingly; dot(dir, n) ≤ 0; other fields unchanged |
| Materials.NewMetal | include/materials.h:32 | the stored fuzz equals min(fuzz, 1): a fuzz of at most 1 is kept, a larger one becomes 1; there is no lower bound |
| Materials.NewMetalStable | include/materials.h:32 | capping is idempotent: a metal built from a constructed metal's fuzz is the same metal |
| Materials.LambertianDirection | include/materials.h:18-19 | as written: the direction minus the normal is the sample, for every sample, because the guard compares the component count 3 of `v.length()` with 1e-8 and never fires (see Findings) |
| Materials.IntendedLambertianDirection | include/materials.h:19 | the evidently intended guard: the normal when the Euclidean length of n + u is below 1e-8, n + u otherwise |
| Materials.IntendedDirectionNonZero | include/materials.h:19 | with a lawful square root and a non-zero normal, the intended direction is never the zero vector |
| Materials.LambertianGuardNeverFires | include/materials.h:18-19 | for any non-zero normal n and the sample −n, the as-written direction is the zero vector while the intended one is n |
| Materials.LambertianScatter | include/materials.h:17-24 | fails exactly when the unit sample fails; otherwise always scatters from the hit point with attenuation = albedo |
| Materials.LambertianFallbackExact | include/materials.h:19 | the intended (Euclidean) length test fires exactly when the squared length is below 1e-16 |
| Materials.MetalScatter | include/materials.h:34-40 | fails exactly when the unit sample fails; otherwise scatters exactly when dot(fuzzed reflection, n) > 0 (the direction `MetalDirection`, materials.h:35-36: normalised reflection + fuzz · sample), from the hit point with attenuation = albedo |
| Materials.MetalMirror | include/materials.h:35-36 | with fuzz 0 the sample plays no part: the ray leaves along the normalised reflection |
| Materials.RefractionRatio | include/materials.h:53 | the ratio is 1/base on the front face and base on the back face |
| Materials.CosTheta | include/materials.h:56 | the cosine is capped at 1 |
| Materials.SinTheta | include/materials.h:57 | with a lawful square root and a cosine in [−1, 1], the sine lies in [0, 1] and sin² + cos² = 1 |
| Materials.CannotRefract | include/materials.h:59 | with a lawful square root, a ratio in (0, 1] (entering the denser medium) and a cosine in [−1, 1], total internal reflection never happens |
| Materials.NormalReflectance | include/materials.h:78-79 | ((1 − ri)/(1 + ri))² lies in [0, 1) for a positive index |
| Materials.Reflectance | include/materials.h:77-81 | `reflectance(1, ri)` is ((1 − ri)/(1 + ri))²; for a cosine in [0, 1] the result lies between that value and 1 |
| Materials.DielectricScatter | include/materials.h:51-70 | always scatters from the hit point with attenuation WHITE. Under total internal reflection it reflects and draws nothing. Otherwise it draws once: it reflects when reflectance > draw and refracts otherwise |
| Materials.DielectricHeadOn | include/materials.h:56-62 | a head-on ray (cosine 1) can always refract, and its reflection probability is the normal-incidence reflectance |
| Materials.RatioByFace | include/materials.h:53 | the two faces' ratios are reciprocal: their product is 1 |
| Materials.Scatter | include/materials.h:10-70 | the base material absorbs without drawing. A Dielectric always scatters with WHITE. A Lambertian that does not fail scatters. Lambertian and Metal attenuate by their albedo. Every scattered ray starts at the hit point. Only Lambertian and Metal can fail, and only when the unit sample fails |
| Models.NewSphere | include/models.h:14 | the stored radius is max(0, radius); centre and material as given |
| Models.OutwardNormal | include/models.h:37 | for a non-zero radius, radius · normal = p − centre |
| Models.SphereRecord | include/models.h:35-39 | the record has t, p = r.at(t) and the sphere's material; `isFrontFace` holds exactly when dot(dir, outward normal at p) < 0, and n is the outward normal on the front face and its negation otherwise, so it faces the ray |
| Models.SphereHit | include/models.h:16-42 | with `Discriminant` (models.h:22) and the roots `NearRoot`/`FarRoot` (models.h:29, 31): a hit has t in the open window, p = r.at(t) and the sphere's material. It needs a non-negative discriminant and t is one of the two roots. The far root is taken only when the near root is outside the window. When the near root is inside the window, it is the hit. Every hit, near or far root, is `SphereRecord` at its t, so its normal and front-face flag are set as `setFaceNormal` sets them |
| Models.OnSphereIsRoot | include/models.h:17-22 | r.at(t) lies on the sphere exactly when t solves the quadratic a t² − 2 h t + c = 0 |
| Models.CompletedSquare | include/models.h:22 | a·q(t) = (a t − h)² − discriminant |
| Models.RootsOrdered | include/models.h:29-31 | the near root (h − √d)/a is at most the far root (h + √d)/a |
| Models.RootsAreExactlyTheTwo | include/models.h:22-31 | with a negative discriminant no point of the ray is on the sphere; otherwise exactly the two roots are |
| Models.SphereHitIsNearest | include/models.h:28-35 | a reported hit lies on the sphere, and no point of the sphere inside the window is nearer |
| Models.SphereMissIsEmpty | include/models.h:22-32 | a miss (ray with a direction) means no point of the sphere lies in the window |
| Models.OutwardNormalIsUnit | include/models.h:37 | for a positive radius the outward normal at a hit has unit length |
| Models.ModelHit | include/models.h:16-77 | `Model::hit`: a hit lies in the open window with p = r.at(t), its normal faces the ray (dot(dir, n) ≤ 0, and < 0 on a front face), and it carries an albedo in the unit cube when all albedos of the model are |
| Models.ScanPrefix | include/models.h:63-76 | after n members of the loop: the upper end never rises above the caller's, stays at it while nothing was found, and equals the kept record's t, which lies in the window; the kept record's normal faces the ray |
| Models.ModelWindow | include/models.h:69 | a hit found in a narrower window is the hit in the wider one, and a hit in the wider window below the narrower end is the hit in the narrower one |
| Models.SphereWindow | include/models.h:29-33 | the same for one sphere |
| Models.ScanWindow | include/models.h:68-74 | the loop run on a narrower window tracks the wider run: its upper end is the lesser of the two, and the records agree while the wider end is below |
| Models.ModelMissNarrows | include/models.h:69 | a model that misses a window misses every narrower window |
| Models.ModelNothingNearer | include/models.h:69-71 | nothing in a model is hit before the hit it reports |
| Models.ScanFacts | include/models.h:68-74 | the loop invariant: no visited member hits below the current end. A record is kept exactly when some visited member hits the window. The record is one member's own hit, and no visited member hits before it |
| Models.ScanMissesBelow | include/models.h:68-74 | no member visited so far hits before the current upper end of the window |
| Models.ScanFoundIff | include/models.h:68-74 | a record is kept exactly when some member visited so far hits the caller's window |
| Models.ScanFoundIsMember | include/models.h:68-74 | the kept record is the hit, on the caller's window, of one of the members visited |
| Models.ScanHitStep | include/models.h:69-72 | a member that hits below the current end: that is also its hit on the caller's window, and neither it nor an earlier member hits nearer |
| Models.ListHitIsClosest | include/models.h:63-77 | `ModelList::hit` hits exactly when some member hits the window, reports one member's own hit, and no member's hit is nearer |
| Models.EmptyListMisses | include/models.h:63-76 | an empty list hits nothing |
| Models.ModelList.constructor | include/models.h:54 | a new list is empty |
| Models.ModelList.Single | include/models.h:55 | the one-object constructor holds exactly that object |
| Models.ModelList.Clear | include/models.h:57 | `clear` empties the list |
| Models.ModelList.Add | include/models.h:59-61 | `add` appends at the end, leaving earlier entries unchanged |
| Models.ModelList.Hit | include/models.h:63-77 | the loop returns true exactly when the model has a hit, and then `rec` is that (closest) hit; on a miss `rec` is what the caller passed |
| Encoding.LinearToGamma | include/Util.h:38-41 | 0 for a non-positive component, otherwise the non-negative square root |
| Encoding.ClampIntensity | include/Util.h:53-56 | the result lies in [0, 0.999]; values inside are unchanged; below 0 gives 0, above 0.999 gives 0.999 |
| Encoding.GammaByte | include/Util.h:49-56 | each byte lies in [0, 255], and a non-positive channel gives 0 |
| Encoding.WriteColor | include/Util.h:43-59 | all three bytes lie in [0, 255] for any colour; a non-positive channel gives byte 0 |
| Encoding.LinearToGammaMonotone | include/Util.h:38-41 | the gamma transform is monotone |
| Encoding.ClampIntensityMonotone | include/Util.h:53 | the intensity clamp is monotone |
| Encoding.GammaByteMonotone | include/Util.h:49-56 | each byte is nondecreasing in its channel |
| Encoding.WriteColorMonotone | include/Util.h:43-59 | `writeColor` is monotone channel by channel |
| Encoding.WriteColorExtremes | include/Util.h:43-59 | black is written 0 0 0 and white 255 255 255 |
| Encoding.UnclampedByte | include/color.h:18-20 | a channel in [0, 1] gives a byte in [0, 255]; 0 gives 0 and 1 gives 255 |
| Encoding.WriteColorUnclamped | include/color.h:12-24 | per channel: [0, 1] maps into [0, 255] and 0 maps to 0 |
| Encoding.UnclampedByteMonotone | include/color.h:18-20 | the byte is nondecreasing in its channel |
| Encoding.UnclampedByteOutOfRange | include/color.h:18-20 | with no clamp, every channel at least 1 + 1/255.999 gives a byte above 255 and every channel at most −1 a negative one (for example 511 for 2 and −255 for −1) |
| Encoding.NatText | include/color.h:23 | decimal digits, at least one, no leading zero |
| Encoding.NatTextRoundTrip | include/color.h:23 | reading the digits back gives the number |
| Encoding.IntText | include/color.h:23 | digits with a leading '-' exactly for negative numbers |
| Encoding.IntTextRoundTrip | include/color.h:23 | every integer written parses back to itself |
| Encoding.PixelText | include/Util.h:58 | a pixel line has at least 6 characters and ends with a newline; `PixelLineRoundTrip` states that it reads back |
| Encoding.PixelTextFields | include/Util.h:58 | no space or newline occurs inside a written integer, and each integer parses back to itself |
| Encoding.ParsePixelLine | include/Util.h:58 | a reader of pixel lines: it accepts only a line ended by a newline whose body splits at single spaces into exactly three integers |
| Encoding.PixelLineRoundTrip | include/Util.h:58 | the line written for a pixel splits at its two spaces into exactly the three values written: reading it back gives r, g, b |
| Cameras.ImageHeight | include/camera.h:79-80 | the height is at least 1, equals ⌊width/aspect⌋ when that is at least 1, and is 1 when width/aspect < 2 |
| Cameras.ImageHeightMonotone | include/camera.h:79-80 | a wider image is never shorter |
| Cameras.SampleScale | include/camera.h:82 | scale · samplesPerPixel = 1, and the scale lies in (0, 1] for a positive count |
| Cameras.Derive | include/camera.h:78-108 | `initialize` keeps the settings it copies; height and scale follow the two rules above |
| Cameras.SampleSquare | include/camera.h:120-122 | two draws, z = 0, x and y in [−0.5, 0.5) when the draws are in [0, 1) |
| Cameras.SampleDOFDisk | include/camera.h:124-127 | one draw; the lens point is eye + p.x·diskU + p.y·diskV |
| Cameras.LensPointWithinRadius | include/camera.h:124-127 | with perpendicular disk radii of equal squared length r², a unit-disk sample lands within that radius of the eye |
| Cameras.GetRay | include/camera.h:110-118 | DOF angle ≤ 0: the origin is the eye and two draws are used. Otherwise: the lens point and three draws. Either way origin + direction is the pixel sample (`PixelSample`, camera.h:112: pixel00 + (i + x)·Δu + (j + y)·Δv) |
| Cameras.RayColor | include/camera.h:129-145 | draws are only consumed, never given back |
| Cameras.RayColorDepthExhausted | include/camera.h:130 | depth ≤ 0 gives BLACK and draws nothing |
| Cameras.RayColorAbsorbed | include/camera.h:133-139 | a hit whose material absorbs gives BLACK |
| Cameras.RayColorScatters | include/camera.h:136-137 | a scattering hit gives attenuation × `rayColor` of the scattered ray at depth − 1 |
| Cameras.RayColorMiss | include/camera.h:142-144 | a ray that hits nothing gives the sky blend and draws nothing |
| Cameras.Sky | include/camera.h:142-144 | the blue component is always 1; for a unit direction the red ≤ green ≤ blue; a ray pointing straight down gets white |
| Cameras.SkyInUnitCube | include/camera.h:142-144 | the sky colour lies in the unit cube |
| Cameras.MulInUnitCube | include/camera.h:137 | the component-wise product of two colours in the unit cube stays in it |
| Cameras.AttenuationInUnitCube | include/materials.h:22-52 | every attenuation a material scatters with lies in the unit cube when its albedo does |
| Cameras.RayColorInUnitCube | include/camera.h:129-145 | with albedos in the unit cube, every traced colour lies in the unit cube |
| Cameras.Header | include/camera.h:29-30 | the header is "P3", then width and height, then 255 |
| Cameras.PixelLines | include/camera.h:44 | one pixel line per pixel, in order |
| Cameras.Row | include/camera.h:38 | row j visits i = 0 .. width − 1 in order |
| Cameras.Rows | include/camera.h:32-45 | the reference definition of the two outer loops of `render`: rows j = 0 .. height − 1 from top to bottom, each row `Row(width, j)`; its properties are the lemmas below |
| Cameras.RowsInImage | include/camera.h:32-38 | every pixel (i, j) `render` visits lies in the image: 0 ≤ i < width and 0 ≤ j < height |
| Cameras.RowsRowMajor | include/camera.h:32-38 | `render` visits width·height pixels, pixel (i, j) at position j·width + i |
| Cameras.RowsLength | include/camera.h:32-38 | the loops visit width·height pixels |
| Cameras.RowsAt | include/camera.h:32-38 | pixel (i, j) is visited at position j·width + i |
| Cameras.SampleStep | include/camera.h:41-42 | one sample uses at least the two draws of `sampleSquare` |
| Cameras.SampleSum | include/camera.h:40-43 | n samples use at least 2n draws |
| Cameras.PixelOutcome | include/camera.h:39-44 | a pixel is written exactly when all its samples succeed, after at least two draws per sample |
| Cameras.PixelBytes | include/camera.h:39-44 | the camera's pixel function computes every pixel as `PixelOutcome` does |
| Cameras.Trace | include/camera.h:32-45 | the reference definition of `render`'s loops over a sequence of pixels: each pixel is computed from where the previous one left the random stream, and its bytes are appended; the first exception stops the trace with the lines written so far. `RenderImage` and `Render` are proved against it |
| Cameras.TraceLength | include/camera.h:32-45 | at most one line per pixel, and exactly one per pixel when no exception was thrown |
| Cameras.TraceExtends | include/camera.h:32-45 | output is never taken back: a prefix of the pixels yields a prefix of the lines, and after an exception nothing follows |
| Cameras.TraceAppend | include/camera.h:38-45 | the next pixel starts where the stream stopped, and either appends its bytes or stops with the exception |
| Cameras.TraceStopsAt | include/camera.h:38-44 | an exception in a row ends the output there |
| Cameras.TraceStopsInRows | include/camera.h:32-45 | an exception in the first j rows ends the whole image there |
| Cameras.FullImage | include/camera.h:32-45 | an image rendered without an exception has exactly width·height pixel lines |
| Cameras.SampleSumFailurePersists | include/camera.h:40-43 | once a sample throws, the pixel's outcome is that exception |
| Cameras.NoSamplesBlackImage | include/camera.h:40-44 | with samplesPerPixel ≤ 0 every pixel is written 0 0 0 and no draw is used |
| Cameras.SamplePixel | include/camera.h:39-43 | the sample loop computes the sum of exactly samplesPerPixel `rayColor` values, or the first exception |
| Cameras.RenderPixel | include/camera.h:38-45 | one pixel: its line, scale × sample sum through `writeColor`, is appended, or the exception stops the output |
| Cameras.RenderRow | include/camera.h:38-45 | the inner loop appends row j, left to right, after the rows above |
| Cameras.RenderImage | include/camera.h:29-58 | the header followed by the rows top to bottom, each pixel computed from where the previous one left the stream |
| Cameras.Camera.constructor | include/camera.h:10-21 | the default settings: 16/9, 100, 10, 10, 20°, eye at the origin looking down −z, up +y, no depth of field |
| Cameras.Camera.Initialize | include/camera.h:78-108 | the settings are unchanged, the derived fields are `Derive` of the settings, and the height is at least 1 |
| Cameras.Camera.Render | include/camera.h:23-65 | calls `initialize`, then writes the header and the pixel lines of all rows in order. On success it returns the final stream position; on an exception it returns the lines written before the failing pixel and the message |

## Findings

| source | as written | input that shows it | evidently intended | confidence | as-written member | corrected member |
|---|---|---|---|---|---|---|
| include/materials.h:19 (and include/Util.h:110) | `scatterDirection.length() < 1e-8`: on a `glm::vec3` the member `length()` is the component count 3, so the guard is always false and the direction stays n + u | a unit sample u = −n gives the zero direction n + u = (0, 0, 0) | `glm::length(scatterDirection) < 1e-8`, falling back to the normal | not executed | Materials.LambertianDirection, Materials.LambertianGuardNeverFires | Materials.IntendedLambertianDirection, Materials.IntendedDirectionNonZero |

## Left out

- Floating point: all arithmetic is exact over the reals. Rounding, NaN and the
  single-precision effects are not modelled. For example, `random_float()` can
  round to exactly 1.0 in `float`; the [0, 1) bound holds in exact arithmetic
  only.
- Numeric.Trunc: does not model the undefined behaviour of converting a value
  outside the range of `int`, because integers are unbounded here.
- Interval::size (include/Util.h:14-16): not called by the modelled code. On
  infinite ends it is IEEE arithmetic (∞ − ∞), which the `Bound` type does not
  carry.
- The library routines `std::sqrt`, `std::tan`, `glm::normalize`, `reflect`,
  `refract`, and the helpers `randomFloat` and `randomInUnitDisk`: they are not
  defined in the modelled files. They are parameters. Only `sqrt` is
  constrained, by `MathLib.Lawful()`. `std::pow(x, 5)` is the exact fifth power.
- Cameras.RayColorInUnitCube: also requires `NormalizeBounded(lib)`, an
  assumption about `glm::normalize` (components in [−1, 1]) and not a proven
  fact.
- Evaluation order of the three arguments of `vec3(...)` in `random_vec3` and
  `sampleSquare`: C++ leaves it unspecified. The model draws x, then y, then z.
- Timing and progress output of `render` (`std::chrono`, `std::clog`) is left
  out. Writing to `std::cout` is modelled as the returned sequence of lines.
  After an exception the model returns the lines written so far; the source
  lets the exception leave `render`.
- Cameras.Camera.Render: the three nested loops are split into one method per
  loop (`RenderImage`, `RenderRow`, `RenderPixel`, `SamplePixel`), each proved
  against `Trace`. After an exception the returned stream position is the one
  before the failing pixel, because a `Failure` carries no position; the
  source's `rand()` state at that point is not modelled.
- The constants `WORLDSPACE_UP` and `SHADOW_ACNE_FIX_THRESHOLD` are not defined
  in the modelled files. The model uses (0, 1, 0), and 0.001, the value of
  `SHADOW_ACNE_FIX_FACTOR`.
- Degenerate divisions in the source produce infinities or NaN. The model
  handles them as follows:
  - A ray with a zero direction computes 0/0 roots in `Sphere::hit`; here it
    misses.
  - A zero radius divides the normal by 0; here `OutwardNormal` keeps p − centre.
  - An image width of 0 divides `viewportU` by 0; here the vector is kept
    unscaled, and no pixel is rendered.
  - `samplesPerPixel == 0` makes the scale 1/0; here it is 0. Every pixel is
    then written 0 0 0, which is also the source's output: the empty sum times
    1/0 is NaN, `writeColor` first applies `linearToGamma` (include/Util.h:49-51),
    which returns 0 for NaN because `NaN > 0` is false (include/Util.h:38-41),
    and `clamp` then sees only 0 (include/Util.h:54-56).
- Camera.Initialize and Camera.Render require a non-zero aspect ratio. With 0,
  `int(width / 0)` is undefined behaviour in C++.
- The Dielectric refraction index is typed as a positive real. In the source,
  an index of 0 divides by zero in `scatter` on the front face (`1.0f /
  refractionIndexBase`, include/materials.h:53), and an index of −1 divides by
  zero in `reflectance` (`1 + refractionIndex`, include/materials.h:78). Other
  non-positive indexes compute a physically meaningless ratio that the model
  does not cover.
- `MetalMaterial::scatter` sets `attenuation` and `scattered` even when it
  returns false. The model returns no scatter (`None`) in that case, because
  `rayColor` never reads those outputs after a false return.
- `shared_ptr` ownership and aliasing: materials and models are values. A model
  added to a `ModelList` is a copy. Changing an object after adding it, or
  sharing it between lists, is not captured.
- The camera copy in include/Util.h (defaults 800, 100, 50; fixed viewport with
  focal length 1; no depth of field) is not modelled as a class of its own. Its
  image-height rule, sample scale, `rayColor` and `render` loops are the same
  code as in include/camera.h and are cited there. Its rays are the
  `dofAngle <= 0` case of `GetRay`. The copies of the materials and models in
  include/Util.h are identical to include/materials.h and include/models.h.
  Two draws differ: the Dielectric (include/Util.h:153) and `sampleSquare`
  (include/Util.h:343) call `random_float`, defined from `rand()`
  (`Sampling.RandomFloat`), where include/materials.h:62 and
  include/camera.h:121 call `randomFloat`, which is not defined in the modelled
  files and is the `randomFloat` field of `Entropy`. The Util.h copies are not
  modelled separately.
- The derived camera fields are uninitialised in the source until `initialize`
  runs. The constructor sets them to zero.
- include/Examples.h (scene assembly) and src/main.cpp (entry point) are not
  part of this model.
