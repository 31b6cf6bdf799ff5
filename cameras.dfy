/** The camera of include/camera.h (an older copy without depth of field
    sits in include/Util.h): the image-height and per-sample-scale rules of
    `initialize`, the primary rays of `getRay`, the recursive `rayColor`,
    and the order in which `render` emits its output. */
module Cameras {
  import opened Outcomes
  import opened Numeric
  import opened Vectors
  import opened Intervals
  import opened Sampling
  import opened Hits
  import opened Materials
  import opened Models
  import opened Encoding

  /** The world's up direction, the default `m_Up`. */
  const WORLDSPACE_UP: Vec3 := Vec3(0.0, 1.0, 0.0)

  /** The lower end of the hit window: hits closer than this are ignored so
      that a scattered ray does not hit its own surface again. */
  const SHADOW_ACNE_FIX_THRESHOLD: real := 0.001

  /** The colour at the top of the sky gradient. */
  const SKY_BLUE: Vec3 := Vec3(0.5, 0.7, 1.0)

  /** The largest channel value announced in the header. */
  const MAX_CHANNEL: int := 255

  // ---------------------------------------------------------------- initialize

  /** The public settings of a camera. */
  datatype Config = Config(
    aspectRatio: real, imageWidth: int, samplesPerPixel: int, maxDepth: int,
    vfov: real, eye: Vec3, center: Vec3, up: Vec3, dofAngle: real, focusDistance: real)

  /** Everything the ray generation and `render` read: the settings they use
      and the fields `initialize` computes. */
  datatype Setup = Setup(
    imageWidth: int, imageHeight: int, samplesPerPixel: int, maxDepth: int,
    pixelSamplesScale: real, eye: Vec3, dofAngle: real,
    pixelOrigin: Vec3, pixelDeltaU: Vec3, pixelDeltaV: Vec3,
    u: Vec3, v: Vec3, w: Vec3, dofDiskU: Vec3, dofDiskV: Vec3)

  /** The image-height rule: `int(width / aspect)`, raised to at least 1. */
  function ImageHeight(width: int, aspectRatio: real): (h: int)
    requires aspectRatio != 0.0
    ensures h >= 1
    ensures width as real / aspectRatio >= 1.0 ==> h == (width as real / aspectRatio).Floor
    ensures width as real / aspectRatio < 2.0 ==> h == 1
  {
    var h := Trunc(width as real / aspectRatio);
    if h < 1 then 1 else h
  }

  /** A wider image is never shorter. */
  lemma ImageHeightMonotone(w1: int, w2: int, aspectRatio: real)
    requires aspectRatio > 0.0 && w1 <= w2
    ensures ImageHeight(w1, aspectRatio) <= ImageHeight(w2, aspectRatio)
  {
    assert w1 as real / aspectRatio <= w2 as real / aspectRatio;
    TruncMonotone(w1 as real / aspectRatio, w2 as real / aspectRatio);
  }

  /** The per-sample scale `1 / samplesPerPixel`; with no samples the model
      uses 0 where the source divides by zero (the pixel sum is then black,
      and both give byte 0). */
  function SampleScale(samplesPerPixel: int): (s: real)
    ensures samplesPerPixel != 0 ==> s * samplesPerPixel as real == 1.0
    ensures samplesPerPixel == 0 ==> s == 0.0
    ensures samplesPerPixel > 0 ==> 0.0 < s <= 1.0
  {
    if samplesPerPixel == 0 then 0.0 else 1.0 / samplesPerPixel as real
  }

  /** The viewport and lens fields `initialize` computes. A zero image width
      divides by zero in the source; no pixel is rendered then, and the
      model keeps the unscaled viewport vector. */
  function Derive(lib: MathLib, c: Config): (s: Setup)
    requires c.aspectRatio != 0.0
    ensures s.imageWidth == c.imageWidth && s.samplesPerPixel == c.samplesPerPixel && s.maxDepth == c.maxDepth
    ensures s.eye == c.eye && s.dofAngle == c.dofAngle
    ensures s.imageHeight == ImageHeight(c.imageWidth, c.aspectRatio)
    ensures s.pixelSamplesScale == SampleScale(c.samplesPerPixel)
  {
    var imageHeight := ImageHeight(c.imageWidth, c.aspectRatio);
    var lookDirection := Sub(c.eye, c.center);
    var theta := DegreesToRadians(c.vfov);
    var h := lib.tan(theta / 2.0);
    var viewportHeight := 2.0 * h * c.focusDistance;
    var viewportWidth := viewportHeight * (c.imageWidth as real / imageHeight as real);
    var w := lib.normalize(lookDirection);
    var u := lib.normalize(Cross(c.up, w));
    var v := Cross(w, u);
    var viewportU := Scale(viewportWidth, u);
    var viewportV := Scale(viewportHeight, Neg(v));
    var pixelDeltaU := if c.imageWidth == 0 then viewportU else Scale(1.0 / c.imageWidth as real, viewportU);
    var pixelDeltaV := Scale(1.0 / imageHeight as real, viewportV);
    var upperLeft := Sub(Sub(Sub(c.eye, Scale(c.focusDistance, w)), Scale(0.5, viewportU)), Scale(0.5, viewportV));
    var pixelOrigin := Add(upperLeft, Scale(0.5, Add(pixelDeltaU, pixelDeltaV)));
    var dofRadius := c.focusDistance * lib.tan(DegreesToRadians(c.dofAngle / 2.0));
    Setup(c.imageWidth, imageHeight, c.samplesPerPixel, c.maxDepth, SampleScale(c.samplesPerPixel),
          c.eye, c.dofAngle, pixelOrigin, pixelDeltaU, pixelDeltaV, u, v, w,
          Scale(dofRadius, u), Scale(dofRadius, v))
  }

  // ---------------------------------------------------------------- primary rays

  /** `sampleSquare`: two draws, each shifted by -0.5, in the plane z = 0
      (the x draw is taken first). */
  function SampleSquare(e: Entropy, k: nat): (d: Drawn<Vec3>)
    ensures d.next == k + 2 && d.value.z == 0.0
    ensures 0.0 <= e.randomFloat(k) < 1.0 ==> -0.5 <= d.value.x < 0.5
    ensures 0.0 <= e.randomFloat(k + 1) < 1.0 ==> -0.5 <= d.value.y < 0.5
  {
    Drawn(Vec3(e.randomFloat(k) - 0.5, e.randomFloat(k + 1) - 0.5, 0.0), k + 2)
  }

  /** `sampleDOFDisk`: a point of the lens disk around the eye, spanned by
      the two disk radii. */
  function SampleDOFDisk(e: Entropy, k: nat, s: Setup): (d: Drawn<Vec3>)
    ensures d.next == k + 1
    ensures var p := e.randomInUnitDisk(k);
            Sub(d.value, s.eye) == Add(Scale(p.x, s.dofDiskU), Scale(p.y, s.dofDiskV))
  {
    var p := e.randomInUnitDisk(k);
    Drawn(Add(Add(s.eye, Scale(p.x, s.dofDiskU)), Scale(p.y, s.dofDiskV)), k + 1)
  }

  /** For perpendicular disk radii of squared length `r2` and a sample inside
      the unit disk, the lens point lies within the lens radius of the eye. */
  lemma LensPointWithinRadius(e: Entropy, k: nat, s: Setup, r2: real)
    requires Dot(s.dofDiskU, s.dofDiskV) == 0.0
    requires Dot(s.dofDiskU, s.dofDiskU) == r2 && Dot(s.dofDiskV, s.dofDiskV) == r2
    requires var p := e.randomInUnitDisk(k); p.x * p.x + p.y * p.y <= 1.0
    ensures var off := Sub(SampleDOFDisk(e, k, s).value, s.eye); Dot(off, off) <= r2
  {
    var p := e.randomInUnitDisk(k);
    var off := Sub(SampleDOFDisk(e, k, s).value, s.eye);
    var a, b := p.x, p.y;
    var U, V := s.dofDiskU, s.dofDiskV;
    assert off == Add(Scale(a, U), Scale(b, V));
    SpanLength(a, b, U, V);
    var q := a * a + b * b;
    assert Dot(off, off) == q * r2;
    DotSelfNonNegative(U);
    ScaledBelow(q, r2);
  }

  lemma SpanLength(a: real, b: real, U: Vec3, V: Vec3)
    requires Dot(U, V) == 0.0
    ensures var o := Add(Scale(a, U), Scale(b, V));
            Dot(o, o) == a * a * Dot(U, U) + b * b * Dot(V, V)
  {
    var o := Add(Scale(a, U), Scale(b, V));
    assert Dot(o, o) == a * a * Dot(U, U) + 2.0 * a * b * Dot(U, V) + b * b * Dot(V, V);
  }

  lemma ScaledBelow(q: real, r2: real)
    requires q <= 1.0 && 0.0 <= r2
    ensures q * r2 <= r2
  {
    assert r2 - q * r2 == (1.0 - q) * r2;
    assert 0.0 <= (1.0 - q) * r2;
  }

  /** The point of the pixel `(i, j)` displaced by `offset`. */
  function PixelSample(s: Setup, i: int, j: int, offset: Vec3): Vec3
  {
    Add(Add(s.pixelOrigin, Scale(i as real + offset.x, s.pixelDeltaU)), Scale(j as real + offset.y, s.pixelDeltaV))
  }

  /** `getRay`: a ray from the eye (no depth of field) or from a lens point
      (depth of field) through a jittered point of pixel `(i, j)`. */
  function GetRay(e: Entropy, k: nat, s: Setup, i: int, j: int): (d: Drawn<Ray>)
    ensures s.dofAngle <= 0.0 ==> d.value.origin == s.eye && d.next == k + 2
    ensures s.dofAngle > 0.0 ==> d.value.origin == SampleDOFDisk(e, k + 2, s).value && d.next == k + 3
    ensures d.value.At(1.0) == PixelSample(s, i, j, SampleSquare(e, k).value)
  {
    var offset := SampleSquare(e, k);
    var pixelSample := PixelSample(s, i, j, offset.value);
    var origin := if s.dofAngle <= 0.0 then Drawn(s.eye, offset.next) else SampleDOFDisk(e, offset.next, s);
    var r := Ray(origin.value, Sub(pixelSample, origin.value));
    assert r.At(1.0) == pixelSample;
    Drawn(r, origin.next)
  }

  // ---------------------------------------------------------------- rayColor

  /** The background: a blend of white and sky blue driven by the height of
      the unit direction, `a = 0.9 (y + 1)`. */
  function Sky(lib: MathLib, r: Ray): (c: Vec3)
    ensures c.z == 1.0
    ensures -1.0 <= lib.normalize(r.dir).y ==> c.x <= c.y <= c.z
    ensures lib.normalize(r.dir).y == -1.0 ==> c == WHITE
  {
    var nu := lib.normalize(r.dir);
    var a := 0.9 * (nu.y + 1.0);
    Add(Scale(1.0 - a, WHITE), Scale(a, SKY_BLUE))
  }

  /** The window of hits `rayColor` accepts, open at both ends. */
  const HIT_WINDOW_MIN: Bound := Finite(SHADOW_ACNE_FIX_THRESHOLD)

  /** `rayColor`: black once the depth is used up; on a hit the attenuation
      times the colour of the scattered ray, or black if the surface absorbs;
      on a miss the sky. Fails when a scatter gives up drawing. */
  function RayColor(lib: MathLib, e: Entropy, k: nat, r: Ray, depth: int, world: Model): (res: Result<Drawn<Vec3>>)
    ensures res.Success? ==> k <= res.value.next
    decreases if depth <= 0 then 0 else depth
  {
    if depth <= 0 then Success(Drawn(BLACK, k))
    else match ModelHit(lib, world, r, HIT_WINDOW_MIN, PosInf)
      case None => Success(Drawn(Sky(lib, r), k))
      case Some(rec) =>
        match Scatter(lib, e, k, rec.material, r, rec)
        case Failure(msg) => Failure(msg)
        case Success(d) =>
          match d.value
          case None => Success(Drawn(BLACK, d.next))
          case Some(sc) =>
            match RayColor(lib, e, d.next, sc.scattered, depth - 1, world)
            case Failure(msg) => Failure(msg)
            case Success(c) => Success(Drawn(Mul(sc.attenuation, c.value), c.next))
  }

  /** At depth 0 or below no ray is traced and nothing is drawn. */
  lemma RayColorDepthExhausted(lib: MathLib, e: Entropy, k: nat, r: Ray, depth: int, world: Model)
    requires depth <= 0
    ensures RayColor(lib, e, k, r, depth, world) == Success(Drawn(BLACK, k))
  {
  }

  /** A hit on a surface that absorbs the ray gives black. */
  lemma RayColorAbsorbed(lib: MathLib, e: Entropy, k: nat, r: Ray, depth: int, world: Model)
    requires depth > 0
    requires var hit := ModelHit(lib, world, r, HIT_WINDOW_MIN, PosInf);
             hit.Some? && Scatter(lib, e, k, hit.value.material, r, hit.value).Success? &&
             Scatter(lib, e, k, hit.value.material, r, hit.value).value.value.None?
    ensures RayColor(lib, e, k, r, depth, world).Success?
    ensures RayColor(lib, e, k, r, depth, world).value.value == BLACK
  {
  }

  /** A hit on a surface that scatters recurses with one less depth and
      multiplies by the attenuation. */
  lemma RayColorScatters(lib: MathLib, e: Entropy, k: nat, r: Ray, depth: int, world: Model)
    requires depth > 0
    requires var hit := ModelHit(lib, world, r, HIT_WINDOW_MIN, PosInf);
             hit.Some? && Scatter(lib, e, k, hit.value.material, r, hit.value).Success? &&
             Scatter(lib, e, k, hit.value.material, r, hit.value).value.value.Some?
    ensures var hit := ModelHit(lib, world, r, HIT_WINDOW_MIN, PosInf).value;
            var d := Scatter(lib, e, k, hit.material, r, hit).value;
            var inner := RayColor(lib, e, d.next, d.value.value.scattered, depth - 1, world);
            var res := RayColor(lib, e, k, r, depth, world);
            (res.Success? <==> inner.Success?) &&
            (res.Success? ==> res.value == Drawn(Mul(d.value.value.attenuation, inner.value.value), inner.value.next))
  {
  }

  /** A ray that hits nothing shows the sky and draws nothing. */
  lemma RayColorMiss(lib: MathLib, e: Entropy, k: nat, r: Ray, depth: int, world: Model)
    requires depth > 0 && ModelHit(lib, world, r, HIT_WINDOW_MIN, PosInf).None?
    ensures RayColor(lib, e, k, r, depth, world) == Success(Drawn(Sky(lib, r), k))
  {
  }

  /** `glm::normalize` keeps every component of its result in [-1, 1]. */
  ghost predicate NormalizeBounded(lib: MathLib)
  {
    forall v :: -1.0 <= lib.normalize(v).y <= 1.0
  }

  lemma SkyInUnitCube(lib: MathLib, r: Ray)
    requires NormalizeBounded(lib)
    ensures InUnitCube(Sky(lib, r))
  {
    var nu := lib.normalize(r.dir);
    assert -1.0 <= nu.y <= 1.0;
  }

  lemma MulInUnitCube(a: Vec3, c: Vec3)
    requires InUnitCube(a) && InUnitCube(c)
    ensures InUnitCube(Mul(a, c))
  {
    ProductInUnit(a.x, c.x);
    ProductInUnit(a.y, c.y);
    ProductInUnit(a.z, c.z);
  }

  /** A scattered ray is attenuated by at most white when the albedo is in
      the unit cube. */
  lemma AttenuationInUnitCube(lib: MathLib, e: Entropy, k: nat, m: Material, rIn: Ray, rec: HitRecord)
    requires AlbedoWithinUnit(m)
    requires var res := Scatter(lib, e, k, m, rIn, rec); res.Success? && res.value.value.Some?
    ensures InUnitCube(Scatter(lib, e, k, m, rIn, rec).value.value.value.attenuation)
  {
  }

  /** With albedos in the unit cube every traced colour stays in the unit
      cube: no surface adds light, and the sky is at most white. */
  lemma {:induction false} RayColorInUnitCube(lib: MathLib, e: Entropy, k: nat, r: Ray, depth: int, world: Model)
    requires NormalizeBounded(lib) && AlbedosWithinUnit(world)
    requires RayColor(lib, e, k, r, depth, world).Success?
    ensures InUnitCube(RayColor(lib, e, k, r, depth, world).value.value)
    decreases if depth <= 0 then 0 else depth
  {
    if depth > 0 {
      var hit := ModelHit(lib, world, r, HIT_WINDOW_MIN, PosInf);
      if hit.None? {
        RayColorMiss(lib, e, k, r, depth, world);
        SkyInUnitCube(lib, r);
      } else {
        var rec := hit.value;
        var sc := Scatter(lib, e, k, rec.material, r, rec);
        if sc.Success? && sc.value.value.Some? {
          RayColorScatters(lib, e, k, r, depth, world);
          var d := sc.value;
          AttenuationInUnitCube(lib, e, k, rec.material, r, rec);
          RayColorInUnitCube(lib, e, d.next, d.value.value.scattered, depth - 1, world);
          MulInUnitCube(d.value.value.attenuation, RayColor(lib, e, d.next, d.value.value.scattered, depth - 1, world).value.value);
        } else if sc.Success? {
          RayColorAbsorbed(lib, e, k, r, depth, world);
        }
      }
    }
  }

  // ---------------------------------------------------------------- render

  /** One line of the Netpbm "P3" output: the magic number, the size, the
      largest channel value, or a pixel. */
  datatype Line = Magic | Size(width: int, height: int) | MaxValue(value: int) | Pixel(rgb: Rgb)

  /** The three header lines `render` writes first. */
  function Header(width: int, height: int): (h: seq<Line>)
    ensures |h| == 3 && h[0] == Magic && h[1] == Size(width, height) && h[2] == MaxValue(MAX_CHANNEL)
  {
    [Magic, Size(width, height), MaxValue(MAX_CHANNEL)]
  }

  function PixelLines(pixels: seq<Rgb>): (lines: seq<Line>)
    ensures |lines| == |pixels|
    ensures forall n :: 0 <= n < |pixels| ==> lines[n] == Pixel(pixels[n])
  {
    seq(|pixels|, n requires 0 <= n < |pixels| => Pixel(pixels[n]))
  }

  /** The pixels of row `j`, left to right. */
  function Row(width: int, j: int): (row: seq<(int, int)>)
    ensures |row| == if width > 0 then width else 0
    ensures forall i :: 0 <= i < |row| ==> row[i] == (i, j)
  {
    if width <= 0 then [] else seq(width, i requires 0 <= i < width => (i, j))
  }

  /** The pixels of the first `height` rows, top row first: the order of the
      two loops of `render`. */
  function Rows(width: int, height: int): (rows: seq<(int, int)>)
    decreases if height <= 0 then 0 else height
  {
    if height <= 0 then [] else Rows(width, height - 1) + Row(width, height - 1)
  }

  /** Every pixel `render` visits lies in the image. */
  lemma {:induction false} RowsInImage(width: int, height: int)
    ensures forall n :: 0 <= n < |Rows(width, height)| ==>
              0 <= Rows(width, height)[n].0 < width && 0 <= Rows(width, height)[n].1 < height
    decreases if height <= 0 then 0 else height
  {
    if height > 0 {
      RowsInImage(width, height - 1);
      var prev: seq<(int, int)>, row: seq<(int, int)> := Rows(width, height - 1), Row(width, height - 1);
      forall n | 0 <= n < |prev + row|
        ensures 0 <= (prev + row)[n].0 < width && 0 <= (prev + row)[n].1 < height
      {
        if n >= |prev| {
          assert (prev + row)[n] == row[n - |prev|];
        }
      }
    }
  }

  /** `render` visits `width * height` pixels, pixel `(i, j)` at position
      `j * width + i`: row-major, top to bottom, left to right. */
  lemma {:induction false} RowsRowMajor(width: int, height: int)
    requires width > 0 && height >= 0
    ensures |Rows(width, height)| == width * height
    ensures forall i, j :: 0 <= i < width && 0 <= j < height ==> Rows(width, height)[j * width + i] == (i, j)
  {
    RowsLength(width, height);
    forall i, j | 0 <= i < width && 0 <= j < height
      ensures j * width + i < |Rows(width, height)| && Rows(width, height)[j * width + i] == (i, j)
    {
      RowsAt(width, height, i, j);
    }
  }

  lemma {:induction false} RowsLength(width: int, height: int)
    requires width > 0 && height >= 0
    ensures |Rows(width, height)| == width * height
    decreases height
  {
    if height > 0 {
      RowsLength(width, height - 1);
      assert width * (height - 1) + width == width * height;
    }
  }

  lemma {:induction false} RowsAt(width: int, height: int, i: int, j: int)
    requires 0 <= i < width && 0 <= j < height
    ensures j * width + i < |Rows(width, height)| && Rows(width, height)[j * width + i] == (i, j)
    decreases height
  {
    var prev, row := Rows(width, height - 1), Row(width, height - 1);
    RowsLength(width, height - 1);
    RowMajorBounds(width, height, i, j);
    var n := j * width + i;
    if j < height - 1 {
      RowsAt(width, height - 1, i, j);
      assert Rows(width, height)[n] == prev[n];
    } else {
      assert Rows(width, height)[n] == row[i];
    }
  }

  lemma RowMajorBounds(width: int, height: int, i: int, j: int)
    requires 0 <= i < width && 0 <= j < height
    ensures j < height - 1 ==> j * width + i < width * (height - 1)
    ensures j == height - 1 ==> j * width + i == width * (height - 1) + i
  {
    if j < height - 1 {
      var lo, hi := (j + 1) * width, (height - 1) * width;
      assert lo == j * width + width;
      assert lo <= hi;
      assert hi == width * (height - 1);
    }
  }

  /** The samples of one pixel. */
  function SampleCount(samplesPerPixel: int): nat
  {
    if samplesPerPixel <= 0 then 0 else samplesPerPixel
  }

  /** One sample of pixel `(i, j)` added to the running sum: a fresh `getRay`
      followed by `rayColor`. */
  function SampleStep(lib: MathLib, e: Entropy, s: Setup, world: Model, i: int, j: int, acc: Drawn<Vec3>)
    : (res: Result<Drawn<Vec3>>)
    ensures res.Success? ==> acc.next + 2 <= res.value.next
  {
    var ray := GetRay(e, acc.next, s, i, j);
    match RayColor(lib, e, ray.next, ray.value, s.maxDepth, world)
    case Failure(msg) => Failure(msg)
    case Success(c) => Success(Drawn(Add(acc.value, c.value), c.next))
  }

  /** The sum of the first `n` samples of pixel `(i, j)`. */
  function SampleSum(lib: MathLib, e: Entropy, k: nat, s: Setup, world: Model, i: int, j: int, n: nat)
    : (res: Result<Drawn<Vec3>>)
    ensures res.Success? ==> k + 2 * n <= res.value.next
    decreases n
  {
    if n == 0 then Success(Drawn(BLACK, k))
    else
      match SampleSum(lib, e, k, s, world, i, j, n - 1)
      case Failure(msg) => Failure(msg)
      case Success(acc) => SampleStep(lib, e, s, world, i, j, acc)
  }

  /** A way of computing the bytes of pixel `(i, j)` from stream position
      `k`, together with the position after it, or the exception raised. */
  type PixelSource = (nat, int, int) -> Result<Drawn<Rgb>>

  /** The bytes `render` writes for pixel `(i, j)`: the sum of its samples,
      scaled by the per-sample scale and converted by `writeColor`. */
  function PixelOutcome(lib: MathLib, e: Entropy, s: Setup, world: Model, k: nat, i: int, j: int)
    : (res: Result<Drawn<Rgb>>)
    ensures res.Success? <==> SampleSum(lib, e, k, s, world, i, j, SampleCount(s.samplesPerPixel)).Success?
    ensures res.Success? ==> k + 2 * SampleCount(s.samplesPerPixel) <= res.value.next
  {
    match SampleSum(lib, e, k, s, world, i, j, SampleCount(s.samplesPerPixel))
    case Failure(msg) => Failure(msg)
    case Success(sum) => Success(Drawn(WriteColor(lib, Scale(s.pixelSamplesScale, sum.value)), sum.next))
  }

  /** The camera's pixel source. */
  function PixelBytes(lib: MathLib, e: Entropy, s: Setup, world: Model): (pixel: PixelSource)
    ensures Computes(pixel, lib, e, s, world)
  {
    (k: nat, i: int, j: int) => PixelOutcome(lib, e, s, world, k, i, j)
  }

  /** `pixel` agrees with what the camera computes for every pixel and
      stream position. */
  ghost predicate Computes(pixel: PixelSource, lib: MathLib, e: Entropy, s: Setup, world: Model)
  {
    forall k: nat, i: int, j: int {:trigger PixelOutcome(lib, e, s, world, k, i, j)} ::
      pixel(k, i, j) == PixelOutcome(lib, e, s, world, k, i, j)
  }

  /** What `render` has produced after some pixels: their bytes, the stream
      position, and the message of the exception that stopped it, if any. */
  datatype Progress = Progress(pixels: seq<Rgb>, next: nat, failure: Option<string>)

  /** `render` over a sequence of pixel coordinates: the pixels are computed
      in order, each from where the previous one left the stream; after a
      failure nothing more is written. */
  function Trace(pixel: PixelSource, k: nat, coords: seq<(int, int)>): (p: Progress)
    decreases |coords|
  {
    if |coords| == 0 then Progress([], k, None)
    else
      var before := Trace(pixel, k, coords[..|coords| - 1]);
      var (i, j) := coords[|coords| - 1];
      if before.failure.Some? then before
      else match pixel(before.next, i, j)
        case Failure(msg) => before.(failure := Some(msg))
        case Success(d) => Progress(before.pixels + [d.value], d.next, None)
  }

  /** A trace writes at most one pixel per coordinate, and exactly one when
      no exception stopped it. */
  lemma {:induction false} TraceLength(pixel: PixelSource, k: nat, coords: seq<(int, int)>)
    ensures |Trace(pixel, k, coords).pixels| <= |coords|
    ensures Trace(pixel, k, coords).failure.None? ==> |Trace(pixel, k, coords).pixels| == |coords|
    decreases |coords|
  {
    if |coords| > 0 {
      TraceLength(pixel, k, coords[..|coords| - 1]);
    }
  }

  /** Output once written is never taken back: the pixels of a prefix of the
      coordinates are a prefix of the pixels of the whole, and once a failure
      has stopped the trace, the longer trace is the same. */
  lemma {:induction false} TraceExtends(pixel: PixelSource, k: nat, coords: seq<(int, int)>, n: nat)
    requires n <= |coords|
    ensures var part, whole := Trace(pixel, k, coords[..n]), Trace(pixel, k, coords);
            part.pixels <= whole.pixels && (part.failure.Some? ==> whole == part)
    decreases |coords|
  {
    if n < |coords| {
      TraceExtends(pixel, k, coords[..|coords| - 1], n);
      assert coords[..|coords| - 1][..n] == coords[..n];
    } else {
      assert coords[..n] == coords;
    }
  }

  /** One more pixel: it is computed from where the trace stopped, and either
      its bytes are appended or the trace stops with the failure. */
  lemma TraceAppend(pixel: PixelSource, k: nat, coords: seq<(int, int)>, i: int, j: int)
    requires Trace(pixel, k, coords).failure.None?
    ensures var p := Trace(pixel, k, coords);
            var d := pixel(p.next, i, j);
            Trace(pixel, k, coords + [(i, j)]) ==
              if d.Failure? then p.(failure := Some(d.message))
              else Progress(p.pixels + [d.value.value], d.value.next, None)
  {
    assert (coords + [(i, j)])[..|coords|] == coords;
  }

  lemma PixelLinesAppend(pixels: seq<Rgb>, rgb: Rgb)
    ensures PixelLines(pixels + [rgb]) == PixelLines(pixels) + [Pixel(rgb)]
  {
  }

  lemma PrefixStep<T>(a: seq<T>, b: seq<T>, i: nat)
    requires i < |b|
    ensures a + b[..i] + [b[i]] == a + b[..i + 1]
    ensures (a + b)[..|a| + i + 1] == a + b[..i + 1]
  {
    assert b[..i] + [b[i]] == b[..i + 1];
  }

  /** The rows of a shorter image come first in the rows of a taller one. */
  lemma {:induction false} RowsPrefix(width: int, j: int, height: int)
    requires 0 <= j <= height
    ensures Rows(width, j) <= Rows(width, height)
    decreases height
  {
    if j < height {
      RowsPrefix(width, j, height - 1);
    }
  }

  /** An exception after a prefix of `b` ends the trace of `a + b` there. */
  lemma TraceStopsAt(pixel: PixelSource, k: nat, a: seq<(int, int)>, b: seq<(int, int)>, n: nat)
    requires n <= |b| && Trace(pixel, k, a + b[..n]).failure.Some?
    ensures Trace(pixel, k, a + b) == Trace(pixel, k, a + b[..n])
  {
    assert (a + b)[..|a| + n] == a + b[..n];
    TraceExtends(pixel, k, a + b, |a| + n);
  }

  /** An exception in the first `j` rows ends the whole image there. */
  lemma TraceStopsInRows(pixel: PixelSource, k: nat, width: int, j: int, height: int)
    requires 0 <= j <= height && Trace(pixel, k, Rows(width, j)).failure.Some?
    ensures Trace(pixel, k, Rows(width, height)) == Trace(pixel, k, Rows(width, j))
  {
    RowsPrefix(width, j, height);
    assert Rows(width, height)[..|Rows(width, j)|] == Rows(width, j);
    TraceExtends(pixel, k, Rows(width, height), |Rows(width, j)|);
  }

  /** An image rendered without an exception has one pixel line per pixel:
      `width * height` of them. */
  lemma FullImage(pixel: PixelSource, k: nat, width: int, height: int)
    requires width > 0 && height >= 0 && Trace(pixel, k, Rows(width, height)).failure.None?
    ensures |Trace(pixel, k, Rows(width, height)).pixels| == width * height
  {
    TraceLength(pixel, k, Rows(width, height));
    RowsLength(width, height);
  }

  /** Once a sample fails, every longer run of samples fails with the same message. */
  lemma {:induction false} SampleSumFailurePersists(lib: MathLib, e: Entropy, k: nat, s: Setup, world: Model,
                                                    i: int, j: int, n: nat, m: nat)
    requires n <= m && SampleSum(lib, e, k, s, world, i, j, n).Failure?
    ensures SampleSum(lib, e, k, s, world, i, j, m) == SampleSum(lib, e, k, s, world, i, j, n)
    decreases m
  {
    if n < m {
      SampleSumFailurePersists(lib, e, k, s, world, i, j, n, m - 1);
    }
  }

  /** With no samples per pixel every pixel is written as 0 0 0 and nothing
      is drawn from the stream. */
  lemma {:induction false} NoSamplesBlackImage(lib: MathLib, e: Entropy, k: nat, s: Setup, world: Model,
                                               coords: seq<(int, int)>)
    requires s.samplesPerPixel <= 0
    ensures var p := Trace(PixelBytes(lib, e, s, world), k, coords);
            p.failure.None? && p.next == k && |p.pixels| == |coords| &&
            forall n :: 0 <= n < |p.pixels| ==> p.pixels[n] == Rgb(0, 0, 0)
    decreases |coords|
  {
    if |coords| > 0 {
      var pixel := PixelBytes(lib, e, s, world);
      NoSamplesBlackImage(lib, e, k, s, world, coords[..|coords| - 1]);
      var (i, j) := coords[|coords| - 1];
      var black := Scale(s.pixelSamplesScale, BLACK);
      assert black.x == 0.0 && black.y == 0.0 && black.z == 0.0;
      assert pixel(k, i, j) == Success(Drawn(Rgb(0, 0, 0), k));
    }
  }

  /** The sample loop of `render` for pixel `(i, j)`: adds up the colours of
      the pixel's samples, stopping at the first exception. */
  method SamplePixel(lib: MathLib, e: Entropy, k: nat, s: Setup, world: Model, i: int, j: int)
    returns (res: Result<Drawn<Vec3>>)
    ensures res == SampleSum(lib, e, k, s, world, i, j, SampleCount(s.samplesPerPixel))
  {
    res := Success(Drawn(BLACK, k));
    var count := SampleCount(s.samplesPerPixel);
    var sample: nat := 0;
    while sample < count && res.Success?
      invariant sample <= count && res == SampleSum(lib, e, k, s, world, i, j, sample)
    {
      res := SampleStep(lib, e, s, world, i, j, res.value);
      sample := sample + 1;
    }
    if res.Failure? {
      SampleSumFailurePersists(lib, e, k, s, world, i, j, sample, count);
    }
  }

  /** The body of the inner loop of `render`: the samples of pixel `(i, j)`
      and the line with its bytes, or the exception that ends the output. */
  method RenderPixel(lib: MathLib, e: Entropy, k: nat, s: Setup, world: Model, i: int, j: int,
                     ghost pixel: PixelSource, ghost head: seq<Line>, lines0: seq<Line>, next0: nat)
    returns (lines: seq<Line>, next: nat, failure: Option<string>)
    requires 0 <= i < s.imageWidth && Computes(pixel, lib, e, s, world)
    requires var p := Trace(pixel, k, Rows(s.imageWidth, j) + Row(s.imageWidth, j)[..i]);
             p.failure.None? && lines0 == head + PixelLines(p.pixels) && next0 == p.next
    ensures var p := Trace(pixel, k, Rows(s.imageWidth, j) + Row(s.imageWidth, j)[..i + 1]);
            lines == head + PixelLines(p.pixels) && next == p.next && failure == p.failure
  {
    ghost var done := Rows(s.imageWidth, j) + Row(s.imageWidth, j)[..i];
    ghost var p := Trace(pixel, k, done);
    PrefixStep(Rows(s.imageWidth, j), Row(s.imageWidth, j), i);
    TraceAppend(pixel, k, done, i, j);
    var sum := SamplePixel(lib, e, next0, s, world, i, j);
    assert pixel(next0, i, j) == PixelOutcome(lib, e, s, world, next0, i, j);
    if sum.Failure? {
      return lines0, next0, Some(sum.message);
    }
    var rgb := WriteColor(lib, Scale(s.pixelSamplesScale, sum.value.value));
    PixelLinesAppend(p.pixels, rgb);
    return lines0 + [Pixel(rgb)], sum.value.next, None;
  }

  /** The inner loop of `render`: the pixels of row `j`, left to right,
      appended after the rows above it; it stops at the first exception. */
  method RenderRow(lib: MathLib, e: Entropy, k: nat, s: Setup, world: Model, j: int,
                   ghost pixel: PixelSource, ghost head: seq<Line>, lines0: seq<Line>, next0: nat)
    returns (lines: seq<Line>, next: nat, failure: Option<string>)
    requires j >= 0 && Computes(pixel, lib, e, s, world)
    requires var p := Trace(pixel, k, Rows(s.imageWidth, j));
             p.failure.None? && lines0 == head + PixelLines(p.pixels) && next0 == p.next
    ensures var p := Trace(pixel, k, Rows(s.imageWidth, j + 1));
            lines == head + PixelLines(p.pixels) && next == p.next && failure == p.failure
  {
    ghost var done := Rows(s.imageWidth, j);
    ghost var row := Row(s.imageWidth, j);
    assert Rows(s.imageWidth, j + 1) == done + row;
    lines, next, failure := lines0, next0, None;
    var i := 0;
    assert done + row[..0] == done;
    while i < s.imageWidth
      invariant 0 <= i <= |row|
      invariant var p := Trace(pixel, k, done + row[..i]);
                p.failure.None? && lines == head + PixelLines(p.pixels) && next == p.next && failure.None?
    {
      lines, next, failure := RenderPixel(lib, e, k, s, world, i, j, pixel, head, lines, next);
      if failure.Some? {
        TraceStopsAt(pixel, k, done, row, i + 1);
        return;
      }
      i := i + 1;
    }
    assert row[..i] == row;
  }

  /** The header and the outer loop of `render`: the rows top to bottom; it
      stops at the first exception. */
  method RenderImage(lib: MathLib, e: Entropy, k: nat, s: Setup, world: Model, ghost pixel: PixelSource)
    returns (lines: seq<Line>, next: nat, failure: Option<string>)
    requires Computes(pixel, lib, e, s, world)
    ensures var p := Trace(pixel, k, Rows(s.imageWidth, s.imageHeight));
            lines == Header(s.imageWidth, s.imageHeight) + PixelLines(p.pixels) &&
            next == p.next && failure == p.failure
  {
    var width, height := s.imageWidth, s.imageHeight;
    ghost var head := Header(width, height);
    lines := Header(width, height);
    next := k;
    failure := None;
    assert PixelLines([]) == [];
    var j := 0;
    while j < height
      invariant 0 <= j && (j <= height || j == 0)
      invariant var p := Trace(pixel, k, Rows(width, j));
                p.failure.None? && lines == head + PixelLines(p.pixels) && next == p.next && failure.None?
    {
      lines, next, failure := RenderRow(lib, e, k, s, world, j, pixel, head, lines, next);
      if failure.Some? {
        TraceStopsInRows(pixel, k, width, j + 1, height);
        return;
      }
      j := j + 1;
    }
    assert Rows(width, j) == Rows(width, height);
  }

  // ---------------------------------------------------------------- Camera

  /** `Camera`: the public settings with their defaults, and the fields
      `initialize` derives from them. */
  class Camera {
    var aspectRatio: real
    var imageWidth: int
    var samplesPerPixel: int
    var maxDepth: int
    var vfov: real
    var eye: Vec3
    var center: Vec3
    var up: Vec3
    var dofAngle: real
    var focusDistance: real

    var imageHeight: int
    var pixelSamplesScale: real
    var pixelOrigin: Vec3
    var pixelDeltaU: Vec3
    var pixelDeltaV: Vec3
    var u: Vec3
    var v: Vec3
    var w: Vec3
    var dofDiskU: Vec3
    var dofDiskV: Vec3

    /** The default settings. The derived fields have no value in the source
        until `initialize` runs; here they start at zero. */
    constructor ()
      ensures Settings() == Config(16.0 / 9.0, 100, 10, 10, 20.0, ORIGIN, CAMERA_FORWARD, WORLDSPACE_UP, 0.0, 0.0)
    {
      aspectRatio, imageWidth, samplesPerPixel, maxDepth := 16.0 / 9.0, 100, 10, 10;
      vfov, eye, center, up := 20.0, ORIGIN, CAMERA_FORWARD, WORLDSPACE_UP;
      dofAngle, focusDistance := 0.0, 0.0;
      imageHeight, pixelSamplesScale := 0, 0.0;
      pixelOrigin, pixelDeltaU, pixelDeltaV := ORIGIN, ORIGIN, ORIGIN;
      u, v, w, dofDiskU, dofDiskV := ORIGIN, ORIGIN, ORIGIN, ORIGIN, ORIGIN;
    }

    function Settings(): Config
      reads this
    {
      Config(aspectRatio, imageWidth, samplesPerPixel, maxDepth, vfov, eye, center, up, dofAngle, focusDistance)
    }

    function Snapshot(): Setup
      reads this
    {
      Setup(imageWidth, imageHeight, samplesPerPixel, maxDepth, pixelSamplesScale, eye, dofAngle,
            pixelOrigin, pixelDeltaU, pixelDeltaV, u, v, w, dofDiskU, dofDiskV)
    }

    /** `initialize`: computes the derived fields from the settings, which it
        leaves alone. */
    method Initialize(lib: MathLib)
      requires aspectRatio != 0.0
      modifies this
      ensures Settings() == old(Settings())
      ensures Snapshot() == Derive(lib, Settings())
      ensures imageHeight >= 1
    {
      var s := Derive(lib, Settings());
      imageHeight, pixelSamplesScale := s.imageHeight, s.pixelSamplesScale;
      pixelOrigin, pixelDeltaU, pixelDeltaV := s.pixelOrigin, s.pixelDeltaU, s.pixelDeltaV;
      u, v, w, dofDiskU, dofDiskV := s.u, s.v, s.w, s.dofDiskU, s.dofDiskV;
    }

    /** `render`: initializes, then writes the header and every pixel row by
        row, each the scaled sum of its samples. An exception thrown while
        sampling ends the output after the pixels already written. */
    method Render(lib: MathLib, e: Entropy, k: nat, world: Model)
      returns (lines: seq<Line>, next: nat, failure: Option<string>)
      requires aspectRatio != 0.0
      modifies this
      ensures Settings() == old(Settings())
      ensures Snapshot() == Derive(lib, Settings())
      ensures var p := Trace(PixelBytes(lib, e, Snapshot(), world), k, Rows(imageWidth, imageHeight));
              lines == Header(imageWidth, imageHeight) + PixelLines(p.pixels) &&
              next == p.next && failure == p.failure
    {
      Initialize(lib);
      var s := Snapshot();
      lines, next, failure := RenderImage(lib, e, k, s, world, PixelBytes(lib, e, s, world));
    }
  }
}
