/** The scatter rules of include/materials.h (repeated in include/Util.h).
    Each rule reads the hit record and the stream of draws and either scatters
    (an attenuation and a new ray), absorbs the ray (`None`), or fails because
    `random_vec3_n` gave up. */
module Materials {
  import opened Outcomes
  import opened Numeric
  import opened Vectors
  import opened Sampling
  import opened Hits

  /** The outputs `attenuation` and `scattered` of a `scatter` that returned true. */
  datatype Scattered = Scattered(attenuation: Vec3, scattered: Ray)

  /** Directions shorter than this (the double `1e-8`) are degenerate. */
  const DEGENERATE_LENGTH: real := 0.00000001

  /** The `MetalMaterial` constructor: fuzz is capped at 1 and not bounded below. */
  function NewMetal(albedo: Vec3, fuzz: real): (m: Material)
    ensures m.Metal? && m.albedo == albedo
    ensures m.fuzz <= 1.0 && m.fuzz <= fuzz
    ensures fuzz <= 1.0 ==> m.fuzz == fuzz
    ensures m.fuzz == Min(fuzz, 1.0)
  {
    Metal(albedo, if fuzz < 1.0 then fuzz else 1.0)
  }

  /** Building a metal from the fuzz of a constructed metal changes nothing:
      the cap is applied once. */
  lemma NewMetalStable(albedo: Vec3, fuzz: real)
    ensures NewMetal(albedo, NewMetal(albedo, fuzz).fuzz) == NewMetal(albedo, fuzz)
  {
  }

  // ---------------------------------------------------------------- Lambertian

  /** `v.length()` on a `glm::vec3`: the member function gives the number of
      components, not the Euclidean length (which is `glm::length(v)`). */
  const VEC3_COMPONENT_COUNT: int := 3

  /** The direction a Lambertian surface scatters into, for unit sample `u`,
      as written: the guard `scatterDirection.length() < 1e-8` compares the
      component count 3 with 1e-8, so it never replaces `n + u`. */
  function LambertianDirection(n: Vec3, u: Vec3): (d: Vec3)
    ensures Sub(d, n) == u
  {
    var scatterDirection := Add(n, u);
    if VEC3_COMPONENT_COUNT as real < DEGENERATE_LENGTH then n else scatterDirection
  }

  /** The direction the guard evidently means: the normal replaces `n + u`
      when the Euclidean length of `n + u` is below 1e-8. */
  function IntendedLambertianDirection(lib: MathLib, n: Vec3, u: Vec3): (d: Vec3)
    ensures lib.Length(Add(n, u)) < DEGENERATE_LENGTH ==> d == n
    ensures DEGENERATE_LENGTH <= lib.Length(Add(n, u)) ==> d == Add(n, u)
  {
    var scatterDirection := Add(n, u);
    if lib.Length(scatterDirection) < DEGENERATE_LENGTH then n else scatterDirection
  }

  /** The zero vector has length 0. */
  lemma LengthOfOrigin(lib: MathLib)
    requires lib.Lawful()
    ensures lib.Length(ORIGIN) == 0.0
  {
    SqrtOfSquare(lib, 0.0);
    assert Dot(ORIGIN, ORIGIN) == 0.0 * 0.0;
  }

  /** The intended guard never scatters along the zero vector off a surface
      with a non-zero normal. */
  lemma IntendedDirectionNonZero(lib: MathLib, n: Vec3, u: Vec3)
    requires lib.Lawful() && n != ORIGIN
    ensures IntendedLambertianDirection(lib, n, u) != ORIGIN
  {
    LengthOfOrigin(lib);
  }

  /** The guard as written never fires: a sample opposite the normal gives
      the zero direction, where the intended guard keeps the normal. */
  lemma LambertianGuardNeverFires(lib: MathLib, n: Vec3)
    requires lib.Lawful() && n != ORIGIN
    ensures LambertianDirection(n, Neg(n)) == ORIGIN
    ensures IntendedLambertianDirection(lib, n, Neg(n)) == n
  {
    assert Add(n, Neg(n)) == ORIGIN;
    LengthOfOrigin(lib);
  }

  /** `LambertianMaterial::scatter`: always scatters from the hit point with
      attenuation `albedo`, unless drawing the unit sample failed. */
  function LambertianScatter(lib: MathLib, e: Entropy, k: nat, albedo: Vec3, rIn: Ray, rec: HitRecord)
    : (res: Result<Drawn<Option<Scattered>>>)
    ensures res.Success? <==> UnitSample(lib, e, k).Success?
    ensures res.Success? ==>
              var u := UnitSample(lib, e, k).value;
              res.value.next == u.next &&
              res.value.value == Some(Scattered(albedo, Ray(rec.p, LambertianDirection(rec.n, u.value))))
  {
    match UnitSample(lib, e, k)
    case Failure(msg) => Failure(msg)
    case Success(u) =>
      Success(Drawn(Some(Scattered(albedo, Ray(rec.p, LambertianDirection(rec.n, u.value)))), u.next))
  }

  lemma MulStrictlyMonotone(s: real, eps: real)
    requires 0.0 <= s < eps
    ensures s * s < eps * eps
  {
    ProductNonNegative(s, eps - s);
    assert s * (eps - s) == s * eps - s * s;
    ProductPositive(eps - s, eps);
    assert (eps - s) * eps == eps * eps - s * eps;
    var lo, mid, hi := s * s, s * eps, eps * eps;
    assert lo <= mid < hi;
  }

  /** With a lawful square root the intended fallback fires exactly when the
      squared length of `n + u` is below 1e-16. */
  lemma LambertianFallbackExact(lib: MathLib, v: Vec3)
    requires lib.Lawful()
    ensures lib.Length(v) < DEGENERATE_LENGTH <==> Dot(v, v) < DEGENERATE_LENGTH * DEGENERATE_LENGTH
  {
    var x := Dot(v, v);
    DotSelfNonNegative(v);
    var s := lib.sqrt(x);
    assert 0.0 <= s && s * s == x;
    if s < DEGENERATE_LENGTH {
      MulStrictlyMonotone(s, DEGENERATE_LENGTH);
    }
    if x < DEGENERATE_LENGTH * DEGENERATE_LENGTH {
      SqrtMonotone(lib, x, DEGENERATE_LENGTH * DEGENERATE_LENGTH);
      SqrtOfSquare(lib, DEGENERATE_LENGTH);
    }
  }

  // ---------------------------------------------------------------- Metal

  /** The fuzzed mirror direction: normalised reflection plus `fuzz` times the unit sample. */
  function MetalDirection(lib: MathLib, rIn: Ray, n: Vec3, fuzz: real, u: Vec3): Vec3
  {
    Add(lib.normalize(lib.reflect(rIn.dir, n)), Scale(fuzz, u))
  }

  /** `MetalMaterial::scatter`: scatters exactly when the fuzzed reflection
      leaves the surface (positive dot product with the normal). */
  function MetalScatter(lib: MathLib, e: Entropy, k: nat, albedo: Vec3, fuzz: real, rIn: Ray, rec: HitRecord)
    : (res: Result<Drawn<Option<Scattered>>>)
    ensures res.Success? <==> UnitSample(lib, e, k).Success?
    ensures res.Success? ==>
              var u := UnitSample(lib, e, k).value;
              var dir := MetalDirection(lib, rIn, rec.n, fuzz, u.value);
              res.value.next == u.next &&
              (res.value.value.Some? <==> Dot(dir, rec.n) > 0.0) &&
              (res.value.value.Some? ==> res.value.value.value == Scattered(albedo, Ray(rec.p, dir)))
  {
    match UnitSample(lib, e, k)
    case Failure(msg) => Failure(msg)
    case Success(u) =>
      var reflected := MetalDirection(lib, rIn, rec.n, fuzz, u.value);
      var scattered := Ray(rec.p, reflected);
      Success(Drawn(if Dot(scattered.dir, rec.n) > 0.0 then Some(Scattered(albedo, scattered)) else None, u.next))
  }

  /** A metal without fuzz is a perfect mirror: the sample has no influence. */
  lemma MetalMirror(lib: MathLib, e: Entropy, k: nat, albedo: Vec3, rIn: Ray, rec: HitRecord)
    requires MetalScatter(lib, e, k, albedo, 0.0, rIn, rec).Success?
    ensures var mirror := lib.normalize(lib.reflect(rIn.dir, rec.n));
            var res := MetalScatter(lib, e, k, albedo, 0.0, rIn, rec).value.value;
            (res.Some? <==> Dot(mirror, rec.n) > 0.0) &&
            (res.Some? ==> res.value.scattered == Ray(rec.p, mirror))
  {
    var u := UnitSample(lib, e, k).value;
    assert MetalDirection(lib, rIn, rec.n, 0.0, u.value) == lib.normalize(lib.reflect(rIn.dir, rec.n));
  }

  // ---------------------------------------------------------------- Dielectric

  /** The index ratio: `1/base` when entering through the front face, `base` when leaving. */
  function RefractionRatio(base: PositiveReal, frontFace: bool): (ri: PositiveReal)
    ensures frontFace ==> ri * base == 1.0
    ensures !frontFace ==> ri == base
  {
    if frontFace then 1.0 / base else base
  }

  /** `cos_theta`: the cosine between the reversed unit direction and the normal, capped at 1. */
  function CosTheta(lib: MathLib, rIn: Ray, n: Vec3): (c: real)
    ensures c <= 1.0
  {
    Min(Dot(Neg(lib.normalize(rIn.dir)), n), 1.0)
  }

  /** `sin_theta`: for a cosine in [-1, 1], the sine in [0, 1] that completes it. */
  function SinTheta(lib: MathLib, cosTheta: real): (s: real)
    ensures lib.Lawful() && -1.0 <= cosTheta <= 1.0 ==> 0.0 <= s <= 1.0 && s * s + cosTheta * cosTheta == 1.0
  {
    SineOfCosine(lib, cosTheta);
    lib.sqrt(1.0 - cosTheta * cosTheta)
  }

  lemma SineOfCosine(lib: MathLib, c: real)
    ensures var s := lib.sqrt(1.0 - c * c);
            lib.Lawful() && -1.0 <= c <= 1.0 ==> 0.0 <= s <= 1.0 && s * s + c * c == 1.0
  {
    if lib.Lawful() && -1.0 <= c <= 1.0 {
      var x := 1.0 - c * c;
      if c >= 0.0 {
        ProductInUnit(c, c);
      } else {
        ProductInUnit(-c, -c);
      }
      assert 0.0 <= x <= 1.0;
      SqrtMonotone(lib, x, 1.0);
      SqrtOfSquare(lib, 1.0);
    }
  }

  /** Snell's law has no solution: total internal reflection. A ratio of at
      most 1 (entering a denser medium) never reflects totally. */
  function CannotRefract(lib: MathLib, ri: real, cosTheta: real): (b: bool)
    ensures lib.Lawful() && 0.0 < ri <= 1.0 && -1.0 <= cosTheta <= 1.0 ==> !b
  {
    RatioTimesSine(lib, ri, cosTheta);
    ri * SinTheta(lib, cosTheta) > 1.0
  }

  lemma RatioTimesSine(lib: MathLib, ri: real, c: real)
    ensures lib.Lawful() && 0.0 < ri <= 1.0 && -1.0 <= c <= 1.0 ==> ri * SinTheta(lib, c) <= 1.0
  {
    if lib.Lawful() && 0.0 < ri <= 1.0 && -1.0 <= c <= 1.0 {
      ProductInUnit(ri, SinTheta(lib, c));
    }
  }

  function Pow5(x: real): real { x * x * x * x * x }

  /** Reflectance at normal incidence, `((1 - ri) / (1 + ri))^2`. */
  function NormalReflectance(ri: PositiveReal): (r0: real)
    ensures 0.0 <= r0 < 1.0
  {
    var q := (1.0 - ri) / (1.0 + ri);
    assert -1.0 < q < 1.0;
    SquareBelowOne(q);
    q * q
  }

  lemma SquareBelowOne(q: real)
    requires -1.0 < q < 1.0
    ensures 0.0 <= q * q < 1.0
  {
    if q >= 0.0 {
      MulStrictlyMonotone(q, 1.0);
    } else {
      MulStrictlyMonotone(-q, 1.0);
    }
  }

  lemma Pow5UnitInterval(x: real)
    requires 0.0 <= x <= 1.0
    ensures 0.0 <= Pow5(x) <= 1.0
  {
    assert 0.0 <= x * x <= 1.0 by { assert x * x <= x * 1.0; }
    assert 0.0 <= x * x * x <= 1.0 by { assert x * x * x <= (x * x) * 1.0; }
    assert 0.0 <= x * x * x * x <= 1.0 by { assert x * x * x * x <= (x * x * x) * 1.0; }
    assert Pow5(x) <= (x * x * x * x) * 1.0;
  }

  /** `reflectance`: Schlick's approximation of the Fresnel reflectance. For a
      cosine in [0, 1] it is a probability no smaller than the reflectance at
      normal incidence, which it equals at cosine 1. */
  function Reflectance(cosine: real, ri: PositiveReal): (r: real)
    ensures cosine == 1.0 ==> r == NormalReflectance(ri)
    ensures 0.0 <= cosine <= 1.0 ==> NormalReflectance(ri) <= r <= 1.0
  {
    var r0, p := NormalReflectance(ri), Pow5(1.0 - cosine);
    if 0.0 <= cosine <= 1.0 then
      Pow5UnitInterval(1.0 - cosine);
      WeightedBetween(r0, p);
      assert cosine == 1.0 ==> p == 0.0 && (1.0 - r0) * p == 0.0;
      r0 + (1.0 - r0) * p
    else
      r0 + (1.0 - r0) * p
  }

  lemma WeightedBetween(r0: real, p: real)
    requires 0.0 <= r0 < 1.0 && 0.0 <= p <= 1.0
    ensures r0 <= r0 + (1.0 - r0) * p <= 1.0
  {
    var w, v := 1.0 - r0, 1.0 - p;
    var wp, wv := w * p, w * v;
    ProductNonNegative(w, p);
    ProductNonNegative(w, v);
    assert wv == w * 1.0 - wp;
    assert (1.0 - r0) * p == wp;
  }

  /** `DialectricMaterial::scatter`: never absorbs and never fails. Under total
      internal reflection it reflects without drawing; otherwise it draws one
      `randomFloat` and reflects when the reflectance exceeds it, refracting
      otherwise. */
  function DielectricScatter(lib: MathLib, e: Entropy, k: nat, base: PositiveReal, rIn: Ray, rec: HitRecord)
    : (d: Drawn<Option<Scattered>>)
    ensures d.value.Some? && d.value.value.attenuation == WHITE && d.value.value.scattered.origin == rec.p
    ensures var ri := RefractionRatio(base, rec.isFrontFace);
            var unitDirection := lib.normalize(rIn.dir);
            var cosTheta := CosTheta(lib, rIn, rec.n);
            var dir := d.value.value.scattered.dir;
            (CannotRefract(lib, ri, cosTheta) ==> d.next == k && dir == lib.reflect(unitDirection, rec.n)) &&
            (!CannotRefract(lib, ri, cosTheta) ==>
               d.next == k + 1 &&
               (Reflectance(cosTheta, ri) > e.randomFloat(k) ==> dir == lib.reflect(unitDirection, rec.n)) &&
               (Reflectance(cosTheta, ri) <= e.randomFloat(k) ==> dir == lib.refract(unitDirection, rec.n, ri)))
  {
    var ri := RefractionRatio(base, rec.isFrontFace);
    var unitDirection := lib.normalize(rIn.dir);
    var cosTheta := CosTheta(lib, rIn, rec.n);
    var reflected := Scattered(WHITE, Ray(rec.p, lib.reflect(unitDirection, rec.n)));
    if CannotRefract(lib, ri, cosTheta) then Drawn(Some(reflected), k)
    else if Reflectance(cosTheta, ri) > e.randomFloat(k) then Drawn(Some(reflected), k + 1)
    else Drawn(Some(Scattered(WHITE, Ray(rec.p, lib.refract(unitDirection, rec.n, ri)))), k + 1)
  }

  /** A ray meeting the surface head-on (cosine 1) is never totally reflected,
      and its reflection probability is the normal-incidence reflectance. */
  lemma DielectricHeadOn(lib: MathLib, ri: PositiveReal)
    requires lib.Lawful()
    ensures !CannotRefract(lib, ri, 1.0)
    ensures Reflectance(1.0, ri) == NormalReflectance(ri)
  {
    SqrtOfSquare(lib, 0.0);
    assert 1.0 - 1.0 * 1.0 == 0.0 * 0.0;
  }

  /** The ratios of the two faces are reciprocal: a ray that enters and then
      leaves the same glass is bent by ratios whose product is 1. */
  lemma RatioByFace(base: PositiveReal)
    ensures RefractionRatio(base, true) * RefractionRatio(base, false) == 1.0
  {
  }

  // ---------------------------------------------------------------- dispatch

  /** `Material::scatter` with its overrides. */
  function Scatter(lib: MathLib, e: Entropy, k: nat, m: Material, rIn: Ray, rec: HitRecord)
    : (res: Result<Drawn<Option<Scattered>>>)
    ensures m.Absorbing? ==> res == Success(Drawn(None, k))
    ensures m.Dielectric? ==> res.Success? && res.value.value.Some? && res.value.value.value.attenuation == WHITE
    ensures m.Lambertian? && res.Success? ==> res.value.value.Some?
    ensures (m.Lambertian? || m.Metal?) && res.Success? && res.value.value.Some? ==>
              res.value.value.value.attenuation == m.albedo
    ensures res.Success? && res.value.value.Some? ==> res.value.value.value.scattered.origin == rec.p
    ensures res.Failure? ==> (m.Lambertian? || m.Metal?) && UnitSample(lib, e, k).Failure?
    ensures res.Success? ==> k <= res.value.next
  {
    match m
    case Absorbing => Success(Drawn(None, k))
    case Lambertian(albedo) => LambertianScatter(lib, e, k, albedo, rIn, rec)
    case Metal(albedo, fuzz) => MetalScatter(lib, e, k, albedo, fuzz, rIn, rec)
    case Dielectric(base) => Success(DielectricScatter(lib, e, k, base, rIn, rec))
  }
}
