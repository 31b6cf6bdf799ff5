/** The scene objects of include/models.h (repeated in include/Util.h): a
    sphere, and a list of models that reports the closest hit of its members. */
module Models {
  import opened Outcomes
  import opened Numeric
  import opened Vectors
  import opened Intervals
  import opened Hits

  /** `Sphere`: centre, radius (never negative) and material. */
  datatype Sphere = Sphere(center: Vec3, radius: real, material: Material)

  /** A model is a sphere or a list of models (a `ModelList` may hold another). */
  datatype Model = SphereModel(sphere: Sphere) | ListModel(objects: seq<Model>)

  /** The `Sphere` constructor, which clamps a negative radius to 0. */
  function NewSphere(center: Vec3, radius: real, material: Material): (s: Sphere)
    ensures s.center == center && s.material == material
    ensures s.radius >= 0.0
    ensures radius >= 0.0 ==> s.radius == radius
    ensures radius < 0.0 ==> s.radius == 0.0
  {
    Sphere(center, Max(0.0, radius), material)
  }

  // ---------------------------------------------------------------- sphere

  /** `oc`: from the ray origin to the centre. */
  function OC(s: Sphere, r: Ray): Vec3 { Sub(s.center, r.origin) }

  /** The coefficients of `a t^2 - 2 h t + c = 0`, whose roots are the ray
      parameters where the ray meets the sphere. */
  function QuadA(r: Ray): real { Dot(r.dir, r.dir) }
  function QuadH(s: Sphere, r: Ray): real { Dot(r.dir, OC(s, r)) }
  function QuadC(s: Sphere, r: Ray): real { Dot(OC(s, r), OC(s, r)) - s.radius * s.radius }
  function Discriminant(s: Sphere, r: Ray): real { QuadH(s, r) * QuadH(s, r) - QuadA(r) * QuadC(s, r) }

  function NearRoot(lib: MathLib, s: Sphere, r: Ray): real
    requires QuadA(r) != 0.0
  {
    (QuadH(s, r) - lib.sqrt(Discriminant(s, r))) / QuadA(r)
  }

  function FarRoot(lib: MathLib, s: Sphere, r: Ray): real
    requires QuadA(r) != 0.0
  {
    (QuadH(s, r) + lib.sqrt(Discriminant(s, r))) / QuadA(r)
  }

  /** `(p - center) / radius`; the zero radius, where the source divides by
      zero, keeps the unscaled difference. */
  function OutwardNormal(s: Sphere, p: Vec3): (n: Vec3)
    ensures s.radius != 0.0 ==> Scale(s.radius, n) == Sub(p, s.center)
  {
    if s.radius == 0.0 then Sub(p, s.center) else Scale(1.0 / s.radius, Sub(p, s.center))
  }

  /** The record `Sphere::hit` fills in for ray parameter `t`. */
  function SphereRecord(s: Sphere, r: Ray, t: real): (rec: HitRecord)
    ensures rec.t == t && rec.p == r.At(t) && rec.material == s.material
    ensures rec.isFrontFace <==> Dot(r.dir, OutwardNormal(s, rec.p)) < 0.0
    ensures rec.n == (if rec.isFrontFace then OutwardNormal(s, rec.p) else Neg(OutwardNormal(s, rec.p)))
    ensures Dot(r.dir, rec.n) <= 0.0
  {
    var p := r.At(t);
    HitRecord(p, ORIGIN, s.material, t, false).SetFaceNormal(r, OutwardNormal(s, p))
  }

  /** `Sphere::hit`: the nearer root if it lies in the open window, else the
      farther one if it does, else a miss. A ray with a zero direction misses
      (the source computes 0/0 there, which no window contains). */
  function SphereHit(lib: MathLib, s: Sphere, r: Ray, rayT: Interval): (res: Option<HitRecord>)
    ensures res.Some? ==> rayT.ContainsOpen(res.value.t) && res.value.p == r.At(res.value.t)
    ensures res.Some? ==> res.value.material == s.material
    ensures res.Some? ==> QuadA(r) != 0.0 && 0.0 <= Discriminant(s, r) &&
                          (res.value.t == NearRoot(lib, s, r) || res.value.t == FarRoot(lib, s, r))
    ensures res.Some? && res.value.t != NearRoot(lib, s, r) ==> !rayT.ContainsOpen(NearRoot(lib, s, r))
    ensures QuadA(r) != 0.0 && 0.0 <= Discriminant(s, r) && rayT.ContainsOpen(NearRoot(lib, s, r)) ==>
              res == Some(SphereRecord(s, r, NearRoot(lib, s, r)))
    ensures res.Some? ==> res.value == SphereRecord(s, r, res.value.t)
  {
    if Discriminant(s, r) < 0.0 || QuadA(r) == 0.0 then None
    else if rayT.ContainsOpen(NearRoot(lib, s, r)) then Some(SphereRecord(s, r, NearRoot(lib, s, r)))
    else if rayT.ContainsOpen(FarRoot(lib, s, r)) then Some(SphereRecord(s, r, FarRoot(lib, s, r)))
    else None
  }

  // ---------------------------------------------------------------- geometry of the roots

  /** The ray point at `t` lies on the sphere. */
  ghost predicate OnSphere(s: Sphere, r: Ray, t: real)
  {
    var v := Sub(r.At(t), s.center);
    Dot(v, v) == s.radius * s.radius
  }

  function Quadratic(s: Sphere, r: Ray, t: real): real
  {
    QuadA(r) * t * t - 2.0 * QuadH(s, r) * t + QuadC(s, r)
  }

  lemma OnSphereIsRoot(s: Sphere, r: Ray, t: real)
    ensures OnSphere(s, r, t) <==> Quadratic(s, r, t) == 0.0
  {
    var v := Sub(r.At(t), s.center);
    var oc := OC(s, r);
    var d := r.dir;
    assert v == Vec3(t * d.x - oc.x, t * d.y - oc.y, t * d.z - oc.z);
    assert Dot(v, v) == t * t * Dot(d, d) - 2.0 * t * Dot(d, oc) + Dot(oc, oc);
  }

  /** Completing the square: `a * q(t) = (a t - h)^2 - discriminant`. */
  lemma CompletedSquare(s: Sphere, r: Ray, t: real)
    ensures QuadA(r) * Quadratic(s, r, t) ==
            (QuadA(r) * t - QuadH(s, r)) * (QuadA(r) * t - QuadH(s, r)) - Discriminant(s, r)
  {
  }

  lemma RootsOrdered(lib: MathLib, s: Sphere, r: Ray)
    requires lib.Lawful() && QuadA(r) != 0.0 && 0.0 <= Discriminant(s, r)
    ensures NearRoot(lib, s, r) <= FarRoot(lib, s, r)
  {
    var a, h, q := QuadA(r), QuadH(s, r), lib.sqrt(Discriminant(s, r));
    DotSelfNonNegative(r.dir);
    assert (h + q) / a - (h - q) / a == (2.0 * q) / a;
    assert 0.0 <= (2.0 * q) / a;
  }

  /** With `a > 0`, `a q = u^2 - d` has no zero when `d < 0`. */
  lemma NoRootBelowZero(a: real, q: real, u: real, d: real)
    requires a > 0.0 && a * q == u * u - d && d < 0.0
    ensures q != 0.0
  {
    assert 0.0 <= u * u;
  }

  /** With `a > 0` and `w >= 0`, `a t - h = +-w` exactly at `t = (h -+ w) / a`. */
  lemma FactoredRoots(a: real, h: real, w: real, t: real)
    requires a > 0.0
    ensures (a * t - h - w) * (a * t - h + w) == 0.0 <==> t == (h - w) / a || t == (h + w) / a
  {
    var u := a * t - h;
    if (u - w) * (u + w) == 0.0 {
      assert u == w || u == -w;
      if u == w {
        assert t == (h + w) / a;
      } else {
        assert t == (h - w) / a;
      }
    }
    if t == (h - w) / a {
      assert a * t == h - w;
    }
    if t == (h + w) / a {
      assert a * t == h + w;
    }
  }

  /** The two roots are roots, and there are no others. */
  lemma RootsAreExactlyTheTwo(lib: MathLib, s: Sphere, r: Ray, t: real)
    requires lib.Lawful() && QuadA(r) != 0.0
    ensures Discriminant(s, r) < 0.0 ==> !OnSphere(s, r, t)
    ensures 0.0 <= Discriminant(s, r) ==>
              (OnSphere(s, r, t) <==> t == NearRoot(lib, s, r) || t == FarRoot(lib, s, r))
  {
    OnSphereIsRoot(s, r, t);
    CompletedSquare(s, r, t);
    var a, h, d, q := QuadA(r), QuadH(s, r), Discriminant(s, r), Quadratic(s, r, t);
    DotSelfNonNegative(r.dir);
    if d < 0.0 {
      NoRootBelowZero(a, q, a * t - h, d);
    } else {
      var w := lib.sqrt(d);
      assert w * w == d;
      assert a * q == (a * t - h - w) * (a * t - h + w);
      FactoredRoots(a, h, w, t);
      assert q == 0.0 <==> a * q == 0.0;
    }
  }

  /** A hit lies on the sphere, and no point of the sphere inside the window
      is nearer along the ray. */
  lemma SphereHitIsNearest(lib: MathLib, s: Sphere, r: Ray, rayT: Interval, t: real)
    requires lib.Lawful() && SphereHit(lib, s, r, rayT).Some?
    ensures OnSphere(s, r, SphereHit(lib, s, r, rayT).value.t)
    ensures OnSphere(s, r, t) && rayT.ContainsOpen(t) ==> SphereHit(lib, s, r, rayT).value.t <= t
  {
    var h := SphereHit(lib, s, r, rayT).value;
    RootsAreExactlyTheTwo(lib, s, r, h.t);
    RootsAreExactlyTheTwo(lib, s, r, t);
    RootsOrdered(lib, s, r);
  }

  /** A miss means no point of the sphere inside the window, for any ray with
      a direction. */
  lemma SphereMissIsEmpty(lib: MathLib, s: Sphere, r: Ray, rayT: Interval, t: real)
    requires lib.Lawful() && r.dir != ORIGIN && SphereHit(lib, s, r, rayT).None?
    ensures !(OnSphere(s, r, t) && rayT.ContainsOpen(t))
  {
    DotSelfPositive(r.dir);
    RootsAreExactlyTheTwo(lib, s, r, t);
  }

  /** For a sphere of positive radius the outward normal at a hit has unit length. */
  lemma OutwardNormalIsUnit(lib: MathLib, s: Sphere, r: Ray, rayT: Interval)
    requires lib.Lawful() && s.radius > 0.0 && SphereHit(lib, s, r, rayT).Some?
    ensures var n := OutwardNormal(s, SphereHit(lib, s, r, rayT).value.p); Dot(n, n) == 1.0
  {
    var h := SphereHit(lib, s, r, rayT).value;
    SphereHitIsNearest(lib, s, r, rayT, h.t);
    var v := Sub(h.p, s.center);
    var k, R := 1.0 / s.radius, s.radius;
    assert Dot(v, v) == R * R;
    DotScaled(k, v);
    SquareOfProduct(k, R);
    assert k * R == 1.0;
  }

  // ---------------------------------------------------------------- models

  /** The state of `ModelList::hit` after looking at some members: the
      current upper end of the window and the record kept so far. */
  datatype Scan = Scan(closest: Bound, found: Option<HitRecord>)

  /** Every surface of the model has an albedo in the unit cube. */
  predicate AlbedosWithinUnit(m: Model)
  {
    match m
    case SphereModel(s) => AlbedoWithinUnit(s.material)
    case ListModel(objects) => forall i :: 0 <= i < |objects| ==> AlbedosWithinUnit(objects[i])
  }

  /** `Model::hit` on the window `(lo, hi)`. */
  function ModelHit(lib: MathLib, m: Model, r: Ray, lo: Bound, hi: Bound): (res: Option<HitRecord>)
    ensures res.Some? ==> Interval(lo, hi).ContainsOpen(res.value.t) && res.value.p == r.At(res.value.t)
    ensures res.Some? ==> Dot(r.dir, res.value.n) <= 0.0 && (res.value.isFrontFace ==> Dot(r.dir, res.value.n) < 0.0)
    ensures res.Some? && AlbedosWithinUnit(m) ==> AlbedoWithinUnit(res.value.material)
    decreases m, 1, 0
  {
    match m
    case SphereModel(s) => SphereHit(lib, s, r, Interval(lo, hi))
    case ListModel(objects) => ScanPrefix(lib, m, r, lo, hi, |objects|).found
  }

  /** `ModelList::hit` after its loop has visited the first `n` members: each
      member is asked for a hit below the closest one so far. */
  function ScanPrefix(lib: MathLib, m: Model, r: Ray, lo: Bound, hi: Bound, n: nat): (st: Scan)
    requires m.ListModel? && n <= |m.objects|
    ensures AtMost(st.closest, hi)
    ensures st.found.None? ==> st.closest == hi
    ensures st.found.Some? ==> st.closest == Finite(st.found.value.t) &&
                               Interval(lo, hi).ContainsOpen(st.found.value.t) &&
                               st.found.value.p == r.At(st.found.value.t)
    ensures st.found.Some? ==> Dot(r.dir, st.found.value.n) <= 0.0 && (st.found.value.isFrontFace ==> Dot(r.dir, st.found.value.n) < 0.0)
    ensures st.found.Some? && AlbedosWithinUnit(m) ==> AlbedoWithinUnit(st.found.value.material)
    decreases m, 0, n
  {
    if n == 0 then Scan(hi, None)
    else
      var st := ScanPrefix(lib, m, r, lo, hi, n - 1);
      match ModelHit(lib, m.objects[n - 1], r, lo, st.closest)
      case Some(h) => Scan(Finite(h.t), Some(h))
      case None => st
  }

  /** Moving the upper end of the window from `hi'` up to `hi` keeps any hit
      found below `hi'`, and moving it down keeps a hit that is still below. */
  lemma {:induction false} ModelWindow(lib: MathLib, m: Model, r: Ray, lo: Bound, hi: Bound, hi': Bound)
    requires lib.Lawful() && AtMost(hi', hi)
    ensures ModelHit(lib, m, r, lo, hi').Some? ==> ModelHit(lib, m, r, lo, hi) == ModelHit(lib, m, r, lo, hi')
    ensures ModelHit(lib, m, r, lo, hi).Some? && Below(Finite(ModelHit(lib, m, r, lo, hi).value.t), hi') ==>
              ModelHit(lib, m, r, lo, hi') == ModelHit(lib, m, r, lo, hi)
    decreases m, 1, 0
  {
    match m
    case SphereModel(s) =>
      SphereWindow(lib, s, r, lo, hi, hi');
    case ListModel(objects) =>
      ScanWindow(lib, m, r, lo, hi, hi', |objects|);
  }

  lemma SphereWindow(lib: MathLib, s: Sphere, r: Ray, lo: Bound, hi: Bound, hi': Bound)
    requires lib.Lawful() && AtMost(hi', hi)
    ensures SphereHit(lib, s, r, Interval(lo, hi')).Some? ==>
              SphereHit(lib, s, r, Interval(lo, hi)) == SphereHit(lib, s, r, Interval(lo, hi'))
    ensures SphereHit(lib, s, r, Interval(lo, hi)).Some? &&
            Below(Finite(SphereHit(lib, s, r, Interval(lo, hi)).value.t), hi') ==>
              SphereHit(lib, s, r, Interval(lo, hi')) == SphereHit(lib, s, r, Interval(lo, hi))
  {
    if QuadA(r) != 0.0 && 0.0 <= Discriminant(s, r) {
      RootsOrdered(lib, s, r);
    }
  }

  /** Two runs of the loop, one on `(lo, hi)` and one on the narrower
      `(lo, hi')`, stay in step: the narrow run's closest end is the lesser
      of the two, and the runs agree once the wide one is below `hi'`. */
  lemma {:induction false} ScanWindow(lib: MathLib, m: Model, r: Ray, lo: Bound, hi: Bound, hi': Bound, n: nat)
    requires lib.Lawful() && AtMost(hi', hi) && m.ListModel? && n <= |m.objects|
    ensures var wide, narrow := ScanPrefix(lib, m, r, lo, hi, n), ScanPrefix(lib, m, r, lo, hi', n);
            narrow.closest == Lesser(wide.closest, hi') &&
            (Below(wide.closest, hi') ==> narrow.found == wide.found)
    decreases m, 0, n
  {
    if n > 0 {
      ScanWindow(lib, m, r, lo, hi, hi', n - 1);
      var wide, narrow := ScanPrefix(lib, m, r, lo, hi, n - 1), ScanPrefix(lib, m, r, lo, hi', n - 1);
      var c := m.objects[n - 1];
      ModelWindow(lib, c, r, lo, wide.closest, narrow.closest);
      match ModelHit(lib, c, r, lo, wide.closest)
      case None =>
      case Some(g) =>
        if !Below(Finite(g.t), hi') {
          ModelWindow(lib, c, r, lo, wide.closest, Finite(g.t));
        }
    }
  }

  /** A model that misses on a window misses on every narrower one. */
  lemma ModelMissNarrows(lib: MathLib, m: Model, r: Ray, lo: Bound, hi: Bound, hi': Bound)
    requires lib.Lawful() && AtMost(hi', hi) && ModelHit(lib, m, r, lo, hi).None?
    ensures ModelHit(lib, m, r, lo, hi').None?
  {
    ModelWindow(lib, m, r, lo, hi, hi');
  }

  /** Nothing in a model is hit before the hit it reports. */
  lemma ModelNothingNearer(lib: MathLib, m: Model, r: Ray, lo: Bound, hi: Bound, hi': Bound)
    requires lib.Lawful() && ModelHit(lib, m, r, lo, hi).Some?
    requires AtMost(hi', Finite(ModelHit(lib, m, r, lo, hi).value.t))
    ensures ModelHit(lib, m, r, lo, hi').None?
  {
    ModelWindow(lib, m, r, lo, hi, hi');
  }

  /** What the loop of `ModelList::hit` knows after `n` members: none of
      them hits before the closest hit so far, it has a record exactly when
      one of them hits the window, the record is one of theirs, and none of
      them hits before it. */
  lemma {:induction false} ScanFacts(lib: MathLib, m: Model, r: Ray, lo: Bound, hi: Bound, n: nat)
    requires lib.Lawful() && m.ListModel? && n <= |m.objects|
    ensures var st := ScanPrefix(lib, m, r, lo, hi, n);
            (forall j :: 0 <= j < n ==> ModelHit(lib, m.objects[j], r, lo, st.closest).None?) &&
            (st.found.None? <==> forall j :: 0 <= j < n ==> ModelHit(lib, m.objects[j], r, lo, hi).None?) &&
            (st.found.Some? ==> exists j :: 0 <= j < n && ModelHit(lib, m.objects[j], r, lo, hi) == st.found) &&
            (st.found.Some? ==> forall j :: 0 <= j < n ==>
               ModelHit(lib, m.objects[j], r, lo, Finite(st.found.value.t)).None?)
  {
    ScanMissesBelow(lib, m, r, lo, hi, n);
    ScanFoundIff(lib, m, r, lo, hi, n);
    ScanFoundIsMember(lib, m, r, lo, hi, n);
  }

  /** No member visited so far hits before the closest hit so far. */
  lemma {:induction false} ScanMissesBelow(lib: MathLib, m: Model, r: Ray, lo: Bound, hi: Bound, n: nat)
    requires lib.Lawful() && m.ListModel? && n <= |m.objects|
    ensures forall j :: 0 <= j < n ==> ModelHit(lib, m.objects[j], r, lo, ScanPrefix(lib, m, r, lo, hi, n).closest).None?
  {
    if n > 0 {
      ScanMissesBelow(lib, m, r, lo, hi, n - 1);
      var st := ScanPrefix(lib, m, r, lo, hi, n - 1);
      if ModelHit(lib, m.objects[n - 1], r, lo, st.closest).Some? {
        ScanHitStep(lib, m, r, lo, hi, n);
      }
    }
  }

  /** The loop has a record exactly when some member visited so far hits
      the window. */
  lemma {:induction false} ScanFoundIff(lib: MathLib, m: Model, r: Ray, lo: Bound, hi: Bound, n: nat)
    requires lib.Lawful() && m.ListModel? && n <= |m.objects|
    ensures ScanPrefix(lib, m, r, lo, hi, n).found.None? <==>
              forall j :: 0 <= j < n ==> ModelHit(lib, m.objects[j], r, lo, hi).None?
  {
    if n > 0 {
      ScanFoundIff(lib, m, r, lo, hi, n - 1);
      var st := ScanPrefix(lib, m, r, lo, hi, n - 1);
      var c := m.objects[n - 1];
      if ModelHit(lib, c, r, lo, st.closest).Some? {
        ModelWindow(lib, c, r, lo, hi, st.closest);
      }
    }
  }

  /** The record the loop keeps is the hit of one of the members visited. */
  lemma {:induction false} ScanFoundIsMember(lib: MathLib, m: Model, r: Ray, lo: Bound, hi: Bound, n: nat)
    requires lib.Lawful() && m.ListModel? && n <= |m.objects|
    ensures var st := ScanPrefix(lib, m, r, lo, hi, n);
            st.found.Some? ==> exists j :: 0 <= j < n && ModelHit(lib, m.objects[j], r, lo, hi) == st.found
  {
    if n > 0 {
      ScanFoundIsMember(lib, m, r, lo, hi, n - 1);
      var st := ScanPrefix(lib, m, r, lo, hi, n - 1);
      var c := m.objects[n - 1];
      if ModelHit(lib, c, r, lo, st.closest).Some? {
        ModelWindow(lib, c, r, lo, hi, st.closest);
        assert ModelHit(lib, m.objects[n - 1], r, lo, hi) == ScanPrefix(lib, m, r, lo, hi, n).found;
      } else if st.found.Some? {
        var j :| 0 <= j < n - 1 && ModelHit(lib, m.objects[j], r, lo, hi) == st.found;
        assert ModelHit(lib, m.objects[j], r, lo, hi) == ScanPrefix(lib, m, r, lo, hi, n).found;
      }
    }
  }

  /** A member that hits below the closest hit so far: its hit is its hit
      on the whole window, and neither it nor an earlier member is hit
      nearer. */
  lemma ScanHitStep(lib: MathLib, m: Model, r: Ray, lo: Bound, hi: Bound, n: nat)
    requires lib.Lawful() && m.ListModel? && 0 < n <= |m.objects|
    requires var st := ScanPrefix(lib, m, r, lo, hi, n - 1);
             ModelHit(lib, m.objects[n - 1], r, lo, st.closest).Some? &&
             forall j :: 0 <= j < n - 1 ==> ModelHit(lib, m.objects[j], r, lo, st.closest).None?
    ensures var st := ScanPrefix(lib, m, r, lo, hi, n - 1);
            var g := ModelHit(lib, m.objects[n - 1], r, lo, st.closest);
            ModelHit(lib, m.objects[n - 1], r, lo, hi) == g &&
            ModelHit(lib, m.objects[n - 1], r, lo, Finite(g.value.t)).None? &&
            forall j :: 0 <= j < n - 1 ==> ModelHit(lib, m.objects[j], r, lo, Finite(g.value.t)).None?
  {
    var st := ScanPrefix(lib, m, r, lo, hi, n - 1);
    var c := m.objects[n - 1];
    var g := ModelHit(lib, c, r, lo, st.closest).value;
    ModelWindow(lib, c, r, lo, hi, st.closest);
    ModelNothingNearer(lib, c, r, lo, st.closest, Finite(g.t));
    assert AtMost(Finite(g.t), st.closest);
    forall j | 0 <= j < n - 1
      ensures ModelHit(lib, m.objects[j], r, lo, Finite(g.t)).None?
    {
      ModelMissNarrows(lib, m.objects[j], r, lo, st.closest, Finite(g.t));
    }
  }

  /** `ModelList::hit` reports the closest hit of its members: it hits exactly
      when a member does, reports one member's own hit, and no member is hit
      nearer. */
  lemma ListHitIsClosest(lib: MathLib, objects: seq<Model>, r: Ray, lo: Bound, hi: Bound)
    requires lib.Lawful()
    ensures ModelHit(lib, ListModel(objects), r, lo, hi).None? <==>
              forall j :: 0 <= j < |objects| ==> ModelHit(lib, objects[j], r, lo, hi).None?
    ensures ModelHit(lib, ListModel(objects), r, lo, hi).Some? ==>
              (exists j :: 0 <= j < |objects| && ModelHit(lib, objects[j], r, lo, hi) == ModelHit(lib, ListModel(objects), r, lo, hi)) &&
              forall j :: 0 <= j < |objects| && ModelHit(lib, objects[j], r, lo, hi).Some? ==>
                ModelHit(lib, ListModel(objects), r, lo, hi).value.t <= ModelHit(lib, objects[j], r, lo, hi).value.t
  {
    var m := ListModel(objects);
    ScanFacts(lib, m, r, lo, hi, |objects|);
    var res := ModelHit(lib, m, r, lo, hi);
    if res.Some? {
      forall j | 0 <= j < |objects| && ModelHit(lib, objects[j], r, lo, hi).Some?
        ensures res.value.t <= ModelHit(lib, objects[j], r, lo, hi).value.t
      {
        var g := ModelHit(lib, objects[j], r, lo, hi).value;
        if g.t < res.value.t {
          ModelWindow(lib, objects[j], r, lo, hi, Finite(res.value.t));
        }
      }
    }
  }

  /** An empty list hits nothing. */
  lemma EmptyListMisses(lib: MathLib, r: Ray, lo: Bound, hi: Bound)
    ensures ModelHit(lib, ListModel([]), r, lo, hi).None?
  {
  }

  // ---------------------------------------------------------------- ModelList

  /** `ModelList`: a growable list of models. */
  class ModelList {
    var objects: seq<Model>

    /** `ModelList()`. */
    constructor ()
      ensures objects == []
    {
      objects := [];
    }

    /** `ModelList(object)`. */
    constructor Single(item: Model)
      ensures objects == [item]
    {
      objects := [item];
    }

    /** `clear`. */
    method Clear()
      modifies this
      ensures objects == []
    {
      objects := [];
    }

    /** `add`: appends at the end. */
    method Add(item: Model)
      modifies this
      ensures objects == old(objects) + [item]
    {
      objects := objects + [item];
    }

    /** The list as a model value. */
    function AsModel(): (m: Model)
      reads this
      ensures m.ListModel? && m.objects == objects
    {
      ListModel(objects)
    }

    /** `ModelList::hit`: on a hit `rec` is the closest hit of the members; on
        a miss it keeps what the caller passed in. */
    method Hit(lib: MathLib, r: Ray, rayT: Interval, rec0: HitRecord) returns (hitAnything: bool, rec: HitRecord)
      ensures hitAnything <==> ModelHit(lib, AsModel(), r, rayT.min, rayT.max).Some?
      ensures hitAnything ==> rec == ModelHit(lib, AsModel(), r, rayT.min, rayT.max).value
      ensures !hitAnything ==> rec == rec0
    {
      var m := ListModel(objects);
      hitAnything := false;
      rec := rec0;
      var closestSoFar := rayT.max;
      for i := 0 to |objects|
        invariant ScanPrefix(lib, m, r, rayT.min, rayT.max, i) ==
                  Scan(closestSoFar, if hitAnything then Some(rec) else None)
        invariant !hitAnything ==> rec == rec0
      {
        var tempRec := ModelHit(lib, objects[i], r, rayT.min, closestSoFar);
        if tempRec.Some? {
          hitAnything := true;
          closestSoFar := Finite(tempRec.value.t);
          rec := tempRec.value;
        }
      }
    }
  }
}
