/** The helpers of include/Constants.h: the angle conversion and the random
    sampling routines. The process-wide generator behind `std::rand` is
    replaced by an explicit stream of draws: every random call reads the draw
    at the current position `k` and hands back the next position. */
module Sampling {
  import opened Outcomes
  import opened Vectors

  const PI: real := 3.1415926535897932385

  /** `RAND_MAX` of the C library the program is built against (glibc's value). */
  const RAND_MAX: int := 2147483647

  /** A value `std::rand` may return. */
  type RandValue = n: int | 0 <= n <= RAND_MAX

  /** The random sources, each indexed by the shared stream position:
      `rand` is `std::rand`; `randomFloat` and `randomInUnitDisk` are the
      helpers of those names called by include/camera.h and
      include/materials.h, whose definitions are not part of this model. */
  datatype Entropy = Entropy(
    rand: nat -> RandValue,
    randomFloat: nat -> real,
    randomInUnitDisk: nat -> Vec3)

  /** A value computed from the stream together with the position after it. */
  datatype Drawn<+T> = Drawn(value: T, next: nat)

  const TOO_MANY_ITERATIONS: string := "Ran through too many iterations in random_vec3_n!"

  /** The number of candidates `random_vec3_n` draws before it gives up. */
  const MAX_ATTEMPTS: nat := 1000

  /** The rejection threshold on the squared length, the double `1e-8`. */
  const MIN_LENGTH_SQUARED: real := 0.00000001

  /** `degrees_to_radians`. */
  function DegreesToRadians(degrees: real): (radians: real)
    ensures radians * 180.0 == degrees * PI
    ensures degrees == 180.0 ==> radians == PI
  {
    degrees * PI / 180.0
  }

  /** `random_float()`: `rand() / (RAND_MAX + 1)`, in [0, 1) in exact arithmetic. */
  function RandomFloat(e: Entropy, k: nat): (d: Drawn<real>)
    ensures d.next == k + 1
    ensures 0.0 <= d.value < 1.0
  {
    Drawn(e.rand(k) as real / (RAND_MAX as real + 1.0), k + 1)
  }

  /** `random_float(lo, hi)`: `lo + (hi - lo) * random_float()`. */
  function RandomFloatIn(e: Entropy, k: nat, lo: real, hi: real): (d: Drawn<real>)
    ensures d.next == k + 1
    ensures lo < hi ==> lo <= d.value < hi
    ensures lo == hi ==> d.value == lo
  {
    var u := RandomFloat(e, k);
    Drawn(Lerp(lo, hi, u.value), u.next)
  }

  /** `lo + (hi - lo) * u`: for `u` in [0, 1) a point of [lo, hi). */
  function Lerp(lo: real, hi: real, u: real): (r: real)
    requires 0.0 <= u < 1.0
    ensures lo < hi ==> lo <= r < hi
    ensures lo == hi ==> r == lo
  {
    UnitScaledWithin(u, lo, hi);
    lo + (hi - lo) * u
  }

  lemma UnitScaledWithin(u: real, lo: real, hi: real)
    requires 0.0 <= u < 1.0
    ensures lo < hi ==> lo <= lo + (hi - lo) * u < hi
  {
    if lo < hi {
      var w, v := hi - lo, 1.0 - u;
      var wu, wv := w * u, w * v;
      ProductNonNegative(w, u);
      ProductPositive(w, v);
      assert wv == w * 1.0 - wu;
      assert wu < w;
      assert (hi - lo) * u == wu;
    }
  }

  /** `random_vec3()`: three draws of `random_float()`, taken as x, y, z in order
      (C++ leaves the evaluation order of constructor arguments unspecified). */
  function RandomVec3(e: Entropy, k: nat): (d: Drawn<Vec3>)
    ensures d.next == k + 3
    ensures 0.0 <= d.value.x < 1.0 && 0.0 <= d.value.y < 1.0 && 0.0 <= d.value.z < 1.0
  {
    var x := RandomFloat(e, k);
    var y := RandomFloat(e, x.next);
    var z := RandomFloat(e, y.next);
    Drawn(Vec3(x.value, y.value, z.value), z.next)
  }

  /** `random_vec3(lo, hi)`: every component drawn from [lo, hi). */
  function RandomVec3In(e: Entropy, k: nat, lo: real, hi: real): (d: Drawn<Vec3>)
    ensures d.next == k + 3
    ensures lo < hi ==> lo <= d.value.x < hi && lo <= d.value.y < hi && lo <= d.value.z < hi
  {
    var x := RandomFloatIn(e, k, lo, hi);
    var y := RandomFloatIn(e, x.next, lo, hi);
    var z := RandomFloatIn(e, y.next, lo, hi);
    Drawn(Vec3(x.value, y.value, z.value), z.next)
  }

  /** The acceptance test of `random_vec3_n`: a candidate inside the unit ball
      and not too close to its centre. */
  predicate Acceptable(s: Vec3)
  {
    MIN_LENGTH_SQUARED < Dot(s, s) <= 1.0
  }

  /** The candidate of attempt `i` (counted from 0) when sampling starts at `k`. */
  function Candidate(e: Entropy, k: nat, i: nat): Vec3
  {
    RandomVec3In(e, k + 3 * i, -1.0, 1.0).value
  }

  /** What `random_vec3_n` computes when `attempts` candidates remain:
      the normalisation of the first acceptable candidate, or the error. */
  function UnitSampleWithin(lib: MathLib, e: Entropy, k: nat, attempts: nat): (res: Result<Drawn<Vec3>>)
    ensures res.Success? ==> k + 3 <= res.value.next <= k + 3 * attempts
    decreases attempts
  {
    if attempts == 0 then Failure(TOO_MANY_ITERATIONS)
    else if Acceptable(Candidate(e, k, 0)) then Success(Drawn(lib.normalize(Candidate(e, k, 0)), k + 3))
    else UnitSampleWithin(lib, e, k + 3, attempts - 1)
  }

  /** `random_vec3_n()` as a function of the stream. */
  function UnitSample(lib: MathLib, e: Entropy, k: nat): (res: Result<Drawn<Vec3>>)
    ensures res.Success? ==> k + 3 <= res.value.next <= k + 3 * MAX_ATTEMPTS
  {
    UnitSampleWithin(lib, e, k, MAX_ATTEMPTS)
  }

  /** Candidate `i` is the first acceptable one. */
  predicate FirstAcceptable(e: Entropy, k: nat, i: nat)
  {
    Acceptable(Candidate(e, k, i)) && forall j :: 0 <= j < i ==> !Acceptable(Candidate(e, k, j))
  }

  lemma CandidateShift(e: Entropy, k: nat, i: nat)
    ensures Candidate(e, k + 3, i) == Candidate(e, k, i + 1)
  {
    assert k + 3 + 3 * i == k + 3 * (i + 1);
  }

  /** Skipping a rejected first candidate shifts the index of the first acceptable one. */
  lemma FirstAcceptableShift(e: Entropy, k: nat, i: nat)
    requires !Acceptable(Candidate(e, k, 0)) && FirstAcceptable(e, k + 3, i)
    ensures FirstAcceptable(e, k, i + 1)
  {
    forall j | 0 <= j < i + 1
      ensures !Acceptable(Candidate(e, k, j))
    {
      if j > 0 {
        CandidateShift(e, k, j - 1);
      }
    }
    CandidateShift(e, k, i);
  }

  /** Sampling fails exactly when none of the first `n` candidates is acceptable. */
  lemma {:induction false} UnitSampleFails(lib: MathLib, e: Entropy, k: nat, n: nat)
    ensures UnitSampleWithin(lib, e, k, n).Failure? <==>
              forall i :: 0 <= i < n ==> !Acceptable(Candidate(e, k, i))
    decreases n
  {
    if n > 0 {
      var k' := k + 3;
      UnitSampleFails(lib, e, k', n - 1);
      if forall i :: 0 <= i < n ==> !Acceptable(Candidate(e, k, i)) {
        forall i | 0 <= i < n - 1
          ensures !Acceptable(Candidate(e, k', i))
        {
          CandidateShift(e, k, i);
        }
      } else if !Acceptable(Candidate(e, k, 0)) {
        var i :| 0 <= i < n && Acceptable(Candidate(e, k, i));
        CandidateShift(e, k, i - 1);
      }
    }
  }

  /** On success, sampling returns the normalisation of the FIRST acceptable
      candidate, having consumed three draws per candidate looked at. */
  lemma {:induction false} UnitSampleSucceeds(lib: MathLib, e: Entropy, k: nat, n: nat)
    requires UnitSampleWithin(lib, e, k, n).Success?
    ensures exists i :: 0 <= i < n && FirstAcceptable(e, k, i) &&
              UnitSampleWithin(lib, e, k, n).value ==
                Drawn(lib.normalize(Candidate(e, k, i)), k + 3 * (i + 1))
    decreases n
  {
    if Acceptable(Candidate(e, k, 0)) {
      assert FirstAcceptable(e, k, 0);
    } else {
      var k' := k + 3;
      UnitSampleSucceeds(lib, e, k', n - 1);
      var i :| 0 <= i < n - 1 && FirstAcceptable(e, k', i) &&
                UnitSampleWithin(lib, e, k', n - 1).value ==
                  Drawn(lib.normalize(Candidate(e, k', i)), k' + 3 * (i + 1));
      CandidateShift(e, k, i);
      FirstAcceptableShift(e, k, i);
      assert k' + 3 * (i + 1) == k + 3 * (i + 1 + 1);
      assert UnitSampleWithin(lib, e, k, n) == UnitSampleWithin(lib, e, k', n - 1);
      assert UnitSampleWithin(lib, e, k, n).value ==
               Drawn(lib.normalize(Candidate(e, k, i + 1)), k + 3 * (i + 1 + 1));
    }
  }

  /** One attempt of the sampling loop: the candidate at `k` is accepted or
      sampling continues three draws later. */
  lemma UnitSampleStep(lib: MathLib, e: Entropy, k: nat, attempts: nat)
    requires attempts > 0
    ensures var c := RandomVec3In(e, k, -1.0, 1.0);
            UnitSampleWithin(lib, e, k, attempts) ==
              if Acceptable(c.value) then Success(Drawn(lib.normalize(c.value), c.next))
              else UnitSampleWithin(lib, e, c.next, attempts - 1)
  {
    assert Candidate(e, k, 0) == RandomVec3In(e, k, -1.0, 1.0).value;
  }

  /** `random_vec3_n`: at most `MAX_ATTEMPTS` candidates from the cube
      [-1, 1)^3; the first one with `1e-8 < |s|^2 <= 1` is normalised and
      returned, and when all are rejected the sampling error is raised. */
  method RandomVec3N(lib: MathLib, e: Entropy, k: nat) returns (res: Result<Drawn<Vec3>>)
    ensures res == UnitSample(lib, e, k)
    ensures res.Success? ==> res.value.next <= k + 3 * MAX_ATTEMPTS
  {
    var iter := 0;
    var pos := k;
    while iter < MAX_ATTEMPTS
      invariant 0 <= iter <= MAX_ATTEMPTS
      invariant UnitSampleWithin(lib, e, pos, MAX_ATTEMPTS - iter) == UnitSample(lib, e, k)
    {
      UnitSampleStep(lib, e, pos, MAX_ATTEMPTS - iter);
      iter := iter + 1;
      var sample := RandomVec3In(e, pos, -1.0, 1.0);
      pos := sample.next;
      var lengthSquared := Dot(sample.value, sample.value);
      if MIN_LENGTH_SQUARED < lengthSquared && lengthSquared <= 1.0 {
        return Success(Drawn(lib.normalize(sample.value), pos));
      }
    }
    return Failure(TOO_MANY_ITERATIONS);
  }

  /** `randomOnHemisphere(n)`: the unit sample, flipped when it does not point
      into the half-space of `n`. */
  function RandomOnHemisphere(lib: MathLib, e: Entropy, k: nat, n: Vec3): (res: Result<Drawn<Vec3>>)
    ensures res.Success? <==> UnitSample(lib, e, k).Success?
    ensures res.Success? ==>
              var s := UnitSample(lib, e, k).value;
              res.value.next == s.next &&
              (res.value.value == s.value || res.value.value == Neg(s.value)) &&
              Dot(res.value.value, n) >= 0.0
  {
    match UnitSample(lib, e, k)
    case Failure(msg) => Failure(msg)
    case Success(s) =>
      DotNeg(s.value, n);
      Success(Drawn(if Dot(s.value, n) > 0.0 then s.value else Neg(s.value), s.next))
  }
}
