/** `Interval` of include/Util.h: a range of ray parameters or channel values
    whose ends may be the IEEE infinities. */
module Intervals {

  /** An end point: a real number or one of the two infinities. */
  datatype Bound = NegInf | Finite(value: real) | PosInf

  /** `a <= b` on the extended reals. */
  predicate AtMost(a: Bound, b: Bound)
  {
    match (a, b)
    case (NegInf, _) => true
    case (_, PosInf) => true
    case (Finite(x), Finite(y)) => x <= y
    case _ => false
  }

  /** `a < b` on the extended reals. */
  predicate Below(a: Bound, b: Bound)
  {
    AtMost(a, b) && a != b
  }

  /** The smaller of two end points. */
  function Lesser(a: Bound, b: Bound): (m: Bound)
    ensures AtMost(m, a) && AtMost(m, b)
    ensures m == a || m == b
  {
    if AtMost(a, b) then a else b
  }

  datatype Interval = Interval(min: Bound, max: Bound) {

    /** Closed membership, `contains`. */
    function Contains(x: real): (b: bool)
      ensures min.Finite? && max.Finite? ==> (b <==> min.value <= x <= max.value)
      ensures min == PosInf || max == NegInf ==> !b
      ensures min == NegInf && max == PosInf ==> b
      ensures min.Finite? && max == PosInf ==> (b <==> min.value <= x)
      ensures min == NegInf && max.Finite? ==> (b <==> x <= max.value)
    {
      AtMost(min, Finite(x)) && AtMost(Finite(x), max)
    }

    /** Open membership, `contains_open`: the window a hit parameter must lie in. */
    function ContainsOpen(x: real): (b: bool)
      ensures min.Finite? && max.Finite? ==> (b <==> min.value < x < max.value)
      ensures min == PosInf || max == NegInf ==> !b
      ensures min == NegInf && max == PosInf ==> b
      ensures min.Finite? && max == PosInf ==> (b <==> min.value < x)
      ensures min == NegInf && max.Finite? ==> (b <==> x < max.value)
      ensures b ==> Contains(x)
    {
      Below(min, Finite(x)) && Below(Finite(x), max)
    }

    /** `clamp`: the nearest end point when `x` lies outside, `x` itself otherwise. */
    function Clamp(x: real): (r: Bound)
      ensures Contains(x) ==> r == Finite(x)
      ensures AtMost(min, max) ==> AtMost(min, r) && AtMost(r, max)
      ensures min.Finite? && max.Finite? && min.value <= max.value ==>
                r.Finite? && min.value <= r.value <= max.value
    {
      if Below(Finite(x), min) then min
      else if Below(max, Finite(x)) then max
      else Finite(x)
    }
  }

  /** `Interval::empty`, which is also what the default constructor builds. */
  const Empty: Interval := Interval(PosInf, NegInf)

  /** `Interval::universe`. */
  const Universe: Interval := Interval(NegInf, PosInf)

  /** The default constructor `Interval()`. */
  function Default(): (i: Interval)
    ensures forall x: real :: !i.Contains(x) && !i.ContainsOpen(x)
  {
    Interval(PosInf, NegInf)
  }

  /** Every value lies in the universe, none in the empty interval. */
  lemma UniverseAndEmpty(x: real)
    ensures Universe.Contains(x) && Universe.ContainsOpen(x)
    ensures !Empty.Contains(x) && !Empty.ContainsOpen(x)
  {
  }

  /** On a non-empty interval `clamp` is monotone. */
  lemma ClampMonotone(i: Interval, x: real, y: real)
    requires AtMost(i.min, i.max) && x <= y
    ensures AtMost(i.Clamp(x), i.Clamp(y))
  {
  }

  /** Clamping twice is clamping once. */
  lemma ClampIdempotent(i: Interval, x: real)
    requires AtMost(i.min, i.max) && i.Clamp(x).Finite?
    ensures i.Clamp(i.Clamp(x).value) == i.Clamp(x)
  {
  }

  /** Narrowing the upper end shrinks the open window: what `ModelList::hit`
      relies on when it passes `Interval(min, closest_so_far)`. */
  lemma NarrowedWindow(lo: Bound, hi: Bound, hi': Bound, x: real)
    requires AtMost(hi', hi) && Interval(lo, hi').ContainsOpen(x)
    ensures Interval(lo, hi).ContainsOpen(x)
  {
  }
}
