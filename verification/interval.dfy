/**
 * Interval (src/interval.ts): a closed range of numbers whose bounds may be
 * the infinities, as the two named constants `empty` and `universe` are.
 * expand() mutates and returns its receiver; here it returns the new value.
 */
module Intervals {
  import opened ExtReals

  datatype Interval = Interval(min: Bound, max: Bound)

  /** Interval.empty: (+Infinity, -Infinity). */
  const Empty: Interval := Interval(PosInf, NegInf)

  /** Interval.universe: (-Infinity, +Infinity). */
  const Universe: Interval := Interval(NegInf, PosInf)

  /** contains(x): min <= x <= max. */
  predicate Contains(iv: Interval, x: real) {
    Le(iv.min, Fin(x)) && Le(Fin(x), iv.max)
  }

  /** surrounds(x): min < x < max. */
  predicate Surrounds(iv: Interval, x: real) {
    Lt(iv.min, Fin(x)) && Lt(Fin(x), iv.max)
  }

  /** `inner` lies within `outer`: neither bound of `inner` is beyond `outer`'s. */
  predicate Within(inner: Interval, outer: Interval) {
    Le(outer.min, inner.min) && Le(inner.max, outer.max)
  }

  /** fromIntervals(a, b): the smaller of the mins and the larger of the maxes. */
  function FromIntervals(a: Interval, b: Interval): (r: Interval)
    ensures Within(a, r) && Within(b, r)
    ensures r.min == a.min || r.min == b.min
    ensures r.max == a.max || r.max == b.max
    ensures forall x :: Contains(a, x) || Contains(b, x) ==> Contains(r, x)
  {
    Interval(Min(a.min, b.min), Max(a.max, b.max))
  }

  /** size(): max - min, which is NaN only when both bounds are the same infinity. */
  function Size(iv: Interval): (s: ExtReal)
    ensures s.NaN? <==> iv.min == iv.max && !iv.min.Fin?
    ensures iv.min.Fin? && iv.max.Fin? ==> s == Fin(iv.max.r - iv.min.r)
  {
    Sub(iv.max, iv.min)
  }

  /** expand(delta): lowers min and raises max by delta. */
  function Expand(iv: Interval, delta: real): (r: Interval)
    ensures iv.min.Fin? ==> r.min == Fin(iv.min.r - delta)
    ensures iv.max.Fin? ==> r.max == Fin(iv.max.r + delta)
    ensures !iv.min.Fin? ==> r.min == iv.min
    ensures !iv.max.Fin? ==> r.max == iv.max
  {
    Interval(AddReal(iv.min, -delta), AddReal(iv.max, delta))
  }

  // ---------------------------------------------------------------------------
  // Properties

  /** fromIntervals is commutative and idempotent, and `empty` is its identity. */
  lemma FromIntervalsLaws(a: Interval, b: Interval)
    ensures FromIntervals(a, b) == FromIntervals(b, a)
    ensures FromIntervals(a, a) == a
    ensures FromIntervals(Empty, a) == a && FromIntervals(a, Empty) == a
    ensures FromIntervals(Universe, a) == Universe
  {}

  /** The hull is the least interval holding both operands. */
  lemma FromIntervalsLeast(a: Interval, b: Interval, c: Interval)
    requires Within(a, c) && Within(b, c)
    ensures Within(FromIntervals(a, b), c)
  {}

  /**
   * size() >= 0 exactly when min <= max, except for the two intervals whose
   * bounds are the same infinity, where the size is NaN and the comparison fails.
   */
  lemma SizeNonNegative(iv: Interval)
    requires !(iv.min == iv.max && !iv.min.Fin?)
    ensures Le(Fin(0.0), Size(iv)) <==> Le(iv.min, iv.max)
  {}

  /** expand(d) grows the size by exactly 2d, and by nothing when a bound is infinite. */
  lemma ExpandSize(iv: Interval, delta: real)
    ensures Size(Expand(iv, delta)) == AddReal(Size(iv), 2.0 * delta)
  {}

  /** Expanding by a non-negative amount keeps every contained value. */
  lemma ExpandWidens(iv: Interval, delta: real, x: real)
    requires delta >= 0.0
    ensures Within(iv, Expand(iv, delta))
    ensures Contains(iv, x) ==> Contains(Expand(iv, delta), x)
  {}

  /** Strict containment implies containment; finite endpoints are contained but not surrounded. */
  lemma SurroundsContains(iv: Interval, x: real)
    ensures Surrounds(iv, x) ==> Contains(iv, x)
    ensures iv.min == Fin(x) && Le(iv.min, iv.max) ==> Contains(iv, x) && !Surrounds(iv, x)
    ensures iv.max == Fin(x) && Le(iv.min, iv.max) ==> Contains(iv, x) && !Surrounds(iv, x)
  {}

  /** `empty` contains no number and `universe` surrounds every number. */
  lemma EmptyAndUniverse(x: real)
    ensures !Contains(Empty, x) && !Surrounds(Empty, x)
    ensures Contains(Universe, x) && Surrounds(Universe, x)
  {}

  /** Containment is monotone in the interval. */
  lemma WithinContains(inner: Interval, outer: Interval, x: real)
    requires Within(inner, outer)
    ensures Contains(inner, x) ==> Contains(outer, x)
    ensures Surrounds(inner, x) ==> Surrounds(outer, x)
  {
    if Contains(inner, x) {
      LeTransitive(outer.min, inner.min, Fin(x));
      LeTransitive(Fin(x), inner.max, outer.max);
    }
  }
}
