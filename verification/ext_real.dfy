/**
 * The part of IEEE-754 double arithmetic that the renderer relies on beyond the
 * reals: the two infinities (used as Interval bounds and as the open end of a
 * hit window) and NaN (what 0 * Infinity and Infinity - Infinity produce).
 * Comparisons involving NaN are false, exactly as in JavaScript.
 */
module ExtReals {

  datatype ExtReal = NegInf | Fin(r: real) | PosInf | NaN

  /** A bound of an interval: any extended real except NaN. */
  type Bound = e: ExtReal | !e.NaN? witness Fin(0.0)

  /** JavaScript `a < b`. */
  predicate Lt(a: ExtReal, b: ExtReal) {
    match (a, b)
    case (NegInf, Fin(_)) => true
    case (NegInf, PosInf) => true
    case (Fin(x), Fin(y)) => x < y
    case (Fin(_), PosInf) => true
    case _ => false
  }

  /** JavaScript `a <= b`. */
  predicate Le(a: ExtReal, b: ExtReal) {
    Lt(a, b) || (a == b && !a.NaN?)
  }

  /** JavaScript `Math.min(a, b)`: NaN if either is NaN, else the lesser. */
  function Min(a: ExtReal, b: ExtReal): (m: ExtReal)
    ensures m.NaN? <==> a.NaN? || b.NaN?
    ensures !m.NaN? ==> (m == a || m == b) && Le(m, a) && Le(m, b)
  {
    if a.NaN? || b.NaN? then NaN else if Lt(b, a) then b else a
  }

  /** JavaScript `Math.max(a, b)`: NaN if either is NaN, else the greater. */
  function Max(a: ExtReal, b: ExtReal): (m: ExtReal)
    ensures m.NaN? <==> a.NaN? || b.NaN?
    ensures !m.NaN? ==> (m == a || m == b) && Le(a, m) && Le(b, m)
  {
    if a.NaN? || b.NaN? then NaN else if Lt(a, b) then b else a
  }

  /** JavaScript `a + d` for a finite `d`. */
  function AddReal(a: ExtReal, d: real): ExtReal {
    match a
    case Fin(x) => Fin(x + d)
    case _ => a
  }

  /** JavaScript `a - b`. */
  function Sub(a: ExtReal, b: ExtReal): ExtReal {
    match (a, b)
    case (Fin(x), Fin(y)) => Fin(x - y)
    case (PosInf, Fin(_)) => PosInf
    case (PosInf, NegInf) => PosInf
    case (NegInf, Fin(_)) => NegInf
    case (NegInf, PosInf) => NegInf
    case (Fin(_), NegInf) => PosInf
    case (Fin(_), PosInf) => NegInf
    case _ => NaN
  }

  /** -1, 0 or 1 for the sign of a non-NaN value. */
  function Sign(a: ExtReal): int {
    match a
    case NegInf => -1
    case PosInf => 1
    case Fin(x) => if x < 0.0 then -1 else if x == 0.0 then 0 else 1
    case NaN => 0
  }

  /** JavaScript `a * b`: an infinity times zero is NaN. */
  function Mul(a: ExtReal, b: ExtReal): ExtReal {
    match (a, b)
    case (NaN, _) => NaN
    case (_, NaN) => NaN
    case (Fin(x), Fin(y)) => Fin(x * y)
    case _ =>
      if Sign(a) * Sign(b) > 0 then PosInf
      else if Sign(a) * Sign(b) < 0 then NegInf
      else NaN
  }

  /**
   * JavaScript `1.0 / x`. The model has a single zero; the source may divide
   * by -0 and get -Infinity, and the slab test's outcome is the same either
   * way (Boxes.SlabZeroSignIrrelevant).
   */
  function Recip(x: real): ExtReal {
    if x == 0.0 then PosInf else Fin(1.0 / x)
  }

  lemma LeTransitive(a: ExtReal, b: ExtReal, c: ExtReal)
    requires Le(a, b) && Le(b, c)
    ensures Le(a, c)
  {}

  lemma LtLeTransitive(a: ExtReal, b: ExtReal, c: ExtReal)
    requires Lt(a, b) && Le(b, c)
    ensures Lt(a, c)
  {}

  /** On non-NaN values the order is total. */
  lemma LeTotal(a: Bound, b: Bound)
    ensures Le(a, b) || Le(b, a)
    ensures Lt(a, b) <==> !Le(b, a)
  {}

  /** Every value but NaN is at most itself. */
  lemma LeReflexive(a: Bound)
    ensures Le(a, a)
  {}

  /** LeTotal for values of which only the NaN ones are left out. */
  lemma LeTotalUnlessNaN(a: ExtReal, b: ExtReal)
    ensures !a.NaN? && !b.NaN? ==> Le(a, b) || Le(b, a)
    ensures !a.NaN? && !b.NaN? ==> (Lt(a, b) <==> !Le(b, a))
  {
    if !a.NaN? && !b.NaN? {
      LeTotal(a, b);
    }
  }
}
