/** Parameter intervals on a line (include/interval.hpp). */
module Intervals {
  import opened Config

  /** A double endpoint: a real number or NaN. */
  datatype Double = Num(v: real) | NaN

  /** `a < b` on doubles: every comparison with NaN is false. */
  predicate Less(a: Double, b: Double)
  {
    a.Num? && b.Num? && a.v < b.v
  }

  /** std::max(a, b), which is `a < b ? b : a`. */
  function StdMax(a: Double, b: Double): (r: Double)
    ensures a.Num? && b.Num? ==> r == Num(Max(a.v, b.v))
    ensures !a.Num? ==> r == a
  {
    if Less(a, b) then b else a
  }

  /** std::min(a, b), which is `b < a ? b : a`. */
  function StdMin(a: Double, b: Double): (r: Double)
    ensures a.Num? && b.Num? ==> r == Num(Min(a.v, b.v))
    ensures !a.Num? ==> r == a
  {
    if Less(b, a) then b else a
  }

  /** An interval [t1, t0] stored with its larger end first. */
  datatype Interval = Interval(t0: Double, t1: Double)

  /** `Interval()`: both ends NaN. */
  const DefaultInterval: Interval := Interval(NaN, NaN)

  /** Interval(t0, t1): the larger of the two values becomes t0, the smaller t1. */
  function MakeInterval(a: Double, b: Double): Interval
  {
    Interval(StdMax(a, b), StdMin(a, b))
  }

  /** valid: neither end is NaN. */
  predicate Valid(i: Interval)
  {
    i.t0.Num? && i.t1.Num?
  }

  lemma DefaultIntervalInvalid()
    ensures !Valid(DefaultInterval)
  {
  }

  /**
   * From two numbers the constructor stores their maximum and minimum, so the
   * interval is valid, its ends are the two arguments, and t0 >= t1.
   */
  lemma MakeIntervalOrdered(a: real, b: real)
    ensures var i := MakeInterval(Num(a), Num(b));
      Valid(i) && i.t0.v >= i.t1.v &&
      i.t0.v == Max(a, b) && i.t1.v == Min(a, b) &&
      ((i.t0.v == a && i.t1.v == b) || (i.t0.v == b && i.t1.v == a))
  {
  }

  /** The order of the arguments does not matter. */
  lemma MakeIntervalSymmetric(a: real, b: real)
    ensures MakeInterval(Num(a), Num(b)) == MakeInterval(Num(b), Num(a))
  {
  }

  /**
   * With NaN the result depends on the position: NaN first poisons both ends,
   * NaN second is ignored and gives the one-point interval [a, a].
   */
  lemma MakeIntervalWithNaN(a: real)
    ensures !Valid(MakeInterval(NaN, Num(a)))
    ensures MakeInterval(Num(a), NaN) == Interval(Num(a), Num(a)) && Valid(MakeInterval(Num(a), NaN))
  {
  }
}
