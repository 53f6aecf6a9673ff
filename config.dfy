/** Tolerance helpers shared by every geometric comparison (src/config.cpp). */
module Config {

  /** The absolute tolerance used by every floating comparison: 1e-6. */
  const Epsilon: real := 0.000001

  function Abs(x: real): real
  {
    if x < 0.0 then -x else x
  }

  /** double_cmp / cmp: equality up to the tolerance, boundary included. */
  predicate Cmp(x: real, y: real): (r: bool)
    ensures r <==> y - Epsilon <= x <= y + Epsilon
  {
    Abs(x - y) <= Epsilon
  }

  lemma CmpReflexive(x: real)
    ensures Cmp(x, x)
  {
  }

  lemma CmpSymmetric(x: real, y: real)
    ensures Cmp(x, y) <==> Cmp(y, x)
  {
  }

  /** The tolerance is not transitive: two steps of one epsilon are not one step. */
  lemma CmpNotTransitive()
    ensures Cmp(0.0, Epsilon) && Cmp(Epsilon, 2.0 * Epsilon) && !Cmp(0.0, 2.0 * Epsilon)
  {
  }

  function Min(a: real, b: real): real
  {
    if a <= b then a else b
  }

  function Max(a: real, b: real): real
  {
    if a >= b then a else b
  }

  /** get_min_of_four: a lower bound of the four arguments that is one of them. */
  function MinOfFour(a: real, b: real, c: real, d: real): (r: real)
    ensures r <= a && r <= b && r <= c && r <= d
    ensures r == a || r == b || r == c || r == d
  {
    Min(a, Min(b, Min(c, d)))
  }

  /** get_max_of_four: an upper bound of the four arguments that is one of them. */
  function MaxOfFour(a: real, b: real, c: real, d: real): (r: real)
    ensures r >= a && r >= b && r >= c && r >= d
    ensures r == a || r == b || r == c || r == d
  {
    Max(a, Max(b, Max(c, d)))
  }

  lemma MinOfFourLeMaxOfFour(a: real, b: real, c: real, d: real)
    ensures MinOfFour(a, b, c, d) <= MaxOfFour(a, b, c, d)
  {
  }
}
