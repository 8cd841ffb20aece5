/** Facts about real multiplication and division that the solver does not find on its own. */
module RealArith {

  lemma MulNonNegative(a: real, b: real)
    requires 0.0 <= a && 0.0 <= b
    ensures 0.0 <= a * b
  {
  }

  /** A quotient of a non-negative number by a larger one lies in [0, 1). */
  lemma DivBelowOne(a: real, b: real)
    requires 0.0 <= a < b
    ensures 0.0 <= a / b < 1.0
  {
    MulNonNegative(a, 1.0 / b);
    assert a / b == a * (1.0 / b);
    MulNonNegative(b - a, 1.0 / b);
    assert 1.0 - a / b == (b - a) / b == (b - a) * (1.0 / b);
    assert (b - a) * (1.0 / b) != 0.0;
  }

  /** A quotient of a non-negative number by a positive one no smaller lies in [0, 1]. */
  lemma DivAtMostOne(a: real, b: real)
    requires 0.0 <= a <= b && 0.0 < b
    ensures 0.0 <= a / b <= 1.0
  {
    MulNonNegative(a, 1.0 / b);
    assert a / b == a * (1.0 / b);
    MulNonNegative(b - a, 1.0 / b);
    assert 1.0 - a / b == (b - a) / b == (b - a) * (1.0 / b);
  }
}
