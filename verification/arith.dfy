/** Small facts about products of reals that the solver does not find unaided. */
module Arith {

  /** Multiplying by a non-negative factor keeps a weak inequality. */
  lemma MulMono(c: real, x: real, y: real)
    requires c >= 0.0 && x <= y
    ensures c * x <= c * y
  {
    assert c * y - c * x == c * (y - x);
  }

  /** Multiplying by a positive factor keeps a strict inequality. */
  lemma MulStrictMono(c: real, x: real, y: real)
    requires c > 0.0 && x < y
    ensures c * x < c * y
  {
    assert c * y - c * x == c * (y - x);
  }

  lemma MulNonNegative(a: real, b: real)
    requires a >= 0.0 && b >= 0.0
    ensures a * b >= 0.0
  {
    MulMono(a, 0.0, b);
  }

  lemma SquareNonNegative(a: real)
    ensures a * a >= 0.0
  {
    if a < 0.0 {
      MulNonNegative(-a, -a);
      assert (-a) * (-a) == a * a;
    } else {
      MulNonNegative(a, a);
    }
  }

  /** Squaring preserves the strict order of non-negative reals. */
  lemma SquareOrder(a: real, b: real)
    requires a >= 0.0 && b >= 0.0
    ensures a < b <==> a * a < b * b
  {
    if a < b {
      MulMono(a, a, b);
      MulStrictMono(b, a, b);
      calc {
        a * a;
      <= a * b;
      == b * a;
      <  b * b;
      }
    } else {
      MulMono(b, b, a);
      MulMono(a, b, a);
    }
  }
}
