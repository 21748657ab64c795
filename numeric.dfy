/** Facts about the weighted blend `alpha * a + (1 - alpha) * b` that both the tracker's center
    smoothing and the speed smoothing use. */
module Numeric {

  predicate Between(v: real, a: real, b: real)
  {
    (a <= v <= b) || (b <= v <= a)
  }

  function Blend(alpha: real, a: real, b: real): real
  {
    alpha * a + (1.0 - alpha) * b
  }

  /** For a weight in [0, 1] the blend lies between its two inputs; the end weights pick one input. */
  lemma BlendBetween(alpha: real, a: real, b: real)
    ensures 0.0 <= alpha <= 1.0 ==> Between(Blend(alpha, a, b), a, b)
    ensures alpha == 0.0 ==> Blend(alpha, a, b) == b
    ensures alpha == 1.0 ==> Blend(alpha, a, b) == a
  {
    var d := a - b;
    if !(0.0 <= alpha <= 1.0) {
      return;
    }
    assert Blend(alpha, a, b) == b + alpha * d;
    assert Blend(alpha, a, b) == a - (1.0 - alpha) * d;
    if d >= 0.0 {
      ProductNonNegative(alpha, d);
      ProductNonNegative(1.0 - alpha, d);
    } else {
      ProductNonNegative(alpha, -d);
      ProductNonNegative(1.0 - alpha, -d);
    }
  }

  lemma ProductNonNegative(x: real, y: real)
    requires x >= 0.0 && y >= 0.0
    ensures x * y >= 0.0
  {
  }

  /** A mean keeps the bounds of its summands: n * lo <= total <= n * hi gives lo <= total / n <= hi. */
  lemma DivisionKeepsBounds(total: real, n: real, lo: real, hi: real)
    requires n > 0.0 && n * lo <= total <= n * hi
    ensures lo <= total / n <= hi
  {
    assert total / n * n == total;
  }
}
