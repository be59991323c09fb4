/** Facts about the uniform draws in [0, 1) that stand in for `Math.random()`. */
module Draws {

  /** For a positive span `n`, a draw scaled by `n` lands in [0, n) exactly
      when the draw lies in [0, 1). */
  lemma ScaledDrawInRange(d: real, n: real)
    requires n > 0.0
    ensures 0.0 <= d * n < n <==> 0.0 <= d < 1.0
  {
    if d < 0.0 {
      assert d * n < 0.0;
    } else if d >= 1.0 {
      assert d * n - n == (d - 1.0) * n;
    } else {
      assert n - d * n == (1.0 - d) * n;
    }
  }

  /** A draw in [0, 1) scaled by a positive span lands inside the span. */
  lemma ScaledDrawBelow(scaled: real, d: real, n: real)
    requires n > 0.0 && 0.0 <= d < 1.0 && scaled == d * n
    ensures 0.0 <= scaled < n
  {
    ScaledDrawInRange(d, n);
  }
}
