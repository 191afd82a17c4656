/** Small facts of integer multiplication and Euclidean division that the solver
    does not find on its own. */
module Arith {

  lemma DivBounds(a: int, d: int)
    requires a >= 0 && d > 0
    ensures 0 <= a / d && (a / d) * d <= a < (a / d) * d + d
  {
  }

  lemma NegMul(m: int, d: int)
    ensures (-m) * d == -(m * d)
  {
  }

  lemma MulAtLeast(q: int, d: int)
    requires q >= 0 && d >= 1
    ensures q <= q * d
  {
    assert q * d == q * (d - 1) + q;
  }

  lemma MulMono(a: int, b: int, w: int)
    requires a <= b && w >= 0
    ensures a * w <= b * w
  {
    assert b * w - a * w == (b - a) * w;
  }

  /** The only multiple of `d` strictly between `-d` and `d` is zero. */
  lemma ZeroFactor(k: int, d: int)
    requires d > 0 && -d < k * d < d
    ensures k == 0
  {
    if k > 0 {
      assert k * d == (k - 1) * d + d;
      MulMono(0, k - 1, d);
    } else if k < 0 {
      assert k * d == (k + 1) * d - d;
      MulMono(k + 1, 0, d);
    }
  }

  /** Quotient and remainder are determined by `a == q * d + r` with `0 <= r < d`. */
  lemma DivModUnique(a: int, d: int, q: int, r: int)
    requires d > 0 && 0 <= r < d && a == q * d + r
    ensures a / d == q && a % d == r
  {
    var q', r' := a / d, a % d;
    assert (q - q') * d == q * d - q' * d;
    ZeroFactor(q - q', d);
  }
}
