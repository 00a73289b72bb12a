/** Facts about Euclidean division that the solver does not find on its own
    when the divisor is a variable. */
module Arith {

  lemma {:induction false} MulNonNeg(a: int, b: int)
    requires a >= 0 && b >= 0
    ensures a * b >= 0
  {
  }

  /** Quotient and remainder are determined by `x == q * m + r` with `0 <= r < m`. */
  lemma {:induction false} DivModUnique(x: int, m: int, q: int, r: int)
    requires m >= 1 && 0 <= r < m && x == q * m + r
    ensures x / m == q && x % m == r
  {
    var q' := x / m;
    var r' := x % m;
    assert x == q' * m + r';
    if q' > q {
      MulNonNeg(q' - q - 1, m);
      assert false;
    } else if q' < q {
      MulNonNeg(q - q' - 1, m);
      assert false;
    }
  }

  /** Multiplying by a positive factor is monotone. */
  lemma {:induction false} MulMonotone(a: int, b: int, m: int)
    requires a <= b && m >= 0
    ensures a * m <= b * m
  {
    MulNonNeg(b - a, m);
  }

  function Min(a: int, b: int): int {
    if a <= b then a else b
  }
}
