/** Facts about products, quotients and remainders that the solver needs spelled out. */
module Arithmetic {

  lemma Scale(n: nat, a: int, b: int)
    requires a <= b
    ensures a * n <= b * n
  {
  }

  /** Quotient and remainder are determined by the division equation. */
  lemma Divided(q: int, n: int, r: int)
    requires 0 <= r < n
    ensures (q * n + r) / n == q && (q * n + r) % n == r
  {
    var num := q * n + r;
    var gap := q - num / n;
    assert num == num / n * n + num % n;
    assert gap * n == num % n - r;
    if gap > 0 { Scale(n, 1, gap); } else if gap < 0 { Scale(n, gap, -1); }
  }

  /** Adding a multiple below `n` to a multiple of `n`. */
  lemma OffsetIsRemainder(x: int, ox: int, n: int)
    requires n > 0 && ox % n == 0 && ox <= x < ox + n
    ensures x % n == x - ox
  {
    var q := ox / n;
    assert x == q * n + (x - ox);
    Divided(q, n, x - ox);
  }

  lemma NextMultiple(x: int, n: int)
    requires n > 0 && x % n == 0
    ensures (x + n) % n == 0
  {
    var q := x / n;
    assert x + n == (q + 1) * n + 0;
    Divided(q + 1, n, 0);
  }

  lemma EvenMultiple(x: int, n: int)
    requires n > 0 && x % n == 0
    ensures (x * 2) % (2 * n) == 0
  {
    var q := x / n;
    assert x * 2 == q * (2 * n) + 0;
    Divided(q, 2 * n, 0);
  }
}
