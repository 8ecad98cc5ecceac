/** The resampler on two pixels, in numbers (src/client/artscale.h). */
module ResampleLaws {
  import opened Basics
  import opened GridIndex
  import opened Resample
  import opened Sums
  import Upscale

  /** Rounding to the nearest byte, ties going up. */
  lemma RoundIs(v: real, k: byte)
    requires 0.0 <= v <= 255.0
    ensures Round(v) == k <==> k as real - 0.5 <= v < k as real + 0.5
  {
  }

  /** Two pixels beside each other, to be averaged into one. */
  function Pair(p: Rgba, q: Rgba): Image { Upscale.Image(2, 1, [p, q]) }

  lemma WholeWindows()
    ensures IsRatio(2, 1, 2.0) && IsRatio(1, 1, 1.0)
    ensures Weights(2.0, 0)(0) == 1.0 && Weights(2.0, 0)(1) == 1.0 && Weights(1.0, 0)(0) == 1.0
  {
    assert Start(2.0, 1) == Start(2.0, 0) + 2.0 && Start(1.0, 1) == Start(1.0, 0) + 1.0;
  }

  lemma PairMass(wx: Weighting, wy: Weighting, v: Plane)
    requires wx(0) == 1.0 && wx(1) == 1.0 && wy(0) == 1.0
    ensures Mass(2, 1, wx, wy, v) == v(0, 0) + v(1, 0)
  {
    var f := RowTerms(wx, wy(0), v, 0);
    assert f(0) == v(0, 0) && f(1) == v(1, 0);
    assert Sum(2, f) == Sum(1, f) + f(1) && Sum(1, f) == Sum(0, f) + f(0);
    var g := RowSums(2, wx, wy, v);
    assert Sum(1, g) == Sum(0, g) + g(0) && g(0) == Sum(2, f);
  }

  lemma PairValue(p: Rgba, q: Rgba, ch: Channel)
    ensures Mass(2, 1, Weights(2.0, 0), Weights(1.0, 0), PlaneOf(Pair(p, q), ch)) == Value(p, ch) + Value(q, ch)
  {
    WholeWindows();
    PairMass(Weights(2.0, 0), Weights(1.0, 0), PlaneOf(Pair(p, q), ch));
    assert Pixel(Pair(p, q), 0, 0) == p && Pixel(Pair(p, q), 1, 0) == q;
  }

  /** `c` is n / d, rounded to the nearest number, ties going up. */
  predicate Nearest(n: int, d: nat, c: int) { (2 * c - 1) * d <= 2 * n < (2 * c + 1) * d }

  lemma RoundedQuotient(n: nat, d: nat)
    requires d > 0 && n <= 255 * d
    ensures Nearest(n, d, Round(n as real / d as real))
  {
    var v := n as real / d as real;
    QuotientRange(n, d, v);
    RoundIs(v, Round(v));
    Between(v, Round(v), n, d);
  }

  lemma QuotientRange(n: nat, d: nat, v: real)
    requires d > 0 && n <= 255 * d && v == n as real / d as real
    ensures 0.0 <= v <= 255.0 && v * d as real == n as real
  {
    var e := d as real;
    assert v * e == n as real <= (255 * d) as real;
    IntProduct(255, d);
    Ordered(0.0, v, e);
    Ordered(v, 255.0, e);
  }

  lemma Ordered(a: real, b: real, e: real)
    requires e > 0.0
    ensures a <= b <==> a * e <= b * e
    ensures a < b <==> a * e < b * e
  {
    assert (b - a) * e == b * e - a * e;
    assert a < b ==> (b - a) * e > 0.0;
    assert b < a ==> (a - b) * e > 0.0;
  }

  lemma IntProduct(a: int, b: int)
    ensures (a * b) as real == a as real * b as real
  {
  }

  lemma Between(v: real, c: int, n: nat, d: nat)
    requires d > 0 && v * d as real == n as real && c as real - 0.5 <= v < c as real + 0.5
    ensures Nearest(n, d, c)
  {
    var e, x, low, high := d as real, 2.0 * v, 2 * c - 1, 2 * c + 1;
    assert x * e == 2.0 * (v * e) == (2 * n) as real;
    NotAbove(low, d, x, 2 * n);
    Below(high, d, x, 2 * n);
  }

  lemma NotAbove(k: int, d: nat, x: real, m: int)
    requires d > 0 && x * d as real == m as real && k as real <= x
    ensures k * d <= m
  {
    Ordered(k as real, x, d as real);
    IntProduct(k, d);
  }

  lemma Below(k: int, d: nat, x: real, m: int)
    requires d > 0 && x * d as real == m as real && x < k as real
    ensures m < k * d
  {
    var r, e := k as real, d as real;
    Ordered(x, r, e);
    assert x * e < r * e;
    IntProduct(k, d);
  }

  /** The mean of two pixels: alphas are averaged, and colours in proportion to the alphas. */
  lemma MeanOfTwo(p: Rgba, q: Rgba)
    ensures var o, a := Resampled(Pair(p, q), 2.0, 1.0, 0, 0), p.a + q.a;
            if a == 0 then o == Upscale.Rgba(0, 0, 0, 0)
            else Nearest(a, 2, o.a) && Nearest(p.r * p.a + q.r * q.a, a, o.r)
                 && Nearest(p.g * p.a + q.g * q.a, a, o.g) && Nearest(p.b * p.a + q.b * q.a, a, o.b)
  {
    var t := PairTotals(p, q);
    if p.a + q.a > 0 {
      MeanChannel(p.r, p.a, q.r, q.a, t.r);
      MeanChannel(p.g, p.a, q.g, q.a, t.g);
      MeanChannel(p.b, p.a, q.b, q.a, t.b);
      RoundedQuotient(p.a + q.a, 2);
    }
  }

  lemma PairTotals(p: Rgba, q: Rgba) returns (t: Totals)
    ensures Resampled(Pair(p, q), 2.0, 1.0, 0, 0) == Settle(t) && t.a == (p.a + q.a) as real && t.w == 2.0
    ensures t.r == Product(p.r as real, p.a as real) + Product(q.r as real, q.a as real)
    ensures t.g == Product(p.g as real, p.a as real) + Product(q.g as real, q.a as real)
    ensures t.b == Product(p.b as real, p.a as real) + Product(q.b as real, q.a as real)
  {
    PairValue(p, q, Red);
    PairValue(p, q, Green);
    PairValue(p, q, Blue);
    PairValue(p, q, Alpha);
    PairValue(p, q, Cover);
    t := TotalsUnder(Pair(p, q), Weights(2.0, 0), Weights(1.0, 0));
  }

  lemma MeanChannel(c: byte, a: byte, d: byte, b: byte, total: real)
    requires a + b > 0 && total == Product(c as real, a as real) + Product(d as real, b as real)
    ensures Nearest(c * a + d * b, a + b, Round(total / (a + b) as real))
  {
    IntProduct(c, a);
    IntProduct(d, b);
    InRange(c, a);
    InRange(d, b);
    MeanOfSums(c * a, d * b, a + b, total);
  }

  lemma MeanOfSums(m: nat, k: nat, d: nat, total: real)
    requires d > 0 && m + k <= 255 * d && total == m as real + k as real
    ensures Nearest(m + k, d, Round(total / d as real))
  {
    assert total == (m + k) as real;
    RoundedQuotient(m + k, d);
  }

  lemma InRange(c: byte, a: byte)
    ensures 0 <= c * a <= 255 * a
  {
  }

  lemma SolidMean(p: byte, q: byte, c: int)
    requires Nearest(p * 255 + q * 255, 510, c)
    ensures c == (p + q + 1) / 2
  {
  }

  /** Two opaque pixels give the plain mean, half a step going up. */
  lemma MeanOfSolid(p: Rgba, q: Rgba)
    requires p.a == 255 && q.a == 255
    ensures var o := Resampled(Pair(p, q), 2.0, 1.0, 0, 0);
            o.r == (p.r + q.r + 1) / 2 && o.g == (p.g + q.g + 1) / 2 && o.b == (p.b + q.b + 1) / 2 && o.a == 255
  {
    MeanOfTwo(p, q);
    var o := Resampled(Pair(p, q), 2.0, 1.0, 0, 0);
    SolidMean(p.r, q.r, o.r);
    SolidMean(p.g, q.g, o.g);
    SolidMean(p.b, q.b, o.b);
  }
}
