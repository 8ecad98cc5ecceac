/** Finite sums of reals. */
module Sums {

  function Sum(n: nat, f: int -> real): real { if n == 0 then 0.0 else Sum(n - 1, f) + f(n - 1) }

  lemma {:induction false} SumEqual(n: nat, f: int -> real, g: int -> real)
    requires forall i :: 0 <= i < n ==> f(i) == g(i)
    ensures Sum(n, f) == Sum(n, g)
  {
    if n > 0 { SumEqual(n - 1, f, g); }
  }

  lemma {:induction false} SumScaled(n: nat, f: int -> real, g: int -> real, c: real)
    requires forall i :: 0 <= i < n ==> g(i) == c * f(i)
    ensures Sum(n, g) == c * Sum(n, f)
  {
    if n > 0 {
      SumScaled(n - 1, f, g, c);
      assert c * (Sum(n - 1, f) + f(n - 1)) == c * Sum(n - 1, f) + c * f(n - 1);
    }
  }

  lemma {:induction false} SumAdded(n: nat, f: int -> real, g: int -> real, h: int -> real)
    requires forall i :: 0 <= i < n ==> h(i) == f(i) + g(i)
    ensures Sum(n, h) == Sum(n, f) + Sum(n, g)
  {
    if n > 0 { SumAdded(n - 1, f, g, h); }
  }

  lemma {:induction false} SumZero(n: nat, f: int -> real)
    requires forall i :: 0 <= i < n ==> f(i) == 0.0
    ensures Sum(n, f) == 0.0
  {
    if n > 0 { SumZero(n - 1, f); }
  }

  lemma {:induction false} SumTail(m: nat, n: nat, f: int -> real)
    requires m <= n && forall i :: m <= i < n ==> f(i) == 0.0
    ensures Sum(n, f) == Sum(m, f)
  {
    if m < n { SumTail(m, n - 1, f); }
  }

  lemma {:induction false} SumMonotone(n: nat, f: int -> real, g: int -> real)
    requires forall i :: 0 <= i < n ==> f(i) <= g(i)
    ensures Sum(n, f) <= Sum(n, g)
  {
    if n > 0 { SumMonotone(n - 1, f, g); }
  }

  /** A telescoping sum. */
  lemma {:induction false} SumTelescopes(n: nat, f: int -> real, p: int -> real)
    requires forall i :: 0 <= i < n ==> f(i) == p(i + 1) - p(i)
    ensures Sum(n, f) == p(n) - p(0)
  {
    if n > 0 { SumTelescopes(n - 1, f, p); }
  }

  function RowSum(n: nat, f: (int, int) -> real): int -> real { i => Sum(n, j => f(i, j)) }

  /** The order of a double sum does not matter. */
  lemma {:induction false} SumSwap(m: nat, n: nat, f: (int, int) -> real)
    ensures Sum(m, RowSum(n, f)) == Sum(n, RowSum(m, (j, i) => f(i, j)))
  {
    var g := (j, i) => f(i, j);
    if m == 0 {
      SumZero(n, RowSum(0, g));
    } else {
      SumSwap(m - 1, n, f);
      SumAdded(n, RowSum(m - 1, g), j => f(m - 1, j), RowSum(m, g));
    }
  }
}

/** The area-average resampler (src/client/artscale.h), in exact arithmetic: the source's
    doubles are reals. */
module Resample {
  import opened Basics
  import opened GridIndex
  import opened Sums
  import Upscale

  type Rgba = Upscale.Rgba
  type Image = Upscale.Image

  function Min(a: real, b: real): real { if a < b then a else b }

  function Max(a: real, b: real): real { if a < b then b else a }

  // --- One axis ----------------------------------------------------------------------------

  /** Where the window of destination pixel `k` begins: `k` ratios from the left. */
  function Start(r: real, k: int): real
    decreases k
  {
    if k <= 0 then 0.0 else Start(r, k - 1) + r
  }

  /** `r` is the ratio of `s` source to `d` destination pixels: `d` windows span the source. */
  ghost predicate IsRatio(s: nat, d: nat, r: real) { d > 0 && Start(r, d) == s as real }

  /** The part of source pixel `x` that the window of `k` covers. */
  function Weight(r: real, k: int, x: int): real
  {
    var o := Overlap(Start(r, k), Start(r, k) + r, x);
    if o > 0.0 then o else 0.0
  }

  function Overlap(lo: real, hi: real, x: int): real { Min(x as real + 1.0, hi) - Max(x as real, lo) }

  /** The part of source pixel `x` to the left of `t`. */
  function LeftOf(t: real, x: int): real { Max(0.0, Min(1.0, t - x as real)) }

  /** The product that the source computes. */
  lemma {:induction false} StartIsProduct(r: real, k: int)
    requires k >= 0
    ensures Start(r, k) == k as real * r
  {
    if k > 0 {
      StartIsProduct(r, k - 1);
      Distribute(k as real - 1.0, r);
    }
  }

  lemma Distribute(a: real, r: real)
    ensures (a + 1.0) * r == a * r + r
  {
  }

  /** The ratio is the quotient of the sizes, and nothing else. */
  lemma RatioIsQuotient(s: nat, d: nat, r: real)
    requires d > 0
    ensures IsRatio(s, d, r) <==> r == s as real / d as real
  {
    StartIsProduct(r, d);
    QuotientIff(s as real, d as real, r);
  }

  lemma QuotientIff(a: real, b: real, r: real)
    requires b > 0.0
    ensures b * r == a <==> r == a / b
  {
    assert b * (a / b) == a;
    if b * r == a {
      var gap := r - a / b;
      assert b * gap == 0.0;
      assert gap == 0.0;
    }
  }

  lemma {:induction false} StartSign(r: real, k: int)
    requires k > 0
    ensures Start(r, k) >= 0.0 <==> r >= 0.0
    ensures Start(r, k) > 0.0 <==> r > 0.0
  {
    if k > 1 { StartSign(r, k - 1); }
  }

  lemma {:induction false} StartMonotone(r: real, k: int, k': int)
    requires r >= 0.0 && 0 <= k <= k'
    ensures 0.0 <= Start(r, k) <= Start(r, k')
    decreases k'
  {
    if k < k' { StartMonotone(r, k, k' - 1); } else if k > 0 { StartMonotone(r, k - 1, k - 1); }
  }

  lemma WeightIsDifference(r: real, k: int, x: int)
    requires r >= 0.0 && k >= 0
    ensures Weight(r, k, x) == LeftOf(Start(r, k + 1), x) - LeftOf(Start(r, k), x)
  {
    StartMonotone(r, k, k + 1);
  }

  lemma {:induction false} LeftTotal(n: nat, t: real, f: int -> real)
    requires t >= 0.0 && forall x :: 0 <= x < n ==> f(x) == LeftOf(t, x)
    ensures Sum(n, f) == Min(t, n as real)
  {
    if n > 0 { LeftTotal(n - 1, t, f); }
  }

  /** The share of destination `k` in source `x`. */
  type Sharing = (int, int) -> real

  function Sharings(r: real): Sharing { (k, x) => Weight(r, k, x) }

  /** All shares of one destination. */
  function Line(share: Sharing, k: int): int -> real { x => share(k, x) }

  /** All shares in one source element. */
  function Shares(share: Sharing, x: int): int -> real { k => share(k, x) }

  function Weights(r: real, k: int): int -> real { Line(Sharings(r), k) }

  /** Every window weighs the same: the weights over all source pixels add up to the ratio. */
  lemma WindowTotal(s: nat, d: nat, r: real, k: int)
    requires IsRatio(s, d, r) && 0 <= k < d
    ensures Sum(s, Weights(r, k)) == r
  {
    var lo, hi := Start(r, k), Start(r, k + 1);
    StartSign(r, d);
    StartMonotone(r, k + 1, d);
    StartMonotone(r, k, k + 1);
    var before, upto := x => LeftOf(lo, x), x => LeftOf(hi, x);
    LeftTotal(s, lo, before);
    LeftTotal(s, hi, upto);
    forall x ensures Weight(r, k, x) == upto(x) - before(x) { WeightIsDifference(r, k, x); }
    SumAdded(s, before, Weights(r, k), upto);
  }

  function Shared(share: Sharing, s: nat, v: int -> real): int -> real { k => Sum(s, SharedTerms(share, v, k)) }

  function SharedTerms(share: Sharing, v: int -> real, k: int): int -> real { x => share(k, x) * v(x) }

  /** The windows partition the source: every source pixel is shared out exactly once. */
  lemma SourceTotal(s: nat, d: nat, r: real, x: int)
    requires IsRatio(s, d, r) && 0 <= x < s
    ensures Sum(d, Shares(Sharings(r), x)) == 1.0
  {
    var p := (k: int) => LeftOf(Start(r, k), x);
    StartSign(r, d);
    forall k | 0 <= k ensures Weight(r, k, x) == p(k + 1) - p(k) { WeightIsDifference(r, k, x); }
    SumTelescopes(d, Shares(Sharings(r), x), p);
  }

  /** C++ `ceil`. */
  function Ceil(t: real): int { -((-t).Floor) }

  /** The first and last source pixel that the loops visit. */
  function First(r: real, k: int): int { Start(r, k).Floor }

  function Last(s: nat, r: real, k: int): int
  {
    var e := Ceil(Start(r, k) + r) - 1;
    if s - 1 < e then s - 1 else e
  }

  /** Pixels outside the visited range have no weight. */
  lemma RangeSuffices(s: nat, d: nat, r: real, k: int, x: int)
    requires IsRatio(s, d, r) && 0 <= k < d && 0 <= x < s
    ensures 0 <= First(r, k) <= s && First(r, k) <= Last(s, r, k) + 1 && Last(s, r, k) < s
    ensures x < First(r, k) || x > Last(s, r, k) ==> Weight(r, k, x) == 0.0
  {
    StartSign(r, d);
    StartMonotone(r, k, k + 1);
    StartMonotone(r, k + 1, d);
  }

  // --- Both axes ------------------------------------------------------------------------------

  type Plane = (int, int) -> real
  type Weighting = int -> real

  function RowTerms(wx: Weighting, wy: real, v: Plane, y: int): int -> real { x => wx(x) * wy * v(x, y) }

  function RowSums(n: nat, wx: Weighting, wy: Weighting, v: Plane): int -> real
  {
    y => Sum(n, RowTerms(wx, wy(y), v, y))
  }

  /** The weighted mass of a `w` x `h` plane. */
  function Mass(w: nat, h: nat, wx: Weighting, wy: Weighting, v: Plane): real { Sum(h, RowSums(w, wx, wy, v)) }

  /** One horizontal pass. */
  function Across(w: nat, wx: Weighting, v: Plane): int -> real { y => Sum(w, AcrossTerms(wx, v, y)) }

  function AcrossTerms(wx: Weighting, v: Plane, y: int): int -> real { x => wx(x) * v(x, y) }

  function LineOf(v: Plane, y: int): int -> real { x => v(x, y) }

  function LineSums(w: nat, v: Plane): int -> real { y => Sum(w, LineOf(v, y)) }

  lemma RowFactors(w: nat, wx: Weighting, wy: real, v: Plane, y: int)
    ensures Sum(w, RowTerms(wx, wy, v, y)) == wy * Across(w, wx, v)(y)
  {
    forall x ensures wx(x) * wy * v(x, y) == wy * (wx(x) * v(x, y)) {
      Reorder(wx(x), wy, v(x, y));
    }
    SumScaled(w, AcrossTerms(wx, v, y), RowTerms(wx, wy, v, y), wy);
  }

  lemma Reorder(a: real, b: real, c: real)
    ensures a * b * c == b * (a * c)
  {
  }

  lemma ConstantRow(w: nat, wx: Weighting, wy: real, v: Plane, y: int, c: real, k: real)
    requires forall x :: 0 <= x < w ==> v(x, y) == c
    requires k == c * Sum(w, wx)
    ensures Sum(w, RowTerms(wx, wy, v, y)) == k * wy
  {
    RowFactors(w, wx, wy, v, y);
    SumScaled(w, wx, AcrossTerms(wx, v, y), c);
  }

  lemma ConstantRows(w: nat, h: nat, wx: Weighting, wy: Weighting, v: Plane, c: real, k: real)
    requires forall x, y :: 0 <= x < w && 0 <= y < h ==> v(x, y) == c
    requires k == c * Sum(w, wx)
    ensures Mass(w, h, wx, wy, v) == k * Sum(h, wy)
  {
    forall y | 0 <= y < h ensures RowSums(w, wx, wy, v)(y) == k * wy(y) {
      ConstantRow(w, wx, wy(y), v, y, c, k);
    }
    SumScaled(h, wy, RowSums(w, wx, wy, v), k);
  }

  /** A constant plane has the mass of the window. */
  lemma ConstantMass(w: nat, h: nat, wx: Weighting, wy: Weighting, v: Plane, c: real, rx: real, ry: real)
    requires forall x, y :: 0 <= x < w && 0 <= y < h ==> v(x, y) == c
    requires Sum(w, wx) == rx && Sum(h, wy) == ry
    ensures Mass(w, h, wx, wy, v) == rx * ry * c
  {
    ConstantRows(w, h, wx, wy, v, c, c * rx);
    Rotate(c, rx, ry);
  }

  lemma Rotate(a: real, b: real, c: real)
    ensures a * b * c == b * c * a
  {
  }

  predicate NonNegative(n: nat, wt: Weighting) { forall x :: 0 <= x < n ==> wt(x) >= 0.0 }

  /** One plane is at most the other wherever there is weight. */
  ghost predicate AtMostUnder(w: nat, h: nat, wx: Weighting, wy: Weighting, v: Plane, v': Plane)
  {
    forall x, y :: 0 <= x < w && 0 <= y < h && wx(x) > 0.0 && wy(y) > 0.0 ==> v(x, y) <= v'(x, y)
  }

  /** Then its mass is at most the other's. */
  lemma MassMonotone(w: nat, h: nat, wx: Weighting, wy: Weighting, v: Plane, v': Plane)
    requires NonNegative(w, wx) && NonNegative(h, wy) && AtMostUnder(w, h, wx, wy, v, v')
    ensures Mass(w, h, wx, wy, v) <= Mass(w, h, wx, wy, v')
  {
    forall y | 0 <= y < h ensures RowSums(w, wx, wy, v)(y) <= RowSums(w, wx, wy, v')(y) {
      forall x | 0 <= x < w ensures RowTerms(wx, wy(y), v, y)(x) <= RowTerms(wx, wy(y), v', y)(x) {
        ScaleOrder(wx(x), wy(y), v(x, y), v'(x, y));
      }
      SumMonotone(w, RowTerms(wx, wy(y), v, y), RowTerms(wx, wy(y), v', y));
    }
    SumMonotone(h, RowSums(w, wx, wy, v), RowSums(w, wx, wy, v'));
  }

  lemma ScaleOrder(a: real, b: real, c: real, d: real)
    requires a >= 0.0 && b >= 0.0 && (a > 0.0 && b > 0.0 ==> c <= d)
    ensures a * b * c <= a * b * d
  {
    if a > 0.0 && b > 0.0 {
      Positive(a, b);
      assert a * b * (d - c) >= 0.0;
    }
  }

  function Product(a: real, b: real): real { a * b }

  function Times(c: real, v: Plane): Plane { (x, y) => Product(c, v(x, y)) }

  /** Scaling a plane scales its mass. */
  lemma MassScaled(w: nat, h: nat, wx: Weighting, wy: Weighting, v: Plane, c: real)
    ensures Mass(w, h, wx, wy, Times(c, v)) == c * Mass(w, h, wx, wy, v)
  {
    forall y | 0 <= y < h ensures RowSums(w, wx, wy, Times(c, v))(y) == c * RowSums(w, wx, wy, v)(y) {
      forall x | 0 <= x < w ensures RowTerms(wx, wy(y), Times(c, v), y)(x) == c * RowTerms(wx, wy(y), v, y)(x) {
        PullOut(wx(x) * wy(y), c, v(x, y));
      }
      SumScaled(w, RowTerms(wx, wy(y), v, y), RowTerms(wx, wy(y), Times(c, v), y), c);
    }
    SumScaled(h, RowSums(w, wx, wy, v), RowSums(w, wx, wy, Times(c, v)), c);
  }

  lemma PullOut(a: real, c: real, v: real)
    ensures a * (c * v) == c * (a * v)
  {
  }

  /** A plane that is at least `lo` and at most `hi` times another under the weights has a
      mass between those multiples of the other's. */
  lemma MassBetween(w: nat, h: nat, wx: Weighting, wy: Weighting, v: Plane, u: Plane, lo: real, hi: real)
    requires NonNegative(w, wx) && NonNegative(h, wy)
    requires AtMostUnder(w, h, wx, wy, Times(lo, u), v) && AtMostUnder(w, h, wx, wy, v, Times(hi, u))
    ensures lo * Mass(w, h, wx, wy, u) <= Mass(w, h, wx, wy, v) <= hi * Mass(w, h, wx, wy, u)
  {
    MassScaled(w, h, wx, wy, u, lo);
    MassScaled(w, h, wx, wy, u, hi);
    MassMonotone(w, h, wx, wy, Times(lo, u), v);
    MassMonotone(w, h, wx, wy, v, Times(hi, u));
  }

  /** If every source element is shared out exactly once, nothing is lost. */
  lemma NothingLost(d: nat, s: nat, share: Sharing, v: int -> real)
    requires forall x :: 0 <= x < s ==> Sum(d, Shares(share, x)) == 1.0
    ensures Sum(d, Shared(share, s, v)) == Sum(s, v)
  {
    var f := (k, x) => share(k, x) * v(x);
    var g := (x, k) => f(k, x);
    SumSwap(d, s, f);
    forall k ensures Shared(share, s, v)(k) == RowSum(s, f)(k) {
      SumEqual(s, SharedTerms(share, v, k), x => f(k, x));
    }
    SumEqual(d, Shared(share, s, v), RowSum(s, f));
    forall x | 0 <= x < s ensures RowSum(d, g)(x) == v(x) {
      SumScaled(d, Shares(share, x), k => g(x, k), v(x));
    }
    SumEqual(s, RowSum(d, g), v);
  }

  /** The mass that each destination pixel receives from a plane. */
  function Received(sw: nat, sh: nat, sx: Sharing, sy: Sharing, v: Plane): (int, int) -> real
  {
    (dx, dy) => Mass(sw, sh, Line(sx, dx), Line(sy, dy), v)
  }

  lemma ColumnReceived(sw: nat, sh: nat, dh: nat, sx: Sharing, sy: Sharing, v: Plane, dx: int)
    requires forall y :: 0 <= y < sh ==> Sum(dh, Shares(sy, y)) == 1.0
    ensures RowSum(dh, Received(sw, sh, sx, sy, v))(dx) == Sum(sh, Across(sw, Line(sx, dx), v))
  {
    var wx := Line(sx, dx);
    var across := Across(sw, wx, v);
    var d, shared := Received(sw, sh, sx, sy, v), Shared(sy, sh, across);
    forall dy ensures d(dx, dy) == shared(dy) {
      MassAsShared(sw, sh, wx, sy, v, dy);
    }
    SumEqual(dh, dy => d(dx, dy), shared);
    NothingLost(dh, sh, sy, across);
  }

  lemma MassAsShared(sw: nat, sh: nat, wx: Weighting, sy: Sharing, v: Plane, dy: int)
    ensures Mass(sw, sh, wx, Line(sy, dy), v) == Shared(sy, sh, Across(sw, wx, v))(dy)
  {
    var rows, shared := RowSums(sw, wx, Line(sy, dy), v), SharedTerms(sy, Across(sw, wx, v), dy);
    forall y ensures rows(y) == shared(y) {
      RowFactors(sw, wx, Line(sy, dy)(y), v, y);
    }
    SumEqual(sh, rows, shared);
  }

  function ColumnOf(sw: nat, sx: Sharing, v: Plane, y: int): int -> real { dx => Across(sw, Line(sx, dx), v)(y) }

  lemma RowsReceived(sw: nat, dw: nat, sx: Sharing, v: Plane, y: int)
    requires forall x :: 0 <= x < sw ==> Sum(dw, Shares(sx, x)) == 1.0
    ensures Sum(dw, ColumnOf(sw, sx, v, y)) == LineSums(sw, v)(y)
  {
    var line := LineOf(v, y);
    forall dx ensures ColumnOf(sw, sx, v, y)(dx) == Shared(sx, sw, line)(dx) {
      var f, g := AcrossTerms(Line(sx, dx), v, y), SharedTerms(sx, line, dx);
      forall x ensures f(x) == g(x) { assert Line(sx, dx)(x) == sx(dx, x) && line(x) == v(x, y); }
      SumEqual(sw, f, g);
      assert Across(sw, Line(sx, dx), v)(y) == Sum(sw, f) && Shared(sx, sw, line)(dx) == Sum(sw, g);
    }
    SumEqual(dw, ColumnOf(sw, sx, v, y), Shared(sx, sw, line));
    NothingLost(dw, sw, sx, line);
  }

  lemma SharingConserves(sw: nat, sh: nat, dw: nat, dh: nat, sx: Sharing, sy: Sharing, v: Plane)
    requires forall x :: 0 <= x < sw ==> Sum(dw, Shares(sx, x)) == 1.0
    requires forall y :: 0 <= y < sh ==> Sum(dh, Shares(sy, y)) == 1.0
    ensures Sum(dw, RowSum(dh, Received(sw, sh, sx, sy, v))) == Sum(sh, LineSums(sw, v))
  {
    var f := (dx, y) => Across(sw, Line(sx, dx), v)(y);
    forall dx ensures RowSum(dh, Received(sw, sh, sx, sy, v))(dx) == RowSum(sh, f)(dx) {
      ColumnReceived(sw, sh, dh, sx, sy, v, dx);
      SumEqual(sh, Across(sw, Line(sx, dx), v), y => f(dx, y));
    }
    SumEqual(dw, RowSum(dh, Received(sw, sh, sx, sy, v)), RowSum(sh, f));
    SumSwap(dw, sh, f);
    var g := (y, dx) => f(dx, y);
    forall y ensures RowSum(dw, g)(y) == LineSums(sw, v)(y) {
      RowsReceived(sw, dw, sx, v, y);
      SumEqual(dw, dx => g(y, dx), ColumnOf(sw, sx, v, y));
    }
    SumEqual(sh, RowSum(dw, g), LineSums(sw, v));
  }

  /** Resampling conserves mass, before rounding: for every plane, what the destination
      pixels receive together is what the source holds. */
  lemma MassConserved(sw: nat, sh: nat, dw: nat, dh: nat, rx: real, ry: real, v: Plane)
    requires IsRatio(sw, dw, rx) && IsRatio(sh, dh, ry)
    ensures Sum(dw, RowSum(dh, Received(sw, sh, Sharings(rx), Sharings(ry), v))) == Sum(sh, LineSums(sw, v))
  {
    forall x | 0 <= x < sw { SourceTotal(sw, dw, rx, x); }
    forall y | 0 <= y < sh { SourceTotal(sh, dh, ry, y); }
    SharingConserves(sw, sh, dw, dh, Sharings(rx), Sharings(ry), v);
  }

  // --- Pixels -------------------------------------------------------------------------------------

  /** The five accumulators. */
  datatype Channel = Red | Green | Blue | Alpha | Cover

  datatype Totals = Totals(r: real, g: real, b: real, a: real, w: real)
  {
    function Get(ch: Channel): real
    {
      match ch case Red => r case Green => g case Blue => b case Alpha => a case Cover => w
    }
  }

  function Pixel(src: Image, x: int, y: int): Rgba
    requires src.Sized()
  {
    if 0 <= x < src.w && 0 <= y < src.h then
      IndexOf(src.w, src.h, x, y);
      src.pixels[Index(src.w, x, y)]
    else Upscale.Rgba(0, 0, 0, 0)
  }

  /** What one channel accumulates: colours are premultiplied by alpha. */
  function Value(p: Rgba, ch: Channel): real
  {
    match ch
    case Red => Product(p.r as real, p.a as real)
    case Green => Product(p.g as real, p.a as real)
    case Blue => Product(p.b as real, p.a as real)
    case Alpha => p.a as real
    case Cover => 1.0
  }

  function PlaneOf(src: Image, ch: Channel): Plane
    requires src.Sized()
  {
    (x, y) => Value(Pixel(src, x, y), ch)
  }

  /** Round half up into a byte. */
  function Round(v: real): byte
  {
    var t := Min(255.0, v + 0.5);
    if t < 0.0 then 0 else t.Floor
  }

  function Settle(t: Totals): Rgba
  {
    if t.w <= 0.0 || t.a <= 0.0 then Upscale.Rgba(0, 0, 0, 0)
    else Upscale.Rgba(Round(t.r / t.a), Round(t.g / t.a), Round(t.b / t.a), Round(t.a / t.w))
  }

  /** The output pixel at (dx, dy), for the ratios rx and ry. */
  function Resampled(src: Image, rx: real, ry: real, dx: int, dy: int): Rgba
    requires src.Sized()
  {
    Settle(TotalsUnder(src, Weights(rx, dx), Weights(ry, dy)))
  }

  lemma Positive(a: real, b: real)
    requires a > 0.0 && b > 0.0
    ensures a * b > 0.0
  {
  }

  /** Every output pixel is an average over the same area, the whole window. */
  lemma CoverIsWindow(src: Image, dw: nat, dh: nat, rx: real, ry: real, dx: int, dy: int)
    requires src.Valid() && IsRatio(src.w, dw, rx) && IsRatio(src.h, dh, ry) && 0 <= dx < dw && 0 <= dy < dh
    ensures Mass(src.w, src.h, Weights(rx, dx), Weights(ry, dy), PlaneOf(src, Cover)) == rx * ry > 0.0
  {
    WindowTotal(src.w, dw, rx, dx);
    WindowTotal(src.h, dh, ry, dy);
    StartSign(rx, dw);
    StartSign(ry, dh);
    CoverUnder(src, Weights(rx, dx), Weights(ry, dy), rx, ry);
  }

  lemma CoverUnder(src: Image, wx: Weighting, wy: Weighting, rx: real, ry: real)
    requires src.Sized() && Sum(src.w, wx) == rx > 0.0 && Sum(src.h, wy) == ry > 0.0
    ensures Mass(src.w, src.h, wx, wy, PlaneOf(src, Cover)) == rx * ry > 0.0
  {
    ConstantMass(src.w, src.h, wx, wy, PlaneOf(src, Cover), 1.0, rx, ry);
    Positive(rx, ry);
  }

  lemma Quotients(u: real, c: real, a: real)
    requires u > 0.0 && a > 0.0
    ensures u * a > 0.0 && (u * (c * a)) / (u * a) == c && (u * a) / u == a
  {
    Positive(u, a);
    assert u * (c * a) == c * (u * a);
    CancelRight(c, u * a);
    assert u * a == a * u;
    CancelRight(a, u);
  }

  lemma CancelRight(c: real, d: real)
    requires d != 0.0
    ensures (c * d) / d == c
  {
  }

  lemma RoundByte(v: byte)
    ensures Round(v as real) == v
  {
  }

  /** A constant image resamples to itself at every size; a fully transparent one to
      transparent black. */
  lemma ConstantImage(src: Image, dw: nat, dh: nat, rx: real, ry: real, dx: int, dy: int, p: Rgba)
    requires src.Valid() && IsRatio(src.w, dw, rx) && IsRatio(src.h, dh, ry) && 0 <= dx < dw && 0 <= dy < dh
    requires forall i :: 0 <= i < |src.pixels| ==> src.pixels[i] == p
    ensures Resampled(src, rx, ry, dx, dy) == if p.a > 0 then p else Upscale.Rgba(0, 0, 0, 0)
  {
    CoverIsWindow(src, dw, dh, rx, ry, dx, dy);
    ConstantSettles(src, Weights(rx, dx), Weights(ry, dy), p);
  }

  /** The totals of one output pixel under given weights. */
  function TotalsUnder(src: Image, wx: Weighting, wy: Weighting): Totals
    requires src.Sized()
  {
    Totals(Mass(src.w, src.h, wx, wy, PlaneOf(src, Red)), Mass(src.w, src.h, wx, wy, PlaneOf(src, Green)),
           Mass(src.w, src.h, wx, wy, PlaneOf(src, Blue)), Mass(src.w, src.h, wx, wy, PlaneOf(src, Alpha)),
           Mass(src.w, src.h, wx, wy, PlaneOf(src, Cover)))
  }

  lemma ConstantMassIs(w: nat, h: nat, wx: Weighting, wy: Weighting, v: Plane, c: real, rx: real, ry: real, u: real)
    requires forall x, y :: 0 <= x < w && 0 <= y < h ==> v(x, y) == c
    requires Sum(w, wx) == rx && Sum(h, wy) == ry && u == rx * ry
    ensures Mass(w, h, wx, wy, v) == u * c
  {
    ConstantMass(w, h, wx, wy, v, c, rx, ry);
  }

  function CoverOf(src: Image, wx: Weighting, wy: Weighting): real
    requires src.Sized()
  {
    Mass(src.w, src.h, wx, wy, PlaneOf(src, Cover))
  }

  lemma CoverIs(src: Image, wx: Weighting, wy: Weighting)
    requires src.Sized()
    ensures CoverOf(src, wx, wy) == Sum(src.w, wx) * Sum(src.h, wy)
  {
    ConstantMass(src.w, src.h, wx, wy, PlaneOf(src, Cover), 1.0, Sum(src.w, wx), Sum(src.h, wy));
  }

  lemma ConstantUnder(src: Image, wx: Weighting, wy: Weighting, v: Plane, c: real)
    requires src.Sized() && forall x, y :: 0 <= x < src.w && 0 <= y < src.h ==> v(x, y) == c
    ensures Mass(src.w, src.h, wx, wy, v) == CoverOf(src, wx, wy) * c
  {
    CoverIs(src, wx, wy);
    ConstantMassIs(src.w, src.h, wx, wy, v, c, Sum(src.w, wx), Sum(src.h, wy), CoverOf(src, wx, wy));
  }

  /** The totals of a constant image, one channel. */
  lemma ConstantChannel(src: Image, wx: Weighting, wy: Weighting, p: Rgba, ch: Channel, c: real)
    requires src.Sized() && c == Value(p, ch)
    requires forall i :: 0 <= i < |src.pixels| ==> src.pixels[i] == p
    ensures Mass(src.w, src.h, wx, wy, PlaneOf(src, ch)) == CoverOf(src, wx, wy) * c
  {
    PlaneConstant(src, p, ch);
    ConstantUnder(src, wx, wy, PlaneOf(src, ch), c);
  }

  lemma PlaneConstant(src: Image, p: Rgba, ch: Channel)
    requires src.Sized() && forall i :: 0 <= i < |src.pixels| ==> src.pixels[i] == p
    ensures forall x, y :: 0 <= x < src.w && 0 <= y < src.h ==> PlaneOf(src, ch)(x, y) == Value(p, ch)
  {
    forall x, y | 0 <= x < src.w && 0 <= y < src.h ensures PlaneOf(src, ch)(x, y) == Value(p, ch) {
      IndexOf(src.w, src.h, x, y);
      assert Pixel(src, x, y) == p;
    }
  }

  lemma ConstantTotal(src: Image, wx: Weighting, wy: Weighting, p: Rgba, t: Totals, u: real, ch: Channel)
    requires src.Sized() && t == TotalsUnder(src, wx, wy) && u == CoverOf(src, wx, wy)
    requires forall i :: 0 <= i < |src.pixels| ==> src.pixels[i] == p
    ensures t.Get(ch) == u * Value(p, ch)
  {
    var c := Value(p, ch);
    TotalOf(src, wx, wy, ch);
    ConstantChannel(src, wx, wy, p, ch, c);
  }

  lemma ConstantSettles(src: Image, wx: Weighting, wy: Weighting, p: Rgba)
    requires src.Sized() && CoverOf(src, wx, wy) > 0.0
    requires forall i :: 0 <= i < |src.pixels| ==> src.pixels[i] == p
    ensures Settle(TotalsUnder(src, wx, wy)) == if p.a > 0 then p else Upscale.Rgba(0, 0, 0, 0)
  {
    var t, u := TotalsUnder(src, wx, wy), CoverOf(src, wx, wy);
    forall ch ensures t.Get(ch) == u * Value(p, ch) { ConstantTotal(src, wx, wy, p, t, u, ch); }
    SettleExact(t, u, p);
  }

  lemma TotalOf(src: Image, wx: Weighting, wy: Weighting, ch: Channel)
    requires src.Sized()
    ensures TotalsUnder(src, wx, wy).Get(ch) == Mass(src.w, src.h, wx, wy, PlaneOf(src, ch))
  {
  }

  lemma ChannelExact(u: real, c: byte, a: byte, v: real, m: real, ma: real)
    requires u > 0.0 && a > 0 && v == c as real * a as real && m == u * v && ma == u * a as real
    ensures ma > 0.0 && Round(m / ma) == c && Round(ma / u) == a
  {
    Quotients(u, c as real, a as real);
    RoundByte(c);
    RoundByte(a);
  }

  /** Every total is `u` times what the pixel has. */
  ghost predicate TimesPixel(t: Totals, u: real, p: Rgba) { forall ch :: t.Get(ch) == u * Value(p, ch) }

  lemma ColourSettles(t: Totals, u: real, p: Rgba, ch: Channel, c: byte)
    requires u > 0.0 && p.a > 0 && t.w == u && TimesPixel(t, u, p) && Value(p, ch) == c as real * p.a as real
    ensures t.a > 0.0 && Round(t.Get(ch) / t.a) == c && Round(t.a / t.w) == p.a
  {
    var v := Value(p, ch);
    assert t.Get(ch) == u * v;
    assert t.Get(Alpha) == u * Value(p, Alpha);
    ChannelExact(u, c, p.a, v, t.Get(ch), t.a);
  }

  lemma NothingSettles(t: Totals, u: real, p: Rgba)
    requires p.a == 0 && TimesPixel(t, u, p)
    ensures t.a == 0.0
  {
    assert t.Get(Alpha) == u * Value(p, Alpha);
    Vanishes(u, Value(p, Alpha));
  }

  lemma SettleExact(t: Totals, u: real, p: Rgba)
    requires u > 0.0 && t.w == u && TimesPixel(t, u, p)
    ensures Settle(t) == if p.a > 0 then p else Upscale.Rgba(0, 0, 0, 0)
  {
    if p.a > 0 {
      ColourSettles(t, u, p, Red, p.r);
      ColourSettles(t, u, p, Green, p.g);
      ColourSettles(t, u, p, Blue, p.b);
      SettleParts(t, p);
    } else {
      NothingSettles(t, u, p);
    }
  }

  lemma SettleParts(t: Totals, p: Rgba)
    requires t.w > 0.0 && t.a > 0.0 && Round(t.r / t.a) == p.r && Round(t.g / t.a) == p.g
    requires Round(t.b / t.a) == p.b && Round(t.a / t.w) == p.a
    ensures Settle(t) == p
  {
  }

  lemma Vanishes(u: real, v: real)
    requires v == 0.0
    ensures u * v == 0.0
  {
  }

  // --- An output pixel is an average of what its window shows ----------------------------------

  lemma RoundBetween(v: real, lo: byte, hi: byte)
    requires lo as real <= v <= hi as real
    ensures lo <= Round(v) <= hi
  {
  }

  lemma TimesOrder(c: real, d: real, u: real)
    requires u >= 0.0 && c <= d
    ensures c * u <= d * u
  {
    assert (d - c) * u >= 0.0;
  }

  lemma OrderFromTimes(c: real, d: real, u: real)
    requires u > 0.0 && c * u <= d * u
    ensures c <= d
  {
    if c > d { Positive(c - d, u); }
  }

  lemma QuotientBetween(m: real, u: real, lo: real, hi: real)
    requires u > 0.0 && lo * u <= m <= hi * u
    ensures lo <= m / u <= hi
  {
    var q := m / u;
    assert q * u == m;
    OrderFromTimes(lo, q, u);
    OrderFromTimes(q, hi, u);
  }

  /** A source pixel under the window of an output pixel. */
  predicate Under(rx: real, ry: real, dx: int, dy: int, x: int, y: int)
  {
    Weight(rx, dx, x) > 0.0 && Weight(ry, dy, y) > 0.0
  }

  /** Under the window, alphas lie between those of `lo` and `hi`, and so do the colours of
      the pixels that are not fully transparent. */
  ghost predicate Between(src: Image, rx: real, ry: real, dx: int, dy: int, lo: Rgba, hi: Rgba)
    requires src.Sized()
  {
    forall x, y :: 0 <= x < src.w && 0 <= y < src.h && Under(rx, ry, dx, dy, x, y) ==>
        PixelBetween(Pixel(src, x, y), lo, hi)
  }

  predicate PixelBetween(p: Rgba, lo: Rgba, hi: Rgba)
  {
    lo.a <= p.a <= hi.a && (p.a > 0 ==> lo.r <= p.r <= hi.r && lo.g <= p.g <= hi.g && lo.b <= p.b <= hi.b)
  }

  function Hue(p: Rgba, ch: Channel): int
  {
    match ch case Red => p.r case Green => p.g case Blue => p.b case Alpha => p.a case Cover => 1
  }

  /** What a channel is an average over: colours over alpha, alpha over the area. */
  function BaseOf(ch: Channel): Channel { if ch == Alpha then Cover else Alpha }

  lemma TimesBetween(a: real, c: real, b: real, u: real)
    requires u >= 0.0 && (u > 0.0 ==> a <= c <= b)
    ensures a * u <= c * u <= b * u
  {
    if u > 0.0 {
      TimesOrder(a, c, u);
      TimesOrder(c, b, u);
    }
  }

  lemma ColourBetween(l: byte, c: byte, h: byte, a: byte)
    requires a > 0 ==> l <= c <= h
    ensures Product(l as real, a as real) <= Product(c as real, a as real) <= Product(h as real, a as real)
  {
    TimesBetween(l as real, c as real, h as real, a as real);
  }

  lemma ValueBetween(p: Rgba, lo: Rgba, hi: Rgba, ch: Channel)
    requires PixelBetween(p, lo, hi) && ch != Cover
    ensures Product(Hue(lo, ch) as real, Value(p, BaseOf(ch))) <= Value(p, ch) <=
            Product(Hue(hi, ch) as real, Value(p, BaseOf(ch)))
  {
    match ch
    case Red => ColourBetween(lo.r, p.r, hi.r, p.a);
    case Green => ColourBetween(lo.g, p.g, hi.g, p.a);
    case Blue => ColourBetween(lo.b, p.b, hi.b, p.a);
    case Alpha =>
  }

  /** So under the window every channel lies between those multiples of what it is averaged over. */
  lemma PixelUnder(src: Image, lo: Rgba, hi: Rgba, ch: Channel, a: real, b: real, x: int, y: int)
    requires src.Sized() && PixelBetween(Pixel(src, x, y), lo, hi) && ch != Cover
    requires a == Hue(lo, ch) as real && b == Hue(hi, ch) as real
    ensures Times(a, PlaneOf(src, BaseOf(ch)))(x, y) <= PlaneOf(src, ch)(x, y) <=
            Times(b, PlaneOf(src, BaseOf(ch)))(x, y)
  {
    ValueBetween(Pixel(src, x, y), lo, hi, ch);
  }

  lemma ChannelUnder(src: Image, rx: real, ry: real, dx: int, dy: int, lo: Rgba, hi: Rgba, ch: Channel, a: real,
                     b: real)
    requires src.Sized() && Between(src, rx, ry, dx, dy, lo, hi) && ch != Cover
    requires a == Hue(lo, ch) as real && b == Hue(hi, ch) as real
    ensures AtMostUnder(src.w, src.h, Weights(rx, dx), Weights(ry, dy), Times(a, PlaneOf(src, BaseOf(ch))),
                        PlaneOf(src, ch))
    ensures AtMostUnder(src.w, src.h, Weights(rx, dx), Weights(ry, dy), PlaneOf(src, ch),
                        Times(b, PlaneOf(src, BaseOf(ch))))
  {
    var wx, wy := Weights(rx, dx), Weights(ry, dy);
    var v, lower, upper := PlaneOf(src, ch), Times(a, PlaneOf(src, BaseOf(ch))), Times(b, PlaneOf(src, BaseOf(ch)));
    forall x, y | 0 <= x < src.w && 0 <= y < src.h && wx(x) > 0.0 && wy(y) > 0.0
      ensures lower(x, y) <= v(x, y) <= upper(x, y)
    {
      assert Under(rx, ry, dx, dy, x, y);
      PixelUnder(src, lo, hi, ch, a, b, x, y);
    }
  }

  lemma TotalBetween(src: Image, rx: real, ry: real, dx: int, dy: int, lo: Rgba, hi: Rgba, ch: Channel, t: Totals,
                     a: real, b: real)
    requires src.Sized() && Between(src, rx, ry, dx, dy, lo, hi) && ch != Cover
    requires a == Hue(lo, ch) as real && b == Hue(hi, ch) as real
             && t == TotalsUnder(src, Weights(rx, dx), Weights(ry, dy))
    ensures a * t.Get(BaseOf(ch)) <= t.Get(ch) <= b * t.Get(BaseOf(ch))
  {
    var v, u := PlaneOf(src, ch), PlaneOf(src, BaseOf(ch));
    ChannelUnder(src, rx, ry, dx, dy, lo, hi, ch, a, b);
    TotalOf(src, Weights(rx, dx), Weights(ry, dy), ch);
    TotalOf(src, Weights(rx, dx), Weights(ry, dy), BaseOf(ch));
    MassIn(src.w, src.h, rx, ry, dx, dy, v, u, a, b, t.Get(ch), t.Get(BaseOf(ch)));
  }

  lemma MassIn(w: nat, h: nat, rx: real, ry: real, dx: int, dy: int, v: Plane, u: Plane, a: real, b: real, m: real,
               n: real)
    requires AtMostUnder(w, h, Weights(rx, dx), Weights(ry, dy), Times(a, u), v)
    requires AtMostUnder(w, h, Weights(rx, dx), Weights(ry, dy), v, Times(b, u))
    requires m == Mass(w, h, Weights(rx, dx), Weights(ry, dy), v)
             && n == Mass(w, h, Weights(rx, dx), Weights(ry, dy), u)
    ensures a * n <= m <= b * n
  {
    MassBetween(w, h, Weights(rx, dx), Weights(ry, dy), v, u, a, b);
  }

  lemma ChannelSettles(src: Image, rx: real, ry: real, dx: int, dy: int, lo: Rgba, hi: Rgba, ch: Channel, t: Totals,
                       a: byte, b: byte)
    requires src.Sized() && Between(src, rx, ry, dx, dy, lo, hi) && ch != Cover && a == Hue(lo, ch) && b == Hue(hi, ch)
    requires t == TotalsUnder(src, Weights(rx, dx), Weights(ry, dy)) && t.Get(BaseOf(ch)) > 0.0
    ensures a <= Round(t.Get(ch) / t.Get(BaseOf(ch))) <= b
  {
    TotalBetween(src, rx, ry, dx, dy, lo, hi, ch, t, a as real, b as real);
    QuotientBetween(t.Get(ch), t.Get(BaseOf(ch)), a as real, b as real);
    RoundBetween(t.Get(ch) / t.Get(BaseOf(ch)), a, b);
  }

  /** Every alpha of an output pixel, and every colour of one that is visible, lies between
      the least and the greatest under its window: nothing rings or overshoots. */
  lemma OutputBetween(src: Image, dw: nat, dh: nat, rx: real, ry: real, dx: int, dy: int, lo: Rgba, hi: Rgba)
    requires src.Valid() && IsRatio(src.w, dw, rx) && IsRatio(src.h, dh, ry) && 0 <= dx < dw && 0 <= dy < dh
    requires Between(src, rx, ry, dx, dy, lo, hi)
    ensures PixelBetween(Resampled(src, rx, ry, dx, dy), lo, hi)
  {
    var t := TotalsUnder(src, Weights(rx, dx), Weights(ry, dy));
    CoverIsWindow(src, dw, dh, rx, ry, dx, dy);
    TotalOf(src, Weights(rx, dx), Weights(ry, dy), Cover);
    ChannelSettles(src, rx, ry, dx, dy, lo, hi, Alpha, t, lo.a, hi.a);
    if t.a > 0.0 {
      ChannelSettles(src, rx, ry, dx, dy, lo, hi, Red, t, lo.r, hi.r);
      ChannelSettles(src, rx, ry, dx, dy, lo, hi, Green, t, lo.g, hi.g);
      ChannelSettles(src, rx, ry, dx, dy, lo, hi, Blue, t, lo.b, hi.b);
    } else {
      TotalBetween(src, rx, ry, dx, dy, lo, hi, Alpha, t, lo.a as real, hi.a as real);
      NoAlpha(t.a, t.w, lo.a);
    }
  }

  lemma NoAlpha(a: real, w: real, lo: byte)
    requires w > 0.0 && a <= 0.0 && lo as real * w <= a
    ensures lo == 0
  {
    if lo > 0 { Positive(lo as real, w); }
  }

  // --- The loops ------------------------------------------------------------------------------------

  /** The mass gathered from the rows before `y` and the pixels before `x` of row `y`. */
  function Part(w: nat, wx: Weighting, wy: Weighting, v: Plane, y: nat, x: nat): real
  {
    Sum(y, RowSums(w, wx, wy, v)) + Sum(x, RowTerms(wx, wy(y), v, y))
  }

  lemma PartNext(w: nat, wx: Weighting, wy: Weighting, v: Plane, y: nat, x: nat)
    ensures Part(w, wx, wy, v, y, x + 1) == Part(w, wx, wy, v, y, x) + wx(x) * wy(y) * v(x, y)
    ensures Part(w, wx, wy, v, y, w) == Part(w, wx, wy, v, y + 1, 0)
  {
  }

  lemma NoWeight(a: real, b: real, c: real)
    requires a == 0.0 || b == 0.0
    ensures a * b * c == 0.0
  {
  }

  /** Columns without weight may be skipped. */
  lemma ColumnsSkipped(w: nat, wx: Weighting, wy: Weighting, v: Plane, y: nat, a: nat, b: nat)
    requires a <= b <= w && forall x :: 0 <= x < w && !(a <= x < b) ==> wx(x) == 0.0
    ensures Part(w, wx, wy, v, y, a) == Part(w, wx, wy, v, y, 0)
    ensures Part(w, wx, wy, v, y, b) == Part(w, wx, wy, v, y + 1, 0)
  {
    forall x | 0 <= x < w && !(a <= x < b) ensures RowTerms(wx, wy(y), v, y)(x) == 0.0 {
      NoWeight(wx(x), wy(y), v(x, y));
    }
    SumZero(a, RowTerms(wx, wy(y), v, y));
    SumTail(b, w, RowTerms(wx, wy(y), v, y));
    PartNext(w, wx, wy, v, y, 0);
  }

  lemma RowWithoutWeight(w: nat, wx: Weighting, wy: Weighting, v: Plane, y: nat)
    requires wy(y) == 0.0
    ensures RowSums(w, wx, wy, v)(y) == 0.0
  {
    forall x | 0 <= x < w ensures RowTerms(wx, wy(y), v, y)(x) == 0.0 {
      NoWeight(wx(x), wy(y), v(x, y));
    }
    SumZero(w, RowTerms(wx, wy(y), v, y));
  }

  /** Rows without weight may be skipped. */
  lemma RowsSkipped(w: nat, h: nat, wx: Weighting, wy: Weighting, v: Plane, a: nat, b: nat)
    requires a <= b <= h && forall y :: 0 <= y < h && !(a <= y < b) ==> wy(y) == 0.0
    ensures Part(w, wx, wy, v, a, 0) == 0.0 && Part(w, wx, wy, v, b, 0) == Mass(w, h, wx, wy, v)
  {
    forall y | 0 <= y < h && !(a <= y < b) { RowWithoutWeight(w, wx, wy, v, y); }
    SumZero(a, RowSums(w, wx, wy, v));
    SumTail(b, h, RowSums(w, wx, wy, v));
  }

  const NOTHING := Totals(0.0, 0.0, 0.0, 0.0, 0.0)

  /** The accumulators hold the mass gathered so far, in every channel. */
  ghost predicate Tracks(t: Totals, src: Image, wx: Weighting, wy: Weighting, y: nat, x: nat)
    requires src.Sized()
  {
    forall ch :: t.Get(ch) == Part(src.w, wx, wy, PlaneOf(src, ch), y, x)
  }

  lemma Premultiply(c: real, a: real, wgt: real)
    ensures c * (a * wgt) == wgt * (c * a)
  {
  }

  /** One source pixel is added. */
  function Added(t: Totals, p: Rgba, wgt: real): Totals
  {
    var pa := p.a as real * wgt;
    Totals(t.r + p.r as real * pa, t.g + p.g as real * pa, t.b + p.b as real * pa, t.a + pa, t.w + wgt)
  }

  lemma AddedValue(t: Totals, p: Rgba, wgt: real, ch: Channel)
    ensures Added(t, p, wgt).Get(ch) == t.Get(ch) + wgt * Value(p, ch)
  {
    Premultiply(p.r as real, p.a as real, wgt);
    Premultiply(p.g as real, p.a as real, wgt);
    Premultiply(p.b as real, p.a as real, wgt);
  }

  lemma ChannelAdded(before: real, after: real, w: nat, wx: Weighting, wy: Weighting, v: Plane, y: nat, x: nat,
                     a: real, b: real, c: real)
    requires before == Part(w, wx, wy, v, y, x) && a == wx(x) && b == wy(y) && c == v(x, y)
    requires after == before + a * b * c
    ensures after == Part(w, wx, wy, v, y, x + 1)
  {
    PartStep(w, wx, wy, v, y, x, a, b, c);
  }

  lemma AddedChannel(t: Totals, p: Rgba, w: nat, wx: Weighting, wy: Weighting, v: Plane, y: nat, x: nat,
                     a: real, b: real, ch: Channel)
    requires t.Get(ch) == Part(w, wx, wy, v, y, x) && a == wx(x) && b == wy(y) && v(x, y) == Value(p, ch)
    ensures Added(t, p, a * b).Get(ch) == Part(w, wx, wy, v, y, x + 1)
  {
    AddedValue(t, p, a * b, ch);
    ChannelAdded(t.Get(ch), Added(t, p, a * b).Get(ch), w, wx, wy, v, y, x, a, b, Value(p, ch));
  }

  lemma PartStep(w: nat, wx: Weighting, wy: Weighting, v: Plane, y: nat, x: nat, a: real, b: real, c: real)
    requires a == wx(x) && b == wy(y) && c == v(x, y)
    ensures Part(w, wx, wy, v, y, x + 1) == Part(w, wx, wy, v, y, x) + a * b * c
  {
    PartNext(w, wx, wy, v, y, x);
  }

  lemma ChannelSkipped(t: Totals, src: Image, wx: Weighting, wy: Weighting, y: nat, x: nat, ch: Channel)
    requires src.Sized() && t.Get(ch) == Part(src.w, wx, wy, PlaneOf(src, ch), y, x) && wx(x) == 0.0
    ensures t.Get(ch) == Part(src.w, wx, wy, PlaneOf(src, ch), y, x + 1)
  {
    PartNext(src.w, wx, wy, PlaneOf(src, ch), y, x);
    NoWeight(wx(x), wy(y), PlaneOf(src, ch)(x, y));
  }

  lemma PixelAdded(t: Totals, src: Image, wx: Weighting, wy: Weighting, y: nat, x: nat, a: real, b: real)
    requires src.Sized() && Tracks(t, src, wx, wy, y, x) && a == wx(x) && b == wy(y)
    ensures Tracks(Added(t, Pixel(src, x, y), a * b), src, wx, wy, y, x + 1)
  {
    var p := Pixel(src, x, y);
    forall ch { AddedChannel(t, p, src.w, wx, wy, PlaneOf(src, ch), y, x, a, b, ch); }
  }

  lemma PixelSkipped(t: Totals, src: Image, wx: Weighting, wy: Weighting, y: nat, x: nat)
    requires src.Sized() && Tracks(t, src, wx, wy, y, x) && wx(x) == 0.0
    ensures Tracks(t, src, wx, wy, y, x + 1)
  {
    forall ch { ChannelSkipped(t, src, wx, wy, y, x, ch); }
  }

  /** Entering and leaving a row of which only the columns a .. b have weight. */
  lemma RowEdges(src: Image, wx: Weighting, wy: Weighting, y: nat, a: nat, b: nat)
    requires src.Sized() && a <= b <= src.w && forall x :: 0 <= x < src.w && !(a <= x < b) ==> wx(x) == 0.0
    ensures forall t: Totals :: Tracks(t, src, wx, wy, y, 0) ==> Tracks(t, src, wx, wy, y, a)
    ensures forall t: Totals :: Tracks(t, src, wx, wy, y, b) ==> Tracks(t, src, wx, wy, y + 1, 0)
  {
    forall ch { ColumnsSkipped(src.w, wx, wy, PlaneOf(src, ch), y, a, b); }
  }

  lemma RowSkipped(t: Totals, src: Image, wx: Weighting, wy: Weighting, y: nat)
    requires src.Sized() && Tracks(t, src, wx, wy, y, 0) && wy(y) == 0.0
    ensures Tracks(t, src, wx, wy, y + 1, 0)
  {
    forall ch ensures t.Get(ch) == Part(src.w, wx, wy, PlaneOf(src, ch), y + 1, 0) {
      RowWithoutWeight(src.w, wx, wy, PlaneOf(src, ch), y);
    }
  }

  /** Before the first and after the last row with weight. */
  lemma PlaneStart(src: Image, wx: Weighting, wy: Weighting, a: nat)
    requires src.Sized() && a <= src.h && forall y :: 0 <= y < a ==> wy(y) == 0.0
    ensures Tracks(NOTHING, src, wx, wy, a, 0)
  {
    forall ch { RowsSkipped(src.w, src.h, wx, wy, PlaneOf(src, ch), a, src.h); }
  }

  lemma PlaneEnd(t: Totals, src: Image, wx: Weighting, wy: Weighting, b: nat)
    requires src.Sized() && b <= src.h && forall y :: b <= y < src.h ==> wy(y) == 0.0
    requires Tracks(t, src, wx, wy, b, 0)
    ensures t == TotalsUnder(src, wx, wy)
  {
    forall ch ensures t.Get(ch) == TotalsUnder(src, wx, wy).Get(ch) {
      RowsSkipped(src.w, src.h, wx, wy, PlaneOf(src, ch), 0, b);
    }
    SameTotals(t, TotalsUnder(src, wx, wy));
  }

  lemma SameTotals(t: Totals, u: Totals)
    requires forall ch :: t.Get(ch) == u.Get(ch)
    ensures t == u
  {
    assert t.Get(Red) == u.Get(Red) && t.Get(Green) == u.Get(Green) && t.Get(Blue) == u.Get(Blue);
    assert t.Get(Alpha) == u.Get(Alpha) && t.Get(Cover) == u.Get(Cover);
  }

  /** The weights along one axis, as the loops compute them: positive overlaps of the
      window (lo, hi) count, from pixel `a` up to `b`. */
  ghost predicate WindowOf(n: nat, wt: Weighting, lo: real, hi: real, a: int, b: int)
  {
    && 0 <= a <= b + 1 <= n
    && (forall x :: 0 <= x < n ==> wt(x) == if Overlap(lo, hi, x) > 0.0 then Overlap(lo, hi, x) else 0.0)
    && (forall x :: 0 <= x < n && !(a <= x <= b) ==> wt(x) == 0.0)
  }

  /** The body of the inner loop. */
  method AddPixel(src: Image, ghost wx: Weighting, ghost wy: Weighting, sx0: real, sx1: real,
                  y: nat, x: nat, weight: real, before: Totals) returns (t: Totals)
    requires src.Sized() && weight == wy(y) && Tracks(before, src, wx, wy, y, x)
    requires wx(x) == if Overlap(sx0, sx1, x) > 0.0 then Overlap(sx0, sx1, x) else 0.0
    ensures Tracks(t, src, wx, wy, y, x + 1)
  {
    var o := Overlap(sx0, sx1, x);
    if o <= 0.0 {
      PixelSkipped(before, src, wx, wy, y, x);
      return before;
    }
    PixelAdded(before, src, wx, wy, y, x, o, weight);
    return Added(before, Pixel(src, x, y), o * weight);
  }

  /** The inner loop: one source row. */
  method AddRow(src: Image, ghost wx: Weighting, ghost wy: Weighting, sx0: real, sx1: real, ix0: nat, ix1: int,
                y: nat, weight: real, before: Totals) returns (t: Totals)
    requires src.Sized() && WindowOf(src.w, wx, sx0, sx1, ix0, ix1) && weight == wy(y)
    requires Tracks(before, src, wx, wy, y, 0)
    ensures Tracks(t, src, wx, wy, y + 1, 0)
  {
    t := before;
    RowEdges(src, wx, wy, y, ix0, ix1 + 1);
    for x := ix0 to ix1 + 1
      invariant Tracks(t, src, wx, wy, y, x)
    {
      t := AddPixel(src, wx, wy, sx0, sx1, y, x, weight, t);
    }
  }

  /** The outer loop's body. */
  method AddWeightedRow(src: Image, ghost wx: Weighting, ghost wy: Weighting, sx0: real, sx1: real, ix0: nat, ix1: int,
                        sy0: real, sy1: real, y: nat, before: Totals) returns (t: Totals)
    requires src.Sized() && WindowOf(src.w, wx, sx0, sx1, ix0, ix1) && Tracks(before, src, wx, wy, y, 0)
    requires wy(y) == if Overlap(sy0, sy1, y) > 0.0 then Overlap(sy0, sy1, y) else 0.0
    ensures Tracks(t, src, wx, wy, y + 1, 0)
  {
    var o := Overlap(sy0, sy1, y);
    if o <= 0.0 {
      RowSkipped(before, src, wx, wy, y);
      return before;
    }
    t := AddRow(src, wx, wy, sx0, sx1, ix0, ix1, y, o, before);
  }

  /** The outer loop. */
  method AddRows(src: Image, ghost wx: Weighting, ghost wy: Weighting, sx0: real, sx1: real, ix0: nat, ix1: int,
                 sy0: real, sy1: real, iy0: nat, iy1: int) returns (t: Totals)
    requires src.Sized() && WindowOf(src.w, wx, sx0, sx1, ix0, ix1) && WindowOf(src.h, wy, sy0, sy1, iy0, iy1)
    requires Tracks(NOTHING, src, wx, wy, iy0, 0)
    ensures Tracks(t, src, wx, wy, iy1 + 1, 0)
  {
    t := NOTHING;
    for y := iy0 to iy1 + 1
      invariant Tracks(t, src, wx, wy, y, 0)
    {
      t := AddWeightedRow(src, wx, wy, sx0, sx1, ix0, ix1, sy0, sy1, y, t);
    }
  }

  /** All that falls into one window. */
  method Gather(src: Image, ghost wx: Weighting, ghost wy: Weighting, sx0: real, sx1: real, ix0: nat, ix1: int,
                sy0: real, sy1: real, iy0: nat, iy1: int) returns (t: Totals)
    requires src.Sized() && WindowOf(src.w, wx, sx0, sx1, ix0, ix1) && WindowOf(src.h, wy, sy0, sy1, iy0, iy1)
    ensures t == TotalsUnder(src, wx, wy)
  {
    PlaneStart(src, wx, wy, iy0);
    t := AddRows(src, wx, wy, sx0, sx1, ix0, ix1, sy0, sy1, iy0, iy1);
    PlaneEnd(t, src, wx, wy, iy1 + 1);
  }

  lemma AxisWindow(s: nat, d: nat, r: real, k: int)
    requires s > 0 && IsRatio(s, d, r) && 0 <= k < d
    ensures WindowOf(s, Weights(r, k), Start(r, k), Start(r, k) + r, First(r, k), Last(s, r, k))
  {
    RangeSuffices(s, d, r, k, 0);
    forall x | 0 <= x < s { RangeSuffices(s, d, r, k, x); }
  }

  /** The bounds of one window, as the source computes them. */
  method AxisBounds(s: nat, d: nat, r: real, k: nat) returns (lo: real, hi: real, first: int, last: int)
    requires s > 0 && IsRatio(s, d, r) && k < d
    ensures WindowOf(s, Weights(r, k), lo, hi, first, last)
  {
    StartIsProduct(r, k);
    AxisWindow(s, d, r, k);
    lo := k as real * r;
    hi := lo + r;
    first := lo.Floor;
    last := if s - 1 < Ceil(hi) - 1 then s - 1 else Ceil(hi) - 1;
  }

  /** The resampler.  An image without pixels gives a transparent one. */
  method ResampleImage(src: Image, dw: nat, dh: nat) returns (dst: array<Rgba>)
    requires src.Sized()
    ensures fresh(dst) && dst.Length == dw * dh
    ensures !src.Valid() ==> forall c :: 0 <= c < dst.Length ==> dst[c] == Upscale.Rgba(0, 0, 0, 0)
    ensures src.Valid() && dw > 0 && dh > 0 ==>
              Covers(dst[..], src, dw, src.w as real / dw as real, src.h as real / dh as real, dst.Length)
  {
    dst := new Rgba[dw * dh](i => Upscale.Rgba(0, 0, 0, 0));
    if src.w == 0 || src.h == 0 || dw == 0 || dh == 0 { return; }
    var rx, ry := src.w as real / dw as real, src.h as real / dh as real;
    RatioIsQuotient(src.w, dw, rx);
    RatioIsQuotient(src.h, dh, ry);
    FillPixels(src, dst, dw, dh, rx, ry);
  }

  /** The first `n` pixels of the output are right. */
  ghost predicate Covers(dst: seq<Rgba>, src: Image, dw: nat, rx: real, ry: real, n: int)
    requires src.Sized() && dw > 0
  {
    forall c :: 0 <= c < n && c < |dst| ==> dst[c] == Resampled(src, rx, ry, Col(dw, c), GridIndex.Row(dw, c))
  }

  method FillPixels(src: Image, dst: array<Rgba>, dw: nat, dh: nat, rx: real, ry: real)
    requires src.Valid() && IsRatio(src.w, dw, rx) && IsRatio(src.h, dh, ry) && dst.Length == dw * dh
    modifies dst
    ensures Covers(dst[..], src, dw, rx, ry, dst.Length)
  {
    ghost var n := 0;   // pixels written so far
    RowEnds(dw, dh, 0);
    for dy := 0 to dh
      invariant n == Index(dw, 0, dy) && Covers(dst[..], src, dw, rx, ry, n)
    {
      var sy0, sy1, iy0, iy1 := AxisBounds(src.h, dh, ry, dy);
      for dx := 0 to dw
        invariant n == Index(dw, dx, dy) && Covers(dst[..], src, dw, rx, ry, n)
      {
        var sx0, sx1, ix0, ix1 := AxisBounds(src.w, dw, rx, dx);
        var t := Gather(src, Weights(rx, dx), Weights(ry, dy), sx0, sx1, ix0, ix1, sy0, sy1, iy0, iy1);
        IndexOf(dw, dh, dx, dy);
        dst[dy * dw + dx] := Settle(t);
        n := n + 1;
      }
      RowEnds(dw, dh, dy);
    }
  }
}
