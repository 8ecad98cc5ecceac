/** What the 2x scaler does to a corner, to a line and to faint pixels, in numbers
    (src/client/artscale.h). */
module UpscaleLaws {
  import opened Basics
  import GridIndex
  import opened Upscale

  // --- The same colour ------------------------------------------------------------------------------

  /** How far one channel alone may be off: red 59 steps, green 39, blue 119, alpha 24. */
  lemma OneChannelApart(p: Rgba, q: Rgba)
    ensures p.a == q.a >= 8 && p.g == q.g && p.b == q.b ==> (Similar(p, q) <==> -60 < p.r - q.r < 60)
    ensures p.a == q.a >= 8 && p.r == q.r && p.b == q.b ==> (Similar(p, q) <==> -40 < p.g - q.g < 40)
    ensures p.a == q.a >= 8 && p.r == q.r && p.g == q.g ==> (Similar(p, q) <==> -120 < p.b - q.b < 120)
    ensures p.r == q.r && p.g == q.g && p.b == q.b ==> (Similar(p, q) <==> -25 < p.a - q.a < 25)
    ensures p.a < 8 && q.a < 8 ==> Similar(p, q)
  {
  }

  /** Samples on the image are its pixels, row by row; one step beside it the edge is repeated. */
  lemma EdgesRepeat(src: Image, x: int, y: int)
    requires src.Valid() && 0 <= x < src.w && 0 <= y < src.h
    ensures 0 <= y * src.w + x < |src.pixels| && src.At(x, y) == src.pixels[y * src.w + x]
    ensures src.At(-1, y) == src.At(0, y) && src.At(src.w, y) == src.At(src.w - 1, y)
    ensures src.At(x, -1) == src.At(x, 0) && src.At(x, src.h) == src.At(x, src.h - 1)
  {
    GridIndex.IndexOf(src.w, src.h, x, y);
  }

  // --- Corners and lines ------------------------------------------------------------------------------

  /** The pixel in the given quarter of source pixel (x, y). */
  function Out(src: Image, x: int, y: int, right: int, low: int): Rgba
    requires src.Valid()
  {
    Doubled(src, 2 * x + right, 2 * y + low)
  }

  lemma OutIs(src: Image, x: int, y: int, right: int, low: int)
    requires src.Valid() && 0 <= right <= 1 && 0 <= low <= 1
    ensures Out(src, x, y, right, low) == Quarter(src.Around(x, y), right == 1, low == 1)
  {
    Halves(x, right);
    Halves(y, low);
  }

  /** Where the neighbours above and below, or left and right, are of one colour, the pixel is
      copied: straight lines stay straight. */
  lemma LinesStay(src: Image, x: int, y: int, right: int, low: int)
    requires src.Valid() && 0 <= right <= 1 && 0 <= low <= 1
    requires Similar(src.At(x, y - 1), src.At(x, y + 1)) || Similar(src.At(x - 1, y), src.At(x + 1, y))
    ensures Out(src, x, y, right, low) == src.At(x, y)
  {
    OutIs(src, x, y, right, low);
  }

  /** A solid corner of colour `p` that cuts into colour `q`: the quarter in that corner becomes the
      mean of both, and the other three keep `q`. */
  lemma CornerRounded(src: Image, x: int, y: int, right: int, low: int, p: Rgba, q: Rgba)
    requires src.Valid() && 0 <= right <= 1 && 0 <= low <= 1 && p.a == 255 && q.a == 255 && !Similar(p, q)
    requires var beside, across := 2 * right - 1, 2 * low - 1;
             && src.At(x + beside, y) == p && src.At(x, y + across) == p
             && src.At(x, y) == q && src.At(x - beside, y) == q && src.At(x, y - across) == q
    ensures Out(src, x, y, right, low) == Rgba((p.r + q.r) / 2, (p.g + q.g) / 2, (p.b + q.b) / 2, 255)
    ensures Out(src, x, y, 1 - right, low) == q && Out(src, x, y, right, 1 - low) == q
    ensures Out(src, x, y, 1 - right, 1 - low) == q
  {
    CornerOfCross(src.Around(x, y), right == 1, low == 1, p, q);
    OutIs(src, x, y, right, low);
    OutIs(src, x, y, 1 - right, low);
    OutIs(src, x, y, right, 1 - low);
    OutIs(src, x, y, 1 - right, 1 - low);
  }

  /** The same for a pixel with its neighbours. */
  lemma CornerOfCross(c: Cross, right: bool, low: bool, p: Rgba, q: Rgba)
    requires p.a == 255 && q.a == 255 && !Similar(p, q) && c.e == q
    requires if right then c.f == p && c.d == q else c.d == p && c.f == q
    requires if low then c.h == p && c.b == q else c.b == p && c.h == q
    ensures Quarter(c, right, low) == Rgba((p.r + q.r) / 2, (p.g + q.g) / 2, (p.b + q.b) / 2, 255)
    ensures Quarter(c, !right, low) == q && Quarter(c, right, !low) == q && Quarter(c, !right, !low) == q
  {
    SimilarSymmetric(p, q);
    SolidBlend(q, p);
    assert Similar(p, p) && Similar(q, q);
  }

  lemma SolidBlend(e: Rgba, p: Rgba)
    requires e.a == 255 && p.a == 255
    ensures Blend3(e, p, p) == Rgba((p.r + e.r) / 2, (p.g + e.g) / 2, (p.b + e.b) / 2, 255)
  {
    SolidChannel(e.r, p.r);
    SolidChannel(e.g, p.g);
    SolidChannel(e.b, p.b);
  }

  lemma SolidChannel(e: byte, p: byte)
    ensures Channel(e, 255, p, 255, p, 255, 255) == (p + e) / 2
  {
    assert e * 255 * 2 + p * 255 + p * 255 == 510 * (e + p);
    HalfOf(e + p);
  }

  lemma HalfOf(n: nat)
    ensures (510 * n) / 1020 == n / 2
  {
    var q := n / 2;
    assert n == 2 * q || n == 2 * q + 1;
  }

  // --- Faint pixels ---------------------------------------------------------------------------------------

  /** The channels of the visible inputs lie between two bounds. */
  predicate Bounded(lo: byte, hi: byte, e: byte, ae: byte, p: byte, ap: byte, q: byte, aq: byte)
  {
    (ae > 0 ==> lo <= e <= hi) && (ap > 0 ==> lo <= p <= hi) && (aq > 0 ==> lo <= q <= hi)
  }

  /** One channel of the blend of inputs with these alphas. */
  function Blended(e: byte, ae: byte, p: byte, ap: byte, q: byte, aq: byte): byte
    requires (ae * 2 + ap + aq) / 4 > 0
  {
    Channel(e, ae, p, ap, q, aq, (ae * 2 + ap + aq) / 4)
  }

  /** Whatever their colours, the blend of inputs with these alphas stays between the visible ones. */
  ghost predicate StaysBetween(ae: byte, ap: byte, aq: byte)
    requires (ae * 2 + ap + aq) / 4 > 0
  {
    forall e: byte, p: byte, q: byte, lo: byte, hi: byte :: Bounded(lo, hi, e, ae, p, ap, q, aq) ==>
      lo <= Blended(e, ae, p, ap, q, aq) <= hi
  }

  lemma Scaled(n: nat, a: int, b: int)
    requires a <= b
    ensures n * a <= n * b
  {
  }

  lemma Weighed(lo: byte, hi: byte, v: byte, a: byte)
    requires a > 0 ==> lo <= v <= hi
    ensures lo * a <= v * a <= hi * a
  {
    if a > 0 {
      Scaled(a, lo, v);
      Scaled(a, v, hi);
    }
  }

  lemma FourWeights(k: nat, ae: nat, ap: nat, aq: nat)
    ensures k * (ae * 2 + ap + aq) == k * ae * 2 + k * ap + k * aq
  {
  }

  /** The weighted sum of a channel lies between the bounds times the weights. */
  lemma SumWithin(lo: byte, hi: byte, e: byte, ae: byte, p: byte, ap: byte, q: byte, aq: byte) returns (n: nat, s: nat)
    requires Bounded(lo, hi, e, ae, p, ap, q, aq)
    ensures s == ae * 2 + ap + aq && lo * s <= n <= hi * s
    ensures s / 4 > 0 ==>
              var v := Quotient(n, 4 * (s / 4)); Blended(e, ae, p, ap, q, aq) == if v < 255 then v else 255
  {
    assert e * ae >= 0 && p * ap >= 0 && q * aq >= 0;
    n, s := e * ae * 2 + p * ap + q * aq, ae * 2 + ap + aq;
    Weighed(lo, hi, e, ae);
    Weighed(lo, hi, p, ap);
    Weighed(lo, hi, q, aq);
    FourWeights(lo, ae, ap, aq);
    FourWeights(hi, ae, ap, aq);
  }

  lemma AtLeastQuotient(n: nat, d: nat, q: nat)
    requires d > 0 && q * d <= n
    ensures q <= Quotient(n, d)
  {
    var k := n / d;
    assert n == k * d + n % d;
    if k < q { Scaled(d, k + 1, q); }
  }

  lemma AtMostQuotient(n: nat, d: nat, q: nat)
    requires d > 0 && n < (q + 1) * d
    ensures Quotient(n, d) <= q
  {
    var k := n / d;
    assert n == k * d + n % d;
    if k > q { Scaled(d, q + 1, k); }
  }

  lemma QuotientAbove(lo: nat, n: nat, s: nat)
    requires s / 4 > 0 && lo * s <= n
    ensures lo <= Quotient(n, 4 * (s / 4))
  {
    Scaled(lo, 4 * (s / 4), s);
    AtLeastQuotient(n, 4 * (s / 4), lo);
  }

  lemma QuotientBelow(hi: nat, n: nat, s: nat)
    requires s / 4 > 0 && n <= hi * s && hi <= 254 && 254 * (s % 4) < 4 * (s / 4)
    ensures Quotient(n, 4 * (s / 4)) <= hi
  {
    var d, r := 4 * (s / 4), s % 4;
    assert hi * s == hi * d + hi * r;
    Scaled(r, hi, 254);
    assert (hi + 1) * d == hi * d + d;
    AtMostQuotient(n, d, hi);
  }

  /** A blend is never darker than its visible inputs. */
  lemma NeverDarker(e: byte, ae: byte, p: byte, ap: byte, q: byte, aq: byte, lo: byte, hi: byte)
    requires (ae * 2 + ap + aq) / 4 > 0 && Bounded(lo, hi, e, ae, p, ap, q, aq)
    ensures lo <= Blended(e, ae, p, ap, q, aq)
  {
    var n, s := SumWithin(lo, hi, e, ae, p, ap, q, aq);
    QuotientAbove(lo, n, s);
  }

  /** Nor brighter, when the alphas average without a remainder, or one that is small enough. */
  lemma NotBrighter(e: byte, ae: byte, p: byte, ap: byte, q: byte, aq: byte, lo: byte, hi: byte)
    requires (ae * 2 + ap + aq) / 4 > 0 && Bounded(lo, hi, e, ae, p, ap, q, aq)
    requires var s := ae * 2 + ap + aq; 254 * (s % 4) < 4 * (s / 4)
    ensures Blended(e, ae, p, ap, q, aq) <= hi
  {
    var n, s := SumWithin(lo, hi, e, ae, p, ap, q, aq);
    if hi < 255 { QuotientBelow(hi, n, s); }
  }

  /** Otherwise a light grey of 254 comes out as white. */
  lemma GreyBrightens(ae: byte, ap: byte, aq: byte)
    requires var s := ae * 2 + ap + aq; s / 4 > 0 && 254 * (s % 4) >= 4 * (s / 4)
    ensures Blended(254, ae, 254, ap, 254, aq) == 255
  {
    var s := ae * 2 + ap + aq;
    var a := s / 4;
    assert 254 * ae * 2 + 254 * ap + 254 * aq == 254 * s == 254 * (4 * a) + 254 * (s % 4);
    AtLeastQuotient(254 * s, 4 * a, 255);
  }

  /** So a blend stays between its visible inputs, whatever their colours, exactly when the remainder
      of the alphas is small enough against their average: always from an average of 191 on, and
      below that when they divide evenly. */
  lemma BlendBetweenExactly(ae: byte, ap: byte, aq: byte)
    requires (ae * 2 + ap + aq) / 4 > 0
    ensures var s := ae * 2 + ap + aq; StaysBetween(ae, ap, aq) <==> 254 * (s % 4) < 4 * (s / 4)
  {
    var s := ae * 2 + ap + aq;
    if 254 * (s % 4) < 4 * (s / 4) {
      forall e: byte, p: byte, q: byte, lo: byte, hi: byte | Bounded(lo, hi, e, ae, p, ap, q, aq)
        ensures lo <= Blended(e, ae, p, ap, q, aq) <= hi
      {
        NeverDarker(e, ae, p, ap, q, aq, lo, hi);
        NotBrighter(e, ae, p, ap, q, aq, lo, hi);
      }
    } else {
      GreyBrightens(ae, ap, aq);
      assert Bounded(254, 254, 254, ae, 254, ap, 254, aq);
    }
  }

  const FAINT := Rgba(200, 200, 200, 9)
  const NOTHING := Rgba(0, 0, 0, 0)

  /** An image whose visible pixels all have grey 200 and whose scaled image has a pixel of grey 225. */
  lemma FaintEdgeBrightens() returns (src: Image)
    ensures src.Valid() && forall i :: 0 <= i < |src.pixels| ==> src.pixels[i] == FAINT || src.pixels[i] == NOTHING
    ensures Out(src, 1, 1, 0, 0) == Rgba(225, 225, 225, 4)
  {
    src := Image(3, 3, [NOTHING, NOTHING, FAINT, NOTHING, FAINT, FAINT, FAINT, FAINT, FAINT]);
    OutIs(src, 1, 1, 0, 0);
    var c := src.Around(1, 1);
    assert c == Cross(FAINT, NOTHING, NOTHING, FAINT, FAINT);
    assert Channel(200, 9, 0, 0, 0, 0, 4) == 225;
  }
}
