/** The edge-directed 2x scaler for static art (src/client/artscale.h).
    The four bytes of a pixel are one `Rgba` value here. */
module Upscale {
  import opened Basics
  import opened GridIndex

  datatype Rgba = Rgba(r: byte, g: byte, b: byte, a: byte)

  function Dist(m: int, n: int): nat { if m < n then n - m else m - n }

  /** Close enough to count as the same colour. */
  predicate Similar(p: Rgba, q: Rgba)
  {
    if Dist(p.a, q.a) > 24 then false
    else if p.a < 8 && q.a < 8 then true
    else Dist(p.r, q.r) * 2 + Dist(p.g, q.g) * 3 + Dist(p.b, q.b) < 120
  }

  /** One colour channel of the 2:1:1 blend in premultiplied space. */
  function Channel(e: byte, ae: byte, p: byte, ap: byte, q: byte, aq: byte, a: int): byte
    requires a > 0
  {
    assert e * ae >= 0 && p * ap >= 0 && q * aq >= 0;
    var v := Quotient(e * ae * 2 + p * ap + q * aq, 4 * a);
    if v < 255 then v else 255
  }

  function Quotient(n: nat, d: int): nat
    requires d > 0
  {
    n / d
  }

  function Blend3(e: Rgba, p: Rgba, q: Rgba): Rgba
  {
    var a := (e.a * 2 + p.a + q.a) / 4;
    if a == 0 then Rgba(0, 0, 0, 0)
    else Rgba(Channel(e.r, e.a, p.r, p.a, q.r, q.a, a), Channel(e.g, e.a, p.g, p.a, q.g, q.a, a),
              Channel(e.b, e.a, p.b, p.a, q.b, q.a, a), a)
  }

  /** A pixel with its four neighbours. */
  datatype Cross = Cross(e: Rgba, b: Rgba, d: Rgba, f: Rgba, h: Rgba)

  /** Off a run, and the two neighbours of the corner agree with each other but not with
      the centre as seen through `n`. */
  predicate Cut(c: Cross, n: Rgba, m: Rgba, seen: Rgba)
  {
    !Similar(c.b, c.h) && !Similar(c.d, c.f) && Similar(n, m) && !Similar(c.e, seen)
  }

  /** The 2 x 2 output pixels of one source pixel; `right` and `low` select one. */
  function Quarter(c: Cross, right: bool, low: bool): Rgba
  {
    if !right && !low then (if Cut(c, c.d, c.b, c.d) then Blend3(c.e, c.d, c.b) else c.e)
    else if right && !low then (if Cut(c, c.b, c.f, c.b) then Blend3(c.e, c.b, c.f) else c.e)
    else if !right && low then (if Cut(c, c.d, c.h, c.d) then Blend3(c.e, c.d, c.h) else c.e)
    else (if Cut(c, c.h, c.f, c.h) then Blend3(c.e, c.h, c.f) else c.e)
  }

  // --- Images ------------------------------------------------------------------------

  datatype Image = Image(w: nat, h: nat, pixels: seq<Rgba>)
  {
    predicate Sized() { |pixels| == w * h }

    predicate Valid() { w > 0 && h > 0 && Sized() }

    /** The clamped sample: edges repeat. */
    function At(x: int, y: int): Rgba
      requires Valid()
    {
      var cx := if x < 0 then 0 else if x >= w then w - 1 else x;
      var cy := if y < 0 then 0 else if y >= h then h - 1 else y;
      IndexOf(w, h, cx, cy);
      pixels[Index(w, cx, cy)]
    }

    function Around(x: int, y: int): Cross
      requires Valid()
    {
      Cross(At(x, y), At(x, y - 1), At(x - 1, y), At(x + 1, y), At(x, y + 1))
    }
  }

  /** The neighbourhood of every source pixel. */
  type Sampler = (int, int) -> Cross

  function SamplerOf(src: Image): Sampler
    requires src.Valid()
  {
    (x, y) => src.Around(x, y)
  }

  /** The output pixel at (x, y) of a doubled plane. */
  function DoubledFrom(s: Sampler, x: int, y: int): Rgba { Quarter(s(x / 2, y / 2), x % 2 == 1, y % 2 == 1) }

  /** The output pixel at (x, y) of the doubled image. */
  function Doubled(src: Image, x: int, y: int): Rgba
    requires src.Valid()
  {
    DoubledFrom(SamplerOf(src), x, y)
  }

  // --- Symmetry --------------------------------------------------------------------------

  ghost predicate FlippedVertically(src: Image, dst: Image)
    requires src.Valid() && dst.Valid()
  {
    src.w == dst.w && src.h == dst.h && forall x, y :: 0 <= x < src.w && 0 <= y < src.h ==>
        dst.At(x, y) == src.At(x, src.h - 1 - y)
  }

  function Upside(c: Cross): Cross { Cross(c.e, c.h, c.d, c.f, c.b) }

  lemma SimilarSymmetric(p: Rgba, q: Rgba)
    ensures Similar(p, q) <==> Similar(q, p)
  {
  }

  lemma BlendSymmetric(e: Rgba, p: Rgba, q: Rgba)
    ensures Blend3(e, p, q) == Blend3(e, q, p)
  {
  }

  lemma QuarterUpside(c: Cross, right: bool, low: bool)
    ensures Quarter(Upside(c), right, !low) == Quarter(c, right, low)
  {
    SimilarSymmetric(c.b, c.h);
    SimilarSymmetric(c.b, c.f);
    SimilarSymmetric(c.h, c.f);
    BlendSymmetric(c.e, c.b, c.f);
    BlendSymmetric(c.e, c.h, c.f);
  }

  lemma AroundUpside(src: Image, dst: Image, x: int, y: int)
    requires src.Valid() && dst.Valid() && FlippedVertically(src, dst)
    requires 0 <= x < src.w && 0 <= y < src.h
    ensures dst.Around(x, src.h - 1 - y) == Upside(src.Around(x, y))
  {
    forall i, j ensures dst.At(i, src.h - 1 - j) == src.At(i, j) {
      var ci := if i < 0 then 0 else if i >= src.w then src.w - 1 else i;
      var cj := if j < 0 then 0 else if j >= src.h then src.h - 1 else j;
      assert dst.At(ci, src.h - 1 - cj) == src.At(ci, src.h - 1 - (src.h - 1 - cj));
    }
    assert dst.At(x, src.h - 1 - (y + 1)) == src.At(x, y + 1);
    assert dst.At(x, src.h - 1 - (y - 1)) == src.At(x, y - 1);
    assert dst.At(x - 1, src.h - 1 - y) == src.At(x - 1, y);
    assert dst.At(x + 1, src.h - 1 - y) == src.At(x + 1, y);
  }

  /** Scaling commutes with turning the image upside down. */
  lemma ScaleUpside(src: Image, dst: Image, x: int, y: int)
    requires src.Valid() && dst.Valid() && FlippedVertically(src, dst)
    requires 0 <= x < 2 * src.w && 0 <= y < 2 * src.h
    ensures Doubled(dst, x, 2 * src.h - 1 - y) == Doubled(src, x, y)
  {
    var y' := 2 * src.h - 1 - y;
    assert y' / 2 == src.h - 1 - y / 2 && (y' % 2 == 1 <==> y % 2 != 1);
    AroundUpside(src, dst, x / 2, y / 2);
    QuarterUpside(src.Around(x / 2, y / 2), x % 2 == 1, y % 2 == 1);
  }

  function Mirrored(c: Cross): Cross { Cross(c.e, c.b, c.f, c.d, c.h) }

  /** Left-right mirroring is another matter: each pair of corners tests the centre against
      a different neighbour on the two sides.  The left corner agrees with its mirror image
      when no corner is found, or the centre looks alike from both neighbours, or the blend
      changes nothing. */
  predicate Mirrors(c: Cross, low: bool)
  {
    var n := if low then c.h else c.b;
    || Similar(c.b, c.h) || Similar(c.d, c.f) || !Similar(n, c.d)
    || (Similar(c.e, c.d) <==> Similar(c.e, n)) || Blend3(c.e, c.d, n) == c.e
  }

  lemma CornerMirrors(c: Cross, low: bool)
    ensures Quarter(Mirrored(c), true, low) == Quarter(c, false, low) <==> Mirrors(c, low)
  {
    SimilarSymmetric(c.d, c.f);
    SimilarSymmetric(c.b, c.d);
    SimilarSymmetric(c.h, c.d);
    BlendSymmetric(c.e, c.d, c.b);
    BlendSymmetric(c.e, c.d, c.h);
  }

  ghost predicate FlippedSideways(src: Image, dst: Image)
    requires src.Valid() && dst.Valid()
  {
    src.w == dst.w && src.h == dst.h && forall x, y :: 0 <= x < src.w && 0 <= y < src.h ==>
        dst.At(x, y) == src.At(src.w - 1 - x, y)
  }

  lemma AroundMirrored(src: Image, dst: Image, x: int, y: int)
    requires src.Valid() && dst.Valid() && FlippedSideways(src, dst)
    requires 0 <= x < src.w && 0 <= y < src.h
    ensures dst.Around(src.w - 1 - x, y) == Mirrored(src.Around(x, y))
  {
    forall i, j ensures dst.At(src.w - 1 - i, j) == src.At(i, j) {
      var ci := if i < 0 then 0 else if i >= src.w then src.w - 1 else i;
      var cj := if j < 0 then 0 else if j >= src.h then src.h - 1 else j;
      assert dst.At(src.w - 1 - ci, cj) == src.At(src.w - 1 - (src.w - 1 - ci), cj);
    }
    assert dst.At(src.w - 1 - (x + 1), y) == src.At(x + 1, y);
    assert dst.At(src.w - 1 - (x - 1), y) == src.At(x - 1, y);
    assert dst.At(src.w - 1 - x, y - 1) == src.At(x, y - 1);
    assert dst.At(src.w - 1 - x, y + 1) == src.At(x, y + 1);
  }

  /** Scaling commutes with mirroring at an output pixel exactly when the corner it belongs to
      mirrors: the left one as it is, the right one seen in the mirror. */
  lemma MirrorExactly(src: Image, dst: Image, x: int, y: int)
    requires src.Valid() && dst.Valid() && FlippedSideways(src, dst)
    requires 0 <= x < 2 * src.w && 0 <= y < 2 * src.h
    ensures Doubled(dst, 2 * src.w - 1 - x, y) == Doubled(src, x, y) <==>
            Mirrors(if x % 2 == 0 then src.Around(x / 2, y / 2) else Mirrored(src.Around(x / 2, y / 2)), y % 2 == 1)
  {
    var x' := 2 * src.w - 1 - x;
    assert x' / 2 == src.w - 1 - x / 2 && (x' % 2 == 1 <==> x % 2 == 0);
    AroundMirrored(src, dst, x / 2, y / 2);
    var c := src.Around(x / 2, y / 2);
    if x % 2 == 0 {
      CornerMirrors(c, y % 2 == 1);
    } else {
      assert Mirrored(Mirrored(c)) == c;
      CornerMirrors(Mirrored(c), y % 2 == 1);
    }
  }

  /** A 3 x 3 image with the given neighbourhood in its middle. */
  function CrossImage(c: Cross): (src: Image)
    ensures src.Valid()
  {
    Image(3, 3, [c.e, c.b, c.e, c.d, c.e, c.f, c.e, c.h, c.e])
  }

  lemma MiddleOf(c: Cross)
    ensures CrossImage(c).Around(1, 1) == c
  {
  }

  /** An image whose mirror image is scaled differently. */
  lemma MirrorCounterexample() returns (src: Image, dst: Image)
    ensures src.Valid() && dst.Valid() && FlippedSideways(src, dst)
    ensures Doubled(dst, 3, 2) != Doubled(src, 2, 2)
  {
    var c := Cross(Rgba(50, 0, 0, 255), Rgba(100, 0, 0, 255), Rgba(120, 0, 0, 255), Rgba(0, 0, 0, 255),
                   Rgba(0, 0, 0, 255));
    src, dst := CrossImage(c), CrossImage(Mirrored(c));
    FlippedCross(c);
    MiddleOf(c);
    assert !Similar(c.e, c.d) && Similar(c.e, c.b);
    assert !Mirrors(c, false);
    MirrorExactly(src, dst, 2, 2);
  }

  lemma FlippedCross(c: Cross)
    ensures FlippedSideways(CrossImage(c), CrossImage(Mirrored(c)))
  {
  }

  // --- Hidden colour -----------------------------------------------------------------------

  /** The same pixel as far as it can be seen. */
  predicate Same(p: Rgba, q: Rgba) { p.a == q.a && (p.a > 0 ==> p == q) }

  /** Alphas between 8 and 24 are close to 0 for the comparison, but not yet ignored. */
  predicate Clear(p: Rgba) { p.a < 8 || p.a > 24 }

  lemma SimilarIgnoresHidden(p: Rgba, q: Rgba, p': Rgba, q': Rgba)
    requires Same(p, p') && Same(q, q') && Clear(p) && Clear(q)
    ensures Similar(p, q) <==> Similar(p', q')
  {
  }

  lemma ChannelIgnoresHidden(e: byte, p: byte, q: byte, e': byte, p': byte, q': byte, ae: byte, ap: byte, aq: byte,
                             a: int)
    requires a > 0 && (ae > 0 ==> e == e') && (ap > 0 ==> p == p') && (aq > 0 ==> q == q')
    ensures Channel(e, ae, p, ap, q, aq, a) == Channel(e', ae, p', ap, q', aq, a)
  {
    assert e * ae * 2 == e' * ae * 2;
    assert p * ap == p' * ap;
    assert q * aq == q' * aq;
  }

  lemma BlendIgnoresHidden(e: Rgba, p: Rgba, q: Rgba, e': Rgba, p': Rgba, q': Rgba)
    requires Same(e, e') && Same(p, p') && Same(q, q')
    ensures Blend3(e, p, q) == Blend3(e', p', q')
  {
    var a := (e.a * 2 + p.a + q.a) / 4;
    if a > 0 {
      ChannelIgnoresHidden(e.r, p.r, q.r, e'.r, p'.r, q'.r, e.a, p.a, q.a, a);
      ChannelIgnoresHidden(e.g, p.g, q.g, e'.g, p'.g, q'.g, e.a, p.a, q.a, a);
      ChannelIgnoresHidden(e.b, p.b, q.b, e'.b, p'.b, q'.b, e.a, p.a, q.a, a);
    }
  }

  predicate SameCross(c: Cross, c': Cross)
  {
    Same(c.e, c'.e) && Same(c.b, c'.b) && Same(c.d, c'.d) && Same(c.f, c'.f) && Same(c.h, c'.h)
  }

  predicate ClearCross(c: Cross) { Clear(c.e) && Clear(c.b) && Clear(c.d) && Clear(c.f) && Clear(c.h) }

  lemma CutIgnoresHidden(c: Cross, c': Cross)
    requires SameCross(c, c') && ClearCross(c)
    ensures Cut(c, c.d, c.b, c.d) <==> Cut(c', c'.d, c'.b, c'.d)
    ensures Cut(c, c.b, c.f, c.b) <==> Cut(c', c'.b, c'.f, c'.b)
    ensures Cut(c, c.d, c.h, c.d) <==> Cut(c', c'.d, c'.h, c'.d)
    ensures Cut(c, c.h, c.f, c.h) <==> Cut(c', c'.h, c'.f, c'.h)
  {
    SimilarIgnoresHidden(c.b, c.h, c'.b, c'.h);
    SimilarIgnoresHidden(c.d, c.f, c'.d, c'.f);
    SimilarIgnoresHidden(c.d, c.b, c'.d, c'.b);
    SimilarIgnoresHidden(c.b, c.f, c'.b, c'.f);
    SimilarIgnoresHidden(c.d, c.h, c'.d, c'.h);
    SimilarIgnoresHidden(c.h, c.f, c'.h, c'.f);
    SimilarIgnoresHidden(c.e, c.d, c'.e, c'.d);
    SimilarIgnoresHidden(c.e, c.b, c'.e, c'.b);
    SimilarIgnoresHidden(c.e, c.h, c'.e, c'.h);
  }

  lemma QuarterIgnoresHidden(c: Cross, c': Cross, right: bool, low: bool)
    requires SameCross(c, c') && ClearCross(c)
    ensures Same(Quarter(c, right, low), Quarter(c', right, low))
  {
    CutIgnoresHidden(c, c');
    BlendIgnoresHidden(c.e, c.d, c.b, c'.e, c'.d, c'.b);
    BlendIgnoresHidden(c.e, c.b, c.f, c'.e, c'.b, c'.f);
    BlendIgnoresHidden(c.e, c.d, c.h, c'.e, c'.d, c'.h);
    BlendIgnoresHidden(c.e, c.h, c.f, c'.e, c'.h, c'.f);
  }

  /** On art without alphas in 8..24, what the scaled image shows does not depend on the
      colour stored under fully transparent pixels. */
  lemma ScaleIgnoresHidden(src: Image, src': Image, x: int, y: int)
    requires src.Valid() && src'.Valid() && src.w == src'.w && src.h == src'.h
    requires forall i :: 0 <= i < |src.pixels| ==> Same(src.pixels[i], src'.pixels[i]) && Clear(src.pixels[i])
    requires 0 <= x < 2 * src.w && 0 <= y < 2 * src.h
    ensures Same(Doubled(src, x, y), Doubled(src', x, y))
  {
    forall i, j ensures Same(src.At(i, j), src'.At(i, j)) && Clear(src.At(i, j)) {
      var ci := if i < 0 then 0 else if i >= src.w then src.w - 1 else i;
      var cj := if j < 0 then 0 else if j >= src.h then src.h - 1 else j;
      IndexOf(src.w, src.h, ci, cj);
    }
    QuarterIgnoresHidden(src.Around(x / 2, y / 2), src'.Around(x / 2, y / 2), x % 2 == 1, y % 2 == 1);
  }

  /** Every alpha in 8..24 lets the hidden colour leak into what is shown: two images that
      look the same, of which only one pixel has that alpha and no other alpha lies in the
      range, and that are scaled differently. */
  lemma HiddenLeaks(faint: byte) returns (src: Image, src': Image)
    requires 8 <= faint <= 24
    ensures src.Valid() && src'.Valid() && src.w == src'.w == 3 && src.h == src'.h == 3
    ensures forall i :: 0 <= i < |src.pixels| ==> Same(src.pixels[i], src'.pixels[i])
    ensures forall i :: 0 <= i < |src.pixels| && i != 1 ==> Clear(src.pixels[i])
    ensures src.pixels[1].a == faint
    ensures !Same(Doubled(src, 2, 2), Doubled(src', 2, 2))
  {
    var solid := Rgba(0, 0, 0, 255);
    var c := Cross(solid, Rgba(255, 255, 255, faint), Rgba(255, 255, 255, 0), solid, solid);
    var c' := c.(d := Rgba(0, 0, 0, 0));
    src, src' := CrossImage(c), CrossImage(c');
    MiddleOf(c);
    MiddleOf(c');
    assert Similar(c.d, c.b) && !Similar(c'.d, c'.b);
    assert Quarter(c, false, false).a == (510 + faint) / 4;
  }

  /** The comparison with a pixel is blind to the colour of transparent ones exactly when
      its alpha is clear of that range. */
  lemma BlindExactly(q: Rgba)
    ensures (forall p: Rgba, p': Rgba :: p.a == 0 && p'.a == 0 ==> (Similar(p, q) <==> Similar(p', q))) <==> Clear(q)
  {
    if !Clear(q) {
      var near := Rgba(q.r, q.g, q.b, 0);
      var far := Rgba(if q.r < 128 then 255 else 0, if q.g < 128 then 255 else 0, if q.b < 128 then 255 else 0, 0);
      assert Similar(near, q) && !Similar(far, q);
    }
  }

  // --- The loops -------------------------------------------------------------------------------

  /** Output cell `c` was written before source pixel (x, y) is handled. */
  predicate Written(w: nat, c: int, x: int, y: int)
    requires w > 0
  {
    Row(2 * w, c) < 2 * y || (Row(2 * w, c) < 2 * y + 2 && Col(2 * w, c) < 2 * x)
  }

  ghost predicate ScaledTo(s: Sampler, w: nat, h: nat, dst: seq<Rgba>, x: int, y: int)
    requires w > 0
  {
    |dst| == (2 * w) * (2 * h) &&
    forall c :: 0 <= c < |dst| && Written(w, c, x, y) ==> dst[c] == DoubledFrom(s, Col(2 * w, c), Row(2 * w, c))
  }

  lemma NextRow(n: nat, x: int, y: int)
    ensures Index(n, x, y + 1) == Index(n, x, y) + n
  {
  }

  lemma Halves(x: int, r: int)
    requires 0 <= r <= 1
    ensures (2 * x + r) / 2 == x && (2 * x + r) % 2 == r
  {
  }

  lemma OneCell(s: Sampler, w: nat, h: nat, x: int, y: int, r: int, l: int)
    requires 0 <= x < w && 0 <= y < h && 0 <= r <= 1 && 0 <= l <= 1
    ensures var c := Index(2 * w, 2 * x + r, 2 * y + l);
            DoubledFrom(s, Col(2 * w, c), Row(2 * w, c)) == Quarter(s(x, y), r == 1, l == 1)
  {
    IndexOf(2 * w, 2 * h, 2 * x + r, 2 * y + l);
    Halves(x, r);
    Halves(y, l);
  }

  /** The four output cells of source pixel (x, y). */
  lemma BlockCells(s: Sampler, w: nat, h: nat, x: int, y: int)
    requires 0 <= x < w && 0 <= y < h
    ensures var n, c := 2 * w, s(x, y);
            var p := Index(n, 2 * x, 2 * y);
            && DoubledFrom(s, Col(n, p), Row(n, p)) == Quarter(c, false, false)
            && DoubledFrom(s, Col(n, p + 1), Row(n, p + 1)) == Quarter(c, true, false)
            && DoubledFrom(s, Col(n, p + n), Row(n, p + n)) == Quarter(c, false, true)
            && DoubledFrom(s, Col(n, p + n + 1), Row(n, p + n + 1)) == Quarter(c, true, true)
  {
    NextRow(2 * w, 2 * x, 2 * y);
    NextRow(2 * w, 2 * x + 1, 2 * y);
    OneCell(s, w, h, x, y, 0, 0);
    OneCell(s, w, h, x, y, 1, 0);
    OneCell(s, w, h, x, y, 0, 1);
    OneCell(s, w, h, x, y, 1, 1);
  }

  lemma NotInBlock(n: nat, h: nat, x: int, y: int, c: int)
    requires 0 <= c < n * h && n > 0
    requires var p := Index(n, x, y); c != p && c != p + 1 && c != p + n && c != p + n + 1
    ensures !(x <= Col(n, c) < x + 2 && y <= Row(n, c) < y + 2)
  {
    CellOf(n, h, c);
    NextRow(n, x, y);
  }

  lemma BlockInside(w: nat, h: nat, x: int, y: int)
    requires 0 <= x < w && 0 <= y < h
    ensures var n, p := 2 * w, Index(2 * w, 2 * x, 2 * y);
            0 <= p && p + n + 1 < n * (2 * h) && (2 * y + 1) * n + 2 * x == p + n
  {
    IndexOf(2 * w, 2 * h, 2 * x, 2 * y);
    IndexOf(2 * w, 2 * h, 2 * x + 1, 2 * y + 1);
    NextRow(2 * w, 2 * x, 2 * y);
  }

  /** The four cells written for one source pixel take the loop one pixel further. */
  lemma BlockWritten(s: Sampler, w: nat, h: nat, dst: seq<Rgba>, dst': seq<Rgba>, x: int, y: int)
    requires 0 <= x < w && 0 <= y < h && ScaledTo(s, w, h, dst, x, y) && |dst'| == |dst|
    requires var p, n, c := Index(2 * w, 2 * x, 2 * y), 2 * w, s(x, y);
             && 0 <= p && p + n + 1 < |dst|
             && dst' == dst[p := Quarter(c, false, false)][p + 1 := Quarter(c, true, false)]
                           [p + n := Quarter(c, false, true)][p + n + 1 := Quarter(c, true, true)]
    ensures ScaledTo(s, w, h, dst', x + 1, y)
  {
    var n := 2 * w;
    var p := Index(n, 2 * x, 2 * y);
    BlockCells(s, w, h, x, y);
    forall c | 0 <= c < |dst'| && Written(w, c, x + 1, y)
      ensures dst'[c] == DoubledFrom(s, Col(n, c), Row(n, c))
    {
      if c != p && c != p + 1 && c != p + n && c != p + n + 1 {
        NotInBlock(n, 2 * h, 2 * x, 2 * y, c);
        assert Written(w, c, x, y);
      }
    }
  }

  /** The four output pixels of one source pixel. */
  method Corners(c: Cross) returns (o0: Rgba, o1: Rgba, o2: Rgba, o3: Rgba)
    ensures o0 == Quarter(c, false, false) && o1 == Quarter(c, true, false)
    ensures o2 == Quarter(c, false, true) && o3 == Quarter(c, true, true)
  {
    o0, o1, o2, o3 := c.e, c.e, c.e, c.e;
    if !Similar(c.b, c.h) && !Similar(c.d, c.f) {
      if Similar(c.d, c.b) && !Similar(c.e, c.d) { o0 := Blend3(c.e, c.d, c.b); }
      if Similar(c.b, c.f) && !Similar(c.e, c.b) { o1 := Blend3(c.e, c.b, c.f); }
      if Similar(c.d, c.h) && !Similar(c.e, c.d) { o2 := Blend3(c.e, c.d, c.h); }
      if Similar(c.h, c.f) && !Similar(c.e, c.h) { o3 := Blend3(c.e, c.h, c.f); }
    }
  }

  method WriteBlock(cross: Cross, ghost s: Sampler, w: nat, h: nat, dst: array<Rgba>, x: int, y: int)
    requires 0 <= x < w && 0 <= y < h && cross == s(x, y) && ScaledTo(s, w, h, dst[..], x, y)
    modifies dst
    ensures ScaledTo(s, w, h, dst[..], x + 1, y)
  {
    var o0, o1, o2, o3 := Corners(cross);
    BlockInside(w, h, x, y);
    var dw := 2 * w;
    var row0 := 2 * y * dw + 2 * x;
    var row1 := (2 * y + 1) * dw + 2 * x;
    dst[row0] := o0;
    dst[row0 + 1] := o1;
    dst[row1] := o2;
    dst[row1 + 1] := o3;
    BlockWritten(s, w, h, old(dst[..]), dst[..], x, y);
  }

  lemma LoopEdges(s: Sampler, w: nat, h: nat, dst: seq<Rgba>, y: int)
    requires w > 0 && |dst| == (2 * w) * (2 * h)
    ensures ScaledTo(s, w, h, dst, 0, 0)
    ensures ScaledTo(s, w, h, dst, w, y) ==> ScaledTo(s, w, h, dst, 0, y + 1)
    ensures ScaledTo(s, w, h, dst, 0, h) ==>
              forall c :: 0 <= c < |dst| ==> dst[c] == DoubledFrom(s, Col(2 * w, c), Row(2 * w, c))
  {
    forall c | 0 <= c < |dst|
      ensures !Written(w, c, 0, 0) && Written(w, c, 0, h) && (Written(w, c, 0, y + 1) ==> Written(w, c, w, y))
    {
      CellOf(2 * w, 2 * h, c);
    }
  }

  /** The scaler: the doubled image, pixel for pixel. */
  method Upscale2x(src: Image) returns (dst: array<Rgba>)
    requires src.Sized()
    ensures fresh(dst) && dst.Length == (2 * src.w) * (2 * src.h)
    ensures src.w > 0 && src.h > 0 ==>
              forall c :: 0 <= c < dst.Length ==> dst[c] == Doubled(src, Col(2 * src.w, c), Row(2 * src.w, c))
  {
    dst := new Rgba[(2 * src.w) * (2 * src.h)](i => Rgba(0, 0, 0, 0));
    if src.w == 0 || src.h == 0 { return; }   // the loops have nothing to do
    ghost var s := SamplerOf(src);
    LoopEdges(s, src.w, src.h, dst[..], 0);
    for y := 0 to src.h
      invariant ScaledTo(s, src.w, src.h, dst[..], 0, y)
    {
      for x := 0 to src.w
        invariant ScaledTo(s, src.w, src.h, dst[..], x, y)
      {
        WriteBlock(src.Around(x, y), s, src.w, src.h, dst, x, y);
      }
      LoopEdges(s, src.w, src.h, dst[..], y);
    }
    LoopEdges(s, src.w, src.h, dst[..], 0);
  }
}
