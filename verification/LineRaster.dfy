/** The all-octant integer line of the model viewer (tools/modeltool.cpp).

    `Point` is an independent closed form: step `n` along the longer axis, and round
    the ideal line half up along the shorter one.  `DrawLine` is the source's loop;
    it terminates and paints exactly those points. */
module LineRaster {
  import opened Arithmetic
  import opened Basics

  function Abs(n: int): nat { if n < 0 then -n else n }

  function Sign(from: int, to: int): int { if from < to then 1 else -1 }

  /** Rise after `n` steps of an ideal line of slope b/a, rounded half up. */
  function Rounded(a: nat, b: nat, n: nat): int
    requires a > 0
  {
    (2 * b * n + a) / (2 * a)
  }

  function Steps(x0: int, y0: int, x1: int, y1: int): nat
  {
    if Abs(x1 - x0) >= Abs(y1 - y0) then Abs(x1 - x0) else Abs(y1 - y0)
  }

  /** How far along x and along y the line is after `n` steps. */
  function Offset(a: nat, b: nat, n: nat): (int, int)
  {
    if a == 0 && b == 0 then (0, 0)
    else if a >= b then (n, Rounded(a, b, n))
    else (Rounded(b, a, n), n)
  }

  function Point(x0: int, y0: int, x1: int, y1: int, n: nat): (int, int)
  {
    var o := Offset(Abs(x1 - x0), Abs(y1 - y0), n);
    (x0 + Sign(x0, x1) * o.0, y0 + Sign(y0, y1) * o.1)
  }

  // --- Geometry of the points --------------------------------------------------------

  /** `j` is the rounded rise exactly when it is within half a unit of the ideal one. */
  lemma RoundedIff(a: nat, b: nat, n: nat, j: int)
    requires a > 0
    ensures j == Rounded(a, b, n) <==> 0 < 2 * (a * j - b * n) + a <= 2 * a
  {
    var num, den := 2 * b * n + a, 2 * a;
    assert j * den == 2 * (a * j);
    if 0 < 2 * (a * j - b * n) + a <= 2 * a {
      assert num == j * den + (num - j * den);
      Divided(j, den, num - j * den);
    }
    var r := Rounded(a, b, n);
    assert num == r * den + num % den;
    assert r * den == 2 * (a * r);
  }

  /** Every point is within half a pixel of the ideal line, measured on the shorter axis. */
  lemma HalfPixel(a: nat, b: nat, n: nat)
    ensures var (i, j) := Offset(a, b, n); 2 * Abs(a * j - b * i) <= (if a >= b then a else b)
  {
    if a >= b && a > 0 {
      RoundedIff(a, b, n, Rounded(a, b, n));
    } else if b > a {
      RoundedIff(b, a, n, Rounded(b, a, n));
    }
  }

  /** The last step lands on the target, and no earlier one does. */
  lemma EndsAtTarget(x0: int, y0: int, x1: int, y1: int, n: nat)
    requires n <= Steps(x0, y0, x1, y1)
    ensures Point(x0, y0, x1, y1, n) == (x1, y1) <==> n == Steps(x0, y0, x1, y1)
  {
    var a, b := Abs(x1 - x0), Abs(y1 - y0);
    if a >= b && a > 0 {
      if n == a { RoundedIff(a, b, n, b); }
    } else if b > a {
      if n == b { RoundedIff(b, a, n, a); }
    }
  }

  /** Neither axis overshoots: the point stays in the box spanned by the two ends, and
      moves to one of the eight neighbours each time. */
  lemma StaysInBox(a: nat, b: nat, n: nat)
    requires n < (if a >= b then a else b)
    ensures var (i, j) := Offset(a, b, n); 0 <= i <= a && 0 <= j <= b
    ensures var (i, j), (i', j') := Offset(a, b, n), Offset(a, b, n + 1);
            0 <= i' - i <= 1 && 0 <= j' - j <= 1 && (i', j') != (i, j)
  {
    if a >= b { RiseByOne(a, b, n); } else { RiseByOne(b, a, n); }
  }

  /** One step along the longer axis: when the shorter one follows. */
  lemma MajorStep(a: nat, b: nat, n: nat, j: int)
    requires b <= a && n < a && j == Rounded(a, b, n)
    ensures var d := a * j - b * n;
            && 2 * (d + a) >= b
            && Rounded(a, b, n + 1) == (if 2 * (d + a - b) <= a then j + 1 else j)
  {
    RoundedIff(a, b, n, j);
    var d := a * j - b * n;
    assert b * (n + 1) == b * n + b;
    assert a * (j + 1) == a * j + a;
    if 2 * (d + a - b) <= a {
      RoundedIff(a, b, n + 1, j + 1);
    } else {
      RoundedIff(a, b, n + 1, j);
    }
  }

  lemma RiseByOne(a: nat, b: nat, n: nat)
    requires b <= a && n < a
    ensures 0 <= Rounded(a, b, n) <= b
    ensures 0 <= Rounded(a, b, n + 1) - Rounded(a, b, n) <= 1
  {
    var j := Rounded(a, b, n);
    MajorStep(a, b, n, j);
    RoundedIff(a, b, n, j);
    InRange(a, b, n, j);
  }

  lemma InRange(a: nat, b: nat, n: nat, j: int)
    requires n < a && 0 < 2 * (a * j - b * n) + a <= 2 * a
    ensures 0 <= j <= b
  {
    Scale(b, n, a);
    Scale(b, 0, n);
    if j > b { Scale(a, b + 1, j); }
    if j < 0 { Scale(a, j, -1); }
  }

  // --- The image ---------------------------------------------------------------------

  const INK: seq<byte> := [120, 220, 160, 255]

  predicate OnImage(w: int, h: int, p: (int, int)) { 0 <= p.0 < w && 0 <= p.1 < h }

  lemma PixelFits(w: int, h: int, x: int, y: int)
    requires 0 <= x < w && 0 <= y < h
    ensures 0 <= (y * w + x) * 4 && (y * w + x) * 4 + 4 <= w * h * 4
  {
    assert y * w <= (h - 1) * w;
  }

  predicate ImageOf(size: int, w: int, h: int) { w <= 0 || h <= 0 || w * h * 4 <= size }

  function PaintPoint(img: seq<byte>, w: int, h: int, p: (int, int)): (r: seq<byte>)
    requires ImageOf(|img|, w, h)
    ensures |r| == |img|
  {
    if OnImage(w, h, p) then
      PixelFits(w, h, p.0, p.1);
      var i := (p.1 * w + p.0) * 4;
      img[..i] + INK + img[i + 4..]
    else img
  }

  function PaintPoints(img: seq<byte>, w: int, h: int, points: seq<(int, int)>): (r: seq<byte>)
    requires ImageOf(|img|, w, h)
    ensures |r| == |img|
  {
    if points == [] then img
    else PaintPoint(PaintPoints(img, w, h, points[..|points| - 1]), w, h, points[|points| - 1])
  }

  predicate Hits(w: int, h: int, p: (int, int), i: nat) { OnImage(w, h, p) && p.1 * w + p.0 == i / 4 }

  /** A byte carries ink exactly when some point falls on its pixel; all others keep
      their value. */
  lemma {:induction false} PaintedByte(img: seq<byte>, w: int, h: int, points: seq<(int, int)>, i: nat)
    requires ImageOf(|img|, w, h) && i < |img|
    ensures PaintPoints(img, w, h, points)[i] ==
            if exists k :: 0 <= k < |points| && Hits(w, h, points[k], i) then [120, 220, 160, 255][i % 4] else img[i]
  {
    if points != [] {
      var front, p := points[..|points| - 1], points[|points| - 1];
      PaintedByte(img, w, h, front, i);
      if OnImage(w, h, p) {
        PixelFits(w, h, p.0, p.1);
      }
      assert points == front + [p];
      if Hits(w, h, p, i) {
        assert Hits(w, h, points[|points| - 1], i);
      } else if exists k :: 0 <= k < |front| && Hits(w, h, front[k], i) {
        var k :| 0 <= k < |front| && Hits(w, h, front[k], i);
        assert Hits(w, h, points[k], i);
      }
    }
  }

  /** Byte `k` of pixel (x, y) is ink when the pixel is one of the points, and as before otherwise. */
  lemma PixelInked(img: seq<byte>, w: int, h: int, points: seq<(int, int)>, x: int, y: int, k: nat)
    requires ImageOf(|img|, w, h) && 0 <= x < w && 0 <= y < h && k < 4
    ensures var i := (y * w + x) * 4 + k;
            && 0 <= i < |img|
            && PaintPoints(img, w, h, points)[i] == if (x, y) in points then [120, 220, 160, 255][k] else img[i]
  {
    PixelFits(w, h, x, y);
    var i := (y * w + x) * 4 + k;
    PaintedByte(img, w, h, points, i);
    forall j | 0 <= j < |points| ensures Hits(w, h, points[j], i) <==> points[j] == (x, y) {
      if OnImage(w, h, points[j]) { OnePixel(w, points[j].0, points[j].1, x, y); }
    }
    if (x, y) in points {
      var j :| 0 <= j < |points| && points[j] == (x, y);
      assert Hits(w, h, points[j], i);
    }
  }

  /** Pixels of one image with the same number are the same. */
  lemma OnePixel(w: int, x: int, y: int, x': int, y': int)
    requires 0 <= x < w && 0 <= x' < w
    ensures y * w + x == y' * w + x' ==> x == x' && y == y'
  {
    if y * w + x == y' * w + x' {
      Divided(y, w, x);
      Divided(y', w, x');
    }
  }

  /** The points of the whole line, both ends included. */
  function LinePoints(x0: int, y0: int, x1: int, y1: int): seq<(int, int)>
  {
    seq(Steps(x0, y0, x1, y1) + 1, n requires n >= 0 => Point(x0, y0, x1, y1, n))
  }

  /** The value the loop's `err` has when the line has advanced by (i, j). */
  function Err(a: nat, b: nat, i: int, j: int): int { a - b + a * j - b * i }

  ghost function ErrorTerm(x0: int, y0: int, x1: int, y1: int, n: nat): int
  {
    var a, b := Abs(x1 - x0), Abs(y1 - y0);
    var o := Offset(a, b, n);
    Err(a, b, o.0, o.1)
  }

  lemma ErrMoves(a: nat, b: nat, i: int, j: int)
    ensures Err(a, b, i + 1, j) == Err(a, b, i, j) - b
    ensures Err(a, b, i, j + 1) == Err(a, b, i, j) + a
    ensures Err(a, b, i + 1, j + 1) == Err(a, b, i, j) - b + a
  {
  }

  /** The two tests on the error term advance each axis exactly as the closed form does. */
  lemma OffsetStep(a: nat, b: nat, n: nat)
    requires n < (if a >= b then a else b)
    ensures var o := Offset(a, b, n);
            var e2 := 2 * Err(a, b, o.0, o.1);
            Offset(a, b, n + 1) == (if e2 + b >= 0 then o.0 + 1 else o.0, if e2 <= a then o.1 + 1 else o.1)
  {
    var o := Offset(a, b, n);
    if a >= b { MajorStep(a, b, n, o.1); } else { MajorStep(b, a, n, o.0); }
  }

  /** One round of the loop: `2 * err >= dy` moves x, `2 * err <= dx` moves y. */
  predicate Round(p: (int, int), err: int, p': (int, int), err': int, dx: int, dy: int, sx: int, sy: int)
  {
    && p' == (if 2 * err >= dy then p.0 + sx else p.0, if 2 * err <= dx then p.1 + sy else p.1)
    && err' == err + (if 2 * err >= dy then dy else 0) + (if 2 * err <= dx then dx else 0)
  }

  lemma StepRule(x0: int, y0: int, x1: int, y1: int, n: nat)
    requires n < Steps(x0, y0, x1, y1)
    ensures Round(Point(x0, y0, x1, y1, n), ErrorTerm(x0, y0, x1, y1, n),
                  Point(x0, y0, x1, y1, n + 1), ErrorTerm(x0, y0, x1, y1, n + 1),
                  Abs(x1 - x0), 0 - Abs(y1 - y0), Sign(x0, x1), Sign(y0, y1))
  {
    var a, b := Abs(x1 - x0), Abs(y1 - y0);
    var o := Offset(a, b, n);
    OffsetStep(a, b, n);
    ErrMoves(a, b, o.0, o.1);
  }

  method Plot(img: array<byte>, w: int, h: int, x: int, y: int)
    requires ImageOf(img.Length, w, h)
    modifies img
    ensures img[..] == PaintPoint(old(img[..]), w, h, (x, y))
  {
    if 0 <= x < w && 0 <= y < h {
      PixelFits(w, h, x, y);
      var i := (y * w + x) * 4;
      img[i], img[i + 1], img[i + 2], img[i + 3] := 120, 220, 160, 255;
    }
  }

  /** The closed form as a run of the loop: one position and one error value a round. */
  ghost predicate IsRun(points: seq<(int, int)>, errs: seq<int>, dx: int, dy: int, sx: int, sy: int, to: (int, int))
  {
    && |points| == |errs| > 0 && errs[0] == dx + dy
    && (forall n :: 0 <= n < |points| ==> (points[n] == to <==> n == |points| - 1))
    && (forall n :: 0 <= n < |points| - 1 ==>
          Round(points[n], errs[n], points[n + 1], errs[n + 1], dx, dy, sx, sy))
  }

  lemma AtOrigin(x0: int, y0: int, x1: int, y1: int)
    ensures Point(x0, y0, x1, y1, 0) == (x0, y0)
    ensures ErrorTerm(x0, y0, x1, y1, 0) == Abs(x1 - x0) - Abs(y1 - y0)
  {
    var a, b := Abs(x1 - x0), Abs(y1 - y0);
    if a >= b && a > 0 { RoundedIff(a, b, 0, 0); } else if b > a { RoundedIff(b, a, 0, 0); }
  }

  lemma ClosedFormRuns(x0: int, y0: int, x1: int, y1: int) returns (errs: seq<int>)
    ensures IsRun(LinePoints(x0, y0, x1, y1), errs, Abs(x1 - x0), 0 - Abs(y1 - y0),
                  Sign(x0, x1), Sign(y0, y1), (x1, y1))
    ensures LinePoints(x0, y0, x1, y1)[0] == (x0, y0)
  {
    var last := Steps(x0, y0, x1, y1);
    errs := seq(last + 1, n requires n >= 0 => ErrorTerm(x0, y0, x1, y1, n));
    var points := LinePoints(x0, y0, x1, y1);
    forall n | 0 <= n <= last ensures points[n] == (x1, y1) <==> n == last {
      EndsAtTarget(x0, y0, x1, y1, n);
    }
    forall n | 0 <= n < last
      ensures Round(points[n], errs[n], points[n + 1], errs[n + 1],
                    Abs(x1 - x0), 0 - Abs(y1 - y0), Sign(x0, x1), Sign(y0, y1))
    {
      StepRule(x0, y0, x1, y1, n);
    }
    AtOrigin(x0, y0, x1, y1);
  }

  /** The loop of the source, along any run. */
  method Walk(img: array<byte>, w: int, h: int, fromX: int, fromY: int, x1: int, y1: int,
              ghost points: seq<(int, int)>, ghost errs: seq<int>)
    requires ImageOf(img.Length, w, h)
    requires IsRun(points, errs, Abs(x1 - fromX), 0 - Abs(y1 - fromY), Sign(fromX, x1), Sign(fromY, y1), (x1, y1))
    requires points[0] == (fromX, fromY)
    modifies img
    ensures img[..] == PaintPoints(old(img[..]), w, h, points)
  {
    var x0, y0 := fromX, fromY;
    var dx: int, dy: int := Abs(x1 - x0), 0 - Abs(y1 - y0);
    var sx, sy := Sign(x0, x1), Sign(y0, y1);
    var err := dx + dy;
    ghost var n := 0;
    while true
      invariant 0 <= n < |points| && (x0, y0) == points[n] && err == errs[n]
      invariant img[..] == PaintPoints(old(img[..]), w, h, points[..n])
      decreases |points| - n
    {
      assert points[..n + 1][..n] == points[..n];
      Plot(img, w, h, x0, y0);
      if x0 == x1 && y0 == y1 {
        assert points[..n + 1] == points;
        break;
      }
      assert Round(points[n], errs[n], points[n + 1], errs[n + 1], dx, dy, sx, sy);
      var e2 := 2 * err;
      if e2 >= dy { err := err + dy; x0 := x0 + sx; }
      if e2 <= dx { err := err + dx; y0 := y0 + sy; }
      n := n + 1;
    }
  }

  /** For every pair of ends the line terminates and paints exactly its points. */
  method DrawLine(img: array<byte>, w: int, h: int, x0: int, y0: int, x1: int, y1: int)
    requires ImageOf(img.Length, w, h)
    modifies img
    ensures img[..] == PaintPoints(old(img[..]), w, h, LinePoints(x0, y0, x1, y1))
  {
    ghost var errs := ClosedFormRuns(x0, y0, x1, y1);
    Walk(img, w, h, x0, y0, x1, y1, LinePoints(x0, y0, x1, y1), errs);
  }
}
