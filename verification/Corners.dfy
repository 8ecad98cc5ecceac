/** A route as the simulation hands it out: only the cells where the direction changes, in
    travel order (`buildAStarRoute` in src/sim/pathsearch.cpp). */
module Corners {
  import opened Basics
  import opened GridIndex
  import opened Routes

  type Cell = (int, int)

  function Moved(c: Cell, m: Move, k: int): Cell { (c.0 + k * m.0, c.1 + k * m.1) }

  /** The corners of a route that ends at `c`, from the end back to the start; `later` is the
      move that follows the route, if any. */
  function CornersBack(route: Route, c: Cell, later: Option<Move>): seq<Cell>
  {
    if route == [] then []
    else
      var m := route[|route| - 1];
      (if later == Some(m) then [] else [c]) + CornersBack(route[..|route| - 1], (c.0 - m.0, c.1 - m.1), Some(m))
  }

  /** Where a route from `s` ends. */
  function EndOf(s: Cell, route: Route): Cell
  {
    if route == [] then s
    else
      var c, m := EndOf(s, route[..|route| - 1]), route[|route| - 1];
      (c.0 + m.0, c.1 + m.1)
  }

  // --- The corners lose nothing -------------------------------------------------------------------

  function Sign(v: int): int { if v < 0 then -1 else if v > 0 then 1 else 0 }

  function Span(dx: int, dz: int): nat
  {
    var a, b := if dx < 0 then -dx else dx, if dz < 0 then -dz else dz;
    if a < b then b else a
  }

  function Repeat(m: Move, k: nat): Route { if k == 0 then [] else Repeat(m, k - 1) + [m] }

  lemma {:induction false} RepeatIs(m: Move, k: nat)
    ensures |Repeat(m, k)| == k && forall i :: 0 <= i < k ==> Repeat(m, k)[i] == m
  {
    if k > 0 { RepeatIs(m, k - 1); }
  }

  /** The straight run from one cell to another. */
  function Straight(a: Cell, b: Cell): Route
  {
    if a == b then [] else Repeat((Sign(b.0 - a.0), Sign(b.1 - a.1)), Span(b.0 - a.0, b.1 - a.1))
  }

  /** The route that runs straight from the start through the corners, given end first. */
  function Along(s: Cell, back: seq<Cell>): Route
  {
    if back == [] then [] else Along(s, back[1..]) + Straight(if |back| == 1 then s else back[1], back[0])
  }

  lemma StraightIs(c: Cell, m: Move, k: nat)
    requires k > 0
    ensures Straight(c, Moved(c, m, k)) == Repeat(m, k)
  {
    var d := Moved(c, m, k);
    var dx, dz := d.0 - c.0, d.1 - c.1;
    assert dx == k * m.0 && dz == k * m.1;
    StepSign(m.0, k, dx);
    StepSign(m.1, k, dz);
  }

  lemma StepSign(a: int, k: nat, d: int)
    requires -1 <= a <= 1 && k > 0 && d == k * a
    ensures Sign(d) == a && d == (if a == 0 then 0 else if a == 1 then k else 0 - k)
  {
  }

  /** One more corner. */
  lemma AlongMore(s: Cell, last: Cell, rest: seq<Cell>)
    ensures Along(s, [last] + rest) == Along(s, rest) + Straight(if rest == [] then s else rest[0], last)
  {
    assert ([last] + rest)[1..] == rest;
  }

  /** The corners of a route with one more move. */
  lemma CornersMore(front: Route, m: Move, before: Cell, c: Cell, later: Option<Move>)
    requires before == (c.0 - m.0, c.1 - m.1)
    ensures CornersBack(front + [m], c, later) ==
            (if later == Some(m) then [] else [c]) + CornersBack(front, before, Some(m))
  {
    assert (front + [m])[..|front|] == front;
  }

  lemma EndMore(s: Cell, front: Route, m: Move)
    ensures EndOf(s, front + [m]) == Moved(EndOf(s, front), m, 1)
  {
    assert (front + [m])[..|front|] == front;
  }

  /** A run of `k` equal moves after a route adds one corner, its end. */
  lemma {:induction false} RunAlong(s: Cell, route: Route, c: Cell, m: Move, k: nat)
    requires k > 0 && EndOf(s, route) == c
    ensures Along(s, [Moved(c, m, k)] + CornersBack(route, c, Some(m))) == route + Repeat(m, k)
    decreases |route|, 0
  {
    if route == [] {
      StraightIs(c, m, k);
      AlongMore(s, Moved(c, m, k), []);
    } else {
      var front, m' := route[..|route| - 1], route[|route| - 1];
      var before := EndOf(s, front);
      assert route == front + [m'];
      EndMore(s, front, m');
      CornersMore(front, m', before, c, Some(m));
      if m' == m {
        RunLonger(s, front, before, c, m, k);
      } else {
        RunAfter(s, front, before, m', c, m, k);
      }
    }
  }

  lemma {:induction false} RunLonger(s: Cell, front: Route, before: Cell, c: Cell, m: Move, k: nat)
    requires k > 0 && EndOf(s, front) == before && c == Moved(before, m, 1)
    ensures Along(s, [Moved(c, m, k)] + ([] + CornersBack(front, before, Some(m)))) == front + [m] + Repeat(m, k)
    decreases |front|, 1
  {
    assert Moved(c, m, k) == Moved(before, m, k + 1);
    RunAlong(s, front, before, m, k + 1);
    RepeatFirst(m, k);
    assert [] + CornersBack(front, before, Some(m)) == CornersBack(front, before, Some(m));
  }

  lemma {:induction false} RunAfter(s: Cell, front: Route, before: Cell, m': Move, c: Cell, m: Move, k: nat)
    requires k > 0 && EndOf(s, front) == before && c == Moved(before, m', 1)
    ensures Along(s, [Moved(c, m, k)] + ([c] + CornersBack(front, before, Some(m')))) == front + [m'] + Repeat(m, k)
    decreases |front|, 1
  {
    RunAlong(s, front, before, m', 1);
    StraightIs(c, m, k);
    AlongMore(s, Moved(c, m, k), [c] + CornersBack(front, before, Some(m')));
    assert Repeat(m', 1) == [m'];
  }

  lemma {:induction false} RepeatFirst(m: Move, k: nat)
    ensures Repeat(m, k + 1) == [m] + Repeat(m, k)
  {
    if k > 0 { RepeatFirst(m, k - 1); }
  }

  /** Running straight from corner to corner is the route again. */
  lemma CornersLoseNothing(s: Cell, route: Route)
    ensures Along(s, CornersBack(route, EndOf(s, route), None)) == route
  {
    if route != [] {
      var front, m := route[..|route| - 1], route[|route| - 1];
      assert route == front + [m];
      EndMore(s, front, m);
      CornersMore(front, m, EndOf(s, front), EndOf(s, route), None);
      RunAlong(s, front, EndOf(s, front), m, 1);
      assert Repeat(m, 1) == [m];
    }
  }

  // --- Neighbouring corners differ ------------------------------------------------------------------

  lemma {:induction false} NextDiffers(route: Route, c: Cell, m: Move, k: nat)
    requires k > 0
    ensures var back := CornersBack(route, c, Some(m)); back != [] ==> back[0] != Moved(c, m, k)
    decreases |route|
  {
    if route != [] && route[|route| - 1] == m {
      var before: Cell := (c.0 - m.0, c.1 - m.1);
      assert Moved(before, m, k + 1) == Moved(c, m, k);
      NextDiffers(route[..|route| - 1], before, m, k + 1);
    } else {
      StepSign(m.0, k, k * m.0);
      StepSign(m.1, k, k * m.1);
    }
  }

  /** No two neighbouring corners are the same cell. */
  lemma {:induction false} CornersDiffer(route: Route, c: Cell, later: Option<Move>, i: nat)
    requires i + 1 < |CornersBack(route, c, later)|
    ensures CornersBack(route, c, later)[i] != CornersBack(route, c, later)[i + 1]
    decreases |route|
  {
    var m := route[|route| - 1];
    var before: Cell := (c.0 - m.0, c.1 - m.1);
    var rest := CornersBack(route[..|route| - 1], before, Some(m));
    if later == Some(m) {
      CornersDiffer(route[..|route| - 1], before, Some(m), i);
    } else if i == 0 {
      assert Moved(before, m, 1) == c;
      NextDiffers(route[..|route| - 1], before, m, 1);
    } else {
      CornersDiffer(route[..|route| - 1], before, Some(m), i - 1);
    }
  }

  // --- Cells by coordinates ---------------------------------------------------------------------------

  function At(g: Grid, c: int): Cell
    requires g.w > 0
  {
    (Col(g.w, c), Row(g.w, c))
  }

  /** Where a legal route ends, by coordinates. */
  lemma {:induction false} EndAt(g: Grid, s: int, route: Route)
    requires g.w > 0 && 0 <= s < g.Size() && End(g, s, route) >= 0
    ensures 0 <= End(g, s, route) < g.Size() && EndOf(At(g, s), route) == At(g, End(g, s, route))
  {
    if route != [] {
      EndAt(g, s, route[..|route| - 1]);
      StepOnGrid(g, End(g, s, route[..|route| - 1]), route[|route| - 1]);
    }
  }

  /** The cell before the last move of a legal route. */
  lemma BeforeLast(g: Grid, s: int, route: Route, c: Cell)
    requires g.w > 0 && 0 <= s < g.Size() && route != [] && End(g, s, route) >= 0 && At(g, End(g, s, route)) == c
    ensures var m, front := route[|route| - 1], route[..|route| - 1];
            && 0 <= End(g, s, front) < g.Size() && At(g, End(g, s, front)) == (c.0 - m.0, c.1 - m.1)
            && 0 <= c.0 - m.0 < g.w && 0 <= c.1 - m.1 < g.h
            && End(g, s, front) == Index(g.w, c.0 - m.0, c.1 - m.1)
  {
    var front := route[..|route| - 1];
    EndAt(g, s, front);
    StepOnGrid(g, End(g, s, front), route[|route| - 1]);
    CellOf(g.w, g.h, End(g, s, front));
  }

  // --- How many corners there are -----------------------------------------------------------------------

  /** Where a route that ends at `c` begins. */
  function StartOf(c: Cell, route: Route): Cell
    decreases |route|
  {
    if route == [] then c
    else
      var m := route[|route| - 1];
      StartOf((c.0 - m.0, c.1 - m.1), route[..|route| - 1])
  }

  /** The corners of a route in two parts are those of the second part and those of the first. */
  lemma {:induction false} CornersInParts(a: Route, b: Route, c: Cell, later: Option<Move>)
    requires b != []
    ensures CornersBack(a + b, c, later) == CornersBack(b, c, later) + CornersBack(a, StartOf(c, b), Some(b[0]))
    decreases |b|
  {
    var front, m := b[..|b| - 1], b[|b| - 1];
    var before: Cell := (c.0 - m.0, c.1 - m.1);
    assert b == front + [m] && a + b == (a + front) + [m];
    StartMore(front, m, before, c);
    CornersMore(a + front, m, before, c, later);
    CornersMore(front, m, before, c, later);
    if front == [] {
      assert a + front == a;
    } else {
      CornersInParts(a, front, before, Some(m));
      Grouped(if later == Some(m) then [] else [c], CornersBack(front, before, Some(m)),
              CornersBack(a, StartOf(before, front), Some(front[0])));
    }
  }

  lemma StartMore(front: Route, m: Move, before: Cell, c: Cell)
    requires before == (c.0 - m.0, c.1 - m.1)
    ensures StartOf(c, front + [m]) == StartOf(before, front)
  {
    assert (front + [m])[..|front|] == front;
  }

  lemma Grouped<T>(a: seq<T>, b: seq<T>, c: seq<T>)
    ensures a + (b + c) == (a + b) + c
  {
  }

  /** A straight run has one corner, its end; none when it goes on straight. */
  lemma {:induction false} CornersOfRun(m: Move, k: nat, c: Cell, later: Option<Move>)
    requires k > 0
    ensures CornersBack(Repeat(m, k), c, later) == if later == Some(m) then [] else [c]
  {
    CornersMore(Repeat(m, k - 1), m, (c.0 - m.0, c.1 - m.1), c, later);
    if k > 1 { CornersOfRun(m, k - 1, (c.0 - m.0, c.1 - m.1), Some(m)); }
  }

  /** A route without corners, but for its end, is a straight run. */
  lemma {:induction false} NoCorners(route: Route, c: Cell, m: Move)
    ensures CornersBack(route, c, Some(m)) == [] <==> forall i :: 0 <= i < |route| ==> route[i] == m
    decreases |route|
  {
    if route != [] {
      NoCorners(route[..|route| - 1], (c.0 - m.0, c.1 - m.1), m);
    }
  }

  /** One more straight run adds at most one corner. */
  lemma OneMoreRun(a: Route, from: Cell, to: Cell, c: Cell, later: Option<Move>)
    returns (c': Cell, later': Option<Move>)
    ensures |CornersBack(a + Straight(from, to), c, later)| <= 1 + |CornersBack(a, c', later')|
  {
    var b := Straight(from, to);
    if b == [] {
      assert a + b == a;
      c', later' := c, later;
    } else {
      CornersInParts(a, b, c, later);
      CornersOfRun((Sign(to.0 - from.0), Sign(to.1 - from.1)), Span(to.0 - from.0, to.1 - from.1), c, later);
      c', later' := StartOf(c, b), Some(b[0]);
    }
  }

  /** Running straight through some cells makes no more corners than there are cells. */
  lemma {:induction false} FewCorners(s: Cell, back: seq<Cell>, c: Cell, later: Option<Move>)
    ensures |CornersBack(Along(s, back), c, later)| <= |back|
    decreases |back|
  {
    if back != [] {
      var c', later' := OneMoreRun(Along(s, back[1..]), if |back| == 1 then s else back[1], back[0], c, later);
      FewCorners(s, back[1..], c', later');
    }
  }

  // --- What is handed out -------------------------------------------------------------------------------

  const LONGEST_WALK := 8192
  const MOST_CORNERS := 256

  function Reversed<T>(q: seq<T>): (r: seq<T>)
    ensures |r| == |q| && forall i :: 0 <= i < |q| ==> r[i] == q[|q| - 1 - i]
  {
    if q == [] then [] else Reversed(q[1..]) + [q[0]]
  }

  lemma ReversedTwice<T>(q: seq<T>)
    ensures Reversed(Reversed(q)) == q
  {
  }

  /** How much of a route lies before the part that is walked back from the goal. */
  function Skipped(route: Route): (n: nat)
    ensures n <= |route|
  {
    if |route| > LONGEST_WALK then |route| - LONGEST_WALK else 0
  }

  /** The part of a route that is walked back from the goal: its last 8192 moves. */
  function Walked(route: Route): Route { route[Skipped(route)..] }

  /** All corners of a route, goal first; where one already is, that is the only one. */
  function AllCorners(route: Route, goal: Cell): (back: seq<Cell>)
    ensures back != [] && back[0] == goal
  {
    if route == [] then [goal] else CornersBack(route, goal, None)
  }

  /** The corners of the part that is walked, in travel order, up to 256 of them. */
  function HandedOut(route: Route, goal: Cell): seq<Cell>
  {
    var all := Reversed(AllCorners(Walked(route), goal));
    if |all| > MOST_CORNERS then all[..MOST_CORNERS] else all
  }

  /** Nothing is skipped, or what is skipped and the move after it are one straight run. */
  predicate SkipsNoCorner(route: Route)
  {
    |route| <= 8192 || forall i :: 0 <= i <= |route| - 8192 ==> route[i] == route[0]
  }

  /** What is skipped has no corner exactly then. */
  lemma SkippedPart(route: Route, goal: Cell)
    ensures |AllCorners(Walked(route), goal)| <= |AllCorners(route, goal)|
    ensures SkipsNoCorner(route) <==> |AllCorners(Walked(route), goal)| == |AllCorners(route, goal)|
    ensures SkipsNoCorner(route) ==> AllCorners(Walked(route), goal) == AllCorners(route, goal)
  {
    if |route| <= LONGEST_WALK {
      assert Walked(route) == route;
    } else {
      var a, b := route[..Skipped(route)], Walked(route);
      assert route == a + b;
      CornersInParts(a, b, goal, None);
      NoCorners(a, StartOf(goal, b), b[0]);
      assert b[0] == route[|a|];
      assert SkipsNoCorner(route) <==> forall i :: 0 <= i < |a| ==> a[i] == b[0];
    }
  }

  /** Running straight through the cells handed out is the route, if and only if no corner is
      skipped and there are at most 256. */
  lemma HandedOutIsRoute(s: Cell, route: Route)
    ensures Along(s, Reversed(HandedOut(route, EndOf(s, route)))) == route
            <==> SkipsNoCorner(route) && |AllCorners(route, EndOf(s, route))| <= 256
  {
    var goal := EndOf(s, route);
    SkippedPart(route, goal);
    if SkipsNoCorner(route) && |AllCorners(route, goal)| <= MOST_CORNERS {
      ReversedTwice(AllCorners(route, goal));
      CornersLoseNothing(s, route);
    }
    var back := Reversed(HandedOut(route, goal));
    FewCorners(s, back, goal, None);
    assert |back| <= MOST_CORNERS && |back| <= |AllCorners(Walked(route), goal)|;
  }

  lemma {:induction false} EndsInParts(s: Cell, a: Route, b: Route)
    ensures EndOf(s, a + b) == EndOf(EndOf(s, a), b)
    decreases |b|
  {
    if b == [] {
      assert a + b == a;
    } else {
      EndsInParts(s, a, b[..|b| - 1]);
      assert (a + b)[..|a + b| - 1] == a + b[..|b| - 1];
    }
  }

  /** Leaving out corners at the goal leaves out the last straight runs. */
  lemma {:induction false} AlongLess(s: Cell, back: seq<Cell>, i: nat)
    requires i <= |back|
    ensures Along(s, back[i..]) <= Along(s, back)
    decreases i
  {
    if i > 0 {
      AlongLess(s, back[1..], i - 1);
      assert back[1..][i - 1..] == back[i..];
    } else {
      assert back[0..] == back;
    }
  }

  /** In any case the cells handed out lead along the part that is walked, to its end if there
      are at most 256 corners. */
  lemma HandedOutLeadsAlong(s: Cell, route: Route)
    ensures var b := EndOf(s, route[..Skipped(route)]);
            var run := Along(b, Reversed(HandedOut(route, EndOf(s, route))));
            && run <= Walked(route)
            && (run == Walked(route) <==> |AllCorners(Walked(route), EndOf(s, route))| <= 256)
  {
    var a, walk := route[..Skipped(route)], Walked(route);
    var b, goal := EndOf(s, a), EndOf(s, route);
    assert route == a + walk;
    EndsInParts(s, a, walk);
    CornersLoseNothing(b, walk);
    FirstCorners(b, walk, AllCorners(walk, goal), goal);
  }

  /** With corners left out at the goal, exactly the first ones are run through. */
  lemma FirstCorners(b: Cell, walk: Route, all: seq<Cell>, goal: Cell)
    requires Along(b, all) == walk && all == AllCorners(walk, goal)
    ensures var few := Reversed(all);
            var run := Along(b, Reversed(if |all| > MOST_CORNERS then few[..MOST_CORNERS] else few));
            run <= walk && (run == walk <==> |all| <= MOST_CORNERS)
  {
    var i := if |all| > MOST_CORNERS then |all| - MOST_CORNERS else 0;
    var few := if |all| > MOST_CORNERS then Reversed(all)[..MOST_CORNERS] else Reversed(all);
    assert Reversed(few) == all[i..];
    AlongLess(b, all, i);
    FewCorners(b, all[i..], goal, None);
  }

  /** A corner is a cell of the route; all but the first lie before its end. */
  lemma {:induction false} CornerIsCell(s: Cell, route: Route, c: Cell, later: Option<Move>, i: nat) returns (k: nat)
    requires EndOf(s, route) == c && i < |CornersBack(route, c, later)|
    ensures k <= |route| && CornersBack(route, c, later)[i] == EndOf(s, route[..k]) && (i > 0 ==> k < |route|)
    decreases |route|
  {
    var front, m := route[..|route| - 1], route[|route| - 1];
    var before := EndOf(s, front);
    if later != Some(m) && i == 0 {
      k := |route|;
      assert route[..k] == route;
    } else {
      k := CornerIsCell(s, front, before, Some(m), if later == Some(m) then i else i - 1);
      assert front[..k] == route[..k];
    }
  }

  /** The last cell handed out is a cell of the route: its end, unless there are too many corners. */
  lemma LastHandedOut(s: Cell, route: Route) returns (k: nat)
    ensures var goal := EndOf(s, route);
            var out, most := HandedOut(route, goal), |AllCorners(Walked(route), goal)| <= MOST_CORNERS;
            && out != [] && k <= |route| && out[|out| - 1] == EndOf(s, route[..k])
            && (if most then k == |route| else k < |route|)
  {
    var a, walk, goal := route[..Skipped(route)], Walked(route), EndOf(s, route);
    var all := AllCorners(walk, goal);
    assert route == a + walk && route[..|route|] == route;
    if |all| <= MOST_CORNERS {
      k := |route|;
    } else {
      EndsInParts(s, a, walk);
      var i := CornerIsCell(EndOf(s, a), walk, goal, None, |all| - MOST_CORNERS);
      EndsInParts(s, a, walk[..i]);
      assert route[..|a| + i] == a + walk[..i];
      k := |a| + i;
    }
  }

  /** Neighbouring corners differ, so none is dropped as a repetition. */
  lemma NoRepetition(route: Route, goal: Cell)
    ensures forall i :: 0 < i < |AllCorners(route, goal)| ==>
            AllCorners(route, goal)[i] != AllCorners(route, goal)[i - 1]
  {
    forall i | 0 < i < |AllCorners(route, goal)| ensures AllCorners(route, goal)[i] != AllCorners(route, goal)[i - 1] {
      CornersDiffer(route, goal, None, i - 1);
    }
  }
}
