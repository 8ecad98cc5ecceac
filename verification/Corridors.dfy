/** Two mazes on which a search arrives and what it hands out does not lead to the goal: one
    has too many corners, the other a corner too far from the goal (`buildAStarRoute` in
    src/sim/pathsearch.cpp). */
module Corridors {
  import opened Basics
  import opened GridIndex
  import opened Routes
  import opened AStar
  import opened Corners
  import opened PathSearch

  /** A corridor of single cells: one cannot move diagonally in it, and nobody is in the way. */
  ghost predicate Narrow(g: Grid)
  {
    && g.w > 0 && (forall x, z :: g.toll(x, z) == 0)
    && forall x, z, m: Move :: g.fits(x, z) && CanStep(g, x, z, m) ==> !Diagonal(m)
  }

  /** How far a cell is from the corner of the map, in moves along the axes. */
  function Far(g: Grid, c: int): int
    requires g.w > 0
  {
    Col(g.w, c) + Row(g.w, c)
  }

  /** In a corridor no route leads farther than it has moves, and all of them cost the same. */
  lemma {:induction false} NarrowRoute(g: Grid, s: int, route: Route)
    requires Narrow(g) && 0 <= s < g.Size() && g.fits(Col(g.w, s), Row(g.w, s)) && End(g, s, route) >= 0
    ensures var c := End(g, s, route); g.fits(Col(g.w, c), Row(g.w, c)) && Far(g, c) <= Far(g, s) + |route|
    ensures Cost(g, s, route) == 10 * |route|
  {
    if route != [] {
      var front, m := route[..|route| - 1], route[|route| - 1];
      NarrowRoute(g, s, front);
      StepOnGrid(g, End(g, s, front), m);
    }
  }

  // --- A staircase ------------------------------------------------------------------------------------

  function Stairs(n: nat): Grid { Graded(n + 1, n + 1, (x, z) => if x == z || x == z + 1 then 6 else 0) }

  /** From one corner of the map to the opposite one. */
  function UpTheStairs(n: nat): Problem { Problem(Stairs(n), 0, Index(n + 1, n, n)) }

  /** In a staircase every move turns. */
  lemma StairMove(n: nat, x: int, z: int, m: Move)
    requires Stairs(n).fits(x, z) && CanStep(Stairs(n), x, z, m)
    ensures m == if x == z then (if m.0 == 1 then (1, 0) else (0, -1)) else (if m.1 == 1 then (0, 1) else (-1, 0))
  {
    assert Stairs(n).fits(x + m.0, z + m.1);
  }

  lemma StairsNarrow(n: nat)
    ensures Narrow(Stairs(n))
  {
    forall x, z, m: Move | Stairs(n).fits(x, z) && CanStep(Stairs(n), x, z, m) ensures !Diagonal(m) {
      StairMove(n, x, z, m);
    }
  }

  lemma TwoStairs(n: nat, front: Route, m: Move, m': Move)
    requires End(Stairs(n), 0, front) >= 0 && StepTo(Stairs(n), End(Stairs(n), 0, front), m) >= 0
    requires StepTo(Stairs(n), StepTo(Stairs(n), End(Stairs(n), 0, front), m), m') >= 0
    ensures m != m'
  {
    var g, b := Stairs(n), End(Stairs(n), 0, front);
    StairsNarrow(n);
    NarrowRoute(g, 0, front);
    StepOnGrid(g, b, m);
    StepOnGrid(g, StepTo(g, b, m), m');
    StairMove(n, Col(g.w, b), Row(g.w, b), m);
    StairMove(n, Col(g.w, b) + m.0, Row(g.w, b) + m.1, m');
  }

  /** So every move makes a corner. */
  lemma {:induction false} StairCorners(n: nat, route: Route, c: Cell, later: Option<Move>)
    requires End(Stairs(n), 0, route) >= 0
    requires later.None? || StepTo(Stairs(n), End(Stairs(n), 0, route), later.value) >= 0
    ensures |CornersBack(route, c, later)| == |route|
    decreases |route|
  {
    if route != [] {
      var front, m := route[..|route| - 1], route[|route| - 1];
      StepOnGrid(Stairs(n), End(Stairs(n), 0, front), m);
      if later.Some? { TwoStairs(n, front, m, later.value); }
      StairCorners(n, front, (c.0 - m.0, c.1 - m.1), Some(m));
    }
  }

  /** One step up. */
  lemma OneStair(n: nat, k: nat)
    requires 0 < k <= n
    ensures StepTo(Stairs(n), Index(n + 1, k - 1, k - 1), (1, 0)) == Index(n + 1, k, k - 1) >= 0
    ensures StepTo(Stairs(n), Index(n + 1, k, k - 1), (0, 1)) == Index(n + 1, k, k) >= 0
  {
    IndexOf(n + 1, n + 1, k - 1, k - 1);
    IndexOf(n + 1, n + 1, k, k - 1);
    IndexOf(n + 1, n + 1, k, k);
  }

  lemma {:induction false} Upstairs(n: nat, k: nat) returns (route: Route)
    requires k <= n
    ensures Reaches(Stairs(n), 0, route, Index(n + 1, k, k))
  {
    if k == 0 {
      route := [];
      RowEnds(n + 1, 0, 0);
    } else {
      var below := Upstairs(n, k - 1);
      OneStair(n, k);
      ExtendRoute(Stairs(n), 0, below, Index(n + 1, k - 1, k - 1), (1, 0));
      ExtendRoute(Stairs(n), 0, below + [(1, 0)], Index(n + 1, k, k - 1), (0, 1));
      route := below + [(1, 0)] + [(0, 1)];
    }
  }

  /** Whatever leads to the top straight from cell to cell goes through as many cells as there are
      moves. */
  lemma EveryStairCounts(n: nat, back: seq<Cell>)
    requires var p := UpTheStairs(n); Reaches(p.g, p.s, Along((0, 0), back), p.e)
    ensures |back| >= 2 * n
  {
    var run := Along((0, 0), back);
    IndexOf(n + 1, n + 1, n, n);
    StairsNarrow(n);
    NarrowRoute(Stairs(n), 0, run);
    StairCorners(n, run, (n, n), None);
    FewCorners((0, 0), back, (n, n), None);
  }

  lemma NotUpstairs(n: nat, back: seq<Cell>)
    requires |back| < 2 * n
    ensures var p := UpTheStairs(n); !Reaches(p.g, p.s, Along((0, 0), back), p.e)
  {
    if Reaches(Stairs(n), 0, Along((0, 0), back), Index(n + 1, n, n)) { EveryStairCounts(n, back); }
  }

  lemma StairsLead(n: nat)
    ensures var p := UpTheStairs(n); p.Valid() && exists route :: Reaches(p.g, p.s, route, p.e)
  {
    var up := Upstairs(n, n);
    IndexOf(n + 1, n + 1, n, n);
    var p := UpTheStairs(n);
    assert Reaches(p.g, p.s, up, p.e);
  }

  /** Up a staircase of more than 128 steps the search arrives, and no matter what is handed out,
      running through it does not lead to the goal: there are too many corners. */
  lemma ManyCornersAreCut(n: nat, v: State, out: seq<Cell>)
    requires n > 128
    ensures var p := UpTheStairs(n);
            && p.Valid() && (exists route :: Reaches(p.g, p.s, route, p.e))
            && (RouteFound(p, v, (n, n), out) ==> !Reaches(p.g, p.s, Along((0, 0), Reversed(out)), p.e))
  {
    StairsLead(n);
    if |out| <= MOST_CORNERS {
      NotUpstairs(n, Reversed(out));
    } else if RouteFound(UpTheStairs(n), v, (n, n), out) {
      NeverMany(UpTheStairs(n), v, (n, n), out);
    }
  }

  // --- A long hall --------------------------------------------------------------------------------------

  /** Entered at its door by one move down; then it goes on to the right. */
  function Hall(n: nat): Grid { Graded(n + 1, 2, (x, z) => if z == 1 || x == 0 then 6 else 0) }

  function DownTheHall(n: nat): Problem { Problem(Hall(n), 0, Index(n + 1, n, 1)) }

  lemma HallMove(n: nat, x: int, z: int, m: Move)
    requires Hall(n).fits(x, z) && CanStep(Hall(n), x, z, m)
    ensures !Diagonal(m) && (Hall(n).On(x, z) && m.0 + m.1 == 1 ==> m == if z == 0 then (0, 1) else (1, 0))
  {
    assert Hall(n).fits(x + m.0, z + m.1);
  }

  lemma HallNarrow(n: nat)
    ensures Narrow(Hall(n))
  {
    forall x, z, m: Move | Hall(n).fits(x, z) && CanStep(Hall(n), x, z, m) ensures !Diagonal(m) {
      HallMove(n, x, z, m);
    }
  }

  /** The last move of a route that leads as far as it has moves. */
  lemma LastMove(n: nat, front: Route, m: Move)
    requires var b := End(Hall(n), 0, front);
             b >= 0 && StepTo(Hall(n), b, m) >= 0 && Far(Hall(n), StepTo(Hall(n), b, m)) == |front| + 1
    ensures Far(Hall(n), End(Hall(n), 0, front)) == |front| && m == if front == [] then (0, 1) else (1, 0)
  {
    var g, b := Hall(n), End(Hall(n), 0, front);
    HallNarrow(n);
    NarrowRoute(g, 0, front);
    StepOnGrid(g, b, m);
    CellOf(g.w, 2, b);
    HallMove(n, Col(g.w, b), Row(g.w, b), m);
  }

  /** Such a route never turns back. */
  lemma {:induction false} NoTurningBack(n: nat, route: Route)
    requires route != [] && End(Hall(n), 0, route) >= 0 && Far(Hall(n), End(Hall(n), 0, route)) == |route|
    ensures route == [(0, 1)] + Repeat((1, 0), |route| - 1)
  {
    var front, m := route[..|route| - 1], route[|route| - 1];
    assert route == front + [m];
    LastMove(n, front, m);
    if front == [] {
      assert route == [(0, 1)] + [];
    } else {
      NoTurningBack(n, front);
    }
  }

  lemma {:induction false} ToTheEnd(n: nat, k: nat) returns (route: Route)
    requires k <= n
    ensures Reaches(Hall(n), 0, route, Index(n + 1, k, 1)) && |route| == k + 1
  {
    IndexOf(n + 1, 2, k, 1);
    if k == 0 {
      assert Reaches(Hall(n), 0, [], 0);
      ExtendRoute(Hall(n), 0, [], 0, (0, 1));
      route := [] + [(0, 1)];
    } else {
      route := ToTheEnd(n, k - 1);
      IndexOf(n + 1, 2, k - 1, 1);
      ExtendRoute(Hall(n), 0, route, Index(n + 1, k - 1, 1), (1, 0));
      route := route + [(1, 0)];
    }
  }

  lemma NoLonger(n: nat, route: Route)
    requires var g, e := Hall(n), Index(n + 1, n, 1); Reaches(g, 0, route, e) && IsShortest(g, 0, e, Cost(g, 0, route))
    ensures |route| <= n + 1
  {
    var end := ToTheEnd(n, n);
    HallNarrow(n);
    NarrowRoute(Hall(n), 0, end);
  }

  lemma NoShorter(n: nat, route: Route)
    requires Reaches(Hall(n), 0, route, Index(n + 1, n, 1))
    ensures Far(Hall(n), End(Hall(n), 0, route)) == n + 1 <= |route|
  {
    IndexOf(n + 1, 2, n, 1);
    HallNarrow(n);
    NarrowRoute(Hall(n), 0, route);
  }

  /** There is only one cheapest route, and it turns after its first move. */
  lemma OneWay(n: nat, route: Route)
    requires var g, e := Hall(n), Index(n + 1, n, 1); Reaches(g, 0, route, e) && IsShortest(g, 0, e, Cost(g, 0, route))
    ensures route == [(0, 1)] + Repeat((1, 0), n)
  {
    NoLonger(n, route);
    NoShorter(n, route);
    NoTurningBack(n, route);
  }

  /** The wall between the door and the goal is in the way of the straight line. */
  lemma NoShortcut(n: nat, run: Route)
    requires n > 0 && run == Along((0, 0), [(n, 1)])
    ensures End(Hall(n), 0, run) < 0
  {
    AlongMore((0, 0), (n, 1), []);
    RepeatIs((1, 1), n);
    assert run == Repeat((1, 1), n);
    assert run[..1][..0] == [] && run[..1][0] == (1, 1);
    StepOnGrid(Hall(n), 0, (1, 1));
    if End(Hall(n), 0, run) >= 0 {
      PrefixLegal(Hall(n), 0, run, 1);
    }
  }

  /** What is walked back of the only route. */
  lemma OnlyTheGoal(n: nat)
    requires n >= LONGEST_WALK
    ensures HandedOut([(0, 1)] + Repeat((1, 0), n), (n, 1)) == [(n, 1)]
  {
    var route := [(0, 1)] + Repeat((1, 0), n);
    RepeatIs((1, 0), n);
    RunOnly(Walked(route), (1, 0));
    CornersOfRun((1, 0), LONGEST_WALK, (n, 1), None);
  }

  lemma RunOnly(route: Route, m: Move)
    requires forall i :: 0 <= i < |route| ==> route[i] == m
    ensures route == Repeat(m, |route|)
  {
    RepeatIs(m, |route|);
  }

  /** Down a hall of more than 8192 cells the search arrives, the goal alone is handed out, and
      running straight to it is not possible: the corner at the door has been skipped. */
  lemma FarCornerIsSkipped(n: nat, v: State, out: seq<Cell>)
    requires n >= 8192
    ensures var p := DownTheHall(n);
            && p.Valid() && (exists route :: Reaches(p.g, p.s, route, p.e))
            && (RouteFound(p, v, (n, 1), out) ==>
                  out == [(n, 1)] && !Reaches(p.g, p.s, Along((0, 0), Reversed(out)), p.e))
  {
    var p := DownTheHall(n);
    var end := ToTheEnd(n, n);
    IndexOf(n + 1, 2, n, 1);
    if RouteFound(p, v, (n, 1), out) {
      var route :| Reaches(p.g, p.s, route, p.e) && IsShortest(p.g, p.s, p.e, Cost(p.g, p.s, route))
        && out == HandedOut(route, (n, 1));
      OneWay(n, route);
      OnlyTheGoal(n);
      NoShortcut(n, Along((0, 0), Reversed(out)));
    }
  }
}
