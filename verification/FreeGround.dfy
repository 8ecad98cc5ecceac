/** What legal routes cost on the simplest maps: open ground, and two by two cells.  Here the
    rules of movement can be read off in numbers (tools/crowdbench.cpp, src/sim/pathsearch.cpp). */
module FreeGround {
  import opened GridIndex
  import opened Routes
  import opened AStar

  // --- Open ground ----------------------------------------------------------------------------------

  /** Every cell can be entered, at no extra cost. */
  ghost predicate Free(g: Grid)
  {
    forall x, z :: g.On(x, z) ==> g.fits(x, z) && g.toll(x, z) == 0
  }

  /** One step from `a` towards `b` on one axis. */
  function Towards(a: int, b: int): int { if a < b then 1 else if a > b then -1 else 0 }

  /** The last move of a straightest route. */
  lemma LastStep(g: Grid, s: int, e: int) returns (b: int, m: Move)
    requires g.w > 0 && Free(g) && 0 <= s < g.Size() && 0 <= e < g.Size() && s != e
    ensures 0 <= b < g.Size() && StepTo(g, b, m) == e
    ensures Ahead(g, s, e) == Ahead(g, s, b) + StepPrice(g, b, m) && Ahead(g, s, b) < Ahead(g, s, e)
  {
    CellOf(g.w, g.h, s);
    CellOf(g.w, g.h, e);
    var x, z := Col(g.w, e), Row(g.w, e);
    m := (Towards(Col(g.w, s), x), Towards(Row(g.w, s), z));
    b := Index(g.w, x - m.0, z - m.1);
    IndexOf(g.w, g.h, x - m.0, z - m.1);
    FreeStep(g, b, x - m.0, z - m.1, m);
    Nearer(x - Col(g.w, s), z - Row(g.w, s), m);
  }

  lemma FreeStep(g: Grid, b: int, x: int, z: int, m: Move)
    requires g.w > 0 && Free(g) && g.On(x, z) && g.On(x + m.0, z + m.1)
    requires 0 <= b < g.Size() && Col(g.w, b) == x && Row(g.w, b) == z
    ensures StepTo(g, b, m) == Index(g.w, x + m.0, z + m.1) && StepPrice(g, b, m) == Price(m)
  {
    assert g.On(x + m.0, z) && g.On(x, z + m.1);
  }

  lemma Nearer(dx: int, dz: int, m: Move)
    requires m == (Towards(0, dx), Towards(0, dz))
    ensures Octile(dx, dz) == Octile(dx - m.0, dz - m.1) + Price(m)
  {
  }

  lemma {:induction false} StraightestRoute(g: Grid, s: int, e: int) returns (route: Route)
    requires g.w > 0 && Free(g) && 0 <= s < g.Size() && 0 <= e < g.Size()
    ensures Reaches(g, s, route, e) && Cost(g, s, route) == Ahead(g, s, e)
    decreases Ahead(g, s, e)
  {
    if s == e {
      route := [];
    } else {
      var b, m := LastStep(g, s, e);
      route := StraightestRoute(g, s, b);
      ExtendRoute(g, s, route, b, m);
      route := route + [m];
    }
  }

  /** On open ground the least cost is 14 for every diagonal move there is room for and 10 for
      every straight one that remains. */
  lemma FreeCost(g: Grid, s: int, e: int, cost: int)
    requires g.w > 0 && Free(g) && 0 <= s < g.Size() && 0 <= e < g.Size()
    ensures var dx, dz := Abs(Col(g.w, e) - Col(g.w, s)), Abs(Row(g.w, e) - Row(g.w, s));
            IsShortest(g, s, e, cost) <==>
            cost == if dx < dz then 14 * dx + 10 * (dz - dx) else 14 * dz + 10 * (dx - dz)
  {
    var route := StraightestRoute(g, s, e);
    forall other | Reaches(g, s, other, e) ensures Ahead(g, s, e) <= Cost(g, s, other) {
      Admissible(g, s, other, e);
    }
  }

  // --- Two by two cells -----------------------------------------------------------------------------

  predicate Small(g: Grid, x: int, z: int) { g.w == 2 && g.h == 2 && g.On(x, z) }

  /** The opposite corner can be entered, diagonally or round by a cell beside. */
  predicate Open(g: Grid, x: int, z: int) { g.fits(1 - x, 1 - z) && (g.fits(1 - x, z) || g.fits(x, 1 - z)) }

  /** What that costs from (x, z). */
  function Least(g: Grid, x: int, z: int): nat
  {
    var there := g.toll(1 - x, 1 - z);
    if g.fits(1 - x, z) && g.fits(x, 1 - z) then 14 + there
    else if g.fits(1 - x, z) then 20 + g.toll(1 - x, z) + there
    else 20 + g.toll(x, 1 - z) + there
  }

  /** The least a route from (x, z) can cost that ends at (cx, cz). */
  predicate AtLeast(g: Grid, x: int, z: int, cx: int, cz: int, cost: int)
  {
    && (cx != x && cz == z ==> g.fits(1 - x, z) && cost >= 10 + g.toll(1 - x, z))
    && (cx == x && cz != z ==> g.fits(x, 1 - z) && cost >= 10 + g.toll(x, 1 - z))
    && (cx != x && cz != z ==> Open(g, x, z) && cost >= Least(g, x, z))
  }

  lemma AtLeastMore(g: Grid, x: int, z: int, cx: int, cz: int, cost: nat, m: Move)
    requires Small(g, x, z) && g.On(cx, cz) && AtLeast(g, x, z, cx, cz, cost) && CanStep(g, cx, cz, m)
    ensures AtLeast(g, x, z, cx + m.0, cz + m.1, cost + Price(m) + g.toll(cx + m.0, cz + m.1))
  {
  }

  /** Every legal move keeps the bounds. */
  ghost predicate Kept(g: Grid, x: int, z: int)
  {
    forall cx: int, cz: int, cost: nat, m: Move ::
      g.On(cx, cz) && AtLeast(g, x, z, cx, cz, cost) && CanStep(g, cx, cz, m) ==>
        AtLeast(g, x, z, cx + m.0, cz + m.1, cost + Price(m) + g.toll(cx + m.0, cz + m.1))
  }

  lemma SmallKept(g: Grid, x: int, z: int)
    requires Small(g, x, z)
    ensures Kept(g, x, z)
  {
    forall cx: int, cz: int, cost: nat, m: Move |
      g.On(cx, cz) && AtLeast(g, x, z, cx, cz, cost) && CanStep(g, cx, cz, m)
      ensures AtLeast(g, x, z, cx + m.0, cz + m.1, cost + Price(m) + g.toll(cx + m.0, cz + m.1))
    {
      AtLeastMore(g, x, z, cx, cz, cost, m);
    }
  }

  /** The same by cell numbers. */
  ghost predicate At(g: Grid, x: int, z: int, c: int, cost: int)
    requires g.w > 0
  {
    0 <= c < g.Size() && g.On(Col(g.w, c), Row(g.w, c)) && AtLeast(g, x, z, Col(g.w, c), Row(g.w, c), cost)
  }

  lemma StepFacts(g: Grid, c: int, m: Move)
    requires g.w > 0 && 0 <= c < g.Size() && StepTo(g, c, m) >= 0
    ensures var d, x, z := StepTo(g, c, m), Col(g.w, c) + m.0, Row(g.w, c) + m.1;
            && 0 <= d < g.Size() && Col(g.w, d) == x && Row(g.w, d) == z && g.On(x, z)
            && CanStep(g, Col(g.w, c), Row(g.w, c), m) && StepPrice(g, c, m) == Price(m) + g.toll(x, z)
  {
    StepOnGrid(g, c, m);
  }

  lemma AtMore(g: Grid, x: int, z: int, c: int, cost: nat, m: Move)
    requires g.w > 0 && Kept(g, x, z) && At(g, x, z, c, cost) && StepTo(g, c, m) >= 0
    ensures At(g, x, z, StepTo(g, c, m), cost + StepPrice(g, c, m))
  {
    StepFacts(g, c, m);
    var cx, cz := Col(g.w, c), Row(g.w, c);
    Placed(g, x, z, StepTo(g, c, m), cx + m.0, cz + m.1, cost + Price(m) + g.toll(cx + m.0, cz + m.1));
  }

  lemma Placed(g: Grid, x: int, z: int, c: int, cx: int, cz: int, cost: int)
    requires g.w > 0 && 0 <= c < g.Size() && Col(g.w, c) == cx && Row(g.w, c) == cz && g.On(cx, cz)
    requires AtLeast(g, x, z, cx, cz, cost)
    ensures At(g, x, z, c, cost)
  {
  }

  lemma {:induction false} SmallRoutes(g: Grid, s: int, x: int, z: int, route: Route)
    requires g.w > 0 && Kept(g, x, z) && At(g, x, z, s, 0) && End(g, s, route) >= 0
    ensures At(g, x, z, End(g, s, route), Cost(g, s, route))
  {
    if route != [] {
      SmallRoutes(g, s, x, z, route[..|route| - 1]);
      AtMore(g, x, z, End(g, s, route[..|route| - 1]), Cost(g, s, route[..|route| - 1]), route[|route| - 1]);
    }
  }

  /** A route of one more move. */
  lemma MoveOn(g: Grid, s: int, route: Route, cx: int, cz: int, m: Move)
    requires g.w > 0 && g.On(cx, cz) && Reaches(g, s, route, Index(g.w, cx, cz)) && CanStep(g, cx, cz, m)
    ensures Reaches(g, s, route + [m], Index(g.w, cx + m.0, cz + m.1))
    ensures Cost(g, s, route + [m]) == Cost(g, s, route) + Price(m) + g.toll(cx + m.0, cz + m.1)
  {
    IndexOf(g.w, g.h, cx, cz);
    IndexOf(g.w, g.h, cx + m.0, cz + m.1);
    ExtendRoute(g, s, route, Index(g.w, cx, cz), m);
  }

  lemma OneMove(g: Grid, x: int, z: int, m: Move)
    requires g.w > 0 && g.On(x, z) && CanStep(g, x, z, m)
    ensures Reaches(g, Index(g.w, x, z), [m], Index(g.w, x + m.0, z + m.1))
    ensures Cost(g, Index(g.w, x, z), [m]) == Price(m) + g.toll(x + m.0, z + m.1)
  {
    IndexOf(g.w, g.h, x, z);
    MoveOn(g, Index(g.w, x, z), [], x, z, m);
    assert [] + [m] == [m];
  }

  /** A route of that cost. */
  lemma SmallRoute(g: Grid, x: int, z: int) returns (route: Route)
    requires Small(g, x, z) && Open(g, x, z)
    ensures Reaches(g, Index(g.w, x, z), route, Index(g.w, 1 - x, 1 - z))
    ensures Cost(g, Index(g.w, x, z), route) == Least(g, x, z)
  {
    if g.fits(1 - x, z) && g.fits(x, 1 - z) {
      var m: Move := (1 - x - x, 1 - z - z);
      OneMove(g, x, z, m);
      route := [m];
    } else if g.fits(1 - x, z) {
      route := TwoMoves(g, x, z, (1 - x - x, 0), (0, 1 - z - z));
    } else {
      route := TwoMoves(g, x, z, (0, 1 - z - z), (1 - x - x, 0));
    }
  }

  lemma TwoMoves(g: Grid, x: int, z: int, m: Move, n: Move) returns (route: Route)
    requires g.w > 0 && g.On(x, z) && CanStep(g, x, z, m) && CanStep(g, x + m.0, z + m.1, n)
    ensures Reaches(g, Index(g.w, x, z), route, Index(g.w, x + m.0 + n.0, z + m.1 + n.1))
    ensures Cost(g, Index(g.w, x, z), route) ==
            Price(m) + g.toll(x + m.0, z + m.1) + Price(n) + g.toll(x + m.0 + n.0, z + m.1 + n.1)
  {
    OneMove(g, x, z, m);
    MoveOn(g, Index(g.w, x, z), [m], x + m.0, z + m.1, n);
    route := [m] + [n];
  }

  lemma SmallCost(g: Grid, x: int, z: int, cost: int)
    requires Small(g, x, z)
    ensures var s, e := Index(g.w, x, z), Index(g.w, 1 - x, 1 - z);
            && ((exists route :: Reaches(g, s, route, e)) <==> Open(g, x, z))
            && (Open(g, x, z) ==> (IsShortest(g, s, e, cost) <==> cost == Least(g, x, z)))
  {
    var s, e := Index(g.w, x, z), Index(g.w, 1 - x, 1 - z);
    IndexOf(g.w, g.h, x, z);
    IndexOf(g.w, g.h, 1 - x, 1 - z);
    SmallKept(g, x, z);
    forall route | Reaches(g, s, route, e) ensures Open(g, x, z) && Least(g, x, z) <= Cost(g, s, route) {
      SmallRoutes(g, s, x, z, route);
    }
    if Open(g, x, z) { var route := SmallRoute(g, x, z); }
  }

  /** From corner to opposite corner of a two by two map: diagonally when both cells beside fit,
      round by the one that fits when only one does, and not at all otherwise.  The corner one
      starts from need not fit. */
  lemma CornerToCorner(g: Grid, x: int, z: int, cost: int)
    requires g.w == 2 && g.h == 2 && g.On(x, z)
    ensures var s, e := Index(2, x, z), Index(2, 1 - x, 1 - z);
            var beside, below, there := g.fits(1 - x, z), g.fits(x, 1 - z), g.fits(1 - x, 1 - z);
            && ((exists route :: Reaches(g, s, route, e)) <==> there && (beside || below))
            && (there && beside && below ==> (IsShortest(g, s, e, cost) <==> cost == 14 + g.toll(1 - x, 1 - z)))
            && (there && beside && !below ==>
                  (IsShortest(g, s, e, cost) <==> cost == 20 + g.toll(1 - x, z) + g.toll(1 - x, 1 - z)))
            && (there && !beside && below ==>
                  (IsShortest(g, s, e, cost) <==> cost == 20 + g.toll(x, 1 - z) + g.toll(1 - x, 1 - z)))
  {
    SmallCost(g, x, z, cost);
  }

  /** The same for graded cells: grades below 4 are refused, and a cell of grade 4 costs 40 more. */
  lemma GradedCorners(grade: (int, int) -> int, x: int, z: int, cost: int)
    requires 0 <= x < 2 && 0 <= z < 2
    ensures var g, s, e := Graded(2, 2, grade), Index(2, x, z), Index(2, 1 - x, 1 - z);
            var beside, below, there := grade(1 - x, z), grade(x, 1 - z), grade(1 - x, 1 - z);
            && ((exists route :: Reaches(g, s, route, e)) <==> there >= 4 && (beside >= 4 || below >= 4))
            && (there > 4 && beside >= 4 && below >= 4 ==> (IsShortest(g, s, e, cost) <==> cost == 14))
            && (there == 4 && beside >= 4 && below >= 4 ==> (IsShortest(g, s, e, cost) <==> cost == 54))
            && (there > 4 && beside > 4 && below < 4 ==> (IsShortest(g, s, e, cost) <==> cost == 20))
            && (there > 4 && beside == 4 && below < 4 ==> (IsShortest(g, s, e, cost) <==> cost == 60))
            && (there == 4 && beside == 4 && below < 4 ==> (IsShortest(g, s, e, cost) <==> cost == 100))
  {
    CornerToCorner(Graded(2, 2, grade), x, z, cost);
  }

  // --- What the searches find -----------------------------------------------------------------------

  /** A search that has arrived on open ground has found that cost. */
  lemma FreeArrival(p: Problem, v: State)
    requires Proper(p, v) && v.phase == Arrived && Free(p.g)
    ensures var dx, dz := Abs(Col(p.g.w, p.e) - Col(p.g.w, p.s)), Abs(Row(p.g.w, p.e) - Row(p.g.w, p.s));
            v.score[p.e] == if dx < dz then 14 * dx + 10 * (dz - dx) else 14 * dz + 10 * (dx - dz)
  {
    ArrivedIsShortest(p, v);
    FreeCost(p.g, p.s, p.e, v.score[p.e]);
  }

  /** A search over two by two graded cells that is over. */
  lemma GradedArrival(p: Problem, v: State, grade: (int, int) -> int, x: int, z: int)
    requires 0 <= x < 2 && 0 <= z < 2 && p == Problem(Graded(2, 2, grade), Index(2, x, z), Index(2, 1 - x, 1 - z))
    requires Proper(p, v) && v.phase != Running
    ensures var beside, below, there := grade(1 - x, z), grade(x, 1 - z), grade(1 - x, 1 - z);
            && (v.phase == Arrived <==> there >= 4 && (beside >= 4 || below >= 4))
            && (there > 4 && beside >= 4 && below >= 4 ==> v.score[p.e] == 14)
            && (there == 4 && beside >= 4 && below >= 4 ==> v.score[p.e] == 54)
            && (there > 4 && beside > 4 && below < 4 ==> v.score[p.e] == 20)
            && (there > 4 && beside == 4 && below < 4 ==> v.score[p.e] == 60)
            && (there == 4 && beside == 4 && below < 4 ==> v.score[p.e] == 100)
  {
    OverDecides(p, v);
    GradedCorners(grade, x, z, v.score[p.e]);
    if v.phase == Arrived { ArrivedIsShortest(p, v); }
  }
}
