/** Legal routes on an 8-neighbour grid and what they cost: the common ground of the exact
    benchmark search (tools/crowdbench.cpp) and of the simulation's A* (src/sim/pathsearch.cpp). */
module Routes {
  import opened Basics
  import opened Counting
  import opened GridIndex

  /** `fits` says where the body may stand; entering a cell costs `toll` extra. */
  datatype Grid = Grid(w: nat, h: nat, fits: (int, int) -> bool, toll: (int, int) -> nat)
  {
    function Size(): nat { w * h }
    predicate On(x: int, z: int) { 0 <= x < w && 0 <= z < h }
  }

  /** A move to one of the eight neighbours. */
  type Move = m: (int, int) | -1 <= m.0 <= 1 && -1 <= m.1 <= 1 && m != (0, 0) witness (0, 1)

  type Route = seq<Move>

  predicate Diagonal(m: Move) { m.0 != 0 && m.1 != 0 }

  function Price(m: Move): nat { if Diagonal(m) then 14 else 10 }

  /** A legal move: onto a cell of the grid where the body fits and, on a diagonal, past
      two corner cells where it fits as well. */
  predicate CanStep(g: Grid, x: int, z: int, m: Move)
  {
    var (nx, nz) := (x + m.0, z + m.1);
    g.On(nx, nz) && g.fits(nx, nz) && (Diagonal(m) ==> g.fits(nx, z) && g.fits(x, nz))
  }

  /** The cell a move leads to, or -1. */
  function StepTo(g: Grid, c: int, m: Move): int
  {
    if 0 <= c < g.Size() && g.w > 0 && CanStep(g, Col(g.w, c), Row(g.w, c), m)
    then Index(g.w, Col(g.w, c) + m.0, Row(g.w, c) + m.1)
    else -1
  }

  lemma StepOnGrid(g: Grid, c: int, m: Move)
    ensures -1 <= StepTo(g, c, m) < g.Size()
    ensures StepTo(g, c, m) >= 0 <==> 0 <= c < g.Size() && g.w > 0 && CanStep(g, Col(g.w, c), Row(g.w, c), m)
    ensures StepTo(g, c, m) >= 0 ==>
              Col(g.w, StepTo(g, c, m)) == Col(g.w, c) + m.0 && Row(g.w, StepTo(g, c, m)) == Row(g.w, c) + m.1
  {
    if 0 <= c < g.Size() && g.w > 0 && CanStep(g, Col(g.w, c), Row(g.w, c), m) {
      IndexOf(g.w, g.h, Col(g.w, c) + m.0, Row(g.w, c) + m.1);
    }
  }

  /** What a move from cell `c` costs. */
  function StepPrice(g: Grid, c: int, m: Move): nat
  {
    Price(m) + if g.w > 0 && 0 <= c < g.Size() then g.toll(Col(g.w, c) + m.0, Row(g.w, c) + m.1) else 0
  }

  /** Where a sequence of moves from cell `s` ends, or -1 if one of them is illegal. */
  function End(g: Grid, s: int, route: Route): int
  {
    if route == [] then s
    else
      var c := End(g, s, route[..|route| - 1]);
      if c < 0 then -1 else StepTo(g, c, route[|route| - 1])
  }

  function Cost(g: Grid, s: int, route: Route): (r: nat)
    ensures 10 * |route| <= r
  {
    if route == [] then 0
    else
      var front := route[..|route| - 1];
      Cost(g, s, front) + StepPrice(g, End(g, s, front), route[|route| - 1])
  }

  ghost predicate Reaches(g: Grid, s: int, route: Route, e: int) { e >= 0 && End(g, s, route) == e }

  /** `cost` is the least cost of a legal route from `s` to `e`. */
  ghost predicate IsShortest(g: Grid, s: int, e: int, cost: int)
  {
    && (exists route :: Reaches(g, s, route, e) && Cost(g, s, route) == cost)
    && (forall route :: Reaches(g, s, route, e) ==> cost <= Cost(g, s, route))
  }

  lemma ExtendRoute(g: Grid, s: int, route: Route, c: int, m: Move)
    requires Reaches(g, s, route, c) && StepTo(g, c, m) >= 0
    ensures Reaches(g, s, route + [m], StepTo(g, c, m))
    ensures Cost(g, s, route + [m]) == Cost(g, s, route) + StepPrice(g, c, m)
  {
    assert (route + [m])[..|route|] == route;
  }

  /** Only the way to where one already is costs nothing. */
  lemma FreeOnlyAtHome(g: Grid, s: int, e: int, cost: int)
    requires s >= 0 && IsShortest(g, s, e, cost)
    ensures cost >= 0 && (cost == 0 <==> s == e)
  {
    var route :| Reaches(g, s, route, e) && Cost(g, s, route) == cost;
    if s == e { assert Reaches(g, s, [], e); }
  }

  // --- Loops can be cut out of a route ---------------------------------------------------------

  lemma {:induction false} EndOfConcat(g: Grid, s: int, a: Route, b: Route)
    requires End(g, s, a) >= 0
    ensures End(g, s, a + b) == End(g, End(g, s, a), b)
    decreases |b|
  {
    if b == [] {
      assert a + b == a;
    } else {
      EndOfConcat(g, s, a, b[..|b| - 1]);
      assert (a + b)[..|a + b| - 1] == a + b[..|b| - 1];
    }
  }

  lemma {:induction false} PrefixLegal(g: Grid, s: int, route: Route, i: nat)
    requires 0 <= s < g.Size() && End(g, s, route) >= 0 && i <= |route|
    ensures 0 <= End(g, s, route[..i]) < g.Size()
    decreases |route|
  {
    if i == |route| {
      assert route[..i] == route;
      if i > 0 { StepOnGrid(g, End(g, s, route[..i - 1]), route[i - 1]); }
    } else {
      assert route[..|route| - 1][..i] == route[..i];
      PrefixLegal(g, s, route[..|route| - 1], i);
    }
  }

  /** A sequence of more than `n` numbers below `n` holds some number twice. */
  lemma Pigeonhole(q: seq<int>, n: nat) returns (i: nat, j: nat)
    requires |q| > n && forall k :: 0 <= k < |q| ==> 0 <= q[k] < n
    ensures i < j < |q| && q[i] == q[j]
  {
    if Distinct(q) { DistinctBounded(q, n); }
    i, j :| 0 <= i < j < |q| && q[i] == q[j];
  }

  /** A route that visits some cell twice can be cut short. */
  lemma CutLoop(g: Grid, s: int, route: Route) returns (shorter: Route)
    requires 0 <= s < g.Size() && End(g, s, route) >= 0 && |route| >= g.Size()
    ensures |shorter| < |route| && End(g, s, shorter) == End(g, s, route)
  {
    var visits := seq(|route| + 1, i requires 0 <= i <= |route| => End(g, s, route[..i]));
    forall i | 0 <= i < |visits| ensures 0 <= visits[i] < g.Size() { PrefixLegal(g, s, route, i); }
    var i, j := Pigeonhole(visits, g.Size());
    shorter := Without(g, s, route, i, j);
  }

  lemma Without(g: Grid, s: int, route: Route, i: nat, j: nat) returns (shorter: Route)
    requires i < j <= |route| && End(g, s, route[..i]) == End(g, s, route[..j]) >= 0
    ensures |shorter| < |route| && End(g, s, shorter) == End(g, s, route)
  {
    shorter := route[..i] + route[j..];
    EndOfConcat(g, s, route[..i], route[j..]);
    EndOfConcat(g, s, route[..j], route[j..]);
    assert route[..j] + route[j..] == route;
  }

  /** If a cell can be reached at all, it can be reached in fewer moves than there are cells. */
  lemma {:induction false} ReachableInFewMoves(g: Grid, s: int, e: int, route: Route) returns (few: Route)
    requires 0 <= s < g.Size() && Reaches(g, s, route, e)
    ensures Reaches(g, s, few, e) && |few| < g.Size()
    decreases |route|
  {
    if |route| < g.Size() {
      few := route;
    } else {
      few := CutLoop(g, s, route);
      few := ReachableInFewMoves(g, s, e, few);
    }
  }

  lemma {:induction false} CostInParts(g: Grid, s: int, a: Route, b: Route)
    requires End(g, s, a) >= 0
    ensures Cost(g, s, a + b) == Cost(g, s, a) + Cost(g, End(g, s, a), b)
    decreases |b|
  {
    if b == [] {
      assert a + b == a;
    } else {
      CostInParts(g, s, a, b[..|b| - 1]);
      EndOfConcat(g, s, a, b[..|b| - 1]);
      assert (a + b)[..|a + b| - 1] == a + b[..|b| - 1];
    }
  }

  /** A loop costs something, so cutting it out makes a route cheaper. */
  lemma CutCost(g: Grid, s: int, route: Route, i: nat, j: nat)
    requires i < j <= |route| && End(g, s, route[..i]) == End(g, s, route[..j]) >= 0
    ensures End(g, s, route[..i] + route[j..]) == End(g, s, route)
    ensures Cost(g, s, route[..i] + route[j..]) < Cost(g, s, route)
  {
    assert route[..j] + route[j..] == route && route[..i] + route[i..j] == route[..j];
    EndOfConcat(g, s, route[..i], route[j..]);
    EndOfConcat(g, s, route[..j], route[j..]);
    CostInParts(g, s, route[..i], route[j..]);
    CostInParts(g, s, route[..j], route[j..]);
    CostInParts(g, s, route[..i], route[i..j]);
  }

  /** A cheapest route has fewer moves than the grid has cells. */
  lemma CheapestIsShort(g: Grid, s: int, route: Route, e: int)
    requires 0 <= s < g.Size() && Reaches(g, s, route, e) && IsShortest(g, s, e, Cost(g, s, route))
    ensures |route| < g.Size()
  {
    if |route| >= g.Size() {
      var visits := seq(|route| + 1, i requires 0 <= i <= |route| => End(g, s, route[..i]));
      forall i | 0 <= i < |visits| ensures 0 <= visits[i] < g.Size() { PrefixLegal(g, s, route, i); }
      var i, j := Pigeonhole(visits, g.Size());
      CutCost(g, s, route, i, j);
      assert Reaches(g, s, route[..i] + route[j..], e);
      assert false;
    }
  }

  /** Where tolls are bounded, so is the cost of a route. */
  lemma {:induction false} CostBounded(g: Grid, s: int, route: Route, top: nat)
    requires forall x, z :: g.toll(x, z) <= top
    ensures Cost(g, s, route) <= (14 + top) * |route|
  {
    if route != [] {
      CostBounded(g, s, route[..|route| - 1], top);
      assert (14 + top) * |route| == (14 + top) * (|route| - 1) + (14 + top);
    }
  }
}
