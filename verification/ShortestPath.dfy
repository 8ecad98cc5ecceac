/** The benchmark's exact route length: Dijkstra by scanning an 8-neighbour grid
    (tools/crowdbench.cpp). */
module ShortestPath {
  import opened Basics
  import opened GridIndex
  import opened Routes
  import FreeGround

  const INF := 0x2000_0000

  /** The order in which the benchmark looks at the neighbours. */
  const MOVES: seq<Move> := [(0, -1), (1, 0), (0, 1), (-1, 0), (1, -1), (1, 1), (-1, 1), (-1, -1)]

  lemma AllMoves(m: Move) returns (k: nat)
    ensures k < 8 && MOVES[k] == m
  {
    k := if m == (0, -1) then 0 else if m == (1, 0) then 1 else if m == (0, 1) then 2 else if m == (-1, 0) then 3
         else if m == (1, -1) then 4 else if m == (1, 1) then 5 else if m == (-1, 1) then 6 else 7;
  }

  /** The grid of the benchmark: no cell costs extra. */
  function Open(w: nat, h: nat, fits: (int, int) -> bool): Grid { Grid(w, h, fits, (x, z) => 0) }

  ghost predicate TollFree(g: Grid) { forall x, z :: g.toll(x, z) == 0 }

  // --- The search state -----------------------------------------------------------------

  ghost predicate Realised(g: Grid, s: int, dist: seq<int>, c: int)
    requires 0 <= c < |dist|
  {
    dist[c] <= INF && (dist[c] < INF ==> exists route :: Reaches(g, s, route, c) && Cost(g, s, route) == dist[c])
  }

  ghost predicate Settled(g: Grid, s: int, dist: seq<int>, c: int)
    requires 0 <= c < |dist|
  {
    forall route :: Reaches(g, s, route, c) ==> dist[c] <= Cost(g, s, route)
  }

  ghost predicate Relaxed(g: Grid, dist: seq<int>, c: int, k: Move)
    requires 0 <= c < |dist|
  {
    0 <= StepTo(g, c, k) < |dist| ==> dist[StepTo(g, c, k)] <= dist[c] + StepPrice(g, c, k)
  }

  /** Every distance is that of some route, finished cells are exact, and all cells
      finished before `but` have been relaxed in every direction. */
  ghost predicate Searching(g: Grid, s: int, dist: seq<int>, done: seq<bool>, but: int)
  {
    && |dist| == |done| == g.Size() && 0 <= s < |dist| && dist[s] <= 0
    && (forall c :: 0 <= c < |dist| ==> Realised(g, s, dist, c))
    && (forall c :: 0 <= c < |dist| && done[c] ==> Settled(g, s, dist, c))
    && (forall c, k: Move :: 0 <= c < |dist| && done[c] && c != but ==> Relaxed(g, dist, c, k))
  }

  /** A route either ends in a finished cell or costs at least as much as the distance of
      some unfinished one. */
  lemma {:induction false} Frontier(g: Grid, s: int, dist: seq<int>, done: seq<bool>, route: Route) returns (v: int)
    requires Searching(g, s, dist, done, -1) && End(g, s, route) >= 0
    ensures 0 <= v < |dist| && dist[v] <= Cost(g, s, route)
    ensures done[v] ==> v == End(g, s, route)
  {
    if route == [] {
      v := s;
    } else {
      var front, k := route[..|route| - 1], route[|route| - 1];
      v := Frontier(g, s, dist, done, front);
      if done[v] {
        StepOnGrid(g, v, k);
        assert Relaxed(g, dist, v, k);
        v := StepTo(g, v, k);
      }
    }
  }

  /** The unfinished cell of least distance is exact. */
  lemma NearestIsSettled(g: Grid, s: int, dist: seq<int>, done: seq<bool>, best: int)
    requires Searching(g, s, dist, done, -1) && 0 <= best < |dist| && !done[best]
    requires forall c :: 0 <= c < |dist| && !done[c] ==> dist[best] <= dist[c]
    ensures Settled(g, s, dist, best)
  {
    forall route | Reaches(g, s, route, best) ensures dist[best] <= Cost(g, s, route) {
      var v := Frontier(g, s, dist, done, route);
    }
  }

  /** So it can be finished; its own relaxations are then still to come. */
  lemma FinishCell(g: Grid, s: int, dist: seq<int>, done: seq<bool>, best: int)
    requires Searching(g, s, dist, done, -1) && 0 <= best < |dist| && !done[best] && dist[best] < INF
    requires forall c :: 0 <= c < |dist| && !done[c] ==> dist[best] <= dist[c]
    ensures Searching(g, s, dist, done[best := true], best) && IsShortest(g, s, best, dist[best])
  {
    NearestIsSettled(g, s, dist, done, best);
    assert Realised(g, s, dist, best);
  }

  /** When only unreached cells are left, no route cheaper than INF ends in one. */
  lemma NothingLeft(g: Grid, s: int, dist: seq<int>, done: seq<bool>, e: int)
    requires Searching(g, s, dist, done, -1) && 0 <= e < |dist| && !done[e]
    requires forall c :: 0 <= c < |dist| && !done[c] ==> INF <= dist[c]
    ensures forall route :: Reaches(g, s, route, e) ==> INF <= Cost(g, s, route)
  {
    forall route | Reaches(g, s, route, e) ensures INF <= Cost(g, s, route) {
      var v := Frontier(g, s, dist, done, route);
    }
  }

  lemma AtStart(g: Grid, s: int, dist: seq<int>, done: seq<bool>)
    requires |dist| == |done| == g.Size() && 0 <= s < |dist|
    requires forall c :: 0 <= c < |dist| ==> !done[c] && dist[c] == if c == s then 0 else INF
    ensures Searching(g, s, dist, done, -1)
  {
    assert Reaches(g, s, [], s);
  }

  lemma NeverAboveInf(g: Grid, s: int, dist: seq<int>, done: seq<bool>)
    requires Searching(g, s, dist, done, -1)
    ensures forall c :: 0 <= c < |dist| ==> dist[c] <= INF
  {
    forall c | 0 <= c < |dist| ensures dist[c] <= INF {
      assert Realised(g, s, dist, c);
    }
  }

  /** The cell that a finished cell can improve on is not finished. */
  lemma NotFinished(g: Grid, s: int, dist: seq<int>, done: seq<bool>, c: int, k: Move) returns (route: Route)
    requires Searching(g, s, dist, done, c) && 0 <= c < |dist| && done[c] && dist[c] < INF
    requires 0 <= StepTo(g, c, k) < |dist| && dist[c] + StepPrice(g, c, k) < dist[StepTo(g, c, k)]
    ensures !done[StepTo(g, c, k)]
    ensures Reaches(g, s, route, StepTo(g, c, k)) && Cost(g, s, route) == dist[c] + StepPrice(g, c, k)
  {
    var d := StepTo(g, c, k);
    assert Realised(g, s, dist, c);
    var front :| Reaches(g, s, front, c) && Cost(g, s, front) == dist[c];
    ExtendRoute(g, s, front, c, k);
    route := front + [k];
    assert done[d] ==> Settled(g, s, dist, d);
  }

  /** Lowering the distance of an unfinished cell to the cost of a route keeps the state. */
  lemma LowerKeeps(g: Grid, s: int, dist: seq<int>, done: seq<bool>, c: int, d: int, route: Route)
    requires Searching(g, s, dist, done, c) && 0 <= d < |dist| && !done[d]
    requires Reaches(g, s, route, d) && Cost(g, s, route) < dist[d]
    ensures Searching(g, s, dist[d := Cost(g, s, route)], done, c)
  {
    var after := dist[d := Cost(g, s, route)];
    assert Realised(g, s, dist, d);
    forall x | 0 <= x < |dist| ensures Realised(g, s, after, x) {
      assert Realised(g, s, dist, x);
    }
    forall x | 0 <= x < |dist| && done[x] ensures Settled(g, s, after, x) {
      assert Settled(g, s, dist, x);
    }
    forall x, j: Move | 0 <= x < |dist| && done[x] && x != c ensures Relaxed(g, after, x, j) {
      assert Relaxed(g, dist, x, j);
    }
  }

  /** Lowering the distance of a neighbour to that of a route through finished `c` keeps the
      state, and what was relaxed stays so. */
  lemma RelaxKeeps(g: Grid, s: int, dist: seq<int>, done: seq<bool>, c: int, k: Move)
    requires Searching(g, s, dist, done, c) && 0 <= c < |dist| && done[c] && dist[c] < INF
    requires 0 <= StepTo(g, c, k) < |dist| && dist[c] + StepPrice(g, c, k) < dist[StepTo(g, c, k)]
    ensures var d := StepTo(g, c, k);
            var after := dist[d := dist[c] + StepPrice(g, c, k)];
            && d != c && !done[d] && Searching(g, s, after, done, c) && Relaxed(g, after, c, k)
            && forall j: Move :: Relaxed(g, dist, c, j) ==> Relaxed(g, after, c, j)
  {
    var route := NotFinished(g, s, dist, done, c, k);
    LowerKeeps(g, s, dist, done, c, StepTo(g, c, k), route);
  }

  // --- The loop ---------------------------------------------------------------------------

  /** The scan for the nearest unfinished cell. */
  method Nearest(dist: array<int>, done: array<bool>) returns (best: int, bestD: int)
    requires dist.Length == done.Length
    requires forall c :: 0 <= c < dist.Length ==> dist[c] <= INF
    ensures -1 <= best < dist.Length && bestD <= INF
    ensures best >= 0 ==> !done[best] && dist[best] == bestD < INF
    ensures best < 0 ==> bestD == INF
    ensures forall c :: 0 <= c < dist.Length && !done[c] ==> bestD <= dist[c]
  {
    best, bestD := -1, INF;
    for i := 0 to dist.Length
      invariant -1 <= best < i && bestD <= INF
      invariant best >= 0 ==> !done[best] && dist[best] == bestD < INF
      invariant best < 0 ==> bestD == INF
      invariant forall c :: 0 <= c < i && !done[c] ==> bestD <= dist[c]
    {
      if !done[i] && dist[i] < bestD { best, bestD := i, dist[i]; }
    }
  }

  /** The guards of one relaxation: the neighbour in direction `k`, or -1. */
  method Neighbour(g: Grid, cx: int, cz: int, k: Move, ghost c: int) returns (id: int)
    requires 0 <= c < g.Size() && g.w > 0 && cx == Col(g.w, c) && cz == Row(g.w, c)
    ensures id == StepTo(g, c, k) && -1 <= id < g.Size()
  {
    StepOnGrid(g, c, k);
    var nx, nz := cx + k.0, cz + k.1;
    if nx < 0 || nz < 0 || nx >= g.w || nz >= g.h { return -1; }
    if !g.fits(nx, nz) { return -1; }
    var diag := k.0 != 0 && k.1 != 0;
    if diag && (!g.fits(cx + k.0, cz) || !g.fits(cx, cz + k.1)) { return -1; }
    return nz * g.w + nx;
  }

  /** One relaxation. */
  method Relax(g: Grid, ghost s: int, dist: array<int>, ghost done: seq<bool>, best: int, bestD: int, k: Move, id: int)
    requires TollFree(g) && Searching(g, s, dist[..], done, best) && 0 <= best < dist.Length && done[best]
    requires dist[best] == bestD < INF && id == StepTo(g, best, k) && -1 <= id < dist.Length
    modifies dist
    ensures Searching(g, s, dist[..], done, best) && dist[best] == bestD
    ensures Relaxed(g, dist[..], best, k)
    ensures forall j: Move :: Relaxed(g, old(dist[..]), best, j) ==> Relaxed(g, dist[..], best, j)
  {
    if id < 0 { return; }
    var nd := bestD + if Diagonal(k) then 14 else 10;
    assert nd == bestD + StepPrice(g, best, k);
    if nd < dist[id] {
      RelaxKeeps(g, s, dist[..], done, best, k);
      dist[id] := nd;
      assert dist[..] == old(dist[..])[id := nd];
    }
  }

  /** The eight relaxations from a freshly finished cell. */
  method RelaxAll(g: Grid, ghost s: int, dist: array<int>, ghost done: seq<bool>, best: int, bestD: int)
    requires TollFree(g) && Searching(g, s, dist[..], done, best)
    requires 0 <= best < dist.Length && done[best] && dist[best] == bestD < INF
    modifies dist
    ensures Searching(g, s, dist[..], done, -1)
  {
    CellOf(g.w, g.h, best);
    var cx, cz := best % g.w, best / g.w;
    for k := 0 to 8
      invariant Searching(g, s, dist[..], done, best) && dist[best] == bestD
      invariant forall j :: 0 <= j < k ==> Relaxed(g, dist[..], best, MOVES[j])
    {
      var id := Neighbour(g, cx, cz, MOVES[k], best);
      Relax(g, s, dist, done, best, bestD, MOVES[k], id);
    }
    forall m: Move ensures Relaxed(g, dist[..], best, m) {
      var k := AllMoves(m);
    }
  }

  ghost function Undone(done: seq<bool>): set<int> { set c | 0 <= c < |done| && !done[c] }

  lemma UndoneShrinks(done: seq<bool>, best: int)
    requires 0 <= best < |done| && !done[best]
    ensures Undone(done[best := true]) < Undone(done)
  {
    assert best in Undone(done) && best !in Undone(done[best := true]);
  }

  /** The search itself: the least cost of a route when that is below INF, else -1. */
  method Search(g: Grid, s: int, e: int) returns (cost: int)
    requires TollFree(g) && 0 <= s < g.Size() && 0 <= e < g.Size()
    ensures cost >= 0 ==> cost < INF && IsShortest(g, s, e, cost)
    ensures cost < 0 ==> forall route :: Reaches(g, s, route, e) ==> INF <= Cost(g, s, route)
  {
    var dist := new int[g.Size()](i => INF);
    dist[s] := 0;
    var done := new bool[g.Size()](i => false);
    AtStart(g, s, dist[..], done[..]);
    while true
      invariant fresh(dist) && fresh(done) && dist.Length == done.Length == g.Size()
      invariant Searching(g, s, dist[..], done[..], -1) && !done[e]
      decreases Undone(done[..])
    {
      NeverAboveInf(g, s, dist[..], done[..]);
      var best, bestD := Nearest(dist, done);
      if best < 0 {
        NothingLeft(g, s, dist[..], done[..], e);
        return -1;
      }
      FinishCell(g, s, dist[..], done[..], best);
      label Step:
      UndoneShrinks(done[..], best);
      done[best] := true;
      assert done[..] == old@Step(done[..])[best := true];
      if best == e { return bestD; }
      RelaxAll(g, s, dist, done[..], best, bestD);
    }
  }

  // --- INF is out of reach ---------------------------------------------------------------------

  /** On every grid with 14 * w * h <= INF the search fails exactly when there is no
      legal route at all. */
  lemma NoRouteIffAllDear(g: Grid, s: int, e: int)
    requires TollFree(g) && 0 <= s < g.Size() && 14 * g.Size() <= 0x2000_0000
    ensures (exists route :: Reaches(g, s, route, e)) <==>
            (exists route :: Reaches(g, s, route, e) && Cost(g, s, route) < INF)
  {
    if route :| Reaches(g, s, route, e) {
      var few := ReachableInFewMoves(g, s, e, route);
      CostBounded(g, s, few, 0);
    }
  }

  // --- The public result -------------------------------------------------------------------

  /** C++ `int(v) / 16`: both conversions round towards zero. */
  function CellCoord(v: real): int { TruncDiv(Truncate(v), 16) }

  /** `length` is that of the cheapest route, 0 when there is none below INF. */
  ghost predicate IsLength(g: Grid, s: int, e: int, length: real)
  {
    if exists route :: Reaches(g, s, route, e) && Cost(g, s, route) < INF
    then exists cost :: IsShortest(g, s, e, cost) && length == cost as real * 1.6
    else length == 0.0
  }

  function Apart(a: int, b: int): nat { if a < b then b - a else a - b }

  /** What a length of zero tells the caller. */
  lemma ZeroMeans(g: Grid, s: int, e: int, length: real)
    requires TollFree(g) && 0 <= s < g.Size() && 14 * g.Size() <= 0x2000_0000
    requires IsLength(g, s, e, length)
    ensures length == 0.0 <==> s == e || !exists route :: Reaches(g, s, route, e)
  {
    NoRouteIffAllDear(g, s, e);
    if exists route :: Reaches(g, s, route, e) {
      var cost :| IsShortest(g, s, e, cost) && length == cost as real * 1.6;
      FreeOnlyAtHome(g, s, e, cost);
    } else if s == e {
      assert Reaches(g, s, [], e);
    }
  }

  /** A cell is 16 units wide; coordinates from -16 to 16, both excluded, lie in cell 0. */
  lemma CellCoordIs(v: real)
    ensures var c := CellCoord(v) as real;
            && (v >= 0.0 ==> 16.0 * c <= v < 16.0 * c + 16.0)
            && (v < 0.0 ==> 16.0 * c - 16.0 < v <= 16.0 * c)
  {
    var t := Truncate(v);
    if v >= 0.0 {
      assert 16 * (t / 16) <= t < 16 * (t / 16) + 16;
    } else {
      var u := (-v).Floor;
      assert 16 * (u / 16) <= u < 16 * (u / 16) + 16 && t == -u;
      if u == 0 { assert CellCoord(v) == 0; } else { assert CellCoord(v) == -(u / 16); }
    }
  }

  /** The answer of a search over two by two cells: the number of the diagonal move, of the way
      round by the one cell that fits, or none. */
  lemma SmallAnswer(fits: (int, int) -> bool, x: int, z: int, cost: int)
    requires 0 <= x < 2 && 0 <= z < 2
    requires var g, s, e := Open(2, 2, fits), Index(2, x, z), Index(2, 1 - x, 1 - z);
             && (cost >= 0 ==> cost < INF && IsShortest(g, s, e, cost))
             && (cost < 0 ==> forall route :: Reaches(g, s, route, e) ==> INF <= Cost(g, s, route))
    ensures var beside, below, there := fits(1 - x, z), fits(x, 1 - z), fits(1 - x, 1 - z);
            && (there && beside && below ==> cost == 14)
            && (there && beside != below ==> cost == 20)
            && (!there || (!beside && !below) ==> cost < 0)
  {
    var g, s, e := Open(2, 2, fits), Index(2, x, z), Index(2, 1 - x, 1 - z);
    FreeGround.CornerToCorner(g, x, z, cost);
    FreeGround.CornerToCorner(g, x, z, 14);
    FreeGround.CornerToCorner(g, x, z, 20);
  }

  /** The length of a route on open ground: 22.4 units for a diagonal move, 16 for a straight one. */
  function OpenLength(dx: nat, dz: nat): real
  {
    var diagonals, straights := if dx < dz then dx else dz, if dx < dz then dz - dx else dx - dz;
    if 14 * diagonals + 10 * straights >= 0x2000_0000 then 0.0
    else 22.4 * diagonals as real + 16.0 * straights as real
  }

  /** The answer of a search on open ground. */
  lemma OpenAnswer(g: Grid, x: int, z: int, ex: int, ez: int, cost: int)
    requires TollFree(g) && g.On(x, z) && g.On(ex, ez) && forall i, j :: g.On(i, j) ==> g.fits(i, j)
    requires var s, e := Index(g.w, x, z), Index(g.w, ex, ez);
             && (cost >= 0 ==> cost < INF && IsShortest(g, s, e, cost))
             && (cost < 0 ==> forall route :: Reaches(g, s, route, e) ==> INF <= Cost(g, s, route))
    ensures OpenLength(Apart(x, ex), Apart(z, ez)) == if cost < 0 then 0.0 else cost as real * 1.6
  {
    var s, e := Index(g.w, x, z), Index(g.w, ex, ez);
    IndexOf(g.w, g.h, x, z);
    IndexOf(g.w, g.h, ex, ez);
    var dx, dz := Apart(x, ex), Apart(z, ez);
    var least := if dx < dz then 14 * dx + 10 * (dz - dx) else 14 * dz + 10 * (dx - dz);
    FreeGround.FreeCost(g, s, e, cost);
    FreeGround.FreeCost(g, s, e, least);
    assert IsShortest(g, s, e, least);
    if cost < 0 {
      var route :| Reaches(g, s, route, e) && Cost(g, s, route) == least;
    }
  }

  /** The length between two cells of the grid. */
  method GridLength(g: Grid, x: int, z: int, ex: int, ez: int) returns (length: real)
    requires TollFree(g) && g.On(x, z) && g.On(ex, ez)
    ensures IsLength(g, Index(g.w, x, z), Index(g.w, ex, ez), length)
    ensures (forall i, j :: g.On(i, j) ==> g.fits(i, j)) ==> length == OpenLength(Apart(x, ex), Apart(z, ez))
  {
    IndexOf(g.w, g.h, x, z);
    IndexOf(g.w, g.h, ex, ez);
    var cost := Search(g, z * g.w + x, ez * g.w + ex);
    if forall i, j :: g.On(i, j) ==> g.fits(i, j) { OpenAnswer(g, x, z, ex, ez, cost); }
    if cost < 0 { return 0.0; }
    return cost as real * 1.6;
  }

  /** The route length in world units; 0 when an end is off the grid or nothing leads
      from one to the other. */
  method RouteLength(w: nat, h: nat, fits: (int, int) -> bool, sx: real, sz: real, gx: real, gz: real)
    returns (length: real)
    ensures var g := Open(w, h, fits);
            var x, z, ex, ez := CellCoord(sx), CellCoord(sz), CellCoord(gx), CellCoord(gz);
            if g.On(x, z) && g.On(ex, ez)
            then IsLength(g, Index(w, x, z), Index(w, ex, ez), length)
                 && ((forall i, j :: g.On(i, j) ==> fits(i, j)) ==> length == OpenLength(Apart(x, ex), Apart(z, ez)))
            else length == 0.0
  {
    if w == 0 || h == 0 { return 0.0; }
    var x, z, ex, ez := CellCoord(sx), CellCoord(sz), CellCoord(gx), CellCoord(gz);
    if x < 0 || z < 0 || ex < 0 || ez < 0 || x >= w || z >= h || ex >= w || ez >= h { return 0.0; }
    length := GridLength(Open(w, h, fits), x, z, ex, ez);
  }
}
