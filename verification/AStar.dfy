/** The simulation's resumable A* (src/sim/pathsearch.cpp) as rounds on a state: each round
    takes the first entry from the open list and, unless it is stale, closes its cell and
    looks at the eight neighbours. */
module AStar {
  import opened Basics
  import opened Counting
  import opened GridIndex
  import opened OpenList
  import opened Routes

  /** Cells graded below the threshold are refused; an occupied one costs extra. */
  const THRESHOLD := 4
  const OCCUPIED := 4
  const OCCUPIED_TOLL := 40
  const WORK_PER_ROUND := 9

  /** The compass in rotational order. */
  const DIRS: seq<Move> := [(0, -1), (-1, -1), (-1, 0), (-1, 1), (0, 1), (1, 1), (1, 0), (1, -1)]

  lemma AllDirs(m: Move) returns (k: nat)
    ensures k < 8 && DIRS[k] == m
  {
    k := if m == (0, -1) then 0 else if m == (-1, -1) then 1 else if m == (-1, 0) then 2 else if m == (-1, 1) then 3
         else if m == (0, 1) then 4 else if m == (1, 1) then 5 else if m == (1, 0) then 6 else 7;
  }

  /** The grid that a grading of cells describes. */
  function Graded(w: nat, h: nat, grade: (int, int) -> int): Grid
  {
    Grid(w, h, (x, z) => grade(x, z) >= THRESHOLD, (x, z) => if grade(x, z) == OCCUPIED then OCCUPIED_TOLL else 0)
  }

  // --- The estimate -----------------------------------------------------------------------------

  function Abs(v: int): nat { if v < 0 then -v else v }

  /** The cost of the way over free ground, in the units of the moves. */
  function Octile(dx: int, dz: int): nat
  {
    var a, b := Abs(dx), Abs(dz);
    var lo, hi := if a < b then a else b, if a < b then b else a;
    14 * lo + 10 * (hi - lo)
  }

  /** What is at least ahead from cell `c` to cell `e`. */
  function Ahead(g: Grid, c: int, e: int): nat
    requires g.w > 0
  {
    Octile(Col(g.w, e) - Col(g.w, c), Row(g.w, e) - Row(g.w, c))
  }

  lemma OctileStep(dx: int, dz: int, m: Move)
    ensures Octile(dx, dz) <= Price(m) + Octile(dx - m.0, dz - m.1)
  {
    var a, b, a', b' := Abs(dx), Abs(dz), Abs(dx - m.0), Abs(dz - m.1);
    assert a <= a' + Abs(m.0) && b <= b' + Abs(m.1);
  }

  /** The estimate never drops by more than a move costs. */
  lemma Consistent(g: Grid, c: int, m: Move, e: int)
    requires g.w > 0 && StepTo(g, c, m) >= 0
    ensures Ahead(g, c, e) <= StepPrice(g, c, m) + Ahead(g, StepTo(g, c, m), e)
  {
    StepOnGrid(g, c, m);
    var dx, dz := Col(g.w, e) - Col(g.w, c), Row(g.w, e) - Row(g.w, c);
    OctileStep(dx, dz, m);
    assert Ahead(g, StepTo(g, c, m), e) == Octile(dx - m.0, dz - m.1);
  }

  /** So it never exceeds the cost of any route: it is admissible. */
  lemma {:induction false} Admissible(g: Grid, s: int, route: Route, e: int)
    requires g.w > 0 && Reaches(g, s, route, e)
    ensures Ahead(g, s, e) <= Cost(g, s, route)
  {
    AheadAlong(g, s, route, e);
  }

  lemma {:induction false} AheadAlong(g: Grid, s: int, route: Route, e: int)
    requires g.w > 0 && End(g, s, route) >= 0
    ensures Ahead(g, s, e) <= Cost(g, s, route) + Ahead(g, End(g, s, route), e)
  {
    if route != [] {
      var front := route[..|route| - 1];
      AheadAlong(g, s, front, e);
      Consistent(g, End(g, s, front), route[|route| - 1], e);
    }
  }

  // --- States and rounds ------------------------------------------------------------------------

  datatype Problem = Problem(g: Grid, s: int, e: int)
  {
    predicate Valid() { g.w > 0 && 0 <= s < g.Size() && 0 <= e < g.Size() }

    /** The entry under which cell `c` waits when it is reached at cost `cost`. */
    function Waiting(c: int, cost: int): Entry
      requires g.w > 0
    {
      Entry(cost + Ahead(g, c, e), c)
    }
  }

  datatype Phase = Running | Arrived | Failed

  /** Costs found (-1 for none), closed cells, the moves cells were entered by, the open list. */
  datatype State = State(score: seq<int>, closed: seq<bool>, from: seq<Option<Move>>, open: multiset<Entry>,
                         visited: nat, work: nat, phase: Phase)
  {
    predicate Sized(n: nat) { |score| == |closed| == |from| == n }
  }

  lemma {:induction false} FirstExists(all: multiset<Entry>)
    requires all != multiset{}
    ensures exists e :: IsFirst(e, all)
    decreases |all|
  {
    var x :| x in all;
    var rest := all - multiset{x};
    if rest == multiset{} {
      assert forall y :: y in all ==> y == x || y in rest;
      assert IsFirst(x, all);
    } else {
      FirstExists(rest);
      var e :| IsFirst(e, rest);
      assert forall y :: y in all ==> y == x || y in rest;
      assert IsFirst(if Before(x, e) then x else e, all);
    }
  }

  ghost function First(all: multiset<Entry>): (e: Entry)
    requires all != multiset{}
    ensures IsFirst(e, all)
  {
    FirstExists(all);
    var e :| IsFirst(e, all);
    e
  }

  /** Look at one neighbour of cell `c`. */
  function Improve(p: Problem, v: State, c: int, m: Move): (r: State)
    requires p.Valid() && v.Sized(p.g.Size()) && 0 <= c < p.g.Size()
    ensures r.Sized(p.g.Size())
  {
    var d := StepTo(p.g, c, m);
    StepOnGrid(p.g, c, m);
    if d < 0 then v
    else
      var cost := v.score[c] + StepPrice(p.g, c, m);
      if v.score[d] >= 0 && cost >= v.score[d] then v
      else v.(score := v.score[d := cost], from := v.from[d := Some(m)], open := v.open + multiset{p.Waiting(d, cost)})
  }

  /** Look at the first `k` neighbours. */
  function Expand(p: Problem, v: State, c: int, k: nat): (r: State)
    requires p.Valid() && v.Sized(p.g.Size()) && 0 <= c < p.g.Size() && k <= 8
    ensures r.Sized(p.g.Size())
  {
    if k == 0 then v else Improve(p, Expand(p, v, c, k - 1), c, DIRS[k - 1])
  }

  function Close(v: State, c: int): State
    requires 0 <= c < |v.closed|
  {
    v.(closed := v.closed[c := true], visited := v.visited + 1)
  }

  /** What becomes of the state when `top` has been taken from the open list. */
  function Taken(p: Problem, v: State, top: Entry): (r: State)
    requires p.Valid() && v.Sized(p.g.Size()) && 0 <= top.cell < p.g.Size()
    ensures r.Sized(p.g.Size())
  {
    if v.closed[top.cell] then v
    else if top.cell == p.e then Close(v, top.cell).(phase := Arrived)
    else Expand(p, Close(v, top.cell), top.cell, 8)
  }

  ghost function ClosedCells(v: State): set<int> { set c | 0 <= c < |v.closed| && v.closed[c] }

  /** What a round needs: entries name reached cells, and visits count closed cells. */
  ghost predicate Sane(p: Problem, v: State)
  {
    && p.Valid() && v.Sized(p.g.Size())
    && (forall x :: x in v.open ==> 0 <= x.cell < p.g.Size() && v.score[x.cell] >= 0)
    && v.visited == |ClosedCells(v)|
  }

  function Charged(v: State): State { v.(work := v.work + WORK_PER_ROUND) }

  ghost function Popped(v: State): State
    requires v.open != multiset{}
  {
    v.(open := v.open - multiset{First(v.open)})
  }

  /** One round. */
  ghost function Round(p: Problem, v: State): (r: State)
    requires Sane(p, v)
    ensures r.Sized(p.g.Size())
  {
    if v.open == multiset{} then Charged(v).(phase := Failed)
    else Taken(p, Popped(Charged(v)), First(v.open))
  }

  /** A move leads to another cell, so the cost of the cell it starts from stays. */
  lemma ImproveSane(p: Problem, v: State, c: int, m: Move)
    requires Sane(p, v) && 0 <= c < p.g.Size() && v.score[c] >= 0
    ensures var r := Improve(p, v, c, m);
            Sane(p, r) && r.score[c] == v.score[c] && r.closed == v.closed && r.work == v.work && r.phase == v.phase
  {
    StepOnGrid(p.g, c, m);
    assert ClosedCells(Improve(p, v, c, m)) == ClosedCells(v);
  }

  lemma {:induction false} ExpandSane(p: Problem, v: State, c: int, k: nat)
    requires Sane(p, v) && 0 <= c < p.g.Size() && v.score[c] >= 0 && k <= 8
    ensures var r := Expand(p, v, c, k);
            Sane(p, r) && r.score[c] == v.score[c] && r.closed == v.closed && r.work == v.work && r.phase == v.phase
  {
    if k > 0 {
      ExpandSane(p, v, c, k - 1);
      ImproveSane(p, Expand(p, v, c, k - 1), c, DIRS[k - 1]);
    }
  }

  lemma CloseSane(p: Problem, v: State, c: int)
    requires Sane(p, v) && 0 <= c < p.g.Size() && !v.closed[c]
    ensures Sane(p, Close(v, c))
  {
    assert ClosedCells(Close(v, c)) == ClosedCells(v) + {c};
  }

  lemma TakenSane(p: Problem, v: State, top: Entry)
    requires Sane(p, v) && 0 <= top.cell < p.g.Size() && v.score[top.cell] >= 0
    ensures Sane(p, Taken(p, v, top)) && Taken(p, v, top).work == v.work
  {
    if !v.closed[top.cell] {
      CloseSane(p, v, top.cell);
      if top.cell == p.e {
        assert ClosedCells(Taken(p, v, top)) == ClosedCells(Close(v, top.cell));
      } else {
        ExpandSane(p, Close(v, top.cell), top.cell, 8);
      }
    }
  }

  lemma SameSane(p: Problem, v: State, r: State)
    requires Sane(p, v) && r.score == v.score && r.closed == v.closed && r.from == v.from && r.visited == v.visited
             && r.open <= v.open
    ensures Sane(p, r)
  {
    assert ClosedCells(r) == ClosedCells(v);
  }

  lemma RoundSane(p: Problem, v: State)
    requires Sane(p, v)
    ensures Sane(p, Round(p, v)) && Round(p, v).work == v.work + WORK_PER_ROUND
  {
    if v.open == multiset{} {
      SameSane(p, v, Charged(v).(phase := Failed));
    } else {
      var top := First(v.open);
      SameSane(p, v, Popped(Charged(v)));
      TakenSane(p, Popped(Charged(v)), top);
    }
  }

  lemma VisitsBounded(p: Problem, v: State)
    requires Sane(p, v)
    ensures v.visited <= p.g.Size()
  {
    SubsetSize(ClosedCells(v), Below(p.g.Size()));
  }

  /** Rounds of problem `p`, as a step on states. */
  type Stepping = State -> State

  ghost function Stepper(p: Problem): Stepping { (v: State) => if Sane(p, v) then Round(p, v) else v }

  /** Steps until the work done reaches the quantum or the search is over. */
  ghost function Until(step: Stepping, v: State, quantum: int): State
    decreases quantum - v.work
  {
    if v.phase != Running || v.work >= quantum then v
    else if step(v).work <= v.work then step(v)
    else Until(step, step(v), quantum)
  }

  lemma UntilOver(step: Stepping, v: State, quantum: int)
    requires v.phase != Running || v.work >= quantum
    ensures Until(step, v, quantum) == v
  {
  }

  /** One more round on the way. */
  lemma UntilRound(p: Problem, v: State, quantum: int)
    requires Sane(p, v) && v.phase == Running && v.work < quantum
    ensures Stepper(p)(v) == Round(p, v) && Sane(p, Round(p, v)) && Round(p, v).work == v.work + WORK_PER_ROUND
    ensures Until(Stepper(p), v, quantum) == Until(Stepper(p), Round(p, v), quantum) && v.visited <= p.g.Size()
  {
    RoundSane(p, v);
    VisitsBounded(p, v);
  }

  lemma {:induction false} UntilSane(p: Problem, v: State, quantum: int)
    requires Sane(p, v)
    ensures Sane(p, Until(Stepper(p), v, quantum))
    decreases quantum - v.work
  {
    if v.phase == Running && v.work < quantum {
      UntilRound(p, v, quantum);
      UntilSane(p, Round(p, v), quantum);
    }
  }

  /** Cutting a run into quanta changes nothing: going on after an earlier stop leads to the
      same state as not stopping. */
  lemma {:induction false} QuantaDoNotMatter(p: Problem, v: State, q: int, q': int)
    requires Sane(p, v) && q <= q'
    ensures Until(Stepper(p), Until(Stepper(p), v, q), q') == Until(Stepper(p), v, q')
    decreases q - v.work
  {
    if v.phase == Running && v.work < q {
      UntilRound(p, v, q);
      UntilRound(p, v, q');
      QuantaDoNotMatter(p, Round(p, v), q, q');
    }
  }

  // --- What every round keeps ---------------------------------------------------------------------

  ghost predicate Scored(p: Problem, v: State, c: int)
    requires 0 <= c < |v.score|
  {
    && v.score[c] >= -1
    && (v.score[c] >= 0 ==> exists route :: Reaches(p.g, p.s, route, c) && Cost(p.g, p.s, route) == v.score[c])
  }

  ghost predicate Settled(p: Problem, v: State, c: int)
    requires 0 <= c < |v.score|
  {
    v.score[c] >= 0 && forall route :: Reaches(p.g, p.s, route, c) ==> v.score[c] <= Cost(p.g, p.s, route)
  }

  predicate Relaxed(p: Problem, v: State, c: int, m: Move)
    requires 0 <= c < |v.score|
  {
    0 <= StepTo(p.g, c, m) < |v.score| ==>
      0 <= v.score[StepTo(p.g, c, m)] <= v.score[c] + StepPrice(p.g, c, m)
  }

  /** A cell that is reached and not closed waits in the open list under its cost. */
  predicate Waits(p: Problem, v: State, c: int)
    requires p.g.w > 0 && 0 <= c < |v.score| == |v.closed|
  {
    v.score[c] >= 0 && !v.closed[c] ==> p.Waiting(c, v.score[c]) in v.open
  }

  /** An entry of the open list belongs to a reached cell and does not flatter it. */
  predicate Sound(p: Problem, v: State, x: Entry)
    requires p.g.w > 0
  {
    0 <= x.cell < |v.score| && v.score[x.cell] >= 0 && x.f >= v.score[x.cell] + Ahead(p.g, x.cell, p.e)
  }

  /** The cell a breadcrumb points back to. */
  function Back(g: Grid, c: int, m: Move): int
    requires g.w > 0
  {
    Index(g.w, Col(g.w, c) - m.0, Row(g.w, c) - m.1)
  }

  /** The breadcrumb of a reached cell names the closed cell through which it was reached. */
  predicate Crumb(p: Problem, v: State, c: int)
    requires p.g.w > 0 && v.Sized(p.g.Size()) && 0 <= c < |v.score|
  {
    v.score[c] >= 0 && c != p.s ==>
      && v.from[c].Some?
      && var m := v.from[c].value;
         var b := Back(p.g, c, m);
         0 <= b < |v.score| && v.closed[b] && StepTo(p.g, b, m) == c && v.score[c] == v.score[b] + StepPrice(p.g, b, m)
  }

  /** The invariant; the neighbours of cell `but` are still being looked at. */
  ghost predicate Inv(p: Problem, v: State, but: int)
  {
    && p.Valid() && v.Sized(p.g.Size()) && v.score[p.s] == 0
    && (forall c :: 0 <= c < |v.score| ==> Scored(p, v, c))
    && (forall c :: 0 <= c < |v.score| && v.closed[c] ==> Settled(p, v, c))
    && (forall c, m: Move :: 0 <= c < |v.score| && v.closed[c] && c != but ==> Relaxed(p, v, c, m))
    && (forall c :: 0 <= c < |v.score| ==> Waits(p, v, c))
    && (forall x :: x in v.open ==> Sound(p, v, x))
    && (forall c :: 0 <= c < |v.score| ==> Crumb(p, v, c))
    && v.visited == |ClosedCells(v)|
  }

  /** Any route ends in a closed cell at no less than its cost, or some waiting cell has an
      estimate that is no larger than the route's cost and what is ahead of its end. */
  lemma {:induction false} Frontier(p: Problem, v: State, route: Route) returns (c: int)
    requires Inv(p, v, -1) && End(p.g, p.s, route) >= 0
    ensures 0 <= c < |v.score| && v.score[c] >= 0
    ensures v.closed[c] ==> c == End(p.g, p.s, route)
    ensures v.score[c] + Ahead(p.g, c, p.e) <= Cost(p.g, p.s, route) + Ahead(p.g, End(p.g, p.s, route), p.e)
  {
    if route == [] {
      c := p.s;
    } else {
      var front, m := route[..|route| - 1], route[|route| - 1];
      c := Frontier(p, v, front);
      Consistent(p.g, End(p.g, p.s, front), m, p.e);
      if v.closed[c] {
        StepOnGrid(p.g, c, m);
        assert Relaxed(p, v, c, m);
        c := StepTo(p.g, c, m);
      }
    }
  }

  // --- Taking an entry ----------------------------------------------------------------------------

  /** The first entry of the open list, unless stale, names a cell whose cost is final. */
  lemma FirstIsFinal(p: Problem, v: State, top: Entry)
    requires Inv(p, v, -1) && IsFirst(top, v.open) && 0 <= top.cell < |v.score| && !v.closed[top.cell]
    ensures Settled(p, v, top.cell)
  {
    var c := top.cell;
    assert Sound(p, v, top) && Waits(p, v, c);
    forall route | Reaches(p.g, p.s, route, c) ensures v.score[c] <= Cost(p.g, p.s, route) {
      var f := Frontier(p, v, route);
      assert Waits(p, v, f);
    }
  }

  /** Dropping a stale entry keeps the invariant. */
  lemma DropKeeps(p: Problem, v: State, top: Entry)
    requires Inv(p, v, -1) && top in v.open && 0 <= top.cell < |v.score| && v.closed[top.cell]
    ensures Inv(p, v.(open := v.open - multiset{top}), -1)
  {
    var r := v.(open := v.open - multiset{top});
    SameScores(p, v, r, -1, -1);
    forall c | 0 <= c < |v.score| ensures Waits(p, r, c) {
      assert Waits(p, v, c);
    }
    forall x | x in r.open ensures Sound(p, r, x) {
      assert Sound(p, v, x);
    }
    assert ClosedCells(r) == ClosedCells(v);
  }

  /** What depends on the scores alone is the same in two states with the same scores, moves
      and closed cells. */
  lemma SameScores(p: Problem, v: State, r: State, but: int, but': int)
    requires Inv(p, v, but) && r.score == v.score && r.from == v.from && r.closed == v.closed
             && (but == but' || but == -1)
    ensures forall c :: 0 <= c < |r.score| ==> Scored(p, r, c) && Crumb(p, r, c)
    ensures forall c :: 0 <= c < |r.score| && r.closed[c] ==> Settled(p, r, c)
    ensures forall c, m: Move :: 0 <= c < |r.score| && r.closed[c] && c != but' ==> Relaxed(p, r, c, m)
  {
    forall c | 0 <= c < |r.score| ensures Scored(p, r, c) && Crumb(p, r, c) {
      assert Scored(p, v, c) && Crumb(p, v, c);
    }
    forall c | 0 <= c < |r.score| && r.closed[c] ensures Settled(p, r, c) {
      assert Settled(p, v, c);
    }
    forall c, m: Move | 0 <= c < |r.score| && r.closed[c] && c != but' ensures Relaxed(p, r, c, m) {
      assert Relaxed(p, v, c, m);
    }
  }

  /** Closing the cell of the first entry keeps the invariant; its neighbours come next. */
  lemma CloseKeeps(p: Problem, v: State, top: Entry)
    requires Inv(p, v, -1) && IsFirst(top, v.open) && 0 <= top.cell < |v.score| && !v.closed[top.cell]
    ensures Inv(p, Close(v.(open := v.open - multiset{top}), top.cell), top.cell)
  {
    var c0 := top.cell;
    var r := Close(v.(open := v.open - multiset{top}), c0);
    ClosedScores(p, v, top, r);
    forall c | 0 <= c < |r.score| ensures Waits(p, r, c) {
      assert Waits(p, v, c);
    }
    forall x | x in r.open ensures Sound(p, r, x) {
      assert Sound(p, v, x);
    }
    assert ClosedCells(r) == ClosedCells(v) + {c0};
  }

  lemma ClosedScores(p: Problem, v: State, top: Entry, r: State)
    requires Inv(p, v, -1) && IsFirst(top, v.open) && 0 <= top.cell < |v.score| && !v.closed[top.cell]
    requires r.score == v.score && r.from == v.from && r.closed == v.closed[top.cell := true]
    ensures forall c :: 0 <= c < |r.score| ==> Scored(p, r, c) && Crumb(p, r, c)
    ensures forall c :: 0 <= c < |r.score| && r.closed[c] ==> Settled(p, r, c)
    ensures forall c, m: Move :: 0 <= c < |r.score| && r.closed[c] && c != top.cell ==> Relaxed(p, r, c, m)
  {
    FirstIsFinal(p, v, top);
    forall c | 0 <= c < |r.score| ensures Scored(p, r, c) && Crumb(p, r, c) {
      assert Scored(p, v, c) && Crumb(p, v, c);
    }
    forall c | 0 <= c < |r.score| && r.closed[c] ensures Settled(p, r, c) {
      assert Settled(p, v, c);
    }
    forall c, m: Move | 0 <= c < |r.score| && r.closed[c] && c != top.cell ensures Relaxed(p, r, c, m) {
      assert Relaxed(p, v, c, m);
    }
  }

  // --- Looking at the neighbours --------------------------------------------------------------------

  /** A cell that can be reached more cheaply than so far is not closed. */
  lemma NotClosed(p: Problem, v: State, c: int, m: Move) returns (route: Route)
    requires Inv(p, v, c) && 0 <= c < |v.score| && v.closed[c] && StepTo(p.g, c, m) >= 0
    ensures var d, cost := StepTo(p.g, c, m), v.score[c] + StepPrice(p.g, c, m);
            && 0 <= d < |v.score| && Reaches(p.g, p.s, route, d) && Cost(p.g, p.s, route) == cost
            && (v.closed[d] ==> v.score[d] <= cost)
  {
    StepOnGrid(p.g, c, m);
    assert Scored(p, v, c) && Settled(p, v, c);
    var front :| Reaches(p.g, p.s, front, c) && Cost(p.g, p.s, front) == v.score[c];
    ExtendRoute(p.g, p.s, front, c, m);
    route := front + [m];
    assert v.closed[StepTo(p.g, c, m)] ==> Settled(p, v, StepTo(p.g, c, m));
  }

  /** The breadcrumb laid by a move points back to where it came from. */
  lemma BackFrom(g: Grid, c: int, m: Move)
    requires g.w > 0 && StepTo(g, c, m) >= 0
    ensures Back(g, StepTo(g, c, m), m) == c
  {
    StepOnGrid(g, c, m);
    CellOf(g.w, g.h, c);
  }

  /** An improvement of cell `d` to `cost` through closed cell `c`. */
  function Improved(p: Problem, v: State, d: int, cost: int, m: Move): (r: State)
    requires p.g.w > 0 && 0 <= d < |v.score| == |v.from|
  {
    v.(score := v.score[d := cost], from := v.from[d := Some(m)], open := v.open + multiset{p.Waiting(d, cost)})
  }

  lemma ImprovedScores(p: Problem, v: State, c: int, m: Move, d: int, cost: int, route: Route)
    requires Inv(p, v, c) && 0 <= c < |v.score| && v.closed[c] && 0 <= d < |v.score| && !v.closed[d]
    requires d == StepTo(p.g, c, m) && cost == v.score[c] + StepPrice(p.g, c, m)
    requires v.score[d] < 0 || cost < v.score[d]
    requires Reaches(p.g, p.s, route, d) && Cost(p.g, p.s, route) == cost
    ensures var r := Improved(p, v, d, cost, m);
            && r.score[p.s] == 0
            && (forall x :: 0 <= x < |r.score| ==> Scored(p, r, x))
            && (forall x :: 0 <= x < |r.score| && r.closed[x] ==> Settled(p, r, x))
            && (forall x, j: Move :: 0 <= x < |r.score| && r.closed[x] && (x == c ==> Relaxed(p, v, x, j)) ==>
                Relaxed(p, r, x, j))
  {
    var r := Improved(p, v, d, cost, m);
    forall x | 0 <= x < |r.score| ensures Scored(p, r, x) {
      assert Scored(p, v, x);
    }
    forall x | 0 <= x < |r.score| && r.closed[x] ensures Settled(p, r, x) {
      assert Settled(p, v, x);
    }
    assert Settled(p, v, c);
    forall x, j: Move | 0 <= x < |r.score| && r.closed[x] && (x == c ==> Relaxed(p, v, x, j))
      ensures Relaxed(p, r, x, j)
    {
      assert Relaxed(p, v, x, j);
    }
  }

  lemma ImprovedOpen(p: Problem, v: State, c: int, m: Move, d: int, cost: int)
    requires Inv(p, v, c) && 0 <= c < |v.score| && v.closed[c] && 0 <= d < |v.score| && !v.closed[d]
    requires d == StepTo(p.g, c, m) && cost == v.score[c] + StepPrice(p.g, c, m) && cost >= 0
    requires v.score[d] < 0 || cost < v.score[d]
    ensures var r := Improved(p, v, d, cost, m);
            && (forall x :: 0 <= x < |r.score| ==> Waits(p, r, x) && Crumb(p, r, x))
            && (forall x :: x in r.open ==> Sound(p, r, x))
  {
    var r := Improved(p, v, d, cost, m);
    BackFrom(p.g, c, m);
    forall x | 0 <= x < |r.score| ensures Waits(p, r, x) && Crumb(p, r, x) {
      assert Waits(p, v, x) && Crumb(p, v, x);
    }
    forall x | x in r.open ensures Sound(p, r, x) {
      if x in v.open { assert Sound(p, v, x); }
    }
  }

  /** Looking at one neighbour keeps the invariant; the move is relaxed afterwards and what
      was relaxed stays so. */
  lemma ImproveKeeps(p: Problem, v: State, c: int, m: Move)
    requires Inv(p, v, c) && 0 <= c < |v.score| && v.closed[c]
    ensures var r := Improve(p, v, c, m);
            && Inv(p, r, c) && r.closed == v.closed && r.score[c] == v.score[c] && Relaxed(p, r, c, m)
            && r.visited == v.visited && r.work == v.work && r.phase == v.phase && |r.open| <= |v.open| + 1
            && forall j: Move :: Relaxed(p, v, c, j) ==> Relaxed(p, r, c, j)
  {
    var d := StepTo(p.g, c, m);
    StepOnGrid(p.g, c, m);
    assert Settled(p, v, c);
    if d >= 0 {
      var cost := v.score[c] + StepPrice(p.g, c, m);
      var route := NotClosed(p, v, c, m);
      if v.score[d] < 0 || cost < v.score[d] {
        ImprovedScores(p, v, c, m, d, cost, route);
        ImprovedOpen(p, v, c, m, d, cost);
        ImprovedKeeps(p, v, c, m, d, cost);
      }
    }
  }

  lemma ImprovedKeeps(p: Problem, v: State, c: int, m: Move, d: int, cost: int)
    requires Inv(p, v, c) && 0 <= c < |v.score| && v.closed[c] && 0 <= d < |v.score| && d != c
    requires var r := Improved(p, v, d, cost, m);
             && r.score[p.s] == 0
             && (forall x :: 0 <= x < |r.score| ==> Scored(p, r, x) && Waits(p, r, x) && Crumb(p, r, x))
             && (forall x :: 0 <= x < |r.score| && r.closed[x] ==> Settled(p, r, x))
             && (forall x, j: Move :: 0 <= x < |r.score| && r.closed[x] && (x == c ==> Relaxed(p, v, x, j)) ==>
                 Relaxed(p, r, x, j))
             && (forall x :: x in r.open ==> Sound(p, r, x))
    ensures var r := Improved(p, v, d, cost, m);
            Inv(p, r, c) && forall j: Move :: Relaxed(p, v, c, j) ==> Relaxed(p, r, c, j)
  {
    assert ClosedCells(Improved(p, v, d, cost, m)) == ClosedCells(v);
  }

  /** What holds after the first `k` neighbours of `c` have been looked at, starting from `v`. */
  ghost predicate LookedAt(p: Problem, v: State, r: State, c: int, k: nat)
    requires p.Valid() && 0 <= c < p.g.Size() && k <= 8
  {
    && Inv(p, r, c) && r.closed == v.closed
    && r.visited == v.visited && r.work == v.work && r.phase == v.phase && |r.open| <= |v.open| + k
    && forall j :: 0 <= j < k ==> Relaxed(p, r, c, DIRS[j])
  }

  lemma LookAtNext(p: Problem, v: State, u: State, c: int, k: nat)
    requires p.Valid() && 0 <= c < p.g.Size() && k < 8 && LookedAt(p, v, u, c, k) && |v.closed| == p.g.Size()
             && v.closed[c]
    ensures LookedAt(p, v, Improve(p, u, c, DIRS[k]), c, k + 1)
  {
    ImproveKeeps(p, u, c, DIRS[k]);
  }

  lemma {:induction false} ExpandKeeps(p: Problem, v: State, c: int, k: nat)
    requires Inv(p, v, c) && 0 <= c < |v.score| && v.closed[c] && k <= 8
    ensures LookedAt(p, v, Expand(p, v, c, k), c, k)
  {
    if k > 0 {
      ExpandKeeps(p, v, c, k - 1);
      LookAtNext(p, v, Expand(p, v, c, k - 1), c, k - 1);
    }
  }

  /** When all eight neighbours have been looked at, nothing is left to be done for the cell. */
  lemma ExpandedKeeps(p: Problem, v: State, c: int)
    requires Inv(p, v, c) && 0 <= c < |v.score| && v.closed[c]
    ensures var r := Expand(p, v, c, 8);
            && Inv(p, r, -1) && r.visited == v.visited && r.work == v.work && r.phase == v.phase
            && |r.open| <= |v.open| + 8
  {
    ExpandKeeps(p, v, c, 8);
    var r := Expand(p, v, c, 8);
    forall m: Move ensures Relaxed(p, r, c, m) {
      var k := AllDirs(m);
    }
  }

  // --- The start --------------------------------------------------------------------------------------

  /** Nothing but the start is reached. */
  function Initial(p: Problem, work: nat): (v: State)
    requires p.Valid()
    ensures v.Sized(p.g.Size())
  {
    var n := p.g.Size();
    State(seq(n, c => if c == p.s then 0 else -1), seq(n, c => false), seq(n, c => None), multiset{p.Waiting(p.s, 0)},
          0, work, Running)
  }

  lemma InitialIsGood(p: Problem, work: nat)
    requires p.Valid()
    ensures Proper(p, Initial(p, work))
  {
    var v := Initial(p, work);
    assert Reaches(p.g, p.s, [], p.s);
    assert ClosedCells(v) == {};
  }

  // --- Runs of rounds -------------------------------------------------------------------------------

  /** What holds between rounds. */
  ghost predicate Good(p: Problem, v: State)
  {
    match v.phase
    case Running => Inv(p, v, -1)
    case Arrived => Inv(p, v, p.e) && v.closed[p.e]
    case Failed => Inv(p, v, -1) && v.open == multiset{} && !v.closed[p.e]
  }

  /** Before it arrives, the search has not closed the goal. */
  ghost predicate Underway(p: Problem, v: State) { Good(p, v) && v.phase == Running && !v.closed[p.e] }

  lemma WorkIsFree(p: Problem, v: State, but: int, work: nat, phase: Phase)
    requires Inv(p, v, but)
    ensures Inv(p, v.(work := work, phase := phase), but)
  {
    var r := v.(work := work, phase := phase);
    SameScores(p, v, r, but, but);
    forall c | 0 <= c < |v.score| ensures Waits(p, r, c) { assert Waits(p, v, c); }
    forall x | x in r.open ensures Sound(p, r, x) { assert Sound(p, v, x); }
    assert ClosedCells(r) == ClosedCells(v);
  }

  /** How much is left to do: entries to take and cells to close. */
  function Left(p: Problem, v: State): int { |v.open| + 9 * (p.g.Size() - v.visited) }

  lemma InvSane(p: Problem, v: State, but: int)
    requires Inv(p, v, but)
    ensures Sane(p, v)
  {
    forall x | x in v.open ensures 0 <= x.cell < p.g.Size() && v.score[x.cell] >= 0 { assert Sound(p, v, x); }
  }

  /** Taking an entry keeps the invariant and leaves less to do. */
  lemma TakenKeeps(p: Problem, v: State, top: Entry)
    requires Inv(p, v, -1) && !v.closed[p.e] && v.phase == Running && IsFirst(top, v.open) && 0 <= top.cell < p.g.Size()
    ensures var r := Taken(p, v.(open := v.open - multiset{top}), top);
            && (Underway(p, r) || (Good(p, r) && r.phase == Arrived))
            && r.work == v.work && Left(p, r) < Left(p, v)
  {
    var u := v.(open := v.open - multiset{top});
    if v.closed[top.cell] {
      DropKeeps(p, v, top);
    } else {
      CloseKeeps(p, v, top);
      if top.cell == p.e {
        WorkIsFree(p, Close(u, top.cell), p.e, v.work, Arrived);
      } else {
        ExpandKeeps(p, Close(u, top.cell), top.cell, 8);
        ExpandedKeeps(p, Close(u, top.cell), top.cell);
      }
    }
  }

  /** Every round keeps the invariant, costs the same work, and leaves less to do. */
  lemma RoundKeeps(p: Problem, v: State)
    requires Underway(p, v)
    ensures Sane(p, v)
    ensures var r := Round(p, v);
            && (Underway(p, r) || (Good(p, r) && r.phase != Running))
            && r.work == v.work + 9 && (r.phase == Running ==> Left(p, r) < Left(p, v))
  {
    InvSane(p, v, -1);
    WorkIsFree(p, v, -1, v.work + WORK_PER_ROUND, Running);
    if v.open == multiset{} {
      WorkIsFree(p, v, -1, v.work + WORK_PER_ROUND, Failed);
    } else {
      TakenKeeps(p, Charged(v), First(v.open));
    }
  }

  /** On arrival the cost found is that of a cheapest legal route. */
  lemma ArrivedIsShortest(p: Problem, v: State)
    requires Good(p, v) && v.phase == Arrived
    ensures IsShortest(p.g, p.s, p.e, v.score[p.e])
  {
    assert Scored(p, v, p.e) && Settled(p, v, p.e);
  }

  /** The search gives up exactly when there is no legal route at all. */
  lemma FailedHasNoRoute(p: Problem, v: State)
    requires Good(p, v) && v.phase == Failed
    ensures forall route :: !Reaches(p.g, p.s, route, p.e)
  {
    forall c | 0 <= c < |v.score| && v.score[c] >= 0 ensures v.closed[c] { assert Waits(p, v, c); }
    forall route ensures !Reaches(p.g, p.s, route, p.e) {
      if Reaches(p.g, p.s, route, p.e) {
        var c := Frontier(p, v, route);
      }
    }
  }

  /** A search in order: under way, or over with what that means. */
  ghost predicate Proper(p: Problem, v: State) { p.Valid() && (Underway(p, v) || (Good(p, v) && v.phase != Running)) }

  lemma ProperSane(p: Problem, v: State)
    requires Proper(p, v)
    ensures Sane(p, v)
  {
    match v.phase
    case Running => InvSane(p, v, -1);
    case Arrived => InvSane(p, v, p.e);
    case Failed => InvSane(p, v, -1);
  }

  lemma {:induction false} UntilKeeps(p: Problem, v: State, quantum: int)
    requires Proper(p, v)
    ensures Proper(p, Until(Stepper(p), v, quantum))
    decreases quantum - v.work
  {
    if v.phase == Running && v.work < quantum {
      ProperSane(p, v);
      UntilRound(p, v, quantum);
      RoundKeeps(p, v);
      UntilKeeps(p, Round(p, v), quantum);
    }
  }

  /** The search ends within nine rounds a cell, and a few. */
  lemma {:induction false} EndsInTime(p: Problem, v: State, quantum: int)
    requires Proper(p, v) && quantum >= v.work + WORK_PER_ROUND * (Left(p, v) + 1)
    ensures Until(Stepper(p), v, quantum).phase != Running
    decreases quantum - v.work
  {
    if v.phase == Running {
      ProperSane(p, v);
      VisitsBounded(p, v);
      UntilRound(p, v, quantum);
      RoundKeeps(p, v);
      var r := Round(p, v);
      if r.phase == Running {
        VisitsBounded(p, r);
        EndsInTime(p, r, quantum);
      }
    }
  }

  /** A search that is over has arrived exactly when a legal route exists, and has given up
      exactly when none does. */
  lemma OverDecides(p: Problem, v: State)
    requires Proper(p, v) && v.phase != Running
    ensures v.phase == Arrived <==> exists route :: Reaches(p.g, p.s, route, p.e)
    ensures v.phase == Failed <==> forall route :: !Reaches(p.g, p.s, route, p.e)
  {
    if v.phase == Arrived { ArrivedIsShortest(p, v); } else { FailedHasNoRoute(p, v); }
  }

  /** Given enough work, a search from the start decides whether a legal route exists. */
  lemma SearchDecides(p: Problem, work: nat, quantum: int)
    requires p.Valid() && quantum >= work + 9 * (9 * p.g.Size() + 2)
    ensures Proper(p, Initial(p, work)) && Until(Stepper(p), Initial(p, work), quantum).phase != Running
    ensures Until(Stepper(p), Initial(p, work), quantum).phase == Arrived <==>
            exists route :: Reaches(p.g, p.s, route, p.e)
  {
    InitialIsGood(p, work);
    EndsInTime(p, Initial(p, work), quantum);
    UntilKeeps(p, Initial(p, work), quantum);
    OverDecides(p, Until(Stepper(p), Initial(p, work), quantum));
  }

  // --- Breadcrumbs ----------------------------------------------------------------------------------

  /** The breadcrumbs lead back along a route. */
  predicate Marked(p: Problem, v: State, route: Route)
  {
    route == [] ||
    var c := End(p.g, p.s, route);
    && 0 <= c < |v.from| && c != p.s && v.from[c] == Some(route[|route| - 1])
    && Marked(p, v, route[..|route| - 1])
  }

  /** There is only one way back. */
  lemma {:induction false} OneWayBack(p: Problem, v: State, a: Route, b: Route)
    requires p.Valid() && Marked(p, v, a) && Marked(p, v, b) && End(p.g, p.s, a) == End(p.g, p.s, b)
    ensures a == b
    decreases |a|
  {
    if a != [] && b != [] {
      var c, front, front' := End(p.g, p.s, a), a[..|a| - 1], b[..|b| - 1];
      assert a == front + [a[|a| - 1]] && b == front' + [b[|b| - 1]];
      BackFrom(p.g, End(p.g, p.s, front), a[|a| - 1]);
      BackFrom(p.g, End(p.g, p.s, front'), b[|b| - 1]);
      OneWayBack(p, v, front, front');
    }
  }

  lemma {:induction false} MarkedPart(p: Problem, v: State, route: Route, i: nat)
    requires Marked(p, v, route) && i <= |route|
    ensures Marked(p, v, route[..i])
    decreases |route|
  {
    if i < |route| {
      MarkedPart(p, v, route[..|route| - 1], i);
      assert route[..|route| - 1][..i] == route[..i];
    } else {
      assert route[..i] == route;
    }
  }

  /** No cell comes twice on the way back, so that it cannot run in a circle. */
  lemma TrailHasNoCycle(p: Problem, v: State, route: Route, i: nat, j: nat)
    requires p.Valid() && Marked(p, v, route) && i < j <= |route|
    ensures End(p.g, p.s, route[..i]) != End(p.g, p.s, route[..j])
  {
    MarkedPart(p, v, route, i);
    MarkedPart(p, v, route, j);
    assert |route[..i]| == i && |route[..j]| == j;
    if End(p.g, p.s, route[..i]) == End(p.g, p.s, route[..j]) {
      OneWayBack(p, v, route[..i], route[..j]);
    }
  }

  /** From every reached cell they lead back along a legal route of exactly the cost found. */
  lemma {:induction false} TrailBack(p: Problem, v: State, but: int, c: int) returns (route: Route)
    requires Inv(p, v, but) && 0 <= c < |v.score| && v.score[c] >= 0
    ensures Reaches(p.g, p.s, route, c) && Cost(p.g, p.s, route) == v.score[c] && Marked(p, v, route)
    decreases v.score[c]
  {
    assert Scored(p, v, c) && Crumb(p, v, c);
    if c == p.s {
      route := [];
    } else {
      var m := v.from[c].value;
      var b := Back(p.g, c, m);
      assert Settled(p, v, b);
      var front := TrailBack(p, v, but, b);
      ExtendRoute(p.g, p.s, front, b, m);
      route := front + [m];
      assert route[..|front|] == front;
    }
  }

  /** On arrival the breadcrumbs of the goal lead back along a cheapest legal route. */
  lemma ArrivedTrail(p: Problem, v: State) returns (route: Route)
    requires Proper(p, v) && v.phase == Arrived
    ensures Reaches(p.g, p.s, route, p.e) && IsShortest(p.g, p.s, p.e, Cost(p.g, p.s, route)) && Marked(p, v, route)
  {
    ArrivedIsShortest(p, v);
    assert Settled(p, v, p.e);
    route := TrailBack(p, v, p.e, p.e);
  }
}
