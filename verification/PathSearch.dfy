/** One resumable A* search with its scratch arrays (src/sim/pathsearch.cpp, .h).

    The scratch is stamped with a generation instead of being cleared: an entry whose stamp is
    stale reads as empty.  `Value` is the state that the arrays stand for, and every method is
    proved to carry out a round, or a run of rounds, on that state. */
module PathSearch {
  import opened Basics
  import opened GridIndex
  import opened OpenList
  import opened Routes
  import opened AStar
  import opened Corners

  /** The answer of one call of `Step`. */
  datatype Result = Suspended | Arrival | Failure

  datatype Stage = Init | Search | Done | Broken

  // --- Stamped arrays -----------------------------------------------------------------------------

  /** What a stamped array stands for. */
  function Fresh<T>(stamps: seq<nat>, values: seq<T>, gen: nat, empty: T): (r: seq<T>)
    requires |stamps| == |values|
    ensures |r| == |values|
  {
    seq(|values|, i requires 0 <= i < |values| => if stamps[i] == gen then values[i] else empty)
  }

  /** Writing an entry with the current stamp. */
  lemma FreshWritten<T>(stamps: seq<nat>, values: seq<T>, gen: nat, empty: T, i: nat, x: T)
    requires |stamps| == |values| && i < |values|
    ensures Fresh(stamps[i := gen], values[i := x], gen, empty) == Fresh(stamps, values, gen, empty)[i := x]
  {
  }

  /** Emptying a stale entry changes nothing. */
  lemma FreshTouched<T>(stamps: seq<nat>, values: seq<T>, gen: nat, empty: T, i: nat)
    requires |stamps| == |values| && i < |values| && stamps[i] != gen
    ensures Fresh(stamps[i := gen], values[i := empty], gen, empty) == Fresh(stamps, values, gen, empty)
  {
  }

  /** A new generation makes every entry stale. */
  lemma FreshEmpty<T>(stamps: seq<nat>, values: seq<T>, gen: nat, empty: T)
    requires |stamps| == |values| && forall i :: 0 <= i < |stamps| ==> stamps[i] < gen
    ensures Fresh(stamps, values, gen, empty) == seq(|values|, i => empty)
  {
  }

  /** What is ahead of a neighbour, from the coordinates. */
  lemma AheadOf(p: Problem, w: nat, h: nat, goal: (int, int), c: int, m: Move, id: int)
    requires p.Valid() && p.g.w == w && p.g.h == h && 0 <= goal.0 < w && 0 <= goal.1 < h
             && p.e == Index(w, goal.0, goal.1)
    requires id == StepTo(p.g, c, m) >= 0
    ensures Ahead(p.g, id, p.e) == Octile(goal.0 - (Col(w, c) + m.0), goal.1 - (Row(w, c) + m.1))
  {
    StepOnGrid(p.g, c, m);
    IndexOf(w, h, goal.0, goal.1);
  }

  lemma ImproveIs(p: Problem, v: State, c: int, m: Move, d: int, cost: int)
    requires p.Valid() && v.Sized(p.g.Size()) && 0 <= c < p.g.Size() && 0 <= d < p.g.Size()
    requires d == StepTo(p.g, c, m) && cost == v.score[c] + StepPrice(p.g, c, m)
             && (v.score[d] < 0 || cost < v.score[d])
    ensures Improve(p, v, c, m) ==
            v.(score := v.score[d := cost], from := v.from[d := Some(m)],
               open := v.open + multiset{Entry(cost + Ahead(p.g, d, p.e), d)})
  {
  }

  /** The per-cell scratch of a search.  The byte of flags and the incoming direction of a
      cell are two arrays here: closed or not, and the move it was entered by, if any. */
  class Scratch {
    const n: nat
    const gStamp: array<nat>
    const gScore: array<int>
    const stamp: array<nat>
    const closed: array<bool>
    const from: array<Option<Move>>
    var gen: nat

    constructor (n: nat)
      ensures this.n == n && Valid()
      ensures fresh(gStamp) && fresh(gScore) && fresh(stamp) && fresh(closed) && fresh(from)
    {
      this.n, gen := n, 0;
      gStamp, gScore := new nat[n](i => 0), new int[n](i => 0);
      stamp, closed, from := new nat[n](i => 0), new bool[n](i => false), new Option<Move>[n](i => None);
    }

    /** No stamp is from the future, and known costs are not negative. */
    ghost predicate Valid()
      reads this, gStamp, gScore, stamp
    {
      && gStamp.Length == gScore.Length == stamp.Length == closed.Length == from.Length == n && gStamp != stamp
      && (forall i :: 0 <= i < n ==> gStamp[i] <= gen && stamp[i] <= gen)
      && (forall i :: 0 <= i < n && gStamp[i] == gen ==> gScore[i] >= 0)
    }

    /** Nothing is known about any cell. */
    ghost predicate Empty()
      requires Valid()
      reads this, gStamp, gScore, stamp, closed, from
    {
      Scores() == seq(n, i => -1) && ClosedFlags() == seq(n, i => false) && Crumbs() == seq(n, i => None)
    }

    ghost function Scores(): seq<int>
      requires Valid()
      reads this, gStamp, gScore, stamp
    {
      Fresh(gStamp[..], gScore[..], gen, -1)
    }

    ghost function ClosedFlags(): seq<bool>
      requires Valid()
      reads this, gStamp, gScore, stamp, closed
    {
      Fresh(stamp[..], closed[..], gen, false)
    }

    ghost function Crumbs(): seq<Option<Move>>
      requires Valid()
      reads this, gStamp, gScore, stamp, from
    {
      Fresh(stamp[..], from[..], gen, None)
    }

    /** Start a new generation: everything reads as empty, and nothing is cleared. */
    method Restart()
      requires Valid()
      modifies this
      ensures Valid() && Empty()
    {
      gen := gen + 1;
      FreshEmpty(gStamp[..], gScore[..], gen, -1);
      FreshEmpty(stamp[..], closed[..], gen, false);
      FreshEmpty(stamp[..], from[..], gen, None);
    }

    /** Is the cost of entry `i` known? */
    predicate Known(i: nat)
      requires Valid() && i < n
      reads this, gStamp, gScore, stamp
      ensures Known(i) <==> Scores()[i] >= 0
      ensures Known(i) ==> gScore[i] == Scores()[i]
    {
      gStamp[i] == gen
    }

    /** The move by which cell `i` was entered, if it is marked. */
    function CrumbAt(i: nat): (m: Option<Move>)
      requires Valid() && i < n
      reads this, gStamp, gScore, stamp, from
      ensures m == Crumbs()[i]
    {
      if stamp[i] == gen then from[i] else None
    }

    method SetScore(i: nat, cost: nat)
      requires Valid() && i < n
      modifies gStamp, gScore
      ensures Valid() && Scores() == old(Scores())[i := cost] && ClosedFlags() == old(ClosedFlags())
              && Crumbs() == old(Crumbs())
    {
      FreshWritten(gStamp[..], gScore[..], gen, -1, i, cost);
      gStamp[i] := gen;
      gScore[i] := cost;
    }

    /** Make entry `i` of the flags and breadcrumbs current. */
    method Touch(i: nat)
      requires Valid() && i < n
      modifies stamp, closed, from
      ensures Valid() && stamp[i] == gen && Scores() == old(Scores()) && ClosedFlags() == old(ClosedFlags())
              && Crumbs() == old(Crumbs())
    {
      if stamp[i] != gen {
        FreshTouched(stamp[..], closed[..], gen, false, i);
        FreshTouched(stamp[..], from[..], gen, None, i);
        stamp[i] := gen;
        closed[i] := false;
        from[i] := None;
      }
    }

    method SetFrom(i: nat, m: Move)
      requires Valid() && i < n && stamp[i] == gen
      modifies from
      ensures Valid() && Scores() == old(Scores()) && ClosedFlags() == old(ClosedFlags())
      ensures Crumbs() == old(Crumbs())[i := Some(m)]
    {
      FreshWritten(stamp[..], from[..], gen, None, i, Some(m));
      assert stamp[..][i := gen] == stamp[..];
      from[i] := Some(m);
    }

    method SetClosed(i: nat)
      requires Valid() && i < n && stamp[i] == gen
      modifies closed
      ensures Valid() && Scores() == old(Scores()) && ClosedFlags() == old(ClosedFlags())[i := true]
              && Crumbs() == old(Crumbs())
    {
      FreshWritten(stamp[..], closed[..], gen, false, i, true);
      assert stamp[..][i := gen] == stamp[..];
      closed[i] := true;
    }
  }

  class PathSearch {
    var w: nat
    var h: nat
    var start: (int, int)
    var goal: (int, int)
    var scratch: Scratch
    var open: seq<Entry>
    var visited: nat
    var visitLimit: nat
    var work: nat
    var stage: Stage
    var out: seq<Cell>

    constructor ()
      ensures Valid() && w == 0 && h == 0 && fresh(scratch)
      ensures fresh(scratch.gStamp) && fresh(scratch.gScore) && fresh(scratch.stamp) && fresh(scratch.closed)
              && fresh(scratch.from)
    {
      w, h, start, goal, open := 0, 0, (0, 0), (0, 0), [];
      visited, visitLimit, work, stage, out := 0, 20000, 0, Init, [];
      scratch := new Scratch(0);
    }

    ghost predicate Valid()
      reads this, scratch, scratch.gStamp, scratch.gScore, scratch.stamp
    {
      scratch.Valid() && scratch.n == w * h && IsHeap(open)
    }

    ghost function PhaseOf(): Phase
      reads this
    {
      match stage case Init => Running case Search => Running case Done => Arrived case Broken => Failed
    }

    /** The state that the fields stand for. */
    ghost function Value(): State
      requires Valid()
      reads this, scratch, scratch.gStamp, scratch.gScore, scratch.stamp, scratch.closed, scratch.from
    {
      State(scratch.Scores(), scratch.ClosedFlags(), scratch.Crumbs(), multiset(open), visited, work, PhaseOf())
    }

    predicate Inside(c: (int, int))
      reads this`w, this`h
    {
      0 <= c.0 < w && 0 <= c.1 < h
    }

    /** A search that has been reset and given two ends on the map is ready to be stepped. */
    lemma ReadyAfterReset(p: Problem)
      requires Valid() && scratch.Empty() && open == [] && visited == 0 && stage == Init && Inside(start)
               && Inside(goal)
      requires p.g.w == w && p.g.h == h && p.s == Index(w, start.0, start.1) && p.e == Index(w, goal.0, goal.1)
      ensures Ongoing(p) && Proper(p, Now(p))
    {
      IndexOf(w, h, start.0, start.1);
      IndexOf(w, h, goal.0, goal.1);
      InitialIsGood(p, work);
      ProperSane(p, Initial(p, work));
    }

    /** Scratch of the right size. */
    method Fit(mapW: nat, mapH: nat)
      requires Valid()
      modifies this`w, this`h, this`scratch
      ensures Valid() && w == mapW && h == mapH
      ensures scratch != old(scratch) ==>
                && fresh(scratch) && fresh(scratch.gStamp) && fresh(scratch.gScore)
                && fresh(scratch.stamp) && fresh(scratch.closed) && fresh(scratch.from)
    {
      if w != mapW || h != mapH {
        w, h := mapW, mapH;
        scratch := new Scratch(w * h);
      }
    }

    /** Size the scratch to the map and clear the search.  On a map of the same size nothing is
        cleared: the generation moves on. */
    method Reset(mapW: nat, mapH: nat)
      requires Valid()
      modifies this, scratch
      ensures Valid() && w == mapW && h == mapH && stage == Init && open == [] && visited == 0 && work == 0
      ensures start == old(start) && goal == old(goal) && scratch.Empty()
      ensures scratch != old(scratch) ==>
                && fresh(scratch) && fresh(scratch.gStamp) && fresh(scratch.gScore)
                && fresh(scratch.stamp) && fresh(scratch.closed) && fresh(scratch.from)
    {
      Fit(mapW, mapH);
      Clear();
    }

    method Clear()
      requires Valid()
      modifies scratch, this`open, this`visited, this`work, this`stage, this`visitLimit, this`out
      ensures Valid() && scratch.Empty() && stage == Init && open == [] && visited == 0 && work == 0 && out == []
    {
      scratch.Restart();
      open, visited, work, stage, out := [], 0, 0, Init, [];
      visitLimit := (w + h) * 20;
    }

    /** The state of the search: an uninitialised one stands for its initial state. */
    ghost function Now(p: Problem): State
      requires Valid() && p.Valid()
      reads this, scratch, scratch.gStamp, scratch.gScore, scratch.stamp, scratch.closed, scratch.from
    {
      if stage == Init then Initial(p, work) else Value()
    }

    /** The search is in order: it stands between two rounds of problem `p`. */
    ghost predicate Ongoing(p: Problem)
      reads this, scratch, scratch.gStamp, scratch.gScore, scratch.stamp, scratch.closed, scratch.from
    {
      && Valid() && p.Valid() && p.g.w == w && p.g.h == h && Inside(start) && Inside(goal)
      && p.s == Index(w, start.0, start.1) && p.e == Index(w, goal.0, goal.1) && Sane(p, Now(p))
      && (stage == Init ==> scratch.Empty() && open == [] && visited == 0)
      && (stage == Search ==> visitLimit == w * h)
    }

    /** The neighbour of cell `c` in direction `m` and the cost of the move, if it is legal. */
    method NextCell(grade: (int, int) -> int, ghost g: Grid, cx: int, cz: int, m: Move, ghost c: int)
      returns (id: int, cost: nat)
      requires g == Graded(w, h, grade) && w > 0 && 0 <= c < w * h && cx == Col(w, c) && cz == Row(w, c)
      ensures id == StepTo(g, c, m) && -1 <= id < w * h && (id >= 0 ==> cost == StepPrice(g, c, m))
    {
      StepOnGrid(g, c, m);
      var nx, nz := cx + m.0, cz + m.1;
      id, cost := -1, 0;
      if nx < 0 || nz < 0 || nx >= w || nz >= h { return; }
      var sc := grade(nx, nz);
      if sc < THRESHOLD { return; }
      var diag := m.0 != 0 && m.1 != 0;
      if diag && (grade(cx + m.0, cz) < THRESHOLD || grade(cx, cz + m.1) < THRESHOLD) { return; }
      id := nz * w + nx;
      cost := (if diag then 14 else 10) + if sc == OCCUPIED then OCCUPIED_TOLL else 0;
    }

    /** Record that cell `id` is best entered by `m` at the given cost, and let it wait. */
    method Record(id: int, m: Move, cost: nat, f: int)
      requires Valid() && 0 <= id < w * h
      modifies scratch.gStamp, scratch.gScore, scratch.stamp, scratch.closed, scratch.from, this`open
      ensures Valid()
      ensures var v := old(Value());
              Value() == v.(score := v.score[id := cost], from := v.from[id := Some(m)],
                            open := v.open + multiset{Entry(f, id)})
    {
      scratch.SetScore(id, cost);
      scratch.Touch(id);
      scratch.SetFrom(id, m);
      open := Push(open, Entry(f, id));
    }

    /** An improvement is recorded, anything else is not. */
    method RecordBetter(ghost p: Problem, ghost c: int, m: Move, id: int, cost: nat, ahead: nat)
      requires Valid() && p.Valid() && p.g.Size() == w * h && 0 <= c < w * h && 0 <= id < w * h
      requires id == StepTo(p.g, c, m) && cost == scratch.Scores()[c] + StepPrice(p.g, c, m)
               && ahead == Ahead(p.g, id, p.e)
      modifies scratch.gStamp, scratch.gScore, scratch.stamp, scratch.closed, scratch.from, this`open
      ensures Valid() && Value() == Improve(p, old(Value()), c, m)
    {
      if scratch.Known(id) && cost >= scratch.gScore[id] { return; }
      ImproveIs(p, Value(), c, m, id, cost);
      Record(id, m, cost, cost + ahead);
    }

    /** Look at one neighbour. */
    method LookAt(grade: (int, int) -> int, ghost p: Problem, ghost u: State, cx: int, cz: int, ghost c: int,
                  here: nat, m: Move)
      requires Valid() && p.Valid() && p.g == Graded(w, h, grade) && Inside(goal) && p.e == Index(w, goal.0, goal.1)
      requires 0 <= c < w * h && cx == Col(w, c) && cz == Row(w, c) && u == Value() && here == u.score[c]
      modifies scratch.gStamp, scratch.gScore, scratch.stamp, scratch.closed, scratch.from, this`open
      ensures Valid() && Value() == Improve(p, u, c, m)
    {
      var id, price := NextCell(grade, p.g, cx, cz, m, c);
      if id < 0 { return; }
      AheadOf(p, w, h, goal, c, m, id);
      RecordBetter(p, c, m, id, here + price, Octile(goal.0 - (cx + m.0), goal.1 - (cz + m.1)));
    }

    /** Look at all eight neighbours of a freshly closed cell. */
    method LookAround(grade: (int, int) -> int, ghost p: Problem, c: int, here: nat)
      requires Valid() && p.Valid() && p.g == Graded(w, h, grade) && Inside(goal) && p.e == Index(w, goal.0, goal.1)
      requires 0 <= c < w * h && here == scratch.Scores()[c]
      modifies scratch.gStamp, scratch.gScore, scratch.stamp, scratch.closed, scratch.from, this`open
      ensures Valid() && Value() == Expand(p, old(Value()), c, 8)
    {
      CellOf(w, h, c);
      var cx, cz := c % w, c / w;
      ghost var v, u := Value(), Value();
      for k := 0 to 8
        invariant Valid() && Value() == u && u == Expand(p, v, c, k) && u.score[c] == here
      {
        ExpandNext(p, v, c, k);
        StaysHere(p, u, c, DIRS[k]);
        LookAt(grade, p, u, cx, cz, c, here, DIRS[k]);
        u := Improve(p, u, c, DIRS[k]);
      }
    }

    /** Close a cell, unless it is closed already. */
    method CloseCell(c: int) returns (stale: bool)
      requires Valid() && 0 <= c < w * h
      modifies scratch.stamp, scratch.closed, scratch.from, this`visited
      ensures Valid() && stale == old(Value()).closed[c]
      ensures Value() == if stale then old(Value()) else Close(old(Value()), c)
    {
      scratch.Touch(c);
      if scratch.closed[c] { return true; }
      scratch.SetClosed(c);
      visited := visited + 1;
      return false;
    }

    /** A cell has just been closed: stop at the goal, else look around. */
    method Enter(grade: (int, int) -> int, ghost p: Problem, c: int)
      requires Valid() && p.Valid() && p.g == Graded(w, h, grade) && Inside(goal) && p.e == Index(w, goal.0, goal.1)
      requires stage == Search && 0 <= c < w * h && scratch.Scores()[c] >= 0
      modifies scratch.gStamp, scratch.gScore, scratch.stamp, scratch.closed, scratch.from, this`open, this`stage
      ensures Valid() && stage != Init
      ensures Value() == if c == p.e then old(Value()).(phase := Arrived) else Expand(p, old(Value()), c, 8)
    {
      IndexOf(w, h, goal.0, goal.1);
      CellOf(w, h, c);
      if c % w == goal.0 && c / w == goal.1 {
        stage := Done;
        return;
      }
      var here := if scratch.Known(c) then scratch.gScore[c] else 0;
      LookAround(grade, p, c, here);
    }

    /** Take the first entry from the open list. */
    method TakeFirst(ghost v: State) returns (c: int, ghost top: Entry)
      requires Valid() && v == Value() && open != []
      modifies this`open
      ensures Valid() && v.open != multiset{} && top == First(v.open) && c == top.cell && Value() == Popped(v)
    {
      var e;
      e, open := Pop(open);
      FirstUnique(e, First(v.open), v.open);
      c, top := e.cell, e;
    }

    /** Deal with the cell of an entry that has been taken: drop it when it is stale. */
    method Deal(grade: (int, int) -> int, ghost p: Problem, c: int, ghost top: Entry)
      requires Valid() && p.Valid() && p.g == Graded(w, h, grade) && Inside(goal) && p.e == Index(w, goal.0, goal.1)
      requires stage == Search && 0 <= c < w * h && top.cell == c && scratch.Scores()[c] >= 0
      modifies scratch.gStamp, scratch.gScore, scratch.stamp, scratch.closed, scratch.from, this`open, this`visited,
               this`stage
      ensures Valid() && stage != Init && Value() == Taken(p, old(Value()), top)
    {
      var stale := CloseCell(c);
      if stale { return; }
      Enter(grade, p, c);
    }

    /** Take the first entry and deal with its cell. */
    method Take(grade: (int, int) -> int, ghost p: Problem, ghost v: State)
      requires Valid() && p.Valid() && p.g == Graded(w, h, grade) && Inside(goal) && p.e == Index(w, goal.0, goal.1)
      requires v == Value() && Sane(p, v) && stage == Search && open != []
      modifies scratch.gStamp, scratch.gScore, scratch.stamp, scratch.closed, scratch.from, this`open, this`visited,
               this`stage
      ensures Valid() && stage != Init && v.open != multiset{}
      ensures Value() == Taken(p, Popped(v), First(v.open))
    {
      var c;
      ghost var top;
      c, top := TakeFirst(v);
      Deal(grade, p, c, top);
    }

    /** Charge the work of a round, and take an entry if there is one. */
    method OneRound(grade: (int, int) -> int, ghost p: Problem, ghost v: State)
      requires Valid() && p.Valid() && p.g == Graded(w, h, grade) && Inside(goal) && p.e == Index(w, goal.0, goal.1)
      requires v == Value() && Sane(p, v) && stage == Search
      modifies this`work, this`open, this`visited, this`stage
      modifies scratch.gStamp, scratch.gScore, scratch.stamp, scratch.closed, scratch.from
      ensures Valid() && Value() == Round(p, v) && stage != Init
    {
      work := work + WORK_PER_ROUND;
      if open == [] {
        stage := Broken;
        return;
      }
      SameSane(p, v, Charged(v));
      Take(grade, p, Charged(v));
    }

    /** Set the search up: the start waits at no cost. */
    method Begin(ghost p: Problem)
      requires Valid() && scratch.Empty() && open == [] && visited == 0 && stage == Init && Inside(start)
               && Inside(goal)
      requires p.Valid() && p.g.w == w && p.g.h == h
      requires p.s == Index(w, start.0, start.1) && p.e == Index(w, goal.0, goal.1)
      modifies this`open, this`stage, this`visitLimit, scratch.gStamp, scratch.gScore
      ensures Valid() && stage == Search && visitLimit == w * h && Value() == Initial(p, work)
    {
      AtStart(p, w, h, start, goal);
      visitLimit := w * h;
      var s := start.1 * w + start.0;
      scratch.SetScore(s, 0);
      open := Push(open, Entry(Octile(goal.0 - start.0, goal.1 - start.1), s));
      stage := Search;
      InitialIs(p, Value());
    }

    /** The state and the state it will have come to when the quantum is spent. */
    ghost predicate BoundFor(p: Problem, grade: (int, int) -> int, quantum: int, target: State)
      reads this, scratch, scratch.gStamp, scratch.gScore, scratch.stamp, scratch.closed, scratch.from
    {
      && Valid() && p.Valid() && p.g == Graded(w, h, grade) && Inside(goal) && p.e == Index(w, goal.0, goal.1)
      && stage != Init && Sane(p, Value()) && visitLimit == w * h && target == Until(Stepper(p), Value(), quantum)
    }

    /** One more round before the quantum is spent; it never visits more cells than there are. */
    method NextRound(grade: (int, int) -> int, ghost p: Problem, ghost quantum: int, ghost target: State)
      requires BoundFor(p, grade, quantum, target) && stage == Search && work < quantum
      modifies this`work, this`open, this`visited, this`stage
      modifies scratch.gStamp, scratch.gScore, scratch.stamp, scratch.closed, scratch.from
      ensures BoundFor(p, grade, quantum, target) && work == old(work) + 9 && visited <= visitLimit
    {
      UntilRound(p, Value(), quantum);
      if visited > visitLimit {
        assert false;
      }
      OneRound(grade, p, Value());
      VisitsBounded(p, Value());
    }

    /** Rounds until the quantum is spent or the search is over. */
    method Rounds(grade: (int, int) -> int, quantum: int, ghost p: Problem, ghost target: State)
      requires BoundFor(p, grade, quantum, target)
      modifies this`work, this`open, this`visited, this`stage
      modifies scratch.gStamp, scratch.gScore, scratch.stamp, scratch.closed, scratch.from
      ensures Valid() && stage != Init && Value() == target
    {
      while stage == Search && work < quantum
        invariant BoundFor(p, grade, quantum, target)
        decreases quantum - work
      {
        NextRound(grade, p, quantum, target);
      }
      UntilOver(Stepper(p), Value(), quantum);
    }

    /** The first call: set the search up and go on. */
    method FirstRounds(grade: (int, int) -> int, quantum: int, ghost p: Problem)
      requires Valid() && p.Valid() && p.g == Graded(w, h, grade) && Inside(goal) && p.e == Index(w, goal.0, goal.1)
      requires scratch.Empty() && open == [] && visited == 0 && stage == Init && Inside(start)
               && p.s == Index(w, start.0, start.1)
      requires Sane(p, Initial(p, work))
      modifies this`work, this`open, this`visited, this`visitLimit, this`stage
      modifies scratch.gStamp, scratch.gScore, scratch.stamp, scratch.closed, scratch.from
      ensures Valid() && stage != Init && visitLimit == w * h
              && Value() == Until(Stepper(p), Initial(p, old(work)), quantum)
    {
      ghost var v := Initial(p, work);
      Begin(p);
      Rounds(grade, quantum, p, Until(Stepper(p), v, quantum));
    }

    /** A search that was stopped between two rounds can be taken up again. */
    ghost predicate Stopped()
      requires Valid()
      reads this, scratch, scratch.gStamp, scratch.gScore, scratch.stamp, scratch.closed, scratch.from
    {
      && (stage == Init || stage == Search)
      && (stage == Init ==> scratch.Empty() && open == [] && visited == 0) && (stage == Search ==> visitLimit == w * h)
    }

    /** Go on with a search until the quantum is spent or the search is over. */
    method Run(grade: (int, int) -> int, quantum: int, ghost p: Problem)
      requires Ongoing(p) && p.g == Graded(w, h, grade) && (stage == Init || stage == Search)
      modifies this`work, this`open, this`visited, this`visitLimit, this`stage
      modifies scratch.gStamp, scratch.gScore, scratch.stamp, scratch.closed, scratch.from
      ensures Valid() && (stage == Init || stage == Search ==> Stopped())
      ensures Now(p) == Until(Stepper(p), old(Now(p)), quantum)
    {
      if work >= quantum { return; }
      if stage == Init {
        FirstRounds(grade, quantum, p);
      } else {
        Rounds(grade, quantum, p, Until(Stepper(p), Value(), quantum));
      }
    }

    /** One move of the walk back, along the breadcrumb of the cell; there always is one. */
    method OneBack(ghost p: Problem, ghost v: State, ghost route: Route, ghost guard: nat,
                   rev0: seq<Cell>, c0: Cell, last0: Option<Move>)
      returns (on: bool, rev: seq<Cell>, c: Cell, last: Option<Move>)
      requires Valid() && v == Value() && p.g.w == w && p.g.h == h && guard < |route| && guard < LONGEST_WALK
      requires Walking(p, v, route, goal, guard, rev0, c0, last0)
      ensures on && Walking(p, v, route, goal, guard + 1, rev, c, last)
    {
      WalkOn(p, v, route, goal, guard, rev0, c0, last0);
      rev, c, last := rev0, c0, last0;
      var crumb: Option<Move> := scratch.CrumbAt(c.1 * w + c.0);
      if crumb == None { return false, rev, c, last; }
      var q := (c.0 - crumb.value.0, c.1 - crumb.value.1);
      if last != crumb { rev, last := rev + [c], crumb; }
      return Inside(q), rev, q, last;
    }

    /** Walk the breadcrumbs back from the goal and collect the corners, goal first.  Of a route of
        more than 8192 moves only that many are walked. */
    method WalkBack(ghost p: Problem, ghost v: State, ghost route: Route) returns (rev: seq<Cell>)
      requires Valid() && v == Value() && p.Valid() && p.g.w == w && p.g.h == h
      requires Inside(start) && p.s == Index(w, start.0, start.1) && OnTrail(p, v, route, goal)
      ensures rev == CornersBack(Walked(route), goal, None)
    {
      rev := [];
      var c: Cell := goal;
      var last: Option<Move> := None;
      var guard, on := 0, true;
      WalkBegins(p, v, route, goal);
      while on && guard < LONGEST_WALK
        invariant on && Walking(p, v, route, goal, guard, rev, c, last)
      {
        AtTheStart(p, v, route, goal, guard, rev, c, last, start);
        if c == start { break; }
        on, rev, c, last := OneBack(p, v, route, guard, rev, c, last);
        guard := guard + 1;
      }
      AtTheStart(p, v, route, goal, guard, rev, c, last, start);
      WalkEnds(p, v, route, goal, guard, rev, c, last);
    }

    /** Turn the corners round, drop repetitions, and hand out the first 256. */
    method HandOut(rev0: seq<Cell>, ghost route: Route)
      requires rev0 == CornersBack(Walked(route), goal, None)
      modifies this`out
      ensures out == HandedOut(route, goal)
    {
      var rev := rev0;
      if rev == [] || rev[0] != goal { rev := [goal] + rev; }
      assert rev == AllCorners(Walked(route), goal);
      NoRepetition(Walked(route), goal);
      out := [];
      var it := |rev|;
      while it > 0
        invariant 0 <= it <= |rev| && out == Reversed(rev[it..])
      {
        it := it - 1;
        assert rev[it..][1..] == rev[it + 1..];
        if out == [] || out[|out| - 1] != rev[it] { out := out + [rev[it]]; }
      }
      assert rev[0..] == rev;
      if |out| > MOST_CORNERS { out := out[..MOST_CORNERS]; }
    }

    /** Reconstruct the route after arrival. */
    method BuildRoute(ghost p: Problem, ghost route: Route)
      requires Valid() && p.Valid() && p.g.w == w && p.g.h == h && Inside(start) && p.s == Index(w, start.0, start.1)
      requires OnTrail(p, Value(), route, goal)
      modifies this`out
      ensures Valid() && out == HandedOut(route, goal)
    {
      var rev := WalkBack(p, Value(), route);
      HandOut(rev, route);
    }

    /** The search is over: report, and on arrival hand out the route. */
    method Report(ghost p: Problem) returns (r: Result)
      requires Valid() && p.Valid() && p.g.w == w && p.g.h == h && Inside(start) && Inside(goal)
      requires p.s == Index(w, start.0, start.1) && p.e == Index(w, goal.0, goal.1)
      requires (stage == Done || stage == Broken) && Proper(p, Value())
      modifies this`out
      ensures Valid() && Value() == old(Value()) && r == ResultOf(Value().phase)
      ensures r == Arrival ==> RouteFound(p, Value(), goal, out)
      ensures r == Failure ==> forall route :: !Reaches(p.g, p.s, route, p.e)
    {
      if stage == Broken {
        FailedHasNoRoute(p, Value());
        return Failure;
      }
      ghost var route := ArrivedTrail(p, Value());
      IndexOf(w, h, goal.0, goal.1);
      BuildRoute(p, route);
      return Arrival;
    }

    /** One call of the search with both ends on the map: go on until the quantum is spent or
        the search is over.  On arrival the route handed out is a cheapest legal one; failure
        means that there is none; the state reached does not depend on earlier interruptions. */
    method Step(grade: (int, int) -> int, quantum: int, ghost p: Problem) returns (r: Result)
      requires Ongoing(p) && p.g == Graded(w, h, grade) && (stage == Init || stage == Search) && Proper(p, Now(p))
      modifies this`work, this`open, this`visited, this`visitLimit, this`stage, this`out
      modifies scratch.gStamp, scratch.gScore, scratch.stamp, scratch.closed, scratch.from
      ensures Valid() && (r == Suspended ==> Stopped())
      ensures Now(p) == Until(Stepper(p), old(Now(p)), quantum) && Proper(p, Now(p)) && r == ResultOf(Now(p).phase)
      ensures r == Arrival ==> RouteFound(p, Now(p), goal, out)
      ensures r == Failure ==> forall route :: !Reaches(p.g, p.s, route, p.e)
    {
      UntilKeeps(p, Now(p), quantum);
      Run(grade, quantum, p);
      if stage == Init || stage == Search { return Suspended; }
      r := Report(p);
    }

    /** A suspended search may be stepped again, and comes to the state of a single call. */
    lemma GoingOn(p: Problem, v: State, q: int, q': int)
      requires Valid() && Stopped() && p.Valid() && p.g.w == w && p.g.h == h && Inside(start) && Inside(goal)
      requires p.s == Index(w, start.0, start.1) && p.e == Index(w, goal.0, goal.1)
      requires Proper(p, v) && q <= q' && Now(p) == Until(Stepper(p), v, q)
      ensures Ongoing(p) && Proper(p, Now(p)) && Until(Stepper(p), Now(p), q') == Until(Stepper(p), v, q')
    {
      UntilKeeps(p, v, q);
      ProperSane(p, Now(p));
      ProperSane(p, v);
      QuantaDoNotMatter(p, v, q, q');
    }

    /** A search that is over stays as it is. */
    lemma Finished(p: Problem, v: State, q: int, q': int)
      requires Valid() && p.Valid() && Proper(p, v) && q <= q' && Now(p) == Until(Stepper(p), v, q)
      requires q == q' || Now(p).phase != Running
      ensures Now(p) == Until(Stepper(p), v, q')
    {
      ProperSane(p, v);
      QuantaDoNotMatter(p, v, q, q');
    }

    /** One or more calls have brought the search from state `v` to where a single call with this
        quantum would have brought it, and told the result. */
    ghost predicate Told(p: Problem, v: State, quantum: int, r: Result)
      reads this, scratch, scratch.gStamp, scratch.gScore, scratch.stamp, scratch.closed, scratch.from
    {
      && Valid() && Proper(p, v) && Now(p) == Until(Stepper(p), v, quantum) && r == ResultOf(Now(p).phase)
      && (r == Suspended ==> Stopped())
      && (r == Arrival ==> RouteFound(p, Now(p), goal, out))
    }

    /** The problem is that of this search under a grading. */
    ghost predicate Asks(p: Problem, grade: (int, int) -> int)
      reads this`w, this`h, this`start, this`goal
    {
      && p.g == Graded(w, h, grade) && Inside(start) && Inside(goal)
      && p.s == Index(w, start.0, start.1) && p.e == Index(w, goal.0, goal.1)
    }

    /** A search carried on call by call with growing quanta, as long as it is suspended, comes to
        the state and the answer of a single call with the last quantum. */
    method StepByStep(grade: (int, int) -> int, quanta: seq<int>, ghost p: Problem, ghost v: State) returns (r: Result)
      requires Ongoing(p) && Asks(p, grade) && (stage == Init || stage == Search)
      requires quanta != [] && Growing(quanta) && v == Now(p) && Proper(p, v)
      modifies this`work, this`open, this`visited, this`visitLimit, this`stage, this`out
      modifies scratch.gStamp, scratch.gScore, scratch.stamp, scratch.closed, scratch.from
      ensures Told(p, v, quanta[|quanta| - 1], r)
      decreases |quanta|, 2
    {
      r := StepOnce(grade, quanta[0], p, v);
      r := GoOn(grade, quanta, p, v, r);
    }

    method StepOnce(grade: (int, int) -> int, quantum: int, ghost p: Problem, ghost v: State) returns (r: Result)
      requires Ongoing(p) && Asks(p, grade) && (stage == Init || stage == Search)
      requires v == Now(p) && Proper(p, v)
      modifies this`work, this`open, this`visited, this`visitLimit, this`stage, this`out
      modifies scratch.gStamp, scratch.gScore, scratch.stamp, scratch.closed, scratch.from
      ensures Asks(p, grade) && Told(p, v, quantum, r)
    {
      r := Step(grade, quantum, p);
    }

    /** The calls that follow the first, if it was suspended. */
    method GoOn(grade: (int, int) -> int, quanta: seq<int>, ghost p: Problem, ghost v: State, r0: Result)
      returns (r: Result)
      requires Asks(p, grade) && quanta != [] && Growing(quanta) && Told(p, v, quanta[0], r0)
      modifies this`work, this`open, this`visited, this`visitLimit, this`stage, this`out
      modifies scratch.gStamp, scratch.gScore, scratch.stamp, scratch.closed, scratch.from
      ensures Told(p, v, quanta[|quanta| - 1], r)
      decreases |quanta|, 1
    {
      if r0 == Suspended && |quanta| > 1 {
        r := TheRest(grade, quanta, p, v);
      } else {
        Finished(p, v, quanta[0], quanta[|quanta| - 1]);
        r := r0;
      }
    }

    method TheRest(grade: (int, int) -> int, quanta: seq<int>, ghost p: Problem, ghost v: State) returns (r: Result)
      requires Asks(p, grade) && |quanta| > 1 && Growing(quanta) && Told(p, v, quanta[0], Suspended)
      modifies this`work, this`open, this`visited, this`visitLimit, this`stage, this`out
      modifies scratch.gStamp, scratch.gScore, scratch.stamp, scratch.closed, scratch.from
      ensures Told(p, v, quanta[|quanta| - 1], r)
      decreases |quanta|, 0
    {
      GoingOn(p, v, quanta[0], quanta[|quanta| - 1]);
      r := StepByStep(grade, quanta[1..], p, Now(p));
    }

    /** One call with an end off the map, or without a map: it fails as soon as it may work. */
    method StepOffMap(quantum: int) returns (r: Result)
      requires Valid() && stage == Init && !(Inside(start) && Inside(goal))
      modifies this`stage
      ensures Valid() && r == if w > 0 && work >= quantum then Suspended else Failure
    {
      if w <= 0 { return Failure; }
      if work >= quantum { return Suspended; }
      stage := Broken;
      return Failure;
    }
  }

  /** What is handed out is that of the route that the breadcrumbs mark, a cheapest legal one. */
  ghost predicate RouteFound(p: Problem, v: State, goal: Cell, out: seq<Cell>)
  {
    exists route ::
      && Reaches(p.g, p.s, route, p.e) && IsShortest(p.g, p.s, p.e, Cost(p.g, p.s, route)) && Marked(p, v, route)
      && out == HandedOut(route, goal)
  }

  lemma NeverMany(p: Problem, v: State, goal: Cell, out: seq<Cell>)
    requires RouteFound(p, v, goal, out)
    ensures |out| <= MOST_CORNERS
  {
  }

  /** The state of a search determines what it hands out. */
  lemma OneAnswer(p: Problem, v: State, goal: Cell, out: seq<Cell>, out': seq<Cell>)
    requires p.Valid() && RouteFound(p, v, goal, out) && RouteFound(p, v, goal, out')
    ensures out == out'
  {
    var a :| Reaches(p.g, p.s, a, p.e) && Marked(p, v, a) && out == HandedOut(a, goal);
    var b :| Reaches(p.g, p.s, b, p.e) && Marked(p, v, b) && out' == HandedOut(b, goal);
    OneWayBack(p, v, a, b);
  }

  /** A proper part of the route does not come to its end. */
  lemma NotYetThere(p: Problem, v: State, route: Route, k: nat)
    requires p.Valid() && Reaches(p.g, p.s, route, p.e) && Marked(p, v, route) && k < |route|
    ensures End(p.g, p.s, route[..k]) != p.e && EndOf(At(p.g, p.s), route[..k]) != At(p.g, p.e)
  {
    assert route[..|route|] == route;
    TrailHasNoCycle(p, v, route, k, |route|);
    PrefixLegal(p.g, p.s, route, k);
    EndAt(p.g, p.s, route[..k]);
    CellOf(p.g.w, p.g.h, End(p.g, p.s, route[..k]));
    CellOf(p.g.w, p.g.h, p.e);
  }

  /** What is handed out ends at the goal exactly when the part walked back has at most 256
      corners. */
  lemma EndsAtGoal(p: Problem, v: State, route: Route, goal: Cell)
    requires p.Valid() && Reaches(p.g, p.s, route, p.e) && Marked(p, v, route) && goal == At(p.g, p.e)
    ensures var out := HandedOut(route, goal);
            out != [] && (out[|out| - 1] == goal <==> |AllCorners(Walked(route), goal)| <= 256)
  {
    EndAt(p.g, p.s, route);
    var k := LastHandedOut(At(p.g, p.s), route);
    assert route[..|route|] == route;
    if k < |route| { NotYetThere(p, v, route, k); }
  }

  /** On a map of at most 8193 cells, whether what is handed out ends at the goal tells whether
      running straight through it leads there, and then it is a cheapest legal route. */
  lemma EndTellsWhole(p: Problem, v: State, start: Cell, goal: Cell, out: seq<Cell>)
    requires p.Valid() && RouteFound(p, v, goal, out) && start == At(p.g, p.s) && goal == At(p.g, p.e)
    requires p.g.Size() <= 8193
    ensures var run := Along(start, Reversed(out));
            && out != [] && (out[|out| - 1] == goal <==> Reaches(p.g, p.s, run, p.e))
            && (out[|out| - 1] == goal ==> IsShortest(p.g, p.s, p.e, Cost(p.g, p.s, run)))
  {
    var route :|
      && Reaches(p.g, p.s, route, p.e) && IsShortest(p.g, p.s, p.e, Cost(p.g, p.s, route)) && Marked(p, v, route)
      && out == HandedOut(route, goal);
    CheapestIsShort(p.g, p.s, route, p.e);
    assert Walked(route) == route && route[..Skipped(route)] == [];
    EndAt(p.g, p.s, route);
    EndsAtGoal(p, v, route, goal);
    HandedOutLeadsAlong(start, route);
    var run := Along(start, Reversed(out));
    if run != route {
      NotYetThere(p, v, route, |run|);
      assert run == route[..|run|];
    }
  }

  /** Each quantum is at least the one before. */
  predicate Growing(quanta: seq<int>) { forall i, j :: 0 <= i < j < |quanta| ==> quanta[i] <= quanta[j] }

  /** Cell `c` is where the rest of the marked route ends. */
  ghost predicate OnTrail(p: Problem, v: State, rest: Route, c: Cell)
  {
    && p.Valid() && p.g.On(c.0, c.1) && 0 <= Index(p.g.w, c.0, c.1) < |v.from|
    && End(p.g, p.s, rest) == Index(p.g.w, c.0, c.1) && Marked(p, v, rest)
  }

  /** What is left of a route after some moves back from its end. */
  function Before(route: Route, k: nat): Route
    requires k <= |route|
  {
    route[..|route| - k]
  }

  /** The walk back stands at `c` after `guard` moves, the last of them `last`: the corners so far
      and those of what is still to be walked are all the corners. */
  ghost predicate Walking(p: Problem, v: State, route: Route, goal: Cell, guard: nat, rev: seq<Cell>, c: Cell,
                          last: Option<Move>)
  {
    && guard <= |Walked(route)| && OnTrail(p, v, Before(route, guard), c)
    && rev + CornersBack(Before(Walked(route), guard), c, last) == CornersBack(Walked(route), goal, None)
  }

  lemma WalkBegins(p: Problem, v: State, route: Route, goal: Cell)
    requires OnTrail(p, v, route, goal)
    ensures Walking(p, v, route, goal, 0, [], goal, None)
  {
    assert Before(route, 0) == route && Before(Walked(route), 0) == Walked(route);
  }

  /** The walk is at the start exactly when nothing is left of the route. */
  lemma AtTheStart(p: Problem, v: State, route: Route, goal: Cell, guard: nat, rev: seq<Cell>, c: Cell,
                   last: Option<Move>, start: Cell)
    requires Walking(p, v, route, goal, guard, rev, c, last)
    requires p.g.On(start.0, start.1) && p.s == Index(p.g.w, start.0, start.1)
    ensures c == start <==> guard == |route|
  {
    IndexOf(p.g.w, p.g.h, c.0, c.1);
    IndexOf(p.g.w, p.g.h, start.0, start.1);
  }

  lemma LeftLess(route: Route, k: nat)
    requires k < |route|
    ensures var rest := Before(route, k);
            |rest| == |route| - k && rest[|rest| - 1] == route[|route| - 1 - k]
                && rest[..|rest| - 1] == Before(route, k + 1)
  {
  }

  /** The breadcrumb of a cell on the trail leads back along it. */
  lemma TrailGoesOn(p: Problem, v: State, rest: Route, c: Cell)
    requires OnTrail(p, v, rest, c) && rest != [] && |v.from| == p.g.Size()
    ensures var m := rest[|rest| - 1];
            && 0 <= Index(p.g.w, c.0, c.1) < p.g.Size() && v.from[Index(p.g.w, c.0, c.1)] == Some(m)
            && OnTrail(p, v, rest[..|rest| - 1], (c.0 - m.0, c.1 - m.1))
  {
    IndexOf(p.g.w, p.g.h, c.0, c.1);
    BeforeLast(p.g, p.s, rest, c);
  }

  /** One more move back, along the breadcrumb of the cell. */
  lemma WalkOn(p: Problem, v: State, route: Route, goal: Cell, guard: nat, rev: seq<Cell>, c: Cell, last: Option<Move>)
    requires Walking(p, v, route, goal, guard, rev, c, last) && |v.from| == p.g.Size()
    requires guard < |route| && guard < LONGEST_WALK
    ensures 0 <= Index(p.g.w, c.0, c.1) < p.g.Size()
    ensures var crumb := v.from[Index(p.g.w, c.0, c.1)];
            crumb.Some? &&
            var q := (c.0 - crumb.value.0, c.1 - crumb.value.1);
            && p.g.On(q.0, q.1)
            && Walking(p, v, route, goal, guard + 1, if last == crumb then rev else rev + [c], q, crumb)
  {
    LeftLess(route, guard);
    LeftLess(Walked(route), guard);
    TrailGoesOn(p, v, Before(route, guard), c);
    Turned(Before(Walked(route), guard), rev, c, last);
  }

  /** A move back moves its corner, if it is one, from what is left to what is collected. */
  lemma Turned(still: Route, rev: seq<Cell>, c: Cell, last: Option<Move>)
    requires still != []
    ensures var m := still[|still| - 1];
            rev + CornersBack(still, c, last) ==
            (if last == Some(m) then rev else rev + [c])
                + CornersBack(still[..|still| - 1], (c.0 - m.0, c.1 - m.1), Some(m))
  {
  }

  /** At the end nothing is left to be walked. */
  lemma WalkEnds(p: Problem, v: State, route: Route, goal: Cell, guard: nat, rev: seq<Cell>, c: Cell,
                 last: Option<Move>)
    requires Walking(p, v, route, goal, guard, rev, c, last) && (guard >= LONGEST_WALK || guard == |route|)
    ensures rev == CornersBack(Walked(route), goal, None)
  {
    assert Before(Walked(route), guard) == [] && rev + [] == rev;
  }

  function ResultOf(phase: Phase): Result
  {
    match phase case Running => Suspended case Arrived => Arrival case Failed => Failure
  }

  lemma AtStart(p: Problem, w: nat, h: nat, start: (int, int), goal: (int, int))
    requires p.Valid() && p.g.w == w && p.g.h == h && 0 <= start.0 < w && 0 <= start.1 < h && 0 <= goal.0 < w
             && 0 <= goal.1 < h
    requires p.s == Index(w, start.0, start.1) && p.e == Index(w, goal.0, goal.1)
    ensures p.Waiting(p.s, 0) == Entry(Octile(goal.0 - start.0, goal.1 - start.1), start.1 * w + start.0)
    ensures 0 <= start.1 * w + start.0 < w * h
  {
    IndexOf(w, h, start.0, start.1);
    IndexOf(w, h, goal.0, goal.1);
  }

  lemma InitialIs(p: Problem, v: State)
    requires p.Valid() && v.visited == 0 && v.phase == Running && v.open == multiset{p.Waiting(p.s, 0)}
    requires var n := p.g.Size();
             v.score == seq(n, i => -1)[p.s := 0] && v.closed == seq(n, i => false) && v.from == seq(n, i => None)
    ensures v == Initial(p, v.work)
  {
  }

  lemma ExpandNext(p: Problem, v: State, c: int, k: nat)
    requires p.Valid() && v.Sized(p.g.Size()) && 0 <= c < p.g.Size() && k < 8
    ensures Expand(p, v, c, k + 1) == Improve(p, Expand(p, v, c, k), c, DIRS[k])
  {
  }

  /** A move leads to another cell, so the cost of the cell it starts from stays. */
  lemma StaysHere(p: Problem, v: State, c: int, m: Move)
    requires p.Valid() && v.Sized(p.g.Size()) && 0 <= c < p.g.Size()
    ensures Improve(p, v, c, m).score[c] == v.score[c]
  {
    StepOnGrid(p.g, c, m);
  }
}
