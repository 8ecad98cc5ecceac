/** Connected components of the legal footprint placements (tools/footprobe.cpp). */
module FloodFill {
  import opened Basics
  import opened Counting
  import opened GridIndex
  import opened Paths
  import NavGrid

  /** A grid and the placement test; `fits` stands for the footprint query. */
  datatype Grid = Grid(w: nat, h: nat, fits: (int, int) -> bool)
  {
    function Size(): nat { w * h }

    predicate Fit(c: int) { 0 <= c < Size() && w > 0 && fits(Col(w, c), Row(w, c)) }
  }

  const DX: seq<int> := [1, -1, 0, 0]
  const DZ: seq<int> := [0, 0, 1, -1]

  predicate Beside(g: Grid, c: int, d: int)
    requires g.w > 0
  {
    exists k :: 0 <= k < 4 && Col(g.w, d) == Col(g.w, c) + DX[k] && Row(g.w, d) == Row(g.w, c) + DZ[k]
  }

  predicate Step(g: Grid, c: int, d: int) { g.Fit(c) && g.Fit(d) && Beside(g, c, d) }

  lemma StepSymmetric(g: Grid)
    ensures Symmetric(Edges(g))
  {
    forall c, d | Step(g, c, d) ensures Step(g, d, c) {
      var k :| 0 <= k < 4 && Col(g.w, d) == Col(g.w, c) + DX[k] && Row(g.w, d) == Row(g.w, c) + DZ[k];
      var j := if k == 0 then 1 else if k == 1 then 0 else if k == 2 then 3 else 2;
      assert Col(g.w, c) == Col(g.w, d) + DX[j] && Row(g.w, c) == Row(g.w, d) + DZ[j];
    }
  }

  ghost function Edges(g: Grid): Edge { (c, d) => Step(g, c, d) }

  /** The 4-connected component of cell `c`. */
  ghost function Component(g: Grid, c: int): set<int>
  {
    set d | 0 <= d < g.Size() && g.Fit(d) && Connected(Edges(g), c, d)
  }

  ghost function FittingCells(g: Grid): set<int> { set c | 0 <= c < g.Size() && g.Fit(c) }

  /** Every cell of a component has that same component. */
  lemma SameComponent(g: Grid, c: int, d: int)
    requires d in Component(g, c)
    ensures Component(g, d) == Component(g, c)
  {
    StepSymmetric(g);
    var e := Edges(g);
    ConnectedSymmetric(e, c, d);
    forall x ensures Connected(e, d, x) <==> Connected(e, c, x) {
      if Connected(e, d, x) { ConnectedTransitive(e, c, d, x); }
      if Connected(e, c, x) { ConnectedTransitive(e, d, c, x); }
    }
  }

  /** Cells are joined when they touch along an edge: one column or one row apart, not both. */
  lemma StepIs(g: Grid, c: int, d: int)
    requires g.w > 0
    ensures Step(g, c, d) <==>
            g.Fit(c) && g.Fit(d) && Apart(Col(g.w, c), Col(g.w, d)) + Apart(Row(g.w, c), Row(g.w, d)) == 1
  {
    if Apart(Col(g.w, c), Col(g.w, d)) + Apart(Row(g.w, c), Row(g.w, d)) == 1 {
      var dx, dz := Col(g.w, d) - Col(g.w, c), Row(g.w, d) - Row(g.w, c);
      var k := if dx == 1 then 0 else if dx == -1 then 1 else if dz == 1 then 2 else 3;
      assert DX[k] == dx && DZ[k] == dz;
    }
  }

  function Apart(a: int, b: int): nat { if a < b then b - a else a - b }

  /** Fitting cells that touch along an edge are in one component. */
  lemma NeighboursTogether(g: Grid, x: int, z: int, x': int, z': int)
    requires 0 <= x < g.w && 0 <= z < g.h && 0 <= x' < g.w && 0 <= z' < g.h
    requires g.fits(x, z) && g.fits(x', z') && Apart(x, x') + Apart(z, z') == 1
    ensures Index(g.w, x', z') in Component(g, Index(g.w, x, z))
  {
    IndexOf(g.w, g.h, x, z);
    IndexOf(g.w, g.h, x', z');
    StepIs(g, Index(g.w, x, z), Index(g.w, x', z'));
    ConnectedSelf(Edges(g), Index(g.w, x, z));
    ConnectedStep(Edges(g), Index(g.w, x, z), Index(g.w, x, z), Index(g.w, x', z'));
  }

  /** Cells that touch no fitting cell along an edge stay alone, whatever touches their corners. */
  lemma AloneStaysAlone(g: Grid, c: int)
    requires g.Fit(c)
    requires forall d :: g.Fit(d) ==> Apart(Col(g.w, c), Col(g.w, d)) + Apart(Row(g.w, c), Row(g.w, d)) != 1
    ensures Component(g, c) == {c}
  {
    ConnectedSelf(Edges(g), c);
    forall d | Step(g, c, d) ensures false { StepIs(g, c, d); }
    forall d | d in Component(g, c) ensures d == c {
      var p :| Joins(Edges(g), p, c, d);
      PathStaysIn(Edges(g), iset{c}, p);
    }
  }

  /** An open floor is one component. */
  lemma {:induction false} OpenFloor(g: Grid, x: int, z: int)
    requires 0 <= x < g.w && 0 <= z < g.h && forall i, j :: 0 <= i < g.w && 0 <= j < g.h ==> g.fits(i, j)
    ensures Index(g.w, x, z) in Component(g, 0)
    decreases x + z
  {
    IndexOf(g.w, g.h, x, z);
    if x > 0 || z > 0 {
      var x', z' := if x > 0 then x - 1 else x, if x > 0 then z else z - 1;
      OpenFloor(g, x', z');
      NeighboursTogether(g, x', z', x, z);
      ConnectedTransitive(Edges(g), 0, Index(g.w, x', z'), Index(g.w, x, z));
    } else {
      ConnectedSelf(Edges(g), 0);
    }
  }

  // --- One fill ----------------------------------------------------------------------

  ghost function Seen(seen: array<bool>): set<int>
    reads seen
  {
    set c | 0 <= c < seen.Length && seen[c]
  }

  ghost predicate Closed(g: Grid, cells: set<int>) { forall c, d :: c in cells && Step(g, c, d) ==> d in cells }

  /** The queue after the fill is exactly the component of the seed. */
  lemma FillIsComponent(g: Grid, before: set<int>, q: seq<int>, s0: int)
    requires q != [] && q[0] == s0 && Closed(g, before) && Closed(g, before + Elements(q))
    requires before !! Elements(q) && forall c :: c in q ==> c in Component(g, s0)
    ensures Elements(q) == Component(g, s0)
  {
    var filled := iset c | c in Elements(q);
    StepSymmetric(g);
    forall c, d | c in filled && Edges(g)(c, d) ensures d in filled {
      assert Edges(g)(d, c);
    }
    forall d | d in Component(g, s0) ensures d in Elements(q) {
      var p :| Joins(Edges(g), p, s0, d);
      PathStaysIn(Edges(g), filled, p);
    }
  }

  predicate IsStep(g: Grid, c: int, d: int, k: int)
    requires 0 <= k < 4
  {
    g.Fit(c) && g.Fit(d) && Col(g.w, d) == Col(g.w, c) + DX[k] && Row(g.w, d) == Row(g.w, c) + DZ[k]
  }

  /** What holds while the queue `q` is worked off: the cells before `hh` are finished, and
      the one at `hh` has been looked around in the directions before `k`. */
  ghost predicate Filling(g: Grid, s0: int, before: set<int>, marked: set<int>, q: seq<int>, hh: int, k: int)
  {
    && 0 <= hh <= |q| && q != [] && q[0] == s0 && Distinct(q)
    && marked == before + Elements(q) && before !! Elements(q)
    && (forall c :: c in q ==> g.Fit(c) && c in Component(g, s0))
    && (forall i, d :: 0 <= i < hh && Step(g, q[i], d) ==> d in marked)
    && (forall j, d :: 0 <= j < k && j < 4 && hh < |q| && IsStep(g, q[hh], d, j) ==> d in marked)
  }

  /** The neighbour in direction `k`, or -1 when it is off the grid or does not fit. */
  method Neighbour(g: Grid, c0: int, k: int) returns (id: int)
    requires 0 <= k < 4 && g.Fit(c0)
    ensures -1 <= id < g.Size()
    ensures id >= 0 ==> Step(g, c0, id)
    ensures forall d :: IsStep(g, c0, d, k) ==> d == id
  {
    CellOf(g.w, g.h, c0);
    var x, z := c0 % g.w, c0 / g.w;
    var nx, nz := x + DX[k], z + DZ[k];
    forall d | IsStep(g, c0, d, k)
      ensures 0 <= nx < g.w && 0 <= nz < g.h && g.fits(nx, nz) && d == Index(g.w, nx, nz)
    {
      CellOf(g.w, g.h, d);
    }
    if nx < 0 || nz < 0 || nx >= g.w || nz >= g.h { return -1; }
    if !g.fits(nx, nz) { return -1; }
    IndexOf(g.w, g.h, nx, nz);
    return nz * g.w + nx;
  }

  lemma StartFill(g: Grid, s0: int, before: set<int>)
    requires g.Fit(s0) && s0 !in before
    ensures Filling(g, s0, before, before + {s0}, [s0], 0, 0)
  {
    ConnectedSelf(Edges(g), s0);
    assert Elements([s0]) == {s0};
  }

  lemma QueueBounded(g: Grid, s0: int, before: set<int>, marked: set<int>, q: seq<int>, hh: int)
    requires Filling(g, s0, before, marked, q, hh, 0)
    ensures |q| <= g.Size()
  {
    forall i | 0 <= i < |q| ensures 0 <= q[i] < g.Size() {
      assert q[i] in q;
    }
    DistinctBounded(q, g.Size());
  }

  lemma Enqueue(g: Grid, s0: int, before: set<int>, marked: set<int>, q: seq<int>, hh: int, k: int, id: int)
    requires Filling(g, s0, before, marked, q, hh, k) && hh < |q| && 0 <= k < 4
    requires forall d :: IsStep(g, q[hh], d, k) ==> d == id
    ensures id in marked || id < 0 ==> Filling(g, s0, before, marked, q, hh, k + 1)
    ensures id !in marked && id >= 0 && Step(g, q[hh], id) ==>
              Filling(g, s0, before, marked + {id}, q + [id], hh, k + 1)
  {
    if id !in marked && id >= 0 && Step(g, q[hh], id) {
      assert q[hh] in q;
      ConnectedStep(Edges(g), s0, q[hh], id);
      assert Elements(q + [id]) == Elements(q) + {id};
    }
  }

  lemma NextInQueue(g: Grid, s0: int, before: set<int>, marked: set<int>, q: seq<int>, hh: int)
    requires Filling(g, s0, before, marked, q, hh, 4) && hh < |q|
    ensures Filling(g, s0, before, marked, q, hh + 1, 0)
  {
    var c0 := q[hh];
    forall d | Step(g, c0, d) ensures d in marked {
      var k :| 0 <= k < 4 && Col(g.w, d) == Col(g.w, c0) + DX[k] && Row(g.w, d) == Row(g.w, c0) + DZ[k];
      assert IsStep(g, c0, d, k);
    }
  }

  lemma Finished(g: Grid, s0: int, before: set<int>, marked: set<int>, q: seq<int>)
    requires Filling(g, s0, before, marked, q, |q|, 0) && Closed(g, before)
    ensures Elements(q) == Component(g, s0) && |q| == |Component(g, s0)| && Closed(g, marked)
  {
    DistinctSize(q);
    forall c, d | c in marked && Step(g, c, d) ensures d in marked {
      if c !in before {
        var i :| 0 <= i < |q| && q[i] == c;
      }
    }
    FillIsComponent(g, before, q, s0);
  }

  /** The inner loop: breadth-first from an unseen fitting cell.  It counts the cells of
      the seed's component and marks them seen, and nothing else. */
  method Fill(g: Grid, seen: array<bool>, s0: int) returns (cnt: nat)
    requires seen.Length == g.Size() && g.Fit(s0) && !seen[s0]
    requires Closed(g, Seen(seen))
    modifies seen
    ensures Seen(seen) == old(Seen(seen)) + Component(g, s0) && old(Seen(seen)) !! Component(g, s0)
    ensures Closed(g, Seen(seen))
    ensures cnt == |Component(g, s0)|
  {
    ghost var before := Seen(seen);
    var q := [s0];
    seen[s0] := true;
    cnt := 0;
    StartFill(g, s0, before);
    assert Seen(seen) == before + {s0};
    var hh := 0;
    while hh < |q|
      invariant cnt == hh && Filling(g, s0, before, Seen(seen), q, hh, 0)
      decreases g.Size() - hh
    {
      QueueBounded(g, s0, before, Seen(seen), q, hh);
      var c0 := q[hh];
      cnt := cnt + 1;
      for k := 0 to 4
        invariant hh < |q| && q[hh] == c0 && g.Fit(c0) && Filling(g, s0, before, Seen(seen), q, hh, k)
      {
        var id := Neighbour(g, c0, k);
        Enqueue(g, s0, before, Seen(seen), q, hh, k, id);
        if id < 0 || seen[id] { continue; }
        ghost var marked := Seen(seen);
        seen[id] := true;
        assert Seen(seen) == marked + {id};
        q := q + [id];
      }
      NextInQueue(g, s0, before, Seen(seen), q, hh);
      hh := hh + 1;
    }
    Finished(g, s0, before, Seen(seen), q);
  }

  // --- The whole scan ------------------------------------------------------------------

  /** `best` is the size of the largest component, 0 when nothing fits. */
  ghost predicate IsLargest(g: Grid, best: nat)
  {
    && (forall c :: g.Fit(c) ==> |Component(g, c)| <= best)
    && (best > 0 ==> exists c :: g.Fit(c) && |Component(g, c)| == best)
  }

  /** The body of the scan at cell number `n`, in column x0 of row z0. */
  method ScanCell(g: Grid, seen: array<bool>, x0: int, z0: int, best: nat, total: nat, ghost n: int)
    returns (best': nat, total': nat)
    requires seen.Length == g.Size() && 0 <= x0 < g.w && 0 <= z0 < g.h && n == Index(g.w, x0, z0)
    requires Scanned(g, Seen(seen), n, best, total)
    modifies seen
    ensures Scanned(g, Seen(seen), n + 1, best', total')
  {
    best', total' := best, total;
    IndexOf(g.w, g.h, x0, z0);
    var s0 := z0 * g.w + x0;
    if seen[s0] || !g.fits(x0, z0) { return; }
    var cnt := Fill(g, seen, s0);
    ScanStep(g, old(Seen(seen)), n, best, total);
    best', total' := if cnt > best then cnt else best, total + cnt;
  }

  /** The scan over all cells.  Every fitting cell is counted exactly once: the counts add
      up to the number of fitting cells. */
  method LargestComponent(g: Grid) returns (best: nat, total: nat)
    ensures IsLargest(g, best)
    ensures total == |FittingCells(g)|
  {
    var seen := new bool[g.Size()](i => false);
    best, total := 0, 0;
    assert Seen(seen) == {};
    ghost var n := 0;   // cells scanned so far
    RowEnds(g.w, g.h, 0);
    for z0 := 0 to g.h
      invariant fresh(seen) && Scanned(g, Seen(seen), n, best, total) && n == Index(g.w, 0, z0)
    {
      for x0 := 0 to g.w
        invariant fresh(seen) && Scanned(g, Seen(seen), n, best, total) && n == Index(g.w, x0, z0)
      {
        best, total := ScanCell(g, seen, x0, z0, best, total, n);
        n := n + 1;
      }
      RowEnds(g.w, g.h, z0);
    }
    ScanEnd(g, Seen(seen), best, total);
  }

  /** What holds after the cells before `n`: those of them that fit are seen, and the cells
      seen are whole components, each counted. */
  ghost predicate Scanned(g: Grid, done: set<int>, n: int, best: nat, total: nat)
  {
    && Closed(g, done) && total == |done|
    && (forall c :: 0 <= c < n && g.Fit(c) ==> c in done)
    && (forall c :: c in done ==> g.Fit(c) && |Component(g, c)| <= best)
    && (best > 0 ==> exists c :: c in done && |Component(g, c)| == best)
  }

  lemma ScanStep(g: Grid, done: set<int>, s0: int, best: nat, total: nat)
    requires Scanned(g, done, s0, best, total) && g.Fit(s0) && done !! Component(g, s0)
    requires Closed(g, done + Component(g, s0))
    ensures var cnt := |Component(g, s0)|;
            Scanned(g, done + Component(g, s0), s0 + 1, if cnt > best then cnt else best, total + cnt)
  {
    ConnectedSelf(Edges(g), s0);
    forall c | c in Component(g, s0) ensures Component(g, c) == Component(g, s0) {
      SameComponent(g, s0, c);
    }
  }

  lemma ScanEnd(g: Grid, done: set<int>, best: nat, total: nat)
    requires Scanned(g, done, g.Size(), best, total)
    ensures IsLargest(g, best) && total == |FittingCells(g)|
  {
    assert done == FittingCells(g);
  }

  lemma OpenFloorCells(g: Grid)
    requires g.w > 0 && g.h > 0 && forall i, j :: 0 <= i < g.w && 0 <= j < g.h ==> g.fits(i, j)
    ensures g.Fit(0) && Component(g, 0) == Below(g.Size())
  {
    forall c | 0 <= c < g.Size() ensures c in Component(g, 0) && g.Fit(c) {
      CellOf(g.w, g.h, c);
      OpenFloor(g, Col(g.w, c), Row(g.w, c));
    }
    IndexOf(g.w, g.h, 0, 0);
  }

  /** On an open floor the largest component has all cells. */
  lemma OpenFloorIsLargest(g: Grid, best: nat)
    requires g.w > 0 && g.h > 0 && forall i, j :: 0 <= i < g.w && 0 <= j < g.h ==> g.fits(i, j)
    ensures IsLargest(g, best) <==> best == g.w * g.h
  {
    OpenFloorCells(g);
    forall c | g.Fit(c) ensures |Component(g, c)| == g.Size() {
      assert c in Component(g, 0);
      SameComponent(g, 0, c);
    }
  }

  // --- A larger body never has more room -----------------------------------------------

  /** If every placement of the larger body is one of the smaller, each component of the
      larger lies inside one of the smaller, so the largest component cannot grow. */
  lemma LargestShrinks(g: Grid, g': Grid, best: nat, best': nat)
    requires g.w == g'.w && g.h == g'.h
    requires forall x, z :: 0 <= x < g.w && 0 <= z < g.h && g'.fits(x, z) ==> g.fits(x, z)
    requires IsLargest(g, best) && IsLargest(g', best')
    ensures best' <= best
  {
    if best' > 0 {
      var c :| g'.Fit(c) && |Component(g', c)| == best';
      forall d | g'.Fit(d) ensures g.Fit(d) { CellOf(g.w, g.h, d); }
      forall d | d in Component(g', c) ensures d in Component(g, c) {
        ConnectedMonotone(Edges(g'), Edges(g), c, d);
      }
      SubsetSize(Component(g', c), Component(g, c));
    }
  }

  /** The tool's own placement rule: the n x n window at (x, z) lies on the map and is ok. */
  ghost predicate WindowFree(ok: set<(int, int)>, w: int, h: int, x: int, z: int, n: int)
  {
    && 0 <= x && 0 <= z && x + n <= w && z + n <= h
    && forall i, j :: x <= i < x + n && z <= j < z + n ==> (i, j) in ok
  }

  ghost function WindowGrid(ok: set<(int, int)>, w: nat, h: nat, n: int): Grid
  {
    Grid(w, h, (x, z) => WindowFree(ok, w, h, x, z, n))
  }

  lemma LocalRuleShrinks(ok: set<(int, int)>, w: nat, h: nat, n: nat, n': nat, best: nat, best': nat)
    requires n <= n' && IsLargest(WindowGrid(ok, w, h, n), best) && IsLargest(WindowGrid(ok, w, h, n'), best')
    ensures best' <= best
  {
    LargestShrinks(WindowGrid(ok, w, h, n), WindowGrid(ok, w, h, n'), best, best');
  }

  ghost function NavGridFor(free: NavGrid.Cells, w: nat, h: nat, foot: int): Grid
  {
    Grid(w, h, (x, z) => NavGrid.QueryFits(free, x, z, foot))
  }

  /** The figures the tool prints for growing footprints never increase. */
  lemma NavRuleShrinks(free: NavGrid.Cells, w: nat, h: nat, foot: int, wider: int, best: nat, best': nat)
    requires foot <= wider && IsLargest(NavGridFor(free, w, h, foot), best)
             && IsLargest(NavGridFor(free, w, h, wider), best')
    ensures best' <= best
  {
    forall x, z | NavGrid.QueryFits(free, x, z, wider) ensures NavGrid.QueryFits(free, x, z, foot) {
      NavGrid.NarrowerFits(free, x, z, foot, wider);
    }
    LargestShrinks(NavGridFor(free, w, h, foot), NavGridFor(free, w, h, wider), best, best');
  }

  // --- The region around one unit ----------------------------------------------------------

  const RINGS := 60

  function Ring(i: int, j: int): nat
  {
    var a, b := if i < 0 then -i else i, if j < 0 then -j else j;
    if a < b then b else a
  }

  /** The search order around a point: ring by ring, each from its least row and column. */
  predicate Earlier(i: int, j: int, r: int, j': int, i': int)
  {
    Ring(i, j) < r || (Ring(i, j) == r && (j < j' || (j == j' && i < i')))
  }

  /** Nothing fits before offset (i, j) of ring r. */
  ghost predicate NoneBefore(g: Grid, sx: int, sz: int, r: int, j: int, i: int)
  {
    forall x, z :: Earlier(x - sx, z - sz, r, j, i) ==> !g.fits(x, z)
  }

  /** (x, z) is the first place in the search order around (sx, sz) where the body fits. */
  ghost predicate IsSeed(g: Grid, sx: int, sz: int, x: int, z: int)
  {
    && g.fits(x, z) && Ring(x - sx, z - sz) < RINGS
    && NoneBefore(g, sx, sz, Ring(x - sx, z - sz), z - sz, x - sx)
  }

  /** Look for a place within 60 rings of (sx, sz). */
  method FindSeed(g: Grid, sx: int, sz: int) returns (found: bool, x: int, z: int)
    ensures if found then IsSeed(g, sx, sz, x, z)
            else forall x, z :: Ring(x - sx, z - sz) < RINGS ==> !g.fits(x, z)
  {
    for r := 0 to RINGS
      invariant NoneBefore(g, sx, sz, r, -r, -r)
    {
      for j := -r to r + 1
        invariant NoneBefore(g, sx, sz, r, j, -r)
      {
        for i := -r to r + 1
          invariant NoneBefore(g, sx, sz, r, j, i)
        {
          if Ring(i, j) == r && g.fits(sx + i, sz + j) { return true, sx + i, sz + j; }
        }
      }
    }
    return false, 0, 0;
  }

  /** The figure for a unit: the size of the component of the nearest place where the body
      fits, 0 when there is none within 60 rings. */
  ghost predicate IsFigure(g: Grid, sx: int, sz: int, cnt: nat)
  {
    if exists x, z :: Ring(x - sx, z - sz) < RINGS && g.fits(x, z)
    then exists x, z :: IsSeed(g, sx, sz, x, z) && cnt == |Component(g, Index(g.w, x, z))|
    else cnt == 0
  }

  /** The probe around one unit.  The placement rule knows the map's edge. */
  method Reach(g: Grid, sx: int, sz: int) returns (cnt: nat)
    requires forall x, z :: g.fits(x, z) ==> 0 <= x < g.w && 0 <= z < g.h
    ensures IsFigure(g, sx, sz, cnt)
  {
    var found, bx, bz := FindSeed(g, sx, sz);
    if !found { return 0; }
    IndexOf(g.w, g.h, bx, bz);
    var seen := new bool[g.Size()](i => false);
    assert Seen(seen) == {};
    cnt := Fill(g, seen, bz * g.w + bx);
  }

  lemma SeedUnique(g: Grid, sx: int, sz: int, x: int, z: int, x': int, z': int)
    requires IsSeed(g, sx, sz, x, z) && IsSeed(g, sx, sz, x', z')
    ensures x == x' && z == z'
  {
    assert !Earlier(x - sx, z - sz, Ring(x' - sx, z' - sz), z' - sz, x' - sx);
  }

  /** The seed is a nearest fitting place, by the longer of the two distances along the axes; of
      several the one in the least row, and there in the least column. */
  lemma SeedIsNearest(g: Grid, sx: int, sz: int, x: int, z: int)
    ensures IsSeed(g, sx, sz, x, z) <==>
              && g.fits(x, z) && Away(sx, sz, x, z) < 60
              && forall x', z' :: g.fits(x', z') ==>
                   var r, r' := Away(sx, sz, x, z), Away(sx, sz, x', z');
                   r < r' || (r == r' && (z < z' || (z == z' && x <= x')))
  {
    var r := Away(sx, sz, x, z);
    forall x', z' | g.fits(x', z') && !Earlier(x' - sx, z' - sz, Ring(x - sx, z - sz), z - sz, x - sx)
      ensures var r' := Away(sx, sz, x', z'); r < r' || (r == r' && (z < z' || (z == z' && x <= x')))
    {
    }
  }

  function Away(sx: int, sz: int, x: int, z: int): nat
  {
    if Apart(x, sx) < Apart(z, sz) then Apart(z, sz) else Apart(x, sx)
  }

  /** Wherever the probe starts for a wider body is in the component it measures for a
      narrower one. */
  ghost predicate SameRoom(g: Grid, g': Grid, sx: int, sz: int)
  {
    forall x, z, x', z' :: IsSeed(g, sx, sz, x, z) && IsSeed(g', sx, sz, x', z') ==>
      Index(g.w, x', z') in Component(g, Index(g.w, x, z))
  }

  /** Around one unit the figure of a wider body is no larger when both are measured in the
      same room; a wider body may also find no place at all. */
  lemma ReachShrinks(ok: set<(int, int)>, w: nat, h: nat, n: nat, n': nat, sx: int, sz: int, cnt: nat, cnt': nat)
    requires n <= n' && SameRoom(WindowGrid(ok, w, h, n), WindowGrid(ok, w, h, n'), sx, sz)
    requires IsFigure(WindowGrid(ok, w, h, n), sx, sz, cnt) && IsFigure(WindowGrid(ok, w, h, n'), sx, sz, cnt')
    ensures cnt' <= cnt
  {
    var g, g' := WindowGrid(ok, w, h, n), WindowGrid(ok, w, h, n');
    assert forall x, z :: g'.fits(x, z) ==> g.fits(x, z);
    if cnt' > 0 {
      var x', z' :| IsSeed(g', sx, sz, x', z') && cnt' == |Component(g', Index(w, x', z'))|;
      assert g.fits(x', z');
      var x, z :| IsSeed(g, sx, sz, x, z) && cnt == |Component(g, Index(w, x, z))|;
      ComponentShrinks(ok, w, h, n, n', Index(w, x, z), Index(w, x', z'));
    }
  }

  /** It is the same room when the wider body fits where the narrower one is measured. */
  lemma SameSeed(ok: set<(int, int)>, w: nat, h: nat, n: nat, n': nat, sx: int, sz: int, x: int, z: int)
    requires 0 < n <= n' && IsSeed(WindowGrid(ok, w, h, n), sx, sz, x, z) && WindowFree(ok, w, h, x, z, n')
    ensures SameRoom(WindowGrid(ok, w, h, n), WindowGrid(ok, w, h, n'), sx, sz)
  {
    var g, g' := WindowGrid(ok, w, h, n), WindowGrid(ok, w, h, n');
    forall x1, z1 | Earlier(x1 - sx, z1 - sz, Ring(x - sx, z - sz), z - sz, x - sx) ensures !g'.fits(x1, z1) {
      assert !g.fits(x1, z1);
    }
    assert IsSeed(g', sx, sz, x, z);
    forall x1, z1, x', z' | IsSeed(g, sx, sz, x1, z1) && IsSeed(g', sx, sz, x', z')
      ensures Index(w, x', z') in Component(g, Index(w, x1, z1))
    {
      SeedUnique(g, sx, sz, x, z, x1, z1);
      SeedUnique(g', sx, sz, x, z, x', z');
      IndexOf(w, h, x, z);
      ConnectedSelf(Edges(g), Index(w, x, z));
    }
  }

  lemma ComponentShrinks(ok: set<(int, int)>, w: nat, h: nat, n: nat, n': nat, s: int, s': int)
    requires n <= n' && s' in Component(WindowGrid(ok, w, h, n), s)
    ensures |Component(WindowGrid(ok, w, h, n'), s')| <= |Component(WindowGrid(ok, w, h, n), s)|
  {
    var g, g' := WindowGrid(ok, w, h, n), WindowGrid(ok, w, h, n');
    SameComponent(g, s, s');
    forall d | d in Component(g', s') ensures d in Component(g, s') {
      ConnectedMonotone(Edges(g'), Edges(g), s', d);
    }
    SubsetSize(Component(g', s'), Component(g, s'));
  }

  /** A single free cell beside a room of three by two cells. */
  const TWO_ROOMS: set<(int, int)> := {(0, 0), (2, 0), (3, 0), (4, 0), (2, 1), (3, 1), (4, 1)}

  ghost function RoomsFor(n: int): Grid { WindowGrid(TWO_ROOMS, 5, 2, n) }

  lemma RoomsFit(x: int, z: int)
    ensures RoomsFor(1).fits(x, z) <==> (x, z) in TWO_ROOMS
    ensures RoomsFor(2).fits(x, z) <==> z == 0 && (x == 2 || x == 3)
  {
    if WindowFree(TWO_ROOMS, 5, 2, x, z, 1) || WindowFree(TWO_ROOMS, 5, 2, x, z, 2) { assert (x, z) in TWO_ROOMS; }
    if WindowFree(TWO_ROOMS, 5, 2, x, z, 2) { assert (x + 1, z) in TWO_ROOMS && (x, z + 1) in TWO_ROOMS; }
  }

  /** The single cell has no free neighbour. */
  lemma NoWayOut(d: int)
    requires RoomsFor(1).Fit(d)
    ensures !Beside(RoomsFor(1), 0, d)
  {
    RoomsFit(Col(5, d), Row(5, d));
    assert Col(5, 0) == 0 && Row(5, 0) == 0;
  }

  lemma SmallRoom()
    ensures |Component(RoomsFor(1), 0)| <= 1
  {
    var g := RoomsFor(1);
    forall d | Step(g, 0, d) ensures false { NoWayOut(d); }
    forall d | d in Component(g, 0) ensures d == 0 {
      var p :| Joins(Edges(g), p, 0, d);
      PathStaysIn(Edges(g), iset{0}, p);
    }
    SubsetSize(Component(g, 0), {0});
  }

  lemma LargeRoom()
    ensures |Component(RoomsFor(2), 2)| >= 2
  {
    var g := RoomsFor(2);
    RoomsFit(2, 0);
    RoomsFit(3, 0);
    ConnectedSelf(Edges(g), 2);
    assert IsStep(g, 2, 3, 0);
    ConnectedStep(Edges(g), 2, 2, 3);
    SubsetSize({2, 3}, Component(g, 2));
  }

  /** Otherwise it can be larger: a wider body is measured in the next room. */
  lemma ReachCanGrow() returns (cnt: nat, cnt': nat)
    ensures IsFigure(RoomsFor(1), 0, 0, cnt) && IsFigure(RoomsFor(2), 0, 0, cnt') && cnt < cnt'
  {
    RoomsFit(0, 0);
    RoomsFit(2, 0);
    forall x, z | Earlier(x, z, 2, 0, 2) ensures !RoomsFor(2).fits(x, z) { RoomsFit(x, z); }
    forall x, z | Earlier(x, z, 0, 0, 0) ensures !RoomsFor(1).fits(x, z) { RoomsFit(x, z); }
    assert IsSeed(RoomsFor(1), 0, 0, 0, 0) && IsSeed(RoomsFor(2), 0, 0, 2, 0);
    cnt, cnt' := |Component(RoomsFor(1), 0)|, |Component(RoomsFor(2), 2)|;
    assert Ring(0, 0) < RINGS && Ring(2, 0) < RINGS;
    SmallRoom();
    LargeRoom();
  }
}
