/** The walkability grid and its clearance cache (src/sim/sim.cpp, src/sim/sim.h).

    `Clearance` is the independent definition: the side of the largest free square
    whose least corner is the cell, saturated at 15.  The dynamic program computes it,
    an edit of a rectangle refreshes it exactly, and so the constant-time `Fits` agrees
    with looking at every cell under the footprint. */
module NavGrid {

  type Cells = set<(int, int)>

  const CLEAR_MAX := 15

  /** The `side` x `side` block with least corner (x, z) is free. */
  ghost predicate Square(free: Cells, x: int, z: int, side: int)
  {
    forall i, j :: x <= i < x + side && z <= j < z + side ==> (i, j) in free
  }

  ghost function LargestUpTo(free: Cells, x: int, z: int, side: nat): nat
  {
    if side == 0 || Square(free, x, z, side) then side else LargestUpTo(free, x, z, side - 1)
  }

  ghost function Clearance(free: Cells, x: int, z: int): nat { LargestUpTo(free, x, z, CLEAR_MAX) }

  lemma {:induction false} LargestIs(free: Cells, x: int, z: int, side: nat)
    ensures var c := LargestUpTo(free, x, z, side);
            c <= side && Square(free, x, z, c) && (c < side ==> !Square(free, x, z, c + 1))
  {
    if side > 0 && !Square(free, x, z, side) { LargestIs(free, x, z, side - 1); }
  }

  /** The cache answers every footprint it can hold. */
  lemma ClearanceAnswers(free: Cells, x: int, z: int, side: nat)
    ensures side <= Clearance(free, x, z) <==> side <= 15 && Square(free, x, z, side)
  {
    LargestIs(free, x, z, CLEAR_MAX);
    var c := Clearance(free, x, z);
    if c < side && Square(free, x, z, side) {
      assert Square(free, x, z, c + 1);
    }
  }

  function Min3(a: int, b: int, c: int): int
  {
    if a <= b && a <= c then a else if b <= c then b else c
  }

  /** A larger square is a free corner with three overlapping smaller squares. */
  lemma SquareStep(free: Cells, x: int, z: int, side: nat)
    ensures Square(free, x, z, side + 1) <==>
            (x, z) in free && Square(free, x + 1, z, side) && Square(free, x, z + 1, side)
                && Square(free, x + 1, z + 1, side)
  {
    if (x, z) in free && Square(free, x + 1, z, side) && Square(free, x, z + 1, side)
        && Square(free, x + 1, z + 1, side) {
      GrowSquare(free, x, z, side);
    }
  }

  lemma GrowSquare(free: Cells, x: int, z: int, side: nat)
    requires (x, z) in free
    requires Square(free, x + 1, z, side) && Square(free, x, z + 1, side) && Square(free, x + 1, z + 1, side)
    ensures Square(free, x, z, side + 1)
  {
  }

  ghost function LeastNext(free: Cells, x: int, z: int): int
  {
    Min3(Clearance(free, x + 1, z), Clearance(free, x, z + 1), Clearance(free, x + 1, z + 1))
  }

  lemma StepAnswers(free: Cells, x: int, z: int, side: nat)
    ensures side + 1 <= Clearance(free, x, z) <==> side < CLEAR_MAX && (x, z) in free && side <= LeastNext(free, x, z)
  {
    SquareStep(free, x, z, side);
    ClearanceAnswers(free, x, z, side + 1);
    ClearanceAnswers(free, x + 1, z, side);
    ClearanceAnswers(free, x, z + 1, side);
    ClearanceAnswers(free, x + 1, z + 1, side);
  }

  /** The recurrence of the dynamic program, saturation included. */
  lemma ClearanceStep(free: Cells, x: int, z: int)
    ensures Clearance(free, x, z) ==
            if (x, z) !in free then 0
            else if LeastNext(free, x, z) + 1 < CLEAR_MAX then LeastNext(free, x, z) + 1 else CLEAR_MAX
  {
    var least := LeastNext(free, x, z);
    var c := if (x, z) !in free then 0 else if least + 1 < CLEAR_MAX then least + 1 else CLEAR_MAX;
    StepAnswers(free, x, z, c);
    if c > 0 { StepAnswers(free, x, z, c - 1); }
  }

  /** Saturation bounds how far an edit can be felt: a cell whose 15 x 15 block avoids
      the edited rectangle keeps its clearance. */
  lemma {:induction false} EditIsLocal(was: Cells, now: Cells, x: int, z: int, side: nat)
    requires forall i, j :: x <= i < x + side && z <= j < z + side ==> ((i, j) in was <==> (i, j) in now)
    ensures LargestUpTo(was, x, z, side) == LargestUpTo(now, x, z, side)
  {
    assert Square(was, x, z, side) <==> Square(now, x, z, side);
    if side > 0 && !Square(was, x, z, side) { EditIsLocal(was, now, x, z, side - 1); }
  }

  /** The least corner of a footprint of `foot` cells centred on cell `c`. */
  function Corner(c: int, foot: nat): int { c - foot / 2 }

  /** Every cell under a body of `foot` cells centred on (cx, cz) is free. */
  ghost predicate FootprintFree(free: Cells, cx: int, cz: int, foot: int)
  {
    if foot <= 1 then (cx, cz) in free else Square(free, Corner(cx, foot), Corner(cz, foot), foot)
  }

  /** These are the cells less than half a body's width from its centre, and on even widths the
      row and the column just before. */
  lemma UnderTheBody(free: Cells, cx: int, cz: int, foot: int)
    requires foot > 0
    ensures FootprintFree(free, cx, cz, foot) <==>
            forall i, j :: -foot <= 2 * (i - cx) < foot && -foot <= 2 * (j - cz) < foot ==> (i, j) in free
  {
  }

  /** What the cache can say about it. */
  ghost predicate QueryFits(free: Cells, cx: int, cz: int, foot: int)
  {
    if foot <= 1 then (cx, cz) in free else foot <= Clearance(free, Corner(cx, foot), Corner(cz, foot))
  }

  /** The query agrees with looking at every cell exactly for footprints up to 15 cells, and
      for wider ones where there is no room anyway. */
  lemma QueryExact(free: Cells, cx: int, cz: int, foot: int)
    ensures QueryFits(free, cx, cz, foot) <==> foot <= 15 && FootprintFree(free, cx, cz, foot)
    ensures (QueryFits(free, cx, cz, foot) <==> FootprintFree(free, cx, cz, foot)) <==>
            foot <= 15 || !FootprintFree(free, cx, cz, foot)
  {
    if foot > 1 { ClearanceAnswers(free, Corner(cx, foot), Corner(cz, foot), foot); }
  }

  /** A wide open square of 16 x 16 cells that the query refuses to a body of 16 cells. */
  lemma WideBodyRefused() returns (free: Cells)
    ensures FootprintFree(free, 8, 8, 16) && !QueryFits(free, 8, 8, 16)
  {
    free := set x, z | 0 <= x < 16 && 0 <= z < 16 :: (x, z);
    QueryExact(free, 8, 8, 16);
  }

  /** A wider body never fits where a narrower one does not. */
  lemma NarrowerFits(free: Cells, cx: int, cz: int, foot: int, wider: int)
    requires foot <= wider && QueryFits(free, cx, cz, wider)
    ensures QueryFits(free, cx, cz, foot)
  {
    QueryExact(free, cx, cz, foot);
    QueryExact(free, cx, cz, wider);
    if foot <= 1 {
      assert (cx, cz) in free;
    }
  }

  class NavGrid {
    const w: nat
    const h: nat
    const cells: array2<bool>
    const clear: array2<int>
    var clearDirty: bool

    constructor (w: nat, h: nat)
      ensures this.w == w && this.h == h && Sized() && clearDirty && fresh(cells) && fresh(clear)
      ensures Free() == set x, z | 0 <= x < w && 0 <= z < h :: (x, z)
    {
      this.w, this.h, clearDirty := w, h, true;
      cells := new bool[w, h]((x, z) => true);
      clear := new int[w, h]((x, z) => 0);
    }

    ghost predicate Sized()
    {
      cells.Length0 == clear.Length0 == w && cells.Length1 == clear.Length1 == h
    }

    /** The walkable cells. */
    ghost function Free(): Cells
      requires Sized()
      reads cells
    {
      set x, z | 0 <= x < w && 0 <= z < h && cells[x, z] :: (x, z)
    }

    /** The cache is right wherever it is not marked dirty. */
    ghost predicate Valid()
      reads this, cells, clear
    {
      Sized() && (!clearDirty ==> Cached(Free()))
    }

    ghost predicate Cached(free: Cells)
      requires Sized()
      reads clear
    {
      forall x, z :: 0 <= x < w && 0 <= z < h ==> clear[x, z] == Clearance(free, x, z)
    }

    predicate Walkable(x: int, z: int)
      requires Sized()
      reads cells
      ensures Walkable(x, z) <==> (x, z) in Free()
    {
      0 <= x < w && 0 <= z < h && cells[x, z]
    }

    /** One cell of the dynamic program, given its three neighbours are right. */
    method Recompute(x: int, z: int)
      requires Sized() && 0 <= x < w && 0 <= z < h
      requires x + 1 < w ==> clear[x + 1, z] == Clearance(Free(), x + 1, z)
      requires z + 1 < h ==> clear[x, z + 1] == Clearance(Free(), x, z + 1)
      requires x + 1 < w && z + 1 < h ==> clear[x + 1, z + 1] == Clearance(Free(), x + 1, z + 1)
      modifies clear
      ensures clear[x, z] == Clearance(Free(), x, z)
      ensures forall i, j :: 0 <= i < w && 0 <= j < h && (i, j) != (x, z) ==> clear[i, j] == old(clear[i, j])
    {
      ClearanceStep(Free(), x, z);
      ClearanceStep(Free(), x + 1, z);
      ClearanceStep(Free(), x, z + 1);
      ClearanceStep(Free(), x + 1, z + 1);
      var v := 0;
      if Walkable(x, z) {
        var r := if x + 1 < w then clear[x + 1, z] else 0;
        var u := if z + 1 < h then clear[x, z + 1] else 0;
        var ru := if x + 1 < w && z + 1 < h then clear[x + 1, z + 1] else 0;
        var least := Min3(r, u, ru);
        v := if least + 1 < CLEAR_MAX then least + 1 else CLEAR_MAX;
      }
      clear[x, z] := v;
    }

    method RebuildClearance()
      requires Sized()
      modifies this`clearDirty, clear
      ensures Valid() && !clearDirty
    {
      ghost var free := Free();
      for z := h downto 0
        invariant Free() == free
        invariant forall i, j :: 0 <= i < w && z <= j < h ==> clear[i, j] == Clearance(free, i, j)
      {
        for x := w downto 0
          invariant Free() == free
          invariant forall i, j :: 0 <= i < w && z < j < h ==> clear[i, j] == Clearance(free, i, j)
          invariant forall i :: x <= i < w ==> clear[i, z] == Clearance(free, i, z)
        {
          Recompute(x, z);
        }
      }
      clearDirty := false;
    }

    /** Outside of the rectangle with corners (x0, z0) and (x1, z) the cache is right. */
    ghost predicate RightOutside(free: Cells, x0: int, x1: int, z0: int, z: int)
      requires Sized()
      reads clear
    {
      forall i, j :: 0 <= i < w && 0 <= j < h && !(x0 <= i <= x1 && z0 <= j <= z) ==>
          clear[i, j] == Clearance(free, i, j)
    }

    /** One row of the band. */
    method RefreshRow(x0: int, x1: int, z0: int, z: int)
      requires Sized() && 0 <= x0 && x1 < w && 0 <= z0 <= z < h && RightOutside(Free(), x0, x1, z0, z)
      modifies clear
      ensures RightOutside(Free(), x0, x1, z0, z - 1)
    {
      ghost var free := Free();
      var x := x1;
      while x >= x0
        invariant x <= x1 && Free() == free
        invariant forall i, j ::
                    0 <= i < w && 0 <= j < h && !(x0 <= i <= x1 && z0 <= j < z) && !(j == z && x0 <= i <= x) ==>
                      clear[i, j] == Clearance(free, i, j)
      {
        Recompute(x, z);
        x := x - 1;
      }
    }

    /** Refresh the cache after an edit confined to the given rectangle: it becomes equal
        to what a full rebuild would give. */
    method UpdateClearanceRect(cx: int, cz: int, cw: int, ch: int, ghost was: Cells)
      requires Sized() && Cached(was)
      requires forall i, j :: !(cx <= i < cx + cw && cz <= j < cz + ch) ==> ((i, j) in was <==> (i, j) in Free())
      modifies clear
      ensures Cached(Free())
    {
      var x0 := if cx - CLEAR_MAX < 0 then 0 else cx - CLEAR_MAX;
      var z0 := if cz - CLEAR_MAX < 0 then 0 else cz - CLEAR_MAX;
      var x1 := if w - 1 < cx + cw - 1 then w - 1 else cx + cw - 1;
      var z1 := if h - 1 < cz + ch - 1 then h - 1 else cz + ch - 1;
      forall i, j | 0 <= i < w && 0 <= j < h && !(x0 <= i <= x1 && z0 <= j <= z1)
        ensures clear[i, j] == Clearance(Free(), i, j)
      {
        EditIsLocal(was, Free(), i, j, CLEAR_MAX);
      }
      var z := z1;
      while z >= z0
        invariant z <= z1 && RightOutside(Free(), x0, x1, z0, z)
      {
        RefreshRow(x0, x1, z0, z);
        z := z - 1;
      }
    }

    /** Block or clear a rectangle, keeping the cache right. */
    method Block(cx: int, cz: int, cw: int, ch: int, blocked: bool)
      requires Valid()
      modifies this`clearDirty, cells, clear
      ensures Valid() && clearDirty == old(clearDirty)
      ensures forall x, z :: 0 <= x < w && 0 <= z < h ==>
                ((x, z) in Free() <==> if cx <= x < cx + cw && cz <= z < cz + ch then !blocked
                 else (x, z) in old(Free()))
    {
      ghost var was := Free();
      var z := cz;
      while z < cz + ch
        modifies cells
        invariant cz <= z && (cz < z ==> z <= cz + ch)
        invariant forall i, j :: 0 <= i < w && 0 <= j < h ==>
                    cells[i, j] == if cx <= i < cx + cw && cz <= j < z then !blocked else old(cells[i, j])
      {
        var x := cx;
        while x < cx + cw
          modifies cells
          invariant cx <= x && (cx < x ==> x <= cx + cw)
          invariant forall i, j :: 0 <= i < w && 0 <= j < h ==>
                      cells[i, j] == if cx <= i < cx + cw && (cz <= j < z || (j == z && i < x)) then !blocked
                                     else old(cells[i, j])
        {
          if x >= 0 && z >= 0 && x < w && z < h { cells[x, z] := !blocked; }
          x := x + 1;
        }
        z := z + 1;
      }
      forall i, j | 0 <= i < w && 0 <= j < h
        ensures (i, j) in Free() <==> if cx <= i < cx + cw && cz <= j < cz + ch then !blocked else (i, j) in was
      {
        assert (i, j) in Free() <==> Walkable(i, j);
        assert (i, j) in was <==> old(Walkable(i, j));
      }
      if !clearDirty {
        UpdateClearanceRect(cx, cz, cw, ch, was);
      }
    }

    /** Does a body of `foot` cells fit centred on (cx, cz)?  One look at the cache. */
    method Fits(cx: int, cz: int, foot: int) returns (ok: bool)
      requires Valid()
      modifies this`clearDirty, clear
      ensures Valid() && Free() == old(Free())
      ensures ok <==> QueryFits(Free(), cx, cz, foot)
    {
      if foot <= 1 { return Walkable(cx, cz); }
      if clearDirty { RebuildClearance(); }
      var off := foot / 2;
      var bx, bz := cx - off, cz - off;
      if bx < 0 || bz < 0 || bx + foot > w || bz + foot > h {
        OffGrid(foot, bx, bz);
        QueryExact(Free(), cx, cz, foot);
        return false;
      }
      return clear[bx, bz] >= foot;
    }

    lemma OffGrid(foot: int, bx: int, bz: int)
      requires Sized() && foot >= 1
      requires bx < 0 || bz < 0 || bx + foot > w || bz + foot > h
      ensures !Square(Free(), bx, bz, foot)
    {
      if bx < 0 || bz < 0 { assert (bx, bz) !in Free(); } else { assert (bx + foot - 1, bz + foot - 1) !in Free(); }
    }
  }
}
