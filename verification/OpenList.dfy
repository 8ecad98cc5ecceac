/** The open list of the resumable A*: a binary heap ordered by estimate, ties by cell number
    (src/sim/pathsearch.cpp).  The source's two parallel vectors are one sequence of pairs. */
module OpenList {

  datatype Entry = Entry(f: int, cell: int)

  predicate Before(a: Entry, b: Entry) { a.f < b.f || (a.f == b.f && a.cell < b.cell) }

  /** The order is total, so equal contents always come out in the same order. */
  predicate NotAfter(a: Entry, b: Entry) { !Before(b, a) }

  function Parent(i: int): int { (i - 1) / 2 }

  ghost predicate IsHeap(q: seq<Entry>) { forall i :: 0 < i < |q| ==> NotAfter(q[Parent(i)], q[i]) }

  /** The root of a heap comes before everything else. */
  lemma {:induction false} RootFirst(q: seq<Entry>, i: nat)
    requires IsHeap(q) && i < |q|
    ensures NotAfter(q[0], q[i])
  {
    if i > 0 { RootFirst(q, Parent(i)); }
  }

  /** `e` is the first entry of a collection. */
  ghost predicate IsFirst(e: Entry, all: multiset<Entry>) { e in all && forall x :: x in all ==> NotAfter(e, x) }

  lemma FirstUnique(a: Entry, b: Entry, all: multiset<Entry>)
    requires IsFirst(a, all) && IsFirst(b, all)
    ensures a == b
  {
  }

  /** It has the least estimate, and of several such entries the least cell number. */
  lemma FirstIs(e: Entry, all: multiset<Entry>)
    ensures IsFirst(e, all) <==> e in all && forall x :: x in all ==> e.f < x.f || (e.f == x.f && e.cell <= x.cell)
  {
    forall x | x in all ensures NotAfter(e, x) <==> e.f < x.f || (e.f == x.f && e.cell <= x.cell) {}
  }

  // --- Putting in ------------------------------------------------------------------------------

  /** A heap but for entry `i`, which may come before its parent. */
  ghost predicate Rising(q: seq<Entry>, i: int)
  {
    && (forall j :: 0 < j < |q| && j != i ==> NotAfter(q[Parent(j)], q[j]))
    && (forall j :: 0 < j < |q| && Parent(j) == i && i > 0 ==> NotAfter(q[Parent(i)], q[j]))
  }

  function Swapped(q: seq<Entry>, i: int, j: int): (r: seq<Entry>)
    requires 0 <= i < |q| && 0 <= j < |q|
    ensures |r| == |q| && r[i] == q[j] && r[j] == q[i] && forall k :: 0 <= k < |q| && k != i && k != j ==> r[k] == q[k]
  {
    q[i := q[j]][j := q[i]]
  }

  lemma SwappedSame(q: seq<Entry>, i: int, j: int)
    requires 0 <= i < |q| && 0 <= j < |q|
    ensures multiset(Swapped(q, i, j)) == multiset(q)
  {
  }

  lemma RiseOne(q: seq<Entry>, i: int)
    requires 0 < i < |q| && Rising(q, i) && Before(q[i], q[Parent(i)])
    ensures Rising(Swapped(q, i, Parent(i)), Parent(i))
  {
    var p := Parent(i);
    var r := Swapped(q, i, p);
    forall j | 0 < j < |r| && j != p ensures NotAfter(r[Parent(j)], r[j]) {
      if j != i && Parent(j) != i && Parent(j) != p { assert NotAfter(q[Parent(j)], q[j]); }
    }
  }

  method Push(q0: seq<Entry>, e: Entry) returns (q: seq<Entry>)
    requires IsHeap(q0)
    ensures IsHeap(q) && multiset(q) == multiset(q0) + multiset{e}
  {
    q := q0 + [e];
    var i := |q| - 1;
    while i > 0
      invariant 0 <= i < |q| && Rising(q, i) && multiset(q) == multiset(q0) + multiset{e}
    {
      var parent := (i - 1) / 2;
      if !Before(q[i], q[parent]) { break; }
      RiseOne(q, i);
      SwappedSame(q, i, parent);
      q := Swapped(q, i, parent);
      i := parent;
    }
  }

  // --- Taking out --------------------------------------------------------------------------------

  /** A heap but for entry `i`, which may come after its children. */
  ghost predicate Sinking(q: seq<Entry>, i: int)
  {
    && (forall j :: 0 < j < |q| && Parent(j) != i ==> NotAfter(q[Parent(j)], q[j]))
    && (forall j :: 0 < j < |q| && Parent(j) == i && i > 0 ==> NotAfter(q[Parent(i)], q[j]))
  }

  /** `best` is the first of entry `i` and its children. */
  predicate BestOf(q: seq<Entry>, i: int, best: int)
    requires 0 <= i < |q|
  {
    && (best == i || best == 2 * i + 1 || best == 2 * i + 2) && best < |q|
    && (forall j :: i <= j < |q| && (j == i || Parent(j) == i) ==> NotAfter(q[best], q[j]))
  }

  lemma SinkOne(q: seq<Entry>, i: int, best: int)
    requires 0 <= i < |q| && Sinking(q, i) && BestOf(q, i, best) && best != i
    ensures Sinking(Swapped(q, i, best), best)
  {
    var r := Swapped(q, i, best);
    forall j | 0 < j < |r| && Parent(j) != best ensures NotAfter(r[Parent(j)], r[j]) {
      if Parent(j) == i { assert NotAfter(q[best], q[j]); } else if j != i { assert NotAfter(q[Parent(j)], q[j]); }
    }
    forall j | 0 < j < |r| && Parent(j) == best ensures NotAfter(r[Parent(best)], r[j]) {
      assert NotAfter(q[Parent(j)], q[j]);
    }
  }

  /** The choice among an entry and its children. */
  method Better(q: seq<Entry>, i: int) returns (best: int)
    requires 0 <= i < |q|
    ensures BestOf(q, i, best)
  {
    var l := 2 * i + 1;
    var r := l + 1;
    best := i;
    if l < |q| && Before(q[l], q[best]) { best := l; }
    if r < |q| && Before(q[r], q[best]) { best := r; }
  }

  method Pop(q0: seq<Entry>) returns (top: Entry, q: seq<Entry>)
    requires IsHeap(q0) && q0 != []
    ensures IsFirst(top, multiset(q0)) && IsHeap(q) && multiset(q) == multiset(q0) - multiset{top}
  {
    top := q0[0];
    RootIsFirst(q0);
    q := q0[0 := q0[|q0| - 1]][..|q0| - 1];
    LastToRoot(q0);
    if q == [] { return; }
    var i := 0;
    while true
      invariant 0 <= i < |q| && Sinking(q, i) && multiset(q) == multiset(q0) - multiset{top}
      decreases |q| - i
    {
      var best := Better(q, i);
      if best == i {
        SunkIsHeap(q, i);
        break;
      }
      SinkOne(q, i, best);
      SwappedSame(q, i, best);
      q := Swapped(q, i, best);
      i := best;
    }
  }

  lemma SunkIsHeap(q: seq<Entry>, i: int)
    requires 0 <= i < |q| && Sinking(q, i) && BestOf(q, i, i)
    ensures IsHeap(q)
  {
  }

  lemma RootIsFirst(q: seq<Entry>)
    requires IsHeap(q) && q != []
    ensures IsFirst(q[0], multiset(q))
  {
    forall x | x in multiset(q) ensures NotAfter(q[0], x) {
      var i :| 0 <= i < |q| && q[i] == x;
      RootFirst(q, i);
    }
  }

  lemma LastToRoot(q0: seq<Entry>)
    requires IsHeap(q0) && q0 != []
    ensures var q := q0[0 := q0[|q0| - 1]][..|q0| - 1]; Sinking(q, 0) && multiset(q) == multiset(q0) - multiset{q0[0]}
  {
    var n := |q0| - 1;
    var q := q0[0 := q0[n]][..n];
    if n > 0 { assert q == [q0[n]] + q0[1..n]; }
    MovedSame(q0);
  }

  /** Moving the last entry to the front drops exactly the first. */
  lemma MovedSame(q0: seq<Entry>)
    requires q0 != []
    ensures multiset(q0[0 := q0[|q0| - 1]][..|q0| - 1]) == multiset(q0) - multiset{q0[0]}
  {
    var n := |q0| - 1;
    if n > 0 {
      assert q0 == [q0[0]] + q0[1..n] + [q0[n]];
      assert q0[0 := q0[n]][..n] == [q0[n]] + q0[1..n];
    } else {
      assert q0 == [q0[0]];
    }
  }
}
