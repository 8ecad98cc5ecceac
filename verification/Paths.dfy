/** Reachability along the edges of a finite directed graph on cell numbers. */
module Paths {

  type Edge = (int, int) -> bool

  ghost predicate IsPath(e: Edge, p: seq<int>)
  {
    p != [] && forall i {:trigger p[i]} :: 1 <= i < |p| ==> e(p[i - 1], p[i])
  }

  ghost predicate Joins(e: Edge, p: seq<int>, c: int, d: int)
  {
    IsPath(e, p) && p[0] == c && p[|p| - 1] == d
  }

  ghost predicate Connected(e: Edge, c: int, d: int) { exists p :: Joins(e, p, c, d) }

  ghost predicate Symmetric(e: Edge) { forall c, d :: e(c, d) ==> e(d, c) }

  lemma ConnectedSelf(e: Edge, c: int)
    ensures Connected(e, c, c)
  {
    assert Joins(e, [c], c, c);
  }

  lemma ConnectedStep(e: Edge, s: int, c: int, d: int)
    requires Connected(e, s, c) && e(c, d)
    ensures Connected(e, s, d)
  {
    var p :| Joins(e, p, s, c);
    assert Joins(e, p + [d], s, d);
  }

  /** A set closed under edges holds every path that starts in it. */
  lemma {:induction false} PathStaysIn(e: Edge, inside: iset<int>, p: seq<int>)
    requires IsPath(e, p) && p[0] in inside
    requires forall c, d :: c in inside && e(c, d) ==> d in inside
    ensures p[|p| - 1] in inside
  {
    if |p| > 1 {
      var front, last := p[..|p| - 1], p[|p| - 1];
      PathStaysIn(e, inside, front);
      assert e(p[|p| - 2], last);
    }
  }

  lemma ConnectedSymmetric(e: Edge, c: int, d: int)
    requires Symmetric(e) && Connected(e, c, d)
    ensures Connected(e, d, c)
  {
    var p :| Joins(e, p, c, d);
    var r := seq(|p|, i requires 0 <= i < |p| => p[|p| - 1 - i]);
    forall i {:trigger r[i]} | 1 <= i < |r| ensures e(r[i - 1], r[i]) {
      var k := |p| - i;
      assert p[k] == r[i - 1] && p[k - 1] == r[i];
    }
    assert Joins(e, r, d, c);
  }

  lemma ConnectedTransitive(e: Edge, a: int, b: int, c: int)
    requires Connected(e, a, b) && Connected(e, b, c)
    ensures Connected(e, a, c)
  {
    var p :| Joins(e, p, a, b);
    var q :| Joins(e, q, b, c);
    var r := p + q[1..];
    forall i {:trigger r[i]} | 1 <= i < |r| ensures e(r[i - 1], r[i]) {
      if i >= |p| {
        var k := i - |p| + 1;
        assert q[k] == r[i] && q[k - 1] == r[i - 1];
      } else {
        assert p[i] == r[i];
      }
    }
    assert Joins(e, r, a, c);
  }

  lemma ConnectedMonotone(e: Edge, e': Edge, c: int, d: int)
    requires forall a, b {:trigger e(a, b)} :: e(a, b) ==> e'(a, b)
    requires Connected(e, c, d)
    ensures Connected(e', c, d)
  {
    var p :| Joins(e, p, c, d);
    forall i {:trigger p[i]} | 1 <= i < |p| ensures e'(p[i - 1], p[i]) {
      var a, b := p[i - 1], p[i];
      assert p[i] == b;
      assert e(a, b);
    }
    assert Joins(e', p, c, d);
  }
}

/** Counting elements of small finite sets. */
module Counting {
  import opened Basics

  ghost function Elements<T>(q: seq<T>): set<T> { set x | x in q }

  lemma {:induction false} DistinctSize<T>(q: seq<T>)
    requires Distinct(q)
    ensures |Elements(q)| == |q|
  {
    if q != [] {
      var front := q[..|q| - 1];
      assert q == front + [q[|q| - 1]];
      DistinctSize(front);
      assert Elements(q) == Elements(front) + {q[|q| - 1]};
    }
  }

  lemma {:induction false} ElementsSize<T>(q: seq<T>)
    ensures |Elements(q)| <= |q|
  {
    if q != [] {
      var front := q[..|q| - 1];
      assert q == front + [q[|q| - 1]];
      ElementsSize(front);
      assert Elements(q) == Elements(front) + {q[|q| - 1]};
    }
  }

  lemma {:induction false} SubsetSize<T>(a: set<T>, b: set<T>)
    requires a <= b
    ensures |a| <= |b|
  {
    if a != {} {
      var x :| x in a;
      SubsetSize(a - {x}, b - {x});
    }
  }

  ghost function Below(n: nat): (s: set<int>)
    ensures forall c :: c in s <==> 0 <= c < n
    ensures |s| == n
  {
    if n == 0 then {} else Below(n - 1) + {n - 1}
  }

  /** A duplicate-free sequence of numbers below `n` has at most `n` of them. */
  lemma DistinctBounded(q: seq<int>, n: nat)
    requires Distinct(q) && forall i :: 0 <= i < |q| ==> 0 <= q[i] < n
    ensures |q| <= n
  {
    DistinctSize(q);
    SubsetSize(Elements(q), Below(n));
  }
}
