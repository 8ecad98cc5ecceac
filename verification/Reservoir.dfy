/** The weighted reservoir draw of the build planner (src/ai/ai.cpp), over ideal draws. */
module Reservoir {
  import opened Basics

  /** Running total of the first `n` weights. */
  function Total(ws: seq<nat>): nat { if ws == [] then 0 else Total(ws[..|ws| - 1]) + ws[|ws| - 1] }

  /** The entry the loop ends up with: each one replaces its predecessors when its draw,
      taken below the running total, falls below its own weight. */
  function Chosen(ws: seq<nat>, rs: seq<nat>): (i: int)
    requires |rs| == |ws|
    ensures -1 <= i < |ws|
  {
    if ws == [] then -1
    else
      var n := |ws| - 1;
      if rs[n] < ws[n] then n else Chosen(ws[..n], rs[..n])
  }

  /** The chosen entry is the last whose draw falls below its own weight. */
  lemma {:induction false} ChosenIs(ws: seq<nat>, rs: seq<nat>, i: int)
    requires |rs| == |ws|
    ensures Chosen(ws, rs) == i <==>
              if i == -1 then forall k :: 0 <= k < |ws| ==> rs[k] >= ws[k]
              else 0 <= i < |ws| && rs[i] < ws[i] && forall k :: i < k < |ws| ==> rs[k] >= ws[k]
  {
    if ws != [] {
      var n := |ws| - 1;
      if rs[n] >= ws[n] { ChosenIs(ws[..n], rs[..n], i); }
    }
  }

  /** Positive weights, as only usable entries take part. */
  predicate Positive(ws: seq<nat>) { forall i :: 0 <= i < |ws| ==> ws[i] > 0 }

  /** One draw below the running total for every entry. */
  predicate IsDraw(ws: seq<nat>, rs: seq<nat>)
  {
    |rs| == |ws| && forall k :: 0 <= k < |ws| ==> rs[k] < Total(ws[..k + 1])
  }

  // --- Counting draws -------------------------------------------------------------------

  /** All extensions of the sequences in `s` by a number in lo .. hi. */
  ghost function Extended(s: set<seq<nat>>, lo: nat, hi: nat): set<seq<nat>>
  {
    set p, r: nat | p in s && lo <= r < hi :: p + [r]
  }

  ghost function Ending(s: set<seq<nat>>, r: nat): set<seq<nat>> { set p | p in s :: p + [r] }

  lemma {:induction false} EndingSize(s: set<seq<nat>>, r: nat)
    ensures |Ending(s, r)| == |s|
  {
    if s != {} {
      var p :| p in s;
      EndingSize(s - {p}, r);
      assert Ending(s, r) == Ending(s - {p}, r) + {p + [r]};
      forall q | q in s - {p} ensures q + [r] != p + [r] { assert (q + [r])[..|q|] == q && (p + [r])[..|p|] == p; }
    }
  }

  lemma ExtendedMore(s: set<seq<nat>>, lo: nat, r: nat)
    requires lo <= r
    ensures Extended(s, lo, r + 1) == Extended(s, lo, r) + Ending(s, r)
    ensures Extended(s, lo, r) !! Ending(s, r)
  {
    forall q | q in Extended(s, lo, r + 1) ensures q in Extended(s, lo, r) + Ending(s, r) {
      var p, k: nat :| p in s && lo <= k < r + 1 && q == p + [k];
      if k == r { assert q in Ending(s, r); } else { assert q in Extended(s, lo, r); }
    }
    forall q | q in Extended(s, lo, r) ensures q !in Ending(s, r) && q in Extended(s, lo, r + 1) {
      var p, k: nat :| p in s && lo <= k < r && q == p + [k];
      assert q[|q| - 1] == k;
    }
    forall q | q in Ending(s, r) ensures q in Extended(s, lo, r + 1) {
      var p :| p in s && q == p + [r];
    }
  }

  lemma {:induction false} ExtendedSize(s: set<seq<nat>>, lo: nat, n: nat)
    ensures |Extended(s, lo, lo + n)| == |s| * n
    decreases n
  {
    if n == 0 {
      NothingExtended(s, lo);
    } else {
      var m: nat := n - 1;
      ExtendedSize(s, lo, m);
      ExtendedOnce(s, lo, lo + m);
      OneMore(|Extended(s, lo, lo + n)|, |Extended(s, lo, lo + m)|, |s|, m, n);
    }
  }

  lemma ExtendedOnce(s: set<seq<nat>>, lo: nat, r: nat)
    requires lo <= r
    ensures |Extended(s, lo, r + 1)| == |Extended(s, lo, r)| + |s|
  {
    EndingSize(s, r);
    ExtendedMore(s, lo, r);
    UnionSize(Extended(s, lo, r + 1), Extended(s, lo, r), Ending(s, r));
  }

  lemma NothingExtended(s: set<seq<nat>>, lo: nat)
    ensures Extended(s, lo, lo) == {}
  {
  }

  lemma UnionSize<T>(c: set<T>, a: set<T>, b: set<T>)
    requires c == a + b && a !! b
    ensures |c| == |a| + |b|
  {
  }

  lemma OneMore(e: nat, e': nat, a: nat, n: nat, n': nat)
    requires e' == a * n && e == e' + a && n' == n + 1
    ensures e == a * n'
  {
  }

  /** All draws for the given weights. */
  ghost function Draws(ws: seq<nat>): set<seq<nat>>
  {
    if ws == [] then {[]} else Extended(Draws(ws[..|ws| - 1]), 0, Total(ws))
  }

  lemma TotalsAgree(ws: seq<nat>, k: nat)
    requires k < |ws| - 1
    ensures Total(ws[..|ws| - 1][..k + 1]) == Total(ws[..k + 1])
  {
    assert ws[..|ws| - 1][..k + 1] == ws[..k + 1];
  }

  /** A draw is a draw for all but the last weight, and one more number. */
  lemma DrawSplits(ws: seq<nat>, p: seq<nat>, r: nat)
    requires ws != []
    ensures IsDraw(ws, p + [r]) <==> IsDraw(ws[..|ws| - 1], p) && r < Total(ws)
  {
    var n := |ws| - 1;
    var front, rs := ws[..n], p + [r];
    assert ws[..n + 1] == ws;
    if IsDraw(ws, rs) {
      assert rs[n] == r;
      forall k | 0 <= k < n ensures p[k] < Total(front[..k + 1]) {
        TotalsAgree(ws, k);
        assert rs[k] == p[k];
      }
    }
    if IsDraw(front, p) && r < Total(ws) {
      forall k | 0 <= k < n + 1 ensures rs[k] < Total(ws[..k + 1]) {
        if k < n { TotalsAgree(ws, k); }
      }
    }
  }

  lemma {:induction false} DrawsAreAll(ws: seq<nat>, rs: seq<nat>)
    ensures rs in Draws(ws) <==> IsDraw(ws, rs)
  {
    if ws != [] {
      var front := ws[..|ws| - 1];
      if IsDraw(ws, rs) {
        var p, r := rs[..|rs| - 1], rs[|rs| - 1];
        assert rs == p + [r];
        DrawSplits(ws, p, r);
        DrawsAreAll(front, p);
      }
      if rs in Draws(ws) {
        var p, r: nat :| p in Draws(front) && 0 <= r < Total(ws) && rs == p + [r];
        DrawsAreAll(front, p);
        DrawSplits(ws, p, r);
      }
    }
  }

  /** The draws that choose entry `i`. */
  ghost function Favouring(ws: seq<nat>, i: int): set<seq<nat>>
  {
    set rs | rs in Draws(ws) && |rs| == |ws| && Chosen(ws, rs) == i
  }

  lemma DrawLength(ws: seq<nat>, rs: seq<nat>)
    requires rs in Draws(ws)
    ensures |rs| == |ws|
  {
    DrawsAreAll(ws, rs);
  }

  lemma FavouringLast(ws: seq<nat>)
    requires ws != []
    ensures Favouring(ws, |ws| - 1) == Extended(Draws(ws[..|ws| - 1]), 0, ws[|ws| - 1])
  {
    var n := |ws| - 1;
    var front := ws[..n];
    forall rs ensures rs in Favouring(ws, n) <==> rs in Extended(Draws(front), 0, ws[n]) {
      if rs in Favouring(ws, n) {
        var p, r: nat :| p in Draws(front) && 0 <= r < Total(ws) && rs == p + [r];
        DrawLength(front, p);
        assert rs[n] == r;
      }
      if rs in Extended(Draws(front), 0, ws[n]) {
        var p, r: nat :| p in Draws(front) && 0 <= r < ws[n] && rs == p + [r];
        DrawLength(front, p);
        assert rs[n] == r;
      }
    }
  }

  lemma FavouringSplits(ws: seq<nat>, i: nat, rs: seq<nat>) returns (p: seq<nat>, r: nat)
    requires i < |ws| - 1 && rs in Favouring(ws, i)
    ensures p in Favouring(ws[..|ws| - 1], i) && ws[|ws| - 1] <= r < Total(ws) && rs == p + [r]
  {
    var n := |ws| - 1;
    p, r :| p in Draws(ws[..n]) && 0 <= r < Total(ws) && rs == p + [r];
    DrawLength(ws[..n], p);
    assert rs[n] == r && rs[..n] == p;
  }

  lemma FavouringJoins(ws: seq<nat>, i: nat, p: seq<nat>, r: nat)
    requires i < |ws| - 1 && p in Favouring(ws[..|ws| - 1], i) && ws[|ws| - 1] <= r < Total(ws)
    ensures p + [r] in Favouring(ws, i)
  {
    var n := |ws| - 1;
    var rs := p + [r];
    assert rs[n] == r && rs[..n] == p;
    assert rs in Extended(Draws(ws[..n]), 0, Total(ws));
  }

  lemma FavouringIff(ws: seq<nat>, i: nat, before: set<seq<nat>>, w: nat, t: nat, rs: seq<nat>)
    requires i < |ws| - 1 && before == Favouring(ws[..|ws| - 1], i) && w == ws[|ws| - 1] && t == Total(ws)
    ensures rs in Favouring(ws, i) <==> rs in Extended(before, w, t)
  {
    if rs in Favouring(ws, i) {
      var p, r := FavouringSplits(ws, i, rs);
    } else if rs in Extended(before, w, t) {
      var p, r: nat :| p in before && w <= r < t && rs == p + [r];
      FavouringJoins(ws, i, p, r);
    }
  }

  lemma FavouringEarlier(ws: seq<nat>, i: nat)
    requires i < |ws| - 1
    ensures Favouring(ws, i) == Extended(Favouring(ws[..|ws| - 1], i), ws[|ws| - 1], Total(ws))
  {
    var before, w, t := Favouring(ws[..|ws| - 1], i), ws[|ws| - 1], Total(ws);
    var a, b := Favouring(ws, i), Extended(before, w, t);
    forall rs ensures rs in a <==> rs in b { FavouringIff(ws, i, before, w, t, rs); }
  }

  lemma Products(a: nat, b: nat, c: nat, d: nat, t: nat)
    requires a * b == c * d
    ensures (a * b) * t == c * (d * t)
  {
  }

  /** The draw is exactly weight-proportional: out of all draws, entry `i` is chosen by a
      fraction of its weight over the final total. */
  lemma {:induction false} WeightProportional(ws: seq<nat>, i: nat)
    requires i < |ws|
    ensures |Favouring(ws, i)| * Total(ws) == ws[i] * |Draws(ws)|
  {
    var n := |ws| - 1;
    var front := ws[..n];
    ExtendedSize(Draws(front), 0, Total(ws));
    if i == n {
      FavouringLast(ws);
      ExtendedSize(Draws(front), 0, ws[n]);
      assert |Favouring(ws, i)| == |Draws(front)| * ws[n];
      Products(|Draws(front)|, ws[n], ws[n], |Draws(front)|, Total(ws));
    } else {
      WeightProportional(front, i);
      FavouringEarlier(ws, i);
      assert ws[n] + Total(front) == Total(ws);
      ExtendedSize(Favouring(front, i), ws[n], Total(front));
      assert |Favouring(ws, i)| == |Favouring(front, i)| * Total(front);
      Products(|Favouring(front, i)|, Total(front), ws[i], |Draws(front)|, Total(ws));
    }
  }

  /** The number of draws: the product of the running totals. */
  function Possibilities(ws: seq<nat>): nat
  {
    if ws == [] then 1 else Possibilities(ws[..|ws| - 1]) * Total(ws)
  }

  lemma {:induction false} DrawsCounted(ws: seq<nat>)
    ensures |Draws(ws)| == Possibilities(ws)
  {
    if ws != [] {
      DrawsCounted(ws[..|ws| - 1]);
      ExtendedSize(Draws(ws[..|ws| - 1]), 0, Total(ws));
    }
  }

  /** Some entry is always chosen. */
  lemma {:induction false} AlwaysChosen(ws: seq<nat>, rs: seq<nat>)
    requires ws != [] && IsDraw(ws, rs)
    ensures Chosen(ws, rs) >= 0
  {
    var n := |ws| - 1;
    assert ws[..n + 1] == ws;
    if rs[n] >= ws[n] {
      assert Total(ws) == Total(ws[..n]) + ws[n];
      forall k | 0 <= k < n ensures rs[..n][k] < Total(ws[..n][..k + 1]) { assert ws[..n][..k + 1] == ws[..k + 1]; }
      AlwaysChosen(ws[..n], rs[..n]);
    }
  }

  /** One more entry. */
  lemma ChosenNext(ws: seq<nat>, rs: seq<nat>, w: nat, r: nat)
    requires IsDraw(ws, rs) && r < Total(ws) + w
    ensures IsDraw(ws + [w], rs + [r]) && Total(ws + [w]) == Total(ws) + w
    ensures Chosen(ws + [w], rs + [r]) == if r < w then |ws| else Chosen(ws, rs)
  {
    var ws', rs' := ws + [w], rs + [r];
    assert ws'[..|ws|] == ws && rs'[..|ws|] == rs;
    forall k | 0 <= k < |ws'| ensures rs'[k] < Total(ws'[..k + 1]) {
      if k < |ws| { assert ws'[..k + 1] == ws[..k + 1]; } else { assert ws'[..k + 1] == ws'; }
    }
  }

  // --- The generator ---------------------------------------------------------------------

  /** The retail generator: a 32-bit congruential step, of which the high 16 bits are used. */
  function Advance(rng: u32): u32 { (rng * 1103515245 + 12345) % 0x1_0000_0000 }

  function Drawn(rng: u32, n: int): nat { if n > 0 then (rng / 0x1_0000) % n else 0 }

  /** The draws the generator makes for the given weights, and its state afterwards. */
  function Sampled(rng: u32, ws: seq<nat>): (r: (seq<nat>, u32))
    ensures |r.0| == |ws|
  {
    if ws == [] then ([], rng)
    else
      var (rs, before) := Sampled(rng, ws[..|ws| - 1]);
      var after := Advance(before);
      (rs + [Drawn(after, Total(ws))], after)
  }

  lemma SampledNext(rng: u32, ws: seq<nat>, w: nat)
    ensures var (rs, before) := Sampled(rng, ws);
            Sampled(rng, ws + [w]) == (rs + [Drawn(Advance(before), Total(ws) + w)], Advance(before))
  {
    assert (ws + [w])[..|ws|] == ws;
  }

  lemma DrawnBelow(rng: u32, n: int)
    requires n > 0
    ensures Drawn(rng, n) < n && Drawn(rng, n) < 0x1_0000
  {
    var v := rng / 0x1_0000;
    assert v < 0x1_0000;
    if v < n { SmallMod(v, n); }
  }

  /** From seed 1 the generator yields 16838, then 38526, as the classic one does. */
  lemma FirstNumbers(n: nat)
    requires n > 0
    ensures Drawn(Advance(1), n) == 16838 % n && Drawn(Advance(Advance(1)), n) == 38526 % n
  {
    assert Advance(1) == 1103527590;
    assert Advance(1103527590) == 2524885223;
  }

  /** No two states lead to the same one: the generator never loses any. */
  lemma StatesStayApart(a: u32, b: u32)
    requires Advance(a) == Advance(b)
    ensures a == b
  {
    var u := 0x1_0000_0000;
    var x, y := a * 1103515245 + 12345, b * 1103515245 + 12345;
    var q := x / u - y / u;
    assert (a - b) * 1103515245 == q * u;
    Inverted(a - b, 1103515245, u, 4005161829, 1029054899, q);
    OnlyZero(a - b, u, q * 4005161829 - (a - b) * 1029054899);
  }

  lemma Inverted(d: int, m: int, u: int, i: int, t: int, q: int)
    requires d * m == q * u && m * i == u * t + 1
    ensures d == u * (q * i - d * t)
  {
    assert d * (m * i) == (q * u) * i by { assert d * (m * i) == (d * m) * i; }
    assert d * (u * t + 1) == u * (d * t) + d;
    assert (q * u) * i == u * (q * i);
  }

  lemma OnlyZero(d: int, u: int, k: int)
    requires d == u * k && -u < d < u
    ensures d == 0
  {
    assert k >= 1 ==> u * k >= u;
    assert k <= -1 ==> u * k <= -u;
  }

  lemma SmallMod(v: nat, n: nat)
    requires v < n
    ensures v % n == v
  {
  }

  /** The generator falls short of the ideal draw for heavy entries: one replaces whatever was
      chosen before it in every state exactly when its weight reaches 65536, or when
      nothing came before it. */
  lemma HeavyAlwaysReplaces(w: nat, total: nat)
    requires 0 < w <= total
    ensures (forall rng: u32 :: Drawn(rng, total) < w) <==> w >= 0x1_0000 || w == total
  {
    forall rng: u32 | w >= 0x1_0000 || w == total ensures Drawn(rng, total) < w {
      DrawnBelow(rng, total);
    }
    if w < 0x1_0000 && w < total {
      var rng: u32 := w * 0x1_0000;
      assert rng / 0x1_0000 == w;
      SmallMod(w, total);
      assert Drawn(rng, total) == w;
    }
  }
}
