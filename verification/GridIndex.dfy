/** Row-major cell numbers, shared by the two grid searches. */
module GridIndex {
  import opened Arithmetic

  function Index(w: nat, x: int, z: int): int { z * w + x }

  function Col(w: nat, c: int): int requires w > 0 { c % w }

  function Row(w: nat, c: int): int requires w > 0 { c / w }

  /** Numbering is a bijection between the cells of a w x h grid and 0 .. w * h. */
  lemma IndexOf(w: nat, h: nat, x: int, z: int)
    requires 0 <= x < w && 0 <= z < h
    ensures 0 <= Index(w, x, z) < w * h
    ensures Col(w, Index(w, x, z)) == x && Row(w, Index(w, x, z)) == z
  {
    assert 0 <= z * w <= (h - 1) * w;
    Divided(z, w, x);
  }

  lemma CellOf(w: nat, h: nat, c: int)
    requires 0 <= c < w * h
    ensures w > 0 && 0 <= Col(w, c) < w && 0 <= Row(w, c) < h
    ensures Index(w, Col(w, c), Row(w, c)) == c
  {
    assert w > 0;
    var r := c / w;
    assert c == r * w + c % w;
    NoWrap(w, h, r);
  }

  /** Numbers run on from row to row, up to the size of the grid. */
  lemma RowEnds(w: nat, h: nat, z: int)
    ensures Index(w, w, z) == Index(w, 0, z + 1) && Index(w, 0, h) == w * h && Index(w, 0, 0) == 0
  {
    assert (z + 1) * w == z * w + w;
  }

  lemma NoWrap(w: nat, h: nat, r: int)
    requires w > 0 && 0 < r * w + w && r * w < h * w
    ensures 0 <= r < h
  {
    if r >= h { Scale(w, h, r); }
    if r < 0 { Scale(w, r, -1); }
  }
}
