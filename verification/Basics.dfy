/** Definitions shared by all parts. */
module Basics {

  datatype Option<+T> = None | Some(value: T)

  type byte = b: int | 0 <= b < 0x100
  type u32 = n: int | 0 <= n < 0x1_0000_0000

  ghost predicate Distinct<T>(q: seq<T>) { forall i, j :: 0 <= i < j < |q| ==> q[i] != q[j] }

  /** C++ conversion of a floating-point number to an integer: towards zero. */
  function Truncate(v: real): int { if v >= 0.0 then v.Floor else -((-v).Floor) }

  /** C++ division of integers: towards zero. */
  function TruncDiv(n: int, d: int): int
    requires d > 0
  {
    if n >= 0 then n / d else -((-n) / d)
  }
}
