/** Weights written as decimals, read into hundredths (`parseHundredths` in src/ai/ai.cpp). */
module Decimals {

  import opened Basics

  predicate IsDigit(c: char) { '0' <= c <= '9' }

  predicate AllDigits(s: string) { forall i :: 0 <= i < |s| ==> IsDigit(s[i]) }

  function Digit(c: char): (d: int)
    requires IsDigit(c)
    ensures 0 <= d < 10 && "0123456789"[d] == c
  {
    c as int - '0' as int
  }

  /** The number a run of digits denotes. */
  function Decimal(s: string): (v: nat)
    requires AllDigits(s)
  {
    if s == "" then 0 else Decimal(s[..|s| - 1]) * 10 + Digit(s[|s| - 1])
  }

  const WHOLE_LIMIT := 1_000_000

  /** What the parser keeps of it: digits stop counting once the value reaches the limit. */
  function Whole(s: string): (v: nat)
    requires AllDigits(s)
    ensures v < 10 * WHOLE_LIMIT
  {
    if s == "" then 0
    else
      var w := Whole(s[..|s| - 1]);
      if w < WHOLE_LIMIT then w * 10 + Digit(s[|s| - 1]) else w
  }

  /** Only the first two decimals count; missing ones are zero. */
  function Hundredths(f: string): (v: nat)
    requires AllDigits(f)
    ensures v < 100
  {
    Scaled(Leading(f), if |f| < 2 then |f| else 2)
  }

  /** A fraction of `digits` decimals in hundredths. */
  function Scaled(v: nat, digits: nat): nat { if digits == 0 then v * 100 else if digits == 1 then v * 10 else v }

  /** The first two decimals as they are read. */
  function Leading(f: string): (v: nat)
    requires AllDigits(f)
    ensures v < 100 && (|f| < 2 ==> v < 10) && (|f| < 1 ==> v == 0)
  {
    if |f| == 0 then 0 else if |f| == 1 then Digit(f[0]) else Digit(f[0]) * 10 + Digit(f[1])
  }

  lemma WholeNext(s: string, c: char)
    requires AllDigits(s) && IsDigit(c)
    ensures AllDigits(s + [c])
    ensures Whole(s + [c]) == if Whole(s) < WHOLE_LIMIT then Whole(s) * 10 + Digit(c) else Whole(s)
  {
    assert (s + [c])[..|s|] == s;
  }

  /** The kept value is the written one exactly when that is below ten million. */
  lemma {:induction false} WholeExact(s: string)
    requires AllDigits(s)
    ensures Whole(s) == Decimal(s) <==> Decimal(s) < 10_000_000
    ensures Whole(s) <= Decimal(s)
  {
    if s != "" { WholeExact(s[..|s| - 1]); }
  }

  /** A one and `n` zeros. */
  function OneAndZeros(n: nat): string { if n == 0 then "1" else OneAndZeros(n - 1) + ['0'] }

  lemma ZeroAdded(n: nat)
    requires AllDigits(OneAndZeros(n))
    ensures AllDigits(OneAndZeros(n + 1)) && Decimal(OneAndZeros(n + 1)) == 10 * Decimal(OneAndZeros(n))
    ensures Whole(OneAndZeros(n + 1)) == if Whole(OneAndZeros(n)) < WHOLE_LIMIT then 10 * Whole(OneAndZeros(n))
            else Whole(OneAndZeros(n))
  {
    var s := OneAndZeros(n);
    WholeNext(s, '0');
    assert (s + ['0'])[..|s|] == s;
  }

  /** The least number that is not read as written: 10000000 is read as 1000000. */
  lemma TenMillionMisread()
    ensures AllDigits(OneAndZeros(7)) && Decimal(OneAndZeros(7)) == 10_000_000 && Whole(OneAndZeros(7)) == 1_000_000
  {
    assert OneAndZeros(0)[..0] == "";
    ZeroAdded(0);
    ZeroAdded(1);
    ZeroAdded(2);
    ZeroAdded(3);
    ZeroAdded(4);
    ZeroAdded(5);
    ZeroAdded(6);
  }

  /** A decimal: optional sign, digits, optional point with more digits. */
  datatype Numeral = Numeral(sign: string, whole: string, point: bool, frac: string)
  {
    predicate Valid()
    {
      && (sign == "" || sign == "+" || sign == "-")
      && AllDigits(whole) && AllDigits(frac) && (!point ==> frac == "")
      && (whole != "" || frac != "")
    }

    function Text(): string { sign + whole + (if point then "." + frac else "") }

    function Value(): int
      requires Valid()
    {
      var v := Whole(whole) * 100 + Hundredths(frac);
      if sign == "-" then -v else v
    }
  }

  function PowerOfTen(n: nat): (p: nat)
    ensures p > 0
  {
    if n == 0 then 1 else 10 * PowerOfTen(n - 1)
  }

  /** The first two of several decimals. */
  lemma {:induction false} FirstTwo(f: string)
    requires AllDigits(f) && |f| >= 2
    ensures var h, q := Hundredths(f), PowerOfTen(|f| - 2); h * q <= Decimal(f) < (h + 1) * q
  {
    var front := f[..|f| - 1];
    if |f| == 2 {
      assert front[..0] == "" && Decimal(front) == Digit(f[0]);
    } else {
      FirstTwo(front);
      assert Hundredths(f) == Hundredths(front) && PowerOfTen(|f| - 2) == 10 * PowerOfTen(|f| - 3);
      TenTimes(Hundredths(f), PowerOfTen(|f| - 3), Decimal(front), Digit(f[|f| - 1]));
    }
  }

  lemma TenTimes(h: nat, q: nat, d: nat, c: nat)
    requires h * q <= d < (h + 1) * q && c < 10
    ensures h * (10 * q) <= d * 10 + c < (h + 1) * (10 * q)
  {
    assert h * (10 * q) == 10 * (h * q) && (h + 1) * (10 * q) == 10 * ((h + 1) * q);
  }

  lemma HundredTimes(h: nat, q: nat, d: nat, p: nat)
    requires h * q <= d < (h + 1) * q && p == 100 * q
    ensures h * p <= 100 * d < (h + 1) * p
  {
    assert h * p == 100 * (h * q) && (h + 1) * p == 100 * ((h + 1) * q);
  }

  /** The hundredths of a fraction are what its decimals denote, rounded down. */
  lemma HundredthsMean(f: string)
    requires AllDigits(f)
    ensures var h, p := Hundredths(f), PowerOfTen(|f|); h * p <= 100 * Decimal(f) < (h + 1) * p
  {
    if |f| >= 2 {
      FirstTwo(f);
      TwoPowers(|f| - 2);
      HundredTimes(Hundredths(f), PowerOfTen(|f| - 2), Decimal(f), PowerOfTen(|f|));
    } else {
      FewDecimals(f);
    }
  }

  lemma TwoPowers(n: nat)
    ensures PowerOfTen(n + 2) == 100 * PowerOfTen(n)
  {
    assert PowerOfTen(n + 2) == 10 * PowerOfTen(n + 1);
  }

  lemma FewDecimals(f: string)
    requires AllDigits(f) && |f| < 2
    ensures var h, p := Hundredths(f), PowerOfTen(|f|); h * p <= 100 * Decimal(f) < (h + 1) * p
  {
    if f != "" {
      assert f[..0] == "" && Decimal(f) == Digit(f[0]) && Hundredths(f) == 10 * Digit(f[0]);
      assert PowerOfTen(1) == 10 * PowerOfTen(0);
    }
  }

  /** `v` is what the numeral denotes, in hundredths and rounded towards zero. */
  ghost predicate InHundredths(n: Numeral, v: int)
    requires n.Valid()
  {
    var p, size := PowerOfTen(|n.frac|), if v < 0 then -v else v;
    && size * p <= 100 * (Decimal(n.whole) * p + Decimal(n.frac)) < (size + 1) * p
    && (if n.sign == "-" then v <= 0 else v >= 0)
  }

  /** Below ten million that is what is read. */
  lemma ValueMeans(n: Numeral)
    requires n.Valid() && Decimal(n.whole) < 10_000_000
    ensures InHundredths(n, n.Value())
  {
    WholeExact(n.whole);
    HundredthsMean(n.frac);
    SumOfParts(Decimal(n.whole), Hundredths(n.frac), Decimal(n.frac), PowerOfTen(|n.frac|));
  }

  lemma SumOfParts(w: nat, h: nat, f: nat, p: nat)
    requires h * p <= 100 * f < (h + 1) * p
    ensures (w * 100 + h) * p <= 100 * (w * p + f) < (w * 100 + h + 1) * p
  {
    assert (w * 100 + h) * p == 100 * (w * p) + h * p;
    assert (w * 100 + h + 1) * p == 100 * (w * p) + (h + 1) * p;
  }

  /** The source's 32-bit arithmetic cannot overflow. */
  lemma ValueFits(n: Numeral)
    requires n.Valid()
    ensures -0x8000_0000 < n.Value() < 0x8000_0000
  {
  }

  /** Length of the run of digits from position `i`. */
  function Run(s: string, i: nat): (n: nat)
    requires i <= |s|
    ensures i + n <= |s|
    decreases |s| - i
  {
    if i < |s| && IsDigit(s[i]) then 1 + Run(s, i + 1) else 0
  }

  lemma {:induction false} RunDigits(s: string, i: nat)
    requires i <= |s|
    ensures AllDigits(s[i..i + Run(s, i)]) && (i + Run(s, i) < |s| ==> !IsDigit(s[i + Run(s, i)]))
    decreases |s| - i
  {
    if i < |s| && IsDigit(s[i]) {
      RunDigits(s, i + 1);
      var n := Run(s, i + 1);
      assert s[i..i + 1 + n] == [s[i]] + s[i + 1..i + 1 + n];
    }
  }

  lemma {:induction false} RunIs(s: string, i: nat, n: nat)
    requires i + n <= |s| && AllDigits(s[i..i + n]) && (i + n < |s| ==> !IsDigit(s[i + n]))
    ensures Run(s, i) == n
    decreases n
  {
    if n > 0 {
      assert s[i..i + n][0] == s[i];
      assert s[i + 1..i + n] == s[i..i + n][1..];
      RunIs(s, i + 1, n - 1);
    }
  }

  function SignLength(s: string): (i: nat)
    ensures i <= |s|
  {
    if s != "" && (s[0] == '+' || s[0] == '-') then 1 else 0
  }

  /** The decimal whose whole digits end at `i1` and that ends at `end`, past a point if
      there is one: it must have a digit and must end with the token. */
  function Assembled(s: string, i0: nat, i1: nat, point: bool, end: nat): (r: Option<Numeral>)
    requires i0 <= i1 <= end <= |s| && (point ==> i1 < end) && (!point ==> i1 == end)
  {
    if (i1 == i0 && (!point || end == i1 + 1)) || end != |s| then None
    else Some(Numeral(s[..i0], s[i0..i1], point, if point then s[i1 + 1..end] else ""))
  }

  /** Read the digits after a sign of length `i0`. */
  function ReadFrom(s: string, i0: nat): Option<Numeral>
    requires i0 <= |s|
  {
    var i1 := i0 + Run(s, i0);
    if i1 < |s| && s[i1] == '.' then Assembled(s, i0, i1, true, i1 + 1 + Run(s, i1 + 1))
    else Assembled(s, i0, i1, false, i1)
  }

  lemma AssembledValid(s: string, i0: nat, i1: nat, point: bool, end: nat)
    requires i0 <= i1 <= end <= |s| && (point ==> i1 < end) && (!point ==> i1 == end)
    requires (s[..i0] == "" || s[..i0] == "+" || s[..i0] == "-") && AllDigits(s[i0..i1])
             && (point ==> AllDigits(s[i1 + 1..end]))
    ensures Assembled(s, i0, i1, point, end).Some? ==> Assembled(s, i0, i1, point, end).value.Valid()
  {
  }

  lemma FromValid(s: string, i0: nat)
    requires i0 <= |s| && (s[..i0] == "" || s[..i0] == "+" || s[..i0] == "-")
    ensures ReadFrom(s, i0).Some? ==> ReadFrom(s, i0).value.Valid()
  {
    var i1 := i0 + Run(s, i0);
    RunDigits(s, i0);
    if i1 < |s| && s[i1] == '.' {
      RunDigits(s, i1 + 1);
      AssembledValid(s, i0, i1, true, i1 + 1 + Run(s, i1 + 1));
    } else {
      AssembledValid(s, i0, i1, false, i1);
    }
  }

  /** Read a token as a decimal, if it is one. */
  function ReadNumeral(s: string): (r: Option<Numeral>)
    ensures r.Some? ==> r.value.Valid()
  {
    var i0 := SignLength(s);
    assert i0 == 1 ==> s[..1] == [s[0]];
    FromValid(s, i0);
    ReadFrom(s, i0)
  }

  /** Reading is sound: what is read spells the token. */
  lemma ReadSound(s: string)
    ensures ReadNumeral(s).Some? ==> ReadNumeral(s).value.Text() == s
  {
    FromSound(s, SignLength(s));
  }

  lemma FromSound(s: string, i0: nat)
    requires i0 <= |s|
    ensures ReadFrom(s, i0).Some? ==> ReadFrom(s, i0).value.Text() == s
  {
    var i1 := i0 + Run(s, i0);
    if i1 < |s| && s[i1] == '.' { Spelled(s, i0, i1); } else if i1 == |s| { SpelledPlain(s, i0); }
  }

  lemma Spelled(s: string, i0: nat, i1: nat)
    requires i0 <= i1 < |s| && s[i1] == '.'
    ensures s[..i0] + s[i0..i1] + ("." + s[i1 + 1..|s|]) == s
  {
  }

  lemma SpelledPlain(s: string, i0: nat)
    requires i0 <= |s|
    ensures s[..i0] + s[i0..|s|] + "" == s
  {
  }

  /** And complete: every decimal is read back as itself. */
  lemma ReadComplete(n: Numeral)
    requires n.Valid()
    ensures ReadNumeral(n.Text()) == Some(n)
  {
    TextParts(n);
    assert SignLength(n.Text()) == |n.sign|;
    if n.point {
      FromPoint(n.Text(), n.sign, n.whole, n.frac);
    } else {
      FromPlain(n.Text(), n.sign, n.whole);
    }
  }

  lemma FromPoint(s: string, sign: string, whole: string, frac: string)
    requires |s| == |sign| + |whole| + 1 + |frac| && (whole != "" || frac != "")
    requires s[..|sign|] == sign && s[|sign|..|sign| + |whole|] == whole && s[|sign| + |whole|] == '.'
    requires s[|sign| + |whole| + 1..] == frac && AllDigits(whole) && AllDigits(frac)
    ensures ReadFrom(s, |sign|) == Some(Numeral(sign, whole, true, frac))
  {
    var i0, i1 := |sign|, |sign| + |whole|;
    assert s[i1 + 1..i1 + 1 + |frac|] == frac;
    RunIs(s, i0, |whole|);
    RunIs(s, i1 + 1, |frac|);
  }

  lemma FromPlain(s: string, sign: string, whole: string)
    requires |s| == |sign| + |whole| && whole != "" && AllDigits(whole)
    requires s[..|sign|] == sign && s[|sign|..|sign| + |whole|] == whole
    ensures ReadFrom(s, |sign|) == Some(Numeral(sign, whole, false, ""))
  {
    RunIs(s, |sign|, |whole|);
  }

  lemma TextParts(n: Numeral)
    requires n.Valid()
    ensures var s, i0 := n.Text(), |n.sign|;
            var i1 := i0 + |n.whole|;
            && s[..i0] == n.sign && s[i0..i1] == n.whole
            && (n.point ==> |s| == i1 + 1 + |n.frac| && s[i1] == '.' && s[i1 + 1..] == n.frac)
            && (!n.point ==> |s| == i1)
            && s != "" && ((s[0] == '+' || s[0] == '-') <==> i0 == 1)
  {
    var s, i0 := n.Text(), |n.sign|;
    if i0 == 0 {
      assert s[0] == if n.whole != "" then n.whole[0] else '.';
    } else {
      assert s[0] == n.sign[0];
    }
  }

  lemma SliceNext(s: string, i0: nat, i: nat)
    requires i0 <= i < |s|
    ensures s[i0..i] + [s[i]] == s[i0..i + 1]
    ensures Run(s, i) == if IsDigit(s[i]) then 1 + Run(s, i + 1) else 0
  {
  }

  /** The digits before the point. */
  method TakeWhole(s: string, i0: nat) returns (i: nat, whole: nat, anyDigit: bool, ghost digits: string)
    requires i0 <= |s|
    ensures i == i0 + Run(s, i0) <= |s| && digits == s[i0..i] && AllDigits(digits)
    ensures whole == Whole(digits) && (anyDigit <==> i > i0)
  {
    i, whole, anyDigit, digits := i0, 0, false, "";
    while i < |s| && IsDigit(s[i])
      invariant i0 <= i <= |s| && i + Run(s, i) == i0 + Run(s, i0)
      invariant digits == s[i0..i] && AllDigits(digits)
      invariant whole == Whole(digits) && (anyDigit <==> i > i0)
    {
      anyDigit := true;
      WholeNext(digits, s[i]);
      SliceNext(s, i0, i);
      if whole < 1000000 { whole := whole * 10 + Digit(s[i]); }
      digits := digits + [s[i]];
      i := i + 1;
    }
  }

  lemma LeadingNext(s: string, c: char)
    requires AllDigits(s) && IsDigit(c)
    ensures AllDigits(s + [c])
    ensures Leading(s + [c]) == if |s| < 2 then Leading(s) * 10 + Digit(c) else Leading(s)
  {
  }

  /** The digits after the point. */
  method TakeFraction(s: string, i0: nat)
    returns (i: nat, frac: nat, fracDigits: nat, anyDigit: bool, ghost digits: string)
    requires i0 <= |s|
    ensures i == i0 + Run(s, i0) <= |s| && digits == s[i0..i] && AllDigits(digits)
    ensures frac == Leading(digits) && fracDigits == (if |digits| < 2 then |digits| else 2) && (anyDigit <==> i > i0)
  {
    i, frac, fracDigits, anyDigit, digits := i0, 0, 0, false, "";
    while i < |s| && IsDigit(s[i])
      invariant i0 <= i <= |s| && i + Run(s, i) == i0 + Run(s, i0) && (anyDigit <==> i > i0)
      invariant digits == s[i0..i] && AllDigits(digits)
      invariant fracDigits == (if |digits| < 2 then |digits| else 2) && frac == Leading(digits)
    {
      anyDigit := true;
      LeadingNext(digits, s[i]);
      SliceNext(s, i0, i);
      if fracDigits < 2 { frac := frac * 10 + Digit(s[i]); fracDigits := fracDigits + 1; }
      digits := digits + [s[i]];
      i := i + 1;
    }
  }

  method Pad(frac0: nat, digits0: nat) returns (frac: nat)
    requires digits0 <= 2
    ensures frac == Scaled(frac0, digits0)
  {
    var fracDigits := digits0;
    frac := frac0;
    while fracDigits < 2
      invariant fracDigits <= 2 && Scaled(frac, fracDigits) == Scaled(frac0, digits0)
    {
      frac := frac * 10;
      fracDigits := fracDigits + 1;
    }
  }

  /** The value of a token in hundredths, if it is a decimal. */
  function ValueOf(s: string): Option<int>
  {
    var n := ReadNumeral(s);
    if n.Some? then Some(n.value.Value()) else None
  }

  function Signed(neg: bool, v: nat): int { if neg then -(v as int) else v }

  /** A token has a value exactly when some numeral spells it; below ten million it is the value
      of that numeral. */
  lemma ValueIsRead(s: string)
    ensures ValueOf(s).Some? ==> exists n: Numeral :: n.Valid() && n.Text() == s
    ensures forall n: Numeral :: n.Valid() && n.Text() == s ==>
              ValueOf(s).Some? && (Decimal(n.whole) < 10_000_000 ==> InHundredths(n, ValueOf(s).value))
  {
    ReadSound(s);
    if ValueOf(s).Some? { assert ReadNumeral(s).value.Valid(); }
    forall n: Numeral | n.Valid() && n.Text() == s
      ensures ValueOf(s).Some? && (Decimal(n.whole) < 10_000_000 ==> InHundredths(n, ValueOf(s).value))
    {
      ReadComplete(n);
      if Decimal(n.whole) < 10_000_000 { ValueMeans(n); }
    }
  }

  /** The parser's three loops in sequence. */
  method ParseHundredths(s: string) returns (out: Option<int>)
    ensures out == ValueOf(s)
    ensures out.Some? ==> exists n: Numeral :: n.Valid() && n.Text() == s
    ensures forall n: Numeral :: n.Valid() && n.Text() == s ==>
              out.Some? && (Decimal(n.whole) < 10_000_000 ==> InHundredths(n, out.value))
  {
    ValueIsRead(s);
    var i, neg := 0, false;
    if i < |s| && (s[i] == '+' || s[i] == '-') { neg := s[i] == '-'; i := i + 1; }
    out := ParseUnsigned(s, i, neg);
    ValueIsFrom(s);
  }

  lemma ValueIsFrom(s: string)
    ensures ValueOf(s) == ValueFrom(s, SignLength(s), SignLength(s) == 1 && s[0] == '-')
  {
    var i0 := SignLength(s);
    if i0 == 1 { assert s[..1] == [s[0]]; } else { assert s[..0] == ""; }
    FromValid(s, i0);
    SignIs(s, i0);
  }

  lemma SignIs(s: string, i0: nat)
    requires i0 <= |s|
    ensures ReadFrom(s, i0).Some? ==> ReadFrom(s, i0).value.sign == s[..i0]
  {
  }

  function ValueFrom(s: string, i0: nat, neg: bool): Option<int>
    requires i0 <= |s|
  {
    var n := ReadFrom(s, i0);
    if n.Some? && AllDigits(n.value.whole) && AllDigits(n.value.frac)
        then Some(Signed(neg, Whole(n.value.whole) * 100 + Hundredths(n.value.frac))) else None
  }

  lemma ReadIs(s: string, i0: nat, i1: nat, point: bool, end: nat)
    requires i0 <= i1 <= end <= |s| && i1 - i0 == Run(s, i0) && (point <==> i1 < |s| && s[i1] == '.')
    requires if point then i1 < end && end - i1 - 1 == Run(s, i1 + 1) else end == i1
    ensures ReadFrom(s, i0) == Assembled(s, i0, i1, point, end)
  {
  }

  /** What the loops have found is the value. */
  lemma ValueFound(s: string, i0: nat, neg: bool, i1: nat, point: bool, end: nat, whole: string, frac: string)
    requires i0 <= i1 <= end <= |s| && (point ==> i1 < end) && (!point ==> i1 == end)
    requires ReadFrom(s, i0) == Assembled(s, i0, i1, point, end)
    requires AllDigits(whole) && AllDigits(frac) && whole == s[i0..i1] && frac == if point then s[i1 + 1..end] else ""
    ensures ValueFrom(s, i0, neg) ==
            if (i1 == i0 && (!point || end == i1 + 1)) || end != |s| then None
            else Some(Signed(neg, Whole(whole) * 100 + Hundredths(frac)))
  {
  }

  method ParseUnsigned(s: string, i0: nat, neg: bool) returns (out: Option<int>)
    requires i0 <= |s|
    ensures out == ValueFrom(s, i0, neg)
  {
    var i, whole, anyDigit;
    ghost var w, f := "", "";
    i, whole, anyDigit, w := TakeWhole(s, i0);
    ghost var i1, point := i, i < |s| && s[i] == '.';
    var frac, fracDigits := 0, 0;
    if i < |s| && s[i] == '.' {
      var more;
      i, frac, fracDigits, more, f := TakeFraction(s, i + 1);
      anyDigit := anyDigit || more;
    }
    ReadIs(s, i0, i1, point, i);
    ValueFound(s, i0, neg, i1, point, i, w, f);
    if !anyDigit || i != |s| { return None; }
    frac := Pad(frac, fracDigits);
    return Some(Signed(neg, whole * 100 + frac));
  }
}
