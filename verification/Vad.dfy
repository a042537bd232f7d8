/**
 Fixed-point bounds of the voice activity detector: filter bank, band energies and noise levels, with 32-bit wrap
 written out.
 */
module Vad {
  import opened GainBlock
  import opened CdfTables

  const INT32_MAX := 0x7fff_ffff
  const NOISE_COEF := 1024
  const A_LOW := -29322
  const A_HIGH := 7788
  const STATE_BOUND := 0x800_0000
  const BANDS := 4
  const NL_MAX := 0xff_ffff

  // ----- primitives -----

  function Sat16(a: i32): (r: i16)
    ensures -0x8000 <= a <= 0x7fff ==> r == a
  {
    if a < -0x8000 then -0x8000 else if a > 0x7fff then 0x7fff else a
  }

  /** High part of a 32 by 16 product. */
  function HighProduct(a: i32, b: i16): int { a as int * b as int / 0x1_0000 }

  function Smulwb(a: i32, b: i16): i32 { I32(HighProduct(a, b)) }

  function Smlawb(a: i32, b: i32, c: i16): i32 { I32(a as int + HighProduct(b, c)) }

  /** Shift right by 11 with rounding. */
  function Round11(a: i32): i32 { I32(a as int / 0x400 + 1) as int / 2 }

  function AddPosSat(a: i32, b: i32): i32 {
    if U32(U32(a) as int + U32(b) as int) >= 0x8000_0000 then INT32_MAX else I32(U32(U32(a) as int + U32(b) as int))
  }

  function Saturated(x: int): int { if x <= INT32_MAX then x else INT32_MAX }

  lemma AddPosSatIs(a: i32, b: i32)
    requires a >= 0 && b >= 0
    ensures AddPosSat(a, b) as int == Saturated(a as int + b as int) >= 0
  {}

  // ----- the filter bank -----

  /** One sample through one allpass branch: the new state and the branch output. */
  function Allpass(s: i32, x: i16, high: bool): (r: (i32, i32)) {
    var in32 := I32(x as int * 1024);
    var y := I32(in32 as int - s as int);
    var t := if high then Smulwb(y, A_HIGH) else Smlawb(y, y, A_LOW);
    (I32(in32 as int + t as int), I32(s as int + t as int))
  }

  predicate Bounded(s: i32) { -STATE_BOUND <= s <= STATE_BOUND }

  lemma FloorBounds(a: int, c: int)
    ensures a * c / 0x1_0000 * 0x1_0000 <= a * c < a * c / 0x1_0000 * 0x1_0000 + 0x1_0000
  {}

  /** Neither branch wraps, and the state bound is kept, for every 16-bit sample. */
  lemma AllpassBounded(s: i32, x: i16, high: bool)
    requires Bounded(s)
    ensures Bounded(Allpass(s, x, high).0)
    ensures -0x1000_0000 <= Allpass(s, x, high).1 <= 0x1000_0000
    ensures var in32 := x as int * 1024; var y := in32 - s as int;
      var t := if high then y * A_HIGH / 0x1_0000 else y + y * A_LOW / 0x1_0000;
      Allpass(s, x, high).0 as int == in32 + t && Allpass(s, x, high).1 as int == s as int + t
  {
    var in32: int := x * 1024;
    var y := in32 - s as int;
    var c := if high then A_HIGH else A_LOW;
    FloorBounds(y, c);
  }

  /** Both branches of one sample pair: new states, then low and high output. */
  function Pair(s0: i32, s1: i32, even: i16, odd: i16): (r: (i32, i32, i16, i16)) {
    var a := Allpass(s0, even, false);
    var b := Allpass(s1, odd, true);
    (a.0, b.0, Sat16(Round11(I32(b.1 as int + a.1 as int))), Sat16(Round11(I32(b.1 as int - a.1 as int))))
  }

  /** A band sample is its 32-bit value over 2048, rounded to the nearest, or the 16-bit limit on that side. */
  predicate BandSample(out: i16, v: int) {
    || -1024 <= 2048 * out as int - v <= 1024
    || (out == 0x7fff && v > 2048 * 0x7fff)
    || (out == -0x8000 && v < -2048 * 0x8000)
  }

  lemma RoundedSample(v: i32)
    requires -0x4000_0000 <= v <= 0x4000_0000
    ensures BandSample(Sat16(Round11(v)), v)
  {}

  /** The low band is the sum of the two branch outputs, the high band the odd branch less the even one. */
  lemma PairIsBands(s0: i32, s1: i32, even: i16, odd: i16)
    requires Bounded(s0) && Bounded(s1)
    ensures var p, x, y := Pair(s0, s1, even, odd), Allpass(s0, even, false), Allpass(s1, odd, true);
      && p.0 == x.0 && p.1 == y.0
      && BandSample(p.2, y.1 as int + x.1 as int) && BandSample(p.3, y.1 as int - x.1 as int)
  {
    hide Allpass, Sat16, Round11, BandSample;
    AllpassBounded(s0, even, false);
    AllpassBounded(s1, odd, true);
    var x, y := Allpass(s0, even, false).1, Allpass(s1, odd, true).1;
    RoundedSample(I32(y as int + x as int));
    RoundedSample(I32(y as int - x as int));
  }

  /** The bank over k sample pairs. */
  datatype Bank = Bank(s0: i32, s1: i32, low: seq<i16>, high: seq<i16>)

  function Split(x: seq<i16>, s0: i32, s1: i32, k: nat): (b: Bank)
    requires 2 * k <= |x|
    ensures |b.low| == |b.high| == k
  {
    if k == 0 then Bank(s0, s1, [], [])
    else
      var b := Split(x, s0, s1, k - 1);
      var p := Pair(b.s0, b.s1, x[2 * k - 2], x[2 * k - 1]);
      Bank(p.0, p.1, b.low + [p.2], b.high + [p.3])
  }

  /** Over any run of 16-bit input the states stay bounded, so by AllpassBounded no step of the bank wraps. */
  lemma {:induction false} SplitBounded(x: seq<i16>, s0: i32, s1: i32, k: nat)
    requires 2 * k <= |x| && Bounded(s0) && Bounded(s1)
    ensures Bounded(Split(x, s0, s1, k).s0) && Bounded(Split(x, s0, s1, k).s1)
  {
    hide Bounded, Allpass, Sat16, Round11;
    if k > 0 {
      SplitBounded(x, s0, s1, k - 1);
      var b := Split(x, s0, s1, k - 1);
      AllpassBounded(b.s0, x[2 * k - 2], false);
      AllpassBounded(b.s1, x[2 * k - 1], true);
    }
  }

  /** anaFiltBank1: the low band at the front of the buffer, the high band from hiOff on. */
  method AnaFiltBank1(inp: seq<i16>, st: array<i32>, x: array<i16>, hiOff: nat)
    requires st.Length == 2 && |inp| / 2 <= hiOff && hiOff + |inp| / 2 <= x.Length
    modifies st, x
    ensures InBuffer(Split(inp, old(st[0]), old(st[1]), |inp| / 2), st[..], x[..], hiOff, |inp| / 2)
  {
    hide Pair;
    ghost var t0, t1 := st[0], st[1];
    assert InBuffer(Split(inp, t0, t1, 0), st[..], x[..], hiOff, 0);
    hide Split;
    for k := 0 to |inp| / 2
      invariant InBuffer(Split(inp, t0, t1, k), st[..], x[..], hiOff, k)
    {
      SplitStep(inp, t0, t1, k);
      var p := Pair(st[0], st[1], inp[2 * k], inp[2 * k + 1]);
      st[0], st[1] := p.0, p.1;
      x[k] := p.2;
      x[hiOff + k] := p.3;
      assert x[..k + 1] == x[..k] + [p.2] && x[hiOff..hiOff + k + 1] == x[hiOff..hiOff + k] + [p.3];
    }
  }

  /** anaFiltBank1Inplace: the same two bands over one buffer, as long as the high band starts past the input. */
  method AnaFiltBank1Inplace(x: array<i16>, hiOff: nat, st: array<i32>, n: nat)
    requires n <= hiOff && hiOff + n / 2 <= x.Length && st.Length == 2
    modifies st, x
    ensures var b := Split(old(x[..n]), old(st[0]), old(st[1]), n / 2);
      (st[0], st[1]) == (b.s0, b.s1) && x[..n / 2] == b.low && x[hiOff..hiOff + n / 2] == b.high
    ensures forall i :: hiOff + n / 2 <= i < x.Length ==> x[i] == old(x[i])
    ensures forall i :: n <= i < hiOff ==> x[i] == old(x[i])
  {
    hide Midway, Split;
    ghost var t0, t1, x0 := st[0], st[1], x[..];
    assert x0[..n] == x[..n];
    ghost var b := InplacePairs(x, hiOff, st, n);
    BankDone(b, t0, t1, st[..], x[..], x0, n, hiOff);
  }

  method InplacePairs(x: array<i16>, hiOff: nat, st: array<i32>, n: nat) returns (ghost b: Bank)
    requires n <= hiOff && hiOff + n / 2 <= x.Length && st.Length == 2
    modifies st, x
    ensures Midway(b, old(st[0]), old(st[1]), st[..], x[..], old(x[..]), n, hiOff, n / 2)
  {
    hide Midway, Split;
    ghost var t0, t1, x0 := st[0], st[1], x[..];
    b := Bank(t0, t1, [], []);
    BankStarts(b, st[..], x0, n, hiOff);
    for k := 0 to n / 2
      invariant Midway(b, t0, t1, st[..], x[..], x0, n, hiOff, k)
    {
      b := InplaceStep(x, hiOff, st, n, k, b, t0, t1, x0);
    }
  }

  /**
   The loop after k pairs: the bank so far in the buffer, and the input still to be read, like the rest, untouched.
   */
  ghost predicate Midway(b: Bank, t0: i32, t1: i32, st: seq<i32>, x: seq<i16>, x0: seq<i16>, n: nat, hiOff: nat,
                         k: nat) {
    && |st| == 2 && n <= hiOff && hiOff + n / 2 <= |x| == |x0| && k <= n / 2
    && b == Split(x0[..n], t0, t1, k) && InBuffer(b, st, x, hiOff, k)
    && SameOn(x, x0, 2 * k, hiOff) && SameOn(x, x0, hiOff + n / 2, |x|)
  }

  lemma BankStarts(b: Bank, st: seq<i32>, x0: seq<i16>, n: nat, hiOff: nat)
    requires |st| == 2 && b == Bank(st[0], st[1], [], []) && n <= hiOff && hiOff + n / 2 <= |x0|
    ensures Midway(b, st[0], st[1], st, x0, x0, n, hiOff, 0)
  {}

  lemma BankDone(b: Bank, t0: i32, t1: i32, st: seq<i32>, x: seq<i16>, x0: seq<i16>, n: nat, hiOff: nat)
    requires Midway(b, t0, t1, st, x, x0, n, hiOff, n / 2)
    ensures |st| == 2 && st[0] == b.s0 && st[1] == b.s1 && b == Split(x0[..n], t0, t1, n / 2)
    ensures hiOff + n / 2 <= |x| && x[..n / 2] == b.low && x[hiOff..hiOff + n / 2] == b.high
    ensures |x| == |x0| && (forall i :: hiOff + n / 2 <= i < |x| ==> x[i] == x0[i])
      && forall i :: n <= i < hiOff ==> x[i] == x0[i]
  {
    hide Split;
  }

  lemma SplitStep(x: seq<i16>, s0: i32, s1: i32, k: nat)
    requires 2 * k + 2 <= |x|
    ensures var b := Split(x, s0, s1, k); var p := Pair(b.s0, b.s1, x[2 * k], x[2 * k + 1]);
      Split(x, s0, s1, k + 1) == Bank(p.0, p.1, b.low + [p.2], b.high + [p.3])
  {
    hide Pair;
  }

  lemma SameAt(a: seq<i16>, b: seq<i16>, lo: nat, hi: nat)
    requires SameOn(a, b, lo, hi) && lo + 2 <= hi <= |a|
    ensures |b| == |a| && a[lo] == b[lo] && a[lo + 1] == b[lo + 1]
  {}

  /** Writing two slots outside both ranges keeps them; the read range also shrinks by a pair. */
  lemma SameAfter(before: seq<i16>, after: seq<i16>, x0: seq<i16>, k: nat, hiOff: nat, half: nat)
    requires SameOn(before, x0, 2 * k, hiOff) && SameOn(before, x0, hiOff + half, |x0|) && k < half
      && |after| == |before|
    requires forall i :: 0 <= i < |before| && i != k && i != hiOff + k ==> after[i] == before[i]
    ensures SameOn(after, x0, 2 * k + 2, hiOff) && SameOn(after, x0, hiOff + half, |x0|)
  {}

  predicate SameOn(a: seq<i16>, b: seq<i16>, lo: int, hi: int) {
    |a| == |b| && forall i :: 0 <= i < |a| && lo <= i < hi ==> a[i] == b[i]
  }

  /** The bank's states and outputs as the buffer holds them after k pairs. */
  ghost predicate InBuffer(b: Bank, st: seq<i32>, x: seq<i16>, hiOff: nat, k: nat) {
    && |st| == 2 && k <= hiOff && hiOff + k <= |x|
    && st == [b.s0, b.s1] && x[..k] == b.low && x[hiOff..hiOff + k] == b.high
  }

  /** Sample pair k, written behind the reading position and into the high band. */
  method InplaceStep(x: array<i16>, hiOff: nat, st: array<i32>, n: nat, k: nat, ghost b0: Bank, ghost t0: i32,
                     ghost t1: i32, ghost x0: seq<i16>)
    returns (ghost b: Bank)
    requires k < n / 2 && Midway(b0, t0, t1, st[..], x[..], x0, n, hiOff, k)
    modifies st, x
    ensures Midway(b, t0, t1, st[..], x[..], x0, n, hiOff, k + 1)
  {
    hide Pair, Split, SameOn, InBuffer;
    ghost var before := x[..];
    SameAt(before, x0, 2 * k, hiOff);
    SplitStep(x0[..n], t0, t1, k);
    b := WritePair(x, hiOff, st, k, b0);
    SameAfter(before, x[..], x0, k, hiOff, n / 2);
  }

  /** One pair through the bank, in place. */
  method WritePair(x: array<i16>, hiOff: nat, st: array<i32>, k: nat, ghost b0: Bank) returns (ghost b: Bank)
    requires 2 * k + 1 < hiOff && hiOff + k < x.Length && st.Length == 2
    requires InBuffer(b0, st[..], x[..], hiOff, k)
    modifies st, x
    ensures var p := Pair(b0.s0, b0.s1, old(x[2 * k]), old(x[2 * k + 1]));
      b == Bank(p.0, p.1, b0.low + [p.2], b0.high + [p.3])
    ensures InBuffer(b, st[..], x[..], hiOff, k + 1)
    ensures forall i :: 0 <= i < x.Length && i != k && i != hiOff + k ==> x[..][i] == old(x[..])[i]
  {
    hide Pair;
    var p := Pair(st[0], st[1], x[2 * k], x[2 * k + 1]);
    st[0], st[1] := p.0, p.1;
    x[hiOff + k] := p.3;
    x[k] := p.2;
    b := Bank(p.0, p.1, b0.low + [p.2], b0.high + [p.3]);
  }

  // ----- band energies -----

  function Eighth(x: i16): int { x as int / 8 }

  function SumSq(x: seq<i16>, n: nat): int
    requires n <= |x|
  {
    if n == 0 then 0 else SumSq(x, n - 1) + Eighth(x[n - 1]) * Eighth(x[n - 1])
  }

  /** Samples are scaled down by eight, rounded down. */
  lemma EighthFloors(x: i16)
    ensures 8 * Eighth(x) <= x as int < 8 * Eighth(x) + 8
  {}

  lemma EighthSquare(x: i16)
    ensures 0 <= Eighth(x) * Eighth(x) <= 0x100_0000
  {
    var e := if Eighth(x) < 0 then -Eighth(x) else Eighth(x);
    assert 0 <= e <= 4096 && Eighth(x) * Eighth(x) == e * e;
    MulMono(e, e, 4096);
    MulMono(4096, e, 4096);
  }

  lemma {:induction false} SumSqBound(x: seq<i16>, n: nat)
    requires n <= |x|
    ensures 0 <= SumSq(x, n) <= 0x100_0000 * n
  {
    if n > 0 { SumSqBound(x, n - 1); EighthSquare(x[n - 1]); }
  }

  /** A subframe's energy: exact for up to 127 samples. */
  method SubframeEnergy(x: seq<i16>) returns (sum: i32)
    requires |x| < 128
    ensures sum as int == SumSq(x, |x|) && sum >= 0
  {
    sum := 0;
    for i := 0 to |x|
      invariant sum as int == SumSq(x, i)
    {
      SumSqBound(x, i + 1);
      var e := Eighth(x[i]);
      sum := I32(sum as int + e * e);
    }
    SumSqBound(x, |x|);
  }

  /** Energy of one band after k subframes: three count in full, the last by half, and the total saturates. */
  function BandSum(carried: int, x: seq<i16>, len: nat, k: nat): int
    requires k <= 4 && 4 * len <= |x|
  {
    if k == 0 then carried
    else
      SubStart(k - 1, len, |x|);
      var e := SumSq(x[(k - 1) * len..(k - 1) * len + len], len);
      Saturated(BandSum(carried, x, len, k - 1) + if k < 4 then e else e / 2)
  }

  /** One band: exact up to saturation and never negative; the last subframe is carried to the next frame. */
  method BandEnergy(carried: i32, x: seq<i16>, len: nat) returns (nrg: i32, last: i32)
    requires carried >= 0 && len < 128 && 4 * len <= |x|
    ensures nrg as int == BandSum(carried, x, len, 4) && nrg >= 0
    ensures last as int == SumSq(x[3 * len..3 * len + len], len) && last >= 0
  {
    nrg, last := carried, 0;
    assert BandSum(carried, x, len, 0) == carried;
    hide BandSum, SumSq;
    for sub := 0 to 4
      invariant Through(carried, x, len, sub, nrg, last)
    {
      nrg, last := AddSubframe(carried, x, len, sub, nrg);
    }
  }

  method AddSubframe(ghost carried: i32, x: seq<i16>, len: nat, sub: nat, nrg0: i32) returns (nrg: i32, last: i32)
    requires sub < 4 && len < 128 && 4 * len <= |x| && nrg0 >= 0 && nrg0 as int == BandSum(carried, x, len, sub)
    ensures Through(carried, x, len, sub + 1, nrg, last)
  {
    hide BandSum, SumSq, Saturated, AddPosSat;
    BandSumStep(carried, x, len, sub);
    last := SubframeEnergy(x[sub * len..sub * len + len]);
    var add := if sub < 3 then last else I32(last as int / 2);
    AddPosSatIs(nrg0, add);
    nrg := AddPosSat(nrg0, add);
    assert LastIs(x, len, sub, last);
  }

  /** The energy of one subframe. */
  ghost predicate LastIs(x: seq<i16>, len: nat, sub: nat, last: int) {
    0 <= sub * len && sub * len + len <= |x| && last == SumSq(x[sub * len..sub * len + len], len)
  }

  /** Energy after k subframes, and the last subframe's own. */
  ghost predicate Through(carried: int, x: seq<i16>, len: nat, k: nat, nrg: i32, last: i32) {
    && k <= 4 && 4 * len <= |x| && nrg >= 0 && nrg as int == BandSum(carried, x, len, k)
    && (k > 0 ==> last >= 0 && LastIs(x, len, k - 1, last))
  }

  lemma BandSumStep(carried: int, x: seq<i16>, len: nat, sub: nat)
    requires sub < 4 && 4 * len <= |x|
    ensures 0 <= sub * len && sub * len + len <= |x|
    ensures var e := SumSq(x[sub * len..sub * len + len], len);
      BandSum(carried, x, len, sub + 1) == Saturated(BandSum(carried, x, len, sub) + if sub < 3 then e else e / 2)
  {
    SubStart(sub, len, |x|);
    hide Saturated, SumSq;
  }

  lemma SubStart(sub: nat, len: nat, n: nat)
    requires sub < 4 && 4 * len <= n
    ensures 0 <= sub * len && sub * len + len <= n
  {
    MulMono(len, sub, 3);
  }

  // ----- noise levels -----

  predicate LevelOk(nl: i32, invNl: i32) { 1 <= invNl && 1 <= nl <= NL_MAX }

  /** The smoothing weight for one band before the start-up floor. */
  function Coef(nrg: i32, nl: i32, invNrg: i32): (c: i32) {
    if nrg as int > I32(nl as int * 8) as int then NOISE_COEF / 8
    else if nrg < nl then NOISE_COEF
    else Smulwb(I32(invNrg as int * nl as int / 0x1_0000), 2 * NOISE_COEF)
  }

  lemma Reciprocal(nrg: int, nl: int)
    requires 1 <= nl <= nrg <= INT32_MAX
    ensures 0 <= INT32_MAX / nrg * nl <= INT32_MAX
  {
    MulMono(INT32_MAX / nrg, nl, nrg);
    assert INT32_MAX / nrg * nrg <= INT32_MAX;
  }

  lemma Positive(n: int)
    requires 1 <= n <= INT32_MAX
    ensures 1 <= INT32_MAX / n <= INT32_MAX
  {
    var q := INT32_MAX / n;
    if q > INT32_MAX { MulMono(q, 1, n); }
  }

  /** The weight of a band between the level and eight times it. */
  function Middling(nrg: int, nl: int): int
    requires nrg >= 1
  {
    INT32_MAX / nrg * nl / 0x1_0000 * (2 * NOISE_COEF) / 0x1_0000
  }

  /** The same weight without 32-bit steps. */
  function ExactCoef(nrg: int, nl: int): int
    requires nrg >= 1
  {
    if nrg > nl * 8 then NOISE_COEF / 8
    else if nrg < nl then NOISE_COEF
    else Middling(nrg, nl)
  }

  /** The weight is a small non-negative 16-bit number, with no wrap on the way. */
  lemma CoefBound(nrg: i32, nl: i32, invNrg: i32)
    requires nrg >= 1 && 1 <= nl <= NL_MAX && invNrg as int == INT32_MAX / nrg as int
    ensures 0 <= Coef(nrg, nl, invNrg) <= NOISE_COEF && Coef(nrg, nl, invNrg) as int == ExactCoef(nrg, nl)
  {
    if nl <= nrg {
      Reciprocal(nrg, nl);
      var t := invNrg as int * nl as int / 0x1_0000;
      assert 0 <= t <= 32767;
      assert I32(t) as int == t;
    }
  }

  lemma MiddlingFalls(x: int, y: int, nl: int)
    requires 1 <= nl <= x <= y <= INT32_MAX
    ensures Middling(y, nl) <= Middling(x, nl) <= NOISE_COEF
  {
    var p, q := INT32_MAX / x, INT32_MAX / y;
    FloorTimes(INT32_MAX, x);
    FloorTimes(INT32_MAX, y);
    MulMono(q, x, y);
    Distribute(p, 1, x);
    CancelLess(q, p + 1, x);
    MulMono(nl, q, p);
    Reciprocal(x, nl);
    assert q * nl == nl * q && p * nl == nl * p;
    hide *;
    var s, t := q * nl, p * nl;
    assert s / 0x1_0000 <= t / 0x1_0000 <= 32767;
  }

  /** Up to eight times the level the weight stays above 118, and reaches 128 where the reciprocal's share does. */
  lemma MiddlingEnds(x: int, nl: int)
    requires 1 <= nl <= NL_MAX && nl <= x <= nl * 8
    ensures Middling(x, nl) >= 119 && (Middling(x, nl) >= NOISE_COEF / 8 <==> INT32_MAX / x * nl >= 0x1000_0000)
  {
    var p := INT32_MAX / x;
    FloorTimes(INT32_MAX, x);
    MulMono(p, x, nl * 8);
    assert p * (nl * 8) == 8 * (p * nl);
    var t := p * nl;
    assert 8 * t > INT32_MAX - x;
    assert Middling(x, nl) == t / 0x1_0000 * (2 * NOISE_COEF) / 0x1_0000;
    hide *;
  }

  /**
   At a fixed level a louder frame never weighs more, except across eight times the level from where the share of the
   reciprocal was cut below an eighth; and never by more than 9.
   */
  lemma WeightFalls(x: int, y: int, nl: int)
    requires 1 <= x <= y <= INT32_MAX && 1 <= nl <= NL_MAX
    ensures ExactCoef(y, nl) <= ExactCoef(x, nl) <==>
      !(nl <= x <= nl * 8 < y && INT32_MAX / x * nl < 0x1000_0000)
    ensures ExactCoef(y, nl) <= ExactCoef(x, nl) + 9
  {
    CoefIs(x, nl);
    CoefIs(y, nl);
    if nl <= x { MiddlingFalls(x, y, nl); }
    if nl <= y { MiddlingFalls(y, y, nl); }
    if nl <= x <= nl * 8 { MiddlingEnds(x, nl); }
    hide ExactCoef, Middling;
  }

  lemma CoefIs(x: int, nl: int)
    requires x >= 1
    ensures ExactCoef(x, nl) == if x > nl * 8 then NOISE_COEF / 8 else if x < nl then NOISE_COEF else Middling(x, nl)
  {}

  /** At level 1 the weight rises from energy 8 to energy 9. */
  lemma WeightRises()
    ensures ExactCoef(8, 1) == 127 && ExactCoef(9, 1) == 128
  {}

  /** Smoothing toward the target by a weight below one half stays between the two. */
  lemma SmoothedBetween(a: i32, b: i32, c: i16)
    requires a >= 1 && b >= 1 && c >= 0
    ensures var r := Smlawb(a, I32(b as int - a as int), c) as int;
      r == a as int + (b as int - a as int) * c as int / 0x1_0000 && (a <= b ==> a as int <= r <= b as int)
        && (b <= a ==> b as int <= r <= a as int)
  {
    var d, w: int := b as int - a as int, c;
    assert I32(d) as int == d;
    FloorBounds(d, w);
    if d >= 0 {
      MulMono(d, w, 0x8000);
    } else {
      MulMono(-d, w, 0x8000);
      assert d * w == -(-d * w);
    }
  }

  /** The start-up floor on the weight: at most 32767, since the counter never goes below 15. */
  function MinCoef(counter: i32): i32
    requires counter >= 0
  {
    if counter < 1000 then 32767 / (counter as int / 16 + 1) else 0
  }

  lemma MinCoefBound(counter: i32)
    requires counter >= 0
    ensures 0 <= MinCoef(counter) <= 32767
  {
    if counter < 1000 { MulMono(32767 / (counter as int / 16 + 1), 1, counter as int / 16 + 1); }
  }

  /** The floor falls as one over the number of 16-frame blocks begun, and is gone after 1000 frames. */
  lemma MinCoefFalls(counter: i32)
    requires counter >= 0
    ensures counter < 1000 ==> var n := counter as int / 16 + 1;
      n * MinCoef(counter) as int <= 32767 < n * (MinCoef(counter) as int + 1)
    ensures counter >= 1000 ==> MinCoef(counter) == 0
  {
    if counter < 1000 {
      var n := counter as int / 16 + 1;
      FloorTimes(32767, n);
      assert n * (32767 / n + 1) == 32767 / n * n + n;
    }
  }

  /** The noise level and its reciprocal after one frame, in unbounded arithmetic. */
  function NextLevel(nl: int, invNl: int, bias: int, x: int, minCoef: int): (int, int)
    requires bias >= 1 && x >= 0
  {
    var nrg := Saturated(x + bias);
    var c := if ExactCoef(nrg, nl) < minCoef then minCoef else ExactCoef(nrg, nl);
    var inv := invNl + (INT32_MAX / nrg - invNl) * c / 0x1_0000;
    (if inv < 1 || INT32_MAX / inv > NL_MAX then NL_MAX else INT32_MAX / inv, inv)
  }

  /**
   The reciprocal moves toward that of the frame's energy by at most the weight's share, and the level is its
   reciprocal, capped.
   */
  lemma NextLevelMoves(nl: i32, invNl: i32, bias: i32, x: i32, minCoef: i32)
    requires LevelOk(nl, invNl) && bias >= 1 && x >= 0 && 0 <= minCoef <= 32767
    ensures var r := NextLevel(nl, invNl, bias, x, minCoef); var aim := INT32_MAX / Saturated(x as int + bias as int);
      && (if aim >= invNl as int then invNl as int <= r.1 <= aim else aim <= r.1 <= invNl as int) && r.1 >= 1
      && (r.0 < NL_MAX ==> r.0 * r.1 <= INT32_MAX < (r.0 + 1) * r.1) && 1 <= r.0 <= NL_MAX
  {
    var nrg := Saturated(x as int + bias as int);
    Positive(nrg);
    var aim := INT32_MAX / nrg;
    CoefBound(nrg, nl, aim);
    var c := if ExactCoef(nrg, nl) < minCoef then minCoef else ExactCoef(nrg, nl);
    SmoothedBetween(invNl, aim, c);
    hide ExactCoef, Coef, Smlawb, Saturated;
    var inv := invNl as int + (aim - invNl as int) * c / 0x1_0000;
    assert 1 <= inv <= INT32_MAX;
    Positive(inv);
    FloorTimes(INT32_MAX, inv);
    Distribute(INT32_MAX / inv, 1, inv);
  }

  /** One band of getNoiseLevels: every divisor is positive, no step wraps, and the level invariant is kept. */
  method UpdateLevel(nl: i32, invNl: i32, bias: i32, x: i32, minCoef: i32) returns (nl1: i32, invNl1: i32)
    requires LevelOk(nl, invNl) && bias >= 1 && x >= 0 && 0 <= minCoef <= 32767
    ensures LevelOk(nl1, invNl1) && (nl1 as int, invNl1 as int) == NextLevel(nl, invNl, bias, x, minCoef)
  {
    hide Coef, ExactCoef, Smlawb, AddPosSat, I32;
    AddPosSatIs(x, bias);
    var nrg := AddPosSat(x, bias);
    Positive(nrg);
    var invNrg: i32 := INT32_MAX / nrg as int;
    CoefBound(nrg, nl, invNrg);
    var coef := Coef(nrg, nl, invNrg);
    if coef < minCoef {
      coef := minCoef;
    }
    SmoothedBetween(invNl, invNrg, coef);
    invNl1 := Smlawb(invNl, I32(invNrg as int - invNl as int), coef);
    Positive(invNl1);
    var v: i32 := INT32_MAX / invNl1 as int;
    nl1 := if v > NL_MAX then NL_MAX else v;
  }

  method InitialLevel(b: nat) returns (bias: i32, nl: i32, invNl: i32)
    requires b < BANDS
    ensures bias >= 1 && LevelOk(nl, invNl)
  {
    bias := 50 / (b + 1);
    if bias < 1 {
      bias := 1;
    }
    nl := 100 * bias as int;
    Positive(nl);
    invNl := INT32_MAX / nl as int;
  }

  /** The detector's persistent noise state and filter states. */
  class VadState {
    const nl: array<i32>
    const invNl: array<i32>
    const bias: array<i32>
    const xnrgSubfr: array<i32>
    var counter: i32

    ghost predicate Valid()
      reads this, nl, invNl, bias, xnrgSubfr
    {
      && nl.Length == invNl.Length == bias.Length == xnrgSubfr.Length == BANDS
      && nl != invNl && nl != bias && nl != xnrgSubfr && invNl != bias && invNl != xnrgSubfr && bias != xnrgSubfr
      && counter >= 15
      && (forall b :: 0 <= b < BANDS ==> LevelOk(nl[b], invNl[b]) && bias[b] >= 1 && xnrgSubfr[b] >= 0)
    }

    constructor ()
      ensures Valid() && fresh(nl) && fresh(invNl) && fresh(bias) && fresh(xnrgSubfr)
    {
      nl, invNl, bias, xnrgSubfr := new i32[BANDS](_ => 1), new i32[BANDS](_ => 1), new i32[BANDS](_ => 1),
        new i32[BANDS](_ => 0);
      counter := 15;
      new;
      for b := 0 to BANDS
        invariant nl.Length == invNl.Length == bias.Length == xnrgSubfr.Length == BANDS && counter == 15
        invariant nl != invNl && nl != bias && nl != xnrgSubfr && invNl != bias && invNl != xnrgSubfr
          && bias != xnrgSubfr
        invariant forall j :: 0 <= j < BANDS ==> LevelOk(nl[j], invNl[j]) && bias[j] >= 1 && xnrgSubfr[j] >= 0
      {
        var bi, n, inv := InitialLevel(b);
        bias[b], nl[b], invNl[b] := bi, n, inv;
      }
    }

    /** getNoiseLevels, on any non-negative band energies. */
    method GetNoiseLevels(pX: seq<i32>)
      requires Valid() && |pX| == BANDS && forall b :: 0 <= b < BANDS ==> pX[b] >= 0
      modifies this, nl, invNl
      ensures Valid() && counter == if old(counter) < 1000 then old(counter) + 1 else old(counter)
      ensures forall b :: 0 <= b < BANDS ==>
        (nl[b] as int, invNl[b] as int) == NextLevel(old(nl[b]), old(invNl[b]), bias[b], pX[b], MinCoef(old(counter)))
    {
      var minCoef := MinCoef(counter);
      MinCoefBound(counter);
      if counter < 1000 {
        counter := counter + 1;
      }
      hide NextLevel, MinCoef, LevelOk;
      for b := 0 to BANDS
        invariant Valid() && counter == if old(counter) < 1000 then old(counter) + 1 else old(counter)
        invariant forall j :: b <= j < BANDS ==> nl[j] == old(nl[j]) && invNl[j] == old(invNl[j])
        invariant forall j :: 0 <= j < b ==>
          (nl[j] as int, invNl[j] as int) == NextLevel(old(nl[j]), old(invNl[j]), bias[j], pX[j], minCoef)
      {
        var n, i := UpdateLevel(nl[b], invNl[b], bias[b], pX[b], minCoef);
        nl[b], invNl[b] := n, i;
      }
    }

    /** Energies of all bands, carrying each band's last subframe, then the noise levels. */
    method Measure(bands: seq<seq<i16>>, lens: seq<nat>) returns (xnrg: seq<i32>)
      requires Valid() && |bands| == |lens| == BANDS
        && forall b :: 0 <= b < BANDS ==> lens[b] < 128 && 4 * lens[b] <= |bands[b]|
      modifies this, nl, invNl, xnrgSubfr
      ensures Valid() && |xnrg| == BANDS
      ensures forall b :: 0 <= b < BANDS ==>
        xnrg[b] >= 0 && xnrg[b] as int == BandSum(old(xnrgSubfr[b]), bands[b], lens[b], 4)
      ensures forall b :: 0 <= b < BANDS ==>
        (nl[b] as int, invNl[b] as int) == NextLevel(old(nl[b]), old(invNl[b]), bias[b], xnrg[b], MinCoef(old(counter)))
    {
      hide NextLevel, BandSum, MinCoef, LevelOk;
      xnrg := [];
      for b := 0 to BANDS
        invariant Valid() && |xnrg| == b && counter == old(counter)
        invariant forall j :: 0 <= j < BANDS ==> nl[j] == old(nl[j]) && invNl[j] == old(invNl[j])
        invariant forall j :: b <= j < BANDS ==> xnrgSubfr[j] == old(xnrgSubfr[j])
        invariant forall j :: 0 <= j < b ==>
          xnrg[j] >= 0 && xnrg[j] as int == BandSum(old(xnrgSubfr[j]), bands[j], lens[j], 4)
      {
        var e, last := BandEnergy(xnrgSubfr[b], bands[b], lens[b]);
        xnrgSubfr[b] := last;
        xnrg := xnrg + [e];
      }
      GetNoiseLevels(xnrg);
    }
  }
}
