/**
 The two polynomials of the root search, in 32-bit arithmetic with wrap: how they come from prediction coefficients, how
 they are evaluated, and how large their values can get.
 */
module A2NlsfPoly {
  import Bytes
  import opened GainBlock
  import CdfTables

  type i32 = CdfTables.i32

  const ONE := 65536
  const X_MAX := 8192

  // ----- the source's steps on values -----

  /** silkSmlaww. */
  function Smlaww(a: i32, b: i32, c: i32): i32 { I32(a as int + b as int * c as int / ONE) }

  /** The inner loop of silkA2NLSFTransPoly, from n down to k + 1. */
  function Fold(p: seq<i32>, k: nat, n: nat): (r: seq<i32>)
    requires k >= 2 && n < |p|
    ensures |r| == |p|
    decreases n
  {
    if n <= k then p else Fold(p[n - 2 := I32(p[n - 2] as int - p[n] as int)], k, n - 1)
  }

  /** The inner loop entry by entry: from the top down, each loses the result two places above. */
  lemma {:induction false} FoldEntry(p: seq<i32>, k: nat, n: nat, m: nat)
    requires 2 <= k <= n < |p| && m < |p|
    ensures var r := Fold(p, k, n);
      r[m] == if k - 1 <= m <= n - 2 then I32(p[m] as int - r[m + 2] as int) else p[m]
    decreases n
  {
    if n > k {
      var q := p[n - 2 := I32(p[n - 2] as int - p[n] as int)];
      FoldEntry(q, k, n - 1, m);
      if m == n - 2 { FoldEntry(q, k, n - 1, n); }
    }
  }

  function TransStep(p: seq<i32>, k: nat): (r: seq<i32>)
    requires 2 <= k < |p|
    ensures |r| == |p|
  {
    var q := Fold(p, k, |p| - 1);
    q[k - 2 := I32(q[k - 2] as int - I32(q[k] as int * 2) as int)]
  }

  /** silkA2NLSFTransPoly, from step k on. */
  function Trans(p: seq<i32>, k: nat): (r: seq<i32>)
    requires k >= 2
    ensures |r| == |p|
    decreases |p| - k
  {
    if k >= |p| then p else Trans(TransStep(p, k), k + 1)
  }

  /** Minus the lower coefficient, minus or plus the upper. */
  function Pair(lower: i32, upper: i32, odd: bool): i32 {
    if odd then I32(I32(-(lower as int)) as int + upper as int) else I32(I32(-(lower as int)) as int - upper as int)
  }

  /** Half of the symmetric sum (odd false) or difference (odd true) polynomial of the filter and its reverse. */
  function Raw(a: seq<i32>, odd: bool): (r: seq<i32>)
    requires |a| % 2 == 0
    ensures |r| == |a| / 2 + 1
  {
    var dd := |a| / 2;
    seq(dd + 1, k requires 0 <= k <= dd =>
      if k == dd then ONE else Pair(a[dd - k - 1], a[dd + k], odd))
  }

  /** The division by z + 1 (odd false) or z - 1, from index k down to 1. */
  function Divided(p: seq<i32>, odd: bool, k: nat): (r: seq<i32>)
    requires k < |p|
    ensures |r| == |p|
    decreases k
  {
    if k == 0 then p
    else Divided(p[k - 1 := I32(if odd then p[k - 1] as int + p[k] as int else p[k - 1] as int - p[k] as int)],
      odd, k - 1)
  }

  /** P or Q as silkA2NLSFInit leaves it. */
  function Poly(a: seq<i32>, odd: bool): (r: seq<i32>)
    requires |a| % 2 == 0
    ensures |r| == |a| / 2 + 1
  {
    Trans(Divided(Raw(a, odd), odd, |a| / 2), 2)
  }

  /** The accumulator of silkA2NLSFEvalPoly after index n. */
  function Horner(p: seq<i32>, x16: i32, n: nat): i32
    requires n < |p|
    decreases |p| - n
  {
    if n == |p| - 1 then p[n] else Smlaww(p[n], Horner(p, x16, n + 1), x16)
  }

  function Eval(p: seq<i32>, x: i32): i32
    requires p != []
  {
    Horner(p, I32(x as int * 16), 0)
  }

  /** Rounded product with a chirp, shifted back by 16: the step of the running chirp. */
  function ChirpStep(c: i32, m: i32): i32 { I32(c as int + (I32(c as int * m as int) as int / 32768 + 1) / 2) }

  /** The running chirp of silkBwexpander32 at coefficient i. */
  function ChirpAt(c0: i32, i: nat): i32 { if i == 0 then c0 else ChirpStep(ChirpAt(c0, i - 1), I32(c0 as int - ONE)) }

  function Scaled(c: i32, x: i32): i32 { I32(c as int * x as int / ONE) }

  function Chirped(a: seq<i32>, c0: i32): (r: seq<i32>)
    ensures |r| == |a|
  {
    seq(|a|, i requires 0 <= i < |a| => Scaled(ChirpAt(c0, i), a[i]))
  }

  // ----- the loops -----

  /** silkA2NLSFTransPoly. */
  method TransPoly(p: array<i32>)
    requires p.Length > 0
    modifies p
    ensures p[..] == Trans(old(p[..]), 2)
  {
    ghost var p0 := p[..];
    var dd := p.Length - 1;
    var k := 2;
    while k <= dd
      invariant k >= 2 && Trans(p[..], k) == Trans(p0, 2)
    {
      ghost var p1 := p[..];
      var n := dd;
      while n > k
        invariant k - 1 <= n <= dd && n >= k && Fold(p[..], k, n) == Fold(p1, k, dd)
      {
        ghost var before := p[..];
        p[n - 2] := I32(p[n - 2] as int - p[n] as int);
        assert p[..] == before[n - 2 := p[n - 2]];
        n := n - 1;
      }
      ghost var folded := p[..];
      p[k - 2] := I32(p[k - 2] as int - I32(p[k] as int * 2) as int);
      assert p[..] == TransStep(p1, k);
      k := k + 1;
    }
  }

  /** silkA2NLSFEvalPoly. */
  method EvalPoly(p: array<i32>, x: i32) returns (y: i32)
    requires p.Length > 0
    ensures y == Eval(p[..], x)
  {
    var x16 := I32(x as int * 16);
    var dd := p.Length - 1;
    y := p[dd];
    for n := dd downto 0
      invariant y == Horner(p[..], x16, n)
    {
      y := Smlaww(p[n], y, x16);
    }
  }

  /** silkA2NLSFInit. */
  method Init(a: array<i32>, p: array<i32>, q: array<i32>)
    requires a.Length % 2 == 0 && p.Length == q.Length == a.Length / 2 + 1 && p != q && p != a && q != a
    modifies p, q
    ensures p[..] == Poly(a[..], false) && q[..] == Poly(a[..], true)
  {
    hide Trans, Divided, Raw;
    Pairs(a, p, q);
    Divide(p, q);
    TransPoly(p);
    TransPoly(q);
  }

  method Pairs(a: array<i32>, p: array<i32>, q: array<i32>)
    requires a.Length % 2 == 0 && p.Length == q.Length == a.Length / 2 + 1 && p != q && p != a && q != a
    modifies p, q
    ensures p[..] == Raw(a[..], false) && q[..] == Raw(a[..], true)
  {
    hide Pair;
    var dd := a.Length / 2;
    p[dd], q[dd] := ONE, ONE;
    for k := 0 to dd
      invariant p[dd] == q[dd] == ONE
      invariant forall j :: 0 <= j < k ==>
        p[j] == Pair(a[dd - j - 1], a[dd + j], false) && q[j] == Pair(a[dd - j - 1], a[dd + j], true)
    {
      p[k] := Minus(a[dd - k - 1], a[dd + k]);
      q[k] := Plus(a[dd - k - 1], a[dd + k]);
    }
  }

  function Minus(lower: i32, upper: i32): (r: i32)
    ensures r == Pair(lower, upper, false)
  {
    I32(I32(-(lower as int)) as int - upper as int)
  }

  function Plus(lower: i32, upper: i32): (r: i32)
    ensures r == Pair(lower, upper, true)
  {
    I32(I32(-(lower as int)) as int + upper as int)
  }

  method Divide(p: array<i32>, q: array<i32>)
    requires p.Length == q.Length > 0 && p != q
    modifies p, q
    ensures p[..] == Divided(old(p[..]), false, p.Length - 1) && q[..] == Divided(old(q[..]), true, q.Length - 1)
  {
    ghost var p0, q0 := p[..], q[..];
    for k := p.Length - 1 downto 0
      invariant Divided(p[..], false, k) == Divided(p0, false, p.Length - 1)
      invariant Divided(q[..], true, k) == Divided(q0, true, q.Length - 1)
    {
      ghost var p1, q1 := p[..], q[..];
      p[k] := I32(p[k] as int - p[k + 1] as int);
      q[k] := I32(q[k] as int + q[k + 1] as int);
      assert p[..] == p1[k := p[k]] && q[..] == q1[k := q[k]];
    }
  }

  /** silkBwexpander32. */
  method Bwexpander(a: array<i32>, c0: i32)
    requires a.Length > 0
    modifies a
    ensures a[..] == Chirped(old(a[..]), c0)
  {
    hide ChirpStep, Scaled, Chirped;
    ghost var a0 := a[..];
    var d := a.Length;
    var chirp := c0;
    var minusOne := I32(c0 as int - ONE);
    for i := 0 to d - 1
      invariant chirp == ChirpAt(c0, i)
      invariant forall j :: 0 <= j < i ==> a[j] == Scaled(ChirpAt(c0, j), a0[j])
      invariant forall j :: i <= j < d ==> a[j] == a0[j]
    {
      a[i] := Scaled(chirp, a[i]);
      chirp := ChirpStep(chirp, minusOne);
    }
    a[d - 1] := Scaled(chirp, a[d - 1]);
    ChirpedIs(a0, c0);
  }

  lemma ChirpedIs(a: seq<i32>, c0: i32)
    ensures forall i :: 0 <= i < |a| ==> Chirped(a, c0)[i] == Scaled(ChirpAt(c0, i), a[i])
  {}

  function Mag(x: int): (m: nat)
    ensures m == x || m == -x
  {
    if x < 0 then -x else x
  }

  function SumAbs(a: seq<i32>): nat { if a == [] then 0 else SumAbs(a[..|a| - 1]) + Mag(a[|a| - 1]) }

  // ----- the transformation in exact arithmetic, with either sign -----

  /** s times entry j added to entry i. */
  function Shift(o: seq<int>, i: nat, j: nat, s: int): (r: seq<int>)
    requires i < |o| && j < |o|
    ensures |r| == |o|
  {
    o[i := o[i] + s * o[j]]
  }

  function FoldInt(o: seq<int>, s: int, k: nat, n: nat): (r: seq<int>)
    requires k >= 2 && n < |o|
    ensures |r| == |o|
    decreases n
  {
    if n <= k then o else FoldInt(Shift(o, n - 2, n, s), s, k, n - 1)
  }

  function Folded(o: seq<int>, s: int, k: nat): (r: seq<int>)
    requires 2 <= k < |o|
    ensures |r| == |o|
  {
    FoldInt(o, s, k, |o| - 1)
  }

  function StepInt(o: seq<int>, s: int, k: nat): (r: seq<int>)
    requires 2 <= k < |o|
    ensures |r| == |o|
  {
    Shift(Folded(o, s, k), k - 2, k, 2 * s)
  }

  function TransInt(o: seq<int>, s: int, k: nat): (r: seq<int>)
    requires k >= 2
    ensures |r| == |o|
    decreases |o| - k
  {
    if k >= |o| then o else TransInt(StepInt(o, s, k), s, k + 1)
  }

  /** What coefficient m stands for before the transformation: with s = -1 and x = 2 cos w, it is 2 cos(m w). */
  function Basis(x: int, s: int, m: nat): int {
    if m == 0 then 1 else if m == 1 then x else if m == 2 then x * x + 2 * s
      else x * Basis(x, s, m - 1) + s * Basis(x, s, m - 2)
  }

  function Power(x: int, m: nat): int { if m == 0 then 1 else x * Power(x, m - 1) }

  /** What coefficient m stands for before step k. */
  function Weight(x: int, s: int, k: nat, m: nat): int
    requires k >= 2
  {
    if m + 2 <= k then Power(x, m) else Power(x, k - 2) * Basis(x, s, m - (k - 2))
  }

  /** The same inside step k, when the coefficients above n have been dealt with. */
  function Weights(x: int, s: int, k: nat, n: nat, len: nat): (w: seq<int>)
    requires k >= 2
    ensures |w| == len && forall m :: 0 <= m < len ==> w[m] == Weight(x, s, if m > n then k + 1 else k, m)
  {
    seq(len, m requires 0 <= m < len => Weight(x, s, if m > n then k + 1 else k, m))
  }

  function Dot(o: seq<int>, w: seq<int>): int
    requires |o| == |w|
  {
    if o == [] then 0 else Dot(o[..|o| - 1], w[..|w| - 1]) + o[|o| - 1] * w[|w| - 1]
  }

  /** Two sums that differ only at i and j, where the changes cancel. */
  lemma {:induction false} DotSame(o: seq<int>, w: seq<int>, o1: seq<int>, w1: seq<int>, i: nat, j: nat)
    requires |o| == |w| == |o1| == |w1| && i < j
      && forall m :: 0 <= m < |o| && m != i && m != j ==> o[m] == o1[m] && w[m] == w1[m]
    ensures Dot(o1, w1) - Dot(o, w)
      == (if i < |o| then o1[i] * w1[i] - o[i] * w[i] else 0) + (if j < |o| then o1[j] * w1[j] - o[j] * w[j] else 0)
  {
    if o != [] { DotSame(o[..|o| - 1], w[..|w| - 1], o1[..|o| - 1], w1[..|w| - 1], i, j); }
  }

  lemma WeightStep(x: int, s: int, k: nat, m: nat)
    requires k >= 2
    ensures m >= k + 1 ==> Weight(x, s, k, m) - s * Weight(x, s, k, m - 2) == Weight(x, s, k + 1, m)
    ensures m == k ==> Weight(x, s, k, m) - 2 * s * Weight(x, s, k, m - 2) == Weight(x, s, k + 1, m)
    ensures m < k ==> Weight(x, s, k, m) == Weight(x, s, k + 1, m)
  {
    if m >= k + 1 { WeightAbove(x, s, k, m); } else if m == k { WeightAt(x, s, k); }
      else if m == k - 1 { WeightBelow(x, s, k); }
  }

  lemma {:induction false} WeightAbove(x: int, s: int, k: nat, m: nat)
    requires k >= 2 && m >= k + 1
    ensures Weight(x, s, k, m) - s * Weight(x, s, k, m - 2) == Weight(x, s, k + 1, m)
  {
    var p, j := Power(x, k - 2), m - (k - 2);
    var b1, b2 := Basis(x, s, j - 1), Basis(x, s, j - 2);
    assert Basis(x, s, j) == x * b1 + s * b2 && Power(x, k - 1) == x * p;
    assert Weight(x, s, k, m - 2) == p * b2 && Weight(x, s, k + 1, m) == x * p * b1;
    Spread(p, x, b1, s, b2);
  }

  lemma {:induction false} WeightAt(x: int, s: int, k: nat)
    requires k >= 2
    ensures Weight(x, s, k, k) - 2 * s * Weight(x, s, k, k - 2) == Weight(x, s, k + 1, k)
  {
    var p := Power(x, k - 2);
    assert Basis(x, s, 2) == x * x + 2 * s && Basis(x, s, 1) == x && Power(x, k - 1) == x * p;
    assert Weight(x, s, k, k) == p * (x * x + 2 * s) && Weight(x, s, k, k - 2) == p
      && Weight(x, s, k + 1, k) == x * p * x;
    Spread(p, x, x, s, 2);
  }

  lemma {:induction false} WeightBelow(x: int, s: int, k: nat)
    requires k >= 2
    ensures Weight(x, s, k, k - 1) == Weight(x, s, k + 1, k - 1)
  {
    assert Basis(x, s, 1) == x && Power(x, k - 1) == x * Power(x, k - 2);
  }

  lemma Spread(p: int, x: int, b: int, s: int, c: int)
    ensures p * (x * b + s * c) - s * (p * c) == x * p * b && p * (x * b + c * s) - c * s * p == x * p * b
  {
    assert p * (x * b + s * c) == p * (x * b) + p * (s * c);
    assert p * (s * c) == s * (p * c) && c * s * p == s * (p * c) && p * (x * b) == x * p * b;
  }

  lemma Cancel(a: int, b: int, s: int, v: int, w: int)
    ensures (a + s * b) * v - a * v + (b * (w - s * v) - b * w) == 0
  {
    assert (a + s * b) * v == a * v + s * b * v && b * (w - s * v) == b * w - s * b * v;
  }

  /** Adding s times entry j to entry i is undone by subtracting s times weight i from weight j. */
  lemma DotShift(o: seq<int>, w: seq<int>, i: nat, j: nat, s: int)
    requires |o| == |w| && i < j < |o|
    ensures Dot(Shift(o, i, j, s), Shift(w, j, i, -s)) == Dot(o, w)
  {
    DotSame(o, w, Shift(o, i, j, s), Shift(w, j, i, -s), i, j);
    Cancel(o[i], o[j], s, w[i], w[j]);
  }

  lemma WeightsNext(x: int, s: int, k: nat, n: nat, len: nat)
    requires 2 <= k < n < len
    ensures var w := Weights(x, s, k, n, len); Weights(x, s, k, n - 1, len) == Shift(w, n, n - 2, -s)
  {
    hide Weight;
    WeightStep(x, s, k, n);
  }

  lemma WeightsDone(x: int, s: int, k: nat, len: nat)
    requires 2 <= k < len
    ensures var w := Weights(x, s, k, k, len); Weights(x, s, k + 1, len, len) == Shift(w, k, k - 2, -(2 * s))
    ensures Weights(x, s, k, len - 1, len) == Weights(x, s, k, len, len)
  {
    hide Weight;
    var w := Weights(x, s, k, k, len);
    var u, v := Weights(x, s, k + 1, len, len), Shift(w, k, k - 2, -(2 * s));
    forall m | 0 <= m < len ensures u[m] == v[m] {
      WeightStep(x, s, k, m);
    }
  }

  lemma {:induction false} FoldMeaning(o: seq<int>, x: int, s: int, k: nat, n: nat)
    requires k >= 2 && n < |o| && k <= n
    ensures Dot(FoldInt(o, s, k, n), Weights(x, s, k, k, |o|)) == Dot(o, Weights(x, s, k, n, |o|))
    decreases n
  {
    hide Weight, Weights, Dot, Shift;
    if n > k {
      DotShift(o, Weights(x, s, k, n, |o|), n - 2, n, s);
      WeightsNext(x, s, k, n, |o|);
      FoldMeaning(Shift(o, n - 2, n, s), x, s, k, n - 1);
    }
  }

  lemma {:induction false} StepMeaning(o: seq<int>, x: int, s: int, k: nat)
    requires 2 <= k < |o|
    ensures Dot(StepInt(o, s, k), Weights(x, s, k + 1, |o|, |o|)) == Dot(o, Weights(x, s, k, |o|, |o|))
  {
    hide Weight, Weights, Dot, Shift, Folded, FoldInt;
    FoldedMeaning(o, x, s, k);
    WeightsDone(x, s, k, |o|);
    DotShift(Folded(o, s, k), Weights(x, s, k, k, |o|), k - 2, k, 2 * s);
  }

  lemma {:induction false} FoldedMeaning(o: seq<int>, x: int, s: int, k: nat)
    requires 2 <= k < |o|
    ensures Dot(Folded(o, s, k), Weights(x, s, k, k, |o|)) == Dot(o, Weights(x, s, k, |o| - 1, |o|))
  {
    hide Weight, Weights, Dot, Shift, FoldInt;
    FoldMeaning(o, x, s, k, |o| - 1);
  }

  /** The transformation keeps the function and changes the basis, from multiples of the angle to powers of x. */
  lemma {:induction false} TransMeaning(o: seq<int>, x: int, s: int, k: nat)
    requires k >= 2
    ensures Dot(TransInt(o, s, k), Weights(x, s, |o| + 2, |o|, |o|)) == Dot(o, Weights(x, s, k, |o|, |o|))
    decreases |o| - k
  {
    hide Weight, Weights;
    if k >= |o| {
      LastWeights(x, s, k, |o|);
      LastWeights(x, s, |o| + 2, |o|);
    } else {
      StepMeaning(o, x, s, k);
      TransMeaning(StepInt(o, s, k), x, s, k + 1);
    }
  }

  lemma LastWeight(x: int, s: int, k: nat, m: nat)
    requires k >= 2 && m < k
    ensures Weight(x, s, k, m) == Power(x, m)
  {
    if m == k - 1 { assert Basis(x, s, 1) == x && Power(x, m) == x * Power(x, k - 2); }
  }

  lemma LastWeights(x: int, s: int, k: nat, len: nat)
    requires k >= 2 && len <= k
    ensures Weights(x, s, k, len, len) == Powers(x, len)
  {
    hide Weight;
    forall m | 0 <= m < len ensures Weight(x, s, k, m) == Power(x, m) { LastWeight(x, s, k, m); }
  }

  function Powers(x: int, len: nat): (w: seq<int>)
    ensures |w| == len && forall m :: 0 <= m < len ==> w[m] == Power(x, m)
  {
    seq(len, m requires 0 <= m < len => Power(x, m))
  }

  function Bases(x: int, s: int, len: nat): (w: seq<int>)
    ensures |w| == len && forall m :: 0 <= m < len ==> w[m] == Basis(x, s, m)
  {
    seq(len, m requires 0 <= m < len => Basis(x, s, m))
  }

  /** As a polynomial in x, the result is the combination of multiples of the angle that the input stood for. */
  lemma Transformed(o: seq<int>, x: int, s: int)
    ensures Dot(TransInt(o, s, 2), Powers(x, |o|)) == Dot(o, Bases(x, s, |o|))
  {
    TransMeaning(o, x, s, 2);
    LastWeights(x, s, |o| + 2, |o|);
    assert Weights(x, s, 2, |o|, |o|) == Bases(x, s, |o|) by {
      forall m | 0 <= m < |o| ensures Weight(x, s, 2, m) == Basis(x, s, m) { if m == 0 { assert Power(x, 0) == 1; } }
    }
  }

  /** Horner's value of coefficients o from n on. */
  function HornerInt(o: seq<int>, x: int, n: nat): int
    requires n < |o|
    decreases |o| - n
  {
    if n == |o| - 1 then o[n] else o[n] + x * HornerInt(o, x, n + 1)
  }

  lemma {:induction false} HornerIsDot(o: seq<int>, x: int, n: nat)
    requires n < |o|
    ensures Dot(o[..n], Powers(x, n)) + Power(x, n) * HornerInt(o, x, n) == Dot(o, Powers(x, |o|))
    decreases |o| - n
  {
    assert Powers(x, n + 1)[..n] == Powers(x, n) && o[..n + 1][..n] == o[..n];
    assert Dot(o[..n + 1], Powers(x, n + 1)) == Dot(o[..n], Powers(x, n)) + o[n] * Power(x, n);
    if n == |o| - 1 {
      assert o[..n + 1] == o;
    } else {
      HornerIsDot(o, x, n + 1);
      Distribute(Power(x, n), o[n], x, HornerInt(o, x, n + 1));
    }
  }

  lemma Distribute(p: int, a: int, x: int, h: int)
    ensures p * (a + x * h) == a * p + x * p * h
  {
    assert p * (a + x * h) == p * a + p * (x * h);
    assert p * (x * h) == x * p * h;
  }

  // ----- how large values get -----

  /** How much transformation and evaluation can enlarge coefficients, at half order dd: 1, 3, 9, 23, ... */
  function Growth(dd: nat): (g: nat)
    ensures g >= 1
  {
    BasisPositive(dd);
    if dd == 0 then 1 else Growth(dd - 1) + Basis(2, 1, dd)
  }

  lemma BasisPositive(m: nat)
    ensures Basis(2, 1, m) >= 1
  {}

  function Ones(n: nat): (o: seq<int>)
    ensures |o| == n && forall i :: 0 <= i < n ==> o[i] == 1
  {
    seq(n, i => 1)
  }

  lemma {:induction false} GrowthIsDot(dd: nat)
    ensures Dot(Ones(dd + 1), Bases(2, 1, dd + 1)) == Growth(dd)
  {
    assert Ones(dd + 1)[..dd] == Ones(dd) && Bases(2, 1, dd + 1)[..dd] == Bases(2, 1, dd);
    if dd > 0 { GrowthIsDot(dd - 1); }
  }

  /** The transformed and evaluated ones, all signs positive, at two. */
  lemma GrowthIs(dd: nat)
    ensures HornerInt(TransInt(Ones(dd + 1), 1, 2), 2, 0) == Growth(dd)
  {
    var o := TransInt(Ones(dd + 1), 1, 2);
    HornerIsDot(o, 2, 0);
    Transformed(Ones(dd + 1), 2, 1);
    GrowthIsDot(dd);
    assert Power(2, 0) == 1;
  }

  /** The growth at the order the program uses. */
  lemma GrowthAt8()
    ensures Growth(8) == 1969
  {}

  /** Bound on every value of P and Q. */
  function ValueBound(a: seq<i32>): nat {
    CdfTables.MulMono(Growth(|a| / 2), 0, ONE + SumAbs(a));
    Growth(|a| / 2) * (ONE + SumAbs(a))
  }

  /** Wrapping never makes a number larger. */
  lemma WrapShrinks(x: int)
    ensures Mag(I32(x)) <= Mag(x)
  {}

  predicate Within(p: seq<int>, o: seq<int>, t: nat) {
    |p| == |o| && forall i :: 0 <= i < |p| ==> Mag(p[i]) <= t * o[i]
  }

  lemma SumWithin(t: nat, x: int, y: int, c: nat, d: nat)
    requires c <= t * x && d <= t * y
    ensures c + d <= t * (x + y) && c + 2 * d <= t * (x + 2 * y)
  {
    assert t * (x + y) == t * x + t * y;
    assert t * (x + 2 * y) == t * x + 2 * (t * y);
  }

  lemma {:induction false} FoldWithin(p: seq<i32>, o: seq<int>, t: nat, k: nat, n: nat)
    requires k >= 2 && n < |p| && Within(p, o, t)
    ensures Within(Fold(p, k, n), FoldInt(o, 1, k, n), t)
    decreases n
  {
    if n > k {
      WrapShrinks(p[n - 2] as int - p[n] as int);
      SumWithin(t, o[n - 2], o[n], Mag(p[n - 2]), Mag(p[n]));
      FoldWithin(p[n - 2 := I32(p[n - 2] as int - p[n] as int)], Shift(o, n - 2, n, 1), t, k, n - 1);
    }
  }

  lemma StepWithin(p: seq<i32>, o: seq<int>, t: nat, k: nat)
    requires 2 <= k < |p| && Within(p, o, t)
    ensures Within(TransStep(p, k), StepInt(o, 1, k), t)
  {
    FoldWithin(p, o, t, k, |p| - 1);
    var q, u := Fold(p, k, |p| - 1), FoldInt(o, 1, k, |o| - 1);
    WrapShrinks(q[k] as int * 2);
    WrapShrinks(q[k - 2] as int - I32(q[k] as int * 2) as int);
    SumWithin(t, u[k - 2], u[k], Mag(q[k - 2]), Mag(q[k]));
  }

  lemma {:induction false} TransWithin(p: seq<i32>, o: seq<int>, t: nat, k: nat)
    requires k >= 2 && Within(p, o, t)
    ensures Within(Trans(p, k), TransInt(o, 1, k), t)
    decreases |p| - k
  {
    if k < |p| {
      StepWithin(p, o, t, k);
      TransWithin(TransStep(p, k), StepInt(o, 1, k), t, k + 1);
    }
  }

  lemma SmlawwShrinks(a: i32, b: i32, x16: i32)
    requires Mag(x16) <= 2 * ONE
    ensures Mag(Smlaww(a, b, x16)) <= Mag(a) + 2 * Mag(b)
  {
    ProductBound(b, x16);
    WrapShrinks(a as int + b as int * x16 as int / ONE);
  }

  lemma ProductBound(b: int, x: int)
    requires Mag(x) <= 2 * ONE
    ensures Mag(b * x / ONE) <= 2 * Mag(b)
  {
    var m := Mag(b);
    CdfTables.MulMono(m, Mag(x), 2 * ONE);
    SignedProduct(b, x);
    FloorBetween(b * x, 2 * m);
  }

  lemma SignedProduct(b: int, x: int)
    ensures b * x == Mag(b) * Mag(x) || b * x == -(Mag(b) * Mag(x))
  {}

  lemma FloorBetween(v: int, m: nat)
    requires -(m * ONE) <= v <= m * ONE
    ensures Mag(v / ONE) <= m
  {}

  lemma {:induction false} HornerWithin(p: seq<i32>, o: seq<int>, t: nat, x16: i32, n: nat)
    requires n < |p| && Within(p, o, t) && Mag(x16) <= 2 * ONE
    ensures Mag(Horner(p, x16, n)) <= t * HornerInt(o, 2, n)
    decreases |p| - n
  {
    if n < |p| - 1 {
      HornerWithin(p, o, t, x16, n + 1);
      SmlawwShrinks(p[n], Horner(p, x16, n + 1), x16);
      SumWithin(t, o[n], HornerInt(o, 2, n + 1), Mag(p[n]), Mag(Horner(p, x16, n + 1)));
    }
  }

  // ----- the division keeps every coefficient within the sum of those above -----

  lemma {:induction false} SumAbsSplit(a: seq<i32>, b: seq<i32>)
    ensures SumAbs(a + b) == SumAbs(a) + SumAbs(b)
  {
    if b == [] {
      assert a + b == a;
    } else {
      assert (a + b)[..|a + b| - 1] == a + b[..|b| - 1];
      SumAbsSplit(a, b[..|b| - 1]);
    }
  }

  lemma {:induction false} SumAbsEntry(a: seq<i32>, i: nat)
    requires i < |a|
    ensures Mag(a[i]) <= SumAbs(a)
  {
    if i < |a| - 1 { SumAbsEntry(a[..|a| - 1], i); }
  }

  lemma {:induction false} DividedWithin(p: seq<i32>, odd: bool, k: nat, t: nat)
    requires k < |p| && forall i :: k <= i < |p| ==> Mag(p[i]) <= t
    requires SumAbs(p[..k]) + Mag(p[k]) <= t
    ensures forall i :: 0 <= i < |p| ==> Mag(Divided(p, odd, k)[i]) <= t
    decreases k
  {
    if k > 0 {
      var v := if odd then p[k - 1] as int + p[k] as int else p[k - 1] as int - p[k] as int;
      WrapShrinks(v);
      var q := p[k - 1 := I32(v)];
      assert p[..k][..k - 1] == p[..k - 1] == q[..k - 1];
      DividedWithin(q, odd, k - 1, t);
    }
  }

  lemma PairWithin(lower: i32, upper: i32, odd: bool)
    ensures Mag(Pair(lower, upper, odd)) <= Mag(lower) + Mag(upper)
  {
    WrapShrinks(-(lower as int));
    WrapShrinks(I32(-(lower as int)) as int + upper as int);
    WrapShrinks(I32(-(lower as int)) as int - upper as int);
  }

  lemma RawIs(a: seq<i32>, odd: bool)
    requires |a| % 2 == 0
    ensures var dd := |a| / 2;
      Raw(a, odd)[dd] == ONE && forall k :: 0 <= k < dd ==> Raw(a, odd)[k] == Pair(a[dd - k - 1], a[dd + k], odd)
  {}

  lemma SumAbsAround(x: i32, mid: seq<i32>, y: i32)
    ensures SumAbs([x] + mid + [y]) == Mag(x) + SumAbs(mid) + Mag(y)
  {
    SumAbsSplit([x] + mid, [y]);
    SumAbsSplit([x], mid);
  }

  lemma SumAbsSnoc(a: seq<i32>, k: nat)
    requires 0 < k <= |a|
    ensures SumAbs(a[..k]) == SumAbs(a[..k - 1]) + Mag(a[k - 1])
  {
    assert a[..k][..k - 1] == a[..k - 1];
  }

  lemma MiddleGrows(a: seq<i32>, dd: nat, k: nat)
    requires |a| == 2 * dd && 0 < k <= dd
    ensures SumAbs(a[dd - k..dd + k]) == Mag(a[dd - k]) + SumAbs(a[dd - (k - 1)..dd + (k - 1)]) + Mag(a[dd + k - 1])
  {
    hide SumAbs, Mag;
    assert a[dd - k..dd + k] == [a[dd - k]] + a[dd - (k - 1)..dd + (k - 1)] + [a[dd + k - 1]];
    SumAbsAround(a[dd - k], a[dd - (k - 1)..dd + (k - 1)], a[dd + k - 1]);
  }

  /** The first k pairs are the 2k coefficients in the middle. */
  lemma {:induction false} PairsWithin(s: seq<i32>, a: seq<i32>, dd: nat, k: nat)
    requires |a| == 2 * dd && k <= dd <= |s|
      && forall j :: 0 <= j < dd ==> Mag(s[j]) <= Mag(a[dd - j - 1]) + Mag(a[dd + j])
    ensures SumAbs(s[..k]) <= SumAbs(a[dd - k..dd + k])
  {
    hide Mag;
    if k > 0 {
      PairsWithin(s, a, dd, k - 1);
      SumAbsSnoc(s, k);
      MiddleGrows(a, dd, k);
    }
  }

  lemma RawWithin(a: seq<i32>, odd: bool, dd: nat)
    requires |a| == 2 * dd
    ensures SumAbs(Raw(a, odd)[..dd]) <= SumAbs(a)
  {
    hide Raw, Pair, SumAbs, Mag;
    RawIs(a, odd);
    forall j | 0 <= j < dd ensures Mag(Raw(a, odd)[j]) <= Mag(a[dd - j - 1]) + Mag(a[dd + j]) {
      PairWithin(a[dd - j - 1], a[dd + j], odd);
    }
    PairsWithin(Raw(a, odd), a, dd, dd);
    assert a[dd - dd..dd + dd] == a;
  }

  lemma CoefsBounded(a: seq<i32>, odd: bool)
    requires |a| % 2 == 0
    ensures forall i :: 0 <= i <= |a| / 2 ==> Mag(Divided(Raw(a, odd), odd, |a| / 2)[i]) <= ONE + SumAbs(a)
  {
    hide Raw, Divided;
    var dd := |a| / 2;
    RawIs(a, odd);
    RawWithin(a, odd, dd);
    DividedWithin(Raw(a, odd), odd, dd, ONE + SumAbs(a));
  }

  /** No value of P or Q, at any point of the table or between, exceeds the growth of the coefficients' sum. */
  lemma ValuesBounded(a: seq<i32>, odd: bool, x: i32)
    requires |a| % 2 == 0 && Mag(x) <= X_MAX
    ensures Mag(Eval(Poly(a, odd), x)) <= ValueBound(a)
  {
    hide Raw, Divided, Trans, TransInt, Horner, HornerInt, Pair, Ones, Growth;
    var dd, t := |a| / 2, ONE + SumAbs(a);
    CoefsBounded(a, odd);
    TransWithin(Divided(Raw(a, odd), odd, dd), Ones(dd + 1), t, 2);
    HornerWithin(Poly(a, odd), TransInt(Ones(dd + 1), 1, 2), t, I32(x as int * 16), 0);
    GrowthIs(dd);
    assert t * Growth(dd) == Growth(dd) * t;
  }

  // ----- bandwidth expansion only shrinks coefficients -----

  lemma ChirpStepShrinks(c: i32, c0: i32)
    requires 0 <= c <= c0 <= ONE
    ensures 0 <= ChirpStep(c, I32(c0 as int - ONE)) <= c
  {
    var m: nat := ONE - c0;
    CdfTables.MulMono(m, c, c0);
    CdfTables.MulMono(c, m, ONE);
    Quarter(c0);
    Negated(c, c0, m);
    ChirpFrom(c, c0 as int - ONE, c * m);
  }

  lemma Negated(c: int, c0: int, m: int)
    requires m == ONE - c0
    ensures c * (c0 - ONE) == -(c * m) && m * c == c * m && m * c0 == c0 * (ONE - c0)
  {}

  /** The step, from the product it is a rounded part of. */
  lemma ChirpFrom(c: i32, m: i32, loss: int)
    requires c as int * m as int == -loss && 0 <= loss <= 0x4000_0000 && loss <= c as int * ONE && m as int == I32(m)
    ensures 0 <= ChirpStep(c, m) <= c
  {
    hide I32;
  }

  lemma Quarter(x: nat)
    requires x <= ONE
    ensures x * (ONE - x) <= 0x4000_0000
  {
    assert (x - 32768) * (x - 32768) >= 0;
    assert x * (ONE - x) == 0x4000_0000 - (x - 32768) * (x - 32768);
  }

  lemma {:induction false} ChirpInRange(c0: i32, i: nat)
    requires 0 <= c0 <= ONE
    ensures 0 <= ChirpAt(c0, i) <= c0
  {
    if i > 0 {
      ChirpInRange(c0, i - 1);
      ChirpStepShrinks(ChirpAt(c0, i - 1), c0);
    }
  }

  /** The step is the product with the first chirp, rounded to the nearest. */
  lemma ChirpRounds(c: i32, c0: i32)
    requires 0 <= c <= c0 <= ONE
    ensures -32768 < ONE * ChirpStep(c, I32(c0 as int - ONE)) as int - c as int * c0 as int <= 32768
  {
    var m: nat := ONE - c0;
    CdfTables.MulMono(m, c, c0);
    CdfTables.MulMono(c, m, ONE);
    Quarter(c0);
    Negated(c, c0, m);
    assert c as int * c0 as int == c as int * ONE - c as int * m;
    RoundedFrom(c, c0 as int - ONE, c * m);
  }

  lemma RoundedFrom(c: i32, m: i32, loss: int)
    requires c as int * m as int == -loss && 0 <= loss <= 0x4000_0000 && loss <= c as int * ONE && m as int == I32(m)
    ensures -32768 < ONE * ChirpStep(c, m) as int - (c as int * ONE - loss) <= 32768
  {
    ChirpFrom(c, m, loss);
    hide I32;
  }

  /** The n-th power of a first chirp, as a part of one. */
  function Decay(c0: i32, n: nat): real { if n == 0 then 1.0 else Decay(c0, n - 1) * Part(c0) }

  /** The running chirp at coefficient i is the power i + 1 of the first one, within half a unit a step. */
  lemma {:induction false} ChirpAccurate(c0: i32, i: nat)
    requires 0 <= c0 <= ONE
    ensures var e := ChirpAt(c0, i) as real - Decay(c0, i + 1) * ONE as real; -(i as real) <= 2.0 * e <= i as real
  {
    hide ChirpStep, ChirpAt, Decay;
    FirstPart(c0);
    DecayStep(c0, i);
    ChirpAtStep(c0, i);
    if i > 0 {
      ChirpAccurate(c0, i - 1);
      ChirpInRange(c0, i - 1);
      ChirpRounds(ChirpAt(c0, i - 1), c0);
      StepAccurate(ChirpAt(c0, i - 1), c0, ChirpAt(c0, i), Part(c0), Decay(c0, i), Decay(c0, i + 1), (i - 1) as real);
    }
  }

  function Part(c0: i32): real { c0 as real / ONE as real }

  lemma FirstPart(c0: i32)
    requires 0 <= c0 <= ONE
    ensures Part(c0) * ONE as real == c0 as real && 0.0 <= Part(c0) <= 1.0
  {}

  lemma DecayStep(c0: i32, i: nat)
    ensures Decay(c0, i + 1) == Decay(c0, i) * Part(c0) && Decay(c0, 0) == 1.0
  {}

  lemma ChirpAtStep(c0: i32, i: nat)
    ensures ChirpAt(c0, i) == if i == 0 then c0 else ChirpStep(ChirpAt(c0, i - 1), I32(c0 as int - ONE))
  {
    hide ChirpStep;
  }

  lemma StepAccurate(c: i32, c0: i32, next: i32, r: real, d: real, dnext: real, bound: real)
    requires 0.0 <= r <= 1.0 && r * ONE as real == c0 as real && dnext == d * r
    requires -32768 < ONE * next as int - c as int * c0 as int <= 32768
    requires -bound <= 2.0 * (c as real - d * ONE as real) <= bound
    ensures var e := next as real - dnext * ONE as real; -(bound + 1.0) <= 2.0 * e <= bound + 1.0
  {
    var w, y, z := ONE as real, r * c as real, dnext * ONE as real;
    var e := r * (2.0 * (c as real - d * w));
    assert -bound <= e <= bound by { Bytes.UnitScaled(r, 2.0 * (c as real - d * w), bound); }
    assert e == 2.0 * y - 2.0 * z by { ErrorScaled(r, c as real, d, w, dnext); }
    assert -1.0 <= 2.0 * (next as real - y) <= 1.0 by { RoundedReal(c, c0, next, r); }
  }

  lemma RoundedReal(c: i32, c0: i32, next: i32, r: real)
    requires r * ONE as real == c0 as real && -32768 < ONE * next as int - c as int * c0 as int <= 32768
    ensures -1.0 <= 2.0 * (next as real - r * c as real) <= 1.0
  {
    ProductIs(c, c0);
    Reassociated(c as real, r);
    var y, x := r * c as real, c as int * c0 as int;
    assert x as real == ONE as real * y;
    hide *;
  }

  lemma Reassociated(c: real, r: real)
    ensures c * (r * ONE as real) == ONE as real * (r * c)
  {}

  lemma ProductIs(a: int, b: int)
    ensures (a * b) as real == a as real * b as real
  {}

  lemma ErrorScaled(r: real, c: real, d: real, w: real, dnext: real)
    requires dnext == d * r
    ensures r * (2.0 * (c - d * w)) == 2.0 * (r * c) - 2.0 * (dnext * w)
  {}

  /** A scaled coefficient is the product with its chirp, rounded down. */
  lemma ScaledFloors(c: i32, x: i32)
    requires 0 <= c <= ONE
    ensures 0 <= c as int * x as int - ONE * Scaled(c, x) as int < ONE
  {
    ScaledShrinks(c, x);
    var y := c as int * x as int / ONE;
    SignedProduct(c, x);
    CdfTables.MulMono(Mag(x), c, ONE);
    FloorBetween(c as int * x as int, Mag(x));
    assert I32(y) == y;
  }

  lemma ScaledShrinks(c: i32, x: i32)
    requires 0 <= c <= ONE
    ensures Mag(Scaled(c, x)) <= Mag(x)
  {
    WrapShrinks(c as int * x as int / ONE);
    SignedProduct(c, x);
    CdfTables.MulMono(Mag(x), c, ONE);
    FloorBetween(c as int * x as int, Mag(x));
  }

  /** The sum of magnitudes after an expansion, for any first chirp up to one. */
  lemma {:induction false} ChirpedShrinks(a: seq<i32>, c0: i32, n: nat)
    requires 0 <= c0 <= ONE && n <= |a|
    ensures SumAbs(Chirped(a, c0)[..n]) <= SumAbs(a[..n])
  {
    hide Chirped, Scaled, ChirpAt;
    if n > 0 {
      ChirpedIs(a, c0);
      ChirpedShrinks(a, c0, n - 1);
      ChirpInRange(c0, n - 1);
      ScaledShrinks(ChirpAt(c0, n - 1), a[n - 1]);
      assert Chirped(a, c0)[..n][..n - 1] == Chirped(a, c0)[..n - 1] && a[..n][..n - 1] == a[..n - 1];
    }
  }

  lemma BoundKept(a: seq<i32>, c0: i32)
    requires 0 <= c0 <= ONE
    ensures ValueBound(Chirped(a, c0)) <= ValueBound(a)
  {
    hide Growth, SumAbs, Chirped;
    ChirpedShrinks(a, c0, |a|);
    assert Chirped(a, c0)[..|a|] == Chirped(a, c0) && a[..|a|] == a;
    CdfTables.MulMono(Growth(|a| / 2), ONE + SumAbs(Chirped(a, c0)), ONE + SumAbs(a));
  }

  // ----- without wrap, the transformation is the change of basis -----

  predicate Congruent(p: seq<int>, e: seq<int>) { |p| == |e| && forall i :: 0 <= i < |p| ==> (p[i] - e[i]) % W32 == 0 }

  lemma SameLength(p: seq<int>, e: seq<int>)
    requires Congruent(p, e)
    ensures |p| == |e|
  {}

  lemma WrapCongruent(x: int)
    ensures (I32(x) - x) % W32 == 0
  {}

  lemma CombineCongruent(a: int, b: int, c: int, d: int, s: int, r: int)
    requires (a - c) % W32 == 0 && (b - d) % W32 == 0 && (r - (a + s * b)) % W32 == 0
    ensures (r - (c + s * d)) % W32 == 0
  {
    var i, j, k := (a - c) / W32, (b - d) / W32, (r - (a + s * b)) / W32;
    assert s * b - s * d == s * (b - d) == s * (W32 * j) == W32 * (s * j);
    assert r - (c + s * d) == W32 * (i + s * j + k);
  }

  lemma {:induction false} FoldCongruent(p: seq<i32>, e: seq<int>, k: nat, n: nat)
    requires k >= 2 && n < |p| && Congruent(p, e)
    ensures Congruent(Fold(p, k, n), FoldInt(e, -1, k, n))
    decreases n
  {
    if n > k {
      var v := p[n - 2] as int - p[n] as int;
      WrapCongruent(v);
      CombineCongruent(p[n - 2], p[n], e[n - 2], e[n], -1, I32(v));
      FoldCongruent(p[n - 2 := I32(v)], Shift(e, n - 2, n, -1), k, n - 1);
    }
  }

  lemma StepCongruent(p: seq<i32>, e: seq<int>, k: nat)
    requires 2 <= k < |p| && Congruent(p, e)
    ensures Congruent(TransStep(p, k), StepInt(e, -1, k))
  {
    hide Fold, FoldInt;
    FoldCongruent(p, e, k, |p| - 1);
    var q, f := Fold(p, k, |p| - 1), Folded(e, -1, k);
    var two := I32(q[k] as int * 2);
    WrapCongruent(q[k] as int * 2);
    WrapCongruent(q[k - 2] as int - two as int);
    CombineCongruent(q[k], 0, f[k], 0, 0, q[k]);
    CombineCongruent(0, q[k], 0, f[k], 2, two);
    CombineCongruent(q[k - 2], two, f[k - 2], 2 * f[k], -1, I32(q[k - 2] as int - two as int));
  }

  lemma {:induction false} TransCongruent(p: seq<i32>, e: seq<int>, k: nat)
    requires k >= 2 && Congruent(p, e)
    ensures Congruent(Trans(p, k), TransInt(e, -1, k))
    decreases |p| - k
  {
    hide Congruent, StepInt, TransStep;
    SameLength(p, e);
    if k < |p| {
      StepCongruent(p, e, k);
      TransCongruent(TransStep(p, k), StepInt(e, -1, k), k + 1);
    }
  }

  lemma {:induction false} FoldIntWithin(e: seq<int>, o: seq<int>, t: nat, k: nat, n: nat)
    requires k >= 2 && n < |e| && Within(e, o, t)
    ensures Within(FoldInt(e, -1, k, n), FoldInt(o, 1, k, n), t)
    decreases n
  {
    if n > k {
      SumWithin(t, o[n - 2], o[n], Mag(e[n - 2]), Mag(e[n]));
      FoldIntWithin(Shift(e, n - 2, n, -1), Shift(o, n - 2, n, 1), t, k, n - 1);
    }
  }

  lemma {:induction false} TransIntWithin(e: seq<int>, o: seq<int>, t: nat, k: nat)
    requires k >= 2 && Within(e, o, t)
    ensures Within(TransInt(e, -1, k), TransInt(o, 1, k), t)
    decreases |e| - k
  {
    if k < |e| {
      FoldIntWithin(e, o, t, k, |e| - 1);
      var q, u := Folded(e, -1, k), Folded(o, 1, k);
      SumWithin(t, u[k - 2], u[k], Mag(q[k - 2]), Mag(q[k]));
      hide FoldInt;
      TransIntWithin(StepInt(e, -1, k), StepInt(o, 1, k), t, k + 1);
    }
  }

  lemma {:induction false} EntryBelowHorner(o: seq<int>, n: nat, i: nat)
    requires n <= i < |o| && forall j :: 0 <= j < |o| ==> o[j] >= 0
    ensures 0 <= o[i] <= HornerInt(o, 2, n)
    decreases |o| - n
  {
    if n < |o| - 1 { EntryBelowHorner(o, n + 1, if i == n then n + 1 else i); }
  }

  lemma SmallCongruent(a: int, b: int, t: nat)
    requires (a - b) % W32 == 0 && Mag(a) <= t && Mag(b) <= t && t < 0x8000_0000
    ensures a == b
  {}

  /** Coefficients within t stay below the wrap when t times the growth does, and then nothing wraps. */
  lemma {:induction false} TransExact(p: seq<i32>, t: nat)
    requires p != [] && 0 < t && t * Growth(|p| - 1) < 0x8000_0000 && forall i :: 0 <= i < |p| ==> Mag(p[i]) <= t
    ensures Trans(p, 2) == TransInt(p, -1, 2)
  {
    hide Trans, TransInt, HornerInt, Growth;
    var o := TransInt(Ones(|p|), 1, 2);
    TransWithin(p, Ones(|p|), t, 2);
    TransIntWithin(p, Ones(|p|), t, 2);
    TransCongruent(p, p, 2);
    GrowthIs(|p| - 1);
    forall i | 0 <= i < |p| ensures Trans(p, 2)[i] == TransInt(p, -1, 2)[i] {
      forall j | 0 <= j < |o| ensures o[j] >= 0 { NonNegativeFactor(t, o[j]); }
      EntryBelowHorner(o, 0, i);
      CdfTables.MulMono(t, o[i], Growth(|p| - 1));
      SmallCongruent(Trans(p, 2)[i], TransInt(p, -1, 2)[i], t * o[i]);
    }
  }

  lemma NonNegativeFactor(t: nat, x: int)
    requires t > 0 && t * x >= 0
    ensures x >= 0
  {}

  /** Multiplying back by z + 1 or z - 1: the division is exact where nothing wraps. */
  lemma {:induction false} DividedBack(p: seq<i32>, odd: bool, k: nat, i: nat)
    requires k < |p| && i < |p|
    ensures var c := Divided(p, odd, k);
      if i >= k then c[i] == p[i]
        else c[i] == I32(if odd then p[i] as int + c[i + 1] as int else p[i] as int - c[i + 1] as int)
    decreases k
  {
    if k > 0 {
      var q := p[k - 1 := I32(if odd then p[k - 1] as int + p[k] as int else p[k - 1] as int - p[k] as int)];
      DividedBack(q, odd, k - 1, i);
      if i == k - 1 { DividedBack(q, odd, k - 1, k); }
    }
  }

  lemma NoWrap(x: i32, y: i32, c: i32, odd: bool, t: nat)
    requires c == I32(if odd then x as int + y as int else x as int - y as int)
    requires Mag(x) <= t && Mag(y) <= t && 2 * t < 0x8000_0000
    ensures x as int == if odd then c as int - y as int else c as int + y as int
  {}

  /**
   Below the wrap, P and Q at x = 2 cos w are cosine sums, and multiplied by z + 1 or z - 1 their coefficients are the
   symmetric sum or difference of the filter and its reverse.
   */
  lemma {:induction false} PolyMeaning(a: seq<i32>, odd: bool, x: int)
    requires |a| % 2 == 0 && ValueBound(a) < 0x8000_0000
    ensures var c := Divided(Raw(a, odd), odd, |a| / 2); Dot(Poly(a, odd), Powers(x, |c|)) == Dot(c, Bases(x, -1, |c|))
    ensures forall k :: 0 <= k < |a| / 2 ==> Rejoins(a, odd, k)
  {
    var c, t := Divided(Raw(a, odd), odd, |a| / 2), ONE + SumAbs(a);
    CoefsBounded(a, odd);
    assert t * Growth(|a| / 2) == ValueBound(a);
    if |a| > 0 { TwiceBelow(|a| / 2, t); }
    forall k | 0 <= k < |a| / 2 ensures Rejoins(a, odd, k) {
      DivisionExact(a, odd, k, t);
    }
    hide Raw, Divided, Trans, TransInt, Growth, Dot, Powers, Bases;
    TransExact(c, t);
    Transformed(c, x, -1);
  }

  /** Coefficient k of the raw polynomial is that of the divided one multiplied back. */
  predicate Rejoins(a: seq<i32>, odd: bool, k: nat)
    requires |a| % 2 == 0 && k < |a| / 2
  {
    var r, c := Raw(a, odd), Divided(Raw(a, odd), odd, |a| / 2);
    r[k] as int == if odd then c[k] as int - c[k + 1] as int else c[k] as int + c[k + 1] as int
  }

  lemma {:induction false} DivisionExact(a: seq<i32>, odd: bool, k: nat, t: nat)
    requires |a| % 2 == 0 && k < |a| / 2 && t == ONE + SumAbs(a) && 2 * t < 0x8000_0000
    ensures Rejoins(a, odd, k)
  {
    hide Raw, Divided;
    var r, c := Raw(a, odd), Divided(Raw(a, odd), odd, |a| / 2);
    CoefsBounded(a, odd);
    DividedBack(r, odd, |a| / 2, k);
    RawEntry(a, odd, k);
    NoWrap(r[k], c[k + 1], c[k], odd, t);
  }

  lemma TwiceBelow(dd: nat, t: nat)
    requires dd > 0
    ensures 2 * t <= t * Growth(dd)
  {
    BasisPositive(dd);
    assert Growth(dd) == Growth(dd - 1) + Basis(2, 1, dd) >= 2;
    CdfTables.MulMono(t, 2, Growth(dd));
  }

  lemma RawEntry(a: seq<i32>, odd: bool, k: nat)
    requires |a| % 2 == 0 && k < |a| / 2
    ensures Mag(Raw(a, odd)[k]) <= ONE + SumAbs(a)
  {
    var dd := |a| / 2;
    hide Raw, Pair;
    RawIs(a, odd);
    RawWithin(a, odd, dd);
    SumAbsEntry(Raw(a, odd)[..dd], k);
  }
}
