/** Energy and correlation of a signed pulse train through a response, in exact arithmetic. */
module FcbEnergy {
  function Terms(f: int -> real, n: nat): real {
    if n == 0 then 0.0 else Terms(f, n - 1) + f(n - 1)
  }

  function Sum(f: int -> real, n: nat): real { Terms(f, n) }

  function Shifted(f: int -> real, k: int): int -> real { i => f(k + i) }

  lemma {:induction false} SumSame(f: int -> real, g: int -> real, n: nat)
    requires forall i :: 0 <= i < n ==> f(i) == g(i)
    ensures Sum(f, n) == Sum(g, n)
  {
    if n > 0 { SumSame(f, g, n - 1); }
  }

  lemma {:induction false} SumTail(f: int -> real, n: nat, m: nat)
    requires n <= m && forall i :: n <= i < m ==> f(i) == 0.0
    ensures Sum(f, m) == Sum(f, n)
  {
    if n < m { SumTail(f, n, m - 1); }
  }

  lemma {:induction false} SumHead(f: int -> real, k: nat, n: nat)
    requires forall i :: 0 <= i < k ==> f(i) == 0.0
    ensures Sum(f, k + n) == Sum(Shifted(f, k), n)
  {
    if n > 0 { SumHead(f, k, n - 1); } else { SumTail(f, 0, k); }
  }

  function Mixed(f: int -> real, a: real, g: int -> real): int -> real { i => f(i) + a * g(i) }

  lemma {:induction false} SumLinear(f: int -> real, a: real, g: int -> real, n: nat)
    ensures Sum(Mixed(f, a, g), n) == Sum(f, n) + a * Sum(g, n)
  {
    if n > 0 { SumLinear(f, a, g, n - 1); }
  }

  lemma {:induction false} SumNonNegative(f: int -> real, n: nat)
    requires forall i :: 0 <= i < n ==> f(i) >= 0.0
    ensures Sum(f, n) >= 0.0
  {
    if n > 0 { SumNonNegative(f, n - 1); }
  }

  // ----- a response and its autocorrelation -----

  function At(h: seq<real>, n: int): real { if 0 <= n < |h| then h[n] else 0.0 }

  function Lagged(h: seq<real>, m: int): int -> real { n => At(h, n) * At(h, n + m) }

  function Auto(h: seq<real>, m: int): real { Sum(Lagged(h, m), |h|) }

  function Dist(a: int, b: int): nat { if a < b then b - a else a - b }

  /** Product of two shifted copies of the response. */
  function Pair(h: seq<real>, a: int, b: int): int -> real { n => At(h, n - a) * At(h, n - b) }

  lemma OutsideIsZero(h: seq<real>, n: int, x: real)
    requires n < 0 || n >= |h|
    ensures x * At(h, n) == 0.0
  {}

  /** Two shifted copies correlate as the distance between them, inside any window that holds both. */
  lemma PairSum(h: seq<real>, a: nat, b: nat, t: nat)
    requires a <= b && b + |h| <= t
    ensures Sum(Pair(h, a, b), t) == Auto(h, b - a)
  {
    hide At, Sum;
    var f := Pair(h, a, b);
    var g := Shifted(f, b);
    forall i | 0 <= i < b ensures f(i) == 0.0 { OutsideIsZero(h, i - b, At(h, i - a)); }
    SumHead(f, b, t - b);
    forall i | |h| <= i < t - b ensures g(i) == 0.0 {
      PairShifted(h, a, b, i);
      OutsideIsZero(h, i, At(h, i + (b - a)));
    }
    SumTail(g, |h|, t - b);
    forall i | 0 <= i < |h| ensures g(i) == Lagged(h, b - a)(i) {
      PairShifted(h, a, b, i);
      Commute(At(h, i + (b - a)), At(h, i));
    }
    SumSame(g, Lagged(h, b - a), |h|);
  }

  lemma PairShifted(h: seq<real>, a: int, b: int, i: int)
    ensures Shifted(Pair(h, a, b), b)(i) == At(h, i + (b - a)) * At(h, i)
  {
    assert b + i - b == i && b + i - a == i + (b - a);
  }

  lemma Commute(x: real, y: real)
    ensures x * y == y * x
  {}

  lemma PairSumAny(h: seq<real>, a: nat, b: nat, t: nat)
    requires a + |h| <= t && b + |h| <= t
    ensures Sum(Pair(h, a, b), t) == Auto(h, Dist(a, b))
  {
    if a <= b {
      PairSum(h, a, b, t);
    } else {
      PairSum(h, b, a, t);
      SumSame(Pair(h, a, b), Pair(h, b, a), t);
    }
  }

  lemma AutoOutside(h: seq<real>, m: nat)
    requires m >= |h|
    ensures Auto(h, m) == 0.0
  {
    hide At, Sum;
    forall i | 0 <= i < |h| ensures Lagged(h, m)(i) == 0.0 { OutsideIsZero(h, i + m, At(h, i)); }
    SumTail(Lagged(h, m), 0, |h|);
    EmptySum(Lagged(h, m));
  }

  lemma EmptySum(f: int -> real)
    ensures Sum(f, 0) == 0.0
  {}

  // ----- pulse trains -----

  /** One sign per slot. */
  predicate Signs(s: seq<real>) { forall i :: 0 <= i < |s| ==> s[i] == 1.0 || s[i] == -1.0 }

  predicate Slots(pos: seq<nat>, n: nat) { forall j :: 0 <= j < |pos| ==> pos[j] < n }

  function Superposed(h: seq<real>, s: seq<real>, pos: seq<nat>): int -> real
    requires Slots(pos, |s|)
  {
    if pos == [] then (n: int) => 0.0
    else
      var k := |pos| - 1;
      var front := Superposed(h, s, pos[..k]);
      var p := pos[k];
      (n: int) => front(n) + s[p] * At(h, n - p)
  }

  /** The train's pulses, each with its slot's sign, through the response. */
  function Train(h: seq<real>, s: seq<real>, pos: seq<nat>): int -> real
    requires Slots(pos, |s|)
  {
    Superposed(h, s, pos)
  }

  /** Length of the filtered frame. */
  function Span(h: seq<real>, s: seq<real>): nat { |s| + |h| }

  function Square(f: int -> real): int -> real { n => f(n) * f(n) }

  function Energy(h: seq<real>, s: seq<real>, pos: seq<nat>): real
    requires Slots(pos, |s|)
  {
    Sum(Square(Train(h, s, pos)), Span(h, s))
  }

  lemma EnergyNonNegative(h: seq<real>, s: seq<real>, pos: seq<nat>)
    requires Slots(pos, |s|)
    ensures Energy(h, s, pos) >= 0.0
  {
    hide Sum, Train;
    var f := Train(h, s, pos);
    forall i ensures Square(f)(i) >= 0.0 { SquareSign(f(i)); }
    SumNonNegative(Square(f), Span(h, s));
  }

  lemma SquareSign(x: real)
    ensures x * x >= 0.0
  {}

  /** The train's correlation with a target. */
  function Corr(d: seq<real>, s: seq<real>, pos: seq<nat>): real
    requires Slots(pos, |s|) && |d| == |s|
  {
    CorrTerms(d, s, pos)
  }

  function CorrTerms(d: seq<real>, s: seq<real>, pos: seq<nat>): real
    requires Slots(pos, |s|) && |d| == |s|
  {
    if pos == [] then 0.0 else CorrTerms(d, s, pos[..|pos| - 1]) + s[pos[|pos| - 1]] * d[pos[|pos| - 1]]
  }

  /** Signed kernel values of the train's pulses seen from slot i. */
  function Cross(h: seq<real>, s: seq<real>, pos: seq<nat>, i: nat): real
    requires Slots(pos, |s|)
  {
    CrossTerms(h, s, pos, i)
  }

  function CrossTerms(h: seq<real>, s: seq<real>, pos: seq<nat>, i: nat): real
    requires Slots(pos, |s|)
  {
    if pos == [] then 0.0
    else var p := pos[|pos| - 1]; CrossTerms(h, s, pos[..|pos| - 1], i) + Auto(h, Dist(p, i)) * s[p]
  }

  function Against(f: int -> real, h: seq<real>, i: nat): int -> real { n => f(n) * At(h, n - i) }

  /** The train with one more pulse, sample by sample. */
  lemma TrainStep(h: seq<real>, s: seq<real>, pos: seq<nat>, p: nat, n: int)
    requires Slots(pos, |s|) && p < |s|
    ensures Slots(pos + [p], |s|) && Train(h, s, pos + [p])(n) == Train(h, s, pos)(n) + s[p] * At(h, n - p)
  {
    hide At;
    assert (pos + [p])[..|pos|] == pos;
  }

  /** The train against the response at slot i is the signed kernel sum. */
  predicate CrossIs(h: seq<real>, s: seq<real>, pos: seq<nat>, i: nat)
    requires Slots(pos, |s|)
  {
    Sum(Against(Train(h, s, pos), h, i), Span(h, s)) == Cross(h, s, pos, i)
  }

  lemma {:induction false} CrossHolds(h: seq<real>, s: seq<real>, pos: seq<nat>, i: nat)
    requires Slots(pos, |s|) && i < |s|
    ensures CrossIs(h, s, pos, i)
  {
    hide CrossIs;
    if pos == [] {
      EmptyTrain(h, s, i);
    } else {
      var k := |pos| - 1;
      assert pos == pos[..k] + [pos[k]];
      CrossHolds(h, s, pos[..k], i);
      CrossHoldsStep(h, s, pos[..k], pos[k], i);
    }
  }

  lemma CrossHoldsStep(h: seq<real>, s: seq<real>, pos: seq<nat>, p: nat, i: nat)
    requires Slots(pos, |s|) && p < |s| && i < |s| && CrossIs(h, s, pos, i)
    ensures Slots(pos + [p], |s|) && CrossIs(h, s, pos + [p], i)
  {
    hide Auto, Dist;
    AgainstStep(h, s, pos, p, i);
    CrossStep(h, s, pos, p, i);
  }

  lemma EmptyTrain(h: seq<real>, s: seq<real>, i: nat)
    ensures Slots([], |s|) && CrossIs(h, s, [], i)
  {
    SumTail(Against(Train(h, s, []), h, i), 0, Span(h, s));
    EmptySum(Against(Train(h, s, []), h, i));
  }

  lemma AgainstStep(h: seq<real>, s: seq<real>, pos: seq<nat>, p: nat, i: nat)
    requires Slots(pos, |s|) && p < |s| && i < |s|
    ensures Slots(pos + [p], |s|)
    ensures Sum(Against(Train(h, s, pos + [p]), h, i), Span(h, s))
         == Sum(Against(Train(h, s, pos), h, i), Span(h, s)) + Auto(h, Dist(p, i)) * s[p]
  {
    hide Auto, Dist, At, Train, Sum;
    var t, f, g := Span(h, s), Train(h, s, pos), Train(h, s, pos + [p]);
    var a, b := Against(f, h, i), Pair(h, p, i);
    forall n | 0 <= n < t ensures Against(g, h, i)(n) == a(n) + s[p] * b(n) {
      TrainStep(h, s, pos, p, n);
      Distribute(f(n), s[p], At(h, n - p), At(h, n - i));
    }
    SumSame(Against(g, h, i), Mixed(a, s[p], b), t);
    SumLinear(a, s[p], b, t);
    PairSumAny(h, p, i, t);
  }

  lemma Distribute(a: real, s: real, x: real, y: real)
    ensures (a + s * x) * y == a * y + s * (x * y)
  {}

  lemma Expand(a: real, s: real, x: real)
    requires s == 1.0 || s == -1.0
    ensures (a + s * x) * (a + s * x) == (a * a + 2.0 * s * (a * x)) + 1.0 * (x * x)
  {
    if s == 1.0 {
      assert (a + x) * (a + x) == a * a + 2.0 * (a * x) + x * x;
    } else {
      assert (a - x) * (a - x) == a * a - 2.0 * (a * x) + x * x;
    }
  }

  /** One more pulse changes the energy by twice its signed cross term plus the response's own energy. */
  lemma EnergyStep(h: seq<real>, s: seq<real>, pos: seq<nat>, p: nat)
    requires Slots(pos, |s|) && p < |s| && Signs(s)
    ensures Slots(pos + [p], |s|)
    ensures Energy(h, s, pos + [p]) == Energy(h, s, pos) + 2.0 * s[p] * Cross(h, s, pos, p) + Auto(h, 0)
  {
    hide Auto, At, Train, Sum, Cross;
    var t, f, g := Span(h, s), Train(h, s, pos), Train(h, s, pos + [p]);
    var a, b := Against(f, h, p), Pair(h, p, p);
    var sq := Square(f);
    var mid := Mixed(sq, 2.0 * s[p], a);
    forall n | 0 <= n < t ensures Square(g)(n) == mid(n) + 1.0 * b(n) {
      TrainStep(h, s, pos, p, n);
      Expand(f(n), s[p], At(h, n - p));
    }
    SumSame(Square(g), Mixed(mid, 1.0, b), t);
    SumLinear(mid, 1.0, b, t);
    SumLinear(sq, 2.0 * s[p], a, t);
    CrossHolds(h, s, pos, p);
    PairSumAny(h, p, p, t);
  }

  lemma CrossStep(h: seq<real>, s: seq<real>, pos: seq<nat>, p: nat, i: nat)
    requires Slots(pos, |s|) && p < |s|
    ensures Slots(pos + [p], |s|) && Cross(h, s, pos + [p], i) == Cross(h, s, pos, i) + Auto(h, Dist(p, i)) * s[p]
  {
    hide Auto, Dist;
    assert (pos + [p])[..|pos|] == pos;
  }

  lemma CorrStep(d: seq<real>, s: seq<real>, pos: seq<nat>, p: nat)
    requires Slots(pos, |s|) && p < |s| && |d| == |s|
    ensures Slots(pos + [p], |s|) && Corr(d, s, pos + [p]) == Corr(d, s, pos) + s[p] * d[p]
  {
    assert (pos + [p])[..|pos|] == pos;
  }

  /** The update the search makes at slot i when p joins the train. */
  lemma DenominatorStep(h: seq<real>, s: seq<real>, pos: seq<nat>, p: nat, i: nat)
    requires Slots(pos, |s|) && p < |s| && i < |s| && Signs(s)
    ensures Slots(pos + [p], |s|) && Slots(pos + [i], |s|) && Slots(pos + [p] + [i], |s|)
    ensures Energy(h, s, pos + [p] + [i]) == Energy(h, s, pos + [i])
      + (2.0 * s[p] * Cross(h, s, pos, p) + Auto(h, 0)) + 2.0 * s[p] * s[i] * Auto(h, Dist(p, i))
  {
    hide Energy, Cross, Auto, Dist;
    EnergyStep(h, s, pos, p);
    EnergyStep(h, s, pos, i);
    EnergyStep(h, s, pos + [p], i);
    CrossStep(h, s, pos, p, i);
    Regroup(s[i], s[p], Cross(h, s, pos, i), Auto(h, Dist(p, i)));
  }

  lemma Regroup(a: real, b: real, x: real, y: real)
    ensures 2.0 * a * (x + y * b) == 2.0 * a * x + 2.0 * b * a * y
  {
    assert 2.0 * a * (x + y * b) == 2.0 * a * x + 2.0 * a * (y * b);
    assert 2.0 * a * (y * b) == 2.0 * b * a * y;
  }
}
