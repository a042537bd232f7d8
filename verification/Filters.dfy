/** Unrolled recursive filters and sliding energies against their plain recurrences, in exact arithmetic. */
module Filters {
  // ----- the recurrences -----

  /** The last two outputs before sample n: y[n-1], y[n-2]. */
  function State2(x: seq<real>, a1: real, a2: real, p: real, q: real, n: nat): (real, real)
    requires n <= |x|
  {
    if n == 0 then (p, q)
    else
      var s := State2(x, a1, a2, p, q, n - 1);
      (Step2(a1, a2, x[n - 1], s.0, s.1), s.0)
  }

  /** y[n] = x[n] + a1 y[n-1] + a2 y[n-2]. */
  function Step2(a1: real, a2: real, x: real, y1: real, y2: real): real { x + a1 * y1 + a2 * y2 }

  function Out2(x: seq<real>, a1: real, a2: real, p: real, q: real, n: nat): real
    requires n < |x|
  {
    State2(x, a1, a2, p, q, n + 1).0
  }

  // ----- four samples at once -----

  /** The impulse response of the recurrence. */
  function Imp2(a1: real, a2: real): real { a1 * a1 + a2 }

  function Imp3(a1: real, a2: real): real { a1 * (a1 * a1) + 2.0 * a1 * a2 }

  function Imp4(a1: real, a2: real): real { a1 * (a1 * (a1 * a1)) + a2 * a2 + 3.0 * (a1 * a1) * a2 }

  /** Four outputs from four inputs and the carried pair, each without waiting for the one before. */
  lemma Unrolled4(a1: real, a2: real, x0: real, x1: real, x2: real, x3: real, p: real, q: real)
    ensures var y0 := Step2(a1, a2, x0, p, q); var y1 := Step2(a1, a2, x1, y0, p);
      var y2 := Step2(a1, a2, x2, y1, y0); var y3 := Step2(a1, a2, x3, y2, y1);
      && y0 == x0 + a1 * p + a2 * q
      && y1 == x1 + a1 * x0 + Imp2(a1, a2) * p + a2 * a1 * q
      && y2 == x2 + a1 * x1 + Imp2(a1, a2) * x0 + Imp3(a1, a2) * p + a2 * Imp2(a1, a2) * q
      && y3 == x3 + a1 * x2 + Imp2(a1, a2) * x1 + Imp3(a1, a2) * x0 + Imp4(a1, a2) * p + a2 * Imp3(a1, a2) * q
  {}

  /** The first n outputs and the state after them; what lies past the input is as it was. */
  ghost predicate Recurred2(o: seq<real>, o0: seq<real>, x: seq<real>, a1: real, a2: real, p: real, q: real, n: nat,
                            y1: real, y2: real) {
    && n <= |x| <= |o| == |o0| && (y1, y2) == State2(x, a1, a2, p, q, n)
    && (forall i :: 0 <= i < n ==> o[i] == Out2(x, a1, a2, p, q, i))
    && (forall i :: |x| <= i < |o| ==> o[i] == o0[i])
  }

  method FourMore2(out: array<real>, x: seq<real>, n: nat, a1: real, a2: real, y1: real, y2: real, ghost p: real,
                   ghost q: real, ghost o0: seq<real>) returns (z1: real, z2: real)
    requires n + 3 < |x| && Recurred2(out[..], o0, x, a1, a2, p, q, n, y1, y2)
    modifies out
    ensures Recurred2(out[..], o0, x, a1, a2, p, q, n + 4, z1, z2)
  {
    hide Step2, State2, Out2;
    Advance4(x, a1, a2, p, q, n);
    var w0, w1, w2, w3 := Block4(a1, a2, x[n], x[n + 1], x[n + 2], x[n + 3], y1, y2);
    out[n], out[n + 1], out[n + 2], out[n + 3] := w0, w1, w2, w3;
    z1, z2 := w3, w2;
  }

  method OneMore2(out: array<real>, x: seq<real>, n: nat, a1: real, a2: real, y1: real, y2: real, ghost p: real,
                  ghost q: real, ghost o0: seq<real>) returns (z1: real, z2: real)
    requires n < |x| && Recurred2(out[..], o0, x, a1, a2, p, q, n, y1, y2)
    modifies out
    ensures Recurred2(out[..], o0, x, a1, a2, p, q, n + 1, z1, z2)
  {
    hide Step2, State2, Out2;
    OneStep2(x, a1, a2, p, q, n);
    out[n] := Plain(a1, a2, x[n], y1, y2);
    z1, z2 := out[n], y1;
  }

  lemma NoSteps2(x: seq<real>, a1: real, a2: real, p: real, q: real)
    ensures State2(x, a1, a2, p, q, 0) == (p, q)
  {}

  lemma OneStep2(x: seq<real>, a1: real, a2: real, p: real, q: real, n: nat)
    requires n < |x|
    ensures var s := State2(x, a1, a2, p, q, n); var y := Step2(a1, a2, x[n], s.0, s.1);
      State2(x, a1, a2, p, q, n + 1) == (y, s.0) && Out2(x, a1, a2, p, q, n) == y
  {
    hide Step2;
  }

  /** pfFiltAR2: the unrolled filter equals the recurrence for every length and carried state. */
  method FiltAr2(input: seq<real>, c1: real, c2: real, state: array<real>, out: array<real>)
    requires state.Length == 2 && out.Length >= |input| && state != out
    modifies state, out
    ensures forall i :: 0 <= i < |input| ==> out[i] == Out2(input, -c1, -c2, old(state[0]), old(state[1]), i)
    ensures forall i :: |input| <= i < out.Length ==> out[i] == old(out[i])
    ensures (state[0], state[1]) == State2(input, -c1, -c2, old(state[0]), old(state[1]), |input|)
  {
    var n := |input|;
    var ytmp0, ytmp1 := state[1], state[0];
    ghost var p, q := ytmp1, ytmp0;
    var ar1, ar2 := -c1, -c2;
    hide Step2, State2, Out2;
    NoSteps2(input, ar1, ar2, p, q);
    var nn := 0;
    ghost var o0 := out[..];
    while nn + 3 < n
      invariant Recurred2(out[..], o0, input, ar1, ar2, p, q, nn, ytmp1, ytmp0)
      invariant state[0] == p && state[1] == q
    {
      ytmp1, ytmp0 := FourMore2(out, input, nn, ar1, ar2, ytmp1, ytmp0, p, q, o0);
      nn := nn + 4;
    }
    while nn < n
      invariant Recurred2(out[..], o0, input, ar1, ar2, p, q, nn, ytmp1, ytmp0)
      invariant state[0] == p && state[1] == q
    {
      ytmp1, ytmp0 := OneMore2(out, input, nn, ar1, ar2, ytmp1, ytmp0, p, q, o0);
      nn := nn + 1;
    }
    state[1], state[0] := ytmp0, ytmp1;
  }

  /** The unrolled body: each output straight from the inputs and the carried pair. */
  method Block4(ar1: real, ar2: real, x0: real, x1: real, x2: real, x3: real, ytmp1: real, ytmp0: real)
    returns (y0: real, y1: real, y2: real, y3: real)
    ensures y0 == Step2(ar1, ar2, x0, ytmp1, ytmp0) && y1 == Step2(ar1, ar2, x1, y0, ytmp1)
    ensures y2 == Step2(ar1, ar2, x2, y1, y0) && y3 == Step2(ar1, ar2, x3, y2, y1)
  {
    Unrolled4(ar1, ar2, x0, x1, x2, x3, ytmp1, ytmp0);
    hide Step2, Imp2, Imp3, Imp4;
    var imp2, imp3, imp4 := Imp2(ar1, ar2), Imp3(ar1, ar2), Imp4(ar1, ar2);
    var ymp1, ymp2, ymp3, ymp4 := ar2, ar2 * ar1, ar2 * imp2, ar2 * imp3;
    y2 := x2 + ar1 * x1 + imp2 * x0 + imp3 * ytmp1 + ymp3 * ytmp0;
    y3 := x3 + ar1 * x2 + imp2 * x1 + imp3 * x0 + imp4 * ytmp1 + ymp4 * ytmp0;
    y0 := x0 + ar1 * ytmp1 + ymp1 * ytmp0;
    y1 := x1 + ar1 * x0 + imp2 * ytmp1 + ymp2 * ytmp0;
  }

  function Plain(a1: real, a2: real, x: real, y1: real, y2: real): (y: real)
    ensures y == Step2(a1, a2, x, y1, y2)
  {
    x + a1 * y1 + a2 * y2
  }

  lemma Advance4(x: seq<real>, a1: real, a2: real, p: real, q: real, n: nat)
    requires n + 3 < |x|
    ensures var s := State2(x, a1, a2, p, q, n);
      var y0 := Step2(a1, a2, x[n], s.0, s.1); var y1 := Step2(a1, a2, x[n + 1], y0, s.0);
      var y2 := Step2(a1, a2, x[n + 2], y1, y0); var y3 := Step2(a1, a2, x[n + 3], y2, y1);
      && Out2(x, a1, a2, p, q, n) == y0 && Out2(x, a1, a2, p, q, n + 1) == y1
      && Out2(x, a1, a2, p, q, n + 2) == y2 && Out2(x, a1, a2, p, q, n + 3) == y3
      && State2(x, a1, a2, p, q, n + 4) == (y3, y2)
  {
    hide Step2;
    assert State2(x, a1, a2, p, q, n + 1).1 == State2(x, a1, a2, p, q, n).0;
    assert State2(x, a1, a2, p, q, n + 2).1 == State2(x, a1, a2, p, q, n + 1).0;
    assert State2(x, a1, a2, p, q, n + 3).1 == State2(x, a1, a2, p, q, n + 2).0;
  }

  // ----- first order, five at once -----

  /** y[n] = x[n] + a y[n-1], carried from y before the first sample. */
  function Last1(x: seq<real>, a: real, y: real, n: nat): real
    requires n <= |x|
  {
    if n == 0 then y else Step1(a, x[n - 1], Last1(x, a, y, n - 1))
  }

  function Step1(a: real, x: real, y: real): real { x + a * y }

  lemma Unrolled5(a: real, x0: real, x1: real, x2: real, x3: real, x4: real, y: real)
    ensures var y0 := Step1(a, x0, y); var y1 := Step1(a, x1, y0); var y2 := Step1(a, x2, y1);
      var y3 := Step1(a, x3, y2); var y4 := Step1(a, x4, y3);
      var p2 := a * a; var p3 := a * p2; var p4 := a * p3; var p5 := a * p4;
      && y1 == x1 + a * x0 + p2 * y && y2 == x2 + a * x1 + p2 * x0 + p3 * y
        && y3 == x3 + a * x2 + p2 * x1 + p3 * x0 + p4 * y
      && y4 == x4 + a * x3 + p2 * x2 + p3 * x1 + p4 * x0 + p5 * y
  {}

  lemma Advance5(x: seq<real>, a: real, y: real, n: nat)
    requires n + 4 < |x|
    ensures var l := Last1(x, a, y, n); var y0 := Step1(a, x[n], l); var y1 := Step1(a, x[n + 1], y0);
      var y2 := Step1(a, x[n + 2], y1); var y3 := Step1(a, x[n + 3], y2); var y4 := Step1(a, x[n + 4], y3);
      && Last1(x, a, y, n + 1) == y0 && Last1(x, a, y, n + 2) == y1 && Last1(x, a, y, n + 3) == y2
      && Last1(x, a, y, n + 4) == y3 && Last1(x, a, y, n + 5) == y4
  {
    hide Step1;
  }

  /** pfFiltAR1: the unrolled integrator equals the recurrence for every length and carried state. */
  method FiltAr1(input: seq<real>, c1: real, state: real, out: array<real>) returns (carried: real)
    requires out.Length >= |input|
    modifies out
    ensures forall i :: 0 <= i < |input| ==> out[i] == Last1(input, -c1, state, i + 1)
    ensures forall i :: |input| <= i < out.Length ==> out[i] == old(out[i])
    ensures carried == Last1(input, -c1, state, |input|)
  {
    var n := |input|;
    var a := -c1;
    var ytmp := state;
    var nn := 0;
    hide Step1;
    while nn + 4 < n
      invariant nn <= n && ytmp == Last1(input, a, state, nn)
      invariant forall i :: 0 <= i < nn ==> out[i] == Last1(input, a, state, i + 1)
      invariant forall i :: n <= i < out.Length ==> out[i] == old(out[i])
    {
      Advance5(input, a, state, nn);
      var y0, y1, y2, y3, y4 := Block5(a, input[nn], input[nn + 1], input[nn + 2], input[nn + 3], input[nn + 4], ytmp);
      out[nn], out[nn + 1], out[nn + 2], out[nn + 3], out[nn + 4] := y0, y1, y2, y3, y4;
      ytmp := y4;
      nn := nn + 5;
    }
    while nn < n
      invariant nn <= n && ytmp == Last1(input, a, state, nn)
      invariant forall i :: 0 <= i < nn ==> out[i] == Last1(input, a, state, i + 1)
      invariant forall i :: n <= i < out.Length ==> out[i] == old(out[i])
    {
      ytmp := Leak(a, input[nn], ytmp);
      out[nn] := ytmp;
      nn := nn + 1;
    }
    carried := ytmp;
  }

  function Leak(a: real, x: real, y: real): (r: real)
    ensures r == Step1(a, x, y)
  {
    x + y * a
  }

  method Block5(a: real, x0: real, x1: real, x2: real, x3: real, x4: real, ytmp: real)
    returns (y0: real, y1: real, y2: real, y3: real, y4: real)
    ensures y0 == Step1(a, x0, ytmp) && y1 == Step1(a, x1, y0) && y2 == Step1(a, x2, y1) && y3 == Step1(a, x3, y2)
      && y4 == Step1(a, x4, y3)
  {
    Unrolled5(a, x0, x1, x2, x3, x4, ytmp);
    var p2 := a * a;
    var p3 := a * p2;
    var p4 := a * p3;
    var p5 := a * p4;
    y4 := x4 + a * x3 + p2 * x2 + p3 * x1 + p4 * x0 + p5 * ytmp;
    y0 := x0 + a * ytmp;
    y1 := x1 + a * x0 + p2 * ytmp;
    y2 := x2 + a * x1 + p2 * x0 + p3 * ytmp;
    y3 := x3 + a * x2 + p2 * x1 + p3 * x0 + p4 * ytmp;
  }

  // ----- the pitch high-pass filter -----

  /** x[i] - x[i-1], with silence before the first sample. */
  function Differences(x: seq<real>): (d: seq<real>)
    ensures |d| == |x|
  {
    seq(|x|, i requires 0 <= i < |x| => if i == 0 then x[0] else x[i] - x[i - 1])
  }

  /**
   * pePitchHpFilter: differences first, then the unrolled integrator over the same buffer. Every output is the input's
   * step
   * plus 0.96 of the output before, so nothing is read after it was overwritten.
   */
  method PitchHpFilter(x: seq<real>, out: array<real>)
    requires out.Length >= |x|
    modifies out
    ensures |x| > 0 ==> out[0] == x[0]
    ensures forall i :: 1 <= i < |x| ==> out[i] == x[i] - x[i - 1] + 0.96 * out[i - 1]
    ensures forall i :: |x| <= i < out.Length ==> out[i] == old(out[i])
  {
    var n, stateMa := |x|, 0.0;
    for i := 0 to n
      invariant i > 0 ==> stateMa == x[i - 1]
      invariant i == 0 ==> stateMa == 0.0
      invariant forall j :: 0 <= j < i ==> out[j] == Differences(x)[j]
      invariant forall j :: n <= j < out.Length ==> out[j] == old(out[j])
    {
      out[i] := x[i] - stateMa;
      stateMa := x[i];
    }
    assert out[..n] == Differences(x);
    IntegrateInPlace(out, n, Differences(x));
    forall i | 0 <= i < n
      ensures out[i] == Differences(x)[i] + 0.96 * if i == 0 then 0.0 else out[i - 1]
    {
      assert out[i] == Step1(0.96, Differences(x)[i], Last1(Differences(x), 0.96, 0.0, i));
    }
    if n > 0 {
      assert out[0] == Last1(Differences(x), 0.96, 0.0, 0 + 1) ==
        Step1(0.96, Differences(x)[0], Last1(Differences(x), 0.96, 0.0, 0));
    }
  }

  /** The integrator with coefficient 0.96 over the first n entries, five at a time, in place. */
  method IntegrateInPlace(out: array<real>, n: nat, ghost d: seq<real>)
    requires n == |d| <= out.Length && out[..n] == d
    modifies out
    ensures forall i :: 0 <= i < n ==> out[i] == Last1(d, 0.96, 0.0, i + 1)
    ensures forall i :: n <= i < out.Length ==> out[i] == old(out[i])
  {
    var a, ytmp, idx := 0.96, 0.0, 0;
    assert Integrated(out[..], out[..], d, 0) by { assert forall i :: 0 <= i < n ==> out[..][i] == out[..n][i]; }
    hide Step1, Integrated, Last1;
    Last1Start(d, a);
    while idx + 4 < n
      invariant idx <= n && ytmp == Last1(d, a, 0.0, idx) && Integrated(out[..], old(out[..]), d, idx)
    {
      ytmp := FiveMore(out, d, idx, ytmp, old(out[..]));
      idx := idx + 5;
    }
    while idx < n
      invariant idx <= n && ytmp == Last1(d, a, 0.0, idx) && Integrated(out[..], old(out[..]), d, idx)
    {
      ytmp := OneMore(out, d, idx, ytmp, old(out[..]));
      idx := idx + 1;
    }
    AllIntegrated(out[..], old(out[..]), d);
  }

  /** Outputs up to k, inputs after it, and what was there past them. */
  ghost predicate Integrated(b: seq<real>, b0: seq<real>, d: seq<real>, k: nat) {
    && k <= |d| <= |b| == |b0|
    && (forall i :: 0 <= i < k ==> b[i] == Last1(d, 0.96, 0.0, i + 1))
    && (forall i :: k <= i < |d| ==> b[i] == d[i])
    && (forall i :: |d| <= i < |b| ==> b[i] == b0[i])
  }

  lemma Last1Start(d: seq<real>, a: real)
    ensures Last1(d, a, 0.0, 0) == 0.0
  {}

  lemma AllIntegrated(b: seq<real>, b0: seq<real>, d: seq<real>)
    requires Integrated(b, b0, d, |d|)
    ensures |b| == |b0| && (forall i :: 0 <= i < |d| ==> b[i] == Last1(d, 0.96, 0.0, i + 1))
      && forall i :: |d| <= i < |b| ==> b[i] == b0[i]
  {}

  method FiveMore(out: array<real>, ghost d: seq<real>, idx: nat, ytmp: real, ghost b0: seq<real>) returns (y: real)
    requires Integrated(out[..], b0, d, idx) && idx + 4 < |d| && ytmp == Last1(d, 0.96, 0.0, idx)
    modifies out
    ensures y == Last1(d, 0.96, 0.0, idx + 5) && Integrated(out[..], b0, d, idx + 5)
  {
    hide Step1, Last1;
    Advance5(d, 0.96, 0.0, idx);
    var y0, y1, y2, y3, y4 := Block5(0.96, out[idx], out[idx + 1], out[idx + 2], out[idx + 3], out[idx + 4], ytmp);
    out[idx], out[idx + 1], out[idx + 2], out[idx + 3], out[idx + 4] := y0, y1, y2, y3, y4;
    y := y4;
  }

  method OneMore(out: array<real>, ghost d: seq<real>, idx: nat, ytmp: real, ghost b0: seq<real>) returns (y: real)
    requires Integrated(out[..], b0, d, idx) && idx < |d| && ytmp == Last1(d, 0.96, 0.0, idx)
    modifies out
    ensures y == Last1(d, 0.96, 0.0, idx + 1) && Integrated(out[..], b0, d, idx + 1)
  {
    hide Step1;
    y := Leak(0.96, out[idx], ytmp);
    out[idx] := y;
  }

  // ----- the inverse filters -----

  /** Output i of the second-order filter, the carried pair before the first. */
  function Output2(x: seq<real>, a1: real, a2: real, p: real, q: real, i: int): real
    requires -2 <= i < |x|
  {
    if i == -2 then q else if i == -1 then p else Out2(x, a1, a2, p, q, i)
  }

  lemma {:induction false} StateIsOutputs(x: seq<real>, a1: real, a2: real, p: real, q: real, n: nat)
    requires n <= |x|
    ensures State2(x, a1, a2, p, q, n) == (Output2(x, a1, a2, p, q, n - 1), Output2(x, a1, a2, p, q, n - 2))
  {
    hide Step2;
    if n > 0 { StateIsOutputs(x, a1, a2, p, q, n - 1); }
  }

  /** The moving average with the negated coefficients gives the input back. */
  lemma Undone2(x: seq<real>, a1: real, a2: real, p: real, q: real, n: nat)
    requires n < |x|
    ensures Output2(x, a1, a2, p, q, n) - a1 * Output2(x, a1, a2, p, q, n - 1) - a2 * Output2(x, a1, a2, p, q, n - 2)
      == x[n]
  {
    StateIsOutputs(x, a1, a2, p, q, n);
    var s := State2(x, a1, a2, p, q, n);
    assert Output2(x, a1, a2, p, q, n) == Step2(a1, a2, x[n], s.0, s.1);
  }

  /** For the first order too. */
  lemma Undone1(x: seq<real>, a: real, y: real, n: nat)
    requires n < |x|
    ensures Last1(x, a, y, n + 1) - a * Last1(x, a, y, n) == x[n]
  {}

  // ----- carried state -----

  /** Filtering in pieces with the carried state is filtering the whole: second order. */
  lemma {:induction false} Pieces2(x: seq<real>, z: seq<real>, a1: real, a2: real, p: real, q: real, n: nat)
    requires n <= |z|
    ensures var s := State2(x, a1, a2, p, q, |x|);
      State2(x + z, a1, a2, p, q, |x| + n) == State2(z, a1, a2, s.0, s.1, n)
  {
    if n == 0 {
      Prefix2(x, z, a1, a2, p, q, |x|);
    } else {
      Pieces2(x, z, a1, a2, p, q, n - 1);
    }
  }

  lemma {:induction false} Prefix2(x: seq<real>, z: seq<real>, a1: real, a2: real, p: real, q: real, n: nat)
    requires n <= |x|
    ensures State2(x + z, a1, a2, p, q, n) == State2(x, a1, a2, p, q, n)
  {
    if n > 0 { Prefix2(x, z, a1, a2, p, q, n - 1); }
  }

  /** Filtering in pieces with the carried state is filtering the whole: first order. */
  lemma {:induction false} Pieces1(x: seq<real>, z: seq<real>, a: real, y: real, n: nat)
    requires n <= |z|
    ensures Last1(x + z, a, y, |x| + n) == Last1(z, a, Last1(x, a, y, |x|), n)
  {
    if n == 0 {
      Prefix1(x, z, a, y, |x|);
    } else {
      Pieces1(x, z, a, y, n - 1);
    }
  }

  lemma {:induction false} Prefix1(x: seq<real>, z: seq<real>, a: real, y: real, n: nat)
    requires n <= |x|
    ensures Last1(x + z, a, y, n) == Last1(x, a, y, n)
  {
    if n > 0 { Prefix1(x, z, a, y, n - 1); }
  }

  // ----- sliding energies -----

  const FLOOR := 0.000000001

  function Energy(x: seq<real>, at: nat, n: nat): real
    requires at + n <= |x|
  {
    if n == 0 then 0.0 else Energy(x, at, n - 1) + x[at + n - 1] * x[at + n - 1]
  }

  lemma {:induction false} EnergyFront(x: seq<real>, at: nat, n: nat)
    requires at + 1 + n <= |x|
    ensures Energy(x, at, n + 1) == x[at] * x[at] + Energy(x, at + 1, n)
  {
    if n > 0 { EnergyFront(x, at, n - 1); }
  }

  /** Moving a window one sample back adds the sample it gains and drops the one it loses. */
  lemma Slide(x: seq<real>, at: nat, n: nat)
    requires at + 1 + n <= |x|
    ensures Energy(x, at, n) == Energy(x, at + 1, n) + x[at] * x[at] - x[at + n] * x[at + n]
  {
    EnergyFront(x, at, n);
  }

  lemma {:induction false} EnergyNonNegative(x: seq<real>, at: nat, n: nat)
    requires at + n <= |x|
    ensures Energy(x, at, n) >= 0.0
  {
    if n > 0 { EnergyNonNegative(x, at, n - 1); }
  }

  function Max(a: real, b: real): real { if a > b then a else b }

  /** peCalcE1Inner: every running value stays between the direct window energy and that energy plus the floor. */
  method CalcE1(buf: seq<real>, t: nat, minpitch: nat, maxpitch: nat, n: nat) returns (e1: seq<real>)
    requires minpitch <= maxpitch <= t && t - minpitch + n <= |buf|
    ensures |e1| == maxpitch - minpitch + 1
    ensures forall i :: 0 <= i < |e1| ==>
      Energy(buf, t - minpitch - i, n) <= e1[i] <= Energy(buf, t - minpitch - i, n) + FLOOR
  {
    var numlags := maxpitch - minpitch + 1;
    var reg0 := t - minpitch;
    var e := WindowEnergy(buf, reg0, n);
    EnergyNonNegative(buf, reg0, n);
    e1 := [Max(e, FLOOR)];
    for i := 1 to numlags
      invariant |e1| == i
      invariant forall j :: 0 <= j < i ==> Energy(buf, reg0 - j, n) <= e1[j] <= Energy(buf, reg0 - j, n) + FLOOR
    {
      var rm, rs := buf[reg0 - i], buf[reg0 + n - i];
      Slide(buf, reg0 - i, n);
      EnergyNonNegative(buf, reg0 - i, n);
      e1 := e1 + [Max(e1[i - 1] + rm * rm - rs * rs, FLOOR)];
    }
  }

  method WindowEnergy(buf: seq<real>, at: nat, n: nat) returns (e: real)
    requires at + n <= |buf|
    ensures e == Energy(buf, at, n)
  {
    e := 0.0;
    for i := 0 to n
      invariant e == Energy(buf, at, i)
    {
      e := e + buf[at + i] * buf[at + i];
    }
  }
}
