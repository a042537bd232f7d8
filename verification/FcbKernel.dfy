/** The kernel the pulse search reads: a response's autocorrelation, filtered, reversed and mirrored into one buffer. */
module FcbKernel {
  import opened FcbEnergy
  import opened FcbSearch

  const MAX_RESP := 33
  const MA9 := 10

  function Tap(c: real, x: real): real { c * x }

  /** Output at position at of the moving average with the first m coefficients. */
  function Fir(x: seq<real>, at: nat, coef: seq<real>, m: nat): real
    requires m <= |coef| && at < |x| && m <= at + 1
  {
    if m == 0 then 0.0 else Fir(x, at, coef, m - 1) + Tap(coef[m - 1], x[at - (m - 1)])
  }

  /** celpFiltMa: one coefficient at a time over the whole output, the first two at once when the first is one. */
  method FiltMa(x: seq<real>, xBase: nat, n: nat, coef: seq<real>, y: array<real>)
    requires |coef| >= 1 && (coef[0] == 1.0 ==> |coef| >= 2) && |coef| <= xBase + 1 && xBase + n <= |x| && n <= y.Length
    modifies y
    ensures forall k :: 0 <= k < n ==> y[k] == Fir(x, xBase + k, coef, |coef|)
    ensures forall k :: n <= k < y.Length ==> y[k] == old(y[k])
  {
    var i: nat := 1;
    if coef[0] == 1.0 {
      for k := 0 to n
        invariant forall j :: 0 <= j < k ==> y[j] == Fir(x, xBase + j, coef, 2)
        invariant forall j :: n <= j < y.Length ==> y[j] == old(y[j])
      {
        y[k] := FirstTwo(x, xBase + k, coef);
      }
      i := 2;
    } else {
      for k := 0 to n
        invariant forall j :: 0 <= j < k ==> y[j] == Fir(x, xBase + j, coef, 1)
        invariant forall j :: n <= j < y.Length ==> y[j] == old(y[j])
      {
        y[k] := FirstOne(x, xBase + k, coef);
      }
    }
    while i < |coef|
      invariant 1 <= i <= |coef| && forall j :: 0 <= j < n ==> y[j] == Fir(x, xBase + j, coef, i)
      invariant forall j :: n <= j < y.Length ==> y[j] == old(y[j])
    {
      AddTap(x, xBase, n, coef, i, y);
      i := i + 1;
    }
  }

  function FirstOne(x: seq<real>, at: nat, coef: seq<real>): (r: real)
    requires |coef| >= 1 && at < |x|
    ensures r == Fir(x, at, coef, 1)
  {
    assert Fir(x, at, coef, 0) == 0.0;
    coef[0] * x[at]
  }

  function FirstTwo(x: seq<real>, at: nat, coef: seq<real>): (r: real)
    requires |coef| >= 2 && 1 <= at < |x| && coef[0] == 1.0
    ensures r == Fir(x, at, coef, 2)
  {
    assert Fir(x, at, coef, 1) == coef[0] * x[at] by { assert Fir(x, at, coef, 0) == 0.0; }
    x[at] + coef[1] * x[at - 1]
  }

  /** One more coefficient over the whole output. */
  method AddTap(x: seq<real>, xBase: nat, n: nat, coef: seq<real>, i: nat, y: array<real>)
    requires i < |coef| <= xBase + 1 && xBase + n <= |x| && n <= y.Length
    requires forall j :: 0 <= j < n ==> y[j] == Fir(x, xBase + j, coef, i)
    modifies y
    ensures forall j :: 0 <= j < n ==> y[j] == Fir(x, xBase + j, coef, i + 1)
    ensures forall j :: n <= j < y.Length ==> y[j] == old(y[j])
  {
    for k := 0 to n
      invariant forall j :: 0 <= j < k ==> y[j] == Fir(x, xBase + j, coef, i + 1)
      invariant forall j :: k <= j < n ==> y[j] == Fir(x, xBase + j, coef, i)
      invariant forall j :: n <= j < y.Length ==> y[j] == old(y[j])
    {
      y[k] := y[k] + coef[i] * x[xBase + k - i];
    }
  }

  /** celpFiltMa9: ten coefficients, one output at a time. */
  method FiltMa9(x: seq<real>, xBase: nat, n: nat, coef: seq<real>, y: array<real>)
    requires |coef| == MA9 && MA9 <= xBase + 1 && xBase + n <= |x| && n <= y.Length
    modifies y
    ensures forall k :: 0 <= k < n ==> y[k] == Fir(x, xBase + k, coef, |coef|)
    ensures forall k :: n <= k < y.Length ==> y[k] == old(y[k])
  {
    for nn := 0 to n
      invariant forall k :: 0 <= k < nn ==> y[k] == Fir(x, xBase + k, coef, MA9)
      invariant forall k :: n <= k < y.Length ==> y[k] == old(y[k])
    {
      var res := 0.0;
      for i := 0 to MA9
        invariant res == Fir(x, xBase + nn, coef, i)
      {
        res := res + coef[i] * x[xBase + nn - i];
      }
      y[nn] := res;
    }
  }

  // ----- the autocorrelation -----

  /** The response reversed, after as many zeros as the longest one needs. */
  function Backward(h: seq<real>): (x: seq<real>)
    requires 1 <= |h| <= MAX_RESP
    ensures |x| == 2 * MAX_RESP - 1
  {
    seq(2 * MAX_RESP - 1, j requires 0 <= j < 2 * MAX_RESP - 1 => At(h, From(h, j)))
  }

  /** Index of the response that the buffer's entry j holds. */
  function From(h: seq<real>, j: int): int { |h| + MAX_RESP - 2 - j }

  lemma BackwardAt(h: seq<real>, j: int)
    requires 1 <= |h| <= MAX_RESP && 0 <= j < 2 * MAX_RESP - 1
    ensures Backward(h)[j] == At(h, From(h, j)) && (j < MAX_RESP - 1 ==> At(h, From(h, j)) == 0.0)
  {}

  lemma {:induction false} FirStep(x: seq<real>, at: nat, coef: seq<real>, m: nat)
    requires 0 < m <= |coef| && at < |x| && m <= at + 1
    ensures Fir(x, at, coef, m) == Fir(x, at, coef, m - 1) + Tap(coef[m - 1], x[at - (m - 1)])
  {}

  lemma {:induction false} TermsStep(f: int -> real, m: nat)
    requires m > 0
    ensures Terms(f, m) == Terms(f, m - 1) + f(m - 1)
  {}

  lemma NoTaps(x: seq<real>, at: nat, coef: seq<real>, f: int -> real)
    requires at < |x|
    ensures Fir(x, at, coef, 0) == 0.0 == Terms(f, 0)
  {}

  lemma TapIs(h: seq<real>, m: int, i: nat)
    requires i < |h|
    ensures Lagged(h, m)(i) == Tap(h[i], At(h, i + m))
  {}

  /** Filtering a response's reverse with the response itself gives its autocorrelation, last lag first. */
  lemma {:induction false} FirIsTerms(h: seq<real>, k: nat, m: nat)
    requires 1 <= |h| <= MAX_RESP && k < |h| && m <= |h|
    ensures Fir(Backward(h), MAX_RESP - 1 + k, h, m) == Terms(Lagged(h, |h| - 1 - k), m)
  {
    hide Backward, At, Lagged, Tap, Fir, Terms;
    if m == 0 {
      NoTaps(Backward(h), MAX_RESP - 1 + k, h, Lagged(h, |h| - 1 - k));
    } else {
      var i := m - 1;
      FirIsTerms(h, k, i);
      BackwardAt(h, MAX_RESP - 1 + k - i);
      TapIs(h, |h| - 1 - k, i);
      FirStep(Backward(h), MAX_RESP - 1 + k, h, m);
      TermsStep(Lagged(h, |h| - 1 - k), m);
      assert From(h, MAX_RESP - 1 + k - i) == i + (|h| - 1 - k);
    }
  }

  lemma FirIsAuto(h: seq<real>, k: nat)
    requires 1 <= |h| <= MAX_RESP && k < |h|
    ensures Fir(Backward(h), MAX_RESP - 1 + k, h, |h|) == Auto(h, |h| - 1 - k)
  {
    FirIsTerms(h, k, |h|);
  }

  // ----- in buffers -----

  /** celpReverse: the first l entries turned around in place. */
  method Reverse(x: array<real>, l: nat)
    requires l <= x.Length
    modifies x
    ensures forall i :: 0 <= i < l ==> x[i] == old(x[l - 1 - i])
    ensures forall i :: l <= i < x.Length ==> x[i] == old(x[i])
  {
    for i := 0 to l / 2
      invariant forall j :: 0 <= j < i ==> x[j] == old(x[l - 1 - j]) && x[l - 1 - j] == old(x[j])
      invariant forall j :: i <= j < l - i ==> x[j] == old(x[j])
      invariant forall j :: l <= j < x.Length ==> x[j] == old(x[j])
    {
      x[i], x[l - i - 1] := x[l - i - 1], x[i];
    }
  }

  /** Lags up to the longest a subframe can hold: the response's autocorrelation, zero past its length. */
  method Autocorrelation(h: seq<real>, useMa9: bool) returns (phi: array<real>)
    requires 1 <= |h| <= MAX_RESP && (useMa9 ==> |h| == MA9) && (h[0] == 1.0 ==> |h| >= 2)
    ensures fresh(phi) && phi.Length == MAX_SF && forall k :: 0 <= k < MAX_SF ==> phi[k] == Auto(h, k)
  {
    hide Fir, Backward, Auto;
    var impLpcRev := new real[2 * MAX_RESP - 1](_ => 0.0);
    var revBase := MAX_RESP - 1;
    for i := 0 to |h|
      invariant forall j :: 0 <= j < revBase + i ==> impLpcRev[j] == At(h, From(h, j))
      invariant forall j :: revBase + i <= j < impLpcRev.Length ==> impLpcRev[j] == 0.0
    {
      impLpcRev[revBase + i] := h[|h| - i - 1];
    }
    forall j | 0 <= j < impLpcRev.Length ensures impLpcRev[j] == Backward(h)[j] { BackwardAt(h, j); }
    assert impLpcRev[..] == Backward(h);
    phi := new real[MAX_SF](_ => 0.0);
    if useMa9 {
      FiltMa9(impLpcRev[..], revBase, |h|, h, phi);
    } else {
      FiltMa(impLpcRev[..], revBase, |h|, h, phi);
    }
    forall k | 0 <= k < |h| ensures phi[k] == Auto(h, |h| - 1 - k) { FirIsAuto(h, k); }
    Reverse(phi, |h|);
    forall k | |h| <= k < MAX_SF ensures Auto(h, k) == 0.0 { AutoOutside(h, k); }
  }

  /** The first n + 1 lags on both sides of the middle, zeros beyond. */
  method Mirror(phi: array<real>, n: nat) returns (phiFlip: array<real>)
    requires phi.Length == MAX_SF && n + 1 < MAX_SF
    ensures fresh(phiFlip) && phiFlip.Length == 2 * MAX_SF
    ensures forall j :: 0 < j < 2 * MAX_SF ==> phiFlip[j] == if Dist(MAX_SF, j) <= n then phi[Dist(MAX_SF, j)] else 0.0
  {
    phiFlip := new real[2 * MAX_SF](_ => 0.0);
    phiFlip[MAX_SF] := phi[0];
    for i := 0 to n + 1
      invariant forall j :: 0 < j < 2 * MAX_SF && (Dist(MAX_SF, j) < i || j == MAX_SF) ==>
        phiFlip[j] == phi[Dist(MAX_SF, j)]
      invariant forall j :: 0 < j < 2 * MAX_SF && Dist(MAX_SF, j) >= i && j != MAX_SF ==> phiFlip[j] == 0.0
    {
      phiFlip[MAX_SF - i] := phi[i];
      phiFlip[MAX_SF + i] := phi[i];
    }
  }

  /** The mirrored kernel of EncodeSubframe: what the search may assume of it. */
  method FlippedKernel(h: seq<real>, useMa9: bool) returns (phiFlip: array<real>)
    requires 1 <= |h| <= MAX_RESP && (useMa9 ==> |h| == MA9) && (h[0] == 1.0 ==> |h| >= 2)
    ensures fresh(phiFlip) && forall d: seq<real> :: 0 < |d| <= MAX_SF ==> ProblemOk(Problem(d, h, phiFlip[..]))
  {
    hide Auto;
    var phi := Autocorrelation(h, useMa9);
    phiFlip := Mirror(phi, |h|);
    forall j | 0 < j < 2 * MAX_SF ensures phiFlip[j] == Auto(h, Dist(MAX_SF, j)) {
      if Dist(MAX_SF, j) > |h| { AutoOutside(h, Dist(MAX_SF, j)); }
    }
  }
}
