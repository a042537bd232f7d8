/** Prediction filters: the step-down stability test, and bandwidth expansion until it passes, in exact arithmetic. */
module Lpc {
  import Bytes

  const ORDER := 16
  const BWE_STEP := 0.001

  /** One less the square of the last reflection coefficient. */
  function Den(c: seq<real>): real
    requires c != []
  {
    1.0 - c[|c| - 1] * c[|c| - 1]
  }

  /** One step down: the lower-order filter with the last reflection coefficient removed. */
  function StepDown(c: seq<real>): (r: seq<real>)
    requires |c| >= 2 && Den(c) != 0.0
    ensures |r| == |c| - 1
  {
    var m, den := |c| - 1, Den(c);
    seq(m, k requires 0 <= k < m && den != 0.0 => Cut(c[k], c[m - k - 1], c[m], den))
  }

  function Cut(own: real, mirror: real, x: real, den: real): real
    requires den != 0.0
  {
    (own - x * mirror) / den
  }

  /** One step up: the filter one order higher with last reflection coefficient x. */
  function StepUp(r: seq<real>, x: real): (c: seq<real>)
    ensures |c| == |r| + 1 && c[|r|] == x && forall k :: 0 <= k < |r| ==> c[k] == Mixed(r[k], r[|r| - 1 - k], x)
  {
    seq(|r|, k requires 0 <= k < |r| => Mixed(r[k], r[|r| - 1 - k], x)) + [x]
  }

  function Mixed(own: real, mirror: real, x: real): real { own + mirror * x }

  /** Stepping up with the coefficient a step down removed restores the filter. */
  lemma UpAfterDown(c: seq<real>)
    requires |c| >= 2 && Den(c) != 0.0
    ensures StepUp(StepDown(c), c[|c| - 1]) == c
  {
    hide Den, Cut, Mixed, StepDown, StepUp;
    var m := |c| - 1;
    var r, x := StepDown(c), c[m];
    forall k | 0 <= k < m ensures StepUp(r, x)[k] == c[k] { EntryRestored(c, k); }
  }

  lemma EntryRestored(c: seq<real>, k: nat)
    requires |c| >= 2 && Den(c) != 0.0 && k < |c| - 1
    ensures StepUp(StepDown(c), c[|c| - 1])[k] == c[k]
  {
    hide Den, Cut, Mixed, StepDown, StepUp;
    var m := |c| - 1;
    DenIs(c);
    StepDownAt(c, k);
    StepDownAt(c, m - 1 - k);
    Restored(c[k], c[m - 1 - k], c[m], Den(c));
  }

  lemma StepDownAt(c: seq<real>, k: nat)
    requires |c| >= 2 && Den(c) != 0.0 && k < |c| - 1
    ensures StepDown(c)[k] == Cut(c[k], c[|c| - 2 - k], c[|c| - 1], Den(c))
  {
    hide Den, Cut;
  }

  lemma Restored(a: real, b: real, x: real, den: real)
    requires den == 1.0 - x * x && den != 0.0
    ensures Mixed(Cut(a, b, x, den), Cut(b, a, x, den), x) == a
  {
    var f := 1.0 / den;
    assert f * den == 1.0;
    Inverse(a - x * b, den);
    Inverse(b - x * a, den);
    assert (a - x * b) * f + x * ((b - x * a) * f) == a * (f * (1.0 - x * x)) by {
      assert x * ((b - x * a) * f) == x * b * f - x * x * a * f;
      assert (a - x * b) * f == a * f - x * b * f;
    }
  }

  predicate NotUnit(x: real) { x * x != 1.0 }

  /** Stepping down undoes stepping up, unless the coefficient is one in magnitude. */
  lemma DownAfterUp(r: seq<real>, x: real)
    requires |r| >= 1 && NotUnit(x)
    ensures var c := StepUp(r, x); Den(c) != 0.0 && StepDown(c) == r
  {
    var c, m := StepUp(r, x), |r|;
    DenIs(c);
    assert c[|c| - 1] == x && Den(c) == 1.0 - x * x;
    hide Mixed, Den, Cut;
    forall k | 0 <= k < m ensures StepDown(c)[k] == r[k] {
      assert m - 1 - (m - 1 - k) == k;
      Unmixed(r[k], r[m - 1 - k], x, Den(c));
    }
  }

  lemma Unmixed(a: real, b: real, x: real, den: real)
    requires den == 1.0 - x * x && den != 0.0
    ensures Cut(Mixed(a, b, x), Mixed(b, a, x), x, den) == a
  {
    assert a + b * x - x * (b + a * x) == a * den;
  }

  /** The filter with these reflection coefficients, the lowest order first. */
  function FromReflection(rc: seq<real>): (c: seq<real>)
    ensures |c| == |rc|
  {
    if rc == [] then [] else StepUp(FromReflection(rc[..|rc| - 1]), rc[|rc| - 1])
  }

  predicate SquareWithin(x: real, bound: real) { x * x <= bound }

  /** One order more is stable exactly when its own coefficient is within the bound and the orders below are. */
  lemma UpStable(r: seq<real>, x: real, bound: real)
    requires |r| >= 1 && NotUnit(x)
    ensures Stable(StepUp(r, x), bound) <==> SquareWithin(x, bound) && Stable(r, bound)
  {
    hide Stable, Den, StepDown, StepUp, NotUnit;
    DownAfterUp(r, x);
    var c := StepUp(r, x);
    assert c[|c| - 1] == x;
    StableStep(c, bound);
    assert SquareWithin(x, bound) == (c[|c| - 1] * c[|c| - 1] <= bound);
  }

  /** A filter built from reflection coefficients is stable exactly when each is within the bound. */
  lemma {:induction false} StableIsReflection(rc: seq<real>, bound: real)
    requires |rc| >= 1 && forall i :: 1 <= i < |rc| ==> NotUnit(rc[i])
    ensures Stable(FromReflection(rc), bound) <==> forall i :: 0 <= i < |rc| ==> SquareWithin(rc[i], bound)
  {
    hide Stable, NotUnit, SquareWithin, StepUp;
    var m := |rc| - 1;
    var front := rc[..m];
    assert FromReflection(rc) == StepUp(FromReflection(front), rc[m]);
    hide FromReflection;
    assert forall i :: 0 <= i < m ==> rc[i] == front[i];
    if m > 0 {
      UpStable(FromReflection(front), rc[m], bound);
      StableIsReflection(front, bound);
    } else {
      OneStable(rc[0], bound);
      NoneBelow(front, rc[0]);
    }
  }

  lemma NoneBelow(front: seq<real>, x: real)
    requires front == []
    ensures StepUp(FromReflection(front), x) == [x]
  {}

  lemma OneStable(x: real, bound: real)
    ensures Stable([x], bound) <==> SquareWithin(x, bound)
  {}

  predicate Passes(c: seq<real>, bound: real)
    requires |c| >= 1
    decreases |c|
  {
    && c[|c| - 1] * c[|c| - 1] <= bound
    && (|c| == 1 || (Den(c) != 0.0 && Passes(StepDown(c), bound)))
  }

  /** Every reflection coefficient is within the bound. */
  predicate Stable(c: seq<real>, bound: real)
    requires |c| >= 1
  {
    Passes(c, bound)
  }

  lemma StableStep(c: seq<real>, bound: real)
    requires |c| >= 1
    ensures c[|c| - 1] * c[|c| - 1] > bound ==> !Stable(c, bound)
    ensures |c| == 1 ==> Stable(c, bound) == (c[0] * c[0] <= bound)
    ensures |c| > 1 && c[|c| - 1] * c[|c| - 1] <= bound ==>
      Stable(c, bound) == (Den(c) != 0.0 && Stable(StepDown(c), bound))
  {}

  /** lpcIsStable: the step-down loop, alternating between two buffers. */
  method IsStable(a: seq<real>, bound: real) returns (ok: bool)
    requires |a| == ORDER + 1
    ensures ok == Stable(a[1..], bound)
  {
    hide Stable, Den, StepDown;
    StableStep(a[1..], bound);
    if a[ORDER] * a[ORDER] > bound {
      return false;
    }
    var a0, a1 := new real[ORDER](_ => 0.0), new real[ORDER](_ => 0.0);
    for i := 0 to ORDER
      invariant forall j :: 0 <= j < i ==> a0[j] == a[1..][j]
    {
      a0[i] := a[i + 1];
    }
    assert a0[..] == a[1..];
    var m := ORDER - 1;
    assert a0[..m + 1] == a0[..];
    while true
      invariant 1 <= m < ORDER && m % 2 == 1 && a0[m] * a0[m] <= bound
      invariant Stable(a0[..m + 1], bound) == Stable(a[1..], bound)
      decreases m
    {
      var on := Lowered(a0, a1, m, bound);
      if !on {
        return false;
      }
      if m == 1 {
        return true;
      }
      m := m - 1;
      on := Lowered(a1, a0, m, bound);
      if !on {
        return false;
      }
      if m == 1 {
        return true;
      }
      m := m - 1;
    }
  }

  /**
   One round: the filter of order m + 1 in src becomes the one of order m in dst, unless that already decides against
   it.
   */
  method Lowered(src: array<real>, dst: array<real>, m: nat, bound: real) returns (on: bool)
    requires src.Length == dst.Length == ORDER && src != dst && 1 <= m < ORDER && src[m] * src[m] <= bound
    modifies dst
    ensures !on ==> !Stable(old(src[..m + 1]), bound)
    ensures on ==> Stable(dst[..m], bound) == Stable(old(src[..m + 1]), bound) && dst[m - 1] * dst[m - 1] <= bound
    ensures on && m == 1 ==> Stable(old(src[..m + 1]), bound)
  {
    hide Stable, Den, StepDown;
    ghost var c := src[..m + 1];
    StableStep(c, bound);
    DenIs(c);
    var den := 1.0 - src[m] * src[m];
    if den == 0.0 {
      return false;
    }
    var inv := 1.0 / den;
    for k := 0 to m
      invariant src[..m + 1] == c && forall j :: 0 <= j < k ==> dst[j] == StepDown(c)[j]
    {
      assert src[k] == c[k] && src[m] == c[m] && src[m - k - 1] == c[m - k - 1];
      dst[k] := Reduced(c, k, src[k], src[m], src[m - k - 1], inv);
    }
    assert dst[..m] == StepDown(c);
    StableStep(dst[..m], bound);
    on := dst[m - 1] * dst[m - 1] <= bound;
  }

  /** One coefficient of the lower-order filter. */
  function Reduced(ghost c: seq<real>, ghost k: nat, x: real, last: real, mirror: real, inv: real): (r: real)
    requires |c| >= 2 && k < |c| - 1 && Den(c) != 0.0 && inv == 1.0 / Den(c)
    requires x == c[k] && last == c[|c| - 1] && mirror == c[|c| - 2 - k]
    ensures r == StepDown(c)[k]
  {
    Inverse(x - last * mirror, Den(c));
    (x - last * mirror) * inv
  }

  lemma DenIs(c: seq<real>)
    requires c != []
    ensures Den(c) == 1.0 - c[|c| - 1] * c[|c| - 1]
  {}

  lemma Inverse(x: real, d: real)
    requires d != 0.0
    ensures x * (1.0 / d) == x / d
  {}

  // ----- reflection coefficients -----

  /** rc2a: each round steps up in place, two mirrored coefficients at a time. */
  method Rc2a(rc: seq<real>, a: array<real>)
    requires a.Length == |rc| + 1
    modifies a
    ensures a[0] == 1.0 && a[1..] == FromReflection(rc)
  {
    for i := 1 to a.Length
      invariant forall j :: 1 <= j < i ==> a[j] == 0.0
    {
      a[i] := 0.0;
    }
    a[0] := 1.0;
    hide FromReflection;
    NoneYet(rc);
    assert RaisedTo(a[..], rc, 0);
    hide RaisedTo;
    for k := 0 to |rc|
      invariant RaisedTo(a[..], rc, k)
    {
      RaiseOrder(a, rc, k);
    }
    RaisedAll(a[..], rc);
  }

  /** The filter of the first k reflection coefficients stands in the front. */
  ghost predicate RaisedTo(a: seq<real>, rc: seq<real>, k: nat) {
    k <= |rc| && |a| == |rc| + 1 && a[0] == 1.0 && a[1..k + 1] == FromReflection(rc[..k])
  }

  lemma RaisedAll(a: seq<real>, rc: seq<real>)
    requires RaisedTo(a, rc, |rc|)
    ensures |a| == |rc| + 1 && a[0] == 1.0 && a[1..] == FromReflection(rc)
  {
    assert rc[..|rc|] == rc && a[1..|rc| + 1] == a[1..];
  }

  method RaiseOrder(a: array<real>, rc: seq<real>, k: nat)
    requires k < |rc| && RaisedTo(a[..], rc, k)
    modifies a
    ensures RaisedTo(a[..], rc, k + 1)
  {
    hide StepUp, FromReflection;
    RaiseBy(a, k, rc[k]);
    OneOrderUp(rc, k);
    ghost var front := a[1..k + 1];
    a[k + 1] := rc[k];
    assert a[1..k + 2] == front + [rc[k]];
  }

  lemma NoneYet(rc: seq<real>)
    ensures FromReflection(rc[..0]) == []
  {}

  lemma OneOrderUp(rc: seq<real>, k: nat)
    requires k < |rc|
    ensures FromReflection(rc[..k + 1]) == StepUp(FromReflection(rc[..k]), rc[k])[..k] + [rc[k]]
  {
    assert rc[..k + 1][..k] == rc[..k];
    var c := StepUp(FromReflection(rc[..k]), rc[k]);
    assert c == c[..k] + [c[k]];
  }

  /** The pairs of one round, from the outside in; a middle coefficient is its own mirror. */
  method RaiseBy(a: array<real>, k: nat, x: real)
    requires k + 1 < a.Length
    modifies a
    ensures a[0] == old(a[0]) && a[1..k + 1] == StepUp(old(a[1..k + 1]), x)[..k]
  {
    ghost var r, first := a[1..k + 1], a[0];
    assert HalfRaised(a[..], r, first, k, x, 0);
    hide HalfRaised;
    for n := 0 to (k + 1) / 2
      invariant HalfRaised(a[..], r, first, k, x, n)
    {
      RaisePair(a, k, x, n, r, first);
    }
    AllRaised(a[..], r, first, k, x);
  }

  method RaisePair(a: array<real>, k: nat, x: real, n: nat, ghost r: seq<real>, ghost first: real)
    requires n < (k + 1) / 2 && HalfRaised(a[..], r, first, k, x, n)
    modifies a
    ensures HalfRaised(a[..], r, first, k, x, n + 1)
  {
    hide Mixed;
    var t1, t2 := a[n + 1], a[k - n];
    a[n + 1] := Mixed(t1, t2, x);
    a[k - n] := Mixed(t2, t1, x);
  }

  /** The n outermost pairs are mixed. */
  ghost predicate HalfRaised(a: seq<real>, r: seq<real>, first: real, k: nat, x: real, n: nat) {
    && k + 1 < |a| && |r| == k && a[0] == first && n <= (k + 1) / 2
    && forall j :: 1 <= j <= k ==>
      a[j] == if j <= n || j > k - n then Mixed(r[j - 1], r[k - j], x) else r[j - 1]
  }

  lemma AllRaised(a: seq<real>, r: seq<real>, first: real, k: nat, x: real)
    requires HalfRaised(a, r, first, k, x, (k + 1) / 2)
    ensures a[0] == first && a[1..k + 1] == StepUp(r, x)[..k]
  {
    hide Mixed;
  }

  // ----- bandwidth expansion -----

  /** The overall factor after n rounds. */
  function Chirps(n: nat): real { if n == 0 then 1.0 else Chirps(n - 1) * (1.0 - n as real * BWE_STEP) }

  /** Each round expands a little more than the one before; the thousandth leaves nothing. */
  lemma {:induction false} ChirpsBetween(n: nat)
    requires n <= 1000
    ensures 1.0 - n as real * (n + 1) as real * BWE_STEP / 2.0 <= Chirps(n) <= 1.0 && Chirps(n) >= 0.0
    ensures n > 0 ==> Chirps(n) <= 1.0 - n as real * BWE_STEP
    ensures n == 1000 ==> Chirps(n) == 0.0
  {
    hide Chirps;
    NoChirps();
    if n > 0 {
      ChirpsBetween(n - 1);
      ChirpsStep(n);
      NextBetween(n, Chirps(n - 1), Chirps(n));
    }
  }

  lemma NextBetween(n: nat, c: real, next: real)
    requires 0 < n <= 1000 && next == c * (1.0 - n as real * BWE_STEP) && c >= 0.0
    requires 1.0 - (n - 1) as real * n as real * BWE_STEP / 2.0 <= c <= 1.0
    ensures 1.0 - n as real * (n + 1) as real * BWE_STEP / 2.0 <= next <= 1.0 - n as real * BWE_STEP && next >= 0.0
  {
    var f := 1.0 - n as real * BWE_STEP;
    ProductBetween(c, f, next);
    SumTo(n);
    var p, q := n as real * (n + 1) as real, (n - 1) as real * n as real;
    assert p == q + 2.0 * n as real;
    assert q * BWE_STEP / 2.0 + n as real * BWE_STEP == p * BWE_STEP / 2.0;
  }

  lemma SumTo(n: nat)
    requires n > 0
    ensures n as real * (n + 1) as real == (n - 1) as real * n as real + 2.0 * n as real
  {}

  lemma ProductBetween(c: real, f: real, p: real)
    requires 0.0 <= c <= 1.0 && 0.0 <= f <= 1.0 && p == c * f
    ensures 0.0 <= p <= f && p >= c + f - 1.0
  {
    Bytes.NonNegativeProduct(1.0 - c, f);
    Bytes.NonNegativeProduct(1.0 - c, 1.0 - f);
    Bytes.NonNegativeProduct(c, f);
    assert (1.0 - c) * f == f - p && (1.0 - c) * (1.0 - f) == 1.0 - c - f + p;
  }

  function Power(g: real, n: nat): real { if n == 0 then 1.0 else Power(g, n - 1) * g }

  function Expanded(a: seq<real>, g: real): (r: seq<real>)
    ensures |r| == |a|
  {
    seq(|a|, i requires 0 <= i < |a| => a[i] * Power(g, i))
  }

  /** bweExpand: coefficient i is scaled by the i-th power. */
  method BweExpand(a: array<real>, bwe: real)
    requires a.Length == ORDER + 1
    modifies a
    ensures a[..] == Expanded(old(a[..]), bwe)
  {
    ghost var a0 := a[..];
    var c := bwe;
    for i := 1 to ORDER + 1
      invariant c == Power(bwe, i)
      invariant forall j :: 0 <= j < i ==> a[j] == Expanded(a0, bwe)[j]
      invariant forall j :: i <= j <= ORDER ==> a[j] == a0[j]
    {
      a[i] := a[i] * c;
      c := c * bwe;
    }
  }

  lemma {:induction false} PowerProduct(g: real, h: real, n: nat)
    ensures Power(g * h, n) == Power(g, n) * Power(h, n)
  {
    if n > 0 {
      PowerProduct(g, h, n - 1);
      Rearrange(Power(g, n - 1), Power(h, n - 1), g, h);
    }
  }

  lemma Rearrange(x: real, y: real, g: real, h: real)
    ensures x * y * (g * h) == x * g * (y * h)
  {
    assert x * y * (g * h) == x * (y * (g * h));
    assert y * (g * h) == g * (y * h);
    assert x * (g * (y * h)) == x * g * (y * h);
  }

  /** Expansions compose by multiplying their factors. */
  lemma ExpandedTwice(a: seq<real>, g: real, h: real, both: real)
    requires both == g * h
    ensures Expanded(Expanded(a, g), h) == Expanded(a, both)
  {
    forall i | 0 <= i < |a| ensures Expanded(Expanded(a, g), h)[i] == Expanded(a, both)[i] {
      PowerProduct(g, h, i);
      Assoc(a[i], Power(g, i), Power(h, i));
    }
  }

  lemma Assoc(x: real, y: real, z: real)
    ensures x * y * z == x * (y * z)
  {}

  lemma {:induction false} PowerZero(n: nat)
    requires n > 0
    ensures Power(0.0, n) == 0.0
  {}

  predicate AllZero(c: seq<real>) { forall i :: 0 <= i < |c| ==> c[i] == 0.0 }

  /** The zero filter passes the test for every bound that is not negative. */
  lemma {:induction false} ZeroIsStable(c: seq<real>, bound: real)
    requires |c| >= 1 && AllZero(c) && bound >= 0.0
    ensures Stable(c, bound)
    decreases |c|
  {
    if |c| > 1 {
      assert c[|c| - 1] == 0.0 && Den(c) == 1.0;
      var r := StepDown(c);
      forall k | 0 <= k < |r| ensures r[k] == 0.0 { assert c[k] - c[|c| - 1] * c[|c| - 1 - k - 1] == 0.0; }
      ZeroIsStable(r, bound);
    }
  }

  lemma ExpandedToZero(a: seq<real>, bound: real)
    requires |a| == ORDER + 1 && bound >= 0.0
    ensures Stable(Expanded(a, 0.0)[1..], bound)
  {
    forall i | 0 <= i < ORDER ensures Expanded(a, 0.0)[1..][i] == 0.0 { PowerZero(i + 1); }
    ZeroIsStable(Expanded(a, 0.0)[1..], bound);
  }

  lemma NoChirps()
    ensures Chirps(0) == 1.0
  {}

  lemma ChirpsStep(n: nat)
    requires n > 0
    ensures Chirps(n) == Chirps(n - 1) * (1.0 - n as real * BWE_STEP)
  {}

  lemma ExpandedNext(a: seq<real>, n: nat, bwe: real)
    requires n > 0 && bwe == 1.0 - n as real * BWE_STEP
    ensures Expanded(Expanded(a, Chirps(n - 1)), bwe) == Expanded(a, Chirps(n))
  {
    ChirpsStep(n);
    hide Expanded, Chirps;
    ExpandedTwice(a, Chirps(n - 1), bwe, Chirps(n));
  }

  /** lpcStabilize stops within 1000 expansions, at the first of the growing expansions of the input that is stable. */
  method Stabilize(a: array<real>, bound: real) returns (ghost iter: nat)
    requires a.Length == ORDER + 1 && bound >= 0.0
    modifies a
    ensures iter <= 1000 && a[..] == Expanded(old(a[..]), Chirps(iter)) && Stable(a[1..], bound)
    ensures forall n :: 0 <= n < iter ==> !Stable(Expanded(old(a[..]), Chirps(n))[1..], bound)
    ensures Stable(old(a[1..]), bound) ==> iter == 0 && a[..] == old(a[..])
  {
    hide Stable, Expanded, Chirps;
    ghost var a0 := a[..];
    assert a[1..] == a0[1..];
    assert Chirps(0) == 1.0 by { NoChirps(); }
    UnitExpansion(a0);
    iter := 0;
    var ok := IsStable(a[..], bound);
    if ok {
      return;
    }
    var n := 0;
    while !ok
      invariant n <= 1000 && iter == n && a[..] == Expanded(a0, Chirps(n)) && ok == Stable(a[..][1..], bound)
      invariant forall j :: 0 <= j < n ==> !Stable(Expanded(a0, Chirps(j))[1..], bound)
      invariant (n == 1000 ==> ok) && (n == 0 ==> !ok)
      decreases 1000 - n, if ok then 0 else 1
    {
      ghost var before := a[..];
      n := n + 1;
      var bwe := 1.0 - n as real * BWE_STEP;
      BweExpand(a, bwe);
      ExpandedNext(a0, n, bwe);
      if n == 1000 { ExpandedToZero(before, bound); }
      iter := n;
      ok := IsStable(a[..], bound);
    }
    assert a[..][1..] == a[1..];
  }

  lemma {:induction false} PowerOne(n: nat)
    ensures Power(1.0, n) == 1.0
  {
    if n > 0 { PowerOne(n - 1); }
  }

  lemma UnitExpansion(a: seq<real>)
    ensures Expanded(a, 1.0) == a
  {
    forall i | 0 <= i < |a| ensures Expanded(a, 1.0)[i] == a[i] { PowerOne(i); }
  }
}
