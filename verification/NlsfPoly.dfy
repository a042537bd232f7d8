/** Line spectral frequencies to prediction coefficients, by half polynomials, in exact arithmetic. */
module NlsfPoly {
  // ----- the full product -----

  /** Coefficient n of the product of (1 + c z + z^2) over the first k factors. */
  function Coef(c: seq<real>, k: nat, n: int): real
    requires k <= |c|
  {
    if k == 0 then (if n == 0 then 1.0 else 0.0)
    else Blend(Coef(c, k - 1, n), c[k - 1], Coef(c, k - 1, n - 1), Coef(c, k - 1, n - 2))
  }

  lemma {:induction false} OutsideZero(c: seq<real>, k: nat, n: int)
    requires k <= |c| && (n < 0 || n > 2 * k)
    ensures Coef(c, k, n) == 0.0
  {
    if k > 0 {
      OutsideZero(c, k - 1, n);
      OutsideZero(c, k - 1, n - 2);
      OutsideZero(c, k - 1, n - 1);
    }
  }

  lemma {:induction false} LowestOne(c: seq<real>, k: nat)
    requires k <= |c|
    ensures Coef(c, k, 0) == 1.0 && (k > 0 ==> Coef(c, k, 1) == Coef(c, k - 1, 1) + c[k - 1])
  {
    if k > 0 {
      LowestOne(c, k - 1);
      OutsideZero(c, k - 1, -1);
      OutsideZero(c, k - 1, -2);
    }
  }

  function Blend(a: real, x: real, b: real, d: real): real { a + x * b + d }

  lemma BlendSwaps(a: real, x: real, b: real, d: real)
    ensures Blend(a, x, b, d) == Blend(d, x, b, a)
  {}

  lemma {:induction false} CoefStep(c: seq<real>, k: nat, n: int)
    requires 0 < k <= |c|
    ensures Coef(c, k, n) == Blend(Coef(c, k - 1, n), c[k - 1], Coef(c, k - 1, n - 1), Coef(c, k - 1, n - 2))
  {
    hide Blend;
  }

  lemma {:induction false} Palindrome(c: seq<real>, k: nat, n: int)
    requires k <= |c|
    ensures Coef(c, k, n) == Coef(c, k, 2 * k - n)
  {
    if k > 0 {
      hide Coef, Blend;
      Palindrome(c, k - 1, n);
      Palindrome(c, k - 1, n - 1);
      Palindrome(c, k - 1, n - 2);
      CoefStep(c, k, n);
      CoefStep(c, k, 2 * k - n);
      BlendSwaps(Coef(c, k - 1, n), c[k - 1], Coef(c, k - 1, n - 1), Coef(c, k - 1, n - 2));
    }
  }

  // ----- meaning: values of the polynomial -----

  function Power(z: real, n: nat): real { if n == 0 then 1.0 else Power(z, n - 1) * z }

  function Terms(f: int -> real, n: nat, z: real): real {
    if n == 0 then 0.0 else Terms(f, n - 1, z) + f(n - 1) * Power(z, n - 1)
  }

  /** Value at z of the polynomial with coefficients f(0) .. f(n - 1). */
  function Value(f: int -> real, n: nat, z: real): real { Terms(f, n, z) }

  function Product(c: seq<real>, k: nat, z: real): real
    requires k <= |c|
  {
    if k == 0 then 1.0 else Product(c, k - 1, z) * (1.0 + c[k - 1] * z + z * z)
  }

  function Coefs(c: seq<real>, k: nat): int -> real
    requires k <= |c|
  {
    n => Coef(c, k, n)
  }

  function Combined(a: real, f: int -> real, b: real, g: int -> real): int -> real { n => a * f(n) + b * g(n) }

  function Delayed(f: int -> real): int -> real { n => f(n - 1) }

  lemma Distribute4(a: real, u: real, b: real, v: real, p: real)
    ensures (a * u + b * v) * p == a * (u * p) + b * (v * p)
  {
    assert (a * u) * p == a * (u * p) && (b * v) * p == b * (v * p);
  }

  lemma {:induction false} ValueLinear(a: real, f: int -> real, b: real, g: int -> real, n: nat, z: real)
    ensures Value(Combined(a, f, b, g), n, z) == a * Value(f, n, z) + b * Value(g, n, z)
  {
    if n > 0 {
      ValueLinear(a, f, b, g, n - 1, z);
      Distribute4(a, f(n - 1), b, g(n - 1), Power(z, n - 1));
      Factor(a, Value(f, n - 1, z), f(n - 1) * Power(z, n - 1));
      Factor(b, Value(g, n - 1, z), g(n - 1) * Power(z, n - 1));
    }
  }

  lemma Factor(a: real, x: real, y: real)
    ensures a * (x + y) == a * x + a * y
  {}

  lemma {:induction false} ValueDelayed(f: int -> real, n: nat, z: real)
    requires f(-1) == 0.0
    ensures Value(Delayed(f), n + 1, z) == Value(f, n, z) * z
  {
    if n == 0 {
      assert Value(Delayed(f), 0, z) == 0.0;
    } else {
      ValueDelayed(f, n - 1, z);
      assert Power(z, n) == Power(z, n - 1) * z;
      assert (Value(f, n - 1, z) + f(n - 1) * Power(z, n - 1)) * z ==
        Value(f, n - 1, z) * z + f(n - 1) * Power(z, n - 1) * z;
      assert f(n - 1) * Power(z, n - 1) * z == f(n - 1) * Power(z, n);
    }
  }

  lemma {:induction false} ValueExtends(f: int -> real, n: nat, m: nat, z: real)
    requires n <= m && forall i :: n <= i < m ==> f(i) == 0.0
    ensures Value(f, m, z) == Value(f, n, z)
  {
    if n < m { ValueExtends(f, n, m - 1, z); }
  }

  lemma {:induction false} ValueSame(f: int -> real, g: int -> real, n: nat, z: real)
    requires forall i :: 0 <= i < n ==> f(i) == g(i)
    ensures Value(f, n, z) == Value(g, n, z)
  {
    if n > 0 {
      ValueSame(f, g, n - 1, z);
      var x, y, w := f(n - 1), g(n - 1), Power(z, n - 1);
      assert x == y && x * w == y * w;
      assert Terms(f, n, z) == Terms(f, n - 1, z) + x * w && Terms(g, n, z) == Terms(g, n - 1, z) + y * w;
    }
  }

  /** Multiplying by 1 + x z + z^2 adds the sequence to itself, delayed once and twice. */
  function Widened(f: int -> real, x: real): int -> real {
    Combined(1.0, Combined(1.0, f, x, Delayed(f)), 1.0, Delayed(Delayed(f)))
  }

  lemma WidenedValue(f: int -> real, x: real, m: nat, z: real)
    requires f(-1) == 0.0 && f(-2) == 0.0 && f(m) == 0.0 && f(m + 1) == 0.0
    ensures Value(Widened(f, x), m + 2, z) == Value(f, m, z) * (1.0 + x * z + z * z)
  {
    hide Value;
    var g := Delayed(f);
    var h := Delayed(g);
    ValueExtends(f, m, m + 2, z);
    ValueDelayed(f, m, z);
    ValueExtends(g, m + 1, m + 2, z);
    ValueDelayed(g, m + 1, z);
    ValueLinear(1.0, f, x, g, m + 2, z);
    ValueLinear(1.0, Combined(1.0, f, x, g), 1.0, h, m + 2, z);
    Expand3(Value(f, m, z), x, z);
  }

  /** Coef really is the coefficient sequence of the product. */
  lemma {:induction false} CoefIsProduct(c: seq<real>, k: nat, z: real)
    requires k <= |c|
    ensures Value(Coefs(c, k), 2 * k + 1, z) == Product(c, k, z)
  {
    if k == 0 {
      assert Value(Coefs(c, 0), 0, z) == 0.0;
      assert Power(z, 0) == 1.0;
    } else {
      var f, m := Coefs(c, k - 1), 2 * k - 1;
      CoefIsProduct(c, k - 1, z);
      OutsideZero(c, k - 1, -1);
      OutsideZero(c, k - 1, -2);
      OutsideZero(c, k - 1, m);
      OutsideZero(c, k - 1, m + 1);
      WidenedValue(f, c[k - 1], m, z);
      CoefsWiden(c, k);
      ValueSame(Coefs(c, k), Widened(f, c[k - 1]), m + 2, z);
    }
  }

  lemma CoefsWiden(c: seq<real>, k: nat)
    requires 0 < k <= |c|
    ensures forall n :: Coefs(c, k)(n) == Widened(Coefs(c, k - 1), c[k - 1])(n)
  {}

  lemma Expand3(v: real, x: real, z: real)
    ensures v * (1.0 + x * z + z * z) == v + x * (v * z) + v * z * z
  {
    assert v * (1.0 + x * z + z * z) == v + v * (x * z) + v * (z * z);
    assert v * (x * z) == x * (v * z) && v * (z * z) == v * z * z;
  }

  // ----- the half recursion -----

  /** The factor weights of one parity. */
  function Weights(cosv: seq<real>, half: nat, parity: nat): (c: seq<real>)
    requires parity < 2 && 2 * half <= |cosv|
    ensures |c| == half
  {
    seq(half, k requires 0 <= k < half => -2.0 * cosv[2 * k + parity])
  }

  /** Entries lo .. hi of an array are coefficients of the product of k factors. */
  ghost predicate Holds(a: seq<real>, c: seq<real>, k: nat, lo: nat, hi: nat) {
    k <= |c| && hi < |a| && forall n :: lo <= n <= hi ==> a[n] == At(c, k, n)
  }

  function At(c: seq<real>, k: nat, n: int): real
    requires k <= |c|
  {
    Coef(c, k, n)
  }

  lemma AtStep(c: seq<real>, k: nat, n: int)
    requires k < |c|
    ensures At(c, k + 1, n) == At(c, k, n) + (At(c, k, n - 2) + c[k] * At(c, k, n - 1))
  {}

  /** smplNLSFPoly: the first half + 1 coefficients of the palindromic product. */
  method NlsfPoly(out: array<real>, cosv: seq<real>, half: nat, parity: nat)
    requires 1 <= half && out.Length == half + 1 && parity < 2 && 2 * half <= |cosv|
    modifies out
    ensures Holds(out[..], Weights(cosv, half, parity), half, 0, half)
  {
    ghost var cs := Weights(cosv, half, parity);
    out[0] := 1.0;
    out[1] := -2.0 * cosv[parity];
    FirstFactor(cs);
    hide At;
    for k := 1 to half
      invariant Holds(out[..], cs, k, 0, k)
    {
      var c := -2.0 * cosv[2 * k + parity];
      assert c == cs[k];
      FactorStep(out, cs, k, c);
    }
  }

  lemma FirstFactor(c: seq<real>)
    requires |c| >= 1
    ensures At(c, 1, 0) == 1.0 && At(c, 1, 1) == c[0]
  {
    LowestOne(c, 1);
  }

  /** The new middle coefficient, by symmetry of the factors so far. */
  lemma Middle(c: seq<real>, k: nat)
    requires 1 <= k < |c|
    ensures At(c, k + 1, k + 1) == 2.0 * At(c, k, k - 1) + c[k] * At(c, k, k)
    ensures At(c, k + 1, 0) == At(c, k, 0) && At(c, k + 1, 1) == At(c, k, 1) + c[k]
  {
    Palindrome(c, k, k + 1);
    LowestOne(c, k);
    LowestOne(c, k + 1);
  }

  /** One factor multiplied in, from the middle down so that old entries are still there when needed. */
  method FactorStep(out: array<real>, ghost cs: seq<real>, k: nat, c: real)
    requires 1 <= k < |cs| && k + 1 < out.Length && c == cs[k] && Holds(out[..], cs, k, 0, k)
    modifies out
    ensures Holds(out[..], cs, k + 1, 0, k + 1)
  {
    Middle(cs, k);
    hide At;
    out[k + 1] := 2.0 * out[k - 1] + c * out[k];
    var n := k;
    while n > 1
      invariant 1 <= n <= k && Holds(out[..], cs, k, 0, n) && Holds(out[..], cs, k + 1, n + 1, k + 1)
    {
      AtStep(cs, k, n);
      out[n] := out[n] + (out[n - 2] + c * out[n - 1]);
      n := n - 1;
    }
    out[1] := out[1] + c;
  }

  // ----- the prediction polynomial -----

  /** Coefficient n of (P(z)(1 + z) + Q(z)(1 - z)) / 2. */
  function Lpc(p: seq<real>, q: seq<real>, n: int): real {
    0.5 * (Coef(p, |p|, n) + Coef(p, |p|, n - 1) + (Coef(q, |q|, n) - Coef(q, |q|, n - 1)))
  }

  /** The two halves of one array position pair. */
  lemma Mirror(p: seq<real>, q: seq<real>, k: nat)
    requires |p| == |q| && k < |p|
    ensures var pt := At(p, |p|, k + 1) + At(p, |p|, k); var qt := At(q, |q|, k + 1) - At(q, |q|, k);
      Lpc(p, q, k + 1) == 0.5 * (pt + qt) && Lpc(p, q, 2 * |p| - k) == 0.5 * (pt - qt)
  {
    var h := |p|;
    Palindrome(p, h, 2 * h - k);
    Palindrome(p, h, 2 * h - k - 1);
    Palindrome(q, h, 2 * h - k);
    Palindrome(q, h, 2 * h - k - 1);
  }

  lemma LpcEnds(p: seq<real>, q: seq<real>)
    requires |p| == |q|
    ensures Lpc(p, q, 0) == 1.0 && Lpc(p, q, 2 * |p| + 1) == 0.0
  {
    var h := |p|;
    LowestOne(p, h);
    LowestOne(q, h);
    OutsideZero(p, h, -1);
    OutsideZero(q, h, -1);
    OutsideZero(p, h, 2 * h + 1);
    OutsideZero(q, h, 2 * h + 1);
    Palindrome(p, h, 2 * h);
    Palindrome(q, h, 2 * h);
  }

  /** SmplNLSF2A: exactly the coefficients of the prediction polynomial, for every even order. */
  method Nlsf2A(nlsf: seq<real>, cos: real -> real) returns (a: array<real>)
    requires |nlsf| >= 2 && |nlsf| % 2 == 0
    ensures fresh(a) && a.Length == |nlsf| + 1
    ensures var c, half := Cosines(nlsf, cos), |nlsf| / 2;
      forall n :: 0 <= n <= |nlsf| ==> a[n] == Lpc(Weights(c, half, 0), Weights(c, half, 1), n)
  {
    var order := |nlsf|;
    var half := order / 2;
    var cosv := Cosines(nlsf, cos);
    var p, q := new real[half + 1](_ => 0.0), new real[half + 1](_ => 0.0);
    NlsfPoly(p, cosv, half, 0);
    NlsfPoly(q, cosv, half, 1);
    hide Holds, Lpc, Weights;
    a := new real[order + 1](_ => 0.0);
    Assemble(p[..], q[..], half, Weights(cosv, half, 0), Weights(cosv, half, 1), a);
  }

  function Cosines(nlsf: seq<real>, cos: real -> real): (c: seq<real>)
    ensures |c| == |nlsf|
  {
    seq(|nlsf|, i requires 0 <= i < |nlsf| => cos(nlsf[i]))
  }

  /** Both ends of the coefficient array at once, from the two half polynomials. */
  method Assemble(p: seq<real>, q: seq<real>, half: nat, ghost cp: seq<real>, ghost cq: seq<real>, a: array<real>)
    requires half == |cp| == |cq| && a.Length == 2 * half + 1 && Holds(p, cp, half, 0, half)
      && Holds(q, cq, half, 0, half)
    modifies a
    ensures forall n :: 0 <= n <= 2 * half ==> a[n] == Lpc(cp, cq, n)
  {
    var order := 2 * half;
    a[0] := 1.0;
    LpcEnds(cp, cq);
    hide At, Lpc;
    for k := 0 to half
      invariant forall n :: 0 <= n <= k ==> a[n] == Lpc(cp, cq, n)
      invariant forall n :: order - k < n <= order ==> a[n] == Lpc(cp, cq, n)
    {
      AssemblePair(p, q, k, cp, cq, a);
    }
  }

  /** Positions k + 1 and order - k. */
  method AssemblePair(p: seq<real>, q: seq<real>, k: nat, ghost cp: seq<real>, ghost cq: seq<real>, a: array<real>)
    requires k < |cp| == |cq| && a.Length == 2 * |cp| + 1 && Holds(p, cp, |cp|, 0, |cp|) && Holds(q, cq, |cp|, 0, |cp|)
    modifies a
    ensures a[k + 1] == Lpc(cp, cq, k + 1) && a[2 * |cp| - k] == Lpc(cp, cq, 2 * |cp| - k)
    ensures forall n :: 0 <= n < a.Length && n != k + 1 && n != 2 * |cp| - k ==> a[n] == old(a[n])
  {
    hide At, Lpc;
    var pt := p[k + 1] + p[k];
    var qt := q[k + 1] - q[k];
    Mirror(cp, cq, k);
    a[k + 1] := 0.5 * (pt + qt);
    a[a.Length - 1 - k] := 0.5 * (pt - qt);
  }

  /** Its value at every z is half of P(z)(1 + z) + Q(z)(1 - z). */
  lemma {:induction false} LpcValue(p: seq<real>, q: seq<real>, z: real)
    requires |p| == |q|
    ensures Value((i: int) => Lpc(p, q, i), 2 * |p| + 1, z) ==
      0.5 * (Product(p, |p|, z) * (1.0 + z) + Product(q, |q|, z) * (1.0 - z))
  {
    var h := |p|;
    var f, g := Coefs(p, h), Coefs(q, h);
    var n := 2 * h + 2;
    CoefIsProduct(p, h, z);
    CoefIsProduct(q, h, z);
    CoefEdges(p);
    CoefEdges(q);
    LpcEnds(p, q);
    hide Value, Lpc, Coefs, Product;
    HalfSum(f, g, n - 1, z);
    var a := (i: int) => Lpc(p, q, i);
    var s := Combined(1.0, Combined(0.5, f, 0.5, Delayed(f)), 1.0, Combined(0.5, g, -0.5, Delayed(g)));
    forall i | 0 <= i < n ensures a(i) == s(i) { LpcIsSum(p, q, i); }
    ValueSame(a, s, n, z);
    ValueExtends(a, n - 1, n, z);
  }

  lemma CoefEdges(c: seq<real>)
    ensures Coefs(c, |c|)(-1) == 0.0 && Coefs(c, |c|)(2 * |c| + 1) == 0.0
  {
    OutsideZero(c, |c|, -1);
    OutsideZero(c, |c|, 2 * |c| + 1);
  }

  lemma LpcIsSum(p: seq<real>, q: seq<real>, i: int)
    requires |p| == |q|
    ensures var f, g := Coefs(p, |p|), Coefs(q, |q|);
      Lpc(p, q, i) == Combined(1.0, Combined(0.5, f, 0.5, Delayed(f)), 1.0, Combined(0.5, g, -0.5, Delayed(g)))(i)
  {}

  /** Half of f times 1 + z plus half of g times 1 - z. */
  lemma HalfSum(f: int -> real, g: int -> real, m: nat, z: real)
    requires f(-1) == 0.0 && g(-1) == 0.0 && f(m) == 0.0 && g(m) == 0.0
    ensures Value(Combined(1.0, Combined(0.5, f, 0.5, Delayed(f)), 1.0, Combined(0.5, g, -0.5, Delayed(g))), m + 1, z)
         == 0.5 * (Value(f, m, z) * (1.0 + z) + Value(g, m, z) * (1.0 - z))
  {
    hide Value;
    ValueExtends(f, m, m + 1, z);
    ValueExtends(g, m, m + 1, z);
    ValueDelayed(f, m, z);
    ValueDelayed(g, m, z);
    ValueLinear(0.5, f, 0.5, Delayed(f), m + 1, z);
    ValueLinear(0.5, g, -0.5, Delayed(g), m + 1, z);
    ValueLinear(1.0, Combined(0.5, f, 0.5, Delayed(f)), 1.0, Combined(0.5, g, -0.5, Delayed(g)), m + 1, z);
  }
}
