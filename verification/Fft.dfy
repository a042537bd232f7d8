/** The recursive mixed-radix transform, over exact complex numbers. */
module Fft {
  import Bytes

  datatype Cpx = Cpx(re: real, im: real)

  const ZERO := Cpx(0.0, 0.0)
  const ONE := Cpx(1.0, 0.0)

  function Add(a: Cpx, b: Cpx): Cpx { Cpx(a.re + b.re, a.im + b.im) }

  function Mul(a: Cpx, b: Cpx): Cpx { Cpx(a.re * b.re - a.im * b.im, a.re * b.im + a.im * b.re) }

  function Norm(a: Cpx): real { a.re * a.re + a.im * a.im }

  /** Magnitudes multiply, and the imaginary unit squares to minus one. */
  lemma NormTimes(a: Cpx, b: Cpx)
    ensures Norm(Mul(a, b)) == Norm(a) * Norm(b) && Mul(Cpx(0.0, 1.0), Cpx(0.0, 1.0)) == Cpx(-1.0, 0.0)
  {
    var p, q, r, s := a.re * b.re, a.im * b.im, a.re * b.im, a.im * b.re;
    assert (p - q) * (p - q) == p * p - 2.0 * (p * q) + q * q;
    assert (r + s) * (r + s) == r * r + 2.0 * (r * s) + s * s;
    FourProduct(a.re, b.re, a.im, b.im);
    Squares(a.re, b.re);
    Squares(a.im, b.im);
    Squares(a.re, b.im);
    Squares(a.im, b.re);
    Crossed(a.re * a.re, a.im * a.im, b.re * b.re, b.im * b.im);
  }

  lemma FourProduct(a: real, b: real, c: real, d: real)
    ensures a * b * (c * d) == a * d * (c * b)
  {
    assert a * b * (c * d) == a * (b * (c * d));
    assert b * (c * d) == d * (c * b);
    assert a * (d * (c * b)) == a * d * (c * b);
  }

  lemma Squares(a: real, b: real)
    ensures a * b * (a * b) == a * a * (b * b)
  {
    assert a * b * (a * b) == a * (b * (a * b));
    assert b * (a * b) == a * (b * b);
    assert a * (a * (b * b)) == a * a * (b * b);
  }

  lemma Crossed(a: real, b: real, c: real, d: real)
    ensures (a + b) * (c + d) == a * c + a * d + b * c + b * d
  {}

  lemma MulAdd(a: Cpx, b: Cpx, c: Cpx)
    ensures Mul(Add(a, b), c) == Add(Mul(a, c), Mul(b, c)) && Mul(a, b) == Mul(b, a)
  {}

  lemma MulAssoc(a: Cpx, b: Cpx, c: Cpx)
    ensures Mul(Mul(a, b), c) == Mul(a, Mul(b, c))
  {
    Cubic(a.re, b.re, c.re); Cubic(a.im, b.im, c.re); Cubic(a.re, b.im, c.im); Cubic(a.im, b.re, c.im);
    Cubic(a.re, b.re, c.im); Cubic(a.im, b.im, c.im); Cubic(a.re, b.im, c.re); Cubic(a.im, b.re, c.re);
    Spread(a.re * b.re, a.im * b.im, c.re);
    Spread(a.re * b.re, a.im * b.im, c.im);
    Spread(a.re * b.im, -(a.im * b.re), c.re);
    Spread(a.re * b.im, -(a.im * b.re), c.im);
    Gather(a.re, b.re * c.re, b.im * c.im);
    Gather(a.im, b.re * c.re, b.im * c.im);
    Gather(a.re, b.re * c.im, -(b.im * c.re));
    Gather(a.im, b.re * c.im, -(b.im * c.re));
  }

  lemma Cubic(x: real, y: real, z: real)
    ensures x * y * z == x * (y * z) && -(x * y) * z == -(x * (y * z)) && x * -(y * z) == -(x * (y * z))
  {}

  lemma Spread(x: real, y: real, z: real)
    ensures (x - y) * z == x * z - y * z
  {}

  lemma Gather(x: real, y: real, z: real)
    ensures x * (y - z) == x * y - x * z
  {}

  // ----- finite sums -----

  function Terms(f: nat -> Cpx, n: nat): Cpx {
    if n == 0 then ZERO else Add(Terms(f, n - 1), f(n - 1))
  }

  function Sum(f: nat -> Cpx, n: nat): Cpx { Terms(f, n) }

  function Times(a: nat, b: nat): (r: nat) { a * b }

  function AddF(f: nat -> Cpx, g: nat -> Cpx): nat -> Cpx { (i: nat) => Add(f(i), g(i)) }

  function ScaleF(f: nat -> Cpx, c: Cpx): nat -> Cpx { (i: nat) => Mul(f(i), c) }

  function ShiftF(f: nat -> Cpx, a: nat): nat -> Cpx { (i: nat) => f(a + i) }

  /** Every p-th term from q on, and the row of terms after m full rounds. */
  function EveryF(f: nat -> Cpx, p: nat, q: nat): nat -> Cpx { (i: nat) => f(q + Times(i, p)) }

  function RowF(f: nat -> Cpx, p: nat, m: nat): nat -> Cpx { (q: nat) => f(q + Times(m, p)) }

  function Column(f: nat -> Cpx, p: nat, m: nat): nat -> Cpx { (q: nat) => Sum(EveryF(f, p, q), m) }

  lemma {:induction false} SumEqual(f: nat -> Cpx, g: nat -> Cpx, n: nat)
    requires forall i: nat :: i < n ==> f(i) == g(i)
    ensures Sum(f, n) == Sum(g, n)
  {
    if n > 0 {
      SumEqual(f, g, n - 1);
      assert f(n - 1) == g(n - 1);
    }
  }

  lemma {:induction false} SumAdds(f: nat -> Cpx, g: nat -> Cpx, n: nat)
    ensures Sum(AddF(f, g), n) == Add(Sum(f, n), Sum(g, n))
  {
    if n > 0 { SumAdds(f, g, n - 1); }
  }

  lemma {:induction false} SumScales(f: nat -> Cpx, c: Cpx, n: nat)
    ensures Sum(ScaleF(f, c), n) == Mul(Sum(f, n), c)
  {
    if n > 0 {
      SumScales(f, c, n - 1);
      MulAdd(Sum(f, n - 1), f(n - 1), c);
    }
  }

  lemma {:induction false} SumSplit(f: nat -> Cpx, a: nat, b: nat)
    ensures Sum(f, a + b) == Add(Sum(f, a), Sum(ShiftF(f, a), b))
  {
    if b > 0 {
      SumSplit(f, a, b - 1);
    }
  }

  /** A sum over p * m terms, taken by residue modulo p. */
  lemma {:induction false} SumByResidue(f: nat -> Cpx, p: nat, m: nat)
    ensures Sum(f, Times(p, m)) == Sum(Column(f, p, m), p)
  {
    if m == 0 {
      SumOfZeros(Column(f, p, 0), p);
    } else {
      SumByResidue(f, p, m - 1);
      TimesStep(p, m - 1);
      hide Sum, Times;
      SumSplit(f, Times(p, m - 1), p);
      ColumnGrows(f, p, m - 1);
    }
  }

  lemma TimesStep(p: nat, m: nat)
    ensures Times(p, m + 1) == Times(p, m) + p && Times(p, m) == Times(m, p)
  {}

  /** One more row: the columns' sums grow by the row's own sum. */
  lemma ColumnGrows(f: nat -> Cpx, p: nat, m: nat)
    ensures Sum(Column(f, p, m + 1), p) == Add(Sum(Column(f, p, m), p), Sum(ShiftF(f, Times(p, m)), p))
  {
    TimesStep(p, m);
    forall q: nat | q < p ensures AddF(Column(f, p, m), RowF(f, p, m))(q) == Column(f, p, m + 1)(q) {}
    hide Sum, Times;
    SumEqual(ShiftF(f, Times(p, m)), RowF(f, p, m), p);
    SumAdds(Column(f, p, m), RowF(f, p, m), p);
    SumEqual(AddF(Column(f, p, m), RowF(f, p, m)), Column(f, p, m + 1), p);
  }

  lemma {:induction false} SumOfZeros(f: nat -> Cpx, n: nat)
    requires forall i: nat :: i < n ==> f(i) == ZERO
    ensures Sum(f, n) == ZERO
  {
    if n > 0 { SumOfZeros(f, n - 1); }
  }

  // ----- the transform -----

  /** Roots of unity for one sign: w(k, n) stands for exp(sign * 2 pi i k / n). */
  ghost predicate Roots(w: (nat, nat) -> Cpx) {
    && (forall n: nat :: n > 0 ==> w(0, n) == ONE)
    && (forall a: nat, b: nat, n: nat :: n > 0 ==> w(a + b, n) == Mul(w(a, n), w(b, n)))
    && (forall n: nat :: n > 0 ==> w(n, n) == ONE)
    && (forall a: nat, p: nat, m: nat :: p > 0 && m > 0 ==> w(Times(a, p), Times(p, m)) == w(a, m))
  }

  lemma RootLaws(w: (nat, nat) -> Cpx, a: nat, b: nat, n: nat)
    requires Roots(w) && n > 0
    ensures w(a + b, n) == Mul(w(a, n), w(b, n)) && w(n, n) == ONE && w(0, n) == ONE
  {}

  lemma RootCancels(w: (nat, nat) -> Cpx, a: nat, p: nat, m: nat)
    requires Roots(w) && p > 0 && m > 0
    ensures w(a * p, p * m) == w(a, m)
  {
    assert Times(a, p) == a * p && Times(p, m) == p * m;
  }

  /** Bin k of the transform of n inputs at a stride. */
  function Dft(x: seq<Cpx>, off: nat, stride: nat, n: nat, w: (nat, nat) -> Cpx, k: nat): Cpx
    requires Reaches(x, off, stride, n)
  {
    Sum(Term(x, off, stride, n, w, k), n)
  }

  /** All n inputs lie inside x. */
  predicate Reaches(x: seq<Cpx>, off: nat, stride: nat, n: nat) {
    stride > 0 && n > 0 && off + (n - 1) * stride < |x|
  }

  function Term(x: seq<Cpx>, off: nat, stride: nat, n: nat, w: (nat, nat) -> Cpx, k: nat): nat -> Cpx {
    (j: nat) => Scaled(x, off + j * stride, w(k * j, n))
  }

  function Scaled(x: seq<Cpx>, at: nat, c: Cpx): Cpx { if at < |x| then Mul(x[at], c) else ZERO }

  lemma ScaledTwice(x: seq<Cpx>, at: nat, a: Cpx, b: Cpx)
    ensures Scaled(x, at, Mul(a, b)) == Mul(Scaled(x, at, a), b)
  {
    if at < |x| { MulAssoc(x[at], a, b); } else { ZeroTimes(b); }
  }

  lemma ZeroTimes(c: Cpx)
    ensures Mul(ZERO, c) == ZERO
  {}

  lemma {:induction false} WholeTurns(w: (nat, nat) -> Cpx, a: nat, n: nat, t: nat)
    requires Roots(w) && n > 0
    ensures w(a + t * n, n) == w(a, n)
  {
    hide Roots;
    if t > 0 {
      WholeTurns(w, a, n, t - 1);
      var before := a + (t - 1) * n;
      assert a + t * n == before + n;
      RootLaws(w, before, n, n);
    }
  }

  /** Only k modulo n matters. */
  lemma TurnReduced(w: (nat, nat) -> Cpx, k: nat, i: nat, m: nat)
    requires Roots(w) && m > 0
    ensures w(k * i, m) == w(k % m * i, m)
  {
    hide Roots;
    var t, r := k / m, k % m;
    assert k == t * m + r;
    Products(t, m, r, i);
    Same(k, t * m + r, i);
    WholeTurns(w, r * i, m, t * i);
  }

  lemma Same(a: nat, b: nat, i: nat)
    requires a == b
    ensures a * i == b * i
  {}

  lemma Products(t: nat, m: nat, r: nat, i: nat)
    ensures (t * m + r) * i == r * i + t * i * m
  {
    assert (t * m + r) * i == t * m * i + r * i;
    assert t * m * i == t * i * m;
  }

  /** The exponent of input q + i * p splits into a twiddle and a term of the smaller transform. */
  lemma TwiddleSplit(w: (nat, nat) -> Cpx, k: nat, q: nat, i: nat, p: nat, m: nat)
    requires Roots(w) && p > 0 && m > 0
    ensures w(k * (q + i * p), p * m) == Mul(w(k % m * i, m), w(k * q, p * m))
  {
    hide Roots, Mul;
    Exponent(k, q, i, p);
    var n, a, b := p * m, k * i * p, k * q;
    Monotone(1, m, p);
    assert n > 0;
    RootLaws(w, a, b, n);
    RootCancels(w, k * i, p, m);
    TurnReduced(w, k, i, m);
  }

  lemma Exponent(k: nat, q: nat, i: nat, p: nat)
    ensures k * (q + i * p) == k * i * p + k * q
  {
    assert k * (q + i * p) == k * q + k * (i * p);
    assert k * (i * p) == k * i * p;
  }

  lemma Positions(off: nat, stride: nat, p: nat, q: nat, i: nat)
    ensures off + q * stride + i * (stride * p) == off + (q + i * p) * stride
  {
    assert (q + i * p) * stride == q * stride + i * p * stride;
    assert i * p * stride == i * (stride * p);
  }

  /** Sub-transform q reads every p-th input starting at q. */
  lemma SubReaches(x: seq<Cpx>, off: nat, stride: nat, p: nat, m: nat, q: nat)
    requires Reaches(x, off, stride, p * m) && p > 0 && m > 0 && q < p
    ensures stride * p > 0 && Reaches(x, off + q * stride, stride * p, m)
  {
    Positions(off, stride, p, q, m - 1);
    assert p * m == (m - 1) * p + p;
    Monotone(q + (m - 1) * p, p * m - 1, stride);
    assert stride * p >= 1 by { Monotone(1, p, stride); }
  }

  lemma Monotone(a: nat, b: nat, c: nat)
    requires a <= b
    ensures a * c <= b * c && (c >= 1 ==> b * c >= b) && c * a <= c * b
  {
    assert (b - a) * c >= 0;
    assert b * c == a * c + (b - a) * c;
    if c >= 1 { assert (c - 1) * b >= 0; assert b * c == b + (c - 1) * b; }
  }

  function Combine(x: seq<Cpx>, off: nat, stride: nat, p: nat, m: nat, w: (nat, nat) -> Cpx, k: nat): nat -> Cpx {
    (q: nat) => if stride * p > 0 && Reaches(x, off + q * stride, stride * p, m) && m > 0
      then Mul(Dft(x, off + q * stride, stride * p, m, w, k % m), w(k * q, p * m)) else ZERO
  }

  /** The radix-p step: a transform of p * m points from p transforms of m points. */
  lemma RadixStep(x: seq<Cpx>, off: nat, stride: nat, p: nat, m: nat, w: (nat, nat) -> Cpx, k: nat)
    requires Roots(w) && p > 0 && m > 0 && Reaches(x, off, stride, p * m)
    ensures Dft(x, off, stride, p * m, w, k) == Sum(Combine(x, off, stride, p, m, w, k), p)
  {
    var f, g := Term(x, off, stride, p * m, w, k), Combine(x, off, stride, p, m, w, k);
    SumByResidue(f, p, m);
    assert Times(p, m) == p * m;
    forall q: nat | q < p ensures Column(f, p, m)(q) == g(q) {
      ColumnIs(x, off, stride, p, m, w, k, q);
    }
    hide Sum, Column, Combine, Term, Times, Roots, Reaches;
    SumEqual(Column(f, p, m), g, p);
  }

  lemma CombineAt(x: seq<Cpx>, off: nat, stride: nat, p: nat, m: nat, w: (nat, nat) -> Cpx, k: nat, q: nat)
    requires m > 0 && stride * p > 0 && Reaches(x, off + q * stride, stride * p, m)
    ensures Combine(x, off, stride, p, m, w, k)(q) ==
      Mul(Sum(Term(x, off + q * stride, stride * p, m, w, k % m), m), w(k * q, p * m))
  {
    hide Sum, Term, Mul, Reaches;
  }

  lemma ColumnIs(x: seq<Cpx>, off: nat, stride: nat, p: nat, m: nat, w: (nat, nat) -> Cpx, k: nat, q: nat)
    requires Roots(w) && p > 0 && m > 0 && q < p && Reaches(x, off, stride, p * m)
    ensures Column(Term(x, off, stride, p * m, w, k), p, m)(q) == Combine(x, off, stride, p, m, w, k)(q)
  {
    SubReaches(x, off, stride, p, m, q);
    CombineAt(x, off, stride, p, m, w, k, q);
    var f := Term(x, off, stride, p * m, w, k);
    var g := Term(x, off + q * stride, stride * p, m, w, k % m);
    var c := w(k * q, p * m);
    forall i: nat | i < m ensures EveryF(f, p, q)(i) == ScaleF(g, c)(i) {
      TermIs(x, off, stride, p, m, w, k, q, i);
      hide Term, Roots, Reaches, Mul;
    }
    hide Sum, Combine, Term, Roots, Reaches, Mul, EveryF, ScaleF;
    SumEqual(EveryF(f, p, q), ScaleF(g, c), m);
    SumScales(g, c, m);
  }

  lemma TermIs(x: seq<Cpx>, off: nat, stride: nat, p: nat, m: nat, w: (nat, nat) -> Cpx, k: nat, q: nat, i: nat)
    requires Roots(w) && p > 0 && m > 0 && q < p && i < m && Reaches(x, off, stride, p * m)
    ensures Term(x, off, stride, p * m, w, k)(q + i * p)
         == Mul(Term(x, off + q * stride, stride * p, m, w, k % m)(i), w(k * q, p * m))
  {
    hide Roots, Mul, Reaches, Scaled;
    Positions(off, stride, p, q, i);
    TwiddleSplit(w, k, q, i, p, m);
    ScaledTwice(x, off + (q + i * p) * stride, w(k % m * i, m), w(k * q, p * m));
  }

  // ----- factors -----

  /** p is the least divisor of n above one. */
  predicate LeastFactor(n: nat, p: nat) {
    2 <= p <= n && Divides(p, n) && forall d :: 2 <= d < p ==> !Divides(d, n)
  }

  predicate Divides(d: nat, n: nat) { d > 0 && n % d == 0 }

  method SmallestFactor(n: nat) returns (p: nat)
    requires n >= 2
    ensures LeastFactor(n, p)
  {
    if n % 2 == 0 {
      return 2;
    }
    p := 3;
    assert !Divides(2, n);
    hide Square;
    while Square(p) <= n
      invariant 3 <= p && p % 2 == 1 && forall d :: 2 <= d < p ==> !Divides(d, n)
      decreases n - p
    {
      SquareAtLeast(p);
      var r := n % p;
      assert r == 0 <==> Divides(p, n);
      if r == 0 {
        return p;
      }
      EvenDoesNot(n, p + 1);
      p := p + 2;
    }
    Prime(n, p);
    p := n;
  }

  function Square(p: nat): nat { p * p }

  lemma SquareAtLeast(p: nat)
    requires p >= 1
    ensures p <= Square(p)
  {
    Monotone(1, p, p);
  }

  lemma Multiple(n: nat, d: nat)
    requires d > 0 && n % d == 0
    ensures n == n / d * d
  {}

  lemma EvenDoesNot(n: nat, d: nat)
    requires n % 2 == 1 && d > 0 && d % 2 == 0
    ensures !Divides(d, n)
  {
    if n % d == 0 {
      Multiple(n, d);
      var h := d / 2;
      assert n == n / d * h * 2 by { assert d == h * 2; Product3(n / d, h, 2); }
      EvenMod(n / d * h);
    }
  }

  lemma EvenMod(x: nat)
    ensures x * 2 % 2 == 0
  {}

  lemma Product3(a: nat, b: nat, c: nat)
    ensures a * (b * c) == a * b * c
  {}

  /** No divisor below p and p * p > n: n itself is the least factor. */
  lemma Prime(n: nat, p: nat)
    requires n >= 2 && p >= 2 && Square(p) > n && forall d :: 2 <= d < p ==> !Divides(d, n)
    ensures LeastFactor(n, n)
  {
    forall d | 2 <= d < n ensures !Divides(d, n) {
      if Divides(d, n) {
        Cofactor(n, d, p);
      }
    }
  }

  lemma Cofactor(n: nat, d: nat, p: nat)
    requires 2 <= d < n && Divides(d, n) && p >= 2 && Square(p) > n
    ensures exists e :: 2 <= e < p && Divides(e, n)
  {
    var e := n / d;
    Multiple(n, d);
    if d < p {
      assert Divides(d, n);
    } else {
      if e >= p {
        Monotone(p, d, p);
        Monotone(p, e, d);
      }
      assert e != 0 && e != 1;
      DividesProduct(d, e);
      assert Divides(e, n);
    }
  }

  lemma DividesProduct(d: nat, e: nat)
    requires e > 0
    ensures e * d % e == 0
  {
    Bytes.MultipleMod(d, e);
  }

  // ----- the algorithm -----

  function Spectrum(x: seq<Cpx>, off: nat, stride: nat, n: nat, w: (nat, nat) -> Cpx): (s: seq<Cpx>)
    requires Reaches(x, off, stride, n)
    ensures |s| == n && forall k :: 0 <= k < n ==> s[k] == Dft(x, off, stride, n, w, k)
  {
    seq(n, k requires 0 <= k < n => Dft(x, off, stride, n, w, k))
  }

  lemma SingleBin(x: seq<Cpx>, off: nat, stride: nat, w: (nat, nat) -> Cpx)
    requires Roots(w) && Reaches(x, off, stride, 1)
    ensures Dft(x, off, stride, 1, w, 0) == x[off]
  {
    hide Roots, Reaches, Scaled;
    RootOne(w, 1);
    StrideReach(x, off, stride, 1);
    var f := Term(x, off, stride, 1, w, 0);
    SumOne(f);
    assert f(0) == Scaled(x, off, ONE);
    TimesOne(x, off);
  }

  lemma TimesOne(x: seq<Cpx>, at: nat)
    requires at < |x|
    ensures Scaled(x, at, ONE) == x[at]
  {}

  lemma RootOne(w: (nat, nat) -> Cpx, n: nat)
    requires Roots(w) && n > 0
    ensures w(0, n) == ONE
  {}

  lemma SumOne(f: nat -> Cpx)
    ensures Sum(f, 1) == f(0)
  {
    assert Sum(f, 0) == ZERO;
  }

  /** One bin by direct summation. */
  method DirectBin(x: seq<Cpx>, off: nat, stride: nat, n: nat, w: (nat, nat) -> Cpx, k: nat) returns (acc: Cpx)
    requires Reaches(x, off, stride, n)
    ensures acc == Dft(x, off, stride, n, w, k)
  {
    acc := ZERO;
    for j := 0 to n
      invariant acc == Sum(Term(x, off, stride, n, w, k), j)
    {
      Monotone(j, n - 1, stride);
      acc := Add(acc, Mul(x[off + j * stride], w(k * j, n)));
    }
  }

  /** The first c sub-transforms, one after the other. */
  function Spectra(x: seq<Cpx>, off: nat, stride: nat, p: nat, m: nat, w: (nat, nat) -> Cpx, c: nat): (s: seq<Cpx>)
    requires p > 0 && m > 0 && Reaches(x, off, stride, p * m) && c <= p
    ensures |s| == c * m
  {
    if c == 0 then [] else
      SubReaches(x, off, stride, p, m, c - 1);
      Spectra(x, off, stride, p, m, w, c - 1) + Spectrum(x, off + (c - 1) * stride, stride * p, m, w)
  }

  lemma NoSpectra(x: seq<Cpx>, off: nat, stride: nat, p: nat, m: nat, w: (nat, nat) -> Cpx)
    requires p > 0 && m > 0 && Reaches(x, off, stride, p * m)
    ensures Spectra(x, off, stride, p, m, w, 0) == []
  {}

  lemma SpectraStep(x: seq<Cpx>, off: nat, stride: nat, p: nat, m: nat, w: (nat, nat) -> Cpx, q: nat)
    requires p > 0 && m > 0 && Reaches(x, off, stride, p * m) && q < p
    requires Reaches(x, off + q * stride, stride * p, m)
    ensures Spectra(x, off, stride, p, m, w, q + 1) ==
      Spectra(x, off, stride, p, m, w, q) + Spectrum(x, off + q * stride, stride * p, m, w)
  {
    hide Spectrum, Reaches;
  }

  lemma {:induction false} SpectraAt(x: seq<Cpx>, off: nat, stride: nat, p: nat, m: nat, w: (nat, nat) -> Cpx, c: nat,
                                     q: nat, j: nat)
    requires p > 0 && m > 0 && Reaches(x, off, stride, p * m) && q < c <= p && j < m
    ensures stride * p > 0 && Reaches(x, off + q * stride, stride * p, m) && q * m + j < c * m
    ensures Spectra(x, off, stride, p, m, w, c)[q * m + j] == Dft(x, off + q * stride, stride * p, m, w, j)
  {
    SubReaches(x, off, stride, p, m, c - 1);
    SubReaches(x, off, stride, p, m, q);
    assert c * m == (c - 1) * m + m;
    Monotone(q, c - 1, m);
    hide Reaches, Dft;
    if q < c - 1 {
      SpectraAt(x, off, stride, p, m, w, c - 1, q, j);
    }
  }

  /** One bin from the sub-transforms, with its twiddles. */
  method CombineBin(sub: seq<Cpx>, p: nat, m: nat, w: (nat, nat) -> Cpx, k: nat,
                    ghost x: seq<Cpx>, ghost off: nat, ghost stride: nat) returns (acc: Cpx)
    requires Roots(w) && p > 0 && m > 0 && Reaches(x, off, stride, p * m) && sub == Spectra(x, off, stride, p, m, w, p)
    ensures acc == Dft(x, off, stride, p * m, w, k)
  {
    hide Roots, Dft, Combine, Spectra, Reaches, Mul;
    RadixStep(x, off, stride, p, m, w, k);
    ghost var f := Combine(x, off, stride, p, m, w, k);
    var kmod, n := k % m, p * m;
    acc := ZERO;
    for q := 0 to p
      invariant acc == Sum(f, q)
    {
      CombineTerm(x, off, stride, p, m, w, k, q);
      var at, e := q * m + kmod, k * q;
      acc := Add(acc, Mul(sub[at], w(e, n)));
    }
  }

  lemma CombineTerm(x: seq<Cpx>, off: nat, stride: nat, p: nat, m: nat, w: (nat, nat) -> Cpx, k: nat, q: nat)
    requires p > 0 && m > 0 && Reaches(x, off, stride, p * m) && q < p
    ensures q * m + k % m < p * m
    ensures Combine(x, off, stride, p, m, w, k)(q) ==
      Mul(Spectra(x, off, stride, p, m, w, p)[q * m + k % m], w(k * q, p * m))
  {
    hide Dft;
    SpectraAt(x, off, stride, p, m, w, p, q, k % m);
  }

  /** fftRec: the spectrum at outOff, and nothing else changes. */
  method FftRec(x: seq<Cpx>, off: nat, stride: nat, n: nat, w: (nat, nat) -> Cpx, out: array<Cpx>, outOff: nat)
    requires Reaches(x, off, stride, n) && Roots(w) && outOff + n <= out.Length
    modifies out
    ensures out[..] == old(out[..outOff]) + Spectrum(x, off, stride, n, w) + old(out[outOff + n..])
    decreases n, 1
  {
    hide Roots, Dft, Reaches;
    ghost var before := out[..];
    StrideReach(x, off, stride, n);
    if n == 1 {
      SingleBin(x, off, stride, w);
      out[outOff] := x[off];
      return;
    }
    var p := SmallestFactor(n);
    if p == n {
      DirectBins(x, off, stride, n, w, out, outOff);
      return;
    }
    var m := n / p;
    Multiple(n, p);
    var sub := SubTransforms(x, off, stride, p, m, w);
    CombineBins(sub[..], p, m, w, out, outOff, x, off, stride);
  }

  method DirectBins(x: seq<Cpx>, off: nat, stride: nat, n: nat, w: (nat, nat) -> Cpx, out: array<Cpx>, outOff: nat)
    requires Reaches(x, off, stride, n) && outOff + n <= out.Length
    modifies out
    ensures out[..] == old(out[..outOff]) + Spectrum(x, off, stride, n, w) + old(out[outOff + n..])
  {
    hide Dft, Reaches;
    ghost var before, bins := out[..], Spectrum(x, off, stride, n, w);
    for k := 0 to n
      invariant out[..] == before[..outOff] + bins[..k] + before[outOff + k..]
    {
      var bin := DirectBin(x, off, stride, n, w, k);
      out[outOff + k] := bin;
    }
  }

  method CombineBins(sub: seq<Cpx>, p: nat, m: nat, w: (nat, nat) -> Cpx, out: array<Cpx>, outOff: nat,
                     ghost x: seq<Cpx>, ghost off: nat, ghost stride: nat)
    requires Roots(w) && p > 0 && m > 0 && Reaches(x, off, stride, p * m) && sub == Spectra(x, off, stride, p, m, w, p)
    requires outOff + p * m <= out.Length
    modifies out
    ensures out[..] == old(out[..outOff]) + Spectrum(x, off, stride, p * m, w) + old(out[outOff + p * m..])
  {
    hide Roots, Dft, Reaches, Spectra;
    var n := p * m;
    ghost var before, bins := out[..], Spectrum(x, off, stride, n, w);
    for k := 0 to n
      invariant out[..] == before[..outOff] + bins[..k] + before[outOff + k..]
    {
      var bin := CombineBin(sub, p, m, w, k, x, off, stride);
      out[outOff + k] := bin;
    }
  }

  lemma StrideReach(x: seq<Cpx>, off: nat, stride: nat, n: nat)
    requires Reaches(x, off, stride, n)
    ensures off < |x| && n >= 1
  {}

  method SubTransforms(x: seq<Cpx>, off: nat, stride: nat, p: nat, m: nat, w: (nat, nat) -> Cpx)
    returns (sub: array<Cpx>)
    requires p >= 2 && m > 0 && Reaches(x, off, stride, p * m) && Roots(w)
    ensures fresh(sub) && sub[..] == Spectra(x, off, stride, p, m, w, p)
    decreases p * m, 0
  {
    hide Roots, Dft, Reaches, Spectra, Spectrum;
    NoSpectra(x, off, stride, p, m, w);
    var n := p * m;
    sub := new Cpx[n](_ => ZERO);
    var at := 0;
    for q := 0 to p
      invariant fresh(sub) && sub.Length == n && at == q * m <= n
      invariant sub[..at] == Spectra(x, off, stride, p, m, w, q)
    {
      SubReaches(x, off, stride, p, m, q);
      Fits(p, m, q);
      SpectraStep(x, off, stride, p, m, w, q);
      ghost var before := sub[..at];
      FftRec(x, off + q * stride, stride * p, m, w, sub, at);
      at := at + m;
      assert sub[..at] == before + Spectrum(x, off + q * stride, stride * p, m, w);
    }
    assert sub[..at] == sub[..];
  }

  lemma Fits(p: nat, m: nat, q: nat)
    requires q < p && p >= 2 && m > 0
    ensures q * m + m == (q + 1) * m <= p * m && m < p * m
  {
    Monotone(q + 1, p, m);
    Monotone(2, p, m);
  }

  /** cfft: the whole transform of the input. */
  method Cfft(input: seq<Cpx>, w: (nat, nat) -> Cpx, out: array<Cpx>)
    requires input != [] && Roots(w) && out.Length == |input|
    modifies out
    ensures out[..] == Spectrum(input, 0, 1, |input|, w)
  {
    FftRec(input, 0, 1, |input|, w, out, 0);
  }
}
