/**
 The root search that turns prediction coefficients into line spectral frequencies, in 32-bit arithmetic with wrap.
 */
module A2Nlsf {
  import opened GainBlock
  import CdfTables
  import opened A2NlsfPoly

  const TABLE := 128
  const MAX_ITER := 16
  const BISECTIONS := 3
  const INT16_MAX := 32767
  const NO_ZERO_BOUND := 0x7fff_fff0
  const CELL_BOUND := 0x4000_0000

  // ----- the cosine table -----

  type Cosine = x: int | -X_MAX <= x <= X_MAX

  /** silkLSFCosTabFIXQ12: its second half is its first, reversed and negated. */
  function CosTab(): (t: seq<Cosine>)
    ensures |t| == TABLE + 1
  {
    seq(TABLE + 1, i requires 0 <= i <= TABLE => if i <= 64 then FirstHalf()[i] else -FirstHalf()[TABLE - i])
  }

  function FirstHalf(): (t: seq<Cosine>)
    ensures |t| == 65
  {
    [8192, 8190, 8182, 8170, 8152, 8130, 8104, 8072] + Later()
  }

  function Later(): (t: seq<Cosine>)
    ensures |t| == 57
  {
    Second() + Third()
  }

  function Second(): (t: seq<Cosine>)
    ensures |t| == 32
  {
    [
      8034, 7994, 7946, 7896, 7840, 7778, 7714, 7644, 7568, 7490, 7406, 7318, 7226, 7128, 7026, 6922,
      6812, 6698, 6580, 6458, 6332, 6204, 6070, 5934, 5792, 5648, 5502, 5352, 5198, 5040, 4880, 4718
    ]
  }

  function Third(): (t: seq<Cosine>)
    ensures |t| == 25
  {
    [
      4552, 4382, 4212, 4038, 3862, 3684, 3502, 3320, 3136, 2948, 2760, 2570, 2378, 2186, 1990, 1794,
      1598, 1400, 1202, 1002, 802, 602, 402, 202, 0
    ]
  }

  lemma FirstSteps()
    ensures CosTab()[0] == 8192 && CosTab()[1] == 8190
  {
    assert FirstHalf()[0] == 8192 && FirstHalf()[1] == 8190;
  }

  // ----- one bracket -----

  /** Values on the two sides of a sign change. */
  predicate Opposed(a: int, b: int) { (a <= 0 && b >= 0) || (a >= 0 && b <= 0) }

  /** silkRshiftRound by one. */
  function HalfUp(x: i32): i32 { x / 2 + x % 2 }

  /** The mean of two points, rounded, in 32 bits. */
  function Middle(a: i32, b: i32): i32 { HalfUp(I32(a as int + b as int)) }

  /** Values at the ends of a bracket, the fraction of the table cell at its lower end, and the two points. */
  datatype Bracket = Bracket(lo: i32, hi: i32, frac: int, xl: i32, xh: i32)

  /** Share of the cell in bisection m. */
  function Share(m: nat): int
    requires m < BISECTIONS
  {
    if m == 0 then 128 else if m == 1 then 64 else 32
  }

  /** The bracket after the bisections from m on. */
  function Halved(p: seq<i32>, xl: i32, yl: i32, xh: i32, yh: i32, frac: int, m: nat): Bracket
    requires p != [] && m <= BISECTIONS
    decreases BISECTIONS - m
  {
    if m == BISECTIONS then Bracket(yl, yh, frac, xl, xh)
    else
      var xm := Middle(xl, xh);
      var ym := Eval(p, xm);
      if Opposed(yl, ym) then Halved(p, xl, yl, xm, ym, frac, m + 1)
        else Halved(p, xm, ym, xh, yh, frac + Share(m), m + 1)
  }

  /** Division rounding toward zero. */
  function Trunc(a: int, b: int): int
    requires b != 0
  {
    var q: int := Mag(a) / Mag(b);
    if (a >= 0) == (b > 0) then q else -q
  }

  /** Divisor of the step for values too large to scale up first. */
  function LargeDivisor(ylo: i32, yhi: i32): int { I32(ylo as int - yhi as int) / 32 }

  /** The absolute value in 32 bits; the least integer stays negative. */
  function Abs32(x: i32): i32 { if x < 0 then I32(-(x as int)) else x }

  datatype Quotient = Some(q: i32) | ByZero

  /** Thirty-seconds of the bracket at which a line through its ends meets zero. */
  function Interpolated(lo: i32, hi: i32): Quotient {
    if Abs32(lo) < 65536 then
      var den := I32(lo as int - hi as int);
      var nom := I32(I32(lo as int * 32) as int + den as int / 2);
      if den == 0 then Some(0) else Some(I32(Trunc(nom, den)))
    else
      var den := LargeDivisor(lo, hi);
      if den == 0 then ByZero else Some(I32(Trunc(lo, den)))
  }

  /** A large lower end, and a step up to the other end that nearly spans 32 bits. */
  predicate FullSpan(lo: i32, hi: i32) { Abs32(lo) >= 65536 && hi as int - lo as int >= W32 - 31 }

  /** The division is by zero exactly when the bracket's ends are within 31 of the full 32-bit span, upwards. */
  lemma LargeDivisorZero(lo: i32, hi: i32)
    requires Opposed(lo, hi)
    ensures Interpolated(lo, hi).ByZero? <==> FullSpan(lo, hi)
  {
    var diff := lo as int - hi as int;
    if Abs32(lo) >= 65536 {
      if lo > 0 {
        WrapPositive(diff);
      } else {
        WrapNegative(diff);
      }
    }
  }

  lemma WrapPositive(x: int)
    requires 65536 <= x < W32
    ensures I32(x) as int == if x < 0x8000_0000 then x else x - W32
  {}

  lemma WrapNegative(x: int)
    requires -W32 < x <= -65536
    ensures I32(x) as int == if x >= -0x8000_0000 then x else x + W32
  {}

  // ----- the search -----

  /** Where a root was found: at the table's start without looking, or in a bracket of table step k. */
  datatype Site = Edge | Cell(k: nat, b: Bracket)

  function CellOf(s: Site): nat { if s.Edge? then 1 else s.k }

  /** How a search ends, with the coefficients it leaves and where the roots were found. */
  datatype Outcome =
    | Roots(coefs: seq<i32>, freqs: seq<int>, sites: seq<Site>)
    | Even(coefs: seq<i32>)
    | DivideByZero(coefs: seq<i32>, lo: i32, hi: i32)

  /** What the search has so far: roots, and the value it compares with next. */
  datatype Progress = Progress(freqs: seq<int>, sites: seq<Site>, ylo: i32, thr: int)

  /** Q for odd root numbers. */
  function Turn(s: Progress): bool { |s.freqs| % 2 == 1 }

  /** Root number parity picks the polynomial and the sign the search starts from. */
  function StartValue(rootIx: nat): i32 { (1 - rootIx / 2 % 2 * 2) * 4096 }

  predicate Crosses(ylo: i32, yhi: i32, thr: int) { (ylo <= 0 && yhi >= thr) || (ylo >= 0 && yhi <= -thr) }

  function Found(k: nat, frac: int, q: i32): int {
    var f := I32(k * 256 + I32(frac + q as int) as int);
    if f < INT16_MAX then f else INT16_MAX
  }

  /** The root found in cell k. */
  function Next(s: Progress, k: nat, root: int, yhi: i32, b: Bracket): Progress {
    Progress(s.freqs + [root], s.sites + [Cell(k, b)], StartValue(|s.freqs| + 1), if yhi == 0 then 1 else 0)
  }

  /** What one table step finds: no crossing, a root, or a division by zero. */
  datatype Seen = Nothing(yhi: i32) | Root(root: int, yhi: i32, b: Bracket) | Vanished(lo: i32, hi: i32)

  function Look(tab: seq<Cosine>, p: seq<i32>, k: nat, ylo: i32, thr: int): Seen
    requires p != [] && |tab| == TABLE + 1 && 1 <= k <= TABLE
  {
    var yhi := Eval(p, tab[k]);
    if Crosses(ylo, yhi, thr) then
      var b := Halved(p, tab[k - 1], ylo, tab[k], yhi, -256, 0);
      match Interpolated(b.lo, b.hi)
      case ByZero => Vanished(b.lo, b.hi)
      case Some(q) => Root(Found(k, b.frac, q), yhi, b)
    else Nothing(yhi)
  }

  predicate Shape(tab: seq<Cosine>, a: seq<i32>, iter: nat) {
    |tab| == TABLE + 1 && |a| % 2 == 0 && |a| >= 2 && iter <= MAX_ITER
  }

  /** A round starts at the first table point, on Q when P starts negative. */
  function Restart(tab: seq<Cosine>, a: seq<i32>): Progress
    requires Shape(tab, a, 0)
  {
    if Eval(Poly(a, false), tab[0]) < 0 then Progress([0], [Edge], Eval(Poly(a, true), tab[0]), 0)
    else Progress([], [], Eval(Poly(a, false), tab[0]), 0)
  }

  /** First chirp of expansion round iter. */
  function FirstChirp(iter: nat): i32
    requires 1 <= iter <= MAX_ITER
  {
    ONE - Pow2(iter)
  }

  function Pow2(n: nat): (r: nat)
    requires n <= MAX_ITER
    ensures 1 <= r <= ONE
  {
    [1, 2, 4, 8, 16, 32, 64, 128, 256, 512, 1024, 2048, 4096, 8192, 16384, 32768, 65536][n]
  }

  /**
   The search from table step k of a round on: it stops after at most 16 expansions, each of at most 128 steps besides
   its roots.
   */
  function Run(tab: seq<Cosine>, a: seq<i32>, iter: nat, k: nat, s: Progress): (r: Outcome)
    requires Shape(tab, a, iter) && 1 <= k <= TABLE && |s.freqs| < |a|
    ensures r.Roots? ==> |r.freqs| == |a|
    decreases MAX_ITER - iter, |a| - |s.freqs|, TABLE - k
  {
    match Look(tab, Poly(a, Turn(s)), k, s.ylo, s.thr)
    case Vanished(lo, hi) => DivideByZero(a, lo, hi)
    case Root(root, yhi, b) =>
      var s1 := Next(s, k, root, yhi, b);
      if |s1.freqs| == |a| then Roots(a, s1.freqs, s1.sites) else Run(tab, a, iter, k, s1)
    case Nothing(yhi) =>
      if k < TABLE then Run(tab, a, iter, k + 1, s.(ylo := yhi, thr := 0))
      else if iter == MAX_ITER then Even(a)
      else
        var a1 := Chirped(a, FirstChirp(iter + 1));
        Run(tab, a1, iter + 1, 1, Restart(tab, a1))
  }

  /** silkA2NLSF as a function of its input. */
  function Result(a: seq<i32>): Outcome
    requires |a| % 2 == 0 && |a| >= 2
  {
    Run(CosTab(), a, 0, 1, Restart(CosTab(), a))
  }

  // ----- the loop -----

  /** The bisection loop. */
  method Bisect(p: array<i32>, xlo: i32, ylo: i32, xhi: i32, yhi0: i32) returns (b: Bracket)
    requires p.Length > 0
    ensures b == Halved(p[..], xlo, ylo, xhi, yhi0, -256, 0)
  {
    var xloL, xhiL := xlo, xhi;
    var yloL, yhi, ffrac := ylo, yhi0, -256;
    var m := 0;
    hide Eval, Middle;
    while m < BISECTIONS
      invariant 0 <= m <= BISECTIONS
      invariant Halved(p[..], xloL, yloL, xhiL, yhi, ffrac, m) == Halved(p[..], xlo, ylo, xhi, yhi0, -256, 0)
    {
      var xmid := Middle(xloL, xhiL);
      var ymid := EvalPoly(p, xmid);
      if Opposed(yloL, ymid) {
        xhiL, yhi := xmid, ymid;
      } else {
        xloL, yloL, ffrac := xmid, ymid, ffrac + Share(m);
      }
      m := m + 1;
    }
    b := Bracket(yloL, yhi, ffrac, xloL, xhiL);
  }

  /** The start of a round: polynomials anew, a root at zero when P starts negative. */
  method StartRound(aQ16: array<i32>, p: array<i32>, q: array<i32>, nlsf: array<int>)
    returns (useQ: bool, ylo: i32, rootIx: nat)
    requires aQ16.Length % 2 == 0 && aQ16.Length >= 2 && p.Length == q.Length == aQ16.Length / 2 + 1
      && nlsf.Length == aQ16.Length
    requires p != q && p != aQ16 && q != aQ16
    modifies p, q, nlsf
    ensures p[..] == Poly(aQ16[..], false) && q[..] == Poly(aQ16[..], true)
    ensures rootIx <= 1 && useQ == (rootIx == 1)
    ensures Restart(CosTab(), aQ16[..]) == Progress(nlsf[..rootIx], if useQ then [Edge] else [], ylo, 0)
  {
    hide CosTab, Poly, Eval;
    Init(aQ16, p, q);
    useQ, rootIx := false, 0;
    ylo := EvalPoly(p, CosTab()[0]);
    if ylo < 0 {
      nlsf[0] := 0;
      useQ, rootIx := true, 1;
      ylo := EvalPoly(q, CosTab()[0]);
    }
  }

  method LookAt(p: array<i32>, k: nat, ylo: i32, thr: int) returns (l: Seen)
    requires p.Length > 0 && 1 <= k <= TABLE
    ensures l == Look(CosTab(), p[..], k, ylo, thr)
  {
    hide CosTab, Eval, Halved, Interpolated, Found, Crosses;
    var yhi := EvalPoly(p, CosTab()[k]);
    if Crosses(ylo, yhi, thr) {
      var b := Bisect(p, CosTab()[k - 1], ylo, CosTab()[k], yhi);
      var t := Interpolated(b.lo, b.hi);
      if t.ByZero? {
        return Vanished(b.lo, b.hi);
      }
      l := Root(Found(k, b.frac, t.q), yhi, b);
    } else {
      l := Nothing(yhi);
    }
  }

  /** One unfolding of the search. */
  lemma {:induction false} RunStep(tab: seq<Cosine>, a: seq<i32>, iter: nat, k: nat, s: Progress)
    requires Shape(tab, a, iter) && 1 <= k <= TABLE && |s.freqs| < |a|
    ensures Run(tab, a, iter, k, s) ==
      match Look(tab, Poly(a, Turn(s)), k, s.ylo, s.thr)
      case Vanished(lo, hi) => DivideByZero(a, lo, hi)
      case Root(root, yhi, b) =>
        var s1 := Next(s, k, root, yhi, b);
        if |s1.freqs| == |a| then Roots(a, s1.freqs, s1.sites) else Run(tab, a, iter, k, s1)
      case Nothing(yhi) =>
        if k < TABLE then Run(tab, a, iter, k + 1, s.(ylo := yhi, thr := 0))
        else if iter == MAX_ITER then Even(a)
        else Run(tab, Chirped(a, FirstChirp(iter + 1)), iter + 1, 1, Restart(tab, Chirped(a, FirstChirp(iter + 1))))
  {
    hide Poly, Eval, Halved, Interpolated, Found, Chirped, Restart, Crosses;
  }

  /** The next round, on coefficients expanded once more. */
  method ExpandAndStart(aQ16: array<i32>, p: array<i32>, q: array<i32>, nlsf: array<int>, iter: nat)
    returns (useQ: bool, ylo: i32, rootIx: nat)
    requires aQ16.Length % 2 == 0 && aQ16.Length >= 2 && p.Length == q.Length == aQ16.Length / 2 + 1
      && nlsf.Length == aQ16.Length
    requires p != q && p != aQ16 && q != aQ16 && 1 <= iter <= MAX_ITER
    modifies aQ16, p, q, nlsf
    ensures aQ16[..] == Chirped(old(aQ16[..]), FirstChirp(iter))
    ensures p[..] == Poly(aQ16[..], false) && q[..] == Poly(aQ16[..], true)
    ensures rootIx <= 1 && useQ == (rootIx == 1)
    ensures Restart(CosTab(), aQ16[..]) == Progress(nlsf[..rootIx], if useQ then [Edge] else [], ylo, 0)
  {
    hide CosTab, Poly, Eval, Chirped, Restart, FirstChirp;
    Bwexpander(aQ16, FirstChirp(iter));
    useQ, ylo, rootIx := StartRound(aQ16, p, q, nlsf);
  }

  /**
   silkA2NLSF: the outcome is the specified one, and the arrays hold it; a division by zero stops it at the bracket
   given.
   */
  method SilkA2Nlsf(nlsf: array<int>, aQ16: array<i32>) returns (r: Outcome)
    requires aQ16.Length % 2 == 0 && aQ16.Length >= 2 && nlsf.Length == aQ16.Length
    modifies nlsf, aQ16
    ensures r == Result(old(aQ16[..])) && aQ16[..] == r.coefs
    ensures r.Roots? ==> nlsf[..] == r.freqs
    ensures r.Even? ==> forall i :: 0 <= i < nlsf.Length ==> nlsf[i] == EvenEntry(nlsf.Length, i)
  {
    hide CosTab, Poly, Eval, Chirped, Restart, StartValue, FirstChirp, Look, Run;
    var d := aQ16.Length;
    ghost var a0 := aQ16[..];
    var p, q := new i32[d / 2 + 1], new i32[d / 2 + 1];
    var iter, k, thr := 0, 1, 0;
    var useQ, ylo, rootIx := StartRound(aQ16, p, q, nlsf);
    var sites: seq<Site> := if useQ then [Edge] else [];
    while true
      invariant 0 <= iter <= MAX_ITER && 1 <= k <= TABLE && 0 <= rootIx < d == nlsf.Length == aQ16.Length
        && useQ == (rootIx % 2 == 1)
      invariant p.Length == q.Length == d / 2 + 1
      invariant p[..] == Poly(aQ16[..], false) && q[..] == Poly(aQ16[..], true)
      invariant Run(CosTab(), aQ16[..], iter, k, Progress(nlsf[..rootIx], sites, ylo, thr)) == Result(a0)
      decreases MAX_ITER - iter, d - rootIx, TABLE - k
    {
      ghost var s := Progress(nlsf[..rootIx], sites, ylo, thr);
      RunStep(CosTab(), aQ16[..], iter, k, s);
      var l := LookAt(if useQ then q else p, k, ylo, thr);
      match l
      case Vanished(lo, hi) =>
        return DivideByZero(aQ16[..], lo, hi);
      case Root(root, yhi, b) =>
        nlsf[rootIx] := root;
        sites := sites + [Cell(k, b)];
        rootIx := rootIx + 1;
        assert nlsf[..rootIx] == s.freqs + [root];
        if rootIx >= d {
          assert nlsf[..rootIx] == nlsf[..];
          return Roots(aQ16[..], nlsf[..], sites);
        }
        thr := if yhi == 0 then 1 else 0;
        useQ := rootIx % 2 == 1;
        ylo := StartValue(rootIx);
      case Nothing(yhi) =>
        if k < TABLE {
          k, ylo, thr := k + 1, yhi, 0;
        } else if iter == MAX_ITER {
          FillEven(nlsf);
          return Even(aQ16[..]);
        } else {
          iter := iter + 1;
          useQ, ylo, rootIx := ExpandAndStart(aQ16, p, q, nlsf, iter);
          k, thr := 1, 0;
          sites := if useQ then [Edge] else [];
        }
    }
  }

  /** Evenly spaced frequencies, used when no expansion brings all roots on the circle. */
  function EvenEntry(d: nat, i: nat): int { (i + 1) * (32768 / (d + 1)) }

  method FillEven(nlsf: array<int>)
    requires nlsf.Length >= 1
    modifies nlsf
    ensures forall i :: 0 <= i < nlsf.Length ==> nlsf[i] == EvenEntry(nlsf.Length, i)
  {
    var d := nlsf.Length;
    var unit := 32768 / (d + 1);
    nlsf[0] := unit;
    for kk := 1 to d
      invariant nlsf[0] == unit && forall i :: 0 <= i < kk ==> nlsf[i] == EvenEntry(d, i)
    {
      NextEven(kk, unit);
      nlsf[kk] := nlsf[kk - 1] + nlsf[0];
    }
  }

  lemma NextEven(k: nat, unit: nat)
    ensures (k + 1) * unit == k * unit + unit
  {}

  // ----- what bounded coefficients guarantee -----

  lemma MiddleBetween(a: i32, b: i32)
    requires Mag(a) <= X_MAX && Mag(b) <= X_MAX
    ensures Mag(Middle(a, b)) <= X_MAX
  {}

  /**
   Three bisections keep the ends on two sides and within any bound on the values, and the fraction below the cell's
   end.
   */
  lemma {:induction false} HalvedBracket(a: seq<i32>, odd: bool, xl: i32, yl: i32, xh: i32, yh: i32, frac: int, m: nat,
                                         bound: nat)
    requires |a| % 2 == 0 && m <= BISECTIONS && Mag(xl) <= X_MAX && Mag(xh) <= X_MAX
    requires Opposed(yl, yh) && Mag(yl) <= bound && Mag(yh) <= bound && ValueBound(a) <= bound
    ensures var b := Halved(Poly(a, odd), xl, yl, xh, yh, frac, m);
      && Opposed(b.lo, b.hi) && Mag(b.lo) <= bound && Mag(b.hi) <= bound
      && frac <= b.frac <= frac + (if m == 0 then 224 else if m == 1 then 96 else if m == 2 then 32 else 0)
    decreases BISECTIONS - m
  {
    hide Poly, Eval, ValueBound, Middle;
    if m < BISECTIONS {
      var xm := Middle(xl, xh);
      MiddleBetween(xl, xh);
      ValuesBounded(a, odd, xm);
      var ym := Eval(Poly(a, odd), xm);
      if Opposed(yl, ym) {
        HalvedBracket(a, odd, xl, yl, xm, ym, frac, m + 1, bound);
      } else {
        HalvedBracket(a, odd, xm, ym, xh, yh, frac + Share(m), m + 1, bound);
      }
    }
  }

  lemma QuotientUpTo(x: nat, y: nat, n: nat)
    requires y > 0 && x < (n + 1) * y
    ensures 0 <= x / y <= n
  {
    assert (n + 1) * y == y * (n + 1) && y * (x / y) <= x;
    if x / y > n { CdfTables.MulMono(y, n + 1, x / y); }
  }

  /**
   Within a quarter of the 32-bit span the quotient is a share of the cell, one too many only for the bracket from -1 to
   0.
   */
  lemma InterpolatedShare(lo: i32, hi: i32)
    requires Opposed(lo, hi) && Mag(lo) < CELL_BOUND && Mag(hi) < CELL_BOUND
    ensures var r := Interpolated(lo, hi); r.Some? && 0 <= r.q <= 33 && (r.q == 33 <==> lo == -1 && hi == 0)
  {
    if Mag(lo) < 65536 { SmallShare(lo, hi); } else { LargeShare(lo, hi); }
  }

  lemma SmallShare(lo: i32, hi: i32)
    requires Opposed(lo, hi) && Mag(lo) < 65536 && Mag(hi) < CELL_BOUND
    ensures var r := Interpolated(lo, hi); r.Some? && 0 <= r.q <= 33 && (r.q == 33 <==> lo == -1 && hi == 0)
  {
    var diff := lo as int - hi as int;
    var nom := lo as int * 32 + diff / 2;
    SmallIs(lo, hi);
    if diff != 0 {
      TruncSameSign(nom, diff);
      SmallQuotient(lo as int, hi as int);
      hide Interpolated, Trunc, Mag;
      var q := Mag(nom) / Mag(diff);
      assert I32(q) == q;
    }
  }

  /** The quotient of the plain numbers, rounded. */
  lemma SmallQuotient(lo: int, hi: int)
    requires Opposed(lo, hi) && lo != hi
    ensures var diff := lo - hi; 0 <= Mag(lo * 32 + diff / 2) / Mag(diff) <= 33
    ensures var diff := lo - hi; Mag(lo * 32 + diff / 2) / Mag(diff) == 33 <==> lo == -1 && hi == 0
  {
    var diff := lo - hi;
    if diff == -1 {
      assert diff / 2 == -1;
    } else {
      QuotientUpTo(Mag(lo * 32 + diff / 2), Mag(diff), 32);
    }
  }

  lemma TruncSameSign(a: int, b: int)
    requires (a >= 0 && b > 0) || (a <= 0 && b < 0)
    ensures Trunc(a, b) == Mag(a) / Mag(b)
  {}

  /** With no wrap in reach, the quotient is that of the plain numbers. */
  lemma SmallIs(lo: i32, hi: i32)
    requires Opposed(lo, hi) && Mag(lo) < 65536 && Mag(hi) < CELL_BOUND
    ensures var diff := lo as int - hi as int; var nom := lo as int * 32 + diff / 2;
      Interpolated(lo, hi).Some?
        && Interpolated(lo, hi).q as int == if diff == 0 then 0 else I32(Trunc(nom, diff)) as int
  {
    hide Trunc;
  }

  lemma LargeShare(lo: i32, hi: i32)
    requires Opposed(lo, hi) && 65536 <= Mag(lo) < CELL_BOUND && Mag(hi) < CELL_BOUND
    ensures var r := Interpolated(lo, hi); r.Some? && 0 <= r.q <= 32
  {
    var den := (lo as int - hi as int) / 32;
    QuotientUpTo(Mag(lo), Mag(den), 32);
  }

  /** What the search keeps: a value within the bound, and roots that lie in their cells, cell after cell. */
  predicate Kept(s: Progress, k: nat, bound: nat) {
    0 <= s.thr <= 1 && Mag(s.ylo) <= bound
      && (bound < CELL_BOUND ==> InCells(s.freqs, s.sites) && (s.sites != [] ==> CellOf(s.sites[|s.sites| - 1]) <= k))
  }

  /** A root's frequency lies in the eighth of its cell that its bracket spans, or one past it. */
  predicate InEighth(freq: int, s: Site) {
    match s
    case Edge => freq == 0
    case Cell(k, b) =>
      1 <= k <= TABLE && -256 <= b.frac <= -32 && 256 * k + b.frac <= freq <= 256 * k + b.frac + 33
  }

  /** Root i lies between 256 (c - 1) and 256 c, or one past it, for its table step c; the steps never decrease. */
  predicate InCells(freqs: seq<int>, sites: seq<Site>) {
    && |freqs| == |sites|
    && (forall i :: 0 <= i < |freqs| ==> InEighth(freqs[i], sites[i]))
    && (forall i :: 0 <= i < |freqs| ==>
      1 <= CellOf(sites[i]) <= TABLE && 256 * (CellOf(sites[i]) - 1) <= freqs[i] <= 256 * CellOf(sites[i]) + 1)
    && (forall i, j :: 0 <= i < j < |sites| ==> CellOf(sites[i]) <= CellOf(sites[j]))
  }

  lemma FoundInCell(k: nat, frac: int, q: i32)
    requires 1 <= k <= TABLE && -256 <= frac <= -32 && 0 <= q <= 33
    ensures 256 * k + frac <= Found(k, frac, q) <= 256 * k + frac + 33 && Found(k, frac, q) <= INT16_MAX
  {}

  lemma RestartKept(tab: seq<Cosine>, a: seq<i32>, bound: nat)
    requires Shape(tab, a, 0) && ValueBound(a) <= bound
    ensures Kept(Restart(tab, a), 1, bound) && |Restart(tab, a).freqs| < |a|
  {
    hide Poly, Eval, ValueBound;
    ValuesBounded(a, false, tab[0]);
    ValuesBounded(a, true, tab[0]);
  }

  ghost predicate Good(r: Outcome, bound: nat) {
    && (r.DivideByZero? ==> bound > NO_ZERO_BOUND && FullSpan(r.lo, r.hi))
    && (bound < CELL_BOUND && r.Roots? ==> InCells(r.freqs, r.sites))
  }

  lemma NextKept(s: Progress, k: nat, b: Bracket, q: i32, yhi: i32, bound: nat)
    requires 1 <= k <= TABLE && -256 <= b.frac <= -32 && bound >= 4096 && (bound < CELL_BOUND ==> 0 <= q <= 33)
      && Kept(s, k, bound)
    ensures Kept(Next(s, k, Found(k, b.frac, q), yhi, b), k, bound)
  {
    if bound < CELL_BOUND { FoundInCell(k, b.frac, q); }
    hide Found;
  }

  lemma {:induction false} RunGood(tab: seq<Cosine>, a: seq<i32>, iter: nat, k: nat, s: Progress, bound: nat)
    requires Shape(tab, a, iter) && 1 <= k <= TABLE && |s.freqs| < |a|
    requires ValueBound(a) <= bound && bound >= 4096 && Kept(s, k, bound)
    ensures Good(Run(tab, a, iter, k, s), bound)
    decreases MAX_ITER - iter, |a| - |s.freqs|, TABLE - k
  {
    hide Poly, Look, ValueBound, Chirped, InCells, FirstChirp, Kept, Next, Restart;
    LookGood(tab, a, k, s, bound);
    match Look(tab, Poly(a, Turn(s)), k, s.ylo, s.thr)
    case Vanished(lo, hi) =>
    case Root(root, yhi, b) =>
      var s1 := Next(s, k, root, yhi, b);
      NextIs(s, k, root, yhi, b, bound);
      if |s1.freqs| < |a| { RunGood(tab, a, iter, k, s1, bound); }
    case Nothing(yhi) =>
      if k < TABLE {
        RunGood(tab, a, iter, k + 1, s.(ylo := yhi, thr := 0), bound);
      } else if iter < MAX_ITER {
        var a1 := Chirped(a, FirstChirp(iter + 1));
        FirstChirpRange(iter + 1);
        BoundKept(a, FirstChirp(iter + 1));
        RestartKept(tab, a1, bound);
        RunGood(tab, a1, iter + 1, 1, Restart(tab, a1), bound);
      }
  }

  lemma NextIs(s: Progress, k: nat, root: int, yhi: i32, b: Bracket, bound: nat)
    requires Kept(Next(s, k, root, yhi, b), k, bound)
    ensures var s1 := Next(s, k, root, yhi, b);
      |s1.freqs| == |s.freqs| + 1 && (bound < CELL_BOUND ==> InCells(s1.freqs, s1.sites))
  {}

  /** One table step with values within the bound. */
  lemma LookGood(tab: seq<Cosine>, a: seq<i32>, k: nat, s: Progress, bound: nat)
    requires Shape(tab, a, 0) && 1 <= k <= TABLE && ValueBound(a) <= bound && bound >= 4096 && Kept(s, k, bound)
    ensures match Look(tab, Poly(a, Turn(s)), k, s.ylo, s.thr)
      case Vanished(lo, hi) => bound > NO_ZERO_BOUND && FullSpan(lo, hi)
      case Root(root, yhi, b) => Kept(Next(s, k, root, yhi, b), k, bound)
      case Nothing(yhi) => k < TABLE ==> Kept(s.(ylo := yhi, thr := 0), k + 1, bound)
  {
    hide Poly, Eval, ValueBound, Halved, Interpolated, Found, InCells;
    var p := Poly(a, Turn(s));
    var yhi := Eval(p, tab[k]);
    ValuesBounded(a, Turn(s), tab[k]);
    if Crosses(s.ylo, yhi, s.thr) {
      var b := Halved(p, tab[k - 1], s.ylo, tab[k], yhi, -256, 0);
      HalvedBracket(a, Turn(s), tab[k - 1], s.ylo, tab[k], yhi, -256, 0, bound);
      LargeDivisorZero(b.lo, b.hi);
      if bound < CELL_BOUND { InterpolatedShare(b.lo, b.hi); }
      match Interpolated(b.lo, b.hi)
      case ByZero =>
      case Some(q) =>
        NextKept(s, k, b, q, yhi, bound);
    }
  }

  lemma FirstChirpRange(iter: nat)
    requires 1 <= iter <= MAX_ITER
    ensures 0 <= FirstChirp(iter) <= ONE
  {}

  /**
   For every input, by its coefficients alone: no division by zero when the growth of their sum stays within the bound,
   and
   when it stays within a quarter of the 32-bit span every root lies in its cell of the table, cell after cell.
   A division by zero can only come from a bracket that nearly spans 32 bits.
   */
  lemma SearchIsSafe(a: seq<i32>)
    requires |a| % 2 == 0 && |a| >= 2
    ensures Result(a).DivideByZero? ==> ValueBound(a) > NO_ZERO_BOUND && FullSpan(Result(a).lo, Result(a).hi)
    ensures Result(a).Roots? ==> |Result(a).freqs| == |a|
    ensures Result(a).Roots? && ValueBound(a) < CELL_BOUND ==> InCells(Result(a).freqs, Result(a).sites)
  {
    hide Run, Poly, Eval, Restart, CosTab, InCells;
    BoundAtLeastOne(a);
    RestartKept(CosTab(), a, ValueBound(a));
    RunGood(CosTab(), a, 0, 1, Restart(CosTab(), a), ValueBound(a));
  }

  lemma BoundAtLeastOne(a: seq<i32>)
    ensures ValueBound(a) >= ONE
  {
    CdfTables.MulMono(ONE + SumAbs(a), 1, Growth(|a| / 2));
  }

  /**
   At the order the program uses a bound on the sum of the sixteen magnitudes is enough: 15.64 in whole units, or 7.32
   for the cells.
   */
  lemma SafeAtOrder16(a: seq<i32>)
    requires |a| == 16
    ensures SumAbs(a) <= 1025110 ==> !Result(a).DivideByZero?
    ensures SumAbs(a) <= 479787 && Result(a).Roots? ==> InCells(Result(a).freqs, Result(a).sites)
  {
    hide Result, InCells;
    GrowthAt8();
    SearchIsSafe(a);
  }

  // ----- an input that divides by zero -----

  /** Coefficients of order 16 for which Q falls through the 32-bit wrap in the first cell. */
  function Wrapping(): (a: seq<i32>)
    ensures |a| == 16
  {
    [0, 0, 0, 0, 0, 0, 2092032, 1604402175] + [-530660351, -2092032, 0, 0, 0, 0, 0, -65536]
  }

  /** Both raw polynomials of an order-16 filter from its two halves. */
  lemma RawOfHalves(lower: seq<i32>, upper: seq<i32>, odd: bool, raw: seq<i32>)
    requires |lower| == |upper| == 8 && |raw| == 9 && raw[8] == ONE
    requires forall k :: 0 <= k < 8 ==> raw[k] == Pair(lower[7 - k], upper[k], odd)
    ensures Raw(lower + upper, odd) == raw
  {
    RawIs(lower + upper, odd);
  }

  lemma {:induction false} FoldUnique(p: seq<i32>, f: seq<i32>, k: nat, m: nat)
    requires 2 <= k < |p| == |f| && m < |p|
    requires forall i :: 0 <= i < |p| ==>
      f[i] == if k - 1 <= i && i + 2 < |p| then I32(p[i] as int - f[i + 2] as int) else p[i]
    ensures Fold(p, k, |p| - 1)[m] == f[m]
    decreases |p| - m
  {
    hide Fold;
    FoldEntry(p, k, |p| - 1, m);
    var r := Fold(p, k, |p| - 1);
    if m + 2 < |p| {
      FoldUnique(p, f, k, m + 2);
      assert r[m + 2] == f[m + 2];
      if k - 1 <= m { assert f[m] == I32(p[m] as int - f[m + 2] as int) && r[m] == I32(p[m] as int - r[m + 2] as int); }
    }
    assert r[m] == f[m];
  }

  lemma StepIs(p: seq<i32>, k: nat, f: seq<i32>, r: i32)
    requires 2 <= k < |p| == |f|
    requires forall i :: 0 <= i < |p| ==>
      f[i] == if k - 1 <= i && i + 2 < |p| then I32(p[i] as int - f[i + 2] as int) else p[i]
    requires r == I32(f[k - 2] as int - I32(f[k] as int * 2) as int)
    ensures TransStep(p, k) == f[k - 2 := r]
  {
    forall m | 0 <= m < |p| ensures Fold(p, k, |p| - 1)[m] == f[m] { FoldUnique(p, f, k, m); }
    assert Fold(p, k, |p| - 1) == f;
    hide Fold, I32;
  }

  /** An even polynomial of order eight with two free low coefficients. */
  function Eighth(w: i32, v: i32, c2: i32, c4: i32, c6: i32): (p: seq<i32>)
    ensures |p| == 9
  {
    [w, v, c2, 0, c4, 0, c6, 0, ONE]
  }

  lemma EighthStep2(w: i32, v: i32)
    ensures TransStep(Eighth(w, v, 0, 0, 0), 2) == Eighth(I32(w as int + 131072), v, -65536, 65536, -65536)
  {
    StepIs(Eighth(w, v, 0, 0, 0), 2, Eighth(w, v, -65536, 65536, -65536), I32(w as int + 131072));
  }

  lemma EighthStep3(w: i32, v: i32)
    ensures TransStep(Eighth(w, v, -65536, 65536, -65536), 3) == Eighth(w, v, -262144, 196608, -131072)
  {
    StepIs(Eighth(w, v, -65536, 65536, -65536), 3, Eighth(w, v, -262144, 196608, -131072), v);
  }

  lemma EighthStep4(w: i32, v: i32)
    ensures TransStep(Eighth(w, v, -262144, 196608, -131072), 4) == Eighth(w, v, -1048576, 393216, -196608)
  {
    StepIs(Eighth(w, v, -262144, 196608, -131072), 4, Eighth(w, v, -262144, 393216, -196608), -1048576);
  }

  lemma EighthStep5(w: i32, v: i32)
    ensures TransStep(Eighth(w, v, -1048576, 393216, -196608), 5) == Eighth(w, v, -1048576, 655360, -262144)
  {
    StepIs(Eighth(w, v, -1048576, 393216, -196608), 5, Eighth(w, v, -1048576, 655360, -262144), 0);
  }

  lemma EighthStep6(w: i32, v: i32)
    ensures TransStep(Eighth(w, v, -1048576, 655360, -262144), 6) == Eighth(w, v, -1048576, 1310720, -327680)
  {
    StepIs(Eighth(w, v, -1048576, 655360, -262144), 6, Eighth(w, v, -1048576, 655360, -327680), 1310720);
  }

  lemma EighthStep7(w: i32, v: i32)
    ensures TransStep(Eighth(w, v, -1048576, 1310720, -327680), 7) == Eighth(w, v, -1048576, 1310720, -393216)
  {
    StepIs(Eighth(w, v, -1048576, 1310720, -327680), 7, Eighth(w, v, -1048576, 1310720, -393216), 0);
  }

  lemma EighthStep8(w: i32, v: i32)
    ensures TransStep(Eighth(w, v, -1048576, 1310720, -393216), 8) == Eighth(w, v, -1048576, 1310720, -524288)
  {
    StepIs(Eighth(w, v, -1048576, 1310720, -393216), 8, Eighth(w, v, -1048576, 1310720, -393216), -524288);
  }

  /** The eighth multiple of the angle as a polynomial, with two free low coefficients. */
  lemma EighthTransformed(w: i32, v: i32)
    ensures Trans(Eighth(w, v, 0, 0, 0), 2) == Eighth(I32(w as int + 131072), v, -1048576, 1310720, -524288)
  {
    hide TransStep, Eighth;
    var u := I32(w as int + 131072);
    EighthStep2(w, v);
    EighthStep3(u, v);
    EighthStep4(u, v);
    EighthStep5(u, v);
    EighthStep6(u, v);
    EighthStep7(u, v);
    EighthStep8(u, v);
    assert Trans(Eighth(w, v, 0, 0, 0), 2) == Trans(Eighth(u, v, -65536, 65536, -65536), 3);
    assert Trans(Eighth(u, v, -65536, 65536, -65536), 3) == Trans(Eighth(u, v, -262144, 196608, -131072), 4);
    assert Trans(Eighth(u, v, -262144, 196608, -131072), 4) == Trans(Eighth(u, v, -1048576, 393216, -196608), 5);
    assert Trans(Eighth(u, v, -1048576, 393216, -196608), 5) == Trans(Eighth(u, v, -1048576, 655360, -262144), 6);
    assert Trans(Eighth(u, v, -1048576, 655360, -262144), 6) == Trans(Eighth(u, v, -1048576, 1310720, -327680), 7);
    assert Trans(Eighth(u, v, -1048576, 1310720, -327680), 7) == Trans(Eighth(u, v, -1048576, 1310720, -393216), 8);
    assert Trans(Eighth(u, v, -1048576, 1310720, -393216), 8) == Trans(Eighth(u, v, -1048576, 1310720, -524288), 9);
  }

  lemma {:induction false} Unwound(p: seq<i32>, odd: bool, c: seq<i32>, i: nat)
    requires |p| == |c| && i < |p| && c[|p| - 1] == p[|p| - 1]
    requires forall j :: 0 <= j < |p| - 1 ==>
      c[j] == I32(if odd then p[j] as int + c[j + 1] as int else p[j] as int - c[j + 1] as int)
    ensures forall j :: i <= j < |p| ==> Divided(p, odd, |p| - 1)[j] == c[j]
    decreases |p| - i
  {
    hide Divided;
    DividedBack(p, odd, |p| - 1, i);
    if i < |p| - 1 {
      Unwound(p, odd, c, i + 1);
      var d := Divided(p, odd, |p| - 1);
      assert d[i + 1] == c[i + 1] && d[i] == c[i];
    }
  }

  function RawEven(): (r: seq<i32>)
    ensures |r| == 9 && r[8] == ONE
  {
    [-1073741824, 0, 0, 0, 0, 0, 0, 65536, 65536]
  }

  function RawOdd(): (r: seq<i32>)
    ensures |r| == 9 && r[8] == ONE
  {
    [-2135062526, -4184064, 0, 0, 0, 0, 0, -65536, 65536]
  }

  lemma RawP()
    ensures Raw(Wrapping(), false) == RawEven()
  {
    RawOfHalves([0, 0, 0, 0, 0, 0, 2092032, 1604402175], [-530660351, -2092032, 0, 0, 0, 0, 0, -65536],
      false, RawEven());
  }

  lemma DividedP()
    ensures Divided(RawEven(), false, 8) == Eighth(-1073741824, 0, 0, 0, 0)
  {
    Unwound(RawEven(), false, Eighth(-1073741824, 0, 0, 0, 0), 0);
  }

  lemma WrappingP()
    ensures Poly(Wrapping(), false) == Eighth(-1073610752, 0, -1048576, 1310720, -524288)
  {
    hide Raw, Divided, Trans, Eighth;
    RawP();
    DividedP();
    EighthTransformed(-1073741824, 0);
  }

  lemma RawQ()
    ensures Raw(Wrapping(), true) == RawOdd()
  {
    RawOfHalves([0, 0, 0, 0, 0, 0, 2092032, 1604402175], [-530660351, -2092032, 0, 0, 0, 0, 0, -65536], true, RawOdd());
  }

  lemma DividedQ()
    ensures Divided(RawOdd(), true, 8) == Eighth(-2139246590, -4184064, 0, 0, 0)
  {
    Unwound(RawOdd(), true, Eighth(-2139246590, -4184064, 0, 0, 0), 0);
  }

  lemma WrappingQ()
    ensures Poly(Wrapping(), true) == Eighth(-2139115518, -4184064, -1048576, 1310720, -524288)
  {
    hide Raw, Divided, Trans, Eighth;
    RawQ();
    DividedQ();
    EighthTransformed(-2139246590, -4184064);
  }

  /** Horner's chain on such a polynomial, one coefficient after another. */
  lemma EighthValue(w: i32, v: i32, x: i32, y: seq<i32>)
    requires Mag(x) <= X_MAX && |y| == 9
    requires var p := Eighth(w, v, -1048576, 1310720, -524288);
      y[8] == ONE && forall n :: 0 <= n < 8 ==> y[n] == Smlaww(p[n], y[n + 1], x as int * 16)
    ensures Eval(Eighth(w, v, -1048576, 1310720, -524288), x) == y[0]
  {
    HornerUnique(Eighth(w, v, -1048576, 1310720, -524288), x as int * 16, y, 0);
  }

  lemma {:induction false} HornerUnique(p: seq<i32>, x16: i32, y: seq<i32>, n: nat)
    requires n < |p| == |y| && y[|p| - 1] == p[|p| - 1]
      && forall i :: 0 <= i < |p| - 1 ==> y[i] == Smlaww(p[i], y[i + 1], x16)
    ensures Horner(p, x16, n) == y[n]
    decreases |p| - n
  {
    if n < |p| - 1 { HornerUnique(p, x16, y, n + 1); }
  }

  lemma ValueP()
    ensures Eval(Eighth(-1073610752, 0, -1048576, 1310720, -524288), 8192) == -1073610752
  {
    EighthValue(-1073610752, 0, 8192, [-1073610752, 0, 0, 524288, 262144, -524288, -262144, 131072, 65536]);
  }

  lemma ValueQ0()
    ensures Eval(Eighth(-2139115518, -4184064, -1048576, 1310720, -524288), 8192) == -2147483646
  {
    EighthValue(-2139115518, -4184064, 8192, [-2147483646, -4184064, 0, 524288, 262144,
      -524288, -262144, 131072, 65536]);
  }

  lemma ValueQ1()
    ensures Eval(Eighth(-2139115518, -4184064, -1048576, 1310720, -524288), 8190) == 2147483645
  {
    EighthValue(-2139115518, -4184064, 8190, [2147483645, -4185088, -512, 524160, 262144,
      -524416, -262272, 131040, 65536]);
  }

  lemma ValueQHalf()
    ensures Eval(Eighth(-2139115518, -4184064, -1048576, 1310720, -524288), 8191) == 2147483647
  {
    EighthValue(-2139115518, -4184064, 8191, [2147483647, -4184576, -256, 524224, 262144,
      -524352, -262208, 131056, 65536]);
  }

  /**
   On this input the search divides by zero in the first cell: P starts negative, and Q's bracket spans the whole of 32
   bits.
   */
  lemma DividesByZero()
    ensures Result(Wrapping()) == DivideByZero(Wrapping(), -2147483646, 2147483647)
  {
    hide CosTab, Poly, Eval, Eighth;
    var a, tab := Wrapping(), CosTab();
    FirstSteps();
    WrappingP();
    WrappingQ();
    ValueP();
    ValueQ0();
    ValueQ1();
    ValueQHalf();
    var s := Progress([0], [Edge], -2147483646, 0);
    assert Restart(tab, a) == s;
    RunStep(tab, a, 0, 1, s);
    FirstCell(Poly(a, true));
  }

  lemma FirstCell(p: seq<i32>)
    requires p != [] && Eval(p, 8192) == -2147483646 && Eval(p, 8190) == 2147483645 && Eval(p, 8191) == 2147483647
    ensures Look(CosTab(), p, 1, -2147483646, 0) == Vanished(-2147483646, 2147483647)
  {
    hide CosTab, Eval, Halved, Interpolated;
    FirstSteps();
    FirstBracket(p);
    NoDivisor();
  }

  lemma NoDivisor()
    ensures Interpolated(-2147483646, 2147483647).ByZero?
  {
    LargeDivisorZero(-2147483646, 2147483647);
  }

  lemma FirstBracket(p: seq<i32>)
    requires p != [] && Eval(p, 8192) == -2147483646 && Eval(p, 8191) == 2147483647
    ensures Halved(p, 8192, -2147483646, 8190, 2147483645, -256, 0)
         == Bracket(-2147483646, 2147483647, -160, 8192, 8191)
  {
    hide Eval, Middle, Halved;
    FirstMiddles();
    HalvedStep(p, 8192, -2147483646, 8190, 2147483645, -256, 0);
    HalvedStep(p, 8192, -2147483646, 8191, 2147483647, -256, 1);
    HalvedStep(p, 8192, -2147483646, 8191, 2147483647, -192, 2);
  }

  lemma FirstMiddles()
    ensures Middle(8192, 8190) == 8191 && Middle(8192, 8191) == 8192
  {}

  lemma HalvedStep(p: seq<i32>, xl: i32, yl: i32, xh: i32, yh: i32, frac: int, m: nat)
    requires p != [] && m < BISECTIONS
    ensures var xm := Middle(xl, xh); var ym := Eval(p, xm);
      var b := if Opposed(yl, ym) then Halved(p, xl, yl, xm, ym, frac, m + 1)
        else Halved(p, xm, ym, xh, yh, frac + Share(m), m + 1);
      && Halved(p, xl, yl, xh, yh, frac, m) == b
      && (m == 2 ==> b == if Opposed(yl, ym) then Bracket(yl, ym, frac, xl, xm)
        else Bracket(ym, yh, frac + Share(m), xm, xh))
  {
    hide Eval, Middle;
  }
}
