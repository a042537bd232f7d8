/** The run-length pulse tables, computed in SILK fixed point with every step inside its machine width. */
module PulseTables {
  import opened Bytes
  import opened RangeSpec
  import opened Symbols
  import opened CdfTables

  const ONE_Q31 := 0x8000_0000
  const MAX_PULSES_PER_SF := 40
  const P_CAP := 2147376274

  function Low16Signed(x: int): int {
    if x % 0x1_0000 < 0x8000 then x % 0x1_0000 else x % 0x1_0000 - 0x1_0000
  }

  function Smulbb(a: int, b: int): int { Low16Signed(a) * Low16Signed(b) }

  function Smlawb(a: int, b: int, c: int): int { a + b * Low16Signed(c) / 0x1_0000 }

  /** Leading zeros, and the seven bits that follow the leading one. */
  function ClzFrac(x: nat): (r: (int, int))
    requires x < 0x1_0000_0000
    ensures 0 <= r.0 <= 32 && 0 <= r.1 < 128
    ensures x > 0 ==> r.0 <= 31
    ensures x < 0x8000_0000 ==> 1 <= r.0
  {
    var bits := Ilog(x);
    IlogAtMost(x, 32);
    if x < 0x8000_0000 then
      IlogAtMost(x, 31);
      (32 - bits, Fraction(x, bits))
    else (32 - bits, Fraction(x, bits))
  }

  function Fraction(x: nat, bits: nat): (f: int)
    ensures 0 <= f < 128
  {
    if bits >= 8 then x / Pow2(bits - 8) % 128 else x * Pow2(8 - bits) % 128
  }

  lemma IlogAtMost(x: nat, n: nat)
    requires n == 31 || n == 32
    requires x < if n == 31 then 0x8000_0000 else 0x1_0000_0000
    ensures Ilog(x) <= n
  {
    Pow2Values();
    assert Pow2(32) == 2 * Pow2(31);
    if Ilog(x) > n { IlogTooBig(x, n); }
  }

  lemma IlogTooBig(x: nat, n: nat)
    requires Ilog(x) > n
    ensures x >= Pow2(n)
  {
    Pow2Grows(n, Ilog(x) - 1);
  }

  lemma FracBound(f: int)
    requires 0 <= f < 128
    ensures 0 <= f * (128 - f) <= 4096
  {
    assert f * (128 - f) == 4096 - (f - 64) * (f - 64);
    assert (f - 64) * (f - 64) >= 0;
    assert f * (128 - f) >= 0;
  }

  lemma CurveBound(f: int)
    requires 0 <= f < 128
    ensures 0 <= Smlawb(f, f * (128 - f), 179) <= 138
  {
    FracBound(f);
    var p := f * (128 - f);
    assert Low16Signed(179) == 179;
    assert 0 <= p * 179 / 0x1_0000 <= 11;
  }

  /** 128 * log2, piecewise parabolic. */
  function Lin2log(x: nat): (r: int)
    requires 0 < x < 0x8000_0000
    ensures 0 <= r <= 30 * 128 + 138
  {
    var (lz, frac) := ClzFrac(x);
    CurveBound(frac);
    Smlawb(frac, frac * (128 - frac), 179) + (31 - lz) * 128
  }

  /** The fractional multiplier of Log2lin stays between 0 and its own fraction. */
  lemma InnerBound(f: int)
    requires 0 <= f < 128
    ensures 0 <= Inner(f) <= f
  {
    InnerIs(f);
    FracBound(f);
    hide *;
    var p := f * (128 - f);
    assert p <= 128 * f;
  }

  lemma InnerIs(f: nat)
    requires f < 128
    ensures Inner(f) == f + -174 * (f * (128 - f)) / 0x1_0000
  {
    FracBound(f);
    assert Low16Signed(f) == f && Low16Signed(128 - f) == 128 - f;
    var p := f * (128 - f);
    assert Smulbb(f, 128 - f) == p;
    assert Low16Signed(-174) == -174;
    assert -174 * p == p * -174;
  }

  /** 2^(x/128), never zero for non-negative input and never past the largest 32-bit value. */
  function Log2lin(x: int): (r: int)
    ensures 0 <= r < 0x8000_0000
    ensures x >= 0 ==> r >= 1
  {
    if x < 0 then 0
    else if x >= 3967 then 0x7fff_ffff
    else
      OutBound(x / 128);
      InnerBound(x % 128);
      Grown(Pow2(x / 128), Inner(x % 128), x < 2048)
  }

  /** A power of two enlarged by its fractional part, multiplied first where that fits. */
  function Grown(out: nat, inner: int, first: bool): (r: int)
    requires 1 <= out <= 0x4000_0000 && 0 <= inner < 128
    ensures out <= r < 2 * out
  {
    ScaledBound(out, inner);
    if first then out + out * inner / 128 else out + out / 128 * inner
  }

  function Inner(frac: int): int { Smlawb(frac, Smulbb(frac, 128 - frac), -174) }

  lemma OutBound(k: nat)
    requires k <= 30
    ensures 1 <= Pow2(k) <= 0x4000_0000
  {
    Pow2Grows(k, 30);
    Pow2Values();
    assert Pow2(31) == 2 * Pow2(30);
  }

  lemma ScaledBound(out: nat, inner: int)
    requires 0 <= inner < 128 && out > 0
    ensures 0 <= out * inner / 128 < out
    ensures 0 <= out / 128 * inner < out
  {
    MulMono(out, inner, 127);
    MulMono(out / 128, inner, 127);
    BelowWhole(out * inner, out);
  }

  lemma BelowWhole(x: nat, out: nat)
    requires x <= out * 127 && out > 0
    ensures x / 128 < out
  {}

  const SLOPE := [237, 153, 73, 30, 12, 7]
  const POS := [16384, 23955, 28861, 31213, 32178, 32548]
  const NEG := [16384, 8812, 3906, 1554, 589, 219]

  /** Piecewise linear sigmoid. */
  function SigmQ15(x: int): (r: int)
    ensures 0 <= r <= 32767
  {
    if x < 0 then
      if -x >= 192 then 0 else SegmentBound((-x) / 32, (-x) % 32); NEG[(-x) / 32] - SLOPE[(-x) / 32] * ((-x) % 32)
    else if x >= 192 then 32767
    else SegmentBound(x / 32, x % 32); POS[x / 32] + SLOPE[x / 32] * (x % 32)
  }

  lemma SegmentBound(i: int, f: int)
    requires 0 <= i < 6 && 0 <= f < 32
    ensures 0 <= SLOPE[i] * f <= NEG[i] && POS[i] + SLOPE[i] * f <= 32767
  {
    MulMono(SLOPE[i], f, 31);
  }

  // ----- run lengths -----

  /** Chance that n pulses all miss the first of some slots, in 31 bits, cut after every factor. */
  function Missed(slots: nat, n: nat): (m: int)
    requires 1 <= slots <= 160 && 1 <= n
    ensures 0 <= m < ONE_Q31
  {
    if n == 1 then Factor(slots)
    else
      Q31Product(Missed(slots, n - 1), Factor(slots));
      Missed(slots, n - 1) * Factor(slots) / ONE_Q31
  }

  function Factor(slots: nat): (f: int)
    requires 1 <= slots <= 160
    ensures 0 <= f < ONE_Q31
  {
    DivShrinks(ONE_Q31, slots);
    QuotientAtLeast(ONE_Q31, slots);
    ONE_Q31 - ONE_Q31 / slots
  }

  /** The exact factor. */
  function Ratio(slots: nat): (q: real)
    requires slots >= 1
    ensures 0.0 <= q <= 1.0
  {
    UnitPart(1.0, slots as real);
    1.0 - 1.0 / slots as real
  }

  /** Chance that a run ends at the first of some slots, before the perceptual rescaling. */
  function EndProb(slots: nat, nump: nat): (p: int)
    requires 1 <= slots <= 160 && 1 <= nump
    ensures 1 <= p <= P_CAP
  {
    if ONE_Q31 - Missed(slots, nump) > P_CAP then P_CAP else ONE_Q31 - Missed(slots, nump)
  }

  /** The chance of an end is what the misses leave, up to the cap. */
  lemma EndProbComplements(slots: nat, nump: nat)
    requires 1 <= slots <= 160 && 1 <= nump
    ensures var m := Missed(slots, nump);
      if m >= ONE_Q31 - P_CAP then EndProb(slots, nump) + m == ONE_Q31 else EndProb(slots, nump) == P_CAP
  {}

  method RunEndProb(slots: nat, nump: nat) returns (p1: i64)
    requires 1 <= slots <= 160 && 1 <= nump <= MAX_PULSES_PER_SF
    ensures p1 as int == EndProb(slots, nump)
  {
    var tmp: i64 := Factor(slots);
    p1 := tmp;
    for r := 0 to nump - 1
      invariant p1 as int == Missed(slots, r + 1)
    {
      Q31Product(p1, tmp);
      p1 := p1 * tmp / ONE_Q31;
    }
    p1 := ONE_Q31 - p1;
    if p1 > P_CAP { p1 := P_CAP; }
  }

  /** The exact chance. */
  function Chance(slots: nat, n: nat): real
    requires slots >= 1
  {
    if n == 0 then 1.0 else Chance(slots, n - 1) * Ratio(slots)
  }

  /** The cut chance is within err units of the exact one. */
  ghost predicate Near(m: int, c: real, err: real) { -err <= m as real - c * ONE_Q31 as real <= err }

  /** n cuts lose at most n units of 2^31. */
  lemma {:induction false} MissedAccurate(slots: nat, n: nat)
    requires 1 <= slots <= 160 && 1 <= n
    ensures Near(Missed(slots, n), Chance(slots, n), n as real)
  {
    hide Missed, Chance, Near, Factor, Ratio;
    FactorClose(slots);
    FactorNear(slots);
    MissedStep(slots, n);
    if n == 1 {
      assert n as real == 1.0;
    } else {
      MissedAccurate(slots, n - 1);
      assert n as real == (n - 1) as real + 1.0;
      CutProduct(Missed(slots, n - 1), Factor(slots), Ratio(slots), Chance(slots, n - 1), (n - 1) as real,
        Missed(slots, n), Chance(slots, n), n as real);
    }
  }

  lemma MissedStep(slots: nat, n: nat)
    requires 1 <= slots <= 160 && 1 <= n
    ensures n == 1 ==> Missed(slots, 1) == Factor(slots) && Chance(slots, 1) == Ratio(slots)
    ensures n > 1 ==> Missed(slots, n) == Missed(slots, n - 1) * Factor(slots) / ONE_Q31
    ensures n > 1 ==> Chance(slots, n) == Chance(slots, n - 1) * Ratio(slots)
  {
    hide Factor, Ratio;
    assert Chance(slots, 0) == 1.0;
  }

  lemma FactorClose(slots: nat)
    requires 1 <= slots <= 160
    ensures 0.0 <= Factor(slots) as real - Ratio(slots) * ONE_Q31 as real <= 1.0
  {
    var s, d := slots as real, ONE_Q31 / slots;
    var f := 1.0 / s;
    FloorTimes(ONE_Q31, slots);
    DivShrinks(ONE_Q31, slots);
    QuotientAtLeast(ONE_Q31, slots);
    assert f * s == 1.0;
    UnitPart(1.0, s);
    Whole(d, slots);
    hide *;
    Below(d as real, f, s, ONE_Q31 as real);
  }

  lemma FactorNear(slots: nat)
    requires 1 <= slots <= 160
    ensures Near(Factor(slots), Ratio(slots), 1.0)
  {
    hide Factor, Ratio;
    FactorClose(slots);
  }

  lemma Whole(d: nat, slots: nat)
    ensures (d * slots) as real == d as real * slots as real
  {}

  lemma Below(d: real, f: real, s: real, w: real)
    requires s > 0.0 && f * s == 1.0 && d * s <= w < d * s + s
    ensures d <= f * w <= d + 1.0
  {
    assert f * w * s == w * (f * s);
    RealCancel(d, f * w, s);
    assert (d + 1.0) * s == d * s + s;
    RealCancel(f * w, d + 1.0, s);
  }

  lemma RealCancel(a: real, b: real, s: real)
    requires s > 0.0 && a * s <= b * s
    ensures a <= b
  {}

  lemma CutProduct(m: int, tmp: int, q: real, c: real, err: real, next: int, exact: real, more: real)
    requires next == m * tmp / ONE_Q31 && exact == c * q && more == err + 1.0
    requires 0 <= m < ONE_Q31 && 0 <= tmp < ONE_Q31 && 0.0 <= q <= 1.0 && err >= 0.0
    requires 0.0 <= tmp as real - q * ONE_Q31 as real <= 1.0
    requires Near(m, c, err)
    ensures Near(next, exact, more)
  {
    var w := ONE_Q31 as real;
    ProductReal(m, tmp);
    SmallPart(m as real, tmp as real - q * w, w);
    UnitScaled(q, m as real - c * w, err);
    Parted(m as real, tmp as real, q, c, w, (m * tmp) as real, exact);
    hide *;
    CutNear(m * tmp, exact, m as real * (tmp as real - q * w) / w, q * (m as real - c * w), err);
  }

  lemma CutNear(x: nat, c: real, a: real, b: real, err: real)
    requires x as real / ONE_Q31 as real - c * ONE_Q31 as real == a + b
    requires 0.0 <= a <= 1.0 && -err <= b <= err
    ensures Near(x / ONE_Q31, c, err + 1.0)
  {
    CutBelow(x);
  }

  lemma ProductReal(a: int, b: int)
    ensures (a * b) as real == a as real * b as real
  {}

  /** A product of approximations, against the product of what they approximate. */
  lemma Parted(m: real, t: real, q: real, c: real, w: real, product: real, exact: real)
    requires w > 0.0 && product == m * t && exact == c * q
    ensures product / w - exact * w == m * (t - q * w) / w + q * (m - c * w)
  {
    var f := 1.0 / w;
    assert w * f == 1.0;
    OverIs(m * t, w);
    OverIs(m * (t - q * w), w);
    assert m * (t - q * w) * f == m * t * f - m * q * (w * f);
    assert q * (m - c * w) == m * q - c * q * w;
  }

  lemma OverIs(x: real, w: real)
    requires w > 0.0
    ensures x / w == x * (1.0 / w)
  {}

  lemma CutBelow(x: nat)
    ensures x as real / ONE_Q31 as real - 1.0 < (x / ONE_Q31) as real <= x as real / ONE_Q31 as real
  {}

  lemma RealMono(k: real, a: real, b: real)
    requires k >= 0.0 && a <= b
    ensures k * a <= k * b && a * k <= b * k
  {
    assert k * (b - a) >= 0.0;
  }

  lemma SmallPart(m: real, t: real, w: real)
    requires 0.0 <= m <= w && 0.0 <= t <= 1.0 && w > 0.0
    ensures 0.0 <= m * t / w <= 1.0
  {
    RealMono(m, t, 1.0);
    RealMono(m, 0.0, t);
    UnitPart(m * t, w);
  }

  lemma UnitPart(z: real, w: real)
    requires 0.0 <= z <= w && w > 0.0
    ensures 0.0 <= z / w <= 1.0
  {
    var f := z / w;
    assert f * w == z;
    RealCancel(f, 1.0, w);
    RealCancel(0.0, f, w);
  }

  lemma Q31Product(a: nat, b: nat)
    requires a <= ONE_Q31 && b <= ONE_Q31
    ensures 0 <= a * b <= ONE_Q31 * ONE_Q31 && 0 <= a * b / ONE_Q31 <= a
  {
    MulMono(a, b, ONE_Q31);
    MulMono(ONE_Q31, a, ONE_Q31);
  }

  /** The exponent of the rescaling, in 15 fractional bits, by how many pulses there are to a slot. */
  function ScaleFactor(ms: nat, nump: nat): (s: int)
    requires 1 <= ms <= 160 && 1 <= nump <= MAX_PULSES_PER_SF
    ensures 26000 <= s <= 36000
  {
    36000 - 10000 * SigmQ15(Density(ms, nump) / 4 + 146) / 0x8000
  }

  /** Logarithm of the pulses to a slot. */
  function Density(ms: nat, nump: nat): (d: int)
    requires 1 <= ms <= 160 && 1 <= nump <= MAX_PULSES_PER_SF
    ensures -0x8000_0000 <= d < 0x8000_0000
  {
    if nump > ms then RatioBound(nump * 1024, ms); Lin2log(nump * 1024 / ms) - 1280
    else RatioBound(ms * 1024, nump); -(Lin2log(ms * 1024 / nump) - 1280)
  }

  /** The chance of going on, raised to the exponent. */
  function Rescale(p1: int, scale: int): (q: int)
    requires 1 <= p1 <= P_CAP
    ensures 1 <= q <= P_CAP
  {
    var q := ONE_Q31 - Log2lin(scale * (Lin2log(ONE_Q31 - p1) - 31 * 128) / 0x8000 + 31 * 128);
    if q > P_CAP then P_CAP else q
  }

  lemma ScaleIs(ms: nat, nump: nat)
    requires 1 <= ms <= 160 && 1 <= nump <= MAX_PULSES_PER_SF
    ensures ScaleFactor(ms, nump) == 36000 - 10000 * SigmQ15(Density(ms, nump) / 4 + 146) / 0x8000
  {}

  /** The rescaling's products fit a 32-bit word. */
  method Rescaled(p1: i64, ms: nat, nump: nat) returns (q: i64)
    requires 1 <= p1 <= P_CAP && 1 <= ms <= 160 && 1 <= nump <= MAX_PULSES_PER_SF
    ensures q as int == Rescale(p1, ScaleFactor(ms, nump)) && 1 <= q <= P_CAP
  {
    hide Lin2log, Log2lin, SigmQ15, ScaleFactor;
    ScaleIs(ms, nump);
    var logOut: i32;
    if nump > ms {
      RatioBound(nump * 1024, ms);
      logOut := Lin2log(nump * 1024 / ms) - 1280;
    } else {
      RatioBound(ms * 1024, nump);
      logOut := -(Lin2log(ms * 1024 / nump) - 1280);
    }
    var sigm := SigmQ15(logOut / 4 + 146);
    var scale: i32 := 36000 - 10000 * sigm / 0x8000;
    var level: i32 := Lin2log(ONE_Q31 - p1) - 31 * 128;
    ScaleFits(scale, level);
    var product: i32 := scale * level;
    q := ONE_Q31 - Log2lin(product / 0x8000 + 31 * 128);
    if q > P_CAP { q := P_CAP; }
  }

  lemma RatioBound(a: nat, b: nat)
    requires 1 <= b <= 160 && b <= a / 1024 && a <= 163840
    ensures 1 <= a / b < 0x8000_0000
  {
    DivShrinks(a, b);
    QuotientAtLeast(a, b);
  }

  lemma QuotientAtLeast(a: nat, b: nat)
    requires 1 <= b <= a
    ensures a / b >= 1
  {}

  lemma ScaleFits(scale: int, level: int)
    requires 0 <= scale <= 36000 && -3968 <= level <= 138
    ensures -0x8000_0000 <= scale * level < 0x8000_0000
  {
    MulMono(scale, level + 3968, 4106);
    MulMono(4106, scale, 36000);
    assert scale * (level + 3968) == scale * level + scale * 3968;
  }

  /** What a run-length model has given to its slots, and what is still open. */
  datatype Mass = Mass(given: seq<nat>, open: nat)

  function SlotProb(ms: nat, nump: nat, k: nat): (p: int)
    requires k < ms <= 160 && 1 <= nump <= MAX_PULSES_PER_SF
    ensures 1 <= p <= P_CAP
  {
    Rescale(EndProb(ms - k, nump), ScaleFactor(ms, nump))
  }

  lemma SlotMass(open: nat, p: nat)
    requires open <= ONE_Q31 && p <= ONE_Q31
    ensures 0 <= open * p <= ONE_Q31 * ONE_Q31 && 0 <= open * p / ONE_Q31 <= p
    ensures 0 <= open * (ONE_Q31 - p) <= ONE_Q31 * ONE_Q31 && 0 <= open * (ONE_Q31 - p) / ONE_Q31 <= open
  {
    Q31Product(p, open);
    assert open * p == p * open;
    Q31Product(open, ONE_Q31 - p);
  }

  /** The mass after the first k slots: each takes its chance of what is open. */
  function Spread(ms: nat, nump: nat, k: nat): (m: Mass)
    requires k <= ms <= 160 && 1 <= nump <= MAX_PULSES_PER_SF
    ensures |m.given| == k && m.open <= ONE_Q31 && forall i :: 0 <= i < k ==> m.given[i] < ONE_Q31
  {
    if k == 0 then Mass([], ONE_Q31)
    else
      var m, p := Spread(ms, nump, k - 1), SlotProb(ms, nump, k - 1);
      SlotMass(m.open, p);
      Mass(m.given + [m.open * p / ONE_Q31], m.open * (ONE_Q31 - p) / ONE_Q31)
  }

  /** No slot makes mass, and each loses at most one unit to rounding. */
  lemma {:induction false} MassConserved(ms: nat, nump: nat, k: nat)
    requires k <= ms <= 160 && 1 <= nump <= MAX_PULSES_PER_SF
    ensures var m := Spread(ms, nump, k); ONE_Q31 - k <= Sum(m.given) + m.open <= ONE_Q31
  {
    hide SlotProb;
    if k > 0 {
      MassConserved(ms, nump, k - 1);
      var m, p := Spread(ms, nump, k - 1), SlotProb(ms, nump, k - 1);
      var next := Spread(ms, nump, k);
      assert next.given[..k - 1] == m.given;
      TwoCuts(m.open, p);
    }
  }

  lemma TwoCuts(x: nat, p: nat)
    requires p <= ONE_Q31
    ensures x - 1 <= x * p / ONE_Q31 + x * (ONE_Q31 - p) / ONE_Q31 <= x
  {
    assert x * p + x * (ONE_Q31 - p) == x * ONE_Q31;
  }

  /** After the last slot less than a 2000th is open. */
  lemma MassHandedOut(ms: nat, nump: nat)
    requires 1 <= ms <= 160 && 1 <= nump <= MAX_PULSES_PER_SF
    ensures Spread(ms, nump, ms).open <= 0x10_0000
  {
    LastSlot(ms, nump);
    var m, p := Spread(ms, nump, ms - 1), SlotProb(ms, nump, ms - 1);
    hide SlotProb;
    MulMono(ONE_Q31 - p, m.open, ONE_Q31);
    CutUpTo(m.open * (ONE_Q31 - p), ONE_Q31 - p);
  }

  lemma CutUpTo(x: nat, a: nat)
    requires x <= a * ONE_Q31
    ensures x / ONE_Q31 <= a
  {}

  lemma LastSlot(ms: nat, nump: nat)
    requires 1 <= ms <= 160 && 1 <= nump <= MAX_PULSES_PER_SF
    ensures SlotProb(ms, nump, ms - 1) >= ONE_Q31 - 0x10_0000
  {
    hide Lin2log, Log2lin, ScaleFactor;
    var scale := ScaleFactor(ms, nump);
    NoneMissed(nump);
    assert EndProb(1, nump) == P_CAP;
    LogOfRest();
    ScaledLog(scale);
    SmallLinear(scale * -1829 / 0x8000 + 31 * 128);
  }

  lemma {:induction false} NoneMissed(nump: nat)
    requires nump >= 1
    ensures Missed(1, nump) == 0
  {
    if nump > 1 { NoneMissed(nump - 1); }
  }

  lemma LogOfRest()
    ensures Lin2log(ONE_Q31 - P_CAP) == 2139
  {
    var x := ONE_Q31 - P_CAP;
    Pow2Values();
    assert Pow2(17) == 2 * Pow2(16) && Pow2(9) == 2 * Pow2(8);
    if Ilog(x) > 17 { IlogTooBig(x, 17); }
    if Ilog(x) < 17 { Pow2Grows(Ilog(x), 16); }
    assert Fraction(x, 17) == 81;
    assert Low16Signed(179) == 179;
  }

  lemma ScaledLog(scale: int)
    requires 26000 <= scale <= 36000
    ensures 0 <= scale * -1829 / 0x8000 + 31 * 128 < 20 * 128
  {}

  /** The power of two lies in its octave, at the foot of it exactly for whole exponents. */
  lemma Log2linOctave(x: int)
    requires 0 <= x < 3967
    ensures Pow2(x / 128) <= Log2lin(x) < 2 * Pow2(x / 128) && (x % 128 == 0 ==> Log2lin(x) == Pow2(x / 128))
  {
    hide Inner, Pow2;
    OutBound(x / 128);
    InnerBound(x % 128);
  }

  /** Within its octave it grows by the fraction's multiplier in 128ths, rounded down. */
  lemma Log2linShape(x: int)
    requires 0 <= x < 3967
    ensures 0 <= Pow2(x / 128) * (128 + Inner(x % 128)) - 128 * Log2lin(x) < 128
  {
    var o, inner := x / 128, Inner(x % 128);
    OutBound(o);
    InnerBound(x % 128);
    if x >= 2048 { MultipleOf128(o); }
    hide Inner, Pow2;
    GrownShape(Pow2(o), inner, x < 2048);
  }

  lemma {:induction false} MultipleOf128(o: nat)
    requires o >= 16
    ensures Pow2(o) % 128 == 0
  {
    if o == 16 {
      Pow2Values();
    } else {
      MultipleOf128(o - 1);
      assert Pow2(o) == 2 * Pow2(o - 1);
      hide Pow2;
    }
  }

  lemma GrownShape(out: nat, inner: nat, first: bool)
    requires 1 <= out <= 0x4000_0000 && inner < 128 && (!first ==> out % 128 == 0)
    ensures 0 <= out * (128 + inner) - 128 * Grown(out, inner, first) < 128
  {
    assert out * (128 + inner) == 128 * out + out * inner;
    if !first { assert out * inner == 128 * (out / 128 * inner); }
  }

  lemma SmallLinear(x: int)
    requires 0 <= x < 20 * 128
    ensures Log2lin(x) <= 0x10_0000
  {
    Log2linOctave(x);
    Pow2Grows(x / 128, 19);
    Pow2Values();
    assert Pow2(19) == 8 * Pow2(16);
  }

  /** The weights of one run-length table. */
  function RunWeights(ms: nat, nump: nat): (w: seq<nat>)
    requires 1 <= ms <= 160 && 1 <= nump <= MAX_PULSES_PER_SF
    ensures |w| == ms && forall i :: 0 <= i < ms ==> w[i] < ONE_Q31
  {
    Spread(ms, nump, ms).given
  }

  lemma {:induction false} SpreadGrows(ms: nat, nump: nat, k: nat, n: nat)
    requires k <= n <= ms <= 160 && 1 <= nump <= MAX_PULSES_PER_SF
    ensures Spread(ms, nump, k).given == Spread(ms, nump, n).given[..k]
  {
    hide SlotProb;
    if k < n { SpreadGrows(ms, nump, k, n - 1); }
  }

  /** The weights add up to the whole, but for a unit a slot and a 2000th; the first is the chance of its slot. */
  lemma RunWeightsTotal(ms: nat, nump: nat)
    requires 1 <= ms <= 160 && 1 <= nump <= MAX_PULSES_PER_SF
    ensures var w := RunWeights(ms, nump);
      ONE_Q31 - ms - 0x10_0000 <= Sum(w) <= ONE_Q31 && w[0] == SlotProb(ms, nump, 0) >= 1
  {
    MassConserved(ms, nump, ms);
    MassHandedOut(ms, nump);
    SpreadGrows(ms, nump, 1, ms);
    hide SlotProb;
    var p := SlotProb(ms, nump, 0);
    assert Spread(ms, nump, 0) == Mass([], ONE_Q31);
    assert Spread(ms, nump, 1).given == [ONE_Q31 * p / ONE_Q31];
  }

  /** One run-length pdf: the specified weights, the first one positive. */
  method RunlenPdf(ms: nat, nump: nat) returns (pdf: seq<i32>)
    requires 1 <= ms <= 160 && 1 <= nump <= MAX_PULSES_PER_SF
    ensures pdf == RunWeights(ms, nump) && Pdf(pdf)
  {
    hide SlotProb;
    var longer: i64 := ONE_Q31;
    var p := new i32[ms](_ => 0);
    for nums := 1 to ms + 1
      invariant longer as int == Spread(ms, nump, nums - 1).open && p[..nums - 1] == Spread(ms, nump, nums - 1).given
    {
      var p1 := SlotChance(ms, nump, nums - 1);
      ghost var m := Spread(ms, nump, nums - 1);
      SlotMass(longer, p1);
      p[nums - 1] := longer * p1 / ONE_Q31;
      longer := longer * (ONE_Q31 - p1) / ONE_Q31;
      assert p[..nums] == m.given + [p[nums - 1]];
    }
    pdf := p[..];
    assert p[..ms] == p[..];
    RunWeightsTotal(ms, nump);
    assert pdf[0] > 0;
  }

  method SlotChance(ms: nat, nump: nat, k: nat) returns (p: i64)
    requires k < ms <= 160 && 1 <= nump <= MAX_PULSES_PER_SF
    ensures p as int == SlotProb(ms, nump, k)
  {
    hide Rescale, EndProb, ScaleFactor;
    p := RunEndProb(ms - k, nump);
    p := Rescaled(p, ms, nump);
  }

  /** The table of one slot count holds, for each pulse count, an increasing CDF with ms symbols. */
  predicate RunlenOk(ms: nat, cmfs: seq<Cdf>) {
    |cmfs| == MAX_PULSES_PER_SF && forall c :: 0 <= c < |cmfs| ==> |cmfs[c]| == ms + 1 && Increasing(cmfs[c])
  }

  /** The first n tables share their ranges out by the run-length weights. */
  ghost predicate RunlenIs(ms: nat, cmfs: seq<Cdf>, n: nat) {
    && 1 <= ms <= 160 && n <= MAX_PULSES_PER_SF && |cmfs| == n
    && forall c :: 0 <= c < n ==> Proportional(cmfs[c], RunWeights(ms, c + 1))
  }

  method CreateRunlenTable(ms: nat) returns (cmfs: seq<Cdf>)
    requires 1 <= ms <= 160
    ensures RunlenOk(ms, cmfs) && RunlenIs(ms, cmfs, MAX_PULSES_PER_SF)
  {
    hide Proportional, RunWeights, Increasing, Pdf;
    cmfs := [];
    for nump := 1 to MAX_PULSES_PER_SF + 1
      invariant RunlenIs(ms, cmfs, nump - 1)
      invariant forall c :: 0 <= c < |cmfs| ==> |cmfs[c]| == ms + 1 && Increasing(cmfs[c])
    {
      var p := RunlenPdf(ms, nump);
      var cmf := PdfToCmf(p);
      cmfs := cmfs + [cmf[..]];
    }
  }
}
