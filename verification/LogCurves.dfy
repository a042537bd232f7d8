/** The fixed-point logarithm, power and sigmoid are rising curves, and so is the run-length model built on them. */
module LogCurves {
  import opened Bytes
  import opened RangeSpec
  import opened CdfTables
  import opened PulseTables

  // ----- logarithm -----

  /** The fractional part of the logarithm, from the seven bits after the leading one. */
  function Curve(f: int): int { f + f * (128 - f) * 179 / 0x1_0000 }

  lemma CurveStep(f: nat)
    requires f < 127
    ensures Curve(f) <= Curve(f + 1)
  {
    var p := f * (128 - f);
    assert (f + 1) * (128 - (f + 1)) == p + 127 - 2 * f;
  }

  lemma {:induction false} CurveRises(f: nat, g: nat)
    requires f <= g < 128
    ensures Curve(f) <= Curve(g)
  {
    if f < g {
      CurveRises(f, g - 1);
      CurveStep(g - 1);
    }
  }

  lemma CurveWithin(f: nat)
    requires f < 128
    ensures 0 <= Curve(f) < 128 && Curve(0) == 0
  {
    FracBound(f);
    var p := f * (128 - f);
    MulMono(128 - f, f, 127);
    assert p * 179 <= (128 - f) * 22733;
  }

  /** The leading bits: one, then seven. */
  function Lead(x: nat, bits: nat): int { if bits >= 8 then x / Pow2(bits - 8) else x * Pow2(8 - bits) }

  lemma LeadBetween(x: nat, bits: nat)
    requires 0 < x < 0x8000_0000 && bits == Ilog(x)
    ensures 128 <= Lead(x, bits) < 256 && 1 <= bits <= 31
  {
    hide Ilog;
    IlogAtMost(x, 31);
    if bits >= 8 {
      PowerParts(bits - 8, 8);
      PowerParts(bits - 8, 7);
      Pow2Values();
      assert Pow2(7) == 128 by { assert Pow2(8) == 2 * Pow2(7); }
      hide *;
      CutBetween(x, Pow2(bits - 8));
    } else {
      SmallBits(x, bits);
    }
  }

  lemma SmallBits(x: nat, bits: nat)
    requires 1 <= bits < 8 && Pow2(bits - 1) <= x < Pow2(bits)
    ensures 128 <= x * Pow2(8 - bits) < 256
  {
    assert Pow2(0) == 1 && Pow2(1) == 2 && Pow2(2) == 4 && Pow2(3) == 8 && Pow2(4) == 16 && Pow2(5) == 32
      && Pow2(6) == 64 && Pow2(7) == 128;
  }

  lemma CutBetween(x: nat, p: nat)
    requires p > 0 && p * 128 <= x < p * 256
    ensures 128 <= x / p < 256
  {
    FloorTimes(x, p);
    var q := x / p;
    Distribute(q, 1, p);
    CancelLess(128, q + 1, p);
    CancelLess(q, 256, p);
  }

  lemma {:induction false} PowerParts(a: nat, b: nat)
    ensures Pow2(a + b) == Pow2(a) * Pow2(b)
  {
    if b > 0 { PowerParts(a, b - 1); }
  }

  /** The logarithm is the place of the leading one and a curve over the bits after it. */
  lemma Lin2logParts(x: nat)
    requires 0 < x < 0x8000_0000
    ensures var b := Ilog(x); 128 <= Lead(x, b) < 256 && Lin2log(x) == 128 * (b - 1) + Curve(Lead(x, b) - 128)
  {
    var b := Ilog(x);
    LeadBetween(x, b);
    LogUnfolded(x);
    FractionIsLead(x, b);
    CurveIs(Fraction(x, b));
    hide *;
  }

  lemma CurveIs(f: int)
    ensures Smlawb(f, f * (128 - f), 179) == Curve(f)
  {
    assert Low16Signed(179) == 179;
  }

  lemma LogUnfolded(x: nat)
    requires 0 < x < 0x8000_0000
    ensures var f := Fraction(x, Ilog(x)); Lin2log(x) == Smlawb(f, f * (128 - f), 179) + (Ilog(x) - 1) * 128
  {
    hide Fraction, Smlawb, Ilog;
  }

  lemma FractionIsLead(x: nat, bits: nat)
    requires 128 <= Lead(x, bits) < 256
    ensures Fraction(x, bits) == Lead(x, bits) - 128
  {
    hide Pow2;
  }

  /** Whole octaves have whole logarithms, and everything else lies in its octave. */
  lemma Lin2logOctave(x: nat)
    requires 0 < x < 0x8000_0000
    ensures Pow2(Lin2log(x) / 128) <= x < 2 * Pow2(Lin2log(x) / 128)
  {
    Lin2logParts(x);
    CurveWithin(Lead(x, Ilog(x)) - 128);
    hide Curve, Lead, Lin2log;
    assert Lin2log(x) / 128 == Ilog(x) - 1;
  }

  lemma Lin2logRises(x: nat, y: nat)
    requires 0 < x <= y < 0x8000_0000
    ensures Lin2log(x) <= Lin2log(y)
  {
    Lin2logParts(x);
    Lin2logParts(y);
    var a, b := Ilog(x), Ilog(y);
    CurveWithin(Lead(x, a) - 128);
    CurveWithin(Lead(y, b) - 128);
    if a > b {
      Pow2Grows(b, a - 1);
    } else if a == b {
      LeadRises(x, y, a);
      CurveRises(Lead(x, a) - 128, Lead(y, a) - 128);
    }
    hide *;
  }

  lemma LeadRises(x: nat, y: nat, bits: nat)
    requires x <= y
    ensures Lead(x, bits) <= Lead(y, bits)
  {
    if bits >= 8 {
      QuotientRises(x, y, Pow2(bits - 8));
    } else {
      MulMono(Pow2(8 - bits), x, y);
    }
  }

  lemma QuotientRises(x: nat, y: nat, p: nat)
    requires x <= y && p > 0
    ensures x / p <= y / p
  {
    FloorTimes(x, p);
    FloorTimes(y, p);
    Distribute(y / p, 1, p);
    CancelLess(x / p, y / p + 1, p);
  }

  // ----- power -----

  lemma InnerStep(f: nat)
    requires f < 127
    ensures Inner(f) <= Inner(f + 1)
  {
    InnerIs(f);
    InnerIs(f + 1);
    var p := f * (128 - f);
    assert (f + 1) * (128 - (f + 1)) == p + 127 - 2 * f;
  }

  lemma {:induction false} InnerRises(f: nat, g: nat)
    requires f <= g < 128
    ensures Inner(f) <= Inner(g)
  {
    if f < g {
      InnerRises(f, g - 1);
      InnerStep(g - 1);
    }
  }

  lemma GrownRises(out: nat, f: nat, g: nat, first: bool)
    requires 1 <= out <= 0x4000_0000 && f <= g < 128
    ensures Grown(out, f, first) <= Grown(out, g, first)
  {
    MulMono(out, f, g);
    MulMono(out / 128, f, g);
    QuotientRises(out * f, out * g, 128);
  }

  lemma Log2linRises(x: int, y: int)
    requires x <= y
    ensures Log2lin(x) <= Log2lin(y)
  {
    if 0 <= x && y < 3967 {
      var a, b := x / 128, y / 128;
      if a < b {
        Log2linOctave(x);
        Log2linOctave(y);
        Pow2Grows(a + 1, b);
      } else {
        OutBound(a);
        InnerBound(x % 128);
        InnerBound(y % 128);
        InnerRises(x % 128, y % 128);
        hide Inner, Grown, Pow2;
        GrownRises(Pow2(a), Inner(x % 128), Inner(y % 128), x < 2048);
      }
    }
  }

  // ----- sigmoid -----

  /** The sigmoid rises, but for a drop of two where its fifth segment, on either side, meets the sixth. */
  lemma SigmStep(x: int)
    ensures SigmQ15(x) <= SigmQ15(x + 1) <==> x != 159 && x != -160
    ensures SigmQ15(x) <= SigmQ15(x + 1) + 2
  {
    if 0 <= x < 192 { RightStep(x); } else if -192 <= x < 0 { LeftStep(x); }
  }

  lemma RightStep(x: int)
    requires 0 <= x < 192
    ensures SigmQ15(x) <= SigmQ15(x + 1) <==> x != 159
    ensures SigmQ15(x) <= SigmQ15(x + 1) + 2
  {
    SegmentStep(x / 32, x % 32);
    SegmentBound(x / 32, x % 32);
  }

  lemma LeftStep(x: int)
    requires -192 <= x < 0
    ensures SigmQ15(x) <= SigmQ15(x + 1) <==> x != -160
    ensures SigmQ15(x) <= SigmQ15(x + 1) + 2
  {
    SegmentStep((-x - 1) / 32, (-x - 1) % 32);
    if x > -192 { SegmentBound((-x) / 32, (-x) % 32); }
  }

  /** Within a segment the curve moves by its slope, and the next segment takes over where it ends. */
  lemma SegmentStep(i: int, f: int)
    requires 0 <= i < 6 && 0 <= f < 32
    ensures SLOPE[i] * (f + 1) == SLOPE[i] * f + SLOPE[i] && SLOPE[i] >= 0
    ensures f == 31 && i < 4 ==> POS[i] + SLOPE[i] * f <= POS[i + 1] && NEG[i] - SLOPE[i] * f >= NEG[i + 1]
    ensures f == 31 && i == 4 ==>
      POS[i] + SLOPE[i] * f == POS[i + 1] + 2 && NEG[i] - SLOPE[i] * f == NEG[i + 1] - 2
    ensures f == 31 && i == 5 ==> POS[i] + SLOPE[i] * f <= 32767 && NEG[i] - SLOPE[i] * f >= 0
  {}

  lemma {:induction false} RisesBetween(x: int, y: int)
    requires x <= y && !(x <= 159 < y) && !(x <= -160 < y)
    ensures SigmQ15(x) <= SigmQ15(y)
    decreases y - x
  {
    hide SigmQ15;
    if x < y {
      RisesBetween(x, y - 1);
      SigmStep(y - 1);
    }
  }

  /** Over any distance the sigmoid falls by two at most. */
  lemma SigmRises(x: int, y: int)
    requires x <= y
    ensures SigmQ15(x) <= SigmQ15(y) + 2
  {
    assert SigmQ15(-160) == 219 && SigmQ15(-159) == 217 && SigmQ15(159) == 32550 && SigmQ15(160) == 32548;
    hide SigmQ15;
    if x <= -160 { RisesBetween(x, if y <= -160 then y else -160); }
    if x <= 159 && y >= -159 {
      RisesBetween(if x <= -160 then -159 else x, if y <= 159 then y else 159);
    }
    if x <= 159 && y >= -159 { RisesBetween(-159, if y <= 159 then y else 159); }
    if y >= 160 { RisesBetween(if x >= 160 then x else 160, y); }
  }

  /** Opposite arguments have complementary values. */
  lemma SigmSymmetric(x: int)
    requires x >= 0
    ensures 32767 <= SigmQ15(x) + SigmQ15(-x) <= 32768
  {
    if 0 < x < 192 { SegmentBound(x / 32, x % 32); }
  }

  // ----- the run-length model -----

  /** A likelier end stays likelier after rescaling. */
  lemma RescaleRises(p: int, q: int, scale: int)
    requires 1 <= p <= q <= P_CAP && scale >= 0
    ensures Rescale(p, scale) <= Rescale(q, scale)
  {
    var a, b := Lin2log(ONE_Q31 - p) - 31 * 128, Lin2log(ONE_Q31 - q) - 31 * 128;
    Lin2logRises(ONE_Q31 - q, ONE_Q31 - p);
    hide Lin2log, Log2lin;
    ScaledRises(scale, b, a);
    Log2linRises(scale * b / 0x8000 + 31 * 128, scale * a / 0x8000 + 31 * 128);
  }

  lemma ScaledRises(k: int, a: int, b: int)
    requires k >= 0 && a <= b
    ensures k * a <= k * b && k * a / 0x8000 <= k * b / 0x8000
  {
    MulMono(k, 0, b - a);
    assert k * (b - a) == k * b - k * a;
  }

  /** More pulses never make the exponent larger by more than one. */
  lemma ScaleFalls(ms: nat, nump: nat, more: nat)
    requires 1 <= ms <= 160 && 1 <= nump <= more <= MAX_PULSES_PER_SF
    ensures ScaleFactor(ms, nump) + 1 >= ScaleFactor(ms, more)
  {
    DensityRises(ms, nump, more);
    hide Density, SigmQ15;
    SigmRises(Density(ms, nump) / 4 + 146, Density(ms, more) / 4 + 146);
  }

  lemma DensityRises(ms: nat, nump: nat, more: nat)
    requires 1 <= ms <= 160 && 1 <= nump <= more <= MAX_PULSES_PER_SF
    ensures Density(ms, nump) <= Density(ms, more)
  {
    hide Lin2log;
    WholeLog();
    if more <= ms {
      RatioFalls(ms * 1024, nump, more);
      RatioBound(ms * 1024, more);
      RatioBound(ms * 1024, nump);
      Lin2logRises(ms * 1024 / more, ms * 1024 / nump);
    } else if nump > ms {
      QuotientRises(nump * 1024, more * 1024, ms);
      RatioBound(nump * 1024, ms);
      RatioBound(more * 1024, ms);
      Lin2logRises(nump * 1024 / ms, more * 1024 / ms);
    } else {
      AtLeastOne(ms, nump);
      AtLeastOne(more, ms);
      RatioBound(ms * 1024, nump);
      RatioBound(more * 1024, ms);
      Lin2logRises(1024, ms * 1024 / nump);
      Lin2logRises(1024, more * 1024 / ms);
    }
  }

  lemma WholeLog()
    ensures Lin2log(1024) == 1280
  {
    Lin2logParts(1024);
    TenBits();
    CurveWithin(0);
    hide Lin2log, Curve, Lead;
  }

  lemma TenBits()
    ensures Ilog(1024) == 11 && Lead(1024, 11) == 128
  {
    assert Pow2(3) == 8;
    assert Ilog(16) == 5;
    assert Ilog(256) == 9;
  }

  lemma AtLeastOne(a: nat, b: nat)
    requires 1 <= b <= a
    ensures a * 1024 / b >= 1024
  {
    var q := a * 1024 / b;
    FloorTimes(a * 1024, b);
    Distribute(q, 1, b);
    CancelLess(1024, q + 1, b);
  }

  lemma RatioFalls(x: nat, a: nat, b: nat)
    requires 1 <= a <= b
    ensures x / b <= x / a
  {
    var q := x / b;
    FloorTimes(x, a);
    FloorTimes(x, b);
    MulMono(q, a, b);
    Distribute(x / a, 1, a);
    CancelLess(q, x / a + 1, a);
  }
}
