/** The shape of the split tables: symmetric, halving at the ends, highest in the middle but for two totals. */
module PulseSplits {
  import opened Bytes
  import opened RangeSpec
  import opened CdfTables
  import opened PulseTables
  import opened PulseCount
  import opened PulseBuild
  import opened LogCurves

  /** What a split loses against certainty, in 128ths of a bit. */
  function Loss(k: nat, n: nat): (x: int)
    requires k <= n <= NUM_SPLITS && n > 0
    ensures x >= 0
  {
    SplitLogNotPositive(k, n);
    -SplitLog(k, n) / 256
  }

  lemma SplitIs(k: nat, n: nat)
    requires k <= n <= NUM_SPLITS && n > 0
    ensures ProbSplit(k, n) == 0x4000_0000 / Log2lin(Loss(k, n))
  {
    hide SplitLog;
    assert Pow2(0) == 1;
    Log2linOctave(0);
  }

  /** The two halves of a split are interchangeable. */
  lemma SplitSymmetric(n: nat, i: nat)
    requires 0 < n <= NUM_SPLITS && i <= n - 2 * SplitLow(n)
    ensures SplitWeights(n)[i] == SplitWeights(n)[n - 2 * SplitLow(n) - i]
  {
    hide ProbSplit;
    OtherHalf(SplitLow(n) + i, n);
    WeightIs(n, i);
    WeightIs(n, n - 2 * SplitLow(n) - i);
    hide SplitWeights;
  }

  lemma WeightIs(n: nat, i: nat)
    requires 0 < n <= NUM_SPLITS && i <= n - 2 * SplitLow(n)
    ensures SplitWeights(n)[i] == ProbSplit(SplitLow(n) + i, n)
  {
    hide ProbSplit;
  }

  lemma OtherHalf(k: nat, n: nat)
    requires k <= n <= NUM_SPLITS && n > 0
    ensures ProbSplit(k, n) == ProbSplit(n - k, n) && Loss(k, n) == Loss(n - k, n)
  {
    SplitIs(k, n);
    SplitIs(n - k, n);
    hide ProbSplit, Stirling, Log2lin;
    assert SplitLog(k, n) == SplitLog(n - k, n);
  }

  /** Every weight is within a factor of two of 2^30 less its loss in whole bits. */
  lemma SplitInOctave(k: nat, n: nat)
    requires k <= n <= NUM_SPLITS && n > 0 && Loss(k, n) < 30 * 128
    ensures var e := Loss(k, n) / 128; Pow2(29 - e) <= ProbSplit(k, n) <= Pow2(30 - e)
  {
    var x := Loss(k, n);
    var e := x / 128;
    SplitIs(k, n);
    Log2linOctave(x);
    PowerParts(e, 30 - e);
    PowerParts(e + 1, 29 - e);
    Pow30();
    hide Log2lin, Loss, Pow2;
    Between(Log2lin(x), Pow2(e), Pow2(30 - e), Pow2(e + 1), Pow2(29 - e));
  }

  lemma Pow30()
    ensures Pow2(30) == 0x4000_0000
  {
    Pow2Values();
    assert Pow2(31) == 2 * Pow2(30);
  }

  lemma Between(x: nat, p: nat, q: nat, p1: nat, q1: nat)
    requires p * q == 0x4000_0000 == p1 * q1 && 0 < p <= x <= p1
    ensures q1 <= 0x4000_0000 / x <= q
  {
    var r := 0x4000_0000 / x;
    FloorTimes(0x4000_0000, x);
    Distribute(r, 1, x);
    MulMono(q1, x, p1);
    CancelLess(q1, r + 1, x);
    MulMono(q + 1, p, x);
    assert (q + 1) * p == p * q + p;
    CancelLess(r, q + 1, x);
  }

  // ----- the ends -----

  lemma EndLoss(n: nat)
    requires 0 < n <= NUM_SPLITS
    ensures Loss(0, n) == 128 * n
  {
    hide Assembled;
    assert SplitLog(0, n) == 0 - n * 0x8000;
  }

  /** A split of everything to one side has probability 2^-n exactly, and none past 30 pulses. */
  lemma SplitEnds(n: nat)
    requires 0 < n <= 80
    ensures var w := SplitWeights(n); w[0] == w[n] == if n <= 30 then Pow2(30 - n) else 0
  {
    hide ProbSplit;
    SplitSymmetric(n, 0);
    WeightIs(n, 0);
    EndIs(n);
    hide SplitWeights;
  }

  lemma EndIs(n: nat)
    requires 0 < n <= 80
    ensures ProbSplit(0, n) == if n <= 30 then Pow2(30 - n) else 0
  {
    SplitIs(0, n);
    EndLoss(n);
    hide Loss, ProbSplit;
    if n <= 30 {
      WholePower(n);
      PowerParts(n, 30 - n);
      Pow30();
      hide Pow2, Log2lin;
      Exact(Pow2(n), Pow2(30 - n));
    }
  }

  lemma Exact(p: nat, q: nat)
    requires p * q == 0x4000_0000 && p > 0
    ensures 0x4000_0000 / p == q
  {
    ModUnique(0x4000_0000, q, 0, p);
  }

  // ----- the middle against the ends -----

  /** The middle weight is above the weights at the two ends. */
  ghost predicate Peaked(n: nat)
    requires 0 < n <= NUM_SPLITS
  {
    ProbSplit(n / 2, n) > ProbSplit(SplitLow(n), n)
  }

  /** Half as large a power is a larger share. */
  lemma HalfPower(a: nat, b: nat)
    requires 0 < a <= 0x4000_0000 && 2 * a <= b
    ensures 0x4000_0000 / a > 0x4000_0000 / b
  {
    var x := 0x4000_0000;
    var p, q := x / a, x / b;
    FloorTimes(x, a);
    FloorTimes(x, b);
    Distribute(p, 1, a);
    CancelLess(1, p + 1, a);
    MulMono(q, 2 * a, b);
    assert q * (2 * a) == 2 * q * a;
    CancelLess(2 * q, p + 1, a);
  }

  /** A middle at least two bits more likely than the ends. */
  lemma TwoBits(n: nat)
    requires 0 < n <= NUM_SPLITS && Loss(n / 2, n) + 256 <= Loss(SplitLow(n), n)
    ensures Peaked(n)
  {
    var x, y := Loss(n / 2, n), Loss(SplitLow(n), n);
    MiddleLoss(n);
    SplitIs(n / 2, n);
    SplitIs(SplitLow(n), n);
    hide Loss, ProbSplit, Log2lin;
    PowersApart(x, y);
    HalfPower(Log2lin(x), Log2lin(y));
  }

  lemma MiddleLoss(n: nat)
    requires 0 < n <= NUM_SPLITS
    ensures Loss(n / 2, n) <= 28 * 128
  {
    hide SplitLog;
    MiddleLikely(n);
  }

  lemma PowersApart(x: int, y: int)
    requires 0 <= x <= 28 * 128 && x + 256 <= y
    ensures 0 < Log2lin(x) <= 0x4000_0000 && 2 * Log2lin(x) <= Log2lin(y)
  {
    hide Log2lin, Pow2;
    SmallPower(x);
    Log2linOctave(x);
    Log2linRises(x + 256, y);
    Log2linOctave(x + 256);
    assert (x + 256) / 128 == x / 128 + 2;
    TwoUp(x / 128);
  }

  lemma TwoUp(o: nat)
    ensures Pow2(o + 2) == 4 * Pow2(o)
  {}

  /** From the numbers: what a split loses. */
  lemma Counted(n: nat, k: nat, j: nat, c: int, ca: int, cb: int, loss: int)
    requires k + j == n <= NUM_SPLITS && n > 0 && Val(n, c) && Val(k, ca) && Val(j, cb)
    requires loss == (ca + cb + n * 0x8000 - c) / 256
    ensures Loss(k, n) == loss
  {
    StirlingIs(n);
    StirlingIs(k);
    StirlingIs(j);
    hide Stirling, Closed, Tangent;
  }

  /** From the logarithms of the halves and of the lower end, a gap of two bits. */
  lemma Gap(n: nat, a: nat, b: nat, e: nat, ca: int, cb: int, ce: int)
    requires 81 <= n <= NUM_SPLITS && a == n / 2 && b == n - a && e == n - 80
    requires Val(a, ca) && Val(b, cb) && Val(e, ce) && Val(80, 12912835) && ce + 12912835 - ca - cb >= 65536
    ensures Peaked(n)
  {
    var c := Closed(n);
    assert Val(n, c);
    hide Val, Closed;
    var x, y := (ca + cb + n * 0x8000 - c) / 256, (ce + 12912835 + n * 0x8000 - c) / 256;
    assert y >= x + 256;
    Counted(n, a, b, c, ca, cb, x);
    Counted(n, e, 80, c, ce, 12912835, y);
    hide Loss;
    TwoBits(n);
  }

  lemma Gaps88()
    ensures forall n :: 81 <= n <= 88 ==> Peaked(n)
  {
    hide Peaked, Val, UpTo;
    Measure5(); Measure11(); Measure41(); Measure47(); Measure83();
    Gap(81, 40, 41, 1, 5202820, 5382744, 107); Gap(82, 41, 41, 2, 5382744, 5382744, 32783);
    Gap(83, 41, 42, 3, 5382744, 5554347, 84821); Gap(84, 42, 42, 4, 5554347, 5554347, 150242);
    Gap(85, 42, 43, 5, 5554347, 5739135, 224627); Gap(86, 43, 43, 6, 5739135, 5739135, 311238);
    Gap(87, 43, 44, 7, 5739135, 5915091, 404286); Gap(88, 44, 44, 8, 5915091, 5915091, 501326);
  }

  lemma Gaps96()
    ensures forall n :: 89 <= n <= 96 ==> Peaked(n)
  {
    hide Peaked, Val, UpTo;
    Measure11(); Measure17(); Measure47(); Measure53(); Measure83();
    Gap(89, 44, 45, 9, 5915091, 6093095, 600941); Gap(90, 45, 45, 10, 6093095, 6093095, 710807);
    Gap(91, 45, 46, 11, 6093095, 6285051, 825034); Gap(92, 46, 46, 12, 6285051, 6285051, 945282);
    Gap(93, 46, 47, 13, 6285051, 6467407, 1067327); Gap(94, 47, 47, 14, 6467407, 6467407, 1193343);
    Gap(95, 47, 48, 15, 6467407, 6651812, 1318594); Gap(96, 48, 48, 16, 6651812, 6651812, 1449992);
  }

  lemma Gaps104()
    ensures forall n :: 97 <= n <= 104 ==> Peaked(n)
  {
    hide Peaked, Val, UpTo;
    Measure17(); Measure23(); Measure29(); Measure53(); Measure83();
    Gap(97, 48, 49, 17, 6651812, 6838264, 1578575); Gap(98, 49, 49, 18, 6838264, 6838264, 1712280);
    Gap(99, 49, 50, 19, 6838264, 7026764, 1851107); Gap(100, 50, 50, 20, 7026764, 7026764, 1995054);
    Gap(101, 50, 51, 21, 7026764, 7204129, 2138619); Gap(102, 51, 51, 22, 7204129, 7204129, 2286793);
    Gap(103, 51, 52, 23, 7204129, 7396469, 2439575); Gap(104, 52, 52, 24, 7396469, 7396469, 2590694);
  }

  lemma Gaps112()
    ensures forall n :: 105 <= n <= 112 ==> Peaked(n)
  {
    hide Peaked, Val, UpTo;
    Measure29(); Measure35(); Measure53(); Measure59(); Measure83();
    Gap(105, 52, 53, 25, 7396469, 7590858, 2745909); Gap(106, 53, 53, 26, 7590858, 7590858, 2898437);
    Gap(107, 53, 54, 27, 7590858, 7773342, 3054549); Gap(108, 54, 54, 28, 7773342, 7773342, 3214246);
    Gap(109, 54, 55, 29, 7773342, 7971571, 3369975); Gap(110, 55, 55, 30, 7971571, 7971571, 3528777);
    Gap(111, 55, 56, 31, 7971571, 8157384, 3690651); Gap(112, 56, 56, 32, 8157384, 8157384, 3855597);
  }

  lemma Gaps120()
    ensures forall n :: 113 <= n <= 120 ==> Peaked(n)
  {
    hide Peaked, Val, UpTo;
    Measure35(); Measure41(); Measure59(); Measure65(); Measure83();
    Gap(113, 56, 57, 33, 8157384, 8344733, 4015039); Gap(114, 57, 57, 34, 8344733, 8344733, 4177041);
    Gap(115, 57, 58, 35, 8344733, 8533617, 4341604); Gap(116, 58, 58, 36, 8533617, 8533617, 4508727);
    Gap(117, 58, 59, 37, 8533617, 8724038, 4678410); Gap(118, 59, 59, 38, 8724038, 8724038, 4850653);
    Gap(119, 59, 60, 39, 8724038, 8915995, 5025457); Gap(120, 60, 60, 40, 8915995, 8915995, 5202820);
  }

  lemma Gaps128()
    ensures forall n :: 121 <= n <= 128 ==> Peaked(n)
  {
    hide Peaked, Val, UpTo;
    Measure41(); Measure47(); Measure53(); Measure65(); Measure83();
    Gap(121, 60, 61, 41, 8915995, 9109488, 5382744); Gap(122, 61, 61, 42, 9109488, 9109488, 5554347);
    Gap(123, 61, 62, 43, 9109488, 9304517, 5739135); Gap(124, 62, 62, 44, 9304517, 9304517, 5915091);
    Gap(125, 62, 63, 45, 9304517, 9501082, 6093095); Gap(126, 63, 63, 46, 9501082, 9501082, 6285051);
    Gap(127, 63, 64, 47, 9501082, 9699183, 6467407); Gap(128, 64, 64, 48, 9699183, 9699183, 6651812);
  }

  lemma Gaps136()
    ensures forall n :: 129 <= n <= 136 ==> Peaked(n)
  {
    hide Peaked, Val, UpTo;
    Measure53(); Measure59(); Measure65(); Measure71(); Measure83();
    Gap(129, 64, 65, 49, 9699183, 9882052, 6838264); Gap(130, 65, 65, 50, 9882052, 9882052, 7026764);
    Gap(131, 65, 66, 51, 9882052, 10082969, 7204129); Gap(132, 66, 66, 52, 10082969, 10082969, 7396469);
    Gap(133, 66, 67, 53, 10082969, 10268142, 7590858); Gap(134, 67, 67, 54, 10268142, 10268142, 7773342);
    Gap(135, 67, 68, 55, 10268142, 10471875, 7971571); Gap(136, 68, 68, 56, 10471875, 10471875, 8157384);
  }

  lemma Gaps144()
    ensures forall n :: 137 <= n <= 144 ==> Peaked(n)
  {
    hide Peaked, Val, UpTo;
    Measure59(); Measure65(); Measure71(); Measure77(); Measure83();
    Gap(137, 68, 69, 57, 10471875, 10677145, 8344733); Gap(138, 69, 69, 58, 10677145, 10677145, 8533617);
    Gap(139, 69, 70, 59, 10677145, 10865902, 8724038); Gap(140, 70, 70, 60, 10865902, 10865902, 8915995);
    Gap(141, 70, 71, 61, 10865902, 11073987, 9109488); Gap(142, 71, 71, 62, 11073987, 11073987, 9304517);
    Gap(143, 71, 72, 63, 11073987, 11265048, 9501082); Gap(144, 72, 72, 64, 11265048, 11265048, 9699183);
  }

  predicate Power(x: int, r: int) { Log2lin(x) == r }

  /** One power, from its octave and its fraction. */
  lemma PowerIs(x: int, o: nat, f: nat, inner: int, out: nat, r: int)
    requires 0 <= x < 2048 && x == 128 * o + f && f < 128 && out == Pow2(o)
    requires inner == f + -174 * (f * (128 - f)) / 0x1_0000 && r == out + out * inner / 128
    ensures Power(x, r)
  {
    InnerIs(f);
    Log2linShort(x);
    hide Log2lin, Inner, Pow2;
    assert x / 128 == o && x % 128 == f;
  }

  lemma Log2linShort(x: int)
    requires 0 <= x < 2048
    ensures Log2lin(x) == Pow2(x / 128) + Pow2(x / 128) * Inner(x % 128) / 128
  {
    hide Inner, Pow2;
    OutBound(x / 128);
    InnerBound(x % 128);
  }

  /** Late totals, where the two ends come close to the middle. */
  lemma Close(n: nat, a: nat, b: nat, e: nat, c: int, ca: int, cb: int, ce: int, x: int, y: int, p: int, q: int)
    requires 81 <= n <= NUM_SPLITS && a == n / 2 && b == n - a && e == n - 80
    requires Val(n, c) && Val(a, ca) && Val(b, cb) && Val(e, ce) && Val(80, 12912835)
    requires x == (ca + cb + n * 0x8000 - c) / 256 && y == (ce + 12912835 + n * 0x8000 - c) / 256
    requires Power(x, p) && Power(y, q) && p > 0 && q > 0
    ensures Peaked(n) <==> 0x4000_0000 / p > 0x4000_0000 / q
  {
    hide Val, Log2lin;
    Counted(n, a, b, c, ca, cb, x);
    Counted(n, e, 80, c, ce, 12912835, y);
    hide Loss, ProbSplit;
    SplitIs(a, n);
    SplitIs(e, n);
  }

  lemma Powers149()
    ensures Power(429, 10) && Power(430, 10) && Power(501, 15) && Power(502, 15) && Power(503, 15) && Power(577, 22)
      && Power(640, 32) && Power(642, 32) && Power(673, 38) && Power(682, 40)
  {
    assert Pow2(3) == 8 && Pow2(4) == 16 && Pow2(5) == 32;
    hide Power, Pow2;
    PowerIs(429, 3, 45, 35, 8, 10); PowerIs(430, 3, 46, 35, 8, 10); PowerIs(501, 3, 117, 113, 8, 15);
    PowerIs(502, 3, 118, 114, 8, 15); PowerIs(503, 3, 119, 116, 8, 15); PowerIs(577, 4, 65, 54, 16, 22);
    PowerIs(640, 5, 0, 0, 32, 32); PowerIs(642, 5, 2, 1, 32, 32); PowerIs(673, 5, 33, 24, 32, 38);
    PowerIs(682, 5, 42, 32, 32, 40);
  }

  lemma Close149()
    ensures forall n :: 145 <= n <= 149 ==> (Peaked(n) <==> n != 154 && n != 158 && n != 159)
  {
    hide Peaked, Val, UpTo, Power;
    Measure65(); Measure71(); Measure77(); Measure83(); Measure149();
    Powers149();
    Close(145, 72, 73, 65, 27382403, 11265048, 11475949, 9882052, 429, 640, 10, 32);
    Close(146, 73, 73, 66, 27607640, 11475949, 11475949, 10082969, 501, 673, 15, 38);
    Close(147, 73, 74, 67, 27833390, 11475949, 11669315, 10268142, 503, 642, 15, 32);
    Close(148, 74, 74, 68, 28059652, 11669315, 11669315, 10471875, 502, 682, 15, 40);
    Close(149, 74, 75, 69, 28324698, 11669315, 11883032, 10677145, 430, 577, 10, 22);
  }

  lemma Powers154()
    ensures Power(430, 10) && Power(473, 12) && Power(488, 14) && Power(504, 15) && Power(505, 15) && Power(506, 15)
      && Power(553, 19) && Power(585, 23) && Power(603, 26)
  {
    assert Pow2(3) == 8 && Pow2(4) == 16 && Pow2(5) == 32;
    hide Power, Pow2;
    PowerIs(430, 3, 46, 35, 8, 10); PowerIs(473, 3, 89, 79, 8, 12); PowerIs(488, 3, 104, 97, 8, 14);
    PowerIs(504, 3, 120, 117, 8, 15); PowerIs(505, 3, 121, 118, 8, 15); PowerIs(506, 3, 122, 120, 8, 15);
    PowerIs(553, 4, 41, 31, 16, 19); PowerIs(585, 4, 73, 62, 16, 23); PowerIs(603, 4, 91, 82, 16, 26);
  }

  lemma Close154()
    ensures forall n :: 150 <= n <= 154 ==> (Peaked(n) <==> n != 154 && n != 158 && n != 159)
  {
    hide Peaked, Val, UpTo, Power;
    Measure71(); Measure77(); Measure83(); Measure155();
    Powers154();
    Close(150, 75, 75, 70, 28552240, 11883032, 11883032, 10865902, 504, 553, 15, 19);
    Close(151, 75, 76, 71, 28780294, 11883032, 12078701, 11073987, 505, 603, 15, 26);
    Close(152, 76, 76, 72, 29008859, 12078701, 12078701, 11265048, 504, 585, 15, 23);
    Close(153, 76, 77, 73, 29277233, 12078701, 12295235, 11475949, 430, 488, 10, 14);
    Close(154, 77, 77, 74, 29507079, 12295235, 12295235, 11669315, 506, 473, 15, 12);
  }

  lemma Powers159()
    ensures Power(434, 10) && Power(507, 15) && Power(508, 15) && Power(510, 15) && Power(527, 17) && Power(536, 18)
      && Power(588, 24) && Power(597, 25)
  {
    assert Pow2(3) == 8 && Pow2(4) == 16 && Pow2(5) == 32;
    hide Power, Pow2;
    PowerIs(434, 3, 50, 39, 8, 10); PowerIs(507, 3, 123, 121, 8, 15); PowerIs(508, 3, 124, 122, 8, 15);
    PowerIs(510, 3, 126, 125, 8, 15); PowerIs(527, 4, 15, 10, 16, 17); PowerIs(536, 4, 24, 17, 16, 18);
    PowerIs(588, 4, 76, 65, 16, 24); PowerIs(597, 4, 85, 75, 16, 25);
  }

  lemma Close159()
    ensures forall n :: 155 <= n <= 159 ==> (Peaked(n) <==> n != 154 && n != 158 && n != 159)
  {
    hide Peaked, Val, UpTo, Power;
    Measure77(); Measure83(); Measure155(); Measure159();
    Powers159();
    Close(155, 77, 78, 75, 29737437, 12295235, 12493208, 11883032, 507, 536, 15, 18);
    Close(156, 78, 78, 76, 29968307, 12493208, 12493208, 12078701, 507, 527, 15, 17);
    Close(157, 78, 79, 77, 30199689, 12493208, 12712557, 12295235, 588, 597, 24, 25);
    Close(158, 79, 79, 78, 30472158, 12712557, 12712557, 12493208, 508, 434, 15, 10);
    Close(159, 79, 80, 79, 30704820, 12712557, 12912835, 12712557, 510, 510, 15, 15);
  }

  /** Up to 30 pulses: the middle is at least a bit more likely than the ends. */
  lemma Ahead(n: nat, a: nat, b: nat, c: int, ca: int, cb: int)
    requires 2 <= n <= 30 && a == n / 2 && b == n - a && Val(n, c) && Val(a, ca) && Val(b, cb)
    requires (ca + cb + n * 0x8000 - c) / 256 <= 128 * (n - 1)
    ensures Peaked(n)
  {
    hide Val, Log2lin;
    var x := Loss(a, n);
    Counted(n, a, b, c, ca, cb, (ca + cb + n * 0x8000 - c) / 256);
    EndLoss(n);
    SplitIs(a, n);
    SplitIs(0, n);
    hide Loss, ProbSplit;
    OneBit(n, x);
  }

  lemma OneBit(n: nat, x: int)
    requires 2 <= n <= 30 && 0 <= x <= 128 * (n - 1)
    ensures Log2lin(x) > 0 && Log2lin(128 * n) > 0
    ensures 0x4000_0000 / Log2lin(x) > 0x4000_0000 / Log2lin(128 * n)
  {
    Log2linRises(x, 128 * (n - 1));
    WholePower(n - 1);
    WholePower(n);
    Log2linOctave(0);
    Log2linRises(0, x);
    assert Pow2(0) == 1 && Pow2(n) == 2 * Pow2(n - 1);
    hide Log2lin, Pow2;
    HalfPower(Log2lin(x), Log2lin(128 * n));
  }

  lemma WholePower(k: nat)
    requires k <= 30
    ensures Log2lin(128 * k) == Pow2(k) <= 0x4000_0000
  {
    hide Log2lin, Pow2;
    Log2linOctave(128 * k);
    OutBound(k);
    assert 128 * k / 128 == k && 128 * k % 128 == 0;
  }

  lemma Ahead9()
    ensures forall n :: 2 <= n <= 9 ==> Peaked(n)
  {
    hide Peaked, Val, UpTo;
    Measure5(); Measure11();
    Ahead(2, 1, 1, 32783, 107, 107); Ahead(3, 1, 2, 84821, 107, 32783); Ahead(4, 2, 2, 150242, 32783, 32783);
    Ahead(5, 2, 3, 224627, 32783, 84821); Ahead(6, 3, 3, 311238, 84821, 84821); Ahead(7, 3, 4, 404286, 84821, 150242);
    Ahead(8, 4, 4, 501326, 150242, 150242); Ahead(9, 4, 5, 600941, 150242, 224627);
  }

  lemma Ahead17()
    ensures forall n :: 10 <= n <= 17 ==> Peaked(n)
  {
    hide Peaked, Val, UpTo;
    Measure5(); Measure11(); Measure17();
    Ahead(10, 5, 5, 710807, 224627, 224627); Ahead(11, 5, 6, 825034, 224627, 311238);
    Ahead(12, 6, 6, 945282, 311238, 311238); Ahead(13, 6, 7, 1067327, 311238, 404286);
    Ahead(14, 7, 7, 1193343, 404286, 404286); Ahead(15, 7, 8, 1318594, 404286, 501326);
    Ahead(16, 8, 8, 1449992, 501326, 501326); Ahead(17, 8, 9, 1578575, 501326, 600941);
  }

  lemma Ahead25()
    ensures forall n :: 18 <= n <= 25 ==> Peaked(n)
  {
    hide Peaked, Val, UpTo;
    Measure11(); Measure17(); Measure23(); Measure29();
    Ahead(18, 9, 9, 1712280, 600941, 600941); Ahead(19, 9, 10, 1851107, 600941, 710807);
    Ahead(20, 10, 10, 1995054, 710807, 710807); Ahead(21, 10, 11, 2138619, 710807, 825034);
    Ahead(22, 11, 11, 2286793, 825034, 825034); Ahead(23, 11, 12, 2439575, 825034, 945282);
    Ahead(24, 12, 12, 2590694, 945282, 945282); Ahead(25, 12, 13, 2745909, 945282, 1067327);
  }

  lemma Ahead30()
    ensures forall n :: 26 <= n <= 30 ==> Peaked(n)
  {
    hide Peaked, Val, UpTo;
    Measure17(); Measure29(); Measure35();
    Ahead(26, 13, 13, 2898437, 1067327, 1067327); Ahead(27, 13, 14, 3054549, 1067327, 1193343);
    Ahead(28, 14, 14, 3214246, 1193343, 1193343); Ahead(29, 14, 15, 3369975, 1193343, 1318594);
    Ahead(30, 15, 15, 3528777, 1318594, 1318594);
  }

  /** The middle is above the ends for every total from 2 on, except 154, 158 and 159. */
  lemma MiddlePeaked(n: nat)
    requires 2 <= n <= NUM_SPLITS
    ensures var w := SplitWeights(n); w[n / 2 - SplitLow(n)] > w[0] <==> n != 154 && n != 158 && n != 159
  {
    WeightIs(n, 0);
    WeightIs(n, n / 2 - SplitLow(n));
    AllPeaked(n);
    hide ProbSplit, SplitWeights;
  }

  lemma AllPeaked(n: nat)
    requires 2 <= n <= NUM_SPLITS
    ensures Peaked(n) <==> n != 154 && n != 158 && n != 159
  {
    hide Peaked;
    if n <= 30 {
      Ahead9();
      Ahead17();
      Ahead25();
      Ahead30();
    } else if n <= 80 {
      PeakedTo80(n);
    } else {
      Gaps88(); Gaps96(); Gaps104(); Gaps112(); Gaps120(); Gaps128(); Gaps136(); Gaps144();
      Close149(); Close154(); Close159();
    }
  }

  lemma PeakedTo80(n: nat)
    requires 31 <= n <= 80
    ensures Peaked(n)
  {
    hide ProbSplit;
    MiddlePositive(n);
    SplitEnds(n);
  }
}
