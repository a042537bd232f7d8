/**
 The pulse tables as the program builds them: split tables from a fixed-point factorial, and all run-length tables.
 */
module PulseBuild {
  import opened Bytes
  import opened RangeSpec
  import opened Symbols
  import opened CdfTables
  import opened PulseTables
  import opened PulseCount

  const NUM_SPLITS := 159

  /** Logarithm of n factorial in base two, in 15 fractional bits. */
  function Stirling(n: nat): int
    requires n <= NUM_SPLITS
  {
    if n == 0 then 0 else Assembled(n, Lin2log(n))
  }

  function Assembled(n: nat, log: int): int
    requires n > 0
  {
    (2 * n + 1) * (log * 128) - 47274 * n + 43442 + 47274 / (12 * n)
  }

  /** Logarithm of the probability that n fair choices split into k and n - k. */
  function SplitLog(k: nat, n: nat): int
    requires k <= n <= NUM_SPLITS
  {
    Stirling(n) - Stirling(k) - Stirling(n - k) - n * 0x8000
  }

  // ----- no such logarithm is positive -----

  /** Position of the leading one, for the totals in question. */
  function Exponent(n: nat): nat {
    if n < 2 then 0 else if n < 4 then 1 else if n < 8 then 2 else if n < 16 then 3
    else if n < 32 then 4 else if n < 64 then 5 else if n < 128 then 6 else 7
  }

  function Scale(j: nat): nat {
    if j == 0 then 128 else if j == 1 then 64 else if j == 2 then 32 else if j == 3 then 16
    else if j == 4 then 8 else if j == 5 then 4 else if j == 6 then 2 else 1
  }

  /** The fixed-point logarithm where no bit of the fraction is lost. */
  function ShortLog(n: nat): int {
    var f := n * Scale(Exponent(n)) - 128;
    f + f * (128 - f) * 179 / 0x1_0000 + 128 * Exponent(n)
  }

  function Closed(n: nat): int { if n == 0 then 0 else Assembled(n, ShortLog(n)) }

  function Slope(j: nat): int {
    if j == 0 then 28750 else if j == 1 then 86750 else if j == 2 then 128500 else if j == 3 then 160000
      else if j == 4 then 186250 else 198500
  }

  function Intercept(j: nat): int {
    if j == 0 then -28643 else if j == 1 then -209262 else if j == 2 then -608906
    else if j == 3 then -1271223 else if j == 4 then -2294621 else -3031358
  }

  /** The line below the factorial's logarithm that serves a total of n. */
  function LineFor(n: nat): nat {
    if n < 7 then 0 else if n < 20 then 1 else if n < 43 then 2 else if n < 79 then 3 else if n < 128 then 4 else 5
  }

  predicate Above(n: nat, r: int, j: nat) { r >= Slope(j) * n + Intercept(j) }

  /** Above every line, and within n bits of twice its own at half the total. */
  predicate Tangent(n: nat, r: int) {
    && r >= 28750 * n - 28643 && r >= 86750 * n - 209262 && r >= 128500 * n - 608906
    && r >= 160000 * n - 1271223 && r >= 186250 * n - 2294621 && r >= 198500 * n - 3031358
    && (n > 0 ==> r <= n * 0x8000 + Slope(LineFor(n)) * n + 2 * Intercept(LineFor(n)))
  }

  /** What is known of the factorial's logarithm at n: its tangents, and how far it grows from n - 1. */
  predicate Measured(n: nat) {
    Tangent(n, Closed(n)) && (n > 0 ==> 0 <= Closed(n) - Closed(n - 1) <= 9 * 0x8000)
  }

  /** Everything up to n is measured, and n's own logarithm is r. */
  ghost predicate UpTo(n: nat, r: int) { Closed(n) == r && forall i :: 0 <= i <= n ==> Measured(i) }

  predicate Val(n: nat, r: int) { Closed(n) == r }

  /** One more total, from its logarithm's two parts as numbers. */
  lemma {:induction false} Next(n: nat, log: int, r0: int, r: int)
    requires n > 0 && UpTo(n - 1, r0)
    requires log == ShortLog(n) && r == Assembled(n, log) && Tangent(n, r) && 0 <= r - r0 <= 9 * 0x8000
    ensures UpTo(n, r) && Val(n, r)
  {
    hide Tangent, Assembled, ShortLog;
  }

  lemma Measure5()
    ensures UpTo(5, 224627)
    ensures Val(0, 0) && Val(1, 107) && Val(2, 32783) && Val(3, 84821) && Val(4, 150242) && Val(5, 224627)
  {
    assert UpTo(0, 0) && Val(0, 0);
    hide UpTo, Val;
    Next(1, 0, 0, 107); Next(2, 128, 107, 32783); Next(3, 203, 32783, 84821);
    Next(4, 256, 84821, 150242); Next(5, 296, 150242, 224627);
  }

  lemma Measure11()
    ensures UpTo(11, 825034)
    ensures Val(6, 311238) && Val(7, 404286) && Val(8, 501326) && Val(9, 600941) && Val(10, 710807)
      && Val(11, 825034)
  {
    Measure5();
    hide UpTo, Val;
    Next(6, 331, 224627, 311238); Next(7, 360, 311238, 404286); Next(8, 384, 404286, 501326);
    Next(9, 404, 501326, 600941); Next(10, 424, 600941, 710807); Next(11, 442, 710807, 825034);
  }

  lemma Measure17()
    ensures UpTo(17, 1578575)
    ensures Val(12, 945282) && Val(13, 1067327) && Val(14, 1193343) && Val(15, 1318594) && Val(16, 1449992)
      && Val(17, 1578575)
  {
    Measure11();
    hide UpTo, Val;
    Next(12, 459, 825034, 945282); Next(13, 474, 945282, 1067327); Next(14, 488, 1067327, 1193343);
    Next(15, 500, 1193343, 1318594); Next(16, 512, 1318594, 1449992); Next(17, 522, 1449992, 1578575);
  }

  lemma Measure23()
    ensures UpTo(23, 2439575)
    ensures Val(18, 1712280) && Val(19, 1851107) && Val(20, 1995054) && Val(21, 2138619) && Val(22, 2286793)
      && Val(23, 2439575)
  {
    Measure17();
    hide UpTo, Val;
    Next(18, 532, 1578575, 1712280); Next(19, 542, 1712280, 1851107); Next(20, 552, 1851107, 1995054);
    Next(21, 561, 1995054, 2138619); Next(22, 570, 2138619, 2286793); Next(23, 579, 2286793, 2439575);
  }

  lemma Measure29()
    ensures UpTo(29, 3369975)
    ensures Val(24, 2590694) && Val(25, 2745909) && Val(26, 2898437) && Val(27, 3054549) && Val(28, 3214246)
      && Val(29, 3369975)
  {
    Measure23();
    hide UpTo, Val;
    Next(24, 587, 2439575, 2590694); Next(25, 595, 2590694, 2745909); Next(26, 602, 2745909, 2898437);
    Next(27, 609, 2898437, 3054549); Next(28, 616, 3054549, 3214246); Next(29, 622, 3214246, 3369975);
  }

  lemma Measure35()
    ensures UpTo(35, 4341604)
    ensures Val(30, 3528777) && Val(31, 3690651) && Val(32, 3855597) && Val(33, 4015039) && Val(34, 4177041)
      && Val(35, 4341604)
  {
    Measure29();
    hide UpTo, Val;
    Next(30, 628, 3369975, 3528777); Next(31, 634, 3528777, 3690651); Next(32, 640, 3690651, 3855597);
    Next(33, 645, 3855597, 4015039); Next(34, 650, 4015039, 4177041); Next(35, 655, 4177041, 4341604);
  }

  lemma Measure41()
    ensures UpTo(41, 5382744)
    ensures Val(36, 4508727) && Val(37, 4678410) && Val(38, 4850653) && Val(39, 5025457) && Val(40, 5202820)
      && Val(41, 5382744)
  {
    Measure35();
    hide UpTo, Val;
    Next(36, 660, 4341604, 4508727); Next(37, 665, 4508727, 4678410); Next(38, 670, 4678410, 4850653);
    Next(39, 675, 4850653, 5025457); Next(40, 680, 5025457, 5202820); Next(41, 685, 5202820, 5382744);
  }

  lemma Measure47()
    ensures UpTo(47, 6467407)
    ensures Val(42, 5554347) && Val(43, 5739135) && Val(44, 5915091) && Val(45, 6093095) && Val(46, 6285051)
      && Val(47, 6467407)
  {
    Measure41();
    hide UpTo, Val;
    Next(42, 689, 5382744, 5554347); Next(43, 694, 5554347, 5739135); Next(44, 698, 5739135, 5915091);
    Next(45, 702, 5915091, 6093095); Next(46, 707, 6093095, 6285051); Next(47, 711, 6285051, 6467407);
  }

  lemma Measure53()
    ensures UpTo(53, 7590858)
    ensures Val(48, 6651812) && Val(49, 6838264) && Val(50, 7026764) && Val(51, 7204129) && Val(52, 7396469)
      && Val(53, 7590858)
  {
    Measure47();
    hide UpTo, Val;
    Next(48, 715, 6467407, 6651812); Next(49, 719, 6651812, 6838264); Next(50, 723, 6838264, 7026764);
    Next(51, 726, 7026764, 7204129); Next(52, 730, 7204129, 7396469); Next(53, 734, 7396469, 7590858);
  }

  lemma Measure59()
    ensures UpTo(59, 8724038)
    ensures Val(54, 7773342) && Val(55, 7971571) && Val(56, 8157384) && Val(57, 8344733) && Val(58, 8533617)
      && Val(59, 8724038)
  {
    Measure53();
    hide UpTo, Val;
    Next(54, 737, 7590858, 7773342); Next(55, 741, 7773342, 7971571); Next(56, 744, 7971571, 8157384);
    Next(57, 747, 8157384, 8344733); Next(58, 750, 8344733, 8533617); Next(59, 753, 8533617, 8724038);
  }

  lemma Measure65()
    ensures UpTo(65, 9882052)
    ensures Val(60, 8915995) && Val(61, 9109488) && Val(62, 9304517) && Val(63, 9501082) && Val(64, 9699183)
      && Val(65, 9882052)
  {
    Measure59();
    hide UpTo, Val;
    Next(60, 756, 8724038, 8915995); Next(61, 759, 8915995, 9109488); Next(62, 762, 9109488, 9304517);
    Next(63, 765, 9304517, 9501082); Next(64, 768, 9501082, 9699183); Next(65, 770, 9699183, 9882052);
  }

  lemma Measure71()
    ensures UpTo(71, 11073987)
    ensures Val(66, 10082969) && Val(67, 10268142) && Val(68, 10471875) && Val(69, 10677145)
      && Val(70, 10865902) && Val(71, 11073987)
  {
    Measure65();
    hide UpTo, Val;
    Next(66, 773, 9882052, 10082969); Next(67, 775, 10082969, 10268142); Next(68, 778, 10268142, 10471875);
    Next(69, 781, 10471875, 10677145); Next(70, 783, 10677145, 10865902); Next(71, 786, 10865902, 11073987);
  }

  lemma Measure77()
    ensures UpTo(77, 12295235)
    ensures Val(72, 11265048) && Val(73, 11475949) && Val(74, 11669315) && Val(75, 11883032)
      && Val(76, 12078701) && Val(77, 12295235)
  {
    Measure71();
    hide UpTo, Val;
    Next(72, 788, 11073987, 11265048); Next(73, 791, 11265048, 11475949); Next(74, 793, 11475949, 11669315);
    Next(75, 796, 11669315, 11883032); Next(76, 798, 11883032, 12078701); Next(77, 801, 12078701, 12295235);
  }

  lemma Measure83()
    ensures UpTo(83, 13541187)
    ensures Val(78, 12493208) && Val(79, 12712557) && Val(80, 12912835) && Val(81, 13114136)
      && Val(82, 13337582) && Val(83, 13541187)
  {
    Measure77();
    hide UpTo, Val;
    Next(78, 803, 12295235, 12493208); Next(79, 806, 12493208, 12712557); Next(80, 808, 12712557, 12912835);
    Next(81, 810, 12912835, 13114136); Next(82, 813, 13114136, 13337582); Next(83, 815, 13337582, 13541187);
  }

  lemma Measure89()
    ensures UpTo(89, 14807236)
    ensures Val(84, 13745816) && Val(85, 13951470) && Val(86, 14180291) && Val(87, 14388249)
      && Val(88, 14597230) && Val(89, 14807236)
  {
    Measure83();
    hide UpTo, Val;
    Next(84, 817, 13541187, 13745816); Next(85, 819, 13745816, 13951470); Next(86, 822, 13951470, 14180291);
    Next(87, 824, 14180291, 14388249); Next(88, 826, 14388249, 14597230); Next(89, 828, 14597230, 14807236);
  }

  lemma Measure95()
    ensures UpTo(95, 16113221)
    ensures Val(90, 15018265) && Val(91, 15230319) && Val(92, 15467076) && Val(93, 15681434)
      && Val(94, 15896815) && Val(95, 16113221)
  {
    Measure89();
    hide UpTo, Val;
    Next(90, 830, 14807236, 15018265); Next(91, 832, 15018265, 15230319); Next(92, 835, 15230319, 15467076);
    Next(93, 837, 15467076, 15681434); Next(94, 839, 15681434, 15896815); Next(95, 841, 15896815, 16113221);
  }

  lemma Measure101()
    ensures UpTo(101, 17407175)
    ensures Val(96, 16330651) && Val(97, 16549104) && Val(98, 16768582) && Val(99, 16989083)
      && Val(100, 17210609) && Val(101, 17407175)
  {
    Measure95();
    hide UpTo, Val;
    Next(96, 843, 16113221, 16330651); Next(97, 845, 16330651, 16549104); Next(98, 847, 16549104, 16768582);
    Next(99, 849, 16768582, 16989083); Next(100, 851, 16989083, 17210609); Next(101, 852, 17210609, 17407175);
  }

  lemma Measure107()
    ensures UpTo(107, 18734920)
    ensures Val(102, 17630492) && Val(103, 17854834) && Val(104, 18080199) && Val(105, 18306589)
      && Val(106, 18534003) && Val(107, 18734920)
  {
    Measure101();
    hide UpTo, Val;
    Next(102, 854, 17407175, 17630492); Next(103, 856, 17630492, 17854834); Next(104, 858, 17854834, 18080199);
    Next(105, 860, 18080199, 18306589); Next(106, 862, 18306589, 18534003); Next(107, 863, 18534003, 18734920);
  }

  lemma Measure113()
    ensures UpTo(113, 20096458)
    ensures Val(108, 18964126) && Val(109, 19194356) && Val(110, 19425609) && Val(111, 19629343)
      && Val(112, 19862389) && Val(113, 20096458)
  {
    Measure107();
    hide UpTo, Val;
    Next(108, 865, 18734920, 18964126); Next(109, 867, 18964126, 19194356); Next(110, 869, 19194356, 19425609);
    Next(111, 870, 19425609, 19629343); Next(112, 872, 19629343, 19862389); Next(113, 874, 19862389, 20096458);
  }

  lemma Measure119()
    ensures UpTo(119, 21430605)
    ensures Val(114, 20302240) && Val(115, 20538102) && Val(116, 20745163) && Val(117, 20982817)
      && Val(118, 21191159) && Val(119, 21430605)
  {
    Measure113();
    hide UpTo, Val;
    Next(114, 875, 20096458, 20302240); Next(115, 877, 20302240, 20538102); Next(116, 878, 20538102, 20745163);
    Next(117, 880, 20745163, 20982817); Next(118, 881, 20982817, 21191159); Next(119, 883, 21191159, 21430605);
  }

  lemma Measure125()
    ensures UpTo(125, 22760271)
    ensures Val(120, 21640226) && Val(121, 21881464) && Val(122, 22092366) && Val(123, 22335396)
      && Val(124, 22547577) && Val(125, 22760271)
  {
    Measure119();
    hide UpTo, Val;
    Next(120, 884, 21430605, 21640226); Next(121, 886, 21640226, 21881464); Next(122, 887, 21881464, 22092366);
    Next(123, 889, 22092366, 22335396); Next(124, 890, 22335396, 22547577); Next(125, 891, 22547577, 22760271);
  }

  lemma Measure131()
    ensures UpTo(131, 24148178)
    ensures Val(126, 23005861) && Val(127, 23219835) && Val(128, 23467216) && Val(129, 23682470)
      && Val(130, 23898236) && Val(131, 24148178)
  {
    Measure125();
    hide UpTo, Val;
    Next(126, 893, 22760271, 23005861); Next(127, 894, 23005861, 23219835); Next(128, 896, 23219835, 23467216);
    Next(129, 897, 23467216, 23682470); Next(130, 898, 23682470, 23898236); Next(131, 900, 23898236, 24148178);
  }

  lemma Measure137()
    ensures UpTo(137, 25493332)
    ensures Val(132, 24365223) && Val(133, 24582781) && Val(134, 24800851) && Val(135, 25054121)
      && Val(136, 25273470) && Val(137, 25493332)
  {
    Measure131();
    hide UpTo, Val;
    Next(132, 901, 24148178, 24365223); Next(133, 902, 24365223, 24582781); Next(134, 903, 24582781, 24800851);
    Next(135, 905, 24800851, 25054121); Next(136, 906, 25054121, 25273470); Next(137, 907, 25273470, 25493332);
  }

  lemma Measure143()
    ensures UpTo(143, 26896727)
    ensures Val(138, 25749162) && Val(139, 25970304) && Val(140, 26191958) && Val(141, 26450347)
      && Val(142, 26673281) && Val(143, 26896727)
  {
    Measure137();
    hide UpTo, Val;
    Next(138, 909, 25493332, 25749162); Next(139, 910, 25749162, 25970304); Next(140, 911, 25970304, 26191958);
    Next(141, 913, 26191958, 26450347); Next(142, 914, 26450347, 26673281); Next(143, 915, 26673281, 26896727);
  }

  lemma Measure149()
    ensures UpTo(149, 28324698)
    ensures Val(144, 27120685) && Val(145, 27382403) && Val(146, 27607640) && Val(147, 27833390)
      && Val(148, 28059652) && Val(149, 28324698)
  {
    Measure143();
    hide UpTo, Val;
    Next(144, 916, 26896727, 27120685); Next(145, 918, 27120685, 27382403); Next(146, 919, 27382403, 27607640);
    Next(147, 920, 27607640, 27833390); Next(148, 921, 27833390, 28059652); Next(149, 923, 28059652, 28324698);
  }

  lemma Measure155()
    ensures UpTo(155, 29737437)
    ensures Val(150, 28552240) && Val(151, 28780294) && Val(152, 29008859) && Val(153, 29277233)
      && Val(154, 29507079) && Val(155, 29737437)
  {
    Measure149();
    hide UpTo, Val;
    Next(150, 924, 28324698, 28552240); Next(151, 925, 28552240, 28780294); Next(152, 926, 28780294, 29008859);
    Next(153, 928, 29008859, 29277233); Next(154, 929, 29277233, 29507079); Next(155, 930, 29507079, 29737437);
  }

  lemma Measure159()
    ensures UpTo(159, 30704820)
    ensures Val(156, 29968307) && Val(157, 30199689) && Val(158, 30472158) && Val(159, 30704820)
  {
    Measure155();
    hide UpTo, Val;
    Next(156, 931, 29737437, 29968307); Next(157, 932, 29968307, 30199689); Next(158, 934, 30199689, 30472158);
    Next(159, 935, 30472158, 30704820);
  }

  lemma AllMeasured(n: nat)
    requires n <= NUM_SPLITS
    ensures Measured(n)
  {
    Measure159();
    hide Measured;
  }

  /** Where no bit is lost, the logarithm is the short one. */
  lemma ShortLogIs(n: nat)
    requires 0 < n <= NUM_SPLITS
    ensures Lin2log(n) == ShortLog(n)
  {
    var j := Exponent(n);
    LeadingOne(n, j);
    FractionIs(n, j);
    CurveBound(n * Scale(j) - 128);
    assert Low16Signed(179) == 179;
  }

  lemma LeadingOne(n: nat, j: nat)
    requires 0 < n <= NUM_SPLITS && j == Exponent(n)
    ensures Ilog(n) == j + 1
  {
    Pow2Values();
    assert Pow2(0) == 1 && Pow2(1) == 2 && Pow2(2) == 4 && Pow2(3) == 8 && Pow2(4) == 16 && Pow2(5) == 32
      && Pow2(6) == 64 && Pow2(7) == 128;
    if Ilog(n) > j + 1 { Pow2Grows(j + 1, Ilog(n) - 1); }
    if Ilog(n) < j + 1 { Pow2Grows(Ilog(n), j); }
  }

  lemma FractionIs(n: nat, j: nat)
    requires 0 < n <= NUM_SPLITS && j == Exponent(n)
    ensures Fraction(n, j + 1) == n * Scale(j) - 128 && 0 <= n * Scale(j) - 128 < 128
  {
    assert Pow2(0) == 1 && Pow2(1) == 2 && Pow2(2) == 4 && Pow2(3) == 8 && Pow2(4) == 16 && Pow2(5) == 32
      && Pow2(6) == 64 && Pow2(7) == 128;
  }

  lemma StirlingIs(n: nat)
    requires n <= NUM_SPLITS
    ensures Stirling(n) == Closed(n) && Measured(n)
  {
    if n > 0 { ShortLogIs(n); }
    AllMeasured(n);
  }

  lemma AnyLine(n: nat, r: int, j: nat)
    requires Tangent(n, r) && j < 6
    ensures Above(n, r, j)
  {}

  /** No split is more likely than certain: its logarithm is never positive. */
  lemma SplitLogNotPositive(k: nat, n: nat)
    requires k <= n <= NUM_SPLITS && n > 0
    ensures SplitLog(k, n) <= 0
  {
    var j := LineFor(n);
    StirlingIs(n);
    StirlingIs(k);
    StirlingIs(n - k);
    AnyLine(k, Closed(k), j);
    AnyLine(n - k, Closed(n - k), j);
    Halves(Slope(j), k, n);
    hide Stirling, Closed, Slope, Intercept;
  }

  lemma Halves(s: int, k: nat, n: nat)
    requires k <= n
    ensures s * k + s * (n - k) == s * n
  {}

  /** The middle split loses at most 28 bits. */
  lemma MiddleLikely(n: nat)
    requires 0 < n <= NUM_SPLITS
    ensures SplitLog(n / 2, n) >= -28 * 0x8000
  {
    var m := n / 2;
    StirlingIs(n);
    StirlingIs(m);
    StirlingIs(n - m);
    StirlingIs(2 * m);
    if m > 0 { Doubled(m); }
    hide Stirling, Closed, Tangent;
    assert n == 2 * m || n == 2 * m + 1;
  }

  /** Twice the total, by the exact step of the logarithm at a doubling. */
  lemma Doubled(m: nat)
    requires 0 < m && 2 * m <= NUM_SPLITS
    ensures Closed(2 * m) - 2 * Closed(m) - 2 * m * 0x8000 >= -8 * 0x8000
  {
    var log := ShortLog(m);
    LogDoubled(m);
    hide ShortLog;
    DoubleProduct(m, log);
    Decays(m);
  }

  lemma LogDoubled(m: nat)
    requires 0 < m && 2 * m <= NUM_SPLITS
    ensures ShortLog(2 * m) == ShortLog(m) + 128 && ShortLog(m) <= 1034
  {
    ScaleDoubled(m);
    FractionIs(m, Exponent(m));
    FracBound(m * Scale(Exponent(m)) - 128);
    hide Exponent, Scale;
  }

  lemma ScaleDoubled(m: nat)
    requires 0 < m && 2 * m <= NUM_SPLITS
    ensures Exponent(2 * m) == Exponent(m) + 1 <= 7 && 2 * m * Scale(Exponent(2 * m)) == m * Scale(Exponent(m))
  {}

  lemma DoubleProduct(m: nat, log: int)
    ensures (2 * (2 * m) + 1) * ((log + 128) * 128) == 2 * ((2 * m + 1) * (log * 128)) - log * 128 + 65536 * m + 16384
  {
    var x := m * log;
    assert (2 * m + 1) * (log * 128) == 256 * x + 128 * log;
    assert (2 * (2 * m) + 1) * ((log + 128) * 128) == 512 * x + 128 * log + 65536 * m + 16384;
  }

  lemma Decays(m: nat)
    requires m > 0
    ensures 0 <= 47274 / (12 * m) <= 3939 && 0 <= 47274 / (12 * (2 * m))
  {
    SmallQuotient(47274, 12 * m);
    SmallQuotient(47274, 12 * (2 * m));
  }

  lemma SmallQuotient(a: nat, b: nat)
    requires b >= 12
    ensures 0 <= a / b <= a / 12
  {
    var q := a / b;
    assert q * b <= a;
    MulMono(q, 12, b);
  }

  // ----- the tables -----

  /** Probability of a split, against 2^30 for certainty. */
  function ProbSplit(k: nat, n: nat): (p: i32)
    requires k <= n <= NUM_SPLITS && n > 0
    ensures p >= 0
  {
    hide Log2lin, SplitLog;
    SplitLogNotPositive(k, n);
    Share30(Log2lin(-SplitLog(k, n) / 256));
    if SplitLog(k, n) == 0 then 0x4000_0000 else 0x4000_0000 / Log2lin(-SplitLog(k, n) / 256)
  }

  lemma Share30(x: nat)
    requires x >= 1
    ensures 0 <= 0x4000_0000 / x <= 0x4000_0000 && (x <= 0x4000_0000 ==> 0x4000_0000 / x >= 1)
  {}

  lemma MiddlePositive(n: nat)
    requires 0 < n <= NUM_SPLITS
    ensures ProbSplit(n / 2, n) > 0
  {
    hide Log2lin, SplitLog;
    MiddleLikely(n);
    SplitLogNotPositive(n / 2, n);
    SmallPower(-SplitLog(n / 2, n) / 256);
    Share30(Log2lin(-SplitLog(n / 2, n) / 256));
  }

  /** Below 2^29 the power of two is below the certainty. */
  lemma SmallPower(x: int)
    requires 0 <= x <= 28 * 128
    ensures 1 <= Log2lin(x) <= 0x4000_0000
  {
    OutBound(x / 128);
    Pow2Grows(x / 128, 28);
    Pow2Values();
    assert Pow2(30) == 2 * Pow2(29) && Pow2(29) == 2 * Pow2(28);
    InnerBound(x % 128);
  }

  /** The weights of one split table: from the least first half to the greatest. */
  function SplitWeights(n: nat): (w: seq<i32>)
    requires 0 < n <= NUM_SPLITS
    ensures |w| == n - 2 * SplitLow(n) + 1 && forall i :: 0 <= i < |w| ==> w[i] >= 0
  {
    seq(n - 2 * SplitLow(n) + 1, i requires 0 <= i <= n - 2 * SplitLow(n) => SplitWeight(n, i))
  }

  function SplitWeight(n: nat, i: nat): (p: i32)
    requires 0 < n <= NUM_SPLITS && i <= n - 2 * SplitLow(n)
    ensures p >= 0
  {
    ProbSplit(SplitLow(n) + i, n)
  }

  /** One split table's weights, the middle one positive. */
  method SplitPdf(n: nat) returns (pdf: seq<i32>)
    requires 0 < n <= NUM_SPLITS
    ensures pdf == SplitWeights(n) && Pdf(pdf)
  {
    hide ProbSplit;
    var minSplit := SplitLow(n);
    var maxSplit := n - minSplit;
    pdf := [];
    for k := minSplit to maxSplit + 1
      invariant |pdf| == k - minSplit && forall i :: 0 <= i < |pdf| ==> pdf[i] == ProbSplit(minSplit + i, n)
    {
      pdf := pdf + [ProbSplit(k, n)];
    }
    MiddlePositive(n);
    assert pdf[n / 2 - minSplit] > 0;
  }

  /** The first k tables share their ranges out by the split weights of 1 to k pulses. */
  ghost predicate SplitsAre(cmfs: seq<Cdf>, k: nat) {
    k <= NUM_SPLITS && |cmfs| == k && forall i :: 0 <= i < k ==> Proportional(cmfs[i], SplitWeights(i + 1))
  }

  method CreateSplitCmfs() returns (cmfs: seq<Cdf>)
    ensures |cmfs| == NUM_SPLITS && forall i :: 0 <= i < NUM_SPLITS ==> SplitOk(cmfs[i], i + 1)
    ensures SplitsAre(cmfs, NUM_SPLITS)
  {
    hide SplitsAre, SplitOk;
    cmfs := [];
    assert SplitsAre(cmfs, 0) by { NoSplitsYet(); }
    for n := 1 to NUM_SPLITS + 1
      invariant |cmfs| == n - 1 && forall i :: 0 <= i < |cmfs| ==> SplitOk(cmfs[i], i + 1)
      invariant SplitsAre(cmfs, n - 1)
    {
      var cmf := SplitCmf(n);
      OneMoreSplit(cmfs, cmf, n);
      cmfs := cmfs + [cmf];
    }
  }

  method SplitCmf(n: nat) returns (c: Cdf)
    requires 0 < n <= NUM_SPLITS
    ensures SplitOk(c, n) && Proportional(c, SplitWeights(n))
  {
    hide Proportional, Pdf, Increasing;
    var p := SplitPdf(n);
    var cmf := PdfToCmf(p);
    c := cmf[..];
  }

  lemma NoSplitsYet()
    ensures SplitsAre([], 0)
  {}

  lemma OneMoreSplit(cmfs: seq<Cdf>, c: Cdf, n: nat)
    requires 0 < n <= NUM_SPLITS && SplitsAre(cmfs, n - 1) && Proportional(c, SplitWeights(n))
    ensures SplitsAre(cmfs + [c], n)
  {
    hide Proportional, SplitWeights;
  }

  /** All pulse tables, as built, share their ranges out by these weights, and are well formed with nothing assumed. */
  method BuildPulseTabs() returns (t: PulseTabs)
    ensures PulseOk(t) && SplitsAre(t.splitCmfs, NUM_SPLITS)
    ensures |t.runlen| == 20 && forall o :: 0 <= o < 20 ==>
      RunlenIs(8 * (o + 1), t.runlen[o].cmfs, MAX_PULSES_PER_SF)
  {
    hide Proportional, SplitsAre, RunlenIs;
    var splits := CreateSplitCmfs();
    var runlen: seq<Runlen> := [];
    for oct := 1 to 21
      invariant |runlen| == oct - 1
      invariant forall o :: 0 <= o < |runlen| ==>
        runlen[o].maxSamples == 8 * (o + 1) && RunlenOk(8 * (o + 1), runlen[o].cmfs)
          && RunlenIs(8 * (o + 1), runlen[o].cmfs, MAX_PULSES_PER_SF)
    {
      var cmfs := CreateRunlenTable(8 * oct);
      runlen := runlen + [Runlen(8 * oct, cmfs)];
    }
    t := PulseTabs(splits, runlen);
  }
}
