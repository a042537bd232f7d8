/** Where the roots of the search lie: the sign changes it reports, and the eighth of a table cell around each. */
module A2NlsfRoots {
  import opened GainBlock
  import CdfTables
  import opened A2NlsfPoly
  import opened A2Nlsf

  // ----- the table -----

  /** Twice the square of a cosine, less one, is the cosine of twice the angle; here within four units of 2^-13. */
  predicate Doubles(x: int, y: int) { Mag(2 * x * x - 8192 * (y + 8192)) <= 4 * 8192 }

  lemma TableParts()
    ensures forall i :: 0 <= i < 32 ==> Second()[i] == FirstHalf()[8 + i]
    ensures forall i :: 0 <= i < 25 ==> Third()[i] == FirstHalf()[40 + i]
  {
    hide Second, Third;
  }

  lemma Entries8()
    ensures var t := FirstHalf();
      && t[0] == 8192 && t[1] == 8190 && t[2] == 8182 && t[3] == 8170 && t[4] == 8152 && t[5] == 8130
      && t[6] == 8104 && t[7] == 8072
  {}

  lemma Own24()
    ensures var s := Second();
      && s[0] == 8034 && s[1] == 7994 && s[2] == 7946 && s[3] == 7896 && s[4] == 7840 && s[5] == 7778
      && s[6] == 7714 && s[7] == 7644 && s[8] == 7568 && s[9] == 7490 && s[10] == 7406 && s[11] == 7318
      && s[12] == 7226 && s[13] == 7128 && s[14] == 7026 && s[15] == 6922
  {}

  lemma Entries24()
    ensures var t := FirstHalf();
      && t[8] == 8034 && t[9] == 7994 && t[10] == 7946 && t[11] == 7896 && t[12] == 7840 && t[13] == 7778
      && t[14] == 7714 && t[15] == 7644 && t[16] == 7568 && t[17] == 7490 && t[18] == 7406 && t[19] == 7318
      && t[20] == 7226 && t[21] == 7128 && t[22] == 7026 && t[23] == 6922
  {
    TableParts();
    Own24();
    hide FirstHalf, Second;
  }

  lemma Own40()
    ensures var s := Second();
      && s[16] == 6812 && s[17] == 6698 && s[18] == 6580 && s[19] == 6458 && s[20] == 6332 && s[21] == 6204
      && s[22] == 6070 && s[23] == 5934 && s[24] == 5792 && s[25] == 5648 && s[26] == 5502 && s[27] == 5352
      && s[28] == 5198 && s[29] == 5040 && s[30] == 4880 && s[31] == 4718
  {}

  lemma Entries40()
    ensures var t := FirstHalf();
      && t[24] == 6812 && t[25] == 6698 && t[26] == 6580 && t[27] == 6458 && t[28] == 6332 && t[29] == 6204
      && t[30] == 6070 && t[31] == 5934 && t[32] == 5792 && t[33] == 5648 && t[34] == 5502 && t[35] == 5352
      && t[36] == 5198 && t[37] == 5040 && t[38] == 4880 && t[39] == 4718
  {
    TableParts();
    Own40();
    hide FirstHalf, Second;
  }

  lemma Own52()
    ensures var s := Third();
      && s[0] == 4552 && s[1] == 4382 && s[2] == 4212 && s[3] == 4038 && s[4] == 3862 && s[5] == 3684
      && s[6] == 3502 && s[7] == 3320 && s[8] == 3136 && s[9] == 2948 && s[10] == 2760 && s[11] == 2570
  {}

  lemma Entries52()
    ensures var t := FirstHalf();
      && t[40] == 4552 && t[41] == 4382 && t[42] == 4212 && t[43] == 4038 && t[44] == 3862 && t[45] == 3684
      && t[46] == 3502 && t[47] == 3320 && t[48] == 3136 && t[49] == 2948 && t[50] == 2760 && t[51] == 2570
  {
    TableParts();
    Own52();
    hide FirstHalf, Third;
  }

  lemma Own65()
    ensures var s := Third();
      && s[12] == 2378 && s[13] == 2186 && s[14] == 1990 && s[15] == 1794 && s[16] == 1598 && s[17] == 1400
      && s[18] == 1202 && s[19] == 1002 && s[20] == 802 && s[21] == 602 && s[22] == 402 && s[23] == 202
      && s[24] == 0
  {}

  lemma Entries65()
    ensures var t := FirstHalf();
      && t[52] == 2378 && t[53] == 2186 && t[54] == 1990 && t[55] == 1794 && t[56] == 1598 && t[57] == 1400
      && t[58] == 1202 && t[59] == 1002 && t[60] == 802 && t[61] == 602 && t[62] == 402 && t[63] == 202
      && t[64] == 0
  {
    TableParts();
    Own65();
    hide FirstHalf, Third;
  }

  lemma AllEntries()
    ensures var t := FirstHalf();
      && t[0] == 8192 && t[1] == 8190 && t[2] == 8182 && t[3] == 8170 && t[4] == 8152 && t[5] == 8130
      && t[6] == 8104 && t[7] == 8072 && t[8] == 8034 && t[9] == 7994 && t[10] == 7946 && t[11] == 7896
      && t[12] == 7840 && t[13] == 7778 && t[14] == 7714 && t[15] == 7644 && t[16] == 7568 && t[17] == 7490
      && t[18] == 7406 && t[19] == 7318 && t[20] == 7226 && t[21] == 7128 && t[22] == 7026 && t[23] == 6922
      && t[24] == 6812 && t[25] == 6698 && t[26] == 6580 && t[27] == 6458 && t[28] == 6332 && t[29] == 6204
      && t[30] == 6070 && t[31] == 5934 && t[32] == 5792 && t[33] == 5648 && t[34] == 5502 && t[35] == 5352
      && t[36] == 5198 && t[37] == 5040 && t[38] == 4880 && t[39] == 4718 && t[40] == 4552 && t[41] == 4382
      && t[42] == 4212 && t[43] == 4038 && t[44] == 3862 && t[45] == 3684 && t[46] == 3502 && t[47] == 3320
      && t[48] == 3136 && t[49] == 2948 && t[50] == 2760 && t[51] == 2570 && t[52] == 2378 && t[53] == 2186
      && t[54] == 1990 && t[55] == 1794 && t[56] == 1598 && t[57] == 1400 && t[58] == 1202 && t[59] == 1002
      && t[60] == 802 && t[61] == 602 && t[62] == 402 && t[63] == 202 && t[64] == 0
  {
    hide FirstHalf;
    Entries8();
    Entries24();
    Entries40();
    Entries52();
    Entries65();
  }

  ghost predicate DoublesAt(i: nat)
    requires i <= 64
  {
    Doubles(CosTab()[i], CosTab()[2 * i])
  }

  /** From the two numbers. */
  lemma Entry(i: nat, x: int, y: int)
    requires i <= 64 && FirstHalf()[i] == x && Doubles(x, y)
    requires if i <= 32 then FirstHalf()[2 * i] == y else FirstHalf()[128 - 2 * i] == -y
    ensures DoublesAt(i)
  {
    hide FirstHalf, Doubles;
  }

  lemma Doubles17()
    ensures forall i :: 0 <= i < 17 ==> DoublesAt(i)
  {
    AllEntries();
    hide FirstHalf, DoublesAt;
    Entry(0, 8192, 8192); Entry(1, 8190, 8182); Entry(2, 8182, 8152); Entry(3, 8170, 8104); Entry(4, 8152, 8034);
    Entry(5, 8130, 7946); Entry(6, 8104, 7840); Entry(7, 8072, 7714); Entry(8, 8034, 7568); Entry(9, 7994, 7406);
    Entry(10, 7946, 7226); Entry(11, 7896, 7026); Entry(12, 7840, 6812); Entry(13, 7778, 6580);
    Entry(14, 7714, 6332); Entry(15, 7644, 6070); Entry(16, 7568, 5792);
  }

  lemma Doubles33()
    ensures forall i :: 17 <= i < 33 ==> DoublesAt(i)
  {
    AllEntries();
    hide FirstHalf, DoublesAt;
    Entry(17, 7490, 5502); Entry(18, 7406, 5198); Entry(19, 7318, 4880); Entry(20, 7226, 4552);
    Entry(21, 7128, 4212); Entry(22, 7026, 3862); Entry(23, 6922, 3502); Entry(24, 6812, 3136);
    Entry(25, 6698, 2760); Entry(26, 6580, 2378); Entry(27, 6458, 1990); Entry(28, 6332, 1598);
    Entry(29, 6204, 1202); Entry(30, 6070, 802); Entry(31, 5934, 402); Entry(32, 5792, 0);
  }

  lemma Doubles49()
    ensures forall i :: 33 <= i < 49 ==> DoublesAt(i)
  {
    AllEntries();
    hide FirstHalf, DoublesAt;
    Entry(33, 5648, -402); Entry(34, 5502, -802); Entry(35, 5352, -1202); Entry(36, 5198, -1598);
    Entry(37, 5040, -1990); Entry(38, 4880, -2378); Entry(39, 4718, -2760); Entry(40, 4552, -3136);
    Entry(41, 4382, -3502); Entry(42, 4212, -3862); Entry(43, 4038, -4212); Entry(44, 3862, -4552);
    Entry(45, 3684, -4880); Entry(46, 3502, -5198); Entry(47, 3320, -5502); Entry(48, 3136, -5792);
  }

  lemma Doubles65()
    ensures forall i :: 49 <= i < 65 ==> DoublesAt(i)
  {
    AllEntries();
    hide FirstHalf, DoublesAt;
    Entry(49, 2948, -6070); Entry(50, 2760, -6332); Entry(51, 2570, -6580); Entry(52, 2378, -6812);
    Entry(53, 2186, -7026); Entry(54, 1990, -7226); Entry(55, 1794, -7406); Entry(56, 1598, -7568);
    Entry(57, 1400, -7714); Entry(58, 1202, -7840); Entry(59, 1002, -7946); Entry(60, 802, -8034);
    Entry(61, 602, -8104); Entry(62, 402, -8152); Entry(63, 202, -8182); Entry(64, 0, -8192);
  }

  /** The cosine table satisfies the double-angle formula at every angle of its first half. */
  lemma TableDoubles(i: nat)
    requires i <= 64
    ensures Doubles(CosTab()[i], CosTab()[2 * i])
  {
    Doubles17();
    Doubles33();
    Doubles49();
    Doubles65();
    assert DoublesAt(i);
    hide CosTab, Doubles;
  }

  predicate FallsAt(i: nat)
    requires i < 64
  {
    FirstHalf()[i + 1] < FirstHalf()[i]
  }

  lemma EachFalls()
    ensures FallsAt(0) && FallsAt(1) && FallsAt(2) && FallsAt(3) && FallsAt(4) && FallsAt(5) && FallsAt(6) && FallsAt(7)
      && FallsAt(8) && FallsAt(9) && FallsAt(10) && FallsAt(11) && FallsAt(12) && FallsAt(13) && FallsAt(14)
      && FallsAt(15) && FallsAt(16) && FallsAt(17) && FallsAt(18) && FallsAt(19) && FallsAt(20) && FallsAt(21)
      && FallsAt(22) && FallsAt(23) && FallsAt(24) && FallsAt(25) && FallsAt(26) && FallsAt(27) && FallsAt(28)
      && FallsAt(29) && FallsAt(30) && FallsAt(31) && FallsAt(32) && FallsAt(33) && FallsAt(34) && FallsAt(35)
      && FallsAt(36) && FallsAt(37) && FallsAt(38) && FallsAt(39) && FallsAt(40) && FallsAt(41) && FallsAt(42)
      && FallsAt(43) && FallsAt(44) && FallsAt(45) && FallsAt(46) && FallsAt(47) && FallsAt(48) && FallsAt(49)
      && FallsAt(50) && FallsAt(51) && FallsAt(52) && FallsAt(53) && FallsAt(54) && FallsAt(55) && FallsAt(56)
      && FallsAt(57) && FallsAt(58) && FallsAt(59) && FallsAt(60) && FallsAt(61) && FallsAt(62) && FallsAt(63)
  {
    AllEntries();
    hide FirstHalf;
  }

  lemma FirstHalfFalls(i: nat)
    requires i < 64
    ensures FallsAt(i)
  {
    EachFalls();
    hide FallsAt;
  }

  /** It falls strictly, and opposite angles have opposite values. */
  lemma TableFalls(i: nat)
    requires i <= TABLE
    ensures CosTab()[TABLE - i] == -CosTab()[i]
    ensures i < TABLE ==> CosTab()[i + 1] < CosTab()[i]
  {
    MiddleEntry();
    if i < TABLE { FirstHalfFalls(if i < 64 then i else TABLE - 1 - i); }
    hide FirstHalf;
  }

  lemma MiddleEntry()
    ensures FirstHalf()[64] == 0
  {
    AllEntries();
  }

  // ----- the bracket's points -----

  /** Rounding up of m midpoints, in 256ths of a unit. */
  const SLACK := 128

  /** x is frac 256ths of the way from one end of a cell to the other, at most e 256ths of a unit above. */
  predicate At(x: int, from: int, to: int, frac: int, e: int) { 0 <= 256 * (x - from) - frac * (to - from) <= e }

  /** Where the bracket stands in cell from..to before bisection m. */
  predicate Placed(from: int, to: int, xl: i32, xh: i32, frac: int, m: nat) {
    && m <= BISECTIONS && Mag(xl) <= X_MAX && Mag(xh) <= X_MAX
    && At(xl, from, to, frac + 256, m * SLACK) && At(xh, from, to, frac + 256 + Width(m), m * SLACK)
  }

  /** Share of the cell that is left before bisection m. */
  function Width(m: nat): int
    requires m <= BISECTIONS
  {
    if m == 0 then 256 else if m == 1 then 128 else if m == 2 then 64 else 32
  }

  lemma MiddleIs(a: i32, b: i32)
    requires Mag(a) <= X_MAX && Mag(b) <= X_MAX
    ensures Mag(Middle(a, b)) <= X_MAX && a as int + b as int <= 2 * Middle(a, b) as int <= a as int + b as int + 1
  {}

  /** A midpoint lies half way, rounded up. */
  lemma HalfWay(xl: i32, xh: i32, from: int, to: int, f: int, w: int, e: int)
    requires Mag(xl) <= X_MAX && Mag(xh) <= X_MAX && At(xl, from, to, f, e) && At(xh, from, to, f + 2 * w, e) && e >= 0
    ensures Mag(Middle(xl, xh)) <= X_MAX && At(Middle(xl, xh), from, to, f + w, e + SLACK)
    ensures At(xl, from, to, f, e + SLACK) && At(xh, from, to, f + 2 * w, e + SLACK)
  {
    hide Middle;
    MiddleIs(xl, xh);
    var d := to - from;
    assert (f + 2 * w) * d == f * d + 2 * (w * d) && (f + w) * d == f * d + w * d;
  }

  /** The lower end is the polynomial's value there, or still the value the search came with at the cell's start. */
  predicate LowerIs(p: seq<i32>, xl: i32, yl: i32, frac: int, start: i32, y0: i32)
    requires p != []
  {
    if frac > -256 then yl == Eval(p, xl) else xl == start && yl == y0
  }

  lemma BracketStep(p: seq<i32>, xl: i32, yl: i32, xh: i32, yh: i32, frac: int, m: nat)
    requires p != [] && m <= BISECTIONS
    ensures Halved(p, xl, yl, xh, yh, frac, m) ==
      if m == BISECTIONS then Bracket(yl, yh, frac, xl, xh)
      else if Opposed(yl, Eval(p, Middle(xl, xh)))
        then Halved(p, xl, yl, Middle(xl, xh), Eval(p, Middle(xl, xh)), frac, m + 1)
        else Halved(p, Middle(xl, xh), Eval(p, Middle(xl, xh)), xh, yh, frac + Share(m), m + 1)
  {
    hide Eval, Middle;
  }

  /** Before bisection m: ends on opposite sides, values those of the polynomial, points where the fraction says. */
  predicate Held(p: seq<i32>, from: i32, to: i32, y0: i32, b: Bracket, m: nat)
    requires p != []
  {
    && Placed(from as int, to as int, b.xl, b.xh, b.frac, m) && b.frac >= -256 && b.frac % 32 == 0
    && Opposed(b.lo, b.hi) && b.hi == Eval(p, b.xh) && LowerIs(p, b.xl, b.lo, b.frac, from, y0)
  }

  lemma HeldStep(p: seq<i32>, from: i32, to: i32, y0: i32, b: Bracket, m: nat)
    requires p != [] && m < BISECTIONS && Held(p, from, to, y0, b, m)
    ensures var xm := Middle(b.xl, b.xh); var ym := Eval(p, xm);
      Held(p, from, to, y0, if Opposed(b.lo, ym) then Bracket(b.lo, ym, b.frac, b.xl, xm)
        else Bracket(ym, b.hi, b.frac + Share(m), xm, b.xh), m + 1)
  {
    hide Eval, Middle, At;
    HalfWay(b.xl, b.xh, from as int, to as int, b.frac + 256, Width(m + 1), m * SLACK);
  }

  /**
   Three bisections: the ends stay on opposite sides, are the polynomial's values at their points, and the points are an
   eighth of the cell apart, where the fraction says, up to the rounding of the halvings.
   */
  lemma {:induction false} BracketPlaced(p: seq<i32>, from: i32, to: i32, y0: i32, b: Bracket, m: nat)
    requires p != [] && m <= BISECTIONS && Held(p, from, to, y0, b, m)
    ensures Held(p, from, to, y0, Halved(p, b.xl, b.lo, b.xh, b.hi, b.frac, m), BISECTIONS)
    decreases BISECTIONS - m
  {
    hide Eval, Middle, Held, Halved, Opposed;
    BracketStep(p, b.xl, b.lo, b.xh, b.hi, b.frac, m);
    if m < BISECTIONS {
      HeldStep(p, from, to, y0, b, m);
      var xm := Middle(b.xl, b.xh);
      var ym := Eval(p, xm);
      BracketPlaced(p, from, to, y0, if Opposed(b.lo, ym) then Bracket(b.lo, ym, b.frac, b.xl, xm)
        else Bracket(ym, b.hi, b.frac + Share(m), xm, b.xh), m + 1);
    } else {
      assert b == Bracket(b.lo, b.hi, b.frac, b.xl, b.xh);
    }
  }

  // ----- every root -----

  /** The polynomial root i is a root of. */
  function PolyOf(a: seq<i32>, i: nat): (p: seq<i32>)
    requires |a| % 2 == 0 && |a| >= 2
    ensures p != []
  {
    Poly(a, i % 2 == 1)
  }

  /** No earlier root was found by looking in the same cell. */
  predicate FirstInCell(sites: seq<Site>, i: nat)
    requires i < |sites|
  {
    i == 0 || sites[i - 1].Edge? || CellOf(sites[i - 1]) < CellOf(sites[i])
  }

  /** Ends on opposite sides, an eighth of cell k apart; the frequency is where a line between the values is zero. */
  ghost predicate Bracketed(tab: seq<Cosine>, p: seq<i32>, k: nat, b: Bracket, freq: int)
    requires |tab| == TABLE + 1 && p != []
  {
    && 1 <= k <= TABLE && -256 <= b.frac && b.frac % 32 == 0
    && Placed(tab[k - 1], tab[k], b.xl, b.xh, b.frac, BISECTIONS)
    && Opposed(b.lo, b.hi) && b.hi == Eval(p, b.xh) && (b.frac == -256 ==> b.xl as int == tab[k - 1])
    && Interpolated(b.lo, b.hi).Some? && freq == Found(k, b.frac, Interpolated(b.lo, b.hi).q)
  }

  /** The table step the search for root i starts from. */
  function FromCell(sites: seq<Site>, i: nat): nat
    requires i <= |sites|
  {
    if i == 0 then 1 else CellOf(sites[i - 1])
  }

  /** The search for root i starts with a sign taken for granted, in the cell of the root before. */
  predicate Assumes(sites: seq<Site>, i: nat)
    requires i <= |sites|
  {
    i > 0 && sites[i - 1].Cell?
  }

  /** Polynomial i does not change sign over table step j; from an assumed sign it may meet zero at the step's end. */
  ghost predicate NoChange(tab: seq<Cosine>, a: seq<i32>, sites: seq<Site>, i: nat, j: nat)
    requires |tab| == TABLE + 1 && |a| % 2 == 0 && |a| >= 2 && i <= |sites| && 1 <= j <= TABLE
  {
    var z := Eval(PolyOf(a, i), tab[j]);
    if Assumes(sites, i) && j == FromCell(sites, i) then SameSide(StartValue(i) as int, z as int)
    else !Opposed(Eval(PolyOf(a, i), tab[j - 1]), z)
  }

  predicate SameSide(y: int, z: int) { (y > 0 ==> z >= 0) && (y < 0 ==> z <= 0) }

  /** No sign change of polynomial i before table step k is passed over. */
  ghost predicate NoneMissed(tab: seq<Cosine>, a: seq<i32>, sites: seq<Site>, i: nat, k: nat)
    requires |tab| == TABLE + 1 && |a| % 2 == 0 && |a| >= 2 && i <= |sites| && k <= TABLE + 1
  {
    && 1 <= FromCell(sites, i) <= k
    && forall j :: FromCell(sites, i) <= j < k ==> NoChange(tab, a, sites, i, j)
  }

  /**
   How root i was found. The lower end is the polynomial's own value unless the bracket starts at the edge of a cell
   that already gave a root: there the search takes the sign for granted.
   */
  ghost predicate RootAt(tab: seq<Cosine>, a: seq<i32>, freqs: seq<int>, sites: seq<Site>, i: nat)
    requires |tab| == TABLE + 1 && |a| % 2 == 0 && |a| >= 2 && i < |freqs| == |sites|
  {
    match sites[i]
    case Edge => i == 0 && freqs[i] == 0 && Eval(PolyOf(a, 0), tab[0]) < 0
    case Cell(k, b) =>
      && Bracketed(tab, PolyOf(a, i), k, b, freqs[i]) && k <= TABLE && NoneMissed(tab, a, sites, i, k)
      && b.lo == if b.frac > -256 || FirstInCell(sites, i) then Eval(PolyOf(a, i), b.xl) else StartValue(i)
  }

  ghost predicate AllRoots(tab: seq<Cosine>, a: seq<i32>, freqs: seq<int>, sites: seq<Site>)
    requires |tab| == TABLE + 1 && |a| % 2 == 0 && |a| >= 2
  {
    |freqs| == |sites| && forall i :: 0 <= i < |freqs| ==> RootAt(tab, a, freqs, sites, i)
  }

  /** What the search knows at table step k: its roots, and the value at the step before, or the sign it assumes. */
  ghost predicate Tracked(tab: seq<Cosine>, a: seq<i32>, k: nat, s: Progress)
    requires Shape(tab, a, 0) && 1 <= k <= TABLE
  {
    && |s.freqs| == |s.sites| && AllRoots(tab, a, s.freqs, s.sites) && 0 <= s.thr <= 1
    && NoneMissed(tab, a, s.sites, |s.sites|, k)
    && (s.thr == 1 ==> Assumes(s.sites, |s.sites|) && k == FromCell(s.sites, |s.sites|))
    && s.ylo == if s.sites == [] || s.sites[|s.sites| - 1].Edge? || CellOf(s.sites[|s.sites| - 1]) < k
      then Eval(PolyOf(a, |s.freqs|), tab[k - 1]) else StartValue(|s.freqs|)
  }

  lemma EdgeRoot(tab: seq<Cosine>, a: seq<i32>)
    requires Shape(tab, a, 0) && Eval(Poly(a, false), tab[0]) < 0
    ensures RootAt(tab, a, [0], [Edge], 0)
  {
    hide Poly, Eval;
  }

  lemma RestartTracked(tab: seq<Cosine>, a: seq<i32>)
    requires Shape(tab, a, 0)
    ensures Tracked(tab, a, 1, Restart(tab, a)) && |Restart(tab, a).freqs| < |a|
  {
    hide Poly, Eval;
    var s := Restart(tab, a);
    hide RootAt;
    if s.sites != [] { EdgeRoot(tab, a); }
  }

  /** What was passed over does not depend on the roots found later. */
  lemma StillNone(tab: seq<Cosine>, a: seq<i32>, sites: seq<Site>, more: Site, i: nat, k: nat)
    requires Shape(tab, a, 0) && i <= |sites| && k <= TABLE + 1
    ensures NoneMissed(tab, a, sites + [more], i, k) == NoneMissed(tab, a, sites, i, k)
  {
    hide Eval, Poly;
    assert FromCell(sites + [more], i) == FromCell(sites, i) && Assumes(sites + [more], i) == Assumes(sites, i);
    forall j | 1 <= j <= TABLE ensures NoChange(tab, a, sites + [more], i, j) == NoChange(tab, a, sites, i, j) {}
  }

  /** A step on which the search sees nothing has no sign change. */
  lemma StepPassed(tab: seq<Cosine>, a: seq<i32>, k: nat, s: Progress)
    requires Shape(tab, a, 0) && 1 <= k <= TABLE && Tracked(tab, a, k, s)
    requires !Crosses(s.ylo, Eval(PolyOf(a, |s.freqs|), tab[k]), s.thr)
    ensures NoneMissed(tab, a, s.sites, |s.sites|, k + 1)
  {
    hide Eval, Poly, AllRoots;
    assert NoChange(tab, a, s.sites, |s.sites|, k) by { hide NoneMissed; }
  }

  /** A root joins those before it. */
  lemma NextTracked(tab: seq<Cosine>, a: seq<i32>, k: nat, s: Progress, root: int, yhi: i32, b: Bracket)
    requires Shape(tab, a, 0) && 1 <= k <= TABLE && Tracked(tab, a, k, s)
    requires Bracketed(tab, PolyOf(a, |s.freqs|), k, b, root)
    requires b.lo == if b.frac > -256 then Eval(PolyOf(a, |s.freqs|), b.xl) else s.ylo
    ensures Tracked(tab, a, k, Next(s, k, root, yhi, b))
  {
    hide Poly, Eval, Bracketed;
    hide NoneMissed;
    var s1 := Next(s, k, root, yhi, b);
    var n := |s.freqs|;
    forall i | 0 <= i <= n ensures RootAt(tab, a, s1.freqs, s1.sites, i) {
      if i < n { RootStays(tab, a, s, k, root, b, i); } else { LastRoot(tab, a, k, s, root, b); }
    }
    FreshSearch(tab, a, s.sites, k, b);
    hide RootAt;
  }

  lemma FreshSearch(tab: seq<Cosine>, a: seq<i32>, sites: seq<Site>, k: nat, b: Bracket)
    requires Shape(tab, a, 0) && 1 <= k <= TABLE
    ensures NoneMissed(tab, a, sites + [Cell(k, b)], |sites| + 1, k)
  {}

  lemma RootStays(tab: seq<Cosine>, a: seq<i32>, s: Progress, k: nat, root: int, b: Bracket, i: nat)
    requires Shape(tab, a, 0) && i < |s.freqs| == |s.sites| && RootAt(tab, a, s.freqs, s.sites, i)
    ensures RootAt(tab, a, s.freqs + [root], s.sites + [Cell(k, b)], i)
  {
    hide Poly, Eval, Bracketed, NoneMissed;
    var more := s.sites + [Cell(k, b)];
    assert more[i] == s.sites[i] && (s.freqs + [root])[i] == s.freqs[i];
    if i > 0 { assert more[i - 1] == s.sites[i - 1]; }
    assert FirstInCell(more, i) == FirstInCell(s.sites, i);
    if s.sites[i].Cell? { StillNone(tab, a, s.sites, Cell(k, b), i, s.sites[i].k); }
  }

  lemma LastRoot(tab: seq<Cosine>, a: seq<i32>, k: nat, s: Progress, root: int, b: Bracket)
    requires Shape(tab, a, 0) && 1 <= k <= TABLE && Tracked(tab, a, k, s)
    requires Bracketed(tab, PolyOf(a, |s.freqs|), k, b, root)
    requires b.lo == if b.frac > -256 then Eval(PolyOf(a, |s.freqs|), b.xl) else s.ylo
    ensures RootAt(tab, a, s.freqs + [root], s.sites + [Cell(k, b)], |s.freqs|)
  {
    hide Poly, Eval, Bracketed, NoneMissed, AllRoots;
    var n, more := |s.freqs|, s.sites + [Cell(k, b)];
    StillNone(tab, a, s.sites, Cell(k, b), n, k);
    assert more[n] == Cell(k, b) && (s.freqs + [root])[n] == root;
    if n > 0 { assert more[n - 1] == s.sites[n - 1]; }
    EdgePoint(tab, PolyOf(a, n), k, b, root);
    LastCell(tab, a, k, s);
  }

  lemma LastCell(tab: seq<Cosine>, a: seq<i32>, k: nat, s: Progress)
    requires Shape(tab, a, 0) && 1 <= k <= TABLE && Tracked(tab, a, k, s)
    ensures s.sites != [] ==> CellOf(s.sites[|s.sites| - 1]) <= k
  {}

  lemma EdgePoint(tab: seq<Cosine>, p: seq<i32>, k: nat, b: Bracket, freq: int)
    requires |tab| == TABLE + 1 && p != [] && Bracketed(tab, p, k, b, freq)
    ensures 1 <= k <= TABLE && b.frac >= -256 && (b.frac == -256 ==> b.xl as int == tab[k - 1])
  {}

  /** One look at a table step. */
  lemma LookTracked(tab: seq<Cosine>, a: seq<i32>, k: nat, s: Progress)
    requires Shape(tab, a, 0) && 1 <= k <= TABLE && Tracked(tab, a, k, s)
    ensures match Look(tab, Poly(a, Turn(s)), k, s.ylo, s.thr)
      case Vanished(lo, hi) => true
      case Root(root, yhi, b) => Tracked(tab, a, k, Next(s, k, root, yhi, b))
      case Nothing(yhi) =>
        && NoneMissed(tab, a, s.sites, |s.sites|, k + 1)
        && (k < TABLE ==> Tracked(tab, a, k + 1, s.(ylo := yhi, thr := 0)))
  {
    hide Poly, Eval, Halved, Interpolated, Found, AllRoots, NoneMissed, Bracketed, Crosses;
    var p := PolyOf(a, |s.freqs|);
    var yhi := Eval(p, tab[k]);
    if Crosses(s.ylo, yhi, s.thr) {
      var b := Halved(p, tab[k - 1], s.ylo, tab[k], yhi, -256, 0);
      BracketFound(tab, p, k, s.ylo, s.thr);
      match Interpolated(b.lo, b.hi)
      case ByZero =>
      case Some(q) =>
        NextTracked(tab, a, k, s, Found(k, b.frac, q), yhi, b);
        hide Tracked;
    } else {
      StepPassed(tab, a, k, s);
      LastCell(tab, a, k, s);
    }
  }

  lemma BracketFound(tab: seq<Cosine>, p: seq<i32>, k: nat, ylo: i32, thr: int)
    requires |tab| == TABLE + 1 && 1 <= k <= TABLE && p != [] && thr >= 0 && Crosses(ylo, Eval(p, tab[k]), thr)
    ensures var b := Halved(p, tab[k - 1], ylo, tab[k], Eval(p, tab[k]), -256, 0);
      && (b.lo == if b.frac > -256 then Eval(p, b.xl) else ylo)
      && (Interpolated(b.lo, b.hi).Some? ==>
        Bracketed(tab, p, k, b, Found(k, b.frac, Interpolated(b.lo, b.hi).q)))
  {
    hide Eval, Halved, Interpolated, Found, Middle;
    BracketPlaced(p, tab[k - 1], tab[k], ylo, Bracket(ylo, Eval(p, tab[k]), -256, tab[k - 1], tab[k]), 0);
  }

  /** Fewer roots than the order, and no further sign change up to the table's end. */
  ghost predicate RanOut(tab: seq<Cosine>, a: seq<i32>, freqs: seq<int>, sites: seq<Site>)
    requires Shape(tab, a, 0)
  {
    |freqs| < |a| && AllRoots(tab, a, freqs, sites) && NoneMissed(tab, a, sites, |sites|, TABLE + 1)
  }

  ghost predicate Exhausted(tab: seq<Cosine>, a: seq<i32>)
    requires Shape(tab, a, 0)
  {
    exists freqs, sites :: RanOut(tab, a, freqs, sites)
  }

  lemma RootsSoFar(tab: seq<Cosine>, a: seq<i32>, k: nat, s: Progress)
    requires Shape(tab, a, 0) && 1 <= k <= TABLE && Tracked(tab, a, k, s)
    ensures |s.freqs| == |s.sites| && AllRoots(tab, a, s.freqs, s.sites)
  {}

  lemma {:induction false} RunTracked(tab: seq<Cosine>, a: seq<i32>, iter: nat, k: nat, s: Progress)
    requires Shape(tab, a, iter) && 1 <= k <= TABLE && |s.freqs| < |a| && Tracked(tab, a, k, s)
    ensures var r := Run(tab, a, iter, k, s);
      && |r.coefs| == |a| && (r.Roots? ==> AllRoots(tab, r.coefs, r.freqs, r.sites))
      && (r.Even? ==> Exhausted(tab, r.coefs))
    decreases MAX_ITER - iter, |a| - |s.freqs|, TABLE - k
  {
    hide Poly, Look, Chirped, FirstChirp, Next, Restart, AllRoots, NoneMissed, Tracked;
    LookTracked(tab, a, k, s);
    RootsSoFar(tab, a, k, s);
    match Look(tab, Poly(a, Turn(s)), k, s.ylo, s.thr)
    case Vanished(lo, hi) =>
    case Root(root, yhi, b) =>
      var s1 := Next(s, k, root, yhi, b);
      OneMore(s, k, root, yhi, b);
      if |s1.freqs| < |a| { RunTracked(tab, a, iter, k, s1); } else { RootsSoFar(tab, a, k, s1); }
    case Nothing(yhi) =>
      if k < TABLE {
        RunTracked(tab, a, iter, k + 1, s.(ylo := yhi, thr := 0));
      } else if iter < MAX_ITER {
        var a1 := Chirped(a, FirstChirp(iter + 1));
        RestartTracked(tab, a1);
        RunTracked(tab, a1, iter + 1, 1, Restart(tab, a1));
      } else {
        assert RanOut(tab, a, s.freqs, s.sites);
      }
  }

  lemma OneMore(s: Progress, k: nat, root: int, yhi: i32, b: Bracket)
    ensures |Next(s, k, root, yhi, b).freqs| == |s.freqs| + 1
  {}

  /**
   Every root reported for any input: its polynomial takes opposite signs at two points an eighth of a table cell apart,
   no sign change since the root before is passed over, and the frequency is where the line between the two values
   crosses zero; only where a cell gives a second root is the sign at its start assumed. The search gives up only when
   its last expansion has fewer sign changes than the order.
   */
  lemma RootsChangeSign(a: seq<i32>)
    requires |a| % 2 == 0 && |a| >= 2
    ensures |Result(a).coefs| == |a|
    ensures Result(a).Roots? ==> AllRoots(CosTab(), Result(a).coefs, Result(a).freqs, Result(a).sites)
    ensures Result(a).Even? ==> Exhausted(CosTab(), Result(a).coefs)
  {
    hide Run, Poly, Eval, Restart, CosTab, AllRoots, Tracked, Exhausted;
    RestartTracked(CosTab(), a);
    RunTracked(CosTab(), a, 0, 1, Restart(CosTab(), a));
  }

  /** P's sign changes alternate in direction from root to root, and so do Q's; both start from above. */
  lemma SignsAlternate(i: nat)
    ensures StartValue(i + 2) as int == -StartValue(i) && StartValue(0) > 0 && StartValue(1) > 0
  {}

  /** Without enough roots the frequencies are the multiples of an even share of the half circle. */
  lemma EvenlySpread(d: nat, i: nat)
    requires d > 0
    ensures EvenEntry(d, i + 1) - EvenEntry(d, i) == EvenEntry(d, 0) == EvenEntry(d, i) - i * EvenEntry(d, 0)
    ensures (d + 1) * EvenEntry(d, 0) <= 32768 < (d + 1) * (EvenEntry(d, 0) + 1)
  {
    var unit := 32768 / (d + 1);
    NextEven(i, unit);
    NextEven(i + 1, unit);
    CdfTables.FloorTimes(32768, d + 1);
    assert (d + 1) * (unit + 1) == unit * (d + 1) + (d + 1);
  }

  /** The expansion's distance from one doubles every round, until nothing is left. */
  lemma FirstChirpDoubles(iter: nat)
    requires 1 <= iter < MAX_ITER
    ensures ONE - FirstChirp(iter + 1) as int == 2 * (ONE - FirstChirp(iter) as int)
    ensures FirstChirp(1) == ONE - 2 && FirstChirp(MAX_ITER) == 0
  {}

  // ----- a sign taken for granted -----

  /**
   A second root from the edge of a cell is a sign change too, unless its polynomial starts the cell on the other side
   of zero from the sign the search assumes and never meets zero at the bracket's upper end.
   */
  lemma TakenForGranted(tab: seq<Cosine>, a: seq<i32>, freqs: seq<int>, sites: seq<Site>, i: nat)
    requires |tab| == TABLE + 1 && |a| % 2 == 0 && |a| >= 2 && i < |freqs| == |sites|
    requires sites[i].Cell? && RootAt(tab, a, freqs, sites, i)
    requires sites[i].b.frac == -256 && !FirstInCell(sites, i)
    ensures var b, p := sites[i].b, PolyOf(a, i); var start := Eval(p, b.xl) as int;
      Opposed(start, Eval(p, b.xh)) <==> start * StartValue(i) as int >= 0 || Eval(p, b.xh) == 0
  {
    hide Eval, Poly;
    var start, side := Eval(PolyOf(a, i), sites[i].b.xl) as int, StartValue(i) as int;
    assert side == 4096 || side == -4096;
  }

  /** An order-2 filter whose Q has its root before P's. */
  function Crossed(): (a: seq<i32>)
    ensures |a| == 2
  {
    [196608, -131072]
  }

  /** Both polynomials of an order-2 filter. */
  lemma OrderTwo(a: seq<i32>, odd: bool, raw: i32, p0: i32)
    requires |a| == 2 && raw == Pair(a[0], a[1], odd)
    requires p0 as int == I32(if odd then raw as int + ONE else raw as int - ONE) as int
    ensures Poly(a, odd) == [p0, ONE]
  {
    RawIs(a, odd);
    assert Raw(a, odd) == [raw, ONE];
    var r: seq<i32> := [raw, ONE];
    assert r[0 := p0] == [p0, ONE];
    assert Divided(r[0 := p0], odd, 0) == r[0 := p0];
    assert Divided(r, odd, 1) == [p0, ONE];
    assert Trans([p0, ONE], 2) == [p0, ONE];
  }

  lemma LineValue(p0: i32, x: i32)
    requires Mag(p0) <= 0x10_0000 && Mag(x) <= X_MAX
    ensures Eval([p0, ONE], x) as int == p0 as int + 16 * x as int
  {
    var p: seq<i32> := [p0, ONE];
    assert Horner(p, I32(x as int * 16), 1) == ONE;
  }

  lemma SameMiddles()
    ensures Middle(8192, 8190) == 8191 && Middle(8192, 8191) == 8192 && Middle(8192, 8192) == 8192
  {}

  /** Where every midpoint's value lies opposite the lower end, the bracket closes on the lower end. */
  lemma ClosesDown(p: seq<i32>, yl: i32, yh: i32)
    requires p != [] && Opposed(yl, Eval(p, 8191)) && Opposed(yl, Eval(p, 8192))
    ensures Halved(p, 8192, yl, 8190, yh, -256, 0) == Bracket(yl, Eval(p, 8192), -256, 8192, 8192)
  {
    hide Eval, Middle, Halved;
    SameMiddles();
    BracketStep(p, 8192, yl, 8190, yh, -256, 0);
    BracketStep(p, 8192, yl, 8191, Eval(p, 8191), -256, 1);
    BracketStep(p, 8192, yl, 8192, Eval(p, 8192), -256, 2);
    BracketStep(p, 8192, yl, 8192, Eval(p, 8192), -256, 3);
  }

  /** A first look that ends on the bracket's lower end. */
  lemma FirstLook(p: seq<i32>, yl: i32, yh: i32, thr: int, y: i32, q: i32)
    requires p != [] && yh == Eval(p, 8190) && y == Eval(p, 8192) && Crosses(yl, yh, thr)
    requires Opposed(yl, Eval(p, 8191)) && Opposed(yl, y) && Interpolated(yl, y) == Some(q) && 0 <= q <= 32
    ensures Look(CosTab(), p, 1, yl, thr) == Root(q as int, yh, Bracket(yl, y, -256, 8192, 8192))
  {
    hide CosTab, Eval, Halved, Interpolated, Crosses, Opposed;
    FirstSteps();
    ClosesDown(p, yl, yh);
  }

  lemma CrossedPolys()
    ensures Poly(Crossed(), false) == [-131072, ONE] && Poly(Crossed(), true) == [-262144, ONE]
  {
    OrderTwo(Crossed(), false, -65536, -131072);
    OrderTwo(Crossed(), true, -327680, -262144);
  }

  lemma FirstOfTwo()
    ensures Look(CosTab(), [-131072, ONE], 1, 0, 0) == Root(0, -32, Bracket(0, 0, -256, 8192, 8192))
    ensures Eval([-131072, ONE], 8192) == 0
  {
    LineValue(-131072, 8192);
    LineValue(-131072, 8191);
    LineValue(-131072, 8190);
    TwoShares();
    hide CosTab, Eval, Interpolated, Look;
    FirstLook([-131072, ONE], 0, -32, 0, 0, 0);
  }

  lemma SecondOfTwo()
    ensures Look(CosTab(), [-262144, ONE], 1, 4096, 0) == Root(1, -131104, Bracket(4096, -131072, -256, 8192, 8192))
  {
    LineValue(-262144, 8192);
    LineValue(-262144, 8191);
    LineValue(-262144, 8190);
    TwoShares();
    hide CosTab, Eval, Interpolated, Look;
    FirstLook([-262144, ONE], 4096, -131104, 0, -131072, 1);
  }

  /** The second root this input is given is none: Q is negative at every point of the table. */
  lemma SecondRootIsNone()
    ensures var r := Result(Crossed());
      && r.Roots? && r.freqs == [0, 1] && r.coefs == Crossed() && |r.sites| == 2 && !FirstInCell(r.sites, 1)
    ensures forall x: i32 :: Mag(x) <= X_MAX ==> Eval(PolyOf(Crossed(), 1), x) < 0
  {
    CrossedPolys();
    hide Poly;
    forall x: i32 | Mag(x) <= X_MAX ensures Eval(PolyOf(Crossed(), 1), x) < 0 { LineValue(-262144, x); }
    CrossedRun();
  }

  lemma CrossedRun()
    ensures var r := Result(Crossed());
      && r.Roots? && r.freqs == [0, 1] && r.coefs == Crossed() && |r.sites| == 2 && !FirstInCell(r.sites, 1)
  {
    var a, tab := Crossed(), CosTab();
    CrossedPolys();
    FirstSteps();
    FirstOfTwo();
    SecondOfTwo();
    hide CosTab, Poly, Eval, Look, Run;
    var b0: Bracket, b1: Bracket := Bracket(0, 0, -256, 8192, 8192), Bracket(4096, -131072, -256, 8192, 8192);
    var s0, s1 := Progress([], [], 0, 0), Progress([0], [Cell(1, b0)], 4096, 0);
    assert Restart(tab, a) == s0;
    RunStep(tab, a, 0, 1, s0);
    assert Next(s0, 1, 0, -32, b0) == s1;
    RunStep(tab, a, 0, 1, s1);
    assert Next(s1, 1, 1, -131104, b1) == Progress([0, 1], [Cell(1, b0), Cell(1, b1)], -4096, 0);
  }

  lemma TwoShares()
    ensures Interpolated(0, 0) == Some(0) && Interpolated(4096, -131072) == Some(1)
  {
    assert Trunc(198656, 135168) == 1;
  }

  // ----- the last step -----

  /**
   Where nothing wraps the last step is thirty-seconds of the bracket up to the line's zero, rounded to the nearest for
   small values and to one of the two next for large ones.
   */
  lemma InterpolatedRounds(lo: i32, hi: i32)
    requires Opposed(lo, hi) && lo != hi && Mag(lo) < CELL_BOUND && Mag(hi) < CELL_BOUND
    ensures Interpolated(lo, hi).Some?
    ensures var q, d := Interpolated(lo, hi).q as int, lo as int - hi as int;
      if Mag(lo) < 65536 then 2 * Mag(q * d - 32 * lo as int) <= Mag(d) + 1
      else Mag(q * d - 32 * lo as int) <= Mag(d) + 1023
  {
    if Mag(lo) < 65536 { SmallRounds(lo, hi); } else { LargeRounds(lo, hi); }
  }

  lemma SmallRounds(lo: i32, hi: i32)
    requires Opposed(lo, hi) && lo != hi && Mag(lo) < 65536 && Mag(hi) < CELL_BOUND
    ensures Interpolated(lo, hi).Some?
    ensures var q, d := Interpolated(lo, hi).q as int, lo as int - hi as int;
      2 * Mag(q * d - 32 * lo as int) <= Mag(d) + 1
  {
    var d := lo as int - hi as int;
    var nom := lo as int * 32 + d / 2;
    SmallIs(lo, hi);
    TruncSameSign(nom, d);
    SmallQuotient(lo as int, hi as int);
    var q := Mag(nom) / Mag(d);
    assert I32(q) == q;
    hide Interpolated, Trunc, I32;
    Nearest(lo as int, d, q);
  }

  lemma Nearest(lo: int, d: int, q: int)
    requires (lo >= 0 && d > 0) || (lo <= 0 && d < 0)
    requires q == Mag(32 * lo + d / 2) / Mag(d)
    ensures 2 * Mag(q * d - 32 * lo) <= Mag(d) + 1
  {
    CdfTables.FloorTimes(Mag(32 * lo + d / 2), Mag(d));
    SignedProduct(q, d);
    hide *;
    var y := q * d;
  }

  lemma SignedProduct(q: int, d: int)
    ensures q * d == if d >= 0 then q * Mag(d) else -(q * Mag(d))
  {}

  lemma LargeRounds(lo: i32, hi: i32)
    requires Opposed(lo, hi) && 65536 <= Mag(lo) < CELL_BOUND && Mag(hi) < CELL_BOUND
    ensures Interpolated(lo, hi).Some?
    ensures var q, d := Interpolated(lo, hi).q as int, lo as int - hi as int;
      Mag(q * d - 32 * lo as int) <= Mag(d) + 1023
  {
    LargeIs(lo, hi);
    hide Interpolated, I32;
    LargeQuotient(lo as int, hi as int);
    NextTo(lo as int, lo as int - hi as int, Interpolated(lo, hi).q as int);
  }

  lemma LargeQuotient(lo: int, hi: int)
    requires Opposed(lo, hi) && 65536 <= Mag(lo) < CELL_BOUND && Mag(hi) < CELL_BOUND
    ensures var den := (lo - hi) / 32;
      den != 0 && Trunc(lo, den) == Mag(lo) / Mag(den) && 0 <= Mag(lo) / Mag(den) <= 32
  {
    QuotientUpTo(Mag(lo), Mag((lo - hi) / 32), 32);
  }

  lemma NextTo(lo: int, d: int, q: int)
    requires (lo >= 0 && d >= 32) || (lo <= 0 && d < 0)
    requires q == Mag(lo) / Mag(d / 32) && 0 <= q <= 32
    ensures Mag(q * d - 32 * lo) <= Mag(d) + 1023
  {
    var den, r := d / 32, d % 32;
    CdfTables.FloorTimes(Mag(lo), Mag(den));
    SignedProduct(q, den);
    CdfTables.MulMono(q, r, 31);
    Parts(q, den, r);
    assert d == 32 * den + r;
    hide *;
    var y, z := q * den, q * r;
  }

  lemma Parts(q: int, den: int, r: int)
    ensures q * (32 * den + r) == 32 * (q * den) + q * r
  {}

  lemma LargeIs(lo: i32, hi: i32)
    requires Opposed(lo, hi) && 65536 <= Mag(lo) < CELL_BOUND && Mag(hi) < CELL_BOUND
    ensures var den := (lo as int - hi as int) / 32;
      den != 0 && Interpolated(lo, hi).Some? && Interpolated(lo, hi).q as int == Trunc(lo as int, den)
  {
    LargeQuotient(lo as int, hi as int);
    hide Trunc;
  }
}
