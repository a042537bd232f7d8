/** The greedy pulse search: running numerators and denominators, and the best prefix found. */
module FcbSearch {
  import opened FcbEnergy

  const MAX_SF := 160
  const EPS := 0.0000000000000001

  /** The frame's data: target, response, kernel table centred at 160, subframe length. */
  datatype Problem = Problem(d: seq<real>, h: seq<real>, phiFlip: seq<real>)

  predicate ProblemOk(p: Problem) {
    && 0 < |p.d| <= MAX_SF && 0 < |p.h| <= MAX_SF && |p.phiFlip| == 2 * MAX_SF
    && forall j :: 0 < j < 2 * MAX_SF ==> p.phiFlip[j] == Auto(p.h, Dist(MAX_SF, j))
  }

  /** Positive targets take plus, all others minus. */
  function SignOf(x: real): real { if x > 0.0 then 1.0 else -1.0 }

  function SignsOf(d: seq<real>): (s: seq<real>)
    ensures |s| == |d| && Signs(s) && forall i :: 0 <= i < |d| ==> s[i] == SignOf(d[i])
  {
    seq(|d|, i requires 0 <= i < |d| => SignOf(d[i]))
  }

  function Magnitude(x: real): real { if x > 0.0 then x else -x }

  lemma SignTimes(x: real)
    ensures SignOf(x) * x == Magnitude(x)
  {}

  /** celpCalcDAbsAndSign. */
  method AbsAndSign(d: seq<real>) returns (dAbs: array<real>, dSign: array<real>)
    ensures fresh(dAbs) && fresh(dSign) && dAbs.Length == dSign.Length == |d|
    ensures dSign[..] == SignsOf(d) && forall i :: 0 <= i < |d| ==> dAbs[i] == dSign[i] * d[i]
  {
    dAbs, dSign := new real[|d|](_ => 0.0), new real[|d|](_ => 0.0);
    for i := 0 to |d|
      invariant forall j :: 0 <= j < i ==> dSign[j] == SignOf(d[j]) && dAbs[j] == Magnitude(d[j])
    {
      if d[i] > 0.0 {
        dAbs[i], dSign[i] := d[i], 1.0;
      } else {
        dAbs[i], dSign[i] := -d[i], -1.0;
      }
    }
    forall i | 0 <= i < |d| ensures dAbs[i] == dSign[i] * d[i] { SignTimes(d[i]); }
  }

  /** celpGetMaxi: the first index of a maximum. */
  method GetMaxi(x: seq<real>) returns (m: nat)
    requires x != []
    ensures m < |x| && (forall i :: 0 <= i < |x| ==> x[i] <= x[m]) && forall i :: 0 <= i < m ==> x[i] < x[m]
  {
    m := 0;
    var mx := x[0];
    for n := 1 to |x|
      invariant m < n && mx == x[m] && (forall i :: 0 <= i < n ==> x[i] <= mx) && forall i :: 0 <= i < m ==> x[i] < mx
    {
      if x[n] > mx {
        mx, m := x[n], n;
      }
    }
  }

  /** celpCheckIfBetter: the threshold rises by the price of a pulse, and then to any energy that beats it. */
  method CheckIfBetter(wnrg: real, nrgThr: real, price: real) returns (better: bool, thr: real)
    ensures better == (wnrg > nrgThr + price) && thr == if better then wnrg else nrgThr + price
  {
    thr := nrgThr + price;
    better := wnrg > thr;
    if better {
      thr := wnrg;
    }
  }

  // ----- what the running arrays hold -----

  function Sg(p: Problem): (s: seq<real>)
    ensures |s| == |p.d| && Signs(s)
  {
    SignsOf(p.d)
  }

  /** Correlation of the train plus a pulse at slot i. */
  function CorrWith(p: Problem, pos: seq<nat>, i: nat): real
    requires Slots(pos, |p.d|) && i < |p.d|
  {
    Corr(p.d, Sg(p), pos + [i])
  }

  function EnergyWith(p: Problem, pos: seq<nat>, i: nat): real
    requires Slots(pos, |p.d|) && i < |p.d|
  {
    Energy(p.h, Sg(p), pos + [i])
  }

  /** Weighted energy that adding slot i would explain. */
  function Ratio(p: Problem, pos: seq<nat>, i: nat): real
    requires Slots(pos, |p.d|) && i < |p.d|
  {
    EnergyPositive(p, pos, i);
    CorrWith(p, pos, i) * CorrWith(p, pos, i) / (EnergyWith(p, pos, i) + EPS)
  }

  lemma EnergyPositive(p: Problem, pos: seq<nat>, i: nat)
    requires Slots(pos, |p.d|) && i < |p.d|
    ensures EnergyWith(p, pos, i) + EPS > 0.0
  {
    EnergyNonNegative(p.h, Sg(p), pos + [i]);
  }

  /** num and den for every slot, given the pulses chosen so far. */
  ghost predicate Tracks(p: Problem, pos: seq<nat>, num: seq<real>, den: seq<real>) {
    && Slots(pos, |p.d|) && |num| == |den| == |p.d|
    && forall i :: 0 <= i < |p.d| ==> num[i] == CorrWith(p, pos, i) && den[i] == EnergyWith(p, pos, i) + EPS
  }

  /** Each chosen slot is a best next slot for the pulses before it. */
  ghost predicate Greedy(p: Problem, pos: seq<nat>) {
    && Slots(pos, |p.d|)
    && forall k :: 0 <= k < |pos| ==> Best(p, pos[..k], pos[k])
  }

  ghost predicate Best(p: Problem, pos: seq<nat>, m: nat) {
    && Slots(pos, |p.d|) && m < |p.d|
    && forall i :: 0 <= i < |p.d| ==> Ratio(p, pos, i) <= Ratio(p, pos, m)
  }

  lemma GreedySnoc(p: Problem, pos: seq<nat>, m: nat)
    requires Greedy(p, pos) && Best(p, pos, m)
    ensures Greedy(p, pos + [m])
  {
    assert m < |p.d|;
    hide Best;
    forall k | 0 <= k < |pos + [m]| ensures Best(p, (pos + [m])[..k], (pos + [m])[k]) {
      if k < |pos| {
        assert (pos + [m])[..k] == pos[..k];
      } else {
        assert (pos + [m])[..k] == pos;
      }
    }
  }

  /** One pulse at slot i and none before it. */
  lemma FirstAt(p: Problem, i: nat)
    requires ProblemOk(p) && i < |p.d|
    ensures CorrWith(p, [], i) == Sg(p)[i] * p.d[i] && EnergyWith(p, [], i) == p.phiFlip[MAX_SF]
  {
    assert p.phiFlip[MAX_SF] == Auto(p.h, Dist(MAX_SF, MAX_SF));
    EmptyCorr(p);
    hide Auto, Energy, Sg, Corr, Cross, ProblemOk;
    CorrStep(p.d, Sg(p), [], i);
    EnergyStep(p.h, Sg(p), [], i);
    EmptyEnergy(p.h, Sg(p));
    NothingCrosses(Sg(p)[i], Cross(p.h, Sg(p), [], i));
  }

  lemma NothingCrosses(s: real, c: real)
    requires c == 0.0
    ensures 2.0 * s * c == 0.0
  {}

  lemma StartTracks(p: Problem, num: seq<real>, den: seq<real>)
    requires ProblemOk(p) && |num| == |den| == |p.d|
    requires forall i :: 0 <= i < |p.d| ==> num[i] == Sg(p)[i] * p.d[i] && den[i] == p.phiFlip[MAX_SF] + EPS
    ensures Tracks(p, [], num, den)
  {
    hide Auto, Energy, Sg, Corr, Cross, CorrWith, EnergyWith, ProblemOk;
    forall i | 0 <= i < |p.d| ensures num[i] == CorrWith(p, [], i) && den[i] == EnergyWith(p, [], i) + EPS {
      FirstAt(p, i);
    }
  }

  lemma EmptyCorr(p: Problem)
    ensures Slots([], |p.d|) && Corr(p.d, Sg(p), []) == 0.0 && forall i: nat :: Cross(p.h, Sg(p), [], i) == 0.0
  {}

  lemma EmptyEnergy(h: seq<real>, s: seq<real>)
    ensures Slots([], |s|) && Energy(h, s, []) == 0.0
  {
    SumTail(Square(Train(h, s, [])), 0, Span(h, s));
    EmptySum(Square(Train(h, s, [])));
  }

  /** Kernel entry for slots a and b. */
  lemma Kernel(p: Problem, a: nat, b: nat)
    requires ProblemOk(p) && a < MAX_SF && b < MAX_SF
    ensures p.phiFlip[MAX_SF - a + b] == Auto(p.h, Dist(a, b))
  {
    assert Dist(MAX_SF, MAX_SF - a + b) == Dist(a, b);
  }

  /** The numerator update of one iteration, at one slot. */
  lemma CorrSlot(p: Problem, pos: seq<nat>, q: nat, i: nat)
    requires Slots(pos, |p.d|) && q < |p.d| && i < |p.d|
    ensures Slots(pos + [q], |p.d|) && CorrWith(p, pos + [q], i) == CorrWith(p, pos, i) + Sg(p)[q] * p.d[q]
  {
    hide Sg, Corr;
    CorrStep(p.d, Sg(p), pos, q);
    CorrStep(p.d, Sg(p), pos, i);
    CorrStep(p.d, Sg(p), pos + [q], i);
  }

  /** The denominator update, at one slot. */
  lemma EnergySlot(p: Problem, pos: seq<nat>, q: nat, i: nat)
    requires Slots(pos, |p.d|) && q < |p.d| && i < |p.d|
    ensures Slots(pos + [q], |p.d|)
    ensures EnergyWith(p, pos + [q], i) == EnergyWith(p, pos, i)
      + (2.0 * Sg(p)[q] * Cross(p.h, Sg(p), pos, q) + Auto(p.h, 0)) + 2.0 * Sg(p)[q] * Sg(p)[i] * Auto(p.h, Dist(q, i))
  {
    hide Auto, Energy, Sg, Dist, Cross;
    DenominatorStep(p.h, Sg(p), pos, q, i);
  }

  // ----- one iteration -----

  /** celpNonZeroRange: the slots the response reaches from col. */
  method NonZeroRange(col: nat, percRespLen: nat, fcbSubfrlen: nat) returns (lo: nat, hi: nat)
    requires col < fcbSubfrlen && percRespLen > 0
    ensures lo <= col < hi <= fcbSubfrlen
    ensures forall i: nat :: i < fcbSubfrlen ==> (lo <= i < hi <==> Dist(col, i) < percRespLen)
  {
    var l, u := col - percRespLen + 1, col + percRespLen;
    lo := if l < 0 then 0 else l;
    hi := if u > fcbSubfrlen then fcbSubfrlen else u;
  }

  /** The change every denominator takes: twice the signed cross terms of the new pulse, plus its own energy. */
  method CommonChange(p: Problem, pos: seq<nat>, position: nat, dSign: seq<real>) returns (dDen: real)
    requires ProblemOk(p) && Slots(pos, |p.d|) && position < |p.d| && dSign == Sg(p)
    ensures dDen == 2.0 * dSign[position] * Cross(p.h, Sg(p), pos, position) + Auto(p.h, 0)
  {
    EmptyCorr(p);
    hide Auto, Sg, Cross, Dist, ProblemOk;
    var colOff := MAX_SF - position;
    dDen := 0.0;
    assert pos[..0] == [];
    for i := 0 to |pos|
      invariant Slots(pos[..i], |p.d|) && dDen == Cross(p.h, Sg(p), pos[..i], position)
    {
      var pi := pos[i];
      Table(p, position, pi);
      Swap(position, pi);
      CrossStep(p.h, Sg(p), pos[..i], pi, position);
      assert pos[..i + 1] == pos[..i] + [pi];
      dDen := dDen + p.phiFlip[colOff + pi] * dSign[pi];
    }
    assert pos[..|pos|] == pos;
    Table(p, position, position);
    Swap(position, position);
    Commute(dDen, 2.0 * dSign[position]);
    dDen := dDen * (2.0 * dSign[position]);
    dDen := dDen + p.phiFlip[colOff + position];
  }

  lemma Swap(a: nat, b: nat)
    ensures Dist(a, b) == Dist(b, a) && Dist(a, a) == 0
  {}

  /** The kernel does not reach beyond the response. */
  lemma KernelReach(p: Problem, q: nat, i: nat)
    requires Dist(q, i) >= |p.h|
    ensures Auto(p.h, Dist(q, i)) == 0.0
  {
    AutoOutside(p.h, Dist(q, i));
  }

  /** What den holds at slot i once the common change and the kernel window are in. */
  method UpdateArrays(p: Problem, ghost pos: seq<nat>, position: nat, dAbs: real, dSign: seq<real>, dDen: real,
                      num: array<real>, den: array<real>)
    requires ProblemOk(p) && num != den && position < |p.d| && dSign == Sg(p) && Tracks(p, pos, num[..], den[..])
    requires dAbs == dSign[position] * p.d[position]
    requires dDen == 2.0 * dSign[position] * Cross(p.h, Sg(p), pos, position) + Auto(p.h, 0)
    modifies num, den
    ensures Tracks(p, pos + [position], num[..], den[..])
  {
    hide Auto, Sg, CorrWith, EnergyWith, ProblemOk;
    ghost var num0, den0 := num[..], den[..];
    var n := |p.d|;
    for i := 0 to n
      invariant forall j :: 0 <= j < n ==> num[j] == if j < i then num0[j] + dAbs else num0[j]
      invariant den[..] == den0
    {
      num[i] := num[i] + dAbs;
    }
    AddToAll(den, dDen);
    ghost var den1 := den[..];
    var nz0, nz1 := Range(p, position);
    var colOff := MAX_SF - position;
    var sgn := dSign[position];
    for i := nz0 to nz1
      invariant forall j :: 0 <= j < n ==>
        den[j] == if nz0 <= j < i then den1[j] + 2.0 * sgn * dSign[j] * Auto(p.h, Dist(position, j)) else den1[j]
      invariant forall j :: 0 <= j < n ==> num[j] == num0[j] + dAbs
    {
      Table(p, position, i);
      den[i] := den[i] + 2.0 * sgn * dSign[i] * p.phiFlip[colOff + i];
    }
    Updated(p, pos, position, dDen, num0, den0, num[..], den[..], nz0, nz1);
  }

  lemma Table(p: Problem, a: nat, b: nat)
    requires ProblemOk(p) && a < |p.d| && b < |p.d|
    ensures 0 <= MAX_SF - a + b < |p.phiFlip| && p.phiFlip[MAX_SF - a + b] == Auto(p.h, Dist(a, b))
  {
    Kernel(p, a, b);
  }

  method AddToAll(den: array<real>, x: real)
    modifies den
    ensures forall i :: 0 <= i < den.Length ==> den[i] == old(den[i]) + x
  {
    for i := 0 to den.Length
      invariant forall j :: 0 <= j < den.Length ==> den[j] == if j < i then old(den[j]) + x else old(den[j])
    {
      den[i] := den[i] + x;
    }
  }

  method Range(p: Problem, position: nat) returns (nz0: nat, nz1: nat)
    requires ProblemOk(p) && position < |p.d|
    ensures nz0 <= nz1 <= |p.d|
    ensures forall i: nat :: i < |p.d| ==> (nz0 <= i < nz1 <==> Dist(position, i) < |p.h|)
  {
    nz0, nz1 := NonZeroRange(position, |p.h|, |p.d|);
  }

  lemma Updated(p: Problem, pos: seq<nat>, q: nat, dDen: real, num0: seq<real>, den0: seq<real>, num: seq<real>,
                den: seq<real>, nz0: nat, nz1: nat)
    requires Tracks(p, pos, num0, den0) && q < |p.d| && |num| == |den| == |p.d|
    requires dDen == 2.0 * Sg(p)[q] * Cross(p.h, Sg(p), pos, q) + Auto(p.h, 0)
    requires forall i: nat :: i < |p.d| ==> (nz0 <= i < nz1 <==> Dist(q, i) < |p.h|)
    requires forall j :: 0 <= j < |p.d| ==> num[j] == num0[j] + Sg(p)[q] * p.d[q]
    requires forall j :: 0 <= j < |p.d| ==>
      den[j] == den0[j] + dDen + if nz0 <= j < nz1 then 2.0 * Sg(p)[q] * Sg(p)[j] * Auto(p.h, Dist(q, j)) else 0.0
    ensures Tracks(p, pos + [q], num, den)
  {
    hide Auto, Sg, CorrWith, EnergyWith, Dist;
    forall i | 0 <= i < |p.d|
      ensures num[i] == CorrWith(p, pos + [q], i) && den[i] == EnergyWith(p, pos + [q], i) + EPS
    {
      CorrSlot(p, pos, q, i);
      EnergySlot(p, pos, q, i);
      if !(nz0 <= i < nz1) {
        KernelReach(p, q, i);
        TimesZero(2.0 * Sg(p)[q] * Sg(p)[i]);
      }
    }
  }

  lemma TimesZero(x: real)
    ensures x * 0.0 == 0.0
  {}

  // ----- the search -----

  /** Weighted energy explained by the first k pulses. */
  function Explained(p: Problem, pos: seq<nat>, k: nat): real
    requires Slots(pos, |p.d|) && 1 <= k <= |pos|
  {
    Ratio(p, pos[..k - 1], pos[k - 1])
  }

  /** Explained energy less the price of the pulses; no pulses score zero. */
  function Score(p: Problem, pos: seq<nat>, k: nat, price: real): real
    requires Slots(pos, |p.d|) && k <= |pos|
  {
    if k == 0 then 0.0 else Explained(p, pos, k) - Paid(price, k)
  }

  /** The scores of 0, 1, .. |pos| pulses. */
  function Scores(p: Problem, pos: seq<nat>, price: real): (sc: seq<real>)
    requires Slots(pos, |p.d|)
    ensures |sc| == |pos| + 1
  {
    seq(|pos| + 1, k requires 0 <= k <= |pos| => Score(p, pos, k, price))
  }

  /** n is the first index of a maximum. */
  predicate FirstMax(sc: seq<real>, n: nat) {
    && n < |sc| && (forall k :: 0 <= k < |sc| ==> sc[k] <= sc[n])
    && (forall k :: 0 <= k < n ==> sc[k] < sc[n])
  }

  lemma FirstMaxStep(sc: seq<real>, n: nat, x: real)
    requires FirstMax(sc, n)
    ensures FirstMax(sc + [x], if x > sc[n] then |sc| else n)
  {}

  /** n is the first of 0 .. |pos| with the highest score, and thr is that score with every price added back. */
  ghost predicate Chosen(p: Problem, pos: seq<nat>, n: nat, price: real, thr: real) {
    && Slots(pos, |p.d|) && FirstMax(Scores(p, pos, price), n)
    && thr == Scores(p, pos, price)[n] + Paid(price, |pos|)
  }

  datatype Rate = Rate(wnrg: real, gain: real, fcbWnrg: real)

  /** The report is about the first n pulses: correlation over energy, explained energy, and energy. */
  ghost predicate Reports(p: Problem, pos: seq<nat>, n: nat, r: Rate)
    requires Slots(pos, |p.d|) && n <= |pos|
  {
    n > 0 ==> ReportsOn(p, pos[..n], r)
  }

  ghost predicate ReportsOn(p: Problem, train: seq<nat>, r: Rate)
    requires Slots(train, |p.d|)
  {
    var e := Energy(p.h, Sg(p), train) + EPS; var c := Corr(p.d, Sg(p), train);
    e > 0.0 && r.fcbWnrg == e && r.gain == c / e && r.wnrg == c * c / e
  }

  lemma PrefixSlots(p: Problem, pos: seq<nat>, m: nat)
    requires Slots(pos, |p.d|) && m < |p.d|
    ensures Slots(pos + [m], |p.d|)
    ensures forall k :: 1 <= k <= |pos| ==> Explained(p, pos + [m], k) == Explained(p, pos, k)
    ensures Explained(p, pos + [m], |pos| + 1) == Ratio(p, pos, m)
  {
    hide Ratio;
    var q := pos + [m];
    assert q[..|pos|] == pos;
    forall k | 1 <= k <= |pos| ensures Explained(p, q, k) == Explained(p, pos, k) {
      assert q[..k - 1] == pos[..k - 1];
    }
  }

  /** The threshold test picks the new prefix exactly when its score is higher than every earlier one. */
  lemma ChosenStep(p: Problem, pos: seq<nat>, n: nat, price: real, thr: real, m: nat)
    requires Chosen(p, pos, n, price, thr) && m < |p.d|
    ensures var e := Ratio(p, pos, m);
      Chosen(p, pos + [m], if e > thr + price then |pos| + 1 else n, price, if e > thr + price then e else thr + price)
  {
    ScoresSnoc(p, pos, price, m);
    Priced(price, |pos|);
    hide Scores, FirstMax, Ratio, Paid;
    ThresholdStep(Scores(p, pos, price), n, Ratio(p, pos, m), Paid(price, |pos|), price, thr,
      Ratio(p, pos, m) - Paid(price, |pos| + 1));
  }

  lemma ThresholdStep(sc: seq<real>, n: nat, e: real, paid: real, price: real, thr: real, x: real)
    requires FirstMax(sc, n) && thr == sc[n] + paid && x == e - (paid + price)
    ensures FirstMax(sc + [x], if e > thr + price then |sc| else n)
    ensures (sc + [x])[if e > thr + price then |sc| else n] ==
      (if e > thr + price then e else thr + price) - (paid + price)
  {
    FirstMaxStep(sc, n, x);
    hide FirstMax;
  }

  lemma ScoresSnoc(p: Problem, pos: seq<nat>, price: real, m: nat)
    requires Slots(pos, |p.d|) && m < |p.d|
    ensures Slots(pos + [m], |p.d|)
    ensures Scores(p, pos + [m], price) == Scores(p, pos, price) + [Ratio(p, pos, m) - Paid(price, |pos| + 1)]
  {
    PrefixSlots(p, pos, m);
    hide Ratio, Explained;
    var a, b := Scores(p, pos + [m], price), Scores(p, pos, price);
    forall k | 0 <= k < |a| ensures a[k] == (b + [Ratio(p, pos, m) - Paid(price, |pos| + 1)])[k] {
      if k <= |pos| { assert a[k] == Score(p, pos + [m], k, price) == Score(p, pos, k, price) == b[k]; }
    }
  }

  lemma Priced(price: real, k: nat)
    ensures Paid(price, k + 1) == Paid(price, k) + price
  {}

  /** The price of k pulses. */
  function Paid(price: real, k: nat): real { price * (k as real) }

  lemma ReportsStep(p: Problem, pos: seq<nat>, m: nat, num: real, den: real)
    requires Slots(pos, |p.d|) && m < |p.d| && num == CorrWith(p, pos, m) && den == EnergyWith(p, pos, m) + EPS
    ensures den > 0.0 && Slots(pos + [m], |p.d|)
    ensures Reports(p, pos + [m], |pos| + 1, Rate(num * num / den, num / den, den))
      && Ratio(p, pos, m) == num * num / den
  {
    EnergyPositive(p, pos, m);
    hide Sg, Energy, Corr;
    assert (pos + [m])[..|pos| + 1] == pos + [m];
  }

  lemma ReportsKept(p: Problem, pos: seq<nat>, n: nat, r: Rate, m: nat)
    requires Slots(pos, |p.d|) && n <= |pos| && Reports(p, pos, n, r) && m < |p.d|
    ensures Slots(pos + [m], |p.d|) && Reports(p, pos + [m], n, r)
  {
    hide ReportsOn;
    assert (pos + [m])[..n] == pos[..n];
  }

  /** celpQ: explained energy for every slot. */
  method AllRatios(p: Problem, ghost pos: seq<nat>, num: seq<real>, den: seq<real>) returns (q: seq<real>)
    requires Tracks(p, pos, num, den)
    ensures |q| == |p.d|
      && forall i :: 0 <= i < |q| ==> q[i] == Ratio(p, pos, i) && den[i] > 0.0 && q[i] == num[i] * num[i] / den[i]
  {
    hide CorrWith, EnergyWith;
    q := [];
    for i := 0 to |p.d|
      invariant |q| == i
        && forall j :: 0 <= j < i ==> q[j] == Ratio(p, pos, j) && den[j] > 0.0 && q[j] == num[j] * num[j] / den[j]
    {
      ReportsStep(p, pos, i, num[i], den[i]);
      q := q + [num[i] * num[i] / den[i]];
    }
  }

  lemma SquareMono(x: real, y: real, c: real)
    requires 0.0 <= x <= y && c > 0.0
    ensures x * x / c <= y * y / c
  {
    assert x * x <= x * y <= y * y;
    DivMono(x * x, y * y, c);
  }

  lemma DivMono(a: real, b: real, c: real)
    requires a <= b && c > 0.0
    ensures a / c <= b / c
  {
    assert b / c - a / c == (b - a) / c;
  }

  /** With equal denominators and non-negative numerators, the largest target is the best first slot. */
  lemma FirstIsBest(p: Problem, num: seq<real>, den: seq<real>, m: nat)
    requires Tracks(p, [], num, den) && m < |p.d|
    requires forall i :: 0 <= i < |p.d| ==> 0.0 <= num[i] <= num[m] && den[i] == den[m]
    ensures Best(p, [], m)
  {
    hide CorrWith, EnergyWith, Ratio, Reports;
    forall i | 0 <= i < |p.d| ensures Ratio(p, [], i) <= Ratio(p, [], m) {
      ReportsStep(p, [], i, num[i], den[i]);
      ReportsStep(p, [], m, num[m], den[m]);
      SquareMono(num[i], num[m], den[m]);
    }
  }

  /** Everything the search keeps between pulses. */
  ghost predicate Searching(p: Problem, pos: seq<nat>, n: nat, price: real, thr: real, r: Rate) {
    && pos != [] && Greedy(p, pos) && Chosen(p, pos, n, price, thr) && Reports(p, pos, n, r)
  }

  lemma SearchingStep(p: Problem, pos: seq<nat>, n: nat, price: real, thr: real, r: Rate, m: nat, num: real, den: real)
    requires pos == [] || Searching(p, pos, n, price, thr, r)
    requires pos == [] ==> n == 0 && thr == 0.0
    requires Best(p, pos, m) && num == CorrWith(p, pos, m) && den == EnergyWith(p, pos, m) + EPS
    ensures den > 0.0
    ensures var e := num * num / den; var better := e > thr + price;
      Searching(p, pos + [m], if better then |pos| + 1 else n, price, if better then e
        else thr + price, if better then Rate(e, num / den, den) else r)
  {
    if pos == [] { StartChosen(p, price); }
    GreedySnoc(p, pos, m);
    ChosenStep(p, pos, n, price, thr, m);
    ReportsStep(p, pos, m, num, den);
    ReportsKept(p, pos, n, r, m);
    hide Greedy, Chosen, Reports, Best, Ratio, CorrWith, EnergyWith;
  }

  lemma StartChosen(p: Problem, price: real)
    ensures Greedy(p, []) && Chosen(p, [], 0, price, 0.0) && forall r :: Reports(p, [], 0, r)
  {}

  function Code(sign: real, slot: int): int { if sign > 0.0 then 1 + slot else -(1 + slot) }

  /** Signed one-based slots of the first n pulses. */
  function Coded(p: Problem, pos: seq<nat>, n: nat): (c: seq<int>)
    requires Slots(pos, |p.d|) && n <= |pos|
    ensures |c| == n
  {
    seq(n, i requires 0 <= i < n => Code(Sg(p)[pos[i]], pos[i]))
  }

  /** smplFcbSearch, main rate: a greedy train, and its first prefix of highest score with its exact report. */
  method Search(p: Problem, price: real, maxPulses: nat, before: Rate)
    returns (pulses: seq<int>, nPulses: nat, r: Rate, positions: seq<nat>, thr: real)
    requires ProblemOk(p)
    ensures Greedy(p, positions) && |positions| == if maxPulses > 1 then maxPulses else 1
    ensures exists n: nat :: Chosen(p, positions, n, price, thr) && nPulses == (if thr > 0.0 then n else 0)
    ensures nPulses > 0 ==> Reports(p, positions, nPulses, r)
    ensures thr <= 0.0 ==> r == Rate(0.0, 0.0, 0.0)
    ensures nPulses <= |positions| && pulses == Coded(p, positions, nPulses)
  {
    hide Greedy, Chosen, Reports, Ratio, Auto, Sg, Best, CorrWith, EnergyWith, Searching;
    var absArr, signArr := AbsAndSign(p.d);
    SignsAre(p);
    var dAbs, dSign := absArr[..], signArr[..];
    var num, den := new real[|p.d|](_ => 0.0), new real[|p.d|](_ => 0.0);
    var first := Start(p, dAbs, num, den);
    var n: nat, t: real, rate: Rate := FirstReport(p, price, first, num[first], den[first], before);
    var pos: seq<nat> := [first];
    assert pos[..0] == [];
    while |pos| < maxPulses
      invariant 1 <= |pos| && (maxPulses > 1 ==> |pos| <= maxPulses) && (maxPulses <= 1 ==> |pos| == 1)
      invariant Slots(pos, |p.d|)
      invariant Tracks(p, pos[..|pos| - 1], num[..], den[..])
      invariant Searching(p, pos, n, price, t, rate)
      decreases maxPulses - |pos|
    {
      var m, c, e := NextPulse(p, pos, dAbs[pos[|pos| - 1]], dSign, num, den);
      SearchingStep(p, pos, n, price, t, rate, m, c, e);
      var better, t1 := CheckIfBetter(c * c / e, t, price);
      if better {
        n, rate := |pos| + 1, Rate(c * c / e, c / e, e);
      }
      t, pos := t1, pos + [m];
    }
    positions, thr := pos, t;
    SearchingParts(p, pos, n, price, t, rate);
    if t > 0.0 {
      nPulses, r := n, rate;
    } else {
      nPulses, r := 0, Rate(0.0, 0.0, 0.0);
    }
    pulses := EmitPulses(p, dSign, pos, nPulses);
  }

  /** The report after the first pulse. */
  method FirstReport(p: Problem, price: real, first: nat, c: real, e: real, before: Rate)
    returns (n: nat, t: real, rate: Rate)
    requires Best(p, [], first) && c == CorrWith(p, [], first) && e == EnergyWith(p, [], first) + EPS
    ensures Searching(p, [first], n, price, t, rate)
  {
    hide Greedy, Chosen, Reports, Ratio, Auto, Sg, Best, CorrWith, EnergyWith, Searching;
    SearchingStep(p, [], 0, price, 0.0, before, first, c, e);
    assert [] + [first] == [first];
    var ratio := c / e;
    var wnrg0 := c * ratio;
    SameQuotient(c, e);
    assert wnrg0 == c * c / e;
    var better;
    better, t := CheckIfBetter(wnrg0, 0.0, price);
    if better {
      n, rate := 1, Rate(wnrg0, ratio, e);
    } else {
      n, rate := 0, before;
    }
  }

  lemma SameQuotient(x: real, y: real)
    requires y > 0.0
    ensures x * (x / y) == x * x / y
  {}

  lemma SearchingParts(p: Problem, pos: seq<nat>, n: nat, price: real, thr: real, r: Rate)
    requires Searching(p, pos, n, price, thr, r)
    ensures Greedy(p, pos) && Chosen(p, pos, n, price, thr) && Slots(pos, |p.d|) && n <= |pos| && Reports(p, pos, n, r)
  {}

  lemma SignsAre(p: Problem)
    ensures SignsOf(p.d) == Sg(p)
  {}

  /** The running arrays before any pulse, and the first slot. */
  method Start(p: Problem, dAbs: seq<real>, num: array<real>, den: array<real>) returns (m: nat)
    requires ProblemOk(p) && num != den && num.Length == den.Length == |dAbs| == |p.d|
    requires forall i :: 0 <= i < |p.d| ==> dAbs[i] == Sg(p)[i] * p.d[i]
    modifies num, den
    ensures Tracks(p, [], num[..], den[..]) && m < |p.d| && Best(p, [], m)
    ensures num[m] == CorrWith(p, [], m) && den[m] == EnergyWith(p, [], m) + EPS
  {
    hide Auto, CorrWith, EnergyWith, Best;
    var n := |p.d|;
    for i := 0 to n
      invariant forall j :: 0 <= j < i ==> den[j] == p.phiFlip[MAX_SF] + EPS && num[j] == dAbs[j]
    {
      den[i] := p.phiFlip[MAX_SF] + EPS;
      num[i] := dAbs[i];
    }
    StartTracks(p, num[..], den[..]);
    m := GetMaxi(num[..]);
    forall i | 0 <= i < n ensures num[i] >= 0.0 { SignTimes(p.d[i]); }
    FirstIsBest(p, num[..], den[..], m);
  }

  /** One iteration: take the last pulse in, then the best next slot. */
  method NextPulse(p: Problem, pos: seq<nat>, dAbs: real, dSign: seq<real>, num: array<real>, den: array<real>)
    returns (m: nat, c: real, e: real)
    requires ProblemOk(p) && num != den && pos != [] && Slots(pos, |p.d|) && dSign == Sg(p)
    requires dAbs == dSign[pos[|pos| - 1]] * p.d[pos[|pos| - 1]]
    requires Tracks(p, pos[..|pos| - 1], num[..], den[..])
    modifies num, den
    ensures Tracks(p, pos, num[..], den[..]) && Best(p, pos, m) && m < |p.d|
    ensures c == CorrWith(p, pos, m) && e == EnergyWith(p, pos, m) + EPS
  {
    hide Auto, CorrWith, EnergyWith, Ratio, ProblemOk, Sg;
    var front, position := pos[..|pos| - 1], pos[|pos| - 1];
    var dDen := CommonChange(p, front, position, dSign);
    UpdateArrays(p, front, position, dAbs, dSign, dDen, num, den);
    assert front + [position] == pos;
    var q := AllRatios(p, pos, num[..], den[..]);
    Nonempty(p);
    m := GetMaxi(q);
    c, e := num[m], den[m];
  }

  lemma Nonempty(p: Problem)
    requires ProblemOk(p)
    ensures |p.d| > 0
  {}

  method EmitPulses(p: Problem, dSign: seq<real>, pos: seq<nat>, n: nat) returns (pulses: seq<int>)
    requires dSign == Sg(p) && Slots(pos, |p.d|) && n <= |pos|
    ensures pulses == Coded(p, pos, n)
  {
    hide Sg;
    pulses := [];
    for i := 0 to n
      invariant |pulses| == i && forall j :: 0 <= j < i ==> pulses[j] == Coded(p, pos, n)[j]
    {
      pulses := pulses + [Code(dSign[pos[i]], pos[i])];
    }
  }

  // ----- the codevector -----

  /** One signed unit per pulse, added up slot by slot. */
  function Codevector(s: seq<real>, pos: seq<nat>): (c: seq<real>)
    requires Slots(pos, |s|)
    ensures |c| == |s|
  {
    if pos == [] then seq(|s|, _ => 0.0)
    else
      var p := pos[|pos| - 1];
      var front := Codevector(s, pos[..|pos| - 1]);
      front[p := front[p] + s[p]]
  }

  /** The codevector through the response, at sample n. */
  function Filtered(h: seq<real>, c: seq<real>, n: int): int -> real {
    i => (if 0 <= i < |c| then c[i] else 0.0) * At(h, n - i)
  }

  lemma {:induction false} FilteredStep(h: seq<real>, c: seq<real>, p: nat, x: real, n: int, k: nat)
    requires p < |c| && k <= |c|
    ensures Sum(Filtered(h, c[p := c[p] + x], n), k) == Sum(Filtered(h, c, n), k) + if p < k then x * At(h, n - p)
      else 0.0
  {
    hide At;
    if k > 0 {
      FilteredStep(h, c, p, x, n, k - 1);
      if p == k - 1 { Distribute(c[p], x, 1.0, At(h, n - p)); }
    }
  }

  /** A pulse train is its codevector through the response, so its energy is the codevector's filtered energy. */
  lemma {:induction false} TrainIsFiltered(h: seq<real>, s: seq<real>, pos: seq<nat>, n: int)
    requires Slots(pos, |s|)
    ensures Train(h, s, pos)(n) == Sum(Filtered(h, Codevector(s, pos), n), |s|)
  {
    hide At, Sum, Train;
    if pos == [] {
      EmptyTrainValue(h, s, n);
      SumTail(Filtered(h, Codevector(s, []), n), 0, |s|);
      EmptySum(Filtered(h, Codevector(s, []), n));
    } else {
      var k := |pos| - 1;
      var front, p := pos[..k], pos[k];
      TrainIsFiltered(h, s, front, n);
      FilteredStep(h, Codevector(s, front), p, s[p], n, |s|);
      assert pos == front + [p];
      TrainStep(h, s, front, p, n);
      CodevectorStep(s, front, p);
      hide Filtered;
    }
  }

  lemma EmptyTrainValue(h: seq<real>, s: seq<real>, n: int)
    ensures Slots([], |s|) && Train(h, s, [])(n) == 0.0
  {}

  lemma CodevectorStep(s: seq<real>, front: seq<nat>, p: nat)
    requires Slots(front, |s|) && p < |s|
    ensures Slots(front + [p], |s|)
      && Codevector(s, front + [p]) == Codevector(s, front)[p := Codevector(s, front)[p] + s[p]]
  {
    assert (front + [p])[..|front|] == front;
  }

  /** celpFcbSynthesize: the coded pulses give back the codevector of their train. */
  method FcbSynthesize(p: Problem, pulses: seq<int>, ghost pos: seq<nat>) returns (fcb: array<real>)
    requires Slots(pos, |p.d|) && pulses == Coded(p, pos, |pos|)
    ensures fresh(fcb) && fcb[..] == Codevector(Sg(p), pos)
  {
    hide Sg;
    fcb := new real[|p.d|](_ => 0.0);
    for n := 0 to |pulses|
      invariant fcb.Length == |p.d| && Slots(pos[..n], |p.d|) && fcb[..] == Codevector(Sg(p), pos[..n])
    {
      assert pulses[n] == Code(Sg(p)[pos[n]], pos[n]);
      var sign := if pulses[n] < 0 then -1 else 1;
      var at := pulses[n] * sign - 1;
      assert pos[..n + 1] == pos[..n] + [pos[n]] && pos[..n + 1][..n] == pos[..n];
      assert at == pos[n] && sign as real == Sg(p)[pos[n]] by { SignIs(p, pos[n]); }
      fcb[at] := fcb[at] + sign as real;
    }
    assert pos[..|pos|] == pos;
  }

  lemma SignIs(p: Problem, i: nat)
    requires i < |p.d|
    ensures Sg(p)[i] == 1.0 || Sg(p)[i] == -1.0
  {}
}
