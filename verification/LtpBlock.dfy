/** The long-term-prediction gains and filters of a voiced internal frame. */
module LtpBlock {
  import opened Bytes
  import opened RangeSpec
  import opened RangeProof
  import opened Symbols
  import opened RangeCoder
  import opened GainBlock
  import opened LsfBlock

  const ACB_N := 16
  const FILT_N := 34

  /** Gain rows flattened by previous gain, codebook weights in pairs, filter table, and the shifted filter table. */
  datatype LtpTabs = LtpTabs(acbgains: seq<u16>, weights: seq<i16>, fcbgV: Cdf, fcbgVDelta: Cdf)

  function Row(acbgains: seq<u16>, r: nat): (c: Cdf)
    requires r <= ACB_N && |acbgains| == (ACB_N + 1) * (ACB_N + 1)
    ensures |c| == ACB_N + 1
  {
    acbgains[r * (ACB_N + 1)..r * (ACB_N + 1) + ACB_N + 1]
  }

  predicate LtpOk(t: LtpTabs) {
    && |t.acbgains| == (ACB_N + 1) * (ACB_N + 1)
    && (forall r :: 0 <= r <= ACB_N ==> Increasing(Row(t.acbgains, r)))
    && |t.weights| == 2 * ACB_N
    && Increasing(t.fcbgV) && |t.fcbgV| == FILT_N + 1
    && Increasing(t.fcbgVDelta) && |t.fcbgVDelta| == 2 * FILT_N
  }

  /** Gain symbol distribution after gain prev, -1 at a reset. */
  function GainRow(t: LtpTabs, prev: int): (c: Cdf)
    requires LtpOk(t) && -1 <= prev < ACB_N
    ensures Increasing(c) && |c| == ACB_N + 1
  {
    Row(t.acbgains, prev + 1)
  }

  /** Filter symbol distribution: absolute at a reset, otherwise the window centred on the previous filter. */
  function FiltRow(t: LtpTabs, prev: int): (c: Cdf)
    requires LtpOk(t) && -1 <= prev < FILT_N
    ensures Increasing(c) && |c| == FILT_N + 1
  {
    if prev == -1 then t.fcbgV else t.fcbgVDelta[FILT_N - 1 - prev..FILT_N - 1 - prev + FILT_N + 1]
  }

  function Weight(t: LtpTabs, gi: int): int
    requires LtpOk(t) && 0 <= gi < ACB_N
  {
    var w0: int, w2: int := t.weights[2 * gi], t.weights[2 * gi + 1];
    w0 + 2 * w2
  }

  /** Indices the tables can follow: every gain, and the filter of every coded subframe. */
  predicate LtpOkParams(subfr: seq<nat>, gains: seq<int>, filts: seq<int>) {
    && |subfr| == |gains| == |filts| == 4
    && (forall i :: 0 <= i < 4 ==> 0 <= gains[i] < ACB_N)
    && (forall i :: 0 <= i < 4 && subfr[i] > 0 ==> 0 <= filts[i] < FILT_N)
  }

  /** The gain predictor before subframe k. */
  function GainBefore(gains: seq<int>, prev: int, k: nat): int
    requires k <= |gains|
  {
    if k == 0 then prev else gains[k - 1]
  }

  /** The filter predictor before subframe k: the last coded filter. */
  function FiltBefore(subfr: seq<nat>, filts: seq<int>, prev: int, k: nat): int
    requires k <= |subfr| && k <= |filts|
  {
    if k == 0 then prev else if subfr[k - 1] > 0 then filts[k - 1] else FiltBefore(subfr, filts, prev, k - 1)
  }

  function GainSum(t: LtpTabs, gains: seq<int>, k: nat): int
    requires LtpOk(t) && k <= |gains| && forall i :: 0 <= i < k ==> 0 <= gains[i] < ACB_N
  {
    if k == 0 then 0 else GainSum(t, gains, k - 1) + Weight(t, gains[k - 1])
  }

  lemma {:induction false} GainSumBound(t: LtpTabs, gains: seq<int>, k: nat)
    requires LtpOk(t) && k <= |gains| && forall i :: 0 <= i < k ==> 0 <= gains[i] < ACB_N
    ensures -0x18000 * k <= GainSum(t, gains, k) <= 0x18000 * k
  {
    if k > 0 { GainSumBound(t, gains, k - 1); }
  }

  /** Division rounding toward zero. */
  function Quot(a: int, b: nat): int
    requires b > 0
  {
    if a >= 0 then a / b else -(-a / b)
  }

  /** The lag table choice by mean gain. */
  function Mode(sum: int): (m: nat)
    ensures m < 3
  {
    if Quot(sum, 4) < 10007 then 0 else if Quot(sum, 4) < 14085 then 1 else 2
  }

  /** A gain counts all three taps of its symmetric filter: the middle one and the outer two. */
  lemma WeightIsTaps(t: LtpTabs, gi: int)
    requires LtpOk(t) && 0 <= gi < ACB_N
    ensures Weight(t, gi) == t.weights[2 * gi + 1] as int + t.weights[2 * gi] as int + t.weights[2 * gi + 1] as int
  {}

  /** The sum of four gains against four times the two thresholds. */
  lemma ModeBySum(sum: int)
    ensures Mode(sum) == 0 <==> sum < 4 * 10007
    ensures Mode(sum) == 2 <==> sum >= 4 * 14085
  {}

  /** The interval of a filter goes by its distance from the filter before alone. */
  lemma FiltByDistance(t: LtpTabs, prev: int, filt: int)
    requires LtpOk(t) && 0 <= prev < FILT_N && 0 <= filt <= FILT_N
    ensures FiltRow(t, prev)[filt] == t.fcbgVDelta[FILT_N - 1 + (filt - prev)]
    ensures FiltRow(t, -1) == t.fcbgV
  {}

  /** The gain before picks the row, the first row where there is none. */
  lemma GainByRow(t: LtpTabs, prev: int, gain: int)
    requires LtpOk(t) && -1 <= prev < ACB_N && 0 <= gain <= ACB_N
    ensures 0 <= (prev + 1) * (ACB_N + 1) + gain < |t.acbgains|
    ensures GainRow(t, prev)[gain] == t.acbgains[(prev + 1) * (ACB_N + 1) + gain]
  {}

  // ----- the script -----

  function FiltOne(t: LtpTabs, cnt: nat, filt: int, prev: int): (s: Script)
    requires LtpOk(t) && -1 <= prev < FILT_N
    ensures Sound(s)
  {
    if cnt == 0 then Nothing else One(CdfOp(filt, FiltRow(t, prev)))
  }

  function LtpOne(t: LtpTabs, cnt: nat, gain: int, filt: int, prevGain: int, prevFilt: int): (s: Script)
    requires LtpOk(t) && -1 <= prevGain < ACB_N && -1 <= prevFilt < FILT_N
    ensures Sound(s)
  {
    Then(One(CdfOp(gain, GainRow(t, prevGain))), FiltOne(t, cnt, filt, prevFilt))
  }

  predicate Starts(prevGain: int, prevFilt: int) { -1 <= prevGain < ACB_N && -1 <= prevFilt < FILT_N }

  lemma {:induction false} BeforeInRange(subfr: seq<nat>, gains: seq<int>, filts: seq<int>, prevGain: int,
                                         prevFilt: int, k: nat)
    requires Starts(prevGain, prevFilt) && k <= |subfr| && k <= |gains| && k <= |filts|
    requires forall i :: 0 <= i < k ==> 0 <= gains[i] < ACB_N && (subfr[i] > 0 ==> 0 <= filts[i] < FILT_N)
    ensures Starts(GainBefore(gains, prevGain, k), FiltBefore(subfr, filts, prevFilt, k))
  {
    if k > 0 { BeforeInRange(subfr, gains, filts, prevGain, prevFilt, k - 1); }
  }

  function LtpScript(t: LtpTabs, subfr: seq<nat>, gains: seq<int>, filts: seq<int>, prevGain: int, prevFilt: int,
                     k: nat): (s: Script)
    requires LtpOk(t) && LtpOkParams(subfr, gains, filts) && Starts(prevGain, prevFilt) && k <= 4
    ensures Sound(s)
  {
    if k == 0 then Nothing
    else
      BeforeInRange(subfr, gains, filts, prevGain, prevFilt, k - 1);
      Then(LtpScript(t, subfr, gains, filts, prevGain, prevFilt, k - 1),
           LtpOne(t, subfr[k - 1], gains[k - 1], filts[k - 1], GainBefore(gains, prevGain, k - 1),
             FiltBefore(subfr, filts, prevFilt, k - 1)))
  }

  // ----- reading -----

  /** Gains, filters (-1 where none is sent), and the predictors after them. */
  datatype Ltp = Ltp(gains: seq<int>, filts: seq<int>, prevGain: int, prevFilt: int)

  predicate LtpRead(subfr: seq<nat>, r: Ltp, k: nat)
    requires k <= |subfr|
  {
    && |r.gains| == |r.filts| == k && Starts(r.prevGain, r.prevFilt)
    && (forall i :: 0 <= i < k ==> 0 <= r.gains[i] < ACB_N)
    && (forall i :: 0 <= i < k ==> if subfr[i] == 0 then r.filts[i] == -1 else 0 <= r.filts[i] < FILT_N)
  }

  function ReadFilt(t: LtpTabs, d: DecState, cnt: nat, prev: int): (r: (int, DecState))
    requires LtpOk(t) && DecInv(d) && -1 <= prev < FILT_N
    ensures DecInv(r.1) && (if cnt == 0 then r.0 == -1 else 0 <= r.0 < FILT_N)
  {
    if cnt == 0 then (-1, d) else ReadCdf(d, FiltRow(t, prev))
  }

  /** One subframe: gain, then filter if any. */
  function ReadOne(t: LtpTabs, d: DecState, cnt: nat, prevGain: int, prevFilt: int): (r: (int, int, DecState))
    requires LtpOk(t) && DecInv(d) && Starts(prevGain, prevFilt)
    ensures DecInv(r.2) && 0 <= r.0 < ACB_N && (if cnt == 0 then r.1 == -1 else 0 <= r.1 < FILT_N)
  {
    var g := ReadCdf(d, GainRow(t, prevGain));
    var f := ReadFilt(t, g.1, cnt, prevFilt);
    (g.0, f.0, f.1)
  }

  function ReadLtp(t: LtpTabs, d: DecState, subfr: seq<nat>, prevGain: int, prevFilt: int, k: nat): (r: (Ltp, DecState))
    requires LtpOk(t) && DecInv(d) && |subfr| == 4 && Starts(prevGain, prevFilt) && k <= 4
    ensures DecInv(r.1) && LtpRead(subfr, r.0, k)
  {
    if k == 0 then (Ltp([], [], prevGain, prevFilt), d)
    else
      hide LtpOk, DecInv, ReadOne, Extend;
      var front := ReadLtp(t, d, subfr, prevGain, prevFilt, k - 1);
      var one := ReadOne(t, front.1, subfr[k - 1], front.0.prevGain, front.0.prevFilt);
      LtpReadSnoc(subfr, front.0, k - 1, one.0, one.1);
      (Extend(front.0, subfr[k - 1], one.0, one.1), one.2)
  }

  lemma LtpReadSnoc(subfr: seq<nat>, r: Ltp, k: nat, g: int, f: int)
    requires k < |subfr| && LtpRead(subfr, r, k) && 0 <= g < ACB_N
      && (if subfr[k] == 0 then f == -1 else 0 <= f < FILT_N)
    ensures LtpRead(subfr, Extend(r, subfr[k], g, f), k + 1)
  {}

  function Extend(r: Ltp, cnt: nat, g: int, f: int): Ltp {
    Ltp(r.gains + [g], r.filts + [f], g, if cnt > 0 then f else r.prevFilt)
  }

  /** The filter of an uncoded subframe is not on the wire; a decoder reports -1. */
  function Shown(subfr: seq<nat>, filts: seq<int>): (r: seq<int>)
    requires |filts| <= |subfr|
    ensures |r| == |filts|
  {
    seq(|filts|, i requires 0 <= i < |filts| => if subfr[i] == 0 then -1 else filts[i])
  }

  lemma FiltBack(t: LtpTabs, d: DecState, cnt: nat, filt: int, prev: int)
    requires LtpOk(t) && DecInv(d) && -1 <= prev < FILT_N && Holds(d, FiltOne(t, cnt, filt, prev))
    ensures ReadFilt(t, d, cnt, prev) == (if cnt == 0 then -1 else filt, Past(d, FiltOne(t, cnt, filt, prev)))
  {
    hide ReadCdf, CdfOp, Reads, AfterOp, Increasing, LtpOk, FiltRow;
    if cnt == 0 {
      HoldsNothing(d);
    } else {
      HoldsOne(d, CdfOp(filt, FiltRow(t, prev)));
      ReadCdfBack(d, filt, FiltRow(t, prev));
    }
  }

  lemma FiltSound(t: LtpTabs, d: DecState, cnt: nat, prev: int)
    requires LtpOk(t) && DecInv(d) && -1 <= prev < FILT_N
    ensures var r := ReadFilt(t, d, cnt, prev);
      Holds(d, FiltOne(t, cnt, r.0, prev)) && r.1 == Past(d, FiltOne(t, cnt, r.0, prev))
  {
    hide ReadCdf, CdfOp, Reads, AfterOp, Increasing, LtpOk, FiltRow;
    if cnt == 0 {
      HoldsNothing(d);
    } else {
      HoldsOne(d, CdfOp(ReadFilt(t, d, cnt, prev).0, FiltRow(t, prev)));
    }
  }

  lemma OneBack(t: LtpTabs, d: DecState, cnt: nat, gain: int, filt: int, pg: int, pf: int)
    requires LtpOk(t) && DecInv(d) && Starts(pg, pf) && Holds(d, LtpOne(t, cnt, gain, filt, pg, pf))
    ensures ReadOne(t, d, cnt, pg, pf) ==
      (gain, if cnt == 0 then -1 else filt, Past(d, LtpOne(t, cnt, gain, filt, pg, pf)))
  {
    hide ReadCdf, CdfOp, Reads, AfterOp, Increasing, LtpOk, GainRow, FiltOne, ReadFilt, Holds, Past;
    var op := CdfOp(gain, GainRow(t, pg));
    HoldsThen(d, One(op), FiltOne(t, cnt, filt, pf));
    HoldsOne(d, op);
    ReadCdfBack(d, gain, GainRow(t, pg));
    FiltBack(t, Past(d, One(op)), cnt, filt, pf);
  }

  lemma OneSound(t: LtpTabs, d: DecState, cnt: nat, pg: int, pf: int)
    requires LtpOk(t) && DecInv(d) && Starts(pg, pf)
    ensures var r := ReadOne(t, d, cnt, pg, pf); var s := LtpOne(t, cnt, r.0, r.1, pg, pf);
      Holds(d, s) && r.2 == Past(d, s)
  {
    hide ReadCdf, CdfOp, Reads, AfterOp, Increasing, LtpOk, GainRow, FiltOne, ReadFilt, Holds, Past;
    var g := ReadCdf(d, GainRow(t, pg));
    var f := ReadFilt(t, g.1, cnt, pf);
    var op := CdfOp(g.0, GainRow(t, pg));
    HoldsOne(d, op);
    FiltSound(t, g.1, cnt, pf);
    HoldsThen(d, One(op), FiltOne(t, cnt, f.0, pf));
  }

  lemma ShownSnoc(subfr: seq<nat>, gains: seq<int>, filts: seq<int>, k: nat)
    requires 0 < k <= |subfr| && k <= |gains| && k <= |filts|
    ensures gains[..k] == gains[..k - 1] + [gains[k - 1]]
    ensures Shown(subfr, filts[..k]) == Shown(subfr, filts[..k - 1]) + [if subfr[k - 1] == 0 then -1 else filts[k - 1]]
  {}

  /** A decoder facing encoded LTP symbols reads them and ends with the same predictors. */
  lemma {:induction false} ReadLtpBack(t: LtpTabs, d: DecState, subfr: seq<nat>, gains: seq<int>, filts: seq<int>,
                                       prevGain: int, prevFilt: int, k: nat)
    requires LtpOk(t) && DecInv(d) && LtpOkParams(subfr, gains, filts) && Starts(prevGain, prevFilt) && k <= 4
    requires Holds(d, LtpScript(t, subfr, gains, filts, prevGain, prevFilt, k))
    ensures ReadLtp(t, d, subfr, prevGain, prevFilt, k)
         == (Ltp(gains[..k], Shown(subfr, filts[..k]), GainBefore(gains, prevGain, k),
           FiltBefore(subfr, filts, prevFilt, k)),
             Past(d, LtpScript(t, subfr, gains, filts, prevGain, prevFilt, k)))
  {
    hide LtpOk, LtpOne, ReadOne, Holds, Past, LtpOkParams;
    if k == 0 {
      HoldsNothing(d);
    } else {
      Lengths(subfr, gains, filts);
      var s0 := LtpScript(t, subfr, gains, filts, prevGain, prevFilt, k - 1);
      var pg, pf := GainBefore(gains, prevGain, k - 1), FiltBefore(subfr, filts, prevFilt, k - 1);
      ParamsBefore(subfr, gains, filts, prevGain, prevFilt, k - 1);
      HoldsThen(d, s0, LtpOne(t, subfr[k - 1], gains[k - 1], filts[k - 1], pg, pf));
      ReadLtpBack(t, d, subfr, gains, filts, prevGain, prevFilt, k - 1);
      OneBack(t, Past(d, s0), subfr[k - 1], gains[k - 1], filts[k - 1], pg, pf);
      ShownSnoc(subfr, gains, filts, k);
      hide Shown, Starts, DecInv;
    }
  }

  lemma Lengths(subfr: seq<nat>, gains: seq<int>, filts: seq<int>)
    requires LtpOkParams(subfr, gains, filts)
    ensures |subfr| == |gains| == |filts| == 4
  {}

  lemma ParamsBefore(subfr: seq<nat>, gains: seq<int>, filts: seq<int>, prevGain: int, prevFilt: int, k: nat)
    requires Starts(prevGain, prevFilt) && k <= 4 && LtpOkParams(subfr, gains, filts)
    ensures Starts(GainBefore(gains, prevGain, k), FiltBefore(subfr, filts, prevFilt, k))
  {
    BeforeInRange(subfr, gains, filts, prevGain, prevFilt, k);
  }

  lemma {:induction false} LtpSnoc(t: LtpTabs, d: DecState, subfr: seq<nat>, pg: int, pf: int, k: nat)
    requires LtpOk(t) && DecInv(d) && |subfr| == 4 && Starts(pg, pf) && 0 < k <= 4
    ensures var front := ReadLtp(t, d, subfr, pg, pf, k - 1);
      && |front.0.gains| == |front.0.filts| == k - 1 && Starts(front.0.prevGain, front.0.prevFilt)
      && var one := ReadOne(t, front.1, subfr[k - 1], front.0.prevGain, front.0.prevFilt);
         ReadLtp(t, d, subfr, pg, pf, k) == (Extend(front.0, subfr[k - 1], one.0, one.1), one.2)
  {
    hide LtpOk, ReadOne, DecInv, Extend;
  }

  lemma SnocFront(front: seq<int>, x: int, all: seq<int>, k: nat)
    requires 0 < k <= |all| && |front| == k - 1 && front + [x] == all[..k]
    ensures front == all[..k - 1] && x == all[k - 1]
  {
    assert (front + [x])[k - 1] == all[..k][k - 1];
    assert front == (front + [x])[..k - 1] == all[..k][..k - 1] == all[..k - 1];
  }

  /** On any input, the symbols read are the ones whose script was there; predictors follow. */
  lemma {:induction false} ReadLtpSound(t: LtpTabs, d: DecState, subfr: seq<nat>, gains: seq<int>, filts: seq<int>,
                                        prevGain: int, prevFilt: int, k: nat)
    requires LtpOk(t) && DecInv(d) && LtpOkParams(subfr, gains, filts) && Starts(prevGain, prevFilt) && k <= 4
    requires ReadLtp(t, d, subfr, prevGain, prevFilt, k).0.gains == gains[..k]
    requires ReadLtp(t, d, subfr, prevGain, prevFilt, k).0.filts == filts[..k]
    ensures var r := ReadLtp(t, d, subfr, prevGain, prevFilt, k);
      var s := LtpScript(t, subfr, gains, filts, prevGain, prevFilt, k);
      && Holds(d, s) && r.1 == Past(d, s)
      && r.0.prevGain == GainBefore(gains, prevGain, k) && r.0.prevFilt == FiltBefore(subfr, filts, prevFilt, k)
  {
    hide LtpOk, LtpOne, ReadOne, Holds, Past, LtpOkParams, DecInv, Starts;
    if k == 0 {
      HoldsNothing(d);
    } else {
      Lengths(subfr, gains, filts);
      ParamsBefore(subfr, gains, filts, prevGain, prevFilt, k - 1);
      var front := ReadLtp(t, d, subfr, prevGain, prevFilt, k - 1);
      var one := ReadOne(t, front.1, subfr[k - 1], front.0.prevGain, front.0.prevFilt);
      LtpSnoc(t, d, subfr, prevGain, prevFilt, k);
      SnocFront(front.0.gains, one.0, gains, k);
      SnocFront(front.0.filts, one.1, filts, k);
      hide ReadLtp;
      ReadLtpSound(t, d, subfr, gains, filts, prevGain, prevFilt, k - 1);
      OneSound(t, front.1, subfr[k - 1], front.0.prevGain, front.0.prevFilt);
      HoldsThen(d, LtpScript(t, subfr, gains, filts, prevGain, prevFilt, k - 1),
                LtpOne(t, subfr[k - 1], gains[k - 1], filts[k - 1], front.0.prevGain, front.0.prevFilt));
    }
  }

  // ----- the methods -----

  /** The predictors after k subframes. */
  function AfterLtp(st: Predictor, subfr: seq<nat>, gains: seq<int>, filts: seq<int>, k: nat): Predictor
    requires k <= |subfr| && k <= |gains| && k <= |filts|
  {
    st.(prevGainIdx := GainBefore(gains, st.prevGainIdx, k), prevFiltIdx := FiltBefore(subfr, filts, st.prevFiltIdx, k))
  }

  method EncodeLtp(enc: RangeEncoder, t: LtpTabs, st: SmplLsfState, subfr: seq<nat>, gains: seq<int>, filts: seq<int>)
    returns (sum: int)
    requires enc.Valid() && LtpOk(t) && LtpOkParams(subfr, gains, filts) && Starts(st.prevGainIdx, st.prevFiltIdx)
    modifies enc, enc.buf, st
    ensures enc.Valid() && sum == GainSum(t, gains, 4)
    ensures enc.sent ==
      Sent(old(enc.sent), LtpScript(t, subfr, gains, filts, old(st.prevGainIdx), old(st.prevFiltIdx), 4))
    ensures st.Get() == AfterLtp(old(st.Get()), subfr, gains, filts, 4)
  {
    hide RangeEncoder.Valid, CdfOp, Increasing, Degenerate, Sent, Flatten, GainRow, FiltRow, LtpOk, Weight;
    ghost var before, st0 := enc.sent, st.Get();
    ghost var pg, pf := st.prevGainIdx, st.prevFiltIdx;
    SentNothing(before);
    sum := 0;
    for sf := 0 to 4
      invariant enc.Valid() && sum == GainSum(t, gains, sf) && st.Get() == AfterLtp(st0, subfr, gains, filts, sf)
      invariant enc.sent == Sent(before, LtpScript(t, subfr, gains, filts, pg, pf, sf))
    {
      BeforeInRange(subfr, gains, filts, pg, pf, sf);
      ghost var one := LtpOne(t, subfr[sf], gains[sf], filts[sf], st.prevGainIdx, st.prevFiltIdx);
      SentThen(before, LtpScript(t, subfr, gains, filts, pg, pf, sf), one);
      EncodeOne(enc, t, st, subfr[sf], gains[sf], filts[sf]);
      sum := sum + Weight(t, gains[sf]);
    }
  }

  method EncodeOne(enc: RangeEncoder, t: LtpTabs, st: SmplLsfState, cnt: nat, gi: int, fi: int)
    requires enc.Valid() && LtpOk(t) && Starts(st.prevGainIdx, st.prevFiltIdx)
    modifies enc, enc.buf, st
    ensures enc.Valid()
      && enc.sent == Sent(old(enc.sent), LtpOne(t, cnt, gi, fi, old(st.prevGainIdx), old(st.prevFiltIdx)))
    ensures st.Get() == old(st.Get()).(prevGainIdx := gi, prevFiltIdx := if cnt > 0 then fi else old(st.prevFiltIdx))
  {
    hide RangeEncoder.Valid, CdfOp, Increasing, Degenerate, Sent, Flatten, GainRow, FiltRow, LtpOk;
    ghost var before, op := enc.sent, CdfOp(gi, GainRow(t, st.prevGainIdx));
    ghost var tail := FiltOne(t, cnt, fi, st.prevFiltIdx);
    SentOne(before, op);
    SentThen(before, One(op), tail);
    enc.EncodeCDF(gi, GainRow(t, st.prevGainIdx));
    st.prevGainIdx := gi;
    SentNothing(enc.sent);
    if cnt > 0 {
      SentOne(enc.sent, CdfOp(fi, FiltRow(t, st.prevFiltIdx)));
      enc.EncodeCDF(fi, FiltRow(t, st.prevFiltIdx));
      st.prevFiltIdx := fi;
    }
  }

  method DecodeLtp(dec: RangeDecoder, t: LtpTabs, st: SmplLsfState, subfr: seq<nat>)
    returns (gains: seq<int>, filts: seq<int>, sum: int)
    requires dec.Valid() && LtpOk(t) && |subfr| == 4 && Starts(st.prevGainIdx, st.prevFiltIdx)
    modifies dec, st
    ensures dec.Valid()
    ensures LtpSoFar(t, old(dec.State()), subfr, old(st.prevGainIdx), old(st.prevFiltIdx),
      Ltp(gains, filts, st.prevGainIdx, st.prevFiltIdx), dec.State(), sum, 4)
    ensures st.Get() == old(st.Get()).(prevGainIdx := st.prevGainIdx, prevFiltIdx := st.prevFiltIdx)
  {
    ghost var d, pg, pf, st0 := dec.State(), st.prevGainIdx, st.prevFiltIdx, st.Get();
    gains, filts, sum := [], [], 0;
    LtpSoFarStart(t, d, subfr, pg, pf);
    hide RangeDecoder.Valid, ReadOne, LtpOk, Weight, LtpSoFar, DecInv, Extend, Starts;
    for sf := 0 to 4
      invariant dec.Valid() && st.Get() == Moved(st0, st.prevGainIdx, st.prevFiltIdx)
      invariant LtpSoFar(t, d, subfr, pg, pf, Ltp(gains, filts, st.prevGainIdx, st.prevFiltIdx), dec.State(), sum, sf)
    {
      gains, filts, sum := DecodeOneMore(dec, t, st, subfr, sf, gains, filts, sum, d, pg, pf);
    }
  }

  /** One subframe, appended to what was read before. */
  method DecodeOneMore(dec: RangeDecoder, t: LtpTabs, st: SmplLsfState, subfr: seq<nat>, k: nat, gains0: seq<int>,
                       filts0: seq<int>, sum0: int,
                       ghost d: DecState, ghost pg: int, ghost pf: int)
    returns (gains: seq<int>, filts: seq<int>, sum: int)
    requires dec.Valid() && LtpOk(t) && |subfr| == 4 && k < 4
    requires LtpSoFar(t, d, subfr, pg, pf, Ltp(gains0, filts0, st.prevGainIdx, st.prevFiltIdx), dec.State(), sum0, k)
    modifies dec, st
    ensures dec.Valid() && st.Get() == Moved(old(st.Get()), st.prevGainIdx, st.prevFiltIdx)
    ensures LtpSoFar(t, d, subfr, pg, pf, Ltp(gains, filts, st.prevGainIdx, st.prevFiltIdx), dec.State(), sum, k + 1)
  {
    hide RangeDecoder.Valid, LtpOk, Weight, LtpSoFar, DecInv, ReadOne, Starts;
    LtpSoFarStep(t, d, subfr, pg, pf, Ltp(gains0, filts0, st.prevGainIdx, st.prevFiltIdx), dec.State(), sum0, k);
    var gi, fi := DecodeOne(dec, t, st, subfr[k]);
    gains, filts := gains0 + [gi], filts0 + [fi];
    sum := sum0 + Weight(t, gi);
  }

  function Moved(st: Predictor, gain: int, filt: int): Predictor { st.(prevGainIdx := gain, prevFiltIdx := filt) }

  /** The state of the decoding loop after k subframes. */
  ghost predicate LtpSoFar(t: LtpTabs, d: DecState, subfr: seq<nat>, pg: int, pf: int, r: Ltp, f: DecState, sum: int,
                           k: nat) {
    && LtpOk(t) && DecInv(d) && |subfr| == 4 && Starts(pg, pf) && k <= 4
    && ReadLtp(t, d, subfr, pg, pf, k) == (r, f) && sum == GainSum(t, r.gains, k)
  }

  lemma LtpSoFarStart(t: LtpTabs, d: DecState, subfr: seq<nat>, pg: int, pf: int)
    requires LtpOk(t) && DecInv(d) && |subfr| == 4 && Starts(pg, pf)
    ensures LtpSoFar(t, d, subfr, pg, pf, Ltp([], [], pg, pf), d, 0, 0)
  {}

  lemma LtpSoFarStep(t: LtpTabs, d: DecState, subfr: seq<nat>, pg: int, pf: int, r: Ltp, f: DecState, sum: int, k: nat)
    requires k < 4 && LtpSoFar(t, d, subfr, pg, pf, r, f, sum, k)
    ensures DecInv(f) && Starts(r.prevGain, r.prevFilt)
    ensures var one := ReadOne(t, f, subfr[k], r.prevGain, r.prevFilt);
      LtpSoFar(t, d, subfr, pg, pf, Extend(r, subfr[k], one.0, one.1), one.2, sum + Weight(t, one.0), k + 1)
  {
    hide LtpOk, ReadOne, Weight;
    var one := ReadOne(t, f, subfr[k], r.prevGain, r.prevFilt);
    GainSumPrefix(t, r.gains, r.gains + [one.0], k);
  }

  lemma {:induction false} GainSumPrefix(t: LtpTabs, a: seq<int>, b: seq<int>, k: nat)
    requires LtpOk(t) && k <= |a| && k <= |b| && a[..k] == b[..k] && forall i :: 0 <= i < k ==> 0 <= a[i] < ACB_N
    ensures (forall i :: 0 <= i < k ==> 0 <= b[i] < ACB_N) && GainSum(t, a, k) == GainSum(t, b, k)
  {
    hide LtpOk, Weight;
    assert forall i :: 0 <= i < k ==> a[i] == a[..k][i] == b[..k][i] == b[i];
    if k > 0 {
      assert a[..k - 1] == a[..k][..k - 1] == b[..k][..k - 1] == b[..k - 1];
      GainSumPrefix(t, a, b, k - 1);
    }
  }

  method DecodeOne(dec: RangeDecoder, t: LtpTabs, st: SmplLsfState, cnt: nat) returns (gi: int, fi: int)
    requires dec.Valid() && LtpOk(t) && Starts(st.prevGainIdx, st.prevFiltIdx)
    modifies dec, st
    ensures dec.Valid()
      && (gi, fi, dec.State()) == ReadOne(t, old(dec.State()), cnt, old(st.prevGainIdx), old(st.prevFiltIdx))
    ensures st.Get() == old(st.Get()).(prevGainIdx := gi, prevFiltIdx := if cnt > 0 then fi else old(st.prevFiltIdx))
  {
    hide RangeDecoder.Valid, ReadCdf, Increasing, Degenerate, GainRow, FiltRow, LtpOk;
    gi := dec.DecodeCDF(GainRow(t, st.prevGainIdx));
    st.prevGainIdx := gi;
    fi := -1;
    if cnt > 0 {
      fi := dec.DecodeCDF(FiltRow(t, st.prevFiltIdx));
      st.prevFiltIdx := fi;
    }
  }
}
