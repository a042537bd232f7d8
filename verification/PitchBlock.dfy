/** The pitch block of a voiced internal frame: LTP symbols, then the lag contour in the mode they select. */
module PitchBlock {
  import opened RangeSpec
  import opened Symbols
  import opened RangeCoder
  import opened LsfBlock
  import opened LtpBlock
  import opened PitchTables
  import opened PitchHeap
  import opened LagBlock
  import opened LagCoder

  datatype PitchTabs = PitchTabs(ltp: LtpTabs, lag: PitchTables)

  datatype PitchParams = PitchParams(gainIdx: seq<int>, filtIdx: seq<int>, blocksegIdx: nat, laginds: seq<int>)

  predicate PitchTabsOk(t: PitchTabs) { LtpOk(t.ltp) && PitchOk(t.lag) }

  predicate PitchParamsOk(t: PitchTabs, subfr: seq<nat>, pp: PitchParams)
    requires PitchTabsOk(t)
  {
    && LtpOkParams(subfr, pp.gainIdx, pp.filtIdx)
    && pp.blocksegIdx < NUM_BLOCKSEGS && |pp.laginds| == LAG_SLOTS
    && SegsOk(Shape(t, pp), SegLags(Shape(t, pp), pp.laginds), |Shape(t, pp).blocks|)
  }

  function Shape(t: PitchTabs, pp: PitchParams): (bs: BlockSeg)
    requires PitchTabsOk(t) && pp.blocksegIdx < NUM_BLOCKSEGS
    ensures SegOk(bs)
  {
    Contour(t.lag, pp.blocksegIdx)
  }

  /** What the block reads from a predictor: gain, filter, and a lag block with its index. */
  datatype PitchPrev = PitchPrev(gain: int, filt: int, blk: int, idx: int)

  predicate PrevOk(p: PitchPrev) { Starts(p.gain, p.filt) && LagPrev(p.blk, p.idx) }

  /** The encoder keeps its own lag predictor; the decoder's is rebuilt from decoded lags. */
  function EncPrev(st: Predictor): PitchPrev { PitchPrev(st.prevGainIdx, st.prevFiltIdx, st.prevLagblk, st.prevLagidx) }

  function DecPrev(st: Predictor): PitchPrev { PitchPrev(st.prevGainIdx, st.prevFiltIdx, st.prevLag, st.prevFracLag) }

  // ----- the script -----

  function PitchScript(t: PitchTabs, subfr: seq<nat>, pp: PitchParams, p: PitchPrev): (s: Script)
    requires PitchTabsOk(t) && PitchParamsOk(t, subfr, pp) && PrevOk(p)
    ensures Sound(s)
  {
    Then(LtpScript(t.ltp, subfr, pp.gainIdx, pp.filtIdx, p.gain, p.filt, 4),
         LagScript(t.lag, pp.blocksegIdx, SegLags(Shape(t, pp), pp.laginds), p.blk, p.idx,
           Mode(GainSum(t.ltp, pp.gainIdx, 4))))
  }

  /** The encoder's predictor after the block: last block of the contour, last slot of the lags. */
  function PrevAfter(t: PitchTabs, subfr: seq<nat>, pp: PitchParams, p: PitchPrev): PitchPrev
    requires PitchTabsOk(t) && PitchParamsOk(t, subfr, pp)
  {
    var bs := Shape(t, pp);
    PitchPrev(GainBefore(pp.gainIdx, p.gain, 4), FiltBefore(subfr, pp.filtIdx, p.filt, 4),
              bs.blocks[|bs.blocks| - 1], pp.laginds[LAG_SLOTS - 1])
  }

  // ----- reading -----

  /** Decoded block: LTP symbols with their predictors, contour, and one lag per segment. */
  datatype PitchRead = PitchRead(ltp: Ltp, contour: nat, segs: seq<int>)

  function ReadPitch(t: PitchTabs, d: DecState, subfr: seq<nat>, p: PitchPrev): (r: (PitchRead, DecState))
    requires PitchTabsOk(t) && DecInv(d) && |subfr| == 4 && PrevOk(p)
    ensures DecInv(r.1) && LtpRead(subfr, r.0.ltp, 4)
    ensures r.0.contour < NUM_BLOCKSEGS
    ensures var bs := Contour(t.lag, r.0.contour); |r.0.segs| == |bs.blocks| && SegsOk(bs, r.0.segs, |bs.blocks|)
  {
    var l := ReadLtp(t.ltp, d, subfr, p.gain, p.filt, 4);
    var g := ReadLags(t.lag, l.1, p.blk, p.idx, Mode(GainSum(t.ltp, l.0.gains, 4)));
    (PitchRead(l.0, g.0, g.1), g.2)
  }

  /** The decoder's predictor after the block. */
  function PrevOf(t: PitchTabs, r: PitchRead): PitchPrev
    requires PitchTabsOk(t) && r.contour < NUM_BLOCKSEGS && |r.segs| == |Contour(t.lag, r.contour).blocks|
  {
    var n := |r.segs|;
    PitchPrev(r.ltp.prevGain, r.ltp.prevFilt, Contour(t.lag, r.contour).blocks[n - 1], r.segs[n - 1])
  }

  lemma PrevOfOk(t: PitchTabs, d: DecState, subfr: seq<nat>, p: PitchPrev)
    requires PitchTabsOk(t) && DecInv(d) && |subfr| == 4 && PrevOk(p)
    ensures PrevOk(PrevOf(t, ReadPitch(t, d, subfr, p).0))
  {
    hide ReadLtp, ReadLags, PitchOk, LtpOk, GainSum;
    var r := ReadPitch(t, d, subfr, p).0;
    var bs := Contour(t.lag, r.contour);
    assert InBlock(r.segs[|bs.blocks| - 1], bs.blocks[|bs.blocks| - 1]);
  }

  /** What the decoder reports, as encoder parameters: empty subframes carry no filter. */
  function Params(t: PitchTabs, r: PitchRead): PitchParams
    requires PitchTabsOk(t) && r.contour < NUM_BLOCKSEGS && |r.segs| == |Contour(t.lag, r.contour).blocks|
  {
    PitchParams(r.ltp.gains, r.ltp.filts, r.contour, BlockLags(Contour(t.lag, r.contour), r.segs))
  }

  function Canonical(subfr: seq<nat>, pp: PitchParams): PitchParams
    requires |pp.filtIdx| <= |subfr|
  {
    pp.(filtIdx := Shown(subfr, pp.filtIdx))
  }

  /** A decoder facing an encoded block reads it. */
  lemma ReadPitchBack(t: PitchTabs, d: DecState, subfr: seq<nat>, pp: PitchParams, p: PitchPrev)
    requires PitchTabsOk(t) && DecInv(d) && PitchParamsOk(t, subfr, pp) && PrevOk(p)
      && Holds(d, PitchScript(t, subfr, pp, p))
    ensures ReadPitch(t, d, subfr, p)
         == (PitchRead(Ltp(pp.gainIdx, Shown(subfr, pp.filtIdx), GainBefore(pp.gainIdx, p.gain, 4),
           FiltBefore(subfr, pp.filtIdx, p.filt, 4)),
                       pp.blocksegIdx, SegLags(Shape(t, pp), pp.laginds)),
             Past(d, PitchScript(t, subfr, pp, p)))
  {
    hide ReadLtp, ReadLags, LtpScript, LagScript, PitchOk, LtpOk, Holds, Past, SegsOk, SegLags, SegOk, Contour;
    var mode := Mode(GainSum(t.ltp, pp.gainIdx, 4));
    var s0 := LtpScript(t.ltp, subfr, pp.gainIdx, pp.filtIdx, p.gain, p.filt, 4);
    var segs := SegLags(Shape(t, pp), pp.laginds);
    HoldsThen(d, s0, LagScript(t.lag, pp.blocksegIdx, segs, p.blk, p.idx, mode));
    ReadLtpBack(t.ltp, d, subfr, pp.gainIdx, pp.filtIdx, p.gain, p.filt, 4);
    assert pp.gainIdx[..4] == pp.gainIdx && pp.filtIdx[..4] == pp.filtIdx;
    ReadLagsBack(t.lag, Past(d, s0), pp.blocksegIdx, segs, p.blk, p.idx, mode);
  }

  /** Parameters and predictor survive the wire exactly when the lags are constant on each segment. */
  lemma PitchRoundTrip(t: PitchTabs, d: DecState, subfr: seq<nat>, pp: PitchParams, p: PitchPrev)
    requires PitchTabsOk(t) && DecInv(d) && PitchParamsOk(t, subfr, pp) && PrevOk(p)
      && Holds(d, PitchScript(t, subfr, pp, p))
    ensures var r := ReadPitch(t, d, subfr, p).0;
      && (Params(t, r) == Canonical(subfr, pp) <==> SegmentConstant(Shape(t, pp), pp.laginds))
      && (SegmentConstant(Shape(t, pp), pp.laginds) ==> PrevOf(t, r) == PrevAfter(t, subfr, pp, p))
  {
    ReadPitchBack(t, d, subfr, pp, p);
    var bs := Shape(t, pp);
    hide ReadPitch, PitchScript, PitchOk, LtpOk, Holds, SegsOk, SegLags, SegOk, Contour, SegmentConstant, BlockLags,
      GainBefore, LtpOkParams, Shown;
    LosslessWhenConstant(bs, pp.laginds);
    if SegmentConstant(bs, pp.laginds) { LastSlot(bs, pp.laginds); }
  }

  // ----- soundness on any input -----

  lemma {:induction false} SpreadAt(bs: BlockSeg, segs: seq<int>, n: nat, k: nat)
    requires SegOk(bs) && k < n <= |bs.blocks| && n <= |segs|
    ensures SegStart(bs.seglens, k) < SegStart(bs.seglens, n) && Spread(bs, segs, n)[SegStart(bs.seglens, k)] == segs[k]
  {
    StartBelow(bs, n - 1);
    if k < n - 1 { SpreadAt(bs, segs, n - 1, k); }
  }

  /** Segment lags are recovered from the slots they fill. */
  lemma SegLagsOfBlockLags(bs: BlockSeg, segs: seq<int>)
    requires SegOk(bs) && |segs| == |bs.blocks|
    ensures SegLags(bs, BlockLags(bs, segs)) == segs
  {
    hide SegOk, Spread;
    forall k | 0 <= k < |segs| ensures SegLags(bs, BlockLags(bs, segs))[k] == segs[k] {
      StartBelow(bs, k);
      SpreadAt(bs, segs, |bs.blocks|, k);
    }
  }

  lemma ReadParamsOk(t: PitchTabs, d: DecState, subfr: seq<nat>, p: PitchPrev)
    requires PitchTabsOk(t) && DecInv(d) && |subfr| == 4 && PrevOk(p)
    ensures PitchParamsOk(t, subfr, Params(t, ReadPitch(t, d, subfr, p).0))
    ensures var r := ReadPitch(t, d, subfr, p).0;
      SegLags(Contour(t.lag, r.contour), BlockLags(Contour(t.lag, r.contour), r.segs)) == r.segs
  {
    hide PitchOk, LtpOk, SegsOk, SegOk, Contour, SegLags, BlockLags, ReadLtp, ReadLags;
    var r := ReadPitch(t, d, subfr, p).0;
    SegLagsOfBlockLags(Contour(t.lag, r.contour), r.segs);
  }

  /** On any input, the block read is one the encoder could have written there. */
  lemma ReadPitchSound(t: PitchTabs, d: DecState, subfr: seq<nat>, p: PitchPrev)
    requires PitchTabsOk(t) && RangesExact(t.lag) && DecInv(d) && |subfr| == 4 && PrevOk(p)
    ensures var r := ReadPitch(t, d, subfr, p); var pp := Params(t, r.0);
      && PitchParamsOk(t, subfr, pp)
      && Holds(d, PitchScript(t, subfr, pp, p)) && r.1 == Past(d, PitchScript(t, subfr, pp, p))
  {
    ReadParamsOk(t, d, subfr, p);
    hide PitchOk, LtpOk, SegsOk, SegOk, Contour, SegLags, BlockLags, ReadLtp, ReadLags, RangesExact, LtpScript,
      LagScript, LtpOkParams, Holds, Past, LtpRead;
    var r := ReadPitch(t, d, subfr, p);
    var l := ReadLtp(t.ltp, d, subfr, p.gain, p.filt, 4);
    var pp := Params(t, r.0);
    Whole4(t.ltp, d, subfr, p.gain, p.filt, pp.gainIdx, pp.filtIdx);
    var mode := Mode(GainSum(t.ltp, pp.gainIdx, 4));
    ReadLagsSound(t.lag, l.1, p.blk, p.idx, mode);
    HoldsThen(d, LtpScript(t.ltp, subfr, pp.gainIdx, pp.filtIdx, p.gain, p.filt, 4),
      LagScript(t.lag, r.0.contour, r.0.segs, p.blk, p.idx, mode));
  }

  lemma Whole4(t: LtpTabs, d: DecState, subfr: seq<nat>, pg: int, pf: int, gains: seq<int>, filts: seq<int>)
    requires LtpOk(t) && DecInv(d) && LtpOkParams(subfr, gains, filts) && Starts(pg, pf)
    requires ReadLtp(t, d, subfr, pg, pf, 4).0.gains == gains && ReadLtp(t, d, subfr, pg, pf, 4).0.filts == filts
    ensures var s := LtpScript(t, subfr, gains, filts, pg, pf, 4);
      Holds(d, s) && ReadLtp(t, d, subfr, pg, pf, 4).1 == Past(d, s)
  {
    hide LtpOk, ReadLtp, LtpScript, Holds, Past;
    assert gains[..4] == gains && filts[..4] == filts;
    ReadLtpSound(t, d, subfr, gains, filts, pg, pf, 4);
  }

  // ----- the methods -----

  method EncodeSmplPitch(enc: RangeEncoder, t: PitchTabs, st: SmplLsfState, subfr: seq<nat>, pp: PitchParams)
    requires enc.Valid() && PitchTabsOk(t) && PitchParamsOk(t, subfr, pp) && PrevOk(EncPrev(st.Get()))
    modifies enc, enc.buf, st
    ensures enc.Valid() && enc.sent == Sent(old(enc.sent), PitchScript(t, subfr, pp, EncPrev(old(st.Get()))))
    ensures EncPrev(st.Get()) == PrevAfter(t, subfr, pp, EncPrev(old(st.Get())))
    ensures st.Get() ==
      old(st.Get()).(prevGainIdx := st.prevGainIdx, prevFiltIdx := st.prevFiltIdx, prevLagblk := st.prevLagblk,
      prevLagidx := st.prevLagidx)
  {
    hide RangeEncoder.Valid, PitchOk, LtpOk, SegsOk, SegOk, SegLags, LtpScript, LagScript, Sent, Flatten, LagPrev;
    ghost var before, p := enc.sent, EncPrev(st.Get());
    ghost var segs := SegLags(Shape(t, pp), pp.laginds);
    var sum := EncodeLtp(enc, t.ltp, st, subfr, pp.gainIdx, pp.filtIdx);
    var mode := Mode(sum);
    SentThen(before, LtpScript(t.ltp, subfr, pp.gainIdx, pp.filtIdx, p.gain, p.filt, 4),
      LagScript(t.lag, pp.blocksegIdx, segs, p.blk, p.idx, mode));
    EncodeLagsWire(enc, t.lag, pp.blocksegIdx, pp.laginds, st.prevLagblk, st.prevLagidx, mode);
    var (nblk, nidx) := PredictorAfter(t.lag, pp.blocksegIdx, pp.laginds);
    st.prevLagblk := nblk;
    st.prevLagidx := nidx;
  }

  method DecodeSmplPitch(dec: RangeDecoder, mem: SmplMem, t: PitchTabs, st: SmplLsfState, subfr: seq<nat>)
    returns (gainIdx: seq<int>, filtIdx: seq<int>, contour: nat, blockLags: array<int>)
    requires dec.Valid() && PitchTabsOk(t) && mem.regions == Image(t.lag) && |subfr| == 4 && PrevOk(DecPrev(st.Get()))
    modifies dec, st
    ensures dec.Valid() && fresh(blockLags)
    ensures var r := ReadPitch(t, old(dec.State()), subfr, DecPrev(old(st.Get())));
      && PitchParams(gainIdx, filtIdx, contour, blockLags[..]) == Params(t, r.0)
      && dec.State() == r.1 && DecPrev(st.Get()) == PrevOf(t, r.0)
    ensures st.Get() ==
      old(st.Get()).(prevGainIdx := st.prevGainIdx, prevFiltIdx := st.prevFiltIdx, prevLag := st.prevLag,
      prevFracLag := st.prevFracLag)
  {
    hide RangeDecoder.Valid, PitchOk, LtpOk, SegsOk, SegOk, LagPrev, Contour, ReadLags, BlockLags, Image;
    ghost var d, st0 := dec.State(), st.Get();
    var sum;
    gainIdx, filtIdx, sum := DecodeLtp(dec, t.ltp, st, subfr);
    LtpDone(t.ltp, d, subfr, st0.prevGainIdx, st0.prevFiltIdx, Ltp(gainIdx, filtIdx, st.prevGainIdx, st.prevFiltIdx),
      dec.State(), sum);
    hide ReadLtp, LtpSoFar;
    contour, blockLags := DecodeLags(dec, mem, t.lag, st, Mode(sum));
  }

  lemma LtpDone(t: LtpTabs, d: DecState, subfr: seq<nat>, pg: int, pf: int, r: Ltp, f: DecState, sum: int)
    requires LtpSoFar(t, d, subfr, pg, pf, r, f, sum, 4)
    ensures LtpOk(t) && DecInv(d) && |subfr| == 4 && Starts(pg, pf)
    ensures ReadLtp(t, d, subfr, pg, pf, 4) == (r, f) && sum == GainSum(t, r.gains, 4)
  {}
}
