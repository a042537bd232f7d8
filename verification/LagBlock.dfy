/** The lag contour of a voiced internal frame: a contour selector, then one lag index per segment. */
module LagBlock {
  import opened Bytes
  import opened RangeSpec
  import opened RangeProof
  import opened Symbols
  import opened PitchTables

  // ----- segments and lag slots -----

  /** The lag indices at segment starts. */
  function SegLags(bs: BlockSeg, laginds: seq<int>): (segs: seq<int>)
    requires SegOk(bs) && |laginds| == LAG_SLOTS
    ensures |segs| == |bs.blocks|
  {
    seq(|bs.blocks|, k requires 0 <= k < |bs.blocks| => StartBelow(bs, k); laginds[SegStart(bs.seglens, k)])
  }

  lemma {:induction false} SegStartMono(seglens: seq<nat>, j: nat, k: nat)
    requires j <= k <= |seglens|
    ensures SegStart(seglens, j) <= SegStart(seglens, k)
  {
    if j < k { SegStartMono(seglens, j, k - 1); }
  }

  lemma StartBelow(bs: BlockSeg, k: nat)
    requires SegOk(bs) && k < |bs.blocks|
    ensures SegStart(bs.seglens, k) + bs.seglens[k] == SegStart(bs.seglens, k + 1) <= LAG_SLOTS
    ensures bs.seglens[k] >= 1
  {
    SegStartMono(bs.seglens, k + 1, |bs.seglens|);
  }

  /** Each segment's lag, repeated over its slots. */
  function Spread(bs: BlockSeg, segs: seq<int>, k: nat): (lags: seq<int>)
    requires k <= |bs.seglens| && k <= |segs|
    ensures |lags| == SegStart(bs.seglens, k)
  {
    if k == 0 then [] else Spread(bs, segs, k - 1) + Repeat(segs[k - 1], bs.seglens[k - 1])
  }

  function BlockLags(bs: BlockSeg, segs: seq<int>): (lags: seq<int>)
    requires SegOk(bs) && |segs| == |bs.blocks|
    ensures |lags| == LAG_SLOTS
  {
    Spread(bs, segs, |bs.blocks|)
  }

  /** All slots of a segment carry one index. */
  predicate SegmentConstant(bs: BlockSeg, laginds: seq<int>)
    requires SegOk(bs) && |laginds| == LAG_SLOTS
  {
    forall k :: 0 <= k < |bs.blocks| ==> ConstantOn(bs, laginds, k)
  }

  predicate ConstantOn(bs: BlockSeg, laginds: seq<int>, k: nat)
    requires SegOk(bs) && |laginds| == LAG_SLOTS && k < |bs.blocks|
  {
    StartBelow(bs, k);
    var at := SegStart(bs.seglens, k);
    laginds[at..at + bs.seglens[k]] == Repeat(laginds[at], bs.seglens[k])
  }

  lemma NothingSpread(bs: BlockSeg, segs: seq<int>)
    ensures SegStart(bs.seglens, 0) == 0 && Spread(bs, segs, 0) == []
  {}

  lemma SpreadSnoc(bs: BlockSeg, laginds: seq<int>, k: nat)
    requires SegOk(bs) && |laginds| == LAG_SLOTS && 0 < k <= |bs.blocks|
    ensures var segs := SegLags(bs, laginds); var at, end := SegStart(bs.seglens, k - 1), SegStart(bs.seglens, k);
      && k <= |bs.seglens| && k <= |segs| && at <= end <= LAG_SLOTS
      && Spread(bs, segs, k) == Spread(bs, segs, k - 1) + Repeat(segs[k - 1], bs.seglens[k - 1])
      && (ConstantOn(bs, laginds, k - 1) <==> laginds[at..end] == Repeat(segs[k - 1], bs.seglens[k - 1]))
  {
    StartBelow(bs, k - 1);
    hide Repeat;
  }

  lemma {:induction false} SpreadPrefix(bs: BlockSeg, laginds: seq<int>, k: nat)
    requires SegOk(bs) && |laginds| == LAG_SLOTS && k <= |bs.blocks|
    ensures SegStart(bs.seglens, k) <= LAG_SLOTS
    ensures Spread(bs, SegLags(bs, laginds), k) == laginds[..SegStart(bs.seglens, k)]
      <==> forall j :: 0 <= j < k ==> ConstantOn(bs, laginds, j)
  {
    hide SegOk, SegLags, ConstantOn, Repeat, Spread;
    var segs := SegLags(bs, laginds);
    if k == 0 {
      NothingSpread(bs, segs);
    } else {
      SpreadPrefix(bs, laginds, k - 1);
      StartBelow(bs, k - 1);
      SpreadSnoc(bs, laginds, k);
      var at, end := SegStart(bs.seglens, k - 1), SegStart(bs.seglens, k);
      Adjacent(laginds, at, end);
      SplitEqual(Spread(bs, segs, k - 1), Repeat(segs[k - 1], bs.seglens[k - 1]), laginds[..at], laginds[at..end]);
    }
  }

  lemma Adjacent(s: seq<int>, at: nat, end: nat)
    requires at <= end <= |s|
    ensures s[..end] == s[..at] + s[at..end]
  {}

  lemma SplitEqual(a: seq<int>, b: seq<int>, c: seq<int>, d: seq<int>)
    requires |a| == |c|
    ensures a + b == c + d <==> a == c && b == d
  {
    if a + b == c + d {
      assert a == (a + b)[..|a|] == (c + d)[..|c|] == c;
      assert b == (a + b)[|a|..] == (c + d)[|c|..] == d;
    }
  }

  /** Reconstruction from segment lags is lossless exactly for segment-constant indices. */
  lemma LosslessWhenConstant(bs: BlockSeg, laginds: seq<int>)
    requires SegOk(bs) && |laginds| == LAG_SLOTS
    ensures BlockLags(bs, SegLags(bs, laginds)) == laginds <==> SegmentConstant(bs, laginds)
  {
    SpreadPrefix(bs, laginds, |bs.blocks|);
    assert laginds[..LAG_SLOTS] == laginds;
  }

  /** The slot that the encoder's predictor keeps is in the last segment. */
  lemma LastSlot(bs: BlockSeg, laginds: seq<int>)
    requires SegOk(bs) && |laginds| == LAG_SLOTS && SegmentConstant(bs, laginds)
    ensures laginds[LAG_SLOTS - 1] == SegLags(bs, laginds)[|bs.blocks| - 1]
  {
    var k := |bs.blocks| - 1;
    StartBelow(bs, k);
    var at := SegStart(bs.seglens, k);
    assert ConstantOn(bs, laginds, k);
    assert laginds[at..at + bs.seglens[k]][bs.seglens[k] - 1] == laginds[LAG_SLOTS - 1];
  }

  // ----- lag predictor -----

  /** No predictor, or a lag index inside its block. */
  predicate LagPrev(prevBlk: int, prevIdx: int) {
    prevBlk == -1 || (0 <= prevBlk < NUM_BLOCKS && InBlock(prevIdx, prevBlk))
  }

  /** The first segment is sent in full unless it is near the previous block. */
  predicate Fresh(prevBlk: int, b0: nat) { !(prevBlk > -1 && Near(prevBlk, b0)) }

  predicate SegsOk(bs: BlockSeg, segs: seq<int>, k: nat)
    requires k <= |segs| && k <= |bs.blocks|
  {
    forall j :: 0 <= j < k ==> InBlock(segs[j], bs.blocks[j])
  }

  /** Index and block before segment k. */
  function IdxBefore(segs: seq<int>, prevIdx: int, k: nat): int
    requires k <= |segs|
  {
    if k == 0 then prevIdx else segs[k - 1]
  }

  function BlkBefore(bs: BlockSeg, prevBlk: int, k: nat): int
    requires k <= |bs.blocks|
  {
    if k == 0 then prevBlk else bs.blocks[k - 1]
  }

  lemma StepFits(bs: BlockSeg, segs: seq<int>, prevBlk: int, prevIdx: int, k: nat)
    requires SegOk(bs) && LagPrev(prevBlk, prevIdx) && k < |bs.blocks| && k <= |segs| && SegsOk(bs, segs, k)
    ensures InReach(InFull(bs, prevBlk, k), bs.blocks[k], IdxBefore(segs, prevIdx, k))
  {
    if !InFull(bs, prevBlk, k) {
      assert Near(BlkBefore(bs, prevBlk, k), bs.blocks[k])
        && InBlock(IdxBefore(segs, prevIdx, k), BlkBefore(bs, prevBlk, k));
      WindowFits(bs.blocks[k], BlkBefore(bs, prevBlk, k), IdxBefore(segs, prevIdx, k));
    }
  }

  lemma SegsPrefix(bs: BlockSeg, segs: seq<int>, k: nat, n: nat)
    requires k <= n <= |segs| && n <= |bs.blocks| && SegsOk(bs, segs, n)
    ensures SegsOk(bs, segs, k) && SegsOk(bs, segs[..k], k)
  {}

  lemma SegsSnoc(bs: BlockSeg, segs: seq<int>, lag: int, k: nat)
    requires k == |segs| < |bs.blocks| && SegsOk(bs, segs, k) && InBlock(lag, bs.blocks[k])
    ensures SegsOk(bs, segs + [lag], k + 1)
  {}

  // ----- scripts -----

  /** Zero-based index of contour i. */
  function IndexOf(t: PitchTables, i: nat): (x: int)
    requires PitchOk(t) && i < NUM_BLOCKSEGS
    ensures 0 <= x < NUM_BLOCKSEGS && t.blocksegs2idx[i] as int == x + 1
  {
    var v: int := t.blocksegs2idx[i];
    v - 1
  }

  /** Contour i: its index, or its first block and then its index among those of that block. */
  function SelectScript(t: PitchTables, i: nat, prevBlk: int): (s: Script)
    requires PitchOk(t) && i < NUM_BLOCKSEGS && -1 <= prevBlk < NUM_BLOCKS
    ensures Sound(s)
  {
    if prevBlk < 0 then One(CdfOp(IndexOf(t, i), LagCdf(t)))
    else
      var b0 := Contour(t, i).blocks[0];
      NextScript(t, prevBlk, b0, IndexOf(t, i) - FirstRange(t, b0).0)
  }

  function NextScript(t: PitchTables, prevBlk: nat, b0: nat, sym: int): (s: Script)
    requires PitchOk(t) && prevBlk < NUM_BLOCKS && b0 < NUM_BLOCKS
    ensures Sound(s)
  {
    Then(One(CdfOp(b0, Transition(t, prevBlk))), One(CdfOp(sym, IndexWindow(t, b0))))
  }

  /** A segment's lag: whole, or relative to the lag before it. */
  predicate InReach(whole: bool, blk: nat, before: int) { whole || 0 <= DeltaStart(blk, before) <= 255 }

  function SegScript(t: PitchTables, whole: bool, blk: nat, before: int, lag: int, mode: nat): (s: Script)
    requires PitchOk(t) && mode < 3 && InReach(whole, blk, before) && InBlock(lag, blk)
    ensures Sound(s)
  {
    var sym := lag - blk * BLOCK_SIZE;
    One(if whole then FineOp(sym) else CdfOp(sym, DeltaWindow(t, mode, DeltaStart(blk, before))))
  }

  predicate InFull(bs: BlockSeg, prevBlk: int, k: nat)
    requires k < |bs.blocks|
  {
    k == 0 && Fresh(prevBlk, bs.blocks[0])
  }

  function SegsScript(t: PitchTables, bs: BlockSeg, segs: seq<int>, prevBlk: int, prevIdx: int, mode: nat,
                      k: nat): (s: Script)
    requires PitchOk(t) && SegOk(bs) && mode < 3 && LagPrev(prevBlk, prevIdx)
    requires k <= |bs.blocks| && k <= |segs| && SegsOk(bs, segs, k)
    ensures Sound(s)
  {
    if k == 0 then Nothing
    else
      SegsPrefix(bs, segs, k - 1, k);
      StepFits(bs, segs, prevBlk, prevIdx, k - 1);
      Then(SegsScript(t, bs, segs, prevBlk, prevIdx, mode, k - 1),
           SegScript(t, InFull(bs, prevBlk, k - 1), bs.blocks[k - 1],
             IdxBefore(segs, prevIdx, k - 1), segs[k - 1], mode))
  }

  function LagScript(t: PitchTables, i: nat, segs: seq<int>, prevBlk: int, prevIdx: int, mode: nat): (s: Script)
    requires PitchOk(t) && i < NUM_BLOCKSEGS && mode < 3 && LagPrev(prevBlk, prevIdx)
    requires |segs| == |Contour(t, i).blocks| && SegsOk(Contour(t, i), segs, |segs|)
    ensures Sound(s)
  {
    Then(SelectScript(t, i, prevBlk), SegsScript(t, Contour(t, i), segs, prevBlk, prevIdx, mode, |segs|))
  }

  // ----- reading -----

  /** The zero-based contour index. */
  function ReadIndex(t: PitchTables, d: DecState, prevBlk: int): (r: (int, DecState))
    requires PitchOk(t) && DecInv(d) && -1 <= prevBlk < NUM_BLOCKS
    ensures 0 <= r.0 < NUM_BLOCKSEGS && DecInv(r.1)
  {
    if prevBlk < 0 then ReadCdf(d, LagCdf(t))
    else
      var b := ReadCdf(d, Transition(t, prevBlk));
      var s := ReadCdf(b.1, IndexWindow(t, b.0));
      (s.0 + FirstRange(t, b.0).0, s.1)
  }

  /** The contour with that index: every index has one. */
  function ContourOf(t: PitchTables, index: int): (i: nat)
    requires PitchOk(t) && 0 <= index < NUM_BLOCKSEGS
    ensures i < NUM_BLOCKSEGS && IndexOf(t, i) == index
  {
    EveryIndexFound(t.blocksegs2idx, index);
    Find(t.blocksegs2idx, index + 1, 0)
  }

  function ReadSeg(t: PitchTables, d: DecState, whole: bool, blk: nat, before: int, mode: nat): (r: (int, DecState))
    requires PitchOk(t) && DecInv(d) && mode < 3 && InReach(whole, blk, before)
    ensures InBlock(r.0, blk) && DecInv(r.1)
  {
    var s := if whole then ReadFine(d) else ReadCdf(d, DeltaWindow(t, mode, DeltaStart(blk, before)));
    (s.0 + blk * BLOCK_SIZE, s.1)
  }

  predicate SegsRead(bs: BlockSeg, segs: seq<int>, f: DecState, k: nat) {
    |segs| == k <= |bs.blocks| && SegsOk(bs, segs, k) && DecInv(f)
  }

  function ReadSegs(t: PitchTables, d: DecState, bs: BlockSeg, prevBlk: int, prevIdx: int, mode: nat,
                    k: nat): (r: (seq<int>, DecState))
    requires PitchOk(t) && DecInv(d) && SegOk(bs) && mode < 3 && LagPrev(prevBlk, prevIdx) && k <= |bs.blocks|
    ensures SegsRead(bs, r.0, r.1, k)
  {
    if k == 0 then ([], d)
    else
      hide PitchOk, SegOk, SegsOk, InBlock, InFull, InReach, ReadSeg, DecInv;
      var front := ReadSegs(t, d, bs, prevBlk, prevIdx, mode, k - 1);
      StepFits(bs, front.0, prevBlk, prevIdx, k - 1);
      var one := ReadSeg(t, front.1, InFull(bs, prevBlk, k - 1),
        bs.blocks[k - 1], IdxBefore(front.0, prevIdx, k - 1), mode);
      SegsSnoc(bs, front.0, one.0, k - 1);
      (front.0 + [one.0], one.1)
  }

  function ReadLags(t: PitchTables, d: DecState, prevBlk: int, prevIdx: int, mode: nat): (r: (nat, seq<int>, DecState))
    requires PitchOk(t) && DecInv(d) && mode < 3 && LagPrev(prevBlk, prevIdx)
    ensures r.0 < NUM_BLOCKSEGS && |r.1| == |Contour(t, r.0).blocks| && SegsOk(Contour(t, r.0), r.1, |r.1|)
      && DecInv(r.2)
  {
    var x := ReadIndex(t, d, prevBlk);
    var i := ContourOf(t, x.0);
    var bs := Contour(t, i);
    var s := ReadSegs(t, x.1, bs, prevBlk, prevIdx, mode, |bs.blocks|);
    (i, s.0, s.1)
  }

  // ----- inverse -----

  lemma ReadFineBack(d: DecState, sym: int)
    requires DecInv(d) && 0 <= sym < 64 && Reads(d, FineOp(sym))
    ensures ReadFine(d) == (sym, AfterOp(d, FineOp(sym)))
  {}

  lemma SelectBack(t: PitchTables, d: DecState, i: nat, prevBlk: int)
    requires PitchOk(t) && DecInv(d) && i < NUM_BLOCKSEGS && -1 <= prevBlk < NUM_BLOCKS
      && Holds(d, SelectScript(t, i, prevBlk))
    ensures var x := ReadIndex(t, d, prevBlk); ContourOf(t, x.0) == i && x.1 == Past(d, SelectScript(t, i, prevBlk))
  {
    FindInverts(t.blocksegs2idx, i);
    var index := IndexOf(t, i);
    var b0 := Contour(t, i).blocks[0];
    hide ReadCdf, CdfOp, Reads, AfterOp, Increasing, PitchOk, Contour, LagCdf, Transition, IndexWindow, FirstRange,
      Holds, Past, Injective;
    if prevBlk < 0 {
      HoldsOne(d, CdfOp(index, LagCdf(t)));
      ReadCdfBack(d, index, LagCdf(t));
    } else {
      var op0, op1 := CdfOp(b0, Transition(t, prevBlk)), CdfOp(index - FirstRange(t, b0).0, IndexWindow(t, b0));
      HoldsThen(d, One(op0), One(op1));
      HoldsOne(d, op0);
      ReadCdfBack(d, b0, Transition(t, prevBlk));
      HoldsOne(AfterOp(d, op0), op1);
      ReadCdfBack(AfterOp(d, op0), index - FirstRange(t, b0).0, IndexWindow(t, b0));
    }
  }

  lemma SegBack(t: PitchTables, d: DecState, whole: bool, blk: nat, before: int, lag: int, mode: nat)
    requires PitchOk(t) && DecInv(d) && mode < 3 && InReach(whole, blk, before) && InBlock(lag, blk)
    requires Holds(d, SegScript(t, whole, blk, before, lag, mode))
    ensures ReadSeg(t, d, whole, blk, before, mode) == (lag, Past(d, SegScript(t, whole, blk, before, lag, mode)))
  {
    hide ReadCdf, CdfOp, FineOp, ReadFine, Reads, AfterOp, Increasing, PitchOk, DeltaWindow, DeltaStart;
    var sym := lag - blk * BLOCK_SIZE;
    if whole {
      HoldsOne(d, FineOp(sym));
      ReadFineBack(d, sym);
    } else {
      var w := DeltaWindow(t, mode, DeltaStart(blk, before));
      HoldsOne(d, CdfOp(sym, w));
      ReadCdfBack(d, sym, w);
    }
  }

  lemma {:induction false} SegsBack(t: PitchTables, d: DecState, bs: BlockSeg, segs: seq<int>, prevBlk: int,
                                    prevIdx: int, mode: nat, k: nat)
    requires PitchOk(t) && DecInv(d) && SegOk(bs) && mode < 3 && LagPrev(prevBlk, prevIdx)
    requires k <= |bs.blocks| && k <= |segs| && SegsOk(bs, segs, k)
    requires Holds(d, SegsScript(t, bs, segs, prevBlk, prevIdx, mode, k))
    ensures ReadSegs(t, d, bs, prevBlk, prevIdx, mode, k) ==
      (segs[..k], Past(d, SegsScript(t, bs, segs, prevBlk, prevIdx, mode, k)))
  {
    hide PitchOk, SegOk, ReadSeg, SegScript, Holds, Past, LagPrev;
    if k == 0 {
      HoldsNothing(d);
    } else {
      SegsPrefix(bs, segs, k - 1, k);
      StepFits(bs, segs, prevBlk, prevIdx, k - 1);
      hide SegsOk, InBlock, InFull;
      var before, whole := IdxBefore(segs, prevIdx, k - 1), InFull(bs, prevBlk, k - 1);
      HoldsThen(d, SegsScript(t, bs, segs, prevBlk, prevIdx, mode, k - 1),
        SegScript(t, whole, bs.blocks[k - 1], before, segs[k - 1], mode));
      SegsBack(t, d, bs, segs, prevBlk, prevIdx, mode, k - 1);
      var d1 := Past(d, SegsScript(t, bs, segs, prevBlk, prevIdx, mode, k - 1));
      SegBack(t, d1, whole, bs.blocks[k - 1], before, segs[k - 1], mode);
      assert before == IdxBefore(segs[..k - 1], prevIdx, k - 1);
      assert segs[..k] == segs[..k - 1] + [segs[k - 1]];
    }
  }

  /** A decoder facing an encoded contour recovers the contour and every segment lag. */
  lemma ReadLagsBack(t: PitchTables, d: DecState, i: nat, segs: seq<int>, prevBlk: int, prevIdx: int, mode: nat)
    requires PitchOk(t) && DecInv(d) && i < NUM_BLOCKSEGS && mode < 3 && LagPrev(prevBlk, prevIdx)
    requires |segs| == |Contour(t, i).blocks| && SegsOk(Contour(t, i), segs, |segs|)
    requires Holds(d, LagScript(t, i, segs, prevBlk, prevIdx, mode))
    ensures ReadLags(t, d, prevBlk, prevIdx, mode) == (i, segs, Past(d, LagScript(t, i, segs, prevBlk, prevIdx, mode)))
  {
    hide PitchOk, SegOk, Contour, ReadIndex, ContourOf, ReadSegs, SelectScript, SegsScript, Holds, Past, SegsOk;
    var bs := Contour(t, i);
    HoldsThen(d, SelectScript(t, i, prevBlk), SegsScript(t, bs, segs, prevBlk, prevIdx, mode, |segs|));
    SelectBack(t, d, i, prevBlk);
    SegsBack(t, Past(d, SelectScript(t, i, prevBlk)), bs, segs, prevBlk, prevIdx, mode, |segs|);
    assert segs[..|segs|] == segs;
  }

  /** Encoded lag indices come back slot by slot exactly when they are constant on each segment. */
  lemma LagRoundTrip(t: PitchTables, d: DecState, i: nat, laginds: seq<int>, prevBlk: int, prevIdx: int, mode: nat)
    requires PitchOk(t) && DecInv(d) && i < NUM_BLOCKSEGS && mode < 3 && LagPrev(prevBlk, prevIdx)
      && |laginds| == LAG_SLOTS
    requires SegsOk(Contour(t, i), SegLags(Contour(t, i), laginds), |Contour(t, i).blocks|)
    requires Holds(d, LagScript(t, i, SegLags(Contour(t, i), laginds), prevBlk, prevIdx, mode))
    ensures var r := ReadLags(t, d, prevBlk, prevIdx, mode);
      r.0 == i && (BlockLags(Contour(t, r.0), r.1) == laginds <==> SegmentConstant(Contour(t, i), laginds))
  {
    hide PitchOk, SegOk, Contour, ReadLags, LagScript, Holds, Past, SegsOk, BlockLags, SegmentConstant;
    ReadLagsBack(t, d, i, SegLags(Contour(t, i), laginds), prevBlk, prevIdx, mode);
    LosslessWhenConstant(Contour(t, i), laginds);
  }

  // ----- soundness on any input -----

  lemma SelectSound(t: PitchTables, d: DecState, prevBlk: int)
    requires PitchOk(t) && DecInv(d) && -1 <= prevBlk < NUM_BLOCKS && RangesExact(t)
    ensures var x := ReadIndex(t, d, prevBlk); var s := SelectScript(t, ContourOf(t, x.0), prevBlk);
      Holds(d, s) && x.1 == Past(d, s)
  {
    var i := ContourOf(t, ReadIndex(t, d, prevBlk).0);
    hide ContourOf, ReadCdf, Increasing, PitchOk, RangesExact, Contour, Transition, IndexWindow, FirstRange, IndexOf,
      Holds, Past, SelectScript;
    if prevBlk < 0 {
      FirstSound(t, d, i);
    } else {
      var b := ReadCdf(d, Transition(t, prevBlk));
      NextSound(t, d, prevBlk, i, b, ReadCdf(b.1, IndexWindow(t, b.0)));
    }
  }

  lemma FirstSound(t: PitchTables, d: DecState, i: nat)
    requires PitchOk(t) && DecInv(d) && i < NUM_BLOCKSEGS
    requires IndexOf(t, i) == ReadCdf(d, LagCdf(t)).0
    ensures Holds(d, SelectScript(t, i, -1)) && ReadIndex(t, d, -1).1 == Past(d, SelectScript(t, i, -1))
  {
    hide ReadCdf, CdfOp, Reads, AfterOp, Increasing, PitchOk, LagCdf, Holds, Past;
    HoldsOne(d, CdfOp(ReadCdf(d, LagCdf(t)).0, LagCdf(t)));
  }

  lemma NextSound(t: PitchTables, d: DecState, prevBlk: nat, i: nat, b: (int, DecState), x: (int, DecState))
    requires PitchOk(t) && RangesExact(t) && DecInv(d) && prevBlk < NUM_BLOCKS && i < NUM_BLOCKSEGS
    requires b == ReadCdf(d, Transition(t, prevBlk)) && 0 <= b.0 < NUM_BLOCKS && DecInv(b.1)
    requires x == ReadCdf(b.1, IndexWindow(t, b.0)) && IndexOf(t, i) == x.0 + FirstRange(t, b.0).0
    requires 0 <= x.0 <= FirstRange(t, b.0).1 - FirstRange(t, b.0).0
    ensures Holds(d, SelectScript(t, i, prevBlk)) && x.1 == Past(d, SelectScript(t, i, prevBlk))
  {
    hide ReadCdf, Reads, AfterOp, Increasing, PitchOk, Contour, Transition, IndexOf, IndexWindow, FirstRange, Holds,
      Past, RangesExact, NextScript, DecInv, SelectScript;
    StartsIn(t, i, b.0);
    NextIsSelect(t, prevBlk, i, b.0, x.0);
    NextScriptSound(t, d, prevBlk);
  }

  lemma NextIsSelect(t: PitchTables, prevBlk: nat, i: nat, b0: nat, sym: int)
    requires PitchOk(t) && prevBlk < NUM_BLOCKS && i < NUM_BLOCKSEGS && b0 < NUM_BLOCKS
    requires Contour(t, i).blocks[0] == b0 && IndexOf(t, i) - FirstRange(t, b0).0 == sym
    ensures SelectScript(t, i, prevBlk) == NextScript(t, prevBlk, b0, sym)
  {
    hide PitchOk, Contour, IndexOf, NextScript, FirstRange;
  }

  lemma StartsIn(t: PitchTables, i: nat, b: nat)
    requires PitchOk(t) && RangesExact(t) && i < NUM_BLOCKSEGS && b < NUM_BLOCKS
    requires FirstRange(t, b).0 <= IndexOf(t, i) <= FirstRange(t, b).1
    ensures Contour(t, i).blocks[0] == b
  {
    assert InFirstRange(t, i, b);
  }

  lemma NextScriptSound(t: PitchTables, d: DecState, prevBlk: nat)
    requires PitchOk(t) && DecInv(d) && prevBlk < NUM_BLOCKS
    ensures var b := ReadCdf(d, Transition(t, prevBlk)); var x := ReadCdf(b.1, IndexWindow(t, b.0));
      var s := NextScript(t, prevBlk, b.0, x.0);
      Holds(d, s) && x.1 == Past(d, s)
  {
    hide ReadCdf, CdfOp, Reads, AfterOp, Increasing, PitchOk, Transition, IndexWindow, Holds, Past;
    var b := ReadCdf(d, Transition(t, prevBlk));
    var x := ReadCdf(b.1, IndexWindow(t, b.0));
    var op0, op1 := CdfOp(b.0, Transition(t, prevBlk)), CdfOp(x.0, IndexWindow(t, b.0));
    HoldsOne(d, op0);
    HoldsOne(b.1, op1);
    HoldsThen(d, One(op0), One(op1));
  }

  lemma SegSound(t: PitchTables, d: DecState, whole: bool, blk: nat, before: int, mode: nat)
    requires PitchOk(t) && DecInv(d) && mode < 3 && InReach(whole, blk, before)
    ensures var r := ReadSeg(t, d, whole, blk, before, mode); var s := SegScript(t, whole, blk, before, r.0, mode);
      Holds(d, s) && r.1 == Past(d, s)
  {
    hide ReadCdf, CdfOp, FineOp, ReadFine, Reads, AfterOp, Increasing, PitchOk, DeltaWindow, DeltaStart;
    var sym := ReadSeg(t, d, whole, blk, before, mode).0 - blk * BLOCK_SIZE;
    if whole {
      HoldsOne(d, FineOp(sym));
    } else {
      HoldsOne(d, CdfOp(sym, DeltaWindow(t, mode, DeltaStart(blk, before))));
    }
  }

  lemma {:induction false} SegsSound(t: PitchTables, d: DecState, bs: BlockSeg, segs: seq<int>, prevBlk: int,
                                     prevIdx: int, mode: nat, k: nat)
    requires PitchOk(t) && DecInv(d) && SegOk(bs) && mode < 3 && LagPrev(prevBlk, prevIdx)
    requires k <= |bs.blocks| && k <= |segs| && SegsOk(bs, segs, k)
      && ReadSegs(t, d, bs, prevBlk, prevIdx, mode, k).0 == segs[..k]
    ensures var s := SegsScript(t, bs, segs, prevBlk, prevIdx, mode, k);
      Holds(d, s) && ReadSegs(t, d, bs, prevBlk, prevIdx, mode, k).1 == Past(d, s)
  {
    hide PitchOk, SegOk, ReadSeg, SegScript, Holds, Past, LagPrev;
    if k == 0 {
      HoldsNothing(d);
    } else {
      SegsPrefix(bs, segs, k - 1, k);
      var front := ReadSegs(t, d, bs, prevBlk, prevIdx, mode, k - 1);
      var whole := ReadSegs(t, d, bs, prevBlk, prevIdx, mode, k);
      assert front.0 == whole.0[..k - 1] == segs[..k - 1];
      assert segs[k - 1] == segs[..k][k - 1] == whole.0[k - 1];
      StepFits(bs, segs, prevBlk, prevIdx, k - 1);
      hide SegsOk, InBlock, InFull;
      var before, whole0 := IdxBefore(segs, prevIdx, k - 1), InFull(bs, prevBlk, k - 1);
      assert before == IdxBefore(front.0, prevIdx, k - 1);
      SegsSound(t, d, bs, segs, prevBlk, prevIdx, mode, k - 1);
      SegSound(t, front.1, whole0, bs.blocks[k - 1], before, mode);
      HoldsThen(d, SegsScript(t, bs, segs, prevBlk, prevIdx, mode, k - 1),
        SegScript(t, whole0, bs.blocks[k - 1], before, segs[k - 1], mode));
    }
  }

  /** On any input, the contour and lags read are the ones whose script was there. */
  lemma ReadLagsSound(t: PitchTables, d: DecState, prevBlk: int, prevIdx: int, mode: nat)
    requires PitchOk(t) && RangesExact(t) && DecInv(d) && mode < 3 && LagPrev(prevBlk, prevIdx)
    ensures var r := ReadLags(t, d, prevBlk, prevIdx, mode);
      Holds(d, LagScript(t, r.0, r.1, prevBlk, prevIdx, mode))
        && r.2 == Past(d, LagScript(t, r.0, r.1, prevBlk, prevIdx, mode))
  {
    hide PitchOk, SegOk, Contour, ReadIndex, ContourOf, ReadSegs, SelectScript, SegsScript, Holds, Past, SegsOk,
      RangesExact;
    var r := ReadLags(t, d, prevBlk, prevIdx, mode);
    SelectSound(t, d, prevBlk);
    assert r.1[..|r.1|] == r.1;
    SegsSound(t, ReadIndex(t, d, prevBlk).1, Contour(t, r.0), r.1, prevBlk, prevIdx, mode, |r.1|);
    HoldsThen(d, SelectScript(t, r.0, prevBlk), SegsScript(t, Contour(t, r.0), r.1, prevBlk, prevIdx, mode, |r.1|));
  }
}
