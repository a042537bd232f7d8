/**
 The lag contour as the two sides write and read it: the encoder from logical tables, the decoder through the heap.
 */
module LagCoder {
  import opened Bytes
  import opened RangeSpec
  import opened Symbols
  import opened RangeCoder
  import opened GainBlock
  import opened LsfBlock
  import opened PitchTables
  import opened PitchHeap
  import opened LagBlock

  // ----- encoder -----

  method EncodeSelect(enc: RangeEncoder, t: PitchTables, i: nat, prevLagblk: int)
    requires enc.Valid() && PitchOk(t) && i < NUM_BLOCKSEGS && -1 <= prevLagblk < NUM_BLOCKS
    modifies enc, enc.buf
    ensures enc.Valid() && enc.sent == Sent(old(enc.sent), SelectScript(t, i, prevLagblk))
  {
    if prevLagblk < 0 {
      var ix: int := t.blocksegs2idx[i];
      var cmf := LagCdf(t);
      assert ix - 1 == IndexOf(t, i);
      SentOne(enc.sent, CdfOp(ix - 1, cmf));
      hide RangeEncoder.Valid, PitchOk, Sent, Flatten, Increasing;
      EncodeEntry(enc, cmf, 0, NUM_BLOCKSEGS, ix - 1);
    } else {
      EncodeNext(enc, t, i, prevLagblk);
    }
  }

  method EncodeFirstBlock(enc: RangeEncoder, t: PitchTables, prevLagblk: nat, b0: nat)
    requires enc.Valid() && PitchOk(t) && prevLagblk < NUM_BLOCKS && b0 < NUM_BLOCKS
    modifies enc, enc.buf
    ensures enc.Valid() && enc.sent == Sent(old(enc.sent), One(CdfOp(b0, Transition(t, prevLagblk))))
  {
    hide RangeEncoder.Valid, PitchOk, Sent, Flatten, Increasing, Transition, CdfOp;
    SentOne(enc.sent, CdfOp(b0, Transition(t, prevLagblk)));
    EncodeEntry(enc, Transition(t, prevLagblk), 0, NUM_BLOCKS, b0);
  }

  /** The index among the contours that start in block b0. */
  method EncodeAmong(enc: RangeEncoder, t: PitchTables, i: nat, b0: nat)
    requires enc.Valid() && PitchOk(t) && i < NUM_BLOCKSEGS && b0 < NUM_BLOCKS
    requires FirstRange(t, b0).0 <= IndexOf(t, i) <= FirstRange(t, b0).1
    modifies enc, enc.buf
    ensures enc.Valid()
      && enc.sent == Sent(old(enc.sent), One(CdfOp(IndexOf(t, i) - FirstRange(t, b0).0, IndexWindow(t, b0))))
  {
    var ix: int := t.blocksegs2idx[i];
    assert ix - 1 == IndexOf(t, i);
    var start: int, end: int := FirstRange(t, b0).0, FirstRange(t, b0).1;
    var cmfLen := end - start + 1;
    hide RangeEncoder.Valid, PitchOk, Sent, Flatten, Increasing, CdfOp, IndexOf, LagCdf;
    SentOne(enc.sent, CdfOp(ix - start - 1, IndexWindow(t, b0)));
    EncodeEntry(enc, LagCdf(t), start, cmfLen, ix - start - 1);
  }

  /** First block, then the index among the contours starting there. */
  method EncodeNext(enc: RangeEncoder, t: PitchTables, i: nat, prevLagblk: nat)
    requires enc.Valid() && PitchOk(t) && i < NUM_BLOCKSEGS && prevLagblk < NUM_BLOCKS
    modifies enc, enc.buf
    ensures enc.Valid() && enc.sent == Sent(old(enc.sent), SelectScript(t, i, prevLagblk))
  {
    ghost var before := enc.sent;
    var b0 := Contour(t, i).blocks[0];
    ContourInRange(t, i);
    hide RangeEncoder.Valid, PitchOk, Sent, Flatten, Increasing, Contour, Transition, CdfOp, IndexOf, FirstRange,
      IndexWindow;
    ghost var op0, op1 := CdfOp(b0, Transition(t, prevLagblk)),
      CdfOp(IndexOf(t, i) - FirstRange(t, b0).0, IndexWindow(t, b0));
    EncodeFirstBlock(enc, t, prevLagblk, b0);
    EncodeAmong(enc, t, i, b0);
    SentThen(before, One(op0), One(op1));
  }

  lemma ContourInRange(t: PitchTables, i: nat)
    requires PitchOk(t) && i < NUM_BLOCKSEGS
    ensures var b0 := Contour(t, i).blocks[0];
      b0 < NUM_BLOCKS && FirstRange(t, b0).0 <= IndexOf(t, i) <= FirstRange(t, b0).1
  {
    assert InFirstRange(t, i, t.blocksegs[i].blocks[0]);
  }

  /** Symbol s of the n-symbol window at start, offset to the window's own base. */
  method EncodeEntry(enc: RangeEncoder, cmf: Cdf, start: nat, n: nat, s: nat)
    requires enc.Valid() && Increasing(cmf) && start + n < |cmf| && s < n
    modifies enc, enc.buf
    ensures enc.Valid() && Increasing(cmf[start..start + n + 1])
      && enc.sent == old(enc.sent) + [CdfOp(s, cmf[start..start + n + 1])]
    ensures start == 0 && n + 1 == |cmf| ==> enc.sent == old(enc.sent) + [CdfOp(s, cmf)]
  {
    hide RangeEncoder.Valid;
    var p0 := cmf[start];
    ghost var w := cmf[start..start + n + 1];
    assert start == 0 && n + 1 == |cmf| ==> w == cmf;
    assert Increasing(w) && w[0] == p0 && w[s] == cmf[start + s] && w[s + 1] == cmf[start + s + 1]
      && w[n] == cmf[start + n];
    enc.Encode(cmf[start + s] - p0, cmf[start + s + 1] - p0, cmf[start + n] - p0);
  }

  /** Segment k of the script, relative to the one before. */
  method EncodeStep(enc: RangeEncoder, t: PitchTables, bs: BlockSeg, ghost segs: seq<int>, ghost prevBlk: int,
                    ghost prevIdx: int, mode: nat, k: nat,
                    prevLagblk: int, prevLagidx: int, idx: int, ghost mid: seq<Op>)
    requires enc.Valid() && PitchOk(t) && SegOk(bs) && mode < 3 && LagPrev(prevBlk, prevIdx)
    requires k < |bs.blocks| == |segs| && SegsOk(bs, segs, |segs|) && !InFull(bs, prevBlk, k) && idx == segs[k]
    requires prevLagblk == BlkBefore(bs, prevBlk, k) && prevLagidx == IdxBefore(segs, prevIdx, k)
    requires SegsOk(bs, segs, k) && enc.sent == Sent(mid, SegsScript(t, bs, segs, prevBlk, prevIdx, mode, k))
    modifies enc, enc.buf
    ensures enc.Valid() && SegsOk(bs, segs, k + 1)
    ensures enc.sent == Sent(mid, SegsScript(t, bs, segs, prevBlk, prevIdx, mode, k + 1))
  {
    hide RangeEncoder.Valid, PitchOk, Sent, Flatten, SegScript, InReach, SegsOk, SegOk, LagPrev, BlkBefore, IdxBefore,
      SegsScript, InFull, InBlock, Near;
    SegsStep(t, bs, segs, prevBlk, prevIdx, mode, k);
    SentThen(mid, SegsScript(t, bs, segs, prevBlk, prevIdx, mode, k),
      SegScript(t, false, bs.blocks[k], prevLagidx, segs[k], mode));
    EncodeSegment(enc, t, mode, bs.blocks[k], prevLagblk, prevLagidx, idx);
  }

  /** One relative segment, with the encoder's own index arithmetic. */
  method EncodeSegment(enc: RangeEncoder, t: PitchTables, mode: nat, blk: nat, prevLagblk: int, prevLagidx: int,
                       idx: int)
    requires enc.Valid() && PitchOk(t) && mode < 3
    requires Near(prevLagblk, blk) && InBlock(prevLagidx, prevLagblk) && InBlock(idx, blk)
    modifies enc, enc.buf
    ensures enc.Valid() && InReach(false, blk, prevLagidx)
    ensures enc.sent == Sent(old(enc.sent), SegScript(t, false, blk, prevLagidx, idx, mode))
  {
    var deltaLagCmf := t.deltaLagCmfs[mode];
    var deltaBlk := blk - prevLagblk;
    var deltaIdx := idx - prevLagidx;
    var prevLagidxMod := prevLagidx - prevLagblk * BLOCK_SIZE;
    var deltaRangeStart := -prevLagidxMod + deltaBlk * BLOCK_SIZE;
    var cmfBase := deltaRangeStart + 2 * BLOCK_SIZE - 1;
    var ix := deltaIdx - deltaRangeStart;
    WindowFits(blk, prevLagblk, prevLagidx);
    assert cmfBase == DeltaStart(blk, prevLagidx) && ix == idx - blk * BLOCK_SIZE;
    SentOne(enc.sent, CdfOp(ix, DeltaWindow(t, mode, cmfBase)));
    assert |deltaLagCmf| == 320 && Increasing(deltaLagCmf)
      && DeltaWindow(t, mode, cmfBase) == deltaLagCmf[cmfBase..cmfBase + BLOCK_SIZE + 1];
    hide RangeEncoder.Valid, PitchOk, Sent, Flatten, Increasing, DeltaWindow;
    EncodeEntry(enc, deltaLagCmf, cmfBase, BLOCK_SIZE, ix);
  }

  method EncodeWhole(enc: RangeEncoder, ghost t: PitchTables, blk: nat, ghost before: int, lag: int, ghost mode: nat)
    requires enc.Valid() && PitchOk(t) && mode < 3 && InBlock(lag, blk)
    modifies enc, enc.buf
    ensures enc.Valid() && enc.sent == Sent(old(enc.sent), SegScript(t, true, blk, before, lag, mode))
  {
    hide RangeEncoder.Valid, PitchOk, Sent, Flatten;
    var idxMod := lag - blk * BLOCK_SIZE;
    SentOne(enc.sent, FineOp(idxMod));
    enc.Encode(idxMod, idxMod + 1, BLOCK_SIZE);
  }

  /** encodeLagsWire: the contour, then the lag index at each segment start. */
  method EncodeLagsWire(enc: RangeEncoder, t: PitchTables, i: nat, laginds: seq<int>, prevBlk: int, prevIdx: int,
                        mode: nat)
    requires enc.Valid() && PitchOk(t) && i < NUM_BLOCKSEGS && |laginds| == LAG_SLOTS && mode < 3
      && LagPrev(prevBlk, prevIdx)
    requires SegsOk(Contour(t, i), SegLags(Contour(t, i), laginds), |Contour(t, i).blocks|)
    modifies enc, enc.buf
    ensures enc.Valid()
      && enc.sent == Sent(old(enc.sent), LagScript(t, i, SegLags(Contour(t, i), laginds), prevBlk, prevIdx, mode))
  {
    hide RangeEncoder.Valid, PitchOk, Sent, Flatten, SelectScript, SegScript, Increasing, InReach;
    var bs := Contour(t, i);
    ghost var before, segs := enc.sent, SegLags(bs, laginds);
    EncodeSelect(enc, t, i, prevBlk);
    ghost var mid := enc.sent;
    SentThen(before, SelectScript(t, i, prevBlk), SegsScript(t, bs, segs, prevBlk, prevIdx, mode, |segs|));
    SentNothing(mid);
    var prevLagblk, prevLagidx, k, at := prevBlk, prevIdx, 0, 0;
    var b0 := bs.blocks[0];
    if !(prevBlk > -1 && b0 - prevBlk >= -1 && b0 - prevBlk <= 2) {
      EncodeWhole(enc, t, b0, prevIdx, laginds[0], mode);
      SegsStep(t, bs, segs, prevBlk, prevIdx, mode, 0);
      SentThen(mid, Nothing, SegScript(t, true, b0, prevIdx, segs[0], mode));
      prevLagblk, prevLagidx := b0, laginds[0];
      at := bs.seglens[0];
      k := 1;
    }
    while k < |bs.blocks|
      invariant enc.Valid() && k <= |bs.blocks| && at == SegStart(bs.seglens, k)
      invariant k == 0 ==> !Fresh(prevBlk, b0)
      invariant prevLagblk == BlkBefore(bs, prevBlk, k) && prevLagidx == IdxBefore(segs, prevIdx, k)
      invariant SegsOk(bs, segs, k) && enc.sent == Sent(mid, SegsScript(t, bs, segs, prevBlk, prevIdx, mode, k))
    {
      StartBelow(bs, k);
      var blk, idx := bs.blocks[k], laginds[at];
      EncodeStep(enc, t, bs, segs, prevBlk, prevIdx, mode, k, prevLagblk, prevLagidx, idx, mid);
      prevLagblk, prevLagidx := blk, idx;
      at := at + bs.seglens[k];
      k := k + 1;
    }
  }

  /** One more segment of the script, with its reach. */
  lemma SegsStep(t: PitchTables, bs: BlockSeg, segs: seq<int>, prevBlk: int, prevIdx: int, mode: nat, k: nat)
    requires PitchOk(t) && SegOk(bs) && mode < 3 && LagPrev(prevBlk, prevIdx)
    requires k < |bs.blocks| == |segs| && SegsOk(bs, segs, |segs|)
    ensures SegsOk(bs, segs, k) && SegsOk(bs, segs, k + 1) && InBlock(segs[k], bs.blocks[k])
    ensures InReach(InFull(bs, prevBlk, k), bs.blocks[k], IdxBefore(segs, prevIdx, k))
    ensures SegsScript(t, bs, segs, prevBlk, prevIdx, mode, k + 1)
         == Then(SegsScript(t, bs, segs, prevBlk, prevIdx, mode, k),
                 SegScript(t, InFull(bs, prevBlk, k), bs.blocks[k], IdxBefore(segs, prevIdx, k), segs[k], mode))
    ensures !InFull(bs, prevBlk, k) ==>
      Near(BlkBefore(bs, prevBlk, k), bs.blocks[k]) && InBlock(IdxBefore(segs, prevIdx, k), BlkBefore(bs, prevBlk, k))
  {
    StepFits(bs, segs, prevBlk, prevIdx, k);
    hide PitchOk, SegScript;
  }

  /** smplLagsPredictorAfter. */
  function PredictorAfter(t: PitchTables, i: nat, laginds: seq<int>): (int, int)
    requires PitchOk(t) && i < NUM_BLOCKSEGS && |laginds| == LAG_SLOTS
  {
    var bs := Contour(t, i);
    (bs.blocks[|bs.blocks| - 1], laginds[LAG_SLOTS - 1])
  }

  // ----- decoder -----

  method ReadIndexHeader(mem: SmplMem, ghost t: PitchTables) returns (numContours: int, lagCdf: u32)
    requires PitchOk(t) && mem.regions == Image(t)
    ensures numContours == NUM_BLOCKSEGS && lagCdf == LAG_CDF
  {
    HeaderReads(t);
    hide PitchOk, Image, Word, SignedWord;
    numContours := mem.ReadI32(PCFG + 22240);
    lagCdf := mem.ReadU32(PCFG + 22248);
  }

  /** With no block before, the index comes from the whole table. */
  method DecodeFirst(dec: RangeDecoder, mem: SmplMem, ghost t: PitchTables, prevLag: int, numContours: int, lagCdf: u32)
    returns (lag: int)
    requires dec.Valid() && PitchOk(t) && mem.regions == Image(t) && prevLag == -1 && numContours == NUM_BLOCKSEGS
      && lagCdf == LAG_CDF
    modifies dec
    ensures dec.Valid() && (lag, dec.State()) == ReadIndex(t, old(dec.State()), prevLag)
  {
    hide RangeDecoder.Valid, PitchOk, Image, ReadCdf, Increasing, LagCdf, CdfAt;
    var cdf := mem.ReadCdfAt(lagCdf, numContours + 1);
    LagWindow(t, 0, NUM_BLOCKSEGS + 1);
    AllEntries(LagCdf(t), NUM_BLOCKSEGS + 1);
    lag := dec.DecodeCDF(cdf);
  }

  /** The contour selector, read through the heap. */
  method DecodeIndex(dec: RangeDecoder, mem: SmplMem, ghost t: PitchTables, prevLag: int) returns (lag: int)
    requires dec.Valid() && PitchOk(t) && mem.regions == Image(t) && -1 <= prevLag < NUM_BLOCKS
    modifies dec
    ensures dec.Valid() && (lag, dec.State()) == ReadIndex(t, old(dec.State()), prevLag)
  {
    var numContours, lagCdf := ReadIndexHeader(mem, t);
    hide RangeDecoder.Valid, PitchOk, Image, ReadIndex;
    if prevLag < 0 {
      lag := DecodeFirst(dec, mem, t, prevLag, numContours, lagCdf);
    } else {
      lag := DecodeNext(dec, mem, t, prevLag, lagCdf);
    }
  }

  /** First block, then the index among the contours starting there. */
  method DecodeNext(dec: RangeDecoder, mem: SmplMem, ghost t: PitchTables, prevLag: nat, lagCdf: u32) returns (lag: int)
    requires dec.Valid() && PitchOk(t) && mem.regions == Image(t) && prevLag < NUM_BLOCKS && lagCdf == LAG_CDF
    modifies dec
    ensures dec.Valid() && (lag, dec.State()) == ReadIndex(t, old(dec.State()), prevLag)
  {
    hide RangeDecoder.Valid, PitchOk, Image, ReadCdf, Increasing, Transition, IndexWindow, FirstRange;
    var row := TransitionRow(mem, t, prevLag);
    var di := dec.DecodeCDF(row);
    var cdf, lo := IndexRow(mem, t, di, lagCdf);
    var sym := dec.DecodeCDF(cdf);
    lag := sym + lo;
  }

  method TransitionRow(mem: SmplMem, ghost t: PitchTables, prevLag: nat) returns (row: Cdf)
    requires PitchOk(t) && mem.regions == Image(t) && prevLag < NUM_BLOCKS
    ensures row == Transition(t, prevLag)
  {
    HeaderReads(t);
    hide PitchOk, Image, Word, SignedWord, CdfAt, Transition;
    var deltaCdf := mem.ReadU32(PCFG + 22268);
    row := mem.ReadCdfAt(deltaCdf + prevLag * 20, 10);
    TransitionReads(t, prevLag);
  }

  method IndexRow(mem: SmplMem, ghost t: PitchTables, di: nat, lagCdf: u32) returns (cdf: Cdf, lo: int)
    requires PitchOk(t) && mem.regions == Image(t) && di < NUM_BLOCKS && lagCdf == LAG_CDF
    ensures cdf == IndexWindow(t, di) && lo == FirstRange(t, di).0
  {
    BoundReads(t, di);
    WindowIs(t, di);
    hide PitchOk, Image, CdfAt, U8, IndexWindow, FirstRange, LagCdf;
    lo := mem.ReadU8(BOUNDS + di * 2);
    var hi: int := mem.ReadU8(BOUNDS + di * 2 + 1);
    var rN := hi - lo + 2;
    LagWindow(t, lo, rN);
    cdf := mem.ReadCdfAt(lagCdf + lo * 2, rN);
  }

  lemma AllEntries(c: Cdf, n: nat)
    requires |c| == n
    ensures c[0..0 + n] == c && c[..n] == c
  {}

  lemma WindowIs(t: PitchTables, b: nat)
    requires PitchOk(t) && b < NUM_BLOCKS
    ensures var lo: int := FirstRange(t, b).0; var n: int := FirstRange(t, b).1 - lo + 2;
      0 <= n && lo + n <= NUM_BLOCKSEGS + 1 && IndexWindow(t, b) == LagCdf(t)[lo..lo + n]
  {}

  /** The contour-map search. */
  method FindContour(mem: SmplMem, ghost t: PitchTables, lag: int) returns (contour: nat)
    requires PitchOk(t) && mem.regions == Image(t) && 0 <= lag < NUM_BLOCKSEGS
    ensures contour == ContourOf(t, lag)
  {
    HeaderReads(t);
    EveryIndexFound(t.blocksegs2idx, lag);
    var contourMap := mem.ReadU32(PCFG + 22244);
    hide Image, IndexMap, Word, SignedWord;
    var target := lag + 1;
    contour := 0;
    while contour < NUM_BLOCKSEGS
      invariant contour < NUM_BLOCKSEGS && Find(t.blocksegs2idx, target, contour) == Find(t.blocksegs2idx, target, 0)
    {
      var b := mem.ReadU8(contourMap + contour);
      MapReads(t, contour);
      if b == target { break; }
      contour := contour + 1;
    }
  }

  /** One relative segment: the decoder's form of the window start, where the lag before it cancels. */
  method DecodeSegment(dec: RangeDecoder, mem: SmplMem, ghost t: PitchTables, mode: nat, l2: int, l3: int, segLag: nat)
    returns (lag: int)
    requires dec.Valid() && PitchOk(t) && mem.regions == Image(t) && mode < 3 && InReach(false, segLag, l3)
    modifies dec
    ensures dec.Valid() && (lag, dec.State()) == ReadSeg(t, old(dec.State()), false, segLag, l3, mode)
  {
    hide RangeDecoder.Valid, PitchOk, Image, CdfAt, ReadCdf, Increasing, DeltaWindow;
    var nl2 := l2 * 64 - l3 + (segLag - l2) * 64;
    ghost var start := DeltaStart(segLag, l3);
    assert nl2 == start - 127;
    var off := WindowAddress(mem, t, mode, nl2);
    DeltaReads(t, mode, start);
    var cdf := mem.ReadCdfAt(off, 65);
    var sym := dec.DecodeCDF(cdf);
    lag := sym + l3 + nl2;
  }

  /** The 32-bit address of a delta window, whose offset may be negative before the bias. */
  method WindowAddress(mem: SmplMem, ghost t: PitchTables, mode: nat, nl2: int) returns (off: u32)
    requires PitchOk(t) && mem.regions == Image(t) && mode < 3 && -127 <= nl2 <= 128
    ensures off == FRAC_BASE + mode * FRAC_STRIDE + (nl2 + 127) * 2
  {
    HeaderReads(t);
    hide Image, Word, SignedWord, PitchOk;
    var fracBase := mem.ReadU32(PCFG + 22252);
    var fracSegBase := U32(fracBase + mode * FRAC_STRIDE);
    OffsetWraps(fracSegBase, nl2 + 127);
    off := U32(fracSegBase + U32(nl2 * 2) + 0xfe);
  }

  /** The 32-bit address arithmetic absorbs a negative offset. */
  lemma OffsetWraps(base: u32, start: int)
    requires 0x1000 <= base < 0x1000_0000 && 0 <= start <= 255
    ensures U32(base + U32((start - 127) * 2) + 0xfe) == base + start * 2
  {}

  /** Writes one lag to the next n slots. */
  method FillSlots(blockLags: array<int>, subfrW: nat, n: nat, lag: int) returns (w: nat)
    requires blockLags.Length == LAG_SLOTS && subfrW + n <= LAG_SLOTS
    modifies blockLags
    ensures w == subfrW + n && blockLags[..w] == old(blockLags[..subfrW]) + Repeat(lag, n)
  {
    w := subfrW;
    for i := 0 to n
      invariant w == subfrW + i && blockLags[..w] == old(blockLags[..subfrW]) + Repeat(lag, i)
    {
      if w < 8 {
        blockLags[w] := lag;
      }
      w := w + 1;
      assert blockLags[..w] == blockLags[..w - 1] + [lag];
      assert Repeat(lag, i + 1) == Repeat(lag, i) + [lag];
    }
  }

  /** Segment k of the contour record at ctrBase. */
  method ReadSegment(mem: SmplMem, ghost t: PitchTables, contour: nat, k: nat) returns (blk: nat, len: nat)
    requires PitchOk(t) && mem.regions == Image(t) && contour < NUM_BLOCKSEGS && k < |Contour(t, contour).blocks|
    ensures blk == Contour(t, contour).blocks[k] && len == Contour(t, contour).seglens[k]
  {
    assert k < 8 && |Contour(t, contour).seglens| == |Contour(t, contour).blocks|;
    hide Image, SignedWord, PitchOk, Contour, SegOk;
    RecordReads(t, contour, k);
    var ctrBase := PCFG + contour * RECORD_SIZE;
    blk := mem.ReadI32(ctrBase + RECORDS + k * 4);
    len := mem.ReadI32(ctrBase + 0x1d58 + k * 4);
  }

  method ReadCount(mem: SmplMem, ghost t: PitchTables, contour: nat) returns (n: nat)
    requires PitchOk(t) && mem.regions == Image(t) && contour < NUM_BLOCKSEGS
    ensures n == |Contour(t, contour).blocks|
  {
    RecordReads(t, contour, 0);
    hide Image, SignedWord, PitchOk, Contour;
    n := mem.ReadI32(PCFG + contour * RECORD_SIZE + 0x1d78);
  }

  /** The decoding loop after k segments: lags read, slots filled, predictor moved. */
  ghost predicate LagsSoFar(t: PitchTables, d: DecState, bs: BlockSeg, prevBlk: int, prevIdx: int, mode: nat, k: nat,
                            segs: seq<int>, f: DecState, slots: seq<int>) {
    && PitchOk(t) && DecInv(d) && SegOk(bs) && mode < 3 && LagPrev(prevBlk, prevIdx) && k <= |bs.blocks|
    && ReadSegs(t, d, bs, prevBlk, prevIdx, mode, k) == (segs, f) && slots == Spread(bs, segs, k)
  }

  lemma LagsSoFarStart(t: PitchTables, d: DecState, bs: BlockSeg, prevBlk: int, prevIdx: int, mode: nat)
    requires PitchOk(t) && DecInv(d) && SegOk(bs) && mode < 3 && LagPrev(prevBlk, prevIdx)
    ensures LagsSoFar(t, d, bs, prevBlk, prevIdx, mode, 0, [], d, [])
  {}

  lemma {:induction false} SpreadExtends(bs: BlockSeg, a: seq<int>, b: seq<int>, k: nat)
    requires k <= |bs.seglens| && k <= |a| && k <= |b| && a[..k] == b[..k]
    ensures Spread(bs, a, k) == Spread(bs, b, k)
  {
    if k > 0 {
      assert a[..k - 1] == a[..k][..k - 1] == b[..k][..k - 1] == b[..k - 1];
      assert a[k - 1] == a[..k][k - 1] == b[k - 1];
      SpreadExtends(bs, a, b, k - 1);
    }
  }

  lemma {:induction false} ReadSegsSnoc(t: PitchTables, d: DecState, bs: BlockSeg, prevBlk: int, prevIdx: int,
                                        mode: nat, k: nat)
    requires PitchOk(t) && DecInv(d) && SegOk(bs) && mode < 3 && LagPrev(prevBlk, prevIdx) && k < |bs.blocks|
    ensures var r := ReadSegs(t, d, bs, prevBlk, prevIdx, mode, k);
      && |r.0| == k && DecInv(r.1) && InReach(InFull(bs, prevBlk, k), bs.blocks[k], IdxBefore(r.0, prevIdx, k))
      && var one := ReadSeg(t, r.1, InFull(bs, prevBlk, k), bs.blocks[k], IdxBefore(r.0, prevIdx, k), mode);
         ReadSegs(t, d, bs, prevBlk, prevIdx, mode, k + 1) == (r.0 + [one.0], one.1)
  {
    hide PitchOk, SegOk, LagPrev, SegsOk, ReadSeg, InReach, InFull, InBlock, DecInv;
    StepFits(bs, ReadSegs(t, d, bs, prevBlk, prevIdx, mode, k).0, prevBlk, prevIdx, k);
  }

  lemma SpreadNext(bs: BlockSeg, segs: seq<int>, k: nat)
    requires k < |bs.seglens| && k < |segs|
    ensures Spread(bs, segs, k + 1) == Spread(bs, segs, k) + Repeat(segs[k], bs.seglens[k])
  {}

  lemma LagsSoFarStep(t: PitchTables, d: DecState, bs: BlockSeg, prevBlk: int, prevIdx: int, mode: nat, k: nat,
                      segs: seq<int>, f: DecState, slots: seq<int>)
    requires LagsSoFar(t, d, bs, prevBlk, prevIdx, mode, k, segs, f, slots) && k < |bs.blocks|
    ensures |segs| == k && DecInv(f) && |slots| == SegStart(bs.seglens, k) && |slots| + bs.seglens[k] <= LAG_SLOTS
    ensures bs.seglens[k] >= 1 && (k + 1 == |bs.blocks| ==> |slots| + bs.seglens[k] == LAG_SLOTS)
    ensures InReach(InFull(bs, prevBlk, k), bs.blocks[k], IdxBefore(segs, prevIdx, k))
    ensures var one := ReadSeg(t, f, InFull(bs, prevBlk, k), bs.blocks[k], IdxBefore(segs, prevIdx, k), mode);
      LagsSoFar(t, d, bs, prevBlk, prevIdx, mode, k + 1, segs + [one.0], one.1, slots + Repeat(one.0, bs.seglens[k]))
  {
    StartBelow(bs, k);
    ReadSegsSnoc(t, d, bs, prevBlk, prevIdx, mode, k);
    hide PitchOk, SegOk, LagPrev, SegsOk, ReadSeg, InReach, InFull, InBlock, ReadSegs, Spread, DecInv, Repeat;
    var one := ReadSeg(t, f, InFull(bs, prevBlk, k), bs.blocks[k], IdxBefore(segs, prevIdx, k), mode);
    SpreadExtends(bs, segs, segs + [one.0], k);
    SpreadNext(bs, segs + [one.0], k);
  }

  /** The decoder's whole state after k segments, from decoder state d and predictor st0. */
  ghost predicate LagsRun(t: PitchTables, d: DecState, bs: BlockSeg, st0: Predictor, mode: nat, k: nat,
                          segs: seq<int>, f: DecState, st1: Predictor, slots: seq<int>) {
    && LagsSoFar(t, d, bs, st0.prevLag, st0.prevFracLag, mode, k, segs, f, slots)
    && st1 == st0.(prevLag := BlkBefore(bs, st0.prevLag, k), prevFracLag := IdxBefore(segs, st0.prevFracLag, k))
  }

  lemma RunDone(t: PitchTables, d: DecState, bs: BlockSeg, st0: Predictor, mode: nat, segs: seq<int>, f: DecState,
                st1: Predictor, slots: seq<int>)
    requires LagsRun(t, d, bs, st0, mode, |bs.blocks|, segs, f, st1, slots)
    ensures SegOk(bs) && DecInv(d) && PitchOk(t) && LagPrev(st0.prevLag, st0.prevFracLag) && mode < 3
    ensures ReadSegs(t, d, bs, st0.prevLag, st0.prevFracLag, mode, |bs.blocks|) == (segs, f) && |segs| == |bs.blocks|
    ensures slots == BlockLags(bs, segs) && |slots| == LAG_SLOTS
    ensures st1 == st0.(prevLag := bs.blocks[|segs| - 1], prevFracLag := segs[|segs| - 1])
  {}

  /** The lag block of DecodeSmplPitch. */
  method DecodeLags(dec: RangeDecoder, mem: SmplMem, ghost t: PitchTables, st: SmplLsfState, mode: nat)
    returns (contour: nat, blockLags: array<int>)
    requires dec.Valid() && PitchOk(t) && mem.regions == Image(t) && mode < 3 && LagPrev(st.prevLag, st.prevFracLag)
    modifies dec, st
    ensures dec.Valid() && fresh(blockLags)
    ensures var r := ReadLags(t, old(dec.State()), old(st.prevLag), old(st.prevFracLag), mode);
      var bs := Contour(t, r.0);
      && contour == r.0 && dec.State() == r.2 && blockLags[..] == BlockLags(bs, r.1)
      && st.Get() == old(st.Get()).(prevLag := bs.blocks[|r.1| - 1], prevFracLag := r.1[|r.1| - 1])
  {
    assert -1 <= st.prevLag < NUM_BLOCKS;
    hide RangeDecoder.Valid, PitchOk, Image, Contour, SegOk, ReadSeg, ReadIndex, ContourOf, LagPrev, BlockLags, LagsRun;
    ghost var st0 := st.Get();
    var lag := DecodeIndex(dec, mem, t, st.prevLag);
    contour := FindContour(mem, t, lag);
    ghost var d, segs := dec.State(), [];
    blockLags, segs := DecodeSegments(dec, mem, t, st, contour, mode);
    RunDone(t, d, Contour(t, contour), st0, mode, segs, dec.State(), st.Get(), blockLags[..]);
  }

  method DecodeSegments(dec: RangeDecoder, mem: SmplMem, ghost t: PitchTables, st: SmplLsfState, contour: nat,
                        mode: nat)
    returns (blockLags: array<int>, ghost segs: seq<int>)
    requires dec.Valid() && PitchOk(t) && mem.regions == Image(t) && mode < 3 && LagPrev(st.prevLag, st.prevFracLag)
      && contour < NUM_BLOCKSEGS
    modifies dec, st
    ensures dec.Valid() && fresh(blockLags)
    ensures var bs := Contour(t, contour);
      LagsRun(t, old(dec.State()), bs, old(st.Get()), mode, |bs.blocks|, segs, dec.State(), st.Get(), blockLags[..])
  {
    ghost var st0, bs, d := st.Get(), Contour(t, contour), dec.State();
    assert |bs.blocks| >= 1;
    hide RangeDecoder.Valid, PitchOk, Image, Contour, SegOk, LagsRun, LagPrev, DecInv;
    blockLags := new int[8](_ => 0);
    var l2: int, seg: nat, subfrW: nat;
    l2, seg, subfrW, segs := Begin(dec, mem, t, st, blockLags, contour, bs, mode);
    subfrW, segs := Rest(dec, mem, t, st, blockLags, contour, bs, seg, subfrW, l2, mode, d, st0, segs);
    RunDone(t, d, bs, st0, mode, segs, dec.State(), st.Get(), blockLags[..subfrW]);
    assert blockLags[..] == blockLags[..subfrW];
  }

  /** Segment k, if there is one, is sent relative to the lag before it. */
  predicate Relative(bs: BlockSeg, prevBlk: int, k: nat) { k < |bs.blocks| ==> !InFull(bs, prevBlk, k) }

  /** The segment loop. */
  method Rest(dec: RangeDecoder, mem: SmplMem, ghost t: PitchTables, st: SmplLsfState, blockLags: array<int>,
              contour: nat, ghost bs: BlockSeg,
              startSeg: nat, w0: nat, curLag2: int, mode: nat, ghost d: DecState, ghost st0: Predictor,
                ghost segs0: seq<int>)
    returns (subfrW: nat, ghost segs: seq<int>)
    requires dec.Valid() && PitchOk(t) && mem.regions == Image(t) && blockLags.Length == LAG_SLOTS
    requires contour < NUM_BLOCKSEGS && bs == Contour(t, contour) && startSeg <= |bs.blocks|
      && Relative(bs, st0.prevLag, startSeg)
    requires w0 <= LAG_SLOTS && LagsRun(t, d, bs, st0, mode, startSeg, segs0, dec.State(), st.Get(), blockLags[..w0])
    modifies dec, st, blockLags
    ensures dec.Valid() && subfrW <= LAG_SLOTS
    ensures LagsRun(t, d, bs, st0, mode, |bs.blocks|, segs, dec.State(), st.Get(), blockLags[..subfrW])
  {
    hide RangeDecoder.Valid, PitchOk, Image, Contour, SegOk, LagsRun, LagPrev, DecInv, Relative;
    var cnt2 := ReadCount(mem, t, contour);
    var l2, seg := curLag2, startSeg;
    subfrW, segs := w0, segs0;
    while seg < cnt2
      invariant dec.Valid() && seg <= cnt2 && subfrW <= LAG_SLOTS && Relative(bs, st0.prevLag, seg)
      invariant LagsRun(t, d, bs, st0, mode, seg, segs, dec.State(), st.Get(), blockLags[..subfrW])
    {
      l2, subfrW, segs := OneMore(dec, mem, t, st, blockLags, contour, bs, seg, subfrW, l2, mode, d, st0, segs);
      seg := seg + 1;
    }
  }

  /** Before the segment loop: the first segment, if it is sent whole. */
  method Begin(dec: RangeDecoder, mem: SmplMem, ghost t: PitchTables, st: SmplLsfState, blockLags: array<int>,
               contour: nat, ghost bs: BlockSeg, mode: nat)
    returns (l2: int, seg: nat, subfrW: nat, ghost segs: seq<int>)
    requires dec.Valid() && PitchOk(t) && mem.regions == Image(t) && mode < 3 && LagPrev(st.prevLag, st.prevFracLag)
      && contour < NUM_BLOCKSEGS
    requires bs == Contour(t, contour) && blockLags.Length == LAG_SLOTS
    modifies dec, st, blockLags
    ensures dec.Valid() && seg <= 1 && seg <= |bs.blocks| && subfrW <= LAG_SLOTS
    ensures Relative(bs, old(st.prevLag), seg)
    ensures LagsRun(t, old(dec.State()), bs, old(st.Get()), mode, seg, segs, dec.State(), st.Get(), blockLags[..subfrW])
  {
    ghost var d, pb, pi := dec.State(), st.prevLag, st.prevFracLag;
    LagsSoFarStart(t, d, bs, pb, pi, mode);
    hide RangeDecoder.Valid, PitchOk, Image, Contour, SegOk, ReadSeg, LagsSoFar, InReach, LagPrev, DecInv, Repeat;
    assert blockLags[..0] == [];
    segs := [];
    var baseLag, segLen0 := ReadSegment(mem, t, contour, 0);
    l2, seg, subfrW := baseLag, 0, 0;
    if !(st.prevLag >= 0 && baseLag - st.prevLag >= -1 && baseLag - st.prevLag < 3) {
      LagsSoFarStep(t, d, bs, pb, pi, mode, 0, segs, d, []);
      l2, subfrW := FirstSegment(dec, t, st, blockLags, baseLag, segLen0, pi, mode);
      segs := segs + [l2];
      assert [] + Repeat(l2, segLen0) == blockLags[..subfrW];
      seg := 1;
    }
  }

  /** The body of the segment loop, with what the loop keeps. */
  method OneMore(dec: RangeDecoder, mem: SmplMem, ghost t: PitchTables, st: SmplLsfState, blockLags: array<int>,
                 contour: nat, ghost bs: BlockSeg,
                 seg: nat, subfrW: nat, l2: int, mode: nat, ghost d: DecState, ghost st0: Predictor,
                   ghost segs0: seq<int>)
    returns (segLag: nat, w: nat, ghost segs: seq<int>)
    requires dec.Valid() && PitchOk(t) && mem.regions == Image(t) && blockLags.Length == LAG_SLOTS
    requires contour < NUM_BLOCKSEGS && bs == Contour(t, contour) && seg < |bs.blocks| && Relative(bs, st0.prevLag, seg)
    requires subfrW <= LAG_SLOTS && LagsRun(t, d, bs, st0, mode, seg, segs0, dec.State(), st.Get(), blockLags[..subfrW])
    modifies dec, st, blockLags
    ensures dec.Valid() && w <= LAG_SLOTS && Relative(bs, st0.prevLag, seg + 1)
    ensures LagsRun(t, d, bs, st0, mode, seg + 1, segs, dec.State(), st.Get(), blockLags[..w])
  {
    LagsSoFarStep(t, d, bs, st0.prevLag, st0.prevFracLag, mode, seg, segs0, dec.State(), blockLags[..subfrW]);
    assert mode < 3;
    hide RangeDecoder.Valid, PitchOk, Image, Contour, SegOk, ReadSeg, LagsSoFar, InReach, LagPrev, DecInv, Repeat;
    segLag, w := NextSegment(dec, mem, t, st, blockLags, contour, bs, seg, subfrW, l2, mode);
    segs := segs0 + [st.prevFracLag];
  }

  /** A first segment sent whole; its lag is also left in the slot after it, which the next segment overwrites. */
  method FirstSegment(dec: RangeDecoder, ghost t: PitchTables, st: SmplLsfState, blockLags: array<int>, baseLag: nat,
                      segLen0: nat,
                      ghost before: int, ghost mode: nat) returns (curLag2: int, subfrW: nat)
    requires dec.Valid() && PitchOk(t) && mode < 3 && blockLags.Length == LAG_SLOTS && segLen0 <= LAG_SLOTS
    modifies dec, st, blockLags
    ensures dec.Valid() && (curLag2, dec.State()) == ReadSeg(t, old(dec.State()), true, baseLag, before, mode)
    ensures subfrW == segLen0 && blockLags[..subfrW] == Repeat(curLag2, segLen0)
    ensures st.Get() == old(st.Get()).(prevLag := baseLag, prevFracLag := curLag2)
  {
    hide RangeDecoder.Valid, PitchOk, ReadFine, Repeat;
    var sym := dec.Decode64FineSym();
    curLag2 := baseLag * 64 + sym;
    st.prevFracLag := curLag2;
    st.prevLag := baseLag;
    subfrW := FillSlots(blockLags, 0, segLen0, curLag2);
    if subfrW < 8 {
      blockLags[subfrW] := curLag2;
    }
  }

  /** A later segment, or a first one near the previous block. */
  method NextSegment(dec: RangeDecoder, mem: SmplMem, ghost t: PitchTables, st: SmplLsfState, blockLags: array<int>,
                     contour: nat, ghost bs: BlockSeg, seg: nat, subfrW: nat, l2: int, mode: nat) returns (segLag: nat,
                       w: nat)
    requires dec.Valid() && PitchOk(t) && mem.regions == Image(t) && mode < 3 && blockLags.Length == LAG_SLOTS
    requires contour < NUM_BLOCKSEGS && bs == Contour(t, contour) && seg < |bs.blocks|
    requires subfrW + bs.seglens[seg] <= LAG_SLOTS && InReach(false, bs.blocks[seg], st.prevFracLag)
    modifies dec, st, blockLags
    ensures dec.Valid() && segLag == bs.blocks[seg] && w == subfrW + bs.seglens[seg]
    ensures ReadSeg(t, old(dec.State()), false, bs.blocks[seg], old(st.prevFracLag), mode) ==
      (st.prevFracLag, dec.State())
    ensures blockLags[..w] == old(blockLags[..subfrW]) + Repeat(st.prevFracLag, bs.seglens[seg])
    ensures st.Get() == old(st.Get()).(prevLag := segLag, prevFracLag := st.prevFracLag)
  {
    hide RangeDecoder.Valid, PitchOk, Image, Contour, ReadSeg, InReach, Repeat;
    var segLen;
    segLag, segLen := ReadSegment(mem, t, contour, seg);
    var l3 := DecodeSegment(dec, mem, t, mode, l2, st.prevFracLag, segLag);
    w := FillSlots(blockLags, subfrW, segLen, l3);
    st.prevFracLag := l3;
    st.prevLag := segLag;
  }
}
