/** Decoding arbitrary bytes: whatever is read is a packet some encoder run could have written there. */
module FrameSound {
  import opened Bytes
  import opened RangeSpec
  import opened RangeProof
  import opened Symbols
  import opened LsfBlock
  import opened PulseCount
  import opened PulseBlock
  import opened PulseFrame
  import opened GainBlock
  import opened LtpBlock
  import opened PitchTables
  import opened LagBlock
  import opened PitchBlock
  import opened FrameCodec

  /** Encoder parameters for a decoded frame; the block that was not sent gets zeros. */
  function Written(r: Decoded): InternalParams {
    match r
    case Voice(lsf, pulses, pitch) => InternalParams(lsf, pulses, pitch, GainParams(0, 0, [0, 0, 0, 0]))
    case Noise(lsf, pulses, gains) => InternalParams(lsf, pulses,
      PitchParams([0, 0, 0, 0], [-1, -1, -1, -1], 0, [0, 0, 0, 0, 0, 0, 0, 0]), gains)
  }

  function AllWritten(rs: seq<Decoded>): (ips: seq<InternalParams>)
    ensures |ips| == |rs| && forall f :: 0 <= f < |ips| ==> ips[f] == Written(rs[f])
  {
    seq(|rs|, f requires 0 <= f < |rs| => Written(rs[f]))
  }

  predicate Exact(t: FrameTabs) { TabsOk(t) && RangesExact(t.pitch.lag) }

  lemma SpreadIsConstant(bs: BlockSeg, segs: seq<int>)
    requires SegOk(bs) && |segs| == |bs.blocks|
    ensures SegmentConstant(bs, BlockLags(bs, segs))
  {
    hide SegOk, SegLags, BlockLags, SegmentConstant;
    SegLagsOfBlockLags(bs, segs);
    LosslessWhenConstant(bs, BlockLags(bs, segs));
  }

  lemma AlreadyShown(subfr: seq<nat>, r: Ltp)
    requires |subfr| == 4 && LtpRead(subfr, r, 4)
    ensures |r.filts| == 4 && Shown(subfr, r.filts) == r.filts
  {}

  lemma PitchIsWritable(t: PitchTabs, d: DecState, subfr: seq<nat>, p: PitchPrev)
    requires PitchTabsOk(t) && RangesExact(t.lag) && DecInv(d) && |subfr| == 4 && PrevOk(p)
    ensures var r := ReadPitch(t, d, subfr, p); var pp := Params(t, r.0);
      && PitchOkFor(t, subfr, pp) && |pp.filtIdx| == 4 && Canonical(subfr, pp) == pp
      && Holds(d, PitchScript(t, subfr, pp, p)) && r.1 == Past(d, PitchScript(t, subfr, pp, p))
  {
    hide PitchOk, LtpOk, RangesExact, PitchScript, Holds, Past, ReadPitch, BlockLags, SegLags, SegmentConstant,
      PitchParamsOk, SegOk, SegsOk, Contour, LtpRead, Shown, PrevOk;
    ReadPitchSound(t, d, subfr, p);
    var r := ReadPitch(t, d, subfr, p).0;
    AlreadyShown(subfr, r.ltp);
    SpreadIsConstant(Contour(t.lag, r.contour), r.segs);
  }

  lemma VoiceSound(t: FrameTabs, d: DecState, e: Predictor, c: Predictor, lsf: LsfParams, pulses: PulseParams)
    requires Exact(t) && DecInv(d) && EncOk(e) && DecOk(c) && EncPrev(e) == DecPrev(c) && LsfIndexable(lsf)
      && PulseParamsOk(pulses)
    ensures var r := ReadVoice(t, d, c, lsf, pulses); var ip := Written(r.0);
      && InternalOk(t, ip) && Seen(ip) == r.0 && ip.lsf == lsf && ip.pulses == pulses
      && Holds(d, VoiceScript(t, e, ip)) && r.2 == Past(d, VoiceScript(t, e, ip))
  {
    var p := DecPrev(c);
    hide LsfOk, PulseOk, GainOk, PitchTabsOk, PitchOkFor, RangesExact, LsfIndexable, PrevOk, Reported, Canonical,
      PitchScript, GainScript, ReadPitch, ReadGains, Params, PrevOf, Holds, Past;
    FourCounts(pulses);
    hide PulseParamsOk;
    if lsf.stage1 == 1 {
      PitchIsWritable(t.pitch, d, pulses.subfr, p);
    } else {
      ReadGainsSound(t.gain, d, pulses.subfr);
    }
  }

  lemma FourCounts(pp: PulseParams)
    requires PulseParamsOk(pp)
    ensures |pp.subfr| == 4
  {}

  /** One internal frame of any input is a writable frame, written there by an encoder linked to the decoder. */
  lemma InternalSound(t: FrameTabs, d: DecState, e: Predictor, c: Predictor, intf: nat)
    requires Exact(t) && DecInv(d) && (intf == 0 || (EncOk(e) && DecOk(c) && Linked(e, c)))
    ensures var r := ReadInternal(t, d, c, intf); var ip := Written(r.0);
      && InternalOk(t, ip) && Seen(ip) == r.0
      && Holds(d, InternalScript(t, e, intf, ip)) && r.2 == Past(d, InternalScript(t, e, intf, ip))
  {
    hide LsfOk, PulseOk, GainOk, PitchTabsOk, RangesExact, PulseParamsOk, LsfIndexable, PitchOkFor, ReadLsf,
      ReadPulses, ReadVoice, LsfScript, PulseScript, VoiceScript, Seen, PrevOk, Written, Holds, Past;
    var l := ReadLsf(t.lsf, d, c, intf);
    var p := ReadPulses(t.pulse, l.1);
    var stage1 := l.0.stage1;
    TurnOk(e, intf, stage1);
    TurnOk(c, intf, stage1);
    TurnLinks(e, c, intf, stage1);
    ReadLsfSound(t.lsf, d, c, intf);
    LsfScriptDependsOnStage1(t.lsf, e, c, intf, l.0);
    ReadPulsesSound(t.pulse, l.1);
    VoiceSound(t, p.1, EncPredictor(e, intf, stage1), DecPredictor(c, intf, stage1), l.0, p.0);
    var ip := Written(ReadInternal(t, d, c, intf).0);
    HoldsThen(d, LsfScript(t.lsf, e, intf, l.0), PulseScript(t.pulse, p.0));
    HoldsThen(d, Then(LsfScript(t.lsf, e, intf, l.0), PulseScript(t.pulse, p.0)),
      VoiceScript(t, EncPredictor(e, intf, stage1), ip));
  }

  lemma {:induction false} ScriptPrefix(t: FrameTabs, a: seq<InternalParams>, b: seq<InternalParams>, k: nat)
    requires TabsOk(t) && AllOk(t, a) && AllOk(t, b) && k <= |a| && k <= |b| && a[..k] == b[..k]
    ensures EncAt(t, a, k) == EncAt(t, b, k) && FramesScript(t, a, k) == FramesScript(t, b, k)
  {
    hide TabsOk, InternalOk, Sized, EncNext, InternalScript, EncOk;
    if k > 0 {
      assert a[..k - 1] == a[..k][..k - 1] == b[..k][..k - 1] == b[..k - 1];
      assert a[k - 1] == a[..k][k - 1] == b[k - 1];
      ScriptPrefix(t, a, b, k - 1);
    }
  }

  /** The frames read are writable, and their script is what the input held. */
  ghost predicate Explained(t: FrameTabs, d: DecState, c: Predictor, k: nat)
    requires TabsOk(t) && DecInv(d)
  {
    var r := ReadFrames(t, d, c, k);
    var ips := AllWritten(r.0);
    && AllOk(t, ips) && AllSeen(ips) == r.0
    && Holds(d, FramesScript(t, ips, k)) && r.2 == Past(d, FramesScript(t, ips, k))
  }

  /** For every input and every starting predictor, decoding k frames is reading back some well-formed packet. */
  lemma {:induction false} AnyBytesExplained(t: FrameTabs, d: DecState, c: Predictor, k: nat)
    requires Exact(t) && DecInv(d)
    ensures Explained(t, d, c, k)
  {
    hide TabsOk, RangesExact, ReadInternal, InternalScript, InternalOk, EncNext, Seen, Written, EncOk, DecOk, Holds,
      Past, Linked;
    if k == 0 {
      HoldsNothing(d);
      assert AllSeen([]) == [];
    } else {
      AnyBytesExplained(t, d, c, k - 1);
      ExplainedStep(t, d, c, k);
    }
  }

  lemma ExplainedStep(t: FrameTabs, d: DecState, c: Predictor, k: nat)
    requires Exact(t) && DecInv(d) && k > 0 && Explained(t, d, c, k - 1)
    ensures Explained(t, d, c, k)
  {
    hide TabsOk, RangesExact, ReadInternal, InternalScript, EncNext, Seen, Written, EncOk, DecOk, Holds, Past, Linked;
    var front := ReadFrames(t, d, c, k - 1);
    var ips0 := AllWritten(front.0);
    var e := EncAt(t, ips0, k - 1);
    StillLinked(t, d, c, k - 1);
    InternalSound(t, front.2, e, front.1, k - 1);
    var one := ReadInternal(t, front.2, front.1, k - 1);
    var r := ReadFrames(t, d, c, k);
    var ips := AllWritten(r.0);
    hide InternalOk, Sized, ReadBack, AllOk, DecInv, AllWritten, AllSeen;
    WrittenSnoc(t, front.0, one.0);
    ScriptPrefix(t, ips0, ips, k - 1);
    HoldsThen(d, FramesScript(t, ips, k - 1), InternalScript(t, e, k - 1, Written(one.0)));
  }

  lemma StillLinked(t: FrameTabs, d: DecState, c: Predictor, k: nat)
    requires Exact(t) && DecInv(d) && Explained(t, d, c, k)
    ensures var r := ReadFrames(t, d, c, k);
      AllOk(t, AllWritten(r.0))
      && (k == 0 || (DecOk(r.1) && EncOk(EncAt(t, AllWritten(r.0), k)) && Linked(EncAt(t, AllWritten(r.0), k), r.1)))
  {
    hide TabsOk, RangesExact, EncOk, DecOk, Holds, Past, Linked;
    FramesBack(t, d, c, AllWritten(ReadFrames(t, d, c, k).0), k);
  }

  lemma WrittenSnoc(t: FrameTabs, rs: seq<Decoded>, r: Decoded)
    requires TabsOk(t) && AllOk(t, AllWritten(rs)) && InternalOk(t, Written(r)) && Seen(Written(r)) == r
      && AllSeen(AllWritten(rs)) == rs
    ensures AllOk(t, AllWritten(rs + [r])) && AllSeen(AllWritten(rs + [r])) == rs + [r]
    ensures AllWritten(rs + [r]) == AllWritten(rs) + [Written(r)]
      && AllWritten(rs + [r])[..|rs|] == AllWritten(rs)[..|rs|]
  {
    assert InternalOk(t, Written(r)) ==> Sized(Written(r));
    hide TabsOk, InternalOk, Sized, Seen, Written;
    var ips := AllWritten(rs + [r]);
    assert ips == AllWritten(rs) + [Written(r)];
    forall f | 0 <= f < |ips| ensures Sized(ips[f]) && InternalOk(t, ips[f]) && Seen(ips[f]) == (rs + [r])[f] {
      if f < |rs| { assert ips[f] == AllWritten(rs)[f] && AllSeen(AllWritten(rs))[f] == rs[f]; }
    }
  }

  // ----- the error flag -----

  lemma CdfKeepsErr(d: DecState, cdf: Cdf)
    requires DecInv(d) && Increasing(cdf)
    ensures ReadCdf(d, cdf).1.err == d.err
  {
    hide Increasing, Reads;
  }

  lemma LtpOneKeepsErr(t: LtpTabs, d: DecState, cnt: nat, prevGain: int, prevFilt: int)
    requires LtpOk(t) && DecInv(d) && Starts(prevGain, prevFilt)
    ensures ReadOne(t, d, cnt, prevGain, prevFilt).2.err == d.err
  {
    hide LtpOk, ReadCdf, DecInv, Increasing, GainRow, FiltRow;
    CdfKeepsErr(d, GainRow(t, prevGain));
    if cnt > 0 { CdfKeepsErr(ReadCdf(d, GainRow(t, prevGain)).1, FiltRow(t, prevFilt)); }
  }

  lemma {:induction false} LtpKeepsErr(t: LtpTabs, d: DecState, subfr: seq<nat>, prevGain: int, prevFilt: int, k: nat)
    requires LtpOk(t) && DecInv(d) && |subfr| == 4 && Starts(prevGain, prevFilt) && k <= 4
    ensures ReadLtp(t, d, subfr, prevGain, prevFilt, k).1.err == d.err
  {
    hide LtpOk, DecInv, ReadOne, Extend;
    if k > 0 {
      LtpKeepsErr(t, d, subfr, prevGain, prevFilt, k - 1);
      var front := ReadLtp(t, d, subfr, prevGain, prevFilt, k - 1);
      LtpOneKeepsErr(t, front.1, subfr[k - 1], front.0.prevGain, front.0.prevFilt);
    }
  }

  lemma SegKeepsErr(t: PitchTables, d: DecState, whole: bool, blk: nat, before: int, mode: nat)
    requires PitchOk(t) && DecInv(d) && mode < 3 && InReach(whole, blk, before)
    ensures ReadSeg(t, d, whole, blk, before, mode).1.err == d.err
  {
    hide ReadSeg, SegScript, Holds, Past, PitchOk;
    SegSound(t, d, whole, blk, before, mode);
  }

  lemma {:induction false} SegsKeepErr(t: PitchTables, d: DecState, bs: BlockSeg, prevBlk: int, prevIdx: int,
                                       mode: nat, k: nat)
    requires PitchOk(t) && DecInv(d) && SegOk(bs) && mode < 3 && LagPrev(prevBlk, prevIdx) && k <= |bs.blocks|
    ensures ReadSegs(t, d, bs, prevBlk, prevIdx, mode, k).1.err == d.err
  {
    hide PitchOk, SegOk, SegsOk, InBlock, InFull, InReach, ReadSeg, DecInv;
    if k > 0 {
      SegsKeepErr(t, d, bs, prevBlk, prevIdx, mode, k - 1);
      var front := ReadSegs(t, d, bs, prevBlk, prevIdx, mode, k - 1);
      StepFits(bs, front.0, prevBlk, prevIdx, k - 1);
      SegKeepsErr(t, front.1, InFull(bs, prevBlk, k - 1), bs.blocks[k - 1], IdxBefore(front.0, prevIdx, k - 1), mode);
    }
  }

  lemma LagsKeepErr(t: PitchTables, d: DecState, prevBlk: int, prevIdx: int, mode: nat)
    requires PitchOk(t) && DecInv(d) && mode < 3 && LagPrev(prevBlk, prevIdx)
    ensures ReadLags(t, d, prevBlk, prevIdx, mode).2.err == d.err
  {
    hide PitchOk, ReadCdf, ReadSegs, Increasing, DecInv, LagCdf, Transition, IndexWindow, SegOk, SegsOk;
    if prevBlk < 0 {
      CdfKeepsErr(d, LagCdf(t));
    } else {
      CdfKeepsErr(d, Transition(t, prevBlk));
      var b := ReadCdf(d, Transition(t, prevBlk));
      CdfKeepsErr(b.1, IndexWindow(t, b.0));
    }
    var x := ReadIndex(t, d, prevBlk);
    var bs := Contour(t, ContourOf(t, x.0));
    SegsKeepErr(t, x.1, bs, prevBlk, prevIdx, mode, |bs.blocks|);
  }

  lemma PitchKeepsErr(t: PitchTabs, d: DecState, subfr: seq<nat>, p: PitchPrev)
    requires PitchTabsOk(t) && DecInv(d) && |subfr| == 4 && PrevOk(p)
    ensures ReadPitch(t, d, subfr, p).1.err == d.err
  {
    hide ReadLtp, ReadLags, PitchOk, LtpOk, GainSum, DecInv;
    LtpKeepsErr(t.ltp, d, subfr, p.gain, p.filt, 4);
    var l := ReadLtp(t.ltp, d, subfr, p.gain, p.filt, 4);
    LagsKeepErr(t.lag, l.1, p.blk, p.idx, Mode(GainSum(t.ltp, l.0.gains, 4)));
  }

  lemma InternalKeepsErr(t: FrameTabs, d: DecState, c: Predictor, intf: nat)
    requires TabsOk(t) && DecInv(d) && (intf == 0 || DecOk(c))
    ensures ReadInternal(t, d, c, intf).2.err == d.err
  {
    hide LsfOk, PulseOk, GainOk, PitchTabsOk, PulseParamsOk, LsfIndexable, ReadLsf, ReadPulses, ReadGains, ReadPitch,
      LsfScript, PulseScript, GainScript, PrevOk, Holds, Past, Params, PrevOf, Reported;
    var l := ReadLsf(t.lsf, d, c, intf);
    ReadLsfSound(t.lsf, d, c, intf);
    var p := ReadPulses(t.pulse, l.1);
    ReadPulsesSound(t.pulse, l.1);
    TurnOk(c, intf, l.0.stage1);
    FourCounts(p.0);
    if l.0.stage1 == 1 {
      PitchKeepsErr(t.pitch, p.1, p.0.subfr, DecPrev(DecPredictor(c, intf, l.0.stage1)));
    } else {
      ReadGainsSound(t.gain, p.1, p.0.subfr);
    }
  }

  lemma {:induction false} FramesKeepErr(t: FrameTabs, d: DecState, c: Predictor, k: nat)
    requires TabsOk(t) && DecInv(d)
    ensures ReadFrames(t, d, c, k).2.err == d.err
  {
    hide TabsOk, ReadInternal, DecOk;
    if k > 0 {
      FramesKeepErr(t, d, c, k - 1);
      var front := ReadFrames(t, d, c, k - 1);
      InternalKeepsErr(t, front.2, front.1, k - 1);
    }
  }

  /** No input makes the decoder raise an error: all tables it consults are usable. */
  lemma {:induction false} NeverFails(t: FrameTabs, buf: seq<byte>, c: Predictor, k: nat)
    requires TabsOk(t)
    ensures DecInv(DecStart(buf)) && ReadFrames(t, DecStart(buf), c, k).2.err == 0
  {
    DecStartSynced(buf);
    FramesKeepErr(t, DecStart(buf), c, k);
  }
}
