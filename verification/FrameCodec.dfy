/** A 60 ms packet: a header byte and three internal frames in one range-coded body. */
module FrameCodec {
  import opened Bytes
  import opened RangeSpec
  import opened RangeProof
  import opened Symbols
  import opened LsfBlock
  import opened PulseCount
  import opened PulseBlock
  import opened PulseVector
  import opened PulseFrame
  import opened GainBlock
  import opened PitchTables
  import opened LagBlock
  import opened PitchBlock

  const INTERNAL_FRAMES := 3
  const BODY_CAP := 513

  datatype FrameTabs = FrameTabs(lsf: LsfTables, pulse: PulseTabs, gain: GainTabs, pitch: PitchTabs)

  predicate TabsOk(t: FrameTabs) { LsfOk(t.lsf) && PulseOk(t.pulse) && GainOk(t.gain) && PitchTabsOk(t.pitch) }

  /** One internal frame; the stage-1 selector says which of pitch and gains is sent. */
  datatype InternalParams = InternalParams(lsf: LsfParams, pulses: PulseParams, pitch: PitchParams, gains: GainParams)

  datatype FrameParams = FrameParams(toc: byte, internal: seq<InternalParams>)

  predicate Voiced(ip: InternalParams) { ip.lsf.stage1 == 1 }

  /** The fixed array sizes. */
  predicate Sized(ip: InternalParams) { |ip.pulses.subfr| == |ip.pitch.filtIdx| == |ip.gains.nrgRes| == 4 }

  predicate InternalOk(t: FrameTabs, ip: InternalParams)
    requires TabsOk(t)
  {
    && Sized(ip) && LsfIndexable(ip.lsf) && PulseParamsOk(ip.pulses)
    && (Voiced(ip) ==> PitchOkFor(t.pitch, ip.pulses.subfr, ip.pitch))
  }

  /** Writable pitch parameters whose lags are constant on each segment of their contour. */
  predicate PitchOkFor(t: PitchTabs, subfr: seq<nat>, pp: PitchParams)
    requires PitchTabsOk(t)
  {
    PitchParamsOk(t, subfr, pp) && SegmentConstant(Shape(t, pp), pp.laginds)
  }

  predicate FrameOk(t: FrameTabs, fp: FrameParams)
    requires TabsOk(t)
  {
    |fp.internal| == INTERNAL_FRAMES && AllOk(t, fp.internal)
  }

  predicate AllOk(t: FrameTabs, ips: seq<InternalParams>)
    requires TabsOk(t)
  {
    AllSized(ips) && forall f :: 0 <= f < |ips| ==> InternalOk(t, ips[f])
  }

  predicate AllSized(ips: seq<InternalParams>) { forall f :: 0 <= f < |ips| ==> Sized(ips[f]) }

  // ----- predictors through an internal frame -----

  predicate EncOk(st: Predictor) { PrevOk(EncPrev(st)) }

  predicate DecOk(st: Predictor) { PrevOk(DecPrev(st)) }

  function SetEnc(st: Predictor, p: PitchPrev): Predictor {
    st.(prevGainIdx := p.gain, prevFiltIdx := p.filt, prevLagblk := p.blk, prevLagidx := p.idx)
  }

  function SetDec(st: Predictor, p: PitchPrev): Predictor {
    st.(prevGainIdx := p.gain, prevFiltIdx := p.filt, prevLag := p.blk, prevFracLag := p.idx)
  }

  lemma TurnOk(st: Predictor, intf: nat, stage1: int)
    ensures intf == 0 || EncOk(st) ==> EncOk(EncPredictor(st, intf, stage1))
    ensures intf == 0 || DecOk(st) ==> DecOk(DecPredictor(st, intf, stage1))
  {}

  /** The reset makes the two sides agree; without one they agree if they did before. */
  lemma TurnLinks(e: Predictor, c: Predictor, intf: nat, stage1: int)
    requires intf == 0 || Linked(e, c)
    ensures Linked(EncPredictor(e, intf, stage1), DecPredictor(c, intf, stage1))
    ensures EncPrev(EncPredictor(e, intf, stage1)) == DecPrev(DecPredictor(c, intf, stage1))
  {}

  lemma {:induction false} PrevAfterOk(t: PitchTabs, subfr: seq<nat>, pp: PitchParams, p: PitchPrev)
    requires PitchTabsOk(t) && PitchOkFor(t, subfr, pp) && PrevOk(p)
    ensures PrevOk(PrevAfter(t, subfr, pp, p))
  {
    LtpBlock.BeforeInRange(subfr, pp.gainIdx, pp.filtIdx, p.gain, p.filt, 4);
    var bs := Shape(t, pp);
    LastSlot(bs, pp.laginds);
    assert InBlock(SegLags(bs, pp.laginds)[|bs.blocks| - 1], bs.blocks[|bs.blocks| - 1]);
  }

  /** The encoder's predictor after internal frame intf. */
  function EncNext(t: FrameTabs, st: Predictor, intf: nat, ip: InternalParams): (r: Predictor)
    requires TabsOk(t) && InternalOk(t, ip) && (intf == 0 || EncOk(st))
    ensures EncOk(r)
  {
    TurnOk(st, intf, ip.lsf.stage1);
    var st1 := EncPredictor(st, intf, ip.lsf.stage1);
    if Voiced(ip) then
      PrevAfterOk(t.pitch, ip.pulses.subfr, ip.pitch, EncPrev(st1));
      SetEnc(st1, PrevAfter(t.pitch, ip.pulses.subfr, ip.pitch, EncPrev(st1)))
    else st1
  }

  // ----- the script -----

  function VoiceScript(t: FrameTabs, st1: Predictor, ip: InternalParams): (s: Script)
    requires TabsOk(t) && InternalOk(t, ip) && EncOk(st1)
    ensures Sound(s)
  {
    if Voiced(ip) then PitchScript(t.pitch, ip.pulses.subfr, ip.pitch, EncPrev(st1))
    else GainScript(t.gain, ip.pulses.subfr, ip.gains)
  }

  function InternalScript(t: FrameTabs, st: Predictor, intf: nat, ip: InternalParams): (s: Script)
    requires TabsOk(t) && InternalOk(t, ip) && (intf == 0 || EncOk(st))
    ensures Sound(s)
  {
    TurnOk(st, intf, ip.lsf.stage1);
    Then(Then(LsfScript(t.lsf, st, intf, ip.lsf), PulseScript(t.pulse, ip.pulses)),
         VoiceScript(t, EncPredictor(st, intf, ip.lsf.stage1), ip))
  }

  function Fresh(): Predictor { Predictor(0, false, false, 0, 0, 0, 0, 0, 0) }

  /** The encoder's predictor before internal frame k of a packet. */
  function EncAt(t: FrameTabs, ips: seq<InternalParams>, k: nat): (st: Predictor)
    requires TabsOk(t) && k <= |ips| && AllOk(t, ips)
    ensures k > 0 ==> EncOk(st)
  {
    if k == 0 then Fresh() else EncNext(t, EncAt(t, ips, k - 1), k - 1, ips[k - 1])
  }

  function FramesScript(t: FrameTabs, ips: seq<InternalParams>, k: nat): (s: Script)
    requires TabsOk(t) && k <= |ips| && AllOk(t, ips)
    ensures Sound(s)
  {
    if k == 0 then Nothing
    else Then(FramesScript(t, ips, k - 1), InternalScript(t, EncAt(t, ips, k - 1), k - 1, ips[k - 1]))
  }

  // ----- reading -----

  /** What a decoder reports for one internal frame. */
  datatype Decoded =
    | Voice(lsf: LsfParams, pulses: PulseParams, pitch: PitchParams)
    | Noise(lsf: LsfParams, pulses: PulseParams, gains: GainParams)

  /** The parameters as a decoder can know them: fields that are not sent read as their defaults. */
  function Seen(ip: InternalParams): Decoded
    requires Sized(ip)
  {
    if Voiced(ip) then Voice(ip.lsf, ip.pulses, Canonical(ip.pulses.subfr, ip.pitch))
    else Noise(ip.lsf, ip.pulses, ip.gains.(nrgRes := Reported(ip.pulses.subfr, ip.gains.nrgRes)))
  }

  function ReadVoice(t: FrameTabs, d: DecState, st1: Predictor, lsf: LsfParams,
                     pulses: PulseParams): (r: (Decoded, Predictor, DecState))
    requires TabsOk(t) && DecInv(d) && DecOk(st1) && |pulses.subfr| == 4
    ensures DecInv(r.2) && DecOk(r.1)
  {
    if lsf.stage1 == 1 then
      var p := ReadPitch(t.pitch, d, pulses.subfr, DecPrev(st1));
      PrevOfOk(t.pitch, d, pulses.subfr, DecPrev(st1));
      (Voice(lsf, pulses, Params(t.pitch, p.0)), SetDec(st1, PrevOf(t.pitch, p.0)), p.1)
    else
      var g := ReadGains(t.gain, d, pulses.subfr);
      (Noise(lsf, pulses, g.0), st1, g.1)
  }

  function ReadInternal(t: FrameTabs, d: DecState, st: Predictor, intf: nat): (r: (Decoded, Predictor, DecState))
    requires TabsOk(t) && DecInv(d) && (intf == 0 || DecOk(st))
    ensures DecInv(r.2) && DecOk(r.1)
  {
    var l := ReadLsf(t.lsf, d, st, intf);
    TurnOk(st, intf, l.0.stage1);
    var p := ReadPulses(t.pulse, l.1);
    ReadVoice(t, p.1, DecPredictor(st, intf, l.0.stage1), l.0, p.0)
  }

  function ReadFrames(t: FrameTabs, d: DecState, st: Predictor, k: nat): (r: (seq<Decoded>, Predictor, DecState))
    requires TabsOk(t) && DecInv(d)
    ensures DecInv(r.2) && |r.0| == k && (k > 0 ==> DecOk(r.1))
  {
    hide TabsOk, ReadInternal, DecInv, DecOk;
    if k == 0 then ([], st, d)
    else
      var front := ReadFrames(t, d, st, k - 1);
      var one := ReadInternal(t, front.2, front.1, k - 1);
      (front.0 + [one.0], one.1, one.2)
  }

  // ----- lockstep -----

  lemma VoiceBack(t: FrameTabs, d: DecState, e: Predictor, c: Predictor, ip: InternalParams)
    requires TabsOk(t) && DecInv(d) && InternalOk(t, ip) && EncOk(e) && DecOk(c) && EncPrev(e) == DecPrev(c)
    requires Holds(d, VoiceScript(t, e, ip))
    ensures var r := ReadVoice(t, d, c, ip.lsf, ip.pulses);
      && r.0 == Seen(ip) && r.2 == Past(d, VoiceScript(t, e, ip))
      && r.1 == if Voiced(ip) then SetDec(c, PrevAfter(t.pitch, ip.pulses.subfr, ip.pitch, EncPrev(e))) else c
  {
    hide LsfOk, PulseOk, GainOk, PitchTabsOk, PitchParamsOk, SegmentConstant, ReadPitch, ReadGains, PitchScript,
      GainScript, Canonical, Reported, Shape, PrevAfter, PulseParamsOk, LsfIndexable, PrevOk, Holds, Past, Params,
      PrevOf;
    if Voiced(ip) {
      PitchRoundTrip(t.pitch, d, ip.pulses.subfr, ip.pitch, EncPrev(e));
      ReadPitchBack(t.pitch, d, ip.pulses.subfr, ip.pitch, EncPrev(e));
    } else {
      ReadGainsBack(t.gain, d, ip.pulses.subfr, ip.gains);
    }
  }

  /** One internal frame: the decoder reads what was sent, and the predictors stay linked. */
  lemma InternalBack(t: FrameTabs, d: DecState, e: Predictor, c: Predictor, intf: nat, ip: InternalParams)
    requires TabsOk(t) && DecInv(d) && InternalOk(t, ip) && (intf == 0 || (EncOk(e) && DecOk(c) && Linked(e, c)))
    requires Holds(d, InternalScript(t, e, intf, ip))
    ensures var r := ReadInternal(t, d, c, intf);
      r.0 == Seen(ip) && r.2 == Past(d, InternalScript(t, e, intf, ip)) && Linked(EncNext(t, e, intf, ip), r.1)
  {
    hide LsfOk, PulseOk, GainOk, PitchTabsOk, PitchOkFor, ReadLsf, ReadPulses, ReadVoice, LsfScript, PulseScript,
      VoiceScript, Seen, PrevAfter, PulseParamsOk, PrevOk, Holds, Past;
    var stage1 := ip.lsf.stage1;
    TurnOk(e, intf, stage1);
    TurnOk(c, intf, stage1);
    TurnLinks(e, c, intf, stage1);
    var e1, c1 := EncPredictor(e, intf, stage1), DecPredictor(c, intf, stage1);
    var s0, s1, s2 := LsfScript(t.lsf, e, intf, ip.lsf), PulseScript(t.pulse, ip.pulses), VoiceScript(t, e1, ip);
    HoldsThen(d, Then(s0, s1), s2);
    HoldsThen(d, s0, s1);
    LsfScriptDependsOnStage1(t.lsf, e, c, intf, ip.lsf);
    ReadLsfBack(t.lsf, d, c, intf, ip.lsf);
    ReadPulsesBack(t.pulse, Past(d, s0), ip.pulses);
    VoiceBack(t, Past(Past(d, s0), s1), e1, c1, ip);
  }

  function AllSeen(ips: seq<InternalParams>): (s: seq<Decoded>)
    requires AllSized(ips)
    ensures |s| == |ips| && forall f :: 0 <= f < |ips| ==> s[f] == Seen(ips[f])
  {
    seq(|ips|, f requires 0 <= f < |ips| => Seen(ips[f]))
  }

  lemma SeenSnoc(ips: seq<InternalParams>, k: nat)
    requires AllSized(ips) && 0 < k <= |ips|
    ensures AllSeen(ips[..k]) == AllSeen(ips[..k - 1]) + [Seen(ips[k - 1])]
  {
    hide Sized, Seen;
  }

  /** Decoding k frames gives back their parameters, raises no error, and ends with linked predictors. */
  predicate ReadBack(t: FrameTabs, ips: seq<InternalParams>, k: nat, d: DecState, c: Predictor)
    requires TabsOk(t) && AllOk(t, ips) && DecInv(d) && k <= |ips|
  {
    var r := ReadFrames(t, d, c, k);
    r.0 == AllSeen(ips[..k]) && r.2.err == d.err && (k > 0 ==> Linked(EncAt(t, ips, k), r.1))
  }

  /** Lockstep over a packet, whatever predictor the decoder starts from. */
  lemma {:induction false} FramesBack(t: FrameTabs, d: DecState, c: Predictor, ips: seq<InternalParams>, k: nat)
    requires TabsOk(t) && DecInv(d) && k <= |ips| && AllOk(t, ips)
    requires Holds(d, FramesScript(t, ips, k))
    ensures ReadBack(t, ips, k, d, c) && ReadFrames(t, d, c, k).2 == Past(d, FramesScript(t, ips, k))
  {
    hide TabsOk, ReadInternal, InternalScript, EncNext, Seen, EncOk, DecOk, Holds, Linked, AllSeen;
    if k == 0 {
      HoldsNothing(d);
    } else {
      var s0, s1 := FramesScript(t, ips, k - 1), InternalScript(t, EncAt(t, ips, k - 1), k - 1, ips[k - 1]);
      HoldsThen(d, s0, s1);
      FramesBack(t, d, c, ips, k - 1);
      var front := ReadFrames(t, d, c, k - 1);
      InternalBack(t, front.2, EncAt(t, ips, k - 1), front.1, k - 1, ips[k - 1]);
      hide InternalOk, Sized;
      SeenSnoc(ips, k);
    }
  }

  // ----- a packet -----

  /** The finished encoder for a packet's parameters. */
  function Body(t: FrameTabs, fp: FrameParams): EncState
    requires TabsOk(t) && FrameOk(t, fp)
  {
    SoundFlatten(FramesScript(t, fp.internal, |fp.internal|));
    Encoded(BODY_CAP, Flatten(FramesScript(t, fp.internal, |fp.internal|)))
  }

  lemma {:induction false} HoldsFront(t: FrameTabs, d: DecState, ips: seq<InternalParams>, k: nat, n: nat)
    requires TabsOk(t) && DecInv(d) && k <= n <= |ips| && AllOk(t, ips) && Holds(d, FramesScript(t, ips, n))
    ensures Holds(d, FramesScript(t, ips, k))
  {
    hide TabsOk, InternalScript, InternalOk, EncOk;
    if k < n {
      HoldsThen(d, FramesScript(t, ips, n - 1), InternalScript(t, EncAt(t, ips, n - 1), n - 1, ips[n - 1]));
      HoldsFront(t, d, ips, k, n - 1);
    }
  }

  /** A decoder at the start of a finished packet, whatever follows, faces its script. */
  lemma PacketHolds(t: FrameTabs, fp: FrameParams, tail: seq<byte>)
    requires TabsOk(t) && FrameOk(t, fp) && Body(t, fp).err == 0
    ensures var d := DecStart(Body(t, fp).out + tail);
      DecInv(d) && Holds(d, FramesScript(t, fp.internal, |fp.internal|))
  {
    var s := FramesScript(t, fp.internal, |fp.internal|);
    var d := DecStart(Body(t, fp).out + tail);
    SoundFlatten(s);
    RangeCoderRoundTrip(BODY_CAP, Flatten(s), tail);
    HoldsIsReady(d, s);
    DecStartSynced(d.buf);
  }

  /**
   Every packet that fits its buffer is read back, from any bytes after it and any predictor left by earlier packets:
   the same indices in all internal frames, and linked predictors after every one of them.
   */
  lemma FrameRoundTrip(t: FrameTabs, fp: FrameParams, tail: seq<byte>, c: Predictor)
    requires TabsOk(t) && FrameOk(t, fp) && Body(t, fp).err == 0
    ensures DecInv(DecStart(Body(t, fp).out + tail))
    ensures forall k: nat :: k <= |fp.internal| ==> ReadBack(t, fp.internal, k, DecStart(Body(t, fp).out + tail), c)
  {
    var d := DecStart(Body(t, fp).out + tail);
    PacketHolds(t, fp, tail);
    hide TabsOk, FramesScript, DecInv, DecStart, Encoded, ReadBack, InternalOk, Sized, Holds;
    forall k: nat | k <= |fp.internal| ensures ReadBack(t, fp.internal, k, d, c) {
      HoldsFront(t, d, fp.internal, k, |fp.internal|);
      FramesBack(t, d, c, fp.internal, k);
    }
  }

  /** Every internal frame carries the parameters built from its vector. */
  predicate Carries(fp: FrameParams, vs: seq<seq<int>>) {
    |vs| == |fp.internal| && forall k :: 0 <= k < |vs| ==> VectorOk(vs[k]) && fp.internal[k].pulses == Build(vs[k])
  }

  /**
   Vectors to packet bytes to vectors: every signed 320-vector with at most 40 pulses a subframe, in every internal
   frame.
   */
  lemma PacketVectorsBack(t: FrameTabs, fp: FrameParams, vs: seq<seq<int>>, tail: seq<byte>, c: Predictor, k: nat)
    requires TabsOk(t) && FrameOk(t, fp) && Body(t, fp).err == 0 && Carries(fp, vs) && k < |vs|
    ensures DecInv(DecStart(Body(t, fp).out + tail))
    ensures var r := ReadFrames(t, DecStart(Body(t, fp).out + tail), c, |vs|).0[k];
      PulseParamsOk(r.pulses) && Assemble(r.pulses) == vs[k]
  {
    var d := DecStart(Body(t, fp).out + tail);
    hide TabsOk, InternalOk, Body, VectorOk, PulseParamsOk, ReadBack, DecStart, DecInv, Assemble, Build, ReadFrames;
    FrameRoundTrip(t, fp, tail, c);
    assert ReadBack(t, fp.internal, |fp.internal|, d, c);
    PulsesBack(t, fp.internal, d, c, k);
    AssembleOfBuild(vs[k]);
  }

  lemma PulsesBack(t: FrameTabs, ips: seq<InternalParams>, d: DecState, c: Predictor, k: nat)
    requires TabsOk(t) && AllOk(t, ips) && DecInv(d) && k < |ips| && ReadBack(t, ips, |ips|, d, c)
    ensures ReadFrames(t, d, c, |ips|).0[k].pulses == ips[k].pulses
  {
    hide TabsOk, InternalOk, ReadFrames, DecInv, Linked, EncAt;
    assert ips[..|ips|] == ips;
  }

  /** The decoded packet does not depend on the predictor the decoder starts from. */
  lemma {:induction false} FreshPacket(t: FrameTabs, d: DecState, a: Predictor, b: Predictor, k: nat)
    requires TabsOk(t) && DecInv(d)
    ensures ReadFrames(t, d, a, k).0 == ReadFrames(t, d, b, k).0 && ReadFrames(t, d, a, k).2 == ReadFrames(t, d, b, k).2
    ensures k > 0 ==> SameReset(ReadFrames(t, d, a, k).1, ReadFrames(t, d, b, k).1)
  {
    hide TabsOk, ReadInternal;
    if k > 0 {
      FreshPacket(t, d, a, b, k - 1);
      var fa, fb := ReadFrames(t, d, a, k - 1), ReadFrames(t, d, b, k - 1);
      SameInternal(t, fa.2, fa.1, fb.1, k - 1);
    }
  }

  /** Predictors equal in every field the decoder uses. */
  predicate SameReset(a: Predictor, b: Predictor) { a.prevStage1 == b.prevStage1 && DecPrev(a) == DecPrev(b) }

  lemma SameInternal(t: FrameTabs, d: DecState, a: Predictor, b: Predictor, intf: nat)
    requires TabsOk(t) && DecInv(d) && (intf == 0 || (DecOk(a) && DecOk(b) && SameReset(a, b)))
    ensures var x, y := ReadInternal(t, d, a, intf), ReadInternal(t, d, b, intf);
      x.0 == y.0 && x.2 == y.2 && SameReset(x.1, y.1)
  {
    SameLsf(t.lsf, d, a, b, intf);
    var l := ReadLsf(t.lsf, d, a, intf).0;
    assert SameReset(DecPredictor(a, intf, l.stage1), DecPredictor(b, intf, l.stage1));
    hide TabsOk, ReadLsf, ReadPulses, ReadVoice, PrevOk, DecPredictor, SameReset;
    TurnOk(a, intf, l.stage1);
    TurnOk(b, intf, l.stage1);
    var p := ReadPulses(t.pulse, ReadLsf(t.lsf, d, a, intf).1);
    SameVoice(t, p.1, DecPredictor(a, intf, l.stage1), DecPredictor(b, intf, l.stage1), l, p.0);
  }

  lemma SameLsf(t: LsfTables, d: DecState, a: Predictor, b: Predictor, intf: nat)
    requires LsfOk(t) && DecInv(d) && (intf == 0 || a.prevStage1 == b.prevStage1)
    ensures ReadLsf(t, d, a, intf) == ReadLsf(t, d, b, intf)
  {
    hide LsfOk, ReadCdf, GridCdf, Stage2Row, ExtraRow, ReadMany;
    assert SelRow(t, a, intf) == SelRow(t, b, intf);
  }

  lemma SameVoice(t: FrameTabs, d: DecState, a: Predictor, b: Predictor, lsf: LsfParams, pulses: PulseParams)
    requires TabsOk(t) && DecInv(d) && DecOk(a) && DecOk(b) && SameReset(a, b) && |pulses.subfr| == 4
    ensures var x, y := ReadVoice(t, d, a, lsf, pulses), ReadVoice(t, d, b, lsf, pulses);
      x.0 == y.0 && x.2 == y.2 && SameReset(x.1, y.1)
  {
    hide LsfOk, PulseOk, GainOk, PitchTabsOk, ReadPitch, ReadGains, PrevOk, Params, PrevOf;
  }
}
