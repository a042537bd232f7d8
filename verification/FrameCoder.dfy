/** The packet encoder and the parameter part of the packet decoder. */
module FrameCoder {
  import opened Bytes
  import opened RangeSpec
  import opened Symbols
  import opened RangeCoder
  import opened LsfBlock
  import opened PulseCount
  import opened PulseBlock
  import opened PulseFrame
  import opened PulseCoder
  import opened GainBlock
  import opened PitchHeap
  import opened PitchBlock
  import opened FrameCodec

  /** The rate bit of a packet's header byte: this model is of 0, the only one the encoder writes. */
  function Config(header: byte): int { header as int / 4 % 2 }

  datatype Packet = Packed(bytes: seq<byte>) | Overflow

  method EncodeInternal(enc: RangeEncoder, t: FrameTabs, st: SmplLsfState, intf: nat, ip: InternalParams)
    requires enc.Valid() && TabsOk(t) && InternalOk(t, ip) && (intf == 0 || EncOk(st.Get()))
    modifies enc, enc.buf, st
    ensures enc.Valid() && enc.sent == Sent(old(enc.sent), InternalScript(t, old(st.Get()), intf, ip))
    ensures st.Get() == EncNext(t, old(st.Get()), intf, ip)
  {
    hide RangeEncoder.Valid, LsfOk, PulseOk, GainOk, PitchTabsOk, PitchParamsOk, PulseParamsOk, LsfIndexable, Sent,
      LsfScript, PulseScript, PitchScript, GainScript, PrevOk, PrevAfter;
    ghost var before, e := enc.sent, st.Get();
    TurnOk(e, intf, ip.lsf.stage1);
    ghost var e1 := EncPredictor(e, intf, ip.lsf.stage1);
    ghost var s0, s1 := LsfScript(t.lsf, e, intf, ip.lsf), PulseScript(t.pulse, ip.pulses);
    SentThen(before, s0, s1);
    SentThen(before, Then(s0, s1), VoiceScript(t, e1, ip));
    EncodeSmplLsf(enc, t.lsf, st, intf, ip.lsf);
    Stage1Range(ip.lsf);
    EncodeSmplPulses(enc, t.pulse, ip.lsf.stage1, ip.pulses);
    if ip.lsf.stage1 == 1 {
      EncodeSmplPitch(enc, t.pitch, st, ip.pulses.subfr, ip.pitch);
    } else {
      EncodeSmplGains(enc, t.gain, ip.pulses.subfr, ip.gains);
    }
  }

  lemma Stage1Range(lsf: LsfParams)
    requires LsfIndexable(lsf)
    ensures 0 <= lsf.stage1 < 2
  {}

  /** EncodeSmplFrame: header byte and body, or a failure when the body overflows the buffer or a symbol is refused. */
  method EncodeSmplFrame(t: FrameTabs, fp: FrameParams) returns (r: Packet)
    requires TabsOk(t) && FrameOk(t, fp) && Config(fp.toc) == 0
    ensures r == if Body(t, fp).err == 0 then Packed([fp.toc] + Body(t, fp).out) else Overflow
  {
    hide TabsOk, InternalOk, InternalScript, EncNext, EncOk;
    var enc := new RangeEncoder(BODY_CAP);
    var st := new SmplLsfState();
    SentNothing([]);
    for f := 0 to 3
      invariant enc.Valid() && enc.buf.Length == BODY_CAP && fresh(enc) && fresh(enc.buf) && fresh(st)
      invariant enc.sent == Sent([], FramesScript(t, fp.internal, f)) && st.Get() == EncAt(t, fp.internal, f)
    {
      SentThen([], FramesScript(t, fp.internal, f), InternalScript(t, EncAt(t, fp.internal, f), f, fp.internal[f]));
      EncodeInternal(enc, t, st, f, fp.internal[f]);
    }
    ghost var e := enc.State();
    SentIs(FramesScript(t, fp.internal, |fp.internal|));
    assert e == EncAll(EncStart(BODY_CAP), Flatten(FramesScript(t, fp.internal, |fp.internal|)));
    hide RangeEncoder.Valid;
    enc.Done();
    assert enc.State() == Body(t, fp);
    if enc.err != 0 {
      return Overflow;
    }
    var n := enc.offs;
    r := Packed([fp.toc] + enc.buf[..n]);
  }

  lemma SentIs(s: Script)
    ensures Sent([], s) == Flatten(s)
  {}

  lemma FourCounts(pp: PulseParams)
    requires PulseParamsOk(pp)
    ensures |pp.subfr| == 4
  {}

  method DecodeInternal(dec: RangeDecoder, mem: SmplMem, t: FrameTabs, st: SmplLsfState, intf: nat)
    returns (r: Decoded, pulses: array<int>)
    requires dec.Valid() && TabsOk(t) && mem.regions == Image(t.pitch.lag) && (intf == 0 || DecOk(st.Get()))
    modifies dec, st
    ensures dec.Valid() && fresh(pulses)
    ensures (r, st.Get(), dec.State()) == ReadInternal(t, old(dec.State()), old(st.Get()), intf)
    ensures PulseParamsOk(r.pulses) && pulses[..] == Assemble(r.pulses)
  {
    hide RangeDecoder.Valid, LsfOk, PulseOk, GainOk, PitchTabsOk, PulseParamsOk, LsfIndexable, PrevOk, ReadLsf,
      ReadPulses, ReadGains, ReadPitch, Assemble, Params, PrevOf, Image;
    ghost var c := st.Get();
    var lsf := DecodeSmplLsf(dec, t.lsf, st, intf);
    TurnOk(c, intf, lsf.stage1);
    Stage1Range(lsf);
    var pp;
    pp, pulses := DecodeSmplPulses(dec, t.pulse, lsf.stage1);
    FourCounts(pp);
    if lsf.stage1 == 1 {
      var gainIdx, filtIdx, contour, blockLags := DecodeSmplPitch(dec, mem, t.pitch, st, pp.subfr);
      r := Voice(lsf, pp, PitchParams(gainIdx, filtIdx, contour, blockLags[..]));
    } else {
      var gp, _ := DecodeSmplGains(dec, t.gain, pp.subfr);
      r := Noise(lsf, pp, gp);
    }
  }

  /**
   The parameter part of decodeActiveFrame: three internal frames from the bytes after the header, with their pulse
   vectors.
   */
  method DecodeActiveFrame(frame: seq<byte>, mem: SmplMem, t: FrameTabs, st: SmplLsfState)
    returns (rs: seq<Decoded>, vs: seq<seq<int>>)
    requires frame != [] && Config(frame[0]) == 0 && TabsOk(t) && mem.regions == Image(t.pitch.lag)
    modifies st
    ensures DecInv(DecStart(frame[1..]))
    ensures var r := ReadFrames(t, DecStart(frame[1..]), old(st.Get()), 3); rs == r.0 && st.Get() == r.1
    ensures AllAssembled(rs, vs)
  {
    hide TabsOk, ReadInternal, Image, DecOk, PulseParamsOk, Assemble;
    var dec := new RangeDecoder(frame[1..]);
    ghost var d := dec.State();
    rs, vs := [], [];
    for f := 0 to 3
      invariant dec.Valid() && fresh(dec) && (rs, st.Get(), dec.State()) == ReadFrames(t, d, old(st.Get()), f)
      invariant AllAssembled(rs, vs)
    {
      var r, pulses := DecodeInternal(dec, mem, t, st, f);
      rs, vs := rs + [r], vs + [pulses[..]];
    }
  }

  /** The vectors the frames' pulse parameters stand for. */
  predicate AllAssembled(rs: seq<Decoded>, vs: seq<seq<int>>) {
    |rs| == |vs| && forall k :: 0 <= k < |rs| ==> PulseParamsOk(rs[k].pulses) && vs[k] == Assemble(rs[k].pulses)
  }
}
