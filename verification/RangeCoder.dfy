/** The range encoder and decoder objects: fields updated in place, proved against RangeSpec. */
module RangeCoder {
  import opened Bytes
  import opened RangeSpec
  import opened RangeProof
  import opened Symbols

  type u32 = x: int | 0 <= x < 0x1_0000_0000

  class RangeEncoder {
    const buf: array<byte>
    var offs: nat
    var rng: u32
    var val: u32
    var ext: nat
    var rem: int
    var err: int
    ghost var sent: seq<Op>

    ghost function State(): EncState
      reads this, buf
      requires offs <= buf.Length
    {
      EncState(buf[..offs], buf.Length, rng, val, ext, rem, err)
    }

    /** The fields are exactly what the operations sent so far produce, and no 32-bit step wrapped. */
    ghost predicate Valid()
      reads this, buf
    {
      && offs <= buf.Length
      && ValidOps(sent)
      && State() == EncAll(EncStart(buf.Length), sent)
      && EncInv(State())
    }

    constructor (size: nat)
      ensures Valid() && sent == [] && buf.Length == size && fresh(buf)
    {
      buf := new byte[size](_ => 0);
      offs, rng, val, ext, rem, err := 0, CODE_TOP, 0, 0, -1, 0;
      sent := [];
      new;
      assert buf[..0] == [];
    }

    method WriteByte(b: byte)
      requires offs <= buf.Length
      modifies this`offs, this`err, buf
      ensures offs <= buf.Length && State() == RangeSpec.WriteByte(old(State()), b)
    {
      if offs < buf.Length {
        buf[offs] := b;
        offs := offs + 1;
        assert buf[..offs] == old(buf[..offs]) + [b];
      } else {
        err := -1;
      }
    }

    /** The pending run, all at once. */
    method WritePending(sym: byte)
      requires offs <= buf.Length
      modifies this`offs, this`err, this`ext, buf
      ensures offs <= buf.Length && State() == WriteRun(old(State()), sym, old(ext)).(ext := 0)
    {
      ghost var e := State();
      WriteRunFrame(e, sym, e.ext);
      hide RangeSpec.WriteByte;
      while ext > 0
        invariant offs <= buf.Length && State() == e.(out := State().out, err := err, ext := ext)
        invariant WriteRun(State().(ext := 0), sym, ext) == WriteRun(e.(ext := 0), sym, e.ext)
      {
        WriteByte(sym);
        ext := ext - 1;
      }
    }

    method CarryOut(c: nat)
      requires offs <= buf.Length && c < 512 && -1 <= rem <= 255
      modifies this`offs, this`err, this`ext, this`rem, buf
      ensures offs <= buf.Length && State() == RangeSpec.CarryOut(old(State()), c)
    {
      if c != SYM_MAX {
        var carry := c / 256;
        if rem >= 0 {
          WriteByte((rem + carry) % 256);
        }
        ghost var e1 := State();
        if ext > 0 {
          WritePending((SYM_MAX + carry) % 256);
        }
        NoRun(e1, (SYM_MAX + carry) % 256);
        rem := c % 256;
      } else {
        ext := ext + 1;
      }
    }

    method Normalize()
      requires offs <= buf.Length && 0 < rng <= CODE_TOP && val + rng < 2 * CODE_TOP && Held(State())
      modifies this`offs, this`err, this`ext, this`rem, this`rng, this`val, buf
      ensures offs <= buf.Length && State() == EncNormalize(old(State()))
    {
      while rng <= CODE_BOT
        invariant offs <= buf.Length && 0 < rng <= CODE_TOP && val + rng < 2 * CODE_TOP && Held(State())
        invariant EncNormalize(State()) == EncNormalize(old(State()))
        decreases CODE_TOP - rng
      {
        ghost var e := State();
        ShiftKeepsHeld(e);
        CarryOut(val / SHIFT);
        val := val * 256 % CODE_TOP; // the mask also absorbs the 32-bit wrap of the shift
        rng := rng * 256;
        assert State() == Shifted(e);
      }
    }

    /** A zero total is refused; any other call must name a real sub-interval. */
    method Encode(fl: nat, fh: nat, ft: nat)
      requires Valid() && (ft == 0 || fl < fh <= ft <= CODE_BOT)
      modifies this, buf
      ensures Valid() && sent == old(sent) + [if ft == 0 then Reject else Range(fl, fh, ft)]
    {
      hide EncAll, EncNormalize, Width, Offset;
      ghost var op := if ft == 0 then Reject else Range(fl, fh, ft);
      ghost var e := State();
      EncStepInv(e, op);
      AllSnoc(EncStart(buf.Length), sent, op);
      if ft == 0 {
        err := -1;
      } else {
        Narrow(fl, fh, ft);
        Normalize();
      }
      sent := sent + [op];
      assert State() == EncStep(e, op);
    }

    /** The interval arithmetic of Encode. */
    method Narrow(fl: nat, fh: nat, ft: nat)
      requires offs <= buf.Length && EncInv(State()) && fl < fh <= ft <= CODE_BOT
      modifies this`rng, this`val
      ensures val == old(val) + Offset(old(rng), Range(fl, fh, ft)) && rng == Width(old(rng), Range(fl, fh, ft))
      ensures 0 < rng <= CODE_TOP && val + rng <= old(val + rng)
    {
      ghost var w := rng;
      NarrowParts(rng, fl, fh, ft);
      var r := rng / ft;
      if fl > 0 {
        val := val + (rng - r * (ft - fl));
        rng := r * (fh - fl);
      } else {
        rng := rng - r * (ft - fh);
      }
    }

    method BitLogp(one: bool, logp: nat)
      requires Valid() && 1 <= logp <= 23
      modifies this, buf
      ensures Valid() && sent == old(sent) + [Bit(one, logp)]
    {
      hide EncAll, EncNormalize;
      ghost var op := Bit(one, logp);
      ghost var e := State();
      EncStepInv(e, op);
      AllSnoc(EncStart(buf.Length), sent, op);
      WidthBounds(rng, op);
      var r, l := rng, val;
      var s := r / Pow2(logp);
      var r2 := r - s;
      if one {
        val := l + r2;
        rng := s;
      } else {
        rng := r2;
      }
      Normalize();
      sent := sent + [op];
      assert State() == EncStep(e, op);
    }

    method EncodeCDF(s: int, cdf: Cdf)
      requires Valid() && Usable(cdf)
      modifies this, buf
      ensures Valid() && sent == old(sent) + [CdfOp(s, cdf)]
    {
      var n := |cdf|;
      if n < 2 || s < 0 || s + 1 >= n {
        Encode(0, 0, 0);
        return;
      }
      var base := cdf[0];
      if cdf[n - 1] <= base {
        Encode(0, 0, 0);
        return;
      }
      Encode(cdf[s] - base, cdf[s + 1] - base, cdf[n - 1] - base);
    }

    method EncodeRawSymbol(sym: nat, nbits: nat)
      requires Valid() && 1 <= nbits <= 23 && sym < Pow2(nbits)
      modifies this, buf
      ensures Valid() && sent == old(sent) + [RawOp(sym, nbits)]
    {
      Pow2Bound(nbits);
      Encode(sym, sym + 1, Pow2(nbits));
    }

    /** The top bytes of end, until l bits are out. */
    method FlushOut(end0: nat, l0: int)
      requires offs <= buf.Length && -1 <= rem <= 255 && end0 < 2 * CODE_TOP
      modifies this`offs, this`err, this`ext, this`rem, buf
      ensures offs <= buf.Length && -1 <= rem <= 255 && State() == FlushBytes(old(State()), end0, l0)
    {
      hide RangeSpec.CarryOut;
      var end, l := end0, l0;
      while l > 0
        invariant offs <= buf.Length && -1 <= rem <= 255 && 0 <= end < 2 * CODE_TOP
        invariant FlushBytes(State(), end, l) == FlushBytes(old(State()), end0, l0)
      {
        CarryOut(end / SHIFT);
        end := end * 256 % CODE_TOP;
        l := l - 8;
      }
    }

    /** Flush; on success the rest of the buffer is zero-filled. */
    method Done()
      requires Valid()
      modifies this, buf
      ensures offs <= buf.Length && State() == EncDone(old(State()))
      ensures err == 0 ==> forall i :: offs <= i < buf.Length ==> buf[i] == 0
    {
      ghost var e := State();
      PlanFits(val, rng);
      IlogRange(rng);
      var l := 32 - Ilog(rng);
      var unit := Pow2(31 - l); // msk + 1
      var end := RoundUp(val, unit);
      assert val + rng < 2 * CODE_TOP; // no wrap in the comparison
      if end + unit - 1 >= val + rng {
        l := l + 1;
        unit := Pow2(31 - l);
        end := RoundUp(val, unit);
      }
      assert (end, l) == FlushPlan(e.val, e.rng);
      PlanBounds(e, end, l);
      FlushOut(end, l);
      if rem >= 0 || ext > 0 {
        CarryOut(0);
      }
      if err == 0 {
        ZeroTail();
      }
    }

    method ZeroTail()
      requires offs <= buf.Length
      modifies buf
      ensures State() == old(State()) && forall i :: offs <= i < buf.Length ==> buf[i] == 0
    {
      var i := offs;
      while i < buf.Length
        invariant offs <= i <= buf.Length && buf[..offs] == old(buf[..offs])
        invariant forall j :: offs <= j < i ==> buf[j] == 0
      {
        buf[i] := 0;
        i := i + 1;
      }
    }
  }

  lemma NarrowParts(rng: nat, fl: nat, fh: nat, ft: nat)
    requires CODE_BOT < rng && fl < fh <= ft <= CODE_BOT
    ensures var r, op := rng / ft, Range(fl, fh, ft);
      && (fl > 0 ==> 0 <= r * (ft - fl) <= rng && Offset(rng, op) == rng - r * (ft - fl))
      && (fl > 0 ==> Width(rng, op) == r * (fh - fl))
      && (fl == 0 ==> 0 <= r * (ft - fh) && Offset(rng, op) == 0 && Width(rng, op) == rng - r * (ft - fh))
      && 1 <= Width(rng, op) && Offset(rng, op) + Width(rng, op) <= rng
  {
    WidthBounds(rng, Range(fl, fh, ft));
  }

  lemma NoRun(e: EncState, b: byte)
    ensures WriteRun(e, b, 0) == e
  {}

  lemma {:induction false} WriteRunFrame(e: EncState, b: byte, n: nat)
    ensures WriteRun(e.(ext := 0), b, n) == WriteRun(e, b, n).(ext := 0)
    decreases n
  {
    if n > 0 { WriteRunFrame(RangeSpec.WriteByte(e, b), b, n - 1); }
  }

  lemma AllSnoc(e: EncState, ops: seq<Op>, op: Op)
    requires CODE_BOT < e.rng <= CODE_TOP && ValidOps(ops) && ValidOp(op)
    ensures ValidOps(ops + [op]) && EncAll(e, ops + [op]) == EncStep(EncAll(e, ops), op)
  {
    assert (ops + [op])[..|ops|] == ops;
  }

  class RangeDecoder {
    const buf: seq<byte>
    var offs: nat
    var rng: u32
    var val: u32
    var ext: u32
    var rem: byte
    var err: int

    function State(): DecState
      reads this
    {
      DecState(buf, offs, rng, val, ext, rem, err)
    }

    ghost predicate Valid()
      reads this
    {
      DecInv(State())
    }

    constructor (buf: seq<byte>)
      ensures this.buf == buf && State() == DecStart(buf) && Valid() && err == 0
    {
      this.buf := buf;
      offs, ext, err, rng := 0, 0, 0, 128;
      rem, val := 0, 0;
      new;
      var b := NextByte();
      rem := b;
      val := rng - 1 - rem / 2;
      DecStartSynced(buf);
      Normalize();
    }

    method NextByte() returns (b: byte)
      modifies this`offs
      ensures State().(rem := b) == ReadByte(old(State()))
    {
      b := 0;
      if offs < |buf| {
        b := buf[offs];
        offs := offs + 1;
      }
    }

    method Normalize()
      requires 0 < rng <= CODE_TOP && val < rng
      modifies this
      ensures State() == DecNormalize(old(State())) && Valid()
    {
      while rng <= CODE_BOT
        invariant 0 < rng <= CODE_TOP && val < rng
        invariant DecNormalize(State()) == DecNormalize(old(State()))
        decreases CODE_TOP - rng
      {
        hide DecNormalize, Straddle;
        DecShiftStep(State());
        var sym0 := rem;
        var b := NextByte();
        var v := ShiftIn(val, rng, sym0, b);
        rng := rng * 256;
        rem := b;
        val := v;
      }
    }

    /** The shifted distance with the next eight input bits, complemented. */
    method ShiftIn(v: u32, width: u32, sym0: byte, b: byte) returns (r: u32)
      requires v < width <= CODE_BOT
      ensures r == v * 256 + (SYM_MAX - Straddle(sym0, b)) && r < width * 256
    {
      var sym := (sym0 * 256 + b) / 2;
      r := (v * 256 + (SYM_MAX - sym % 256)) % CODE_TOP;
    }

    method Decode(ft: nat) returns (fs: nat)
      requires Valid()
      modifies this`ext, this`err
      ensures State() == SetDivisor(old(State()), ft) && fs == Target(old(State()), ft)
    {
      if ft == 0 {
        err, ext := 1, 1;
        return 0;
      }
      ext := rng / ft;
      if ext == 0 {
        err, ext := 1, 1;
        return 0;
      }
      var s := val / ext;
      fs := ft - (if s + 1 < ft then s + 1 else ft);
    }

    method Update(fl: nat, fh: nat, ft: nat)
      requires CanUpdate(State(), fl, fh, ft)
      modifies this
      ensures State() == RangeSpec.Update(old(State()), fl, fh, ft) && Valid()
    {
      var s := ext * (ft - fh);
      val := val - s;
      if fl > 0 {
        rng := ext * (fh - fl);
      } else {
        rng := rng - s;
      }
      Normalize();
    }

    method BitLogp(logp: nat) returns (one: bool)
      requires Valid() && 1 <= logp <= 23
      modifies this
      ensures one == BitOf(old(State()), logp) && State() == SkipBit(old(State()), logp) && Valid()
    {
      WidthBounds(rng, Bit(true, logp));
      WidthBounds(rng, Bit(false, logp));
      var r, dv := rng, val;
      var s := r / Pow2(logp);
      one := dv < s;
      if !one {
        val, rng := dv - s, r - s;
      } else {
        rng := s;
      }
      Normalize();
    }

    /** An increasing table's symbol. */
    method DecodeWithin(cdf: Cdf) returns (sym: int)
      requires Valid() && Increasing(cdf)
      modifies this
      ensures Valid() && (sym, State()) == ReadCdf(old(State()), cdf)
    {
      hide RangeSpec.Update, AfterOp, SetDivisor, Target;
      var ft := cdf[|cdf| - 1] - cdf[0];
      ghost var d := State();
      TargetBelow(d, ft);
      var fs := Decode(ft);
      var k := SearchCdf(cdf, cdf[0] + fs);
      CutAfterTarget(d, CdfOp(k, cdf));
      Update(cdf[k] - cdf[0], cdf[k + 1] - cdf[0], ft);
      sym := k;
    }

    /** On any input an increasing table yields one of its symbols and no error. */
    method DecodeCDF(cdf: Cdf) returns (sym: int)
      requires Valid() && Usable(cdf)
      modifies this
      ensures Valid() && (sym, State()) == ReadCdf(old(State()), cdf)
    {
      var n := |cdf|;
      if n < 2 {
        err := 1;
        return 0;
      }
      var base := cdf[0];
      if cdf[n - 1] <= base {
        err := 1;
        return 0;
      }
      sym := DecodeWithin(cdf);
    }

    /** The first symbol whose upper bound exceeds target. */
    static method SearchCdf(cdf: Cdf, target: int) returns (k: nat)
      requires |cdf| >= 2 && target < cdf[|cdf| - 1]
      ensures k == Locate(cdf, target, 0)
    {
      k := 0;
      while k < |cdf| - 1
        invariant k < |cdf| - 1
        invariant Locate(cdf, target, k) == Locate(cdf, target, 0)
      {
        if cdf[k + 1] > target { break; }
        k := k + 1;
      }
    }

    method DecodeRawSymbol(nbits: nat) returns (sym: nat)
      requires Valid() && 1 <= nbits <= 23
      modifies this
      ensures Valid() && (sym, State()) == ReadRaw(old(State()), nbits)
    {
      ghost var d := State();
      Pow2Bound(nbits);
      TargetBelow(d, Pow2(nbits));
      ext := rng / Pow2(nbits);
      var s := val / ext;
      var ft := Pow2(nbits);
      sym := ft - (if s + 1 < ft then s + 1 else ft);
      CutAfterTarget(d, RawOp(sym, nbits));
      Update(sym, sym + 1, ft);
    }

    method Decode64FineSym() returns (sym: int)
      requires Valid()
      modifies this
      ensures Valid() && (sym, State()) == ReadFine(old(State()))
    {
      ghost var d := State();
      TargetBelow(d, 64);
      ext := rng / 64;
      var s := val / ext;
      sym := 63 - s;
      if sym < 0 {
        sym := 0;
      } else if sym > 64 {
        sym := 64;
      }
      CutAfterTarget(d, FineOp(sym));
      Update(sym, sym + 1, 64);
    }
  }

  /** A value decoded inside [fl, fh) makes the update legal, and the update is the read. */
  lemma CutAfterTarget(d: DecState, op: Op)
    requires DecInv(d) && op.Range? && Reads(d, op)
    ensures var s := SetDivisor(d, op.ft);
      && CanUpdate(s, op.fl, op.fh, op.ft) && RangeSpec.Update(s, op.fl, op.fh, op.ft) == AfterOp(d, op)
      && s.ext < 0x1_0000_0000 && s.err == d.err
  {
    AfterOpIsUpdate(d, op);
    Quotient(d.rng, op.ft);
  }
}
