/**
 The range coder round trip.

 Encoder and decoder are both related to the interval that the operations denote:
 the encoder's digits and low end spell its bottom, the decoder holds the distance
 of the input from its top. The flush picks a number that stays inside the final
 interval whatever bytes follow, so every earlier interval contains it too.
 */
module RangeProof {
  import opened Bytes
  import opened RangeSpec

  // ----- the encoder's digits spell the bottom of the interval -----

  function Pending(e: EncState): seq<byte>
    requires -1 <= e.rem <= 255
  {
    (if e.rem >= 0 then [e.rem] else []) + Repeat(255, e.ext)
  }

  function Digits(e: EncState): seq<byte>
    requires -1 <= e.rem <= 255
  {
    e.out + Pending(e)
  }

  function Meaning(e: EncState): Interval
    requires -1 <= e.rem <= 255
  {
    Interval(Value(Digits(e)) * CODE_TOP + e.val, e.rng, |Digits(e)|)
  }

  lemma {:induction false} WriteRunOut(e: EncState, b: byte, n: nat)
    ensures WriteRun(e, b, n).err == 0 ==> e.err == 0
    ensures WriteRun(e, b, n).err == 0 ==> WriteRun(e, b, n).out == e.out + Repeat(b, n)
    decreases n
  {
    if n > 0 {
      WriteRunOut(WriteByte(e, b), b, n - 1);
      assert [b] + Repeat(b, n - 1) == Repeat(b, n);
      assert e.out + [b] + Repeat(b, n - 1) == e.out + ([b] + Repeat(b, n - 1));
    } else {
      assert e.out + Repeat(b, 0) == e.out;
    }
  }

  /** Adding one to digits d 0xFF … 0xFF turns them into d+1 0 … 0. */
  lemma {:induction false} CarryValue(s: seq<byte>, d: byte, n: nat)
    requires d < 255
    ensures Value(s + [d] + Repeat(255, n)) + 1 == Value(s + [(d + 1) as byte] + Repeat(0, n))
  {
    if n == 0 {
      assert s + [d] + Repeat(255, 0) == s + [d];
      assert s + [(d + 1) as byte] + Repeat(0, 0) == s + [(d + 1) as byte];
      ValueSnoc(s, d);
      ValueSnoc(s, d + 1);
    } else {
      CarryValue(s, d, n - 1);
      SnocRepeat(s + [d], 255, n);
      SnocRepeat(s + [(d + 1) as byte], 0, n);
      ValueSnoc(s + [d] + Repeat(255, n - 1), 255);
      ValueSnoc(s + [(d + 1) as byte] + Repeat(0, n - 1), 0);
    }
  }

  lemma SnocRepeat(s: seq<byte>, b: byte, n: nat)
    requires n > 0
    ensures s + Repeat(b, n) == s + Repeat(b, n - 1) + [b]
  {
    assert Repeat(b, n) == Repeat(b, n - 1) + [b];
  }

  lemma CarryOutErr(e: EncState, c: nat)
    requires c < 512 && -1 <= e.rem <= 255
    requires CarryOut(e, c).err == 0
    ensures e.err == 0
  {
    if c != SYM_MAX {
      var carry := c / 256;
      var e1 := if e.rem >= 0 then WriteByte(e, (e.rem + carry) % 256) else e;
      WriteRunOut(e1, (SYM_MAX + carry) % 256, e.ext);
    }
  }

  lemma HoldDigits(e: EncState)
    requires -1 <= e.rem <= 255
    ensures Digits(CarryOut(e, SYM_MAX)) == Digits(e) + [255]
  {
    var head := e.out + if e.rem >= 0 then [e.rem as byte] else [];
    assert Digits(e) == head + Repeat(255, e.ext);
    assert Digits(CarryOut(e, SYM_MAX)) == head + Repeat(255, e.ext + 1);
    SnocRepeat(head, 255, e.ext + 1);
  }

  lemma FlushedOut(e: EncState, c: nat)
    requires c < 512 && c != SYM_MAX && -1 <= e.rem <= 255 && CarryOut(e, c).err == 0
    ensures var carry := c / 256;
      CarryOut(e, c).out ==
        e.out + (if e.rem >= 0 then [((e.rem + carry) % 256) as byte] else []) + Repeat((SYM_MAX + carry) % 256, e.ext)
    ensures e.err == 0
  {
    var carry := c / 256;
    var e1 := if e.rem >= 0 then WriteByte(e, (e.rem + carry) % 256) else e;
    WriteRunOut(e1, (SYM_MAX + carry) % 256, e.ext);
  }

  /** A flushing carryOut turns the pending digits into output, plus the carry. */
  lemma FlushedValue(e: EncState, c: nat)
    requires c < 512 && c != SYM_MAX && -1 <= e.rem <= 255 && CarryOut(e, c).err == 0
    requires c >= 256 ==> 0 <= e.rem < 255
    ensures Value(CarryOut(e, c).out) == Value(Digits(e)) + c / 256
    ensures |CarryOut(e, c).out| == |Digits(e)|
  {
    FlushedOut(e, c);
    var f := CarryOut(e, c);
    if c >= 256 {
      assert f.out == e.out + [(e.rem + 1) as byte] + Repeat(0, e.ext);
      CarryValue(e.out, e.rem, e.ext);
      assert Digits(e) == e.out + [e.rem as byte] + Repeat(255, e.ext);
    } else {
      assert f.out == Digits(e);
    }
  }

  /** carryOut appends the digit c, which may carry into the digits before it. */
  lemma CarryOutDigits(e: EncState, c: nat)
    requires c < 512 && -1 <= e.rem <= 255
    requires c >= 256 ==> 0 <= e.rem < 255
    requires CarryOut(e, c).err == 0
    ensures e.err == 0
    ensures Value(Digits(CarryOut(e, c))) == Value(Digits(e)) * 256 + c
    ensures |Digits(CarryOut(e, c))| == |Digits(e)| + 1
  {
    CarryOutErr(e, c);
    if c == SYM_MAX {
      HoldDigits(e);
      ValueSnoc(Digits(e), 255);
    } else {
      var f := CarryOut(e, c);
      FlushedValue(e, c);
      assert Digits(f) == f.out + [(c % 256) as byte] by { assert Repeat<byte>(255, 0) == []; }
      ValueSnoc(f.out, c % 256);
    }
  }

  /** Shifting the top byte c out of the low end. */
  lemma ShiftedLow(v: nat, rng: nat)
    requires v + rng < 2 * CODE_TOP && 0 < rng <= CODE_BOT
    ensures var c := v / SHIFT; var w := v * 256 % CODE_TOP;
      && c < 512 && v * 256 == c * CODE_TOP + w
      && w + rng * 256 < 2 * CODE_TOP
      && (c == 511 ==> w + rng * 256 <= CODE_TOP)
      && (v + rng <= CODE_TOP ==> c < 256 && (c == 255 ==> w + rng * 256 <= CODE_TOP))
  {
    ModUnique(v * 256, v / SHIFT, v % SHIFT * 256, CODE_TOP);
  }

  function Shifted(e: EncState): EncState {
    CarryOut(e, e.val / SHIFT).(val := e.val * 256 % CODE_TOP, rng := e.rng * 256)
  }

  lemma ShiftKeepsHeld(e: EncState)
    requires 0 < e.rng <= CODE_BOT && e.val + e.rng < 2 * CODE_TOP && Held(e)
    ensures Held(Shifted(e)) && Shifted(e).val + Shifted(e).rng < 2 * CODE_TOP
    ensures e.val / SHIFT < 512 && (e.val / SHIFT >= 256 ==> 0 <= e.rem < 255)
  {
    ShiftedLow(e.val, e.rng);
  }

  lemma ShiftMeaning(e: EncState)
    requires 0 < e.rng <= CODE_BOT && e.val + e.rng < 2 * CODE_TOP && Held(e) && Shifted(e).err == 0
    ensures e.err == 0 && -1 <= Shifted(e).rem <= 255
    ensures var i := Meaning(e); Meaning(Shifted(e)) == Interval(i.low * 256, i.rng * 256, i.shifts + 1)
  {
    ShiftKeepsHeld(e);
    ShiftedLow(e.val, e.rng);
    CarryOutDigits(e, e.val / SHIFT);
    assert Digits(Shifted(e)) == Digits(CarryOut(e, e.val / SHIFT));
  }

  lemma {:induction false} EncNormalizeMeaning(e: EncState)
    requires 0 < e.rng <= CODE_TOP && e.val + e.rng < 2 * CODE_TOP && Held(e)
    requires e.rng == CODE_TOP ==> e.val < CODE_TOP
    requires EncNormalize(e).err == 0
    ensures EncInv(EncNormalize(e)) && e.err == 0
    ensures Meaning(EncNormalize(e)) == Widen(Meaning(e))
    decreases CODE_TOP - e.rng
  {
    if e.rng <= CODE_BOT {
      ShiftKeepsHeld(e);
      EncNormalizeMeaning(Shifted(e));
      ShiftMeaning(e);
    }
  }

  lemma EncStepMeaning(e: EncState, op: Op)
    requires EncInv(e) && ValidOp(op) && EncStep(e, op).err == 0
    ensures !op.Reject? ==> EncInv(EncStep(e, op)) && e.err == 0
    ensures !op.Reject? ==> Meaning(EncStep(e, op)) == Next(Meaning(e), op)
  {
    hide Offset, Width, EncNormalize;
    if !op.Reject? {
      WidthBounds(e.rng, op);
      var f := e.(val := e.val + Offset(e.rng, op), rng := Width(e.rng, op));
      EncNormalizeMeaning(f);
      assert Digits(f) == Digits(e);
    }
  }

  // ----- the decoder holds the distance of its input from the top of the interval -----

  /** The first 31 + 8k bits of the input, zero-extended. */
  function Window(buf: seq<byte>, k: nat): nat { Prefix(buf, k + 4) / 2 }

  ghost predicate Synced(d: DecState, i: Interval) {
    && d.rng == i.rng
    && d.val == i.low + i.rng - 1 - Window(d.buf, i.shifts)
    && d.rem == ByteAt(d.buf, i.shifts + 3)
    && d.offs == (if i.shifts + 4 <= |d.buf| then i.shifts + 4 else |d.buf|)
  }

  /** The eight bits of the input straddling bytes a and b, as normalize forms them. */
  function Straddle(a: byte, b: byte): byte { (a * 256 + b) / 2 % 256 }

  lemma HalfShift(p: nat, a: byte, b: byte)
    ensures ((p * 256 + a) * 256 + b) / 2 == (p * 256 + a) / 2 * 256 + Straddle(a, b)
  {
    var h, o := a / 2, a % 2;
    assert (p * 256 + a) / 2 == p * 128 + h;
    assert Straddle(a, b) == o * 128 + b / 2 by {
      ModUnique((a * 256 + b) / 2, h, o * 128 + b / 2, 256);
    }
  }

  lemma PrefixStep(buf: seq<byte>, n: nat)
    ensures Prefix(buf, n + 2) / 2 == Prefix(buf, n + 1) / 2 * 256 + Straddle(ByteAt(buf, n), ByteAt(buf, n + 1))
  {
    var p := Prefix(buf, n);
    assert Prefix(buf, n + 1) == p * 256 + ByteAt(buf, n);
    assert Prefix(buf, n + 2) == Prefix(buf, n + 1) * 256 + ByteAt(buf, n + 1);
    HalfShift(p, ByteAt(buf, n), ByteAt(buf, n + 1));
  }

  /** One round of normalize: the width grows by 256 and eight more bits of input come in. */
  function DecShift(d: DecState): DecState {
    var d1 := ReadByte(d);
    d1.(rng := d.rng * 256, val := d.val * 256 + (SYM_MAX - Straddle(d.rem, d1.rem)))
  }

  lemma DecShiftStep(d: DecState)
    requires 0 < d.rng <= CODE_BOT && d.val < d.rng
    ensures DecNormalize(d) == DecNormalize(DecShift(d))
    ensures DecShift(d).val < DecShift(d).rng <= CODE_TOP
  {
    assert DecShift(d).val < CODE_TOP;
  }

  lemma DecShiftSynced(d: DecState, i: Interval)
    requires Synced(d, i)
    ensures Synced(DecShift(d), Interval(i.low * 256, i.rng * 256, i.shifts + 1))
  {
    PrefixStep(d.buf, i.shifts + 3);
  }

  lemma {:induction false} DecNormalizeSynced(d: DecState, i: Interval)
    requires 0 < i.rng <= CODE_TOP && Synced(d, i) && d.val < d.rng
    ensures Synced(DecNormalize(d), Widen(i))
    decreases CODE_TOP - i.rng
  {
    if i.rng <= CODE_BOT {
      DecShiftStep(d);
      DecShiftSynced(d, i);
      DecNormalizeSynced(DecShift(d), Interval(i.low * 256, i.rng * 256, i.shifts + 1));
    }
  }

  lemma {:induction false} DecNormalizeInv(d: DecState)
    requires 0 < d.rng <= CODE_TOP && d.val < d.rng
    ensures DecNormalize(d).val < DecNormalize(d).rng
    decreases CODE_TOP - d.rng
  {
    if d.rng <= CODE_BOT {
      DecShiftStep(d);
      DecNormalizeInv(DecShift(d));
    }
  }

  predicate StartForm(d: DecState, rng: nat, n: nat) {
    && d.rng == rng && d.val < rng && d.val + Prefix(d.buf, n + 1) / 2 == rng - 1
    && d.rem == ByteAt(d.buf, n)
    && d.offs == (if n + 1 <= |d.buf| then n + 1 else |d.buf|)
  }

  lemma StartRound(d: DecState, rng: nat, n: nat)
    requires 0 < rng <= CODE_BOT && StartForm(d, rng, n)
    ensures StartForm(DecShift(d), rng * 256, n + 1)
    ensures DecNormalize(d) == DecNormalize(DecShift(d))
  {
    PrefixStep(d.buf, n);
    DecShiftStep(d);
  }

  lemma FormIsSynced(d: DecState)
    requires StartForm(d, CODE_TOP, 3)
    ensures Synced(d, Whole()) && DecNormalize(d) == d
  {}

  /** After initialisation the decoder holds the first 31 bits below the whole interval. */
  lemma DecStartSynced(buf: seq<byte>)
    ensures Synced(DecStart(buf), Whole())
    ensures DecStart(buf).val < DecStart(buf).rng && DecStart(buf).buf == buf && DecStart(buf).err == 0
  {
    var d0 := ReadByte(DecState(buf, 0, 128, 0, 0, 0, 0));
    var d := d0.(val := 127 - d0.rem / 2);
    assert StartForm(d, 128, 0) by {
      assert Prefix(buf, 1) == Prefix(buf, 0) * 256 + ByteAt(buf, 0);
    }
    assert DecStart(buf) == DecNormalize(d);
    hide DecShift, StartForm, DecNormalize, Synced;
    StartRound(d, 128, 0);
    StartRound(DecShift(d), 0x8000, 1);
    StartRound(DecShift(DecShift(d)), 0x80_0000, 2);
    FormIsSynced(DecShift(DecShift(DecShift(d))));
    FormVal(DecShift(DecShift(DecShift(d))), CODE_TOP, 3);
  }

  lemma FormVal(d: DecState, rng: nat, n: nat)
    requires StartForm(d, rng, n)
    ensures d.val < d.rng
  {}

  // ----- what a decoder must see to read back an operation -----

  /** The next decode call returns a value that selects op. */
  predicate Reads(d: DecState, op: Op)
    requires DecInv(d)
  {
    && ValidOp(op)
    && match op
       case Range(fl, fh, ft) => fl <= Target(d, ft) < fh
       case Bit(one, logp) => BitOf(d, logp) == one
       case Reject => false
  }

  lemma QuotientBetween(v: nat, r: nat, a: nat, b: nat)
    requires r > 0
    ensures r * a <= v < r * b ==> a <= v / r < b
    ensures a <= v / r < b ==> r * a <= v < r * b
  {
    var q := v / r;
    assert r * q <= v < r * q + r;
    Split(r, q, 1);
    if a <= q { Mono(r, a, q); } else { Mono(r, q + 1, a); }
    if q < b { Mono(r, q + 1, b); } else { Mono(r, b, q); }
  }

  lemma Mono(r: nat, a: nat, b: nat)
    requires a <= b
    ensures r * a <= r * b
  {}

  /** The parts of neighbouring symbols meet, and together they fill the interval. */
  lemma PartsTile(rng: nat, fl: nat, fm: nat, fh: nat, ft: nat)
    requires CODE_BOT < rng && fl < fm < fh <= ft <= CODE_BOT
    ensures Above(rng, Range(fl, fm, ft)) == Above(rng, Range(fm, fh, ft)) + Width(rng, Range(fm, fh, ft))
    ensures Above(rng, Range(fm, ft, ft)) == 0 && Above(rng, Range(0, fm, ft)) + Width(rng, Range(0, fm, ft)) == rng
  {
    ShareEnds(rng, fm, fh, ft);
    ShareEnds(rng, fl, fm, ft);
    ShareEnds(rng, 0, fm, ft);
    ShareEnds(rng, fm, ft, ft);
    hide Above, Width;
  }

  /** A symbol above the lowest gets its share of the interval, rounded down; the lowest gets what is left. */
  lemma PartIsShare(rng: nat, fl: nat, fh: nat, ft: nat)
    requires CODE_BOT < rng && fl < fh <= ft <= CODE_BOT
    ensures var w := Width(rng, Range(fl, fh, ft));
      rng * (fh - fl) - ft * (fh - fl) < w * ft && (fl > 0 ==> w * ft <= rng * (fh - fl))
  {
    var q, r, n := rng / ft, rng % ft, fh - fl;
    WidthIs(rng, fl, fh, ft);
    ShareProducts(rng, q, ft, r, n);
    hide Width;
  }

  lemma WidthIs(rng: nat, fl: nat, fh: nat, ft: nat)
    requires CODE_BOT < rng && fl < fh <= ft <= CODE_BOT
    ensures Width(rng, Range(fl, fh, ft)) == rng / ft * (fh - fl) + if fl > 0 then 0 else rng % ft
  {
    Split(rng / ft, ft - fh, fh);
    Quotient(rng, ft);
    assert rng == rng / ft * ft + rng % ft;
  }

  lemma ShareProducts(rng: nat, q: nat, ft: nat, r: nat, n: nat)
    requires rng == q * ft + r && r < ft && n > 0
    ensures rng * n - ft * n < q * n * ft <= rng * n && (q * n + r) * ft >= q * n * ft
  {
    assert (q * ft + r) * n == q * n * ft + n * r;
    Mono(n, r, ft - 1);
    assert n * (ft - 1) == ft * n - n;
    assert (q * n + r) * ft == q * n * ft + r * ft;
  }

  /** A set bit gets one part in 2^logp, rounded down, at the top; a clear one the rest. */
  lemma BitParts(rng: nat, logp: nat)
    requires CODE_BOT < rng && ValidOp(Bit(true, logp)) && ValidOp(Bit(false, logp))
    ensures var one, zero := Bit(true, logp), Bit(false, logp);
      && Width(rng, one) * Pow2(logp) <= rng < (Width(rng, one) + 1) * Pow2(logp)
      && Width(rng, one) + Width(rng, zero) == rng && Above(rng, one) == 0 && Above(rng, zero) == Width(rng, one)
  {
    hide Pow2;
    Multiples(rng, Pow2(logp));
  }

  lemma Multiples(x: nat, p: nat)
    requires p > 0
    ensures x / p * p <= x < (x / p + 1) * p
  {
    assert (x / p + 1) * p == x / p * p + p;
  }

  /** The two ends of op's part, counted from the top in shares; the lowest symbol also takes the remainder. */
  lemma ShareEnds(rng: nat, fl: nat, fh: nat, ft: nat)
    requires CODE_BOT < rng && fl < fh <= ft <= CODE_BOT
    ensures Above(rng, Range(fl, fh, ft)) == rng / ft * (ft - fh)
    ensures Above(rng, Range(fl, fh, ft)) + Width(rng, Range(fl, fh, ft)) ==
      if fl > 0 then rng / ft * (ft - fl) else rng
  {
    Split(rng / ft, ft - fh, fh - fl);
  }

  /** The decoded value in terms of the number of whole shares below the distance from the top. */
  lemma TargetPlace(d: DecState, fl: nat, fh: nat, ft: nat)
    requires DecInv(d) && fl < fh <= ft <= CODE_BOT && d.rng / ft > 0
    ensures fl <= Target(d, ft) < fh <==> ft - fh <= d.val / (d.rng / ft) && (fl > 0 ==> d.val / (d.rng / ft) < ft - fl)
  {
    var s := d.val / (d.rng / ft);
    assert Target(d, ft) == if s + 1 < ft then ft - (s + 1) else 0;
  }

  lemma NextMultiple(v: nat, r: nat)
    requires r > 0
    ensures v < r * (v / r + 1)
  {}

  /** The decoded value lies in [fl, fh) exactly when the distance from the top falls in op's part. */
  lemma TargetInRange(d: DecState, fl: nat, fh: nat, ft: nat)
    requires DecInv(d) && fl < fh <= ft <= CODE_BOT
    ensures var op := Range(fl, fh, ft);
      fl <= Target(d, ft) < fh <==> Above(d.rng, op) <= d.val < Above(d.rng, op) + Width(d.rng, op)
  {
    hide Above, Width, Target;
    var r := d.rng / ft;
    Quotient(d.rng, ft);
    ShareEnds(d.rng, fl, fh, ft);
    TargetPlace(d, fl, fh, ft);
    QuotientBetween(d.val, r, ft - fh, ft - fl);
    NextMultiple(d.val, r);
    QuotientBetween(d.val, r, ft - fh, d.val / r + 1);
  }

  lemma InRange(d: DecState, fl: nat, fh: nat, ft: nat)
    requires DecInv(d) && fl < fh <= ft <= CODE_BOT
    ensures var op := Range(fl, fh, ft);
      fl <= Target(d, ft) < fh <==> Above(d.rng, op) <= d.val < Above(d.rng, op) + Width(d.rng, op)
    ensures fl <= Target(d, ft) < fh ==> CanUpdate(SetDivisor(d, ft), fl, fh, ft)
  {
    TargetInRange(d, fl, fh, ft);
    WidthBounds(d.rng, Range(fl, fh, ft));
    Quotient(d.rng, ft);
  }

  /** The decoder with the interval cut down to op's part. */
  function Cut(d: DecState, op: Op): (f: DecState)
    requires DecInv(d) && Reads(d, op)
    ensures 0 < f.rng <= CODE_TOP && f.val < f.rng
  {
    WidthBounds(d.rng, op);
    if op.Range? then InRange(d, op.fl, op.fh, op.ft);
      SetDivisor(d, op.ft).(val := d.val - Above(d.rng, op), rng := Width(d.rng, op))
    else d.(val := d.val - Above(d.rng, op), rng := Width(d.rng, op))
  }

  /** The decoder state after reading op. */
  function AfterOp(d: DecState, op: Op): (f: DecState)
    requires DecInv(d) && Reads(d, op)
    ensures DecInv(f) && f.buf == d.buf && f.err == d.err
  {
    DecNormalizeInv(Cut(d, op));
    if op.Range? then Quotient(d.rng, op.ft); DecNormalize(Cut(d, op)) else DecNormalize(Cut(d, op))
  }

  /** Decode followed by Update, and BitLogp, are reads of the corresponding operation. */
  lemma AfterOpIsUpdate(d: DecState, op: Op)
    requires DecInv(d) && Reads(d, op)
    ensures op.Range? ==>
      CanUpdate(SetDivisor(d, op.ft), op.fl, op.fh, op.ft)
      && AfterOp(d, op) == Update(SetDivisor(d, op.ft), op.fl, op.fh, op.ft)
    ensures op.Bit? ==> AfterOp(d, op) == SkipBit(d, op.logp)
  {
    WidthBounds(d.rng, op);
    if op.Range? {
      InRange(d, op.fl, op.fh, op.ft);
      Quotient(d.rng, op.ft);
    }
  }

  lemma AfterOpSynced(d: DecState, i: Interval, op: Op)
    requires DecInv(d) && Synced(d, i) && Reads(d, op)
    ensures Synced(AfterOp(d, op), Next(i, op))
  {
    WidthBounds(d.rng, op);
    NarrowTop(i, op);
    DecNormalizeSynced(Cut(d, op), Narrow(i, op));
  }

  /** Narrowing lowers the top of the interval by exactly what the decoder subtracts. */
  lemma NarrowTop(i: Interval, op: Op)
    requires CODE_BOT < i.rng <= CODE_TOP && ValidOp(op) && !op.Reject?
    ensures Narrow(i, op).low + Narrow(i, op).rng == i.low + i.rng - Above(i.rng, op)
  {
    WidthBounds(i.rng, op);
  }

  // ----- a number inside the narrowed interval is inside the wider one -----

  lemma {:induction false} WidenContains(i: Interval, buf: seq<byte>)
    requires 0 < i.rng <= CODE_TOP
    requires Contains(Widen(i), Window(buf, Widen(i).shifts))
    ensures Contains(i, Window(buf, i.shifts))
    decreases CODE_TOP - i.rng
  {
    if i.rng <= CODE_BOT {
      WidenContains(Interval(i.low * 256, i.rng * 256, i.shifts + 1), buf);
      PrefixStep(buf, i.shifts + 3);
    }
  }

  lemma NextContains(i: Interval, op: Op, buf: seq<byte>)
    requires CODE_BOT < i.rng <= CODE_TOP && ValidOp(op) && !op.Reject?
    requires Contains(Next(i, op), Window(buf, Next(i, op).shifts))
    ensures Contains(Narrow(i, op), Window(buf, i.shifts)) && Contains(i, Window(buf, i.shifts))
  {
    WidenContains(Narrow(i, op), buf);
    WidthBounds(i.rng, op);
  }

  /** The decoder reads op back when the input lies in the part that op selects. */
  lemma ReadsWhenContained(d: DecState, i: Interval, op: Op)
    requires DecInv(d) && Synced(d, i) && ValidOp(op) && !op.Reject?
    requires Contains(Narrow(i, op), Window(d.buf, i.shifts))
    ensures Reads(d, op)
  {
    WidthBounds(d.rng, op);
    assert Above(d.rng, op) <= d.val < Above(d.rng, op) + Width(d.rng, op);
    match op
    case Range(fl, fh, ft) => InRange(d, fl, fh, ft);
    case Bit(_, _) =>
  }

  // ----- whole operation sequences -----

  /** Every decode call along ops returns what ops says. */
  predicate Ready(d: DecState, ops: seq<Op>)
    requires DecInv(d)
    decreases |ops|
  {
    ops == [] || (Reads(d, ops[0]) && Ready(AfterOp(d, ops[0]), ops[1..]))
  }

  function After(d: DecState, ops: seq<Op>): (f: DecState)
    requires DecInv(d) && Ready(d, ops)
    ensures DecInv(f) && f.buf == d.buf && f.err == d.err
    decreases |ops|
  {
    if ops == [] then d else After(AfterOp(d, ops[0]), ops[1..])
  }

  lemma {:induction false} ReadySplit(d: DecState, a: seq<Op>, b: seq<Op>)
    requires DecInv(d)
    ensures Ready(d, a + b) <==> Ready(d, a) && Ready(After(d, a), b)
    ensures Ready(d, a + b) ==> After(d, a + b) == After(After(d, a), b)
    decreases |a|
  {
    if a == [] {
      assert a + b == b;
    } else {
      assert (a + b)[1..] == a[1..] + b;
      if Reads(d, a[0]) { ReadySplit(AfterOp(d, a[0]), a[1..], b); }
    }
  }

  predicate NoReject(ops: seq<Op>) { forall i :: 0 <= i < |ops| ==> !ops[i].Reject? }

  function Denotes(i: Interval, ops: seq<Op>): (j: Interval)
    requires CODE_BOT < i.rng <= CODE_TOP && ValidOps(ops) && NoReject(ops)
    ensures CODE_BOT < j.rng <= CODE_TOP
    decreases |ops|
  {
    if ops == [] then i else Denotes(Next(i, ops[0]), ops[1..])
  }

  lemma {:induction false} DenotesSnoc(i: Interval, ops: seq<Op>, op: Op)
    requires CODE_BOT < i.rng <= CODE_TOP && ValidOps(ops + [op]) && NoReject(ops + [op])
    requires ValidOps(ops) && NoReject(ops) && ValidOp(op) && !op.Reject?
    ensures Denotes(i, ops + [op]) == Next(Denotes(i, ops), op)
    decreases |ops|
  {
    if ops == [] {
      assert ops + [op] == [op];
      assert Denotes(i, [op]) == Denotes(Next(i, op), []);
    } else {
      assert (ops + [op])[1..] == ops[1..] + [op];
      assert ops[0] == (ops + [op])[0];
      DenotesSnoc(Next(i, ops[0]), ops[1..], op);
    }
  }

  lemma {:induction false} DenotesContains(i: Interval, ops: seq<Op>, buf: seq<byte>)
    requires CODE_BOT < i.rng <= CODE_TOP && ValidOps(ops) && NoReject(ops)
    requires Contains(Denotes(i, ops), Window(buf, Denotes(i, ops).shifts))
    ensures Contains(i, Window(buf, i.shifts))
    decreases |ops|
  {
    if ops != [] {
      DenotesContains(Next(i, ops[0]), ops[1..], buf);
      NextContains(i, ops[0], buf);
    }
  }

  /** An input inside the final interval is read back operation by operation. */
  lemma {:induction false} ReadyWhenContained(d: DecState, i: Interval, ops: seq<Op>)
    requires DecInv(d) && Synced(d, i) && ValidOps(ops) && NoReject(ops)
    requires Contains(Denotes(i, ops), Window(d.buf, Denotes(i, ops).shifts))
    ensures Ready(d, ops)
    decreases |ops|
  {
    if ops != [] {
      var op := ops[0];
      assert ValidOp(op) && !op.Reject?;
      DenotesContains(Next(i, op), ops[1..], d.buf);
      NextContains(i, op, d.buf);
      ReadsWhenContained(d, i, op);
      AfterOpSynced(d, i, op);
      ReadyWhenContained(AfterOp(d, op), Next(i, op), ops[1..]);
    }
  }

  lemma {:induction false} EncAllMeaning(cap: nat, ops: seq<Op>)
    requires ValidOps(ops) && EncAll(EncStart(cap), ops).err == 0
    ensures NoReject(ops) && EncInv(EncAll(EncStart(cap), ops))
    ensures Meaning(EncAll(EncStart(cap), ops)) == Denotes(Whole(), ops)
  {
    var e := EncStart(cap);
    if ops == [] {
      assert Digits(e) == [];
    } else {
      var front, op := ops[..|ops| - 1], ops[|ops| - 1];
      assert ops == front + [op];
      StepErr(EncAll(e, front), op);
      EncAllMeaning(cap, front);
      EncStepMeaning(EncAll(e, front), op);
      DenotesSnoc(Whole(), front, op);
    }
  }

  lemma {:induction false} NormalizeErr(e: EncState)
    requires 0 < e.rng <= CODE_TOP && e.err != 0
    ensures EncNormalize(e).err != 0
    decreases CODE_TOP - e.rng
  {
    if e.rng <= CODE_BOT {
      CarryOutSticky(e, e.val / SHIFT);
      NormalizeErr(Shifted(e));
    }
  }

  lemma CarryOutSticky(e: EncState, c: nat)
    requires e.err != 0
    ensures CarryOut(e, c).err != 0
  {
    if c != SYM_MAX {
      var carry := c / 256;
      var e1 := if e.rem >= 0 then WriteByte(e, (e.rem + carry) % 256) else e;
      WriteRunOut(e1, (SYM_MAX + carry) % 256, e.ext);
    }
  }

  /** The encoder's error is sticky, and a refused call sets it. */
  lemma StepErr(e: EncState, op: Op)
    requires CODE_BOT < e.rng <= CODE_TOP && ValidOp(op) && EncStep(e, op).err == 0
    ensures e.err == 0 && !op.Reject?
  {
    if !op.Reject? && e.err != 0 {
      WidthBounds(e.rng, op);
      NormalizeErr(e.(val := e.val + Offset(e.rng, op), rng := Width(e.rng, op)));
    }
  }

  // ----- the flush -----

  /** end is a multiple of 2^(31-l) whose whole block lies inside the interval. */
  predicate PlanOk(val: nat, rng: nat, end: nat, l: int) {
    && 0 <= l <= 9
    && end % Pow2(31 - l) == 0
    && val <= end && end + Pow2(31 - l) - 1 < val + rng
  }

  lemma RoundFits(val: nat, rng: nat, u: nat, w: nat)
    requires w > 0 && u == 2 * w && u <= rng
    ensures RoundUp(val, w) % w == 0 && val <= RoundUp(val, w) && RoundUp(val, w) + w - 1 < val + rng
    ensures RoundUp(val, u) % u == 0 && val <= RoundUp(val, u)
  {}

  lemma PlanFits(val: nat, rng: nat)
    requires CODE_BOT < rng <= CODE_TOP
    ensures PlanOk(val, rng, FlushPlan(val, rng).0, FlushPlan(val, rng).1)
  {
    IlogRange(rng);
    var n := Ilog(rng);
    PlanFitsAt(val, rng, n, Pow2(n - 1), Pow2(n - 2));
  }

  lemma PlanFitsAt(val: nat, rng: nat, n: int, u: nat, w: nat)
    requires CODE_BOT < rng <= CODE_TOP && n == Ilog(rng) && 24 <= n <= 32 && u == Pow2(n - 1) && w == Pow2(n - 2)
    ensures PlanOk(val, rng, FlushPlan(val, rng).0, FlushPlan(val, rng).1)
  {
    assert u == 2 * w;
    RoundFits(val, rng, u, w);
    var l := 32 - n;
    assert Pow2(31 - l) == u && Pow2(30 - l) == w;
    if RoundUp(val, u) + u - 1 >= val + rng {
      assert FlushPlan(val, rng) == (RoundUp(val, w), l + 1);
      assert 31 - (l + 1) == n - 2;
    } else {
      assert FlushPlan(val, rng) == (RoundUp(val, u), l);
    }
  }

  /** After Done the pending digits are output, unchanged in value. */
  lemma SettledOut(f: EncState)
    requires -1 <= f.rem <= 255 && Settle(f).err == 0
    ensures f.err == 0 && Value(Settle(f).out) == Value(Digits(f)) && |Settle(f).out| == |Digits(f)|
  {
    if f.rem >= 0 || f.ext > 0 {
      FlushedOut(f, 0);
      FlushedValue(f, 0);
    } else {
      assert Digits(f) == f.out;
    }
  }

  lemma FlushUnits(end: nat, l: int)
    requires end < 2 * CODE_TOP && 1 <= l <= 9 && end % Pow2(31 - l) == 0
    ensures l <= 8 ==> end == end / SHIFT * SHIFT && SHIFT <= Pow2(31 - l)
    ensures l == 9 ==> Pow2(22) == 0x40_0000 && (end == end / SHIFT * SHIFT || end == end / SHIFT * SHIFT + 0x40_0000)
  {
    Pow2Values();
    if l <= 8 {
      Pow2Grows(23, 31 - l);
      DividesPow2(end, 23, 31 - l);
    } else {
      assert Pow2(23) == 2 * Pow2(22);
      var h := end / 0x40_0000;
      assert end == h * 0x40_0000;
    }
  }

  lemma {:induction false} DividesPow2(x: nat, m: nat, n: nat)
    requires m <= n && x % Pow2(n) == 0
    ensures x % Pow2(m) == 0
  {
    if m < n {
      var q := x / Pow2(n);
      assert x == q * Pow2(n) == 2 * q * Pow2(n - 1);
      MultipleMod(2 * q, Pow2(n - 1));
      DividesPow2(x, m, n - 1);
    }
  }

  /** The bytes that Done appends to the digits, as a number. */
  lemma FlushDigits(e: EncState, end: nat, l: int)
    requires -1 <= e.rem <= 255 && end < 2 * CODE_TOP && 0 <= l <= 9
    requires end % Pow2(31 - l) == 0
    requires end >= CODE_TOP ==> 0 <= e.rem < 255
    requires FlushBytes(e, end, l).err == 0
    ensures var f := FlushBytes(e, end, l);
      && -1 <= f.rem <= 255
      && var v, n := Value(Digits(f)), |Digits(f)| - |Digits(e)|;
         && (l == 0 ==> n == 0 && v == Value(Digits(e)))
         && (1 <= l <= 8 ==> n == 1 && v * SHIFT == Value(Digits(e)) * CODE_TOP + end)
         && (l == 9 ==> n == 2 && v * 0x8000 == Value(Digits(e)) * CODE_TOP + end)
  {
    hide CarryOut, Digits, Value, Pow2;
    if l > 0 {
      var c := end / SHIFT;
      var f1 := CarryOut(e, c);
      var rest := end * 256 % CODE_TOP;
      FlushUnits(end, l);
      if l <= 8 {
        assert FlushBytes(e, end, l) == f1 by { assert FlushBytes(f1, rest, l - 8) == f1; }
        CarryOutDigits(e, c);
      } else {
        var f2 := CarryOut(f1, rest / SHIFT);
        assert FlushBytes(e, end, l) == f2 by {
          assert FlushBytes(f1, rest, 1) == FlushBytes(f2, rest * 256 % CODE_TOP, -7) == f2;
        }
        ModUnique(end * 256, c, end % SHIFT * 256, CODE_TOP);
        CarryOutDigits(f1, rest / SHIFT);
        CarryOutDigits(e, c);
      }
    }
  }

  /** Whatever follows the first n bytes moves the value within one unit of their last digit. */
  lemma PrefixExtend(buf: seq<byte>, n: nat)
    ensures Prefix(buf, n) * 0x100_0000 <= Prefix(buf, n + 3) < Prefix(buf, n) * 0x100_0000 + 0x100_0000
    ensures Prefix(buf, n) * 0x1_0000 <= Prefix(buf, n + 2) < Prefix(buf, n) * 0x1_0000 + 0x1_0000
    ensures Prefix(buf, n) * 0x1_0000_0000 <= Prefix(buf, n + 4) < Prefix(buf, n) * 0x1_0000_0000 + 0x1_0000_0000
  {
    assert Prefix(buf, n + 1) == Prefix(buf, n) * 256 + ByteAt(buf, n);
    assert Prefix(buf, n + 2) == Prefix(buf, n + 1) * 256 + ByteAt(buf, n + 1);
    assert Prefix(buf, n + 3) == Prefix(buf, n + 2) * 256 + ByteAt(buf, n + 2);
    assert Prefix(buf, n + 4) == Prefix(buf, n + 3) * 256 + ByteAt(buf, n + 3);
  }

  /** The flushed bytes v, n of them after the digits h, spell end. */
  predicate Spells(h: nat, end: nat, l: int, v: nat, n: int) {
    && (l == 0 ==> n == 0 && v == h)
    && (1 <= l <= 8 ==> n == 1 && v * SHIFT == h * CODE_TOP + end)
    && (l == 9 ==> n == 2 && v * 0x8000 == h * CODE_TOP + end)
  }

  lemma FlushSpells(e: EncState, end: nat, l: int)
    requires EncInv(e) && PlanOk(e.val, e.rng, end, l)
    requires Settle(FlushBytes(e, end, l)).err == 0
    ensures e.err == 0
    ensures var out := Settle(FlushBytes(e, end, l)).out;
      Spells(Value(Digits(e)), end, l, Value(out), |out| - |Digits(e)|)
  {
    PlanBounds(e, end, l);
    FlushRem(e, end, l);
    SettledOut(FlushBytes(e, end, l));
    FlushDigits(e, end, l);
    FlushErr(e, end, l);
  }

  /** p, the value of the first k + 4 bytes, starts with the bytes out. */
  predicate Leads(v: nat, n: int, p: nat) {
    && (n == 0 ==> v * 0x1_0000_0000 <= p < v * 0x1_0000_0000 + 0x1_0000_0000)
    && (n == 1 ==> v * 0x100_0000 <= p < v * 0x100_0000 + 0x100_0000)
    && (n == 2 ==> v * 0x1_0000 <= p < v * 0x1_0000 + 0x1_0000)
  }

  lemma OutLeads(out: seq<byte>, tail: seq<byte>, k: nat)
    requires 0 <= |out| - k <= 2
    ensures Leads(Value(out), |out| - k, Prefix(out + tail, k + 4))
  {
    PrefixIsValue(out, tail, |out|);
    assert out[..|out|] == out;
    PrefixExtend(out + tail, |out|);
  }

  /** p is the value through four bytes past the digits h; v is h followed by the flushed bytes. */
  lemma InsideAfterFlush(h: nat, e: EncState, end: nat, l: int, v: nat, n: int, p: nat)
    requires EncInv(e) && PlanOk(e.val, e.rng, end, l)
    requires Spells(h, end, l, v, n) && Leads(v, n, p)
    ensures h * CODE_TOP + e.val <= p / 2 < h * CODE_TOP + e.val + e.rng
  {
    PlanBounds(e, end, l);
    Pow2Values();
    if 1 <= l <= 8 {
      Pow2Grows(23, 31 - l);
    } else if l == 9 {
      assert Pow2(23) == 2 * Pow2(22);
    }
  }

  lemma PlanLength(e: EncState, end: nat, l: int)
    requires PlanOk(e.val, e.rng, end, l)
    ensures 0 <= l <= 9
  {}

  lemma SpellsContained(e: EncState, end: nat, l: int, out: seq<byte>, tail: seq<byte>)
    requires EncInv(e) && PlanOk(e.val, e.rng, end, l)
    requires Spells(Value(Digits(e)), end, l, Value(out), |out| - |Digits(e)|)
    ensures Contains(Meaning(e), Window(out + tail, Meaning(e).shifts))
  {
    hide Digits, Value, Prefix, PlanOk, Leads;
    PlanLength(e, end, l);
    OutLeads(out, tail, |Digits(e)|);
    InsideAfterFlush(Value(Digits(e)), e, end, l, Value(out), |out| - |Digits(e)|, Prefix(out + tail, |Digits(e)| + 4));
  }

  /** The finished bytes lie in the final interval, whatever bytes follow them. */
  lemma DoneContained(e: EncState, tail: seq<byte>)
    requires EncInv(e) && EncDone(e).err == 0
    ensures e.err == 0
    ensures Contains(Meaning(e), Window(EncDone(e).out + tail, Meaning(e).shifts))
  {
    var (end, l) := FlushPlan(e.val, e.rng);
    PlanFits(e.val, e.rng);
    FlushSpells(e, end, l);
    SpellsContained(e, end, l, EncDone(e).out, tail);
  }

  lemma PlanBounds(e: EncState, end: nat, l: int)
    requires EncInv(e) && PlanOk(e.val, e.rng, end, l)
    ensures end < 2 * CODE_TOP && (end >= CODE_TOP ==> 0 <= e.rem < 255)
    ensures l == 0 ==> end == 0 == e.val
  {
    Pow2Values();
  }

  lemma {:induction false} FlushRem(e: EncState, end: nat, l: int)
    requires -1 <= e.rem <= 255 && end < 2 * CODE_TOP
    ensures -1 <= FlushBytes(e, end, l).rem <= 255
    decreases if l > 0 then l else 0
  {
    if l > 0 { FlushRem(CarryOut(e, end / SHIFT), end * 256 % CODE_TOP, l - 8); }
  }

  lemma {:induction false} FlushErr(e: EncState, end: nat, l: int)
    requires FlushBytes(e, end, l).err == 0
    ensures e.err == 0
    decreases if l > 0 then l else 0
  {
    if l > 0 {
      FlushErr(CarryOut(e, end / SHIFT), end * 256 % CODE_TOP, l - 8);
      if e.err != 0 { CarryOutSticky(e, end / SHIFT); }
    }
  }

  // ----- the theorem -----

  /** The finished front bytes of an encoder of the given capacity, and whether it succeeded. */
  function Encoded(cap: nat, ops: seq<Op>): EncState
    requires ValidOps(ops)
  {
    EncDone(EncAll(EncStart(cap), ops))
  }

  /**
   For every operation sequence that fits the buffer, a decoder over the finished bytes
   followed by any other bytes reads every operation back, through every carry run.
   */
  lemma RangeCoderRoundTrip(cap: nat, ops: seq<Op>, tail: seq<byte>)
    requires ValidOps(ops) && Encoded(cap, ops).err == 0
    ensures NoReject(ops)
    ensures DecInv(DecStart(Encoded(cap, ops).out + tail))
    ensures Ready(DecStart(Encoded(cap, ops).out + tail), ops)
  {
    var e := EncAll(EncStart(cap), ops);
    var buf := EncDone(e).out + tail;
    DoneErr(e);
    EncAllMeaning(cap, ops);
    DoneContained(e, tail);
    DecStartSynced(buf);
    ReadyWhenContained(DecStart(buf), Whole(), ops);
  }

  lemma DoneErr(e: EncState)
    requires CODE_BOT < e.rng <= CODE_TOP && EncDone(e).err == 0
    ensures e.err == 0
  {
    var (end, l) := FlushPlan(e.val, e.rng);
    var f := FlushBytes(e, end, l);
    if f.err != 0 { CarryOutSticky(f, 0); }
    FlushErr(e, end, l);
  }

  /** The encoder's registers stay in their 32-bit ranges whether or not a write failed. */
  lemma EncStepInv(e: EncState, op: Op)
    requires EncInv(e) && ValidOp(op)
    ensures EncInv(EncStep(e, op))
  {
    if !op.Reject? {
      WidthBounds(e.rng, op);
      EncNormalizeInv(e.(val := e.val + Offset(e.rng, op), rng := Width(e.rng, op)));
    }
  }

  lemma {:induction false} EncNormalizeInv(e: EncState)
    requires 0 < e.rng <= CODE_TOP && e.val + e.rng < 2 * CODE_TOP && Held(e)
    requires e.rng == CODE_TOP ==> e.val < CODE_TOP
    ensures EncInv(EncNormalize(e))
    decreases CODE_TOP - e.rng
  {
    if e.rng <= CODE_BOT {
      ShiftKeepsHeld(e);
      EncNormalizeInv(Shifted(e));
    }
  }
}
