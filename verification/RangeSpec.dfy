/**
 The range coder as pure steps over explicit state.

 An operation narrows the current interval; the encoder keeps the interval's low end
 in a digit string with pending carries, the decoder keeps its distance from the top.
 */
module RangeSpec {
  import opened Bytes

  const CODE_TOP := 0x8000_0000
  const CODE_BOT := 0x80_0000
  const SYM_MAX := 255
  const SHIFT := 0x80_0000 // 2^CODE_SHIFT, the weight of the outgoing byte

  /** One coded event: a symbol [fl, fh) out of ft, a bit with P(1) = 2^-logp, or a refused call. */
  datatype Op =
    | Range(fl: nat, fh: nat, ft: nat)
    | Bit(one: bool, logp: nat)
    | Reject

  predicate ValidOp(op: Op) {
    match op
    case Range(fl, fh, ft) => fl < fh <= ft <= CODE_BOT
    case Bit(_, logp) => 1 <= logp <= 23
    case Reject => true
  }

  predicate ValidOps(ops: seq<Op>) {
    forall i :: 0 <= i < |ops| ==> ValidOp(ops[i])
  }

  // ----- the interval a sequence of operations denotes -----

  /** Distance from the bottom of an interval of width rng to the part that op selects. */
  function Offset(rng: nat, op: Op): nat
    requires CODE_BOT < rng && ValidOp(op) && !op.Reject?
    ensures Offset(rng, op) + Width(rng, op) <= rng
  {
    WidthBounds(rng, op);
    match op
    case Range(fl, fh, ft) => if fl > 0 then rng - rng / ft * (ft - fl) else 0
    case Bit(one, logp) => if one then rng - rng / Pow2(logp) else 0
  }

  /** Width of the part that op selects. */
  function Width(rng: nat, op: Op): (w: int)
    requires CODE_BOT < rng && ValidOp(op) && !op.Reject?
  {
    match op
    case Range(fl, fh, ft) => if fl > 0 then rng / ft * (fh - fl) else rng - rng / ft * (ft - fh)
    case Bit(one, logp) => if one then rng / Pow2(logp) else rng - rng / Pow2(logp)
  }

  /** The part of the interval above the selected one, which the decoder subtracts. */
  function Above(rng: nat, op: Op): int
    requires CODE_BOT < rng && ValidOp(op) && !op.Reject?
  {
    match op
    case Range(fl, fh, ft) => rng / ft * (ft - fh)
    case Bit(one, logp) => if one then 0 else rng / Pow2(logp)
  }

  lemma Split(r: nat, a: nat, b: nat)
    ensures r * (a + b) == r * a + r * b
  {}

  lemma Pow2Bound(n: nat)
    requires 1 <= n <= 23
    ensures 2 <= Pow2(n) <= CODE_BOT
  {
    Pow2Grows(n, 23);
    Pow2Grows(1, n);
    assert Pow2(23) == 8 * Pow2(20) == 64 * Pow2(17) == 0x200 * Pow2(14) == 0x1000 * Pow2(11);
    assert Pow2(11) == 2048;
  }

  lemma {:induction false} Pow2Grows(m: nat, n: nat)
    requires m <= n
    ensures Pow2(m) <= Pow2(n)
  {
    if m < n { Pow2Grows(m, n - 1); }
  }

  lemma Quotient(rng: nat, ft: nat)
    requires 0 < ft <= rng
    ensures 1 <= rng / ft && rng / ft * ft <= rng
  {}

  lemma Shares(r: nat, fl: nat, fh: nat, ft: nat)
    requires r >= 1 && fl < fh <= ft
    ensures r * (ft - fl) == r * (ft - fh) + r * (fh - fl)
    ensures r * (fh - fl) >= 1 && r * (ft - fh) >= 0
    ensures r * (ft - fl) <= r * ft && r * (ft - fh) + 1 <= r * ft
  {
    Split(r, ft - fh, fh - fl);
    Split(r, ft - fl, fl);
    Split(r, fh - fl - 1, 1);
    Split(r, ft - fh, fh);
    Split(r, fh - 1, 1);
  }

  lemma WidthBounds(rng: nat, op: Op)
    requires CODE_BOT < rng && ValidOp(op) && !op.Reject?
    ensures 1 <= Width(rng, op) <= rng
    ensures 0 <= Above(rng, op)
    ensures op.Range? && op.fl > 0 ==>
      rng / op.ft * (op.ft - op.fl) <= rng && rng / op.ft * (op.ft - op.fl) == Above(rng, op) + Width(rng, op)
  {
    match op
    case Range(fl, fh, ft) =>
      Quotient(rng, ft);
      Shares(rng / ft, fl, fh, ft);
    case Bit(one, logp) =>
      Pow2Bound(logp);
      Halved(rng, Pow2(logp));
  }

  lemma Halved(rng: nat, p: nat)
    requires 2 <= p <= rng
    ensures 1 <= rng / p < rng
  {}

  /** Bottom, width, and the number of bytes shifted out so far. */
  datatype Interval = Interval(low: nat, rng: nat, shifts: nat)

  function Whole(): Interval { Interval(0, CODE_TOP, 0) }

  predicate Contains(i: Interval, x: nat) { i.low <= x < i.low + i.rng }

  function Widen(i: Interval): (j: Interval)
    requires 0 < i.rng <= CODE_TOP
    ensures CODE_BOT < j.rng <= CODE_TOP
    decreases CODE_TOP - i.rng
  {
    if i.rng <= CODE_BOT then Widen(Interval(i.low * 256, i.rng * 256, i.shifts + 1)) else i
  }

  function Narrow(i: Interval, op: Op): (j: Interval)
    requires CODE_BOT < i.rng <= CODE_TOP && ValidOp(op) && !op.Reject?
    ensures 0 < j.rng <= CODE_TOP
  {
    WidthBounds(i.rng, op);
    Interval(i.low + Offset(i.rng, op), Width(i.rng, op), i.shifts)
  }

  function Next(i: Interval, op: Op): (j: Interval)
    requires CODE_BOT < i.rng <= CODE_TOP && ValidOp(op) && !op.Reject?
    ensures CODE_BOT < j.rng <= CODE_TOP
  {
    Widen(Narrow(i, op))
  }

  // ----- encoder -----

  /** Bytes written, buffer capacity, width, low end, count of held 0xFF bytes, held byte or -1, sticky error. */
  datatype EncState = EncState(out: seq<byte>, cap: nat, rng: nat, val: nat, ext: nat, rem: int, err: int)

  function EncStart(cap: nat): EncState { EncState([], cap, CODE_TOP, 0, 0, -1, 0) }

  predicate EncInv(e: EncState) {
    && CODE_BOT < e.rng <= CODE_TOP
    && e.val + e.rng < 2 * CODE_TOP
    && (e.rng == CODE_TOP ==> e.val < CODE_TOP)
    && Held(e)
  }

  /** When every held digit is 0xFF the interval cannot carry past them. */
  predicate Held(e: EncState) {
    && -1 <= e.rem <= 255
    && ((e.rem == -1 || e.rem == 255) ==> e.val + e.rng <= CODE_TOP)
  }

  function WriteByte(e: EncState, b: byte): (f: EncState)
    ensures f == e.(out := f.out, err := f.err)
  {
    if |e.out| < e.cap then e.(out := e.out + [b]) else e.(err := -1)
  }

  function WriteRun(e: EncState, b: byte, n: nat): (f: EncState)
    ensures f == e.(out := f.out, err := f.err)
    decreases n
  {
    if n == 0 then e else WriteRun(WriteByte(e, b), b, n - 1)
  }

  function CarryOut(e: EncState, c: nat): (f: EncState)
    ensures f == e.(out := f.out, err := f.err, ext := f.ext, rem := f.rem)
    ensures c < 512 && -1 <= e.rem <= 255 ==> -1 <= f.rem <= 255
  {
    if c != SYM_MAX then
      var carry := c / 256;
      var e1 := if e.rem >= 0 then WriteByte(e, (e.rem + carry) % 256) else e;
      WriteRun(e1, (SYM_MAX + carry) % 256, e.ext).(ext := 0, rem := c % 256)
    else
      e.(ext := e.ext + 1)
  }

  function EncNormalize(e: EncState): (f: EncState)
    requires 0 < e.rng <= CODE_TOP
    ensures CODE_BOT < f.rng <= CODE_TOP
    decreases CODE_TOP - e.rng
  {
    if e.rng <= CODE_BOT then
      EncNormalize(CarryOut(e, e.val / SHIFT).(val := e.val * 256 % CODE_TOP, rng := e.rng * 256))
    else e
  }

  function EncStep(e: EncState, op: Op): (f: EncState)
    requires CODE_BOT < e.rng <= CODE_TOP && ValidOp(op)
    ensures CODE_BOT < f.rng <= CODE_TOP
  {
    if op.Reject? then e.(err := -1)
    else
      WidthBounds(e.rng, op);
      EncNormalize(e.(val := e.val + Offset(e.rng, op), rng := Width(e.rng, op)))
  }

  function EncAll(e: EncState, ops: seq<Op>): (f: EncState)
    requires CODE_BOT < e.rng <= CODE_TOP && ValidOps(ops)
    ensures CODE_BOT < f.rng <= CODE_TOP
  {
    if ops == [] then e else EncStep(EncAll(e, ops[..|ops| - 1]), ops[|ops| - 1])
  }

  /** Number of significant bits of x. */
  function Ilog(x: nat): (n: nat)
    ensures x > 0 ==> n > 0 && Pow2(n - 1) <= x < Pow2(n)
    ensures x == 0 ==> n == 0
  {
    if x == 0 then 0 else 1 + Ilog(x / 2)
  }

  /** The low-order mask 2^(31-l) - 1 and the multiple of 2^(31-l) that Done emits, with its bit count. */
  function FlushPlan(val: nat, rng: nat): (p: (nat, nat))
    requires CODE_BOT < rng <= CODE_TOP
  {
    IlogRange(rng);
    var l := 32 - Ilog(rng);
    var end := RoundUp(val, Pow2(31 - l));
    if end + Pow2(31 - l) - 1 >= val + rng then
      (RoundUp(val, Pow2(30 - l)), l + 1)
    else (end, l)
  }

  function RoundUp(v: nat, unit: nat): (r: nat)
    requires unit > 0
    ensures r % unit == 0 && v <= r < v + unit
  {
    RoundedDown(v + unit - 1, unit);
    (v + unit - 1) / unit * unit
  }

  lemma RoundedDown(x: nat, unit: nat)
    requires unit > 0
    ensures x / unit * unit <= x < x / unit * unit + unit
    ensures x / unit * unit % unit == 0
  {
    Bytes.MultipleMod(x / unit, unit);
  }

  lemma IlogRange(rng: nat)
    requires CODE_BOT < rng <= CODE_TOP
    ensures 24 <= Ilog(rng) <= 32
  {
    var n := Ilog(rng);
    assert Pow2(23) == CODE_BOT && Pow2(31) == CODE_TOP by { Pow2Values(); }
    if n < 24 { Pow2Grows(n, 23); }
    if n > 32 { Pow2Grows(32, n - 1); }
  }

  /** Emit the top bytes of end until l bits are out, as Done does. */
  function FlushBytes(e: EncState, end: nat, l: int): EncState
    decreases if l > 0 then l else 0
  {
    if l > 0 then FlushBytes(CarryOut(e, end / SHIFT), end * 256 % CODE_TOP, l - 8) else e
  }

  function EncDone(e: EncState): EncState
    requires CODE_BOT < e.rng <= CODE_TOP
  {
    var (end, l) := FlushPlan(e.val, e.rng);
    Settle(FlushBytes(e, end, l))
  }

  /** Write out the held digits. */
  function Settle(f: EncState): EncState {
    if f.rem >= 0 || f.ext > 0 then CarryOut(f, 0) else f
  }

  // ----- decoder -----

  /** Input, read offset, width, distance below the top, last divisor, last byte, sticky error. */
  datatype DecState = DecState(buf: seq<byte>, offs: nat, rng: nat, val: nat, ext: nat, rem: byte, err: int)

  predicate DecInv(d: DecState) {
    CODE_BOT < d.rng <= CODE_TOP && d.val < d.rng
  }

  /** readByte: the next byte, or zero at the end of the buffer. */
  function ReadByte(d: DecState): DecState {
    d.(rem := ByteAt(d.buf, d.offs), offs := if d.offs < |d.buf| then d.offs + 1 else d.offs)
  }

  function DecNormalize(d: DecState): (f: DecState)
    requires 0 < d.rng <= CODE_TOP
    ensures CODE_BOT < f.rng <= CODE_TOP
    ensures f.buf == d.buf && f.err == d.err && f.ext == d.ext
    decreases CODE_TOP - d.rng
  {
    if d.rng <= CODE_BOT then
      var d1 := ReadByte(d);
      var sym := (d.rem * 256 + d1.rem) / 2;
      DecNormalize(d1.(rng := d.rng * 256, val := (d.val * 256 + (SYM_MAX - sym % 256)) % CODE_TOP))
    else d
  }

  function DecStart(buf: seq<byte>): (d: DecState)
    ensures CODE_BOT < d.rng <= CODE_TOP
  {
    var d := ReadByte(DecState(buf, 0, 128, 0, 0, 0, 0));
    DecNormalize(d.(val := 127 - d.rem / 2))
  }

  /** Decode(ft): the divisor is remembered for the Update that follows. */
  function SetDivisor(d: DecState, ft: nat): DecState {
    if ft == 0 || d.rng / ft == 0 then d.(err := 1, ext := 1) else d.(ext := d.rng / ft)
  }

  function Target(d: DecState, ft: nat): (x: nat)
    ensures ft > 0 ==> x < ft
  {
    if ft == 0 || d.rng / ft == 0 then 0
    else
      var s := d.val / (d.rng / ft);
      if s + 1 < ft then ft - (s + 1) else 0
  }

  /** The decoder's distance from the top lies inside the part being kept. */
  predicate CanUpdate(d: DecState, fl: nat, fh: nat, ft: nat) {
    && fl < fh <= ft
    && var width := if fl > 0 then d.ext * (fh - fl) else d.rng - d.ext * (ft - fh);
       0 <= d.val - d.ext * (ft - fh) < width <= CODE_TOP
  }

  function Update(d: DecState, fl: nat, fh: nat, ft: nat): (f: DecState)
    requires CanUpdate(d, fl, fh, ft)
    ensures CODE_BOT < f.rng <= CODE_TOP
    ensures f.buf == d.buf && f.err == d.err && f.ext == d.ext
  {
    var s := d.ext * (ft - fh);
    DecNormalize(d.(val := d.val - s, rng := if fl > 0 then d.ext * (fh - fl) else d.rng - s))
  }

  function BitOf(d: DecState, logp: nat): bool { d.val < d.rng / Pow2(logp) }

  function SkipBit(d: DecState, logp: nat): DecState
    requires DecInv(d) && 1 <= logp <= 23
  {
    WidthBounds(d.rng, Bit(true, logp));
    WidthBounds(d.rng, Bit(false, logp));
    var s := d.rng / Pow2(logp);
    DecNormalize(if d.val < s then d.(rng := s) else d.(val := d.val - s, rng := d.rng - s))
  }
}
