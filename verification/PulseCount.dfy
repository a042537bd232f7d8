/** The pulse total with its triangular prior, and its recursive split over four subframes. */
module PulseCount {
  import opened Bytes
  import opened RangeSpec
  import opened RangeProof
  import opened Symbols
  import opened RangeCoder
  import opened PulseTables
  import CdfTables

  const PULSE_COUNT_BYTE := [80, 160, 160, 16, 32, 32, 0, 0]
  const MAX_PULSES := 160
  const SUBFR_MAX := 40
  const SUBFR_LEN := 80

  /** Pulse limit of a 320-sample frame: config 0, regular flag 1, either stage-1 selector. */
  function FrameLimit(s1: int): int
    requires 0 <= s1 < 2
  {
    PULSE_COUNT_BYTE[1 + s1] * 320 / 320
  }

  // ----- tables -----

  datatype Runlen = Runlen(maxSamples: nat, cmfs: seq<Cdf>)
  datatype PulseTabs = PulseTabs(splitCmfs: seq<Cdf>, runlen: seq<Runlen>)

  function SplitLow(total: nat): nat { if total > 80 then total - 80 else 0 }

  predicate PulseOk(t: PulseTabs) {
    && |t.splitCmfs| == 159
    && (forall i :: 0 <= i < 159 ==> SplitOk(t.splitCmfs[i], i + 1))
    && |t.runlen| == 20
    && (forall o :: 0 <= o < 20 ==> t.runlen[o].maxSamples == 8 * (o + 1) && RunlenOk(8 * (o + 1), t.runlen[o].cmfs))
  }

  predicate SplitOk(c: Cdf, total: nat) { Increasing(c) && |c| == total - 2 * SplitLow(total) + 2 }

  /** Entries start .. start+n of a table, zero where the table ends. */
  function CdfWindow(base: Cdf, start: int, n: nat): (w: Cdf)
    ensures |w| == n
  {
    seq(n, i requires 0 <= i < n => if 0 <= start + i < |base| then base[start + i] else 0)
  }

  method FillWindow(base: Cdf, start: int, n: nat) returns (w: Cdf)
    ensures w == CdfWindow(base, start, n)
  {
    var a := new u16[n](_ => 0);
    for i := 0 to n
      invariant forall j :: 0 <= j < i ==> a[j] == CdfWindow(base, start, n)[j]
      invariant forall j :: i <= j < n ==> a[j] == 0
    {
      var j := start + i;
      if j >= 0 && j < |base| {
        a[i] := base[j];
      }
    }
    w := a[..];
  }

  lemma WindowIncreasing(base: Cdf, start: nat, n: nat)
    requires Increasing(base) && 2 <= n && start + n <= |base|
    ensures Increasing(CdfWindow(base, start, n))
  {}

  /** The table for c remaining pulses and pos remaining slots: its last pos + 1 entries. */
  function RunTable(t: PulseTabs, c: nat, pos: nat): (w: Cdf)
    requires PulseOk(t) && 1 <= c <= SUBFR_MAX && 1 <= pos <= SUBFR_LEN
    ensures Increasing(w) && |w| == pos + 1
  {
    var bucket := t.runlen[(pos + 7) / 8 - 1];
    assert RunlenOk(bucket.maxSamples, bucket.cmfs);
    var start := bucket.maxSamples - pos;
    WindowIncreasing(bucket.cmfs[c - 1], start, pos + 1);
    CdfWindow(bucket.cmfs[c - 1], start, pos + 1)
  }

  function HalfTable(t: PulseTabs, total: nat): (w: Cdf)
    requires PulseOk(t) && 1 <= total < MAX_PULSES
    ensures Increasing(w) && |w| == total - 2 * SplitLow(total) + 2
  {
    var lo := SplitLow(total);
    var c := t.splitCmfs[total - 1];
    assert SplitOk(c, total);
    WindowIncreasing(c, 0, total - lo - lo + 2);
    CdfWindow(c, 0, total - lo - lo + 2)
  }

  function QuarterLow(count: nat): nat { if count > SUBFR_MAX then count - SUBFR_MAX else 0 }

  function QuarterHigh(count: nat): nat { if count < SUBFR_MAX then count else SUBFR_MAX }

  function QuarterTable(t: PulseTabs, count: nat): (w: Cdf)
    requires PulseOk(t) && 1 <= count < 80
    ensures Increasing(w) && |w| == QuarterHigh(count) - QuarterLow(count) + 2
  {
    var c := t.splitCmfs[count - 1];
    assert SplitOk(c, count);
    WindowIncreasing(c, QuarterLow(count), QuarterHigh(count) - QuarterLow(count) + 2);
    CdfWindow(c, QuarterLow(count), QuarterHigh(count) - QuarterLow(count) + 2)
  }

  /** Either selector allows 160 pulses a frame. */
  lemma FrameLimits(s1: int)
    requires 0 <= s1 < 2
    ensures FrameLimit(s1) == MAX_PULSES
  {}

  // ----- the tables in use -----

  /** A run over the last pos slots uses the end of the table for the next multiple of eight, by the pulses left. */
  lemma RunTableIs(t: PulseTabs, c: nat, pos: nat, o: nat, i: nat)
    requires PulseOk(t) && 1 <= c <= SUBFR_MAX && 1 <= pos <= SUBFR_LEN && 8 * o < pos <= 8 * o + 8 && i <= pos
    ensures RunTable(t, c, pos)[i] == t.runlen[o].cmfs[c - 1][8 * o + 8 - pos + i]
  {
    assert RunlenOk(8 * (o + 1), t.runlen[o].cmfs);
    hide Increasing;
  }

  /** A frame's split uses its whole table. */
  lemma HalfTableIs(t: PulseTabs, total: nat)
    requires PulseOk(t) && 1 <= total < MAX_PULSES
    ensures HalfTable(t, total) == t.splitCmfs[total - 1]
  {
    assert SplitOk(t.splitCmfs[total - 1], total);
    hide Increasing;
  }

  /** A half's split uses the entries of its total's table for first quarters that leave both within 40. */
  lemma QuarterTableIs(t: PulseTabs, count: nat, first: nat)
    requires PulseOk(t) && 1 <= count < 80 && first <= count + 1 && first <= 41 && count - first <= 40
    ensures QuarterLow(count) <= first <= QuarterHigh(count) + 1
    ensures QuarterTable(t, count)[first - QuarterLow(count)] == t.splitCmfs[count - 1][first]
  {
    assert SplitOk(t.splitCmfs[count - 1], count);
    hide Increasing;
  }

  // ----- the triangular count -----

  const W32 := 0x1_0000_0000

  /** triT in 32-bit arithmetic, masked to 16 bits. */
  function TriT(k: nat): nat {
    var a := (k + 2) * 161 % W32;
    var b := ((k - 1) % W32 * ((k + 131070) % W32)) % W32 / 2;
    (a - b) % 0x1_0000
  }

  /** The cumulative counts without wrap: each step adds 163 - k. */
  function Tri(k: nat): nat
    requires k <= MAX_PULSES
    ensures 0 < Tri(k) <= 321 + 163 * k
  {
    if k == 0 then 321 else Tri(k - 1) + (163 - k)
  }

  lemma {:induction false} TriClosed(k: nat)
    requires k <= MAX_PULSES
    ensures 2 * Tri(k) == 2 * (k + 2) * 161 - (k - 1) * (k - 2)
  {
    if k > 0 { TriClosed(k - 1); }
  }

  lemma {:induction false} TriangleStep(k: nat)
    requires 1 <= k <= MAX_PULSES
    ensures 0 <= (k - 1) * (k - 2) <= 160 * 160
    ensures (k - 1) * (k + 131070) == (k - 1) * (k - 2) + (k - 1) * 131072
  {
    assert (k - 1) * (k + 131070) == (k - 1) * ((k - 2) + 131072);
    Distributes(k - 1, k - 2, 131072);
    if k > 1 { TriangleStep(k - 1); TimesAtMost(k - 1, k - 2); }
  }

  lemma Distributes(a: int, b: int, c: int)
    ensures a * (b + c) == a * b + a * c
  {}

  lemma TimesAtMost(a: nat, b: nat)
    requires a <= 160 && b <= 160
    ensures 0 <= a * b <= 160 * 160
  {
    CdfTables.MulMono(a, b, 160);
    CdfTables.MulMono(160, a, 160);
  }

  lemma TriTZero()
    ensures TriT(0) == 321
  {
    ModUnique((W32 - 1) * 131070, 131069, W32 - 131070, W32);
    ModUnique(-1, -1, W32 - 1, W32);
    assert TriT(0) == (322 - (W32 - 131070) / 2) % 0x1_0000;
  }

  /** The wrapped 32-bit formula is the triangular sum. */
  lemma TriTIsTri(k: nat)
    requires k <= MAX_PULSES
    ensures TriT(k) == Tri(k)
  {
    if k == 0 {
      TriTZero();
    } else {
      TriClosed(k);
      TriangleStep(k);
      hide Tri;
      var half, p := Tri(k), (k - 1) * (k - 2);
      var a, b := (k + 2) * 161, (k + 2) * 161 - half + (k - 1) * 65536;
      assert p == 2 * (a - half);
      assert (k - 1) * (k + 131070) == 2 * b < W32;
      TriTUnfolds(k, b);
      ModUnique(a - b, -(k - 1), half, 0x1_0000);
    }
  }

  lemma TriTUnfolds(k: nat, b: nat)
    requires 1 <= k <= MAX_PULSES && (k - 1) * (k + 131070) == 2 * b < W32
    ensures TriT(k) == ((k + 2) * 161 - b) % 0x1_0000
  {
    Unwrapped(k - 1);
    Unwrapped(k + 131070);
    Unwrapped((k + 2) * 161);
    Unwrapped(2 * b);
  }

  lemma Unwrapped(x: nat)
    requires x < W32
    ensures x % W32 == x
  {}

  lemma {:induction false} TriMono(i: nat, j: nat)
    requires i < j <= MAX_PULSES
    ensures Tri(i) + 3 <= Tri(j)
  {
    if i < j - 1 { TriMono(i, j - 1); }
  }

  function CountOp(total: nat): (op: Op)
    requires total <= MAX_PULSES
    ensures ValidOp(op) && op.Range?
  {
    if total < MAX_PULSES then TriMono(total, MAX_PULSES); CountRange(total) else CountRange(total)
  }

  function CountRange(total: nat): Op
    requires total <= MAX_PULSES
  {
    Range(if total > 0 then Tri(total - 1) else 0, Tri(total), Tri(MAX_PULSES))
  }

  function FindCount(val: nat, k: nat): (r: nat)
    requires k <= MAX_PULSES && val < Tri(MAX_PULSES)
    ensures k <= r <= MAX_PULSES && val < Tri(r) && (r == k || Tri(r - 1) <= val)
    decreases MAX_PULSES - k
  {
    if val < Tri(k) then k else FindCount(val, k + 1)
  }

  lemma FindCountIs(val: nat, total: nat)
    requires total <= MAX_PULSES && (total > 0 ==> Tri(total - 1) <= val) && val < Tri(total)
    ensures val < Tri(MAX_PULSES) && FindCount(val, 0) == total
  {
    hide Tri, FindCount;
    if total < MAX_PULSES { TriMono(total, MAX_PULSES); }
    var r := FindCount(val, 0);
    if r < total - 1 { TriMono(r, total - 1); }
    if total < r - 1 { TriMono(total, r - 1); }
  }

  function ReadCount(d: DecState): (r: (nat, DecState))
    requires DecInv(d)
    ensures r.0 <= MAX_PULSES && Reads(d, CountOp(r.0)) && r.1 == AfterOp(d, CountOp(r.0))
  {
    TargetBelow(d, Tri(MAX_PULSES));
    var k := FindCount(Target(d, Tri(MAX_PULSES)), 0);
    (k, AfterOp(d, CountOp(k)))
  }

  lemma ReadCountBack(d: DecState, total: nat)
    requires DecInv(d) && total <= MAX_PULSES && Reads(d, CountOp(total))
    ensures ReadCount(d) == (total, AfterOp(d, CountOp(total)))
  {
    FindCountIs(Target(d, Tri(MAX_PULSES)), total);
  }

  method EncodeCount(enc: RangeEncoder, s1: int, total: nat)
    requires enc.Valid() && 0 <= s1 < 2 && total <= MAX_PULSES
    modifies enc, enc.buf
    ensures enc.Valid() && enc.sent == old(enc.sent) + [CountOp(total)]
  {
    hide RangeEncoder.Valid, TriT, Tri;
    var l := FrameLimit(s1);
    var ft := TriT(l);
    if ft == 0 { ft := 1; }
    TriTIsTri(l);
    var fl := 0;
    if total > 0 {
      fl := TriT(total - 1);
      TriTIsTri(total - 1);
      TriMono(total - 1, total);
    }
    TriTIsTri(total);
    if total < l { TriMono(total, l); }
    enc.Encode(fl, TriT(total), ft);
  }

  lemma FindStep(val: nat, k: nat)
    requires k <= MAX_PULSES && val < Tri(MAX_PULSES)
    ensures val < Tri(k) ==> FindCount(val, k) == k
    ensures val >= Tri(k) ==> k < MAX_PULSES && FindCount(val, k) == FindCount(val, k + 1)
  {
    hide Tri;
  }

  /** The search for the interval that holds val. */
  method SearchCount(val: nat, l: nat) returns (k: nat, prevCum: nat)
    requires l == MAX_PULSES && val < Tri(l)
    ensures k == FindCount(val, 0) && prevCum == if k > 0 then Tri(k - 1) else 0
  {
    hide TriT, Tri, FindCount;
    var limit := l + 1;
    prevCum, k := 0, 0;
    while k != limit
      invariant k <= MAX_PULSES && prevCum == (if k > 0 then Tri(k - 1) else 0) && prevCum <= val
      invariant FindCount(val, k) == FindCount(val, 0)
      decreases limit - k
    {
      var cum := TriT(k);
      TriTIsTri(k);
      FindStep(val, k);
      if prevCum <= val && val < cum { break; }
      prevCum := cum;
      k := k + 1;
    }
  }

  method DecodeCount(dec: RangeDecoder, s1: int) returns (total: nat)
    requires dec.Valid() && 0 <= s1 < 2
    modifies dec
    ensures dec.Valid() && (total, dec.State()) == ReadCount(old(dec.State()))
  {
    hide TriT, Tri, RangeSpec.Update, AfterOp, SetDivisor, Target;
    var l := FrameLimit(s1);
    var ft := TriT(l);
    if ft == 0 { ft := 1; }
    TriTIsTri(l);
    ghost var d := dec.State();
    TargetBelow(d, ft);
    var val := dec.Decode(ft);
    var k, prevCum := SearchCount(val, l);
    assert Reads(d, CountOp(k));
    CutAfterTarget(d, CountOp(k));
    TriTIsTri(k);
    dec.Update(prevCum, TriT(k), ft);
    total := k;
  }
}
