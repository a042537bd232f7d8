/** The pulse block's loops: building parameters from a vector, writing them, and reading them back. */
module PulseCoder {
  import opened Bytes
  import opened RangeSpec
  import opened Symbols
  import opened RangeCoder
  import opened PulseTables
  import opened PulseCount
  import opened PulseBlock
  import opened PulseVector
  import opened PulseSigns
  import opened PulseFrame
  import CdfTables

  // ----- vector to parameters -----

  method SubframeNorm(pulse: seq<int>, sf: nat) returns (s: nat)
    requires |pulse| == FRAME_LEN && sf < 4
    ensures s == Norm1(pulse, SUBFR_LEN * sf, SUBFR_LEN * sf + SUBFR_LEN)
  {
    s := 0;
    for n := SUBFR_LEN * sf to SUBFR_LEN * sf + SUBFR_LEN
      invariant s == Norm1(pulse, SUBFR_LEN * sf, n)
    {
      var a := pulse[n];
      if a < 0 { a := -a; }
      s := s + a;
    }
  }

  /** Run symbols and signs of one subframe. */
  method SubframeRuns(pulse: seq<int>, base: nat) returns (magRuns: seq<int>, signs: seq<bool>)
    requires |pulse| == FRAME_LEN && base + SUBFR_LEN <= FRAME_LEN
    ensures magRuns == RunsOf(pulse, base, base + SUBFR_LEN) && signs == Signs(pulse, base, base + SUBFR_LEN)
  {
    magRuns, signs := [], [];
    var runPos, first := base, true;
    for n := base to base + SUBFR_LEN
      invariant magRuns == RunsOf(pulse, base, n) && signs == Signs(pulse, base, n)
      invariant runPos == base + Reach(magRuns) && (first ==> runPos == base)
    {
      PlacesOfRuns(pulse, base, n);
      if pulse[n] != 0 {
        var magv := pulse[n];
        var mag := if magv < 0 then -magv else magv;
        var m := if first then n - base else n - runPos;
        ghost var r := magRuns;
        magRuns := magRuns + [m];
        runPos := n;
        var k := 0;
        while k < mag - 1
          invariant 0 <= k <= mag - 1 && magRuns == r + [m] + Zeros(k)
        {
          magRuns := magRuns + [0];
          assert Zeros(k) + [0] == Zeros(k + 1);
          k := k + 1;
        }
        ReachPulse(r, m, mag - 1);
        signs := signs + [magv >= 0];
        first := false;
      }
    }
  }

  method PackSigns(signs: seq<bool>) returns (words: seq<RawSym>)
    ensures words == WordsOf(signs)
  {
    words := [];
    var p, numPos := 0, |signs|;
    while p < numPos
      invariant |words| <= WordCount(numPos) && words == WordsOf(signs)[..|words|]
      invariant p == if |words| == WordCount(numPos) then numPos else BATCH * |words|
      decreases WordCount(numPos) - |words|
    {
      var nbits := numPos - p;
      if nbits > BATCH { nbits := BATCH; }
      var sym := PackWord(signs[p..p + nbits]);
      ghost var j := |words|;
      words := words + [RawSym(sym, nbits)];
      assert words[j] == WordsOf(signs)[j];
      p := p + nbits;
    }
    assert WordsOf(signs)[..|words|] == WordsOf(signs);
  }

  /** One word; each or-ed bit lands on a zero. */
  method PackWord(bits: seq<bool>) returns (sym: nat)
    ensures sym == ToInt(bits)
  {
    sym := 0;
    var nbits := |bits|;
    for q := 0 to nbits
      invariant sym == ToInt(bits[..q]) * Pow2(nbits - q)
    {
      var bit := if bits[q] then 1 else 0;
      assert bits[..q + 1][..q] == bits[..q];
      assert Pow2(nbits - q) == 2 * Pow2(nbits - 1 - q);
      PackStep(ToInt(bits[..q]), bit, Pow2(nbits - 1 - q));
      sym := sym + bit * Pow2(nbits - 1 - q);
    }
    assert bits[..nbits] == bits;
  }

  lemma PackStep(x: nat, bit: nat, p: nat)
    ensures x * (2 * p) + bit * p == (2 * x + bit) * p
  {}

  method BuildPulseParams(pulse: seq<int>) returns (pp: PulseParams)
    requires |pulse| == FRAME_LEN
    ensures pp == Build(pulse)
  {
    hide FrameRuns, Signs, Norm1;
    var subfr: seq<nat> := [];
    for sf := 0 to 4
      invariant subfr == Counts(pulse)[..sf]
    {
      var s := SubframeNorm(pulse, sf);
      assert Counts(pulse)[sf] == s;
      subfr := subfr + [s];
    }
    assert subfr == Counts(pulse);
    var magRuns, signs := CollectRuns(pulse, subfr);
    var words := PackSigns(signs);
    pp := PulseParams(subfr[0] + subfr[1] + subfr[2] + subfr[3], subfr, magRuns, words);
  }

  method CollectRuns(pulse: seq<int>, subfr: seq<nat>) returns (magRuns: seq<int>, signs: seq<bool>)
    requires |pulse| == FRAME_LEN && subfr == Counts(pulse)
    ensures magRuns == FrameRuns(pulse, 4) && signs == Signs(pulse, 0, FRAME_LEN)
  {
    magRuns, signs := [], [];
    assert Collected(pulse, 0, magRuns, signs);
    for sf := 0 to 4
      invariant Collected(pulse, sf, magRuns, signs)
    {
      hide Collected;
      var m, s := SubframeSymbols(pulse, subfr, sf);
      CollectedStep(pulse, sf, magRuns, signs);
      magRuns, signs := magRuns + m, signs + s;
    }
  }

  /** Run symbols and signs of the first sf subframes. */
  ghost predicate Collected(pulse: seq<int>, sf: nat, magRuns: seq<int>, signs: seq<bool>) {
    |pulse| == FRAME_LEN && sf <= 4 && magRuns == FrameRuns(pulse, sf) && signs == Signs(pulse, 0, SUBFR_LEN * sf)
  }

  lemma CollectedStep(pulse: seq<int>, sf: nat, magRuns: seq<int>, signs: seq<bool>)
    requires sf < 4 && Collected(pulse, sf, magRuns, signs)
    ensures var lo := SUBFR_LEN * sf;
      Collected(pulse, sf + 1, magRuns + RunsOf(pulse, lo, lo + SUBFR_LEN), signs + Signs(pulse, lo, lo + SUBFR_LEN))
  {
    SupportSplit(pulse, 0, SUBFR_LEN * sf, SUBFR_LEN * sf + SUBFR_LEN);
  }

  /** One subframe's symbols; a silent one is skipped. */
  method SubframeSymbols(pulse: seq<int>, subfr: seq<nat>, sf: nat) returns (m: seq<int>, s: seq<bool>)
    requires |pulse| == FRAME_LEN && subfr == Counts(pulse) && sf < 4
    ensures var lo := SUBFR_LEN * sf; m == RunsOf(pulse, lo, lo + SUBFR_LEN) && s == Signs(pulse, lo, lo + SUBFR_LEN)
  {
    var lo := SUBFR_LEN * sf;
    if subfr[sf] > 0 {
      m, s := SubframeRuns(pulse, lo);
    } else {
      CountIs(pulse, sf);
      QuietSigns(pulse, lo, lo + SUBFR_LEN);
      m, s := [], [];
    }
  }

  lemma CountIs(v: seq<int>, sf: nat)
    requires |v| == FRAME_LEN && sf < 4
    ensures Counts(v)[sf] == Norm1(v, SUBFR_LEN * sf, SUBFR_LEN * sf + SUBFR_LEN)
  {}

  lemma {:induction false} QuietSigns(v: seq<int>, lo: nat, n: nat)
    requires lo <= n <= |v| && Norm1(v, lo, n) == 0
    ensures Signs(v, lo, n) == [] && RunsOf(v, lo, n) == []
  {
    if n > lo { QuietSigns(v, lo, n - 1); }
  }

  // ----- writing -----

  method EncodeQuarter(enc: RangeEncoder, t: PulseTabs, count: nat, s0: int)
    requires enc.Valid() && PulseOk(t) && 0 < count <= 80
    modifies enc, enc.buf
    ensures enc.Valid() && enc.sent == Sent(old(enc.sent), QuarterScript(t, count, s0))
  {
    hide RangeEncoder.Valid, CdfOp, CdfWindow, Increasing;
    var lo := if SUBFR_MAX < count then SUBFR_MAX else count;
    var minSplit := if count - SUBFR_MAX < 0 then 0 else count - SUBFR_MAX;
    SentNothing(enc.sent);
    if minSplit == lo {
      return;
    }
    var cdf := FillWindow(t.splitCmfs[count - 1], minSplit, (lo - minSplit) + 2);
    assert cdf == QuarterTable(t, count);
    SentOne(enc.sent, CdfOp(s0 - minSplit, cdf));
    enc.EncodeCDF(s0 - minSplit, cdf);
  }

  method EncodeSplit(enc: RangeEncoder, t: PulseTabs, subfr: seq<nat>)
    requires enc.Valid() && PulseOk(t) && SubfrOk(subfr) && Total4(subfr) > 0
    modifies enc, enc.buf
    ensures enc.Valid() && enc.sent == Sent(old(enc.sent), SplitScript(t, subfr))
  {
    hide RangeEncoder.Valid, CdfOp, CdfWindow, Increasing, PulseOk, Sent, QuarterTable;
    ghost var before := enc.sent;
    var total := subfr[0] + subfr[1] + subfr[2] + subfr[3];
    var finalSum := subfr[0] + subfr[1];
    EncodeHalf(enc, t, total, finalSum);
    ghost var mid := enc.sent;
    SentNothing(mid);
    if finalSum > 0 {
      EncodeQuarter(enc, t, finalSum, subfr[0]);
    }
    SentNothing(enc.sent);
    if finalSum < total {
      EncodeQuarter(enc, t, total - finalSum, subfr[2]);
    }
    ghost var a, b, c := HalfScript(t, total, finalSum), QuarterScript(t, finalSum, subfr[0]),
      QuarterScript(t, total - finalSum, subfr[2]);
    SentThen(mid, b, c);
    SentThen(before, a, Then(b, c));
  }

  method EncodeHalf(enc: RangeEncoder, t: PulseTabs, total: nat, finalSum: int)
    requires enc.Valid() && PulseOk(t) && 1 <= total <= MAX_PULSES
    modifies enc, enc.buf
    ensures enc.Valid() && enc.sent == Sent(old(enc.sent), HalfScript(t, total, finalSum))
  {
    hide RangeEncoder.Valid, CdfOp, CdfWindow, Increasing;
    var initSum := if total - SUBFR_MAX * 2 < 0 then 0 else total - SUBFR_MAX * 2;
    var lo := if total - 80 < 0 then 0 else total - 80;
    var hiBound := total - lo;
    SentNothing(enc.sent);
    if initSum < hiBound {
      var cdf := FillWindow(t.splitCmfs[total - 1], initSum - lo, (hiBound - initSum) + 2);
      assert cdf == HalfTable(t, total);
      SentOne(enc.sent, CdfOp(finalSum - initSum, cdf));
      enc.EncodeCDF(finalSum - initSum, cdf);
    }
  }

  /** The run table for the slots and pulses still open, as the loops look it up. */
  method LookupRun(t: PulseTabs, c: nat, pos: nat) returns (cdf: Cdf)
    requires PulseOk(t) && 1 <= c <= SUBFR_MAX && 1 <= pos <= SUBFR_LEN
    ensures cdf == RunTable(t, c, pos)
  {
    var oct := (pos + 7) / 8;
    var bucket := t.runlen[oct - 1];
    assert RunlenOk(8 * oct, bucket.cmfs);
    var start := bucket.maxSamples - pos;
    cdf := FillWindow(bucket.cmfs[c - 1], start, pos + 1);
  }

  method EncodeRuns(enc: RangeEncoder, t: PulseTabs, magRuns: seq<int>, magIdx: nat, cnt: nat) returns (next: nat)
    requires enc.Valid() && PulseOk(t) && magIdx + cnt <= |magRuns| && RunsOk(magRuns[magIdx..magIdx + cnt])
    modifies enc, enc.buf
    ensures enc.Valid() && next == magIdx + cnt
    ensures enc.sent == Sent(old(enc.sent), RunScript(t, magRuns[magIdx..magIdx + cnt], cnt))
  {
    hide RangeEncoder.Valid, CdfOp, Increasing, PulseOk, Sent, RunTable;
    ghost var before, runs := enc.sent, magRuns[magIdx..magIdx + cnt];
    SentNothing(before);
    var pos, c, k := SUBFR_LEN, cnt, 0;
    next := magIdx;
    while k < cnt
      invariant 0 <= k <= cnt && c == cnt - k && next == magIdx + k && pos == SUBFR_LEN - Advance(runs, k)
      invariant enc.Valid() && enc.sent == Sent(before, RunScript(t, runs, k))
    {
      AdvanceMono(runs, 0, k);
      AdvanceMono(runs, k, |runs|);
      var cdf := LookupRun(t, c, pos);
      var m := magRuns[next];
      assert m == runs[k];
      next := next + 1;
      ghost var op := CdfOp(m, cdf);
      SentOne(enc.sent, op);
      SentThen(before, RunScript(t, runs, k), One(op));
      enc.EncodeCDF(m, cdf);
      if m > 0 || k == 0 {
        pos := pos - m;
      }
      c := c - 1;
      k := k + 1;
    }
  }

  method EncodeAllRuns(enc: RangeEncoder, t: PulseTabs, magRuns: seq<int>, subfr: seq<nat>)
    requires enc.Valid() && PulseOk(t) && |subfr| == 4 && ChunksOk(magRuns, subfr, 4)
    modifies enc, enc.buf
    ensures enc.Valid() && enc.sent == Sent(old(enc.sent), AllRunsScript(t, magRuns, subfr, 4))
  {
    hide RangeEncoder.Valid, PulseOk, Sent;
    ghost var before := enc.sent;
    SentNothing(before);
    var magIdx := 0;
    for sf := 0 to 4
      invariant magIdx == Offset4(subfr, sf) && ChunksOk(magRuns, subfr, sf)
      invariant enc.Valid() && enc.sent == Sent(before, AllRunsScript(t, magRuns, subfr, sf))
    {
      assert ChunkOk(magRuns, subfr, sf);
      ChunksGrow(magRuns, subfr, sf);
      var cnt := subfr[sf];
      ghost var chunk := Chunk(magRuns, subfr, sf);
      SentNothing(enc.sent);
      SentThen(before, AllRunsScript(t, magRuns, subfr, sf), RunScript(t, chunk, cnt));
      if cnt > 0 {
        magIdx := EncodeRuns(enc, t, magRuns, magIdx, cnt);
      }
    }
  }

  method EncodeSigns(enc: RangeEncoder, words: seq<RawSym>, ghost n: nat)
    requires enc.Valid() && WordsOk(words, n)
    modifies enc, enc.buf
    ensures enc.Valid() && enc.sent == Sent(old(enc.sent), SignScript(words, n, |words|))
  {
    hide RangeEncoder.Valid, RawOp, Sent;
    ghost var before := enc.sent;
    SentNothing(before);
    for k := 0 to |words|
      invariant enc.Valid() && enc.sent == Sent(before, SignScript(words, n, k))
    {
      ghost var op := RawOp(words[k].sym, words[k].nbits);
      SentOne(enc.sent, op);
      SentThen(before, SignScript(words, n, k), One(op));
      enc.EncodeRawSymbol(words[k].sym, words[k].nbits);
    }
  }

  method EncodeSmplPulses(enc: RangeEncoder, t: PulseTabs, s1: int, pp: PulseParams)
    requires enc.Valid() && PulseOk(t) && PulseParamsOk(pp) && 0 <= s1 < 2
    modifies enc, enc.buf
    ensures enc.Valid() && enc.sent == Sent(old(enc.sent), PulseScript(t, pp))
  {
    hide RangeEncoder.Valid, PulseOk, Sent, CountOp, SplitScript;
    ghost var before := enc.sent;
    SentOne(before, CountOp(pp.total));
    EncodeCount(enc, s1, pp.total);
    if pp.total == 0 {
      return;
    }
    EncodeSplit(enc, t, pp.subfr);
    SentThen(before, One(CountOp(pp.total)), SplitScript(t, pp.subfr));
    ghost var mid := enc.sent;
    EncodeAllRuns(enc, t, pp.magRuns, pp.subfr);
    ghost var n := NumPos(pp.magRuns, pp.subfr);
    EncodeSigns(enc, pp.signSyms, n);
    SentThen(mid, AllRunsScript(t, pp.magRuns, pp.subfr, 4), SignScript(pp.signSyms, n, |pp.signSyms|));
    SentThen(before, PulseFront(t, pp), PulseBack(t, pp));
  }

  // ----- reading -----

  method DecodeQuarter(dec: RangeDecoder, t: PulseTabs, count: nat) returns (s0: nat)
    requires dec.Valid() && PulseOk(t) && 0 < count <= 80
    modifies dec
    ensures dec.Valid() && (s0, dec.State()) == ReadQuarter(t, old(dec.State()), count)
  {
    hide RangeDecoder.Valid, CdfWindow, Increasing, ReadCdf;
    var lo := if SUBFR_MAX < count then SUBFR_MAX else count;
    var minSplit := if count - SUBFR_MAX < 0 then 0 else count - SUBFR_MAX;
    if minSplit == lo {
      return minSplit;
    }
    var cdf := FillWindow(t.splitCmfs[count - 1], minSplit, (lo - minSplit) + 2);
    assert cdf == QuarterTable(t, count);
    var k := dec.DecodeCDF(cdf);
    s0 := k + minSplit;
  }

  /** One half's quarters; an empty half costs nothing. */
  method DecodePair(dec: RangeDecoder, t: PulseTabs, sum: nat) returns (s0: nat)
    requires dec.Valid() && PulseOk(t) && sum <= 80
    modifies dec
    ensures dec.Valid() && (s0, dec.State()) == ReadQuarter(t, old(dec.State()), sum) && s0 <= sum
  {
    s0 := 0;
    if sum > 0 {
      s0 := DecodeQuarter(dec, t, sum);
    }
  }

  method DecodeSplit(dec: RangeDecoder, t: PulseTabs, total: nat) returns (subfr: seq<nat>)
    requires dec.Valid() && PulseOk(t) && 1 <= total <= MAX_PULSES
    modifies dec
    ensures dec.Valid() && (subfr, dec.State()) == ReadSplit(t, old(dec.State()), total)
  {
    hide RangeDecoder.Valid, PulseOk, ReadHalf, ReadQuarter;
    var sum := DecodeHalf(dec, t, total);
    var s0 := DecodePair(dec, t, sum);
    var s2 := DecodePair(dec, t, total - sum);
    subfr := [s0, sum - s0, s2, total - sum - s2];
  }

  method DecodeHalf(dec: RangeDecoder, t: PulseTabs, total: nat) returns (sum: nat)
    requires dec.Valid() && PulseOk(t) && 1 <= total <= MAX_PULSES
    modifies dec
    ensures dec.Valid() && (sum, dec.State()) == ReadHalf(t, old(dec.State()), total)
  {
    hide RangeDecoder.Valid, CdfWindow, Increasing, ReadCdf;
    sum := if total - SUBFR_MAX * 2 < 0 then 0 else total - SUBFR_MAX * 2;
    var lo := if total - 80 < 0 then 0 else total - 80;
    var hiBound := total - lo;
    if sum < hiBound {
      var cdf := FillWindow(t.splitCmfs[total - 1], sum - lo, (hiBound - sum) + 2);
      assert cdf == HalfTable(t, total);
      var k := dec.DecodeCDF(cdf);
      sum := sum + k;
    }
  }

  /** The run symbols so far, and the decoder state they lead to. */
  ghost predicate RunsRead(t: PulseTabs, d: DecState, cnt: nat, runs: seq<int>, s: DecState)
    requires PulseOk(t) && DecInv(d)
  {
    && |runs| <= cnt <= SUBFR_MAX && (runs, s) == ReadRuns(t, d, cnt, |runs|)
    && 0 <= Reach(runs) < SUBFR_LEN && DecInv(s)
  }

  /** The loop variables mirror the run symbols so far. */
  ghost predicate RunsPlaced(runs: seq<int>, basePos: int, runPos: int, pos: int, posList: seq<int>,
                             magList: seq<int>) {
    && runPos == basePos + Reach(runs) && pos == SUBFR_LEN - Reach(runs)
    && (posList, magList) == AllPlaces(runs, basePos) && (runs != [] ==> |magList| > 0)
  }

  lemma RunsPlacedStep(runs: seq<int>, basePos: int, runPos: int, pos: int, posList: seq<int>, magList: seq<int>,
                       m: int)
    requires RunsPlaced(runs, basePos, runPos, pos, posList, magList) && m >= 0
    ensures m > 0 || runs == [] ==>
      RunsPlaced(runs + [m], basePos, runPos + m, pos - m, posList + [runPos + m], magList + [1])
    ensures !(m > 0 || runs == []) ==>
      |magList| > 0 && RunsPlaced(runs + [m], basePos, runPos, pos, posList, BumpLast(magList, 1))
  {
    AdvanceSnoc(runs, m);
    PlacesPrefix(runs + [m], runs, basePos, |runs|);
  }

  lemma RunsReadStep(t: PulseTabs, d: DecState, cnt: nat, runs: seq<int>, s: DecState)
    requires PulseOk(t) && DecInv(d) && |runs| < cnt && RunsRead(t, d, cnt, runs, s)
    ensures 0 <= Reach(runs) < SUBFR_LEN && DecInv(s) && cnt <= SUBFR_MAX
    ensures var r := ReadCdf(s, RunTable(t, cnt - |runs|, SUBFR_LEN - Reach(runs)));
      RunsRead(t, d, cnt, runs + [r.0], r.1) && r.0 >= 0
  {
    hide ReadCdf, RunTable, PulseOk, Increasing;
    var m := ReadCdf(s, RunTable(t, cnt - |runs|, SUBFR_LEN - Reach(runs))).0;
    AdvanceSnoc(runs, m);
  }

  lemma RunsReadStart(t: PulseTabs, d: DecState, cnt: nat, basePos: int)
    requires PulseOk(t) && DecInv(d) && cnt <= SUBFR_MAX
    ensures RunsRead(t, d, cnt, [], d) && RunsPlaced([], basePos, basePos, SUBFR_LEN, [], [])
  {}

  /** The run-length loop of one subframe. */
  method DecodeRuns(dec: RangeDecoder, t: PulseTabs, cnt: nat, basePos: nat)
    returns (runs: seq<int>, posList: seq<int>, magList: seq<int>)
    requires dec.Valid() && PulseOk(t) && cnt <= SUBFR_MAX
    modifies dec
    ensures dec.Valid() && (runs, dec.State()) == ReadRuns(t, old(dec.State()), cnt, cnt)
    ensures |runs| == cnt && (posList, magList) == AllPlaces(runs, basePos)
  {
    ghost var d := dec.State();
    RunsReadStart(t, d, cnt, basePos);
    runs, posList, magList := [], [], [];
    var runPos, pos, c, k := basePos, SUBFR_LEN, cnt, 0;
    while k < cnt
      invariant 0 <= k == |runs| <= cnt && c == cnt - k && dec.Valid()
      invariant RunsRead(t, d, cnt, runs, dec.State())
      invariant RunsPlaced(runs, basePos, runPos, pos, posList, magList)
    {
      hide PulseOk, RunsRead, RunsPlaced;
      runs, runPos, pos, posList, magList := DecodeRun(dec, t, c, k, runs, basePos, runPos, pos,
        posList, magList, d, cnt);
      c := c - 1;
      k := k + 1;
    }
  }

  method DecodeRunSymbol(dec: RangeDecoder, t: PulseTabs, c: nat, pos: int, ghost runs: seq<int>, ghost d: DecState,
                         ghost cnt: nat)
    returns (m: int)
    requires dec.Valid() && PulseOk(t) && DecInv(d) && |runs| < cnt <= SUBFR_MAX && c == cnt - |runs|
    requires RunsRead(t, d, cnt, runs, dec.State()) && pos == SUBFR_LEN - Reach(runs)
    modifies dec
    ensures dec.Valid() && m >= 0 && RunsRead(t, d, cnt, runs + [m], dec.State())
  {
    hide PulseOk, Increasing, ReadCdf, RunTable, Reach, RunsRead, DecInv;
    RunsReadStep(t, d, cnt, runs, dec.State());
    var cdf := LookupRun(t, c, pos);
    hide RangeDecoder.Valid;
    m := dec.DecodeCDF(cdf);
  }

  /** One run symbol: a zero after the first raises the last magnitude, anything else opens a position. */
  method DecodeRun(dec: RangeDecoder, t: PulseTabs, c: nat, k: nat, runs0: seq<int>, ghost basePos: nat, runPos0: int,
                   pos0: int, posList0: seq<int>, magList0: seq<int>,
                   ghost d: DecState, ghost cnt: nat)
    returns (runs: seq<int>, runPos: int, pos: int, posList: seq<int>, magList: seq<int>)
    requires dec.Valid() && PulseOk(t) && DecInv(d) && k == |runs0| < cnt <= SUBFR_MAX && c == cnt - k
    requires RunsRead(t, d, cnt, runs0, dec.State()) && RunsPlaced(runs0, basePos, runPos0, pos0, posList0, magList0)
    modifies dec
    ensures dec.Valid() && |runs| == k + 1
    ensures RunsRead(t, d, cnt, runs, dec.State()) && RunsPlaced(runs, basePos, runPos, pos, posList, magList)
  {
    assert pos0 == SUBFR_LEN - Reach(runs0);
    hide PulseOk, Reach, RunsRead, RunsPlaced;
    var m := DecodeRunSymbol(dec, t, c, pos0, runs0, d, cnt);
    RunsPlacedStep(runs0, basePos, runPos0, pos0, posList0, magList0, m);
    runPos, pos, posList, magList := runPos0, pos0, posList0, magList0;
    if m > 0 || k == 0 {
      runPos := runPos + m;
      posList := posList + [runPos];
      magList := magList + [1];
      pos := pos - m;
    } else {
      magList := BumpLast(magList, 1);
    }
    runs := runs0 + [m];
  }

  /** All subframes so far. */
  ghost predicate AllRunsRead(t: PulseTabs, d: DecState, subfr: seq<nat>, n: nat, magRuns: seq<int>, s: DecState,
                              pos: seq<int>, mag: seq<int>)
    requires PulseOk(t) && DecInv(d) && SubfrOk(subfr)
  {
    && n <= 4 && (magRuns, s) == ReadAllRuns(t, d, subfr, n) && (pos, mag) == FramePlaces(magRuns, subfr, n)
  }

  lemma AllRunsReadStep(t: PulseTabs, d: DecState, subfr: seq<nat>, n: nat, magRuns: seq<int>, s: DecState,
                        pos: seq<int>, mag: seq<int>)
    requires PulseOk(t) && DecInv(d) && SubfrOk(subfr) && n < 4 && AllRunsRead(t, d, subfr, n, magRuns, s, pos, mag)
    ensures DecInv(s) && subfr[n] <= SUBFR_MAX
    ensures var r := ReadRuns(t, s, subfr[n], subfr[n]); var p := AllPlaces(r.0, SUBFR_LEN * n);
      AllRunsRead(t, d, subfr, n + 1, magRuns + r.0, r.1, pos + p.0, mag + p.1)
  {
    hide PulseOk;
    var r := ReadRuns(t, s, subfr[n], subfr[n]);
    FramePlacesPrefix(magRuns + r.0, magRuns, subfr, n);
    assert Chunk(magRuns + r.0, subfr, n) == r.0;
  }

  lemma NoRuns(t: PulseTabs, d: DecState, basePos: int)
    requires PulseOk(t) && DecInv(d)
    ensures ReadRuns(t, d, 0, 0) == ([], d) && AllPlaces([], basePos) == ([], [])
  {}

  method DecodeAllRuns(dec: RangeDecoder, t: PulseTabs, subfr: seq<nat>)
    returns (magRuns: seq<int>, posList: seq<int>, magList: seq<int>)
    requires dec.Valid() && PulseOk(t) && SubfrOk(subfr)
    modifies dec
    ensures dec.Valid() && (magRuns, dec.State()) == ReadAllRuns(t, old(dec.State()), subfr, 4)
    ensures ChunksOk(magRuns, subfr, 4) && (posList, magList) == FramePlaces(magRuns, subfr, 4)
  {
    ghost var d := dec.State();
    magRuns, posList, magList := [], [], [];
    for sf := 0 to 4
      invariant dec.Valid() && AllRunsRead(t, d, subfr, sf, magRuns, dec.State(), posList, magList)
    {
      hide PulseOk, AllPlaces, AllRunsRead;
      AllRunsReadStep(t, d, subfr, sf, magRuns, dec.State(), posList, magList);
      var cnt := subfr[sf];
      var runs, p, m := [], [], [];
      NoRuns(t, dec.State(), SUBFR_LEN * sf);
      if cnt > 0 {
        runs, p, m := DecodeRuns(dec, t, cnt, SUBFR_LEN * sf);
      }
      magRuns := magRuns + runs;
      posList, magList := posList + p, magList + m;
    }
    ReadAllRunsSound(t, d, subfr, 4, magRuns);
  }

  lemma {:induction false} FramePlacesPrefix(a: seq<int>, b: seq<int>, subfr: seq<nat>, n: nat)
    requires n <= |subfr| && Offset4(subfr, n) <= |a| && Offset4(subfr, n) <= |b|
    requires a[..Offset4(subfr, n)] == b[..Offset4(subfr, n)]
    ensures FramePlaces(a, subfr, n) == FramePlaces(b, subfr, n)
  {
    if n > 0 {
      OffsetMono(subfr, n - 1, n);
      var o, p := Offset4(subfr, n - 1), Offset4(subfr, n);
      assert a[..o] == a[..p][..o] && b[..o] == b[..p][..o];
      FramePlacesPrefix(a, b, subfr, n - 1);
      assert Chunk(a, subfr, n - 1) == a[..p][o..] == b[..p][o..] == Chunk(b, subfr, n - 1);
    }
  }

  /** The signs of one word applied to part of a list. */
  function Flipped(magList: seq<int>, p: nat, sym: nat, nbits: nat, q: nat): (vals: seq<int>)
    requires q <= nbits && p + nbits <= |magList|
    ensures |vals| == |magList|
  {
    seq(|magList|, i requires 0 <= i < |magList| => if p <= i < p + q
      && !BitAt(sym, nbits, i - p) then -magList[i] else magList[i])
  }

  /** One sign word applied in place, most significant bit first. */
  method FlipSigns(magList: seq<int>, p: nat, sym: nat, nbits: nat) returns (vals: seq<int>)
    requires 1 <= nbits <= BATCH && p + nbits <= |magList| && sym < Pow2(nbits)
    ensures vals == Flipped(magList, p, sym, nbits, nbits)
  {
    vals := magList;
    var bitfield: nat := sym * Pow2(16 - nbits);
    assert FieldAt(sym, nbits, 0, bitfield);
    hide BitAt, Flipped, FieldAt, Pow2;
    FlipStart(magList, p, sym, nbits);
    for q := 0 to nbits
      invariant FieldAt(sym, nbits, q, bitfield) && vals == Flipped(magList, p, sym, nbits, q)
    {
      vals := FlipOne(magList, p, sym, nbits, q, bitfield, vals);
      bitfield := bitfield * 2;
    }
  }

  method FlipOne(ghost magList: seq<int>, p: nat, sym: nat, nbits: nat, q: nat, bitfield: nat, before: seq<int>)
    returns (vals: seq<int>)
    requires 1 <= nbits <= BATCH && p + nbits <= |magList| && sym < Pow2(nbits) && q < nbits
    requires FieldAt(sym, nbits, q, bitfield) && before == Flipped(magList, p, sym, nbits, q)
    ensures vals == Flipped(magList, p, sym, nbits, q + 1) && FieldAt(sym, nbits, q + 1, bitfield * 2)
  {
    hide BitAt, Flipped, FieldAt, Pow2;
    var sign := SignBit(sym, nbits, q, bitfield);
    FlipStep(magList, p, sym, nbits, q);
    vals := before[p + q := Signed(before[p + q], sign)];
  }

  function Signed(v: int, sign: int): (r: int)
    ensures sign == 1 ==> r == v
    ensures sign == -1 ==> r == -v
  {
    v * sign
  }

  lemma FlipStart(magList: seq<int>, p: nat, sym: nat, nbits: nat)
    requires p + nbits <= |magList|
    ensures Flipped(magList, p, sym, nbits, 0) == magList
  {}

  /** The word shifted so that bit q of it stands at bit 15. */
  predicate FieldAt(sym: nat, nbits: nat, q: nat, bitfield: nat)
    requires nbits <= BATCH
  {
    bitfield == sym * Pow2(16 - nbits + q)
  }

  /** Plus or minus one from the top bit, and the shifted field's value. */
  method SignBit(sym: nat, nbits: nat, q: nat, bitfield: nat) returns (sign: int)
    requires 1 <= nbits <= BATCH && sym < Pow2(nbits) && q < nbits && FieldAt(sym, nbits, q, bitfield)
    ensures sign == if BitAt(sym, nbits, q) then 1 else -1
    ensures FieldAt(sym, nbits, q + 1, bitfield * 2)
  {
    TopBit(sym, nbits, q);
    Doubled(sym, Pow2(16 - nbits + q));
    sign := bitfield / 0x8000 % 2 * 2 - 1;
  }

  lemma Doubled(s: nat, p: nat)
    ensures s * p * 2 == s * (2 * p)
  {}

  lemma FlipStep(magList: seq<int>, p: nat, sym: nat, nbits: nat, q: nat)
    requires q < nbits && p + nbits <= |magList|
    ensures Flipped(magList, p, sym, nbits, q)[p + q] == magList[p + q]
    ensures Flipped(magList, p, sym, nbits, q + 1) ==
      Flipped(magList, p, sym, nbits, q)[p + q := if BitAt(sym, nbits, q) then magList[p + q] else -magList[p + q]]
  {
    hide BitAt;
  }

  /** Bit 15 of the shifted word is the next sign. */
  lemma TopBit(sym: nat, nbits: nat, q: nat)
    requires q < nbits <= BATCH
    ensures sym * Pow2(16 - nbits + q) / 0x8000 % 2 == if BitAt(sym, nbits, q) then 1 else 0
  {
    var a, b := 16 - nbits + q, nbits - 1 - q;
    Pow2Sum(a, b);
    Pow2Values();
    ScaleDiv(sym, Pow2(a), Pow2(b));
  }

  lemma {:induction false} Pow2Sum(a: nat, b: nat)
    ensures Pow2(a + b) == Pow2(a) * Pow2(b)
  {
    if a > 0 { Pow2Sum(a - 1, b); Triple(Pow2(a - 1), Pow2(b)); }
  }

  lemma Triple(x: nat, y: nat)
    ensures 2 * x * y == 2 * (x * y)
  {}

  lemma ScaleDiv(s: nat, a: nat, b: nat)
    requires a > 0 && b > 0
    ensures a * b > 0 && s * a / (a * b) == s / b
  {
    CdfTables.MulMono(a, 1, b);
    var q, r := s / b, s % b;
    assert s == q * b + r;
    assert s * a == q * (a * b) + r * a by { Rearrange(q, b, r, a); }
    CdfTables.MulMono(a, r, b - 1);
    assert a * (b - 1) == a * b - a;
    ModUnique(s * a, q, r * a, a * b);
  }

  lemma Rearrange(q: nat, b: nat, r: nat, a: nat)
    ensures (q * b + r) * a == q * (a * b) + r * a
  {}

  /** The sign words so far: the state they lead to and the signs they have flipped. */
  ghost predicate SignsRead(d: DecState, magList: seq<int>, words: seq<RawSym>, s: DecState, vals: seq<int>, p: nat)
    requires DecInv(d)
  {
    var n, k := |magList|, |words|;
    && k <= WordCount(n) && (words, s) == ReadSigns(d, n, k)
    && p == (if k == WordCount(n) then n else BATCH * k)
    && |Spelled(words, k)| == p && p <= n && vals == ApplySigns(magList[..p], Spelled(words, k)) + magList[p..]
  }

  lemma SignsReadStart(d: DecState, magList: seq<int>)
    requires DecInv(d)
    ensures SignsRead(d, magList, [], d, magList, 0)
  {
    assert magList == [] + magList[0..];
  }

  lemma {:induction false} SignsReadStep(d: DecState, magList: seq<int>, words: seq<RawSym>, s: DecState,
                                         vals: seq<int>, p: nat)
    requires DecInv(d) && SignsRead(d, magList, words, s, vals, p) && p < |magList|
    ensures DecInv(s) && |words| < WordCount(|magList|) && |vals| == |magList|
    ensures var nb := WordSize(|magList|, |words|);
      && nb == (if |magList| - p >= BATCH then BATCH else |magList| - p)
      && var r := ReadRaw(s, nb);
        SignsRead(d, magList, words + [RawSym(r.0, nb)], r.1, Flipped(vals, p, r.0, nb, nb), p + nb)
  {
    hide ReadRaw, BitAt, Flipped, ApplySigns, ToBits;
    var k, nb := |words|, WordSize(|magList|, |words|);
    var r := ReadRaw(s, nb);
    var after := words + [RawSym(r.0, nb)];
    SpelledPrefix(after, words, k);
    var x, y := Spelled(words, k), ToBits(r.0, nb);
    assert Spelled(after, k + 1) == x + y;
    SignsJoin(magList, vals, p, nb, x, r.0);
  }

  method DecodeSigns(dec: RangeDecoder, magList: seq<int>) returns (words: seq<RawSym>, vals: seq<int>)
    requires dec.Valid()
    modifies dec
    ensures dec.Valid() && (words, dec.State()) == ReadSigns(old(dec.State()), |magList|, WordCount(|magList|))
    ensures WordsOk(words, |magList|) && |Spelled(words, |words|)| == |magList|
      && vals == ApplySigns(magList, Spelled(words, |words|))
  {
    ghost var d := dec.State();
    words, vals := [], magList;
    var p, n := 0, |magList|;
    SignsReadStart(d, magList);
    while p < n
      invariant dec.Valid() && SignsRead(d, magList, words, dec.State(), vals, p)
      decreases n - p
    {
      hide SignsRead, ReadRaw;
      words, vals, p := DecodeSignWord(dec, d, magList, words, vals, p);
    }
    assert magList[..n] == magList;
  }

  /** One word of up to fifteen signs. */
  method DecodeSignWord(dec: RangeDecoder, ghost d: DecState, magList: seq<int>, words0: seq<RawSym>, vals0: seq<int>,
                        p0: nat)
    returns (words: seq<RawSym>, vals: seq<int>, p: nat)
    requires dec.Valid() && DecInv(d) && p0 < |magList| && SignsRead(d, magList, words0, dec.State(), vals0, p0)
    modifies dec
    ensures dec.Valid() && p0 < p <= |magList| && SignsRead(d, magList, words, dec.State(), vals, p)
  {
    hide SignsRead, ReadRaw, RangeDecoder.Valid, DecInv, Flipped, Pow2;
    SignsReadStep(d, magList, words0, dec.State(), vals0, p0);
    var nbits := |magList| - p0;
    if nbits >= BATCH { nbits := BATCH; }
    var sym := dec.DecodeRawSymbol(nbits);
    words := words0 + [RawSym(sym, nbits)];
    vals := FlipSigns(vals0, p0, sym, nbits);
    p := p0 + nbits;
  }

  lemma {:induction false} SpelledPrefix(a: seq<RawSym>, b: seq<RawSym>, k: nat)
    requires k <= |a| && k <= |b| && forall i :: 0 <= i < k ==> a[i] == b[i]
    ensures Spelled(a, k) == Spelled(b, k)
  {
    if k > 0 { SpelledPrefix(a, b, k - 1); }
  }

  lemma SignsJoin(mag: seq<int>, vals: seq<int>, p: nat, n: nat, x: seq<bool>, sym: nat)
    requires p + n <= |mag| && |x| == p && vals == ApplySigns(mag[..p], x) + mag[p..]
    ensures Flipped(vals, p, sym, n, n) == ApplySigns(mag[..p + n], x + ToBits(sym, n)) + mag[p + n..]
  {
    hide BitAt;
    var l, r := Flipped(vals, p, sym, n, n), ApplySigns(mag[..p + n], x + ToBits(sym, n)) + mag[p + n..];
    forall i | 0 <= i < |mag| ensures l[i] == r[i] {
      if i >= p { assert vals[i] == mag[i]; }
    }
  }

  /** DecodeSmplPulses: the parameters read, and the signed vector scattered from them. */
  method DecodeSmplPulses(dec: RangeDecoder, t: PulseTabs, s1: int) returns (pp: PulseParams, pulses: array<int>)
    requires dec.Valid() && PulseOk(t) && 0 <= s1 < 2
    modifies dec
    ensures dec.Valid() && (pp, dec.State()) == ReadPulses(t, old(dec.State()))
    ensures fresh(pulses) && PulseParamsOk(pp) && pulses[..] == Assemble(pp)
  {
    hide RangeDecoder.Valid, PulseOk, ReadCount, ReadCoded, PulseParamsOk, Assemble;
    pulses := new int[FRAME_LEN](_ => 0);
    assert pulses[..] == Zeros(FRAME_LEN);
    var total := DecodeCount(dec, s1);
    if total == 0 {
      pp := Silence();
      SilenceAssembles(pp);
      return;
    }
    var vals, posList;
    pp, posList, vals := DecodeCoded(dec, t, total);
    ScatterInto(pulses, posList, vals);
  }

  lemma SilenceAssembles(pp: PulseParams)
    requires IsSilence(pp)
    ensures PulseParamsOk(pp) && Assemble(pp) == Zeros(FRAME_LEN)
  {
    IsSilenceOk(pp);
    SilentOk(pp.magRuns, pp.subfr);
  }

  /** Splits, runs and signs, with the positions and signed magnitudes they name. */
  method DecodeCoded(dec: RangeDecoder, t: PulseTabs, total: nat)
    returns (pp: PulseParams, posList: seq<int>, vals: seq<int>)
    requires dec.Valid() && PulseOk(t) && 0 < total <= MAX_PULSES
    modifies dec
    ensures dec.Valid() && (pp, dec.State()) == ReadCoded(t, old(dec.State()), total)
    ensures PulseParamsOk(pp) && |posList| == |vals| && Assemble(pp) == Scatter(posList, vals, |posList|)
  {
    hide RangeDecoder.Valid, PulseOk, ReadSplit;
    var subfr := DecodeSplit(dec, t, total);
    var magRuns, magList;
    magRuns, posList, magList := DecodeAllRuns(dec, t, subfr);
    var words;
    words, vals := DecodeSigns(dec, magList);
    pp := PulseParams(total, subfr, magRuns, words);
  }

  method ScatterInto(pulses: array<int>, posList: seq<int>, vals: seq<int>)
    requires pulses.Length == FRAME_LEN && pulses[..] == Zeros(FRAME_LEN) && |posList| == |vals|
    modifies pulses
    ensures pulses[..] == Scatter(posList, vals, |posList|)
  {
    for i := 0 to |posList|
      invariant pulses[..] == Scatter(posList, vals, i)
    {
      var pp := posList[i];
      if pp >= 0 && pp < pulses.Length {
        pulses[pp] := vals[i];
      }
    }
  }
}
