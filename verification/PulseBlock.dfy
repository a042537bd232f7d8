/** The pulse block on the wire: splits, run lengths and sign words. */
module PulseBlock {
  import opened RangeSpec
  import opened RangeProof
  import opened Symbols
  import opened PulseCount

  datatype RawSym = RawSym(sym: nat, nbits: nat)

  /** total, per-subframe counts, run symbols of all subframes, sign words. */
  datatype PulseParams = PulseParams(total: nat, subfr: seq<nat>, magRuns: seq<int>, signSyms: seq<RawSym>)

  // ----- splits -----

  predicate SubfrOk(subfr: seq<nat>) { |subfr| == 4 && forall i :: 0 <= i < 4 ==> subfr[i] <= SUBFR_MAX }

  function Total4(subfr: seq<nat>): nat
    requires |subfr| == 4
  {
    subfr[0] + subfr[1] + subfr[2] + subfr[3]
  }

  /** The first half's total, when the frame total leaves a choice. */
  function HalfScript(t: PulseTabs, total: nat, first: int): (s: Script)
    requires PulseOk(t) && 1 <= total <= MAX_PULSES
    ensures Sound(s)
  {
    if SplitLow(total) < total - SplitLow(total) then One(CdfOp(first - SplitLow(total), HalfTable(t, total)))
      else Nothing
  }

  /** The first quarter's count, when the half total leaves a choice. */
  function QuarterScript(t: PulseTabs, count: nat, first: int): (s: Script)
    requires PulseOk(t) && count <= 80
    ensures Sound(s)
  {
    if 0 < count && QuarterLow(count) < QuarterHigh(count) then One(CdfOp(first - QuarterLow(count),
      QuarterTable(t, count))) else Nothing
  }

  function ReadHalf(t: PulseTabs, d: DecState, total: nat): (r: (nat, DecState))
    requires PulseOk(t) && 1 <= total <= MAX_PULSES && DecInv(d)
    ensures SplitLow(total) <= r.0 <= total - SplitLow(total)
    ensures Holds(d, HalfScript(t, total, r.0)) && r.1 == Past(d, HalfScript(t, total, r.0))
  {
    if SplitLow(total) < total - SplitLow(total) then
      var (k, f) := ReadCdf(d, HalfTable(t, total));
      (SplitLow(total) + k, f)
    else (SplitLow(total), d)
  }

  function ReadQuarter(t: PulseTabs, d: DecState, count: nat): (r: (nat, DecState))
    requires PulseOk(t) && count <= 80 && DecInv(d)
    ensures r.0 <= SUBFR_MAX && 0 <= count - r.0 <= SUBFR_MAX
    ensures Holds(d, QuarterScript(t, count, r.0)) && r.1 == Past(d, QuarterScript(t, count, r.0))
  {
    if 0 < count && QuarterLow(count) < QuarterHigh(count) then
      var (k, f) := ReadCdf(d, QuarterTable(t, count));
      (QuarterLow(count) + k, f)
    else (QuarterLow(count), d)
  }

  lemma ReadHalfBack(t: PulseTabs, d: DecState, total: nat, first: nat)
    requires PulseOk(t) && 1 <= total <= MAX_PULSES && DecInv(d) && first <= 80 && total - 80 <= first <= total
    requires Holds(d, HalfScript(t, total, first))
    ensures ReadHalf(t, d, total) == (first, Past(d, HalfScript(t, total, first)))
  {
    hide ReadCdf, CdfOp, Reads, AfterOp, HalfTable, PulseOk;
    if SplitLow(total) < total - SplitLow(total) {
      ReadCdfBack(d, first - SplitLow(total), HalfTable(t, total));
    }
  }

  lemma ReadQuarterBack(t: PulseTabs, d: DecState, count: nat, first: nat)
    requires PulseOk(t) && count <= 80 && DecInv(d) && first <= SUBFR_MAX && 0 <= count - first <= SUBFR_MAX
    requires Holds(d, QuarterScript(t, count, first))
    ensures ReadQuarter(t, d, count) == (first, Past(d, QuarterScript(t, count, first)))
  {
    hide ReadCdf, CdfOp, Reads, AfterOp, QuarterTable, PulseOk;
    if 0 < count && QuarterLow(count) < QuarterHigh(count) {
      ReadCdfBack(d, first - QuarterLow(count), QuarterTable(t, count));
    }
  }

  function SplitScript(t: PulseTabs, subfr: seq<nat>): (s: Script)
    requires PulseOk(t) && SubfrOk(subfr) && Total4(subfr) > 0
    ensures Sound(s)
  {
    var first := subfr[0] + subfr[1];
    Then(HalfScript(t, Total4(subfr), first),
         Then(QuarterScript(t, first, subfr[0]), QuarterScript(t, Total4(subfr) - first, subfr[2])))
  }

  function ReadSplit(t: PulseTabs, d: DecState, total: nat): (r: (seq<nat>, DecState))
    requires PulseOk(t) && 1 <= total <= MAX_PULSES && DecInv(d)
    ensures SubfrOk(r.0) && Total4(r.0) == total && DecInv(r.1)
  {
    var (first, d1) := ReadHalf(t, d, total);
    var (s0, d2) := ReadQuarter(t, d1, first);
    var (s2, d3) := ReadQuarter(t, d2, total - first);
    ([s0, first - s0, s2, total - first - s2], d3)
  }

  lemma SplitParts(t: PulseTabs, subfr: seq<nat>, total: nat, first: nat, s0: nat, s2: nat)
    requires PulseOk(t) && first <= total && s0 <= first && s2 <= total - first
    requires subfr == [s0, first - s0, s2, total - first - s2] && SubfrOk(subfr) && 0 < total <= MAX_PULSES
      && first <= 80 && total - first <= 80
    ensures Total4(subfr) == total
    ensures SplitScript(t, subfr) ==
      Then(HalfScript(t, total, first), Then(QuarterScript(t, first, s0), QuarterScript(t, total - first, s2)))
  {
    hide HalfScript, QuarterScript, PulseOk;
  }

  /** Any input yields four counts of at most 40 that sum to the total, and they are what was read. */
  lemma {:induction false} ReadSplitSound(t: PulseTabs, d: DecState, total: nat)
    requires PulseOk(t) && 1 <= total <= MAX_PULSES && DecInv(d)
    ensures var (subfr, f) := ReadSplit(t, d, total);
      Holds(d, SplitScript(t, subfr)) && f == Past(d, SplitScript(t, subfr))
  {
    hide HalfScript, QuarterScript, PulseOk, Holds, Past, ReadHalf, ReadQuarter, SplitScript, Total4, DecInv;
    var (first, d1) := ReadHalf(t, d, total);
    assert first <= 80 && total - first <= 80;
    hide SplitLow;
    var (s0, d2) := ReadQuarter(t, d1, first);
    var s2 := ReadQuarter(t, d2, total - first).0;
    SplitParts(t, ReadSplit(t, d, total).0, total, first, s0, s2);
    HoldsThen(d1, QuarterScript(t, first, s0), QuarterScript(t, total - first, s2));
    HoldsThen(d, HalfScript(t, total, first), Then(QuarterScript(t, first, s0), QuarterScript(t, total - first, s2)));
  }

  lemma ReadSplitBack(t: PulseTabs, d: DecState, subfr: seq<nat>)
    requires PulseOk(t) && SubfrOk(subfr) && Total4(subfr) > 0 && DecInv(d) && Holds(d, SplitScript(t, subfr))
    ensures ReadSplit(t, d, Total4(subfr)) == (subfr, Past(d, SplitScript(t, subfr)))
  {
    hide ReadHalf, ReadQuarter, HalfScript, QuarterScript, PulseOk, Holds, Past;
    var total, first := Total4(subfr), subfr[0] + subfr[1];
    var a, b, c := HalfScript(t, total, first), QuarterScript(t, first, subfr[0]),
      QuarterScript(t, total - first, subfr[2]);
    HoldsThen(d, a, Then(b, c));
    HoldsThen(Past(d, a), b, c);
    ReadHalfBack(t, d, total, first);
    ReadQuarterBack(t, Past(d, a), first, subfr[0]);
    ReadQuarterBack(t, Past(Past(d, a), b), total - first, subfr[2]);
    assert subfr == [subfr[0], first - subfr[0], subfr[2], total - first - subfr[2]];
  }

  // ----- run lengths of one subframe -----

  function Advance(runs: seq<int>, k: nat): int
    requires k <= |runs|
  {
    if k == 0 then 0 else Advance(runs, k - 1) + runs[k - 1]
  }

  /** Every run symbol stays inside the slots left of the subframe. */
  predicate RunsOk(runs: seq<int>) {
    && |runs| <= SUBFR_MAX
    && (forall k :: 0 <= k < |runs| ==> runs[k] >= 0)
    && Advance(runs, |runs|) < SUBFR_LEN
  }

  lemma {:induction false} AdvanceMono(runs: seq<int>, i: nat, j: nat)
    requires i <= j <= |runs| && forall k :: 0 <= k < |runs| ==> runs[k] >= 0
    ensures 0 <= Advance(runs, i) <= Advance(runs, j)
  {
    if i < j { AdvanceMono(runs, i, j - 1); } else if i > 0 { AdvanceMono(runs, i - 1, i - 1); }
  }

  lemma {:induction false} AdvancePrefix(a: seq<int>, b: seq<int>, k: nat)
    requires k <= |a| && k <= |b| && forall i :: 0 <= i < k ==> a[i] == b[i]
    ensures Advance(a, k) == Advance(b, k)
  {
    if k > 0 { AdvancePrefix(a, b, k - 1); }
  }

  /** The k-th run symbol's table: pulses and slots still open. */
  function RunStepTable(t: PulseTabs, cnt: nat, k: nat, used: int): (w: Cdf)
    requires PulseOk(t) && k < cnt <= SUBFR_MAX && 0 <= used < SUBFR_LEN
    ensures Increasing(w) && |w| == SUBFR_LEN - used + 1
  {
    RunTable(t, cnt - k, SUBFR_LEN - used)
  }

  /** The first k run symbols of a subframe with |runs| pulses. */
  function RunScript(t: PulseTabs, runs: seq<int>, k: nat): (s: Script)
    requires PulseOk(t) && RunsOk(runs) && k <= |runs|
    ensures Sound(s)
  {
    if k == 0 then Nothing else
      AdvanceMono(runs, k - 1, |runs|);
      Then(RunScript(t, runs, k - 1), One(CdfOp(runs[k - 1], RunStepTable(t, |runs|, k - 1, Advance(runs, k - 1)))))
  }

  /** Run symbols whose last position is inside the subframe. */
  predicate RunsInside(runs: seq<int>) {
    (forall i :: 0 <= i < |runs| ==> runs[i] >= 0) && 0 <= Advance(runs, |runs|) < SUBFR_LEN
  }

  lemma {:induction false} InsideSnoc(runs: seq<int>, m: int)
    requires RunsInside(runs) && 0 <= m < SUBFR_LEN - Advance(runs, |runs|)
    ensures RunsInside(runs + [m])
  {
    AdvancePrefix(runs, runs + [m], |runs|);
    assert Advance(runs + [m], |runs| + 1) == Advance(runs, |runs|) + m;
    hide Advance;
  }

  /** The first k of cnt run symbols; on any input the position stays inside the subframe. */
  function ReadRuns(t: PulseTabs, d: DecState, cnt: nat, k: nat): (r: (seq<int>, DecState))
    requires PulseOk(t) && k <= cnt <= SUBFR_MAX && DecInv(d)
    ensures |r.0| == k && RunsInside(r.0) && DecInv(r.1)
  {
    hide PulseOk, DecInv, ReadCdf, RunStepTable;
    if k == 0 then ([], d)
    else
      var (runs, d1) := ReadRuns(t, d, cnt, k - 1);
      var (m, d2) := ReadCdf(d1, RunStepTable(t, cnt, k - 1, Advance(runs, k - 1)));
      InsideSnoc(runs, m);
      (runs + [m], d2)
  }

  /** Whatever the input, the run symbols read are the script that was there. */
  lemma {:induction false} ReadRunsSound(t: PulseTabs, d: DecState, cnt: nat, k: nat, all: seq<int>)
    requires PulseOk(t) && k <= cnt <= SUBFR_MAX && DecInv(d)
    requires RunsOk(all) && |all| == cnt && all[..k] == ReadRuns(t, d, cnt, k).0
    ensures Holds(d, RunScript(t, all, k)) && ReadRuns(t, d, cnt, k).1 == Past(d, RunScript(t, all, k))
  {
    hide ReadCdf, CdfOp, Reads, AfterOp, RunStepTable, PulseOk, Increasing, Holds, Past;
    if k == 0 {
      HoldsNothing(d);
    } else {
      var (runs, d1) := ReadRuns(t, d, cnt, k - 1);
      var (m, d2) := ReadCdf(d1, RunStepTable(t, cnt, k - 1, Advance(runs, k - 1)));
      assert all[..k] == runs + [m];
      assert all[..k - 1] == runs && all[k - 1] == m;
      ReadRunsSound(t, d, cnt, k - 1, all);
      AdvancePrefix(all, runs, k - 1);
      var op := CdfOp(m, RunStepTable(t, cnt, k - 1, Advance(runs, k - 1)));
      HoldsOne(d1, op);
      HoldsThen(d, RunScript(t, all, k - 1), One(op));
    }
  }

  lemma {:induction false} ReadRunsBack(t: PulseTabs, d: DecState, runs: seq<int>, k: nat)
    requires PulseOk(t) && RunsOk(runs) && k <= |runs| && DecInv(d) && Holds(d, RunScript(t, runs, k))
    ensures ReadRuns(t, d, |runs|, k) == (runs[..k], Past(d, RunScript(t, runs, k)))
  {
    hide ReadCdf, CdfOp, Reads, AfterOp, RunStepTable, PulseOk, Increasing, Holds, Past;
    if k == 0 {
      HoldsNothing(d);
    } else {
      AdvanceMono(runs, k - 1, |runs|);
      var w := RunStepTable(t, |runs|, k - 1, Advance(runs, k - 1));
      var op := CdfOp(runs[k - 1], w);
      HoldsThen(d, RunScript(t, runs, k - 1), One(op));
      var d1 := Past(d, RunScript(t, runs, k - 1));
      HoldsOne(d1, op);
      ReadRunsBack(t, d, runs, k - 1);
      AdvancePrefix(runs, runs[..k - 1], k - 1);
      ReadCdfBack(d1, runs[k - 1], w);
      assert runs[..k] == runs[..k - 1] + [runs[k - 1]];
    }
  }

  // ----- all subframes -----

  /** Run symbols of subframe sf inside the frame's flat list. */
  function Offset4(subfr: seq<nat>, sf: nat): nat
    requires sf <= |subfr|
  {
    if sf == 0 then 0 else Offset4(subfr, sf - 1) + subfr[sf - 1]
  }

  lemma {:induction false} OffsetMono(subfr: seq<nat>, i: nat, j: nat)
    requires i <= j <= |subfr|
    ensures Offset4(subfr, i) <= Offset4(subfr, j)
  {
    if i < j { OffsetMono(subfr, i, j - 1); }
  }

  function Chunk(magRuns: seq<int>, subfr: seq<nat>, sf: nat): (c: seq<int>)
    requires sf < |subfr| && Offset4(subfr, sf + 1) <= |magRuns|
    ensures |c| == subfr[sf]
  {
    magRuns[Offset4(subfr, sf)..Offset4(subfr, sf + 1)]
  }

  predicate ChunkOk(magRuns: seq<int>, subfr: seq<nat>, sf: nat) {
    sf < |subfr| && Offset4(subfr, sf + 1) <= |magRuns| && RunsOk(Chunk(magRuns, subfr, sf))
  }

  predicate ChunksOk(magRuns: seq<int>, subfr: seq<nat>, n: nat) {
    && n <= |subfr| && Offset4(subfr, n) <= |magRuns|
    && forall sf :: 0 <= sf < n ==> ChunkOk(magRuns, subfr, sf)
  }

  lemma ChunksShrink(magRuns: seq<int>, subfr: seq<nat>, n: nat)
    requires n > 0 && ChunksOk(magRuns, subfr, n)
    ensures ChunksOk(magRuns, subfr, n - 1) && RunsOk(Chunk(magRuns, subfr, n - 1))
  {
    OffsetMono(subfr, n - 1, n);
    assert ChunkOk(magRuns, subfr, n - 1);
  }

  lemma ChunksGrow(magRuns: seq<int>, subfr: seq<nat>, n: nat)
    requires ChunksOk(magRuns, subfr, n) && ChunkOk(magRuns, subfr, n)
    ensures ChunksOk(magRuns, subfr, n + 1)
  {}

  function AllRunsScript(t: PulseTabs, magRuns: seq<int>, subfr: seq<nat>, n: nat): (s: Script)
    requires PulseOk(t) && ChunksOk(magRuns, subfr, n)
    ensures Sound(s)
  {
    if n == 0 then Nothing else
      ChunksShrink(magRuns, subfr, n);
      Then(AllRunsScript(t, magRuns, subfr, n - 1), RunScript(t, Chunk(magRuns, subfr, n - 1), subfr[n - 1]))
  }

  function ReadAllRuns(t: PulseTabs, d: DecState, subfr: seq<nat>, n: nat): (r: (seq<int>, DecState))
    requires PulseOk(t) && n <= |subfr| && (forall i :: 0 <= i < |subfr| ==> subfr[i] <= SUBFR_MAX) && DecInv(d)
    ensures |r.0| == Offset4(subfr, n) && DecInv(r.1)
  {
    if n == 0 then ([], d)
    else
      var (before, d1) := ReadAllRuns(t, d, subfr, n - 1);
      var (runs, d2) := ReadRuns(t, d1, subfr[n - 1], subfr[n - 1]);
      (before + runs, d2)
  }

  lemma {:induction false} ReadAllRunsBack(t: PulseTabs, d: DecState, magRuns: seq<int>, subfr: seq<nat>, n: nat)
    requires PulseOk(t) && ChunksOk(magRuns, subfr, n) && (forall i :: 0 <= i < |subfr| ==> subfr[i] <= SUBFR_MAX)
      && DecInv(d)
    requires Holds(d, AllRunsScript(t, magRuns, subfr, n))
    ensures ReadAllRuns(t, d, subfr, n) == (magRuns[..Offset4(subfr, n)], Past(d, AllRunsScript(t, magRuns, subfr, n)))
  {
    hide PulseOk, RunScript, ReadRuns, Holds, Past;
    if n == 0 {
      HoldsNothing(d);
    } else {
      ChunksShrink(magRuns, subfr, n);
      OffsetMono(subfr, n - 1, n);
      var chunk := Chunk(magRuns, subfr, n - 1);
      HoldsThen(d, AllRunsScript(t, magRuns, subfr, n - 1), RunScript(t, chunk, subfr[n - 1]));
      ReadAllRunsBack(t, d, magRuns, subfr, n - 1);
      ReadRunsBack(t, Past(d, AllRunsScript(t, magRuns, subfr, n - 1)), chunk, subfr[n - 1]);
      assert chunk[..subfr[n - 1]] == chunk;
      assert magRuns[..Offset4(subfr, n)] == magRuns[..Offset4(subfr, n - 1)] + chunk;
    }
  }

  /** Any input yields run symbols that stay inside their subframes, and they are what was read. */
  lemma {:induction false} ReadAllRunsSound(t: PulseTabs, d: DecState, subfr: seq<nat>, n: nat, all: seq<int>)
    requires PulseOk(t) && n <= |subfr| && (forall i :: 0 <= i < |subfr| ==> subfr[i] <= SUBFR_MAX) && DecInv(d)
    requires Offset4(subfr, n) <= |all| && all[..Offset4(subfr, n)] == ReadAllRuns(t, d, subfr, n).0
    ensures ChunksOk(all, subfr, n)
    ensures Holds(d, AllRunsScript(t, all, subfr, n))
      && ReadAllRuns(t, d, subfr, n).1 == Past(d, AllRunsScript(t, all, subfr, n))
  {
    hide PulseOk, RunScript, ReadRuns, Holds, Past;
    if n == 0 {
      HoldsNothing(d);
    } else {
      OffsetMono(subfr, n - 1, n);
      var (before, d1) := ReadAllRuns(t, d, subfr, n - 1);
      var (runs, d2) := ReadRuns(t, d1, subfr[n - 1], subfr[n - 1]);
      assert all[..Offset4(subfr, n)] == before + runs;
      assert all[..Offset4(subfr, n - 1)] == before;
      assert Chunk(all, subfr, n - 1) == runs;
      ReadAllRunsSound(t, d, subfr, n - 1, all);
      assert runs[..subfr[n - 1]] == runs;
      ReadRunsSound(t, d1, subfr[n - 1], subfr[n - 1], runs);
      ChunksGrow(all, subfr, n - 1);
      HoldsThen(d, AllRunsScript(t, all, subfr, n - 1), RunScript(t, runs, subfr[n - 1]));
    }
  }
}
