/** What run symbols and sign words mean: the signed pulse vector of a frame. */
module PulseVector {
  import opened PulseCount
  import opened PulseBlock

  const FRAME_LEN := 320

  // ----- run symbols to positions and magnitudes -----

  /** Positions and magnitudes after the first k run symbols: zero after the first repeats the last position. */
  function Places(runs: seq<int>, base: int, k: nat): (r: (seq<int>, seq<int>))
    requires k <= |runs|
    ensures |r.0| == |r.1| && (k > 0 ==> |r.0| > 0)
  {
    if k == 0 then ([], [])
    else
      var (pos, mag) := Places(runs, base, k - 1);
      if runs[k - 1] > 0 || k == 1 then (pos + [base + Advance(runs, k)], mag + [1])
      else (pos, BumpLast(mag, 1))
  }

  lemma {:induction false} PlacesPrefix(a: seq<int>, b: seq<int>, base: int, k: nat)
    requires k <= |a| && k <= |b| && forall i :: 0 <= i < k ==> a[i] == b[i]
    ensures Places(a, base, k) == Places(b, base, k)
  {
    if k > 0 {
      PlacesPrefix(a, b, base, k - 1);
      AdvancePrefix(a, b, k);
    }
  }

  function Zeros(z: nat): (s: seq<int>)
    ensures |s| == z && forall i :: 0 <= i < z ==> s[i] == 0
  {
    seq(z, _ => 0)
  }

  lemma {:induction false} AdvanceZeros(runs: seq<int>, z: nat)
    ensures Advance(runs + Zeros(z), |runs| + z) == Advance(runs, |runs|)
  {
    if z == 0 {
      AdvancePrefix(runs + Zeros(0), runs, |runs|);
    } else {
      AdvanceZeros(runs, z - 1);
      AdvancePrefix(runs + Zeros(z), runs + Zeros(z - 1), |runs| + z - 1);
    }
  }

  function BumpLast(mag: seq<int>, z: int): seq<int>
    requires |mag| > 0
  {
    mag[..|mag| - 1] + [mag[|mag| - 1] + z]
  }

  lemma BumpTwice(mag: seq<int>, z: int)
    requires |mag| > 0
    ensures BumpLast(BumpLast(mag, z), 1) == BumpLast(mag, z + 1) && BumpLast(mag, 0) == mag
  {}

  lemma BumpSnoc(mag: seq<int>, x: int, z: int)
    ensures BumpLast(mag + [x], z) == mag + [x + z]
  {}

  /** A zero symbol repeats the last position. */
  lemma {:induction false} PlacesZero(runs: seq<int>, base: int, k: nat)
    requires 1 < k <= |runs| && runs[k - 1] == 0
    ensures var front := Places(runs, base, k - 1);
      |front.1| > 0 && Places(runs, base, k) == (front.0, BumpLast(front.1, 1))
  {
    hide BumpLast;
  }

  lemma {:induction false} PlacesZeros(runs: seq<int>, base: int, z: nat)
    requires |runs| > 0
    ensures Places(runs + Zeros(z), base, |runs| + z).0 == Places(runs, base, |runs|).0
    ensures Places(runs + Zeros(z), base, |runs| + z).1 == BumpLast(Places(runs, base, |runs|).1, z)
  {
    hide Places, BumpLast;
    BumpTwice(Places(runs, base, |runs|).1, if z == 0 then 0 else z - 1);
    if z == 0 {
      PlacesPrefix(runs + Zeros(0), runs, base, |runs|);
    } else {
      PlacesZeros(runs, base, z - 1);
      PlacesPrefix(runs + Zeros(z), runs + Zeros(z - 1), base, |runs| + z - 1);
      PlacesZero(runs + Zeros(z), base, |runs| + z);
    }
  }

  // ----- a vector to run symbols -----

  function Abs(x: int): nat { if x < 0 then -x else x }

  /** L1 norm of slots lo .. n. */
  function Norm1(v: seq<int>, lo: nat, n: nat): nat
    requires lo <= n <= |v|
  {
    if n == lo then 0 else Norm1(v, lo, n - 1) + Abs(v[n - 1])
  }

  /** Nonzero slots, in order. */
  function Support(v: seq<int>, lo: nat, n: nat): seq<int>
    requires lo <= n <= |v|
  {
    if n == lo then [] else Support(v, lo, n - 1) + if v[n - 1] != 0 then [n - 1] else []
  }

  function Mags(v: seq<int>, lo: nat, n: nat): seq<int>
    requires lo <= n <= |v|
  {
    if n == lo then [] else Mags(v, lo, n - 1) + if v[n - 1] != 0 then [Abs(v[n - 1])] else []
  }

  /** The signs of the nonzero slots, true for positive. */
  function Signs(v: seq<int>, lo: nat, n: nat): seq<bool>
    requires lo <= n <= |v|
  {
    if n == lo then [] else Signs(v, lo, n - 1) + if v[n - 1] != 0 then [v[n - 1] > 0] else []
  }

  /** The run symbols of slots base .. n: distance to the last pulse, then a zero for each repeat. */
  function RunsOf(v: seq<int>, base: nat, n: nat): seq<int>
    requires base <= n <= |v|
  {
    RunsUpTo(v, base, n)
  }

  function RunsUpTo(v: seq<int>, base: nat, n: nat): seq<int>
    requires base <= n <= |v|
  {
    if n == base then [] else
      var r := RunsUpTo(v, base, n - 1);
      if v[n - 1] == 0 then r
      else r + [n - 1 - (base + Reach(r))] + Zeros(Abs(v[n - 1]) - 1)
  }

  lemma AdvanceSnoc(r: seq<int>, m: int)
    ensures Advance(r + [m], |r| + 1) == Advance(r, |r|) + m
  {
    AdvancePrefix(r + [m], r, |r|);
  }

  lemma PlacesSnoc(r: seq<int>, m: int, base: int)
    requires m > 0 || r == []
    ensures Places(r + [m], base, |r| + 1).0 == Places(r, base, |r|).0 + [base + Advance(r, |r|) + m]
    ensures Places(r + [m], base, |r| + 1).1 == Places(r, base, |r|).1 + [1]
  {
    PlacesPrefix(r + [m], r, base, |r|);
    AdvanceSnoc(r, m);
  }

  /** What the run symbols of slots base .. n say. */
  predicate RunsMean(v: seq<int>, base: nat, n: nat, r: seq<int>)
    requires base <= n <= |v|
  {
    && AllPlaces(r, base).0 == Support(v, base, n) && AllPlaces(r, base).1 == Mags(v, base, n)
    && |r| == Norm1(v, base, n)
    && NonNegative(r)
    && 0 <= Reach(r) && (if r == [] then Reach(r) == 0 else base + Reach(r) < n)
  }

  function AllPlaces(r: seq<int>, base: int): (seq<int>, seq<int>) { Places(r, base, |r|) }

  function Reach(r: seq<int>): int { Advance(r, |r|) }

  lemma ReachPulse(r: seq<int>, m: int, z: nat)
    ensures Reach(r + [m] + Zeros(z)) == Reach(r) + m
  {
    AdvanceSnoc(r, m);
    AdvanceZeros(r + [m], z);
  }

  /** One more pulse of magnitude 1 + z after a gap of m. */
  lemma PlacesPulse(r: seq<int>, base: int, m: int, z: nat)
    requires m > 0 || r == []
    ensures AllPlaces(r + [m] + Zeros(z), base).0 == AllPlaces(r, base).0 + [base + Reach(r) + m]
    ensures AllPlaces(r + [m] + Zeros(z), base).1 == AllPlaces(r, base).1 + [1 + z]
  {
    PlacesSnoc(r, m, base);
    PlacesZeros(r + [m], base, z);
    BumpSnoc(Places(r, base, |r|).1, 1, z);
  }

  lemma SnocEq(a: seq<int>, b: seq<int>, x: int, y: int)
    requires a == b && x == y
    ensures a + [x] == b + [y]
  {}

  lemma StepDefs(v: seq<int>, base: nat, n: nat)
    requires base <= n < |v| && v[n] != 0
    ensures Support(v, base, n + 1) == Support(v, base, n) + [n]
      && Mags(v, base, n + 1) == Mags(v, base, n) + [Abs(v[n])]
    ensures Norm1(v, base, n + 1) == Norm1(v, base, n) + Abs(v[n]) && Abs(v[n]) >= 1
  {}

  predicate NonNegative(r: seq<int>) { forall i :: 0 <= i < |r| ==> r[i] >= 0 }

  lemma NonNegativePulse(r: seq<int>, m: int, z: nat)
    requires NonNegative(r) && m >= 0
    ensures NonNegative(r + [m] + Zeros(z)) && |r + [m] + Zeros(z)| == |r| + 1 + z
  {}

  lemma RunsMeanStep(v: seq<int>, base: nat, n: nat, r: seq<int>, m: int, z: nat)
    requires base <= n < |v| && v[n] != 0 && RunsMean(v, base, n, r)
    requires m == n - (base + Reach(r)) && z == Abs(v[n]) - 1
    ensures RunsMean(v, base, n + 1, r + [m] + Zeros(z))
  {
    hide AllPlaces, Reach, Support, Mags, NonNegative;
    StepDefs(v, base, n);
    ReachPulse(r, m, z);
    PlacesPulse(r, base, m, z);
    NonNegativePulse(r, m, z);
    SnocEq(AllPlaces(r, base).0, Support(v, base, n), base + Reach(r) + m, n);
    SnocEq(AllPlaces(r, base).1, Mags(v, base, n), 1 + z, Abs(v[n]));
  }

  lemma NothingMeant(v: seq<int>, base: nat)
    requires base <= |v|
    ensures RunsMean(v, base, base, [])
  {}

  lemma SilentSlot(v: seq<int>, base: nat, n: nat, r: seq<int>)
    requires base < n <= |v| && v[n - 1] == 0 && RunsMean(v, base, n - 1, r)
    ensures RunsMean(v, base, n, r)
  {
    assert Support(v, base, n) == Support(v, base, n - 1) && Mags(v, base, n) == Mags(v, base, n - 1);
  }

  /** The run symbols of a vector lead back to its nonzero slots and their magnitudes. */
  lemma {:induction false} PlacesOfRuns(v: seq<int>, base: nat, n: nat)
    requires base <= n <= |v|
    ensures RunsMean(v, base, n, RunsOf(v, base, n))
  {
    hide RunsMean, Support, Mags, Reach;
    if n == base {
      NothingMeant(v, base);
    } else {
      PlacesOfRuns(v, base, n - 1);
      var r := RunsOf(v, base, n - 1);
      if v[n - 1] != 0 {
        RunsMeanStep(v, base, n - 1, r, n - 1 - (base + Reach(r)), Abs(v[n - 1]) - 1);
      } else {
        SilentSlot(v, base, n, r);
      }
    }
  }

  // ----- the frame -----

  predicate VectorOk(v: seq<int>) {
    |v| == FRAME_LEN && forall sf :: 0 <= sf < 4 ==> Norm1(v, SUBFR_LEN * sf, SUBFR_LEN * sf + SUBFR_LEN) <= SUBFR_MAX
  }

  function Counts(v: seq<int>): (c: seq<nat>)
    requires |v| == FRAME_LEN
    ensures |c| == 4
  {
    [Norm1(v, 0, 80), Norm1(v, 80, 160), Norm1(v, 160, 240), Norm1(v, 240, 320)]
  }

  /** The run symbols of the first n subframes. */
  function FrameRuns(v: seq<int>, n: nat): seq<int>
    requires |v| == FRAME_LEN && n <= 4
  {
    if n == 0 then [] else FrameRuns(v, n - 1) + RunsOf(v, SUBFR_LEN * (n - 1), SUBFR_LEN * n)
  }

  /** Positions and magnitudes of the first n subframes of a flat run list. */
  function FramePlaces(magRuns: seq<int>, subfr: seq<nat>, n: nat): (r: (seq<int>, seq<int>))
    requires n <= |subfr| && Offset4(subfr, n) <= |magRuns|
    ensures |r.0| == |r.1|
  {
    if n == 0 then ([], []) else
      OffsetMono(subfr, n - 1, n);
      var (pos, mag) := FramePlaces(magRuns, subfr, n - 1);
      var (p, m) := Places(Chunk(magRuns, subfr, n - 1), SUBFR_LEN * (n - 1), subfr[n - 1]);
      (pos + p, mag + m)
  }

  lemma {:induction false} SupportSplit(v: seq<int>, lo: nat, mid: nat, n: nat)
    requires lo <= mid <= n <= |v|
    ensures Support(v, lo, n) == Support(v, lo, mid) + Support(v, mid, n)
    ensures Mags(v, lo, n) == Mags(v, lo, mid) + Mags(v, mid, n)
    ensures Signs(v, lo, n) == Signs(v, lo, mid) + Signs(v, mid, n)
  {
    if n > mid { SupportSplit(v, lo, mid, n - 1); }
  }

  /** Nonzero slots and their magnitudes. */
  function Occupied(v: seq<int>, lo: nat, n: nat): (seq<int>, seq<int>)
    requires lo <= n <= |v|
  {
    (Support(v, lo, n), Mags(v, lo, n))
  }

  lemma {:induction false} FramePlacesOfRuns(v: seq<int>, magRuns: seq<int>, n: nat)
    requires |v| == FRAME_LEN && n <= 4 && FrameRuns(v, n) <= magRuns
    ensures Offset4(Counts(v), n) == |FrameRuns(v, n)|
    ensures FramePlaces(magRuns, Counts(v), n) == Occupied(v, 0, SUBFR_LEN * n)
  {
    if n > 0 {
      hide Occupied, Counts, RunsOf;
      RunsGrow(v, n);
      FramePlacesOfRuns(v, magRuns, n - 1);
      NextSubframe(v, magRuns, n);
    }
  }

  lemma RunsGrow(v: seq<int>, n: nat)
    requires |v| == FRAME_LEN && 0 < n <= 4
    ensures var lo := SUBFR_LEN * (n - 1); FrameRuns(v, n) == FrameRuns(v, n - 1) + RunsOf(v, lo, lo + SUBFR_LEN)
  {
    hide RunsOf;
    assert SUBFR_LEN * n == SUBFR_LEN * (n - 1) + SUBFR_LEN;
  }

  /** Subframe n's own run symbols, where they stand in the frame's list. */
  lemma NextSubframe(v: seq<int>, magRuns: seq<int>, n: nat)
    requires |v| == FRAME_LEN && 0 < n <= 4 && FrameRuns(v, n) <= magRuns
    requires Offset4(Counts(v), n - 1) == |FrameRuns(v, n - 1)| && Offset4(Counts(v), n - 1) <= |magRuns|
    requires FramePlaces(magRuns, Counts(v), n - 1) == Occupied(v, 0, SUBFR_LEN * (n - 1))
    ensures Offset4(Counts(v), n) == |FrameRuns(v, n)|
    ensures FramePlaces(magRuns, Counts(v), n) == Occupied(v, 0, SUBFR_LEN * n)
    ensures Chunk(magRuns, Counts(v), n - 1) == RunsOf(v, SUBFR_LEN * (n - 1), SUBFR_LEN * (n - 1) + SUBFR_LEN)
  {
    hide Counts, AllPlaces, Occupied, Chunk, RunsOf;
    var c, lo := Counts(v), SUBFR_LEN * (n - 1);
    var hi := lo + SUBFR_LEN;
    var runs := RunsOf(v, lo, hi);
    RunsGrow(v, n);
    RunsPlaces(v, n - 1);
    OccupiedSplit(v, lo, hi);
    NextChunk(magRuns, c, n, FrameRuns(v, n - 1), runs, FrameRuns(v, n), Occupied(v, 0, lo), Occupied(v, lo, hi));
    assert SUBFR_LEN * n == hi;
  }

  lemma NextChunk(magRuns: seq<int>, c: seq<nat>, n: nat, before: seq<int>, runs: seq<int>, after: seq<int>,
                  front: (seq<int>, seq<int>), last: (seq<int>, seq<int>))
    requires 0 < n <= |c| && after == before + runs && after <= magRuns && |runs| == c[n - 1]
    requires Offset4(c, n - 1) == |before| && FramePlaces(magRuns, c, n - 1) == front
      && AllPlaces(runs, SUBFR_LEN * (n - 1)) == last
    ensures Offset4(c, n) == |after| && Chunk(magRuns, c, n - 1) == runs
    ensures FramePlaces(magRuns, c, n) == (front.0 + last.0, front.1 + last.1)
  {
    hide AllPlaces;
    Within(before, runs, after, magRuns);
    ChunkAt(magRuns, c, n, runs);
    FramePlacesStep(magRuns, c, n, runs);
  }

  lemma OccupiedSplit(v: seq<int>, mid: nat, n: nat)
    requires mid <= n <= |v|
    ensures var a, b := Occupied(v, 0, mid), Occupied(v, mid, n); Occupied(v, 0, n) == (a.0 + b.0, a.1 + b.1)
  {
    SupportSplit(v, 0, mid, n);
  }

  lemma Within(a: seq<int>, b: seq<int>, ab: seq<int>, all: seq<int>)
    requires ab == a + b && ab <= all
    ensures |a| + |b| <= |all| && all[|a|..|a| + |b|] == b
  {
    assert all[..|ab|] == a + b;
    assert all[|a|..|a| + |b|] == all[..|ab|][|a|..];
  }

  /** The part of PlacesOfRuns a frame needs. */
  lemma RunsPlaces(v: seq<int>, sf: nat)
    requires |v| == FRAME_LEN && sf < 4
    ensures var lo := SUBFR_LEN * sf; var runs := RunsOf(v, lo, lo + SUBFR_LEN);
      AllPlaces(runs, lo) == Occupied(v, lo, lo + SUBFR_LEN) && |runs| == Counts(v)[sf]
  {
    PlacesOfRuns(v, SUBFR_LEN * sf, SUBFR_LEN * sf + SUBFR_LEN);
    CountAt(v, sf);
    hide AllPlaces, NonNegative, Reach, Counts;
  }

  /** The runs that follow the first n - 1 subframes are the chunk of the last. */
  lemma ChunkAt(magRuns: seq<int>, subfr: seq<nat>, n: nat, runs: seq<int>)
    requires 0 < n <= |subfr| && |runs| == subfr[n - 1] && Offset4(subfr, n - 1) + |runs| <= |magRuns|
    requires magRuns[Offset4(subfr, n - 1)..Offset4(subfr, n - 1) + |runs|] == runs
    ensures Offset4(subfr, n) <= |magRuns| && Chunk(magRuns, subfr, n - 1) == runs
  {}

  lemma CountAt(v: seq<int>, sf: nat)
    requires |v| == FRAME_LEN && sf < 4
    ensures Counts(v)[sf] == Norm1(v, SUBFR_LEN * sf, SUBFR_LEN * sf + SUBFR_LEN)
  {}

  lemma FramePlacesStep(magRuns: seq<int>, subfr: seq<nat>, n: nat, runs: seq<int>)
    requires 0 < n <= |subfr| && Offset4(subfr, n) <= |magRuns| && runs == Chunk(magRuns, subfr, n - 1)
    ensures Offset4(subfr, n - 1) <= |magRuns|
    ensures var f, l := FramePlaces(magRuns, subfr, n - 1), AllPlaces(runs, SUBFR_LEN * (n - 1));
      FramePlaces(magRuns, subfr, n) == (f.0 + l.0, f.1 + l.1)
  {
    OffsetMono(subfr, n - 1, n);
  }

  lemma {:induction false} FrameChunks(v: seq<int>, magRuns: seq<int>, n: nat)
    requires VectorOk(v) && |v| == FRAME_LEN && n <= 4 && FrameRuns(v, n) <= magRuns
    ensures ChunksOk(magRuns, Counts(v), n)
  {
    hide RunsOf, VectorOk, RunsOk, Counts, Occupied;
    FramePlacesOfRuns(v, magRuns, n);
    if n > 0 {
      RunsGrow(v, n);
      FrameChunks(v, magRuns, n - 1);
      FramePlacesOfRuns(v, magRuns, n - 1);
      NextSubframe(v, magRuns, n);
      SubframeRunsOk(v, n - 1);
      ChunksGrow(magRuns, Counts(v), n - 1);
    }
  }

  lemma SubframeRunsOk(v: seq<int>, sf: nat)
    requires VectorOk(v) && sf < 4
    ensures RunsOk(RunsOf(v, SUBFR_LEN * sf, SUBFR_LEN * sf + SUBFR_LEN))
  {
    PlacesOfRuns(v, SUBFR_LEN * sf, SUBFR_LEN * sf + SUBFR_LEN);
    assert Norm1(v, SUBFR_LEN * sf, SUBFR_LEN * sf + SUBFR_LEN) <= SUBFR_MAX;
  }

  /** Write vals[i] at slot pos[i] of a silent frame, ignoring slots outside it. */
  function Scatter(pos: seq<int>, vals: seq<int>, k: nat): (v: seq<int>)
    requires k <= |pos| == |vals|
    ensures |v| == FRAME_LEN
  {
    if k == 0 then Zeros(FRAME_LEN) else
      var v := Scatter(pos, vals, k - 1);
      if 0 <= pos[k - 1] < FRAME_LEN then v[pos[k - 1] := vals[k - 1]] else v
  }

  function ApplySigns(mag: seq<int>, signs: seq<bool>): (vals: seq<int>)
    requires |mag| == |signs|
    ensures |vals| == |mag|
  {
    seq(|mag|, i requires 0 <= i < |mag| => if signs[i] then mag[i] else -mag[i])
  }

  lemma {:induction false} Sizes(v: seq<int>, lo: nat, n: nat)
    requires lo <= n <= |v|
    ensures |Support(v, lo, n)| == |Mags(v, lo, n)| == |Signs(v, lo, n)|
  {
    if n > lo { Sizes(v, lo, n - 1); }
  }

  lemma {:induction false} ScatterPrefix(pos: seq<int>, vals: seq<int>, p: seq<int>, q: seq<int>, k: nat)
    requires k <= |pos| == |vals| && |p| == |q|
    ensures Scatter(pos + p, vals + q, k) == Scatter(pos, vals, k)
  {
    if k > 0 { ScatterPrefix(pos, vals, p, q, k - 1); }
  }

  lemma {:induction false} SignsSnoc(v: seq<int>, n: nat)
    requires 0 < n <= |v| && v[n - 1] != 0
    ensures Support(v, 0, n) == Support(v, 0, n - 1) + [n - 1]
    ensures |Mags(v, 0, n - 1)| == |Signs(v, 0, n - 1)| && |Mags(v, 0, n)| == |Signs(v, 0, n)|
    ensures ApplySigns(Mags(v, 0, n), Signs(v, 0, n)) == ApplySigns(Mags(v, 0, n - 1), Signs(v, 0, n - 1)) + [v[n - 1]]
  {
    Sizes(v, 0, n);
    Sizes(v, 0, n - 1);
  }

  /** One more nonzero slot, already restored up to it. */
  lemma RestoreOne(v: seq<int>, n: nat)
    requires |v| == FRAME_LEN && 0 < n <= FRAME_LEN && v[n - 1] != 0
    requires |Support(v, 0, n - 1)| == |Mags(v, 0, n - 1)| == |Signs(v, 0, n - 1)|
    requires Scatter(Support(v, 0, n - 1), ApplySigns(Mags(v, 0, n - 1), Signs(v, 0, n - 1)), |Support(v, 0, n - 1)|)
      == v[..n - 1] + Zeros(FRAME_LEN - (n - 1))
    ensures |Support(v, 0, n)| == |Mags(v, 0, n)| == |Signs(v, 0, n)|
    ensures Scatter(Support(v, 0, n), ApplySigns(Mags(v, 0, n), Signs(v, 0, n)), |Support(v, 0, n)|) ==
      v[..n] + Zeros(FRAME_LEN - n)
  {
    SignsSnoc(v, n);
    Sizes(v, 0, n);
    hide Support, Mags, Signs, ApplySigns;
    var pos, vals := Support(v, 0, n - 1), ApplySigns(Mags(v, 0, n - 1), Signs(v, 0, n - 1));
    ScatterPrefix(pos, vals, [n - 1], [v[n - 1]], |pos|);
  }

  /** Scattering a vector's signed magnitudes over its support restores it. */
  lemma {:induction false} ScatterRestores(v: seq<int>, n: nat)
    requires |v| == FRAME_LEN && n <= FRAME_LEN
    ensures |Support(v, 0, n)| == |Mags(v, 0, n)| == |Signs(v, 0, n)|
    ensures Scatter(Support(v, 0, n), ApplySigns(Mags(v, 0, n), Signs(v, 0, n)), |Support(v, 0, n)|) ==
      v[..n] + Zeros(FRAME_LEN - n)
  {
    Sizes(v, 0, n);
    if n > 0 {
      ScatterRestores(v, n - 1);
      if v[n - 1] != 0 {
        RestoreOne(v, n);
      } else {
        assert Support(v, 0, n) == Support(v, 0, n - 1) && Mags(v, 0, n) == Mags(v, 0, n - 1)
          && Signs(v, 0, n) == Signs(v, 0, n - 1);
        assert v[..n] + Zeros(FRAME_LEN - n) == v[..n - 1] + Zeros(FRAME_LEN - (n - 1));
      }
    } else {
      assert v[..0] + Zeros(FRAME_LEN) == Zeros(FRAME_LEN);
    }
  }
}
