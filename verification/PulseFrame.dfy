/** The whole pulse block: a signed vector, its parameters, and the wire. */
module PulseFrame {
  import opened Bytes
  import opened RangeSpec
  import opened RangeProof
  import opened Symbols
  import opened PulseCount
  import opened PulseBlock
  import opened PulseVector
  import opened PulseSigns

  /** Positions with at least one pulse. */
  function NumPos(magRuns: seq<int>, subfr: seq<nat>): nat
    requires ChunksOk(magRuns, subfr, 4)
  {
    |FramePlaces(magRuns, subfr, 4).0|
  }

  /**
   Parameters the encoder can write: counts that add up, runs inside their subframes, sign words of the right sizes.
   */
  predicate PulseParamsOk(pp: PulseParams) {
    && SubfrOk(pp.subfr) && pp.total == Total4(pp.subfr) == |pp.magRuns|
    && ChunksOk(pp.magRuns, pp.subfr, 4)
    && WordsOk(pp.signSyms, NumPos(pp.magRuns, pp.subfr))
  }

  /** smplBuildPulseParams as a function of the vector. */
  function Build(v: seq<int>): PulseParams
    requires |v| == FRAME_LEN
  {
    PulseParams(Total4(Counts(v)), Counts(v), FrameRuns(v, 4), WordsOf(Signs(v, 0, FRAME_LEN)))
  }

  /** The vector that parameters stand for. */
  function Assemble(pp: PulseParams): (v: seq<int>)
    requires PulseParamsOk(pp)
    ensures |v| == FRAME_LEN
  {
    var (pos, mag) := FramePlaces(pp.magRuns, pp.subfr, 4);
    SpelledSize(pp.signSyms, |pos|, |pp.signSyms|);
    Scatter(pos, ApplySigns(mag, Spelled(pp.signSyms, |pp.signSyms|)), |pos|)
  }

  lemma OffsetTotal(subfr: seq<nat>)
    requires |subfr| == 4
    ensures Offset4(subfr, 4) == Total4(subfr)
  {
    assert Offset4(subfr, 1) == subfr[0];
    assert Offset4(subfr, 2) == subfr[0] + subfr[1];
    assert Offset4(subfr, 3) == subfr[0] + subfr[1] + subfr[2];
  }

  lemma CountsOk(v: seq<int>)
    requires VectorOk(v)
    ensures SubfrOk(Counts(v))
  {
    assert Norm1(v, SUBFR_LEN * 0, SUBFR_LEN * 0 + SUBFR_LEN) <= SUBFR_MAX;
    assert Norm1(v, SUBFR_LEN * 1, SUBFR_LEN * 1 + SUBFR_LEN) <= SUBFR_MAX;
    assert Norm1(v, SUBFR_LEN * 2, SUBFR_LEN * 2 + SUBFR_LEN) <= SUBFR_MAX;
    assert Norm1(v, SUBFR_LEN * 3, SUBFR_LEN * 3 + SUBFR_LEN) <= SUBFR_MAX;
  }

  lemma BuildOk(v: seq<int>)
    requires VectorOk(v)
    ensures PulseParamsOk(Build(v))
    ensures FramePlaces(Build(v).magRuns, Build(v).subfr, 4) == (Support(v, 0, FRAME_LEN), Mags(v, 0, FRAME_LEN))
  {
    var runs := FrameRuns(v, 4);
    CountsOk(v);
    OffsetTotal(Counts(v));
    FramePlacesOfRuns(v, runs, 4);
    FrameChunks(v, runs, 4);
    Sizes(v, 0, FRAME_LEN);
  }

  /** Building parameters from any codable vector and reading them as a vector is the identity. */
  lemma AssembleOfBuild(v: seq<int>)
    requires VectorOk(v)
    ensures PulseParamsOk(Build(v)) && Assemble(Build(v)) == v
  {
    BuildOk(v);
    SignsRestored(Signs(v, 0, FRAME_LEN));
    ScatterRestores(v, FRAME_LEN);
    assert v[..FRAME_LEN] + Zeros(0) == v;
  }

  // ----- the wire -----

  function PulseScript(t: PulseTabs, pp: PulseParams): (s: Script)
    requires PulseOk(t) && PulseParamsOk(pp)
    ensures Sound(s)
  {
    if pp.total == 0 then One(CountOp(0)) else Then(PulseFront(t, pp), PulseBack(t, pp))
  }

  /** Count and splits. */
  function PulseFront(t: PulseTabs, pp: PulseParams): (s: Script)
    requires PulseOk(t) && PulseParamsOk(pp) && pp.total > 0
    ensures Sound(s)
  {
    Then(One(CountOp(pp.total)), SplitScript(t, pp.subfr))
  }

  /** Run symbols and signs. */
  function PulseBack(t: PulseTabs, pp: PulseParams): (s: Script)
    requires PulseOk(t) && PulseParamsOk(pp)
    ensures Sound(s)
  {
    Then(AllRunsScript(t, pp.magRuns, pp.subfr, 4), SignScript(pp.signSyms, NumPos(pp.magRuns, pp.subfr),
      |pp.signSyms|))
  }

  function Silence(): (pp: PulseParams)
    ensures IsSilence(pp)
  {
    PulseParams(0, [0, 0, 0, 0], [], [])
  }

  predicate Silent(subfr: seq<nat>) { forall i :: 0 <= i < |subfr| ==> subfr[i] == 0 }

  lemma {:induction false} SilentOffset(subfr: seq<nat>, n: nat)
    requires n <= |subfr| && Silent(subfr)
    ensures Offset4(subfr, n) == 0
  {
    if n > 0 { SilentOffset(subfr, n - 1); }
  }

  lemma SilentChunk(magRuns: seq<int>, subfr: seq<nat>, sf: nat)
    requires sf < |subfr| && Silent(subfr)
    ensures ChunkOk(magRuns, subfr, sf) && Chunk(magRuns, subfr, sf) == []
  {
    SilentOffset(subfr, sf);
    SilentOffset(subfr, sf + 1);
  }

  lemma {:induction false} SilentPlaces(magRuns: seq<int>, subfr: seq<nat>, n: nat)
    requires n <= |subfr| && Silent(subfr) && Offset4(subfr, n) <= |magRuns|
    ensures FramePlaces(magRuns, subfr, n) == ([], [])
  {
    if n > 0 {
      OffsetMono(subfr, n - 1, n);
      SilentPlaces(magRuns, subfr, n - 1);
      SilentChunk(magRuns, subfr, n - 1);
    }
  }

  lemma SilentOk(magRuns: seq<int>, subfr: seq<nat>)
    requires |subfr| == 4 && Silent(subfr)
    ensures ChunksOk(magRuns, subfr, 4) && NumPos(magRuns, subfr) == 0
  {
    SilentOffset(subfr, 4);
    forall sf | 0 <= sf < 4 ensures ChunkOk(magRuns, subfr, sf) { SilentChunk(magRuns, subfr, sf); }
    SilentPlaces(magRuns, subfr, 4);
  }

  predicate IsSilence(pp: PulseParams) {
    pp.total == 0 && |pp.subfr| == 4 && Silent(pp.subfr) && pp.magRuns == [] && pp.signSyms == []
  }

  lemma IsSilenceOk(pp: PulseParams)
    requires IsSilence(pp)
    ensures PulseParamsOk(pp)
  {
    SilentOk(pp.magRuns, pp.subfr);
    hide Offset4, FramePlaces, ChunksOk, NumPos;
  }

  /** A zero total leaves nothing else to say. */
  lemma ZeroIsSilence(pp: PulseParams)
    requires PulseParamsOk(pp) && pp.total == 0
    ensures IsSilence(pp)
  {
    ZeroCounts(pp.subfr);
    SilentOk(pp.magRuns, pp.subfr);
    hide Offset4, FramePlaces, ChunksOk, NumPos;
  }

  lemma ZeroCounts(subfr: seq<nat>)
    requires |subfr| == 4 && Total4(subfr) == 0
    ensures Silent(subfr)
  {}

  lemma OneSilence(a: PulseParams, b: PulseParams)
    requires IsSilence(a) && IsSilence(b)
    ensures a == b
  {
    assert a.subfr == b.subfr;
  }

  /** Splits, runs and signs of a frame that has pulses. */
  function ReadCoded(t: PulseTabs, d: DecState, total: nat): (r: (PulseParams, DecState))
    requires PulseOk(t) && DecInv(d) && 0 < total <= MAX_PULSES
    ensures PulseParamsOk(r.0) && r.0.total == total && DecInv(r.1)
  {
    hide PulseOk, ReadSplit;
    var split := ReadSplit(t, d, total);
    var subfr := split.0;
    OffsetTotal(subfr);
    var all := ReadAllRuns(t, split.1, subfr, 4);
    var magRuns := all.0;
    AllRunsOk(t, split.1, subfr);
    var n := NumPos(magRuns, subfr);
    var signs := ReadSigns(all.1, n, WordCount(n));
    (PulseParams(total, subfr, magRuns, signs.0), signs.1)
  }

  lemma AllRunsOk(t: PulseTabs, d: DecState, subfr: seq<nat>)
    requires PulseOk(t) && DecInv(d) && SubfrOk(subfr)
    ensures ChunksOk(ReadAllRuns(t, d, subfr, 4).0, subfr, 4)
  {
    hide PulseOk;
    var magRuns := ReadAllRuns(t, d, subfr, 4).0;
    assert magRuns[..Offset4(subfr, 4)] == magRuns;
    ReadAllRunsSound(t, d, subfr, 4, magRuns);
  }

  /** Count, splits, runs and signs as the decoder reads them. */
  function ReadPulses(t: PulseTabs, d: DecState): (r: (PulseParams, DecState))
    requires PulseOk(t) && DecInv(d)
    ensures PulseParamsOk(r.0) && DecInv(r.1)
  {
    hide PulseOk, PulseParamsOk, ReadCoded;
    var count := ReadCount(d);
    if count.0 == 0 then IsSilenceOk(Silence()); (Silence(), count.1) else ReadCoded(t, count.1, count.0)
  }

  /** Whatever the input, the pulses read are parameters the encoder can write, and exactly what was there. */
  lemma ReadPulsesSound(t: PulseTabs, d: DecState)
    requires PulseOk(t) && DecInv(d)
    ensures var (pp, f) := ReadPulses(t, d); Holds(d, PulseScript(t, pp)) && f == Past(d, PulseScript(t, pp))
  {
    var count := ReadCount(d);
    if count.0 == 0 {
      HoldsOne(d, CountOp(0));
    } else {
      ReadCodedSound(t, count.1, count.0);
      hide ReadCount, ReadCoded, SplitScript, PulseScript, PulseBack, CountOp, Reads, AfterOp, PulseOk, PulseParamsOk,
        Holds, Past;
      CodedHolds(t, d, ReadCoded(t, count.1, count.0).0);
    }
  }

  lemma CodedHolds(t: PulseTabs, d: DecState, pp: PulseParams)
    requires PulseOk(t) && DecInv(d) && PulseParamsOk(pp) && pp.total > 0 && Reads(d, CountOp(pp.total))
    requires var d1 := AfterOp(d, CountOp(pp.total)); var s := SplitScript(t, pp.subfr);
      Holds(d1, s) && Holds(Past(d1, s), PulseBack(t, pp))
    ensures Holds(d, PulseScript(t, pp))
    ensures Past(d, PulseScript(t, pp)) ==
      Past(Past(AfterOp(d, CountOp(pp.total)), SplitScript(t, pp.subfr)), PulseBack(t, pp))
  {
    assert SubfrOk(pp.subfr) && pp.total <= MAX_PULSES && Total4(pp.subfr) == pp.total;
    hide SplitScript, PulseBack, CountOp, Reads, AfterOp, PulseOk, PulseParamsOk, Holds, Past, SubfrOk;
    HoldsOne(d, CountOp(pp.total));
    HoldsThen(d, One(CountOp(pp.total)), SplitScript(t, pp.subfr));
    HoldsThen(d, PulseFront(t, pp), PulseBack(t, pp));
  }

  lemma ReadCodedSound(t: PulseTabs, d: DecState, total: nat)
    requires PulseOk(t) && DecInv(d) && 0 < total <= MAX_PULSES
    ensures var pp := ReadCoded(t, d, total).0; var s := SplitScript(t, pp.subfr);
      && Holds(d, s) && Holds(Past(d, s), PulseBack(t, pp))
        && ReadCoded(t, d, total).1 == Past(Past(d, s), PulseBack(t, pp))
  {
    hide ReadSplit, SplitScript, Reads, AfterOp, NumPos, PulseOk, PulseParamsOk, Holds, Past;
    var pp := ReadCoded(t, d, total).0;
    var split := ReadSplit(t, d, total);
    ReadSplitSound(t, d, total);
    BackSound(t, split.1, pp.subfr, pp);
  }

  lemma BackSound(t: PulseTabs, d: DecState, subfr: seq<nat>, pp: PulseParams)
    requires PulseOk(t) && DecInv(d) && PulseParamsOk(pp) && subfr == pp.subfr
    requires pp.magRuns == ReadAllRuns(t, d, subfr, 4).0
    requires pp.signSyms ==
      ReadSigns(ReadAllRuns(t, d, subfr, 4).1, NumPos(pp.magRuns, subfr), WordCount(NumPos(pp.magRuns, subfr))).0
    ensures Holds(d, PulseBack(t, pp))
    ensures ReadSigns(ReadAllRuns(t, d, subfr, 4).1, NumPos(pp.magRuns, subfr),
      WordCount(NumPos(pp.magRuns, subfr))).1 == Past(d, PulseBack(t, pp))
  {
    hide Reads, AfterOp, NumPos, PulseOk, Holds, Past;
    OffsetTotal(subfr);
    assert pp.magRuns[..Offset4(subfr, 4)] == pp.magRuns;
    ReadAllRunsSound(t, d, subfr, 4, pp.magRuns);
    var n, d3 := NumPos(pp.magRuns, subfr), ReadAllRuns(t, d, subfr, 4).1;
    assert pp.signSyms[..WordCount(n)] == pp.signSyms;
    ReadSignsSound(d3, n, WordCount(n), pp.signSyms);
    HoldsThen(d, AllRunsScript(t, pp.magRuns, subfr, 4), SignScript(pp.signSyms, n, |pp.signSyms|));
  }

  /** A decoder facing encoded pulses reads them. */
  lemma ReadPulsesBack(t: PulseTabs, d: DecState, pp: PulseParams)
    requires PulseOk(t) && DecInv(d) && PulseParamsOk(pp) && Holds(d, PulseScript(t, pp))
    ensures ReadPulses(t, d) == (pp, Past(d, PulseScript(t, pp)))
  {
    hide ReadCount, ReadSplit, SplitScript, CountOp, Reads, AfterOp, NumPos, PulseOk;
    if pp.total == 0 {
      ZeroIsSilence(pp);
      OneSilence(pp, Silence());
      HoldsOne(d, CountOp(0));
      ReadCountBack(d, 0);
    } else {
      OffsetTotal(pp.subfr);
      HoldsThen(d, PulseFront(t, pp), PulseBack(t, pp));
      HoldsThen(d, One(CountOp(pp.total)), SplitScript(t, pp.subfr));
      HoldsOne(d, CountOp(pp.total));
      ReadCountBack(d, pp.total);
      var d1 := Past(d, One(CountOp(pp.total)));
      ReadSplitBack(t, d1, pp.subfr);
      var d2 := Past(d1, SplitScript(t, pp.subfr));
      var n := NumPos(pp.magRuns, pp.subfr);
      var runs := AllRunsScript(t, pp.magRuns, pp.subfr, 4);
      HoldsThen(d2, runs, SignScript(pp.signSyms, n, |pp.signSyms|));
      ReadAllRunsBack(t, d2, pp.magRuns, pp.subfr, 4);
      assert pp.magRuns[..|pp.magRuns|] == pp.magRuns;
      ReadSignsBack(Past(d2, runs), pp.signSyms, n, |pp.signSyms|);
      assert pp.signSyms[..|pp.signSyms|] == pp.signSyms;
    }
  }

  /** What the encoder writes for a vector. */
  function VectorScript(t: PulseTabs, v: seq<int>): (s: Script)
    requires PulseOk(t) && VectorOk(v)
    ensures Sound(s)
  {
    AssembleOfBuild(v);
    PulseScript(t, Build(v))
  }

  /** The finished encoder for a vector alone. */
  function VectorBody(t: PulseTabs, cap: nat, v: seq<int>): EncState
    requires PulseOk(t) && VectorOk(v)
  {
    SoundFlatten(VectorScript(t, v));
    Encoded(cap, Flatten(VectorScript(t, v)))
  }

  /**
   Vector to bytes to vector, with anything after the bytes: for every signed 320-vector whose subframes hold at most 40
   pulses each.
   */
  lemma PulseVectorRoundTrip(t: PulseTabs, cap: nat, v: seq<int>, tail: seq<byte>)
    requires PulseOk(t) && VectorOk(v) && VectorBody(t, cap, v).err == 0
    ensures var d := DecStart(VectorBody(t, cap, v).out + tail); DecInv(d) && Assemble(ReadPulses(t, d).0) == v
  {
    var s := VectorScript(t, v);
    var d := DecStart(VectorBody(t, cap, v).out + tail);
    AssembleOfBuild(v);
    hide PulseOk, PulseParamsOk, VectorOk, PulseScript, ReadPulses, Assemble, Build, Encoded, DecStart;
    SoundFlatten(s);
    RangeCoderRoundTrip(cap, Flatten(s), tail);
    HoldsIsReady(d, s);
    DecStartSynced(VectorBody(t, cap, v).out + tail);
    ReadPulsesBack(t, d, Build(v));
  }
}
