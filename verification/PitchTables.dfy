/** The pitch contour tables: segmentations of the eight lag blocks, their index map, and the lag distributions. */
module PitchTables {
  import opened Bytes
  import opened RangeSpec
  import opened Symbols
  import opened RangeCoder
  import CdfTables

  const NUM_BLOCKSEGS := 217
  const NUM_BLOCKS := 9
  const BLOCK_SIZE := 64
  const LAG_SLOTS := 8

  /** A contour: lag block and length of each segment. */
  datatype BlockSeg = BlockSeg(blocks: seq<nat>, seglens: seq<nat>)

  datatype PitchTables = PitchTables(
    blocksegs: seq<BlockSeg>, blocksegs2idx: seq<byte>, firstblockRange: seq<(byte, byte)>,
    blocksegIdxCmf: Cdf, deltaLagCmfs: seq<Cdf>, blockTransitionCmf: seq<Cdf>)

  /** Total length of the first k segments. */
  function SegStart(seglens: seq<nat>, k: nat): nat
    requires k <= |seglens|
  {
    if k == 0 then 0 else SegStart(seglens, k - 1) + seglens[k - 1]
  }

  /** What one record of the seed bitstream always satisfies. */
  predicate SegShape(bs: BlockSeg) {
    && 1 <= |bs.blocks| == |bs.seglens| <= 6
    && forall k :: 0 <= k < |bs.blocks| ==> bs.blocks[k] < NUM_BLOCKS && 1 <= bs.seglens[k] <= 4
  }

  /** Segments cover the eight slots and consecutive blocks differ by -1 to 2. */
  predicate SegOk(bs: BlockSeg) {
    && SegShape(bs)
    && SegStart(bs.seglens, |bs.seglens|) == LAG_SLOTS
    && forall k :: 1 <= k < |bs.blocks| ==> Near(bs.blocks[k - 1], bs.blocks[k])
  }

  /** A step for which a delta table window exists. */
  predicate Near(from: int, to: int) { -1 <= to - from <= 2 }

  predicate Injective(idx: seq<byte>) { forall i, j :: 0 <= i < j < |idx| ==> idx[i] != idx[j] }

  predicate IndexMap(idx: seq<byte>) {
    |idx| == NUM_BLOCKSEGS && Injective(idx) && forall i :: 0 <= i < NUM_BLOCKSEGS ==> 1 <= idx[i] <= NUM_BLOCKSEGS
  }

  predicate ZeroBased(c: Cdf, n: nat) { |c| == n && Increasing(c) && c[0] == 0 }

  predicate PitchOk(t: PitchTables) {
    && |t.blocksegs| == NUM_BLOCKSEGS && (forall i :: 0 <= i < NUM_BLOCKSEGS ==> SegOk(t.blocksegs[i]))
    && IndexMap(t.blocksegs2idx)
    && |t.firstblockRange| == NUM_BLOCKS
    && (forall b :: 0 <= b < NUM_BLOCKS ==> t.firstblockRange[b].0 <= t.firstblockRange[b].1 < NUM_BLOCKSEGS)
    && (forall i :: 0 <= i < NUM_BLOCKSEGS ==> InFirstRange(t, i, t.blocksegs[i].blocks[0]))
    && ZeroBased(t.blocksegIdxCmf, NUM_BLOCKSEGS + 1)
    && |t.deltaLagCmfs| == 3 && (forall m :: 0 <= m < 3 ==> ZeroBased(t.deltaLagCmfs[m], 320))
    && |t.blockTransitionCmf| == NUM_BLOCKS
      && (forall b :: 0 <= b < NUM_BLOCKS ==> ZeroBased(t.blockTransitionCmf[b], NUM_BLOCKS + 1))
  }

  /** Contour i sorts into the index range kept for first block b. */
  predicate InFirstRange(t: PitchTables, i: nat, b: nat)
    requires i < |t.blocksegs2idx| && b < |t.firstblockRange|
  {
    var k: int := t.blocksegs2idx[i];
    t.firstblockRange[b].0 <= k - 1 <= t.firstblockRange[b].1
  }

  /** The ranges also exclude contours that start in another block. */
  predicate RangesExact(t: PitchTables)
    requires PitchOk(t)
  {
    forall i, b :: 0 <= i < NUM_BLOCKSEGS && 0 <= b < NUM_BLOCKS && InFirstRange(t, i, b) ==>
      t.blocksegs[i].blocks[0] == b
  }

  // ----- the index map is a permutation -----

  /** The first index holding v, or n. */
  function Find(s: seq<byte>, v: int, k: nat): (r: nat)
    requires k <= |s|
    ensures k <= r <= |s| && (forall i :: k <= i < r ==> s[i] != v) && (r < |s| ==> s[r] == v)
    decreases |s| - k
  {
    if k == |s| || s[k] == v then k else Find(s, v, k + 1)
  }

  lemma FindInverts(idx: seq<byte>, i: nat)
    requires i < |idx| && Injective(idx)
    ensures Find(idx, idx[i], 0) == i
  {}

  function Elements(s: seq<byte>): (e: set<int>)
    ensures forall v :: v in e <==> v in s
  {
    set i | 0 <= i < |s| :: s[i] as int
  }

  lemma {:induction false} ElementCount(s: seq<byte>)
    requires Injective(s)
    ensures |Elements(s)| == |s|
  {
    if s != [] {
      var front := s[..|s| - 1];
      ElementCount(front);
      assert s == front + [s[|s| - 1]];
      assert Elements(s) == Elements(front) + {s[|s| - 1] as int};
    }
  }

  function UpTo(n: nat): (e: set<int>)
    ensures |e| == n && forall v :: v in e <==> 1 <= v <= n
  {
    if n == 0 then {} else UpTo(n - 1) + {n}
  }

  lemma {:induction false} SubsetSize(a: set<int>, n: nat)
    requires a <= UpTo(n)
    ensures |a| <= n
  {
    if n > 0 {
      SubsetSize(a - {n}, n - 1);
    }
  }

  /** A set inside 1..n that misses a value has fewer than n elements. */
  lemma {:induction false} Pigeonhole(a: set<int>, n: nat, v: int)
    requires a <= UpTo(n) && 1 <= v <= n && v !in a
    ensures |a| < n
  {
    if v == n {
      SubsetSize(a, n - 1);
    } else {
      Pigeonhole(a - {n}, n - 1, v);
    }
  }

  /** An injective map of 217 contours into 1..217 hits every index, so any decoded index names a contour. */
  lemma EveryIndexFound(idx: seq<byte>, lag: int)
    requires IndexMap(idx) && 0 <= lag < NUM_BLOCKSEGS
    ensures Find(idx, lag + 1, 0) < NUM_BLOCKSEGS && idx[Find(idx, lag + 1, 0)] == lag + 1
  {
    ElementCount(idx);
    assert Elements(idx) <= UpTo(|idx|);
    hide IndexMap, Injective;
    if lag + 1 !in Elements(idx) {
      Pigeonhole(Elements(idx), |idx|, lag + 1);
    }
  }

  // ----- the distributions in use -----

  function Contour(t: PitchTables, i: nat): (bs: BlockSeg)
    requires PitchOk(t) && i < NUM_BLOCKSEGS
    ensures SegOk(bs)
  {
    t.blocksegs[i]
  }

  function LagCdf(t: PitchTables): (c: Cdf)
    requires PitchOk(t)
    ensures ZeroBased(c, NUM_BLOCKSEGS + 1)
  {
    t.blocksegIdxCmf
  }

  function Transition(t: PitchTables, b: nat): (c: Cdf)
    requires PitchOk(t) && b < NUM_BLOCKS
    ensures ZeroBased(c, NUM_BLOCKS + 1)
  {
    t.blockTransitionCmf[b]
  }

  function FirstRange(t: PitchTables, b: nat): (r: (byte, byte))
    requires PitchOk(t) && b < NUM_BLOCKS
    ensures r.0 <= r.1 < NUM_BLOCKSEGS
  {
    t.firstblockRange[b]
  }

  /** The part of the index table for contours starting in block b. */
  function IndexWindow(t: PitchTables, b: nat): (c: Cdf)
    requires PitchOk(t) && b < NUM_BLOCKS
    ensures Increasing(c) && |c| == FirstRange(t, b).1 - FirstRange(t, b).0 + 2
  {
    var (lo, hi) := FirstRange(t, b);
    LagCdf(t)[lo..hi + 2]
  }

  /** The 65-entry part of a delta table for a lag in block blk after lag prevIdx. */
  function DeltaStart(blk: int, prevIdx: int): int { blk * BLOCK_SIZE - prevIdx + 2 * BLOCK_SIZE - 1 }

  function DeltaWindow(t: PitchTables, mode: nat, start: int): (c: Cdf)
    requires PitchOk(t) && mode < 3 && 0 <= start <= 255
    ensures Increasing(c) && |c| == BLOCK_SIZE + 1
  {
    t.deltaLagCmfs[mode][start..start + BLOCK_SIZE + 1]
  }

  predicate InBlock(lag: int, blk: int) { blk * BLOCK_SIZE <= lag < blk * BLOCK_SIZE + BLOCK_SIZE }

  lemma WindowFits(blk: int, prevBlk: int, prevIdx: int)
    requires Near(prevBlk, blk) && InBlock(prevIdx, prevBlk)
    ensures 0 <= DeltaStart(blk, prevIdx) <= 255
  {}

  /** The interval of a lag goes by its distance from the lag before alone. */
  lemma DeltaByDistance(t: PitchTables, mode: nat, blk: int, prevIdx: int, lag: int)
    requires PitchOk(t) && mode < 3 && 0 <= DeltaStart(blk, prevIdx) <= 255 && InBlock(lag, blk)
    ensures var w, c, at := DeltaWindow(t, mode, DeltaStart(blk, prevIdx)), t.deltaLagCmfs[mode], lag - prevIdx + 127;
      0 <= at < |c| - 1 && w[lag - 64 * blk] == c[at] && w[lag - 64 * blk + 1] == c[at + 1]
  {}

  /** The interval of a contour among those starting in its block is its interval among all. */
  lemma IndexInRange(t: PitchTables, b: nat, x: int)
    requires PitchOk(t) && b < NUM_BLOCKS && FirstRange(t, b).0 as int <= x <= FirstRange(t, b).1 as int
    ensures var w, lo := IndexWindow(t, b), FirstRange(t, b).0 as int;
      w[x - lo] == t.blocksegIdxCmf[x] && w[x - lo + 1] == t.blocksegIdxCmf[x + 1]
  {}

  // ----- expansion of the seed -----

  /** Decoded records, index bytes, range bytes and weight bytes. */
  datatype PitchSeed = PitchSeed(blocksegs: seq<BlockSeg>, idx: seq<byte>, ranges: seq<(byte, byte)>,
                                 idxDcmf: seq<byte>, deltaDcmfs: seq<byte>, transitionDcmf: seq<byte>)

  function Chunks(b: seq<byte>, size: nat, n: nat): (c: seq<Cdf>)
    requires 0 < size < CdfTables.MAX_CMF && n * size <= |b|
    ensures |c| == n && forall i :: 0 <= i < n ==> ZeroBased(c[i], size + 1)
  {
    if n == 0 then []
    else
      assert n * size == (n - 1) * size + size;
      Chunks(b, size, n - 1) + [CdfTables.Expand(b[(n - 1) * size..n * size])]
  }

  function Expanded(s: PitchSeed): PitchTables
    requires |s.idxDcmf| == NUM_BLOCKSEGS && |s.deltaDcmfs| == 3 * 319 && |s.transitionDcmf| == 81
  {
    PitchTables(s.blocksegs, s.idx, s.ranges, CdfTables.Expand(s.idxDcmf), Chunks(s.deltaDcmfs, 319, 3),
      Chunks(s.transitionDcmf, NUM_BLOCKS, NUM_BLOCKS))
  }

  /** The distributions are well formed for every weight bytes; only the shape of the contours remains a hypothesis. */
  lemma ExpandedOk(s: PitchSeed)
    requires |s.idxDcmf| == NUM_BLOCKSEGS && |s.deltaDcmfs| == 3 * 319 && |s.transitionDcmf| == 81
    ensures var t := Expanded(s);
      && ZeroBased(t.blocksegIdxCmf, NUM_BLOCKSEGS + 1)
      && |t.deltaLagCmfs| == 3 && (forall m :: 0 <= m < 3 ==> ZeroBased(t.deltaLagCmfs[m], 320))
      && |t.blockTransitionCmf| == NUM_BLOCKS
        && (forall b :: 0 <= b < NUM_BLOCKS ==> ZeroBased(t.blockTransitionCmf[b], NUM_BLOCKS + 1))
  {
    hide CdfTables.Expand, Chunks;
  }

  /** One uniform symbol out of n. */
  method DecodeUniform(dec: RangeDecoder, n: nat) returns (v: nat)
    requires dec.Valid() && 0 < n <= CODE_BOT
    modifies dec
    ensures dec.Valid() && v < n && v == Target(old(dec.State()), n)
  {
    ghost var d := dec.State();
    TargetBelow(d, n);
    v := dec.Decode(n);
    CutAfterTarget(d, Range(v, v + 1, n));
    dec.Update(v, v + 1, n);
  }

  /** Whatever the seed bytes, a record has one to six segments within the eight record slots. */
  method DecodeBlockseg(dec: RangeDecoder) returns (bs: BlockSeg)
    requires dec.Valid()
    modifies dec
    ensures dec.Valid() && SegShape(bs)
  {
    hide RangeDecoder.Valid, Target;
    var length := DecodeUniform(dec, 6);
    var blocks: seq<nat>, seglens: seq<nat> := [], [];
    for j := 0 to length + 1
      invariant dec.Valid() && |blocks| == |seglens| == j
      invariant forall k :: 0 <= k < j ==> blocks[k] < NUM_BLOCKS && 1 <= seglens[k] <= 4
    {
      var b := DecodeUniform(dec, NUM_BLOCKS);
      var l := DecodeUniform(dec, 4);
      blocks, seglens := blocks + [b], seglens + [l + 1];
    }
    bs := BlockSeg(blocks, seglens);
  }
}
