/** The heap window: pitch tables packed little-endian at fixed addresses, and the reads that undo the packing. */
module PitchHeap {
  import opened Bytes
  import opened Symbols
  import opened RangeCoder
  import opened GainBlock
  import opened PitchTables

  const PCFG := 0xb9f9a8 + 0x5704
  const RECORDS := 0x1d38
  const RECORD_SIZE := 0x44
  const CONTOUR_MAP := 0xe7c10
  const LAG_CDF := 0xbaa7b0
  const FRAC_BASE := 0xbaa9be
  const DELTA_CDF := 0xbab13e
  const BOUNDS := 0xe7ef0
  const FRAC_STRIDE := 0x280
  const NUM_BLOCKTRACKS := 187

  datatype Region = Region(base: u32, data: seq<byte>)

  // ----- packing -----

  function Le16(v: seq<u16>): (b: seq<byte>)
    ensures |b| == 2 * |v|
  {
    if v == [] then [] else Le16(v[..|v| - 1]) + Pair(v[|v| - 1])
  }

  lemma {:induction false} Le16At(v: seq<u16>, i: nat)
    requires i < |v|
    ensures Le16(v)[2 * i..2 * i + 2] == Pair(v[i])
  {
    var front := v[..|v| - 1];
    if i < |v| - 1 {
      Le16At(front, i);
      assert Le16(v)[2 * i..2 * i + 2] == Le16(front)[2 * i..2 * i + 2];
    }
  }

  /** Little-endian value of two bytes, and of four. */
  function Join2(a: int, b: int): int { a + 0x100 * b }

  function Join4(a: int, b: int, c: int, d: int): int { Join2(a, b) + 0x1_0000 * Join2(c, d) }

  function Pair(x: u16): (b: seq<byte>)
    ensures |b| == 2
  {
    [x % 256, x / 256]
  }

  function Quad(x: u32): (b: seq<byte>)
    ensures |b| == 4
  {
    Pair(x % 0x1_0000) + Pair(x / 0x1_0000)
  }

  function Le32(v: seq<u32>): (b: seq<byte>)
    ensures |b| == 4 * |v|
  {
    if v == [] then [] else Le32(v[..|v| - 1]) + Quad(v[|v| - 1])
  }

  lemma {:induction false} Le32At(v: seq<u32>, i: nat)
    requires i < |v|
    ensures Le32(v)[4 * i..4 * i + 4] == Quad(v[i])
  {
    var front := v[..|v| - 1];
    if i < |v| - 1 {
      Le32At(front, i);
      assert Le32(v)[4 * i..4 * i + 4] == Le32(front)[4 * i..4 * i + 4];
    }
  }

  lemma QuadInverse(x: u32)
    ensures var q := Quad(x); Join4(q[0], q[1], q[2], q[3]) == x
  {}

  lemma Le32Snoc(v: seq<u32>, x: u32)
    ensures Le32(v + [x]) == Le32(v) + Quad(x)
  {
    assert (v + [x])[..|v|] == v;
  }

  // ----- the image -----

  function Padded(v: seq<nat>): (w: seq<u32>)
    ensures |w| == 8 && forall i :: 0 <= i < 8 ==> w[i] as int == if i < |v| then U32(v[i]) else 0
  {
    seq(8, i requires 0 <= i < 8 => if i < |v| then U32(v[i]) else 0)
  }

  /** Eight blocks, eight lengths, and the segment count. */
  function RecordWords(bs: BlockSeg): (w: seq<u32>)
    ensures |w| == 17
  {
    Padded(bs.blocks) + Padded(bs.seglens) + [U32(|bs.blocks|)]
  }

  function RecordsWords(blocksegs: seq<BlockSeg>, n: nat): (w: seq<u32>)
    requires n <= |blocksegs|
    ensures |w| == 17 * n
  {
    if n == 0 then [] else RecordsWords(blocksegs, n - 1) + RecordWords(blocksegs[n - 1])
  }

  lemma {:induction false} RecordAt(blocksegs: seq<BlockSeg>, n: nat, i: nat, j: nat)
    requires i < n <= |blocksegs| && j < 17
    ensures 17 * i + j < 17 * n && RecordsWords(blocksegs, n)[17 * i + j] == RecordWords(blocksegs[i])[j]
  {
    if i < n - 1 { RecordAt(blocksegs, n - 1, i, j); }
  }

  function HeaderWords(): (w: seq<u32>)
    ensures |w| == 9
  {
    [NUM_BLOCKTRACKS, NUM_BLOCKSEGS, CONTOUR_MAP, LAG_CDF, FRAC_BASE, 0xe7d20, 0xe7ef0, 0xe8096, DELTA_CDF]
  }

  function Flat(cdfs: seq<Cdf>): seq<u16> {
    if cdfs == [] then [] else Flat(cdfs[..|cdfs| - 1]) + cdfs[|cdfs| - 1]
  }

  lemma {:induction false} FlatAt(cdfs: seq<Cdf>, size: nat, m: nat, j: nat)
    requires m < |cdfs| && j < size && forall i :: 0 <= i < |cdfs| ==> |cdfs[i]| == size
    ensures |Flat(cdfs)| == size * |cdfs| && 0 <= size * m + j < size * |cdfs| && Flat(cdfs)[size * m + j] == cdfs[m][j]
  {
    var front := cdfs[..|cdfs| - 1];
    FlatSize(front, size);
    SizeStep(size, |front|);
    if m < |cdfs| - 1 {
      FlatAt(front, size, m, j);
    }
  }

  lemma SizeStep(size: nat, n: nat)
    ensures size * (n + 1) == size * n + size
  {}

  lemma {:induction false} FlatSize(cdfs: seq<Cdf>, size: nat)
    requires forall i :: 0 <= i < |cdfs| ==> |cdfs[i]| == size
    ensures |Flat(cdfs)| == size * |cdfs|
  {
    if cdfs != [] {
      FlatSize(cdfs[..|cdfs| - 1], size);
      SizeStep(size, |cdfs| - 1);
    }
  }

  function RangeBytes(r: seq<(byte, byte)>): (b: seq<byte>)
    ensures |b| == 2 * |r| + 2
    ensures forall i :: 0 <= i < |r| ==> b[2 * i] == r[i].0 && b[2 * i + 1] == r[i].1
  {
    if r == [] then [0, 0]
    else
      var front := RangeBytes(r[..|r| - 1]);
      front[..2 * |r| - 2] + [r[|r| - 1].0, r[|r| - 1].1, 0, 0]
  }

  /** The window the decoder sees: six regions, in the order they are pushed. */
  function Image(t: PitchTables): (m: seq<Region>)
    requires PitchOk(t)
    ensures |m| == 6
  {
    [Region(PCFG + RECORDS, Le32(RecordsWords(t.blocksegs, NUM_BLOCKSEGS) + HeaderWords())),
     Region(LAG_CDF, Le16(t.blocksegIdxCmf)),
     Region(FRAC_BASE, Le16(Flat(t.deltaLagCmfs))),
     Region(DELTA_CDF, Le16(Flat(t.blockTransitionCmf))),
     Region(CONTOUR_MAP, t.blocksegs2idx),
     Region(BOUNDS, RangeBytes(t.firstblockRange))]
  }

  // ----- reads -----

  predicate Covers(r: Region, addr: u32, n: nat) { addr >= r.base && addr - r.base + n <= |r.data| }

  /** The bytes at an address: from the first region that covers them. */
  function Fetch(m: seq<Region>, addr: u32, n: nat, k: nat): (b: seq<byte>)
    requires k <= |m|
    ensures b == [] || |b| == n
    decreases |m| - k
  {
    if k == |m| then []
    else if Covers(m[k], addr, n) then m[k].data[addr - m[k].base..addr - m[k].base + n]
    else Fetch(m, addr, n, k + 1)
  }

  function U8(m: seq<Region>, addr: u32): byte {
    var b := Fetch(m, addr, 1, 0);
    if b == [] then 0 else b[0]
  }

  function U16(m: seq<Region>, addr: u32): u16 {
    var b := Fetch(m, addr, 2, 0);
    if b == [] then 0 else Join2(b[0], b[1])
  }

  function Word(m: seq<Region>, addr: u32): u32 {
    var b := Fetch(m, addr, 4, 0);
    if b == [] then 0 else Join4(b[0], b[1], b[2], b[3])
  }

  function SignedWord(m: seq<Region>, addr: u32): int { I32(Word(m, addr)) }

  function CdfAt(m: seq<Region>, addr: u32, n: nat): (c: Cdf)
    ensures |c| == n && forall i :: 0 <= i < n ==> c[i] == U16(m, U32(addr + i * 2))
  {
    seq(n, i requires 0 <= i < n => U16(m, U32(addr + i * 2)))
  }

  /** Regions before the one that covers an address are skipped. */
  lemma {:induction false} FetchFrom(m: seq<Region>, addr: u32, n: nat, k: nat, r: nat)
    requires k <= r < |m| && Covers(m[r], addr, n) && forall j :: k <= j < r ==> !Covers(m[j], addr, n)
    ensures Fetch(m, addr, n, k) == m[r].data[addr - m[r].base..addr - m[r].base + n]
    decreases r - k
  {
    if k < r { FetchFrom(m, addr, n, k + 1, r); }
  }

  lemma Sizes(t: PitchTables)
    requires PitchOk(t)
    ensures var m := Image(t);
      && |m[0].data| == 4 * (17 * NUM_BLOCKSEGS + 9) && |m[1].data| == 436 && |m[2].data| == 1920
      && |m[3].data| == 180 && |m[4].data| == NUM_BLOCKSEGS && |m[5].data| == 20
  {
    FlatSize(t.deltaLagCmfs, 320);
    FlatSize(t.blockTransitionCmf, NUM_BLOCKS + 1);
  }

  /** The six regions are pairwise disjoint, so each address inside one is served by it. */
  lemma RegionServes(t: PitchTables, r: nat, off: nat, n: nat)
    requires PitchOk(t) && r < 6 && n >= 1 && off + n <= |Image(t)[r].data|
    ensures Image(t)[r].base + off < W32
    ensures Fetch(Image(t), Image(t)[r].base + off, n, 0) == Image(t)[r].data[off..off + n]
  {
    Sizes(t);
    var m := Image(t);
    assert m[0].base == PCFG + RECORDS && m[1].base == LAG_CDF && m[2].base == FRAC_BASE;
    assert m[3].base == DELTA_CDF && m[4].base == CONTOUR_MAP && m[5].base == BOUNDS;
    hide Image, PitchOk;
    FetchFrom(m, m[r].base + off, n, 0, r);
  }

  // ----- what each address holds -----

  lemma HeaderReads(t: PitchTables)
    requires PitchOk(t)
    ensures var m := Image(t);
      && SignedWord(m, PCFG + 22240) == NUM_BLOCKSEGS && Word(m, PCFG + 22244) == CONTOUR_MAP
      && Word(m, PCFG + 22248) == LAG_CDF && Word(m, PCFG + 22252) == FRAC_BASE && Word(m, PCFG + 22268) == DELTA_CDF
  {
    HeaderRead(t, 1);
    HeaderRead(t, 2);
    HeaderRead(t, 3);
    HeaderRead(t, 4);
    HeaderRead(t, 8);
  }

  lemma HeaderRead(t: PitchTables, i: nat)
    requires PitchOk(t) && i < 9
    ensures Word(Image(t), PCFG + 22236 + 4 * i) == HeaderWords()[i]
  {
    WordRead(t, 17 * NUM_BLOCKSEGS + i);
  }

  lemma WordRead(t: PitchTables, i: nat)
    requires PitchOk(t) && i < 17 * NUM_BLOCKSEGS + 9
    ensures Word(Image(t), PCFG + RECORDS + 4 * i) == (RecordsWords(t.blocksegs, NUM_BLOCKSEGS) + HeaderWords())[i]
  {
    var words := RecordsWords(t.blocksegs, NUM_BLOCKSEGS) + HeaderWords();
    Sizes(t);
    RegionServes(t, 0, 4 * i, 4);
    Le32At(words, i);
    QuadInverse(words[i]);
  }

  /** Contour record i: block k, length k, and the count. */
  lemma RecordReads(t: PitchTables, i: nat, k: nat)
    requires PitchOk(t) && i < NUM_BLOCKSEGS && k < |Contour(t, i).blocks|
    ensures var m := Image(t); var at := PCFG + i * RECORD_SIZE; var bs := Contour(t, i);
      && SignedWord(m, at + RECORDS + 4 * k) == bs.blocks[k]
      && SignedWord(m, at + 0x1d58 + 4 * k) == bs.seglens[k]
      && SignedWord(m, at + 0x1d78) == |bs.blocks|
  {
    RecordRead(t, i, k);
    RecordRead(t, i, 8 + k);
    RecordRead(t, i, 16);
    assert SegOk(t.blocksegs[i]);
  }

  lemma RecordRead(t: PitchTables, i: nat, j: nat)
    requires PitchOk(t) && i < NUM_BLOCKSEGS && j < 17
    ensures Word(Image(t), PCFG + i * RECORD_SIZE + RECORDS + 4 * j) == RecordWords(t.blocksegs[i])[j]
  {
    RecordAt(t.blocksegs, NUM_BLOCKSEGS, i, j);
    hide Image, PitchOk, Word;
    WordRead(t, 17 * i + j);
    assert PCFG + RECORDS + 4 * (17 * i + j) == PCFG + i * RECORD_SIZE + RECORDS + 4 * j;
  }

  lemma MapReads(t: PitchTables, i: nat)
    requires PitchOk(t) && i < NUM_BLOCKSEGS
    ensures U8(Image(t), CONTOUR_MAP + i) == t.blocksegs2idx[i]
  {
    RegionServes(t, 4, i, 1);
  }

  lemma BoundReads(t: PitchTables, b: nat)
    requires PitchOk(t) && b < NUM_BLOCKS
    ensures (U8(Image(t), BOUNDS + b * 2), U8(Image(t), BOUNDS + b * 2 + 1)) == FirstRange(t, b)
  {
    Sizes(t);
    RegionServes(t, 5, b * 2, 1);
    RegionServes(t, 5, b * 2 + 1, 1);
  }

  lemma HalfOf(m: seq<Region>, addr: u32, x: u16)
    requires Fetch(m, addr, 2, 0) == Pair(x)
    ensures U16(m, addr) == x
  {}

  /** Entry i of a packed 16-bit table. */
  lemma HalfRead(m: seq<Region>, addr: u32, data: seq<byte>, v: seq<u16>, i: nat)
    requires data == Le16(v) && i < |v| && Fetch(m, addr, 2, 0) == data[2 * i..2 * i + 2]
    ensures U16(m, addr) == v[i]
  {
    Le16At(v, i);
    HalfOf(m, addr, v[i]);
  }

  /** A window of the lag table, read through the heap. */
  lemma LagWindow(t: PitchTables, lo: nat, n: nat)
    requires PitchOk(t) && lo + n <= NUM_BLOCKSEGS + 1
    ensures CdfAt(Image(t), LAG_CDF + lo * 2, n) == LagCdf(t)[lo..lo + n]
  {
    var m := Image(t);
    var w := LagCdf(t)[lo..lo + n];
    forall i | 0 <= i < n ensures CdfAt(m, LAG_CDF + lo * 2, n)[i] == w[i] {
      RegionServes(t, 1, 2 * (lo + i), 2);
      HalfRead(m, LAG_CDF + 2 * (lo + i), m[1].data, t.blocksegIdxCmf, lo + i);
    }
  }

  lemma TransitionReads(t: PitchTables, b: nat)
    requires PitchOk(t) && b < NUM_BLOCKS
    ensures CdfAt(Image(t), DELTA_CDF + b * 20, 10) == Transition(t, b)
  {
    var m := Image(t);
    forall i | 0 <= i < 10 ensures CdfAt(m, DELTA_CDF + b * 20, 10)[i] == Transition(t, b)[i] {
      FlatAt(t.blockTransitionCmf, 10, b, i);
      RegionServes(t, 3, 2 * (10 * b + i), 2);
      HalfRead(m, DELTA_CDF + 2 * (10 * b + i), m[3].data, Flat(t.blockTransitionCmf), 10 * b + i);
    }
  }

  /** Every 65-entry delta window lies inside its 320-entry table. */
  lemma DeltaReads(t: PitchTables, mode: nat, start: int)
    requires PitchOk(t) && mode < 3 && 0 <= start <= 255
    ensures CdfAt(Image(t), FRAC_BASE + mode * FRAC_STRIDE + start * 2, 65) == DeltaWindow(t, mode, start)
  {
    var m := Image(t);
    forall i | 0 <= i < 65
      ensures CdfAt(m, FRAC_BASE + mode * FRAC_STRIDE + start * 2, 65)[i] == DeltaWindow(t, mode, start)[i]
    {
      FlatAt(t.deltaLagCmfs, 320, mode, start + i);
      var j := 320 * mode + start + i;
      RegionServes(t, 2, 2 * j, 2);
      HalfRead(m, FRAC_BASE + 2 * j, m[2].data, Flat(t.deltaLagCmfs), j);
    }
  }

  // ----- the window object -----

  class SmplMem {
    const regions: seq<Region>

    /** Packs the tables region by region. */
    constructor (t: PitchTables)
      requires PitchOk(t)
      ensures regions == Image(t)
    {
      assert |t.blocksegs| == NUM_BLOCKSEGS;
      hide PitchOk, HeaderWords;
      var r0 := PackRecords(t.blocksegs);
      var rs := [Region(PCFG + RECORDS, r0)];
      rs := rs + [Region(LAG_CDF, Le16(t.blocksegIdxCmf))];
      var frac := Concat(t.deltaLagCmfs);
      rs := rs + [Region(FRAC_BASE, Le16(frac))];
      var delta := Concat(t.blockTransitionCmf);
      rs := rs + [Region(DELTA_CDF, Le16(delta))];
      rs := rs + [Region(CONTOUR_MAP, t.blocksegs2idx)];
      rs := rs + [Region(BOUNDS, RangeBytes(t.firstblockRange))];
      regions := rs;
    }

    /** regionFor: the first region holding n bytes at addr. */
    method RegionFor(addr: u32, n: nat) returns (b: seq<byte>)
      ensures b == Fetch(regions, addr, n, 0)
    {
      for k := 0 to |regions|
        invariant Fetch(regions, addr, n, k) == Fetch(regions, addr, n, 0)
      {
        var r := regions[k];
        if addr >= r.base && addr - r.base + n <= |r.data| {
          return r.data[addr - r.base..addr - r.base + n];
        }
      }
      b := [];
    }

    method ReadU8(addr: u32) returns (x: byte)
      ensures x == U8(regions, addr)
    {
      var b := RegionFor(addr, 1);
      x := if b == [] then 0 else b[0];
    }

    method ReadU32(addr: u32) returns (x: u32)
      ensures x == Word(regions, addr)
    {
      var b := RegionFor(addr, 4);
      x := if b == [] then 0 else Join4(b[0], b[1], b[2], b[3]);
    }

    method ReadI32(addr: u32) returns (x: int)
      ensures x == SignedWord(regions, addr)
    {
      var w := ReadU32(addr);
      x := I32(w);
    }

    method ReadCdfAt(addr: u32, n: nat) returns (c: Cdf)
      ensures c == CdfAt(regions, addr, n)
    {
      var out := new u16[n](_ => 0);
      for i := 0 to n
        invariant forall j :: 0 <= j < i ==> out[j] == U16(regions, U32(addr + j * 2))
      {
        var b := RegionFor(U32(addr + i * 2), 2);
        out[i] := if b == [] then 0 else Join2(b[0], b[1]);
      }
      c := out[..];
    }
  }

  method PackRecords(blocksegs: seq<BlockSeg>) returns (r0: seq<byte>)
    ensures r0 == Le32(RecordsWords(blocksegs, |blocksegs|) + HeaderWords())
  {
    var words := [];
    r0 := [];
    for i := 0 to |blocksegs|
      invariant words == RecordsWords(blocksegs, i) && r0 == Le32(words)
    {
      var rec := PackWords(r0, words, RecordWords(blocksegs[i]));
      r0, words := rec, words + RecordWords(blocksegs[i]);
    }
    r0 := PackWords(r0, words, HeaderWords());
  }

  /** Appends words to bytes already packed. */
  method PackWords(bytes: seq<byte>, done: seq<u32>, more: seq<u32>) returns (out: seq<byte>)
    requires bytes == Le32(done)
    ensures out == Le32(done + more)
  {
    out := bytes;
    assert done + more[..0] == done;
    for i := 0 to |more|
      invariant out == Le32(done + more[..i])
    {
      Le32Snoc(done + more[..i], more[i]);
      assert done + more[..i + 1] == done + more[..i] + [more[i]];
      out := out + Quad(more[i]);
    }
    assert more[..|more|] == more;
  }

  method Concat(cdfs: seq<Cdf>) returns (flat: seq<u16>)
    ensures flat == Flat(cdfs)
  {
    flat := [];
    for i := 0 to |cdfs|
      invariant flat == Flat(cdfs[..i])
    {
      assert cdfs[..i + 1][..i] == cdfs[..i];
      flat := flat + cdfs[i];
    }
    assert cdfs[..|cdfs|] == cdfs;
  }
}
