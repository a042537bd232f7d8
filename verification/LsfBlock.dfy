/** The LSF block of an internal frame, and the predictor state shared with the pitch block. */
module LsfBlock {
  import opened RangeSpec
  import opened RangeProof
  import opened Symbols
  import opened RangeCoder

  const LSF_ORDER := 16

  datatype LsfGrid = LsfGrid(match1: Cdf, match1Alt: Cdf, match0: Cdf, match0Alt: Cdf)

  /** Selector rows, grid tables, stage-2 tables by [stage1][grid][coefficient] (config 0), and the extra table. */
  datatype LsfTables = LsfTables(lsfSel: seq<Cdf>, lsfGrid: LsfGrid, lsfStage2: seq<seq<seq<Cdf>>>, lsfExtra: Cdf)

  predicate CdfOf(cdf: Cdf, symbols: nat) { |cdf| == symbols + 1 && Increasing(cdf) }

  predicate LsfOk(t: LsfTables) {
    && |t.lsfSel| == 3 && (forall i :: 0 <= i < 3 ==> CdfOf(t.lsfSel[i], 2))
    && CdfOf(t.lsfGrid.match1, 17) && CdfOf(t.lsfGrid.match1Alt, 17)
    && CdfOf(t.lsfGrid.match0, 16) && CdfOf(t.lsfGrid.match0Alt, 16)
    && |t.lsfStage2| == 2
    && (forall s :: 0 <= s < 2 ==> |t.lsfStage2[s]| == 17)
    && (forall s, g :: 0 <= s < 2 && 0 <= g < 17 ==> Stage2Ok(t.lsfStage2[s][g]))
    && CdfOf(t.lsfExtra, 2)
  }

  predicate Stage2Ok(row: seq<Cdf>) { |row| == LSF_ORDER && forall k :: 0 <= k < LSF_ORDER ==> Increasing(row[k]) }

  datatype LsfParams = LsfParams(stage1: int, grid: int, stage2: seq<int>, extra: int)

  /** Predictor fields; the last two are the encoder's own lag predictor. */
  datatype Predictor = Predictor(prevStage1: int, prevMatch: bool, havePrev: bool, prevGainIdx: int, prevFiltIdx: int,
                                 prevLag: int, prevFracLag: int, prevLagblk: int, prevLagidx: int)

  class SmplLsfState {
    var prevStage1: int
    var prevMatch: bool
    var havePrev: bool
    var prevGainIdx: int
    var prevFiltIdx: int
    var prevLag: int
    var prevFracLag: int
    var prevLagblk: int
    var prevLagidx: int

    function Get(): Predictor
      reads this
    {
      Predictor(prevStage1, prevMatch, havePrev, prevGainIdx, prevFiltIdx, prevLag, prevFracLag, prevLagblk, prevLagidx)
    }

    /** The zero value a new packet's encoder starts from. */
    constructor ()
      ensures Get() == Predictor(0, false, false, 0, 0, 0, 0, 0, 0)
    {
      prevStage1, prevMatch, havePrev := 0, false, false;
      prevGainIdx, prevFiltIdx, prevLag, prevFracLag, prevLagblk, prevLagidx := 0, 0, 0, 0, 0, 0;
    }

    /** The predictor update of the LSF block; only the encoder owns the last two fields. */
    method Turn(intf: nat, stage1: int, encoder: bool) returns (m: bool)
      modifies this
      ensures m == Matches(old(Get()), intf, stage1)
      ensures Get() == if encoder then EncPredictor(old(Get()), intf, stage1)
        else DecPredictor(old(Get()), intf, stage1)
    {
      m := intf != 0 && stage1 == prevStage1;
      if !m {
        prevGainIdx, prevFiltIdx, prevLag, prevFracLag := -1, -1, -1, -1;
        if encoder {
          prevLagblk, prevLagidx := -1, -1;
        }
      }
      prevStage1 := stage1;
      prevMatch := m;
      havePrev := true;
    }

    /** SmplAdvanceLsfState: what the encoder's analysis runs to mirror the predictor. */
    method Advance(intf: nat, stage1: int)
      modifies this
      ensures Get() == EncPredictor(old(Get()), intf, stage1)
    {
      var m := Turn(intf, stage1, true);
    }
  }

  function Matches(st: Predictor, intf: nat, stage1: int): bool { intf != 0 && stage1 == st.prevStage1 }

  /** Decoder side: four pitch fields reset on a mismatch. */
  function DecPredictor(st: Predictor, intf: nat, stage1: int): Predictor {
    var m := Matches(st, intf, stage1);
    var r := if m then st else st.(prevGainIdx := -1, prevFiltIdx := -1, prevLag := -1, prevFracLag := -1);
    r.(prevStage1 := stage1, prevMatch := m, havePrev := true)
  }

  /** Encoder side: its own lag predictor resets too. */
  function EncPredictor(st: Predictor, intf: nat, stage1: int): Predictor {
    var r := DecPredictor(st, intf, stage1);
    if r.prevMatch then r else r.(prevLagblk := -1, prevLagidx := -1)
  }

  /** Encoder and decoder agree on every field the next frame depends on. */
  predicate Linked(enc: Predictor, dec: Predictor) {
    && enc.prevStage1 == dec.prevStage1
    && enc.prevGainIdx == dec.prevGainIdx && enc.prevFiltIdx == dec.prevFiltIdx
    && enc.prevLagblk == dec.prevLag && enc.prevLagidx == dec.prevFracLag
  }

  function SelRow(t: LsfTables, st: Predictor, intf: nat): (c: Cdf)
    requires LsfOk(t)
    ensures Increasing(c) && |c| == 3
  {
    t.lsfSel[if intf == 0 then 0 else if st.prevStage1 != 0 then 2 else 1]
  }

  function GridCdf(t: LsfTables, m: bool, stage1: int): (c: Cdf)
    requires LsfOk(t)
    ensures Increasing(c) && |c| == if m then 18 else 17
  {
    if m && stage1 != 0 then t.lsfGrid.match1
    else if m then t.lsfGrid.match1Alt
    else if stage1 != 0 then t.lsfGrid.match0Alt
    else t.lsfGrid.match0
  }

  function ExtraRow(t: LsfTables): (c: Cdf)
    requires LsfOk(t)
    ensures Increasing(c)
  {
    t.lsfExtra
  }

  /** The residual tables of one grid point. */
  function Stage2Row(t: LsfTables, stage1: int, grid: int): (row: seq<Cdf>)
    requires LsfOk(t) && 0 <= stage1 < 2 && 0 <= grid < 17
    ensures |row| == LSF_ORDER && AllIncreasing(row)
  {
    assert Stage2Ok(t.lsfStage2[stage1][grid]);
    t.lsfStage2[stage1][grid]
  }

  /** The first frame has its own selector table; later ones go by whether the selector before was zero. */
  lemma SelectorTables(t: LsfTables, st: Predictor, intf: nat)
    requires LsfOk(t)
    ensures intf == 0 ==> SelRow(t, st, intf) == t.lsfSel[0]
    ensures intf > 0 && st.prevStage1 == 0 ==> SelRow(t, st, intf) == t.lsfSel[1]
    ensures intf > 0 && st.prevStage1 != 0 ==> SelRow(t, st, intf) == t.lsfSel[2]
  {}

  /** Four grid tables: one for each answer to whether the selector is repeated and whether it is zero. */
  lemma GridTables(t: LsfTables)
    requires LsfOk(t)
    ensures GridCdf(t, true, 1) == t.lsfGrid.match1 && GridCdf(t, true, 0) == t.lsfGrid.match1Alt
    ensures GridCdf(t, false, 1) == t.lsfGrid.match0Alt && GridCdf(t, false, 0) == t.lsfGrid.match0
  {}

  // ----- runs of symbols, each with its own table -----

  predicate AllIncreasing(cdfs: seq<Cdf>) { forall k :: 0 <= k < |cdfs| ==> Increasing(cdfs[k]) }

  /** The first k symbols, each against its own table. */
  function ManyScript(syms: seq<int>, cdfs: seq<Cdf>, k: nat): (s: Script)
    requires k <= |syms| && k <= |cdfs| && AllIncreasing(cdfs)
    ensures Sound(s)
  {
    if k == 0 then Nothing else Then(ManyScript(syms, cdfs, k - 1), One(CdfOp(syms[k - 1], cdfs[k - 1])))
  }

  function ReadMany(d: DecState, cdfs: seq<Cdf>, k: nat): (r: (seq<int>, DecState))
    requires DecInv(d) && k <= |cdfs| && AllIncreasing(cdfs)
    ensures |r.0| == k && DecInv(r.1)
  {
    if k == 0 then ([], d)
    else
      var (syms, d1) := ReadMany(d, cdfs, k - 1);
      var (s, d2) := ReadCdf(d1, cdfs[k - 1]);
      (syms + [s], d2)
  }

  lemma {:induction false} ManyScriptPrefix(a: seq<int>, b: seq<int>, cdfs: seq<Cdf>, k: nat)
    requires k <= |a| && k <= |b| && k <= |cdfs| && AllIncreasing(cdfs) && a[..k] == b[..k]
    ensures ManyScript(a, cdfs, k) == ManyScript(b, cdfs, k)
  {
    if k > 0 {
      assert a[..k - 1] == a[..k][..k - 1] == b[..k][..k - 1] == b[..k - 1];
      assert a[k - 1] == a[..k][k - 1] == b[k - 1];
      ManyScriptPrefix(a, b, cdfs, k - 1);
    }
  }

  /** On any input, the symbols returned are the ones whose script was just read. */
  lemma {:induction false} ReadManySound(d: DecState, cdfs: seq<Cdf>, k: nat)
    requires DecInv(d) && k <= |cdfs| && AllIncreasing(cdfs)
    ensures var (syms, f) := ReadMany(d, cdfs, k);
      Holds(d, ManyScript(syms, cdfs, k)) && f == Past(d, ManyScript(syms, cdfs, k))
  {
    hide ReadCdf, CdfOp, Reads, AfterOp, Increasing;
    if k > 0 {
      ReadManySound(d, cdfs, k - 1);
      var (syms, d1) := ReadMany(d, cdfs, k - 1);
      var s := ReadCdf(d1, cdfs[k - 1]).0;
      ManyScriptPrefix(syms, syms + [s], cdfs, k - 1);
    }
  }

  lemma {:induction false} ReadManyBack(d: DecState, syms: seq<int>, cdfs: seq<Cdf>, k: nat)
    requires DecInv(d) && k <= |syms| && k <= |cdfs| && AllIncreasing(cdfs)
    requires Holds(d, ManyScript(syms, cdfs, k))
    ensures ReadMany(d, cdfs, k) == (syms[..k], Past(d, ManyScript(syms, cdfs, k)))
  {
    hide ReadCdf, CdfOp, Reads, AfterOp, Increasing;
    if k > 0 {
      HoldsThen(d, ManyScript(syms, cdfs, k - 1), One(CdfOp(syms[k - 1], cdfs[k - 1])));
      HoldsOne(Past(d, ManyScript(syms, cdfs, k - 1)), CdfOp(syms[k - 1], cdfs[k - 1]));
      ReadManyBack(d, syms, cdfs, k - 1);
      assert syms[..k] == syms[..k - 1] + [syms[k - 1]];
      ReadCdfBack(Past(d, ManyScript(syms, cdfs, k - 1)), syms[k - 1], cdfs[k - 1]);
    }
  }

  // ----- the block -----

  predicate LsfIndexable(lsf: LsfParams) {
    0 <= lsf.stage1 < 2 && 0 <= lsf.grid < 17 && |lsf.stage2| == LSF_ORDER
  }

  function LsfScript(t: LsfTables, st: Predictor, intf: nat, lsf: LsfParams): (s: Script)
    requires LsfOk(t) && LsfIndexable(lsf)
    ensures Sound(s)
  {
    var head := LsfHead(t, st, intf, lsf);
    var body := Then(head, ManyScript(lsf.stage2, Stage2Row(t, lsf.stage1, lsf.grid), LSF_ORDER));
    assert Sound(body);
    Then(body, One(CdfOp(lsf.extra, ExtraRow(t))))
  }

  /** Selector and grid. */
  function LsfHead(t: LsfTables, st: Predictor, intf: nat, lsf: LsfParams): (s: Script)
    requires LsfOk(t) && LsfIndexable(lsf)
    ensures Sound(s)
  {
    Then(One(CdfOp(lsf.stage1, SelRow(t, st, intf))),
         One(CdfOp(lsf.grid, GridCdf(t, Matches(st, intf, lsf.stage1), lsf.stage1))))
  }

  /** The block as the decoder reads it. */
  function ReadLsf(t: LsfTables, d: DecState, st: Predictor, intf: nat): (r: (LsfParams, DecState))
    requires LsfOk(t) && DecInv(d)
    ensures LsfIndexable(r.0) && DecInv(r.1)
  {
    var (stage1, d1) := ReadCdf(d, SelRow(t, st, intf));
    var (grid, d2) := ReadCdf(d1, GridCdf(t, Matches(st, intf, stage1), stage1));
    var (stage2, d3) := ReadMany(d2, Stage2Row(t, stage1, grid), LSF_ORDER);
    var (extra, d4) := ReadCdf(d3, ExtraRow(t));
    (LsfParams(stage1, grid, stage2, extra), d4)
  }

  /** On any input, what the decoder returns is what the encoder would write to produce that input. */
  lemma ReadLsfSound(t: LsfTables, d: DecState, st: Predictor, intf: nat)
    requires LsfOk(t) && DecInv(d)
    ensures var (lsf, f) := ReadLsf(t, d, st, intf);
      Holds(d, LsfScript(t, st, intf, lsf)) && f == Past(d, LsfScript(t, st, intf, lsf))
  {
    hide ReadCdf, CdfOp, Reads, AfterOp, Increasing, ReadMany, ManyScript, SelRow, GridCdf, Stage2Row, ExtraRow, LsfOk,
      Holds, Past;
    var lsf := ReadLsf(t, d, st, intf).0;
    var row := Stage2Row(t, lsf.stage1, lsf.grid);
    var op0 := CdfOp(lsf.stage1, SelRow(t, st, intf));
    var op1 := CdfOp(lsf.grid, GridCdf(t, Matches(st, intf, lsf.stage1), lsf.stage1));
    var d1 := ReadCdf(d, SelRow(t, st, intf)).1;
    var d2 := ReadCdf(d1, GridCdf(t, Matches(st, intf, lsf.stage1), lsf.stage1)).1;
    HoldsOne(d, op0);
    HoldsOne(d1, op1);
    HoldsThen(d, One(op0), One(op1));
    ReadManySound(d2, row, LSF_ORDER);
    var d3 := ReadMany(d2, row, LSF_ORDER).1;
    HoldsOne(d3, CdfOp(lsf.extra, ExtraRow(t)));
    LsfHolds(t, d, st, intf, lsf);
  }

  lemma LsfHolds(t: LsfTables, d: DecState, st: Predictor, intf: nat, lsf: LsfParams)
    requires LsfOk(t) && DecInv(d) && LsfIndexable(lsf)
    ensures var head := LsfHead(t, st, intf, lsf);
      var many := ManyScript(lsf.stage2, Stage2Row(t, lsf.stage1, lsf.grid), LSF_ORDER);
      var last := One(CdfOp(lsf.extra, ExtraRow(t))); var s := LsfScript(t, st, intf, lsf);
      && (Holds(d, s) <==> Holds(d, head) && Holds(Past(d, head), many) && Holds(Past(Past(d, head), many), last))
      && (Holds(d, s) ==> Past(d, s) == Past(Past(Past(d, head), many), last))
  {
    hide ReadCdf, CdfOp, Reads, AfterOp, Increasing, ReadMany, ManyScript, LsfHead, Stage2Row, ExtraRow, LsfOk, Holds,
      Past;
    var head := LsfHead(t, st, intf, lsf);
    var many := ManyScript(lsf.stage2, Stage2Row(t, lsf.stage1, lsf.grid), LSF_ORDER);
    HoldsThen(d, head, many);
    HoldsThen(d, Then(head, many), One(CdfOp(lsf.extra, ExtraRow(t))));
  }

  /** A decoder facing an encoded block reads that block. */
  lemma ReadLsfBack(t: LsfTables, d: DecState, st: Predictor, intf: nat, lsf: LsfParams)
    requires LsfOk(t) && DecInv(d) && LsfIndexable(lsf) && Holds(d, LsfScript(t, st, intf, lsf))
    ensures ReadLsf(t, d, st, intf) == (lsf, Past(d, LsfScript(t, st, intf, lsf)))
  {
    hide ReadCdf, CdfOp, Reads, AfterOp, Increasing, ReadMany, ManyScript, SelRow, GridCdf, Stage2Row, ExtraRow, LsfOk,
      Holds, Past;
    var row := Stage2Row(t, lsf.stage1, lsf.grid);
    var grid := GridCdf(t, Matches(st, intf, lsf.stage1), lsf.stage1);
    var op0, op1, op3 := CdfOp(lsf.stage1, SelRow(t, st, intf)), CdfOp(lsf.grid, grid), CdfOp(lsf.extra, ExtraRow(t));
    LsfHolds(t, d, st, intf, lsf);
    HoldsThen(d, One(op0), One(op1));
    HoldsOne(d, op0);
    ReadCdfBack(d, lsf.stage1, SelRow(t, st, intf));
    var d1 := Past(d, One(op0));
    HoldsOne(d1, op1);
    ReadCdfBack(d1, lsf.grid, grid);
    var d2 := Past(d1, One(op1));
    ReadManyBack(d2, lsf.stage2, row, LSF_ORDER);
    assert lsf.stage2[..LSF_ORDER] == lsf.stage2;
    var d3 := Past(d2, ManyScript(lsf.stage2, row, LSF_ORDER));
    HoldsOne(d3, op3);
    ReadCdfBack(d3, lsf.extra, ExtraRow(t));
  }

  /** Frame 0 never looks at the predictor, and later frames look only at the previous stage-1 selector. */
  lemma LsfScriptDependsOnStage1(t: LsfTables, a: Predictor, b: Predictor, intf: nat, lsf: LsfParams)
    requires LsfOk(t) && LsfIndexable(lsf) && (intf == 0 || a.prevStage1 == b.prevStage1)
    ensures LsfScript(t, a, intf, lsf) == LsfScript(t, b, intf, lsf)
  {}

  // ----- the methods -----

  method EncodeSmplLsf(enc: RangeEncoder, t: LsfTables, st: SmplLsfState, intf: nat, lsf: LsfParams)
    requires enc.Valid() && LsfOk(t) && LsfIndexable(lsf)
    modifies enc, enc.buf, st
    ensures enc.Valid() && enc.sent == Sent(old(enc.sent), LsfScript(t, old(st.Get()), intf, lsf))
    ensures st.Get() == EncPredictor(old(st.Get()), intf, lsf.stage1)
  {
    hide RangeEncoder.Valid, CdfOp, Increasing, ManyScript, Degenerate, SelRow, ExtraRow, Stage2Row, GridCdf, LsfOk,
      Sent, Flatten;
    ghost var before, st0 := enc.sent, st.Get();
    var sel := SelRow(t, st.Get(), intf);
    var stage1 := lsf.stage1;
    enc.EncodeCDF(stage1, sel);
    SentOne(before, CdfOp(stage1, sel));

    var m := st.Turn(intf, stage1, true);

    var gridCDF := GridCdf(t, m, stage1);
    SentOne(enc.sent, CdfOp(lsf.grid, gridCDF));
    enc.EncodeCDF(lsf.grid, gridCDF);
    SentThen(before, One(CdfOp(stage1, sel)), One(CdfOp(lsf.grid, gridCDF)));

    var st2 := Stage2Row(t, stage1, lsf.grid);
    EncodeMany(enc, lsf.stage2, st2);
    SentThen(before, LsfHead(t, st0, intf, lsf), ManyScript(lsf.stage2, st2, LSF_ORDER));
    SentOne(enc.sent, CdfOp(lsf.extra, ExtraRow(t)));
    enc.EncodeCDF(lsf.extra, ExtraRow(t));
    SentThen(before, Then(LsfHead(t, st0, intf, lsf), ManyScript(lsf.stage2, st2, LSF_ORDER)),
      One(CdfOp(lsf.extra, ExtraRow(t))));
  }

  /** The residual loop. */
  method EncodeMany(enc: RangeEncoder, syms: seq<int>, cdfs: seq<Cdf>)
    requires enc.Valid() && |syms| == |cdfs| && AllIncreasing(cdfs)
    modifies enc, enc.buf
    ensures enc.Valid() && enc.sent == Sent(old(enc.sent), ManyScript(syms, cdfs, |cdfs|))
  {
    hide RangeEncoder.Valid, CdfOp, Increasing, Degenerate, Sent, Flatten;
    ghost var before := enc.sent;
    SentNothing(before);
    for k := 0 to |cdfs|
      invariant enc.Valid() && enc.sent == Sent(before, ManyScript(syms, cdfs, k))
    {
      SentOne(enc.sent, CdfOp(syms[k], cdfs[k]));
      SentThen(before, ManyScript(syms, cdfs, k), One(CdfOp(syms[k], cdfs[k])));
      enc.EncodeCDF(syms[k], cdfs[k]);
    }
  }

  method DecodeSmplLsf(dec: RangeDecoder, t: LsfTables, st: SmplLsfState, intf: nat) returns (lsf: LsfParams)
    requires dec.Valid() && LsfOk(t)
    modifies dec, st
    ensures dec.Valid() && (lsf, dec.State()) == ReadLsf(t, old(dec.State()), old(st.Get()), intf)
    ensures st.Get() == DecPredictor(old(st.Get()), intf, lsf.stage1)
  {
    hide RangeDecoder.Valid, ReadCdf, Increasing, ReadMany, GridCdf, Stage2Row, Degenerate, SelRow, ExtraRow, LsfOk;
    var stage1 := dec.DecodeCDF(SelRow(t, st.Get(), intf));
    var m := st.Turn(intf, stage1, false);
    var gridCDF := GridCdf(t, m, stage1);
    var grid := dec.DecodeCDF(gridCDF);
    var st2 := Stage2Row(t, stage1, grid);
    var stage2 := DecodeMany(dec, st2);
    var extra := dec.DecodeCDF(ExtraRow(t));
    lsf := LsfParams(stage1, grid, stage2, extra);
  }

  method DecodeMany(dec: RangeDecoder, cdfs: seq<Cdf>) returns (syms: seq<int>)
    requires dec.Valid() && AllIncreasing(cdfs)
    modifies dec
    ensures dec.Valid() && (syms, dec.State()) == ReadMany(old(dec.State()), cdfs, |cdfs|)
  {
    syms := [];
    for k := 0 to |cdfs|
      invariant dec.Valid() && (syms, dec.State()) == ReadMany(old(dec.State()), cdfs, k)
    {
      var s := dec.DecodeCDF(cdfs[k]);
      syms := syms + [s];
    }
  }
}
