/** The gain block of an unvoiced internal frame: main and delta gain, then one residual per coded subframe. */
module GainBlock {
  import opened RangeSpec
  import opened RangeProof
  import opened Symbols
  import opened RangeCoder
  import opened CdfTables

  type i16 = x: int | -0x8000 <= x < 0x8000

  const W32 := 0x1_0000_0000
  const RECON_P4 := 0xf35f0
  const OFFSET_WINDOW := 92
  const GAIN_FLOOR := 85
  const GAIN_BIAS := 0x154000
  const STEP_CFG := 2

  /** Main and delta tables, the residual rows by [cfg * 4 + bucket], and the reconstruction rodata with its address. */
  datatype GainTabs = GainTabs(main: Cdf, shape: Cdf, offset: seq<Cdf>, reconBase: u32, recon: seq<i16>)

  predicate GainOk(t: GainTabs) {
    && Increasing(t.main) && |t.main| <= 128
    && Increasing(t.shape) && |t.shape| <= 128
    && |t.offset| >= 12
      && forall i :: 0 <= i < 12 ==> Increasing(t.offset[i]) && |t.offset[i]| == OFFSET_WINDOW + GAIN_FLOOR
  }

  datatype GainParams = GainParams(main: i32, delta: i32, nrgRes: seq<int>)

  // ----- reconstruction, with the source's 32-bit steps -----

  function I32(x: int): (r: i32)
    ensures -0x8000_0000 <= x < 0x8000_0000 ==> r == x
  {
    if -0x8000_0000 <= x < 0x8000_0000 then x else (x + 0x8000_0000) % W32 - 0x8000_0000
  }

  function U32(x: int): (r: u32)
    ensures 0 <= x < W32 ==> r == x
  {
    if 0 <= x < W32 then x else x % W32
  }

  /** The rodata entry at an address; zero where the address is odd or outside. */
  function ReconAt(t: GainTabs, addr: u32): i16 {
    var off := U32(addr - t.reconBase);
    if off % 2 == 0 && off / 2 < |t.recon| then t.recon[off / 2] else 0
  }

  function NrgStep(t: GainTabs): i16 { ReconAt(t, U32(t.reconBase + STEP_CFG * 2)) }

  function GainRecon(t: GainTabs, idx: i32): i16 { ReconAt(t, U32(RECON_P4 + U32(U32(idx) * 2))) }

  function MainGain(t: GainTabs, main: i32): i32 { I32(I32(main * NrgStep(t)) - GAIN_BIAS) }

  function GainQ(t: GainTabs, main: i32, delta: i32, sf: nat): i32
    requires sf < 4
  {
    I32(MainGain(t, main) + GainRecon(t, I32(sf + I32(4 * delta))) * 16)
  }

  /** First entry of the residual window: the negative part of the rounded gain, floored at -85. */
  function MinOffset(gainQ: i32): (o: nat)
    ensures o <= GAIN_FLOOR
  {
    var g := I32(gainQ + 8192) / 16384;
    if g < -GAIN_FLOOR then GAIN_FLOOR else if g < 0 then -g else 0
  }

  function Bucket(cnt: nat): (b: nat)
    ensures b < 4
  {
    if cnt >= 30 then 3 else cnt / 10
  }

  /** The 92-entry residual table: inside its 177-entry row whatever the gains. */
  function OffsetTable(t: GainTabs, gainQ: i32, cnt: nat): (c: Cdf)
    requires GainOk(t)
    ensures Increasing(c) && |c| == OFFSET_WINDOW
  {
    var row := t.offset[STEP_CFG * 4 + Bucket(cnt)];
    row[MinOffset(gainQ)..MinOffset(gainQ) + OFFSET_WINDOW]
  }

  /** For symbols of the tables no 32-bit step wraps. */
  lemma GainQExact(t: GainTabs, main: i32, delta: i32, sf: nat)
    requires sf < 4 && 0 <= main < 128 && 0 <= delta < 128
    ensures GainQ(t, main, delta, sf) ==
      main * NrgStep(t) - GAIN_BIAS + 16 * ReconAt(t, RECON_P4 + 2 * (sf + 4 * delta))
  {
    ProductBound(main, NrgStep(t));
    hide ReconAt;
    assert U32(U32(sf + 4 * delta) * 2) == 2 * (sf + 4 * delta);
  }

  lemma ProductBound(a: nat, b: int)
    requires a < 128 && -0x8000 <= b < 0x8000
    ensures -128 * 0x8000 <= a * b <= 128 * 0x8000
  {
    var m := if b >= 0 then b else -b;
    MulMono(a, m, 0x8000);
    MulMono(0x8000, a, 128);
    assert a * b == if b >= 0 then a * m else -(a * m);
  }

  /** An even address inside the rodata is its entry; anything else reads as zero. */
  lemma ReconReads(t: GainTabs, i: nat)
    requires t.reconBase as int + 2 * i + 1 < W32
    ensures ReconAt(t, t.reconBase as int + 2 * i) == if i < |t.recon| then t.recon[i] else 0
    ensures ReconAt(t, t.reconBase as int + 2 * i + 1) == 0
    ensures i == 2 && i < |t.recon| ==> NrgStep(t) == t.recon[2]
  {}

  /** The window starts at the whole quarter-decibels of attenuation, to the nearest, from 0 up to 85. */
  lemma OffsetNearest(gainQ: i32)
    requires gainQ as int + 8192 < 0x8000_0000
    ensures var o := MinOffset(gainQ);
      if gainQ >= 0 then o == 0
      else if gainQ as int <= -16384 * GAIN_FLOOR then o == GAIN_FLOOR
      else -8192 <= 16384 * o + gainQ as int <= 8192
  {}

  /** Tens of pulses pick the row, 30 and more the last. */
  lemma RowByTens(t: GainTabs, gainQ: i32, cnt: nat, i: nat)
    requires GainOk(t) && i < OFFSET_WINDOW
    ensures var b := Bucket(cnt);
      && (if cnt < 30 then 10 * b <= cnt < 10 * b + 10 else b == 3)
      && OffsetTable(t, gainQ, cnt)[i] == t.offset[8 + b][MinOffset(gainQ) + i]
  {}

  // ----- the block -----

  function MainRow(t: GainTabs): (c: Cdf)
    requires GainOk(t)
    ensures Increasing(c) && |c| <= 128
  {
    t.main
  }

  function ShapeRow(t: GainTabs): (c: Cdf)
    requires GainOk(t)
    ensures Increasing(c) && |c| <= 128
  {
    t.shape
  }

  /** One subframe: nothing when it holds no pulse. */
  function NrgOne(t: GainTabs, main: i32, delta: i32, subfr: seq<nat>, k: nat, sym: int): (s: Script)
    requires GainOk(t) && k < |subfr| == 4
    ensures Sound(s)
  {
    if subfr[k] == 0 then Nothing else One(CdfOp(sym, OffsetTable(t, GainQ(t, main, delta, k), subfr[k])))
  }

  function NrgScript(t: GainTabs, main: i32, delta: i32, subfr: seq<nat>, syms: seq<int>, k: nat): (s: Script)
    requires GainOk(t) && |subfr| == 4 && k <= 4 && k <= |syms|
    ensures Sound(s)
  {
    if k == 0 then Nothing
    else Then(NrgScript(t, main, delta, subfr, syms, k - 1), NrgOne(t, main, delta, subfr, k - 1, syms[k - 1]))
  }

  function GainHead(t: GainTabs, main: i32, delta: i32): (s: Script)
    requires GainOk(t)
    ensures Sound(s)
  {
    Then(One(CdfOp(main, MainRow(t))), One(CdfOp(delta, ShapeRow(t))))
  }

  function GainScript(t: GainTabs, subfr: seq<nat>, gp: GainParams): (s: Script)
    requires GainOk(t) && |subfr| == |gp.nrgRes| == 4
    ensures Sound(s)
  {
    Then(GainHead(t, gp.main, gp.delta), NrgScript(t, gp.main, gp.delta, subfr, gp.nrgRes, 4))
  }

  /** The residual of an empty subframe is not on the wire; a decoder reports zero. */
  function Reported(subfr: seq<nat>, syms: seq<int>): (r: seq<int>)
    requires |syms| <= |subfr|
    ensures |r| == |syms|
  {
    seq(|syms|, i requires 0 <= i < |syms| => if subfr[i] == 0 then 0 else syms[i])
  }

  function ReadNrgOne(t: GainTabs, d: DecState, main: i32, delta: i32, subfr: seq<nat>, k: nat): (r: (int, DecState))
    requires GainOk(t) && DecInv(d) && k < |subfr| == 4
    ensures DecInv(r.1)
  {
    if subfr[k] == 0 then (0, d) else ReadCdf(d, OffsetTable(t, GainQ(t, main, delta, k), subfr[k]))
  }

  function ReadNrg(t: GainTabs, d: DecState, main: i32, delta: i32, subfr: seq<nat>, k: nat): (r: (seq<int>, DecState))
    requires GainOk(t) && DecInv(d) && |subfr| == 4 && k <= 4
    ensures |r.0| == k && DecInv(r.1)
  {
    if k == 0 then ([], d)
    else
      var front := ReadNrg(t, d, main, delta, subfr, k - 1);
      var one := ReadNrgOne(t, front.1, main, delta, subfr, k - 1);
      (front.0 + [one.0], one.1)
  }

  function ReadGains(t: GainTabs, d: DecState, subfr: seq<nat>): (r: (GainParams, DecState))
    requires GainOk(t) && DecInv(d) && |subfr| == 4
    ensures 0 <= r.0.main < 128 && 0 <= r.0.delta < 128 && |r.0.nrgRes| == 4 && DecInv(r.1)
  {
    var m := ReadCdf(d, MainRow(t));
    var s := ReadCdf(m.1, ShapeRow(t));
    var n := ReadNrg(t, s.1, m.0, s.0, subfr, 4);
    (GainParams(m.0, s.0, n.0), n.1)
  }

  lemma NrgOneSound(t: GainTabs, d: DecState, main: i32, delta: i32, subfr: seq<nat>, k: nat)
    requires GainOk(t) && DecInv(d) && k < |subfr| == 4
    ensures var r := ReadNrgOne(t, d, main, delta, subfr, k); var s := NrgOne(t, main, delta, subfr, k, r.0);
      Holds(d, s) && r.1 == Past(d, s) && (subfr[k] == 0 ==> r.0 == 0)
  {
    hide ReadCdf, CdfOp, Reads, AfterOp, Increasing, GainOk, OffsetTable, GainQ;
    var r := ReadNrgOne(t, d, main, delta, subfr, k);
    if subfr[k] == 0 {
      HoldsNothing(d);
    } else {
      HoldsOne(d, CdfOp(r.0, OffsetTable(t, GainQ(t, main, delta, k), subfr[k])));
    }
  }

  lemma NrgOneBack(t: GainTabs, d: DecState, main: i32, delta: i32, subfr: seq<nat>, k: nat, sym: int)
    requires GainOk(t) && DecInv(d) && k < |subfr| == 4 && Holds(d, NrgOne(t, main, delta, subfr, k, sym))
    ensures ReadNrgOne(t, d, main, delta, subfr, k) ==
      (if subfr[k] == 0 then 0 else sym, Past(d, NrgOne(t, main, delta, subfr, k, sym)))
  {
    hide ReadCdf, CdfOp, Reads, AfterOp, Increasing, GainOk, OffsetTable, GainQ;
    if subfr[k] == 0 {
      HoldsNothing(d);
    } else {
      var table := OffsetTable(t, GainQ(t, main, delta, k), subfr[k]);
      HoldsOne(d, CdfOp(sym, table));
      ReadCdfBack(d, sym, table);
    }
  }

  lemma {:induction false} NrgScriptPrefix(t: GainTabs, main: i32, delta: i32, subfr: seq<nat>, a: seq<int>,
                                           b: seq<int>, k: nat)
    requires GainOk(t) && |subfr| == 4 && k <= 4 && k <= |a| && k <= |b| && a[..k] == b[..k]
    ensures NrgScript(t, main, delta, subfr, a, k) == NrgScript(t, main, delta, subfr, b, k)
  {
    hide GainOk, NrgOne;
    if k > 0 {
      assert a[..k - 1] == a[..k][..k - 1] == b[..k][..k - 1] == b[..k - 1];
      assert a[k - 1] == a[..k][k - 1] == b[k - 1];
      NrgScriptPrefix(t, main, delta, subfr, a, b, k - 1);
    }
  }

  /** On any input, the residuals read are the ones whose script was there. */
  lemma {:induction false} NrgSound(t: GainTabs, d: DecState, main: i32, delta: i32, subfr: seq<nat>, k: nat)
    requires GainOk(t) && DecInv(d) && |subfr| == 4 && k <= 4
    ensures var r := ReadNrg(t, d, main, delta, subfr, k); var s := NrgScript(t, main, delta, subfr, r.0, k);
      Holds(d, s) && r.1 == Past(d, s) && Reported(subfr, r.0) == r.0
  {
    hide GainOk, NrgOne, ReadNrgOne, Holds, Past;
    var r := ReadNrg(t, d, main, delta, subfr, k);
    if k == 0 {
      HoldsNothing(d);
    } else {
      var front := ReadNrg(t, d, main, delta, subfr, k - 1);
      NrgSound(t, d, main, delta, subfr, k - 1);
      assert forall i :: 0 <= i < k - 1 ==> Reported(subfr, front.0)[i] == front.0[i];
      NrgOneSound(t, front.1, main, delta, subfr, k - 1);
      var one := ReadNrgOne(t, front.1, main, delta, subfr, k - 1);
      assert r.0 == front.0 + [one.0];
      NrgScriptPrefix(t, main, delta, subfr, front.0, r.0, k - 1);
      HoldsThen(d, NrgScript(t, main, delta, subfr, r.0, k - 1), NrgOne(t, main, delta, subfr, k - 1, one.0));
    }
  }

  lemma {:induction false} NrgBack(t: GainTabs, d: DecState, main: i32, delta: i32, subfr: seq<nat>, syms: seq<int>,
                                   k: nat)
    requires GainOk(t) && DecInv(d) && |subfr| == 4 && k <= 4 && k <= |syms|
    requires Holds(d, NrgScript(t, main, delta, subfr, syms, k))
    ensures ReadNrg(t, d, main, delta, subfr, k) ==
      (Reported(subfr, syms[..k]), Past(d, NrgScript(t, main, delta, subfr, syms, k)))
  {
    hide GainOk, NrgOne, ReadNrgOne, Holds, Past;
    if k == 0 {
      HoldsNothing(d);
    } else {
      var front := NrgScript(t, main, delta, subfr, syms, k - 1);
      HoldsThen(d, front, NrgOne(t, main, delta, subfr, k - 1, syms[k - 1]));
      NrgBack(t, d, main, delta, subfr, syms, k - 1);
      NrgOneBack(t, Past(d, front), main, delta, subfr, k - 1, syms[k - 1]);
      assert Reported(subfr, syms[..k]) ==
        Reported(subfr, syms[..k - 1]) + [if subfr[k - 1] == 0 then 0 else syms[k - 1]];
    }
  }

  /** Whatever the input, the gains read are the ones whose script was there, with empty subframes at zero. */
  lemma ReadGainsSound(t: GainTabs, d: DecState, subfr: seq<nat>)
    requires GainOk(t) && DecInv(d) && |subfr| == 4
    ensures var r := ReadGains(t, d, subfr);
      Holds(d, GainScript(t, subfr, r.0)) && r.1 == Past(d, GainScript(t, subfr, r.0))
        && Reported(subfr, r.0.nrgRes) == r.0.nrgRes
  {
    hide ReadCdf, CdfOp, Reads, AfterOp, Increasing, GainOk, ReadNrg, NrgScript, GainHead, Reported, MainRow, ShapeRow,
      Holds, Past;
    var m := ReadCdf(d, MainRow(t));
    var s := ReadCdf(m.1, ShapeRow(t));
    GainHeadSound(t, d);
    NrgSound(t, s.1, m.0, s.0, subfr, 4);
    var n := ReadNrg(t, s.1, m.0, s.0, subfr, 4);
    HoldsThen(d, GainHead(t, m.0, s.0), NrgScript(t, m.0, s.0, subfr, n.0, 4));
    assert ReadGains(t, d, subfr) == (GainParams(m.0, s.0, n.0), n.1);
  }

  lemma GainHeadSound(t: GainTabs, d: DecState)
    requires GainOk(t) && DecInv(d)
    ensures var m := ReadCdf(d, MainRow(t)); var s := ReadCdf(m.1, ShapeRow(t));
      && 0 <= m.0 < 128 && 0 <= s.0 < 128
      && Holds(d, GainHead(t, m.0, s.0)) && s.1 == Past(d, GainHead(t, m.0, s.0))
  {
    hide ReadCdf, CdfOp, Reads, AfterOp, Increasing, GainOk, MainRow, ShapeRow, Holds, Past;
    var m := ReadCdf(d, MainRow(t));
    var s := ReadCdf(m.1, ShapeRow(t));
    var op0, op1 := CdfOp(m.0, MainRow(t)), CdfOp(s.0, ShapeRow(t));
    HoldsOne(d, op0);
    HoldsOne(m.1, op1);
    HoldsThen(d, One(op0), One(op1));
  }

  /** A decoder facing encoded gains reads them; only the residuals of empty subframes are lost. */
  lemma ReadGainsBack(t: GainTabs, d: DecState, subfr: seq<nat>, gp: GainParams)
    requires GainOk(t) && DecInv(d) && |subfr| == |gp.nrgRes| == 4 && Holds(d, GainScript(t, subfr, gp))
    ensures ReadGains(t, d, subfr) == (gp.(nrgRes := Reported(subfr, gp.nrgRes)), Past(d, GainScript(t, subfr, gp)))
  {
    hide ReadCdf, CdfOp, Reads, AfterOp, Increasing, GainOk, ReadNrg, NrgScript, Reported, MainRow, ShapeRow, Holds,
      Past;
    var op0, op1 := CdfOp(gp.main, MainRow(t)), CdfOp(gp.delta, ShapeRow(t));
    var nrg := NrgScript(t, gp.main, gp.delta, subfr, gp.nrgRes, 4);
    HoldsThen(d, GainHead(t, gp.main, gp.delta), nrg);
    HoldsThen(d, One(op0), One(op1));
    HoldsOne(d, op0);
    ReadCdfBack(d, gp.main, MainRow(t));
    var d1 := Past(d, One(op0));
    HoldsOne(d1, op1);
    ReadCdfBack(d1, gp.delta, ShapeRow(t));
    NrgBack(t, Past(d1, One(op1)), gp.main, gp.delta, subfr, gp.nrgRes, 4);
    assert gp.nrgRes[..4] == gp.nrgRes;
  }

  // ----- the methods -----

  /** Per-subframe log gains from the two gain symbols. */
  method Reconstruct(t: GainTabs, main: i32, delta: i32) returns (gainQ: seq<i32>)
    ensures |gainQ| == 4 && forall sf :: 0 <= sf < 4 ==> gainQ[sf] == GainQ(t, main, delta, sf)
  {
    var off6: int := I32(4 * delta);
    var base7: int := MainGain(t, main);
    hide MainGain, GainRecon, I32;
    gainQ := [];
    for sf := 0 to 4
      invariant |gainQ| == sf && forall j :: 0 <= j < sf ==> gainQ[j] == GainQ(t, main, delta, j)
    {
      var cbv: int := GainRecon(t, I32(sf + off6));
      gainQ := gainQ + [I32(base7 + cbv * 16)];
    }
  }

  method EncodeSmplGains(enc: RangeEncoder, t: GainTabs, subfr: seq<nat>, gp: GainParams)
    requires enc.Valid() && GainOk(t) && |subfr| == |gp.nrgRes| == 4
    modifies enc, enc.buf
    ensures enc.Valid() && enc.sent == Sent(old(enc.sent), GainScript(t, subfr, gp))
  {
    hide RangeEncoder.Valid, CdfOp, Increasing, Degenerate, Sent, Flatten, GainQ, OffsetTable, GainOk, MainRow,
      ShapeRow;
    ghost var before := enc.sent;
    enc.EncodeCDF(gp.main, MainRow(t));
    SentOne(before, CdfOp(gp.main, MainRow(t)));
    SentOne(enc.sent, CdfOp(gp.delta, ShapeRow(t)));
    SentThen(before, One(CdfOp(gp.main, MainRow(t))), One(CdfOp(gp.delta, ShapeRow(t))));
    enc.EncodeCDF(gp.delta, ShapeRow(t));
    ghost var head := enc.sent;
    var gainQ := Reconstruct(t, gp.main, gp.delta);
    SentNothing(head);
    for sf := 0 to 4
      invariant enc.Valid() && enc.sent == Sent(head, NrgScript(t, gp.main, gp.delta, subfr, gp.nrgRes, sf))
    {
      var cnt := subfr[sf];
      SentThen(head, NrgScript(t, gp.main, gp.delta, subfr, gp.nrgRes, sf),
        NrgOne(t, gp.main, gp.delta, subfr, sf, gp.nrgRes[sf]));
      SentNothing(enc.sent);
      SentOne(enc.sent, CdfOp(gp.nrgRes[sf], OffsetTable(t, gainQ[sf], cnt)));
      if cnt > 0 {
        enc.EncodeCDF(gp.nrgRes[sf], OffsetTable(t, gainQ[sf], cnt));
      }
    }
    SentThen(before, GainHead(t, gp.main, gp.delta), NrgScript(t, gp.main, gp.delta, subfr, gp.nrgRes, 4));
  }

  method DecodeSmplGains(dec: RangeDecoder, t: GainTabs, subfr: seq<nat>) returns (gp: GainParams, gainQ: seq<i32>)
    requires dec.Valid() && GainOk(t) && |subfr| == 4
    modifies dec
    ensures dec.Valid() && (gp, dec.State()) == ReadGains(t, old(dec.State()), subfr)
    ensures |gainQ| == 4 && forall sf :: 0 <= sf < 4 ==> gainQ[sf] == GainQ(t, gp.main, gp.delta, sf)
  {
    hide RangeDecoder.Valid, ReadCdf, Increasing, Degenerate, GainQ, OffsetTable, GainOk, MainRow, ShapeRow;
    var main := dec.DecodeCDF(MainRow(t));
    var delta := dec.DecodeCDF(ShapeRow(t));
    gainQ := Reconstruct(t, main, delta);
    var nrgRes := [];
    ghost var d := dec.State();
    for sf := 0 to 4
      invariant dec.Valid() && (nrgRes, dec.State()) == ReadNrg(t, d, main, delta, subfr, sf)
    {
      var cnt := subfr[sf];
      var sym := 0;
      if cnt > 0 {
        sym := dec.DecodeCDF(OffsetTable(t, gainQ[sf], cnt));
      }
      nrgRes := nrgRes + [sym];
    }
    gp := GainParams(main, delta, nrgRes);
  }
}
