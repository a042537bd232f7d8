/**
 One analysis frame of the voice activity detector: three filter banks over one buffer, high-pass, energies, noise
 levels.
 */
module VadFrame {
  import opened GainBlock
  import opened CdfTables
  import opened Vad

  const HP_A := 53084
  const HP_B := 59310

  // ----- the high-pass filter -----

  /** The filter state and output after one sample. */
  function HpStep(hp: i32, x: i16): (r: (i32, i16)) {
    var inval := Smulwb(HP_B, x);
    var outval := Sat16(I32(hp as int - inval as int));
    (Smlawb(inval, HP_A, outval), outval)
  }

  predicate HpBounded(hp: i32) { -0x1_0000 <= hp <= 0x1_0000 }

  /** No step wraps, for every sample, and the state bound is kept. */
  lemma HpStepBounded(hp: i32, x: i16)
    requires HpBounded(hp)
    ensures HpBounded(HpStep(hp, x).0)
    ensures var inval := HP_B * x as int / 0x1_0000; var out := HpStep(hp, x).1;
      out == Sat16(hp as int - inval) && HpStep(hp, x).0 as int == inval + HP_A * out as int / 0x1_0000
  {
    FloorBounds(HP_B, x as int);
    FloorBounds(HP_A, HpStep(hp, x).1 as int);
  }

  function HpRun(x: seq<i16>, hp: i32, k: nat): (r: (i32, seq<i16>))
    requires k <= |x|
    ensures |r.1| == k
  {
    if k == 0 then (hp, [])
    else
      var r := HpRun(x, hp, k - 1);
      var q := HpStep(r.0, x[k - 1]);
      (q.0, r.1 + [q.1])
  }

  lemma {:induction false} HpRunBounded(x: seq<i16>, hp: i32, k: nat)
    requires k <= |x| && HpBounded(hp)
    ensures HpBounded(HpRun(x, hp, k).0)
  {
    if k > 0 {
      HpRunBounded(x, hp, k - 1);
      HpStepBounded(HpRun(x, hp, k - 1).0, x[k - 1]);
    }
  }

  /** filtHP, in place over the first n samples. */
  method FiltHp(hp: i32, x: array<i16>, n: nat) returns (hp1: i32)
    requires n <= x.Length
    modifies x
    ensures (hp1, x[..n]) == HpRun(old(x[..n]), hp, n)
    ensures forall i :: n <= i < x.Length ==> x[i] == old(x[i])
  {
    ghost var x0 := x[..];
    hp1 := hp;
    hide HpRun;
    assert Filtered(x[..], x0, n, hp, hp1, 0) by { HpRunStart(x0[..n], hp); }
    for i := 0 to n
      invariant |x0| == x.Length && Filtered(x[..], x0, n, hp, hp1, i)
    {
      hp1 := HpOne(x, x0, n, hp, hp1, i);
    }
  }

  /** The first k of n samples replaced by the filter's outputs, the rest of the buffer as it was. */
  ghost predicate Filtered(x: seq<i16>, x0: seq<i16>, n: nat, hp: i32, hp1: i32, k: nat) {
    && k <= n <= |x| == |x0|
    && (hp1, x[..k]) == HpRun(x0[..n], hp, k)
    && x[k..] == x0[k..]
  }

  lemma HpRunStart(x: seq<i16>, hp: i32)
    ensures HpRun(x, hp, 0) == (hp, [])
  {}

  method HpOne(x: array<i16>, ghost x0: seq<i16>, ghost n: nat, ghost hp: i32, hp1: i32, i: nat) returns (hp2: i32)
    requires i < n && Filtered(x[..], x0, n, hp, hp1, i)
    modifies x
    ensures Filtered(x[..], x0, n, hp, hp2, i + 1)
  {
    hide HpRun, HpStep;
    HpRunStep(x0[..n], hp, i);
    assert x[i] == x[i..][0] == x0[i..][0] == x0[i];
    ghost var front := x[..i];
    var q := HpStep(hp1, x[i]);
    hp2, x[i] := q.0, q.1;
    assert x[..i + 1] == front + [q.1];
  }

  lemma HpRunStep(x: seq<i16>, hp: i32, k: nat)
    requires k < |x|
    ensures var r := HpRun(x, hp, k); var q := HpStep(r.0, x[k]); HpRun(x, hp, k + 1) == (q.0, r.1 + [q.1])
  {
    hide HpStep;
  }

  // ----- the four bands -----

  /** Filter states: three banks and the high-pass. */
  datatype Taps = Taps(a0: i32, a1: i32, b0: i32, b1: i32, c0: i32, c1: i32, hp: i32)

  predicate TapsBounded(t: Taps) {
    && Bounded(t.a0) && Bounded(t.a1) && Bounded(t.b0) && Bounded(t.b1) && Bounded(t.c0) && Bounded(t.c1)
      && HpBounded(t.hp)
  }

  /** The frame split in two, its low half split again, and again: lowest band first, after the high-pass. */
  function Bands(inp: seq<i16>, t: Taps): (r: (Taps, seq<seq<i16>>))
    requires |inp| % 8 == 0
    ensures var d := |inp| / 8; |r.1| == BANDS && |r.1[0]| == |r.1[1]| == d && |r.1[2]| == 2 * d && |r.1[3]| == 4 * d
  {
    var d := |inp| / 8;
    var f := Split(inp, t.a0, t.a1, 4 * d);
    var g := Split(f.low, t.b0, t.b1, 2 * d);
    var h := Split(g.low, t.c0, t.c1, d);
    var l := HpRun(h.low, t.hp, d);
    (Taps(f.s0, f.s1, g.s0, g.s1, h.s0, h.s1, l.0), [l.1, h.high, g.high, f.high])
  }

  /** Every filter state stays bounded over any run of 16-bit frames. */
  lemma BandsBounded(inp: seq<i16>, t: Taps)
    requires |inp| % 8 == 0 && TapsBounded(t)
    ensures TapsBounded(Bands(inp, t).0)
  {
    var d := |inp| / 8;
    var f := Split(inp, t.a0, t.a1, 4 * d);
    var g := Split(f.low, t.b0, t.b1, 2 * d);
    var h := Split(g.low, t.c0, t.c1, d);
    hide Bounded, HpBounded;
    SplitBounded(inp, t.a0, t.a1, 4 * d);
    SplitBounded(f.low, t.b0, t.b1, 2 * d);
    SplitBounded(g.low, t.c0, t.c1, d);
    HpRunBounded(h.low, t.hp, d);
  }

  /** Samples per subframe of band b. */
  function SubframeLen(n: nat, b: nat): nat
    requires b < BANDS
  {
    (if b == 3 then n / 2 else if b == 2 then n / 4 else n / 8) / 4
  }

  lemma SubframesFit(n: nat)
    requires n % 8 == 0
    ensures forall b :: 0 <= b < BANDS ==> SubframeLen(n, b) <= n / 8
    ensures 4 * SubframeLen(n, 0) <= n / 8 && 4 * SubframeLen(n, 1) <= n / 8
    ensures 4 * SubframeLen(n, 2) <= 2 * (n / 8) && 4 * SubframeLen(n, 3) <= 4 * (n / 8)
  {}

  // ----- the banks over one buffer, slice by slice -----

  /** The first bank's result b, as the buffer holds it. */
  ghost predicate First(b: Bank, inp: seq<i16>, s0: i32, s1: i32, x: seq<i16>, hiOff: nat, half: nat) {
    && |inp| == 2 * half && half <= hiOff && hiOff + half == |x|
    && b == Split(inp, s0, s1, half) && x[..half] == b.low && x[hiOff..] == b.high
  }

  /** A later bank's result, which leaves everything past its own high band alone. */
  ghost predicate Later(b: Bank, s0: i32, s1: i32, before: seq<i16>, after: seq<i16>, hiOff: nat, half: nat) {
    && 2 * half <= hiOff && hiOff + half <= |before| == |after|
    && b == Split(before[..2 * half], s0, s1, half) && after[..half] == b.low && after[hiOff..hiOff + half] == b.high
    && after[hiOff + half..] == before[hiOff + half..]
  }

  ghost predicate Passed(hp: i32, hp1: i32, before: seq<i16>, after: seq<i16>, n: nat) {
    n <= |before| == |after| && (hp1, after[..n]) == HpRun(before[..n], hp, n) && after[n..] == before[n..]
  }

  method FirstBank(inp: seq<i16>, st: array<i32>, x: array<i16>, hiOff: nat, half: nat) returns (ghost b: Bank)
    requires |inp| == 2 * half && st.Length == 2 && half <= hiOff && hiOff + half == x.Length
    modifies st, x
    ensures st[..] == [b.s0, b.s1] && First(b, inp, old(st[0]), old(st[1]), x[..], hiOff, half)
  {
    hide Split;
    AnaFiltBank1(inp, st, x, hiOff);
    b := Split(inp, old(st[0]), old(st[1]), half);
    WholeTail(x[..], hiOff);
  }

  lemma WholeTail(x: seq<i16>, k: nat)
    requires k <= |x|
    ensures x[k..|x|] == x[k..]
  {}

  method NextBank(x: array<i16>, hiOff: nat, st: array<i32>, half: nat) returns (ghost b: Bank)
    requires 2 * half <= hiOff && hiOff + half <= x.Length && st.Length == 2
    modifies st, x
    ensures st[..] == [b.s0, b.s1] && Later(b, old(st[0]), old(st[1]), old(x[..]), x[..], hiOff, half)
  {
    hide Split;
    ghost var before := x[..];
    assert before[..2 * half] == x[..2 * half];
    AnaFiltBank1Inplace(x, hiOff, st, 2 * half);
    b := Split(before[..2 * half], old(st[0]), old(st[1]), half);
  }

  method HighPass(hp: i32, x: array<i16>, n: nat) returns (hp1: i32)
    requires n <= x.Length
    modifies x
    ensures Passed(hp, hp1, old(x[..]), x[..], n)
  {
    hide HpRun;
    ghost var before := x[..];
    assert before[..n] == x[..n];
    hp1 := FiltHp(hp, x, n);
  }

  lemma SliceKept(a: seq<i16>, b: seq<i16>, from: nat, lo: nat, hi: nat)
    requires from <= lo <= hi <= |a| == |b| && a[from..] == b[from..]
    ensures a[lo..hi] == b[lo..hi]
  {
    forall i | lo <= i < hi
      ensures a[i] == b[i]
    {
      assert a[from..][i - from] == b[from..][i - from];
    }
  }

  /** Each stage keeps what the stages before it left behind its own bands; d is an eighth of the frame. */
  lemma Layout(x1: seq<i16>, x2: seq<i16>, x3: seq<i16>, x4: seq<i16>, d: nat)
    requires |x1| == |x2| == |x3| == |x4| == 10 * d
    requires x2[6 * d..] == x1[6 * d..] && x3[4 * d..] == x2[4 * d..] && x4[d..] == x3[d..]
    ensures x4[3 * d..4 * d] == x3[3 * d..4 * d] && x4[4 * d..6 * d] == x2[4 * d..6 * d] && x4[6 * d..] == x1[6 * d..]
  {
    SliceKept(x4, x3, d, 3 * d, 4 * d);
    SliceKept(x4, x3, d, 4 * d, 6 * d);
    SliceKept(x3, x2, 4 * d, 4 * d, 6 * d);
    SliceKept(x4, x3, d, 6 * d, |x1|);
    SliceKept(x3, x2, 4 * d, 6 * d, |x1|);
    WholeTail(x4, 6 * d);
    WholeTail(x3, 6 * d);
    WholeTail(x2, 6 * d);
  }

  /** The frame's states and bands, as the buffer holds them. */
  ghost predicate Held(inp: seq<i16>, t: Taps, t1: Taps, x: seq<i16>, d: nat) {
    |inp| == 8 * d && |x| == 10 * d && (t1, [x[..d], x[3 * d..4 * d], x[4 * d..6 * d], x[6 * d..]]) == Bands(inp, t)
  }

  lemma StagesAreBands(inp: seq<i16>, t: Taps, f: Bank, g: Bank, h: Bank, hp: i32, x1: seq<i16>, x2: seq<i16>,
                       x3: seq<i16>, x4: seq<i16>, d: nat)
    requires |inp| == 8 * d && First(f, inp, t.a0, t.a1, x1, 6 * d, 4 * d) && Later(g, t.b0, t.b1, x1, x2, 4 * d, 2 * d)
    requires Later(h, t.c0, t.c1, x2, x3, 3 * d, d) && Passed(t.hp, hp, x3, x4, d)
    ensures Held(inp, t, Taps(f.s0, f.s1, g.s0, g.s1, h.s0, h.s1, hp), x4, d)
  {
    hide Split, HpRun;
    Layout(x1, x2, x3, x4, d);
    assert |inp| / 8 == d;
  }

  /** The three banks and the high-pass over one buffer; d is an eighth of the frame. */
  method RunBanks(inp: seq<i16>, x: array<i16>, ana0: array<i32>, ana1: array<i32>, ana2: array<i32>, hp: i32, d: nat)
    returns (hp1: i32, ghost t1: Taps)
    requires ana0.Length == ana1.Length == ana2.Length == 2 && ana0 != ana1 && ana0 != ana2 && ana1 != ana2
    requires |inp| == 8 * d && x.Length == 10 * d
    modifies x, ana0, ana1, ana2
    ensures Held(inp, Taps(old(ana0[0]), old(ana0[1]), old(ana1[0]), old(ana1[1]), old(ana2[0]), old(ana2[1]), hp),
      t1, x[..], d)
    ensures ana0[..] == [t1.a0, t1.a1] && ana1[..] == [t1.b0, t1.b1] && ana2[..] == [t1.c0, t1.c1] && t1.hp == hp1
  {
    hide First, Later, Passed, Held;
    ghost var t := Taps(ana0[0], ana0[1], ana1[0], ana1[1], ana2[0], ana2[1], hp);
    ghost var f := FirstBank(inp, ana0, x, 6 * d, 4 * d);
    ghost var x1 := x[..];
    ghost var g := NextBank(x, 4 * d, ana1, 2 * d);
    ghost var x2 := x[..];
    ghost var h := NextBank(x, 3 * d, ana2, d);
    ghost var x3 := x[..];
    hp1 := HighPass(hp, x, d);
    t1 := Taps(f.s0, f.s1, g.s0, g.s1, h.s0, h.s1, hp1);
    StagesAreBands(inp, t, f, g, h, hp1, x1, x2, x3, x[..], d);
  }

  method Cut(x: array<i16>, ghost inp: seq<i16>, ghost t: Taps, ghost t1: Taps, off1: nat, off2: nat, off3: nat, d: nat)
    returns (bands: seq<seq<i16>>)
    requires Held(inp, t, t1, x[..], d) && off1 == 3 * d && off2 == 4 * d && off3 == 6 * d
    ensures |inp| % 8 == 0 && (t1, bands) == Bands(inp, t)
  {
    hide Bands;
    bands := [x[..d], x[off1..off2], x[off2..off3], x[off3..]];
    assert x[..][off3..] == x[off3..];
  }

  /** Each band's energy: the saturating sum over its subframes, on what the frame before carried over. */
  ghost predicate Energies(xnrg: seq<i32>, carried: seq<i32>, bands: seq<seq<i16>>, n: nat) {
    && |xnrg| == |carried| == |bands| == BANDS
    && forall b :: 0 <= b < BANDS ==>
      && 4 * SubframeLen(n, b) <= |bands[b]|
      && xnrg[b] >= 0 && xnrg[b] as int == BandSum(carried[b], bands[b], SubframeLen(n, b), 4)
  }

  class Detector {
    const ana0: array<i32>
    const ana1: array<i32>
    const ana2: array<i32>
    var hpState: i32
    const noise: VadState

    ghost predicate Valid()
      reads this, ana0, ana1, ana2, noise, noise.nl, noise.invNl, noise.bias, noise.xnrgSubfr
    {
      && ana0.Length == ana1.Length == ana2.Length == 2 && ana0 != ana1 && ana0 != ana2 && ana1 != ana2
      && {ana0, ana1, ana2} !! {noise.nl, noise.invNl, noise.bias, noise.xnrgSubfr}
      && TapsBounded(State()) && noise.Valid()
    }

    ghost function State(): Taps
      requires ana0.Length == ana1.Length == ana2.Length == 2
      reads this, ana0, ana1, ana2
    {
      Taps(ana0[0], ana0[1], ana1[0], ana1[1], ana2[0], ana2[1], hpState)
    }

    constructor ()
      ensures Valid() && fresh(ana0) && fresh(ana1) && fresh(ana2) && fresh(noise)
      ensures fresh(noise.nl) && fresh(noise.invNl) && fresh(noise.bias) && fresh(noise.xnrgSubfr)
    {
      noise := new VadState();
      ana0, ana1, ana2 := new i32[2](_ => 0), new i32[2](_ => 0), new i32[2](_ => 0);
      hpState := 0;
    }

    /** The bands of one frame, all in one buffer: no bank overwrites what a later one, or the energies, still read. */
    method SplitFrame(inp: seq<i16>) returns (bands: seq<seq<i16>>)
      requires ana0.Length == ana1.Length == ana2.Length == 2 && ana0 != ana1 && ana0 != ana2 && ana1 != ana2
        && |inp| % 8 == 0
      modifies this, ana0, ana1, ana2
      ensures (State(), bands) == Bands(inp, old(State()))
    {
      var decFl1, decFl2, decFl3 := |inp| / 2, |inp| / 4, |inp| / 8;
      var off1 := decFl3 + decFl2;
      var off2 := off1 + decFl3;
      var off3 := off2 + decFl2;
      assert off1 == 3 * decFl3 && off2 == 4 * decFl3 && off3 == 6 * decFl3 && |inp| == 8 * decFl3;
      var x := new i16[off3 + decFl1];
      hide Bands, Held;
      ghost var t, t1 := State(), State();
      hpState, t1 := RunBanks(inp, x, ana0, ana1, ana2, hpState, decFl3);
      assert State() == t1 by {
        assert ana0[..] == [ana0[0], ana0[1]] && ana1[..] == [ana1[0], ana1[1]] && ana2[..] == [ana2[0], ana2[1]];
      }
      bands := Cut(x, inp, t, t1, off1, off2, off3, decFl3);
    }

    /**
     * getSAQ8 up to the noise levels, on any 16-bit frame: band energies exact up to saturation, and the invariant that
     * bounds
     * every filter state and keeps every divisor positive holds again.
     */
    method Analyse(inp: seq<i16>) returns (xnrg: seq<i32>)
      requires Valid() && |inp| % 8 == 0 && |inp| < 1024
      modifies this, ana0, ana1, ana2, noise, noise.nl, noise.invNl, noise.xnrgSubfr
      ensures Valid() && State() == Bands(inp, old(State())).0
      ensures Energies(xnrg, old(noise.xnrgSubfr[..]), Bands(inp, old(State())).1, |inp|)
      ensures |xnrg| == BANDS && forall b :: 0 <= b < BANDS ==>
        (noise.nl[b] as int, noise.invNl[b] as int)
        == NextLevel(old(noise.nl[b]), old(noise.invNl[b]), noise.bias[b], xnrg[b], MinCoef(old(noise.counter)))
    {
      hide NextLevel, BandSum, MinCoef, TapsBounded, Bands, SubframeLen;
      BandsBounded(inp, State());
      var bands := SplitFrame(inp);
      var n := |inp|;
      SubframesFit(n);
      ghost var carried := noise.xnrgSubfr[..];
      xnrg := noise.Measure(bands, [SubframeLen(n, 0), SubframeLen(n, 1), SubframeLen(n, 2), SubframeLen(n, 3)]);
    }
  }
}
