/** Symbols read and written against cumulative tables, raw bits, and the fine lag. */
module Symbols {
  import opened Bytes
  import opened RangeSpec
  import opened RangeProof

  type Cdf = seq<u16>

  predicate Increasing(cdf: Cdf) {
    |cdf| >= 2 && forall i, j :: 0 <= i < j < |cdf| ==> cdf[i] < cdf[j]
  }

  /** Tables that DecodeCDF and EncodeCDF refuse. */
  predicate Degenerate(cdf: Cdf) { |cdf| < 2 || cdf[|cdf| - 1] <= cdf[0] }

  predicate Usable(cdf: Cdf) { Degenerate(cdf) || Increasing(cdf) }

  /** The operation EncodeCDF performs for symbol s. */
  function CdfOp(s: int, cdf: Cdf): (op: Op)
    requires Usable(cdf)
    ensures ValidOp(op)
    ensures op.Reject? <==> Degenerate(cdf) || !(0 <= s < |cdf| - 1)
  {
    if Degenerate(cdf) || s < 0 || s + 1 >= |cdf| then Reject
    else Range(cdf[s] - cdf[0], cdf[s + 1] - cdf[0], cdf[|cdf| - 1] - cdf[0])
  }

  /** The first symbol whose upper bound exceeds target. */
  function Locate(cdf: Cdf, target: int, k: nat): (r: nat)
    requires k < |cdf| - 1 && target < cdf[|cdf| - 1]
    ensures k <= r < |cdf| - 1 && cdf[r + 1] > target
    ensures r == k || cdf[r] <= target
    decreases |cdf| - k
  {
    if cdf[k + 1] > target then k else Locate(cdf, target, k + 1)
  }

  lemma LocateIs(cdf: Cdf, target: int, s: nat)
    requires Increasing(cdf) && s < |cdf| - 1 && cdf[s] <= target < cdf[s + 1]
    ensures target < cdf[|cdf| - 1] && Locate(cdf, target, 0) == s
  {
  }

  lemma TargetBelow(d: DecState, ft: nat)
    requires DecInv(d) && 0 < ft <= CODE_BOT
    ensures Target(d, ft) < ft && d.rng / ft > 0
  {
    Quotient(d.rng, ft);
  }

  /** DecodeCDF: whatever the input, an increasing table yields a symbol whose operation was just read. */
  function ReadCdf(d: DecState, cdf: Cdf): (r: (int, DecState))
    requires DecInv(d) && Usable(cdf)
    ensures Degenerate(cdf) ==> r == (0, d.(err := 1))
    ensures Increasing(cdf) ==> 0 <= r.0 < |cdf| - 1
    ensures Increasing(cdf) ==> Reads(d, CdfOp(r.0, cdf)) && r.1 == AfterOp(d, CdfOp(r.0, cdf))
    ensures DecInv(r.1)
  {
    if Degenerate(cdf) then (0, d.(err := 1))
    else
      var base := cdf[0];
      var ft := cdf[|cdf| - 1] - base;
      TargetBelow(d, ft);
      var k := Locate(cdf, base + Target(d, ft), 0);
      (k, AfterOp(d, CdfOp(k, cdf)))
  }

  /** A decoder facing symbol s of a table reads s. */
  lemma ReadCdfBack(d: DecState, s: int, cdf: Cdf)
    requires DecInv(d) && Usable(cdf) && Reads(d, CdfOp(s, cdf))
    ensures ReadCdf(d, cdf) == (s, AfterOp(d, CdfOp(s, cdf)))
  {
    var ft := cdf[|cdf| - 1] - cdf[0];
    LocateIs(cdf, cdf[0] + Target(d, ft), s);
  }

  /** A uniform n-bit symbol. */
  function RawOp(sym: nat, nbits: nat): (op: Op)
    requires 1 <= nbits <= 23 && sym < Pow2(nbits)
    ensures ValidOp(op)
  {
    Pow2Bound(nbits);
    Range(sym, sym + 1, Pow2(nbits))
  }

  function ReadRaw(d: DecState, nbits: nat): (r: (nat, DecState))
    requires DecInv(d) && 1 <= nbits <= 23
    ensures r.0 < Pow2(nbits) && Reads(d, RawOp(r.0, nbits)) && r.1 == AfterOp(d, RawOp(r.0, nbits))
  {
    Pow2Bound(nbits);
    var ft := Pow2(nbits);
    TargetBelow(d, ft);
    var sym := Target(d, ft);
    (sym, AfterOp(d, RawOp(sym, nbits)))
  }

  lemma ReadRawBack(d: DecState, sym: nat, nbits: nat)
    requires DecInv(d) && 1 <= nbits <= 23 && sym < Pow2(nbits) && Reads(d, RawOp(sym, nbits))
    ensures ReadRaw(d, nbits) == (sym, AfterOp(d, RawOp(sym, nbits)))
  {}

  /** The 64-way fine lag symbol. */
  function FineOp(sym: int): (op: Op)
    requires 0 <= sym < 64
    ensures ValidOp(op)
  {
    Range(sym, sym + 1, 64)
  }

  function ReadFine(d: DecState): (r: (int, DecState))
    requires DecInv(d)
    ensures 0 <= r.0 < 64 && Reads(d, FineOp(r.0)) && r.1 == AfterOp(d, FineOp(r.0))
  {
    TargetBelow(d, 64);
    var sym := Target(d, 64);
    (sym, AfterOp(d, FineOp(sym)))
  }

  // ----- scripts: what a block writes, as a tree of operations -----

  datatype Script = Nothing | One(op: Op) | Then(first: Script, second: Script)

  function Flatten(s: Script): seq<Op> {
    match s
    case Nothing => []
    case One(op) => [op]
    case Then(a, b) => Flatten(a) + Flatten(b)
  }

  /** The decoder's input holds exactly what s writes, next in line. */
  predicate Holds(d: DecState, s: Script)
    requires DecInv(d)
    decreases s, 0
  {
    match s
    case Nothing => true
    case One(op) => Reads(d, op)
    case Then(a, b) => Holds(d, a) && Holds(Past(d, a), b)
  }

  /** The decoder after reading all of s. */
  function Past(d: DecState, s: Script): (f: DecState)
    requires DecInv(d) && Holds(d, s)
    ensures DecInv(f) && f.buf == d.buf && f.err == d.err
    decreases s, 1
  {
    match s
    case Nothing => d
    case One(op) => AfterOp(d, op)
    case Then(a, b) => Past(Past(d, a), b)
  }

  lemma {:induction false} HoldsIsReady(d: DecState, s: Script)
    requires DecInv(d)
    ensures Holds(d, s) <==> Ready(d, Flatten(s))
    ensures Holds(d, s) ==> Past(d, s) == After(d, Flatten(s))
    decreases s
  {
    match s
    case Nothing =>
    case One(op) =>
      assert [op][1..] == [];
    case Then(a, b) =>
      HoldsIsReady(d, a);
      ReadySplit(d, Flatten(a), Flatten(b));
      if Holds(d, a) { HoldsIsReady(Past(d, a), b); }
  }

  /** Every operation of s is well formed. */
  predicate Sound(s: Script) {
    match s
    case Nothing => true
    case One(op) => ValidOp(op)
    case Then(a, b) => Sound(a) && Sound(b)
  }

  lemma {:induction false} SoundFlatten(s: Script)
    requires Sound(s)
    ensures ValidOps(Flatten(s))
  {
    match s
    case Nothing =>
    case One(_) =>
    case Then(a, b) => SoundFlatten(a); SoundFlatten(b);
  }

  lemma HoldsNothing(d: DecState)
    requires DecInv(d)
    ensures Holds(d, Nothing) && Past(d, Nothing) == d
  {}

  lemma HoldsThen(d: DecState, a: Script, b: Script)
    requires DecInv(d)
    ensures Holds(d, Then(a, b)) <==> Holds(d, a) && Holds(Past(d, a), b)
    ensures Holds(d, Then(a, b)) ==> Past(d, Then(a, b)) == Past(Past(d, a), b)
  {}

  lemma HoldsOne(d: DecState, op: Op)
    requires DecInv(d)
    ensures Holds(d, One(op)) <==> Reads(d, op)
    ensures Holds(d, One(op)) ==> Past(d, One(op)) == AfterOp(d, op)
  {}

  /** Writing s after before. */
  function Sent(before: seq<Op>, s: Script): seq<Op> { before + Flatten(s) }

  lemma SentNothing(before: seq<Op>)
    ensures Sent(before, Nothing) == before
  {}

  lemma SentThen(before: seq<Op>, a: Script, b: Script)
    ensures Sent(before, Then(a, b)) == Sent(Sent(before, a), b)
  {}

  lemma SentOne(before: seq<Op>, op: Op)
    ensures Sent(before, One(op)) == before + [op]
  {}
}
