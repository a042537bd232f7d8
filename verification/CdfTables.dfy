/**
 Building cumulative tables: the three byte-table expansions, the pdf normalisation,
 and the run-length pdfs computed in SILK fixed point.
 */
module CdfTables {
  import opened Bytes
  import opened Symbols

  const MAX_CMF := 32767

  type i32 = x: int | -0x8000_0000 <= x < 0x8000_0000
  type i64 = x: int | -0x8000_0000_0000_0000 <= x < 0x8000_0000_0000_0000

  function Sum(w: seq<nat>): nat {
    if w == [] then 0 else Sum(w[..|w| - 1]) + w[|w| - 1]
  }

  /** The truncating normalisation: every symbol gets its floored share and one unit more. */
  function Share(w: nat, sum: nat, n: nat): (r: nat)
    requires sum > 0 && n <= MAX_CMF
    ensures r > 0
  {
    w * (MAX_CMF - n) / sum + 1
  }

  function Shares(w: seq<nat>): (s: seq<nat>)
    requires |w| <= MAX_CMF && Sum(w) > 0
    ensures |s| == |w| && forall i :: 0 <= i < |s| ==> s[i] > 0
  {
    seq(|w|, i requires 0 <= i < |w| => Share(w[i], Sum(w), |w|))
  }

  /** Running totals of the first k entries, starting from 0. */
  function Totals(s: seq<nat>, k: nat): (c: seq<nat>)
    requires k <= |s|
    ensures |c| == k + 1 && c[k] == Sum(s[..k])
  {
    if k == 0 then [0] else
      assert s[..k][..k - 1] == s[..k - 1];
      var c := Totals(s, k - 1);
      c + [c[k - 1] + s[k - 1]]
  }

  lemma {:induction false} TotalsPrefix(s: seq<nat>, k: nat, n: nat)
    requires k <= n <= |s|
    ensures Totals(s, k) == Totals(s, n)[..k + 1]
  {
    if k < n { TotalsPrefix(s, k, n - 1); }
  }

  lemma {:induction false} TotalsIncrease(s: seq<nat>, k: nat)
    requires k <= |s| && forall i :: 0 <= i < |s| ==> s[i] > 0
    ensures var c := Totals(s, k); c[0] == 0 && forall i, j :: 0 <= i < j <= k ==> c[i] < c[j]
  {
    if k > 0 { TotalsIncrease(s, k - 1); }
  }

  lemma FloorTimes(a: nat, s: nat)
    requires s > 0
    ensures a / s * s <= a < a / s * s + s
  {}

  lemma ShareStep(d: int, x: nat, m: nat, s: nat, partial: nat)
    requires s > 0 && d * s <= partial * m
    ensures (d + x * m / s) * s <= (partial + x) * m
  {
    var q := x * m / s;
    FloorTimes(x * m, s);
    Distribute(d, q, s);
    Distribute(partial, x, m);
  }

  lemma Distribute(a: int, b: int, c: int)
    ensures (a + b) * c == a * c + b * c
  {}

  lemma {:induction false} SharesBound(w: seq<nat>, k: nat)
    requires k <= |w| <= MAX_CMF && Sum(w) > 0
    ensures (Sum(Shares(w)[..k]) - k) * Sum(w) <= Sum(w[..k]) * (MAX_CMF - |w|)
  {
    if k > 0 {
      SharesBound(w, k - 1);
      assert w[..k][..k - 1] == w[..k - 1] && Shares(w)[..k][..k - 1] == Shares(w)[..k - 1];
      var d := Sum(Shares(w)[..k - 1]) - (k - 1);
      ShareStep(d, w[k - 1], MAX_CMF - |w|, Sum(w), Sum(w[..k - 1]));
      assert Sum(Shares(w)[..k]) - k == d + w[k - 1] * (MAX_CMF - |w|) / Sum(w);
      assert Sum(w[..k]) == Sum(w[..k - 1]) + w[k - 1];
    }
  }

  /** The table that weights with a positive sum normalise to. */
  function Normalized(w: seq<nat>): (c: seq<nat>)
    requires 0 < |w| < MAX_CMF && Sum(w) > 0
    ensures |c| == |w| + 1
  {
    Totals(Shares(w), |w|)
  }

  /** Every weight vector with positive sum expands to a strictly increasing table from 0 to at most 32767. */
  lemma NormalizedIncreasing(w: seq<nat>)
    requires 0 < |w| < MAX_CMF && Sum(w) > 0
    ensures var c := Normalized(w);
      c[0] == 0 && c[|w|] <= MAX_CMF && forall i, j :: 0 <= i < j <= |w| ==> c[i] < c[j]
  {
    SharesSum(w);
    TotalsIncrease(Shares(w), |w|);
    assert Shares(w)[..|w|] == Shares(w);
  }

  /** One less than the step is x parts of m in s, rounded down. */
  predicate RoundedShare(step: int, x: int, m: int, s: int) { (step - 1) * s <= x * m < step * s }

  /** Every entry step is one more than its weight's rounded share; at most one unit a symbol goes unused. */
  ghost predicate Proportional(c: seq<nat>, w: seq<nat>) {
    && 0 < |w| < MAX_CMF && |c| == |w| + 1 && c[0] == 0 && MAX_CMF - |w| < c[|w|] <= MAX_CMF
    && forall i :: 0 <= i < |w| ==> RoundedShare(c[i + 1] as int - c[i] as int, w[i], MAX_CMF - |w|, Sum(w))
  }

  /** Every weight vector with positive sum expands to a table that shares its range out by the weights. */
  lemma NormalizedProportional(w: seq<nat>)
    requires 0 < |w| < MAX_CMF && Sum(w) > 0
    ensures Proportional(Normalized(w), w)
  {
    hide Share, Shares, Sum, RoundedShare, Totals;
    var c, sh := Normalized(w), Shares(w);
    NormalizedIncreasing(w);
    AllOf(w, sh);
    SharesAbove(w, |w|);
    CancelLess(MAX_CMF - |w|, Sum(sh), Sum(w));
    forall i | 0 <= i < |w| ensures RoundedShare(c[i + 1] as int - c[i] as int, w[i], MAX_CMF - |w|, Sum(w)) {
      StepIsShare(sh, i, |w|);
      ShareRounds(w, i);
    }
  }

  lemma {:induction false} StepIsShare(sh: seq<nat>, i: nat, n: nat)
    requires i < n <= |sh|
    ensures Totals(sh, n)[i + 1] == Totals(sh, n)[i] + sh[i]
  {
    TotalsPrefix(sh, i + 1, n);
    var c := Totals(sh, i + 1);
    assert c[i + 1] == c[i] + sh[i];
    hide Totals;
    assert c == Totals(sh, n)[..i + 2];
  }

  lemma ShareRounds(w: seq<nat>, i: nat)
    requires i < |w| <= MAX_CMF && Sum(w) > 0
    ensures RoundedShare(Shares(w)[i], w[i], MAX_CMF - |w|, Sum(w))
  {
    hide Sum;
    Floored(w[i] * (MAX_CMF - |w|), Sum(w));
  }

  lemma Floored(x: nat, s: nat)
    requires s > 0
    ensures (x / s + 1 - 1) * s <= x < (x / s + 1) * s
  {
    FloorTimes(x, s);
    Distribute(x / s, 1, s);
  }

  lemma {:induction false} SharesAbove(w: seq<nat>, k: nat)
    requires k <= |w| <= MAX_CMF && Sum(w) > 0
    ensures Sum(w[..k]) * (MAX_CMF - |w|) <= Sum(Shares(w)[..k]) * Sum(w)
    ensures k > 0 ==> Sum(w[..k]) * (MAX_CMF - |w|) < Sum(Shares(w)[..k]) * Sum(w)
  {
    if k > 0 {
      SharesAbove(w, k - 1);
      ShareRounds(w, k - 1);
      assert w[..k][..k - 1] == w[..k - 1] && Shares(w)[..k][..k - 1] == Shares(w)[..k - 1];
      var x, s, m := Sum(w[..k - 1]), Sum(Shares(w)[..k - 1]), MAX_CMF - |w|;
      assert Sum(w[..k]) == x + w[k - 1] && Sum(Shares(w)[..k]) == s + Shares(w)[k - 1];
      hide Share, Shares, Sum;
      Distribute(x, w[k - 1], m);
      Distribute(s, Shares(w)[k - 1], Sum(w));
    }
  }

  lemma CancelLess(a: int, b: int, s: nat)
    requires s > 0 && s * a < b * s
    ensures a < b
  {
    SignOfMultiple(a - b, s);
    assert (a - b) * s == s * a - b * s;
  }

  lemma SharesSum(w: seq<nat>)
    requires 0 < |w| < MAX_CMF && Sum(w) > 0
    ensures Sum(Shares(w)) <= MAX_CMF
  {
    SharesBound(w, |w|);
    AllOf(w, Shares(w));
    CancelLe(Sum(Shares(w)) - |w|, MAX_CMF - |w|, Sum(w));
  }

  lemma AllOf(w: seq<nat>, sh: seq<nat>)
    ensures w[..|w|] == w && sh[..|sh|] == sh
  {}

  lemma CancelLe(a: int, b: int, s: nat)
    requires s > 0 && a * s <= s * b
    ensures a <= b
  {
    SignOfMultiple(a - b, s);
    assert (a - b) * s == a * s - s * b;
  }

  // ----- byte tables -----

  /** The weight a table byte stands for: its square law, saturated to 16 bits. */
  function Weight(b: byte): (w: nat)
    ensures 1 <= w <= 65535
  {
    if (b + 1) * (b + 1) > 65535 then 65535 else (b + 1) * (b + 1)
  }

  function Weights(dcmf: seq<byte>): (w: seq<nat>)
    ensures |w| == |dcmf| && forall i :: 0 <= i < |w| ==> w[i] == Weight(dcmf[i])
  {
    seq(|dcmf|, i requires 0 <= i < |dcmf| => Weight(dcmf[i]))
  }

  lemma {:induction false} WeightSum(dcmf: seq<byte>, k: nat)
    requires k <= |dcmf|
    ensures k <= Sum(Weights(dcmf)[..k]) <= 65535 * k
  {
    if k > 0 {
      WeightSum(dcmf, k - 1);
      assert Weights(dcmf)[..k][..k - 1] == Weights(dcmf)[..k - 1];
    }
  }

  /** The table a byte string expands to. */
  function Expand(dcmf: seq<byte>): (c: Cdf)
    requires 0 < |dcmf| < MAX_CMF
    ensures |c| == |dcmf| + 1 && Increasing(c) && c[0] == 0 && c[|dcmf|] <= MAX_CMF
  {
    var w := Weights(dcmf);
    WeightSum(dcmf, |dcmf|);
    assert w[..|w|] == w;
    NormalizedIncreasing(w);
    var c := Normalized(w);
    assert forall i :: 0 <= i < |c| ==> 0 <= c[i] <= c[|w|];
    c
  }

  /** Entry weights are (byte + 1) squared, capped at 65535, and the table shares its range out by them. */
  ghost predicate Expanded(c: seq<nat>, dcmf: seq<byte>) {
    exists w: seq<nat> :: Proportional(c, w) && |w| == |dcmf|
      && forall i :: 0 <= i < |w| ==> w[i] == Capped((dcmf[i] as int + 1) * (dcmf[i] as int + 1))
  }

  function Capped(x: int): int { if x <= 65535 then x else 65535 }

  lemma ExpandShares(dcmf: seq<byte>)
    requires 0 < |dcmf| < MAX_CMF
    ensures Expanded(Expand(dcmf), dcmf)
  {
    hide Proportional;
    ExpandFacts(dcmf);
    NormalizedProportional(Weights(dcmf));
  }

  lemma ExpandFacts(dcmf: seq<byte>)
    requires 0 < |dcmf| < MAX_CMF
    ensures var w := Weights(dcmf);
      |w| == |dcmf| && 0 < Sum(w) <= 65535 * |dcmf| && Expand(dcmf) == Normalized(w) && w[..|dcmf|] == w
  {
    var w := Weights(dcmf);
    WeightSum(dcmf, |dcmf|);
    assert w[..|w|] == w;
  }

  lemma Product(x: nat, m: nat)
    requires x <= 65535 && m <= MAX_CMF
    ensures 0 <= x * m <= 65535 * MAX_CMF
  {
    MulMono(m, x, 65535);
    MulMono(65535, m, MAX_CMF);
  }

  lemma MulMono(k: nat, a: nat, b: nat)
    requires a <= b
    ensures 0 <= k * a <= k * b
  {}

  /** Entry i of the table stays within 15 bits, so the 16-bit sums never wrap. */
  lemma EntryFits(w: seq<nat>, sh: seq<nat>, i: nat, prev: nat)
    requires 1 <= i <= |w| < MAX_CMF && Sum(w) > 0 && sh == Shares(w) && prev == Totals(sh, i - 1)[i - 1]
    ensures prev + sh[i - 1] <= MAX_CMF
  {
    SharesSum(w);
    TotalsIncrease(sh, |w|);
    TotalsPrefix(sh, i, |w|);
    assert sh[..|w|] == sh;
    assert Totals(sh, i)[i] == prev + sh[i - 1];
    assert Totals(sh, |w|)[i] <= Totals(sh, |w|)[|w|];
  }

  /** The scaled weight in 32-bit arithmetic. */
  method Scaled32(x: u16, n: nat, sum: i32, ghost w: seq<nat>, ghost i: nat) returns (q: i32)
    requires 1 <= i <= |w| == n < MAX_CMF && x == w[i - 1] && 0 < sum == Sum(w)
    ensures q == Shares(w)[i - 1] - 1
  {
    Product(x, MAX_CMF - n);
    var product: i32 := x * (MAX_CMF - n);
    DivShrinks(product, sum);
    q := product / sum;
  }

  /** The scaled weight in 64-bit arithmetic. */
  method Scaled64(x: i64, n: nat, sum: i64, ghost w: seq<nat>, ghost i: nat) returns (q: i64)
    requires 1 <= i <= |w| == n < MAX_CMF && 0 <= x == w[i - 1] < 0x8000_0000 && 0 < sum == Sum(w)
    ensures q == Shares(w)[i - 1] - 1
  {
    PdfProduct(x, MAX_CMF - n);
    var product: i64 := x * (MAX_CMF - n);
    DivShrinks(product, sum);
    q := product / sum;
  }

  lemma DivShrinks(a: nat, s: nat)
    requires s > 0
    ensures 0 <= a / s <= a
  {
    FloorTimes(a, s);
    MulMono(a / s, 1, s);
  }

  lemma PdfProduct(x: nat, m: nat)
    requires x < 0x8000_0000 && m <= MAX_CMF
    ensures 0 <= x * m < 0x8000_0000_0000_0000
  {
    MulMono(m, x, 0x8000_0000);
    MulMono(0x8000_0000, m, MAX_CMF);
  }

  /** The first pass: squared weights, shifted up one slot, and their sum. */
  ghost predicate Weighed(w: seq<nat>, entries: seq<nat>, sum: int, i: int)
  {
    && 0 <= i <= |w| < |entries|
    && sum == Sum(w[..i]) && 0 <= sum <= 65535 * i
    && forall j :: 0 <= j < i ==> entries[j + 1] == w[j]
  }

  lemma WeighedStep(w: seq<nat>, before: seq<nat>, after: seq<nat>, sum: int, i: int)
    requires Weighed(w, before, sum, i) && i < |w| && w[i] <= 65535 && after == before[i + 1 := w[i]]
    ensures Weighed(w, after, sum + w[i], i + 1)
  {
    assert w[..i + 1][..i] == w[..i];
  }

  /** The second pass: the table so far, and the weights still to be folded in. */
  ghost predicate Folded(w: seq<nat>, sh: seq<nat>, entries: seq<nat>, i: int)
  {
    && 1 <= i <= |entries| == |w| + 1 == |sh| + 1
    && entries[..i] == Totals(sh, i - 1)
    && forall j :: i <= j <= |w| ==> entries[j] == w[j - 1]
  }

  lemma FoldedStep(w: seq<nat>, sh: seq<nat>, before: seq<nat>, after: seq<nat>, i: int)
    requires Folded(w, sh, before, i) && i <= |w|
    requires after == before[i := before[i - 1] + sh[i - 1]]
    ensures Folded(w, sh, after, i + 1)
  {
    assert after[..i + 1] == before[..i] + [after[i]];
  }

  /** Conversion to 16 bits. */
  method Low16(x: nat) returns (r: u16)
    ensures r == if x < 0x1_0000 then x else x % 0x1_0000
  {
    r := x % 0x1_0000;
  }

  /** First pass of the 16-bit variants. */
  method SquareWeights(dcmf: seq<byte>, cmf: array<u16>) returns (sum: i32)
    requires 0 < |dcmf| < MAX_CMF && cmf.Length == |dcmf| + 1
    modifies cmf
    ensures Weighed(Weights(dcmf), cmf[..], sum, |dcmf|) && cmf[0] == old(cmf[0])
  {
    ghost var w := Weights(dcmf);
    sum := 0;
    for i := 0 to |dcmf|
      invariant Weighed(w, cmf[..], sum, i) && cmf[0] == old(cmf[0])
    {
      ghost var before := cmf[..];
      var tmp: i32 := Weight(dcmf[i]);
      cmf[i + 1] := tmp % 0x1_0000;
      WeighedStep(w, before, cmf[..], sum, i);
      sum := sum + tmp;
    }
  }

  lemma PassesMeet(dcmf: seq<byte>, entries: seq<nat>, sum: int)
    requires 0 < |dcmf| < MAX_CMF && |entries| == |dcmf| + 1 && entries[0] == 0
    requires Weighed(Weights(dcmf), entries, sum, |dcmf|)
    ensures var w := Weights(dcmf); 0 < sum == Sum(w) && Folded(w, Shares(w), entries, 1)
  {
    ExpandFacts(dcmf);
    assert entries[..1] == [0];
  }

  lemma FoldedIsExpand(dcmf: seq<byte>, entries: seq<nat>)
    requires 0 < |dcmf| < MAX_CMF && Sum(Weights(dcmf)) > 0
    requires Folded(Weights(dcmf), Shares(Weights(dcmf)), entries, |dcmf| + 1)
    ensures entries == Expand(dcmf)
  {
    ExpandFacts(dcmf);
    assert entries[..|dcmf| + 1] == entries;
  }

  /** The CELP variant: 32-bit products and 16-bit sums, written over the weights in place. */
  method CelpDcmfToCmf(dcmf: seq<byte>, cmf: array<u16>)
    requires 0 < |dcmf| < MAX_CMF && cmf.Length == |dcmf| + 1
    modifies cmf
    ensures cmf[..] == Expand(dcmf) && Expanded(cmf[..], dcmf)
  {
    hide Share, Shares, Sum, Weights, Weight, Expand, Normalized, Totals, Expanded;
    ghost var w := Weights(dcmf);
    var sum := SquareWeights(dcmf, cmf);
    cmf[0] := 0;
    PassesMeet(dcmf, cmf[..], sum);
    for i := 1 to |dcmf| + 1
      invariant Folded(w, Shares(w), cmf[..], i)
    {
      ghost var before := cmf[..];
      EntryFits(w, Shares(w), i, cmf[i - 1]);
      var quotient := Scaled32(cmf[i], |dcmf|, sum, w, i);
      var add := Low16(quotient);
      var entry := Low16(cmf[i - 1] + add + 1);
      cmf[i] := entry;
      FoldedStep(w, Shares(w), before, cmf[..], i);
    }
    FoldedIsExpand(dcmf, cmf[..]);
    ExpandShares(dcmf);
  }

  /** The LSF variant: 64-bit products, result narrowed to 16 bits. */
  method LsfDcmfToCmf(dcmf: seq<byte>) returns (cmf: array<u16>)
    requires 0 < |dcmf| < MAX_CMF
    ensures fresh(cmf) && cmf[..] == Expand(dcmf) && Expanded(cmf[..], dcmf)
  {
    hide Share, Shares, Sum, Weights, Weight, Expand, Normalized, Totals, Expanded;
    ghost var w := Weights(dcmf);
    cmf := new u16[|dcmf| + 1](_ => 0);
    var sum := SquareWeights(dcmf, cmf);
    cmf[0] := 0;
    PassesMeet(dcmf, cmf[..], sum);
    for i := 1 to |dcmf| + 1
      invariant Folded(w, Shares(w), cmf[..], i)
    {
      ghost var before := cmf[..];
      EntryFits(w, Shares(w), i, cmf[i - 1]);
      var quotient := Scaled64(cmf[i], |dcmf|, sum, w, i);
      var add: i64 := quotient + 1;
      var entry := Low16(cmf[i - 1] + add);
      cmf[i] := entry;
      FoldedStep(w, Shares(w), before, cmf[..], i);
    }
    FoldedIsExpand(dcmf, cmf[..]);
    ExpandShares(dcmf);
  }

  /** The pitch variant: entries kept as 32-bit words. */
  method PitchDcmfToCmf(dcmf: seq<byte>) returns (cmf: array<nat>)
    requires 0 < |dcmf| < MAX_CMF
    ensures fresh(cmf) && cmf[..] == Expand(dcmf) && Expanded(cmf[..], dcmf)
  {
    ghost var w := Weights(dcmf);
    cmf := new nat[|dcmf| + 1](_ => 0);
    var sum: i64 := 0;
    assert Weighed(w, cmf[..], sum, 0);
    hide Share, Shares, Sum, Weights, Weight, Expand, Normalized, Totals, Expanded;
    for i := 0 to |dcmf|
      invariant Weighed(w, cmf[..], sum, i) && cmf[0] == 0
    {
      ghost var before := cmf[..];
      var tmp: i32 := Weight(dcmf[i]);
      cmf[i + 1] := tmp;
      WeighedStep(w, before, cmf[..], sum, i);
      sum := sum + tmp;
    }
    cmf[0] := 0;
    PassesMeet(dcmf, cmf[..], sum);
    FoldWeights(dcmf, cmf, sum);
  }

  /** The second pass of the pitch variant. */
  method FoldWeights(dcmf: seq<byte>, cmf: array<nat>, sum: i64)
    requires 0 < |dcmf| < MAX_CMF && 0 < sum == Sum(Weights(dcmf))
      && Folded(Weights(dcmf), Shares(Weights(dcmf)), cmf[..], 1)
    modifies cmf
    ensures cmf[..] == Expand(dcmf) && Expanded(cmf[..], dcmf)
  {
    ghost var w := Weights(dcmf);
    hide Share, Shares, Sum, Weights, Weight, Expand, Normalized, Totals, Expanded;
    for i := 1 to |dcmf| + 1
      invariant Folded(w, Shares(w), cmf[..], i)
    {
      ghost var before := cmf[..];
      EntryFits(w, Shares(w), i, cmf[i - 1]);
      var quotient := Scaled64(cmf[i], |dcmf|, sum, w, i);
      cmf[i] := cmf[i - 1] + (quotient + 1);
      FoldedStep(w, Shares(w), before, cmf[..], i);
    }
    FoldedIsExpand(dcmf, cmf[..]);
    ExpandShares(dcmf);
  }

  // ----- pdf normalisation -----

  predicate Pdf(p: seq<i32>) {
    0 < |p| < MAX_CMF && (forall i :: 0 <= i < |p| ==> p[i] >= 0) && exists i :: 0 <= i < |p| && p[i] > 0
  }

  lemma {:induction false} PdfSum(p: seq<nat>, i: nat)
    requires i < |p| && p[i] > 0
    ensures Sum(p) > 0
  {
    if i < |p| - 1 { PdfSum(p[..|p| - 1], i); }
  }

  /** pdfToCmf: any pdf with a positive entry becomes an increasing table, with no 16-bit wrap. */
  method PdfToCmf(pdf: seq<i32>) returns (cmf: array<u16>)
    requires Pdf(pdf)
    ensures fresh(cmf) && cmf.Length == |pdf| + 1 && Increasing(cmf[..]) && cmf[0] == 0 && cmf[|pdf|] <= MAX_CMF
    ensures Sum(pdf) > 0 && cmf[..] == Normalized(pdf) && Proportional(cmf[..], pdf)
  {
    var n := |pdf|;
    ghost var hit :| 0 <= hit < n && pdf[hit] > 0;
    PdfSum(pdf, hit);
    var sump := TotalOf(pdf);
    cmf := new u16[n + 1](_ => 0);
    ghost var sh := Shares(pdf);
    assert cmf[..1] == [0] == Totals(sh, 0);
    hide Share, Shares, Sum, Pdf, Totals, Normalized, Increasing, Proportional;
    for i := 0 to n
      invariant cmf[..i + 1] == Totals(sh, i)
    {
      ghost var before := cmf[..i + 1];
      var entry := NextEntry(pdf, sump, i, cmf[i], sh);
      cmf[i + 1] := entry;
      assert cmf[..i + 2] == before + [cmf[i + 1]];
    }
    assert cmf[..] == cmf[..n + 1];
    NormalizedIncreasing(pdf);
    NormalizedProportional(pdf);
  }

  /** One cumulative entry: the entry before it and a share, still below 2^16. */
  method NextEntry(pdf: seq<i32>, sump: i64, i: nat, prev: u16, ghost sh: seq<nat>) returns (entry: u16)
    requires i < |pdf| < MAX_CMF && (forall j :: 0 <= j < |pdf| ==> pdf[j] >= 0) && 0 < sump == Sum(pdf)
      && sh == Shares(pdf)
    requires prev as int == Totals(sh, i)[i]
    ensures Totals(sh, i + 1) == Totals(sh, i) + [entry as nat]
  {
    EntryFits(pdf, sh, i + 1, prev);
    hide Share, Shares, Sum;
    var quotient := Scaled64(pdf[i], |pdf|, sump, pdf, i + 1);
    var p := quotient + 1;
    entry := Low16(prev + p);
  }

  method TotalOf(pdf: seq<i32>) returns (sump: i64)
    requires |pdf| < MAX_CMF && forall i :: 0 <= i < |pdf| ==> pdf[i] >= 0
    ensures sump == Sum(pdf)
  {
    sump := 0;
    for i := 0 to |pdf|
      invariant 0 <= sump == Sum(pdf[..i]) <= 0x7fff_ffff * i
    {
      assert pdf[..i + 1][..i] == pdf[..i];
      sump := sump + pdf[i];
    }
    assert pdf[..|pdf|] == pdf;
  }
}
