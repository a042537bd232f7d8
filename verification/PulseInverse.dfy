/** Parameters to vector and back: every well-formed parameter set is the one its own vector builds. */
module PulseInverse {
  import opened PulseCount
  import opened PulseBlock
  import opened PulseVector
  import opened PulseSigns
  import opened PulseFrame

  // ----- run symbols are determined by the places they name -----

  /** Rising positions between base and the reach so far, the last one at the reach, and positive magnitudes. */
  predicate Shaped(p: (seq<int>, seq<int>), base: int, reach: int, some: bool) {
    && |p.0| == |p.1| && reach >= 0 && Rising(p.0) && Positive(p.1)
    && (forall i :: 0 <= i < |p.0| ==> base <= p.0[i] <= base + reach)
    && (some ==> p.0 != [] && Last(p.0) == base + reach)
    && (!some ==> p.0 == [])
  }

  predicate Positive(m: seq<int>) { forall i :: 0 <= i < |m| ==> m[i] >= 1 }

  lemma ShapedOpen(p: (seq<int>, seq<int>), base: int, reach: int, some: bool, m: int)
    requires Shaped(p, base, reach, some) && m >= 0 && (some ==> m > 0)
    ensures Shaped((p.0 + [base + reach + m], p.1 + [1]), base, reach + m, true)
  {}

  lemma ShapedBump(p: (seq<int>, seq<int>), base: int, reach: int)
    requires Shaped(p, base, reach, true)
    ensures Shaped((p.0, BumpLast(p.1, 1)), base, reach, true)
  {}

  lemma {:induction false} PlacesShape(runs: seq<int>, base: int, k: nat)
    requires k <= |runs| && NonNegative(runs)
    ensures Shaped(Places(runs, base, k), base, Advance(runs, k), k > 0)
  {
    if k > 0 {
      PlacesShape(runs, base, k - 1);
      var p, reach, m := Places(runs, base, k - 1), Advance(runs, k - 1), runs[k - 1];
      assert Advance(runs, k) == reach + m;
      hide Shaped;
      if m > 0 || k == 1 {
        ShapedOpen(p, base, reach, k - 1 > 0, m);
        assert Places(runs, base, k) == (p.0 + [base + reach + m], p.1 + [1]);
      } else {
        ShapedBump(p, base, reach);
      }
    }
  }

  function Last(s: seq<int>): int
    requires s != []
  {
    s[|s| - 1]
  }

  predicate Rising(p: seq<int>) { forall i, j :: 0 <= i < j < |p| ==> p[i] < p[j] }

  lemma LastBump(a: seq<int>, b: seq<int>)
    requires |a| > 0 && |b| > 0 && BumpLast(a, 1) == BumpLast(b, 1)
    ensures a == b
  {
    assert |a| == |b|;
    assert forall i :: 0 <= i < |a| - 1 ==> a[i] == BumpLast(a, 1)[i] == BumpLast(b, 1)[i] == b[i];
    assert a[|a| - 1] + 1 == BumpLast(a, 1)[|a| - 1] == BumpLast(b, 1)[|b| - 1] == b[|b| - 1] + 1;
  }

  lemma SnocInjective(a: seq<int>, x: int, b: seq<int>, y: int)
    requires a + [x] == b + [y]
    ensures a == b && x == y
  {
    assert a == (a + [x])[..|a|] && b == (b + [y])[..|b|];
    assert x == (a + [x])[|a|] && y == (b + [y])[|b|];
  }

  /**
   A first symbol or a positive one opens a place of magnitude one; a zero after the first raises the last magnitude
   above one.
   */
  lemma LastMagnitude(runs: seq<int>, base: int, k: nat)
    requires 0 < k <= |runs| && NonNegative(runs)
    ensures Last(Places(runs, base, k).1) == 1 <==> (runs[k - 1] > 0 || k == 1)
  {
    PlacesShape(runs, base, k - 1);
  }

  lemma LastPlace(runs: seq<int>, base: int, k: nat)
    requires 0 < k <= |runs| && NonNegative(runs)
    ensures Last(Places(runs, base, k).0) == base + Advance(runs, k)
  {
    PlacesShape(runs, base, k);
  }

  predicate SamePlaces(a: seq<int>, n: nat, b: seq<int>, m: nat, base: int)
    requires n <= |a| && m <= |b|
  {
    Places(a, base, n) == Places(b, base, m)
  }

  /** Symbol k opens a new place. */
  predicate Opens(runs: seq<int>, k: nat)
    requires 0 < k <= |runs|
  {
    runs[k - 1] > 0 || k == 1
  }

  /** Equal places end the same way: fronts agree, and so does how far the last place reaches. */
  lemma FrontsAgree(a: seq<int>, n: nat, b: seq<int>, m: nat, base: int)
    requires 0 < n <= |a| && 0 < m <= |b| && NonNegative(a) && NonNegative(b) && SamePlaces(a, n, b, m, base)
    ensures SamePlaces(a, n - 1, b, m - 1, base) && (Opens(a, n) <==> Opens(b, m))
    ensures Advance(a, n) == Advance(b, m)
  {
    hide NonNegative;
    LastMagnitude(a, base, n);
    LastMagnitude(b, base, m);
    LastPlace(a, base, n);
    LastPlace(b, base, m);
    var (pa, ma) := Places(a, base, n - 1);
    var (pb, mb) := Places(b, base, m - 1);
    if Opens(a, n) {
      SnocInjective(pa, base + Advance(a, n), pb, base + Advance(b, m));
      SnocInjective(ma, 1, mb, 1);
    } else {
      LastBump(ma, mb);
    }
  }

  /** After equal symbols, equal reach means an equal symbol. */
  lemma LastSymbol(a: seq<int>, b: seq<int>, n: nat)
    requires 0 < n <= |a| && n <= |b| && a[..n - 1] == b[..n - 1] && NonNegative(a) && NonNegative(b)
      && Advance(a, n) == Advance(b, n) && (Opens(a, n) <==> Opens(b, n))
    ensures a[..n] == b[..n]
  {
    assert forall i :: 0 <= i < n - 1 ==> a[i] == a[..n - 1][i] == b[..n - 1][i] == b[i];
    AdvancePrefix(a, b, n - 1);
    assert a[..n] == a[..n - 1] + [a[n - 1]] && b[..n] == b[..n - 1] + [b[n - 1]];
  }

  lemma SameEmpty(a: seq<int>, n: nat, b: seq<int>, m: nat, base: int)
    requires n <= |a| && m <= |b| && SamePlaces(a, n, b, m, base)
    ensures n == 0 <==> m == 0
  {}

  lemma {:induction false} PlacesInjective(a: seq<int>, n: nat, b: seq<int>, m: nat, base: int)
    requires n <= |a| && m <= |b| && NonNegative(a) && NonNegative(b) && SamePlaces(a, n, b, m, base)
    ensures n == m && a[..n] == b[..m]
  {
    hide NonNegative, SamePlaces, Opens;
    SameEmpty(a, n, b, m, base);
    if n > 0 {
      FrontsAgree(a, n, b, m, base);
      PlacesInjective(a, n - 1, b, m - 1, base);
      LastSymbol(a, b, n);
    }
  }

  // ----- scattering over rising places -----

  lemma {:induction false} SilentTail(v: seq<int>, lo: nat, n: nat)
    requires lo <= n <= |v| && forall i :: lo <= i < n ==> v[i] == 0
    ensures Support(v, lo, n) == [] && Mags(v, lo, n) == [] && Signs(v, lo, n) == []
  {
    if n > lo { SilentTail(v, lo, n - 1); }
  }

  lemma {:induction false} SameBelow(v: seq<int>, w: seq<int>, lo: nat, n: nat)
    requires |v| == |w| && lo <= n <= |v| && forall i :: lo <= i < n ==> v[i] == w[i]
    ensures Support(v, lo, n) == Support(w, lo, n) && Mags(v, lo, n) == Mags(w, lo, n)
      && Signs(v, lo, n) == Signs(w, lo, n)
  {
    if n > lo { SameBelow(v, w, lo, n - 1); }
  }

  lemma NoTail<T>(a: seq<T>, b: seq<T>)
    ensures b == [] ==> a + b == a
  {}

  /** A vector that is silent from p on, with one pulse added at p. */
  lemma {:induction false} AddPulse(v: seq<int>, p: nat, x: int)
    requires |v| == FRAME_LEN && p < FRAME_LEN && x != 0 && forall i :: p <= i < FRAME_LEN ==> v[i] == 0
    ensures var w := v[p := x];
      && Support(w, 0, FRAME_LEN) == Support(v, 0, FRAME_LEN) + [p]
      && Mags(w, 0, FRAME_LEN) == Mags(v, 0, FRAME_LEN) + [Abs(x)]
      && Signs(w, 0, FRAME_LEN) == Signs(v, 0, FRAME_LEN) + [x > 0]
  {
    var w := v[p := x];
    var n := |v|;
    hide Abs, Support, Mags, Signs;
    SupportSplit(v, 0, p, n);
    SupportSplit(w, 0, p + 1, n);
    SupportSplit(w, 0, p, p + 1);
    SameBelow(v, w, 0, p);
    SilentTail(v, p, n);
    SilentTail(w, p + 1, n);
    OnePulse(w, p);
    NoTail(Support(v, 0, p), Support(v, p, n));
    NoTail(Mags(v, 0, p), Mags(v, p, n));
    NoTail(Signs(v, 0, p), Signs(v, p, n));
    NoTail(Support(w, 0, p + 1), Support(w, p + 1, n));
    NoTail(Mags(w, 0, p + 1), Mags(w, p + 1, n));
    NoTail(Signs(w, 0, p + 1), Signs(w, p + 1, n));
  }

  lemma OnePulse(w: seq<int>, p: nat)
    requires p < |w| && w[p] != 0
    ensures Support(w, p, p + 1) == [p] && Mags(w, p, p + 1) == [Abs(w[p])] && Signs(w, p, p + 1) == [w[p] > 0]
  {}

  predicate Places320(pos: seq<int>) { Rising(pos) && forall i :: 0 <= i < |pos| ==> 0 <= pos[i] < FRAME_LEN }

  predicate Nonzero(vals: seq<int>) { forall i :: 0 <= i < |vals| ==> vals[i] != 0 }

  lemma {:induction false} ScatterSilent(pos: seq<int>, vals: seq<int>, k: nat, i: nat)
    requires k <= |pos| == |vals| && i < FRAME_LEN && forall j :: 0 <= j < k ==> pos[j] != i
    ensures Scatter(pos, vals, k)[i] == 0
  {
    if k > 0 { ScatterSilent(pos, vals, k - 1, i); }
  }

  function MagsOf(vals: seq<int>): (m: seq<int>)
    ensures |m| == |vals|
  {
    seq(|vals|, i requires 0 <= i < |vals| => Abs(vals[i]))
  }

  function SignsOf(vals: seq<int>): (s: seq<bool>)
    ensures |s| == |vals|
  {
    seq(|vals|, i requires 0 <= i < |vals| => vals[i] > 0)
  }

  lemma Snocs(pos: seq<int>, vals: seq<int>, k: nat)
    requires 0 < k <= |pos| == |vals|
    ensures pos[..k] == pos[..k - 1] + [pos[k - 1]]
    ensures MagsOf(vals[..k]) == MagsOf(vals[..k - 1]) + [Abs(vals[k - 1])]
    ensures SignsOf(vals[..k]) == SignsOf(vals[..k - 1]) + [vals[k - 1] > 0]
  {}

  /** Scattering nonzero values over rising places leaves exactly those places, magnitudes and signs. */
  lemma {:induction false} ScatterSupport(pos: seq<int>, vals: seq<int>, k: nat)
    requires k <= |pos| == |vals| && Places320(pos) && Nonzero(vals)
    ensures var v := Scatter(pos, vals, k);
      && Support(v, 0, FRAME_LEN) == pos[..k] && Mags(v, 0, FRAME_LEN) == MagsOf(vals[..k])
        && Signs(v, 0, FRAME_LEN) == SignsOf(vals[..k])
  {
    if k == 0 {
      SilentTail(Zeros(FRAME_LEN), 0, FRAME_LEN);
    } else {
      ScatterSupport(pos, vals, k - 1);
      var v, p := Scatter(pos, vals, k - 1), pos[k - 1];
      forall i | p <= i < FRAME_LEN ensures v[i] == 0 { ScatterSilent(pos, vals, k - 1, i); }
      AddPulse(v, p, vals[k - 1]);
      Snocs(pos, vals, k);
      hide Support, Mags, Signs, MagsOf, SignsOf, Abs;
    }
  }

  lemma SignsApplied(mag: seq<int>, signs: seq<bool>)
    requires |mag| == |signs| && forall i :: 0 <= i < |mag| ==> mag[i] >= 1
    ensures Nonzero(ApplySigns(mag, signs)) && MagsOf(ApplySigns(mag, signs)) == mag
      && SignsOf(ApplySigns(mag, signs)) == signs
  {}

  // ----- the frame's places, subframe by subframe -----

  predicate Within(pos: seq<int>, lo: int, hi: int) { forall i :: 0 <= i < |pos| ==> lo <= pos[i] < hi }

  lemma {:induction false} FrameShape(magRuns: seq<int>, subfr: seq<nat>, n: nat)
    requires n <= 4 && ChunksOk(magRuns, subfr, n)
    ensures var r := FramePlaces(magRuns, subfr, n);
      Rising(r.0) && Within(r.0, 0, SUBFR_LEN * n) && forall i :: 0 <= i < |r.1| ==> r.1[i] >= 1
  {
    if n > 0 {
      ChunksShrink(magRuns, subfr, n);
      FrameShape(magRuns, subfr, n - 1);
      PlacesShape(Chunk(magRuns, subfr, n - 1), SUBFR_LEN * (n - 1), subfr[n - 1]);
    }
  }

  lemma {:induction false} SupportWithin(v: seq<int>, lo: nat, n: nat)
    requires lo <= n <= |v|
    ensures Within(Support(v, lo, n), lo, n)
  {
    if n > lo { SupportWithin(v, lo, n - 1); }
  }

  lemma Overlap(a: seq<int>, b: seq<int>, c: seq<int>, d: seq<int>)
    requires a + b == c + d && |a| < |c|
    ensures b != [] && c[|a|] == b[0]
  {
    assert |a + b| == |c + d|;
    assert (a + b)[|a|] == b[0] && (c + d)[|a|] == c[|a|];
  }

  lemma NotShorter(a: seq<int>, b: seq<int>, c: seq<int>, d: seq<int>, x: int, lo: int, hi: int)
    requires a + b == c + d && Within(c, lo, x) && Within(b, x, hi)
    ensures |a| >= |c|
  {
    if |a| < |c| { Overlap(a, b, c, d); }
  }

  /** A split by value is unique. */
  lemma SplitUnique(a: seq<int>, b: seq<int>, c: seq<int>, d: seq<int>, x: int, lo: int, hi: int)
    requires a + b == c + d && Within(a, lo, x) && Within(c, lo, x) && Within(b, x, hi) && Within(d, x, hi)
    ensures a == c && b == d
  {
    NotShorter(a, b, c, d, x, lo, hi);
    NotShorter(c, d, a, b, x, lo, hi);
    assert a == (a + b)[..|a|] && c == (c + d)[..|c|];
    assert b == (a + b)[|a|..] && d == (c + d)[|c|..];
  }

  lemma SplitSizes(a: seq<int>, b: seq<int>, c: seq<int>, d: seq<int>)
    requires a + b == c + d && |a| == |c|
    ensures a == c && b == d
  {
    assert a == (a + b)[..|a|] && c == (c + d)[..|c|];
    assert b == (a + b)[|a|..] && d == (c + d)[|c|..];
  }

  function Frame(magRuns: seq<int>, subfr: seq<nat>, n: nat): (seq<int>, seq<int>)
    requires ChunksOk(magRuns, subfr, n)
  {
    FramePlaces(magRuns, subfr, n)
  }

  /** The frame's places are those of the subframes before, then those of the last one. */
  lemma FrameStep(magRuns: seq<int>, subfr: seq<nat>, n: nat)
    requires 0 < n <= 4 && ChunksOk(magRuns, subfr, n)
    ensures ChunksOk(magRuns, subfr, n - 1) && Offset4(subfr, n) <= |magRuns|
    ensures var lo := SUBFR_LEN * (n - 1); var c := Chunk(magRuns, subfr, n - 1);
      var front, last := Frame(magRuns, subfr, n - 1), Places(c, lo, |c|);
      && Frame(magRuns, subfr, n) == (front.0 + last.0, front.1 + last.1) && |front.0| == |front.1|
      && Within(front.0, 0, lo) && Within(last.0, lo, lo + SUBFR_LEN) && NonNegative(c)
  {
    ChunksShrink(magRuns, subfr, n);
    OffsetMono(subfr, n - 1, n);
    FrameShape(magRuns, subfr, n - 1);
    var c := Chunk(magRuns, subfr, n - 1);
    PlacesShape(c, SUBFR_LEN * (n - 1), |c|);
  }

  /** The first n subframes of the parameters name exactly v's nonzero slots and their magnitudes. */
  ghost predicate Named(v: seq<int>, magRuns: seq<int>, subfr: seq<nat>, n: nat) {
    && |v| == FRAME_LEN && n <= 4 && |subfr| == 4 && ChunksOk(magRuns, subfr, n)
    && Frame(magRuns, subfr, n) == (Support(v, 0, SUBFR_LEN * n), Mags(v, 0, SUBFR_LEN * n))
  }

  /** v's own run symbols and counts in the first n subframes are the parameters'. */
  ghost predicate Rebuilt(v: seq<int>, magRuns: seq<int>, subfr: seq<nat>, n: nat) {
    && |v| == FRAME_LEN && n <= 4 && |subfr| == 4 && Offset4(subfr, n) <= |magRuns|
    && FrameRuns(v, n) == magRuns[..Offset4(subfr, n)]
    && forall sf :: 0 <= sf < n ==> Norm1(v, SUBFR_LEN * sf, SUBFR_LEN * sf + SUBFR_LEN) == subfr[sf]
  }

  lemma NamedIs(v: seq<int>, magRuns: seq<int>, subfr: seq<nat>, n: nat)
    requires 0 < n && Named(v, magRuns, subfr, n)
    ensures n <= 4 && |v| == FRAME_LEN && |subfr| == 4 && ChunksOk(magRuns, subfr, n)
    ensures var hi := SUBFR_LEN * (n - 1) + SUBFR_LEN;
      hi <= |v| && Frame(magRuns, subfr, n) == (Support(v, 0, hi), Mags(v, 0, hi))
  {
    hide Support, Mags, Frame, ChunksOk;
  }

  /** The frame's places end with those of its last subframe. */
  lemma LastChunk(v: seq<int>, magRuns: seq<int>, subfr: seq<nat>, n: nat)
    requires 0 < n && Named(v, magRuns, subfr, n)
    ensures Named(v, magRuns, subfr, n - 1) && Offset4(subfr, n) <= |magRuns|
    ensures var lo := SUBFR_LEN * (n - 1); var c := Chunk(magRuns, subfr, n - 1);
      Places(c, lo, |c|) == (Support(v, lo, lo + SUBFR_LEN), Mags(v, lo, lo + SUBFR_LEN)) && NonNegative(c)
  {
    FrameStep(magRuns, subfr, n);
    NamedIs(v, magRuns, subfr, n);
    hide Support, Mags, Places, Frame, ChunksOk, Chunk, Within, NonNegative;
    var lo, c := SUBFR_LEN * (n - 1), Chunk(magRuns, subfr, n - 1);
    PlacesSplit(v, lo, lo + SUBFR_LEN, Frame(magRuns, subfr, n - 1), Places(c, lo, |c|));
  }

  /** Places below lo and places from lo to hi, when together they are the vector's. */
  lemma PlacesSplit(v: seq<int>, lo: nat, hi: nat, front: (seq<int>, seq<int>), last: (seq<int>, seq<int>))
    requires lo <= hi <= |v| && |front.0| == |front.1| && Within(front.0, 0, lo) && Within(last.0, lo, hi)
    requires front.0 + last.0 == Support(v, 0, hi) && front.1 + last.1 == Mags(v, 0, hi)
    ensures front == (Support(v, 0, lo), Mags(v, 0, lo)) && last == (Support(v, lo, hi), Mags(v, lo, hi))
  {
    hide Within;
    SupportSplit(v, 0, lo, hi);
    SupportWithin(v, 0, lo);
    SupportWithin(v, lo, hi);
    SplitUnique(front.0, last.0, Support(v, 0, lo), Support(v, lo, hi), lo, 0, hi);
    Sizes(v, 0, lo);
    SplitSizes(front.1, last.1, Mags(v, 0, lo), Mags(v, lo, hi));
  }

  /** The subframe at lo has these run symbols, one per pulse. */
  ghost predicate ChunkIs(v: seq<int>, lo: nat, c: seq<int>) {
    lo + SUBFR_LEN <= |v| && RunsOf(v, lo, lo + SUBFR_LEN) == c && Norm1(v, lo, lo + SUBFR_LEN) == |c|
  }

  lemma RebuiltStep(v: seq<int>, magRuns: seq<int>, subfr: seq<nat>, n: nat)
    requires 0 < n <= 4 && Rebuilt(v, magRuns, subfr, n - 1) && Offset4(subfr, n) <= |magRuns|
    requires ChunkIs(v, SUBFR_LEN * (n - 1), Chunk(magRuns, subfr, n - 1))
    ensures Rebuilt(v, magRuns, subfr, n)
  {
    OffsetMono(subfr, n - 1, n);
    assert magRuns[..Offset4(subfr, n)] == magRuns[..Offset4(subfr, n - 1)] + Chunk(magRuns, subfr, n - 1);
    assert SUBFR_LEN * n == SUBFR_LEN * (n - 1) + SUBFR_LEN;
  }

  lemma NothingRebuilt(v: seq<int>, magRuns: seq<int>, subfr: seq<nat>)
    requires Named(v, magRuns, subfr, 0)
    ensures Rebuilt(v, magRuns, subfr, 0)
  {}

  /** A vector whose support and magnitudes are the frame's places has the frame's run symbols. */
  lemma {:induction false} RunsRestored(v: seq<int>, magRuns: seq<int>, subfr: seq<nat>, n: nat)
    requires Named(v, magRuns, subfr, n)
    ensures Rebuilt(v, magRuns, subfr, n)
  {
    if n == 0 {
      NothingRebuilt(v, magRuns, subfr);
    } else {
      hide Named, Rebuilt, ChunkIs, NonNegative;
      LastChunk(v, magRuns, subfr, n);
      RunsRestored(v, magRuns, subfr, n - 1);
      ChunkRestored(v, SUBFR_LEN * (n - 1), Chunk(magRuns, subfr, n - 1));
      RebuiltStep(v, magRuns, subfr, n);
    }
  }

  lemma ChunkRestored(v: seq<int>, lo: nat, chunk: seq<int>)
    requires |v| == FRAME_LEN && lo + SUBFR_LEN <= FRAME_LEN && NonNegative(chunk)
    requires Places(chunk, lo, |chunk|) == (Support(v, lo, lo + SUBFR_LEN), Mags(v, lo, lo + SUBFR_LEN))
    ensures ChunkIs(v, lo, chunk)
  {
    var runs := RunsOf(v, lo, lo + SUBFR_LEN);
    PlacesOfRuns(v, lo, lo + SUBFR_LEN);
    assert SamePlaces(runs, |runs|, chunk, |chunk|, lo);
    PlacesInjective(runs, |runs|, chunk, |chunk|, lo);
    assert runs[..|runs|] == runs && chunk[..|chunk|] == chunk;
  }

  /** The vector of any writable parameters is codable, and building from it gives the parameters back. */
  lemma BuildOfAssemble(pp: PulseParams)
    requires PulseParamsOk(pp)
    ensures VectorOk(Assemble(pp)) && Build(Assemble(pp)) == pp
  {
    var v, n := Assemble(pp), NumPos(pp.magRuns, pp.subfr);
    AssembledPlaces(pp);
    WordsRestored(pp.signSyms, n);
    RunsRestored(v, pp.magRuns, pp.subfr, 4);
    hide Assemble, NumPos, Named, WordsOf;
    FrameRebuilt(v, pp);
  }

  lemma FrameRebuilt(v: seq<int>, pp: PulseParams)
    requires PulseParamsOk(pp) && Rebuilt(v, pp.magRuns, pp.subfr, 4)
    ensures FrameRuns(v, 4) == pp.magRuns && Counts(v) == pp.subfr && VectorOk(v)
  {
    OffsetTotal(pp.subfr);
    assert pp.magRuns[..Total4(pp.subfr)] == pp.magRuns;
    CountsRestored(v, pp.subfr);
  }

  /** The assembled vector has the places, magnitudes and signs that the parameters spell. */
  lemma AssembledPlaces(pp: PulseParams)
    requires PulseParamsOk(pp)
    ensures var v := Assemble(pp);
      && Named(v, pp.magRuns, pp.subfr, 4)
      && Signs(v, 0, FRAME_LEN) == Spelled(pp.signSyms, |pp.signSyms|)
  {
    var (pos, mag) := FramePlaces(pp.magRuns, pp.subfr, 4);
    SpelledSize(pp.signSyms, |pos|, |pp.signSyms|);
    FrameShape(pp.magRuns, pp.subfr, 4);
    var signs := Spelled(pp.signSyms, |pp.signSyms|);
    SignsApplied(mag, signs);
    var vals := ApplySigns(mag, signs);
    assert Places320(pos);
    ScatterSupport(pos, vals, |pos|);
    assert pos[..|pos|] == pos && vals[..|pos|] == vals;
  }

  lemma CountsRestored(v: seq<int>, subfr: seq<nat>)
    requires |v| == FRAME_LEN && |subfr| == 4
      && forall sf :: 0 <= sf < 4 ==> Norm1(v, SUBFR_LEN * sf, SUBFR_LEN * sf + SUBFR_LEN) == subfr[sf]
    ensures Counts(v) == subfr
  {
    assert Norm1(v, SUBFR_LEN * 0, SUBFR_LEN * 0 + SUBFR_LEN) == subfr[0];
    assert Norm1(v, SUBFR_LEN * 1, SUBFR_LEN * 1 + SUBFR_LEN) == subfr[1];
    assert Norm1(v, SUBFR_LEN * 2, SUBFR_LEN * 2 + SUBFR_LEN) == subfr[2];
    assert Norm1(v, SUBFR_LEN * 3, SUBFR_LEN * 3 + SUBFR_LEN) == subfr[3];
  }
}
