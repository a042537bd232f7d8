/** The two spacing loops for line spectral frequencies, on exact margins. */
module NlsfSpacing {
  const MAX_ROUNDS := 1000
  const STABILIZE_EPS := 0.00000095367431640625
  const MIN_DIST_EPS := 0.000001

  // ----- margins -----

  function Added(m: seq<real>): real {
    if m == [] then 0.0 else Added(m[..|m| - 1]) + m[|m| - 1]
  }

  function Total(m: seq<real>): real { Added(m) }

  lemma TotalFront(m: seq<real>, k: nat)
    requires k < |m|
    ensures Total(m[..k + 1]) == Total(m[..k]) + m[k] && Total(m[..0]) == 0.0
  {
    assert m[..k + 1][..k] == m[..k];
  }

  lemma {:induction false} TotalUpdate(m: seq<real>, i: nat, x: real)
    requires i < |m|
    ensures Total(m[i := x]) == Total(m) - m[i] + x
  {
    var k := |m| - 1;
    if i == k {
      assert m[i := x][..k] == m[..k];
    } else {
      assert m[i := x][..k] == m[..k][i := x];
      TotalUpdate(m[..k], i, x);
    }
  }

  /** Distance of each gap from its minimum: below the first, between neighbours, and up to pi. */
  function Gap(f: seq<real>, pi: real, i: nat): real
    requires i <= |f| && |f| >= 1
  {
    if i == 0 then f[0] else if i < |f| then f[i] - f[i - 1] else pi - f[|f| - 1]
  }

  function Margins(f: seq<real>, ms: seq<real>, pi: real): (m: seq<real>)
    requires |f| >= 1 && |ms| == |f| + 1
    ensures |m| == |f| + 1
  {
    seq(|f| + 1, i requires 0 <= i <= |f| => Gap(f, pi, i) - ms[i])
  }

  predicate Spaced(f: seq<real>, ms: seq<real>, pi: real)
    requires |f| >= 1 && |ms| == |f| + 1
  {
    forall i :: 0 <= i <= |f| ==> Gap(f, pi, i) >= ms[i]
  }

  lemma {:induction false} GapsAddUp(f: seq<real>, ms: seq<real>, pi: real, k: nat)
    requires |f| >= 1 && |ms| == |f| + 1 && k <= |f| + 1
    ensures Total(Margins(f, ms, pi)[..k]) ==
      (if k == 0 then 0.0 else if k <= |f| then f[k - 1] else pi) - Total(ms[..k])
  {
    var m := Margins(f, ms, pi);
    if k > 0 {
      GapsAddUp(f, ms, pi, k - 1);
      assert m[..k][..k - 1] == m[..k - 1] && ms[..k][..k - 1] == ms[..k - 1];
    }
  }

  /** The margins of any frequencies add up to pi less all minimum spacings. */
  lemma MarginsTotal(f: seq<real>, ms: seq<real>, pi: real)
    requires |f| >= 1 && |ms| == |f| + 1
    ensures Total(Margins(f, ms, pi)) == pi - Total(ms)
  {
    GapsAddUp(f, ms, pi, |f| + 1);
    var m := Margins(f, ms, pi);
    assert m[..|f| + 1] == m && ms[..|f| + 1] == ms;
  }

  /** Raise one margin by d and take it from the neighbours. */
  function Shifted(m: seq<real>, sel: nat, d: real): (r: seq<real>)
    requires sel < |m| && |m| >= 2
    ensures |r| == |m|
  {
    var n := |m| - 1;
    if sel == 0 then m[0 := m[0] + d][1 := m[1] - d]
    else if sel == n then m[n := m[n] + d][n - 1 := m[n - 1] - d]
    else m[sel := m[sel] + d][sel - 1 := m[sel - 1] - d * 0.5][sel + 1 := m[sel + 1] - d * 0.5]
  }

  /** A step moves margin around; none is made or lost. */
  lemma ShiftConserves(m: seq<real>, sel: nat, d: real)
    requires sel < |m| && |m| >= 2
    ensures Total(Shifted(m, sel, d)) == Total(m)
  {
    hide Total;
    var n := |m| - 1;
    if sel == 0 {
      TotalUpdate(m, 0, m[0] + d);
      TotalUpdate(m[0 := m[0] + d], 1, m[1] - d);
    } else if sel == n {
      TotalUpdate(m, n, m[n] + d);
      TotalUpdate(m[n := m[n] + d], n - 1, m[n - 1] - d);
    } else {
      var a := m[sel := m[sel] + d];
      var b := a[sel - 1 := m[sel - 1] - d * 0.5];
      TotalUpdate(m, sel, m[sel] + d);
      TotalUpdate(a, sel - 1, m[sel - 1] - d * 0.5);
      TotalUpdate(b, sel + 1, m[sel + 1] - d * 0.5);
    }
  }

  // ----- back to frequencies -----

  /** Frequency k from margins: everything below it. */
  function Placed(m: seq<real>, ms: seq<real>, k: nat): real
    requires k < |m| == |ms|
  {
    Total(m[..k + 1]) + Total(ms[..k + 1])
  }

  lemma PlacedStep(m: seq<real>, ms: seq<real>, k: nat)
    requires k < |m| == |ms|
    ensures Placed(m, ms, k) == (if k == 0 then 0.0 else Placed(m, ms, k - 1)) + m[k] + ms[k]
  {
    TotalFront(m, k);
    TotalFront(ms, k);
  }

  function AllPlaced(m: seq<real>, ms: seq<real>): (f: seq<real>)
    requires 2 <= |m| == |ms|
    ensures |f| == |m| - 1
  {
    seq(|m| - 1, k requires 0 <= k < |m| - 1 => Placed(m, ms, k))
  }

  /** Rebuilt frequencies have exactly the margins they were rebuilt from, the one up to pi included. */
  lemma PlacedMargins(m: seq<real>, ms: seq<real>, pi: real)
    requires 2 <= |m| == |ms| && Total(m) == pi - Total(ms)
    ensures Margins(AllPlaced(m, ms), ms, pi) == m
  {
    hide Total;
    var f := AllPlaced(m, ms);
    var n := |f|;
    forall i | 0 <= i <= n ensures Margins(f, ms, pi)[i] == m[i] {
      PlacedStep(m, ms, i);
      if i == n {
        assert m[..n + 1] == m && ms[..n + 1] == ms;
      }
    }
  }

  /** Placing a frequency list's own margins restores it. */
  lemma PlacedRestores(f: seq<real>, ms: seq<real>, pi: real)
    requires |f| >= 1 && |ms| == |f| + 1
    ensures AllPlaced(Margins(f, ms, pi), ms) == f
  {
    var m := Margins(f, ms, pi);
    forall k | 0 <= k < |f| ensures AllPlaced(m, ms)[k] == f[k] {
      GapsAddUp(f, ms, pi, k + 1);
    }
  }

  lemma SpacedMargins(f: seq<real>, ms: seq<real>, pi: real)
    requires |f| >= 1 && |ms| == |f| + 1
    ensures Spaced(f, ms, pi) <==> forall i :: 0 <= i <= |f| ==> Margins(f, ms, pi)[i] >= 0.0
  {
    var m := Margins(f, ms, pi);
    assert forall i :: 0 <= i <= |f| ==> m[i] == Gap(f, pi, i) - ms[i];
  }

  /** First index of a minimum. */
  method ArgMin(m: seq<real>) returns (min: real, sel: nat)
    requires m != []
    ensures Lowest(m, sel) && min == m[sel] && (min >= 0.0 <==> NonNegative(m))
  {
    min, sel := m[0], 0;
    for i := 1 to |m|
      invariant sel < i && min == m[sel] && (forall j :: 0 <= j < i ==> min <= m[j])
        && forall j :: 0 <= j < sel ==> min < m[j]
    {
      if m[i] < min {
        min, sel := m[i], i;
      }
    }
  }

  /** One step in place. */
  method Shift(marg: array<real>, sel: nat, d: real)
    requires marg.Length >= 2 && sel < marg.Length
    modifies marg
    ensures marg[..] == Shifted(old(marg[..]), sel, d) && Total(marg[..]) == Total(old(marg[..]))
  {
    ShiftConserves(marg[..], sel, d);
    var n := marg.Length - 1;
    marg[sel] := marg[sel] + d;
    if sel == 0 {
      marg[1] := marg[1] - d;
    } else if sel == n {
      marg[n - 1] := marg[n - 1] - d;
    } else {
      var half := d * 0.5;
      marg[sel - 1] := marg[sel - 1] - half;
      marg[sel + 1] := marg[sel + 1] - half;
    }
  }

  /** What a spacing loop leaves behind. */
  ghost predicate Settled(after: seq<real>, m: seq<real>, ms: seq<real>, pi: real) {
    && 1 <= |after| && |ms| == |after| + 1 && |m| == |ms|
    && Total(m) == pi - Total(ms)
    && after == AllPlaced(m, ms)
  }

  /** Frequencies settled from non-negative margins meet every minimum spacing. */
  lemma SettledSpaced(after: seq<real>, m: seq<real>, ms: seq<real>, pi: real)
    requires Settled(after, m, ms, pi)
    ensures Margins(after, ms, pi) == m
    ensures Spaced(after, ms, pi) <==> forall i :: 0 <= i < |m| ==> m[i] >= 0.0
  {
    PlacedMargins(m, ms, pi);
    SpacedMargins(after, ms, pi);
  }

  lemma {:induction false} SumNonNegative(m: seq<real>)
    requires forall i :: 0 <= i < |m| ==> m[i] >= 0.0
    ensures Total(m) >= 0.0
  {
    if m != [] { SumNonNegative(m[..|m| - 1]); }
  }

  lemma {:induction false} SumOfZeros(m: seq<real>)
    requires forall i :: 0 <= i < |m| ==> m[i] == 0.0
    ensures Total(m) == 0.0
  {
    if m != [] { SumOfZeros(m[..|m| - 1]); }
  }

  /** Spaced frequencies leave room for every minimum spacing. */
  lemma SpacedNeedsRoom(f: seq<real>, ms: seq<real>, pi: real)
    requires |f| >= 1 && |ms| == |f| + 1 && Spaced(f, ms, pi)
    ensures Total(ms) <= pi
  {
    SpacedMargins(f, ms, pi);
    MarginsTotal(f, ms, pi);
    SumNonNegative(Margins(f, ms, pi));
  }

  /** Frequencies that meet all the minimum spacings exist exactly when those add up to at most pi. */
  lemma SpacedExists(ms: seq<real>, pi: real)
    requires |ms| >= 2
    ensures (exists f: seq<real> :: |f| == |ms| - 1 && Spaced(f, ms, pi)) <==> Total(ms) <= pi
  {
    if Total(ms) <= pi {
      var k := |ms| - 1;
      var zeros := seq(|ms|, i => 0.0);
      var m := zeros[k := pi - Total(ms)];
      SumOfZeros(zeros);
      TotalUpdate(zeros, k, pi - Total(ms));
      SettledSpaced(AllPlaced(m, ms), m, ms, pi);
    }
    forall f: seq<real> | |f| == |ms| - 1 && Spaced(f, ms, pi) ensures Total(ms) <= pi { SpacedNeedsRoom(f, ms, pi); }
  }

  method InitialMargins(f: seq<real>, ms: seq<real>, pi: real) returns (marg: array<real>)
    requires |f| >= 1 && |ms| == |f| + 1
    ensures fresh(marg) && marg[..] == Margins(f, ms, pi)
  {
    var n := |f|;
    marg := new real[n + 1](_ => 0.0);
    marg[0] := f[0] - ms[0];
    for i := 1 to n
      invariant forall j :: 0 <= j < i ==> marg[j] == Margins(f, ms, pi)[j]
    {
      marg[i] := f[i] - f[i - 1] - ms[i];
    }
    marg[n] := pi - f[n - 1] - ms[n];
  }

  /** Writes the frequencies a margin list stands for. */
  method Place(nlsf: array<real>, m: seq<real>, ms: seq<real>)
    requires nlsf.Length >= 1 && |m| == |ms| == nlsf.Length + 1
    modifies nlsf
    ensures nlsf[..] == AllPlaced(m, ms)
  {
    hide Placed;
    PlacedStep(m, ms, 0);
    nlsf[0] := ms[0] + m[0];
    var run := nlsf[0];
    for i := 1 to nlsf.Length
      invariant run == Placed(m, ms, i - 1) && forall j :: 0 <= j < i ==> nlsf[j] == Placed(m, ms, j)
    {
      PlacedStep(m, ms, i);
      run := run + m[i] + ms[i];
      nlsf[i] := run;
    }
  }

  // ----- rounds -----

  /** The first of the smallest margins. */
  ghost predicate Lowest(m: seq<real>, sel: nat) {
    && sel < |m| && (forall i :: 0 <= i < |m| ==> m[sel] <= m[i]) && (forall i :: 0 <= i < sel ==> m[sel] < m[i])
  }

  predicate NonNegative(m: seq<real>) { forall i :: 0 <= i < |m| ==> m[i] >= 0.0 }

  /** What margin i of 0 to n gives up for margin sel: an end's one neighbour pays all, two neighbours half each. */
  function Lent(n: nat, sel: nat, i: nat, amount: real): real {
    if i + 1 != sel && sel + 1 != i then 0.0 else if sel == 0 || sel == n then amount else amount / 2.0
  }

  /** Margin sel is brought to target, at the cost of its neighbours alone. */
  ghost predicate Mended(before: seq<real>, after: seq<real>, sel: nat, target: real) {
    && |before| == |after| && sel < |before| && after[sel] == target
    && forall i :: 0 <= i < |before| && i != sel ==>
      after[i] == before[i] - Lent(|before| - 1, sel, i, target - before[sel])
  }

  /** One round: the first of the smallest margins is mended. */
  ghost predicate Round(before: seq<real>, after: seq<real>, target: real) {
    exists sel: nat :: Lowest(before, sel) && Mended(before, after, sel, target)
  }

  function Steps(n: nat, step: real): real { n as real * step }

  /** Round n, counted from 0, brings its margin to n steps. */
  ghost predicate Rounds(run: seq<seq<real>>, step: real) {
    |run| >= 1 && forall n :: 0 <= n < |run| - 1 ==> Round(run[n], run[n + 1], Steps(n, step))
  }

  lemma RoundsGrow(run: seq<seq<real>>, step: real, after: seq<real>)
    requires Rounds(run, step) && Round(run[|run| - 1], after, Steps(|run| - 1, step))
    ensures Rounds(run + [after], step)
  {
    hide Round, Steps;
    var all := run + [after];
    forall n | 0 <= n < |all| - 1 ensures Round(all[n], all[n + 1], Steps(n, step)) {
      assert all[n] == run[n] && (n < |run| - 1 ==> all[n + 1] == run[n + 1]);
    }
  }

  /** A step by the deficit and a little more is a round. */
  lemma ShiftIsRound(m: seq<real>, sel: nat, target: real)
    requires |m| >= 2 && Lowest(m, sel)
    ensures Round(m, Shifted(m, sel, target - m[sel]), target)
  {
    assert Mended(m, Shifted(m, sel, target - m[sel]), sel, target);
  }

  /** One margin is negative, and its neighbours have enough to cover it. */
  ghost predicate Coverable(m: seq<real>, sel: nat) {
    && sel < |m| && m[sel] < 0.0
    && forall i :: 0 <= i < |m| && i != sel ==> m[i] >= Lent(|m| - 1, sel, i, -m[sel]) >= 0.0
  }

  /** The first round brings such a margin to zero exactly and leaves none negative. */
  lemma FirstRoundMends(m: seq<real>, after: seq<real>, sel: nat)
    requires Coverable(m, sel) && Round(m, after, 0.0)
    ensures Mended(m, after, sel, 0.0) && NonNegative(after) && !NonNegative(m)
  {
    var s: nat :| Lowest(m, s) && Mended(m, after, s, 0.0);
    assert m[s] <= m[sel];
    assert s == sel;
  }

  /** The run of a loop that mends until no margin is negative, for at most 1000 rounds. */
  ghost predicate Ended(run: seq<seq<real>>, ok: bool) {
    && 1 <= |run| <= MAX_ROUNDS + 1 && (ok <==> NonNegative(run[|run| - 1])) && (!ok ==> |run| == MAX_ROUNDS + 1)
    && forall n :: 1 <= n < |run| - 1 ==> !NonNegative(run[n])
  }

  /** A coverable violation is gone after one round. */
  lemma OneRoundEnough(run: seq<seq<real>>, step: real, ok: bool, sel: nat)
    requires Rounds(run, step) && Ended(run, ok) && Coverable(run[0], sel)
    ensures ok && |run| == 2 && Mended(run[0], run[1], sel, 0.0)
  {
    hide Round, Mended, Coverable, NonNegative;
    NotSpacedYet(run[0], sel);
    assert |run| >= 2;
    assert Round(run[0], run[1], Steps(0, step));
    assert Steps(0, step) == 0.0;
    FirstRoundMends(run[0], run[1], sel);
  }

  lemma NotSpacedYet(m: seq<real>, sel: nat)
    requires Coverable(m, sel)
    ensures !NonNegative(m)
  {}

  /**
   smplStabilizeNLSF: rounds on the margins of the input until none is negative, at most 1000, each bringing the first
   smallest margin to its number times the step; the result has the last margins. Spaced input comes back unchanged.
   */
  method StabilizeNlsf(nlsf: array<real>, ms: seq<real>, pi: real) returns (ghost run: seq<seq<real>>, ghost ok: bool)
    requires nlsf.Length >= 1 && |ms| == nlsf.Length + 1
    modifies nlsf
    ensures |run| >= 1 && Rounds(run, STABILIZE_EPS) && Ended(run, ok) && (NonNegative(run[0]) ==> |run| == 1)
    ensures run[0] == Margins(old(nlsf[..]), ms, pi) && Margins(nlsf[..], ms, pi) == run[|run| - 1]
    ensures ok <==> Spaced(nlsf[..], ms, pi)
    ensures Total(ms) > pi ==> !ok
    ensures Spaced(old(nlsf[..]), ms, pi) ==> nlsf[..] == old(nlsf[..])
    ensures forall sel: nat :: Coverable(run[0], sel) ==>
      ok && Mended(run[0], Margins(nlsf[..], ms, pi), sel, 0.0)
  {
    hide Margins, Total, Shifted, Spaced, AllPlaced, Gap, Mended, Coverable, Round, Rounds;
    ghost var f0 := nlsf[..];
    var marg := InitialMargins(nlsf[..], ms, pi);
    MarginsTotal(f0, ms, pi);
    SpacedMargins(f0, ms, pi);
    PlacedRestores(f0, ms, pi);
    run := [marg[..]];
    FirstRun(marg[..], STABILIZE_EPS);
    var min: real, sel: nat := ArgMin(marg[..]);
    var loopN := 0;
    while min < 0.0
      invariant marg.Length == |ms| && Total(marg[..]) == pi - Total(ms) && fresh(marg)
      invariant |run| >= 1 && Rounds(run, STABILIZE_EPS) && run[0] == Margins(f0, ms, pi) && run[|run| - 1] == marg[..]
      invariant Lowest(marg[..], sel) && min == marg[sel] && (min >= 0.0 <==> NonNegative(marg[..]))
      invariant forall n :: 0 <= n < |run| - 1 ==> !NonNegative(run[n])
      invariant |run| <= loopN + 2 && loopN < MAX_ROUNDS && (min < 0.0 ==> |run| == loopN + 1)
      decreases MAX_ROUNDS - loopN, if min < 0.0 then 1 else 0
    {
      var d := loopN as real * STABILIZE_EPS - min;
      ShiftIsRound(marg[..], sel, Steps(loopN, STABILIZE_EPS));
      Shift(marg, sel, d);
      RoundsGrow(run, STABILIZE_EPS, marg[..]);
      run := run + [marg[..]];
      min, sel := ArgMin(marg[..]);
      if min < 0.0 {
        loopN := loopN + 1;
        if loopN == MAX_ROUNDS {
          break;
        }
      }
    }
    ok := min >= 0.0;
    Place(nlsf, marg[..], ms);
    SettledSpaced(nlsf[..], marg[..], ms, pi);
    if ok { SpacedNeedsRoom(nlsf[..], ms, pi); }
    forall sel: nat | Coverable(run[0], sel) ensures ok && Mended(run[0], run[|run| - 1], sel, 0.0) {
      OneRoundEnough(run, STABILIZE_EPS, ok, sel);
    }
  }

  lemma FirstRun(m: seq<real>, step: real)
    ensures Rounds([m], step)
  {}

  /**
   lsfMinDist: input whose smallest margin is positive is left as it is; otherwise rounds on its margins, at most 1000,
   and the frequencies are rewritten only on success, then spaced and with the last margins.
   */
  method LsfMinDist(lsfs: array<real>, ms: seq<real>, pi: real) returns (ghost run: seq<seq<real>>, ghost ok: bool)
    requires lsfs.Length >= 1 && |ms| == lsfs.Length + 1
    modifies lsfs
    ensures |run| >= 1 && Rounds(run, MIN_DIST_EPS) && Ended(run, ok) && run[0] == Margins(old(lsfs[..]), ms, pi)
    ensures ok ==> Margins(lsfs[..], ms, pi) == run[|run| - 1]
    ensures ok <==> Spaced(lsfs[..], ms, pi)
    ensures Total(ms) > pi ==> !ok
    ensures !ok || Spaced(old(lsfs[..]), ms, pi) ==> lsfs[..] == old(lsfs[..])
    ensures forall sel: nat :: Coverable(run[0], sel) ==>
      ok && Mended(run[0], Margins(lsfs[..], ms, pi), sel, 0.0)
  {
    hide Margins, Total, Shifted, Spaced, AllPlaced, Gap, Mended, Coverable, Round, Rounds;
    ghost var f0 := lsfs[..];
    var dlsfs := InitialMargins(lsfs[..], ms, pi);
    MarginsTotal(f0, ms, pi);
    SpacedMargins(f0, ms, pi);
    PlacedRestores(f0, ms, pi);
    run, ok := [dlsfs[..]], false;
    FirstRun(dlsfs[..], MIN_DIST_EPS);
    var dm: real, minIx: nat := ArgMin(dlsfs[..]);
    if dm > 0.0 {
      SpacedNeedsRoom(lsfs[..], ms, pi);
      ok := true;
      forall sel: nat | Coverable(run[0], sel) ensures false { NotSpacedYet(run[0], sel); }
      return;
    }
    for k := 0 to MAX_ROUNDS
      invariant lsfs[..] == f0 && fresh(dlsfs) && dlsfs.Length == |ms| && Total(dlsfs[..]) == pi - Total(ms)
      invariant |run| == k + 1 && Rounds(run, MIN_DIST_EPS)
      invariant run[0] == Margins(f0, ms, pi) && run[|run| - 1] == dlsfs[..]
      invariant Lowest(dlsfs[..], minIx) && dm == dlsfs[minIx]
      invariant (k == 0 ==> dm <= 0.0 && (dm >= 0.0 <==> NonNegative(run[0]))) && (k > 0 ==> !NonNegative(run[0]))
      invariant forall n :: 1 <= n < |run| ==> !NonNegative(run[n])
    {
      var delta := k as real * MIN_DIST_EPS - dm;
      NoShift(dlsfs[..], minIx, delta);
      ShiftIsRound(dlsfs[..], minIx, Steps(k, MIN_DIST_EPS));
      Shift(dlsfs, minIx, delta);
      RoundsGrow(run, MIN_DIST_EPS, dlsfs[..]);
      run := run + [dlsfs[..]];
      dm, minIx := ArgMin(dlsfs[..]);
      if dm >= 0.0 {
        Place(lsfs, dlsfs[..], ms);
        SettledSpaced(lsfs[..], dlsfs[..], ms, pi);
        SpacedNeedsRoom(lsfs[..], ms, pi);
        ok := true;
        forall sel: nat | Coverable(run[0], sel) ensures Mended(run[0], run[|run| - 1], sel, 0.0) {
          OneRoundEnough(run, MIN_DIST_EPS, true, sel);
        }
        return;
      }
    }
    forall sel: nat | Coverable(run[0], sel) ensures false { OneRoundEnough(run, MIN_DIST_EPS, false, sel); }
  }

  lemma NoShift(m: seq<real>, sel: nat, d: real)
    requires sel < |m| && |m| >= 2
    ensures d == 0.0 ==> Shifted(m, sel, d) == m
  {}
}
