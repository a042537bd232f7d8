/** Sign words: fifteen signs to a raw symbol, most significant first. */
module PulseSigns {
  import opened Bytes
  import opened RangeSpec
  import opened RangeProof
  import opened Symbols
  import opened PulseBlock

  const BATCH := 15

  /** Most significant first. */
  function ToInt(bits: seq<bool>): (x: nat)
    ensures x < Pow2(|bits|)
  {
    if bits == [] then 0 else 2 * ToInt(bits[..|bits| - 1]) + if bits[|bits| - 1] then 1 else 0
  }

  function BitAt(sym: nat, nbits: nat, q: nat): bool
    requires q < nbits
  {
    sym / Pow2(nbits - 1 - q) % 2 == 1
  }

  function ToBits(sym: nat, nbits: nat): (b: seq<bool>)
    ensures |b| == nbits
  {
    seq(nbits, q requires 0 <= q < nbits => BitAt(sym, nbits, q))
  }

  lemma DivHalves(x: nat, p: nat)
    requires p > 0
    ensures x / (2 * p) == x / 2 / p
  {
    var q, r := x / (2 * p), x % (2 * p);
    assert x == q * (2 * p) + r;
    assert x / 2 == q * p + r / 2;
    ModUnique(x / 2, q, r / 2, p);
  }

  lemma {:induction false} ToBitsOfToInt(bits: seq<bool>)
    ensures ToBits(ToInt(bits), |bits|) == bits
  {
    hide ToInt, BitAt;
    var n := |bits|;
    if n > 0 {
      var x, front := ToInt(bits), bits[..n - 1];
      ToBitsOfToInt(front);
      LastBit(bits);
      forall q | 0 <= q < n ensures ToBits(x, n)[q] == bits[q] {
        if q < n - 1 {
          BitOfHalf(x, n, q);
          assert ToBits(ToInt(front), n - 1)[q] == front[q];
        }
      }
    }
  }

  /** The last bit is the lowest one; the others are those of half the number. */
  lemma LastBit(bits: seq<bool>)
    requires bits != []
    ensures var x, n := ToInt(bits), |bits|; x / 2 == ToInt(bits[..n - 1]) && BitAt(x, n, n - 1) == bits[n - 1]
  {
    assert Pow2(0) == 1;
  }

  lemma BitOfHalf(x: nat, n: nat, q: nat)
    requires q < n - 1
    ensures BitAt(x, n, q) == BitAt(x / 2, n - 1, q)
  {
    DivHalves(x, Pow2(n - 2 - q));
  }

  lemma {:induction false} ToIntOfToBits(sym: nat, n: nat)
    requires sym < Pow2(n)
    ensures ToInt(ToBits(sym, n)) == sym
  {
    if n > 0 {
      ToIntOfToBits(sym / 2, n - 1);
      var b := ToBits(sym, n);
      assert b[..n - 1] == ToBits(sym / 2, n - 1) by {
        forall q | 0 <= q < n - 1 ensures b[q] == BitAt(sym / 2, n - 1, q) {
          DivHalves(sym, Pow2(n - 2 - q));
        }
      }
    }
  }

  // ----- words -----

  function WordCount(n: nat): nat { (n + 14) / 15 }

  /** Bits in word j of n signs. */
  function WordSize(n: nat, j: nat): (s: nat)
    requires j < WordCount(n)
    ensures 1 <= s <= BATCH && BATCH * j + s <= n
    ensures j < WordCount(n) - 1 ==> s == BATCH
    ensures j == WordCount(n) - 1 ==> BATCH * j + s == n
  {
    if n - BATCH * j >= BATCH then BATCH else n - BATCH * j
  }

  /** The sign words of n positions have the batch sizes the decoder expects. */
  predicate WordsOk(words: seq<RawSym>, n: nat) {
    && |words| == WordCount(n)
    && forall j :: 0 <= j < |words| ==> words[j].nbits == WordSize(n, j) && words[j].sym < Pow2(words[j].nbits)
  }

  function WordAt(signs: seq<bool>, j: nat): (w: RawSym)
    requires j < WordCount(|signs|)
    ensures w.nbits == WordSize(|signs|, j) && w.sym < Pow2(w.nbits)
  {
    var nb := WordSize(|signs|, j);
    RawSym(ToInt(signs[BATCH * j..BATCH * j + nb]), nb)
  }

  function WordsOf(signs: seq<bool>): (w: seq<RawSym>)
    ensures WordsOk(w, |signs|)
  {
    seq(WordCount(|signs|), j requires 0 <= j < WordCount(|signs|) => WordAt(signs, j))
  }

  /** The signs spelled by the first k words. */
  function Spelled(words: seq<RawSym>, k: nat): seq<bool>
    requires k <= |words|
  {
    if k == 0 then [] else Spelled(words, k - 1) + ToBits(words[k - 1].sym, words[k - 1].nbits)
  }

  lemma {:induction false} SpelledSize(words: seq<RawSym>, n: nat, k: nat)
    requires WordsOk(words, n) && k <= |words|
    ensures |Spelled(words, k)| == (if k == WordCount(n) then n else BATCH * k)
  {
    if k > 0 { SpelledSize(words, n, k - 1); }
  }

  lemma NothingSpelled(words: seq<RawSym>)
    ensures Spelled(words, 0) == []
  {}

  lemma WordsOfAt(signs: seq<bool>, j: nat)
    requires j < WordCount(|signs|)
    ensures var nb := WordSize(|signs|, j);
      |WordsOf(signs)| == WordCount(|signs|) && WordsOf(signs)[j] == RawSym(ToInt(signs[BATCH * j..BATCH * j + nb]), nb)
  {}

  lemma {:induction false} SpelledOfWords(signs: seq<bool>, k: nat)
    requires k <= WordCount(|signs|)
    ensures Spelled(WordsOf(signs), k) == signs[..if k == WordCount(|signs|) then |signs| else BATCH * k]
  {
    hide ToBits, ToInt, WordsOf, WordsOk, WordSize, Spelled;
    if k == 0 {
      NothingSpelled(WordsOf(signs));
    } else {
      SpelledOfWords(signs, k - 1);
      var nb, lo := WordSize(|signs|, k - 1), BATCH * (k - 1);
      WordsOfAt(signs, k - 1);
      SpelledSnoc(WordsOf(signs), |signs|, k);
      WordEnds(WordsOf(signs), |signs|, k);
      ToBitsOfToInt(signs[lo..lo + nb]);
      assert signs[..lo + nb] == signs[..lo] + signs[lo..lo + nb];
    }
  }

  /** The words restore every sign. */
  lemma SignsRestored(signs: seq<bool>)
    ensures Spelled(WordsOf(signs), |WordsOf(signs)|) == signs
  {
    SpelledOfWords(signs, WordCount(|signs|));
    assert signs[..|signs|] == signs;
  }

  /** Word k - 1 ends where the first k words end. */
  lemma WordEnds(words: seq<RawSym>, n: nat, k: nat)
    requires WordsOk(words, n) && 0 < k <= |words|
    ensures words[k - 1].nbits == WordSize(n, k - 1)
      && BATCH * (k - 1) + WordSize(n, k - 1) == if k == WordCount(n) then n else BATCH * k
  {}

  lemma SpelledSnoc(words: seq<RawSym>, n: nat, k: nat)
    requires WordsOk(words, n) && 0 < k <= |words|
    ensures |words| == WordCount(n) && k - 1 < WordCount(n)
    ensures Spelled(words, k) == Spelled(words, k - 1) + ToBits(words[k - 1].sym, words[k - 1].nbits)
    ensures |ToBits(words[k - 1].sym, words[k - 1].nbits)| == WordSize(n, k - 1)
    ensures k - 1 < WordCount(n) - 1 ==> k != WordCount(n)
  {}

  lemma SlicesOf(a: seq<bool>, b: seq<bool>, lo: nat, hi: nat)
    requires lo <= hi
    ensures hi <= |a| ==> (a + b)[lo..hi] == a[lo..hi]
    ensures lo == |a| && hi == |a| + |b| ==> (a + b)[lo..hi] == b
  {}

  /** Every earlier word ends before the last one starts. */
  lemma WordBefore(words: seq<RawSym>, n: nat, k: nat, j: nat)
    requires WordsOk(words, n) && j + 1 < k <= |words|
    ensures BATCH * j + WordSize(n, j) <= BATCH * (k - 1)
  {}

  lemma {:induction false} SpelledSlice(words: seq<RawSym>, n: nat, k: nat, j: nat)
    requires WordsOk(words, n) && j < k <= |words|
    ensures |Spelled(words, k)| == (if k == WordCount(n) then n else BATCH * k)
    ensures Spelled(words, k)[BATCH * j..BATCH * j + WordSize(n, j)] == ToBits(words[j].sym, words[j].nbits)
  {
    hide ToBits, WordsOk, WordSize, Spelled;
    SpelledSize(words, n, k);
    SpelledSize(words, n, k - 1);
    WordEnds(words, n, k);
    SpelledSnoc(words, n, k);
    if j < k - 1 {
      SpelledSlice(words, n, k - 1, j);
      WordBefore(words, n, k, j);
    }
    SlicesOf(Spelled(words, k - 1), ToBits(words[k - 1].sym, words[k - 1].nbits), BATCH * j,
      BATCH * j + WordSize(n, j));
  }

  /** Re-encoding the signs that words spell gives the words back. */
  lemma WordsRestored(words: seq<RawSym>, n: nat)
    requires WordsOk(words, n)
    ensures |Spelled(words, |words|)| == n && WordsOf(Spelled(words, |words|)) == words
  {
    SpelledSize(words, n, |words|);
    var signs := Spelled(words, |words|);
    forall j | 0 <= j < |words| ensures WordsOf(signs)[j] == words[j] {
      SpelledSlice(words, n, |words|, j);
      ToIntOfToBits(words[j].sym, words[j].nbits);
      hide ToBits, ToInt, Pow2;
      assert WordAt(signs, j) == words[j];
    }
  }

  // ----- on the wire -----

  function SignScript(words: seq<RawSym>, n: nat, k: nat): (s: Script)
    requires WordsOk(words, n) && k <= |words|
    ensures Sound(s)
  {
    if k == 0 then Nothing else Then(SignScript(words, n, k - 1), One(RawOp(words[k - 1].sym, words[k - 1].nbits)))
  }

  /** The first k sign words of n positions. */
  function ReadSigns(d: DecState, n: nat, k: nat): (r: (seq<RawSym>, DecState))
    requires k <= WordCount(n) && DecInv(d)
    ensures |r.0| == k && DecInv(r.1)
    ensures forall j :: 0 <= j < k ==> r.0[j].nbits == WordSize(n, j) && r.0[j].sym < Pow2(r.0[j].nbits)
  {
    if k == 0 then ([], d)
    else
      var (words, d1) := ReadSigns(d, n, k - 1);
      var nb := WordSize(n, k - 1);
      var (sym, d2) := ReadRaw(d1, nb);
      (words + [RawSym(sym, nb)], d2)
  }

  lemma NoSigns(d: DecState, words: seq<RawSym>, n: nat)
    requires WordsOk(words, n) && DecInv(d)
    ensures ReadSigns(d, n, 0) == (words[..0], d) && SignScript(words, n, 0) == Nothing
  {}

  lemma WordIs(words: seq<RawSym>, n: nat, k: nat)
    requires WordsOk(words, n) && 0 < k <= |words|
    ensures |words| == WordCount(n) && words[k - 1].nbits == WordSize(n, k - 1)
    ensures 1 <= words[k - 1].nbits <= 23 && words[k - 1].sym < Pow2(words[k - 1].nbits)
  {}

  lemma {:induction false} ReadSignsBack(d: DecState, words: seq<RawSym>, n: nat, k: nat)
    requires WordsOk(words, n) && k <= |words| && DecInv(d) && Holds(d, SignScript(words, n, k))
    ensures ReadSigns(d, n, k) == (words[..k], Past(d, SignScript(words, n, k)))
  {
    hide ReadRaw, RawOp, Reads, AfterOp, WordsOk, WordSize, Holds, Past;
    if k == 0 {
      HoldsNothing(d);
      NoSigns(d, words, n);
    } else {
      WordIs(words, n, k);
      var op := RawOp(words[k - 1].sym, words[k - 1].nbits);
      HoldsThen(d, SignScript(words, n, k - 1), One(op));
      var d1 := Past(d, SignScript(words, n, k - 1));
      HoldsOne(d1, op);
      ReadSignsBack(d, words, n, k - 1);
      ReadRawBack(d1, words[k - 1].sym, words[k - 1].nbits);
      assert words[..k] == words[..k - 1] + [words[k - 1]];
    }
  }

  lemma {:induction false} ReadSignsSound(d: DecState, n: nat, k: nat, all: seq<RawSym>)
    requires WordsOk(all, n) && k <= WordCount(n) && DecInv(d) && all[..k] == ReadSigns(d, n, k).0
    ensures Holds(d, SignScript(all, n, k)) && ReadSigns(d, n, k).1 == Past(d, SignScript(all, n, k))
  {
    hide ReadRaw, RawOp, Reads, AfterOp, Holds, Past;
    if k == 0 {
      HoldsNothing(d);
    } else {
      var (words, d1) := ReadSigns(d, n, k - 1);
      var nb := WordSize(n, k - 1);
      var sym := ReadRaw(d1, nb).0;
      assert all[..k] == words + [RawSym(sym, nb)];
      assert all[..k - 1] == words && all[k - 1] == RawSym(sym, nb);
      ReadSignsSound(d, n, k - 1, all);
      HoldsOne(d1, RawOp(sym, nb));
      HoldsThen(d, SignScript(all, n, k - 1), One(RawOp(sym, nb)));
    }
  }
}
