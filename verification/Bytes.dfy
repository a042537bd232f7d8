/** Bytes, big-endian values of byte strings, and powers of two. */
module Bytes {
  type byte = x: int | 0 <= x < 256
  type u16 = x: int | 0 <= x < 0x1_0000

  /** Big-endian value of a byte string. */
  function Value(s: seq<byte>): nat {
    if s == [] then 0 else Value(s[..|s| - 1]) * 256 + s[|s| - 1]
  }

  lemma ValueSnoc(s: seq<byte>, b: byte)
    ensures Value(s + [b]) == Value(s) * 256 + b
  {
    assert (s + [b])[..|s|] == s;
  }

  /** Of two strings in a row, the first counts in units of all that the second can hold. */
  lemma {:induction false} ValueAppend(a: seq<byte>, b: seq<byte>)
    ensures Value(a + b) == Value(a) * Pow2(8 * |b|) + Value(b)
  {
    if b == [] {
      assert a + b == a;
    } else {
      var n := |b| - 1;
      ValueAppend(a, b[..n]);
      assert a + b == (a + b[..n]) + [b[n]];
      ValueSnoc(a + b[..n], b[n]);
      EightMore(8 * n);
      Regrouped(Value(a), Pow2(8 * n), Value(b[..n]), b[n]);
    }
  }

  lemma EightMore(n: nat)
    ensures Pow2(n + 8) == Pow2(n) * 256
  {
    assert Pow2(n + 2) == 4 * Pow2(n);
    assert Pow2(n + 4) == 4 * Pow2(n + 2);
    assert Pow2(n + 6) == 4 * Pow2(n + 4);
  }

  lemma Regrouped(v: nat, p: nat, w: nat, d: nat)
    ensures (v * p + w) * 256 + d == v * (p * 256) + (w * 256 + d)
  {}

  /** The byte at index i, reading zeros past the end. */
  function ByteAt(s: seq<byte>, i: nat): byte {
    if i < |s| then s[i] else 0
  }

  /** Value of the first n bytes of s, zero-extended. */
  function Prefix(s: seq<byte>, n: nat): nat {
    if n == 0 then 0 else Prefix(s, n - 1) * 256 + ByteAt(s, n - 1)
  }

  lemma {:induction false} PrefixIsValue(s: seq<byte>, t: seq<byte>, n: nat)
    requires n <= |s|
    ensures Prefix(s + t, n) == Value(s[..n])
  {
    if n > 0 {
      PrefixIsValue(s, t, n - 1);
      assert s[..n] == s[..n - 1] + [s[n - 1]];
      ValueSnoc(s[..n - 1], s[n - 1]);
    }
  }

  function Repeat<T>(x: T, n: nat): (s: seq<T>)
    ensures |s| == n && forall i :: 0 <= i < n ==> s[i] == x
  {
    seq(n, _ => x)
  }

  function Pow2(n: nat): (p: nat)
    ensures p > 0
  {
    if n == 0 then 1 else 2 * Pow2(n - 1)
  }

  lemma {:induction false} Pow2Values()
    ensures Pow2(4) == 16 && Pow2(8) == 0x100 && Pow2(15) == 0x8000 && Pow2(16) == 0x1_0000
    ensures Pow2(23) == 0x80_0000 && Pow2(31) == 0x8000_0000
  {
    assert Pow2(8) == 16 * Pow2(4);
    assert Pow2(15) == 128 * Pow2(8) by { assert Pow2(15) == 8 * Pow2(12) == 128 * Pow2(8); }
    assert Pow2(23) == 0x100 * Pow2(15) by { assert Pow2(23) == 16 * Pow2(19); }
    assert Pow2(31) == 0x100 * Pow2(23) by { assert Pow2(31) == 16 * Pow2(27); }
  }

  lemma MultipleMod(k: nat, m: nat)
    requires m > 0
    ensures k * m % m == 0
  {
    if k > 0 {
      MultipleMod(k - 1, m);
      assert k * m == (k - 1) * m + m;
      ModPlus((k - 1) * m, m);
    }
  }

  lemma ModPlus(x: nat, m: nat)
    requires m > 0
    ensures (x + m) % m == x % m
  {
    var q := x / m;
    assert x + m == (q + 1) * m + x % m;
    ModUnique(x + m, q + 1, x % m, m);
  }

  lemma SignOfMultiple(d: int, m: int)
    requires m > 0
    ensures d >= 1 ==> d * m >= m
    ensures d <= -1 ==> d * m <= -m
  {}

  lemma ModUnique(x: int, q: int, r: int, m: int)
    requires 0 <= r < m && x == q * m + r
    ensures x / m == q && x % m == r
  {
    var d := x / m - q;
    assert d * m == r - x % m;
    SignOfMultiple(d, m);
  }

  /** A factor between 0 and 1 keeps an error within its bound. */
  lemma UnitScaled(q: real, e: real, err: real)
    requires 0.0 <= q <= 1.0 && -err <= e <= err
    ensures -err <= q * e <= err
  {
    NonNegativeProduct(q, err - e);
    NonNegativeProduct(q, err + e);
    NonNegativeProduct(1.0 - q, err);
    assert q * (err - e) == q * err - q * e;
    assert q * (err + e) == q * err + q * e;
    assert (1.0 - q) * err == err - q * err;
  }

  lemma NonNegativeProduct(a: real, b: real)
    requires a >= 0.0 && b >= 0.0
    ensures a * b >= 0.0
  {}
}
