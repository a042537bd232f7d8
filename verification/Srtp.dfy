/** SRTP packet indices across sequence wraps, counter-mode payloads, and what a session preserves. */
module Srtp {
  import opened Bytes
  import opened RangeCoder
  import opened Rtp

  const W16 := 0x1_0000
  const W48 := 0x1_0000_0000_0000

  // ----- bytes under exclusive or -----

  /** Exclusive or of the low n bits. */
  function XorBits(a: nat, b: nat, n: nat): nat {
    if n == 0 then 0 else (a % 2 + b % 2) % 2 + 2 * XorBits(a / 2, b / 2, n - 1)
  }

  lemma {:induction false} XorUndone(a: nat, b: nat, n: nat)
    requires a < Pow2(n)
    ensures XorBits(a, b, n) < Pow2(n) && XorBits(XorBits(a, b, n), b, n) == a
  {
    hide LowXor;
    if n > 0 {
      XorUndone(a / 2, b / 2, n - 1);
      var t, r := XorBits(a / 2, b / 2, n - 1), LowXor(a % 2, b % 2);
      XorStep(a, b, n);
      HalfOf(r, t);
      XorStep(r + 2 * t, b, n);
      BitUndone(a % 2, b % 2);
    }
  }

  function LowXor(p: nat, q: nat): (r: nat)
    ensures r < 2
  {
    (p + q) % 2
  }

  lemma XorStep(a: nat, b: nat, n: nat)
    requires n > 0
    ensures XorBits(a, b, n) == LowXor(a % 2, b % 2) + 2 * XorBits(a / 2, b / 2, n - 1)
  {}

  lemma HalfOf(r: nat, t: nat)
    requires r < 2
    ensures (r + 2 * t) / 2 == t && (r + 2 * t) % 2 == r
  {}

  lemma BitUndone(p: nat, q: nat)
    requires p < 2 && q < 2
    ensures LowXor(LowXor(p, q), q) == p
  {}

  function Xor(a: byte, b: byte): byte {
    XorFits(a, b);
    XorBits(a, b, 8)
  }

  lemma XorFits(a: byte, b: byte)
    ensures XorBits(a, b, 8) < 256 && XorBits(XorBits(a, b, 8), b, 8) == a
  {
    Pow2Values();
    XorUndone(a, b, 8);
  }

  function XorAll(a: seq<byte>, k: seq<byte>): (r: seq<byte>)
    requires |k| >= |a|
    ensures |r| == |a|
  {
    seq(|a|, i requires 0 <= i < |a| => Xor(a[i], k[i]))
  }

  /** Applying a keystream twice is the identity. */
  lemma XorAllUndone(a: seq<byte>, k: seq<byte>)
    requires |k| >= |a|
    ensures XorAll(XorAll(a, k), k) == a
  {
    forall i | 0 <= i < |a| ensures XorAll(XorAll(a, k), k)[i] == a[i] { XorFits(a[i], k[i]); }
  }

  // ----- the packet index -----

  /** Rollover count, last sequence number, and whether any packet was seen. */
  datatype Counter = Counter(roc: u32, lastSeq: u16, initialized: bool)

  function Next(c: Counter, s: u16): Counter {
    if !c.initialized then c.(lastSeq := s, initialized := true)
    else
      var diff := s as int - c.lastSeq as int;
      Counter(if diff < -32768 then Wrap32(c.roc as int + 1) else c.roc, s, true)
  }

  function Wrap32(x: nat): u32 { x % 0x1_0000_0000 }

  function Index(c: Counter, s: u16): (x: nat)
    ensures x < W48
  {
    c.roc as int * W16 + s as int
  }

  function SeqOf(index: nat): u16 { index % W16 }

  /** The counter stands exactly at packet index x. */
  predicate StandsAt(c: Counter, x: nat) { x < W48 && c == Counter(x / W16, SeqOf(x), true) }

  lemma IndexOf(c: Counter, x: nat)
    requires StandsAt(c, x)
    ensures Index(c, SeqOf(x)) == x
  {}

  /**
   From index a, a later packet b is placed at its own index exactly when it shares a's epoch or wraps into the next
   within 32767.
   */
  lemma StepExact(c: Counter, a: nat, b: nat)
    requires StandsAt(c, a) && a < b < W48
    ensures StandsAt(Next(c, SeqOf(b)), b) <==> Steps(a, b)
  {
    var ea, eb := a / W16, b / W16;
    assert b - a == (eb - ea) * W16 + (SeqOf(b) as int - SeqOf(a) as int);
    assert ea <= eb < 0x1_0000_0000;
    Epochs(ea, eb);
  }

  lemma Epochs(ea: nat, eb: nat)
    requires ea < 0x1_0000_0000 && eb < 0x1_0000_0000
    ensures Wrap32(ea) as int == ea && (ea + 1 < 0x1_0000_0000 ==> Wrap32(ea + 1) as int == ea + 1)
      && (ea + 1 == 0x1_0000_0000 ==> Wrap32(ea + 1) == 0)
  {}

  /** The first packet is placed at its own index exactly when it lies in the first epoch. */
  lemma FirstExact(x: nat)
    requires x < W48
    ensures StandsAt(Next(Counter(0, 0, false), SeqOf(x)), x) <==> x < W16
  {}

  // ----- runs -----

  /** The counter after the given packets, from a fresh context. */
  function After(xs: seq<nat>): Counter {
    if xs == [] then Counter(0, 0, false) else Next(After(xs[..|xs| - 1]), SeqOf(xs[|xs| - 1]))
  }

  predicate Increasing(xs: seq<nat>) {
    (forall i :: 0 <= i < |xs| ==> xs[i] < W48) && forall i :: 1 <= i < |xs| ==> xs[i - 1] < xs[i]
  }

  /** From index a to a later one: the same epoch, or into the next within 32767. */
  predicate Steps(a: nat, b: nat) { b / W16 == a / W16 || (b / W16 == a / W16 + 1 && b - a <= 32767) }

  /** Packet indices that a fresh receiver can follow: first epoch first, and every step one that places exactly. */
  predicate Followable(xs: seq<nat>) {
    (xs != [] ==> xs[0] < W16) && forall i :: 1 <= i < |xs| ==> Steps(xs[i - 1], xs[i])
  }

  /** After each packet of the run the counter stands at that packet's own index. */
  ghost predicate AllPlaced(xs: seq<nat>) { forall i :: 1 <= i <= |xs| ==> StandsAt(After(xs[..i]), xs[i - 1]) }

  lemma AfterSnoc(seen: seq<nat>, x: nat)
    ensures After(seen + [x]) == Next(After(seen), SeqOf(x))
  {
    assert (seen + [x])[..|seen|] == seen;
  }

  lemma PlacedSnoc(xs: seq<nat>, x: nat)
    ensures AllPlaced(xs + [x]) <==> AllPlaced(xs) && StandsAt(After(xs + [x]), x)
  {
    hide StandsAt, After;
    var ys := xs + [x];
    assert ys[..|ys|] == ys && forall i :: 1 <= i <= |xs| ==> ys[..i] == xs[..i];
  }

  lemma FollowableSnoc(xs: seq<nat>, x: nat)
    ensures Followable(xs + [x]) <==> Followable(xs) && if xs == [] then x < W16 else Steps(xs[|xs| - 1], x)
  {
    hide Steps;
    var ys := xs + [x];
    assert forall i :: 0 <= i < |xs| ==> ys[i] == xs[i];
    if Followable(ys) {
      forall i | 1 <= i < |xs| ensures Steps(xs[i - 1], xs[i]) { assert Steps(ys[i - 1], ys[i]); }
      if xs != [] { assert Steps(ys[|xs| - 1], ys[|xs|]); }
    }
    if Followable(xs) && if xs == [] then x < W16 else Steps(xs[|xs| - 1], x) {
      forall i | 1 <= i < |ys| ensures Steps(ys[i - 1], ys[i]) { if i < |xs| { assert Steps(xs[i - 1], xs[i]); } }
    }
  }

  /** Every packet of an increasing run is given its own index exactly when the run is followable. */
  lemma {:induction false} RunExact(xs: seq<nat>)
    requires Increasing(xs)
    ensures AllPlaced(xs) <==> Followable(xs)
  {
    if xs != [] {
      var k := |xs| - 1;
      var front, x := xs[..k], xs[k];
      assert xs == front + [x];
      RunExact(front);
      PlacedSnoc(front, x);
      FollowableSnoc(front, x);
      AfterSnoc(front, x);
      if k == 0 {
        FirstExact(x);
      } else {
        hide StandsAt, Steps, AllPlaced, Followable, After, Next, SeqOf;
        if AllPlaced(front) { LastPlaced(front); StepExact(After(front), front[k - 1], x); }
      }
    }
  }

  lemma LastPlaced(xs: seq<nat>)
    requires xs != [] && AllPlaced(xs)
    ensures StandsAt(After(xs), xs[|xs| - 1])
  {
    assert xs[..|xs|] == xs;
  }

  /** Every packet of a followable run is given its own index. */
  lemma RunIndices(xs: seq<nat>)
    requires Increasing(xs) && Followable(xs) && xs != []
    ensures StandsAt(After(xs), xs[|xs| - 1])
  {
    RunExact(xs);
    assert xs[..|xs|] == xs;
  }

  /** In-order arrival from the first epoch with no gap above 32767 is followable. */
  lemma SmallGapsFollowable(xs: seq<nat>)
    requires Increasing(xs) && (xs != [] ==> xs[0] < W16) && forall i :: 1 <= i < |xs| ==> xs[i] - xs[i - 1] <= 32767
    ensures Followable(xs)
  {
    forall i | 1 <= i < |xs| ensures Steps(xs[i - 1], xs[i]) { SmallGap(xs[i - 1], xs[i]); }
  }

  lemma SmallGap(a: nat, b: nat)
    requires a < b <= a + 32767
    ensures b / W16 == a / W16 || b / W16 == a / W16 + 1
  {}

  /** The sender's packets: consecutive indices from its first sequence number. */
  function Consecutive(s0: u16, n: nat): (xs: seq<nat>)
    ensures |xs| == n && forall i :: 0 <= i < n ==> xs[i] == s0 as int + i
  {
    seq(n, i requires 0 <= i < n => s0 as int + i)
  }

  /** The i-th packet sent has index s0 + i, through every wrap. */
  lemma SenderIndex(s0: u16, i: nat)
    requires s0 as int + i < W48
    ensures StandsAt(After(Consecutive(s0, i + 1)), s0 as int + i)
    ensures Index(After(Consecutive(s0, i + 1)), SeqOf(s0 as int + i)) == s0 as int + i
  {
    SmallGapsFollowable(Consecutive(s0, i + 1));
    RunIndices(Consecutive(s0, i + 1));
    IndexOf(After(Consecutive(s0, i + 1)), s0 as int + i);
  }

  // ----- initialisation vectors -----

  function Be48(x: nat): (b: seq<byte>)
    requires x < W48
    ensures |b| == 6
  {
    Be16(x / 0x1_0000_0000) + Be32(x % 0x1_0000_0000)
  }

  /** The salt, with the source id at byte 4 and the index at byte 8. */
  function Iv(salt: seq<byte>, ssrc: u32, index: nat): (iv: seq<byte>)
    requires |salt| == 14 && index < W48
    ensures |iv| == 16
  {
    salt[..4] + XorAll(salt[4..8], Be32(ssrc)) + XorAll(salt[8..14], Be48(index)) + [0, 0]
  }

  lemma {:induction false} XorSelf(a: nat, b: nat, n: nat)
    requires b < Pow2(n)
    ensures XorBits(XorBits(a, b, n), a, n) == b
  {
    XorCommutes(a, b, n);
    XorUndone(b, a, n);
  }

  lemma Be48Value(x: nat)
    requires x < W48
    ensures Value(Be48(x)) == x
  {
    var hi: u16, lo: u32 := x / 0x1_0000_0000, x % 0x1_0000_0000;
    Be16Value(hi);
    Be32Value(lo);
    hide Be16, Be32;
    ValueAppend(Be16(hi), Be32(lo));
    Pow2Values();
    assert Pow2(32) == 2 * Pow2(31);
  }

  /** Mixing a field into some salt bytes, and taking the salt out again, leaves the field. */
  lemma Unmixed(salt: seq<byte>, field: seq<byte>)
    requires |salt| == |field|
    ensures XorAll(XorAll(salt, field), salt) == field
  {
    Pow2Values();
    forall i | 0 <= i < |field| ensures XorAll(XorAll(salt, field), salt)[i] == field[i] {
      XorSelf(salt[i], field[i], 8);
    }
  }

  /**
   Section 4.1.1 of RFC 3711: with the salt, two zeros after it, taken out again, the vector is four zeros, the 32-bit
   source id, the 48-bit index, two zeros.
   */
  lemma IvLayout(salt: seq<byte>, ssrc: u32, index: nat)
    requires |salt| == 14 && index < W48
    ensures var d := XorAll(Iv(salt, ssrc, index), salt + [0, 0]);
      && d[..4] == [0, 0, 0, 0] && Value(d[4..8]) == ssrc && Value(d[8..14]) == index && d[14..] == [0, 0]
  {
    hide Xor, Be32, Be48, Value, XorAll;
    Be32Value(ssrc);
    Be48Value(index);
    Unmixed(salt[4..8], Be32(ssrc));
    Unmixed(salt[8..14], Be48(index));
    Apart(salt[..4]);
    Apart([0, 0]);
    FourParts(salt[..4], XorAll(salt[4..8], Be32(ssrc)), XorAll(salt[8..14], Be48(index)), [0, 0],
      salt[..4], salt[4..8], salt[8..14], [0, 0]);
    assert salt == salt[..4] + salt[4..8] + salt[8..14];
  }

  /** Mixing piece by piece. */
  lemma FourParts(a: seq<byte>, b: seq<byte>, c: seq<byte>, d: seq<byte>, a1: seq<byte>, b1: seq<byte>, c1: seq<byte>,
                  d1: seq<byte>)
    requires |a| == |a1| == 4 && |b| == |b1| == 4 && |c| == |c1| == 6 && |d| == |d1| == 2
    ensures var r := XorAll(a + b + c + d, a1 + b1 + c1 + d1);
      r[..4] == XorAll(a, a1) && r[4..8] == XorAll(b, b1) && r[8..14] == XorAll(c, c1) && r[14..] == XorAll(d, d1)
  {
    hide Xor;
  }

  lemma Apart(a: seq<byte>)
    ensures XorAll(a, a) == Repeat(0, |a|)
  {
    forall i | 0 <= i < |a| ensures XorAll(a, a)[i] == 0 { XorSame(a[i], 8); }
  }

  lemma {:induction false} XorSame(a: nat, n: nat)
    ensures XorBits(a, a, n) == 0
  {
    if n > 0 { XorSame(a / 2, n - 1); }
  }

  /** Every bit of an exclusive or is set exactly when the two bits differ. */
  lemma {:induction false} XorIsBits(a: nat, b: nat, n: nat, i: nat)
    requires i < n
    ensures XorBits(a, b, n) / Pow2(i) % 2 == 1 <==> a / Pow2(i) % 2 != b / Pow2(i) % 2
  {
    hide LowXor;
    var t := XorBits(a / 2, b / 2, n - 1);
    XorStep(a, b, n);
    HalfOf(LowXor(a % 2, b % 2), t);
    if i == 0 {
      LowDiffers(a % 2, b % 2);
    } else {
      XorIsBits(a / 2, b / 2, n - 1, i - 1);
      Halved(a, i);
      Halved(b, i);
      Halved(XorBits(a, b, n), i);
    }
  }

  lemma LowDiffers(p: nat, q: nat)
    requires p < 2 && q < 2
    ensures LowXor(p, q) == 1 <==> p != q
  {}

  lemma Halved(x: nat, i: nat)
    requires i > 0
    ensures x / Pow2(i) == x / 2 / Pow2(i - 1)
  {
    var p := Pow2(i - 1);
    var q, r := x / 2 / p, x / 2 % p;
    assert x == 2 * (q * p + r) + x % 2;
    assert q * (2 * p) == 2 * (q * p);
    ModUnique(x, q, 2 * r + x % 2, 2 * p);
  }

  lemma {:induction false} XorCommutes(a: nat, b: nat, n: nat)
    ensures XorBits(a, b, n) == XorBits(b, a, n)
  {
    if n > 0 { XorCommutes(a / 2, b / 2, n - 1); }
  }

  /** Packets that differ in source or index never share an initialisation vector under one salt. */
  lemma IvDistinct(salt: seq<byte>, ssrc: u32, x: nat, other: u32, y: nat)
    requires |salt| == 14 && x < W48 && y < W48 && (ssrc, x) != (other, y)
    ensures Iv(salt, ssrc, x) != Iv(salt, other, y)
  {
    IvLayout(salt, ssrc, x);
    IvLayout(salt, other, y);
    hide Iv, XorAll, Value;
  }

  /** Any two packets of one sending run use different initialisation vectors. */
  lemma RunIvsDistinct(salt: seq<byte>, ssrc: u32, s0: u16, i: nat, j: nat)
    requires |salt| == 14 && i < j && s0 as int + j < W48
    ensures var ci, cj := After(Consecutive(s0, i + 1)), After(Consecutive(s0, j + 1));
      var xi, xj := Index(ci, SeqOf(s0 as int + i)), Index(cj, SeqOf(s0 as int + j));
      xi < W48 && xj < W48 && Iv(salt, ssrc, xi) != Iv(salt, ssrc, xj)
  {
    SenderIndex(s0, i);
    SenderIndex(s0, j);
    IvDistinct(salt, ssrc, s0 as int + i, ssrc, s0 as int + j);
  }

  // ----- protect and unprotect -----

  /** A counter-mode keystream: as many bytes as asked for, from a key and an initialisation vector. */
  type Keystream = (seq<byte>, seq<byte>, nat) -> seq<byte>

  ghost predicate LongEnough(ks: Keystream) { forall key, iv, n: nat :: |ks(key, iv, n)| == n }

  /**
   Session key, salt and authentication tag length, with the tag as an uninterpreted function of the bytes and the
   rollover count.
   */
  datatype Keys = Keys(key: seq<byte>, salt: seq<byte>, tagLen: nat, tag: (seq<byte>, u32) -> seq<byte>)

  ghost predicate KeysOk(k: Keys) { |k.salt| == 14 && forall d, roc :: |k.tag(d, roc)| == k.tagLen }

  function Zeros(n: nat): (z: seq<byte>)
    ensures |z| == n
  {
    seq(n, i => 0)
  }

  /**
   The header as written into an empty packet, payload under the keystream, tag; an error where the header runs past the
   packet.
   */
  function Protected(k: Keys, ks: Keystream, p: RtpPacket, index: nat, roc: u32): Result<seq<byte>>
    requires KeysOk(k) && LongEnough(ks) && index < W48
  {
    match Placed(p.header, Zeros(Size(p.header) + |p.payload| + k.tagLen))
    case Wrote(b, _) =>
      var body := b[..Size(p.header)] + XorAll(p.payload, ks(k.key, Iv(k.salt, p.header.ssrc, index), |p.payload|));
      Ok(body + k.tag(body, roc))
    case _ => Err
  }

  lemma ZerosAre(z: seq<byte>)
    requires forall i :: 0 <= i < |z| ==> z[i] == 0
    ensures z == Zeros(|z|)
  {}

  /** A header that fits the wire is never an error, and stands unchanged at the front. */
  lemma ProtectedFits(k: Keys, ks: Keystream, p: RtpPacket, index: nat, roc: u32)
    requires KeysOk(k) && LongEnough(ks) && index < W48 && HeaderOk(p.header)
    ensures var body := Rtp.Encoded(p.header) + XorAll(p.payload,
      ks(k.key, Iv(k.salt, p.header.ssrc, index), |p.payload|));
      Protected(k, ks, p, index, roc) == Ok(body + k.tag(body, roc))
  {
    var b := Zeros(Size(p.header) + |p.payload| + k.tagLen);
    FittingPlaced(p.header, b);
    OkShape(p.header);
    hide Encoded, HeaderOk, Placed, Zeros, Iv, XorAll;
    assert (Rtp.Encoded(p.header) + b[Size(p.header)..])[..Size(p.header)] == Rtp.Encoded(p.header);
  }

  /** The tag closes the packet and covers every byte before it. */
  lemma TagCoversPacket(k: Keys, ks: Keystream, p: RtpPacket, index: nat, roc: u32)
    requires KeysOk(k) && LongEnough(ks) && index < W48 && Protected(k, ks, p, index, roc).Ok?
    ensures var b := Protected(k, ks, p, index, roc).value;
      |b| >= k.tagLen && b[|b| - k.tagLen..] == k.tag(b[..|b| - k.tagLen], roc)
  {
    hide Iv, Encoded, Zeros;
    var b := Placed(p.header, Zeros(Size(p.header) + |p.payload| + k.tagLen)).buf;
    var body := b[..Size(p.header)] + XorAll(p.payload, ks(k.key, Iv(k.salt, p.header.ssrc, index), |p.payload|));
    assert (body + k.tag(body, roc))[..|body|] == body;
  }

  datatype Received = Packet(p: RtpPacket) | TooShort | BadHeader

  /**
   What a receiver makes of some bytes, and its counter after them: short or malformed data leaves the counter alone.
   */
  function Opened(k: Keys, ks: Keystream, c: Counter, data: seq<byte>): (r: (Received, Counter))
    requires KeysOk(k) && LongEnough(ks)
  {
    if |data| < 12 then (TooShort, c)
    else
      var h := Rtp.Decoded(data);
      if h.Err? then (BadHeader, c)
      else
        var hs := Size(h.value);
        var n := |data| - hs - k.tagLen;
        if n <= 0 then (TooShort, c)
        else
          var c1 := Next(c, h.value.sequenceNumber);
          var iv := Iv(k.salt, h.value.ssrc, Index(c1, h.value.sequenceNumber));
          (Packet(RtpPacket(h.value, XorAll(data[hs..hs + n], ks(k.key, iv, n)))), c1)
  }

  /**
   A packet opened at the index it was protected with comes back whole, unless its payload is empty: then it is refused.
   */
  lemma OpenProtected(k: Keys, ks: Keystream, c: Counter, p: RtpPacket, index: nat, roc: u32)
    requires KeysOk(k) && LongEnough(ks) && HeaderOk(p.header) && index < W48
    requires Index(Next(c, p.header.sequenceNumber), p.header.sequenceNumber) == index
    ensures Protected(k, ks, p, index, roc).Ok?
    ensures Opened(k, ks, c, Protected(k, ks, p, index, roc).value)
         == if p.payload == [] then (TooShort, c) else (Packet(p), Next(c, p.header.sequenceNumber))
  {
    hide Encoded, Decoded, Next, Index, Iv, HeaderOk, Protected;
    OkShape(p.header);
    ProtectedFits(k, ks, p, index, roc);
    var stream := ks(k.key, Iv(k.salt, p.header.ssrc, index), |p.payload|);
    var cipher := XorAll(p.payload, stream);
    var head := Rtp.Encoded(p.header);
    var tag := k.tag(head + cipher, roc);
    var data := head + cipher + tag;
    HeaderBack(p.header, cipher + tag);
    assert data == head + (cipher + tag);
    assert data[|head|..|head| + |cipher|] == cipher;
    XorAllUndone(p.payload, stream);
  }

  lemma OkShape(h: RtpHeader)
    requires HeaderOk(h)
    ensures |h.csrc| == h.csrcCount as int && Size(h) >= 12
  {}

  /**
   A sender at its i-th packet and a receiver that has seen any followable part of the run before it agree: the receiver
   recovers every header and non-empty payload.
   */
  lemma SessionRecovers(k: Keys, ks: Keystream, s0: u16, i: nat, seen: seq<nat>, p: RtpPacket)
    requires KeysOk(k) && LongEnough(ks) && HeaderOk(p.header) && p.payload != [] && s0 as int + i < W48
    requires p.header.sequenceNumber == SeqOf(s0 as int + i)
    requires Increasing(seen + [s0 as int + i]) && Followable(seen + [s0 as int + i])
    ensures var sender := After(Consecutive(s0, i + 1)); var index := Index(sender, p.header.sequenceNumber);
      && index == s0 as int + i
      && Protected(k, ks, p, index, sender.roc).Ok?
      && Opened(k, ks, After(seen), Protected(k, ks, p, index, sender.roc).value) ==
        (Packet(p), After(seen + [s0 as int + i]))
  {
    hide Opened, Protected, Next, Index, StandsAt, Followable, Increasing, HeaderOk, SeqOf;
    var x := s0 as int + i;
    SenderIndex(s0, i);
    RunIndices(seen + [x]);
    AfterSnoc(seen, x);
    OkShape(p.header);
    RecoveredAt(k, ks, After(seen), After(seen + [x]), p, x, After(Consecutive(s0, i + 1)).roc);
  }

  /** A receiver whose counter moves to the packet's own index recovers it. */
  lemma RecoveredAt(k: Keys, ks: Keystream, before: Counter, after: Counter, p: RtpPacket, x: nat, roc: u32)
    requires KeysOk(k) && LongEnough(ks) && HeaderOk(p.header) && p.payload != [] && x < W48
    requires p.header.sequenceNumber == SeqOf(x) && after == Next(before, SeqOf(x)) && StandsAt(after, x)
    ensures Protected(k, ks, p, x, roc).Ok?
    ensures Opened(k, ks, before, Protected(k, ks, p, x, roc).value) == (Packet(p), after)
  {
    OkShape(p.header);
    IndexOf(after, x);
    hide Opened, Protected, Next, Index, StandsAt, HeaderOk, SeqOf;
    OpenProtected(k, ks, before, p, x, roc);
  }

  // ----- the context object -----

  class SrtpContext {
    const keys: Keys
    var roc: u32
    var lastSeq: u16
    var initialized: bool

    function State(): Counter
      reads this
    {
      Counter(roc, lastSeq, initialized)
    }

    constructor (keys: Keys)
      ensures this.keys == keys && State() == Counter(0, 0, false)
    {
      this.keys := keys;
      roc, lastSeq, initialized := 0, 0, false;
    }

    method UpdateRoc(s: u16)
      modifies this
      ensures State() == Next(old(State()), s)
    {
      if !initialized {
        lastSeq := s;
        initialized := true;
        return;
      }
      var diff := s as int - lastSeq as int;
      if diff < -32768 {
        roc := Wrap32(roc as int + 1);
      }
      lastSeq := s;
    }

    /** Numbers the packet even when its header then runs past the packet. */
    method Protect(p: RtpPacket, ks: Keystream) returns (r: Result<seq<byte>>)
      requires KeysOk(keys) && LongEnough(ks)
      modifies this
      ensures State() == Next(old(State()), p.header.sequenceNumber)
      ensures r == Protected(keys, ks, p, Index(State(), p.header.sequenceNumber), roc)
    {
      hide Placed, Iv, XorAll, Next, Index, Zeros;
      UpdateRoc(p.header.sequenceNumber);
      var index := Index(State(), p.header.sequenceNumber);
      var headerSize := Size(p.header);
      var n := |p.payload|;
      var output := new byte[headerSize + n + keys.tagLen](_ => 0);
      ZerosAre(output[..]);
      var enc := Rtp.Encode(p.header, output);
      if !enc.Wrote? {
        return Err;
      }
      ghost var head := output[..headerSize];
      var cipher := XorAll(p.payload, ks(keys.key, Iv(keys.salt, p.header.ssrc, index), n));
      Put(output, headerSize, cipher);
      var body := output[..headerSize + n];
      assert body == head + cipher;
      var tag := keys.tag(body, roc);
      Put(output, headerSize + n, tag);
      assert output[..] == body + tag;
      r := Ok(output[..]);
    }

    method Unprotect(data: seq<byte>, ks: Keystream) returns (r: Received)
      requires KeysOk(keys) && LongEnough(ks)
      modifies this
      ensures (r, State()) == Opened(keys, ks, old(State()), data)
    {
      hide Decoded, HeaderOk, Iv, Next, Index, XorAll;
      if |data| < 12 {
        return TooShort;
      }
      var h := DecodeHeader(data);
      if h.Err? {
        return BadHeader;
      }
      var headerSize := Size(h.value);
      var payloadLen := |data| - headerSize - keys.tagLen;
      if payloadLen <= 0 {
        return TooShort;
      }
      UpdateRoc(h.value.sequenceNumber);
      var index := Index(State(), h.value.sequenceNumber);
      var iv := Iv(keys.salt, h.value.ssrc, index);
      r := Packet(RtpPacket(h.value, XorAll(data[headerSize..headerSize + payloadLen], ks(keys.key, iv, payloadLen))));
    }
  }
}
