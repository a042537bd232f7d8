/** RTP headers as bytes, and the packet numbering of a session. */
module Rtp {
  import opened Bytes
  import opened RangeCoder

  datatype RtpHeader = RtpHeader(
    version: byte, padding: bool, extension: bool, csrcCount: byte, marker: bool, payloadType: byte,
    sequenceNumber: u16, timestamp: u32, ssrc: u32, csrc: seq<u32>, extensionProfile: u16, extensionData: seq<byte>)

  datatype Result<T> = Ok(value: T) | Err

  // ----- big-endian fields -----

  function Be16(x: u16): (b: seq<byte>)
    ensures |b| == 2
  {
    [x / 0x100, x % 0x100]
  }

  function Be32(x: u32): (b: seq<byte>)
    ensures |b| == 4
  {
    Be16(x / 0x1_0000) + Be16(x % 0x1_0000)
  }

  function Read16(b: seq<byte>, at: nat): u16
    requires at + 2 <= |b|
  {
    Join(b[at], b[at + 1], 0x100)
  }

  function Read32(b: seq<byte>, at: nat): u32
    requires at + 4 <= |b|
  {
    Join(Read16(b, at), Read16(b, at + 2), 0x1_0000)
  }

  function Join(hi: nat, lo: nat, unit: nat): nat { hi * unit + lo }

  lemma Read16Back(a: seq<byte>, x: u16, c: seq<byte>)
    ensures Read16(a + Be16(x) + c, |a|) == x
  {}

  lemma Read32Back(a: seq<byte>, x: u32, c: seq<byte>)
    ensures Read32(a + Be32(x) + c, |a|) == x
  {
    var hi: u16, lo: u16 := x / 0x1_0000, x % 0x1_0000;
    Halves(x);
    hide Be16, Read16;
    var b := a + Be32(x) + c;
    assert b == a + Be16(hi) + (Be16(lo) + c) == (a + Be16(hi)) + Be16(lo) + c;
    Read16Back(a, hi, Be16(lo) + c);
    Read16Back(a + Be16(hi), lo, c);
  }

  lemma Halves(x: u32)
    ensures Join(x / 0x1_0000, x % 0x1_0000, 0x1_0000) == x
  {}

  /** Fields are big-endian. */
  lemma Be16Value(x: u16)
    ensures Value(Be16(x)) == x
  {
    assert Be16(x) == [] + [x / 0x100] + [x % 0x100];
    ValueSnoc([], x / 0x100);
    ValueSnoc([] + [x / 0x100], x % 0x100);
  }

  lemma Be32Value(x: u32)
    ensures Value(Be32(x)) == x
  {
    var hi: u16, lo: u16 := x / 0x1_0000, x % 0x1_0000;
    hide Be16;
    Be16Value(hi);
    Be16Value(lo);
    ValueAppend(Be16(hi), Be16(lo));
    Pow2Values();
  }

  lemma Read16Value(b: seq<byte>, at: nat)
    requires at + 2 <= |b|
    ensures Read16(b, at) == Value(b[at..at + 2])
  {
    assert b[at..at + 2] == [] + [b[at]] + [b[at + 1]];
    ValueSnoc([], b[at]);
    ValueSnoc([] + [b[at]], b[at + 1]);
  }

  lemma Read32Value(b: seq<byte>, at: nat)
    requires at + 4 <= |b|
    ensures Read32(b, at) == Value(b[at..at + 4])
  {
    hide Read16;
    Read16Value(b, at);
    Read16Value(b, at + 2);
    assert b[at..at + 4] == b[at..at + 2] + b[at + 2..at + 4];
    ValueAppend(b[at..at + 2], b[at + 2..at + 4]);
    Pow2Values();
  }

  // ----- the header -----

  function Flag(b: bool): nat { if b then 1 else 0 }

  function Size(h: RtpHeader): nat {
    12 + h.csrcCount as int * 4 + if h.extension then 4 + |h.extensionData| else 0
  }

  function FirstByte(h: RtpHeader): byte {
    h.version % 4 * 64 + Flag(h.padding) * 32 + Flag(h.extension) * 16 + h.csrcCount % 16
  }

  function SecondByte(h: RtpHeader): byte { Flag(h.marker) * 128 + h.payloadType % 128 }

  function Words(v: seq<u32>): (b: seq<byte>)
    ensures |b| == 4 * |v|
  {
    if v == [] then [] else Words(v[..|v| - 1]) + Be32(v[|v| - 1])
  }

  function ExtensionBytes(h: RtpHeader): seq<byte> {
    if h.extension then Be16(h.extensionProfile) + Be16(|h.extensionData| / 4 % 0x1_0000) + h.extensionData else []
  }

  function Fixed(h: RtpHeader): (b: seq<byte>)
    ensures |b| == 12
  {
    [FirstByte(h), SecondByte(h)] + Be16(h.sequenceNumber) + Be32(h.timestamp) + Be32(h.ssrc)
  }

  /** The header's bytes, whatever its CSRC count says about its list. */
  function Encoded(h: RtpHeader): (b: seq<byte>)
    ensures |h.csrc| == h.csrcCount as int ==> |b| == Size(h)
  {
    Fixed(h) + Words(h.csrc) + ExtensionBytes(h)
  }

  /** Bytes that must fit: everything but the extension's data, which is cut to the room there is. */
  function Needed(h: RtpHeader): nat { 12 + 4 * |h.csrc| + if h.extension then 4 else 0 }

  /** What encoding into a buffer gives: too little room for the size, an index past the end, or the new buffer. */
  datatype Encoding = TooSmall | OutOfRange | Wrote(buf: seq<byte>, size: nat)

  function Overlay(b: seq<byte>, bytes: seq<byte>): (r: seq<byte>)
    ensures |r| == |b|
  {
    if |bytes| <= |b| then bytes + b[|bytes|..] else bytes[..|b|]
  }

  /** RtpHeader.Encode: the size goes by the CSRC count, the bytes by the list. */
  function Placed(h: RtpHeader, b: seq<byte>): Encoding {
    if |b| < Size(h) then TooSmall
    else if |b| < Needed(h) then OutOfRange
    else Wrote(Overlay(b, Encoded(h)), Size(h))
  }

  function ReadWords(b: seq<byte>, at: nat, n: nat): (v: seq<u32>)
    requires at + 4 * n <= |b|
    ensures |v| == n
  {
    if n == 0 then [] else ReadWords(b, at, n - 1) + [Read32(b, at + 4 * (n - 1))]
  }

  /** Profile and data; an extension cut short by the buffer is left empty. */
  function ReadExtension(b: seq<byte>, at: nat): (r: (u16, seq<byte>))
    ensures |r.1| % 4 == 0 && |r.1| / 4 < 0x1_0000
  {
    if at + 4 > |b| then (0, [])
    else
      var n := Read16(b, at + 2) as int * 4;
      (Read16(b, at), if at + 4 + n <= |b| then b[at + 4..at + 4 + n] else [])
  }

  function Decoded(b: seq<byte>): (r: Result<RtpHeader>)
    ensures r.Ok? ==> HeaderOk(r.value)
  {
    if |b| < 12 || b[0] / 64 % 4 != 2 then Err
    else
      var cc := b[0] % 16;
      var ext := b[0] / 16 % 2 == 1;
      if |b| < 12 + 4 * cc as int then Err
      else
        var (profile, data) := if ext then ReadExtension(b, 12 + 4 * cc as int) else (0, []);
        Ok(RtpHeader(2, b[0] / 32 % 2 == 1, ext, cc, b[1] / 128 == 1, b[1] % 128, Read16(b, 2), Read32(b, 4),
          Read32(b, 8),
                     ReadWords(b, 12, cc as int), profile, data))
  }

  /** Headers whose fields fit the wire. */
  predicate HeaderOk(h: RtpHeader) {
    && h.version == 2 && h.payloadType < 128 && h.csrcCount < 16 && |h.csrc| == h.csrcCount as int
    && |h.extensionData| % 4 == 0 && |h.extensionData| / 4 < 0x1_0000
    && (!h.extension ==> h.extensionProfile == 0 && h.extensionData == [])
  }

  lemma {:induction false} WordsBack(a: seq<byte>, v: seq<u32>, c: seq<byte>)
    ensures ReadWords(a + Words(v) + c, |a|, |v|) == v
  {
    hide Be32, Read32;
    if v != [] {
      var k := |v| - 1;
      var front, last, b := Words(v[..k]), Be32(v[k]), a + Words(v) + c;
      Regroup(a, front, last, c);
      assert b == a + front + (last + c) == (a + front) + last + c;
      hide Words;
      WordsBack(a, v[..k], last + c);
      Read32Back(a + front, v[k], c);
      assert ReadWords(b, |a|, k + 1) == ReadWords(b, |a|, k) + [Read32(b, |a| + 4 * k)];
      assert v == v[..k] + [v[k]];
    }
  }

  lemma Regroup(a: seq<byte>, x: seq<byte>, y: seq<byte>, c: seq<byte>)
    ensures a + (x + y) + c == a + x + (y + c) == (a + x) + y + c
  {}

  lemma ExtensionBack(a: seq<byte>, h: RtpHeader, c: seq<byte>)
    requires HeaderOk(h) && h.extension
    ensures ReadExtension(a + ExtensionBytes(h) + c, |a|) == (h.extensionProfile, h.extensionData)
  {
    hide Be16, ReadExtension;
    var n: nat := |h.extensionData| / 4;
    assert n % 0x1_0000 == n && |h.extensionData| == n * 4;
    hide HeaderOk;
    ExtensionParts(a, h.extensionProfile, n, h.extensionData, c);
  }

  lemma ExtensionParts(a: seq<byte>, profile: u16, n: u16, data: seq<byte>, c: seq<byte>)
    requires |data| == n as int * 4
    ensures ReadExtension(a + (Be16(profile) + Be16(n) + data) + c, |a|) == (profile, data)
  {
    hide Be16, Read16;
    var p, q := Be16(profile), Be16(n);
    var b := a + (p + q + data) + c;
    assert b == a + p + (q + data + c);
    Read16Back(a, profile, q + data + c);
    assert b == (a + p) + q + (data + c);
    Read16Back(a + p, n, data + c);
    assert b[|a| + 4..|a| + 4 + |data|] == data;
  }

  lemma FixedBack(h: RtpHeader, c: seq<byte>)
    requires HeaderOk(h)
    ensures var b := Fixed(h) + c;
      && Read16(b, 2) == h.sequenceNumber && Read32(b, 4) == h.timestamp && Read32(b, 8) == h.ssrc
      && b[0] == FirstByte(h) && b[1] == SecondByte(h)
  {
    var b := Fixed(h) + c;
    var ab := [FirstByte(h), SecondByte(h)];
    assert b == ab + Be16(h.sequenceNumber) + (Be32(h.timestamp) + Be32(h.ssrc) + c);
    Read16Back(ab, h.sequenceNumber, Be32(h.timestamp) + Be32(h.ssrc) + c);
    var abc := ab + Be16(h.sequenceNumber);
    assert b == abc + Be32(h.timestamp) + (Be32(h.ssrc) + c);
    Read32Back(abc, h.timestamp, Be32(h.ssrc) + c);
    assert b == (abc + Be32(h.timestamp)) + Be32(h.ssrc) + c;
    Read32Back(abc + Be32(h.timestamp), h.ssrc, c);
  }

  lemma FlagBits(h: RtpHeader)
    requires HeaderOk(h)
    ensures var x := FirstByte(h);
      x / 64 % 4 == 2 && (x / 32 % 2 == 1 <==> h.padding) && (x / 16 % 2 == 1 <==> h.extension) && x % 16 == h.csrcCount
    ensures var y := SecondByte(h); (y / 128 == 1 <==> h.marker) && y % 128 == h.payloadType
  {}

  /** Decoding is the header whose parts the bytes hold. */
  lemma DecodedIs(b: seq<byte>, h: RtpHeader)
    requires HeaderOk(h) && |b| >= 12 + 4 * h.csrcCount as int
    requires b[0] == FirstByte(h) && b[1] == SecondByte(h)
    requires Read16(b, 2) == h.sequenceNumber && Read32(b, 4) == h.timestamp && Read32(b, 8) == h.ssrc
    requires ReadWords(b, 12, |h.csrc|) == h.csrc
    requires h.extension ==> ReadExtension(b, 12 + 4 * |h.csrc|) == (h.extensionProfile, h.extensionData)
    ensures Decoded(b) == Ok(h)
  {
    FlagBits(h);
    hide Read16, Read32, ReadExtension, FirstByte, SecondByte;
  }

  lemma HeaderBack(h: RtpHeader, rest: seq<byte>)
    requires HeaderOk(h)
    ensures Decoded(Encoded(h) + rest) == Ok(h)
  {
    var b := Encoded(h) + rest;
    hide Fixed, Words, ReadExtension, ExtensionBytes, Read16, Read32, FirstByte, SecondByte, Decoded;
    var tail := Words(h.csrc) + ExtensionBytes(h) + rest;
    assert b == Fixed(h) + tail;
    FixedBack(h, tail);
    assert b == Fixed(h) + Words(h.csrc) + (ExtensionBytes(h) + rest);
    WordsBack(Fixed(h), h.csrc, ExtensionBytes(h) + rest);
    var front := Fixed(h) + Words(h.csrc);
    assert b == front + ExtensionBytes(h) + rest;
    if h.extension { ExtensionBack(front, h, rest); }
    DecodedIs(b, h);
  }

  /**
   For every header that is written into any buffer, decoding the buffer gives it back exactly when its fields fit the
   wire.
   */
  lemma HeaderRoundTrip(h: RtpHeader, b: seq<byte>)
    requires Placed(h, b).Wrote?
    ensures Decoded(Placed(h, b).buf) == Ok(h) <==> HeaderOk(h)
  {
    var r := Decoded(Placed(h, b).buf);
    assert r.Ok? ==> HeaderOk(r.value);
    if HeaderOk(h) {
      FittingPlaced(h, b);
      HeaderBack(h, b[Size(h)..]);
    }
  }

  /** A header that fits the wire fills exactly its size. */
  lemma FittingPlaced(h: RtpHeader, b: seq<byte>)
    requires HeaderOk(h) && |b| >= Size(h)
    ensures Placed(h, b) == Wrote(Encoded(h) + b[Size(h)..], Size(h))
  {
    hide Fixed, Words, ExtensionBytes;
  }

  lemma {:induction false} WordAt(v: seq<u32>, i: nat)
    requires i < |v|
    ensures Words(v)[4 * i..4 * i + 4] == Be32(v[i])
  {
    hide Be32;
    var k := |v| - 1;
    if i == k {
      assert Words(v)[4 * k..4 * k + 4] == Be32(v[k]);
    } else {
      WordAt(v[..k], i);
      assert Words(v)[4 * i..4 * i + 4] == Words(v[..k])[4 * i..4 * i + 4];
    }
  }

  /** The layout of section 5.1 of RFC 3550: twelve fixed bytes, then the sources. */
  lemma WireLayout(h: RtpHeader)
    requires HeaderOk(h)
    ensures var b := Encoded(h);
      && |b| == Size(h)
      && b[0] as int == 0x80 + (if h.padding then 0x20 else 0) + (if h.extension then 0x10 else 0) + |h.csrc|
      && b[1] as int == (if h.marker then 0x80 else 0) + h.payloadType as int
      && Value(b[2..4]) == h.sequenceNumber && Value(b[4..8]) == h.timestamp && Value(b[8..12]) == h.ssrc
      && forall i :: 0 <= i < |h.csrc| ==> Value(b[12 + 4 * i..16 + 4 * i]) == h.csrc[i]
  {
    var b := Encoded(h);
    Be16Value(h.sequenceNumber);
    Be32Value(h.timestamp);
    Be32Value(h.ssrc);
    hide Be16, Be32, ExtensionBytes, Words, Value;
    var f := Fixed(h);
    assert b[2..4] == f[2..4] == Be16(h.sequenceNumber);
    assert b[4..8] == f[4..8] == Be32(h.timestamp);
    assert b[8..12] == f[8..12] == Be32(h.ssrc);
    forall i | 0 <= i < |h.csrc| ensures Value(b[12 + 4 * i..16 + 4 * i]) == h.csrc[i] {
      WordAt(h.csrc, i);
      Be32Value(h.csrc[i]);
      assert b[12 + 4 * i..16 + 4 * i] == Words(h.csrc)[4 * i..4 * i + 4];
    }
  }

  /** The extension: profile, length in 32-bit words, data. */
  lemma ExtensionLayout(h: RtpHeader)
    requires HeaderOk(h) && h.extension
    ensures var b, at := Encoded(h), 12 + 4 * |h.csrc|;
      && at + 4 <= |b| && Value(b[at..at + 2]) == h.extensionProfile
      && Value(b[at + 2..at + 4]) * 4 == |h.extensionData| && b[at + 4..] == h.extensionData
  {
    hide Be16, Fixed, Words, Value, ExtensionBytes;
    var n: u16 := |h.extensionData| / 4;
    assert n % 0x1_0000 == n && |h.extensionData| == n * 4;
    Be16Value(h.extensionProfile);
    Be16Value(n);
    ExtensionParted(h);
    hide HeaderOk;
    AfterFront(Fixed(h) + Words(h.csrc), Be16(h.extensionProfile), Be16(n), h.extensionData);
  }

  lemma AfterFront(front: seq<byte>, p: seq<byte>, q: seq<byte>, data: seq<byte>)
    requires |p| == |q| == 2
    ensures var b, at := front + (p + q + data), |front|;
      |b| >= at + 4 && b[at..at + 2] == p && b[at + 2..at + 4] == q && b[at + 4..] == data
  {
    var b := front + (p + q + data);
    assert b[|front|..] == p + q + data;
  }

  // ----- in buffers -----

  method Put(buf: array<byte>, at: nat, bytes: seq<byte>)
    requires at + |bytes| <= buf.Length
    modifies buf
    ensures buf[..] == old(buf[..at]) + bytes + old(buf[at + |bytes|..])
  {
    for i := 0 to |bytes|
      invariant buf[..] == old(buf[..at]) + bytes[..i] + old(buf[at + i..])
    {
      buf[at + i] := bytes[i];
    }
  }

  /** RtpHeader.Encode: the specified bytes over the buffer's front, or the failure the lengths call for. */
  method Encode(h: RtpHeader, buf: array<byte>) returns (r: Encoding)
    modifies buf
    ensures r == Placed(h, old(buf[..]))
    ensures r.Wrote? ==> buf[..] == r.buf
    ensures r.TooSmall? ==> buf[..] == old(buf[..])
  {
    if buf.Length < Size(h) {
      return TooSmall;
    }
    if buf.Length < Needed(h) {
      return OutOfRange;
    }
    hide Words, Fixed, ExtensionBytes;
    var offset := 12 + 4 * |h.csrc|;
    ghost var before := buf[..];
    PutFixed(h, buf);
    assert buf[12..] == before[12..];
    PutWords(h.csrc, buf, 12);
    ghost var front := Fixed(h) + Words(h.csrc);
    assert buf[..offset] == front && buf[offset..] == before[offset..];
    if h.extension {
      PutExtension(h, buf, offset);
      OverlayFront(before, buf[..], front, ExtensionBytes(h));
    } else {
      NoExtension(h);
      OverlayNone(before, buf[..], front);
    }
    r := Wrote(buf[..], Size(h));
  }

  lemma OverlayFront(before: seq<byte>, after: seq<byte>, front: seq<byte>, more: seq<byte>)
    requires |before| == |after| && |front| <= |before| && after == front + Overlay(before[|front|..], more)
    ensures after == Overlay(before, front + more)
  {
    var room := |before| - |front|;
    if |more| <= room {
      assert before[|front|..][|more|..] == before[|front + more|..];
    } else {
      assert (front + more)[..|before|] == front + more[..room];
    }
  }

  lemma OverlayNone(before: seq<byte>, after: seq<byte>, front: seq<byte>)
    requires |before| == |after| && |front| <= |before| && after[..|front|] == front
      && after[|front|..] == before[|front|..]
    ensures after == Overlay(before, front + [])
  {
    assert after == after[..|front|] + after[|front|..];
    assert front + [] == front;
  }

  lemma NoExtension(h: RtpHeader)
    requires !h.extension
    ensures ExtensionBytes(h) == []
  {}

  /** Puts bytes after what is already in place, and keeps what lies beyond. */
  method PutNext(buf: array<byte>, at: nat, bytes: seq<byte>, ghost done: seq<byte>, ghost keep: nat)
    requires at + |bytes| <= keep <= buf.Length && buf[..at] == done
    modifies buf
    ensures buf[..at + |bytes|] == done + bytes && buf[keep..] == old(buf[keep..])
  {
    Put(buf, at, bytes);
  }

  method PutFixed(h: RtpHeader, buf: array<byte>)
    requires buf.Length >= 12
    modifies buf
    ensures buf[..] == Fixed(h) + old(buf[12..])
  {
    hide Be16, Be32, FirstByte, SecondByte;
    ghost var ab := [FirstByte(h), SecondByte(h)];
    ghost var abs := ab + Be16(h.sequenceNumber);
    ghost var abst := abs + Be32(h.timestamp);
    PutNext(buf, 0, [FirstByte(h), SecondByte(h)], [], 12);
    PutNext(buf, 2, Be16(h.sequenceNumber), ab, 12);
    PutNext(buf, 4, Be32(h.timestamp), abs, 12);
    PutNext(buf, 8, Be32(h.ssrc), abst, 12);
    assert buf[..] == buf[..12] + buf[12..];
  }

  method PutWords(v: seq<u32>, buf: array<byte>, at: nat)
    requires at + 4 * |v| <= buf.Length
    modifies buf
    ensures buf[..] == old(buf[..at]) + Words(v) + old(buf[at + 4 * |v|..])
  {
    ghost var front := buf[..at];
    var offset := at;
    NoWords(v);
    assert PutsNext(buf[..], buf[..], front + [], at);
    hide Be32, Words, PutsNext;
    for i := 0 to |v|
      invariant offset == at + 4 * i && PutsNext(buf[..], old(buf[..]), front + Words(v[..i]), offset)
    {
      WordsSnoc(v, i);
      PutMore(buf, offset, Be32(v[i]), front + Words(v[..i]), old(buf[..]));
      assert front + Words(v[..i]) + Be32(v[i]) == front + Words(v[..i + 1]);
      offset := offset + 4;
    }
    assert v[..|v|] == v;
    Whole(buf[..], old(buf[..]), front + Words(v), offset);
  }

  /** The buffer holds the bytes given up to an offset, and what was there before from it on. */
  ghost predicate PutsNext(b: seq<byte>, b0: seq<byte>, done: seq<byte>, offset: nat) {
    |b| == |b0| && |done| == offset <= |b| && b[..offset] == done && b[offset..] == b0[offset..]
  }

  method PutMore(buf: array<byte>, offset: nat, bytes: seq<byte>, ghost done: seq<byte>, ghost b0: seq<byte>)
    requires PutsNext(buf[..], b0, done, offset) && offset + |bytes| <= buf.Length
    modifies buf
    ensures PutsNext(buf[..], b0, done + bytes, offset + |bytes|)
  {
    PutNext(buf, offset, bytes, done, offset + |bytes|);
    assert b0[offset..][|bytes|..] == b0[offset + |bytes|..];
  }

  lemma Whole(b: seq<byte>, b0: seq<byte>, done: seq<byte>, offset: nat)
    requires PutsNext(b, b0, done, offset)
    ensures b == done + b0[offset..]
  {
    assert b == b[..offset] + b[offset..];
  }

  lemma NoWords(v: seq<u32>)
    ensures Words(v[..0]) == []
  {}

  lemma WordsSnoc(v: seq<u32>, i: nat)
    requires i < |v|
    ensures Words(v[..i + 1]) == Words(v[..i]) + Be32(v[i])
  {
    assert v[..i + 1][..i] == v[..i];
  }

  /** Profile, length in words, and as much of the data as there is room for. */
  method PutExtension(h: RtpHeader, buf: array<byte>, offset: nat)
    requires h.extension && offset + 4 <= buf.Length
    modifies buf
    ensures buf[..] == old(buf[..offset]) + Overlay(old(buf[offset..]), ExtensionBytes(h))
  {
    hide Be16, ExtensionBytes, Overlay;
    var p, n := Be16(h.extensionProfile), Be16(|h.extensionData| / 4 % 0x1_0000);
    assert ExtensionBytes(h) == p + n + h.extensionData by { ExtensionParted(h); }
    var room := buf.Length - offset - 4;
    var data := if |h.extensionData| <= room then h.extensionData else h.extensionData[..room];
    ghost var done, rest, end := buf[..offset], buf[offset..], offset + 4 + |data|;
    PutNext(buf, offset, p, done, end);
    PutNext(buf, offset + 2, n, done + p, end);
    PutNext(buf, offset + 4, data, done + p + n, end);
    assert buf[..] == buf[..end] + buf[end..];
    Regroup3(done, p, n, data);
    CutOverlay(rest, p + n, h.extensionData, data);
    assert rest[4 + |data|..] == old(buf[end..]);
  }

  lemma ExtensionParted(h: RtpHeader)
    requires h.extension
    ensures ExtensionBytes(h) ==
      Be16(h.extensionProfile) + Be16(|h.extensionData| / 4 % 0x1_0000) + h.extensionData
  {}

  lemma CutOverlay(b: seq<byte>, head: seq<byte>, data: seq<byte>, cut: seq<byte>)
    requires |head| <= |b| && cut == (if |data| <= |b| - |head| then data else data[..|b| - |head|])
    ensures Overlay(b, head + data) == head + cut + b[|head| + |cut|..]
  {}

  lemma Regroup3(a: seq<byte>, p: seq<byte>, n: seq<byte>, d: seq<byte>)
    ensures a + p + n + d == a + (p + n + d)
  {}

  /** DecodeRtpHeader. */
  method DecodeHeader(buf: seq<byte>) returns (r: Result<RtpHeader>)
    ensures r == Decoded(buf)
  {
    if |buf| < 12 || buf[0] / 64 % 4 != 2 {
      return Err;
    }
    var cc: int, ext := buf[0] % 16, buf[0] / 16 % 2 == 1;
    if |buf| < 12 + cc * 4 {
      return Err;
    }
    hide Read16, Read32, ReadExtension, ReadWords;
    var csrc := CollectWords(buf, 12, cc);
    var profile: u16, data: seq<byte> := 0, [];
    if ext {
      profile, data := TakeExtension(buf, 12 + 4 * cc);
    }
    r := Ok(RtpHeader(2, buf[0] / 32 % 2 == 1, ext, cc, buf[1] / 128 == 1, buf[1] % 128,
                      Read16(buf, 2), Read32(buf, 4), Read32(buf, 8), csrc, profile, data));
  }

  method CollectWords(buf: seq<byte>, at: nat, n: nat) returns (v: seq<u32>)
    requires at + 4 * n <= |buf|
    ensures v == ReadWords(buf, at, n)
  {
    hide Read32;
    var offset := at;
    v := [];
    for i := 0 to n
      invariant offset == at + 4 * i && v == ReadWords(buf, at, i)
    {
      v := v + [Read32(buf, offset)];
      offset := offset + 4;
    }
  }

  method TakeExtension(buf: seq<byte>, at: nat) returns (profile: u16, data: seq<byte>)
    ensures (profile, data) == ReadExtension(buf, at)
  {
    hide Read16;
    profile, data := 0, [];
    if |buf| >= at + 4 {
      profile := Read16(buf, at);
      var extBytes := Read16(buf, at + 2) as int * 4;
      if |buf| >= at + 4 + extBytes {
        data := buf[at + 4..at + 4 + extBytes];
      }
    }
  }

  // ----- a sending session -----

  datatype RtpPacket = RtpPacket(header: RtpHeader, payload: seq<byte>)

  /** The i-th packet of a session that started at the given sequence number and timestamp. */
  function SessionHeader(ssrc: u32, payloadType: byte, seq0: u16, ts: u32, marker: bool): RtpHeader {
    RtpHeader(2, false, false, 0, marker, payloadType, seq0, ts, ssrc, [], 0, [])
  }

  /** A session's packets fit the wire in twelve bytes and carry its numbers. */
  lemma SessionHeaderFits(ssrc: u32, payloadType: byte, seq0: u16, ts: u32, marker: bool)
    requires payloadType < 128
    ensures var h := SessionHeader(ssrc, payloadType, seq0, ts, marker);
      && HeaderOk(h) && Size(h) == 12 && !h.padding && h.marker == marker && h.payloadType == payloadType
      && h.sequenceNumber == seq0 && h.timestamp == ts && h.ssrc == ssrc
  {}

  class RtpSession {
    const ssrc: u32
    const payloadType: byte
    var sequenceNumber: u16
    var timestamp: u32

    constructor (ssrc: u32, payloadType: byte, seq0: u16, ts0: u32)
      ensures this.ssrc == ssrc && this.payloadType == payloadType && sequenceNumber == seq0 && timestamp == ts0
    {
      this.ssrc, this.payloadType, sequenceNumber, timestamp := ssrc, payloadType, seq0, ts0;
    }

    /** CreatePacketWithDuration: numbers the packet, then advances both counters with wrap. */
    method CreatePacket(payload: seq<byte>, duration: nat, marker: bool) returns (p: RtpPacket)
      modifies this`sequenceNumber, this`timestamp
      ensures p == RtpPacket(SessionHeader(ssrc, payloadType, old(sequenceNumber), old(timestamp), marker), payload)
      ensures sequenceNumber as int == (old(sequenceNumber) as int + 1) % 0x1_0000
      ensures timestamp as int == (old(timestamp) as int + duration) % 0x1_0000_0000
    {
      p := RtpPacket(SessionHeader(ssrc, payloadType, sequenceNumber, timestamp, marker), payload);
      var s: int, t: int := sequenceNumber, timestamp;
      sequenceNumber := (s + 1) % 0x1_0000;
      timestamp := (t + duration) % 0x1_0000_0000;
    }
  }
}
