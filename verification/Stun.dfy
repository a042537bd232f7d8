/** STUN messages: attributes, the two back-patched length fields, and the parser. */
module Stun {
  import opened Bytes
  import opened RangeCoder
  import opened Rtp

  const MAGIC := 0x2112_a442
  const MESSAGE_INTEGRITY := 0x0008
  const FINGERPRINT := 0x8028
  const HEADER := 20
  const ERROR_CODE := 0x0009
  const CONN_ID := 0x4033
  const PING := 0x0801
  const PONG := 0x0802

  datatype Attr = Attr(typ: u16, data: seq<byte>)

  // ----- attributes -----

  function Padding(n: nat): (p: nat)
    ensures p < 4 && (n + p) % 4 == 0
  {
    (4 - n % 4) % 4
  }

  /** Type, length, data, and zeros up to four bytes. */
  function EncodeAttr(a: Attr): (b: seq<byte>)
    ensures |b| == AttrSize(a)
  {
    Be16(a.typ) + Be16(|a.data| % 0x1_0000) + a.data + Repeat(0, Padding(|a.data|))
  }

  function AttrSize(a: Attr): nat { 4 + |a.data| + Padding(|a.data|) }

  function EncodeAll(attrs: seq<Attr>): (b: seq<byte>)
    ensures |b| == AllSize(attrs)
  {
    if attrs == [] then [] else EncodeAttr(attrs[0]) + EncodeAll(attrs[1..])
  }

  function AllSize(attrs: seq<Attr>): nat {
    if attrs == [] then 0 else AttrSize(attrs[0]) + AllSize(attrs[1..])
  }

  lemma {:induction false} EncodeSnoc(attrs: seq<Attr>, a: Attr)
    ensures EncodeAll(attrs + [a]) == EncodeAll(attrs) + EncodeAttr(a)
      && AllSize(attrs + [a]) == AllSize(attrs) + AttrSize(a)
  {
    hide EncodeAttr, AttrSize;
    if attrs == [] {
      assert ([] + [a])[1..] == [];
    } else {
      EncodeSnoc(attrs[1..], a);
      assert (attrs + [a])[1..] == attrs[1..] + [a];
    }
  }

  // ----- messages -----

  /** Keyed hash to 20 bytes, and a checksum already folded with its constant. */
  datatype Digests = Digests(mac: (seq<byte>, seq<byte>) -> seq<byte>, crc: seq<byte> -> u32)

  ghost predicate DigestsOk(g: Digests) { forall k, d :: |g.mac(k, d)| == 20 }

  datatype Key = NoKey | Key(k: seq<byte>)

  /** Message type, length, cookie, transaction id. */
  function Header(typ: u16, length: nat, txid: seq<byte>): (b: seq<byte>)
    requires |txid| == 12
    ensures |b| == HEADER
  {
    Be16(typ) + Be16(length % 0x1_0000) + Be32(MAGIC) + txid
  }

  /** Bytes hashed for integrity: as if the message ended with the integrity attribute. */
  function MacInput(typ: u16, body: seq<byte>, txid: seq<byte>): seq<byte>
    requires |txid| == 12
  {
    Header(typ, |body| + 24, txid) + body
  }

  function CrcInput(typ: u16, body: seq<byte>, txid: seq<byte>): seq<byte>
    requires |txid| == 12
  {
    Header(typ, |body| + 8, txid) + body
  }

  function IntegrityAttr(g: Digests, key: seq<byte>, typ: u16, body: seq<byte>, txid: seq<byte>): Attr
    requires |txid| == 12
  {
    Attr(MESSAGE_INTEGRITY, g.mac(key, MacInput(typ, body, txid)))
  }

  function FingerprintAttr(g: Digests, typ: u16, body: seq<byte>, txid: seq<byte>): Attr
    requires |txid| == 12
  {
    Attr(FINGERPRINT, Be32(g.crc(CrcInput(typ, body, txid))))
  }

  /** The attributes of the finished message, the two computed ones last. */
  function Sealed(g: Digests, typ: u16, attrs: seq<Attr>, txid: seq<byte>, key: Key, fingerprint: bool): seq<Attr>
    requires |txid| == 12
  {
    var a1 := Signed(g, typ, attrs, txid, key);
    if fingerprint then a1 + [FingerprintAttr(g, typ, EncodeAll(a1), txid)] else a1
  }

  function Signed(g: Digests, typ: u16, attrs: seq<Attr>, txid: seq<byte>, key: Key): seq<Attr>
    requires |txid| == 12
  {
    if key.NoKey? then attrs else attrs + [IntegrityAttr(g, key.k, typ, EncodeAll(attrs), txid)]
  }

  function Message(typ: u16, attrs: seq<Attr>, txid: seq<byte>): seq<byte>
    requires |txid| == 12
  {
    Header(typ, AllSize(attrs), txid) + EncodeAll(attrs)
  }

  /** The twelve id bytes of a header: longer ids are cut, shorter ones end in zeros. */
  function TwelveOf(id: seq<byte>): (r: seq<byte>)
    ensures |r| == 12 && (|id| == 12 ==> r == id)
  {
    if |id| >= 12 then id[..12] else id + Repeat(0, 12 - |id|)
  }

  /** buildStunMessage on bytes: each computed attribute is over a header whose length already counts it. */
  function Built(g: Digests, typ: u16, attrs: seq<byte>, txid: seq<byte>, key: Key, fingerprint: bool): seq<byte>
    requires |txid| == 12
  {
    var a1 := if key.NoKey? then attrs else attrs + EncodeAttr(IntegrityAttr(g, key.k, typ, attrs, txid));
    var a2 := if fingerprint then a1 + EncodeAttr(FingerprintAttr(g, typ, a1, txid)) else a1;
    Header(typ, |a2|, txid) + a2
  }

  /** For attribute bytes that encode a list, the message is that of the list with the computed attributes last. */
  lemma BuiltIsMessage(g: Digests, typ: u16, list: seq<Attr>, txid: seq<byte>, key: Key, fingerprint: bool)
    requires |txid| == 12
    ensures Built(g, typ, EncodeAll(list), txid, key, fingerprint) ==
      Message(typ, Sealed(g, typ, list, txid, key, fingerprint), txid)
  {
    hide EncodeAttr, Header, IntegrityAttr, FingerprintAttr, EncodeAll, AllSize;
    if key.Key? { EncodeSnoc(list, IntegrityAttr(g, key.k, typ, EncodeAll(list), txid)); }
    var signed := Signed(g, typ, list, txid, key);
    if fingerprint { EncodeSnoc(signed, FingerprintAttr(g, typ, EncodeAll(signed), txid)); }
  }

  /** buildStunMessage, for any attribute bytes and any id. */
  method BuildStunMessage(typ: u16, attrs: seq<byte>, transactionId: seq<byte>, key: Key, fingerprint: bool, g: Digests)
    returns (msg: seq<byte>)
    ensures msg == Built(g, typ, attrs, TwelveOf(transactionId), key, fingerprint)
  {
    hide EncodeAttr, Header;
    var attrsData := attrs;
    var txid := TwelveOf(transactionId);
    if key.Key? {
      var sum := g.mac(key.k, Header(typ, |attrsData| + 24, txid) + attrsData);
      attrsData := attrsData + EncodeAttr(Attr(MESSAGE_INTEGRITY, sum));
    }
    if fingerprint {
      var fp := Be32(g.crc(Header(typ, |attrsData| + 8, txid) + attrsData));
      attrsData := attrsData + EncodeAttr(Attr(FINGERPRINT, fp));
    }
    msg := Header(typ, |attrsData|, txid) + attrsData;
  }

  /** The same bytes with another length in the header. */
  function WithLength(b: seq<byte>, length: nat): seq<byte>
    requires |b| >= 4
  {
    b[..2] + Be16(length % 0x1_0000) + b[4..]
  }

  /**
   The integrity hash covers the emitted message up to its attribute, with the length field ending at that attribute.
   */
  lemma MacCoversPrefix(g: Digests, typ: u16, attrs: seq<Attr>, txid: seq<byte>, key: Key, fingerprint: bool)
    requires |txid| == 12
    ensures var msg := Message(typ, Sealed(g, typ, attrs, txid, key, fingerprint), txid); var n := |EncodeAll(attrs)|;
      |msg| >= HEADER + n && WithLength(msg[..HEADER + n], n + 24) == MacInput(typ, EncodeAll(attrs), txid)
  {
    hide Sealed, Signed, EncodeAll, AllSize, Header, WithLength;
    var all := Sealed(g, typ, attrs, txid, key, fingerprint);
    SealedExtends(g, typ, attrs, txid, key, fingerprint);
    PrefixRelabels(typ, all, EncodeAll(attrs), txid);
  }

  lemma PrefixRelabels(typ: u16, all: seq<Attr>, body: seq<byte>, txid: seq<byte>)
    requires |txid| == 12 && body <= EncodeAll(all)
    ensures var msg := Message(typ, all, txid); var n := |body|;
      |msg| >= HEADER + n && WithLength(msg[..HEADER + n], n + 24) == MacInput(typ, body, txid)
  {
    hide EncodeAll, AllSize, WithLength;
    Relabel(typ, AllSize(all), |body| + 24, txid, EncodeAll(all), body);
    hide Header;
  }

  lemma SealedExtends(g: Digests, typ: u16, attrs: seq<Attr>, txid: seq<byte>, key: Key, fingerprint: bool)
    requires |txid| == 12
    ensures var signed := EncodeAll(Signed(g, typ, attrs, txid, key));
      var all := EncodeAll(Sealed(g, typ, attrs, txid, key, fingerprint));
      && EncodeAll(attrs) <= signed <= all && |all| == |signed| + (if fingerprint then 8 else 0)
  {
    var a1 := Signed(g, typ, attrs, txid, key);
    hide IntegrityAttr, FingerprintAttr, EncodeAttr;
    if key.Key? { EncodeSnoc(attrs, IntegrityAttr(g, key.k, typ, EncodeAll(attrs), txid)); }
    if fingerprint {
      EncodeSnoc(a1, FingerprintAttr(g, typ, EncodeAll(a1), txid));
      FingerprintSize(g, typ, EncodeAll(a1), txid);
    }
  }

  lemma FingerprintSize(g: Digests, typ: u16, body: seq<byte>, txid: seq<byte>)
    requires |txid| == 12
    ensures AttrSize(FingerprintAttr(g, typ, body, txid)) == 8
  {}

  /** The checksum covers exactly the emitted message before its attribute. */
  lemma CrcCoversPrefix(g: Digests, typ: u16, attrs: seq<Attr>, txid: seq<byte>, key: Key)
    requires |txid| == 12
    ensures var msg := Message(typ, Sealed(g, typ, attrs, txid, key, true), txid);
      |msg| >= 28 && msg[..|msg| - 8] == CrcInput(typ, EncodeAll(Signed(g, typ, attrs, txid, key)), txid)
  {
    SealedExtends(g, typ, attrs, txid, key, true);
    hide Sealed, Signed, EncodeAll, AllSize, Header;
  }

  /** Without a checksum the integrity hash covers exactly the emitted message before its attribute. */
  lemma MacCoversMessage(g: Digests, typ: u16, attrs: seq<Attr>, txid: seq<byte>, key: seq<byte>)
    requires |txid| == 12 && DigestsOk(g)
    ensures var msg := Message(typ, Sealed(g, typ, attrs, txid, Key(key), false), txid);
      |msg| >= 44 && msg[..|msg| - 24] == MacInput(typ, EncodeAll(attrs), txid)
  {
    var at := IntegrityAttr(g, key, typ, EncodeAll(attrs), txid);
    EncodeSnoc(attrs, at);
    MacAttrSize(g, key, typ, EncodeAll(attrs), txid);
    assert Sealed(g, typ, attrs, txid, Key(key), false) == attrs + [at];
    hide EncodeAll, AllSize, Header, EncodeAttr, AttrSize, Sealed, IntegrityAttr;
    DropTail(Header(typ, |EncodeAll(attrs)| + 24, txid), EncodeAll(attrs), EncodeAttr(at));
  }

  lemma MacAttrSize(g: Digests, key: seq<byte>, typ: u16, body: seq<byte>, txid: seq<byte>)
    requires |txid| == 12 && DigestsOk(g)
    ensures AttrSize(IntegrityAttr(g, key, typ, body, txid)) == 24
  {
    assert |g.mac(key, MacInput(typ, body, txid))| == 20;
  }

  lemma DropTail(h: seq<byte>, body: seq<byte>, tail: seq<byte>)
    ensures (h + (body + tail))[..|h + (body + tail)| - |tail|] == h + body
  {}

  lemma Relabel(typ: u16, length: nat, other: nat, txid: seq<byte>, all: seq<byte>, body: seq<byte>)
    requires |txid| == 12 && body <= all
    ensures WithLength((Header(typ, length, txid) + all)[..HEADER + |body|], other) == Header(typ, other, txid) + body
  {
    hide Be16, Be32;
    var h := Header(typ, length, txid);
    assert (h + all)[..HEADER + |body|] == h + body;
    assert (h + body)[..2] == Be16(typ);
    assert (h + body)[4..] == Be32(MAGIC) + txid + body;
  }

  // ----- the parser -----

  /** An attribute header fits both the announced length and the data. */
  predicate HeaderFits(data: seq<byte>, offset: nat, limit: nat) { offset + 4 <= limit && offset + 4 <= |data| }

  function DataEnd(data: seq<byte>, offset: nat): nat
    requires offset + 4 <= |data|
  {
    offset + 4 + Read16(data, offset + 2) as int
  }

  function AttrAt(data: seq<byte>, offset: nat): Attr
    requires offset + 4 <= |data| && DataEnd(data, offset) <= |data|
  {
    Attr(Read16(data, offset), data[offset + 4..DataEnd(data, offset)])
  }

  function After(data: seq<byte>, offset: nat): (n: nat)
    requires offset + 4 <= |data|
    ensures n >= offset + 4
  {
    DataEnd(data, offset) + Padding(DataEnd(data, offset) - offset - 4)
  }

  /** Attributes from an offset on. */
  function ParseAttrs(data: seq<byte>, offset: nat, limit: nat): seq<Attr>
    decreases |data| + 4 - offset
  {
    if offset > |data| || !HeaderFits(data, offset, limit) || DataEnd(data, offset) > |data| then []
    else [AttrAt(data, offset)] + if After(data, offset) <= |data| + 3 then ParseAttrs(data, After(data, offset),
      limit) else []
  }

  function Attributes(data: seq<byte>, offset: nat, limit: nat): seq<Attr> { ParseAttrs(data, offset, limit) }

  lemma ParseStep(data: seq<byte>, offset: nat, limit: nat)
    requires HeaderFits(data, offset, limit) && DataEnd(data, offset) <= |data|
    ensures After(data, offset) <= |data| + 3
    ensures Attributes(data, offset, limit) == [AttrAt(data, offset)] + Attributes(data, After(data, offset), limit)
  {
    hide Read16, AttrAt;
  }

  lemma ParseStop(data: seq<byte>, offset: nat, limit: nat)
    requires HeaderFits(data, offset, limit) ==> DataEnd(data, offset) > |data|
    ensures Attributes(data, offset, limit) == []
  {}

  /** The attributes are consecutive slices inside the data, each padded to four. */
  predicate InPlace(data: seq<byte>, offset: nat, attrs: seq<Attr>)
    decreases |attrs|
  {
    attrs == [] ||
    (&& offset + 4 <= |data| && DataEnd(data, offset) <= |data|
     && attrs[0] == AttrAt(data, offset) && InPlace(data, After(data, offset), attrs[1..]))
  }

  /** On any bytes the attributes found lie inside the data, one after the other. */
  lemma {:induction false} ParsedInPlace(data: seq<byte>, offset: nat, limit: nat)
    ensures InPlace(data, offset, Attributes(data, offset, limit))
    decreases |data| + 4 - offset
  {
    hide Attributes, AttrAt, After, DataEnd;
    if HeaderFits(data, offset, limit) && DataEnd(data, offset) <= |data| {
      ParseStep(data, offset, limit);
      ParsedInPlace(data, After(data, offset), limit);
      var all := Attributes(data, offset, limit);
      assert all[0] == AttrAt(data, offset) && all[1..] == Attributes(data, After(data, offset), limit);
    } else {
      ParseStop(data, offset, limit);
    }
  }

  predicate Fits(attrs: seq<Attr>) { AllSize(attrs) < 0x1_0000 }

  lemma AttrBack(a: seq<byte>, at: Attr, c: seq<byte>)
    requires |at.data| < 0x1_0000
    ensures var b := a + EncodeAttr(at) + c;
      DataEnd(b, |a|) <= |b| && AttrAt(b, |a|) == at && After(b, |a|) == |a| + AttrSize(at)
  {
    hide Be16, Read16;
    var n := |at.data|;
    var t, l, p := Be16(at.typ), Be16(n % 0x1_0000), Repeat(0 as byte, Padding(n));
    var b := a + (t + l + at.data + p) + c;
    assert b == a + t + (l + at.data + p + c);
    Read16Back(a, at.typ, l + at.data + p + c);
    assert b == (a + t) + l + (at.data + p + c);
    Read16Back(a + t, n, at.data + p + c);
    assert b[|a| + 4..|a| + 4 + n] == at.data;
  }

  /** Encoded attributes are parsed back, types and unpadded data, in order. */
  lemma {:induction false} ParseBack(front: seq<byte>, attrs: seq<Attr>)
    requires Fits(attrs)
    ensures Attributes(front + EncodeAll(attrs), |front|, |front| + AllSize(attrs)) == attrs
    decreases |attrs|
  {
    hide Attributes, EncodeAttr, AttrAt, After, DataEnd;
    var b, limit := front + EncodeAll(attrs), |front| + AllSize(attrs);
    if attrs == [] {
      ParseStop(b, |front|, limit);
    } else {
      var a, rest := attrs[0], attrs[1..];
      var next := front + EncodeAttr(a);
      assert b == front + EncodeAttr(a) + EncodeAll(rest) == next + EncodeAll(rest);
      AttrBack(front, a, EncodeAll(rest));
      ParseStep(b, |front|, limit);
      ParseBack(next, rest);
      assert attrs == [a] + rest;
    }
  }

  datatype Method =
    | Binding
    | Allocate
    | Refresh
    | Send
    | Data
    | CreatePermission
    | ChannelBind
    | WaPing
    | WaPong
    | Unknown

  datatype Class = Request | Indication | Success | Error

  /** What the attributes report: error code and reason, and the connection id of a success response. */
  datatype Report = Report(code: nat, reason: seq<byte>, connId: nat)

  datatype Info = Info(
    rawType: u16, stunMethod: Method, stunClass: Class, transactionId: seq<byte>, length: nat, attributes: seq<Attr>,
      report: Report)

  datatype Parsed = Nothing | Response(info: Info)

  const NO_REPORT := Report(0, [], 0)

  function ClassNamed(c: nat): Class {
    match c
    case 0 => Request
    case 1 => Indication
    case 2 => Success
    case _ => Error
  }

  function MethodNamed(m: nat): Method {
    match m
    case 1 => Binding
    case 3 => Allocate
    case 4 => Refresh
    case 6 => Send
    case 7 => Data
    case 8 => CreatePermission
    case 9 => ChannelBind
    case _ => Unknown
  }

  function MethodIn(raw: u16): Method {
    if raw == PING then WaPing else if raw == PONG then WaPong else MethodNamed(MethodOf(raw as int))
  }

  /** The report after one more attribute. */
  function Noted(r: Report, cls: Class, a: Attr): Report {
    if a.typ == ERROR_CODE && |a.data| >= 4 then
      r.(code := a.data[2] as int % 8 * 100 + a.data[3] as int, reason := if |a.data| > 4 then a.data[4..]
        else r.reason)
    else if a.typ == CONN_ID && cls.Success? && |a.data| == 8 then
      r.(connId := Read32(a.data, 0) as int * 0x1_0000_0000 + Read32(a.data, 4) as int)
    else r
  }

  function Reported(cls: Class, attrs: seq<Attr>): Report {
    if attrs == [] then NO_REPORT else Noted(Reported(cls, attrs[..|attrs| - 1]), cls, attrs[|attrs| - 1])
  }

  /** What a message of that type with those attributes says. */
  function InfoOf(typ: u16, txid: seq<byte>, length: nat, attrs: seq<Attr>): Info {
    var c := ClassNamed(ClassOf(typ as int));
    Info(typ, MethodIn(typ), c, txid, length, attrs, Reported(c, attrs))
  }

  function Parse(data: seq<byte>): Parsed {
    if |data| < HEADER then Nothing
    else if Read32(data, 4) != MAGIC then
      var typ := Read16(data, 0);
      if typ == PING || typ == PONG
        then Response(Info(typ, MethodIn(typ), Indication, data[8..20], |data|, [], NO_REPORT))
        else Nothing
    else Response(InfoOf(Read16(data, 0), data[8..20], |data|,
      Attributes(data, HEADER, HEADER + Read16(data, 2) as int)))
  }

  lemma HeaderBack(typ: u16, length: nat, txid: seq<byte>, rest: seq<byte>)
    requires |txid| == 12 && length < 0x1_0000
    ensures var b := Header(typ, length, txid) + rest;
      Read16(b, 0) == typ && Read16(b, 2) as int == length && Read32(b, 4) == MAGIC && b[8..20] == txid
  {
    hide Be16, Be32, Read16, Read32;
    var t, l, m := Be16(typ), Be16(length % 0x1_0000), Be32(MAGIC);
    var b := Header(typ, length, txid) + rest;
    assert b == [] + t + (l + m + txid + rest);
    Read16Back([], typ, l + m + txid + rest);
    assert b == t + l + (m + txid + rest);
    Read16Back(t, length, m + txid + rest);
    assert b == (t + l) + m + (txid + rest);
    Read32Back(t + l, MAGIC, txid + rest);
  }

  lemma ParseOfMagic(data: seq<byte>)
    requires |data| >= HEADER && Read32(data, 4) == MAGIC
    ensures Parse(data) == Response(InfoOf(Read16(data, 0), data[8..20], |data|,
      Attributes(data, HEADER, HEADER + Read16(data, 2) as int)))
  {}

  /** Building then parsing returns the type, the transaction id, and every attribute, the computed ones included. */
  lemma BuildThenParse(g: Digests, typ: u16, attrs: seq<Attr>, txid: seq<byte>, key: Key, fingerprint: bool)
    requires |txid| == 12 && Fits(Sealed(g, typ, attrs, txid, key, fingerprint))
    ensures var all := Sealed(g, typ, attrs, txid, key, fingerprint); var msg := Message(typ, all, txid);
      Parse(msg) == Response(InfoOf(typ, txid, |msg|, all))
  {
    hide Sealed, Header, Read16, Read32, Attributes, AllSize, EncodeAll, InfoOf, Parse, Message, Fits;
    var all := Sealed(g, typ, attrs, txid, key, fingerprint);
    MessageParsed(typ, all, txid);
  }

  lemma MessageParsed(typ: u16, all: seq<Attr>, txid: seq<byte>)
    requires |txid| == 12 && Fits(all)
    ensures Parse(Message(typ, all, txid)) == Response(InfoOf(typ, txid, |Message(typ, all, txid)|, all))
  {
    hide Header, Read16, Read32, Attributes, AllSize, EncodeAll, InfoOf, Parse;
    HeaderBack(typ, AllSize(all), txid, EncodeAll(all));
    ParseBack(Header(typ, AllSize(all), txid), all);
    ParseOfMagic(Message(typ, all, txid));
  }

  /** Section 15.6 of RFC 5389: two zero bytes, class, number, reason. */
  function ErrorAttr(cls: byte, number: byte, reason: seq<byte>): Attr {
    Attr(ERROR_CODE, [0, 0, cls, number] + reason)
  }

  /** Attributes other than those the parser reports leave the report alone. */
  lemma {:induction false} ReportedPast(cls: Class, attrs: seq<Attr>, more: seq<Attr>)
    requires forall i :: 0 <= i < |more| ==> more[i].typ != ERROR_CODE && more[i].typ != CONN_ID
    ensures Reported(cls, attrs + more) == Reported(cls, attrs)
  {
    if more == [] {
      assert attrs + more == attrs;
    } else {
      var k := |more| - 1;
      ReportedPast(cls, attrs, more[..k]);
      assert attrs + more == (attrs + more[..k]) + [more[k]];
      ReportedSnoc(cls, attrs + more[..k], more[k]);
    }
  }

  /** The computed attributes are none that is reported. */
  lemma SealedReports(g: Digests, typ: u16, attrs: seq<Attr>, txid: seq<byte>, key: Key, fingerprint: bool, cls: Class)
    requires |txid| == 12
    ensures Reported(cls, Sealed(g, typ, attrs, txid, key, fingerprint)) == Reported(cls, attrs)
  {
    hide EncodeAll, Be32, MacInput, CrcInput, Noted;
    var signed := Signed(g, typ, attrs, txid, key);
    if key.Key? {
      var m := IntegrityAttr(g, key.k, typ, EncodeAll(attrs), txid);
      ReportedPast(cls, attrs, [m]);
    }
    if fingerprint {
      var f := FingerprintAttr(g, typ, EncodeAll(signed), txid);
      ReportedPast(cls, signed, [f]);
    }
  }

  /**
   A built message whose last reported attribute is an error of class c and number n is parsed to the code 100c + n, and
   to the reason given.
   */
  lemma ErrorParsed(g: Digests, typ: u16, before: seq<Attr>, c: byte, n: byte, reason: seq<byte>, after: seq<Attr>,
                    txid: seq<byte>, key: Key, fingerprint: bool)
    requires |txid| == 12 && c < 8 && n < 100
    requires forall i :: 0 <= i < |after| ==> after[i].typ != ERROR_CODE && after[i].typ != CONN_ID
    requires Fits(Sealed(g, typ, before + [ErrorAttr(c, n, reason)] + after, txid, key, fingerprint))
    ensures var all := Sealed(g, typ, before + [ErrorAttr(c, n, reason)] + after, txid, key, fingerprint);
      var r := Parse(Message(typ, all, txid));
      && r.Response? && r.info.report.code / 100 == c as int && r.info.report.code % 100 == n as int
      && (reason != [] ==> r.info.report.reason == reason)
  {
    var e := ErrorAttr(c, n, reason);
    var cls := ClassNamed(ClassOf(typ as int));
    hide Sealed, Message, Parse, Fits, Reported, Noted, ErrorAttr;
    ErrorType(c, n, reason);
    BuildThenParse(g, typ, before + [e] + after, txid, key, fingerprint);
    SealedReports(g, typ, before + [e] + after, txid, key, fingerprint, cls);
    ReportedPast(cls, before + [e], after);
    ReportedSnoc(cls, before, e);
    ErrorNoted(Reported(cls, before), cls, c, n, reason);
  }

  lemma ErrorType(c: byte, n: byte, reason: seq<byte>)
    ensures ErrorAttr(c, n, reason).typ == ERROR_CODE
  {}

  lemma ErrorNoted(before: Report, cls: Class, c: byte, n: byte, reason: seq<byte>)
    requires c < 8 && n < 100
    ensures var r := Noted(before, cls, ErrorAttr(c, n, reason));
      r.code / 100 == c as int && r.code % 100 == n as int && (reason != [] ==> r.reason == reason)
  {
    var a := ErrorAttr(c, n, reason);
    assert a.data[4..] == reason;
    ModUnique(c as int * 100 + n as int, c as int, n as int, 100);
  }

  /** A success response's connection id is the big-endian value of its eight bytes. */
  lemma ConnIdParsed(g: Digests, typ: u16, before: seq<Attr>, id: seq<byte>, after: seq<Attr>, txid: seq<byte>,
                     key: Key, fingerprint: bool)
    requires |txid| == 12 && |id| == 8 && ClassOf(typ as int) == 2
    requires forall i :: 0 <= i < |after| ==> after[i].typ != ERROR_CODE && after[i].typ != CONN_ID
    requires Fits(Sealed(g, typ, before + [Attr(CONN_ID, id)] + after, txid, key, fingerprint))
    ensures var all := Sealed(g, typ, before + [Attr(CONN_ID, id)] + after, txid, key, fingerprint);
      var r := Parse(Message(typ, all, txid));
      r.Response? && r.info.report.connId == Value(id)
  {
    var a := Attr(CONN_ID, id);
    hide Sealed, Message, Parse, Fits, Reported, ClassOf, Noted, Value;
    BuildThenParse(g, typ, before + [a] + after, txid, key, fingerprint);
    SealedReports(g, typ, before + [a] + after, txid, key, fingerprint, Success);
    ReportedPast(Success, before + [a], after);
    ReportedSnoc(Success, before, a);
    ConnIdNoted(Reported(Success, before), id);
  }

  lemma ConnIdNoted(before: Report, id: seq<byte>)
    requires |id| == 8
    ensures Noted(before, Success, Attr(CONN_ID, id)).connId == Value(id)
  {
    hide Read32, Value;
    EightBytes(id);
  }

  lemma EightBytes(id: seq<byte>)
    requires |id| == 8
    ensures Read32(id, 0) as int * 0x1_0000_0000 + Read32(id, 4) as int == Value(id)
  {
    hide Read32, Value, Pow2;
    Read32Value(id, 0);
    Read32Value(id, 4);
    assert id == id[0..4] + id[4..8];
    ValueAppend(id[0..4], id[4..8]);
    FourBytes();
  }

  lemma FourBytes()
    ensures Pow2(8 * 4) == 0x1_0000_0000
  {
    Pow2Values();
    assert Pow2(32) == 2 * Pow2(31);
  }

  /** Section 6 of RFC 5389: type, length of what follows, cookie, id. */
  lemma HeaderLayout(typ: u16, attrs: seq<Attr>, txid: seq<byte>)
    requires |txid| == 12 && Fits(attrs)
    ensures var b := Message(typ, attrs, txid);
      && |b| >= HEADER && Value(b[..2]) == typ && Value(b[2..4]) == |b| - HEADER && Value(b[4..8]) == 0x2112_a442
      && b[8..20] == txid && b[20..] == EncodeAll(attrs)
  {
    hide Be16, Be32, Value, EncodeAll, AllSize;
    var n := AllSize(attrs);
    var h := Header(typ, n, txid);
    Be16Value(typ);
    Be16Value(n);
    Be32Value(MAGIC);
    assert n % 0x1_0000 == n;
    assert h[..2] == Be16(typ) && h[2..4] == Be16(n) && h[4..8] == Be32(MAGIC);
    var b := Message(typ, attrs, txid);
    assert b[..2] == h[..2] && b[2..4] == h[2..4] && b[4..8] == h[4..8];
  }

  /** Section 15 of RFC 5389: type, length without the padding, data, zeros up to a multiple of four. */
  lemma AttrLayout(a: Attr)
    requires |a.data| < 0x1_0000
    ensures var b := EncodeAttr(a);
      && |b| >= 4 + |a.data| && Value(b[..2]) == a.typ && Value(b[2..4]) == |a.data| && b[4..4 + |a.data|] == a.data
      && |b| % 4 == 0 && |b| < 8 + |a.data| && forall i :: 4 + |a.data| <= i < |b| ==> b[i] == 0
  {
    hide Be16, Value;
    var n := |a.data|;
    var b, p := EncodeAttr(a), Repeat(0 as byte, Padding(n));
    Be16Value(a.typ);
    Be16Value(n);
    assert n % 0x1_0000 == n;
    assert b[..2] == Be16(a.typ) && b[2..4] == Be16(n);
    assert b[4 + n..] == p;
    forall i | 4 + n <= i < |b| ensures b[i] == 0 { assert b[i] == b[4 + n..][i - 4 - n]; }
  }

  /** ParseStunResponse: a moving offset that never leaves the data. */
  method ParseStunResponse(data: seq<byte>) returns (r: Parsed)
    ensures r == Parse(data)
  {
    hide Read16, Read32, Attributes, AttrAt, DataEnd, After, ClassOf, MethodOf, Reported;
    if |data| < HEADER {
      return Nothing;
    }
    if Read32(data, 4) != MAGIC {
      var msgType := Read16(data, 0);
      if msgType == PING || msgType == PONG {
        return Response(Info(msgType, if msgType == PONG then WaPong
          else WaPing, Indication, data[8..20], |data|, [], NO_REPORT));
      }
      return Nothing;
    }
    var rawType: int, msgLength: int := Read16(data, 0), Read16(data, 2);
    var cls := ClassNamed(ClassOf(rawType));
    var stunMethod := MethodNamed(MethodOf(rawType));
    if rawType == PING {
      stunMethod := WaPing;
    }
    if rawType == PONG {
      stunMethod := WaPong;
    }
    var attrs, report := CollectAttrs(data, HEADER + msgLength, cls);
    r := Response(Info(rawType, stunMethod, cls, data[8..20], |data|, attrs, report));
  }

  method CollectAttrs(data: seq<byte>, limit: nat, cls: Class) returns (attrs: seq<Attr>, report: Report)
    requires |data| >= HEADER
    ensures attrs == Attributes(data, HEADER, limit) && report == Reported(cls, attrs)
  {
    hide Attributes, Read16, Read32;
    attrs, report := [], NO_REPORT;
    var offset := HEADER;
    while offset + 4 <= limit && offset + 4 <= |data|
      invariant 0 <= offset <= |data| + 3 && Attributes(data, HEADER, limit) == attrs + Attributes(data, offset, limit)
      invariant report == Reported(cls, attrs)
      decreases |data| + 4 - offset
    {
      var attrLength: int := Read16(data, offset + 2);
      var attrEnd := offset + 4 + attrLength;
      if attrEnd > |data| {
        break;
      }
      ParseStep(data, offset, limit);
      var a := Attr(Read16(data, offset), data[offset + 4..attrEnd]);
      report := Note(report, cls, a);
      ReportedSnoc(cls, attrs, a);
      attrs := attrs + [a];
      offset := attrEnd + (4 - attrLength % 4) % 4;
    }
    ParseStop(data, offset, limit);
  }

  lemma ReportedSnoc(cls: Class, attrs: seq<Attr>, a: Attr)
    ensures Reported(cls, attrs + [a]) == Noted(Reported(cls, attrs), cls, a)
  {
    assert (attrs + [a])[..|attrs|] == attrs;
  }

  /** The two special attributes, in the order the loop looks for them. */
  method Note(before: Report, cls: Class, a: Attr) returns (r: Report)
    ensures r == Noted(before, cls, a)
  {
    r := before;
    if a.typ == ERROR_CODE && |a.data| >= 4 {
      r := r.(code := a.data[2] as int % 8 * 100 + a.data[3] as int);
      if |a.data| > 4 {
        r := r.(reason := a.data[4..]);
      }
    }
    if a.typ == CONN_ID && cls == Success && |a.data| == 8 {
      r := r.(connId := Read32(a.data, 0) as int * 0x1_0000_0000 + Read32(a.data, 4) as int);
    }
  }

  // ----- the type field -----

  /** Method and class bits of a message type. */
  function ClassOf(raw: nat): nat { raw / 256 % 2 * 2 + raw / 16 % 2 }

  function MethodOf(raw: nat): nat { raw / 512 % 32 * 128 + raw / 32 % 8 * 16 + raw % 16 }

  /** Section 6 of RFC 5389: twelve method bits around two class bits. */
  function TypeOf(m: nat, c: nat): (typ: nat)
    requires m < 0x1000 && c < 4
    ensures typ < 0x4000
  {
    Digits(m, c);
    m / 128 * 512 + c / 2 * 256 + m / 16 % 8 * 32 + c % 2 * 16 + m % 16
  }

  lemma TypeSplits(m: nat, c: nat)
    requires m < 0x1000 && c < 4
    ensures MethodOf(TypeOf(m, c)) == m && ClassOf(TypeOf(m, c)) == c
  {
    var a, b, d, e, f := m / 128, c / 2, m / 16 % 8, c % 2, m % 16;
    Digits(m, c);
    Fields(a, b, d, e, f);
  }

  /** A message built with some method and class is parsed as that method and class, the two private types excepted. */
  lemma BuiltTypeParsed(g: Digests, m: nat, c: nat, attrs: seq<Attr>, txid: seq<byte>, key: Key, fingerprint: bool)
    requires m < 0x1000 && c < 4 && TypeOf(m, c) != PING && TypeOf(m, c) != PONG
    requires |txid| == 12 && Fits(Sealed(g, TypeOf(m, c), attrs, txid, key, fingerprint))
    ensures var r := Parse(Message(TypeOf(m, c), Sealed(g, TypeOf(m, c), attrs, txid, key, fingerprint), txid));
      r.Response? && r.info.stunMethod == MethodNamed(m) && r.info.stunClass == ClassNamed(c)
  {
    TypeSplits(m, c);
    hide Parse, Message, Sealed, TypeOf, MethodOf, ClassOf, Reported, Fits;
    BuildThenParse(g, TypeOf(m, c), attrs, txid, key, fingerprint);
  }

  lemma TypeIs(m: nat, c: nat)
    requires m < 0x1000 && c < 4
    ensures TypeOf(m, c) == m / 128 * 512 + c / 2 * 256 + m / 16 % 8 * 32 + c % 2 * 16 + m % 16
  {}

  /** Types as section 6 of RFC 5389 and section 13 of RFC 5766 have them. */
  lemma KnownTypes()
    ensures TypeOf(3, 0) == 0x0003 && TypeOf(6, 1) == 0x0016 && TypeOf(1, 2) == 0x0101 && TypeOf(1, 3) == 0x0111
  {
    hide TypeOf;
    TypeIs(3, 0);
    TypeIs(6, 1);
    TypeIs(1, 2);
    TypeIs(1, 3);
  }

  lemma KnownNames()
    ensures MethodNamed(1) == Binding && MethodNamed(3) == Allocate && MethodNamed(4) == Refresh
    ensures MethodNamed(6) == Send && MethodNamed(7) == Data && MethodNamed(8) == CreatePermission
    ensures MethodNamed(9) == ChannelBind && MethodIn(0x0801) == WaPing && MethodIn(0x0802) == WaPong
    ensures ClassNamed(0) == Request && ClassNamed(1) == Indication && ClassNamed(2) == Success
    ensures ClassNamed(3) == Error
  {}

  /** Without the cookie only the two private types are messages: indications with an id and no attributes. */
  lemma BarePings(data: seq<byte>)
    requires |data| >= HEADER && Read32(data, 4) != MAGIC
    ensures var typ := Value(data[..2]);
      && (Parse(data).Response? <==> typ == 0x0801 || typ == 0x0802)
      && (Parse(data).Response? ==> var i := Parse(data).info;
        && i.stunMethod == (if typ == 0x0801 then WaPing else WaPong) && i.stunClass == Indication
        && i.transactionId == data[8..20] && i.attributes == [] && i.rawType as int == typ)
  {
    Read16Value(data, 0);
    hide Read32, Read16, Value;
  }

  lemma Digits(m: nat, c: nat)
    requires m < 0x1000 && c < 4
    ensures m == m / 128 * 128 + m / 16 % 8 * 16 + m % 16 && c == c / 2 * 2 + c % 2 && m / 128 < 32
  {}

  lemma Fields(a: nat, b: nat, d: nat, e: nat, f: nat)
    requires a < 32 && b < 2 && d < 8 && e < 2 && f < 16
    ensures var raw := a * 512 + b * 256 + d * 32 + e * 16 + f;
      raw / 512 % 32 == a && raw / 256 % 2 == b && raw / 32 % 8 == d && raw / 16 % 2 == e && raw % 16 == f
  {
    var raw := a * 512 + b * 256 + d * 32 + e * 16 + f;
    ModUnique(raw, a, b * 256 + d * 32 + e * 16 + f, 512);
    ModUnique(a, 0, a, 32);
    ModUnique(raw, a * 2 + b, d * 32 + e * 16 + f, 256);
    ModUnique(a * 2 + b, a, b, 2);
    ModUnique(raw, a * 16 + b * 8 + d, e * 16 + f, 32);
    ModUnique(a * 16 + b * 8 + d, a * 2 + b, d, 8);
    ModUnique(raw, a * 32 + b * 16 + d * 2 + e, f, 16);
    ModUnique(a * 32 + b * 16 + d * 2 + e, a * 16 + b * 8 + d, e, 2);
  }
}
