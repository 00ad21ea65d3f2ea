/**
 * src/ip.ts: the daemon's own public IPv4 address. A STUN Binding transaction
 * (RFC 5389 sections 6, 15.1 and 15.2) resolves it, retried with a doubling
 * timeout; the PublicIp cell holds the last known address and emits "change"
 * only when a different address is stored.
 */
module PublicAddress {
  import opened Wrappers
  import opened Bytes
  import opened JsText

  /** An IPv4 address as its four octets, most significant first. */
  type Ip = s: seq<byte> | |s| == 4 witness [0, 0, 0, 0]

  const STUN_MAGIC_COOKIE: u32 := 0x2112A442
  const BINDING_REQUEST: u16 := 0x0001
  const BINDING_SUCCESS: u16 := 0x0101
  const MAPPED_ADDRESS: u16 := 0x0001
  const XOR_MAPPED_ADDRESS: u16 := 0x0020
  const FAMILY_IPV4: byte := 0x01
  /** A failed attempt whose timeout exceeds this is not retried. */
  const RETRY_CEILING: nat := 5000

  // ----- assertIp and isEqualIp -----

  /** assertIp: the fields are an address exactly when there are four of them, each in 0..255. */
  function AssertIp(fields: seq<JsNum>): (r: Option<Ip>)
    ensures r.Some? <==> |fields| == 4 && forall i :: 0 <= i < |fields| ==> fields[i].Num? && 0 <= fields[i].n <= 255
    ensures r.Some? ==> forall i :: 0 <= i < 4 ==> r.value[i] == fields[i].n
  {
    if |fields| == 4 && forall i :: 0 <= i < |fields| ==> fields[i].Num? && 0 <= fields[i].n <= 255
    then Some([fields[0].n, fields[1].n, fields[2].n, fields[3].n])
    else None
  }

  /** The fields of an address, as numbers. */
  function IpFields(ip: Ip): seq<JsNum>
  {
    seq(4, i requires 0 <= i < 4 => Num(ip[i]))
  }

  lemma AssertIpFields(ip: Ip)
    ensures AssertIp(IpFields(ip)) == Some(ip)
  {
    var r := AssertIp(IpFields(ip));
    assert r.Some?;
    assert r.value == ip;
  }

  /** isEqualIp on two valid addresses: same length and the same octet at every index. */
  function IsEqualIp(a: Ip, b: Ip): (r: bool)
    ensures r <==> a == b
  {
    |a| == |b| && forall i :: 0 <= i < |a| ==> a[i] == b[i]
  }

  // ----- dotted-quad text -----

  /** The four decimal octets of an address joined by dots, as a udp4 socket reports a peer. */
  function DottedQuad(ip: Ip): string
  {
    Join(OctetStrings(ip), '.')
  }

  function OctetStrings(ip: Ip): (r: seq<string>)
    ensures |r| == 4 && forall i :: 0 <= i < 4 ==> r[i] == DecimalString(ip[i])
  {
    seq(4, i requires 0 <= i < 4 => DecimalString(ip[i]))
  }

  /** text.split(".").map(s => Number.parseInt(s)) */
  function ParseIntFields(text: string): (r: seq<JsNum>)
    ensures |r| == |Split(text, '.')|
    ensures forall i :: 0 <= i < |r| ==> r[i] == ParseInt(Split(text, '.')[i])
  {
    var parts := Split(text, '.');
    seq(|parts|, i requires 0 <= i < |parts| => ParseInt(parts[i]))
  }

  /** text.split(".").map(Number) */
  function NumberFields(text: string): (r: seq<JsNum>)
    ensures |r| == |Split(text, '.')|
    ensures forall i :: 0 <= i < |r| ==> r[i] == NumberOf(Split(text, '.')[i])
  {
    var parts := Split(text, '.');
    seq(|parts|, i requires 0 <= i < |parts| => NumberOf(parts[i]))
  }

  lemma DottedQuadSplit(ip: Ip)
    ensures Split(DottedQuad(ip), '.') == OctetStrings(ip)
  {
    var parts := OctetStrings(ip);
    forall i | 0 <= i < 4 ensures '.' !in parts[i] {
      DecimalHasNoDot(ip[i]);
    }
    SplitJoin(parts, '.');
  }

  lemma DecimalHasNoDot(n: nat)
    ensures '.' !in DecimalString(n)
  {
    var d := DecimalString(n);
    assert forall k :: 0 <= k < |d| ==> d[k] != '.';
  }

  /** Parsing the dotted form of an address with parseInt gives its octets back. */
  lemma ParseIntFieldsDotted(ip: Ip)
    ensures ParseIntFields(DottedQuad(ip)) == IpFields(ip)
  {
    var f := ParseIntFields(DottedQuad(ip));
    var want := IpFields(ip);
    DottedQuadSplit(ip);
    assert |f| == 4;
    forall i | 0 <= i < 4 ensures f[i] == want[i] {
      assert Split(DottedQuad(ip), '.')[i] == DecimalString(ip[i]);
      ParseIntDecimal(ip[i]);
    }
  }

  /** Parsing the dotted form of an address with Number gives its octets back. */
  lemma NumberFieldsDotted(ip: Ip)
    ensures NumberFields(DottedQuad(ip)) == IpFields(ip)
  {
    var f := NumberFields(DottedQuad(ip));
    var want := IpFields(ip);
    DottedQuadSplit(ip);
    assert |f| == 4;
    forall i | 0 <= i < 4 ensures f[i] == want[i] {
      assert Split(DottedQuad(ip), '.')[i] == DecimalString(ip[i]);
      NumberOfDecimal(ip[i]);
    }
  }

  // ----- the Binding request -----

  /** The 20-byte Binding request: type, zero length, magic cookie, transaction id. */
  function BindingRequest(transactionId: seq<byte>): (r: seq<byte>)
    requires |transactionId| == 12
  {
    U16Bytes(BINDING_REQUEST) + U16Bytes(0) + U32Bytes(STUN_MAGIC_COOKIE) + transactionId
  }

  lemma BindingRequestLayout(transactionId: seq<byte>)
    requires |transactionId| == 12
    ensures var r := BindingRequest(transactionId);
      |r| == 20 && ReadU16(r, 0) == BINDING_REQUEST && ReadU16(r, 2) == 0
      && ReadU32(r, 4) == STUN_MAGIC_COOKIE && r[8..20] == transactionId
  {
  }

  // ----- reply header -----

  /** The checks a datagram must pass before its attributes are looked at. */
  predicate HeaderMatches(msg: seq<byte>, transactionId: seq<byte>)
  {
    |msg| >= 20
    && ReadU16(msg, 0) == BINDING_SUCCESS
    && ReadU16(msg, 2) == |msg| - 20
    && ReadU32(msg, 4) == STUN_MAGIC_COOKIE
    && msg[8..20] == transactionId
  }

  // ----- the attribute walk -----

  datatype Attribute = Attribute(typ: u16, length: u16, value: seq<byte>)

  /** Where the walk goes after the attribute at the head of `body`: 4 + length, clamped to the end. */
  function NextOffset(body: seq<byte>): (n: nat)
    requires |body| >= 4
    ensures 4 <= n <= |body|
  {
    Min(4 + ReadU16(body, 2), |body|)
  }

  /**
   * The attributes of a message body: type and length, then the next `length`
   * bytes (fewer at the end of the message); no padding is skipped, and the walk
   * stops when fewer than four bytes remain.
   */
  function Attributes(body: seq<byte>): (r: seq<Attribute>)
    ensures forall i :: 0 <= i < |r| ==> |r[i].value| <= r[i].length
    decreases |body|
  {
    if |body| < 4 then []
    else
      [Attribute(ReadU16(body, 0), ReadU16(body, 2), body[4..NextOffset(body)])]
      + Attributes(body[NextOffset(body)..])
  }

  /** The walk as the listener runs it: a loop that reassigns `body` and pushes to `messages`. */
  method WalkAttributes(message: seq<byte>) returns (messages: seq<Attribute>)
    ensures messages == Attributes(message)
  {
    var body := message;
    messages := [];
    while |body| >= 4
      invariant messages + Attributes(body) == Attributes(message)
      decreases |body|
    {
      var typ: int := ReadU16(body, 0);
      var length: int := ReadU16(body, 2);
      var value := body[4..Min(4 + length, |body|)];
      messages := messages + [Attribute(typ, length, value)];
      body := body[Min(4 + length, |body|)..];
    }
  }

  /** Attributes written back to back with exact lengths and no padding. */
  function EncodeAttributes(attrs: seq<Attribute>): seq<byte>
    requires forall i :: 0 <= i < |attrs| ==> |attrs[i].value| == attrs[i].length
  {
    if attrs == [] then []
    else U16Bytes(attrs[0].typ) + U16Bytes(attrs[0].length) + attrs[0].value + EncodeAttributes(attrs[1..])
  }

  /** Walking encoded attributes gives them back. */
  lemma {:induction false} AttributesEncode(attrs: seq<Attribute>)
    requires forall i :: 0 <= i < |attrs| ==> |attrs[i].value| == attrs[i].length
    ensures Attributes(EncodeAttributes(attrs)) == attrs
  {
    if attrs != [] {
      var a := attrs[0];
      var rest := EncodeAttributes(attrs[1..]);
      var body := EncodeAttributes(attrs);
      assert body == U16Bytes(a.typ) + U16Bytes(a.length) + a.value + rest;
      assert ReadU16(body, 0) == a.typ;
      assert ReadU16(body, 2) == a.length;
      assert NextOffset(body) == 4 + a.length;
      assert body[4..NextOffset(body)] == a.value;
      assert body[NextOffset(body)..] == rest;
      AttributesEncode(attrs[1..]);
      assert attrs == [a] + attrs[1..];
    }
  }

  // ----- address attributes -----

  /** The outcome of messages.find for an IPv4 attribute of one type. */
  datatype Search = Match(attr: Attribute) | NoMatch | ReadOutOfRange

  /**
   * messages.find(m => m.type === typ && m.value.readUInt8(1) === 0x01): the family
   * byte is read only for an attribute of the wanted type, and reading it from a
   * value shorter than two bytes throws.
   */
  function FindIpv4(attrs: seq<Attribute>, typ: u16): (r: Search)
    ensures r.Match? ==> r.attr in attrs && r.attr.typ == typ && |r.attr.value| >= 2 && r.attr.value[1] == FAMILY_IPV4
    ensures r.Match? ==> exists i :: 0 <= i < |attrs| && attrs[i] == r.attr && PassedOver(attrs, typ, i)
    ensures r.ReadOutOfRange? ==>
      exists i :: 0 <= i < |attrs| && attrs[i].typ == typ && |attrs[i].value| < 2 && PassedOver(attrs, typ, i)
    ensures r.NoMatch? ==> forall a :: a in attrs && a.typ == typ ==> |a.value| >= 2 && a.value[1] != FAMILY_IPV4
  {
    if attrs == [] then NoMatch
    else if attrs[0].typ == typ && |attrs[0].value| < 2 then
      assert PassedOver(attrs, typ, 0);
      ReadOutOfRange
    else if attrs[0].typ == typ && attrs[0].value[1] == FAMILY_IPV4 then
      assert PassedOver(attrs, typ, 0);
      Match(attrs[0])
    else
      var r := FindIpv4(attrs[1..], typ);
      FoundAfterHead(attrs, typ, r);
      r
  }

  /** Every attribute of the wanted type before index `i` was read and is not IPv4. */
  predicate PassedOver(attrs: seq<Attribute>, typ: u16, i: int)
    requires 0 <= i <= |attrs|
  {
    forall j :: 0 <= j < i && attrs[j].typ == typ ==> |attrs[j].value| >= 2 && attrs[j].value[1] != FAMILY_IPV4
  }

  /** What the search finds past a head it passed over keeps its place, one index further on. */
  lemma FoundAfterHead(attrs: seq<Attribute>, typ: u16, r: Search)
    requires |attrs| > 0 && r == FindIpv4(attrs[1..], typ)
    requires attrs[0].typ == typ ==> |attrs[0].value| >= 2 && attrs[0].value[1] != FAMILY_IPV4
    ensures r.Match? ==> exists i :: 0 <= i < |attrs| && attrs[i] == r.attr && PassedOver(attrs, typ, i)
    ensures r.ReadOutOfRange? ==>
      exists i :: 0 <= i < |attrs| && attrs[i].typ == typ && |attrs[i].value| < 2 && PassedOver(attrs, typ, i)
  {
    if !r.NoMatch? {
      var i :| 0 <= i < |attrs| - 1 && PassedOver(attrs[1..], typ, i)
               && (r.Match? ==> attrs[1..][i] == r.attr)
               && (r.ReadOutOfRange? ==> attrs[1..][i].typ == typ && |attrs[1..][i].value| < 2);
      PassedOverStep(attrs, typ, i);
      assert attrs[i + 1] == attrs[1..][i];
    }
  }

  lemma PassedOverStep(attrs: seq<Attribute>, typ: u16, i: nat)
    requires i < |attrs| - 1 && PassedOver(attrs[1..], typ, i)
    requires attrs[0].typ == typ ==> |attrs[0].value| >= 2 && attrs[0].value[1] != FAMILY_IPV4
    ensures PassedOver(attrs, typ, i + 1)
  {
    forall j | 0 <= j < i + 1 && attrs[j].typ == typ
      ensures |attrs[j].value| >= 2 && attrs[j].value[1] != FAMILY_IPV4
    {
      if j > 0 {
        assert attrs[j] == attrs[1..][j - 1];
      }
    }
  }

  function Pow2(k: nat): nat { if k == 0 then 1 else 2 * Pow2(k - 1) }

  /** Bitwise exclusive or, one bit at a time from the least significant. */
  function Xor(a: nat, b: nat): nat
    decreases a + b
  {
    if a == 0 && b == 0 then 0 else (a % 2 + b % 2) % 2 + 2 * Xor(a / 2, b / 2)
  }

  lemma HalfAndParity(r: nat, q: nat)
    requires r < 2
    ensures (r + 2 * q) % 2 == r && (r + 2 * q) / 2 == q
  {
  }

  /** The defining step of Xor also holds at zero. */
  lemma XorStep(a: nat, b: nat)
    ensures Xor(a, b) == (a % 2 + b % 2) % 2 + 2 * Xor(a / 2, b / 2)
  {
  }

  /** XOR with the same mask twice is the identity: the reason XOR-MAPPED-ADDRESS decodes. */
  lemma {:induction false} XorInvolution(a: nat, b: nat)
    ensures Xor(Xor(a, b), b) == a
    decreases a + b
  {
    if a != 0 || b != 0 {
      var q := Xor(a / 2, b / 2);
      var r := (a % 2 + b % 2) % 2;
      var x := r + 2 * q;
      XorStep(a, b);
      assert Xor(a, b) == x;
      HalfAndParity(r, q);
      XorInvolution(a / 2, b / 2);
      assert Xor(x / 2, b / 2) == a / 2;
      XorStep(x, b);
      ParityTwice(a % 2, b % 2);
      assert (x % 2 + b % 2) % 2 == a % 2;
      assert Xor(x, b) == a % 2 + 2 * (a / 2);
    }
  }

  /** Adding the same bit twice, modulo 2, gives the first bit back. */
  lemma ParityTwice(a0: nat, b0: nat)
    requires a0 < 2 && b0 < 2
    ensures ((a0 + b0) % 2 + b0) % 2 == a0
  {
  }

  lemma {:induction false} XorBound(a: nat, b: nat, k: nat)
    requires a < Pow2(k) && b < Pow2(k)
    ensures Xor(a, b) < Pow2(k)
    decreases k
  {
    if k > 0 && (a != 0 || b != 0) {
      XorBound(a / 2, b / 2, k - 1);
    }
  }

  lemma Pow2Widths()
    ensures Pow2(16) == 0x1_0000 && Pow2(32) == 0x1_0000_0000
  {
    assert Pow2(4) == 16;
    assert Pow2(8) == 256;
    assert Pow2(12) == 4096;
    assert Pow2(16) == 65536;
    assert Pow2(20) == 1048576;
    assert Pow2(24) == 16777216;
    assert Pow2(28) == 268435456;
  }

  /** JavaScript's `^` on two 32-bit values (the octets of the signed result are the same). */
  function XorU32(a: u32, b: u32): u32
  {
    Pow2Widths();
    XorBound(a, b, 32);
    Xor(a, b)
  }

  function XorU16(a: u16, b: u16): u16
  {
    Pow2Widths();
    XorBound(a, b, 16);
    Xor(a, b)
  }

  lemma XorU32Involution(a: u32, b: u32)
    ensures XorU32(XorU32(a, b), b) == a
  {
    XorInvolution(a, b);
  }

  /** XOR-MAPPED-ADDRESS: value bytes 4..8 read big-endian, XORed with the magic cookie, split into octets. */
  function XorMappedIp(value: seq<byte>): Ip
    requires |value| >= 8
  {
    U32Bytes(XorU32(ReadU32(value, 4), STUN_MAGIC_COOKIE))
  }

  /** MAPPED-ADDRESS: value bytes 4..8 as they are. */
  function MappedIp(value: seq<byte>): (ip: Ip)
    requires |value| >= 8
    ensures ip == value[4..8]
  {
    U32BytesRead(value, 4);
    U32Bytes(ReadU32(value, 4))
  }

  /** What the socket listener does with one datagram. */
  datatype ReplyOutcome =
    | Ignored               // a header check failed: the listener returns
    | Resolved(ip: Ip)      // the lookup resolves with this address
    | NoAddressFound        // rejected with "No address found"
    | ListenerThrows        // a Buffer read out of range escapes the listener

  function DecodeAddress(s: Search, xor: bool, orElse: ReplyOutcome): ReplyOutcome
  {
    match s
    case ReadOutOfRange => ListenerThrows
    case Match(a) =>
      if |a.value| < 8 then ListenerThrows
      else if xor then Resolved(XorMappedIp(a.value)) else Resolved(MappedIp(a.value))
    case NoMatch => orElse
  }

  /** The message listener of getPublicIp: header checks, walk, XOR-MAPPED-ADDRESS then MAPPED-ADDRESS. */
  function ParseReply(msg: seq<byte>, transactionId: seq<byte>): (r: ReplyOutcome)
    ensures !HeaderMatches(msg, transactionId) ==> r == Ignored
  {
    if !HeaderMatches(msg, transactionId) then Ignored
    else
      var attrs := Attributes(msg[20..]);
      match FindIpv4(attrs, XOR_MAPPED_ADDRESS)
      case Match(_) => DecodeAddress(FindIpv4(attrs, XOR_MAPPED_ADDRESS), true, NoAddressFound)
      case ReadOutOfRange => ListenerThrows
      case NoMatch => DecodeAddress(FindIpv4(attrs, MAPPED_ADDRESS), false, NoAddressFound)
  }

  // ----- the server side of the exchange, as the partner of ParseReply -----

  function IpValue(ip: Ip): u32 { ReadU32(ip, 0) }

  /** An XOR-MAPPED-ADDRESS value for an IPv4 address and port (RFC 5389 section 15.2). */
  function XorMappedValue(ip: Ip, port: u16): (v: seq<byte>)
    ensures |v| == 8
  {
    [0, FAMILY_IPV4] + U16Bytes(XorU16(port, 0x2112)) + U32Bytes(XorU32(IpValue(ip), STUN_MAGIC_COOKIE))
  }

  /** A MAPPED-ADDRESS value for an IPv4 address and port (RFC 5389 section 15.1). */
  function MappedValue(ip: Ip, port: u16): (v: seq<byte>)
    ensures |v| == 8
  {
    [0, FAMILY_IPV4] + U16Bytes(port) + ip
  }

  /** XOR-decoding what was XOR-encoded gives the address back. */
  lemma XorMappedRoundTrip(ip: Ip, port: u16)
    ensures XorMappedIp(XorMappedValue(ip, port)) == ip
  {
    var v := XorMappedValue(ip, port);
    var w := XorU32(IpValue(ip), STUN_MAGIC_COOKIE);
    assert v[4..8] == U32Bytes(w);
    U32BytesRead(v, 4);
    assert U32Bytes(ReadU32(v, 4)) == U32Bytes(w);
    U32BytesInjective(ReadU32(v, 4), w);
    XorU32Involution(IpValue(ip), STUN_MAGIC_COOKIE);
    U32BytesRead(ip, 0);
    assert ip[0..4] == ip;
  }

  lemma U32BytesInjective(a: u32, b: u32)
    requires U32Bytes(a) == U32Bytes(b)
    ensures a == b
  {
    ReadU32Put(U32Bytes(a), 0, a);
    ReadU32Put(U32Bytes(b), 0, b);
    assert Put(U32Bytes(a), 0, U32Bytes(a)) == U32Bytes(a);
    assert Put(U32Bytes(b), 0, U32Bytes(b)) == U32Bytes(b);
  }

  /** A Binding success response carrying the given attributes. */
  function BindingSuccess(transactionId: seq<byte>, attrs: seq<Attribute>): seq<byte>
    requires |transactionId| == 12
    requires forall i :: 0 <= i < |attrs| ==> |attrs[i].value| == attrs[i].length
    requires |EncodeAttributes(attrs)| < 0x1_0000
  {
    U16Bytes(BINDING_SUCCESS) + U16Bytes(|EncodeAttributes(attrs)|) + U32Bytes(STUN_MAGIC_COOKIE)
    + transactionId + EncodeAttributes(attrs)
  }

  lemma BindingSuccessParts(transactionId: seq<byte>, attrs: seq<Attribute>)
    requires |transactionId| == 12
    requires forall i :: 0 <= i < |attrs| ==> |attrs[i].value| == attrs[i].length
    requires |EncodeAttributes(attrs)| < 0x1_0000
    ensures var m := BindingSuccess(transactionId, attrs);
      HeaderMatches(m, transactionId) && Attributes(m[20..]) == attrs
  {
    var body := EncodeAttributes(attrs);
    var h1, h2, h3 := U16Bytes(BINDING_SUCCESS), U16Bytes(|body|), U32Bytes(STUN_MAGIC_COOKIE);
    var m := BindingSuccess(transactionId, attrs);
    assert m == h1 + h2 + h3 + transactionId + body;
    assert m[0] == h1[0] && m[1] == h1[1] && m[2] == h2[0] && m[3] == h2[1];
    assert m[4] == h3[0] && m[5] == h3[1] && m[6] == h3[2] && m[7] == h3[3];
    assert ReadU16(m, 0) == BINDING_SUCCESS;
    assert ReadU16(m, 2) == |m| - 20;
    assert ReadU32(m, 4) == STUN_MAGIC_COOKIE;
    assert m[20..] == body;
    assert m[8..20] == transactionId;
    AttributesEncode(attrs);
  }

  /** A reply carrying XOR-MAPPED-ADDRESS resolves to the encoded address. */
  lemma ParseXorMappedReply(transactionId: seq<byte>, ip: Ip, port: u16)
    requires |transactionId| == 12
    ensures ParseReply(BindingSuccess(transactionId, [Attribute(XOR_MAPPED_ADDRESS, 8, XorMappedValue(ip, port))]), transactionId)
      == Resolved(ip)
  {
    var a := Attribute(XOR_MAPPED_ADDRESS, 8, XorMappedValue(ip, port));
    var attrs := [a];
    assert |EncodeAttributes(attrs)| == 12;
    BindingSuccessParts(transactionId, attrs);
    assert a.value[1] == FAMILY_IPV4;
    assert FindIpv4(attrs, XOR_MAPPED_ADDRESS) == Match(a);
    XorMappedRoundTrip(ip, port);
  }

  /** Without XOR-MAPPED-ADDRESS, a reply carrying MAPPED-ADDRESS resolves to that address. */
  lemma ParseMappedReply(transactionId: seq<byte>, ip: Ip, port: u16)
    requires |transactionId| == 12
    ensures ParseReply(BindingSuccess(transactionId, [Attribute(MAPPED_ADDRESS, 8, MappedValue(ip, port))]), transactionId)
      == Resolved(ip)
  {
    var a := Attribute(MAPPED_ADDRESS, 8, MappedValue(ip, port));
    var attrs := [a];
    assert |EncodeAttributes(attrs)| == 12;
    BindingSuccessParts(transactionId, attrs);
    assert FindIpv4(attrs, XOR_MAPPED_ADDRESS) == NoMatch;
    assert a.value[1] == FAMILY_IPV4;
    assert FindIpv4(attrs, MAPPED_ADDRESS) == Match(a);
    assert MappedValue(ip, port)[4..8] == ip;
  }

  /** A reply with neither address attribute rejects with "No address found". */
  lemma ParseReplyWithoutAddress(transactionId: seq<byte>)
    requires |transactionId| == 12
    ensures ParseReply(BindingSuccess(transactionId, []), transactionId) == NoAddressFound
  {
    BindingSuccessParts(transactionId, []);
  }

  /** A reply to another transaction is ignored. */
  lemma ParseReplyOtherTransaction(transactionId: seq<byte>, other: seq<byte>, attrs: seq<Attribute>)
    requires |transactionId| == 12 && |other| == 12 && other != transactionId
    requires forall i :: 0 <= i < |attrs| ==> |attrs[i].value| == attrs[i].length
    requires |EncodeAttributes(attrs)| < 0x1_0000
    ensures ParseReply(BindingSuccess(other, attrs), transactionId) == Ignored
  {
    var m := BindingSuccess(other, attrs);
    assert m[8..20] == other;
  }

  // ----- retry with a doubling timeout -----

  /** The outcome of one attempt: an address, or a rejection (timeout, no address, socket error). */
  datatype Attempt = Answered(ip: Ip) | Failed(reason: string)

  /**
   * getPublicIp(timeout): one attempt whose outcome the network decides; a failed
   * attempt is retried with twice the timeout, unless its timeout exceeded the
   * ceiling, in which case its error is rethrown.
   */
  function GetPublicIp(timeout: nat, net: nat -> Attempt): Attempt
    requires timeout > 0
    decreases if timeout > RETRY_CEILING then 0 else RETRY_CEILING + 1 - timeout
  {
    match net(timeout)
    case Answered(ip) => Answered(ip)
    case Failed(e) => if timeout > RETRY_CEILING then Failed(e) else GetPublicIp(timeout * 2, net)
  }

  /** The timeouts of the attempts made when every attempt fails. */
  function AttemptTimeouts(timeout: nat): (ts: seq<nat>)
    requires timeout > 0
    ensures |ts| >= 1 && ts[0] == timeout
    decreases if timeout > RETRY_CEILING then 0 else RETRY_CEILING + 1 - timeout
  {
    if timeout > RETRY_CEILING then [timeout] else [timeout] + AttemptTimeouts(timeout * 2)
  }

  /** From the default 500 ms the attempts are 500, 1000, 2000, 4000 and 8000 ms. */
  lemma DefaultSchedule()
    ensures AttemptTimeouts(500) == [500, 1000, 2000, 4000, 8000]
  {
  }

  /** Each timeout doubles the previous one; only the last exceeds the ceiling, and it is below twice the ceiling. */
  lemma {:induction false} ScheduleShape(timeout: nat)
    requires 0 < timeout <= 2 * RETRY_CEILING
    ensures var ts := AttemptTimeouts(timeout);
      (forall i :: 0 <= i < |ts| - 1 ==> ts[i + 1] == 2 * ts[i] && ts[i] <= RETRY_CEILING)
      && RETRY_CEILING < ts[|ts| - 1] <= 2 * RETRY_CEILING
    decreases if timeout > RETRY_CEILING then 0 else RETRY_CEILING + 1 - timeout
  {
    if timeout <= RETRY_CEILING {
      ScheduleShape(timeout * 2);
    }
  }

  /** Every attempt with these timeouts fails. */
  predicate AllFail(ts: seq<nat>, net: nat -> Attempt)
  {
    forall i :: 0 <= i < |ts| ==> net(ts[i]).Failed?
  }

  function Last(ts: seq<nat>): nat
    requires |ts| >= 1
  {
    ts[|ts| - 1]
  }

  /** The lookup fails only when every scheduled attempt fails, and then with the last attempt's error. */
  lemma {:induction false} GetPublicIpFails(timeout: nat, net: nat -> Attempt)
    requires timeout > 0
    ensures GetPublicIp(timeout, net).Failed? <==> AllFail(AttemptTimeouts(timeout), net)
    ensures GetPublicIp(timeout, net).Failed? ==> GetPublicIp(timeout, net) == net(Last(AttemptTimeouts(timeout)))
    decreases if timeout > RETRY_CEILING then 0 else RETRY_CEILING + 1 - timeout
  {
    var ts := AttemptTimeouts(timeout);
    if timeout <= RETRY_CEILING {
      var rest := AttemptTimeouts(timeout * 2);
      GetPublicIpFails(timeout * 2, net);
      assert ts == [timeout] + rest;
      assert (forall i :: 0 <= i < |ts| ==> net(ts[i]).Failed?)
        <==> net(timeout).Failed? && forall i :: 0 <= i < |rest| ==> net(rest[i]).Failed? by {
        if forall i :: 0 <= i < |ts| ==> net(ts[i]).Failed? {
          forall i | 0 <= i < |rest| ensures net(rest[i]).Failed? {
            assert rest[i] == ts[i + 1];
          }
        }
        if net(timeout).Failed? && forall i :: 0 <= i < |rest| ==> net(rest[i]).Failed? {
          forall i | 0 < i < |ts| ensures net(ts[i]).Failed? {
            assert ts[i] == rest[i - 1];
          }
        }
      }
      assert GetPublicIp(timeout, net).Failed? <==> net(timeout).Failed? && GetPublicIp(timeout * 2, net).Failed?;
      assert ts[|ts| - 1] == rest[|rest| - 1];
    } else {
      assert ts == [timeout];
      assert GetPublicIp(timeout, net) == net(timeout);
    }
  }

  /** The lookup answers with the address of the first attempt that answered. */
  lemma {:induction false} GetPublicIpAnswers(timeout: nat, net: nat -> Attempt, k: nat)
    requires timeout > 0
    requires k < |AttemptTimeouts(timeout)|
    requires net(AttemptTimeouts(timeout)[k]).Answered?
    requires forall i :: 0 <= i < k ==> net(AttemptTimeouts(timeout)[i]).Failed?
    ensures GetPublicIp(timeout, net) == net(AttemptTimeouts(timeout)[k])
    decreases k
  {
    var ts := AttemptTimeouts(timeout);
    if k > 0 {
      assert net(ts[0]).Failed?;
      assert timeout <= RETRY_CEILING;
      var rest := AttemptTimeouts(timeout * 2);
      assert ts == [timeout] + rest;
      forall i | 0 <= i < k - 1 ensures net(rest[i]).Failed? {
        assert rest[i] == ts[i + 1];
      }
      GetPublicIpAnswers(timeout * 2, net, k - 1);
    }
  }

  // ----- the PublicIp cell -----

  /** A "change" event: the new address and the one it replaced (none on the first set). */
  datatype Change = Change(newIp: Ip, oldIp: Option<Ip>)

  /** Every emitted change names a different address, and each one starts from where the previous ended. */
  ghost predicate ChangeChain(changes: seq<Change>, current: Option<Ip>)
  {
    (forall i :: 0 <= i < |changes| ==> changes[i].oldIp != Some(changes[i].newIp))
    && (forall i :: 0 < i < |changes| ==> changes[i].oldIp == Some(changes[i - 1].newIp))
    && (changes == [] ==> current == None)
    && (changes != [] ==> current == Some(changes[|changes| - 1].newIp) && changes[0].oldIp == None)
  }

  class PublicIp {
    /** The stored address (`_ip`); None until the first set. */
    var ip: Option<Ip>
    /** The "change" events emitted so far, oldest first. */
    var changes: seq<Change>

    ghost predicate Valid()
      reads this
    {
      ChangeChain(changes, ip)
    }

    constructor ()
      ensures Valid() && ip == None && changes == []
    {
      ip := None;
      changes := [];
    }

    /** The getter: throws "Public ip not ready" until an address was set. */
    method Get() returns (r: Result<Ip>)
      ensures r.Ok? <==> ip.Some?
      ensures ip.Some? ==> r.value == ip.value
    {
      if ip.None? {
        return Err("Public ip not ready");
      }
      return Ok(ip.value);
    }

    /**
     * The setter: an invalid address throws and changes nothing; an address equal
     * to the stored one changes nothing and emits nothing; a different one is
     * stored and emits exactly one change (new, old).
     */
    method Set(fields: seq<JsNum>) returns (ok: bool)
      requires Valid()
      modifies this
      ensures Valid()
      ensures ok <==> AssertIp(fields).Some?
      ensures !ok ==> ip == old(ip) && changes == old(changes)
      ensures ok && old(ip) == AssertIp(fields) ==> ip == old(ip) && changes == old(changes)
      ensures ok && old(ip) != AssertIp(fields) ==>
        ip == AssertIp(fields) && changes == old(changes) + [Change(AssertIp(fields).value, old(ip))]
    {
      var checked := AssertIp(fields);
      if checked.None? {
        return false;
      }
      var newIp := checked.value;
      if ip.Some? && IsEqualIp(ip.value, newIp) {
        return true;
      }
      var oldIp := ip;
      ip := Some(newIp);
      changes := changes + [Change(newIp, oldIp)];
      return true;
    }
  }

  /**
   * Setting the same address twice emits at most one change: the first set
   * emits one when the address is new, the second finds it stored and emits
   * nothing.
   */
  method SetTwiceEmitsOnce(cell: PublicIp, fields: seq<JsNum>)
    requires cell.Valid()
    modifies cell
    ensures cell.Valid()
    ensures cell.ip == (if AssertIp(fields).Some? then AssertIp(fields) else old(cell.ip))
    ensures cell.changes == old(cell.changes) +
      (if AssertIp(fields).Some? && old(cell.ip) != AssertIp(fields)
       then [Change(AssertIp(fields).value, old(cell.ip))] else [])
  {
    var ok1 := cell.Set(fields);
    var between := cell.changes;
    var ok2 := cell.Set(fields);
    assert cell.changes == between;
  }
}
