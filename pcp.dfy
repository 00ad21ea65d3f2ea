/**
 * src/server/pcp-handler.ts: the Port Control Protocol MAP opcode (RFC 6887
 * sections 7, 8.3 and 11.1). A request runs an ordered list of checks; the
 * first that fails decides the one error response, which copies up to 1100
 * octets of the request padded to a multiple of four. A request that passes
 * is answered from a copy of itself, overwritten at fixed offsets.
 */
module Pcp {
  import opened Wrappers
  import opened Bytes
  import opened JsText
  import opened MappingApi
  import opened PublicAddress

  const VERSION: byte := 2
  const OP_MAP: byte := 1

  const SUCCESS: byte := 0
  const UNSUPPORTED_VERSION: byte := 1
  const MALFORMED_REQUEST: byte := 3
  const UNSUPPORTED_OPCODE: byte := 4
  const UNSUPPORTED_OPTION: byte := 5
  const NETWORK_FAILURE: byte := 7
  const UNSUPPORTED_PROTOCOL: byte := 9
  const ADDRESS_MISMATCH: byte := 12

  /** A MAP request without options. */
  const MAP_LENGTH: nat := 60
  /** The most of a request an error response copies. */
  const MAX_COPY: nat := 1100
  const LONG_LIFETIME: u32 := 1800
  const SHORT_LIFETIME: u32 := 30

  // ----- IPv4-mapped IPv6 addresses (::ffff:0:0/96) -----

  /** The address `buf` holds in IPv4-mapped form: ten zero octets, two 0xFF octets, the four octets. */
  function Ipv4Mapped(buf: seq<byte>): (r: Option<Ip>)
    ensures r.Some? <==>
      |buf| == 16 && (forall i :: 0 <= i < 10 ==> buf[i] == 0) && buf[10] == 0xFF && buf[11] == 0xFF
    ensures r.Some? ==> r.value == buf[12..16]
  {
    if |buf| == 16 && (forall i :: 0 <= i < 10 ==> buf[i] == 0) && buf[10] == 0xFF && buf[11] == 0xFF
    then Some(buf[12..16])
    else None
  }

  /** readIpv4MappedAddress: checks the length, the ten zero octets and the two 0xFF octets in turn. */
  method ReadIpv4MappedAddress(buf: seq<byte>) returns (r: Option<Ip>)
    ensures r == Ipv4Mapped(buf)
  {
    if |buf| != 16 {
      return None;
    }
    var i := 0;
    while i < 10
      invariant 0 <= i <= 10
      invariant forall k :: 0 <= k < i ==> buf[k] == 0
    {
      if buf[i] != 0 {
        return None;
      }
      i := i + 1;
    }
    if buf[10] != 0xFF || buf[11] != 0xFF {
      return None;
    }
    assert buf[12..16] == [buf[12], buf[13], buf[14], buf[15]];
    return Some([buf[12], buf[13], buf[14], buf[15]]);
  }

  /** The IPv4-mapped form of an address. */
  function MappedForm(ip: Ip): (r: seq<byte>)
    ensures |r| == 16
  {
    Zeros(10) + [0xFF, 0xFF] + ip
  }

  lemma MappedFormRoundTrip(ip: Ip)
    ensures Ipv4Mapped(MappedForm(ip)) == Some(ip)
  {
    var b := MappedForm(ip);
    assert forall i :: 0 <= i < 10 ==> b[i] == 0;
    assert b[12..16] == ip;
  }

  // ----- request checks -----

  /** The verdict of the checks on a request. */
  datatype Check =
    | Refuse(code: byte)
    | Proceed(lifetime: u32, protocol: byte, sourcePort: u16)

  /**
   * The checks of handle in order: version, opcode, too short, too long (options
   * are not supported), protocol, wildcard port, mapped addresses, and the
   * client address against the datagram's source.
   */
  function Validate(message: seq<byte>, remote: Ip): (r: Check)
    ensures r.Proceed? ==> |message| == MAP_LENGTH
    ensures r.Proceed? ==>
      message[0] == VERSION && message[1] == OP_MAP
      && (message[36] == TCP || message[36] == UDP) && ReadU16(message, 40) != 0
      && Ipv4Mapped(message[8..24]).Some? && Ipv4Mapped(message[44..60]).Some?
      && IsEqualIp(Ipv4Mapped(message[8..24]).value, remote)
      && r == Proceed(ReadU32(message, 4), message[36], ReadU16(message, 40))
  {
    if |message| < 1 || message[0] != VERSION then Refuse(UNSUPPORTED_VERSION)
    else if |message| < 2 || message[1] != OP_MAP then Refuse(UNSUPPORTED_OPCODE)
    else if |message| < MAP_LENGTH then Refuse(MALFORMED_REQUEST)
    else if |message| > MAP_LENGTH then Refuse(UNSUPPORTED_OPTION)
    else
      var sourceIp := Ipv4Mapped(message[8..24]);
      var externalIp := Ipv4Mapped(message[44..60]);
      var protocol := message[36];
      var sourcePort := ReadU16(message, 40);
      if protocol != TCP && protocol != UDP then Refuse(UNSUPPORTED_PROTOCOL)
      else if sourcePort == 0 then Refuse(UNSUPPORTED_PROTOCOL)
      else if sourceIp.None? || externalIp.None? then Refuse(MALFORMED_REQUEST)
      else if !IsEqualIp(sourceIp.value, remote) then Refuse(ADDRESS_MISMATCH)
      else Proceed(ReadU32(message, 4), protocol, sourcePort)
  }

  /** A MAP request as a client lays it out (RFC 6887 sections 7.1 and 11.1). */
  function MapRequest(lifetime: u32, client: Ip, nonce: seq<byte>, protocol: byte,
                      sourcePort: u16, externalPort: u16, external: Ip): (m: seq<byte>)
    requires |nonce| == 12
    ensures |m| == MAP_LENGTH
  {
    RequestHeader(lifetime, client) + MapBody(nonce, protocol, sourcePort, externalPort, external)
  }

  /** Octets 0..24: version, opcode, reserved, lifetime, client address. */
  function RequestHeader(lifetime: u32, client: Ip): (h: seq<byte>)
    ensures |h| == 24
  {
    [VERSION, OP_MAP, 0, 0] + U32Bytes(lifetime) + MappedForm(client)
  }

  /** Octets 24..60: nonce, protocol, reserved, internal port, suggested external port and address. */
  function MapBody(nonce: seq<byte>, protocol: byte, sourcePort: u16, externalPort: u16, external: Ip): (b: seq<byte>)
    requires |nonce| == 12
    ensures |b| == 36
  {
    nonce + [protocol, 0, 0, 0] + U16Bytes(sourcePort) + U16Bytes(externalPort) + MappedForm(external)
  }

  lemma RequestHeaderFields(lifetime: u32, client: Ip)
    ensures var h := RequestHeader(lifetime, client);
      h[0] == VERSION && h[1] == OP_MAP && ReadU32(h, 4) == lifetime && h[8..24] == MappedForm(client)
  {
    var h := RequestHeader(lifetime, client);
    var l := U32Bytes(lifetime);
    assert h[4] == l[0] && h[5] == l[1] && h[6] == l[2] && h[7] == l[3];
    U32BytesValue(lifetime);
    assert h[8..24] == MappedForm(client);
  }

  lemma MapBodyFields(nonce: seq<byte>, protocol: byte, sourcePort: u16, externalPort: u16, external: Ip)
    requires |nonce| == 12
    ensures var b := MapBody(nonce, protocol, sourcePort, externalPort, external);
      b[..12] == nonce && b[12] == protocol && ReadU16(b, 16) == sourcePort && b[20..36] == MappedForm(external)
  {
    var b := MapBody(nonce, protocol, sourcePort, externalPort, external);
    var p := U16Bytes(sourcePort);
    assert b[16] == p[0] && b[17] == p[1];
    assert b[..12] == nonce;
    assert b[20..36] == MappedForm(external);
  }

  lemma MapRequestFields(lifetime: u32, client: Ip, nonce: seq<byte>, protocol: byte,
                         sourcePort: u16, externalPort: u16, external: Ip)
    requires |nonce| == 12
    ensures var m := MapRequest(lifetime, client, nonce, protocol, sourcePort, externalPort, external);
      m[0] == VERSION && m[1] == OP_MAP && ReadU32(m, 4) == lifetime
      && m[8..24] == MappedForm(client) && m[24..36] == nonce && m[36] == protocol
      && ReadU16(m, 40) == sourcePort && m[44..60] == MappedForm(external)
  {
    var h := RequestHeader(lifetime, client);
    var b := MapBody(nonce, protocol, sourcePort, externalPort, external);
    var m := h + b;
    RequestHeaderFields(lifetime, client);
    MapBodyFields(nonce, protocol, sourcePort, externalPort, external);
    assert m[..24] == h;
    assert m[24..] == b;
    assert m[8..24] == h[8..24];
    assert m[24..36] == b[..12];
    assert m[44..60] == b[20..36];
    assert ReadU32(m, 4) == ReadU32(h, 4);
    assert ReadU16(m, 40) == ReadU16(b, 16);
  }

  /** A well-formed MAP request from the client it names passes every check. */
  lemma ValidateMapRequest(lifetime: u32, client: Ip, nonce: seq<byte>, protocol: byte,
                           sourcePort: u16, externalPort: u16, external: Ip)
    requires |nonce| == 12
    requires protocol == TCP || protocol == UDP
    requires sourcePort != 0
    ensures Validate(MapRequest(lifetime, client, nonce, protocol, sourcePort, externalPort, external), client)
      == Proceed(lifetime, protocol, sourcePort)
  {
    MapRequestFields(lifetime, client, nonce, protocol, sourcePort, externalPort, external);
    MappedFormRoundTrip(client);
    MappedFormRoundTrip(external);
  }

  /** The same request arriving from another address is refused with ADDRESS_MISMATCH. */
  lemma ValidateOtherSender(lifetime: u32, client: Ip, nonce: seq<byte>, protocol: byte,
                            sourcePort: u16, externalPort: u16, external: Ip, remote: Ip)
    requires |nonce| == 12
    requires protocol == TCP || protocol == UDP
    requires sourcePort != 0
    requires remote != client
    ensures Validate(MapRequest(lifetime, client, nonce, protocol, sourcePort, externalPort, external), remote)
      == Refuse(ADDRESS_MISMATCH)
  {
    MapRequestFields(lifetime, client, nonce, protocol, sourcePort, externalPort, external);
    MappedFormRoundTrip(client);
    MappedFormRoundTrip(external);
  }

  /** A datagram of another version, the empty one included, is refused before anything else is read. */
  lemma ValidateOtherVersion(message: seq<byte>, remote: Ip)
    requires |message| == 0 || message[0] != VERSION
    ensures Validate(message, remote) == Refuse(UNSUPPORTED_VERSION)
  {
  }

  /** A PCP datagram of an opcode other than MAP (ANNOUNCE, PEER) is refused with UNSUPPORTED_OPCODE. */
  lemma ValidateOtherOpcode(message: seq<byte>, remote: Ip)
    requires |message| >= 1 && message[0] == VERSION
    requires |message| == 1 || message[1] != OP_MAP
    ensures Validate(message, remote) == Refuse(UNSUPPORTED_OPCODE)
  {
  }

  /** A MAP request for a protocol other than TCP and UDP is refused with UNSUPPORTED_PROTOCOL. */
  lemma ValidateOtherProtocol(lifetime: u32, client: Ip, nonce: seq<byte>, protocol: byte,
                              sourcePort: u16, externalPort: u16, external: Ip, remote: Ip)
    requires |nonce| == 12
    requires protocol != TCP && protocol != UDP
    ensures Validate(MapRequest(lifetime, client, nonce, protocol, sourcePort, externalPort, external), remote)
      == Refuse(UNSUPPORTED_PROTOCOL)
  {
    MapRequestFields(lifetime, client, nonce, protocol, sourcePort, externalPort, external);
  }

  /** A MAP request for the wildcard internal port 0 is refused with UNSUPPORTED_PROTOCOL too. */
  lemma ValidateWildcardPort(lifetime: u32, client: Ip, nonce: seq<byte>, protocol: byte,
                             externalPort: u16, external: Ip, remote: Ip)
    requires |nonce| == 12
    requires protocol == TCP || protocol == UDP
    ensures Validate(MapRequest(lifetime, client, nonce, protocol, 0, externalPort, external), remote)
      == Refuse(UNSUPPORTED_PROTOCOL)
  {
    MapRequestFields(lifetime, client, nonce, protocol, 0, externalPort, external);
  }

  /**
   * A 60-octet MAP request whose client or suggested external address is not
   * in the IPv4-mapped form is refused with MALFORMED_REQUEST.
   */
  lemma ValidateUnmappedAddress(message: seq<byte>, remote: Ip)
    requires |message| == MAP_LENGTH && message[0] == VERSION && message[1] == OP_MAP
    requires (message[36] == TCP || message[36] == UDP) && ReadU16(message, 40) != 0
    requires Ipv4Mapped(message[8..24]).None? || Ipv4Mapped(message[44..60]).None?
    ensures Validate(message, remote) == Refuse(MALFORMED_REQUEST)
  {
  }

  /** The length checks come before anything in the body is looked at. */
  lemma ValidateLengthFirst(message: seq<byte>, remote: Ip)
    requires |message| >= 2 && message[0] == VERSION && message[1] == OP_MAP
    ensures |message| < MAP_LENGTH ==> Validate(message, remote) == Refuse(MALFORMED_REQUEST)
    ensures |message| > MAP_LENGTH ==> Validate(message, remote) == Refuse(UNSUPPORTED_OPTION)
    ensures Validate(message, remote).Proceed? ==> |message| == MAP_LENGTH
  {
  }

  // ----- error responses -----

  /** min(length, 1100) rounded up to a multiple of four. */
  function ErrorLength(n: nat): (len: nat)
    ensures len % 4 == 0 && len <= MAX_COPY
    ensures Min(n, MAX_COPY) <= len < Min(n, MAX_COPY) + 4
  {
    var l := Min(n, MAX_COPY);
    if l % 4 != 0 then l + 4 - l % 4 else l
  }

  /** A Buffer too short for a write makes the write throw, so nothing is sent below 24 octets. */
  lemma ErrorLengthAtLeast24(n: nat)
    ensures ErrorLength(n) >= 24 <==> n > 20
  {
  }

  /**
   * sendError's datagram, or None when one of its writes throws: the request's
   * first octets, opcode + 128 at 1, the result code at 3, the lifetime at 4,
   * the epoch at 8, and 12..24 zeroed.
   */
  function ErrorResponse(message: seq<byte>, code: byte, longLifetime: bool, epoch: u32): (r: Option<seq<byte>>)
  {
    var len := ErrorLength(|message|);
    if len < 24 then None
    else
      var copy := Put(Zeros(len), 0, message[..Min(|message|, len)]);
      var head := Put(Put(copy, 1, [LowByte(message[1] as int + 128)]), 3, [code]);
      var timed := Put(head, 4, U32Bytes(if longLifetime then LONG_LIFETIME else SHORT_LIFETIME));
      Some(Put(Put(timed, 8, U32Bytes(epoch)), 12, Zeros(12)))
  }

  /** An error response is sent exactly when the request is longer than 20 octets. */
  lemma ErrorResponseSent(message: seq<byte>, code: byte, longLifetime: bool, epoch: u32)
    ensures ErrorResponse(message, code, longLifetime, epoch).Some? <==> |message| > 20
  {
    ErrorLengthAtLeast24(|message|);
  }

  /** The layout of an error response, field by field (RFC 6887 sections 7.2 and 8.3). */
  lemma ErrorResponseFields(message: seq<byte>, code: byte, longLifetime: bool, epoch: u32)
    requires |message| > 20
    ensures ErrorResponse(message, code, longLifetime, epoch).Some?
    ensures var r := ErrorResponse(message, code, longLifetime, epoch).value;
      |r| == ErrorLength(|message|)
      && r[0] == message[0] && r[1] == LowByte(message[1] as int + 128) && r[2] == message[2] && r[3] == code
    ensures var r := ErrorResponse(message, code, longLifetime, epoch).value;
      ReadU32(r, 4) == (if longLifetime then LONG_LIFETIME else SHORT_LIFETIME) && ReadU32(r, 8) == epoch
    ensures var r := ErrorResponse(message, code, longLifetime, epoch).value;
      forall i :: 12 <= i < 24 ==> r[i] == 0
    ensures var r := ErrorResponse(message, code, longLifetime, epoch).value;
      forall i :: 24 <= i < |r| ==> r[i] == if i < |message| then message[i] else 0
  {
    ErrorLengthAtLeast24(|message|);
    var len := ErrorLength(|message|);
    var copy := Put(Zeros(len), 0, message[..Min(|message|, len)]);
    ErrorChainFields(copy, LowByte(message[1] as int + 128), code,
                     if longLifetime then LONG_LIFETIME else SHORT_LIFETIME, epoch);
  }

  /** The writes of sendError over a copied request: each field holds what was written last into it. */
  lemma ErrorChainFields(copy: seq<byte>, opByte: byte, code: byte, lifetime: u32, epoch: u32)
    requires |copy| >= 24
    ensures var r := Put(Put(Put(Put(Put(copy, 1, [opByte]), 3, [code]), 4, U32Bytes(lifetime)), 8, U32Bytes(epoch)), 12, Zeros(12));
      |r| == |copy| && r[0] == copy[0] && r[1] == opByte && r[2] == copy[2] && r[3] == code
      && ReadU32(r, 4) == lifetime && ReadU32(r, 8) == epoch
      && (forall i :: 12 <= i < 24 ==> r[i] == 0)
      && (forall i :: 24 <= i < |r| ==> r[i] == copy[i])
  {
    var head := Put(Put(copy, 1, [opByte]), 3, [code]);
    var timed := Put(head, 4, U32Bytes(lifetime));
    var dated := Put(timed, 8, U32Bytes(epoch));
    var r := Put(dated, 12, Zeros(12));
    ReadU32Put(head, 4, lifetime);
    assert ReadU32(r, 4) == ReadU32(timed, 4);
    ReadU32Put(timed, 8, epoch);
    assert ReadU32(r, 8) == ReadU32(dated, 8);
  }

  /**
   * The buffer work of sendError: allocate the rounded length, copy the request,
   * store the opcode and code, then the writes, any of which throws on a buffer
   * too short for it (None).
   */
  method BuildErrorResponse(message: seq<byte>, code: byte, longLifetime: bool, epoch: u32)
    returns (datagram: Option<seq<byte>>)
    ensures datagram == ErrorResponse(message, code, longLifetime, epoch)
  {
    var len := ErrorLength(|message|);
    ErrorLengthAtLeast24(|message|);
    var buf := new byte[len](_ => 0);
    assert buf[..] == Zeros(len);
    CopyPrefix(message, buf, len);
    assert Min(Min(len, |message|), len) == Min(|message|, len);
    ghost var copy := buf[..];
    var opByte := ToUint8(Add(ByteAt(message, 1), 128));
    if len >= 4 {
      Store(buf, 1, [opByte]);
      Store(buf, 3, [code]);
    }
    if len < 8 {
      return None;
    }
    ghost var head := buf[..];
    WriteU32BE(buf, 4, if longLifetime then LONG_LIFETIME else SHORT_LIFETIME);
    if len < 12 {
      return None;
    }
    ghost var timed := buf[..];
    WriteU32BE(buf, 8, epoch);
    if len < 24 {
      return None;
    }
    ghost var dated := buf[..];
    FillZero(buf, 12, 24);
    ErrorResponseSteps(message, code, longLifetime, epoch, copy, opByte, head, timed, dated, buf[..]);
    return Some(buf[..]);
  }

  /** The buffer states of sendError, step by step, end in the error response. */
  lemma ErrorResponseSteps(message: seq<byte>, code: byte, longLifetime: bool, epoch: u32,
                           copy: seq<byte>, opByte: byte, head: seq<byte>, timed: seq<byte>, dated: seq<byte>, last: seq<byte>)
    requires |message| > 20
    requires copy == Put(Zeros(ErrorLength(|message|)), 0, message[..Min(|message|, ErrorLength(|message|))])
    requires opByte == ToUint8(Add(ByteAt(message, 1), 128))
    requires head == Put(Put(copy, 1, [opByte]), 3, [code])
    requires timed == Put(head, 4, U32Bytes(if longLifetime then LONG_LIFETIME else SHORT_LIFETIME))
    requires dated == Put(timed, 8, U32Bytes(epoch))
    requires last == Put(dated, 12, Zeros(12))
    ensures ErrorResponse(message, code, longLifetime, epoch) == Some(last)
  {
    ErrorLengthAtLeast24(|message|);
    assert ByteAt(message, 1) == Num(message[1] as int);
  }

  function Sent(d: Option<seq<byte>>): seq<seq<byte>>
  {
    if d.Some? then [d.value] else []
  }

  // ----- success responses -----

  /** The request copy every successful answer starts from: opcode + 128, reserved and result zero, 12..24 zeroed. */
  function SuccessBase(message: seq<byte>): (r: seq<byte>)
    requires |message| == MAP_LENGTH
    ensures |r| == MAP_LENGTH
  {
    Put(Put(message, 1, [LowByte(message[1] as int + 128), 0, SUCCESS]), 12, Zeros(12))
  }

  /** The fields a grant rewrites: lifetime, epoch, external port, external address octets. */
  predicate IsGrantField(i: int)
  {
    4 <= i < 12 || 42 <= i < 44 || 56 <= i < 60
  }

  /** The response to a removal: the base with lifetime 0, the epoch, port 0 and address octets zero. */
  function RemovalResponse(message: seq<byte>, epoch: u32): (r: seq<byte>)
    requires |message| == MAP_LENGTH
    ensures |r| == MAP_LENGTH
  {
    Put(Put(Put(Put(SuccessBase(message), 4, U32Bytes(0)), 8, U32Bytes(epoch)), 42, U16Bytes(0)), 56, Zeros(4))
  }

  /** Buffer.from(message) with the opcode flagged, the reserved and result octets zeroed, and 12..24 zeroed. */
  method CopySuccessBase(message: seq<byte>) returns (buf: array<byte>)
    requires |message| == MAP_LENGTH
    ensures fresh(buf) && buf[..] == SuccessBase(message)
  {
    buf := CopyBytesFrom(message);
    Store(buf, 1, [LowByte(message[1] as int + 128), 0, SUCCESS]);
    FillZero(buf, 12, 24);
  }

  /** The writes that turn the base into a removal answer. */
  method WriteRemoval(buf: array<byte>, message: seq<byte>, epoch: u32)
    requires |message| == MAP_LENGTH && buf[..] == SuccessBase(message)
    modifies buf
    ensures buf[..] == RemovalResponse(message, epoch)
  {
    WriteU32BE(buf, 4, 0);
    WriteU32BE(buf, 8, epoch);
    WriteU16BE(buf, 42, 0);
    Store(buf, 56, Zeros(4));
  }

  /** The answer echoes the nonce, protocol and internal port, and flags itself a MAP response. */
  lemma SuccessBaseFields(message: seq<byte>)
    requires |message| == MAP_LENGTH && message[1] == OP_MAP
    ensures var r := SuccessBase(message);
      r[0] == message[0] && r[1] == OP_MAP + 128 && r[2] == 0 && r[3] == SUCCESS
      && (forall i :: 12 <= i < 24 ==> r[i] == 0)
      && r[24..36] == message[24..36] && r[36] == message[36] && r[40..42] == message[40..42]
      && (forall i :: 4 <= i < 12 || 24 <= i < MAP_LENGTH ==> r[i] == message[i])
  {
  }

  lemma RemovalResponseFields(message: seq<byte>, epoch: u32)
    requires |message| == MAP_LENGTH
    ensures var r := RemovalResponse(message, epoch);
      ReadU32(r, 4) == 0 && ReadU32(r, 8) == epoch && ReadU16(r, 42) == 0
      && r[56..60] == [0, 0, 0, 0]
      && forall i :: 0 <= i < MAP_LENGTH && !IsGrantField(i) ==> r[i] == SuccessBase(message)[i]
  {
    var b := SuccessBase(message);
    var r1 := Put(b, 4, U32Bytes(0));
    var r2 := Put(r1, 8, U32Bytes(epoch));
    var r3 := Put(r2, 42, U16Bytes(0));
    var r := Put(r3, 56, Zeros(4));
    ReadU32Put(r1, 8, epoch);
    assert ReadU32(r, 8) == ReadU32(r2, 8);
    ReadU32Put(b, 4, 0);
    assert ReadU32(r, 4) == ReadU32(r1, 4);
  }

  /** info.publicAddr.split(".").map(Number), stored octet by octet; a missing part stores 0. */
  function PublicOctets(publicAddr: string): (r: seq<byte>)
    ensures |r| == 4
  {
    var fields := NumberFields(publicAddr);
    seq(4, k requires 0 <= k < 4 => if k < |fields| then ToUint8(fields[k]) else 0)
  }

  lemma PublicOctetsDotted(ip: Ip)
    ensures PublicOctets(DottedQuad(ip)) == ip
  {
    NumberFieldsDotted(ip);
  }

  /** What one "change" notification does to the response buffer: the new bytes, whether it sends, whether it throws. */
  datatype Firing = Firing(resp: seq<byte>, sends: bool, throws: bool)

  /**
   * The change listener of a grant: nothing while the public port or address is
   * unset; otherwise lifetime at 4 and epoch at 8 (a lifetime outside u32 throws
   * first), the public port at 42 (a port outside u16 throws after the first two
   * writes), the address octets at 56..59, and the buffer is sent.
   */
  function OnChangeEffect(resp: seq<byte>, info: MappingInfo, epoch: u32): (f: Firing)
    requires |resp| == MAP_LENGTH
    ensures |f.resp| == MAP_LENGTH
    ensures forall i :: 0 <= i < MAP_LENGTH && !IsGrantField(i) ==> f.resp[i] == resp[i]
    ensures info.publicPort == 0 || info.publicAddr == "" ==> f == Firing(resp, false, false)
    ensures f.sends <==> info.publicPort != 0 && info.publicAddr != "" && IsU32(info.lifetime) && IsU16(info.publicPort)
    ensures f.throws <==>
      info.publicPort != 0 && info.publicAddr != "" && (!IsU32(info.lifetime) || !IsU16(info.publicPort))
  {
    if info.publicPort == 0 || info.publicAddr == "" then Firing(resp, false, false)
    else if !IsU32(info.lifetime) then Firing(resp, false, true)
    else
      var timed := Put(Put(resp, 4, U32Bytes(info.lifetime)), 8, U32Bytes(epoch));
      if !IsU16(info.publicPort) then Firing(timed, false, true)
      else Firing(Put(Put(timed, 42, U16Bytes(info.publicPort)), 56, PublicOctets(info.publicAddr)), true, false)
  }

  /** A datagram a grant sends carries the mapping's lifetime, the epoch, the public port and address. */
  lemma GrantFields(resp: seq<byte>, info: MappingInfo, epoch: u32, ip: Ip)
    requires |resp| == MAP_LENGTH
    requires info.publicAddr == DottedQuad(ip) && 0 < info.publicPort < 0x1_0000 && IsU32(info.lifetime)
    ensures var f := OnChangeEffect(resp, info, epoch);
      f.sends && !f.throws
      && ReadU32(f.resp, 4) == info.lifetime && ReadU32(f.resp, 8) == epoch
      && ReadU16(f.resp, 42) == info.publicPort && f.resp[56..60] == ip
  {
    var r1 := Put(resp, 4, U32Bytes(info.lifetime));
    var r2 := Put(r1, 8, U32Bytes(epoch));
    var r3 := Put(r2, 42, U16Bytes(info.publicPort));
    var r := Put(r3, 56, PublicOctets(info.publicAddr));
    assert info.publicAddr != "" by {
      assert |DottedQuad(ip)| > 0 by {
        JoinSplit(DottedQuad(ip), '.');
        DottedQuadSplit(ip);
      }
    }
    ReadU32Put(resp, 4, info.lifetime);
    assert ReadU32(r, 4) == ReadU32(r1, 4);
    ReadU32Put(r1, 8, epoch);
    assert ReadU32(r, 8) == ReadU32(r2, 8);
    ReadU16Put(r2, 42, info.publicPort);
    assert ReadU16(r, 42) == ReadU16(r3, 42);
    PublicOctetsDotted(ip);
    assert r[56..60] == PublicOctets(info.publicAddr);
  }

  /** Firing twice with the same mapping state leaves the buffer as firing once did. */
  lemma OnChangeIdempotent(resp: seq<byte>, info: MappingInfo, epoch: u32)
    requires |resp| == MAP_LENGTH
    ensures var once := OnChangeEffect(resp, info, epoch);
      OnChangeEffect(once.resp, info, epoch) == once
  {
    var once := OnChangeEffect(resp, info, epoch);
    var twice := OnChangeEffect(once.resp, info, epoch);
    assert twice.resp == once.resp;
  }

  /** Every byte outside the grant fields is the same in both buffers. */
  predicate SameOutsideGrant(a: seq<byte>, b: seq<byte>)
  {
    |a| == |b| == MAP_LENGTH && forall i :: 0 <= i < MAP_LENGTH && !IsGrantField(i) ==> a[i] == b[i]
  }

  // ----- the handler -----

  /**
   * One PCP request being handled: the datagram, its source address, the
   * response buffer a grant keeps rewriting, and the datagrams sent back.
   */
  class PcpExchange {
    const message: seq<byte>
    const remote: Ip
    var resp: array<byte>
    /** Whether a change listener was registered on a started mapping. */
    var granted: bool
    var sent: seq<seq<byte>>

    /** Once granted, the buffer is the success copy of the request except in the grant fields. */
    ghost predicate Valid()
      reads this, resp
    {
      granted ==> |message| == MAP_LENGTH && SameOutsideGrant(resp[..], SuccessBase(message))
    }

    constructor (message: seq<byte>, remote: Ip)
      ensures Valid()
      ensures this.message == message && this.remote == remote
      ensures !granted && sent == []
    {
      this.message := message;
      this.remote := remote;
      resp := new byte[0];
      granted := false;
      sent := [];
    }

    /** The key a request's mapping is stored under: the datagram's source address and the internal port. */
    function KeyOf(protocol: byte, sourcePort: u16): Key
    {
      Key(DottedQuad(remote), sourcePort, protocol)
    }

    /** sendError: the padded copy with the error fields, sent unless a write throws. */
    method SendError(code: byte, longLifetime: bool, epoch: u32)
      modifies this
      ensures sent == old(sent) + Sent(ErrorResponse(message, code, longLifetime, epoch))
      ensures resp == old(resp) && granted == old(granted)
    {
      var datagram := BuildErrorResponse(message, code, longLifetime, epoch);
      if datagram.Some? {
        sent := sent + [datagram.value];
      }
    }

    /**
     * handle: a refused request gets its error; a removal asks the service to
     * stop the mapping and answers once, found or not; a grant asks it to start
     * the mapping and registers the change listener. A throwing mapping service
     * gets NETWORK_FAILURE with the short lifetime.
     */
    method Handle(epoch: u32, mappingThrows: bool) returns (call: MappingCall)
      requires Valid()
      modifies this
      ensures Valid()
      ensures Validate(message, remote).Refuse? ==>
        call == NoCall && !granted && resp == old(resp)
        && sent == old(sent) + Sent(ErrorResponse(message, Validate(message, remote).code, true, epoch))
      ensures Validate(message, remote).Proceed? ==>
        var v := Validate(message, remote);
        var key := KeyOf(v.protocol, v.sourcePort);
        call == (if v.lifetime != 0 then Start(key, v.lifetime) else Stop(key))
        && (mappingThrows ==>
              !granted && sent == old(sent) + Sent(ErrorResponse(message, NETWORK_FAILURE, false, epoch)))
        && (!mappingThrows && v.lifetime != 0 ==>
              granted && fresh(resp) && resp[..] == SuccessBase(message) && sent == old(sent))
        && (!mappingThrows && v.lifetime == 0 ==>
              !granted && sent == old(sent) + [RemovalResponse(message, epoch)])
    {
      var v := Validate(message, remote);
      granted := false;
      if v.Refuse? {
        call := NoCall;
        SendError(v.code, true, epoch);
        return;
      }
      var key := KeyOf(v.protocol, v.sourcePort);
      var buf := CopySuccessBase(message);
      if v.lifetime != 0 {
        call := Start(key, v.lifetime);
        if mappingThrows {
          SendError(NETWORK_FAILURE, false, epoch);
          return;
        }
        resp := buf;
        granted := true;
      } else {
        call := Stop(key);
        if mappingThrows {
          SendError(NETWORK_FAILURE, false, epoch);
          return;
        }
        WriteRemoval(buf, message, epoch);
        sent := sent + [buf[..]];
      }
    }

    /** The change listener registered by a grant, fired with the mapping's current state. */
    method OnChange(info: MappingInfo, epoch: u32) returns (threw: bool)
      requires Valid() && granted
      modifies this, resp
      ensures Valid() && granted && resp == old(resp)
      ensures var f := OnChangeEffect(old(resp[..]), info, epoch);
        resp[..] == f.resp && threw == f.throws
        && sent == old(sent) + (if f.sends then [f.resp] else [])
    {
      if info.publicPort == 0 || info.publicAddr == "" {
        return false;
      }
      if !IsU32(info.lifetime) {
        return true;
      }
      WriteU32BE(resp, 4, info.lifetime);
      WriteU32BE(resp, 8, epoch);
      if !IsU16(info.publicPort) {
        return true;
      }
      WriteU16BE(resp, 42, info.publicPort);
      Store(resp, 56, PublicOctets(info.publicAddr));
      sent := sent + [resp[..]];
      return false;
    }
  }
}
