/**
 * src/server/nat-pmp-handler.ts: the NAT-PMP handler (RFC 6886 sections 3.2 to
 * 3.5) the refactored server routes every non-PCP datagram to. Responses start
 * from an 8-octet header (version 0, opcode + 128, result code, epoch); a
 * mapping request is keyed by the client address, its private port and the
 * protocol its opcode names.
 */
module NatPmp {
  import opened Wrappers
  import opened Bytes
  import opened JsText
  import opened MappingApi
  import opened PublicAddress

  const VERSION: byte := 0

  const OP_PUBLIC_ADDRESS: byte := 0
  const OP_NEW_UDP_PORT_MAPPING: byte := 1
  const OP_NEW_TCP_PORT_MAPPING: byte := 2

  const SUCCESS: u16 := 0
  const UNSUPPORTED_VERSION: u16 := 1
  const UNAUTHORIZED: u16 := 2
  const NETWORK_FAILURE: u16 := 3
  const OUT_OF_RESOURCES: u16 := 4
  const UNSUPPORTED_OPCODE: u16 := 5

  /**
   * allocResponse: `size` zero octets with version 0, opcode + 128 (stored as a
   * Buffer slot stores a number), the result code and the epoch.
   */
  function AllocResponse(epoch: u32, opCode: JsNum, code: u16, size: nat): (r: seq<byte>)
    requires size >= 8
    ensures |r| == size
  {
    Put(Put(Put(Zeros(size), 0, [0, ToUint8(Add(opCode, 128))]), 2, U16Bytes(code)), 4, U32Bytes(epoch))
  }

  /** The header read back: every field as written, and nothing but zeros after it. */
  lemma AllocResponseFields(epoch: u32, opCode: byte, code: u16, size: nat)
    requires size >= 8
    ensures var r := AllocResponse(epoch, Num(opCode as int), code, size);
      r[0] == VERSION && r[1] == (opCode as int + 128) % 0x100
      && ReadU16(r, 2) == code && ReadU32(r, 4) == epoch
      && forall i :: 8 <= i < size ==> r[i] == 0
  {
    var h := Put(Zeros(size), 0, [0, ToUint8(Add(Num(opCode as int), 128))]);
    var c := Put(h, 2, U16Bytes(code));
    var r := Put(c, 4, U32Bytes(epoch));
    ReadU16Put(h, 2, code);
    assert ReadU16(r, 2) == ReadU16(c, 2);
    ReadU32Put(c, 4, epoch);
  }

  /** allocPublicAddressResponse: the 12-octet PUBLIC_ADDRESS answer carrying the four octets. */
  function AllocPublicAddressResponse(epoch: u32, ip: Ip): (r: seq<byte>)
    ensures |r| == 12
  {
    Put(AllocResponse(epoch, Num(OP_PUBLIC_ADDRESS as int), SUCCESS, 12), 8, ip)
  }

  /** RFC 6886 section 3.2: opcode 128, result 0, the epoch, and the external address at 8..12. */
  lemma PublicAddressResponseFields(epoch: u32, ip: Ip)
    ensures var r := AllocPublicAddressResponse(epoch, ip);
      r[0] == VERSION && r[1] == 128 && ReadU16(r, 2) == SUCCESS && ReadU32(r, 4) == epoch
      && r[8..12] == ip
  {
    AllocResponseFields(epoch, OP_PUBLIC_ADDRESS, SUCCESS, 12);
    var r := AllocPublicAddressResponse(epoch, ip);
    assert r[8..12] == ip;
  }

  /** The 16-octet mapping response: the header, the private port at 8, the public port at 10, the lifetime at 12. */
  function MappingResponse(epoch: u32, opCode: JsNum, code: u16, privatePort: u16, publicPort: u16, lifetime: u32): (r: seq<byte>)
    ensures |r| == 16
  {
    Put(Put(Put(AllocResponse(epoch, opCode, code, 16), 8, U16Bytes(privatePort)), 10, U16Bytes(publicPort)),
        12, U32Bytes(lifetime))
  }

  /** RFC 6886 section 3.3: the mapping response read back. */
  lemma MappingResponseFields(epoch: u32, opCode: byte, code: u16, privatePort: u16, publicPort: u16, lifetime: u32)
    ensures var r := MappingResponse(epoch, Num(opCode as int), code, privatePort, publicPort, lifetime);
      r[0] == VERSION && r[1] == (opCode as int + 128) % 0x100 && ReadU16(r, 2) == code && ReadU32(r, 4) == epoch
      && ReadU16(r, 8) == privatePort && ReadU16(r, 10) == publicPort && ReadU32(r, 12) == lifetime
  {
    var a := AllocResponse(epoch, Num(opCode as int), code, 16);
    AllocResponseFields(epoch, opCode, code, 16);
    var p := Put(a, 8, U16Bytes(privatePort));
    var q := Put(p, 10, U16Bytes(publicPort));
    var r := Put(q, 12, U32Bytes(lifetime));
    ReadU16Put(a, 8, privatePort);
    ReadU16Put(p, 10, publicPort);
    ReadU32Put(q, 12, lifetime);
    assert ReadU16(r, 2) == ReadU16(a, 2) && ReadU32(r, 4) == ReadU32(a, 4);
    assert ReadU16(r, 8) == ReadU16(p, 8) && ReadU16(r, 10) == ReadU16(q, 10);
  }

  /** Where handle sends a datagram, by its version and opcode octets. */
  datatype Route = BadVersion | PublicAddressRequest | PortMappingRequest | BadOpcode

  /** message[0] and message[1] are undefined on a datagram too short to hold them. */
  function RouteOf(message: seq<byte>): (r: Route)
    ensures r == BadVersion <==> ByteAt(message, 0) != Num(VERSION as int)
    ensures r == PublicAddressRequest <==>
      ByteAt(message, 0) == Num(VERSION as int) && ByteAt(message, 1) == Num(OP_PUBLIC_ADDRESS as int)
    ensures r == PortMappingRequest <==>
      ByteAt(message, 0) == Num(VERSION as int)
      && (ByteAt(message, 1) == Num(OP_NEW_UDP_PORT_MAPPING as int) || ByteAt(message, 1) == Num(OP_NEW_TCP_PORT_MAPPING as int))
  {
    var version := ByteAt(message, 0);
    var opCode := ByteAt(message, 1);
    if version != Num(VERSION as int) then BadVersion
    else if opCode == Num(OP_PUBLIC_ADDRESS as int) then PublicAddressRequest
    else if opCode == Num(OP_NEW_UDP_PORT_MAPPING as int) || opCode == Num(OP_NEW_TCP_PORT_MAPPING as int) then PortMappingRequest
    else BadOpcode
  }

  /** Opcode 1 asks for a UDP mapping; opcode 2 (the only other one routed here) for TCP. */
  function ProtocolOf(opCode: JsNum): (p: byte)
    ensures p == UDP <==> opCode == Num(OP_NEW_UDP_PORT_MAPPING as int)
    ensures p == TCP <==> opCode != Num(OP_NEW_UDP_PORT_MAPPING as int)
  {
    if opCode == Num(OP_NEW_UDP_PORT_MAPPING as int) then UDP else TCP
  }

  /** The fields of a mapping request (RFC 6886 section 3.3). */
  datatype PortRequest = PortRequest(sourcePort: u16, externalPort: u16, lifetime: u32, protocol: byte)

  /** The reads at 4, 6 and 8; a datagram shorter than 12 octets makes one of them throw. */
  function ReadPortRequest(message: seq<byte>): (r: Option<PortRequest>)
    ensures r.Some? <==> |message| >= 12
    ensures r.Some? ==>
      r.value.sourcePort == ReadU16(message, 4) && r.value.externalPort == ReadU16(message, 6)
      && r.value.lifetime == ReadU32(message, 8) && r.value.protocol == ProtocolOf(ByteAt(message, 1))
  {
    if |message| < 12 then None
    else Some(PortRequest(ReadU16(message, 4), ReadU16(message, 6), ReadU32(message, 8), ProtocolOf(ByteAt(message, 1))))
  }

  /** A mapping request as a client lays it out. */
  function PortMappingMessage(opCode: byte, sourcePort: u16, externalPort: u16, lifetime: u32): (m: seq<byte>)
    ensures |m| == 12
  {
    [VERSION, opCode, 0, 0] + U16Bytes(sourcePort) + U16Bytes(externalPort) + U32Bytes(lifetime)
  }

  /** Reading a request back gives the fields it was laid out with. */
  lemma ReadPortMappingMessage(opCode: byte, sourcePort: u16, externalPort: u16, lifetime: u32)
    requires opCode == OP_NEW_UDP_PORT_MAPPING || opCode == OP_NEW_TCP_PORT_MAPPING
    ensures var m := PortMappingMessage(opCode, sourcePort, externalPort, lifetime);
      RouteOf(m) == PortMappingRequest
      && ReadPortRequest(m) == Some(PortRequest(sourcePort, externalPort, lifetime,
                                                if opCode == OP_NEW_UDP_PORT_MAPPING then UDP else TCP))
  {
    var m := PortMappingMessage(opCode, sourcePort, externalPort, lifetime);
    var s := U16Bytes(sourcePort);
    var e := U16Bytes(externalPort);
    var l := U32Bytes(lifetime);
    assert m[4] == s[0] && m[5] == s[1] && m[6] == e[0] && m[7] == e[1];
    assert m[8] == l[0] && m[9] == l[1] && m[10] == l[2] && m[11] == l[3];
    assert ReadU16(m, 4) == ReadU16(Put(Zeros(2), 0, s), 0);
    assert ReadU16(m, 6) == ReadU16(Put(Zeros(2), 0, e), 0);
    assert ReadU32(m, 8) == ReadU32(Put(Zeros(4), 0, l), 0);
    ReadU16Put(Zeros(2), 0, sourcePort);
    ReadU16Put(Zeros(2), 0, externalPort);
    ReadU32Put(Zeros(4), 0, lifetime);
  }

  /**
   * One NAT-PMP request being handled: the datagram, its source address, the
   * private port a registered change listener answers for, and the datagrams sent back.
   */
  class NatPmpExchange {
    const message: seq<byte>
    const remote: Ip
    /** The private port of a grant whose change listener is registered. */
    var listener: Option<u16>
    var sent: seq<seq<byte>>

    constructor (message: seq<byte>, remote: Ip)
      ensures this.message == message && this.remote == remote
      ensures listener == None && sent == []
    {
      this.message := message;
      this.remote := remote;
      listener := None;
      sent := [];
    }

    /** this.opCode: message[1], undefined on a one-octet datagram. */
    function OpCode(): JsNum
    {
      ByteAt(message, 1)
    }

    /**
     * handle: a wrong version or an unknown opcode gets one 8-octet error; a
     * PUBLIC_ADDRESS request gets the address, or NETWORK_FAILURE while the cell
     * is empty; a mapping request asks the service to start or stop the mapping.
     * A removal answers once, found or not; a grant registers the change
     * listener. A request too short to read, or a throwing mapping service, gets
     * a 16-octet NETWORK_FAILURE. `mappingThrows` is what the mapping service does.
     */
    method Handle(epoch: u32, cell: PublicIp, mappingThrows: bool) returns (call: MappingCall)
      modifies this
      ensures RouteOf(message) == BadVersion ==>
        call == NoCall && listener == old(listener)
        && sent == old(sent) + [AllocResponse(epoch, OpCode(), UNSUPPORTED_VERSION, 8)]
      ensures RouteOf(message) == BadOpcode ==>
        call == NoCall && listener == old(listener)
        && sent == old(sent) + [AllocResponse(epoch, OpCode(), UNSUPPORTED_OPCODE, 8)]
      ensures RouteOf(message) == PublicAddressRequest ==>
        call == NoCall && listener == old(listener)
        && sent == old(sent) + [if cell.ip.Some? then AllocPublicAddressResponse(epoch, cell.ip.value)
                                else AllocResponse(epoch, OpCode(), NETWORK_FAILURE, 12)]
      ensures RouteOf(message) == PortMappingRequest && ReadPortRequest(message).None? ==>
        call == NoCall && listener == old(listener)
        && sent == old(sent) + [AllocResponse(epoch, OpCode(), NETWORK_FAILURE, 16)]
      ensures RouteOf(message) == PortMappingRequest && ReadPortRequest(message).Some? ==>
        var req := ReadPortRequest(message).value;
        var key := Key(DottedQuad(remote), req.sourcePort, req.protocol);
        call == (if req.lifetime != 0 then Start(key, req.lifetime) else Stop(key))
        && (mappingThrows ==>
              listener == old(listener) && sent == old(sent) + [AllocResponse(epoch, OpCode(), NETWORK_FAILURE, 16)])
        && (!mappingThrows && req.lifetime != 0 ==> listener == Some(req.sourcePort) && sent == old(sent))
        && (!mappingThrows && req.lifetime == 0 ==>
              listener == old(listener) && sent == old(sent) + [MappingResponse(epoch, OpCode(), SUCCESS, req.sourcePort, 0, 0)])
    {
      call := NoCall;
      var route := RouteOf(message);
      if route == BadVersion {
        sent := sent + [AllocResponse(epoch, OpCode(), UNSUPPORTED_VERSION, 8)];
      } else if route == PublicAddressRequest {
        var ip := cell.Get();
        if ip.Ok? {
          sent := sent + [AllocPublicAddressResponse(epoch, ip.value)];
        } else {
          sent := sent + [AllocResponse(epoch, OpCode(), NETWORK_FAILURE, 12)];
        }
      } else if route == PortMappingRequest {
        call := HandlePortMapping(epoch, mappingThrows);
      } else {
        sent := sent + [AllocResponse(epoch, OpCode(), UNSUPPORTED_OPCODE, 8)];
      }
    }

    /** handlePortMapping: the try block and its NETWORK_FAILURE catch. */
    method HandlePortMapping(epoch: u32, mappingThrows: bool) returns (call: MappingCall)
      modifies this
      ensures ReadPortRequest(message).None? ==>
        call == NoCall && listener == old(listener)
        && sent == old(sent) + [AllocResponse(epoch, OpCode(), NETWORK_FAILURE, 16)]
      ensures ReadPortRequest(message).Some? ==>
        var req := ReadPortRequest(message).value;
        var key := Key(DottedQuad(remote), req.sourcePort, req.protocol);
        call == (if req.lifetime != 0 then Start(key, req.lifetime) else Stop(key))
        && (mappingThrows ==>
              listener == old(listener) && sent == old(sent) + [AllocResponse(epoch, OpCode(), NETWORK_FAILURE, 16)])
        && (!mappingThrows && req.lifetime != 0 ==> listener == Some(req.sourcePort) && sent == old(sent))
        && (!mappingThrows && req.lifetime == 0 ==>
              listener == old(listener) && sent == old(sent) + [MappingResponse(epoch, OpCode(), SUCCESS, req.sourcePort, 0, 0)])
    {
      if |message| < 12 {
        call := NoCall;
        sent := sent + [AllocResponse(epoch, OpCode(), NETWORK_FAILURE, 16)];
        return;
      }
      var sourcePort := ReadU16(message, 4);
      var lifetime := ReadU32(message, 8);
      var protocol := ProtocolOf(OpCode());
      var key := Key(DottedQuad(remote), sourcePort, protocol);
      if lifetime != 0 {
        call := Start(key, lifetime);
        if mappingThrows {
          sent := sent + [AllocResponse(epoch, OpCode(), NETWORK_FAILURE, 16)];
          return;
        }
        listener := Some(sourcePort);
      } else {
        call := Stop(key);
        if mappingThrows {
          sent := sent + [AllocResponse(epoch, OpCode(), NETWORK_FAILURE, 16)];
          return;
        }
        var response := BuildMappingResponse(epoch, OpCode(), sourcePort, 0, 0);
        sent := sent + [response];
      }
    }

    /**
     * The change listener of a grant: nothing while the public port is unset
     * (zero); otherwise a 16-octet success with the private port, the public
     * port and the mapping's lifetime. A port or lifetime out of range makes the
     * write throw before anything is sent.
     */
    method OnChange(info: MappingInfo, epoch: u32) returns (threw: bool)
      requires listener.Some?
      modifies this
      ensures listener == old(listener)
      ensures threw <==> info.publicPort != 0 && !(IsU16(info.publicPort) && IsU32(info.lifetime))
      ensures sent == old(sent) +
        (if info.publicPort != 0 && IsU16(info.publicPort) && IsU32(info.lifetime)
         then [MappingResponse(epoch, OpCode(), SUCCESS, listener.value, info.publicPort, info.lifetime)]
         else [])
    {
      if info.publicPort == 0 {
        return false;
      }
      var buf := new byte[16](_ => 0);
      assert buf[..] == Zeros(16);
      StoreHeader(buf, epoch, OpCode(), SUCCESS);
      WriteU16BE(buf, 8, listener.value);
      if !IsU16(info.publicPort) {
        return true;
      }
      WriteU16BE(buf, 10, info.publicPort);
      if !IsU32(info.lifetime) {
        return true;
      }
      WriteU32BE(buf, 12, info.lifetime);
      sent := sent + [buf[..]];
      return false;
    }
  }

  /** The stores and writes of allocResponse into a fresh zeroed buffer. */
  method StoreHeader(buf: array<byte>, epoch: u32, opCode: JsNum, code: u16)
    requires buf.Length >= 8 && buf[..] == Zeros(buf.Length)
    modifies buf
    ensures buf[..] == AllocResponse(epoch, opCode, code, buf.Length)
  {
    Store(buf, 0, [0, ToUint8(Add(opCode, 128))]);
    WriteU16BE(buf, 2, code);
    WriteU32BE(buf, 4, epoch);
  }

  /** A successful mapping response, built the handlers' way: a zeroed 16-octet buffer, the header, then the ports and lifetime. */
  method BuildMappingResponse(epoch: u32, opCode: JsNum, privatePort: u16, publicPort: u16, lifetime: u32)
    returns (response: seq<byte>)
    ensures response == MappingResponse(epoch, opCode, SUCCESS, privatePort, publicPort, lifetime)
  {
    var buf := new byte[16](_ => 0);
    assert buf[..] == Zeros(16);
    StoreHeader(buf, epoch, opCode, SUCCESS);
    WriteU16BE(buf, 8, privatePort);
    WriteU16BE(buf, 10, publicPort);
    WriteU32BE(buf, 12, lifetime);
    response := buf[..];
  }

  /** A grant answers every notification that carries a port, and reports that port and lifetime. */
  lemma GrantResponseFields(epoch: u32, opCode: byte, privatePort: u16, info: MappingInfo)
    requires info.publicPort != 0 && IsU16(info.publicPort) && IsU32(info.lifetime)
    ensures var r := MappingResponse(epoch, Num(opCode as int), SUCCESS, privatePort, info.publicPort, info.lifetime);
      ReadU16(r, 2) == SUCCESS && ReadU16(r, 8) == privatePort
      && ReadU16(r, 10) == info.publicPort && ReadU32(r, 12) == info.lifetime
  {
    MappingResponseFields(epoch, opCode, SUCCESS, privatePort, info.publicPort, info.lifetime);
  }

  /** A removal answers with the private port and zero public port and lifetime (RFC 6886 section 3.4). */
  lemma RemovalResponseFields(epoch: u32, opCode: byte, privatePort: u16)
    ensures var r := MappingResponse(epoch, Num(opCode as int), SUCCESS, privatePort, 0, 0);
      ReadU16(r, 2) == SUCCESS && ReadU16(r, 8) == privatePort && ReadU16(r, 10) == 0 && ReadU32(r, 12) == 0
  {
    MappingResponseFields(epoch, opCode, SUCCESS, privatePort, 0, 0);
  }
}
