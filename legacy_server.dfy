/**
 * src/server.ts: the older NAT-PMP server the build entry starts. It answers
 * from the same 8-octet header as the refactored handler, but computes the
 * epoch from its own start time, takes the public address from the cache in
 * src/public-ip.ts, calls the mapping table of src/natmap.ts directly, answers
 * a grant once the mapping is ready, and echoes the requested external port
 * on a removal.
 */
module LegacyServer {
  import opened Wrappers
  import opened Bytes
  import opened JsText
  import opened MappingApi
  import opened PublicAddress
  import opened NatMap
  import opened NatPmp
  import opened PublicIpCache

  /** floor((Date.now() - startTime) / 1000), with `elapsed` the milliseconds since the server started. */
  function LegacyEpoch(elapsed: int): (e: int)
    ensures e * 1000 <= elapsed < e * 1000 + 1000
  {
    elapsed / 1000
  }

  /** The handler's allocResponse; its epoch write throws once the epoch leaves the u32 range. */
  function LegacyAlloc(elapsed: int, opCode: JsNum, code: u16, size: nat): (r: Option<seq<byte>>)
    requires size >= 8
    ensures r.Some? <==> IsU32(LegacyEpoch(elapsed))
    ensures r.Some? ==> r.value == AllocResponse(LegacyEpoch(elapsed), opCode, code, size)
  {
    if IsU32(LegacyEpoch(elapsed)) then Some(AllocResponse(LegacyEpoch(elapsed), opCode, code, size)) else None
  }

  /** The PUBLIC_ADDRESS answer: the cached fields stored into octets 8..12 as a Buffer stores numbers. */
  function LegacyAddressResponse(epoch: u32, opCode: JsNum, fields: seq<JsNum>): (r: seq<byte>)
    requires |fields| == 4
    ensures |r| == 12
  {
    Put(AllocResponse(epoch, opCode, SUCCESS, 12), 8, seq(4, i requires 0 <= i < 4 => ToUint8(fields[i])))
  }

  /** For a cache holding a valid address, the answer is the refactored handler's public-address response. */
  lemma LegacyAddressResponseAgrees(epoch: u32, ip: Ip)
    ensures LegacyAddressResponse(epoch, Num(OP_PUBLIC_ADDRESS as int), IpFields(ip)) == AllocPublicAddressResponse(epoch, ip)
  {
    assert seq(4, i requires 0 <= i < 4 => ToUint8(IpFields(ip)[i])) == ip;
  }

  /**
   * What server.ts passes to start and stop as the protocol: `udpMode`, a
   * boolean. A boolean is no Protocol value and equals none of them; it is
   * encoded here as -1 (true) or -2 (false), numbers the enumeration does not name.
   */
  function LegacyProtocolAsWritten(udpMode: bool): (p: int)
    ensures ProtocolName(p).None?
  {
    if udpMode then -1 else -2
  }

  /** The evidently intended protocol: UDP for opcode 1, TCP otherwise. */
  function LegacyProtocol(udpMode: bool): (p: byte)
    ensures ProtocolName(p).Some?
    ensures p == UDP <==> udpMode
  {
    if udpMode then UDP else TCP
  }

  /**
   * As written, start never finds a record under the boolean and getPort finds
   * no cursor for it, so every grant request fails with NETWORK_FAILURE.
   */
  method StartAsWritten(table: Table, address: string, privatePort: u16, udpMode: bool, lifetime: nat, draw: nat)
    returns (r: Result<Mapping>)
    requires table.Valid() && draw < table.high - table.low
    modifies table, table.holder
    ensures r.Err?
    ensures table.Valid()
  {
    var key := Key(address, privatePort, LegacyProtocolAsWritten(udpMode));
    UnnamedProtocolAbsent(table, key);
    r := table.Start(key, lifetime, draw);
  }

  /** With the intended protocol, a grant for a new key stores one record the table can find. */
  method StartIntended(table: Table, address: string, privatePort: u16, udpMode: bool, lifetime: nat, draw: nat)
    returns (r: Result<Mapping>)
    requires table.Valid() && draw < table.high - table.low
    modifies table, table.holder
    ensures r.Ok? && table.Valid()
    ensures IndexOf(table.holder, Key(address, privatePort, LegacyProtocol(udpMode))) >= 0
  {
    var key := Key(address, privatePort, LegacyProtocol(udpMode));
    r := table.Start(key, lifetime, draw);
  }

  /** A grant waiting for its mapping's ready promise. */
  datatype Pending = Pending(privatePort: u16, lifetime: u32, info: Mapping)

  function Sends(d: Option<seq<byte>>): seq<seq<byte>>
  {
    if d.Some? then [d.value] else []
  }

  /** The 16-octet answer of the legacy handler, or None when its epoch write throws. */
  function LegacyMappingResponse(elapsed: int, opCode: JsNum, privatePort: u16, publicPort: u16, lifetime: u32): (r: Option<seq<byte>>)
    ensures r.Some? <==> IsU32(LegacyEpoch(elapsed))
    ensures r.Some? ==> r.value == MappingResponse(LegacyEpoch(elapsed), opCode, SUCCESS, privatePort, publicPort, lifetime)
  {
    if IsU32(LegacyEpoch(elapsed))
    then Some(MappingResponse(LegacyEpoch(elapsed), opCode, SUCCESS, privatePort, publicPort, lifetime))
    else None
  }

  /** The legacy removal echoes the requested external port where the refactored handler writes 0. */
  lemma LegacyRemovalEchoes(elapsed: int, opCode: byte, privatePort: u16, externalPort: u16)
    requires IsU32(LegacyEpoch(elapsed))
    ensures var r := LegacyMappingResponse(elapsed, Num(opCode as int), privatePort, externalPort, 0).value;
      ReadU16(r, 8) == privatePort && ReadU16(r, 10) == externalPort && ReadU32(r, 12) == 0
  {
    MappingResponseFields(LegacyEpoch(elapsed), opCode, SUCCESS, privatePort, externalPort, 0);
  }

  /**
   * One request handled by the legacy Handler: the datagram, its source, a
   * grant waiting for its mapping to be ready, and the datagrams sent back.
   */
  class LegacyExchange {
    const message: seq<byte>
    const remote: Ip
    var pending: Option<Pending>
    var sent: seq<seq<byte>>

    constructor (message: seq<byte>, remote: Ip)
      ensures this.message == message && this.remote == remote
      ensures pending == None && sent == []
    {
      this.message := message;
      this.remote := remote;
      pending := None;
      sent := [];
    }

    function OpCode(): JsNum
    {
      ByteAt(message, 1)
    }

    /** Whether the request asks for a UDP mapping (`udpMode`). */
    function UdpMode(): bool
    {
      OpCode() == Num(OP_NEW_UDP_PORT_MAPPING as int)
    }

    /** The key start and stop are called with as written: the boolean `udpMode` stands as the protocol. */
    function KeyOf(request: PortRequest): Key
    {
      Key(DottedQuad(remote), request.sourcePort, LegacyProtocolAsWritten(UdpMode()))
    }

    /** The key the request's mapping is evidently meant to be stored under. */
    function IntendedKeyOf(request: PortRequest): Key
    {
      Key(DottedQuad(remote), request.sourcePort, LegacyProtocol(UdpMode()))
    }

    /** sendPublicIp: the cached address, looked up through STUN while the cache is empty, or NETWORK_FAILURE. */
    method SendPublicIp(elapsed: int, cache: Cache, answer: StunAnswer)
      requires cache.Valid()
      modifies this, cache
      ensures cache.Valid() && pending == old(pending)
      ensures var looked := if old(cache.fields) != [] then Ok(old(cache.fields)) else Lookup(answer);
        sent == old(sent) +
          (if looked.Ok? && IsU32(LegacyEpoch(elapsed))
           then [LegacyAddressResponse(LegacyEpoch(elapsed), OpCode(), looked.value)]
           else Sends(LegacyAlloc(elapsed, OpCode(), NETWORK_FAILURE, 12)))
    {
      var ip := cache.GetPublicIp(answer);
      var epoch := LegacyEpoch(elapsed);
      if ip.Ok? && IsU32(epoch) {
        var buf := new byte[12](_ => 0);
        assert buf[..] == Zeros(12);
        StoreHeader(buf, epoch, OpCode(), SUCCESS);
        Store(buf, 8, seq(4, i requires 0 <= i < 4 => ToUint8(ip.value[i])));
        sent := sent + [buf[..]];
      } else {
        sent := sent + Sends(LegacyAlloc(elapsed, OpCode(), NETWORK_FAILURE, 12));
      }
    }

    /**
     * handlePortMapping as written: start and stop get the boolean `udpMode` as
     * the protocol. No record is ever stored under it, so stop finds nothing
     * and the removal is answered with the echo; getPort has no cursor for it,
     * so start throws and the catch answers NETWORK_FAILURE. A datagram too
     * short to read gets NETWORK_FAILURE as well. The table never changes.
     */
    method HandlePortMapping(elapsed: int, table: Table, draw: nat)
      requires table.Valid() && draw < table.high - table.low
      modifies this, table, table.holder
      ensures table.Valid()
      ensures pending == old(pending) && table.holder == old(table.holder)
      ensures ReadPortRequest(message).None? ==>
        sent == old(sent) + Sends(LegacyAlloc(elapsed, OpCode(), NETWORK_FAILURE, 16))
      ensures ReadPortRequest(message).Some? && ReadPortRequest(message).value.lifetime != 0 ==>
        sent == old(sent) + Sends(LegacyAlloc(elapsed, OpCode(), NETWORK_FAILURE, 16))
      ensures ReadPortRequest(message).Some? && ReadPortRequest(message).value.lifetime == 0 ==>
        var request := ReadPortRequest(message).value;
        sent == old(sent) + Sends(LegacyMappingResponse(elapsed, OpCode(), request.sourcePort, request.externalPort, 0))
    {
      var request := ReadPortRequest(message);
      if request.None? {
        sent := sent + Sends(LegacyAlloc(elapsed, OpCode(), NETWORK_FAILURE, 16));
        return;
      }
      var key := KeyOf(request.value);
      UnnamedProtocolAbsent(table, key);
      if request.value.lifetime != 0 {
        var info := table.Start(key, request.value.lifetime, draw);
        sent := sent + Sends(LegacyAlloc(elapsed, OpCode(), NETWORK_FAILURE, 16));
      } else {
        var info := table.Stop(key);
        var epoch := LegacyEpoch(elapsed);
        if !IsU32(epoch) {
          return;
        }
        var response := BuildMappingResponse(epoch, OpCode(), request.value.sourcePort, request.value.externalPort, 0);
        sent := sent + [response];
      }
    }

    /**
     * handlePortMapping with the intended protocol: a grant starts the mapping
     * and waits for it to be ready;
     * a removal stops it and answers once, found or not. A datagram too short to
     * read, or a start that throws, gets NETWORK_FAILURE.
     */
    method HandlePortMappingIntended(elapsed: int, table: Table, draw: nat)
      requires table.Valid() && draw < table.high - table.low
      modifies this, table, table.holder
      ensures table.Valid()
      ensures ReadPortRequest(message).None? ==>
        pending == old(pending) && table.holder == old(table.holder)
        && sent == old(sent) + Sends(LegacyAlloc(elapsed, OpCode(), NETWORK_FAILURE, 16))
      ensures ReadPortRequest(message).Some? && ReadPortRequest(message).value.lifetime != 0 ==>
        var key := IntendedKeyOf(ReadPortRequest(message).value);
        pending.Some? && sent == old(sent)
        && pending.value.privatePort == ReadPortRequest(message).value.sourcePort
        && pending.value.lifetime == ReadPortRequest(message).value.lifetime
        && IndexOf(table.holder, key) >= 0 && table.holder[IndexOf(table.holder, key)] == pending.value.info
      ensures ReadPortRequest(message).Some? && ReadPortRequest(message).value.lifetime == 0 ==>
        var request := ReadPortRequest(message).value;
        pending == old(pending) && IndexOf(table.holder, IntendedKeyOf(request)) == -1
        && sent == old(sent) + Sends(LegacyMappingResponse(elapsed, OpCode(), request.sourcePort, request.externalPort, 0))
    {
      var request := ReadPortRequest(message);
      if request.None? {
        sent := sent + Sends(LegacyAlloc(elapsed, OpCode(), NETWORK_FAILURE, 16));
        return;
      }
      var key := IntendedKeyOf(request.value);
      if request.value.lifetime != 0 {
        var info := table.Start(key, request.value.lifetime, draw);
        pending := Some(Pending(request.value.sourcePort, request.value.lifetime, info.value));
      } else {
        var info := table.Stop(key);
        var epoch := LegacyEpoch(elapsed);
        if !IsU32(epoch) {
          return;
        }
        var response := BuildMappingResponse(epoch, OpCode(), request.value.sourcePort, request.value.externalPort, 0);
        sent := sent + [response];
      }
    }

    /**
     * The awaited ready promise settles: a rejection (the helper exited) or a
     * public port outside u16 is caught and answered with NETWORK_FAILURE;
     * otherwise the grant is answered with the private port, the mapping's public
     * port and the requested lifetime.
     */
    method OnReady(elapsed: int, resolved: bool)
      requires pending.Some?
      modifies this
      ensures pending == None
      ensures var p := old(pending).value;
        sent == old(sent) +
          (if resolved && IsU16(p.info.publicPort)
           then (if IsU32(LegacyEpoch(elapsed))
                 then Sends(LegacyMappingResponse(elapsed, OpCode(), p.privatePort, p.info.publicPort, p.lifetime))
                 else [])
           else Sends(LegacyAlloc(elapsed, OpCode(), NETWORK_FAILURE, 16)))
    {
      var p := pending.value;
      pending := None;
      var epoch := LegacyEpoch(elapsed);
      if !resolved || (IsU32(epoch) && !IsU16(p.info.publicPort)) {
        sent := sent + Sends(LegacyAlloc(elapsed, OpCode(), NETWORK_FAILURE, 16));
        return;
      }
      if !IsU32(epoch) {
        return;
      }
      var response := BuildMappingResponse(epoch, OpCode(), p.privatePort, p.info.publicPort, p.lifetime);
      sent := sent + [response];
    }

    /**
     * handle: a wrong version or an unknown opcode gets one 8-octet error and
     * touches neither the table nor the cache; the other opcodes go to
     * sendPublicIp and to handlePortMapping as written.
     */
    method Handle(elapsed: int, table: Table, cache: Cache, answer: StunAnswer, draw: nat)
      requires table.Valid() && cache.Valid() && draw < table.high - table.low
      modifies this, table, table.holder, cache
      ensures table.Valid() && cache.Valid()
      ensures RouteOf(message) == BadVersion ==>
        sent == old(sent) + Sends(LegacyAlloc(elapsed, OpCode(), UNSUPPORTED_VERSION, 8))
        && pending == old(pending) && table.holder == old(table.holder) && cache.fields == old(cache.fields)
      ensures RouteOf(message) == BadOpcode ==>
        sent == old(sent) + Sends(LegacyAlloc(elapsed, OpCode(), UNSUPPORTED_OPCODE, 8))
        && pending == old(pending) && table.holder == old(table.holder) && cache.fields == old(cache.fields)
      ensures RouteOf(message) == PublicAddressRequest ==>
        table.holder == old(table.holder) && pending == old(pending)
        && |sent| == |old(sent)| + (if IsU32(LegacyEpoch(elapsed)) then 1 else 0)
      ensures RouteOf(message) == PortMappingRequest ==>
        cache.fields == old(cache.fields) && pending == old(pending) && table.holder == old(table.holder)
        && (ReadPortRequest(message).None? || ReadPortRequest(message).value.lifetime != 0 ==>
              sent == old(sent) + Sends(LegacyAlloc(elapsed, OpCode(), NETWORK_FAILURE, 16)))
        && (ReadPortRequest(message).Some? && ReadPortRequest(message).value.lifetime == 0 ==>
              sent == old(sent) + Sends(LegacyMappingResponse(elapsed, OpCode(), ReadPortRequest(message).value.sourcePort,
                                                              ReadPortRequest(message).value.externalPort, 0)))
    {
      var route := RouteOf(message);
      if route == BadVersion {
        sent := sent + Sends(LegacyAlloc(elapsed, OpCode(), UNSUPPORTED_VERSION, 8));
      } else if route == PublicAddressRequest {
        SendPublicIp(elapsed, cache, answer);
      } else if route == PortMappingRequest {
        HandlePortMapping(elapsed, table, draw);
      } else {
        sent := sent + Sends(LegacyAlloc(elapsed, OpCode(), UNSUPPORTED_OPCODE, 8));
      }
    }
  }
}
