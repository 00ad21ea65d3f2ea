/**
 * The vocabulary shared by the mapping table and the request handlers: the two
 * transport protocols, the key a mapping is stored under, what a "change"
 * notification carries, and the call a handler makes into the mapping service.
 *
 * The protocol enumeration is imported by src/natmap.ts and the handlers but is
 * not defined in src/constants.ts; TCP and UDP are two distinct octets here
 * (the IANA numbers RFC 6887 section 11.1 uses), and no proof depends on their values.
 */
module MappingApi {
  import opened Wrappers
  import opened Bytes

  const TCP: byte := 6
  const UDP: byte := 17

  /** Protocol[p]: the enumeration's reverse lookup, the name of a protocol number. */
  function ProtocolName(p: int): (r: Option<string>)
    ensures r.Some? <==> p == TCP || p == UDP
    ensures r == Some("TCP") <==> p == TCP
    ensures r == Some("UDP") <==> p == UDP
  {
    if p == TCP then Some("TCP") else if p == UDP then Some("UDP") else None
  }

  /** What a mapping is stored under: the client's address text, its private port, and the protocol. */
  datatype Key = Key(sourceAddr: string, sourcePort: int, protocol: int)

  /** The fields of a mapping a "change" listener reads. */
  datatype MappingInfo = MappingInfo(publicAddr: string, publicPort: int, lifetime: int)

  /** The call a handler makes into the mapping service for one request. */
  datatype MappingCall = NoCall | Start(key: Key, lifetime: int) | Stop(key: Key)
}
