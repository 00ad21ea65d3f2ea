# nat-mapmp, modelled in Dafny

nat-mapmp is a small daemon that answers NAT-PMP (RFC 6886) and PCP (RFC 6887)
requests on a router. Its clients are hosts behind a full-cone NAT. For every
requested mapping it starts a `natmap` helper process, bound to a port drawn
from a configured range. The helper's status line reports the public address
and port the helper holds open, and the daemon relays them to the client.

This project models the core of that daemon:

- `natmap.dfy`: the mapping table and the bind-port allocator of `src/natmap.ts`.
- `pcp.dfy`: the PCP MAP handler of `src/server/pcp-handler.ts`.
- `natpmp.dfy`: the NAT-PMP handler of `src/server/nat-pmp-handler.ts`.
- `server.dfy`: the refactored server of `src/server/index.ts`. It routes datagrams by version and announces the public address.
- `legacy_server.dfy`: the older NAT-PMP server of `src/server.ts`.
- `ip.dfy`: the STUN lookup and the public-address cell of `src/ip.ts`.
- `public_ip_cache.dfy`: the address cache of `src/public-ip.ts`.
- `cli.dfy`: the option validators of `src/index.ts`.

Three support modules hold what the core relies on:

- `bytes.dfy`: Node Buffer reads and writes, including the in-place array writers.
- `jstext.dfy`: JavaScript `split`, `trim`, `toUpperCase`, `parseInt`, `Number` and the Uint8 store.
- `mapping_api.dfy`: the protocol names and the mapping key the handlers share.

State that the source changes in place is modelled as classes:

- the mapping table and its records;
- the public-address cell;
- the address cache;
- each request handler, whose sent datagrams are a `sent` sequence.

Each method is proved against a specification function over the old and new state.

Choices made throughout:

- The clock is a parameter: `epoch` for the refactored server, milliseconds since start for the legacy one.
- The random draw of the first bind port is a parameter.
- Whether the mapping service throws is a parameter.
- The helper's status line is a parameter.
- The STUN server's answers are a function from timeout to outcome.
- TCP and UDP are the protocol numbers 6 and 17. No proof depends on these values.

Where the written text describing the daemon and its code disagree, the model follows the code:

- The bind-port cursor moves over the inclusive range `[low, high]`. Past `high`, it goes back to `low`.
- A failing STUN lookup is tried five times: at 500, 1000, 2000, 4000 and 8000 ms.
- Renewing an existing mapping re-arms its timer only. The record's `lifetime` keeps the first request's value.
- An accepted status line updates the record's public address and port before the public-address setter can throw on an octet above 255.
- A PCP error response is sent only for requests longer than 20 octets. For shorter ones, `fill(0, 12, 24)` throws on the response buffer.
- The legacy server's removal response echoes the requested external port and the request's zero lifetime. The refactored handler writes zeros.

## Model

| member | source | states |
|---|---|---|
| Bytes.WriteU16BE | src/server/nat-pmp-handler.ts:32 | writeUInt16BE overwrites exactly the two octets at the offset with the big-endian value; the rest of the buffer is unchanged |
| Bytes.WriteU32BE | src/server/nat-pmp-handler.ts:33 | writeUInt32BE overwrites exactly four octets at the offset with the big-endian value |
| Bytes.Store | src/server/nat-pmp-handler.ts:47-50 | index stores of octets overwrite exactly those slots |
| Bytes.FillZero | src/server/pcp-handler.ts:200 | fill(0, from, to) zeroes exactly the range [from, to) |
| Bytes.CopyPrefix | src/server/pcp-handler.ts:193-194 | copy writes the first min(n, source length, target length) octets of the source and leaves the rest |
| Bytes.CopyBytesFrom | src/server/pcp-handler.ts:132 | Buffer.copyBytesFrom gives a fresh buffer equal to the request |
| Bytes.ReadU32Put | src/server/pcp-handler.ts:146-147 | a u32 written big-endian reads back as the same value |
| Bytes.ReadU16Put | src/server/pcp-handler.ts:148 | a u16 written big-endian reads back as the same value |
| Bytes.U32BytesRead | src/ip.ts:66-72 | splitting a big-endian u32 read into its four octets gives back the four octets read |
| JsText.ToUint8 | src/server/nat-pmp-handler.ts:31 | storing a number into a Buffer slot keeps an in-range value and stores 0 for NaN |
| JsText.Add | src/server/pcp-handler.ts:196 | opCode + 128 is NaN exactly when opCode is (the octet is missing), and otherwise the sum |
| JsText.ByteAt | src/server/handler-base.ts:12-13 | message[i] is a number exactly when i is inside the message, and then it is that octet |
| JsText.Split | src/natmap.ts:109-110 | split yields at least one part, and no part contains the separator |
| JsText.JoinSplit | src/natmap.ts:119 | joining the parts of a split with the separator gives the text back |
| JsText.SplitJoin | src/index.ts:43 | splitting parts joined by a separator they do not contain gives the parts back |
| JsText.TrimStart | src/natmap.ts:111 | trim drops exactly the leading whitespace |
| JsText.TrimEnd | src/natmap.ts:111 | trim drops exactly the trailing whitespace |
| JsText.ToUpper | src/natmap.ts:111 | toUpperCase keeps the length and upper-cases every character |
| JsText.LeadingDigits | src/index.ts:33 | parseInt reads the longest prefix of digits, and the character after it is no digit |
| JsText.DecimalString | src/natmap.ts:137 | a number's decimal text is non-empty, all digits, and has no leading zero |
| JsText.DecimalStringValue | src/natmap.ts:137 | the digits of a number's decimal text evaluate to that number |
| JsText.ParseIntDecimal | src/index.ts:33 | parseInt of a number's decimal text is that number |
| JsText.NumberOfDecimal | src/server/pcp-handler.ts:116 | Number of a number's decimal text is that number |
| JsText.NumberOfSigned | src/natmap.ts:137 | Number reads a leading + or - before a number's decimal text as the sign of the value |
| MappingApi.ProtocolName | src/natmap.ts:40-41 | the protocol enumeration names exactly TCP and UDP, each by its own name |
| PublicAddress.AssertIp | src/ip.ts:99-105 | assertIp passes exactly for four fields in 0..255, which become the address |
| PublicAddress.AssertIpFields | src/ip.ts:99-105 | the fields of any address pass assertIp and give the address back |
| PublicAddress.IsEqualIp | src/ip.ts:93-97 | isEqualIp holds exactly when the two addresses are equal |
| PublicAddress.ParseIntFields | src/natmap.ts:119 | one parseInt result per dot-separated part |
| PublicAddress.NumberFields | src/server/pcp-handler.ts:116 | one Number result per dot-separated part |
| PublicAddress.DottedQuadSplit | src/natmap.ts:119 | the dotted text of an address splits into the decimal texts of its four octets |
| PublicAddress.ParseIntFieldsDotted | src/natmap.ts:119 | parseInt over the dotted text of an address gives its four octets back |
| PublicAddress.NumberFieldsDotted | src/server/pcp-handler.ts:116 | Number over the dotted text of an address gives its four octets back |
| PublicAddress.BindingRequestLayout | src/ip.ts:18-23 | the request is 20 octets: Binding type, zero length, magic cookie, then the transaction id |
| PublicAddress.NextOffset | src/ip.ts:40-42 | the walk always moves at least four octets and never past the end |
| PublicAddress.Attributes | src/ip.ts:35-43 | no attribute value is longer than its declared length |
| PublicAddress.WalkAttributes | src/ip.ts:35-43 | the loop that pushes attributes collects exactly the attribute list of the body |
| PublicAddress.AttributesEncode | src/ip.ts:35-43 | walking attributes written back to back gives the attributes back |
| PublicAddress.FindIpv4 | src/ip.ts:45-48 | as `find` does, a match is the first attribute of the wanted type with family IPv4, every earlier one of that type having another family; a read out of range happens at the first attribute of that type shorter than two octets, with none matching before it; no match means every attribute of that type has another family |
| PublicAddress.XorInvolution | src/ip.ts:50 | XOR with the same mask twice is the identity |
| PublicAddress.XorU32Involution | src/ip.ts:50 | the 32-bit XOR with the magic cookie undoes itself |
| PublicAddress.MappedIp | src/ip.ts:65-72 | MAPPED-ADDRESS yields the value's octets 4..8 unchanged |
| PublicAddress.XorMappedRoundTrip | src/ip.ts:49-58 | decoding an XOR-MAPPED-ADDRESS value gives back the address that was encoded |
| PublicAddress.ParseReply | src/ip.ts:29-33 | a reply failing any header check is ignored |
| PublicAddress.BindingSuccessParts | src/ip.ts:29-43 | a well-formed success reply passes every header check, and its body walks to its attributes |
| PublicAddress.ParseXorMappedReply | src/ip.ts:45-59 | a reply with XOR-MAPPED-ADDRESS resolves to the encoded address |
| PublicAddress.ParseMappedReply | src/ip.ts:61-75 | a reply with only MAPPED-ADDRESS resolves to that address |
| PublicAddress.ParseReplyWithoutAddress | src/ip.ts:77 | a reply with no address attribute rejects with "No address found" |
| PublicAddress.ParseReplyOtherTransaction | src/ip.ts:33 | a reply to another transaction id is ignored |
| PublicAddress.AttemptTimeouts | src/ip.ts:82-88 | the first attempt uses the given timeout |
| PublicAddress.DefaultSchedule | src/ip.ts:13 | from 500 ms the attempts are 500, 1000, 2000, 4000 and 8000 ms |
| PublicAddress.ScheduleShape | src/ip.ts:82-88 | each timeout doubles the previous; only the last exceeds 5000 ms, and it is at most 10000 ms |
| PublicAddress.GetPublicIpFails | src/ip.ts:82-88 | the lookup fails exactly when every attempt fails, and then with the last attempt's error |
| PublicAddress.GetPublicIpAnswers | src/ip.ts:82-88 | the lookup answers with the first attempt that answers |
| PublicAddress.PublicIp.constructor | src/ip.ts:107-108 | a new cell holds no address and has emitted nothing |
| PublicAddress.PublicIp.Get | src/ip.ts:109-114 | the getter throws exactly while no address is stored, and otherwise returns it |
| PublicAddress.PublicIp.Set | src/ip.ts:115-124 | invalid fields throw and change nothing; the stored address changes nothing; a different address is stored and emits exactly one (new, old) change; the change chain is kept |
| PublicAddress.SetTwiceEmitsOnce | src/ip.ts:118-120 | setting the same fields twice ends as one set does: the first emits one change when the address is new, the second emits nothing |
| PublicIpCache.Lookup | src/public-ip.ts:8-11 | a lookup succeeds exactly for an answer whose address splits into four parts, and then stores their parseInt values |
| PublicIpCache.LookupDotted | src/public-ip.ts:8-11 | a dotted-quad answer is cached as the address's octets, which pass assertIp |
| PublicIpCache.Cache.constructor | src/public-ip.ts:4 | the cache starts empty |
| PublicIpCache.Cache.UpdatePublicIp | src/public-ip.ts:16-22 | anything but four fields throws and leaves the cache as it was; four fields replace it |
| PublicIpCache.Cache.GetPublicIp | src/public-ip.ts:6-14 | a filled cache answers with itself and issues no request; an empty one issues one request and stores and returns what the lookup yields, or fails |
| PublicIpCache.GetTwiceAsksOnce | src/public-ip.ts:7 | after a successful lookup the next one returns the same fields, and at most one request was issued |
| NatMap.NextPort | src/natmap.ts:50-56 | one cursor step stays inside the bind range |
| NatMap.PortsCycle | src/natmap.ts:50-56 | after k steps the cursor sits at low + (current - low + k) mod the range size |
| NatMap.PortsPeriod | src/natmap.ts:50-56 | after as many steps as the range has ports the cursor is back where it started |
| NatMap.PortsDistinct | src/natmap.ts:50-56 | fewer steps than the range has ports never repeat a port |
| NatMap.FirstPortRange | src/natmap.ts:43-56 | the first port drawn lies in [low + 1, high] |
| NatMap.NodeTimerDelay | src/natmap.ts:63-67 | a timer delay in 1..2^31-1 ms is kept; any other becomes 1 ms |
| NatMap.LeaseDelayAsWrittenWraps | src/natmap.ts:67 | a lifetime of 2147483 s waits 2147483000 ms, but one of 2147484 s fires after 1 ms |
| NatMap.LeaseDelay | src/natmap.ts:67 | the corrected lease delay is a valid timer delay |
| NatMap.LeaseDelayMeetsLifetime | src/natmap.ts:67 | the corrected delay is the lifetime in ms, capped at the largest timer delay, and grows with the lifetime |
| NatMap.LeaseDelayAgrees | src/natmap.ts:67 | the delay as written equals the corrected one exactly for lifetimes up to 2147483 s |
| NatMap.Mapping.constructor | src/natmap.ts:98-106 | a new record has its key, bind port and lifetime, no public address, port -1, no timer, and a running helper |
| NatMap.CreateTimeout | src/natmap.ts:61-68 | the timer is re-armed with the delay Node uses for `lifetime * 1000` (1 ms past 2^31 - 1 ms), and nothing else of the record changes |
| NatMap.IndexOf | src/natmap.ts:181-193 | findIndex is -1 exactly when no record has the key, and otherwise is the first index with it |
| NatMap.Without | src/natmap.ts:174 | splicing out one record leaves one record fewer |
| NatMap.WithoutRemovesKey | src/natmap.ts:174 | with unique keys, splicing out the found record removes the key from the table |
| NatMap.WithoutKeepsUnique | src/natmap.ts:174 | splicing keeps the keys unique |
| NatMap.Table.constructor | src/natmap.ts:9 | the table starts empty, with both protocol cursors at -1 |
| NatMap.Table.Allocated | src/natmap.ts:43-56 | the allocated port lies in the bind range |
| NatMap.Table.GetPort | src/natmap.ts:39-59 | an unknown protocol throws and moves no cursor; otherwise the port is the cursor's next position, drawn at random first, and only that protocol's cursor moves |
| NatMap.Table.FindIndex | src/natmap.ts:181-193 | the loop returns the first index holding the key, or -1 |
| NatMap.Table.Start | src/natmap.ts:70-161 | an existing key re-arms that record's timer with the delay as written and returns it unchanged; an unknown protocol throws and changes nothing; otherwise one fresh running record with the allocated port is appended and timed; keys stay unique |
| NatMap.Table.Stop | src/natmap.ts:163-179 | a missing key returns nothing and changes nothing; otherwise the record is returned, its helper killed, its timer cleared, and it is spliced out; afterwards the key is absent |
| NatMap.Table.RemoveAt | src/natmap.ts:170-174 | the record at the index is killed, untimed and spliced out, and the table stays valid |
| NatMap.Table.Expire | src/natmap.ts:63-66 | the timeout callback removes the record's key exactly when it is still in the table |
| NatMap.AtMostOnePerKey | src/natmap.ts:76-84 | a valid table holds at most one record per key |
| NatMap.UnnamedProtocolAbsent | src/natmap.ts:40-41 | no record has a protocol the enumeration does not name |
| NatMap.CheckStatusLine | src/natmap.ts:109-147 | reading the line throws exactly when it has fewer than five tokens; an accepted line passed every check: its protocol token names the record's protocol, its address splits into four fields, which it carries, its port parses to the reported port and its bind port is the record's |
| NatMap.StatusLineAccepted | src/natmap.ts:109-147 | the helper's line for an address, port and the record's bind port and protocol is accepted with that address, port and octets |
| NatMap.StatusLineOtherProtocol | src/natmap.ts:111-118 | a line naming another protocol is a protocol mismatch |
| NatMap.StatusLineBadAddress | src/natmap.ts:119-127 | a line whose address token does not have four dot-separated parts is refused as an invalid address |
| NatMap.StatusLineBadPort | src/natmap.ts:128-136 | a line whose port token parseInt reads as NaN is refused as an invalid port |
| NatMap.StatusLineOtherBindPort | src/natmap.ts:137-144 | a line reporting another bind port than the record's is refused as a bind port mismatch |
| NatMap.OnStatusLine | src/natmap.ts:108-150 | a rejected line changes nothing (a short line throws); an accepted one stores the address and port, then sets the public address, which throws exactly when an octet is out of range and otherwise emits one change exactly when the address is new |
| NatMap.ApplyStatus | src/natmap.ts:145-147 | only an accepted outcome updates the record's address and port and the public-address cell; the cell emits one change exactly when the accepted address is valid and new |
| Pcp.Ipv4Mapped | src/server/pcp-handler.ts:33-40 | an address is read exactly from 16 octets of ten zeros and two 0xFF, and it is the last four |
| Pcp.ReadIpv4MappedAddress | src/server/pcp-handler.ts:33-40 | the loop over the first ten octets decides as Ipv4Mapped does |
| Pcp.MappedFormRoundTrip | src/server/pcp-handler.ts:33-40 | the IPv4-mapped form of an address reads back as the address |
| Pcp.Validate | src/server/pcp-handler.ts:44-128 | a request proceeds only when it is 60 octets of version 2 and opcode MAP, for TCP or UDP, with a non-zero internal port, both addresses IPv4-mapped and the client address equal to the sender, and then with its lifetime, protocol and port |
| Pcp.RequestHeaderFields | src/server/pcp-handler.ts:85-86 | the request header carries the version, MAP, the lifetime and the client's mapped address where they are read |
| Pcp.MapBodyFields | src/server/pcp-handler.ts:87-91 | the MAP body carries the nonce, protocol, port and external address where they are read |
| Pcp.MapRequestFields | src/server/pcp-handler.ts:85-91 | a MAP request carries every field at the offset the handler reads it from |
| Pcp.ValidateMapRequest | src/server/pcp-handler.ts:44-128 | a well-formed MAP request for TCP or UDP with a non-zero port from its own client proceeds with its lifetime, protocol and port |
| Pcp.ValidateOtherSender | src/server/pcp-handler.ts:113-128 | the same request sent from another address is refused with ADDRESS_MISMATCH |
| Pcp.ValidateOtherVersion | src/server/pcp-handler.ts:45-54 | a datagram of another version, the empty one included, is refused with UNSUPPORTED_VERSION |
| Pcp.ValidateOtherOpcode | src/server/pcp-handler.ts:55-64 | a version-2 datagram of another opcode is refused with UNSUPPORTED_OPCODE |
| Pcp.ValidateOtherProtocol | src/server/pcp-handler.ts:93-97 | a MAP request for a protocol other than TCP and UDP is refused with UNSUPPORTED_PROTOCOL |
| Pcp.ValidateWildcardPort | src/server/pcp-handler.ts:98-102 | a MAP request for internal port 0 is refused with UNSUPPORTED_PROTOCOL |
| Pcp.ValidateUnmappedAddress | src/server/pcp-handler.ts:103-112 | a MAP request whose client or external address is not IPv4-mapped is refused with MALFORMED_REQUEST |
| Pcp.ValidateLengthFirst | src/server/pcp-handler.ts:65-84 | a short MAP request is MALFORMED_REQUEST and a long one UNSUPPORTED_OPTION |
| Pcp.ErrorLength | src/server/pcp-handler.ts:188-191 | the error length is a multiple of four, at most 1100, and the smallest such at or above min(length, 1100) |
| Pcp.ErrorLengthAtLeast24 | src/server/pcp-handler.ts:188-200 | the error buffer reaches 24 octets exactly when the request is longer than 20 |
| Pcp.ErrorResponseSent | src/server/pcp-handler.ts:184-203 | an error response is sent exactly for requests longer than 20 octets |
| Pcp.ErrorResponseFields | src/server/pcp-handler.ts:184-203 | the error response has the padded length, the request's version and octet 2, opcode + 128, the code, 1800 or 30 s, the epoch, zeros at 12..24, and the request's octets (zero-padded) after that |
| Pcp.ErrorChainFields | src/server/pcp-handler.ts:196-200 | the five writes of sendError put exactly those fields into the copied buffer |
| Pcp.BuildErrorResponse | src/server/pcp-handler.ts:184-203 | the in-place build on an array gives exactly the error response |
| Pcp.ErrorResponseSteps | src/server/pcp-handler.ts:193-200 | the buffer after the copy and the writes is the error response |
| Pcp.CopySuccessBase | src/server/pcp-handler.ts:132-137 | the copied and patched buffer is the success base of the request |
| Pcp.WriteRemoval | src/server/pcp-handler.ts:169-175 | the removal writes turn the success base into the removal response |
| Pcp.SuccessBaseFields | src/server/pcp-handler.ts:132-137 | the success base is the request with opcode + 128, reserved 0, SUCCESS and zeros at 12..24, all else copied |
| Pcp.RemovalResponseFields | src/server/pcp-handler.ts:169-176 | a removal answers lifetime 0, the epoch, port 0 and address 0.0.0.0, all else as the success base |
| Pcp.PublicOctetsDotted | src/server/pcp-handler.ts:149-155 | the octets stored from the dotted public address are the address |
| Pcp.OnChangeEffect | src/server/pcp-handler.ts:144-156 | nothing is written or sent while the public port or address is unset; it sends exactly when both are set and the lifetime and port fit their fields, throws exactly when they are set and one does not fit, and touches the response only in the grant fields |
| Pcp.GrantFields | src/server/pcp-handler.ts:144-156 | with a public address and port the response is sent with the lifetime, epoch, port and address |
| Pcp.OnChangeIdempotent | src/server/pcp-handler.ts:144-156 | a second identical change event rewrites the same response |
| Pcp.PcpExchange.constructor | src/server/handler-base.ts:7-13 | a handler starts with its request and peer, nothing sent and nothing granted |
| Pcp.PcpExchange.SendError | src/server/pcp-handler.ts:184-203 | sends the error response when there is one and nothing else |
| Pcp.PcpExchange.Handle | src/server/pcp-handler.ts:44-181 | a refused request gets the first failing check's error; a passing one calls start or stop; a throwing call gets NETWORK_FAILURE with the short lifetime; a grant keeps the success base for its listener; a removal sends the removal response |
| Pcp.PcpExchange.OnChange | src/server/pcp-handler.ts:144-160 | the listener patches the same buffer and sends it exactly when the effect says so |
| NatPmp.AllocResponse | src/server/nat-pmp-handler.ts:23-35 | the response has the requested size |
| NatPmp.AllocResponseFields | src/server/nat-pmp-handler.ts:23-35 | version 0, opcode + 128 mod 256, the result code, the epoch, and zeros after the header |
| NatPmp.AllocPublicAddressResponse | src/server/nat-pmp-handler.ts:37-52 | the PUBLIC_ADDRESS response is 12 octets |
| NatPmp.PublicAddressResponseFields | src/server/nat-pmp-handler.ts:37-52 | it carries opcode 128, SUCCESS, the epoch and the address |
| NatPmp.MappingResponse | src/server/nat-pmp-handler.ts:118-121 | a mapping response is 16 octets |
| NatPmp.MappingResponseFields | src/server/nat-pmp-handler.ts:118-121 | it carries the header, the private and public ports and the lifetime |
| NatPmp.RouteOf | src/server/nat-pmp-handler.ts:56-86 | a bad version, PUBLIC_ADDRESS and the two mapping opcodes are recognised exactly |
| NatPmp.ProtocolOf | src/server/nat-pmp-handler.ts:106-109 | opcode 1 is UDP and every other opcode TCP |
| NatPmp.ReadPortRequest | src/server/nat-pmp-handler.ts:103-109 | a request is read exactly from 12 octets or more, with its ports, lifetime and protocol at their offsets |
| NatPmp.PortMappingMessage | src/server/nat-pmp-handler.ts:103-105 | a mapping request is 12 octets |
| NatPmp.ReadPortMappingMessage | src/server/nat-pmp-handler.ts:101-110 | a mapping request is routed as one and read back as its fields |
| NatPmp.NatPmpExchange.constructor | src/server/handler-base.ts:7-13 | a handler starts with its request and peer, no listener and nothing sent |
| NatPmp.NatPmpExchange.Handle | src/server/nat-pmp-handler.ts:56-142 | a bad version or opcode gets its error; PUBLIC_ADDRESS gets the address or NETWORK_FAILURE; a mapping request calls start or stop, a throwing call gets NETWORK_FAILURE, a grant registers a listener, a removal answers zeros |
| NatPmp.NatPmpExchange.HandlePortMapping | src/server/nat-pmp-handler.ts:101-142 | the mapping part of Handle |
| NatPmp.NatPmpExchange.OnChange | src/server/nat-pmp-handler.ts:116-123 | a change with a public port sends one grant response, unless a write throws; with no port it sends nothing |
| NatPmp.StoreHeader | src/server/nat-pmp-handler.ts:29-33 | the header writes on a zeroed buffer give the allocResponse bytes |
| NatPmp.BuildMappingResponse | src/server/nat-pmp-handler.ts:132-135 | the in-place writes give the mapping response |
| NatPmp.GrantResponseFields | src/server/nat-pmp-handler.ts:118-121 | a grant carries SUCCESS, the private port, the public port and the lifetime |
| NatPmp.RemovalResponseFields | src/server/nat-pmp-handler.ts:132-135 | a removal carries SUCCESS, the private port, public port 0 and lifetime 0 |
| DaemonServer.Route | src/server/index.ts:57-70 | version 2 goes to PCP and every other datagram to NAT-PMP |
| DaemonServer.RouteMapRequest | src/server/index.ts:60-63 | a PCP MAP request reaches the PCP handler |
| DaemonServer.RouteNatPmpRequest | src/server/index.ts:64-67 | a NAT-PMP request, and an empty datagram, reach the NAT-PMP handler |
| DaemonServer.Delays | src/server/index.ts:43-53 | ten waits |
| DaemonServer.DelaysDouble | src/server/index.ts:43-53 | the first wait is 250 ms and each wait doubles the previous |
| DaemonServer.WaitedBefore | src/server/index.ts:43-53 | before the i-th announcement 250 * (2^i - 1) ms have passed |
| DaemonServer.AnnounceEpoch | src/server/index.ts:42-45 | the corrected epoch is the whole seconds waited before the announcement |
| DaemonServer.Announcements | src/server/index.ts:44-51 | ten announcements |
| DaemonServer.AnnouncementsCarryAddress | src/server/index.ts:45-51 | each announcement is a 12-octet PUBLIC_ADDRESS response with the address and the corrected epoch, to 224.0.0.1 on the port below the service port |
| DaemonServer.AnnouncementAsWritten | src/server/index.ts:42-45 | the announcement as written exists exactly when the millisecond start time fits in 32 bits |
| DaemonServer.AnnouncementAsWrittenThrows | src/server/index.ts:42-45 | at any present-day time the first announcement already throws |
| DaemonServer.Server.constructor | src/server/index.ts:17-19 | a new server has start time 0 and has bound and sent nothing |
| DaemonServer.Server.Listen | src/server/index.ts:20-23 | a server that has announced does not bind again; otherwise it binds once |
| DaemonServer.Server.AnnounceAsWritten | src/server/index.ts:41-55 | as written, with a start time of 2^32 ms or more, or no address, nothing is sent |
| DaemonServer.Server.Announce | src/server/index.ts:41-55 | the corrected loop sends the ten announcements with the doubling waits, or nothing while there is no address |
| LegacyServer.LegacyEpoch | src/server.ts:145 | the epoch is the floor of the elapsed milliseconds over 1000 |
| LegacyServer.LegacyAlloc | src/server.ts:136-147 | the response exists exactly when the epoch fits in 32 bits, and is then the shared header layout |
| LegacyServer.LegacyAddressResponse | src/server.ts:75-79 | the PUBLIC_ADDRESS answer is 12 octets |
| LegacyServer.LegacyAddressResponseAgrees | src/server.ts:75-79 | for the cached octets of an address it is the refactored handler's response |
| LegacyServer.LegacyProtocolAsWritten | src/server.ts:93-100 | the value passed as the protocol names no protocol |
| LegacyServer.LegacyProtocol | src/server.ts:93 | the corrected protocol is UDP exactly in UDP mode, and always named |
| LegacyServer.StartAsWritten | src/server.ts:100 | starting a mapping as written always throws |
| LegacyServer.StartIntended | src/server.ts:100 | with the corrected protocol the mapping starts and its key is in the table |
| LegacyServer.LegacyMappingResponse | src/server.ts:102-105 | a mapping answer exists exactly when the epoch fits, and is then the shared layout |
| LegacyServer.LegacyRemovalEchoes | src/server.ts:124-128 | a removal answer echoes the private port and the requested external port, with lifetime 0 |
| LegacyServer.LegacyExchange.constructor | src/server.ts:24-32 | a handler starts with its request and peer, nothing pending and nothing sent |
| LegacyServer.LegacyExchange.SendPublicIp | src/server.ts:71-86 | the cached or looked-up address is sent, or NETWORK_FAILURE when the lookup fails |
| LegacyServer.LegacyExchange.HandlePortMapping | src/server.ts:88-134 | as written the table and the pending grant never change: a short request and every grant (start throws on the boolean protocol) get one 16-octet NETWORK_FAILURE; a removal finds nothing to stop and echoes the request with lifetime 0 |
| LegacyServer.LegacyExchange.HandlePortMappingIntended | src/server.ts:88-134 | with the UDP/TCP protocol number: a short request gets NETWORK_FAILURE; a grant stores the record and waits for it with nothing sent; a removal leaves the key absent and echoes the request |
| LegacyServer.LegacyExchange.OnReady | src/server.ts:101-109 | after a grant of HandlePortMappingIntended: once the mapping is ready the grant is sent; a failure sends NETWORK_FAILURE |
| LegacyServer.LegacyExchange.Handle | src/server.ts:43-65 | a bad version or opcode gets its error; PUBLIC_ADDRESS answers once; a mapping request leaves the cache, the table and the pending grant alone and sends NETWORK_FAILURE for a short request or a grant, the echo for a removal |
| Cli.ValidateHost | src/index.ts:20-26 | a host is accepted as itself exactly when it matches four dot-separated groups of 1 to 3 digits |
| Cli.MatchesGroupsSplit | src/index.ts:22 | the pattern holds exactly when the text splits on dots into k groups of 1 to 3 digits |
| Cli.SplitsIntoGroupsAtDot | src/index.ts:22 | a group, a dot, then k - 1 groups make k groups, and only that way |
| Cli.HostAcceptsDottedQuad | src/index.ts:20-26 | the dotted text of every address is accepted |
| Cli.ShortDecimal | src/index.ts:22 | numbers below 1000 have at most three digits |
| Cli.HostAcceptsGroups | src/index.ts:20-26 | any four digit groups joined by dots are accepted |
| Cli.HostAcceptsLargeGroups | src/index.ts:22 | the pattern does not bound a group by 255 |
| Cli.ValidatePort | src/index.ts:32-36 | a port is accepted exactly when parseInt gives a number in 1..65535, and then it is that number |
| Cli.PortRoundTrip | src/index.ts:32-36 | every port written in decimal is accepted as itself |
| Cli.BindFields | src/index.ts:43 | one parseInt result per dash-separated part |
| Cli.ValidateBind | src/index.ts:42-56 | accepted exactly for two fields in 1..65535 with the start below the end; otherwise the first failing check decides the message: "Invalid port range" for a field count other than two, "Invalid port range start", "Invalid port range end", and "Invalid port range" when the start is not below the end |
| Cli.BindRoundTrip | src/index.ts:42-56 | "low-high" in decimal is accepted as that range exactly when 0 < low < high < 65536 |

## Left out

- Sockets, DNS lookup, process spawning, signals, logging and request ids are left out. A sent datagram is an entry appended to a `sent` sequence.
- The random draw of the first bind port, the clock and the STUN server's behaviour are parameters rather than effects.
- Promise timing and event ordering are left out. `await info.ready` and a "change" event are separate method calls (`OnReady`, `OnChange`) that the caller makes in order.
- The helper's exit, which rejects the ready promise, is the `resolved` parameter of `LegacyServer.LegacyExchange.OnReady`.
- `src/config.ts`, `src/logger.ts`, the `stun` library and the bundled JavaScript copies are not part of this model.
- Mapping.start and Mapping.stop, as the refactored handlers call them with a key object and a reason, are not shown in `src/natmap.ts`. The handlers return the call they make (`MappingCall`), and a boolean parameter says whether it throws.
- NatMap.OnStatusLine: the status line is one complete line per `data` event. Chunking of the helper's output is not modelled.
- NatMap.Table.Start: the first port is drawn below `high - low`, as `Math.random()` is below 1. The draw is a parameter.
- PublicAddress.GetPublicIp: each attempt's outcome is a function of its timeout. Time and the socket's error event are not modelled separately.
- JsText.ParseInt and JsText.NumberOf: only integer forms are modelled. ParseInt reads an optional sign, then a 0x prefix or decimal digits. NumberOf reads the empty string as 0, decimal digits with an optional sign, and 0x hex digits without a sign. Fractions, exponents, Infinity, 0b/0o prefixes, -0 and Unicode whitespace beyond the listed characters are not.
- JsText.ToUpper: only ASCII letters are upper-cased.
- DaemonServer.Server.Announce: each wait is assumed to last exactly as long as asked, so the epoch is the sum of the waits so far.
- DaemonServer.Server.Listen: the bind error path, waiting for the first public address and subscribing to "change" are not modelled.
- LegacyServer.LegacyExchange.Handle: for a PUBLIC_ADDRESS request it states only how many datagrams are sent. Their content is the contract of `SendPublicIp`.
- LegacyServer.LegacyExchange.Handle dispatches to the mapping handler as written, so no legacy grant ever reaches `OnReady`; `OnReady` models the continuation of `HandlePortMappingIntended`.
- Pcp.Validate: its own ensures state what a proceeding request satisfies. Each refusal code is stated by a lemma beside it. UNSUPPORTED_PROTOCOL and ADDRESS_MISMATCH are stated for the well-formed MAP requests `MapRequest` lays out; the other codes for any datagram that reaches their check.
- NatMap.CheckStatusLine: each refusal is stated by a lemma for lines of five space-free tokens. Which refusal a line with several faults gets (the first failing check) follows from the function body alone.
- The refactored and the legacy server both model the address they read from a udp4 socket as four octets in canonical dotted form.

## Findings

| source | as written | input that shows it | evidently intended | confidence | as-written member | corrected member |
|---|---|---|---|---|---|---|
| src/server/index.ts:42-45 | the epoch field of every announcement is `startTime`, Date.now() in milliseconds, and writeUInt32BE throws for values of 2^32 or more, so no announcement is sent | Date.now() = 1700000000000 (any time after 1970-02-19) | the epoch is the seconds since the announcement reset the start time (section 3.2.1 of RFC 6886) | high, not executed | DaemonServer.AnnouncementAsWrittenThrows | DaemonServer.Server.Announce |
| src/natmap.ts:67 | the lease timer is `setTimeout(..., lifetime * 1000)`; Node replaces a delay above 2^31 - 1 ms with 1 ms | a NAT-PMP or PCP lifetime of 2147484 s (a valid u32) | the mapping lives at least as long as the timer allows, with the delay capped at 2^31 - 1 ms | high, not executed | NatMap.LeaseDelayAsWrittenWraps | NatMap.LeaseDelayMeetsLifetime |
| src/server.ts:93-134 | the boolean `udpMode` is passed as the protocol to start and stop, which names no protocol, so start throws (every grant is answered NETWORK_FAILURE) and stop finds nothing (a removal is echoed without removing anything) | any mapping request with a non-zero lifetime | the protocol number for UDP or TCP, as the refactored handler passes it | high, not executed | LegacyServer.LegacyExchange.HandlePortMapping | LegacyServer.LegacyExchange.HandlePortMappingIntended |
