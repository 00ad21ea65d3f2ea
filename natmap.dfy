/**
 * src/natmap.ts: the table of running port mappings and the bind-port
 * allocator. `holder` keeps at most one record per (sourceAddr, sourcePort,
 * protocol); `currentPort` keeps one cyclic cursor per protocol over the
 * inclusive bind range [low, high]. Each record stands for one helper process
 * whose status lines fill in the public address and port.
 */
module NatMap {
  import opened Wrappers
  import opened Bytes
  import opened JsText
  import opened MappingApi
  import opened PublicAddress

  // ----- the bind-port cursor -----

  /** One step of a cursor: past the range (or outside it) it wraps to `low`, otherwise it moves up by one. */
  function NextPort(low: int, high: int, current: int): (r: int)
    requires low <= high
    ensures low <= r <= high
  {
    if current < low || current >= high then low else current + 1
  }

  /** The cursor after `k` further calls. */
  function Ports(low: int, high: int, current: int, k: nat): int
    requires low <= high
  {
    if k == 0 then current else NextPort(low, high, Ports(low, high, current, k - 1))
  }

  lemma MulAtLeast(k: int, m: nat)
    requires k >= 1
    ensures k * m >= m
  {
  }

  /** Euclidean remainder of q * m + r for r in [0, m). */
  lemma ModOfSum(q: nat, r: nat, m: nat)
    requires 0 <= r < m
    ensures (q * m + r) % m == r
  {
    var x := q * m + r;
    var d := x / m;
    assert x == d * m + x % m;
    assert (q - d) * m == x % m - r;
    if q > d {
      MulAtLeast(q - d, m);
    } else if q < d {
      MulAtLeast(d - q, m);
    }
  }

  lemma ModSucc(a: nat, m: nat)
    requires m > 0
    ensures (a + 1) % m == if a % m == m - 1 then 0 else a % m + 1
  {
    var q, r := a / m, a % m;
    assert a == q * m + r;
    if r == m - 1 {
      assert a + 1 == (q + 1) * m;
      ModOfSum(q + 1, 0, m);
    } else {
      ModOfSum(q, r + 1, m);
    }
  }

  /** From inside the range the cursor walks the cycle low, low + 1, ..., high, low, ... */
  lemma {:induction false} PortsCycle(low: int, high: int, current: int, k: nat)
    requires low <= current <= high
    ensures Ports(low, high, current, k) == low + (current - low + k) % (high - low + 1)
    decreases k
  {
    var m := high - low + 1;
    if k == 0 {
      ModOfSum(0, current - low, m);
    } else {
      PortsCycle(low, high, current, k - 1);
      ModSucc(current - low + k - 1, m);
    }
  }

  /** The cycle has length high - low + 1: after that many calls the cursor is back where it was. */
  lemma PortsPeriod(low: int, high: int, current: int)
    requires low <= current <= high
    ensures Ports(low, high, current, high - low + 1) == current
  {
    var m := high - low + 1;
    PortsCycle(low, high, current, m);
    ModOfSum(1, current - low, m);
  }

  /** Within one cycle no port is handed out twice. */
  lemma PortsDistinct(low: int, high: int, current: int, j: nat, k: nat)
    requires low <= current <= high
    requires j < k <= high - low
    ensures Ports(low, high, current, j) != Ports(low, high, current, k)
  {
    var m := high - low + 1;
    PortsCycle(low, high, current, j);
    PortsCycle(low, high, current, k);
  }

  /** The first call seeds the cursor in [low, high - 1], so it hands out a port in [low + 1, high]. */
  lemma FirstPortRange(low: int, high: int, draw: nat)
    requires low < high && draw < high - low
    ensures low + 1 <= NextPort(low, high, low + draw) <= high
  {
  }

  // ----- lease timers -----

  /** Node's largest timer delay in milliseconds. */
  const TIMER_MAX: nat := 0x7FFF_FFFF

  /** The delay a Node timer actually uses: a delay below 1 ms or above TIMER_MAX becomes 1 ms. */
  function NodeTimerDelay(ms: int): (d: nat)
    ensures 1 <= d <= TIMER_MAX
    ensures 1 <= ms <= TIMER_MAX ==> d == ms
  {
    if ms < 1 || ms > TIMER_MAX then 1 else ms
  }

  /** createTimeout as written: setTimeout(..., lifetime * 1000). */
  function LeaseDelayAsWritten(lifetime: nat): nat
  {
    NodeTimerDelay(lifetime * 1000)
  }

  /** As written, one second more of lifetime turns a 24.8-day lease into a 1 ms one. */
  lemma LeaseDelayAsWrittenWraps()
    ensures LeaseDelayAsWritten(2147483) == 2147483000
    ensures LeaseDelayAsWritten(2147484) == 1
  {
  }

  /** The lease delay with the lifetime clamped to what a Node timer can hold. */
  function LeaseDelay(lifetime: nat): (d: nat)
    ensures 1 <= d <= TIMER_MAX
  {
    NodeTimerDelay(Min(lifetime * 1000, TIMER_MAX))
  }

  /** A lease lasts its lifetime, up to the timer limit, and a longer lifetime never expires sooner. */
  lemma LeaseDelayMeetsLifetime(a: nat, b: nat)
    requires 1 <= a <= b
    ensures LeaseDelay(a) == Min(a * 1000, TIMER_MAX)
    ensures LeaseDelay(a) <= LeaseDelay(b)
  {
  }

  /** The written and the corrected delay agree exactly up to a lifetime of 2147483 s. */
  lemma LeaseDelayAgrees(lifetime: nat)
    ensures LeaseDelayAsWritten(lifetime) == LeaseDelay(lifetime) <==> lifetime <= 2147483
  {
  }

  // ----- records -----

  /** One running mapping: its key, bind port and helper process, and what the helper reported. */
  class Mapping {
    const key: Key
    const bindPort: int
    /** The lifetime asked for when the record was created; a renewal does not update it. */
    const lifetime: nat
    /** Empty until the helper reports an address. */
    var publicAddr: string
    /** -1 until the helper reports a port. */
    var publicPort: int
    /** The armed lease timer's delay in milliseconds; None once cleared. */
    var timer: Option<nat>
    /** Whether the helper process is alive (spawned with the record, killed by stop). */
    var running: bool

    constructor (key: Key, bindPort: int, lifetime: nat)
      ensures this.key == key && this.bindPort == bindPort && this.lifetime == lifetime
      ensures publicAddr == "" && publicPort == -1 && timer == None && running
    {
      this.key := key;
      this.bindPort := bindPort;
      this.lifetime := lifetime;
      publicAddr := "";
      publicPort := -1;
      timer := None;
      running := true;
    }
  }

  /**
   * createTimeout: clears the record's timer and arms a new one with
   * setTimeout(..., lifetime * 1000), the delay Node then actually uses.
   */
  method CreateTimeout(info: Mapping, lifetime: nat)
    modifies info
    ensures info.timer == Some(LeaseDelayAsWritten(lifetime))
    ensures info.publicAddr == old(info.publicAddr) && info.publicPort == old(info.publicPort)
    ensures info.running == old(info.running)
  {
    info.timer := None;
    info.timer := Some(LeaseDelayAsWritten(lifetime));
  }

  predicate UniqueKeys(s: seq<Mapping>)
  {
    forall i, j :: 0 <= i < j < |s| ==> s[i].key != s[j].key
  }

  /** findIndex's answer: the first record with the key, or -1. */
  function IndexOf(s: seq<Mapping>, key: Key): (i: int)
    ensures -1 <= i < |s|
    ensures i == -1 <==> forall j :: 0 <= j < |s| ==> s[j].key != key
    ensures i >= 0 ==> s[i].key == key && forall j :: 0 <= j < i ==> s[j].key != key
  {
    if |s| == 0 then -1
    else if s[0].key == key then 0
    else
      var r := IndexOf(s[1..], key);
      if r == -1 then -1 else r + 1
  }

  /** The record stored under a key, as a frame. */
  function RecordOf(s: seq<Mapping>, key: Key): set<Mapping>
  {
    if IndexOf(s, key) >= 0 then {s[IndexOf(s, key)]} else {}
  }

  function Without(s: seq<Mapping>, i: nat): (r: seq<Mapping>)
    requires i < |s|
    ensures |r| == |s| - 1
  {
    s[..i] + s[i + 1..]
  }

  /** Removing the record stored under a key leaves no record with that key. */
  lemma WithoutRemovesKey(s: seq<Mapping>, key: Key)
    requires UniqueKeys(s) && IndexOf(s, key) >= 0
    ensures IndexOf(Without(s, IndexOf(s, key)), key) == -1
  {
    var i := IndexOf(s, key);
    var w := Without(s, i);
    forall j | 0 <= j < |w| ensures w[j].key != key {
      if j < i {
        assert w[j] == s[j];
      } else {
        assert w[j] == s[j + 1];
        assert s[i].key != s[j + 1].key;
      }
    }
  }

  lemma WithoutKeepsUnique(s: seq<Mapping>, i: nat)
    requires i < |s| && UniqueKeys(s)
    ensures UniqueKeys(Without(s, i))
  {
  }

  /** Every record's protocol is one the enumeration names. */
  predicate NamedProtocols(s: seq<Mapping>)
  {
    forall j :: 0 <= j < |s| ==> ProtocolName(s[j].key.protocol).Some?
  }

  // ----- the table -----

  class Table {
    /** config.bindPort: the inclusive range helpers bind to. */
    const low: int
    const high: int
    /** The running mappings, oldest first. */
    var holder: seq<Mapping>
    /** One cursor per protocol name; -1 until the first allocation. */
    var currentPort: map<string, int>

    ghost predicate Valid()
      reads this
    {
      low < high
      && currentPort.Keys == {"TCP", "UDP"}
      && (forall name :: name in currentPort ==> currentPort[name] == -1 || low <= currentPort[name] <= high)
      && UniqueKeys(holder)
      && NamedProtocols(holder)
    }

    constructor (low: int, high: int)
      requires low < high
      ensures Valid()
      ensures this.low == low && this.high == high
      ensures holder == [] && currentPort == map["TCP" := -1, "UDP" := -1]
    {
      this.low := low;
      this.high := high;
      holder := [];
      currentPort := map["TCP" := -1, "UDP" := -1];
    }

    /** The port handed out from a cursor, seeding a fresh cursor with `low + draw`. */
    function Allocated(current: int, draw: nat): (r: int)
      requires low <= high
      ensures low <= r <= high
    {
      NextPort(low, high, if current < 0 then low + draw else current)
    }

    /**
     * getPort: advances the protocol's cursor and returns it; a protocol without a
     * name has no cursor and throws. `draw` is floor(Math.random() * (high - low)).
     */
    method GetPort(protocol: int, draw: nat) returns (r: Result<int>)
      requires Valid()
      requires draw < high - low
      modifies this
      ensures Valid() && holder == old(holder)
      ensures ProtocolName(protocol).None? ==> r.Err? && currentPort == old(currentPort)
      ensures ProtocolName(protocol).Some? ==>
        var name := ProtocolName(protocol).value;
        r == Ok(Allocated(old(currentPort)[name], draw))
        && currentPort == old(currentPort)[name := r.value]
    {
      var name := ProtocolName(protocol);
      if name.None? {
        return Err("Invalid protocol");
      }
      var current := currentPort[name.value];
      if current < 0 {
        current := low + draw;
      }
      if current < low || current >= high {
        current := low;
      } else {
        current := current + 1;
      }
      currentPort := currentPort[name.value := current];
      return Ok(current);
    }

    /** findIndex: the position of the record with the key, or -1. */
    method FindIndex(key: Key) returns (i: int)
      ensures i == IndexOf(holder, key)
    {
      i := 0;
      while i < |holder|
        invariant 0 <= i <= |holder|
        invariant forall j :: 0 <= j < i ==> holder[j].key != key
      {
        if holder[i].key == key {
          return;
        }
        i := i + 1;
      }
      i := -1;
    }

    /**
     * start: an existing record only has its timer re-armed and is returned as
     * it is; otherwise a bind port is allocated, a helper is spawned, and one new
     * record is appended with no public address or port yet.
     */
    method Start(key: Key, lifetime: nat, draw: nat) returns (r: Result<Mapping>)
      requires Valid()
      requires draw < high - low
      modifies this, RecordOf(holder, key)
      ensures Valid()
      ensures IndexOf(old(holder), key) >= 0 ==>
        var info := old(holder)[IndexOf(old(holder), key)];
        r == Ok(info) && holder == old(holder) && currentPort == old(currentPort)
        && info.timer == Some(LeaseDelayAsWritten(lifetime))
        && info.publicAddr == old(info.publicAddr) && info.publicPort == old(info.publicPort)
        && info.running == old(info.running)
      ensures IndexOf(old(holder), key) == -1 && ProtocolName(key.protocol).None? ==>
        r.Err? && holder == old(holder) && currentPort == old(currentPort)
      ensures IndexOf(old(holder), key) == -1 && ProtocolName(key.protocol).Some? ==>
        var name := ProtocolName(key.protocol).value;
        r.Ok? && fresh(r.value) && holder == old(holder) + [r.value]
        && r.value.key == key && r.value.lifetime == lifetime
        && r.value.bindPort == Allocated(old(currentPort)[name], draw)
        && currentPort == old(currentPort)[name := r.value.bindPort]
        && r.value.publicAddr == "" && r.value.publicPort == -1
        && r.value.running && r.value.timer == Some(LeaseDelayAsWritten(lifetime))
      ensures r.Ok? ==> IndexOf(holder, key) >= 0 && holder[IndexOf(holder, key)] == r.value
    {
      var exist := FindIndex(key);
      if exist >= 0 {
        var info := holder[exist];
        CreateTimeout(info, lifetime);
        return Ok(info);
      }
      var port := GetPort(key.protocol, draw);
      if port.Err? {
        return Err(port.error);
      }
      var info := new Mapping(key, port.value, lifetime);
      holder := holder + [info];
      CreateTimeout(info, lifetime);
      assert holder[|holder| - 1] == info;
      return Ok(info);
    }

    /**
     * stop: an absent key changes nothing; a present one has its helper killed,
     * its timer cleared, and its record removed, the others keeping their order.
     */
    method Stop(key: Key) returns (r: Option<Mapping>)
      requires Valid()
      modifies this, RecordOf(holder, key)
      ensures Valid() && currentPort == old(currentPort)
      ensures IndexOf(old(holder), key) == -1 ==> r == None && holder == old(holder)
      ensures IndexOf(old(holder), key) >= 0 ==>
        var i := IndexOf(old(holder), key);
        r == Some(old(holder)[i]) && holder == Without(old(holder), i)
        && !r.value.running && r.value.timer == None
        && r.value.publicAddr == old(r.value.publicAddr) && r.value.publicPort == old(r.value.publicPort)
      ensures IndexOf(holder, key) == -1
    {
      var i := FindIndex(key);
      if i < 0 {
        return None;
      }
      WithoutRemovesKey(holder, key);
      var info := RemoveAt(i);
      r := Some(info);
    }

    /** The removal half of stop: the record's helper is killed, its timer cleared, and it is spliced out. */
    method RemoveAt(i: nat) returns (info: Mapping)
      requires Valid() && i < |holder|
      modifies this, holder[i]
      ensures Valid() && currentPort == old(currentPort)
      ensures info == old(holder)[i] && holder == Without(old(holder), i)
      ensures !info.running && info.timer == None
      ensures info.publicAddr == old(info.publicAddr) && info.publicPort == old(info.publicPort)
    {
      info := holder[i];
      WithoutKeepsUnique(holder, i);
      info.running := false;
      info.timer := None;
      holder := Without(holder, i);
    }

    /** The lease timer of `info` fires: the mapping under its key is stopped. */
    method Expire(info: Mapping) returns (removed: bool)
      requires Valid()
      modifies this, RecordOf(holder, info.key)
      ensures Valid() && currentPort == old(currentPort)
      ensures removed <==> IndexOf(old(holder), info.key) >= 0
      ensures removed ==> holder == Without(old(holder), IndexOf(old(holder), info.key))
      ensures !removed ==> holder == old(holder)
      ensures IndexOf(holder, info.key) == -1
    {
      var r := Stop(info.key);
      removed := r.Some?;
    }
  }

  /** Two records that are both in the table have different keys. */
  lemma AtMostOnePerKey(t: Table, a: Mapping, b: Mapping)
    requires t.Valid() && a in t.holder && b in t.holder && a.key == b.key
    ensures a == b
  {
    var i :| 0 <= i < |t.holder| && t.holder[i] == a;
    var j :| 0 <= j < |t.holder| && t.holder[j] == b;
  }

  /** No record is stored under a protocol the enumeration does not name. */
  lemma UnnamedProtocolAbsent(t: Table, key: Key)
    requires t.Valid() && ProtocolName(key.protocol).None?
    ensures IndexOf(t.holder, key) == -1
  {
  }

  // ----- the helper's status lines -----

  /** What the stdout listener does with one status line. */
  datatype StatusOutcome =
    | Throws              // fewer than five tokens: reading the protocol token throws
    | ProtocolMismatch
    | InvalidIp
    | InvalidPort
    | BindPortMismatch
    | Accepted(publicAddr: string, publicPort: int, fields: seq<JsNum>)

  /**
   * The checks on "publicAddr publicPort ip4p bindPort protocol": the trimmed,
   * upper-cased protocol names the record's protocol; the address has four
   * dot-separated parts; the port parses; the bind port is the record's.
   */
  function CheckStatusLine(line: string, protocol: int, bindPort: int): (r: StatusOutcome)
    ensures r.Throws? <==> |Split(line, ' ')| < 5
    ensures r.Accepted? ==> |r.fields| == 4 && r.publicAddr == Split(line, ' ')[0]
    ensures r.Accepted? ==>
      var t := Split(line, ' ');
      |t| >= 5 && Some(ToUpper(Trim(t[4]))) == ProtocolName(protocol)
      && r.fields == ParseIntFields(t[0]) && ParseInt(t[1]) == Num(r.publicPort) && NumberOf(t[3]) == Num(bindPort)
  {
    var tokens := Split(line, ' ');
    if |tokens| < 5 then Throws
    else if Some(ToUpper(Trim(tokens[4]))) != ProtocolName(protocol) then ProtocolMismatch
    else if |ParseIntFields(tokens[0])| != 4 then InvalidIp
    else if ParseInt(tokens[1]).NaN? then InvalidPort
    else if NumberOf(tokens[3]) != Num(bindPort) then BindPortMismatch
    else Accepted(tokens[0], ParseInt(tokens[1]).n, ParseIntFields(tokens[0]))
  }

  /** The status line a helper prints once its mapping is up. */
  function StatusLine(ip: Ip, publicPort: nat, ip4p: string, bindPort: nat, protocol: string): string
  {
    Join([DottedQuad(ip), DecimalString(publicPort), ip4p, DecimalString(bindPort), protocol], ' ')
  }

  lemma DecimalHasNoSpace(n: nat)
    ensures ' ' !in DecimalString(n)
  {
    var d := DecimalString(n);
    assert forall k :: 0 <= k < |d| ==> d[k] != ' ';
  }

  lemma DottedQuadHasNoSpace(ip: Ip)
    ensures ' ' !in DottedQuad(ip)
  {
    var parts := OctetStrings(ip);
    forall i | 0 <= i < 4 ensures ' ' !in parts[i] {
      DecimalHasNoSpace(ip[i]);
    }
    JoinAvoids(parts, '.', ' ');
  }

  /** A well-formed status line for the record's protocol and bind port is accepted with its address and port. */
  lemma StatusLineAccepted(ip: Ip, publicPort: nat, ip4p: string, bindPort: nat, protocol: int, token: string)
    requires ' ' !in ip4p && ' ' !in token
    requires ProtocolName(protocol) == Some(ToUpper(Trim(token)))
    ensures CheckStatusLine(StatusLine(ip, publicPort, ip4p, bindPort, token), protocol, bindPort)
      == Accepted(DottedQuad(ip), publicPort, IpFields(ip))
  {
    var parts := [DottedQuad(ip), DecimalString(publicPort), ip4p, DecimalString(bindPort), token];
    DottedQuadHasNoSpace(ip);
    DecimalHasNoSpace(publicPort);
    DecimalHasNoSpace(bindPort);
    SplitJoin(parts, ' ');
    ParseIntFieldsDotted(ip);
    ParseIntDecimal(publicPort);
    NumberOfDecimal(bindPort);
  }

  /** A line whose protocol token names another protocol is refused whatever else it says. */
  lemma StatusLineOtherProtocol(ip: Ip, publicPort: nat, ip4p: string, bindPort: nat, protocol: int, token: string)
    requires ' ' !in ip4p && ' ' !in token
    requires ProtocolName(protocol) != Some(ToUpper(Trim(token)))
    ensures CheckStatusLine(StatusLine(ip, publicPort, ip4p, bindPort, token), protocol, bindPort) == ProtocolMismatch
  {
    var parts := [DottedQuad(ip), DecimalString(publicPort), ip4p, DecimalString(bindPort), token];
    DottedQuadHasNoSpace(ip);
    DecimalHasNoSpace(publicPort);
    DecimalHasNoSpace(bindPort);
    SplitJoin(parts, ' ');
  }

  /** An address token of other than four dot-separated parts is refused with InvalidIp. */
  lemma {:induction false} StatusLineBadAddress(addr: string, publicPort: nat, ip4p: string, bindPort: nat, protocol: int, token: string)
    requires ' ' !in addr && ' ' !in ip4p && ' ' !in token
    requires ProtocolName(protocol) == Some(ToUpper(Trim(token)))
    requires |Split(addr, '.')| != 4
    ensures CheckStatusLine(Join([addr, DecimalString(publicPort), ip4p, DecimalString(bindPort), token], ' '), protocol, bindPort)
      == InvalidIp
  {
    var parts := [addr, DecimalString(publicPort), ip4p, DecimalString(bindPort), token];
    DecimalHasNoSpace(publicPort);
    DecimalHasNoSpace(bindPort);
    SplitJoin(parts, ' ');
  }

  /** A public port token that parseInt reads as NaN is refused with InvalidPort. */
  lemma {:induction false} StatusLineBadPort(ip: Ip, portText: string, ip4p: string, bindPort: nat, protocol: int, token: string)
    requires ' ' !in portText && ' ' !in ip4p && ' ' !in token
    requires ProtocolName(protocol) == Some(ToUpper(Trim(token)))
    requires ParseInt(portText).NaN?
    ensures CheckStatusLine(Join([DottedQuad(ip), portText, ip4p, DecimalString(bindPort), token], ' '), protocol, bindPort)
      == InvalidPort
  {
    var parts := [DottedQuad(ip), portText, ip4p, DecimalString(bindPort), token];
    DottedQuadHasNoSpace(ip);
    DecimalHasNoSpace(bindPort);
    SplitJoin(parts, ' ');
    ParseIntFieldsDotted(ip);
  }

  /** A line reporting another bind port than the record's is refused with BindPortMismatch. */
  lemma StatusLineOtherBindPort(ip: Ip, publicPort: nat, ip4p: string, reported: nat, bindPort: int, protocol: int, token: string)
    requires ' ' !in ip4p && ' ' !in token
    requires ProtocolName(protocol) == Some(ToUpper(Trim(token)))
    requires reported != bindPort
    ensures CheckStatusLine(StatusLine(ip, publicPort, ip4p, reported, token), protocol, bindPort) == BindPortMismatch
  {
    var parts := [DottedQuad(ip), DecimalString(publicPort), ip4p, DecimalString(reported), token];
    DottedQuadHasNoSpace(ip);
    DecimalHasNoSpace(publicPort);
    DecimalHasNoSpace(reported);
    SplitJoin(parts, ' ');
    ParseIntFieldsDotted(ip);
    ParseIntDecimal(publicPort);
    NumberOfDecimal(reported);
  }

  /**
   * The stdout listener: a line that fails a check leaves the record and the
   * public address alone; an accepted one sets the record's public address and
   * port and then stores the octets in the public-address cell, whose setter
   * throws on octets outside 0..255 after the record was already updated.
   */
  method OnStatusLine(info: Mapping, line: string, cell: PublicIp) returns (outcome: StatusOutcome, threw: bool)
    requires cell.Valid()
    modifies info, cell
    ensures cell.Valid()
    ensures outcome == CheckStatusLine(line, info.key.protocol, info.bindPort)
    ensures info.timer == old(info.timer) && info.running == old(info.running)
    ensures !outcome.Accepted? ==>
      threw == outcome.Throws?
      && info.publicAddr == old(info.publicAddr) && info.publicPort == old(info.publicPort)
      && cell.ip == old(cell.ip) && cell.changes == old(cell.changes)
    ensures outcome.Accepted? ==>
      info.publicAddr == outcome.publicAddr && info.publicPort == outcome.publicPort
      && (threw <==> AssertIp(outcome.fields).None?)
      && cell.ip == (if threw then old(cell.ip) else AssertIp(outcome.fields))
      && cell.changes == old(cell.changes) +
           (if !threw && old(cell.ip) != AssertIp(outcome.fields)
            then [Change(AssertIp(outcome.fields).value, old(cell.ip))] else [])
  {
    outcome := CheckStatusLine(line, info.key.protocol, info.bindPort);
    threw := ApplyStatus(info, outcome, cell);
  }

  /** What the listener does once a line is checked: only an accepted line updates the record and the cell. */
  method ApplyStatus(info: Mapping, outcome: StatusOutcome, cell: PublicIp) returns (threw: bool)
    requires cell.Valid()
    modifies info, cell
    ensures cell.Valid()
    ensures info.timer == old(info.timer) && info.running == old(info.running)
    ensures !outcome.Accepted? ==>
      threw == outcome.Throws?
      && info.publicAddr == old(info.publicAddr) && info.publicPort == old(info.publicPort)
      && cell.ip == old(cell.ip) && cell.changes == old(cell.changes)
    ensures outcome.Accepted? ==>
      info.publicAddr == outcome.publicAddr && info.publicPort == outcome.publicPort
      && (threw <==> AssertIp(outcome.fields).None?)
      && cell.ip == (if threw then old(cell.ip) else AssertIp(outcome.fields))
      && cell.changes == old(cell.changes) +
           (if !threw && old(cell.ip) != AssertIp(outcome.fields)
            then [Change(AssertIp(outcome.fields).value, old(cell.ip))] else [])
  {
    threw := outcome.Throws?;
    if outcome.Accepted? {
      info.publicAddr := outcome.publicAddr;
      info.publicPort := outcome.publicPort;
      var ok := cell.Set(outcome.fields);
      threw := !ok;
    }
  }
}
