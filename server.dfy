/**
 * src/server/index.ts: the refactored server. It routes each datagram by its
 * version octet, binds once, and announces the public address (RFC 6886
 * section 3.2.1): ten PUBLIC_ADDRESS responses to 224.0.0.1 on the port
 * below the service port, the wait doubling from 250 ms after each.
 */
module DaemonServer {
  import opened Wrappers
  import opened Bytes
  import opened PublicAddress
  import opened NatPmp
  import Pcp

  /** config.port: the NAT-PMP/PCP service port. */
  const PORT: int := 5351
  const ALL_HOSTS: string := "224.0.0.1"
  const ANNOUNCEMENTS: nat := 10
  const FIRST_DELAY: nat := 250

  /** The handler a datagram is given to. */
  datatype Handler = PcpHandler | NatPmpHandler

  /** onMessage: version 2 goes to the PCP handler; every other version, 0 included, to NAT-PMP. */
  function Route(msg: seq<byte>): (h: Handler)
    ensures h == PcpHandler <==> |msg| > 0 && msg[0] == Pcp.VERSION
  {
    if |msg| > 0 && msg[0] == Pcp.VERSION then PcpHandler else NatPmpHandler
  }

  /** A PCP MAP request reaches the PCP handler. */
  lemma RouteMapRequest(lifetime: u32, client: Ip, nonce: seq<byte>, protocol: byte,
                        sourcePort: u16, externalPort: u16, external: Ip)
    requires |nonce| == 12
    ensures Route(Pcp.MapRequest(lifetime, client, nonce, protocol, sourcePort, externalPort, external)) == PcpHandler
  {
    Pcp.MapRequestFields(lifetime, client, nonce, protocol, sourcePort, externalPort, external);
  }

  /** A NAT-PMP request reaches the NAT-PMP handler, and so does a datagram too short to carry a version. */
  lemma RouteNatPmpRequest(opCode: byte, sourcePort: u16, externalPort: u16, lifetime: u32)
    ensures Route(PortMappingMessage(opCode, sourcePort, externalPort, lifetime)) == NatPmpHandler
    ensures Route([]) == NatPmpHandler
  {
    assert PortMappingMessage(opCode, sourcePort, externalPort, lifetime)[0] == NatPmp.VERSION;
  }

  /** A datagram sent by the server socket. */
  datatype Datagram = Datagram(payload: seq<byte>, port: int, address: string)

  /** The wait after the i-th announcement. */
  function Delay(i: nat): nat
  {
    FIRST_DELAY * Pow2(i)
  }

  /** The waits after the ten announcements. */
  function Delays(): (r: seq<nat>)
    ensures |r| == ANNOUNCEMENTS
  {
    seq(ANNOUNCEMENTS, i requires 0 <= i => Delay(i))
  }

  /** Each wait is twice the one before. */
  lemma DelaysDouble()
    ensures Delays()[0] == FIRST_DELAY
    ensures forall i :: 0 < i < ANNOUNCEMENTS ==> Delays()[i] == 2 * Delays()[i - 1]
  {
  }

  function Sum(s: seq<nat>): nat
  {
    if |s| == 0 then 0 else Sum(s[..|s| - 1]) + s[|s| - 1]
  }

  /** The time waited before the i-th announcement is 250 * (2^i - 1) ms. */
  lemma {:induction false} WaitedBefore(i: nat)
    requires i <= ANNOUNCEMENTS
    ensures Sum(Delays()[..i]) == FIRST_DELAY * (Pow2(i) - 1)
    ensures Pow2(i) >= 1
  {
    if i > 0 {
      WaitedBefore(i - 1);
      assert Delays()[..i][..i - 1] == Delays()[..i - 1];
    }
  }

  /**
   * The evidently intended epoch of the i-th announcement: the whole seconds
   * since the announcement reset the start time, with every wait exactly as long
   * as asked.
   */
  function AnnounceEpoch(i: nat): (e: u32)
    requires i < ANNOUNCEMENTS
    ensures e == Sum(Delays()[..i]) / 1000
  {
    WaitedBefore(i);
    assert Pow2(i) <= 512 by {
      assert Pow2(9) == 512;
      Pow2Monotone(i, 9);
    }
    FIRST_DELAY * (Pow2(i) - 1) / 1000
  }

  lemma {:induction false} Pow2Monotone(a: nat, b: nat)
    requires a <= b
    ensures Pow2(a) <= Pow2(b)
  {
    if a < b {
      Pow2Monotone(a, b - 1);
    }
  }

  /** The ten announcements of an address, as the corrected schedule sends them. */
  function Announcements(ip: Ip): (r: seq<Datagram>)
    ensures |r| == ANNOUNCEMENTS
  {
    seq(ANNOUNCEMENTS, i requires 0 <= i < ANNOUNCEMENTS =>
      Datagram(AllocPublicAddressResponse(AnnounceEpoch(i), ip), PORT - 1, ALL_HOSTS))
  }

  /** Every announcement is a 12-octet PUBLIC_ADDRESS response carrying the address, to all hosts on the port below. */
  lemma AnnouncementsCarryAddress(ip: Ip, i: nat)
    requires i < ANNOUNCEMENTS
    ensures var d := Announcements(ip)[i];
      |d.payload| == 12 && d.payload[1] == 128 && ReadU16(d.payload, 2) == SUCCESS
      && d.payload[8..12] == ip && d.port == PORT - 1 && d.address == ALL_HOSTS
      && ReadU32(d.payload, 4) == AnnounceEpoch(i)
  {
    PublicAddressResponseFields(AnnounceEpoch(i), ip);
  }

  /**
   * What announceAddressChanges builds as written: the response carrying
   * startTime, Date.now() in milliseconds, as its epoch; writeUInt32BE throws
   * for any value of 2^32 or more.
   */
  function AnnouncementAsWritten(startTime: int, ip: Ip): (r: Option<seq<byte>>)
    ensures r.Some? <==> IsU32(startTime)
  {
    if IsU32(startTime) then Some(AllocPublicAddressResponse(startTime, ip)) else None
  }

  /** At 2023-11-14T22:13:20Z, as at every instant after 1970-02-19, the first announcement already throws. */
  lemma AnnouncementAsWrittenThrows(ip: Ip)
    ensures AnnouncementAsWritten(1_700_000_000_000, ip).None?
  {
  }

  function Copies(d: Datagram, n: nat): (r: seq<Datagram>)
    ensures |r| == n
  {
    seq(n, _ => d)
  }

  /** The corrected schedule, one announcement further. */
  lemma AnnouncementStep(ip: Ip, i: nat)
    requires i < ANNOUNCEMENTS
    ensures Announcements(ip)[..i + 1] == Announcements(ip)[..i]
      + [Datagram(AllocPublicAddressResponse(AnnounceEpoch(i), ip), PORT - 1, ALL_HOSTS)]
  {
    assert Announcements(ip)[..i + 1] == Announcements(ip)[..i] + [Announcements(ip)[i]];
  }

  /** The waits, one further: the next prefix adds the i-th wait to the list and to the sum. */
  lemma DelayStep(i: nat)
    requires i < ANNOUNCEMENTS
    ensures Delays()[..i + 1] == Delays()[..i] + [Delay(i)]
    ensures Sum(Delays()[..i + 1]) == Sum(Delays()[..i]) + Delay(i)
    ensures Delay(i + 1) == 2 * Delay(i)
  {
    assert Delays()[..i + 1][..i] == Delays()[..i];
  }

  class Server {
    /** Date.now() of the last announcement; 0 until the first. */
    var startTime: int
    /** How many times the socket was bound. */
    var binds: nat
    /** The datagrams the socket sent that this model follows (the announcements). */
    var sent: seq<Datagram>
    /** The waits taken between announcements, in milliseconds. */
    var sleeps: seq<nat>

    constructor ()
      ensures startTime == 0 && binds == 0 && sent == [] && sleeps == []
    {
      startTime := 0;
      binds := 0;
      sent := [];
      sleeps := [];
    }

    /** listen: a server that has announced (startTime set) resolves at once without binding again. */
    method Listen()
      modifies this
      ensures binds == old(binds) + (if old(startTime) != 0 then 0 else 1)
      ensures startTime == old(startTime) && sent == old(sent) && sleeps == old(sleeps)
    {
      if startTime != 0 {
        return;
      }
      binds := binds + 1;
    }

    /**
     * announceAddressChanges as written: startTime is reset to `now`, and the
     * first response already throws unless `now` fits in 32 bits; an empty
     * public-address cell throws as well.
     */
    method AnnounceAsWritten(now: int, cell: PublicIp)
      modifies this
      ensures startTime == now && binds == old(binds)
      ensures cell.ip.Some? && IsU32(now) ==>
        sent == old(sent) + Copies(Datagram(AnnouncementAsWritten(now, cell.ip.value).value, PORT - 1, ALL_HOSTS), ANNOUNCEMENTS)
        && sleeps == old(sleeps) + Delays()
      ensures cell.ip.None? || !IsU32(now) ==> sent == old(sent) && sleeps == old(sleeps)
    {
      startTime := now;
      var delay := FIRST_DELAY;
      var index := 0;
      while index < ANNOUNCEMENTS
        invariant 0 <= index <= ANNOUNCEMENTS
        invariant delay == Delay(index)
        invariant cell.ip.Some? && IsU32(now) ==>
          sent == old(sent) + Copies(Datagram(AnnouncementAsWritten(now, cell.ip.value).value, PORT - 1, ALL_HOSTS), index)
          && sleeps == old(sleeps) + Delays()[..index]
        invariant startTime == now && binds == old(binds)
        invariant cell.ip.None? || !IsU32(now) ==> sent == old(sent) && sleeps == old(sleeps)
      {
        var ip := cell.Get();
        if ip.Err? {
          return;
        }
        var buf := AnnouncementAsWritten(startTime, ip.value);
        if buf.None? {
          return;
        }
        sent := sent + [Datagram(buf.value, PORT - 1, ALL_HOSTS)];
        assert Copies(Datagram(buf.value, PORT - 1, ALL_HOSTS), index + 1)
          == Copies(Datagram(buf.value, PORT - 1, ALL_HOSTS), index) + [Datagram(buf.value, PORT - 1, ALL_HOSTS)];
        sleeps := sleeps + [delay];
        assert Delays()[..index + 1] == Delays()[..index] + [delay];
        delay := delay * 2;
        index := index + 1;
      }
      assert Delays()[..ANNOUNCEMENTS] == Delays();
    }

    /**
     * announceAddressChanges with the evidently intended epoch: startTime is
     * reset to `now`, then ten announcements go out, each carrying the seconds
     * waited since, with a doubling wait after each.
     */
    method Announce(now: int, cell: PublicIp)
      modifies this
      ensures startTime == now && binds == old(binds)
      ensures cell.ip.Some? ==> sent == old(sent) + Announcements(cell.ip.value) && sleeps == old(sleeps) + Delays()
      ensures cell.ip.None? ==> sent == old(sent) && sleeps == old(sleeps)
    {
      startTime := now;
      var delay := FIRST_DELAY;
      var waited := 0;
      var index := 0;
      while index < ANNOUNCEMENTS
        invariant 0 <= index <= ANNOUNCEMENTS
        invariant delay == Delay(index) && waited == Sum(Delays()[..index])
        invariant cell.ip.Some? ==>
          sent == old(sent) + Announcements(cell.ip.value)[..index] && sleeps == old(sleeps) + Delays()[..index]
        invariant cell.ip.None? ==> sent == old(sent) && sleeps == old(sleeps)
        invariant startTime == now && binds == old(binds)
      {
        var ip := cell.Get();
        if ip.Err? {
          return;
        }
        var epoch := waited / 1000;
        assert epoch == AnnounceEpoch(index);
        AnnouncementStep(ip.value, index);
        sent := sent + [Datagram(AllocPublicAddressResponse(epoch, ip.value), PORT - 1, ALL_HOSTS)];
        DelayStep(index);
        sleeps := sleeps + [delay];
        waited := waited + delay;
        delay := delay * 2;
        index := index + 1;
      }
      assert Delays()[..ANNOUNCEMENTS] == Delays();
      assert cell.ip.Some? ==> Announcements(cell.ip.value)[..ANNOUNCEMENTS] == Announcements(cell.ip.value);
    }
  }
}
