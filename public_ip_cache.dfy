/**
 * src/public-ip.ts: the cache of the public address the legacy server answers
 * PUBLIC_ADDRESS requests from. The cache is one module-level array, empty
 * until the first successful lookup and then always four entries; a lookup
 * asks a STUN server only while the cache is empty.
 */
module PublicIpCache {
  import opened Wrappers
  import opened JsText
  import opened PublicAddress

  /**
   * What the stun library's request yields: a rejected request, a response
   * without an XOR-MAPPED-ADDRESS (reading `.split` of undefined throws), or
   * the address text it decoded.
   */
  datatype StunAnswer = Rejected | NoXorAddress | Address(text: string)

  /** The fields a lookup stores: the address text split on "." and each part parseInt'ed. */
  function Lookup(answer: StunAnswer): (r: Result<seq<JsNum>>)
    ensures r.Ok? <==> answer.Address? && |Split(answer.text, '.')| == 4
    ensures r.Ok? ==> r.value == ParseIntFields(answer.text)
  {
    match answer
    case Rejected => Err("STUN request failed")
    case NoXorAddress => Err("Cannot read properties of undefined")
    case Address(text) =>
      var fields := ParseIntFields(text);
      if |fields| != 4 then Err("Bad response") else Ok(fields)
  }

  /** A dotted-quad answer is cached as the address's four octets. */
  lemma LookupDotted(ip: Ip)
    ensures Lookup(Address(DottedQuad(ip))) == Ok(IpFields(ip))
    ensures AssertIp(Lookup(Address(DottedQuad(ip))).value) == Some(ip)
  {
    ParseIntFieldsDotted(ip);
    assert AssertIp(IpFields(ip)).value == ip;
  }

  class Cache {
    /** PUBLIC_IP: the cached fields, emptied and refilled by updatePublicIp. */
    var fields: seq<JsNum>
    /** The STUN requests issued so far. */
    var requests: nat

    ghost predicate Valid()
      reads this
    {
      |fields| == 0 || |fields| == 4
    }

    constructor ()
      ensures Valid() && fields == [] && requests == 0
    {
      fields := [];
      requests := 0;
    }

    /** updatePublicIp: anything but four fields throws before the cache is touched; four replace it. */
    method UpdatePublicIp(newFields: seq<JsNum>) returns (ok: bool)
      requires Valid()
      modifies this
      ensures Valid() && requests == old(requests)
      ensures ok <==> |newFields| == 4
      ensures ok ==> fields == newFields
      ensures !ok ==> fields == old(fields)
    {
      if |newFields| != 4 {
        return false;
      }
      fields := [];
      fields := fields + newFields;
      return true;
    }

    /**
     * getPublicIp: a filled cache answers without a request; an empty one asks
     * the STUN server once and stores what the answer parses to, or throws.
     */
    method GetPublicIp(answer: StunAnswer) returns (r: Result<seq<JsNum>>)
      requires Valid()
      modifies this
      ensures Valid()
      ensures old(fields) != [] ==> r == Ok(old(fields)) && fields == old(fields) && requests == old(requests)
      ensures old(fields) == [] ==>
        requests == old(requests) + 1 && r == Lookup(answer)
        && fields == (if r.Ok? then r.value else old(fields))
      ensures r.Ok? ==> |r.value| == 4
    {
      if fields == [] {
        requests := requests + 1;
        if answer.Rejected? {
          return Err("STUN request failed");
        }
        if answer.NoXorAddress? {
          return Err("Cannot read properties of undefined");
        }
        var parsed := ParseIntFields(answer.text);
        var ok := UpdatePublicIp(parsed);
        if !ok {
          return Err("Bad response");
        }
      }
      return Ok(fields);
    }
  }

  /** Once a lookup succeeded, later lookups issue no request and return the same fields. */
  method GetTwiceAsksOnce(cache: Cache, first: StunAnswer, second: StunAnswer)
    returns (a: Result<seq<JsNum>>, b: Result<seq<JsNum>>)
    requires cache.Valid()
    modifies cache
    ensures a.Ok? ==> b == a && cache.requests <= old(cache.requests) + 1
  {
    a := cache.GetPublicIp(first);
    b := cache.GetPublicIp(second);
  }
}
