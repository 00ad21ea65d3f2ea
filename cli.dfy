/**
 * src/index.ts: the validators of the --host, --port and --bind options. Each
 * either returns the parsed value or throws an InvalidArgumentError; the bind
 * range they accept is exactly what the port allocator of src/natmap.ts needs.
 */
module Cli {
  import opened Wrappers
  import opened Bytes
  import opened JsText
  import opened PublicAddress

  // ----- --host -----

  /**
   * s matches k dot-separated groups of one to three decimal digits, to its end:
   * the regular expression of --host for k = 4. A group takes the whole run of
   * leading digits, since giving a digit back leaves a digit where a dot or the
   * end must follow.
   */
  predicate MatchesGroups(s: string, k: nat)
    decreases k
  {
    var n := |LeadingDigits(s, 10)|;
    k >= 1 && 1 <= n <= 3
    && if k == 1 then n == |s| else n < |s| && s[n] == '.' && MatchesGroups(s[n + 1..], k - 1)
  }

  /** A group of the host pattern: one to three decimal digits. */
  predicate IsGroup(p: string)
  {
    1 <= |p| <= 3 && AllDigits(p, 10)
  }

  /** The --host check: the text itself, or "Invalid address". */
  function ValidateHost(v: string): (r: Result<string>)
    ensures r.Ok? <==> MatchesGroups(v, 4)
    ensures r.Ok? ==> r.value == v
  {
    if MatchesGroups(v, 4) then Ok(v) else Err("Invalid address")
  }

  /** Splitting a dot followed by `s` gives an empty part first. */
  lemma SplitAfterDot(s: string)
    ensures Split(['.'] + s, '.') == [""] + Split(s, '.')
  {
    assert (['.'] + s)[1..] == s;
  }

  lemma DigitsHaveNoDot(p: string)
    requires AllDigits(p, 10)
    ensures '.' !in p
  {
  }

  /** Text made of digits only is its own single part. */
  lemma SplitAllDigits(s: string)
    requires |LeadingDigits(s, 10)| == |s|
    ensures Split(s, '.') == [s] && AllDigits(s, 10)
  {
    DigitsHaveNoDot(s);
    SplitPrefix(s, "", '.');
    assert s + "" == s;
  }

  /** Digits then a dot: the digits are the first part, and the rest splits on. */
  lemma SplitAtDot(s: string)
    requires |LeadingDigits(s, 10)| < |s| && s[|LeadingDigits(s, 10)|] == '.'
    ensures var n := |LeadingDigits(s, 10)|;
      Split(s, '.') == [s[..n]] + Split(s[n + 1..], '.')
  {
    var d := LeadingDigits(s, 10);
    var n := |d|;
    var rest := s[n + 1..];
    DigitsHaveNoDot(d);
    assert s == d + (['.'] + rest);
    SplitPrefix(d, ['.'] + rest, '.');
    SplitAfterDot(rest);
    assert d + "" == d;
  }

  /** Digits then anything but a dot: the first part holds a non-digit, so it is no group. */
  lemma SplitAtOther(s: string)
    requires |LeadingDigits(s, 10)| < |s| && s[|LeadingDigits(s, 10)|] != '.'
    ensures !IsGroup(Split(s, '.')[0])
  {
    var d := LeadingDigits(s, 10);
    var n := |d|;
    DigitsHaveNoDot(d);
    SplitPrefix(d, s[n..], '.');
    assert s == d + s[n..];
    assert s[n..][0] == s[n];
    var tail := Split(s[n..], '.');
    assert tail[0][0] == s[n];
    assert Split(s, '.')[0][n] == s[n];
  }

  /** The text splits on dots into exactly k parts, each a digit group. */
  predicate SplitsIntoGroups(s: string, k: nat)
  {
    var parts := Split(s, '.');
    |parts| == k && forall i :: 0 <= i < k ==> IsGroup(parts[i])
  }

  lemma MatchesAllDigits(s: string, k: nat)
    requires k >= 1 && |LeadingDigits(s, 10)| == |s|
    ensures MatchesGroups(s, k) <==> SplitsIntoGroups(s, k)
  {
    SplitAllDigits(s);
    var parts := Split(s, '.');
    assert parts[0] == s;
    if k == 1 {
      assert MatchesGroups(s, k) <==> IsGroup(s);
    } else {
      assert !MatchesGroups(s, k);
    }
  }

  lemma MatchesAtDot(s: string, k: nat)
    requires k >= 1
    requires |LeadingDigits(s, 10)| < |s| && s[|LeadingDigits(s, 10)|] == '.'
    requires var n := |LeadingDigits(s, 10)|;
      k > 1 ==> (MatchesGroups(s[n + 1..], k - 1) <==> SplitsIntoGroups(s[n + 1..], k - 1))
    ensures MatchesGroups(s, k) <==> SplitsIntoGroups(s, k)
  {
    var n := |LeadingDigits(s, 10)|;
    SplitAtDot(s);
    if k == 1 {
      assert !MatchesGroups(s, k);
      assert |Split(s, '.')| >= 2;
    } else {
      assert s == s[..n] + ['.'] + s[n + 1..];
      assert s[..n] == LeadingDigits(s, 10);
      SplitsIntoGroupsAtDot(s[..n], s[n + 1..], k);
    }
  }

  /** A first group, a dot, then k - 1 groups make k groups, and only that way. */
  lemma SplitsIntoGroupsAtDot(first: string, rest: string, k: nat)
    requires k > 1 && AllDigits(first, 10)
    requires Split(first + ['.'] + rest, '.') == [first] + Split(rest, '.')
    ensures SplitsIntoGroups(first + ['.'] + rest, k) <==> IsGroup(first) && SplitsIntoGroups(rest, k - 1)
  {
    var parts := Split(first + ['.'] + rest, '.');
    var tail := Split(rest, '.');
    assert parts[0] == first;
    assert forall i :: 1 <= i < |parts| ==> parts[i] == tail[i - 1];
    assert forall i :: 0 <= i < |tail| ==> tail[i] == parts[i + 1];
    if IsGroup(first) && SplitsIntoGroups(rest, k - 1) {
      assert SplitsIntoGroups(first + ['.'] + rest, k);
    }
  }

  lemma MatchesAtOther(s: string, k: nat)
    requires k >= 1
    requires |LeadingDigits(s, 10)| < |s| && s[|LeadingDigits(s, 10)|] != '.'
    ensures !MatchesGroups(s, k) && !SplitsIntoGroups(s, k)
  {
    SplitAtOther(s);
  }

  /** The pattern holds exactly when the text splits on dots into k digit groups. */
  lemma {:induction false} MatchesGroupsSplit(s: string, k: nat)
    ensures MatchesGroups(s, k) <==> k >= 1 && SplitsIntoGroups(s, k)
    decreases k
  {
    var n := |LeadingDigits(s, 10)|;
    if k == 0 {
    } else if n == |s| {
      MatchesAllDigits(s, k);
    } else if s[n] == '.' {
      if k > 1 {
        MatchesGroupsSplit(s[n + 1..], k - 1);
      }
      MatchesAtDot(s, k);
    } else {
      MatchesAtOther(s, k);
    }
  }

  /** Every dotted-quad rendering of an address passes --host. */
  lemma HostAcceptsDottedQuad(ip: Ip)
    ensures ValidateHost(DottedQuad(ip)) == Ok(DottedQuad(ip))
  {
    DottedQuadSplit(ip);
    MatchesGroupsSplit(DottedQuad(ip), 4);
    forall i | 0 <= i < 4 ensures IsGroup(OctetStrings(ip)[i]) {
      ShortDecimal(ip[i]);
    }
  }

  /** A number below 1000 is written with at most three digits. */
  lemma ShortDecimal(n: nat)
    requires n < 1000
    ensures |DecimalString(n)| <= 3
  {
    if n >= 10 {
      ShortDecimal(n / 10);
      if n / 10 >= 10 {
        assert |DecimalString(n / 10 / 10)| == 1;
      }
    }
  }

  /** Any four digit groups joined by dots pass --host. */
  lemma HostAcceptsGroups(groups: seq<string>)
    requires |groups| == 4 && forall i :: 0 <= i < 4 ==> IsGroup(groups[i])
    ensures ValidateHost(Join(groups, '.')).Ok?
  {
    forall i | 0 <= i < 4 ensures '.' !in groups[i] {
      DigitsHaveNoDot(groups[i]);
    }
    SplitJoin(groups, '.');
    MatchesGroupsSplit(Join(groups, '.'), 4);
  }

  /** The pattern does not bound the groups by 255: four groups of 999 pass too. */
  lemma HostAcceptsLargeGroups()
    ensures ValidateHost(Join(["999", "999", "999", "999"], '.')).Ok?
  {
    HostAcceptsGroups(["999", "999", "999", "999"]);
  }

  // ----- --port -----

  /** The --port check: parseInt of the text, accepted in 1..65535 (NaN fails both comparisons). */
  function ValidatePort(v: string): (r: Result<int>)
    ensures r.Ok? <==> ParseInt(v).Num? && 0 < ParseInt(v).n < 0x1_0000
    ensures r.Ok? ==> r.value == ParseInt(v).n
  {
    var p := ParseInt(v);
    if p.Num? && 0 < p.n < 0x1_0000 then Ok(p.n) else Err("Invalid port")
  }

  /** Every port number written in decimal passes --port as itself. */
  lemma PortRoundTrip(port: nat)
    requires 0 < port < 0x1_0000
    ensures ValidatePort(DecimalString(port)) == Ok(port)
  {
    ParseIntDecimal(port);
  }

  // ----- --bind -----

  /** An inclusive range of bind ports. */
  datatype BindRange = BindRange(low: int, high: int)

  /** v.split("-").map(parseInt) */
  function BindFields(v: string): (r: seq<JsNum>)
    ensures |r| == |Split(v, '-')|
    ensures forall i :: 0 <= i < |r| ==> r[i] == ParseInt(Split(v, '-')[i])
  {
    var parts := Split(v, '-');
    seq(|parts|, i requires 0 <= i < |parts| => ParseInt(parts[i]))
  }

  predicate InPortRange(x: JsNum)
  {
    x.Num? && 0 < x.n < 0x1_0000
  }

  /** The --bind check, its assertions in source order. */
  function ValidateBind(v: string): (r: Result<BindRange>)
    ensures r.Ok? <==>
      |BindFields(v)| == 2 && InPortRange(BindFields(v)[0]) && InPortRange(BindFields(v)[1])
      && BindFields(v)[0].n < BindFields(v)[1].n
    ensures r.Ok? ==> r.value == BindRange(BindFields(v)[0].n, BindFields(v)[1].n)
    ensures r.Ok? ==> 0 < r.value.low < r.value.high < 0x1_0000
    ensures |BindFields(v)| != 2 ==> r == Err("Invalid port range")
    ensures |BindFields(v)| == 2 && !InPortRange(BindFields(v)[0]) ==> r == Err("Invalid port range start")
    ensures |BindFields(v)| == 2 && InPortRange(BindFields(v)[0]) && !InPortRange(BindFields(v)[1]) ==>
      r == Err("Invalid port range end")
    ensures |BindFields(v)| == 2 && InPortRange(BindFields(v)[0]) && InPortRange(BindFields(v)[1])
              && BindFields(v)[0].n >= BindFields(v)[1].n
            ==> r == Err("Invalid port range")
  {
    var r := BindFields(v);
    if |r| != 2 then Err("Invalid port range")
    else if !InPortRange(r[0]) then Err("Invalid port range start")
    else if !InPortRange(r[1]) then Err("Invalid port range end")
    else if !(r[0].n < r[1].n) then Err("Invalid port range")
    else Ok(BindRange(r[0].n, r[1].n))
  }

  lemma DigitsHaveNoDash(p: string)
    requires AllDigits(p, 10)
    ensures '-' !in p
  {
  }

  /** "low-high" written in decimal is accepted as that range exactly when 0 < low < high < 65536. */
  lemma BindRoundTrip(low: nat, high: nat)
    ensures var r := ValidateBind(DecimalString(low) + "-" + DecimalString(high));
      (r.Ok? <==> 0 < low < high < 0x1_0000) && (r.Ok? ==> r.value == BindRange(low, high))
  {
    var parts := [DecimalString(low), DecimalString(high)];
    DigitsHaveNoDash(parts[0]);
    DigitsHaveNoDash(parts[1]);
    SplitJoin(parts, '-');
    assert Join(parts, '-') == DecimalString(low) + "-" + DecimalString(high);
    ParseIntDecimal(low);
    ParseIntDecimal(high);
  }
}
