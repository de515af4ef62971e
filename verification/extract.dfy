/** Desired state: the tuples the sync derives from NetBox IP objects, A or
    AAAA records for forward zones and PTR records for reverse zones. */
module Extract {
  import opened Records
  import opened AddrText

  /** The tuple of one NetBox IP found for forward zone `zone`. */
  function ForwardTuple(zone: string, ip: NbIp): Rec
  {
    Rec(ip.dnsName + ".", if ip.family == 6 then "AAAA" else "A", StripPrefix(ip.text), zone + ".")
  }

  /** The host tuple is an AAAA record for an IPv6 address and an A record
      otherwise; name and zone get their trailing dot; the value is the
      address text without any `/prefixlen`. */
  lemma ForwardTupleShape(zone: string, ip: NbIp)
    ensures var t := ForwardTuple(zone, ip);
      && t.name == ip.dnsName + "." && t.zone == zone + "."
      && (t.rtype == "AAAA" <==> ip.family == 6)
      && (t.rtype == "A" <==> ip.family != 6)
      && '/' !in t.value && |t.value| <= |ip.text|
      && ('/' !in ip.text ==> t.value == ip.text)
  {
  }

  /** NetBox's `address/prefixlen` text gives a tuple whose value is exactly
      the address. */
  lemma ForwardTupleOfCidr(zone: string, ip: NbIp, a: string, len: string)
    requires ip.text == a + "/" + len && '/' !in a && AllDigits(len)
    ensures ForwardTuple(zone, ip).value == a
  {
    StripPrefixOfCidr(a, len);
  }

  /** The tuples of a forward zone's IPs, one per IP, in order. */
  function ForwardHosts(zone: string, ips: seq<NbIp>): seq<Rec>
  {
    if ips == [] then []
    else ForwardHosts(zone, ips[..|ips| - 1]) + [ForwardTuple(zone, ips[|ips| - 1])]
  }

  lemma {:induction false} ForwardHostsMembers(zone: string, ips: seq<NbIp>, t: Rec)
    ensures t in ForwardHosts(zone, ips) <==> exists k :: 0 <= k < |ips| && t == ForwardTuple(zone, ips[k])
  {
    if ips != [] {
      var n := |ips|;
      var init := ips[..n - 1];
      ForwardHostsMembers(zone, init, t);
      if t in ForwardHosts(zone, init) {
        var k :| 0 <= k < n - 1 && t == ForwardTuple(zone, init[k]);
        assert ips[k] == init[k];
      }
      if exists k :: 0 <= k < n && t == ForwardTuple(zone, ips[k]) {
        var k :| 0 <= k < n && t == ForwardTuple(zone, ips[k]);
        if k < n - 1 {
          assert init[k] == ips[k];
        }
      }
    }
  }

  /** The loop over the NetBox IPs of a forward zone. */
  method ExtractForward(zone: string, ips: seq<NbIp>) returns (hosts: seq<Rec>)
    ensures hosts == ForwardHosts(zone, ips)
  {
    hosts := [];
    var i := 0;
    while i < |ips|
      invariant 0 <= i <= |ips|
      invariant hosts == ForwardHosts(zone, ips[..i])
    {
      assert ips[..i + 1][..i] == ips[..i];
      hosts := hosts + [ForwardTuple(zone, ips[i])];
      i := i + 1;
    }
    assert ips[..i] == ips;
  }

  /** The PTR tuple of one NetBox IP of reverse zone `zone`. */
  function PtrTuple(zone: string, ip: NbIp): Rec
  {
    Rec(ReversePointer(ip.addr) + ".", "PTR", ip.dnsName + ".", zone)
  }

  /** The PTR tuples of a reverse zone's IPs: one for each IP with a DNS
      name, in order. */
  function ReverseHosts(zone: string, ips: seq<NbIp>): seq<Rec>
  {
    if ips == [] then []
    else
      var last := ips[|ips| - 1];
      ReverseHosts(zone, ips[..|ips| - 1]) + (if last.dnsName != "" then [PtrTuple(zone, last)] else [])
  }

  /** The loop over the NetBox IPs of a reverse zone. */
  method ExtractReverse(zone: string, ips: seq<NbIp>) returns (hosts: seq<Rec>)
    ensures hosts == ReverseHosts(zone, ips)
  {
    hosts := [];
    var i := 0;
    while i < |ips|
      invariant 0 <= i <= |ips|
      invariant hosts == ReverseHosts(zone, ips[..i])
    {
      assert ips[..i + 1][..i] == ips[..i];
      if ips[i].dnsName != "" {
        hosts := hosts + [PtrTuple(zone, ips[i])];
      }
      i := i + 1;
    }
    assert ips[..i] == ips;
  }

  /** A PTR tuple is produced exactly for the IPs that have a DNS name. */
  lemma {:induction false} ReverseHostsMembers(zone: string, ips: seq<NbIp>, t: Rec)
    ensures t in ReverseHosts(zone, ips) <==>
      exists k :: 0 <= k < |ips| && ips[k].dnsName != "" && t == PtrTuple(zone, ips[k])
  {
    if ips != [] {
      var n := |ips|;
      var init := ips[..n - 1];
      ReverseHostsMembers(zone, init, t);
      if t in ReverseHosts(zone, ips) {
        if t in ReverseHosts(zone, init) {
          var k :| 0 <= k < n - 1 && init[k].dnsName != "" && t == PtrTuple(zone, init[k]);
          assert ips[k] == init[k];
        } else {
          assert ips[n - 1].dnsName != "" && t == PtrTuple(zone, ips[n - 1]);
        }
      }
      if exists k :: 0 <= k < n && ips[k].dnsName != "" && t == PtrTuple(zone, ips[k]) {
        var k :| 0 <= k < n && ips[k].dnsName != "" && t == PtrTuple(zone, ips[k]);
        if k < n - 1 {
          assert init[k] == ips[k];
        }
      }
    }
  }

  /** Every PTR tuple points into the reverse zone as configured, at a
      non-empty, dot-terminated DNS name. */
  lemma ReverseHostsShape(zone: string, ips: seq<NbIp>, t: Rec)
    requires t in ReverseHosts(zone, ips)
    ensures t.rtype == "PTR" && t.zone == zone
    ensures |t.value| >= 2 && t.value[|t.value| - 1] == '.'
  {
    ReverseHostsMembers(zone, ips, t);
  }

  /** Two IPs whose PTR tuples have the same name have the same address. */
  lemma PtrNamesIdentifyAddresses(zone: string, p: NbIp, q: NbIp)
    requires PtrTuple(zone, p).name == PtrTuple(zone, q).name
    ensures p.addr == q.addr
  {
    var u, v := ReversePointer(p.addr), ReversePointer(q.addr);
    assert u == (u + ".")[..|u|];
    assert v == (v + ".")[..|v|];
    ReversePointerInjective(p.addr, q.addr);
  }
}
