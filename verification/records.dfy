/** The values the sync works on: the canonical record tuple, the NetBox IP
    objects it reads, the PowerDNS record sets it reads, and the zones it is
    configured with. */
module Records {

  /** The ownership marker: the comment text that tags a PowerDNS record set
      as one the sync manages. */
  const Marker: string := "NetBox"

  /** The canonical record tuple (name, type, value, zone) the sync compares
      on all four fields; `record[0]` .. `record[3]` in the script. */
  datatype Rec = Rec(name: string, rtype: string, value: string, zone: string)

  newtype Octet = x: int | 0 <= x < 256
  newtype Nibble = x: int | 0 <= x < 16

  /** The 32 hexadecimal digits of an exploded IPv6 address, most significant first. */
  type Nibbles = s: seq<Nibble> | |s| == 32 witness seq(32, _ => 0)

  /** A parsed address: IPv4 `a.b.c.d`, or IPv6 by its nibbles. */
  datatype IpAddr = V4(a: Octet, b: Octet, c: Octet, d: Octet) | V6(nibbles: Nibbles)

  /** A NetBox IP address object: its DNS name (possibly empty), its address
      family (4 or 6), its text form with prefix length (`10.0.0.1/24`), and
      the address that text denotes once the prefix length is removed. */
  datatype NbIp = NbIp(dnsName: string, family: int, text: string, addr: IpAddr)

  /** A PowerDNS record set as the zone read returns it: name, type, the
      content of each value entry and the content of each comment. */
  datatype ZoneRecord = ZoneRecord(name: string, rtype: string, contents: seq<string>, comments: seq<string>)

  /** One configured forward zone (its name without the trailing dot), the
      NetBox IPs whose DNS name ends in it, and the zone's PowerDNS records. */
  datatype ForwardZone = ForwardZone(name: string, ips: seq<NbIp>, records: seq<ZoneRecord>)

  /** One configured reverse zone (its zone name, used as given), the NetBox
      IPs inside its prefix, and the zone's PowerDNS records. */
  datatype ReverseZone = ReverseZone(zone: string, ips: seq<NbIp>, records: seq<ZoneRecord>)

  /** `set(l)` in the script: the tuples a list holds, duplicates collapsed. */
  function Elems(l: seq<Rec>): set<Rec>
  {
    set t | t in l
  }

  /** Record set `r` of zone `zone` has a value entry that gives tuple `t`. */
  predicate Carries(r: ZoneRecord, zone: string, t: Rec)
  {
    t.name == r.name && t.rtype == r.rtype && t.value in r.contents && t.zone == zone
  }
}
