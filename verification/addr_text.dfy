/** Text operations on addresses: removing the prefix length from NetBox's
    address text, and the reverse-lookup name of an address. */
module AddrText {
  import opened Records

  predicate IsDigit(c: char)
  {
    '0' <= c <= '9'
  }

  predicate AllDigits(s: string)
  {
    forall i :: 0 <= i < |s| ==> IsDigit(s[i])
  }

  /** The end of the run of ASCII digits that starts at index `i` of `s`. */
  function DigitsEnd(s: string, i: nat): (j: nat)
    requires i <= |s|
    ensures i <= j <= |s|
    ensures forall k :: i <= k < j ==> IsDigit(s[k])
    ensures j < |s| ==> !IsDigit(s[j])
    decreases |s| - i
  {
    if i < |s| && IsDigit(s[i]) then DigitsEnd(s, i + 1) else i
  }

  /** Skips the run of ASCII digits at the head of `s`. */
  function DropDigits(s: string): (r: string)
    ensures |r| <= |s| && r == s[|s| - |r|..]
    ensures AllDigits(s[..|s| - |r|])
    ensures r != [] ==> !IsDigit(r[0])
    ensures AllDigits(s) ==> r == []
  {
    s[DigitsEnd(s, 0)..]
  }

  /** The substitution of the pattern `/[0-9]*` by the empty string: every
      `/` goes, together with the run of digits that follows it. */
  function StripPrefix(s: string): (r: string)
    ensures '/' !in r
    ensures |r| <= |s|
    ensures '/' !in s ==> r == s
    decreases |s|
  {
    if s == [] then []
    else if s[0] == '/' then StripPrefix(DropDigits(s[1..]))
    else [s[0]] + StripPrefix(s[1..])
  }

  /** NetBox's `address/prefixlen` text loses exactly its `/prefixlen`. */
  lemma {:induction false} StripPrefixOfCidr(a: string, len: string)
    requires '/' !in a && AllDigits(len)
    ensures StripPrefix(a + "/" + len) == a
  {
    if a == [] {
      assert a + "/" + len == ['/'] + len;
    } else {
      assert (a + "/" + len)[0] == a[0];
      assert (a + "/" + len)[1..] == a[1..] + "/" + len;
      StripPrefixOfCidr(a[1..], len);
    }
  }

  /** Removing the prefix length twice is removing it once. */
  lemma StripPrefixIdempotent(s: string)
    ensures StripPrefix(StripPrefix(s)) == StripPrefix(s)
  {
  }

  function DigitChar(n: nat): (c: char)
    requires n < 10
    ensures IsDigit(c)
  {
    ('0' as int + n) as char
  }

  function DigitValue(c: char): (n: nat)
    requires IsDigit(c)
    ensures n < 10 && DigitChar(n) == c
  {
    c as int - '0' as int
  }

  /** `str(n)` for a natural number: its decimal numeral, no leading zeros. */
  function Decimal(n: nat): (r: string)
    ensures r != [] && AllDigits(r) && '.' !in r
    decreases n
  {
    if n < 10 then [DigitChar(n)] else Decimal(n / 10) + [DigitChar(n % 10)]
  }

  /** The number a decimal numeral denotes. */
  function DecimalValue(s: string): nat
    requires AllDigits(s)
  {
    if s == [] then 0 else DecimalValue(s[..|s| - 1]) * 10 + DigitValue(s[|s| - 1])
  }

  /** Reading back a numeral gives the number: `Decimal` is injective. */
  lemma {:induction false} DecimalRoundTrip(n: nat)
    ensures DecimalValue(Decimal(n)) == n
    decreases n
  {
    if n >= 10 {
      var s := Decimal(n);
      assert s[..|s| - 1] == Decimal(n / 10);
      DecimalRoundTrip(n / 10);
    }
  }

  /** An octet's numeral has at most three digits. */
  lemma DecimalOfOctet(n: nat)
    requires n < 256
    ensures |Decimal(n)| <= 3
  {
    if n >= 10 {
      assert n / 10 < 26;
      if n / 10 >= 10 {
        assert n / 100 < 10;
        assert Decimal(n / 10) == Decimal(n / 100) + [DigitChar(n / 10 % 10)];
      }
    }
  }

  /** The lower-case hexadecimal digit of a nibble. */
  function HexChar(n: Nibble): char
  {
    if n < 10 then ('0' as int + n as int) as char else ('a' as int + n as int - 10) as char
  }

  /** The nibbles, least significant first, each followed by a dot. */
  function NibbleLabels(ns: seq<Nibble>): (r: string)
    ensures |r| == 2 * |ns|
  {
    if ns == [] then "" else [HexChar(ns[|ns| - 1])] + "." + NibbleLabels(ns[..|ns| - 1])
  }

  /** A label, a dot, and the rest of a domain name. */
  function Dotted(head: string, rest: string): string
  {
    head + "." + rest
  }

  lemma DottedTail(head: string, rest: string)
    ensures var r := Dotted(head, rest); |r| == |head| + 1 + |rest| && r[|head|..] == "." + rest
  {
  }

  /** Putting a label in front keeps the end of a name. */
  lemma DottedKeepsSuffix(head: string, rest: string, tail: string)
    requires |tail| <= |rest| && rest[|rest| - |tail|..] == tail
    ensures var r := Dotted(head, rest); |r| == |head| + 1 + |rest| && r[|r| - |tail|..] == tail
  {
    var r := Dotted(head, rest);
    assert r[|r| - |tail|..] == rest[|rest| - |tail|..];
  }

  /** The IPv4 reverse name: the octets in reverse order under
      `in-addr.arpa` (section 3.5 of RFC 1035). */
  function InAddrArpa(a: Octet, b: Octet, c: Octet, d: Octet): (r: string)
    ensures 13 <= |r| <= 28 && r[|r| - 13..] == ".in-addr.arpa"
  {
    DecimalOfOctet(a as int);
    DecimalOfOctet(b as int);
    DecimalOfOctet(c as int);
    DecimalOfOctet(d as int);
    InAddrArpaShape(Decimal(d as int), Decimal(c as int), Decimal(b as int), Decimal(a as int));
    Dotted(Decimal(d as int), Dotted(Decimal(c as int), Dotted(Decimal(b as int),
      Dotted(Decimal(a as int), "in-addr.arpa"))))
  }

  /** Four labels of one to three characters under `in-addr.arpa`. */
  lemma InAddrArpaShape(w: string, x: string, y: string, z: string)
    requires 1 <= |w| <= 3 && 1 <= |x| <= 3 && 1 <= |y| <= 3 && 1 <= |z| <= 3
    ensures var r := Dotted(w, Dotted(x, Dotted(y, Dotted(z, "in-addr.arpa"))));
      13 <= |r| <= 28 && r[|r| - 13..] == ".in-addr.arpa"
  {
    var tz := Dotted(z, "in-addr.arpa");
    var ty := Dotted(y, tz);
    var tx := Dotted(x, ty);
    DottedTail(z, "in-addr.arpa");
    DottedKeepsSuffix(y, tz, ".in-addr.arpa");
    DottedKeepsSuffix(x, ty, ".in-addr.arpa");
    DottedKeepsSuffix(w, tx, ".in-addr.arpa");
  }

  /** The IPv6 reverse name: the nibbles in reverse order under `ip6.arpa`
      (section 2.5 of RFC 3596). */
  function Ip6Arpa(ns: Nibbles): (r: string)
    ensures |r| == 72 && r[64..] == "ip6.arpa"
  {
    NibbleLabels(ns) + "ip6.arpa"
  }

  /** `ipaddress.ip_address(...).reverse_pointer`. */
  function ReversePointer(addr: IpAddr): (r: string)
    ensures addr.V4? ==> 13 <= |r| <= 28 && r[|r| - 13..] == ".in-addr.arpa"
    ensures addr.V6? ==> |r| == 72 && r[64..] == "ip6.arpa"
  {
    match addr
    case V4(a, b, c, d) => InAddrArpa(a, b, c, d)
    case V6(ns) => Ip6Arpa(ns)
  }

  /** Two dot-terminated labels followed by the same kind of text split the
      same way: the first dot decides where a label ends. */
  lemma SplitAtDot(x: string, r: string, y: string, s: string)
    requires '.' !in x && '.' !in y
    requires Dotted(x, r) == Dotted(y, s)
    ensures x == y && r == s
  {
    var u := x + "." + r;
    assert u[|x|] == '.' && u[|y|] == '.';
    assert forall i :: 0 <= i < |x| ==> u[i] == x[i];
    assert forall i :: 0 <= i < |y| ==> u[i] == y[i];
    assert |x| == |y|;
    assert x == u[..|x|] && y == u[..|y|];
    assert r == u[|x| + 1..] && s == u[|y| + 1..];
  }

  lemma HexCharInjective(m: Nibble, n: Nibble)
    requires HexChar(m) == HexChar(n)
    ensures m == n
  {
  }

  lemma {:induction false} NibbleLabelsInjective(ms: seq<Nibble>, ns: seq<Nibble>)
    requires |ms| == |ns| && NibbleLabels(ms) == NibbleLabels(ns)
    ensures ms == ns
  {
    if ms != [] {
      var n := |ms|;
      var u := NibbleLabels(ms);
      assert u[0] == HexChar(ms[n - 1]) && u[0] == HexChar(ns[n - 1]);
      HexCharInjective(ms[n - 1], ns[n - 1]);
      assert u[2..] == NibbleLabels(ms[..n - 1]) && u[2..] == NibbleLabels(ns[..n - 1]);
      NibbleLabelsInjective(ms[..n - 1], ns[..n - 1]);
      assert ms == ms[..n - 1] + [ms[n - 1]] && ns == ns[..n - 1] + [ns[n - 1]];
    }
  }

  lemma ReversePointerV4Injective(x: IpAddr, y: IpAddr)
    requires x.V4? && y.V4? && ReversePointer(x) == ReversePointer(y)
    ensures x == y
  {
    var arpa := "in-addr.arpa";
    var x0, x1, x2, x3 := Decimal(x.d as int), Decimal(x.c as int), Decimal(x.b as int), Decimal(x.a as int);
    var y0, y1, y2, y3 := Decimal(y.d as int), Decimal(y.c as int), Decimal(y.b as int), Decimal(y.a as int);
    SplitAtDot(x0, Dotted(x1, Dotted(x2, Dotted(x3, arpa))), y0, Dotted(y1, Dotted(y2, Dotted(y3, arpa))));
    SplitAtDot(x1, Dotted(x2, Dotted(x3, arpa)), y1, Dotted(y2, Dotted(y3, arpa)));
    SplitAtDot(x2, Dotted(x3, arpa), y2, Dotted(y3, arpa));
    SplitAtDot(x3, arpa, y3, arpa);
    DecimalRoundTrip(x.a as int);
    DecimalRoundTrip(x.b as int);
    DecimalRoundTrip(x.c as int);
    DecimalRoundTrip(x.d as int);
    DecimalRoundTrip(y.a as int);
    DecimalRoundTrip(y.b as int);
    DecimalRoundTrip(y.c as int);
    DecimalRoundTrip(y.d as int);
  }

  /** Distinct addresses have distinct reverse-lookup names, so a PTR name
      identifies the address it points back to. */
  lemma ReversePointerInjective(x: IpAddr, y: IpAddr)
    requires ReversePointer(x) == ReversePointer(y)
    ensures x == y
  {
    if x.V4? && y.V4? {
      ReversePointerV4Injective(x, y);
    } else if x.V6? && y.V6? {
      var u := ReversePointer(x);
      assert u[..64] == NibbleLabels(x.nibbles) && u[..64] == NibbleLabels(y.nibbles);
      NibbleLabelsInjective(x.nibbles, y.nibbles);
    }
  }
}
