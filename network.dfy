/**
 * The address list of the network block (src/main.rs:96-114): every address
 * of every interface, loopback and IPv6 link-local ones removed, each written
 * in its usual textual form.
 */
module Network {

  import opened Options
  import opened Text
  import opened Sequences

  type u8 = n: nat | n < 0x100
  type u16 = n: nat | n < 0x1_0000
  type Octets = s: seq<u8> | |s| == 4 witness [0, 0, 0, 0]
  type Segments = s: seq<u16> | |s| == 8 witness [0, 0, 0, 0, 0, 0, 0, 0]

  datatype IpAddr = V4(octets: Octets) | V6(segments: Segments)

  /** pnet's `IpNetwork`: an address and its prefix length; only the address is used. */
  datatype IpNetwork = IpNetwork(ip: IpAddr, prefix: u8)

  /** pnet's `NetworkInterface`, reduced to its name and its addresses. */
  datatype NetworkInterface = NetworkInterface(name: string, ips: seq<IpNetwork>)

  /** `::1` */
  const Localhost6: Segments := [0, 0, 0, 0, 0, 0, 0, 1]

  /** Rust's `Ipv4Addr::is_loopback` (127.0.0.0/8) and `Ipv6Addr::is_loopback` (exactly `::1`). */
  predicate IsLoopback(ip: IpAddr) {
    match ip
    case V4(o) => o[0] == 127
    case V6(s) => s == Localhost6
  }

  /** The filter of src/main.rs:105-108: loopback goes, and so does IPv6 whose first segment is `fe80`. */
  predicate Shown(ip: IpAddr) {
    match ip
    case V4(_) => !IsLoopback(ip)
    case V6(s) => !IsLoopback(ip) && s[0] != 0xfe80
  }

  /** One interface's `ips.into_iter().filter(..)`, reduced to the addresses. */
  function ShownOf(ips: seq<IpNetwork>): seq<IpAddr> {
    if ips == [] then []
    else (if Shown(ips[0].ip) then [ips[0].ip] else []) + ShownOf(ips[1..])
  }

  /** `interfaces.into_iter().flat_map(..)`: each interface's shown addresses, interface after interface. */
  function ShownAddresses(ifaces: seq<NetworkInterface>): seq<IpAddr> {
    if ifaces == [] then [] else ShownOf(ifaces[0].ips) + ShownAddresses(ifaces[1..])
  }

  /** Reference: every address of every interface, in enumeration order. */
  function AllAddresses(ifaces: seq<NetworkInterface>): seq<IpAddr> {
    if ifaces == [] then []
    else seq(|ifaces[0].ips|, i requires 0 <= i < |ifaces[0].ips| => ifaces[0].ips[i].ip) + AllAddresses(ifaces[1..])
  }

  /** Reference: the addresses of `xs` that are shown, in order. */
  function Filter(xs: seq<IpAddr>): seq<IpAddr> {
    if xs == [] then [] else (if Shown(xs[0]) then [xs[0]] else []) + Filter(xs[1..])
  }

  lemma {:induction false} FilterConcat(a: seq<IpAddr>, b: seq<IpAddr>)
    ensures Filter(a + b) == Filter(a) + Filter(b)
  {
    if a == [] {
      assert a + b == b;
    } else {
      FilterConcat(a[1..], b);
      assert (a + b)[1..] == a[1..] + b;
    }
  }

  lemma {:induction false} ShownOfIsFilter(ips: seq<IpNetwork>)
    ensures ShownOf(ips) == Filter(seq(|ips|, i requires 0 <= i < |ips| => ips[i].ip))
  {
    var addrs := seq(|ips|, i requires 0 <= i < |ips| => ips[i].ip);
    if ips != [] {
      ShownOfIsFilter(ips[1..]);
      assert addrs[1..] == seq(|ips[1..]|, i requires 0 <= i < |ips[1..]| => ips[1..][i].ip);
    }
  }

  /** Filtering each interface and then flattening equals flattening and then filtering. */
  lemma {:induction false} ShownAddressesIsFilter(ifaces: seq<NetworkInterface>)
    ensures ShownAddresses(ifaces) == Filter(AllAddresses(ifaces))
  {
    if ifaces != [] {
      var ips := ifaces[0].ips;
      var first := seq(|ips|, i requires 0 <= i < |ips| => ips[i].ip);
      ShownAddressesIsFilter(ifaces[1..]);
      ShownOfIsFilter(ips);
      assert AllAddresses(ifaces) == first + AllAddresses(ifaces[1..]);
      FilterConcat(first, AllAddresses(ifaces[1..]));
    }
  }

  /** The filter keeps exactly the shown addresses, as often as they occur, in their original order. */
  lemma {:induction false} FilterSpec(xs: seq<IpAddr>)
    ensures forall x :: multiset(Filter(xs))[x] == if Shown(x) then multiset(xs)[x] else 0
    ensures IsSubsequence(Filter(xs), xs)
  {
    if xs != [] {
      FilterSpec(xs[1..]);
      assert xs == [xs[0]] + xs[1..];
      assert multiset(xs) == multiset([xs[0]]) + multiset(xs[1..]);
      var rest := Filter(xs[1..]);
      if Shown(xs[0]) {
        assert Filter(xs) == [xs[0]] + rest;
        assert multiset(Filter(xs)) == multiset([xs[0]]) + multiset(rest);
        if rest != [] {
          assert Filter(xs)[1..] == rest;
        }
      } else {
        assert Filter(xs) == rest;
        SubsequenceOfTail(rest, xs);
      }
    }
  }

  /**
   * The addresses `main` shows: every address of every interface that is not
   * 127.0.0.0/8, not `::1` and not an IPv6 address whose first segment is
   * `fe80`; each kept as often as it occurs; in interface order and, within an
   * interface, in address order.
   */
  lemma ShownAddressesSpec(ifaces: seq<NetworkInterface>)
    ensures forall x :: x in ShownAddresses(ifaces) <==> (x in AllAddresses(ifaces) &&
      match x
      case V4(o) => o[0] != 127
      case V6(s) => s != Localhost6 && s[0] != 0xfe80)
    ensures forall x :: multiset(ShownAddresses(ifaces))[x] == if Shown(x) then multiset(AllAddresses(ifaces))[x] else 0
    ensures IsSubsequence(ShownAddresses(ifaces), AllAddresses(ifaces))
  {
    ShownAddressesIsFilter(ifaces);
    FilterSpec(AllAddresses(ifaces));
    forall x ensures x in ShownAddresses(ifaces) <==> x in AllAddresses(ifaces) && Shown(x) {
      assert x in ShownAddresses(ifaces) <==> multiset(ShownAddresses(ifaces))[x] > 0;
      assert x in AllAddresses(ifaces) <==> multiset(AllAddresses(ifaces))[x] > 0;
    }
  }

  // ---------------------------------------------------------------- text

  /** A character of an address's text: hexadecimal digits, dots and colons. */
  predicate IsAddrChar(c: char) {
    IsHexDigit(c) || c == '.' || c == ':'
  }

  /** Rust's `Display` for `Ipv4Addr`: four decimal numbers joined by dots. */
  function V4Text(o: Octets): string {
    Join([NatText(o[0]), NatText(o[1]), NatText(o[2]), NatText(o[3])], ".")
  }

  /** `Ipv6Addr::to_ipv4_mapped`: `::ffff:a.b.c.d` carries an IPv4 address in its last two segments. */
  function Ipv4Mapped(s: Segments): Option<Octets> {
    if s[..6] == [0, 0, 0, 0, 0, 0xffff] then Some([s[6] / 0x100, s[6] % 0x100, s[7] / 0x100, s[7] % 0x100])
    else None
  }

  /** A run of `len` segments starting at `start`. */
  datatype Span = Span(start: nat, len: nat)

  predicate ZeroRun(s: seq<u16>, sp: Span) {
    sp.start + sp.len <= |s| && forall k | sp.start <= k < sp.start + sp.len :: s[k] == 0
  }

  /**
   * The scan in Rust's `Ipv6Addr` formatter: the first longest run of zero
   * segments, from position `i` on, given the current run and the longest so far.
   */
  function LongestZeroRun(s: seq<u16>, i: nat, current: Span, longest: Span): (r: Span)
    requires i <= |s|
    requires ZeroRun(s, current) && (current.len > 0 ==> current.start + current.len == i)
    requires ZeroRun(s, longest) && longest.start + longest.len <= i
    ensures ZeroRun(s, r) && r.len >= longest.len
    decreases |s| - i
  {
    if i == |s| then longest
    else if s[i] == 0 then
      var next := Span(if current.len == 0 then i else current.start, current.len + 1);
      LongestZeroRun(s, i + 1, next, if next.len > longest.len then next else longest)
    else LongestZeroRun(s, i + 1, Span(0, 0), longest)
  }

  /** Segments in lower-case hexadecimal, separated by colons. */
  function ColonHex(segs: seq<u16>): string {
    Join(seq(|segs|, i requires 0 <= i < |segs| => HexText(segs[i])), ":")
  }

  /**
   * Rust's `Display` for `Ipv6Addr`: IPv4-mapped addresses as
   * `::ffff:a.b.c.d` (section 5 of RFC 5952); otherwise the first longest run
   * of two or more zero segments becomes `::` (section 4 of RFC 5952).
   */
  function V6Text(s: Segments): string {
    match Ipv4Mapped(s)
    case Some(o) => "::ffff:" + V4Text(o)
    case None =>
      var z := LongestZeroRun(s, 0, Span(0, 0), Span(0, 0));
      if z.len > 1 then ColonHex(s[..z.start]) + "::" + ColonHex(s[z.start + z.len..])
      else ColonHex(s)
  }

  /** `IpAddr::to_string`. */
  function AddrText(ip: IpAddr): string {
    match ip
    case V4(o) => V4Text(o)
    case V6(s) => V6Text(s)
  }

  /** The texts of the shown addresses, in order (src/main.rs:109-111). */
  function AddressTexts(ifaces: seq<NetworkInterface>): (r: seq<string>)
    ensures |r| == |ShownAddresses(ifaces)|
    ensures forall i | 0 <= i < |r| :: r[i] == AddrText(ShownAddresses(ifaces)[i])
  {
    var shown := ShownAddresses(ifaces);
    seq(|shown|, i requires 0 <= i < |shown| => AddrText(shown[i]))
  }

  lemma DigitsAreAddrChars(s: string)
    requires AllDigits(s)
    ensures Every(s, IsAddrChar)
  {
  }

  lemma HexAreAddrChars(n: nat)
    ensures Every(HexText(n), IsAddrChar)
  {
  }

  lemma V4TextChars(o: Octets)
    ensures |V4Text(o)| > 0 && Every(V4Text(o), IsAddrChar)
  {
    var parts := [NatText(o[0]), NatText(o[1]), NatText(o[2]), NatText(o[3])];
    forall k | 0 <= k < 4 ensures Every(parts[k], IsAddrChar) {
      DigitsAreAddrChars(parts[k]);
    }
    JoinEvery(parts, ".", IsAddrChar);
    JoinAsPrefixed(parts, ".");
  }

  lemma ColonHexChars(segs: seq<u16>)
    ensures Every(ColonHex(segs), IsAddrChar)
  {
    var parts := seq(|segs|, i requires 0 <= i < |segs| => HexText(segs[i]));
    forall k | 0 <= k < |parts| ensures Every(parts[k], IsAddrChar) {
      HexAreAddrChars(segs[k]);
    }
    JoinEvery(parts, ":", IsAddrChar);
  }

  /** An address's text is never empty and holds only hex digits, dots and colons; in particular no space. */
  lemma AddrTextChars(ip: IpAddr)
    ensures |AddrText(ip)| > 0 && Every(AddrText(ip), IsAddrChar)
    ensures ' ' !in AddrText(ip)
  {
    match ip
    case V4(o) => V4TextChars(o);
    case V6(s) => V6TextChars(s);
    var t := AddrText(ip);
    forall i | 0 <= i < |t| ensures t[i] != ' ' {
      assert IsAddrChar(t[i]);
    }
  }

  lemma V6TextChars(s: Segments)
    ensures |V6Text(s)| > 0 && Every(V6Text(s), IsAddrChar)
  {
    match Ipv4Mapped(s)
    case Some(o) =>
      V4TextChars(o);
      EveryConcat("::ffff:", V4Text(o), IsAddrChar);
    case None =>
      var z := LongestZeroRun(s, 0, Span(0, 0), Span(0, 0));
      if z.len > 1 {
        CompressedChars(s[..z.start], s[z.start + z.len..]);
      } else {
        ColonHexChars(s);
        var parts := seq(|s|, i requires 0 <= i < |s| => HexText(s[i]));
        JoinAsPrefixed(parts, ":");
      }
  }

  lemma CompressedChars(front: seq<u16>, back: seq<u16>)
    ensures |ColonHex(front) + "::" + ColonHex(back)| > 0
    ensures Every(ColonHex(front) + "::" + ColonHex(back), IsAddrChar)
  {
    ColonHexChars(front);
    ColonHexChars(back);
    EveryConcat(ColonHex(front), "::", IsAddrChar);
    EveryConcat(ColonHex(front) + "::", ColonHex(back), IsAddrChar);
  }

  /** The dotted form of an IPv4 address reads back as its four octets. */
  lemma V4TextRoundTrip(o: Octets)
    ensures var parts := Split(V4Text(o), '.');
      |parts| == 4 && forall k | 0 <= k < 4 :: AllDigits(parts[k]) && DigitsValue(parts[k]) == o[k]
  {
    var parts := [NatText(o[0]), NatText(o[1]), NatText(o[2]), NatText(o[3])];
    forall k, i | 0 <= k < 4 && 0 <= i < |parts[k]| ensures parts[k][i] != '.' {
      assert IsDigit(parts[k][i]);
    }
    SplitJoin(parts, '.');
  }
}
