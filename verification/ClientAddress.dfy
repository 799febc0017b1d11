/** Client addresses: backend/utils.go, and limiterKey of backend/ratelimit.go. */
module ClientAddress {
  import opened Common
  import opened Text
  import opened Numbers

  /** A netip.Addr without a zone: four octets, or eight 16-bit groups. */
  datatype Addr = V4(octets: seq<nat>) | V6(groups: seq<nat>) {
    predicate Valid() {
      match this
      case V4(octets) => |octets| == 4 && forall i :: 0 <= i < 4 ==> octets[i] < 256
      case V6(groups) => |groups| == 8 && forall i :: 0 <= i < 8 ==> groups[i] < 65536
    }
  }

  datatype Prefix = Prefix(addr: Addr, bits: nat)

  /**
   * The parts of the surroundings the functions here read: netip.ParseAddr with the zone dropped,
   * the text of an IPv6 address, and the trusted proxies.
   */
  datatype Config = Config(parseAddr: string -> Option<Addr>, text6: seq<nat> -> string, trusted: seq<Prefix>) {
    ghost predicate Valid() {
      forall s :: parseAddr(s).Some? ==> parseAddr(s).value.Valid()
    }
  }

  /** Addr.Unmap: an IPv4-mapped IPv6 address becomes the IPv4 address. */
  function Unmap(a: Addr): (r: Addr)
    requires a.Valid()
    ensures r.Valid()
  {
    if a.V6? && a.groups[..5] == [0, 0, 0, 0, 0] && a.groups[5] == 0xFFFF then
      V4([a.groups[6] / 256, a.groups[6] % 256, a.groups[7] / 256, a.groups[7] % 256])
    else a
  }

  function ParseIP(c: Config, ip: string): (r: Option<Addr>)
    requires c.Valid()
    ensures r.Some? ==> r.value.Valid()
  {
    var a := c.parseAddr(ip);
    if a.None? then None else Some(Unmap(a.value))
  }

  function HexChar(d: nat): (c: char)
    requires d < 16
    ensures c != ':' && c != '/'
  {
    if d < 10 then ('0' as int + d) as char else ('a' as int + d - 10) as char
  }

  /** A group in lower-case hexadecimal without leading zeros. */
  function Hex(n: nat): (s: string)
    ensures s != "" && Free(s, ':') && Free(s, '/')
  {
    if n < 16 then [HexChar(n)] else Hex(n / 16) + [HexChar(n % 16)]
  }

  function HexTexts(ns: seq<nat>): (r: seq<string>)
    ensures |r| == |ns| && forall i :: 0 <= i < |ns| ==> r[i] == Hex(ns[i])
  {
    seq(|ns|, i requires 0 <= i < |ns| => Hex(ns[i]))
  }

  function DigitTexts(ns: seq<nat>): (r: seq<string>)
    ensures |r| == |ns| && forall i :: 0 <= i < |ns| ==> r[i] == Digits(ns[i])
  {
    seq(|ns|, i requires 0 <= i < |ns| => Digits(ns[i]))
  }

  function Text4(octets: seq<nat>): string {
    Join(DigitTexts(octets), '.')
  }

  /** The groups without trailing zero groups. */
  function Lead(groups: seq<nat>): seq<nat> {
    if groups != [] && groups[|groups| - 1] == 0 then Lead(groups[..|groups| - 1]) else groups
  }

  /**
   * The text of an IPv6 /64 prefix: its last four groups are zero, so the longest run of zero
   * groups, the one written as "::", is the one at the end (section 4.2 of RFC 5952).
   */
  function Prefix64Text(groups: seq<nat>): string
    requires |groups| == 8
  {
    Join(HexTexts(Lead(groups[..4])), ':') + "::/64"
  }

  function LimiterKey(c: Config, ip: string): string
    requires c.Valid()
  {
    match ParseIP(c, ip)
    case None => ip
    case Some(V4(octets)) => Text4(octets)
    case Some(V6(groups)) => Prefix64Text(groups)
  }

  /** What the per-IP limits treat as one client. */
  predicate SameClient(a: Addr, b: Addr)
    requires a.Valid() && b.Valid()
  {
    var x, y := Unmap(a), Unmap(b);
    (x.V4? && x == y) || (x.V6? && y.V6? && x.groups[..4] == y.groups[..4])
  }

  lemma {:induction false} HexInjective(a: nat, b: nat)
    requires Hex(a) == Hex(b)
    ensures a == b
  {
    var s, t := Hex(a), Hex(b);
    assert s[|s| - 1] == t[|t| - 1];
    assert |s| == 1 <==> a < 16;
    assert |t| == 1 <==> b < 16;
    if a >= 16 {
      assert s[..|s| - 1] == Hex(a / 16) && t[..|t| - 1] == Hex(b / 16);
      HexInjective(a / 16, b / 16);
    }
  }

  lemma {:induction false} Text4Injective(a: seq<nat>, b: seq<nat>)
    requires |a| == |b| == 4 && Text4(a) == Text4(b)
    ensures a == b
  {
    var s, t := DigitTexts(a), DigitTexts(b);
    forall i | 0 <= i < 4 ensures Free(s[i], '.') && Free(t[i], '.') {
      assert AllDigits(s[i]) && AllDigits(t[i]);
    }
    SplitJoin(s, '.');
    SplitJoin(t, '.');
    forall i | 0 <= i < 4 ensures a[i] == b[i] {
      assert s[i] == t[i];
      DigitsInjective(a[i], b[i]);
    }
  }

  lemma {:induction false} LeadShape(groups: seq<nat>)
    ensures |Lead(groups)| <= |groups| && Lead(groups) == groups[..|Lead(groups)|]
    ensures forall i :: |Lead(groups)| <= i < |groups| ==> groups[i] == 0
  {
    if groups != [] && groups[|groups| - 1] == 0 {
      LeadShape(groups[..|groups| - 1]);
    }
  }

  lemma {:induction false} Prefix64TextInjective(a: seq<nat>, b: seq<nat>)
    requires |a| == |b| == 8 && Prefix64Text(a) == Prefix64Text(b)
    ensures a[..4] == b[..4]
  {
    var la, lb := Lead(a[..4]), Lead(b[..4]);
    var s, t := HexTexts(la), HexTexts(lb);
    SameBeforeSuffix(Join(s, ':'), Join(t, ':'), "::/64");
    JoinedHex(la, s);
    JoinedHex(lb, t);
    assert s == t;
    forall i | 0 <= i < |la| ensures la[i] == lb[i] {
      assert s[i] == t[i];
      HexInjective(la[i], lb[i]);
    }
    assert la == lb;
    LeadShape(a[..4]);
    LeadShape(b[..4]);
  }

  lemma {:induction false} SameBeforeSuffix(a: string, b: string, suffix: string)
    requires a + suffix == b + suffix
    ensures a == b
  {
    assert |a| == |b|;
    assert (a + suffix)[..|a|] == a && (b + suffix)[..|b|] == b;
  }

  lemma {:induction false} JoinedHex(ns: seq<nat>, texts: seq<string>)
    requires texts == HexTexts(ns)
    ensures texts == [] <==> Join(texts, ':') == ""
    ensures texts != [] ==> Split(Join(texts, ':'), ':') == texts
  {
    if texts != [] {
      SplitJoin(texts, ':');
      assert texts[0] == Hex(ns[0]);
    }
  }

  lemma {:induction false} JoinFree(parts: seq<string>, sep: char, c: char)
    requires sep != c && forall i :: 0 <= i < |parts| ==> Free(parts[i], c)
    ensures Free(Join(parts, sep), c)
  {
    if |parts| > 1 {
      JoinFree(parts[1..], sep, c);
    }
  }

  /**
   * Two parsable addresses share a limiter key exactly if they are the same IPv4 address, in plain
   * or mapped form (section 2.5.5.2 of RFC 4291), or IPv6 addresses of one /64.
   */
  lemma {:induction false} LimiterKeyExact(c: Config, ip1: string, ip2: string)
    requires c.Valid() && c.parseAddr(ip1).Some? && c.parseAddr(ip2).Some?
    ensures LimiterKey(c, ip1) == LimiterKey(c, ip2)
            <==> SameClient(c.parseAddr(ip1).value, c.parseAddr(ip2).value)
  {
    var x, y := Unmap(c.parseAddr(ip1).value), Unmap(c.parseAddr(ip2).value);
    if LimiterKey(c, ip1) == LimiterKey(c, ip2) {
      if x.V4? && y.V4? {
        Text4Injective(x.octets, y.octets);
      } else if x.V6? && y.V6? {
        Prefix64TextInjective(x.groups, y.groups);
      } else {
        FamiliesDiffer(if x.V4? then x.octets else y.octets, if x.V6? then x.groups else y.groups);
      }
    }
  }

  lemma {:induction false} FamiliesDiffer(octets: seq<nat>, groups: seq<nat>)
    requires |octets| == 4 && |groups| == 8
    ensures Text4(octets) != Prefix64Text(groups)
  {
    var t := DigitTexts(octets);
    forall i | 0 <= i < 4 ensures Free(t[i], '/') {
      assert AllDigits(t[i]);
    }
    JoinFree(t, '.', '/');
    var p := Prefix64Text(groups);
    assert p[|p| - 3] == '/';
  }

  /** The IPv6 form of an IPv4 address (section 2.5.5.2 of RFC 4291). */
  function Mapped(octets: seq<nat>): seq<nat>
    requires |octets| == 4
  {
    [0, 0, 0, 0, 0, 0xFFFF, 256 * octets[0] + octets[1], 256 * octets[2] + octets[3]]
  }

  /** Unmapping undoes that, and leaves every other address alone. */
  lemma {:induction false} UnmapExactly(a: Addr)
    requires a.Valid()
    ensures a.V4? ==> Unmap(a) == a && V6(Mapped(a.octets)).Valid() && Unmap(V6(Mapped(a.octets))) == a
    ensures Unmap(a) != a ==> a.V6? && Unmap(a).V4? && a.groups == Mapped(Unmap(a).octets)
  {
    if a.V4? {
      var m := Mapped(a.octets);
      assert m[..5] == [0, 0, 0, 0, 0];
      assert m[6] / 256 == a.octets[0] && m[6] % 256 == a.octets[1];
      assert m[7] / 256 == a.octets[2] && m[7] % 256 == a.octets[3];
    } else if Unmap(a) != a {
      assert a.groups == a.groups[..5] + a.groups[5..];
      assert a.groups[6] == 256 * (a.groups[6] / 256) + a.groups[6] % 256;
      assert a.groups[7] == 256 * (a.groups[7] / 256) + a.groups[7] % 256;
    }
  }

  /** An address that does not parse is its own key. */
  lemma {:induction false} UnparsedKey(c: Config, ip: string)
    requires c.Valid() && c.parseAddr(ip).None?
    ensures LimiterKey(c, ip) == ip
  {
  }

  // ---------------------------------------------------------------- trusted proxies and the header

  function BitsOf(n: nat, width: nat): seq<bool> {
    if width == 0 then [] else BitsOf(n / 2, width - 1) + [n % 2 == 1]
  }

  function AllBits(ns: seq<nat>, width: nat): seq<bool> {
    if ns == [] then [] else BitsOf(ns[0], width) + AllBits(ns[1..], width)
  }

  function AddrBits(a: Addr): seq<bool> {
    match a case V4(octets) => AllBits(octets, 8) case V6(groups) => AllBits(groups, 16)
  }

  /** Prefix.Contains. */
  predicate Contains(p: Prefix, a: Addr) {
    && p.addr.V4? == a.V4?
    && p.bits <= |AddrBits(p.addr)| && p.bits <= |AddrBits(a)|
    && AddrBits(p.addr)[..p.bits] == AddrBits(a)[..p.bits]
  }

  lemma {:induction false} BitsInjective(a: nat, b: nat, width: nat)
    requires BitsOf(a, width) == BitsOf(b, width) && InWidth(a, width) && InWidth(b, width)
    ensures |BitsOf(a, width)| == width && a == b
  {
    if width > 0 {
      var s, t := BitsOf(a, width), BitsOf(b, width);
      assert s[..|s| - 1] == BitsOf(a / 2, width - 1) && t[..|t| - 1] == BitsOf(b / 2, width - 1);
      assert s[|s| - 1] == (a % 2 == 1) && t[|t| - 1] == (b % 2 == 1);
      BitsInjective(a / 2, b / 2, width - 1);
    }
  }

  /** The number has at most width bits. */
  predicate InWidth(n: nat, width: nat) {
    if width == 0 then n == 0 else InWidth(n / 2, width - 1)
  }

  lemma {:induction false} BitsLength(n: nat, width: nat)
    ensures |BitsOf(n, width)| == width
  {
    if width > 0 {
      BitsLength(n / 2, width - 1);
    }
  }

  lemma {:induction false} AllBitsAppend(a: seq<nat>, b: seq<nat>, width: nat)
    ensures AllBits(a + b, width) == AllBits(a, width) + AllBits(b, width)
  {
    hide BitsOf;
    if a == [] {
      assert a + b == b;
    } else {
      assert (a + b)[1..] == a[1..] + b;
      AllBitsAppend(a[1..], b, width);
    }
  }

  lemma {:induction false} AllBitsInjective(a: seq<nat>, b: seq<nat>, width: nat)
    requires |a| == |b| && AllBits(a, width) == AllBits(b, width)
    requires forall i :: 0 <= i < |a| ==> InWidth(a[i], width) && InWidth(b[i], width)
    ensures a == b
  {
    if a != [] {
      var x, y := BitsOf(a[0], width), BitsOf(b[0], width);
      BitsLength(a[0], width);
      BitsLength(b[0], width);
      assert x == AllBits(a, width)[..width] && y == AllBits(b, width)[..width];
      assert AllBits(a[1..], width) == AllBits(a, width)[width..];
      assert AllBits(b[1..], width) == AllBits(b, width)[width..];
      BitsInjective(a[0], b[0], width);
      AllBitsInjective(a[1..], b[1..], width);
    }
  }

  lemma {:induction false} FrontBits(a: seq<nat>, width: nat, k: nat)
    requires k <= |a|
    ensures k * width <= |AllBits(a, width)| && AllBits(a, width)[..k * width] == AllBits(a[..k], width)
  {
    AllBitsLength(a[..k], width);
    AllBitsAppend(a[..k], a[k..], width);
    assert a == a[..k] + a[k..];
  }

  /** The bits of the first k parts of both addresses agree exactly if those parts do. */
  lemma {:induction false} PartsOfBits(a: seq<nat>, b: seq<nat>, width: nat, k: nat)
    requires k <= |a| && k <= |b| && (forall i :: 0 <= i < |a| ==> InWidth(a[i], width))
    requires forall i :: 0 <= i < |b| ==> InWidth(b[i], width)
    ensures k * width <= |AllBits(a, width)| && k * width <= |AllBits(b, width)|
    ensures AllBits(a, width)[..k * width] == AllBits(b, width)[..k * width] <==> a[..k] == b[..k]
  {
    hide AllBits, InWidth;
    FrontBits(a, width, k);
    FrontBits(b, width, k);
    if AllBits(a[..k], width) == AllBits(b[..k], width) {
      AllBitsInjective(a[..k], b[..k], width);
    }
  }

  lemma {:induction false} AllBitsLength(ns: seq<nat>, width: nat)
    ensures |AllBits(ns, width)| == |ns| * width
  {
    if ns != [] {
      BitsLength(ns[0], width);
      AllBitsLength(ns[1..], width);
      assert |ns| * width == width + (|ns| - 1) * width;
    }
  }

  /** The octets of an IPv4 address, or the groups of an IPv6 address. */
  function Parts(a: Addr): seq<nat> {
    match a case V4(octets) => octets case V6(groups) => groups
  }

  lemma {:induction false} PartsInWidth(a: Addr)
    requires a.Valid()
    ensures forall i :: 0 <= i < |Parts(a)| ==> InWidth(Parts(a)[i], if a.V4? then 8 else 16)
  {
    Widths();
    hide InWidth, TwoTo;
    forall i | 0 <= i < |Parts(a)| ensures InWidth(Parts(a)[i], if a.V4? then 8 else 16) {
      Within(Parts(a)[i], if a.V4? then 8 else 16);
    }
  }

  function TwoTo(width: nat): nat {
    if width == 0 then 1 else 2 * TwoTo(width - 1)
  }

  lemma {:induction false} Within(n: nat, width: nat)
    requires n < TwoTo(width)
    ensures InWidth(n, width)
  {
    if width > 0 {
      Within(n / 2, width - 1);
    }
  }

  lemma {:induction false} Widths()
    ensures TwoTo(8) == 256 && TwoTo(16) == 65536
  {
    assert TwoTo(4) == 16 && TwoTo(6) == 64 && TwoTo(8) == 256;
    assert TwoTo(10) == 1024 && TwoTo(12) == 4096 && TwoTo(14) == 16384;
  }

  /** A prefix of whole octets or groups has exactly the addresses of its family that begin with them. */
  lemma {:induction false} ContainsExactly(p: Prefix, a: Addr, k: nat)
    requires p.addr.Valid() && a.Valid() && k <= |Parts(p.addr)| && p.bits == k * (if p.addr.V4? then 8 else 16)
    ensures Contains(p, a) <==> p.addr.V4? == a.V4? && Parts(p.addr)[..k] == Parts(a)[..k]
  {
    hide AllBits, InWidth;
    if p.addr.V4? == a.V4? {
      PartsInWidth(p.addr);
      PartsInWidth(a);
      PartsOfBits(Parts(p.addr), Parts(a), if a.V4? then 8 else 16, k);
    }
  }

  predicate TrustedProxyContains(c: Config, a: Addr) {
    exists i :: 0 <= i < |c.trusted| && Contains(c.trusted[i], a)
  }

  function AddrText(c: Config, a: Addr): string {
    match a case V4(octets) => Text4(octets) case V6(groups) => c.text6(groups)
  }

  function Entry(c: Config, entry: string): Option<Addr>
    requires c.Valid()
  {
    ParseIP(c, TrimSpace(entry))
  }

  /** An entry that ends the search: invalid, or not a trusted proxy. */
  predicate Stops(c: Config, entry: string)
    requires c.Valid()
  {
    Entry(c, entry).None? || !TrustedProxyContains(c, Entry(c, entry).value)
  }

  /** The search goes on past an entry exactly if its address, unmapped, is in a trusted prefix. */
  lemma {:induction false} StopsExactly(c: Config, entry: string)
    requires c.Valid()
    ensures Stops(c, entry) <==>
      || c.parseAddr(TrimSpace(entry)).None?
      || forall i :: 0 <= i < |c.trusted| ==> !Contains(c.trusted[i], Unmap(c.parseAddr(TrimSpace(entry)).value))
  {
  }

  function Outcome(c: Config, entry: string): Option<string>
    requires c.Valid()
  {
    match Entry(c, entry) case None => None case Some(a) => Some(AddrText(c, a))
  }

  /** Entry i decides: no entry right of it stops the search, and it stops it or is the first one. */
  ghost predicate Decides(c: Config, entries: seq<string>, i: nat)
    requires c.Valid()
  {
    && i < |entries| && (i == 0 || Stops(c, entries[i]))
    && forall k :: i < k < |entries| ==> !Stops(c, entries[k])
  }

  /** client is what the deciding entry says: its address, or None if it is not an address. */
  ghost predicate IsClient(c: Config, entries: seq<string>, client: Option<string>)
    requires c.Valid()
  {
    exists i: nat :: Decides(c, entries, i) && client == Outcome(c, entries[i])
  }

  /** clientIPFromHeader; None stands for ok == false. */
  method ClientIPFromHeader(c: Config, lines: seq<string>) returns (client: Option<string>)
    requires c.Valid()
    ensures Join(lines, ',') == "" ==> client == None
    ensures Join(lines, ',') != "" ==> IsClient(c, Split(Join(lines, ','), ','), client)
  {
    hide ParseIP, AddrText, TrustedProxyContains, Join, Split;
    var value := Join(lines, ',');
    if value == "" {
      return None;
    }
    var entries := Split(value, ',');
    client := None;
    var i := |entries|;
    while i > 0
      invariant 0 <= i <= |entries|
      invariant forall k :: i <= k < |entries| ==> !Stops(c, entries[k])
      invariant i < |entries| ==> client == Outcome(c, entries[i])
    {
      i := i - 1;
      var parsed := Entry(c, entries[i]);
      if parsed.None? {
        assert Decides(c, entries, i);
        return None;
      }
      client := Some(AddrText(c, parsed.value));
      if !TrustedProxyContains(c, parsed.value) {
        assert Decides(c, entries, i);
        return;
      }
    }
    assert Decides(c, entries, 0);
  }

  /** The header counts only if one is configured and the direct peer is a trusted proxy. */
  predicate HeaderCounts(c: Config, peer: string, header: Option<seq<string>>)
    requires c.Valid()
  {
    && header.Some? && Join(header.value, ',') != ""
    && ParseIP(c, peer).Some? && TrustedProxyContains(c, ParseIP(c, peer).value)
  }

  /** GetClientIP for a peer address and the lines of the configured header, if one is configured. */
  method GetClientIP(c: Config, peer: string, header: Option<seq<string>>) returns (ip: string)
    requires c.Valid()
    ensures !HeaderCounts(c, peer, header) ==> ip == peer
    ensures HeaderCounts(c, peer, header) ==>
      exists client :: IsClient(c, Split(Join(header.value, ','), ','), client)
                       && ip == if client.Some? then client.value else peer
  {
    var addr := ParseIP(c, peer);
    if header.None? || addr.None? || !TrustedProxyContains(c, addr.value) {
      return peer;
    }
    var client := ClientIPFromHeader(c, header.value);
    return if client.Some? then client.value else peer;
  }

  /** Every non-empty entry list has exactly one client. */
  lemma {:induction false} ClientExistsUnique(c: Config, entries: seq<string>, x: Option<string>, y: Option<string>)
    requires c.Valid() && entries != []
    ensures exists client :: IsClient(c, entries, client)
    ensures IsClient(c, entries, x) && IsClient(c, entries, y) ==> x == y
  {
    hide Stops, Outcome;
    var i: nat := |entries| - 1;
    while i > 0 && !Stops(c, entries[i])
      invariant i < |entries| && forall k :: i < k < |entries| ==> !Stops(c, entries[k])
    {
      i := i - 1;
    }
    assert Decides(c, entries, i);
    assert IsClient(c, entries, Outcome(c, entries[i]));
  }

  /** Putting entries in front moves the deciding entry to the right and changes nothing else. */
  lemma {:induction false} DecidesShift(c: Config, forged: seq<string>, entries: seq<string>, i: nat)
    requires c.Valid() && exists k :: 0 <= k < |entries| && Stops(c, entries[k])
    ensures Decides(c, forged + entries, i) <==> i >= |forged| && Decides(c, entries, i - |forged|)
  {
    hide Stops;
    var all, n := forged + entries, |forged|;
    var stop :| 0 <= stop < |entries| && Stops(c, entries[stop]);
    assert all[n + stop] == entries[stop];
    if Decides(c, all, i) {
      forall k | i - n < k < |entries| ensures !Stops(c, entries[k]) {
        assert entries[k] == all[n + k];
      }
    }
  }

  /**
   * Whatever a client puts in front of the list is ignored once the rest has an entry that stops
   * the search.
   */
  lemma {:induction false} ForgedPrefixIgnored(c: Config, forged: seq<string>, entries: seq<string>,
      client: Option<string>)
    requires c.Valid() && exists k :: 0 <= k < |entries| && Stops(c, entries[k])
    ensures IsClient(c, forged + entries, client) <==> IsClient(c, entries, client)
  {
    hide Stops, Outcome;
    forall i: nat ensures Decides(c, forged + entries, i) <==> i >= |forged| && Decides(c, entries, i - |forged|) {
      DecidesShift(c, forged, entries, i);
    }
    if IsClient(c, entries, client) {
      var j: nat :| j < |entries| && Decides(c, entries, j) && client == Outcome(c, entries[j]);
      assert Decides(c, forged + entries, |forged| + j);
    }
  }

  function SplitAll(lines: seq<string>): seq<string> {
    if lines == [] then [] else Split(lines[0], ',') + SplitAll(lines[1..])
  }

  /** All header lines form one list: joining them and splitting again is splitting each of them. */
  lemma {:induction false} HeaderLinesFormOneList(lines: seq<string>)
    requires lines != []
    ensures Split(Join(lines, ','), ',') == SplitAll(lines)
  {
    if |lines| == 1 {
      assert SplitAll(lines[1..]) == [];
    } else {
      HeaderLinesFormOneList(lines[1..]);
      SplitAtSeparator(lines[0], Join(lines[1..], ','), ',');
    }
  }
}
