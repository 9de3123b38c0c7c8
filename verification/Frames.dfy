/** Frames: Ethernet with an optional 802.1Q tag, IPv4 or IPv6 or ARP, then TCP, UDP or ICMP, and the
    application payload handed to an extractor by port.

    The dissector fills one record while absolute offsets advance. Its specification peels one header off
    the front of the remaining bytes at a time. */
module Frames {
  import opened NetTypes
  import AddressText
  import DnsExtractor
  import HttpExtractor
  import TlsExtractor

  const ETHERTYPE_IPV4 := 0x0800
  const ETHERTYPE_IPV6 := 0x86DD
  const ETHERTYPE_ARP := 0x0806
  const ETHERTYPE_VLAN := 0x8100

  const IPPROTO_ICMP_V4: Byte := 1
  const IPPROTO_UDP: Byte := 17
  const IPPROTO_ICMPV6: Byte := 58

  const PORT_DNS := 53
  const PORT_HTTP := 80
  const PORT_HTTPS := 443

  datatype LinkInfo = LinkInfo(dstMac: Bytes, srcMac: Bytes, etherType: nat)

  datatype NetInfo =
    | NoNet
    | Arp
    | Ip(version: nat, src: string, dst: string, proto: Byte, ttl: Byte, totalLength: nat, fragmented: bool)

  datatype TransportInfo =
    | NoTransport
    | Tcp(srcPort: nat, dstPort: nat, seqNumber: nat, ackNumber: nat, flags: Byte, window: nat)
    | Udp(srcPort: nat, dstPort: nat)
    | Icmp
    | OtherTransport

  datatype AppInfo =
    | NoApp
    | Dns(dns: DnsExtractor.DnsInfo)
    | Http(http: HttpExtractor.HttpInfo)
    | Tls(tls: TlsExtractor.TlsInfo)

  // What is found above the network layer. The payload is empty when the record points at none.
  datatype Upper = Upper(transport: TransportInfo, payload: Bytes, app: AppInfo, truncated: bool)

  const NOTHING_ABOVE := Upper(NoTransport, [], NoApp, false)
  const CUT_SHORT := Upper(NoTransport, [], NoApp, true)

  datatype PacketInfo = PacketInfo(link: Option<LinkInfo>, net: NetInfo, upper: Upper, valid: bool)

  const EMPTY_INFO := PacketInfo(None, NoNet, NOTHING_ABOVE, false)

  function U32(s: Bytes, at: nat): nat
    requires at + 4 <= |s|
  {
    AddressText.FromOctets(s[at..at + 4])
  }

  function U16At(s: Bytes, at: nat): nat
    requires at + 2 <= |s|
  {
    U16(s[at], s[at + 1])
  }

  // ---------------------------------------------------------------- application layer

  function DnsApp(p: Bytes): AppInfo {
    match DnsExtractor.ParseDns(p) case None => NoApp case Some(i) => Dns(i)
  }

  function HttpApp(p: Bytes): AppInfo {
    match HttpExtractor.ParseHttp(p) case None => NoApp case Some(i) => Http(i)
  }

  function TlsApp(p: Bytes): AppInfo {
    match TlsExtractor.ParseTls(p) case None => NoApp case Some(i) => Tls(i)
  }

  // One of the two ports is the given one.
  predicate OnPort(src: nat, dst: nat, port: nat) {
    dst == port || src == port
  }

  // The extractor that the ports choose over IPv4: HTTP is tried on every other port.
  function AppOverTcp4(src: nat, dst: nat, p: Bytes): AppInfo {
    if p == [] then NoApp
    else if OnPort(src, dst, PORT_DNS) then DnsApp(p)
    else if OnPort(src, dst, PORT_HTTPS) then TlsApp(p)
    else HttpApp(p)
  }

  // Over IPv6 neither DNS over TCP nor HTTP on other ports is looked for.
  function AppOverTcp6(src: nat, dst: nat, p: Bytes): AppInfo {
    if p == [] then NoApp
    else if OnPort(src, dst, PORT_HTTPS) then TlsApp(p)
    else if OnPort(src, dst, PORT_HTTP) then HttpApp(p)
    else NoApp
  }

  function AppOverUdp(src: nat, dst: nat, p: Bytes): AppInfo {
    if p != [] && OnPort(src, dst, PORT_DNS) then DnsApp(p) else NoApp
  }

  // ---------------------------------------------------------------- header by header

  datatype Segment = Segment(transport: TransportInfo, payload: Bytes)

  function ParseTcp(s: Bytes): Option<Segment> {
    if |s| < 20 then None
    else
      var header := s[12] / 16 * 4;
      if header < 20 || |s| < header then None
      else Some(Segment(Tcp(U16At(s, 0), U16At(s, 2), U32(s, 4), U32(s, 8), s[13], U16At(s, 14)), s[header..]))
  }

  function ParseUdp(s: Bytes): Option<Segment> {
    if |s| < 8 then None else Some(Segment(Udp(U16At(s, 0), U16At(s, 2)), s[8..]))
  }

  function UpperOf4(proto: Byte, s: Bytes): Upper {
    if proto == IPPROTO_TCP then
      match ParseTcp(s)
      case None => CUT_SHORT
      case Some(t) => Upper(t.transport, t.payload, AppOverTcp4(U16At(s, 0), U16At(s, 2), t.payload), false)
    else if proto == IPPROTO_UDP then
      match ParseUdp(s)
      case None => CUT_SHORT
      case Some(t) => Upper(t.transport, t.payload, AppOverUdp(U16At(s, 0), U16At(s, 2), t.payload), false)
    else if proto == IPPROTO_ICMP_V4 then Upper(Icmp, [], NoApp, false)
    else Upper(OtherTransport, [], NoApp, false)
  }

  // Over IPv6 a header that does not fit is passed over in silence, and the record points at the payload
  // of a datagram only on the DNS port.
  function UpperOf6(proto: Byte, s: Bytes): Upper {
    if proto == IPPROTO_TCP then
      match ParseTcp(s)
      case None => NOTHING_ABOVE
      case Some(t) => Upper(t.transport, t.payload, AppOverTcp6(U16At(s, 0), U16At(s, 2), t.payload), false)
    else if proto == IPPROTO_UDP then
      match ParseUdp(s)
      case None => NOTHING_ABOVE
      case Some(t) =>
        var mine := OnPort(U16At(s, 0), U16At(s, 2), PORT_DNS);
        Upper(t.transport, if mine then t.payload else [], AppOverUdp(U16At(s, 0), U16At(s, 2), t.payload), false)
    else if proto == IPPROTO_ICMPV6 then Upper(Icmp, [], NoApp, false)
    else NOTHING_ABOVE
  }

  function Ipv4Net(s: Bytes): NetInfo
    requires |s| >= 20
  {
    var flags := U16At(s, 6);
    Ip(4, AddressText.FormatIpv4(U32(s, 12)), AddressText.FormatIpv4(U32(s, 16)), s[9], s[8], U16At(s, 2),
       flags / 0x2000 % 2 == 1 || flags % 0x2000 > 0)
  }

  // The length field counts the payload only; the sum is kept in sixteen bits.
  function Ipv6Net(s: Bytes): NetInfo
    requires |s| >= 40
  {
    Ip(6, AddressText.FormatIpv6(s[8..24]), AddressText.FormatIpv6(s[24..40]), s[6], s[7],
       (U16At(s, 4) + 40) % 0x1_0000, false)
  }

  function DissectedIpv4(link: LinkInfo, s: Bytes): PacketInfo {
    if |s| < 20 then PacketInfo(Some(link), NoNet, CUT_SHORT, false)
    else if s[0] / 16 != 4 then PacketInfo(Some(link), NoNet, NOTHING_ABOVE, false)
    else
      var ihl := s[0] % 16 * 4;
      if ihl < 20 || |s| < ihl then PacketInfo(Some(link), NoNet, CUT_SHORT, false)
      else PacketInfo(Some(link), Ipv4Net(s), UpperOf4(s[9], s[ihl..]), true)
  }

  function DissectedIpv6(link: LinkInfo, s: Bytes): PacketInfo {
    if |s| < 40 then PacketInfo(Some(link), NoNet, CUT_SHORT, false)
    else if s[0] / 16 != 6 then PacketInfo(Some(link), NoNet, NOTHING_ABOVE, false)
    else PacketInfo(Some(link), Ipv6Net(s), UpperOf6(s[6], s[40..]), true)
  }

  function DissectedNet(link: LinkInfo, s: Bytes): PacketInfo {
    if link.etherType == ETHERTYPE_IPV4 then DissectedIpv4(link, s)
    else if link.etherType == ETHERTYPE_IPV6 then DissectedIpv6(link, s)
    else if link.etherType == ETHERTYPE_ARP then PacketInfo(Some(link), Arp, NOTHING_ABOVE, true)
    else PacketInfo(Some(link), NoNet, NOTHING_ABOVE, false)
  }

  function Dissected(frame: Bytes): PacketInfo {
    if frame == [] then EMPTY_INFO
    else if |frame| < 14 then PacketInfo(None, NoNet, CUT_SHORT, false)
    else
      var outer := LinkInfo(frame[..6], frame[6..12], U16At(frame, 12));
      if outer.etherType != ETHERTYPE_VLAN then DissectedNet(outer, frame[14..])
      else if |frame| < 18 then PacketInfo(Some(outer), NoNet, CUT_SHORT, false)
      else DissectedNet(outer.(etherType := U16At(frame, 16)), frame[18..])
  }

  // ---------------------------------------------------------------- the dissector

  method Dissect(data: Bytes) returns (info: PacketInfo)
    ensures info == Dissected(data)
  {
    hide DissectedIpv4, DissectedIpv6, U16;
    info := EMPTY_INFO;
    var len := |data|;
    if len == 0 {
      return;
    }
    if len < 14 {
      info := info.(upper := info.upper.(truncated := true));
      return;
    }
    var link := LinkInfo(data[..6], data[6..12], U16At(data, 12));
    info := info.(link := Some(link));
    var l3Offset := 14;
    if link.etherType == ETHERTYPE_VLAN {
      if len < l3Offset + 4 {
        info := info.(upper := info.upper.(truncated := true));
        return;
      }
      link := link.(etherType := U16At(data, l3Offset + 2));
      info := info.(link := Some(link));
      l3Offset := l3Offset + 4;
    }
    if link.etherType == ETHERTYPE_IPV4 {
      info := DissectIpv4(data, l3Offset, link);
    } else if link.etherType == ETHERTYPE_IPV6 {
      info := DissectIpv6(data, l3Offset, link);
    } else if link.etherType == ETHERTYPE_ARP {
      info := info.(net := Arp, valid := true);
    }
  }

  method DissectIpv4(data: Bytes, l3Offset: nat, link: LinkInfo) returns (info: PacketInfo)
    requires l3Offset <= |data|
    ensures info == DissectedIpv4(link, data[l3Offset..])
  {
    hide U16, UpperOf4, AddressText.FormatIpv4, AddressText.FromOctets;
    var len := |data|;
    info := EMPTY_INFO.(link := Some(link));
    if len < l3Offset + 20 {
      info := info.(upper := info.upper.(truncated := true));
      return;
    }
    var first: nat := data[l3Offset];
    if first / 16 != 4 {
      return;
    }
    var ihl := first % 16 * 4;
    if ihl < 20 || len < l3Offset + ihl {
      info := info.(upper := info.upper.(truncated := true));
      return;
    }
    var flags := U16At(data, l3Offset + 6);
    var moreFragments, fragmentOffset := flags / 0x2000 % 2 == 1, flags % 0x2000;
    SuffixWord(data, l3Offset, 12);
    SuffixWord(data, l3Offset, 16);
    var src := AddressText.FormatIpv4(U32(data, l3Offset + 12));
    var dst := AddressText.FormatIpv4(U32(data, l3Offset + 16));
    var protocol := data[l3Offset + 9];
    info := info.(
      net := Ip(4, src, dst, protocol, data[l3Offset + 8], U16At(data, l3Offset + 2), moreFragments || fragmentOffset > 0),
      valid := true);
    assert data[l3Offset..][ihl..] == data[l3Offset + ihl..];
    var upper := DissectUpper4(data, l3Offset + ihl, protocol);
    info := info.(upper := upper);
  }

  method DissectUpper4(data: Bytes, l4Offset: nat, protocol: Byte) returns (upper: Upper)
    requires l4Offset <= |data|
    ensures upper == UpperOf4(protocol, data[l4Offset..])
  {
    hide ParseTcp, ParseUdp, AppOverTcp4, AppOverUdp, U16;
    upper := NOTHING_ABOVE;
    var l4Len := |data| - l4Offset;
    if protocol == IPPROTO_TCP {
      var ok, segment := ReadTcp(data, l4Offset);
      if !ok {
        upper := upper.(truncated := true);
        return;
      }
      var app := DispatchTcp4(segment);
      upper := upper.(transport := segment.transport, payload := segment.payload, app := app);
    } else if protocol == IPPROTO_UDP {
      if l4Len < 8 {
        UdpTooShort(data, l4Offset);
        upper := upper.(truncated := true);
        return;
      }
      var segment := ReadUdp(data, l4Offset);
      var app := DispatchUdp(segment);
      upper := upper.(transport := segment.transport, payload := segment.payload, app := app);
    } else if protocol == IPPROTO_ICMP_V4 {
      upper := upper.(transport := Icmp);
    } else {
      upper := upper.(transport := OtherTransport);
    }
  }

  // The fixed header at an offset and, when its data offset is legal and fits, the payload behind it.
  method ReadTcp(data: Bytes, l4Offset: nat) returns (ok: bool, segment: Segment)
    requires l4Offset <= |data|
    ensures ParseTcp(data[l4Offset..]) == if ok then Some(segment) else None
    ensures ok ==> segment.transport.Tcp? && |data| - l4Offset >= 20
    ensures ok ==> segment.transport.srcPort == U16At(data[l4Offset..], 0) && segment.transport.dstPort == U16At(data[l4Offset..], 2)
  {
    hide U16, AddressText.FromOctets;
    var l4Len := |data| - l4Offset;
    ok, segment := false, Segment(NoTransport, []);
    if l4Len < 20 {
      return;
    }
    var dataOffset: nat := data[l4Offset + 12];
    var header := dataOffset / 16 * 4;
    if header < 20 || l4Len < header {
      return;
    }
    SuffixWord(data, l4Offset, 4);
    SuffixWord(data, l4Offset, 8);
    assert data[l4Offset..][header..] == data[l4Offset + header..];
    var tcp := Tcp(U16At(data, l4Offset), U16At(data, l4Offset + 2), U32(data, l4Offset + 4), U32(data, l4Offset + 8),
                   data[l4Offset + 13], U16At(data, l4Offset + 14));
    ok, segment := true, Segment(tcp, data[l4Offset + header..]);
  }

  method ReadUdp(data: Bytes, l4Offset: nat) returns (segment: Segment)
    requires l4Offset + 8 <= |data|
    ensures ParseUdp(data[l4Offset..]) == Some(segment) && segment.transport.Udp?
    ensures segment.transport.srcPort == U16At(data[l4Offset..], 0) && segment.transport.dstPort == U16At(data[l4Offset..], 2)
  {
    hide U16;
    assert data[l4Offset..][8..] == data[l4Offset + 8..];
    segment := Segment(Udp(U16At(data, l4Offset), U16At(data, l4Offset + 2)), data[l4Offset + 8..]);
  }

  lemma UdpTooShort(data: Bytes, l4Offset: nat)
    requires l4Offset <= |data| < l4Offset + 8
    ensures ParseUdp(data[l4Offset..]) == None
  {
  }

  lemma SuffixWord(data: Bytes, offset: nat, at: nat)
    requires offset + at + 4 <= |data|
    ensures U32(data[offset..], at) == U32(data, offset + at)
  {
    assert data[offset..][at..at + 4] == data[offset + at..offset + at + 4];
  }

  method DispatchTcp4(segment: Segment) returns (app: AppInfo)
    requires segment.transport.Tcp?
    ensures app == AppOverTcp4(segment.transport.srcPort, segment.transport.dstPort, segment.payload)
  {
    var src, dst := segment.transport.srcPort, segment.transport.dstPort;
    if |segment.payload| == 0 {
      return NoApp;
    }
    if dst == PORT_DNS || src == PORT_DNS {
      app := TryDns(segment.payload);
    } else if dst == PORT_HTTPS || src == PORT_HTTPS {
      app := TryTls(segment.payload);
    } else {
      app := TryHttp(segment.payload);
    }
  }

  method DispatchTcp6(segment: Segment) returns (app: AppInfo)
    requires segment.transport.Tcp?
    ensures app == AppOverTcp6(segment.transport.srcPort, segment.transport.dstPort, segment.payload)
  {
    var src, dst := segment.transport.srcPort, segment.transport.dstPort;
    app := NoApp;
    if |segment.payload| > 0 {
      if dst == PORT_HTTPS || src == PORT_HTTPS {
        app := TryTls(segment.payload);
      } else if dst == PORT_HTTP || src == PORT_HTTP {
        app := TryHttp(segment.payload);
      }
    }
  }

  method DispatchUdp(segment: Segment) returns (app: AppInfo)
    requires segment.transport.Udp?
    ensures app == AppOverUdp(segment.transport.srcPort, segment.transport.dstPort, segment.payload)
  {
    app := NoApp;
    if |segment.payload| > 0 && (segment.transport.dstPort == PORT_DNS || segment.transport.srcPort == PORT_DNS) {
      app := TryDns(segment.payload);
    }
  }

  method TryDns(payload: Bytes) returns (app: AppInfo)
    ensures app == DnsApp(payload)
  {
    var info := DnsExtractor.ExtractDns(payload);
    app := if info.Some? then Dns(info.value) else NoApp;
  }

  method TryHttp(payload: Bytes) returns (app: AppInfo)
    ensures app == HttpApp(payload)
  {
    var info := HttpExtractor.ExtractHttp(payload);
    app := if info.Some? then Http(info.value) else NoApp;
  }

  method TryTls(payload: Bytes) returns (app: AppInfo)
    ensures app == TlsApp(payload)
  {
    var info := TlsExtractor.ExtractTls(payload);
    app := if info.Some? then Tls(info.value) else NoApp;
  }

  method DissectIpv6(data: Bytes, l3Offset: nat, link: LinkInfo) returns (info: PacketInfo)
    requires l3Offset <= |data|
    ensures info == DissectedIpv6(link, data[l3Offset..])
  {
    hide U16, UpperOf6, AddressText.FormatIpv6;
    var len := |data|;
    info := EMPTY_INFO.(link := Some(link));
    if len < l3Offset + 40 {
      info := info.(upper := info.upper.(truncated := true));
      return;
    }
    var first: nat := data[l3Offset];
    if first / 16 != 6 {
      return;
    }
    SliceOfSlice(data, l3Offset, len, 8, 24);
    SliceOfSlice(data, l3Offset, len, 24, 40);
    assert data[l3Offset..] == data[l3Offset..len];
    var src := AddressText.PrintIpv6(data[l3Offset + 8..l3Offset + 24]);
    var dst := AddressText.PrintIpv6(data[l3Offset + 24..l3Offset + 40]);
    var nextHeader := data[l3Offset + 6];
    info := info.(
      net := Ip(6, src, dst, nextHeader, data[l3Offset + 7], (U16At(data, l3Offset + 4) + 40) % 0x1_0000, false),
      valid := true);
    assert data[l3Offset..][40..] == data[l3Offset + 40..];
    var upper := DissectUpper6(data, l3Offset + 40, nextHeader);
    info := info.(upper := upper);
  }

  method DissectUpper6(data: Bytes, l4Offset: nat, nextHeader: Byte) returns (upper: Upper)
    requires l4Offset <= |data|
    ensures upper == UpperOf6(nextHeader, data[l4Offset..])
  {
    hide ParseTcp, ParseUdp, AppOverTcp6, DnsApp, U16;
    upper := NOTHING_ABOVE;
    var l4Len := |data| - l4Offset;
    if l4Len < 8 {
      UdpTooShort(data, l4Offset);
    }
    if nextHeader == IPPROTO_TCP {
      var ok, segment := ReadTcp(data, l4Offset);
      if ok {
        var app := DispatchTcp6(segment);
        upper := upper.(transport := segment.transport, payload := segment.payload, app := app);
      }
    } else if nextHeader == IPPROTO_UDP && l4Len >= 8 {
      var segment := ReadUdp(data, l4Offset);
      upper := upper.(transport := segment.transport);
      if |segment.payload| > 0 && (segment.transport.dstPort == PORT_DNS || segment.transport.srcPort == PORT_DNS) {
        var app := TryDns(segment.payload);
        upper := upper.(payload := segment.payload, app := app);
      }
    } else if nextHeader == IPPROTO_ICMPV6 {
      upper := upper.(transport := Icmp);
    }
  }

  // ---------------------------------------------------------------- arbitrary bytes

  ghost predicate IsSuffix(t: Bytes, s: Bytes) {
    |t| <= |s| && s[|s| - |t|..] == t
  }

  lemma SuffixOfSuffix(t: Bytes, s: Bytes, from: nat)
    requires from <= |s| && IsSuffix(t, s[from..])
    ensures IsSuffix(t, s)
  {
    assert s[from..][|s| - from - |t|..] == s[|s| - |t|..];
  }

  lemma UpperIsSuffix(proto: Byte, s: Bytes)
    ensures IsSuffix(UpperOf4(proto, s).payload, s) && IsSuffix(UpperOf6(proto, s).payload, s)
  {
    hide U16, AppOverTcp4, AppOverTcp6, AppOverUdp, AddressText.FromOctets;
    assert IsSuffix([], s) && IsSuffix(s[|s|..], s);
  }

  lemma NetIsSuffix(link: LinkInfo, s: Bytes)
    ensures IsSuffix(DissectedNet(link, s).upper.payload, s)
  {
    hide UpperOf4, UpperOf6, Ipv4Net, Ipv6Net;
    EmptyIsSuffix(s);
    if |s| >= 20 && 20 <= s[0] % 16 * 4 <= |s| {
      var ihl := s[0] % 16 * 4;
      UpperIsSuffix(s[9], s[ihl..]);
      SuffixOfSuffix(UpperOf4(s[9], s[ihl..]).payload, s, ihl);
    }
    if |s| >= 40 {
      UpperIsSuffix(s[6], s[40..]);
      SuffixOfSuffix(UpperOf6(s[6], s[40..]).payload, s, 40);
    }
    hide IsSuffix;
  }

  lemma EmptyIsSuffix(s: Bytes)
    ensures IsSuffix([], s)
  {
  }

  // Whatever the frame, the payload handed upwards is its tail.
  lemma PayloadIsSuffix(frame: Bytes)
    ensures IsSuffix(Dissected(frame).upper.payload, frame)
  {
    hide DissectedNet, U16;
    EmptyIsSuffix(frame);
    if |frame| >= 14 {
      var outer := LinkInfo(frame[..6], frame[6..12], U16At(frame, 12));
      NetIsSuffix(outer, frame[14..]);
      SuffixOfSuffix(DissectedNet(outer, frame[14..]).upper.payload, frame, 14);
      if |frame| >= 18 {
        var inner := outer.(etherType := U16At(frame, 16));
        NetIsSuffix(inner, frame[18..]);
        SuffixOfSuffix(DissectedNet(inner, frame[18..]).upper.payload, frame, 18);
      }
    }
  }

  // ---------------------------------------------------------------- building frames

  datatype Ethernet = Ethernet(dstMac: Bytes, srcMac: Bytes, tag: Option<nat>)
  {
    // Six-byte addresses; a tag is priority, drop flag and VLAN in sixteen bits.
    ghost predicate Legal() {
      |dstMac| == 6 && |srcMac| == 6 && (tag.Some? ==> tag.value < 0x1_0000)
    }
  }

  function EncodeEthernet(e: Ethernet, etherType: nat, rest: Bytes): Bytes
    requires e.Legal() && etherType < 0x1_0000
  {
    e.dstMac + e.srcMac + (if e.tag == None then [] else Put16(ETHERTYPE_VLAN) + Put16(e.tag.value)) + Put16(etherType) + rest
  }

  // Section 3.1 of RFC 791, with any options and any fragmentation bits.
  datatype Ipv4Header = Ipv4Header(
    service: Byte, totalLength: nat, identification: nat, reserved: bool, dontFragment: bool, moreFragments: bool,
    fragmentOffset: nat, ttl: Byte, proto: Byte, checksum: nat, src: AddressText.Word32, dst: AddressText.Word32,
    options: Bytes)
  {
    ghost predicate Legal() {
      && totalLength < 0x1_0000 && identification < 0x1_0000 && fragmentOffset < 0x2000 && checksum < 0x1_0000
      && |options| % 4 == 0 && |options| <= 40
    }

    function FlagBits(): (bits: nat)
      requires Legal()
      ensures bits < 0x1_0000 && bits % 0x2000 == fragmentOffset && (bits / 0x2000 % 2 == 1 <==> moreFragments)
    {
      (if reserved then 0x8000 else 0) + (if dontFragment then 0x4000 else 0) + (if moreFragments then 0x2000 else 0)
      + fragmentOffset
    }
  }

  function Hi(n: nat): Byte
    requires n < 0x1_0000
  {
    n / 256
  }

  function Lo(n: nat): Byte {
    n % 256
  }

  lemma HiLo(n: nat)
    requires n < 0x1_0000
    ensures U16(Hi(n), Lo(n)) == n
  {
  }

  // The twelve bytes before the addresses.
  function Ipv4Fixed(h: Ipv4Header): (bytes: Bytes)
    requires h.Legal()
    ensures |bytes| == 12
  {
    [0x45 + |h.options| / 4, h.service, Hi(h.totalLength), Lo(h.totalLength), Hi(h.identification), Lo(h.identification),
     Hi(h.FlagBits()), Lo(h.FlagBits()), h.ttl, h.proto, Hi(h.checksum), Lo(h.checksum)]
  }

  function EncodeIpv4(h: Ipv4Header, rest: Bytes): Bytes
    requires h.Legal()
  {
    Ipv4Fixed(h) + AddressText.Octets(h.src) + AddressText.Octets(h.dst) + h.options + rest
  }

  datatype Ipv6Header = Ipv6Header(
    traffic: Byte, flow: nat, payloadLength: nat, nextHeader: Byte, hopLimit: Byte, src: Bytes, dst: Bytes)
  {
    ghost predicate Legal() {
      flow < 0x10_0000 && payloadLength < 0x1_0000 && |src| == 16 && |dst| == 16
    }
  }

  // Section 3 of RFC 8200.
  function EncodeIpv6(h: Ipv6Header, rest: Bytes): Bytes
    requires h.Legal()
  {
    [0x60 + h.traffic / 16, h.traffic % 16 * 16 + h.flow / 0x1_0000, Hi(h.flow % 0x1_0000), Lo(h.flow % 0x1_0000),
     Hi(h.payloadLength), Lo(h.payloadLength), h.nextHeader, h.hopLimit] + h.src + h.dst + rest
  }

  // Section 3.1 of RFC 9293, with any options.
  datatype TcpHeader = TcpHeader(
    srcPort: nat, dstPort: nat, seqNumber: AddressText.Word32, ackNumber: AddressText.Word32, reserved: nat, flags: Byte,
    window: nat, checksum: nat, urgent: nat, options: Bytes)
  {
    ghost predicate Legal() {
      && srcPort < 0x1_0000 && dstPort < 0x1_0000 && reserved < 16 && window < 0x1_0000 && checksum < 0x1_0000
      && urgent < 0x1_0000 && |options| % 4 == 0 && |options| <= 40
    }
  }

  function TcpTail(h: TcpHeader): (bytes: Bytes)
    requires h.Legal()
    ensures |bytes| == 8
  {
    [(5 + |h.options| / 4) * 16 + h.reserved, h.flags, Hi(h.window), Lo(h.window), Hi(h.checksum), Lo(h.checksum),
     Hi(h.urgent), Lo(h.urgent)]
  }

  function EncodeTcp(h: TcpHeader, payload: Bytes): Bytes
    requires h.Legal()
  {
    [Hi(h.srcPort), Lo(h.srcPort), Hi(h.dstPort), Lo(h.dstPort)] + AddressText.Octets(h.seqNumber)
    + AddressText.Octets(h.ackNumber) + TcpTail(h) + h.options + payload
  }

  function EncodeUdp(srcPort: nat, dstPort: nat, length: nat, checksum: nat, payload: Bytes): Bytes
    requires srcPort < 0x1_0000 && dstPort < 0x1_0000 && length < 0x1_0000 && checksum < 0x1_0000
  {
    [Hi(srcPort), Lo(srcPort), Hi(dstPort), Lo(dstPort), Hi(length), Lo(length), Hi(checksum), Lo(checksum)] + payload
  }

  // The four bytes behind a prefix are the word written there.
  lemma WordAt(pre: Bytes, w: AddressText.Word32, post: Bytes)
    ensures U32(pre + AddressText.Octets(w) + post, |pre|) == w
  {
    var s := pre + AddressText.Octets(w) + post;
    assert s[|pre|..|pre| + 4] == AddressText.Octets(w);
    hide AddressText.Octets, AddressText.FromOctets;
    AddressText.OctetsRoundTrip(w);
  }

  lemma EthernetRoundTrip(e: Ethernet, etherType: nat, rest: Bytes)
    requires e.Legal() && etherType < 0x1_0000 && etherType != ETHERTYPE_VLAN
    ensures Dissected(EncodeEthernet(e, etherType, rest)) == DissectedNet(LinkInfo(e.dstMac, e.srcMac, etherType), rest)
  {
    hide DissectedNet, U16;
    var s := EncodeEthernet(e, etherType, rest);
    assert s[..6] == e.dstMac && s[6..12] == e.srcMac;
    if e.tag == None {
      assert s[12] == Put16(etherType)[0] && s[13] == Put16(etherType)[1];
      assert s[14..] == rest;
    } else {
      assert s[12] == Put16(ETHERTYPE_VLAN)[0] && s[13] == Put16(ETHERTYPE_VLAN)[1];
      assert s[16] == Put16(etherType)[0] && s[17] == Put16(etherType)[1];
      assert s[18..] == rest;
    }
  }

  // What the dissector should report of an IPv4 header.
  function NetOf4(h: Ipv4Header): NetInfo {
    Ip(4, AddressText.FormatIpv4(h.src), AddressText.FormatIpv4(h.dst), h.proto, h.ttl, h.totalLength,
       h.moreFragments || h.fragmentOffset > 0)
  }

  lemma Ipv4Layout(h: Ipv4Header, rest: Bytes)
    requires h.Legal()
    ensures var s, ihl := EncodeIpv4(h, rest), 20 + |h.options|;
      && |s| == ihl + |rest| && s[0] == 0x45 + |h.options| / 4 && s[9] == h.proto && s[ihl..] == rest
      && Ipv4Net(s) == NetOf4(h)
  {
    hide AddressText.Octets, AddressText.FormatIpv4, AddressText.FromOctets, U16, Hi, Lo;
    var fixed, src, dst := Ipv4Fixed(h), AddressText.Octets(h.src), AddressText.Octets(h.dst);
    var s := EncodeIpv4(h, rest);
    assert forall k :: 0 <= k < 12 ==> s[k] == fixed[k];
    WordAt(fixed, h.src, dst + h.options + rest);
    assert s == fixed + src + (dst + h.options + rest);
    WordAt(fixed + src, h.dst, h.options + rest);
    assert s == (fixed + src) + dst + (h.options + rest);
    HiLo(h.totalLength);
    HiLo(h.FlagBits());
    assert s[20 + |h.options|..] == rest;
  }

  lemma Ipv4LayerRoundTrip(link: LinkInfo, h: Ipv4Header, rest: Bytes)
    requires h.Legal()
    ensures DissectedIpv4(link, EncodeIpv4(h, rest)) == PacketInfo(Some(link), NetOf4(h), UpperOf4(h.proto, rest), true)
  {
    hide UpperOf4, EncodeIpv4, NetOf4, Ipv4Net;
    Ipv4Layout(h, rest);
  }

  lemma Ipv6LayerRoundTrip(link: LinkInfo, h: Ipv6Header, rest: Bytes)
    requires h.Legal()
    ensures DissectedIpv6(link, EncodeIpv6(h, rest)) ==
      PacketInfo(Some(link),
                 Ip(6, AddressText.FormatIpv6(h.src), AddressText.FormatIpv6(h.dst), h.nextHeader, h.hopLimit,
                    (h.payloadLength + 40) % 0x1_0000, false),
                 UpperOf6(h.nextHeader, rest), true)
  {
    hide UpperOf6, AddressText.FormatIpv6, U16, Hi, Lo;
    var s := EncodeIpv6(h, rest);
    HiLo(h.payloadLength);
    assert s[8..24] == h.src && s[24..40] == h.dst && s[40..] == rest;
    assert s[0] == 0x60 + h.traffic / 16;
  }

  function TransportOf(h: TcpHeader): TransportInfo {
    Tcp(h.srcPort, h.dstPort, h.seqNumber, h.ackNumber, h.flags, h.window)
  }

  lemma TcpLayout(h: TcpHeader, payload: Bytes)
    requires h.Legal()
    ensures var s, tail := EncodeTcp(h, payload), TcpTail(h);
      && |s| == 20 + |h.options| + |payload| && s[20 + |h.options|..] == payload
      && s[0] == Hi(h.srcPort) && s[1] == Lo(h.srcPort) && s[2] == Hi(h.dstPort) && s[3] == Lo(h.dstPort)
      && U32(s, 4) == h.seqNumber && U32(s, 8) == h.ackNumber
      && s[12] == tail[0] && s[13] == tail[1] && s[14] == tail[2] && s[15] == tail[3]
  {
    hide AddressText.Octets, AddressText.FromOctets, Hi, Lo, TcpTail;
    var ports := [Hi(h.srcPort), Lo(h.srcPort), Hi(h.dstPort), Lo(h.dstPort)];
    var sent, acked, tail := AddressText.Octets(h.seqNumber), AddressText.Octets(h.ackNumber), TcpTail(h);
    var s := EncodeTcp(h, payload);
    WordAt(ports, h.seqNumber, acked + tail + h.options + payload);
    assert s == ports + sent + (acked + tail + h.options + payload);
    WordAt(ports + sent, h.ackNumber, tail + h.options + payload);
    assert s == (ports + sent) + acked + (tail + h.options + payload);
    assert s[20 + |h.options|..] == payload;
  }

  lemma TcpRoundTrip(h: TcpHeader, payload: Bytes)
    requires h.Legal()
    ensures var s := EncodeTcp(h, payload);
      && ParseTcp(s) == Some(Segment(TransportOf(h), payload))
      && |s| >= 20 && U16At(s, 0) == h.srcPort && U16At(s, 2) == h.dstPort
  {
    hide U16, U32, Hi, Lo, EncodeTcp;
    TcpLayout(h, payload);
    HiLo(h.srcPort);
    HiLo(h.dstPort);
    HiLo(h.window);
    DataOffset(h);
  }

  lemma DataOffset(h: TcpHeader)
    requires h.Legal()
    ensures TcpTail(h)[0] / 16 * 4 == 20 + |h.options|
  {
  }

  lemma UdpRoundTrip(srcPort: nat, dstPort: nat, length: nat, checksum: nat, payload: Bytes)
    requires srcPort < 0x1_0000 && dstPort < 0x1_0000 && length < 0x1_0000 && checksum < 0x1_0000
    ensures var s := EncodeUdp(srcPort, dstPort, length, checksum, payload);
      && ParseUdp(s) == Some(Segment(Udp(srcPort, dstPort), payload))
      && |s| >= 8 && U16At(s, 0) == srcPort && U16At(s, 2) == dstPort
  {
    hide U16, Hi, Lo;
    HiLo(srcPort);
    HiLo(dstPort);
    assert EncodeUdp(srcPort, dstPort, length, checksum, payload)[8..] == payload;
  }

  // Reading undoes building, for IPv4 and TCP with any legal options, tagged or not: addresses, ports,
  // sequence numbers, flags and payload come back. Trailing bytes of the frame count as payload, so the
  // payload is the segment's own exactly when there are none.
  lemma Tcp4FrameRoundTrip(e: Ethernet, ip: Ipv4Header, tcp: TcpHeader, payload: Bytes, trailer: Bytes)
    requires e.Legal() && ip.Legal() && tcp.Legal() && ip.proto == IPPROTO_TCP
    ensures Dissected(EncodeEthernet(e, ETHERTYPE_IPV4, EncodeIpv4(ip, EncodeTcp(tcp, payload))) + trailer) ==
      PacketInfo(Some(LinkInfo(e.dstMac, e.srcMac, ETHERTYPE_IPV4)), NetOf4(ip),
                 Upper(TransportOf(tcp), payload + trailer, AppOverTcp4(tcp.srcPort, tcp.dstPort, payload + trailer), false),
                 true)
    ensures AddressText.ParseIpv4(NetOf4(ip).src) == Some(ip.src) && AddressText.ParseIpv4(NetOf4(ip).dst) == Some(ip.dst)
  {
    hide DissectedIpv4, Dissected, ParseTcp, AppOverTcp4, U16, AddressText.FormatIpv4, AddressText.ParseIpv4;
    TrailerIsPayload4(e, ip, tcp, payload, trailer);
    hide EncodeEthernet, EncodeIpv4, EncodeTcp, TransportOf;
    var s := EncodeTcp(tcp, payload + trailer);
    EthernetRoundTrip(e, ETHERTYPE_IPV4, EncodeIpv4(ip, s));
    Ipv4LayerRoundTrip(LinkInfo(e.dstMac, e.srcMac, ETHERTYPE_IPV4), ip, s);
    TcpRoundTrip(tcp, payload + trailer);
    AddressText.Ipv4RoundTrip(ip.src);
    AddressText.Ipv4RoundTrip(ip.dst);
  }

  lemma TrailerIsPayload4(e: Ethernet, ip: Ipv4Header, tcp: TcpHeader, payload: Bytes, trailer: Bytes)
    requires e.Legal() && ip.Legal() && tcp.Legal()
    ensures EncodeEthernet(e, ETHERTYPE_IPV4, EncodeIpv4(ip, EncodeTcp(tcp, payload))) + trailer
      == EncodeEthernet(e, ETHERTYPE_IPV4, EncodeIpv4(ip, EncodeTcp(tcp, payload + trailer)))
  {
    TcpAppend(tcp, payload, trailer);
    Ipv4Append(ip, EncodeTcp(tcp, payload), trailer);
    EthernetAppend(e, ETHERTYPE_IPV4, EncodeIpv4(ip, EncodeTcp(tcp, payload)), trailer);
  }

  lemma TcpAppend(h: TcpHeader, payload: Bytes, more: Bytes)
    requires h.Legal()
    ensures EncodeTcp(h, payload) + more == EncodeTcp(h, payload + more)
  {
    hide TcpTail, AddressText.Octets;
  }

  lemma Ipv4Append(h: Ipv4Header, rest: Bytes, more: Bytes)
    requires h.Legal()
    ensures EncodeIpv4(h, rest) + more == EncodeIpv4(h, rest + more)
  {
    hide Ipv4Fixed, AddressText.Octets;
  }

  lemma EthernetAppend(e: Ethernet, etherType: nat, rest: Bytes, more: Bytes)
    requires e.Legal() && etherType < 0x1_0000
    ensures EncodeEthernet(e, etherType, rest) + more == EncodeEthernet(e, etherType, rest + more)
  {
  }

  lemma UdpAppend(srcPort: nat, dstPort: nat, length: nat, checksum: nat, payload: Bytes, more: Bytes)
    requires srcPort < 0x1_0000 && dstPort < 0x1_0000 && length < 0x1_0000 && checksum < 0x1_0000
    ensures EncodeUdp(srcPort, dstPort, length, checksum, payload) + more == EncodeUdp(srcPort, dstPort, length, checksum, payload + more)
  {
  }

  lemma Ipv6Append(h: Ipv6Header, rest: Bytes, more: Bytes)
    requires h.Legal()
    ensures EncodeIpv6(h, rest) + more == EncodeIpv6(h, rest + more)
  {
  }

  // ---------------------------------------------------------------- through the whole stack

  // A ClientHello on the HTTPS port of an IPv4 frame yields the name it asks for, padded or not.
  lemma SniFromFrame(e: Ethernet, ip: Ipv4Header, tcp: TcpHeader, hello: TlsExtractor.ClientHello, trailer: Bytes)
    requires e.Legal() && ip.Legal() && tcp.Legal() && ip.proto == IPPROTO_TCP && hello.Legal()
    requires OnPort(tcp.srcPort, tcp.dstPort, PORT_HTTPS) && !OnPort(tcp.srcPort, tcp.dstPort, PORT_DNS)
    ensures Dissected(EncodeEthernet(e, ETHERTYPE_IPV4, EncodeIpv4(ip, EncodeTcp(tcp, TlsExtractor.EncodeHello(hello)))) + trailer).upper.app ==
      match TlsExtractor.RequestedHost(hello.extensions)
      case None => NoApp
      case Some(name) => Tls(TlsExtractor.TlsInfo(name, hello.recordVersion))
  {
    hide Dissected, EncodeEthernet, EncodeIpv4, EncodeTcp, TransportOf, NetOf4;
    hide TlsExtractor.ParseTls, TlsExtractor.RequestedHost;
    Tcp4FrameRoundTrip(e, ip, tcp, TlsExtractor.EncodeHello(hello), trailer);
    TlsExtractor.TlsRoundTrip(hello, trailer);
    HelloIsNotEmpty(hello);
  }

  lemma HelloIsNotEmpty(hello: TlsExtractor.ClientHello)
    requires hello.Legal()
    ensures TlsExtractor.EncodeHello(hello) != []
  {
    hide TlsExtractor.EncodeVectors, TlsExtractor.EncodeHead;
  }

  // A DNS message in a datagram on the DNS port yields its first question, over IPv4 and over IPv6.
  lemma DnsFromUpper(srcPort: nat, dstPort: nat, length: nat, checksum: nat, h: DnsExtractor.DnsHeader,
                     labels: DnsExtractor.Labels, qtype: nat, qclass: nat, rest: Bytes)
    requires srcPort < 0x1_0000 && dstPort < 0x1_0000 && length < 0x1_0000 && checksum < 0x1_0000
    requires OnPort(srcPort, dstPort, PORT_DNS)
    requires h.Legal() && DnsExtractor.LegalName(labels) && qtype < 0x1_0000 && qclass < 0x1_0000
    ensures var m := DnsExtractor.EncodeMessage(h, labels, qtype, qclass, rest);
      var u := Upper(Udp(srcPort, dstPort), m, Dns(DnsExtractor.DnsInfo(DnsExtractor.Join(labels), qtype, h.flagsHi >= 0x80)), false);
      && UpperOf4(IPPROTO_UDP, EncodeUdp(srcPort, dstPort, length, checksum, m)) == u
      && UpperOf6(IPPROTO_UDP, EncodeUdp(srcPort, dstPort, length, checksum, m)) == u
  {
    hide ParseUdp, ParseTcp, EncodeUdp, U16, DnsExtractor.ParseDns, DnsExtractor.Join;
    var m := DnsExtractor.EncodeMessage(h, labels, qtype, qclass, rest);
    UdpRoundTrip(srcPort, dstPort, length, checksum, m);
    DnsExtractor.DnsRoundTrip(h, labels, qtype, qclass, rest);
    assert |m| >= 12 by {
      hide DnsExtractor.EncodeName;
    }
  }

  // So does every such frame, whatever the trailer: it only lengthens what follows the question.
  lemma DnsFromFrame(e: Ethernet, ip: Ipv4Header, srcPort: nat, dstPort: nat, length: nat, checksum: nat,
                     h: DnsExtractor.DnsHeader, labels: DnsExtractor.Labels, qtype: nat, qclass: nat, rest: Bytes, trailer: Bytes)
    requires e.Legal() && ip.Legal() && ip.proto == IPPROTO_UDP
    requires srcPort < 0x1_0000 && dstPort < 0x1_0000 && length < 0x1_0000 && checksum < 0x1_0000
    requires OnPort(srcPort, dstPort, PORT_DNS)
    requires h.Legal() && DnsExtractor.LegalName(labels) && qtype < 0x1_0000 && qclass < 0x1_0000
    ensures var m := DnsExtractor.EncodeMessage(h, labels, qtype, qclass, rest);
      var info := Dissected(EncodeEthernet(e, ETHERTYPE_IPV4, EncodeIpv4(ip, EncodeUdp(srcPort, dstPort, length, checksum, m))) + trailer);
      && info.net == NetOf4(ip) && info.valid
      && info.upper.transport == Udp(srcPort, dstPort)
      && info.upper.app == Dns(DnsExtractor.DnsInfo(DnsExtractor.Join(labels), qtype, h.flagsHi >= 0x80))
  {
    hide Dissected, DissectedIpv4, UpperOf4, UpperOf6, EncodeEthernet, EncodeIpv4, EncodeUdp, NetOf4;
    var m := DnsExtractor.EncodeMessage(h, labels, qtype, qclass, rest);
    MessageAppend(h, labels, qtype, qclass, rest, trailer);
    hide DnsExtractor.EncodeMessage, DnsExtractor.Join;
    var m' := DnsExtractor.EncodeMessage(h, labels, qtype, qclass, rest + trailer);
    UdpAppend(srcPort, dstPort, length, checksum, m, trailer);
    Ipv4Append(ip, EncodeUdp(srcPort, dstPort, length, checksum, m), trailer);
    EthernetAppend(e, ETHERTYPE_IPV4, EncodeIpv4(ip, EncodeUdp(srcPort, dstPort, length, checksum, m)), trailer);
    var s := EncodeUdp(srcPort, dstPort, length, checksum, m');
    EthernetRoundTrip(e, ETHERTYPE_IPV4, EncodeIpv4(ip, s));
    Ipv4LayerRoundTrip(LinkInfo(e.dstMac, e.srcMac, ETHERTYPE_IPV4), ip, s);
    DnsFromUpper(srcPort, dstPort, length, checksum, h, labels, qtype, qclass, rest + trailer);
  }

  lemma MessageAppend(h: DnsExtractor.DnsHeader, labels: DnsExtractor.Labels, qtype: nat, qclass: nat, rest: Bytes, more: Bytes)
    requires h.Legal() && qtype < 0x1_0000 && qclass < 0x1_0000
    requires forall k :: 0 <= k < |labels| ==> |labels[k]| < 64
    ensures DnsExtractor.EncodeMessage(h, labels, qtype, qclass, rest) + more
      == DnsExtractor.EncodeMessage(h, labels, qtype, qclass, rest + more)
  {
    hide DnsExtractor.EncodeHeader, DnsExtractor.EncodeName;
  }

  // A request on any port but those of DNS and HTTPS yields method, target and host.
  lemma RequestFromFrame(e: Ethernet, ip: Ipv4Header, tcp: TcpHeader, r: HttpExtractor.Request, trailer: Bytes)
    requires e.Legal() && ip.Legal() && tcp.Legal() && ip.proto == IPPROTO_TCP && r.Legal()
    requires !OnPort(tcp.srcPort, tcp.dstPort, PORT_HTTPS) && !OnPort(tcp.srcPort, tcp.dstPort, PORT_DNS)
    ensures Dissected(EncodeEthernet(e, ETHERTYPE_IPV4, EncodeIpv4(ip, EncodeTcp(tcp, HttpExtractor.EncodeRequest(r)))) + trailer).upper.app
      == Http(HttpExtractor.HttpInfo(r.verb, r.target, HttpExtractor.HostValue(r.headers)))
  {
    hide Dissected, EncodeEthernet, EncodeIpv4, EncodeTcp, TransportOf, NetOf4;
    hide HttpExtractor.ParseHttp, HttpExtractor.HostValue, HttpExtractor.METHODS, HttpExtractor.NoCrlf;
    Tcp4FrameRoundTrip(e, ip, tcp, HttpExtractor.EncodeRequest(r), trailer);
    var longer := r.(body := r.body + trailer);
    assert HttpExtractor.EncodeRequest(longer) == HttpExtractor.EncodeRequest(r) + trailer by {
      hide HttpExtractor.EncodeHeaders;
    }
    assert longer.Legal();
    HttpExtractor.HttpRoundTrip(longer);
    HttpExtractor.EncodedLength(longer);
  }

  // The same two layers over IPv6: addresses survive printing, and the payload comes back.
  lemma Tcp6FrameRoundTrip(e: Ethernet, ip: Ipv6Header, tcp: TcpHeader, payload: Bytes, trailer: Bytes)
    requires e.Legal() && ip.Legal() && tcp.Legal() && ip.nextHeader == IPPROTO_TCP
    ensures var info := Dissected(EncodeEthernet(e, ETHERTYPE_IPV6, EncodeIpv6(ip, EncodeTcp(tcp, payload))) + trailer);
      && info.valid && info.net.Ip?
      && info.upper == Upper(TransportOf(tcp), payload + trailer, AppOverTcp6(tcp.srcPort, tcp.dstPort, payload + trailer), false)
      && AddressText.AddrOfIpv6Text(info.net.src) == ip.src && AddressText.AddrOfIpv6Text(info.net.dst) == ip.dst
      && info.net.ttl == ip.hopLimit
  {
    hide Dissected, DissectedIpv6, ParseTcp, AppOverTcp6, EncodeEthernet, EncodeIpv6, EncodeTcp, TransportOf, U16;
    hide AddressText.FormatIpv6, AddressText.AddrOfIpv6Text;
    TcpAppend(tcp, payload, trailer);
    Ipv6Append(ip, EncodeTcp(tcp, payload), trailer);
    EthernetAppend(e, ETHERTYPE_IPV6, EncodeIpv6(ip, EncodeTcp(tcp, payload)), trailer);
    var s := EncodeTcp(tcp, payload + trailer);
    EthernetRoundTrip(e, ETHERTYPE_IPV6, EncodeIpv6(ip, s));
    Ipv6LayerRoundTrip(LinkInfo(e.dstMac, e.srcMac, ETHERTYPE_IPV6), ip, s);
    TcpRoundTrip(tcp, payload + trailer);
    AddressText.TextAndAddressAgree(0, 0, ip.src, ip.dst);
    AddressText.TextAndAddressAgree(0, 0, ip.dst, ip.src);
  }

  // Over IPv6 the names and fields come back as well. The HTTPS port decides first there.
  lemma SniFromFrame6(e: Ethernet, ip: Ipv6Header, tcp: TcpHeader, hello: TlsExtractor.ClientHello, trailer: Bytes)
    requires e.Legal() && ip.Legal() && tcp.Legal() && ip.nextHeader == IPPROTO_TCP && hello.Legal()
    requires OnPort(tcp.srcPort, tcp.dstPort, PORT_HTTPS)
    ensures Dissected(EncodeEthernet(e, ETHERTYPE_IPV6, EncodeIpv6(ip, EncodeTcp(tcp, TlsExtractor.EncodeHello(hello)))) + trailer).upper.app ==
      match TlsExtractor.RequestedHost(hello.extensions)
      case None => NoApp
      case Some(name) => Tls(TlsExtractor.TlsInfo(name, hello.recordVersion))
  {
    hide Dissected, EncodeEthernet, EncodeIpv6, EncodeTcp, TransportOf, AddressText.AddrOfIpv6Text;
    hide TlsExtractor.ParseTls, TlsExtractor.RequestedHost;
    Tcp6FrameRoundTrip(e, ip, tcp, TlsExtractor.EncodeHello(hello), trailer);
    TlsExtractor.TlsRoundTrip(hello, trailer);
    HelloIsNotEmpty(hello);
  }

  // HTTP is looked for on its own port only.
  lemma RequestFromFrame6(e: Ethernet, ip: Ipv6Header, tcp: TcpHeader, r: HttpExtractor.Request, trailer: Bytes)
    requires e.Legal() && ip.Legal() && tcp.Legal() && ip.nextHeader == IPPROTO_TCP && r.Legal()
    requires !OnPort(tcp.srcPort, tcp.dstPort, PORT_HTTPS)
    ensures Dissected(EncodeEthernet(e, ETHERTYPE_IPV6, EncodeIpv6(ip, EncodeTcp(tcp, HttpExtractor.EncodeRequest(r)))) + trailer).upper.app
      == if OnPort(tcp.srcPort, tcp.dstPort, PORT_HTTP)
         then Http(HttpExtractor.HttpInfo(r.verb, r.target, HttpExtractor.HostValue(r.headers))) else NoApp
  {
    hide Dissected, EncodeEthernet, EncodeIpv6, EncodeTcp, TransportOf, AddressText.AddrOfIpv6Text;
    hide HttpExtractor.ParseHttp, HttpExtractor.HostValue, HttpExtractor.METHODS, HttpExtractor.NoCrlf;
    Tcp6FrameRoundTrip(e, ip, tcp, HttpExtractor.EncodeRequest(r), trailer);
    var longer := r.(body := r.body + trailer);
    assert HttpExtractor.EncodeRequest(longer) == HttpExtractor.EncodeRequest(r) + trailer by {
      hide HttpExtractor.EncodeHeaders;
    }
    assert longer.Legal();
    HttpExtractor.HttpRoundTrip(longer);
    HttpExtractor.EncodedLength(longer);
  }

  lemma DnsFromFrame6(e: Ethernet, ip: Ipv6Header, srcPort: nat, dstPort: nat, length: nat, checksum: nat,
                      h: DnsExtractor.DnsHeader, labels: DnsExtractor.Labels, qtype: nat, qclass: nat, rest: Bytes, trailer: Bytes)
    requires e.Legal() && ip.Legal() && ip.nextHeader == IPPROTO_UDP
    requires srcPort < 0x1_0000 && dstPort < 0x1_0000 && length < 0x1_0000 && checksum < 0x1_0000
    requires OnPort(srcPort, dstPort, PORT_DNS)
    requires h.Legal() && DnsExtractor.LegalName(labels) && qtype < 0x1_0000 && qclass < 0x1_0000
    ensures var m := DnsExtractor.EncodeMessage(h, labels, qtype, qclass, rest);
      var info := Dissected(EncodeEthernet(e, ETHERTYPE_IPV6, EncodeIpv6(ip, EncodeUdp(srcPort, dstPort, length, checksum, m))) + trailer);
      && info.valid
      && info.upper.transport == Udp(srcPort, dstPort)
      && info.upper.app == Dns(DnsExtractor.DnsInfo(DnsExtractor.Join(labels), qtype, h.flagsHi >= 0x80))
  {
    hide Dissected, DissectedIpv6, UpperOf4, UpperOf6, EncodeEthernet, EncodeIpv6, EncodeUdp, AddressText.FormatIpv6;
    var m := DnsExtractor.EncodeMessage(h, labels, qtype, qclass, rest);
    MessageAppend(h, labels, qtype, qclass, rest, trailer);
    hide DnsExtractor.EncodeMessage, DnsExtractor.Join;
    var m' := DnsExtractor.EncodeMessage(h, labels, qtype, qclass, rest + trailer);
    UdpAppend(srcPort, dstPort, length, checksum, m, trailer);
    Ipv6Append(ip, EncodeUdp(srcPort, dstPort, length, checksum, m), trailer);
    EthernetAppend(e, ETHERTYPE_IPV6, EncodeIpv6(ip, EncodeUdp(srcPort, dstPort, length, checksum, m)), trailer);
    var s := EncodeUdp(srcPort, dstPort, length, checksum, m');
    EthernetRoundTrip(e, ETHERTYPE_IPV6, EncodeIpv6(ip, s));
    Ipv6LayerRoundTrip(LinkInfo(e.dstMac, e.srcMac, ETHERTYPE_IPV6), ip, s);
    DnsFromUpper(srcPort, dstPort, length, checksum, h, labels, qtype, qclass, rest + trailer);
  }
}
