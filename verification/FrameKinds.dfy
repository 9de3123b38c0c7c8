/** Every kind of frame: what the dissector makes of datagrams, ICMP, ARP and the rest, and when it calls a
    frame valid or truncated, by the bytes of the frame. */
module FrameKinds {
  import opened NetTypes
  import opened Frames
  import AddressText
  import DnsExtractor

  // ---------------------------------------------------------------- what follows the network header

  // A frame over IPv4 with any payload of the packet: trailing bytes are part of it.
  lemma Ipv4FrameRoundTrip(e: Ethernet, ip: Ipv4Header, rest: Bytes, trailer: Bytes)
    requires e.Legal() && ip.Legal()
    ensures Dissected(EncodeEthernet(e, 0x0800, EncodeIpv4(ip, rest)) + trailer)
      == PacketInfo(Some(LinkInfo(e.dstMac, e.srcMac, 0x0800)), NetOf4(ip), UpperOf4(ip.proto, rest + trailer), true)
  {
    hide Dissected, DissectedIpv4, UpperOf4, EncodeEthernet, EncodeIpv4, NetOf4;
    Ipv4Append(ip, rest, trailer);
    EthernetAppend(e, 0x0800, EncodeIpv4(ip, rest), trailer);
    EthernetRoundTrip(e, 0x0800, EncodeIpv4(ip, rest + trailer));
    Ipv4LayerRoundTrip(LinkInfo(e.dstMac, e.srcMac, 0x0800), ip, rest + trailer);
  }

  lemma Ipv6FrameRoundTrip(e: Ethernet, ip: Ipv6Header, rest: Bytes, trailer: Bytes)
    requires e.Legal() && ip.Legal()
    ensures Dissected(EncodeEthernet(e, 0x86DD, EncodeIpv6(ip, rest)) + trailer)
      == PacketInfo(Some(LinkInfo(e.dstMac, e.srcMac, 0x86DD)), NetOf6(ip), UpperOf6(ip.nextHeader, rest + trailer), true)
  {
    hide Dissected, DissectedIpv6, UpperOf6, EncodeEthernet, EncodeIpv6, AddressText.FormatIpv6;
    Ipv6Append(ip, rest, trailer);
    EthernetAppend(e, 0x86DD, EncodeIpv6(ip, rest), trailer);
    EthernetRoundTrip(e, 0x86DD, EncodeIpv6(ip, rest + trailer));
    Ipv6LayerRoundTrip(LinkInfo(e.dstMac, e.srcMac, 0x86DD), ip, rest + trailer);
  }

  // What the dissector should report of an IPv6 header.
  function NetOf6(h: Ipv6Header): NetInfo
    requires h.Legal()
  {
    Ip(6, AddressText.FormatIpv6(h.src), AddressText.FormatIpv6(h.dst), h.nextHeader, h.hopLimit,
       (h.payloadLength + 40) % 0x1_0000, false)
  }

  // The first question of a payload, if it has one.
  function Question(p: Bytes): AppInfo {
    match DnsExtractor.ParseDns(p) case None => NoApp case Some(q) => Dns(q)
  }

  // ---------------------------------------------------------------- datagrams

  // Over IPv4 the whole payload of a datagram is handed on, whatever the ports; DNS is looked for on port 53.
  lemma Udp4FrameRoundTrip(e: Ethernet, ip: Ipv4Header, srcPort: nat, dstPort: nat, length: nat, checksum: nat,
                           payload: Bytes, trailer: Bytes)
    requires e.Legal() && ip.Legal() && ip.proto == 17
    requires srcPort < 0x1_0000 && dstPort < 0x1_0000 && length < 0x1_0000 && checksum < 0x1_0000
    ensures Dissected(EncodeEthernet(e, 0x0800, EncodeIpv4(ip, EncodeUdp(srcPort, dstPort, length, checksum, payload))) + trailer)
      == PacketInfo(Some(LinkInfo(e.dstMac, e.srcMac, 0x0800)), NetOf4(ip),
                    Upper(Udp(srcPort, dstPort), payload + trailer,
                          if (srcPort == 53 || dstPort == 53) && payload + trailer != [] then Question(payload + trailer) else NoApp,
                          false),
                    true)
  {
    hide Dissected, EncodeEthernet, EncodeIpv4, EncodeUdp, NetOf4, ParseUdp, ParseTcp, U16, DnsExtractor.ParseDns;
    Ipv4FrameRoundTrip(e, ip, EncodeUdp(srcPort, dstPort, length, checksum, payload), trailer);
    UdpAppend(srcPort, dstPort, length, checksum, payload, trailer);
    UdpRoundTrip(srcPort, dstPort, length, checksum, payload + trailer);
  }

  // Over IPv6 the payload is kept on port 53 only.
  lemma Udp6FrameRoundTrip(e: Ethernet, ip: Ipv6Header, srcPort: nat, dstPort: nat, length: nat, checksum: nat,
                           payload: Bytes, trailer: Bytes)
    requires e.Legal() && ip.Legal() && ip.nextHeader == 17
    requires srcPort < 0x1_0000 && dstPort < 0x1_0000 && length < 0x1_0000 && checksum < 0x1_0000
    ensures Dissected(EncodeEthernet(e, 0x86DD, EncodeIpv6(ip, EncodeUdp(srcPort, dstPort, length, checksum, payload))) + trailer)
      == PacketInfo(Some(LinkInfo(e.dstMac, e.srcMac, 0x86DD)), NetOf6(ip),
                    if (srcPort == 53 || dstPort == 53) && payload + trailer != []
                    then Upper(Udp(srcPort, dstPort), payload + trailer, Question(payload + trailer), false)
                    else Upper(Udp(srcPort, dstPort), [], NoApp, false),
                    true)
  {
    hide Dissected, EncodeEthernet, EncodeIpv6, EncodeUdp, NetOf6, ParseUdp, ParseTcp, U16, DnsExtractor.ParseDns;
    Ipv6FrameRoundTrip(e, ip, EncodeUdp(srcPort, dstPort, length, checksum, payload), trailer);
    UdpAppend(srcPort, dstPort, length, checksum, payload, trailer);
    UdpRoundTrip(srcPort, dstPort, length, checksum, payload + trailer);
  }

  // ---------------------------------------------------------------- DNS over TCP

  // Over IPv4 a segment on port 53 is read as a DNS message from its first byte on; over IPv6 it is not read.
  lemma DnsOverTcp(e: Ethernet, ip: Ipv4Header, ip6: Ipv6Header, tcp: TcpHeader, payload: Bytes)
    requires e.Legal() && ip.Legal() && ip6.Legal() && tcp.Legal() && ip.proto == 6 && ip6.nextHeader == 6 && payload != []
    requires tcp.srcPort == 53 || tcp.dstPort == 53
    ensures Dissected(EncodeEthernet(e, 0x0800, EncodeIpv4(ip, EncodeTcp(tcp, payload)))).upper
      == Upper(TransportOf(tcp), payload, Question(payload), false)
    ensures tcp.srcPort !in {80, 443} && tcp.dstPort !in {80, 443} ==>
      Dissected(EncodeEthernet(e, 0x86DD, EncodeIpv6(ip6, EncodeTcp(tcp, payload)))).upper
      == Upper(TransportOf(tcp), payload, NoApp, false)
  {
    hide Dissected, EncodeEthernet, EncodeIpv4, EncodeIpv6, EncodeTcp, TransportOf, NetOf4, DnsExtractor.ParseDns;
    hide AddressText.AddrOfIpv6Text, AddressText.ParseIpv4;
    Tcp4FrameRoundTrip(e, ip, tcp, payload, []);
    Tcp6FrameRoundTrip(e, ip6, tcp, payload, []);
    assert payload + [] == payload;
    var f4, f6 := EncodeEthernet(e, 0x0800, EncodeIpv4(ip, EncodeTcp(tcp, payload))),
                  EncodeEthernet(e, 0x86DD, EncodeIpv6(ip6, EncodeTcp(tcp, payload)));
    assert f4 + [] == f4 && f6 + [] == f6;
  }

  // ---------------------------------------------------------------- no ports

  lemma Icmp4Frame(e: Ethernet, ip: Ipv4Header, rest: Bytes)
    requires e.Legal() && ip.Legal() && ip.proto !in {6, 17}
    ensures Dissected(EncodeEthernet(e, 0x0800, EncodeIpv4(ip, rest)))
      == PacketInfo(Some(LinkInfo(e.dstMac, e.srcMac, 0x0800)), NetOf4(ip),
                    Upper(if ip.proto == 1 then Icmp else OtherTransport, [], NoApp, false), true)
  {
    hide Dissected, EncodeEthernet, EncodeIpv4, NetOf4;
    Ipv4FrameRoundTrip(e, ip, rest, []);
    assert EncodeEthernet(e, 0x0800, EncodeIpv4(ip, rest)) + [] == EncodeEthernet(e, 0x0800, EncodeIpv4(ip, rest));
  }

  // Over IPv6 other protocols leave no trace.
  lemma Icmp6Frame(e: Ethernet, ip: Ipv6Header, rest: Bytes)
    requires e.Legal() && ip.Legal() && ip.nextHeader !in {6, 17}
    ensures Dissected(EncodeEthernet(e, 0x86DD, EncodeIpv6(ip, rest)))
      == PacketInfo(Some(LinkInfo(e.dstMac, e.srcMac, 0x86DD)), NetOf6(ip),
                    Upper(if ip.nextHeader == 58 then Icmp else NoTransport, [], NoApp, false), true)
  {
    hide Dissected, EncodeEthernet, EncodeIpv6, NetOf6;
    Ipv6FrameRoundTrip(e, ip, rest, []);
    assert EncodeEthernet(e, 0x86DD, EncodeIpv6(ip, rest)) + [] == EncodeEthernet(e, 0x86DD, EncodeIpv6(ip, rest));
  }

  // ARP is valid and looked into no further; any other type, but that of a tag, is not even valid.
  lemma OtherFrame(e: Ethernet, etherType: nat, rest: Bytes)
    requires e.Legal() && etherType < 0x1_0000 && etherType !in {0x0800, 0x86DD, 0x8100}
    ensures Dissected(EncodeEthernet(e, etherType, rest))
      == PacketInfo(Some(LinkInfo(e.dstMac, e.srcMac, etherType)), if etherType == 0x0806 then Arp else NoNet,
                    Upper(NoTransport, [], NoApp, false), etherType == 0x0806)
  {
    hide Dissected, EncodeEthernet;
    EthernetRoundTrip(e, etherType, rest);
  }

  // ---------------------------------------------------------------- valid and truncated

  // Two bytes of a frame as a number.
  function Word(f: Bytes, at: nat): nat
    requires at + 2 <= |f|
  {
    var hi: nat, lo: nat := f[at], f[at + 1];
    hi * 256 + lo
  }

  ghost predicate Tagged(f: Bytes) {
    |f| >= 14 && Word(f, 12) == 0x8100
  }

  // Where the network header begins, and the type that says which one it is.
  function NetAt(f: Bytes): nat {
    if |f| >= 14 && Word(f, 12) == 0x8100 then 18 else 14
  }

  // The type field is there and says so.
  ghost predicate HasType(f: Bytes, etherType: nat) {
    NetAt(f) <= |f| && Word(f, NetAt(f) - 2) == etherType
  }

  // A complete IPv4 header with room for its options.
  ghost predicate FullIpv4(f: Bytes) {
    var at := NetAt(f);
    && HasType(f, 0x0800) && at + 20 <= |f| && f[at] / 16 == 4
    && f[at] % 16 >= 5 && at + 4 * (f[at] % 16) <= |f|
  }

  ghost predicate FullIpv6(f: Bytes) {
    var at := NetAt(f);
    HasType(f, 0x86DD) && at + 40 <= |f| && f[at] / 16 == 6
  }

  // Where the transport header of such an IPv4 packet begins.
  function TransportAt(f: Bytes): nat
    requires FullIpv4(f)
  {
    NetAt(f) + 4 * (f[NetAt(f)] % 16)
  }

  ghost predicate FullTcp(f: Bytes, at: nat) {
    at + 20 <= |f| && f[at + 12] / 16 >= 5 && at + 4 * (f[at + 12] / 16) <= |f|
  }

  // A frame is valid exactly when it holds a complete network header of its type.
  lemma ValidIff(f: Bytes)
    ensures Dissected(f).valid <==> FullIpv4(f) || FullIpv6(f) || HasType(f, 0x0806)
  {
    hide UpperOf4, UpperOf6, Ipv4Net, Ipv6Net;
    NetPart(f);
    if NetAt(f) <= |f| {
      var at := NetAt(f);
      assert forall k :: 0 <= k < |f| - at ==> f[at..][k] == f[at + k];
    }
    hide Dissected;
  }

  lemma NetPart(f: Bytes)
    ensures if NetAt(f) <= |f| then
        exists link: LinkInfo :: link.etherType == Word(f, NetAt(f) - 2) && Dissected(f) == DissectedNet(link, f[NetAt(f)..])
      else Dissected(f).net == NoNet && !Dissected(f).valid && (Dissected(f).upper.truncated <==> f != [])
  {
    hide DissectedNet;
    if |f| >= 14 {
      var outer := LinkInfo(f[..6], f[6..12], U16At(f, 12));
      assert U16At(f, 12) == Word(f, 12);
      if NetAt(f) == 14 {
        assert Dissected(f) == DissectedNet(outer, f[14..]);
      } else if |f| >= 18 {
        var inner := outer.(etherType := U16At(f, 16));
        assert inner.etherType == Word(f, 16);
        assert Dissected(f) == DissectedNet(inner, f[18..]);
      }
    }
  }

  // It is truncated exactly when a header it should hold does not fit, or claims too small a size: the
  // Ethernet header, the tag, the network header, or over IPv4 the header of TCP or UDP.
  lemma TruncatedIff(f: Bytes)
    ensures Dissected(f).upper.truncated <==>
      || 0 < |f| < 14
      || (Tagged(f) && |f| < 18)
      || (HasType(f, 0x0800) && |f| < NetAt(f) + 20)
      || (HasType(f, 0x0800) && |f| >= NetAt(f) + 20 && f[NetAt(f)] / 16 == 4 && !FullIpv4(f))
      || (FullIpv4(f) && f[NetAt(f) + 9] == 6 && !FullTcp(f, TransportAt(f)))
      || (FullIpv4(f) && f[NetAt(f) + 9] == 17 && |f| < TransportAt(f) + 8)
      || (HasType(f, 0x86DD) && |f| < NetAt(f) + 40)
  {
    hide Ipv4Net, Ipv6Net, UpperOf4, UpperOf6, DissectedNet, Dissected;
    NetPart(f);
    var at := NetAt(f);
    if at <= |f| {
      var link: LinkInfo :| link.etherType == Word(f, at - 2) && Dissected(f) == DissectedNet(link, f[at..]);
      NetTruncated(link, f[at..]);
      assert forall k :: 0 <= k < |f| - at ==> f[at..][k] == f[at + k];
      if FullIpv4(f) {
        assert f[at..][TransportAt(f) - at..] == f[TransportAt(f)..];
        UpperTruncated(f[at + 9], f[TransportAt(f)..]);
        assert forall k :: 0 <= k < |f| - TransportAt(f) ==> f[TransportAt(f)..][k] == f[TransportAt(f) + k];
      }
    }
  }

  lemma NetTruncated(link: LinkInfo, s: Bytes)
    ensures DissectedNet(link, s).upper.truncated <==>
      if link.etherType == 0x0800 then
        || |s| < 20
        || (s[0] / 16 == 4 && (s[0] % 16 < 5 || |s| < 4 * (s[0] % 16)
            || UpperOf4(s[9], s[4 * (s[0] % 16)..]).truncated))
      else link.etherType == 0x86DD && |s| < 40
  {
    hide Ipv4Net, Ipv6Net, UpperOf4;
    if |s| >= 40 {
      Upper6IsWhole(s[6], s[40..]);
    }
  }

  lemma Upper6IsWhole(proto: Byte, s: Bytes)
    ensures !UpperOf6(proto, s).truncated
  {
  }

  lemma UpperTruncated(proto: Byte, s: Bytes)
    ensures UpperOf4(proto, s).truncated <==>
      || (proto == 6 && (|s| < 20 || s[12] / 16 < 5 || |s| < 4 * (s[12] / 16)))
      || (proto == 17 && |s| < 8)
  {
    hide AppOverTcp4, AppOverUdp, U16, AddressText.FromOctets;
  }
}
