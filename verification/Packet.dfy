/**
 Wire codec of fake-tcp/src/packet.rs: the builder and the parser of
 IPv4/IPv6 packets that carry one TCP segment (section 3.1 of RFC 9293,
 section 3.1 of RFC 791, sections 3 and 8.1 of RFC 8200).
 */
module Packet {
  import opened Bytes
  import opened InetChecksum

  const IPV4_HEADER_LEN := 20
  const IPV6_HEADER_LEN := 40
  const TCP_HEADER_LEN := 20
  const MAX_PACKET_LEN := 1500
  const TCP: byte := 6

  const SYN: byte := 0x02
  const RST: byte := 0x04
  const ACK: byte := 0x10
  const SYN_ACK: byte := 0x12
  const RST_ACK: byte := 0x14

  type Ip4 = s: seq<byte> | |s| == 4 witness [0, 0, 0, 0]
  type Ip6 = s: seq<byte> | |s| == 16 witness [0, 0, 0, 0, 0, 0, 0, 0, 0, 0, 0, 0, 0, 0, 0, 0]

  datatype SocketAddr =
    | V4(ip4: Ip4, port: u16)
    | V6(ip6: Ip6, port: u16, flowInfo: u32, scopeId: u32)

  /** What `SocketAddr::new(ip, port)` rebuilds from an address on the wire:
      the flow info and scope id of an IPv6 address are not carried. */
  function Unscoped(a: SocketAddr): SocketAddr {
    if a.V4? then a else V6(a.ip6, a.port, 0, 0)
  }

  predicate IsUnscoped(a: SocketAddr) {
    a.V6? ==> a.flowInfo == 0 && a.scopeId == 0
  }

  /** One TCP segment together with the addresses of the IP packet around it. */
  datatype Segment = Segment(
    source: SocketAddr,
    destination: SocketAddr,
    seqNo: u32,
    ackNo: u32,
    flags: byte,
    payload: seq<byte>)

  predicate HasSyn(flags: byte) { flags / SYN % 2 == 1 }
  predicate HasRst(flags: byte) { flags / RST % 2 == 1 }

  // ---------------------------------------------------------------- builder

  function TcpHeaderLen(flags: byte): nat {
    TCP_HEADER_LEN + if HasSyn(flags) then 4 else 0
  }

  function TcpLen(s: Segment): nat {
    TcpHeaderLen(s.flags) + |s.payload|
  }

  function IpHeaderLen(a: SocketAddr): nat {
    if a.V4? then IPV4_HEADER_LEN else IPV6_HEADER_LEN
  }

  function PacketLen(s: Segment): nat {
    IpHeaderLen(s.source) + TcpLen(s)
  }

  /** The builder panics on mixed address families and when the length does not
      fit the 16-bit field of the IP header. */
  predicate Buildable(s: Segment) {
    && (s.source.V4? <==> s.destination.V4?)
    && (if s.source.V4? then PacketLen(s) < 0x1_0000 else TcpLen(s) < 0x1_0000)
  }

  /** In terms of the payload: with 20 bytes of TCP header, 4 more on a SYN, and 20
      bytes of IPv4 header, which alone counts in the length field. */
  lemma BuildableExact(s: Segment)
    ensures Buildable(s) <==>
      var tcp := 20 + (if s.flags / 2 % 2 == 1 then 4 else 0) + |s.payload|;
      || (s.source.V4? && s.destination.V4? && 20 + tcp <= 65535)
      || (s.source.V6? && s.destination.V6? && tcp <= 65535)
  {
  }

  function Ipv4Header(source: Ip4, destination: Ip4, totalLen: u16, checksum: u16): (h: seq<byte>)
    ensures |h| == IPV4_HEADER_LEN
  {
    [ 0x45, 0, totalLen / 0x100, totalLen % 0x100,
      0, 0, 0x40, 0,
      64, TCP, checksum / 0x100, checksum % 0x100,
      source[0], source[1], source[2], source[3],
      destination[0], destination[1], destination[2], destination[3] ]
  }

  function Ipv6Header(source: Ip6, destination: Ip6, payloadLen: u16): (h: seq<byte>)
    ensures |h| == IPV6_HEADER_LEN
  {
    [0x60, 0, 0, 0, payloadLen / 0x100, payloadLen % 0x100, TCP, 64] + source + destination
  }

  /** nop, then window scale 14 (kind 3, length 3); only on SYN segments. */
  function Options(flags: byte): (o: seq<byte>)
    ensures |o| == TcpHeaderLen(flags) - TCP_HEADER_LEN
  {
    if HasSyn(flags) then [1, 3, 3, 14] else []
  }

  /** The fixed TCP header up to the checksum field. */
  function TcpHead(s: Segment): (h: seq<byte>)
    ensures |h| == 16
  {
    [ s.source.port / 0x100, s.source.port % 0x100,
      s.destination.port / 0x100, s.destination.port % 0x100 ]
    + Be32(s.seqNo) + Be32(s.ackNo)
    + [TcpHeaderLen(s.flags) / 4 * 0x10, s.flags, 0xff, 0xff]
  }

  /** Urgent field, options, payload: what follows the checksum field. */
  function TcpTail(s: Segment): (t: seq<byte>)
    ensures |t| == TcpLen(s) - 18
  {
    [0, 0] + Options(s.flags) + s.payload
  }

  function TcpBytes(s: Segment, checksum: u16): (t: seq<byte>)
    ensures |t| == TcpLen(s)
  {
    TcpHead(s) + Be16(checksum) + TcpTail(s)
  }

  function Octets(a: SocketAddr): (o: seq<byte>)
    ensures |o| % 2 == 0
  {
    if a.V4? then a.ip4 else a.ip6
  }

  /** Protocol and length words: 16-bit length for IPv4, 32-bit for IPv6. */
  function PseudoTail(v4: bool, len: nat): (p: seq<byte>)
    requires len < 0x1_0000
  {
    if v4 then [0, TCP] + Be16(len) else Be32(len) + [0, 0, 0, TCP]
  }

  function PseudoHeader(s: Segment): (p: seq<byte>)
    requires Buildable(s)
    ensures |p| % 2 == 0
  {
    Octets(s.source) + Octets(s.destination) + PseudoTail(s.source.V4?, TcpLen(s))
  }

  function TcpChecksum(s: Segment): u16
    requires Buildable(s)
  {
    Checksum(PseudoHeader(s) + TcpBytes(s, 0))
  }

  function IpHeader(s: Segment): (h: seq<byte>)
    requires Buildable(s)
    ensures |h| == IpHeaderLen(s.source)
  {
    if s.source.V4? then
      var zeroed := Ipv4Header(s.source.ip4, s.destination.ip4, PacketLen(s), 0);
      Ipv4Header(s.source.ip4, s.destination.ip4, PacketLen(s), Checksum(zeroed))
    else
      Ipv6Header(s.source.ip6, s.destination.ip6, TcpLen(s))
  }

  /** The packet on the wire. */
  function Wire(s: Segment): (w: seq<byte>)
    requires Buildable(s)
    ensures |w| == PacketLen(s)
  {
    IpHeader(s) + TcpBytes(s, TcpChecksum(s))
  }

  method PutBytes(buf: array<byte>, offset: nat, bytes: seq<byte>)
    requires offset + |bytes| <= buf.Length
    modifies buf
    ensures forall i :: 0 <= i < buf.Length ==>
      buf[i] == if offset <= i < offset + |bytes| then bytes[i - offset] else old(buf[i])
  {
    forall i | 0 <= i < |bytes| {
      buf[offset + i] := bytes[i];
    }
  }

  method FillIpv4Header(buf: array<byte>, source: Ip4, destination: Ip4, totalLen: u16)
    requires buf.Length == IPV4_HEADER_LEN
    requires forall i :: 0 <= i < buf.Length ==> buf[i] == 0
    modifies buf
    ensures buf[..] == Ipv4Header(source, destination, totalLen,
                                  Checksum(Ipv4Header(source, destination, totalLen, 0)))
  {
    buf[0] := 4 * 0x10 + IPV4_HEADER_LEN / 4;
    buf[9] := TCP;
    buf[8] := 64;
    PutBytes(buf, 12, source);
    PutBytes(buf, 16, destination);
    PutBytes(buf, 2, Be16(totalLen));
    buf[6] := 2 * 0x20;
    assert buf[..] == Ipv4Header(source, destination, totalLen, 0);
    PutBytes(buf, 10, Be16(Checksum(buf[..])));
  }

  method FillIpv6Header(buf: array<byte>, source: Ip6, destination: Ip6, payloadLen: u16)
    requires buf.Length == IPV6_HEADER_LEN
    requires forall i :: 0 <= i < buf.Length ==> buf[i] == 0
    modifies buf
    ensures buf[..] == Ipv6Header(source, destination, payloadLen)
  {
    buf[0] := 6 * 0x10;
    PutBytes(buf, 4, Be16(payloadLen));
    buf[6] := TCP;
    buf[7] := 64;
    PutBytes(buf, 8, source);
    PutBytes(buf, 24, destination);
  }

  method FillTcpHead(buf: array<byte>, s: Segment)
    requires buf.Length == TcpLen(s)
    requires forall i :: 0 <= i < buf.Length ==> buf[i] == 0
    modifies buf
    ensures buf[..16] == TcpHead(s)
    ensures forall i :: 16 <= i < buf.Length ==> buf[i] == 0
  {
    hide Be32;
    PutBytes(buf, 14, [0xff, 0xff]);
    PutBytes(buf, 0, Be16(s.source.port));
    PutBytes(buf, 2, Be16(s.destination.port));
    PutBytes(buf, 4, Be32(s.seqNo));
    PutBytes(buf, 8, Be32(s.ackNo));
    buf[13] := s.flags;
    buf[12] := TcpHeaderLen(s.flags) / 4 * 0x10;
  }

  /** Writes everything but the checksum, in the order of the setters. */
  method FillTcpFields(buf: array<byte>, s: Segment)
    requires buf.Length == TcpLen(s)
    requires forall i :: 0 <= i < buf.Length ==> buf[i] == 0
    modifies buf
    ensures buf[..] == TcpBytes(s, 0)
  {
    hide TcpHead;
    FillTcpHead(buf, s);
    ghost var head := buf[..16];
    if HasSyn(s.flags) {
      PutBytes(buf, TCP_HEADER_LEN, [1, 3, 3, 14]);
    }
    PutBytes(buf, TcpHeaderLen(s.flags), s.payload);
    assert buf[..16] == head;
    assert buf[16..18] == Be16(0);
    assert buf[18..] == TcpTail(s);
    assert buf[..] == buf[..16] + buf[16..18] + buf[18..];
  }

  /** The accumulator is fed the two addresses, the protocol and length words
      and the segment. Neither length cast truncates. */
  method AccumulateTcpChecksum(s: Segment, tcp: seq<byte>) returns (checksum: u16)
    requires Buildable(s)
    ensures checksum == Checksum(PseudoHeader(s) + tcp)
  {
    hide WideSum, Fold, Octets, Be16, Be32;
    assert TcpLen(s) % 0x1_0000 == TcpLen(s) && Wrap32(TcpLen(s)) == TcpLen(s);
    var sum := WideSum(Octets(s.source));
    sum := sum + WideSum(Octets(s.destination));
    var pseudo: seq<byte>;
    if s.source.V4? {
      pseudo := [0, TCP] + Be16(TcpLen(s) % 0x1_0000);
    } else {
      pseudo := Be32(Wrap32(TcpLen(s))) + [0, 0, 0, TCP];
    }
    assert pseudo == PseudoTail(s.source.V4?, TcpLen(s));
    sum := sum + WideSum(pseudo);
    WideSumConcat(Octets(s.source), Octets(s.destination));
    WideSumConcat(Octets(s.source) + Octets(s.destination), pseudo);
    sum := sum + WideSum(tcp);
    WideSumConcat(PseudoHeader(s), tcp);
    checksum := 0xffff - Fold(sum);
  }

  /** `build_tcp_packet`; `None` stands for the panics the builder can raise. */
  method BuildTcpPacket(local: SocketAddr, remote: SocketAddr, seqNo: u32, ackNo: u32,
                        flags: byte, payload: Option<seq<byte>>)
    returns (packet: Option<seq<byte>>)
    ensures
      var s := Segment(local, remote, seqNo, ackNo, flags, if payload.Some? then payload.value else []);
      && (packet.Some? <==> Buildable(s))
      && (packet.Some? ==> packet.value == Wire(s))
  {
    hide Checksum, Ipv4Header, Ipv6Header, PseudoHeader, TcpHead, TcpTail;
    var s := Segment(local, remote, seqNo, ackNo, flags, if payload.Some? then payload.value else []);
    var totalLen := IpHeaderLen(local) + TcpLen(s);
    var ipBuf := new byte[IpHeaderLen(local)](_ => 0);
    var tcpBuf := new byte[TcpLen(s)](_ => 0);
    match (local, remote) {
      case (V4(localIp, _), V4(remoteIp, _)) =>
        if totalLen >= 0x1_0000 {
          return None;
        }
        FillIpv4Header(ipBuf, localIp, remoteIp, totalLen);
      case (V6(localIp, _, _, _), V6(remoteIp, _, _, _)) =>
        if TcpLen(s) >= 0x1_0000 {
          return None;
        }
        FillIpv6Header(ipBuf, localIp, remoteIp, TcpLen(s));
      case _ =>
        return None;
    }
    FillTcpFields(tcpBuf, s);

    var checksum := AccumulateTcpChecksum(s, tcpBuf[..]);
    PutBytes(tcpBuf, 16, Be16(checksum));
    assert tcpBuf[..] == TcpBytes(s, TcpChecksum(s));
    packet := Some(ipBuf[..] + tcpBuf[..]);
  }

  /** What a receiver puts before the segment it checks, taken from the packet it
      got: both addresses, the protocol, and the length of the rest (section 3.1 of
      RFC 9293, section 8.1 of RFC 8200). */
  function ReceivedPseudoHeader(w: seq<byte>): seq<byte>
    requires if w != [] && w[0] / 0x10 == 4 then 20 <= |w| < 20 + 0x1_0000 else 40 <= |w| < 40 + 0x1_0000
  {
    if w[0] / 0x10 == 4 then w[12..20] + [0, 6] + Be16(|w| - 20)
    else w[8..40] + Be32(|w| - 40) + [0, 0, 0, 6]
  }

  lemma AddressesInHeader(s: Segment)
    requires Buildable(s)
    ensures var h := IpHeader(s);
      if s.source.V4? then h[0] / 0x10 == 4 && h[12..20] == s.source.ip4 + s.destination.ip4
      else h[0] / 0x10 == 6 && h[8..40] == s.source.ip6 + s.destination.ip6
  {
    hide Checksum;
    if s.source.V4? {
      var from: seq<byte>, to: seq<byte> := s.source.ip4, s.destination.ip4;
      assert from + to == [from[0], from[1], from[2], from[3], to[0], to[1], to[2], to[3]];
    }
  }

  /** The builder's accumulator was fed what the receiver will put there. */
  lemma PseudoHeaderReceived(s: Segment)
    requires Buildable(s)
    ensures Wire(s)[0] / 0x10 == (if s.source.V4? then 4 else 6)
    ensures PseudoHeader(s) == ReceivedPseudoHeader(Wire(s))
  {
    AddressesInHeader(s);
    hide TcpBytes, TcpChecksum, IpHeader, Be16, Be32;
    var w := Wire(s);
    if s.source.V4? {
      assert w[12..20] == IpHeader(s)[12..20];
      assert s.source.ip4 + s.destination.ip4 + ([0, TCP] + Be16(TcpLen(s)))
          == s.source.ip4 + s.destination.ip4 + [0, 6] + Be16(TcpLen(s));
    } else {
      assert w[8..40] == IpHeader(s)[8..40];
      assert s.source.ip6 + s.destination.ip6 + (Be32(TcpLen(s)) + [0, 0, 0, TCP])
          == s.source.ip6 + s.destination.ip6 + Be32(TcpLen(s)) + [0, 0, 0, 6];
    }
  }

  lemma SegmentSumValid(s: Segment)
    requires Buildable(s)
    ensures Valid(PseudoHeader(s) + TcpBytes(s, TcpChecksum(s)))
  {
    hide PseudoHeader, TcpHead, TcpTail, Be16, Valid, Checksum;
    var before := PseudoHeader(s) + TcpHead(s);
    var c := TcpChecksum(s);
    assert PseudoHeader(s) + TcpBytes(s, 0) == before + Be16(0) + TcpTail(s);
    assert PseudoHeader(s) + TcpBytes(s, c) == before + Be16(c) + TcpTail(s);
    ChecksumValidates(before, TcpTail(s));
  }

  /** Every built packet passes the receiver's check over the addresses and the
      length found in the packet and the segment itself. */
  lemma TcpChecksumValid(s: Segment)
    requires Buildable(s)
    ensures Wire(s)[0] / 0x10 == (if s.source.V4? then 4 else 6)
    ensures Valid(ReceivedPseudoHeader(Wire(s)) + Wire(s)[IpHeaderLen(s.source)..])
  {
    PseudoHeaderReceived(s);
    SegmentSumValid(s);
    hide PseudoHeader, ReceivedPseudoHeader, TcpBytes, TcpChecksum, Valid, IpHeader;
    assert Wire(s)[IpHeaderLen(s.source)..] == TcpBytes(s, TcpChecksum(s));
  }

  /** The same with every byte of the receiver's pseudo-header written out. */
  lemma WireChecksumValid(w: seq<byte>, s: Segment)
    requires Buildable(s) && w == Wire(s)
    ensures s.source.V4? ==> Valid(w[12..20] + [0, 6] + Be16(|w| - 20) + w[20..])
    ensures s.source.V6? ==> Valid(w[8..40] + Be32(|w| - 40) + [0, 0, 0, 6] + w[40..])
  {
    hide Valid, Wire, Be16, Be32;
    TcpChecksumValid(s);
  }

  /** Every built IPv4 header passes the router's header check. */
  lemma Ipv4ChecksumValid(s: Segment)
    requires Buildable(s) && s.source.V4?
    ensures Valid(Wire(s)[..IPV4_HEADER_LEN])
  {
    var zeroed := Ipv4Header(s.source.ip4, s.destination.ip4, PacketLen(s), 0);
    var c := Checksum(zeroed);
    var h := Ipv4Header(s.source.ip4, s.destination.ip4, PacketLen(s), c);
    hide Valid, Checksum, TcpBytes;
    assert zeroed == zeroed[..10] + Be16(0) + zeroed[12..];
    assert h == zeroed[..10] + Be16(c) + zeroed[12..];
    assert Wire(s)[..IPV4_HEADER_LEN] == h;
    ChecksumValidates(zeroed[..10], zeroed[12..]);
  }

  /** The IPv4 header of a built packet, byte by byte, but for its checksum. */
  lemma Ipv4HeaderLayout(s: Segment, h: seq<byte>)
    requires Buildable(s) && s.source.V4? && h == Wire(s)[..20]
    ensures h[0] == 0x45 && h[1] == 0 && Pair(h[2], h[3]) == |Wire(s)| && h[4] == 0 && h[5] == 0 && h[6] == 0x40 && h[7] == 0
    ensures h[8] == 64 && h[9] == 6 && h[12..16] == s.source.ip4 && h[16..20] == s.destination.ip4
  {
    hide TcpBytes, TcpChecksum, Checksum;
    assert h == IpHeader(s);
    var from, to := s.source.ip4, s.destination.ip4;
    assert from == [from[0], from[1], from[2], from[3]] && to == [to[0], to[1], to[2], to[3]];
    assert h[12..16] == [h[12], h[13], h[14], h[15]] && h[16..20] == [h[16], h[17], h[18], h[19]];
  }

  /** The IPv6 header of a built packet, byte by byte. */
  lemma Ipv6HeaderLayout(s: Segment, h: seq<byte>)
    requires Buildable(s) && s.source.V6? && h == Wire(s)[..40]
    ensures h[0] == 0x60 && h[1] == 0 && h[2] == 0 && h[3] == 0 && Pair(h[4], h[5]) == |Wire(s)| - 40 && h[6] == 6 && h[7] == 64
    ensures h[8..24] == s.source.ip6 && h[24..40] == s.destination.ip6
  {
    hide TcpBytes, TcpChecksum, Checksum;
    assert h == IpHeader(s);
  }

  lemma TcpHeadLayout(s: Segment, h: seq<byte>, syn: bool)
    requires h == TcpHead(s) && syn == (s.flags / 2 % 2 == 1)
    ensures Pair(h[0], h[1]) == s.source.port && Pair(h[2], h[3]) == s.destination.port
    ensures Quad(h[4], h[5], h[6], h[7]) == s.seqNo && Quad(h[8], h[9], h[10], h[11]) == s.ackNo
    ensures h[12] == (if syn then 0x60 else 0x50) && h[13] == s.flags && h[14] == 0xff && h[15] == 0xff
  {
    Be32Weights(s.seqNo);
    Be32Weights(s.ackNo);
    hide Be32, Quad;
    assert h[4..8] == Be32(s.seqNo) && h[8..12] == Be32(s.ackNo);
    assert h[4] == h[4..8][0] && h[5] == h[4..8][1] && h[6] == h[4..8][2] && h[7] == h[4..8][3];
    assert h[8] == h[8..12][0] && h[9] == h[8..12][1] && h[10] == h[8..12][2] && h[11] == h[8..12][3];
  }

  lemma SegmentLayout(s: Segment, checksum: u16, t: seq<byte>, syn: bool)
    requires t == TcpBytes(s, checksum) && syn == (s.flags / 2 % 2 == 1)
    ensures |t| == (if syn then 24 else 20) + |s.payload|
    ensures Pair(t[0], t[1]) == s.source.port && Pair(t[2], t[3]) == s.destination.port
    ensures Quad(t[4], t[5], t[6], t[7]) == s.seqNo && Quad(t[8], t[9], t[10], t[11]) == s.ackNo
    ensures t[12] == (if syn then 0x60 else 0x50) && t[13] == s.flags
    ensures t[14] == 0xff && t[15] == 0xff && t[18] == 0 && t[19] == 0
    ensures t[20..] == (if syn then [1, 3, 3, 14] else []) + s.payload
  {
    hide TcpHead, Be16, Quad, Pair;
    TcpHeadLayout(s, TcpHead(s), syn);
    assert forall i :: 0 <= i < 16 ==> t[i] == TcpHead(s)[i];
    assert t[18..] == TcpTail(s);
    assert t[18] == TcpTail(s)[0] && t[19] == TcpTail(s)[1];
    assert t[20..] == TcpTail(s)[2..];
  }

  /** Its TCP header: ports and numbers with the high byte first, the length in
      words, the flags, a full window, no urgent data, and on SYN segments the
      options nop and window scale 14; then the payload. */
  lemma TcpHeaderLayout(s: Segment, t: seq<byte>, syn: bool)
    requires Buildable(s) && t == Wire(s)[IpHeaderLen(s.source)..] && syn == (s.flags / 2 % 2 == 1)
    ensures |t| == (if syn then 24 else 20) + |s.payload|
    ensures Pair(t[0], t[1]) == s.source.port && Pair(t[2], t[3]) == s.destination.port
    ensures Quad(t[4], t[5], t[6], t[7]) == s.seqNo && Quad(t[8], t[9], t[10], t[11]) == s.ackNo
    ensures t[12] == (if syn then 0x60 else 0x50) && t[13] == s.flags
    ensures t[14] == 0xff && t[15] == 0xff && t[18] == 0 && t[19] == 0
    ensures t[20..] == (if syn then [1, 3, 3, 14] else []) + s.payload
  {
    hide TcpChecksum, IpHeader, TcpBytes, Quad, Pair;
    assert t == TcpBytes(s, TcpChecksum(s));
    SegmentLayout(s, TcpChecksum(s), t, syn);
  }

  lemma Be32Weights(n: u32)
    ensures var b := Be32(n); Quad(b[0], b[1], b[2], b[3]) == n
  {
  }

  // ----------------------------------------------------------------- parser

  /** `Crash` is the panic of an out-of-range index or of an `unwrap` on a
      buffer too short for a header view. */
  datatype ParseResult = Crash | NotTcp | Parsed(segment: Segment)

  /** The view of a TCP segment: payload starts after the options, if any. */
  function TcpView(source: SocketAddr, destination: SocketAddr, t: seq<byte>): Segment
    requires |t| >= TCP_HEADER_LEN
    requires source.port == 0 && destination.port == 0
  {
    var words: nat := t[12] / 0x10;
    var start := TCP_HEADER_LEN + if words > 5 then words * 4 - TCP_HEADER_LEN else 0;
    Segment(source.(port := FromBe16(t[0..2])),
            destination.(port := FromBe16(t[2..4])),
            FromBe32(t[4..8]),
            FromBe32(t[8..12]),
            t[13],
            if |t| <= start then [] else t[start..])
  }

  function ParseIpPacket(buf: seq<byte>): ParseResult {
    if |buf| == 0 then Crash
    else if buf[0] / 0x10 == 4 then
      if |buf| < IPV4_HEADER_LEN then Crash
      else if buf[9] != TCP then NotTcp
      else if |buf| < IPV4_HEADER_LEN + TCP_HEADER_LEN then Crash
      else Parsed(TcpView(V4(buf[12..16], 0), V4(buf[16..20], 0), buf[IPV4_HEADER_LEN..]))
    else if buf[0] / 0x10 == 6 then
      if |buf| < IPV6_HEADER_LEN then Crash
      else if buf[6] != TCP then NotTcp
      else if |buf| < IPV6_HEADER_LEN + TCP_HEADER_LEN then Crash
      else Parsed(TcpView(V6(buf[8..24], 0, 0, 0), V6(buf[24..40], 0, 0, 0), buf[IPV6_HEADER_LEN..]))
    else NotTcp
  }

  function UnscopedSegment(s: Segment): Segment {
    s.(source := Unscoped(s.source), destination := Unscoped(s.destination))
  }

  lemma TcpFieldsOfBytes(s: Segment, c: u16)
    ensures var t := TcpBytes(s, c);
      && t[0..2] == Be16(s.source.port) && t[2..4] == Be16(s.destination.port)
      && t[4..8] == Be32(s.seqNo) && t[8..12] == Be32(s.ackNo)
      && t[12] == TcpHeaderLen(s.flags) / 4 * 0x10 && t[13] == s.flags
      && t[TcpHeaderLen(s.flags)..] == s.payload
  {
    hide Be32;
    var t := TcpBytes(s, c);
    var h := TcpHead(s);
    assert t[..16] == h;
    assert t[4..8] == h[4..8] == Be32(s.seqNo);
    assert t[8..12] == h[8..12] == Be32(s.ackNo);
    assert t[18..] == TcpTail(s);
    assert t[TcpHeaderLen(s.flags)..] == TcpTail(s)[TcpHeaderLen(s.flags) - 18..];
  }

  lemma TcpViewOfBytes(s: Segment, c: u16, source: SocketAddr, destination: SocketAddr)
    requires source.port == 0 && destination.port == 0
    ensures TcpView(source, destination, TcpBytes(s, c)) ==
            s.(source := source.(port := s.source.port), destination := destination.(port := s.destination.port))
  {
    TcpFieldsOfBytes(s, c);
    hide TcpBytes, Be16, Be32, FromBe16, FromBe32;
    Be16RoundTrip(s.source.port);
    Be16RoundTrip(s.destination.port);
    Be32RoundTrip(s.seqNo);
    Be32RoundTrip(s.ackNo);
  }

  /** Parsing a built packet gives back addresses, ports, numbers, flags and
      payload; only an IPv6 flow info or scope id is lost. */
  lemma ParseBuilt(s: Segment)
    requires Buildable(s)
    ensures ParseIpPacket(Wire(s)) == Parsed(UnscopedSegment(s))
  {
    hide TcpBytes, TcpView, TcpChecksum, Checksum;
    var w := Wire(s);
    var c := TcpChecksum(s);
    assert w[IpHeaderLen(s.source)..] == TcpBytes(s, c);
    if s.source.V4? {
      assert w[12..16] == s.source.ip4;
      assert w[16..20] == s.destination.ip4;
      TcpViewOfBytes(s, c, V4(s.source.ip4, 0), V4(s.destination.ip4, 0));
    } else {
      assert w[8..24] == s.source.ip6;
      assert w[24..40] == s.destination.ip6;
      TcpViewOfBytes(s, c, V6(s.source.ip6, 0, 0, 0), V6(s.destination.ip6, 0, 0, 0));
    }
  }

  /** The version of an IP packet, and the length its header is taken to have. */
  function Version(buf: seq<byte>): int { if buf == [] then 0 else buf[0] / 16 }

  /** What the parser takes: exactly the buffers of version 4 or 6 with protocol TCP
      and room for both headers; it refuses other protocols and versions and panics
      on buffers that are empty or end within a header it looks at. */
  lemma ParseTakes(buf: seq<byte>)
    ensures ParseIpPacket(buf).Parsed? <==>
      || (Version(buf) == 4 && |buf| >= 40 && buf[9] == 6)
      || (Version(buf) == 6 && |buf| >= 60 && buf[6] == 6)
    ensures ParseIpPacket(buf).Crash? <==>
      || buf == []
      || (Version(buf) == 4 && (|buf| < 20 || (|buf| < 40 && buf[9] == 6)))
      || (Version(buf) == 6 && (|buf| < 40 || (|buf| < 60 && buf[6] == 6)))
  {
  }

  /** Where it reads the fields: at the places of the RFCs, and the payload after
      the options the TCP header announces. */
  lemma ParseReads(buf: seq<byte>, t: seq<byte>, p: Segment)
    requires ParseIpPacket(buf) == Parsed(p) && t == buf[if Version(buf) == 4 then 20 else 40..]
    ensures |t| >= 20
    ensures Version(buf) == 4 ==>
      p.source == V4(buf[12..16], p.source.port) && p.destination == V4(buf[16..20], p.destination.port)
    ensures Version(buf) == 6 ==>
      p.source == V6(buf[8..24], p.source.port, 0, 0) && p.destination == V6(buf[24..40], p.destination.port, 0, 0)
    ensures p.source.port == Pair(t[0], t[1]) && p.destination.port == Pair(t[2], t[3])
    ensures p.seqNo == Quad(t[4], t[5], t[6], t[7]) && p.ackNo == Quad(t[8], t[9], t[10], t[11]) && p.flags == t[13]
    ensures t[12] / 16 <= 5 ==> p.payload == t[20..]
    ensures t[12] / 16 > 5 ==> p.payload == if |t| <= t[12] / 16 * 4 then [] else t[t[12] / 16 * 4..]
  {
    Weights16(Big, t[0..2]);
    Weights16(Big, t[2..4]);
    Weights32(Big, t[4..8]);
    Weights32(Big, t[8..12]);
  }

  /** Two built packets with the same bytes carry the same segment. */
  lemma WireInjective(s: Segment, t: Segment)
    requires Buildable(s) && Buildable(t) && Wire(s) == Wire(t)
    ensures UnscopedSegment(s) == UnscopedSegment(t)
  {
    ParseBuilt(s);
    ParseBuilt(t);
  }
}
