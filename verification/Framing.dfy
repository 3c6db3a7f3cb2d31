/**
 Link framing and IP normalisation of phantun-client-mac/src/macos_packet.rs:
 from a captured frame to the IP packet inside it, and from a built packet to
 what the raw sockets of Darwin expect.
 */
module Framing {
  import opened Bytes
  import opened Packet

  const AF_INET: u32 := 2
  const AF_INET6: u32 := 30

  datatype LinkType = Null | Ethernet | Raw

  // ---------------------------------------------------- IP normalisation

  /** Keeps the length the IP header announces and drops link padding. */
  function NormalizeIpPacket(p: seq<byte>): Option<seq<byte>> {
    if |p| == 0 then None
    else if p[0] / 0x10 == 4 then
      if |p| < 40 || p[9] != TCP || p[0] % 0x10 != 5 then None
      else
        var totalLen: int := FromBe16(p[2..4]);
        var fragmentOffset: int := FromBe16(p[6..8]) % 0x2000;
        if totalLen < 40 || totalLen > |p| || fragmentOffset != 0 then None
        else Some(p[..totalLen])
    else if p[0] / 0x10 == 6 then
      if |p| < 60 || p[6] != TCP then None
      else
        var payloadLen: int := FromBe16(p[4..6]);
        if payloadLen < 20 || 40 + payloadLen > |p| then None
        else Some(p[..40 + payloadLen])
    else None
  }

  /** An unfragmented TCP packet, without IPv4 options, whose own length field
      covers exactly its bytes. */
  predicate IsTcpPacket(q: seq<byte>) {
    || (|q| >= 40 && q[0] == 0x45 && q[9] == TCP && FromBe16(q[2..4]) == |q| && FromBe16(q[6..8]) % 0x2000 == 0)
    || (|q| >= 60 && q[0] / 0x10 == 6 && q[6] == TCP && FromBe16(q[4..6]) + 40 == |q|)
  }

  /** Normalisation yields the one prefix that is a complete TCP packet, if any. */
  lemma NormalizeExact(p: seq<byte>, q: seq<byte>)
    ensures NormalizeIpPacket(p) == Some(q) <==> IsTcpPacket(q) && q <= p
  {
    if IsTcpPacket(q) && q <= p {
      assert p[2..4] == q[2..4] && p[4..6] == q[4..6] && p[6..8] == q[6..8];
      assert p[..|q|] == q;
    }
    if NormalizeIpPacket(p) == Some(q) {
      assert p[2..4] == q[2..4] && p[4..6] == q[4..6] && p[6..8] == q[6..8];
    }
  }

  lemma BuiltIsTcpPacket(s: Segment)
    requires Buildable(s)
    ensures IsTcpPacket(Wire(s))
  {
    hide TcpBytes, TcpChecksum;
    var w := Wire(s);
    if s.source.V4? {
      assert w[2..4] == Be16(PacketLen(s));
      assert w[6..8] == [0x40, 0];
    } else {
      assert w[4..6] == Be16(TcpLen(s));
    }
  }

  // ---------------------------------------------------------- link framing

  predicate IsVlan(etherType: u16) { etherType == 0x8100 || etherType == 0x88a8 || etherType == 0x9100 }
  predicate IsIp(etherType: u16) { etherType == 0x0800 || etherType == 0x86dd }

  function SkipTags(frame: seq<byte>, offset: nat, etherType: u16): Option<seq<byte>>
    requires offset <= |frame|
    decreases |frame| - offset
  {
    if IsVlan(etherType) then
      if |frame| < offset + 4 then None
      else SkipTags(frame, offset + 4, FromBe16(frame[offset + 2..offset + 4]))
    else if IsIp(etherType) then Some(frame[offset..])
    else None
  }

  function EthernetPayload(frame: seq<byte>): Option<seq<byte>> {
    if |frame| < 14 then None else SkipTags(frame, 14, FromBe16(frame[12..14]))
  }

  /** `ethernet_network_packet`: the loop over stacked VLAN tags. */
  method EthernetNetworkPacket(frame: seq<byte>) returns (packet: Option<seq<byte>>)
    ensures packet == EthernetPayload(frame)
  {
    if |frame| < 14 {
      return None;
    }
    var networkOffset := 14;
    var etherType := FromBe16(frame[12..14]);
    while IsVlan(etherType)
      invariant networkOffset <= |frame|
      invariant SkipTags(frame, networkOffset, etherType) == EthernetPayload(frame)
      decreases |frame| - networkOffset
    {
      if |frame| < networkOffset + 4 {
        return None;
      }
      etherType := FromBe16(frame[networkOffset + 2..networkOffset + 4]);
      networkOffset := networkOffset + 4;
    }
    packet := if IsIp(etherType) then Some(frame[networkOffset..]) else None;
  }

  /** The tag loop looks only at what lies ahead. */
  lemma {:induction false} SkipTagsShift(f: seq<byte>, i: nat, g: seq<byte>, j: nat, etherType: u16)
    requires i <= |f| && j <= |g| && f[i..] == g[j..]
    ensures SkipTags(f, i, etherType) == SkipTags(g, j, etherType)
    decreases |f| - i
  {
    assert |f| - i == |g| - j;
    if IsVlan(etherType) && |f| >= i + 4 {
      assert f[i + 2..i + 4] == f[i..][2..4] == g[j..][2..4] == g[j + 2..j + 4];
      assert f[i + 4..] == f[i..][4..] == g[j..][4..] == g[j + 4..];
      SkipTagsShift(f, i + 4, g, j + 4, FromBe16(f[i + 2..i + 4]));
    }
  }

  /** Frame by frame: after the addresses, the types of IPv4 and IPv6 announce the
      packet, each of the three VLAN types announces two bytes to skip and another
      type field, and any other type is refused. */
  lemma EthernetTypes(addresses: seq<byte>, high: byte, low: byte, rest: seq<byte>)
    requires |addresses| == 12
    ensures var payload := EthernetPayload(addresses + [high, low] + rest);
      if (high == 0x08 && low == 0x00) || (high == 0x86 && low == 0xdd) then payload == Some(rest)
      else if (high == 0x81 && low == 0x00) || (high == 0x88 && low == 0xa8) || (high == 0x91 && low == 0x00)
      then payload == if |rest| < 4 then None else EthernetPayload(addresses + rest[2..])
      else payload == None
  {
    hide SkipTags;
    var frame := addresses + [high, low] + rest;
    assert frame[12..14] == [high, low] && frame[14..] == rest;
    Weights16(Big, [high, low]);
    SkipTagsOnce(frame, 14, FromBe16([high, low]));
    if |rest| >= 4 {
      var shorter := addresses + rest[2..];
      assert frame[16..18] == rest[2..4] == shorter[12..14];
      assert frame[18..] == rest[4..] == shorter[14..];
      SkipTagsShift(frame, 18, shorter, 14, FromBe16(rest[2..4]));
    }
  }

  lemma SkipTagsOnce(frame: seq<byte>, offset: nat, etherType: u16)
    requires offset <= |frame|
    ensures SkipTags(frame, offset, etherType) ==
      if etherType in {0x8100, 0x88a8, 0x9100} then
        if |frame| < offset + 4 then None else SkipTags(frame, offset + 4, FromBe16(frame[offset + 2..offset + 4]))
      else if etherType in {0x0800, 0x86dd} then Some(frame[offset..])
      else None
  {
  }

  lemma ShortFrames(order: ByteOrder, frame: seq<byte>)
    ensures |frame| < 14 ==> LinkPayload(order, Ethernet, frame) == None
    ensures |frame| < 4 ==> LinkPayload(order, Null, frame) == None
    ensures LinkPayload(order, Raw, frame) == Some(frame)
  {
  }

  lemma SmallQuad(a: byte, b: byte, c: byte, d: byte)
    ensures Quad(a, b, c, d) == 2 <==> a == 0 && b == 0 && c == 0 && d == 2
    ensures Quad(a, b, c, d) == 30 <==> a == 0 && b == 0 && c == 0 && d == 30
  {
  }

  /** On a null link the four bytes in front hold family 2 or 30 in the order of
      the host; anything else is refused. */
  lemma NullFamilies(order: ByteOrder, word: seq<byte>, packet: seq<byte>)
    requires |word| == 4
    ensures LinkPayload(order, Null, word + packet) ==
      if word == (if order.Little? then [2, 0, 0, 0] else [0, 0, 0, 2]) || word == (if order.Little? then [30, 0, 0, 0] else [0, 0, 0, 30])
      then Some(packet) else None
  {
    assert (word + packet)[..4] == word && (word + packet)[4..] == packet;
    Weights32(order, word);
    hide FromNe32, Quad;
    if order.Little? {
      SmallQuad(word[3], word[2], word[1], word[0]);
    } else {
      SmallQuad(word[0], word[1], word[2], word[3]);
    }
    assert word == [word[0], word[1], word[2], word[3]];
  }

  function LinkPayload(order: ByteOrder, link: LinkType, frame: seq<byte>): Option<seq<byte>> {
    match link
    case Raw => Some(frame)
    case Null =>
      if |frame| < 4 then None
      else
        var family := FromNe32(order, frame[..4]);
        if family != AF_INET && family != AF_INET6 then None else Some(frame[4..])
    case Ethernet => EthernetPayload(frame)
  }

  function PacketFromLinkFrame(order: ByteOrder, link: LinkType, frame: seq<byte>): Option<seq<byte>> {
    match LinkPayload(order, link, frame)
    case None => None
    case Some(packet) => NormalizeIpPacket(packet)
  }

  // --------------------------------------- grammar of the supported framings

  datatype Tag = Tag(kind: u16, info: seq<byte>)

  /** How a sender may wrap an IP packet on each supported link. */
  datatype Envelope =
    | RawEnvelope
    | NullEnvelope(family: u32)
    | EthernetEnvelope(addresses: seq<byte>, tags: seq<Tag>, etherType: u16)

  predicate ValidTags(tags: seq<Tag>) {
    forall i :: 0 <= i < |tags| ==> IsVlan(tags[i].kind) && |tags[i].info| == 2
  }

  predicate ValidEnvelope(e: Envelope) {
    match e
    case RawEnvelope => true
    case NullEnvelope(family) => family == AF_INET || family == AF_INET6
    case EthernetEnvelope(addresses, tags, etherType) => |addresses| == 12 && ValidTags(tags) && IsIp(etherType)
  }

  function LinkOf(e: Envelope): LinkType {
    match e
    case RawEnvelope => Raw
    case NullEnvelope(_) => Null
    case EthernetEnvelope(_, _, _) => Ethernet
  }

  function TagBytes(tags: seq<Tag>): seq<byte> {
    if tags == [] then [] else Be16(tags[0].kind) + tags[0].info + TagBytes(tags[1..])
  }

  function Enclose(order: ByteOrder, e: Envelope, packet: seq<byte>): seq<byte> {
    match e
    case RawEnvelope => packet
    case NullEnvelope(family) => Ne32(order, family) + packet
    case EthernetEnvelope(addresses, tags, etherType) =>
      addresses + (TagBytes(tags) + Be16(etherType) + packet)
  }

  /** The tag loop, entered just after a type field, skips any stack of tags. */
  lemma {:induction false} SkipTagsUndoes(frame: seq<byte>, offset: nat, tags: seq<Tag>, etherType: u16, packet: seq<byte>)
    requires 2 <= offset <= |frame|
    requires ValidTags(tags) && IsIp(etherType)
    requires frame[offset - 2..] == TagBytes(tags) + Be16(etherType) + packet
    ensures SkipTags(frame, offset, FromBe16(frame[offset - 2..offset])) == Some(packet)
    decreases |tags|
  {
    var rest := frame[offset - 2..];
    assert frame[offset - 2..offset] == rest[..2];
    if tags == [] {
      assert rest == Be16(etherType) + packet;
      assert rest[..2] == Be16(etherType);
      assert frame[offset..] == rest[2..];
    } else {
      var tail := TagBytes(tags[1..]) + Be16(etherType) + packet;
      assert rest == Be16(tags[0].kind) + tags[0].info + tail;
      assert rest[..2] == Be16(tags[0].kind);
      assert frame[offset + 2..] == rest[4..] == tail;
      SkipTagsUndoes(frame, offset + 4, tags[1..], etherType, packet);
    }
  }

  /** Whatever the tag loop accepts is a stack of tags before an IP type field. */
  lemma {:induction false} SkipTagsParses(frame: seq<byte>, offset: nat)
    returns (tags: seq<Tag>, etherType: u16)
    requires 2 <= offset <= |frame|
    requires SkipTags(frame, offset, FromBe16(frame[offset - 2..offset])).Some?
    ensures ValidTags(tags) && IsIp(etherType)
    ensures frame[offset - 2..] ==
            TagBytes(tags) + Be16(etherType) + SkipTags(frame, offset, FromBe16(frame[offset - 2..offset])).value
    decreases |frame| - offset
  {
    var here := frame[offset - 2..offset];
    etherType := FromBe16(here);
    Be16Unique(here);
    assert frame[offset - 2..] == here + frame[offset..];
    if IsVlan(etherType) {
      var kind := etherType;
      var rest;
      rest, etherType := SkipTagsParses(frame, offset + 4);
      tags := [Tag(kind, frame[offset..offset + 2])] + rest;
      assert tags[1..] == rest;
      assert frame[offset..] == frame[offset..offset + 2] + frame[offset + 2..];
    } else {
      tags := [];
      assert TagBytes(tags) + Be16(etherType) == here;
    }
  }

  lemma EncloseUndone(order: ByteOrder, e: Envelope, packet: seq<byte>)
    requires ValidEnvelope(e)
    ensures LinkPayload(order, LinkOf(e), Enclose(order, e, packet)) == Some(packet)
  {
    var frame := Enclose(order, e, packet);
    match e
    case RawEnvelope =>
    case NullEnvelope(family) =>
      assert frame[..4] == Ne32(order, family);
      Ne32RoundTrip(order, family);
    case EthernetEnvelope(addresses, tags, etherType) =>
      assert frame[12..] == TagBytes(tags) + Be16(etherType) + packet;
      SkipTagsUndoes(frame, 14, tags, etherType, packet);
  }

  lemma LinkPayloadParses(order: ByteOrder, link: LinkType, frame: seq<byte>) returns (e: Envelope)
    requires LinkPayload(order, link, frame).Some?
    ensures ValidEnvelope(e) && LinkOf(e) == link
    ensures frame == Enclose(order, e, LinkPayload(order, link, frame).value)
  {
    hide Ne32, FromNe32, FromBe16, Be16, SkipTags;
    match link
    case Raw =>
      e := RawEnvelope;
    case Null =>
      e := NullEnvelope(FromNe32(order, frame[..4]));
      Ne32Unique(order, frame[..4]);
      assert frame == frame[..4] + frame[4..];
    case Ethernet =>
      var tags, etherType := SkipTagsParses(frame, 14);
      e := EthernetEnvelope(frame[..12], tags, etherType);
      assert frame == frame[..12] + frame[12..];
  }

  ghost predicate Encloses(order: ByteOrder, link: LinkType, frame: seq<byte>, e: Envelope, packet: seq<byte>, padding: seq<byte>) {
    ValidEnvelope(e) && LinkOf(e) == link && frame == Enclose(order, e, packet + padding)
  }

  /** `packet_from_link_frame` accepts exactly the frames that wrap a complete
      TCP packet in a supported framing, with any tags and any padding, and
      returns that packet. */
  lemma LinkFrameExact(order: ByteOrder, link: LinkType, frame: seq<byte>, q: seq<byte>)
    ensures PacketFromLinkFrame(order, link, frame) == Some(q) <==>
            IsTcpPacket(q) && exists e, padding :: Encloses(order, link, frame, e, q, padding)
  {
    if PacketFromLinkFrame(order, link, frame) == Some(q) {
      var inner := LinkPayload(order, link, frame).value;
      NormalizeExact(inner, q);
      var e := LinkPayloadParses(order, link, frame);
      assert inner == q + inner[|q|..];
      assert Encloses(order, link, frame, e, q, inner[|q|..]);
    }
    if IsTcpPacket(q) && exists e, padding :: Encloses(order, link, frame, e, q, padding) {
      var e, padding :| Encloses(order, link, frame, e, q, padding);
      EncloseUndone(order, e, q + padding);
      NormalizeExact(q + padding, q);
    }
  }

  /** Any framing of any built packet, padded in any way, is undone exactly. */
  lemma FramingTransparent(order: ByteOrder, e: Envelope, s: Segment, padding: seq<byte>)
    requires ValidEnvelope(e) && Buildable(s)
    ensures PacketFromLinkFrame(order, LinkOf(e), Enclose(order, e, Wire(s) + padding)) == Some(Wire(s))
  {
    BuiltIsTcpPacket(s);
    assert Encloses(order, LinkOf(e), Enclose(order, e, Wire(s) + padding), e, Wire(s), padding);
    LinkFrameExact(order, LinkOf(e), Enclose(order, e, Wire(s) + padding), Wire(s));
  }

  // -------------------------------------------------- outbound conversions

  /** What the raw IPv4 sender accepts: a header that fits and an exact length. */
  predicate RawIpv4Acceptable(p: seq<byte>) {
    && |p| >= 20
    && 20 <= p[0] % 0x10 * 4 <= |p|
    && FromBe16(p[2..4]) == |p|
  }

  /** `macos_raw_ipv4_packet`: overwrites two fields of a copy, in host order. */
  method MacosRawIpv4Packet(order: ByteOrder, packet: seq<byte>) returns (r: Option<seq<byte>>)
    ensures r.Some? <==> RawIpv4Acceptable(packet)
    ensures r.Some? ==> |r.value| == |packet| && DarwinOutput(order, r.value) == packet
    ensures r.Some? ==> FromNe16(order, r.value[2..4]) == |packet|
    ensures r.Some? ==> forall i :: 0 <= i < |packet| && i !in {2, 3, 6, 7} ==> r.value[i] == packet[i]
  {
    if |packet| < 20 {
      return None;
    }
    var headerLen := packet[0] % 0x10 * 4;
    var totalLen := FromBe16(packet[2..4]);
    if headerLen < 20 || headerLen > |packet| || totalLen != |packet| {
      return None;
    }
    var buf := new byte[|packet|](i requires 0 <= i < |packet| => packet[i]);
    PutBytes(buf, 2, Ne16(order, totalLen));
    var fragmentOffset := FromBe16(packet[6..8]);
    PutBytes(buf, 6, Ne16(order, fragmentOffset));
    HostOrderFieldsUndone(order, packet, buf[..]);
    r := Some(buf[..]);
  }

  /** Darwin reads ip_len and ip_off in host order and serialises them. */
  function DarwinOutput(order: ByteOrder, m: seq<byte>): seq<byte>
    requires |m| >= 20
  {
    m[..2] + Be16(FromNe16(order, m[2..4])) + m[4..6] + Be16(FromNe16(order, m[6..8])) + m[8..]
  }

  lemma HostOrderFieldsUndone(order: ByteOrder, p: seq<byte>, m: seq<byte>)
    requires 20 <= |p| == |m|
    requires forall i :: 0 <= i < |p| && i !in {2, 3, 6, 7} ==> m[i] == p[i]
    requires m[2..4] == Ne16(order, FromBe16(p[2..4])) && m[6..8] == Ne16(order, FromBe16(p[6..8]))
    ensures DarwinOutput(order, m) == p
    ensures FromNe16(order, m[2..4]) == FromBe16(p[2..4])
  {
    Ne16RoundTrip(order, FromBe16(p[2..4]));
    Ne16RoundTrip(order, FromBe16(p[6..8]));
    Be16Unique(p[2..4]);
    Be16Unique(p[6..8]);
    assert p == p[..2] + p[2..4] + p[4..6] + p[6..8] + p[8..];
    assert m[..2] == p[..2] && m[4..6] == p[4..6] && m[8..] == p[8..];
  }

  lemma BuiltRawIpv4Acceptable(s: Segment)
    requires Buildable(s) && s.source.V4?
    ensures RawIpv4Acceptable(Wire(s))
  {
    hide TcpBytes, TcpChecksum;
    assert Wire(s)[2..4] == Be16(PacketLen(s));
  }

  /** `ipv6_tcp_payload`: the kernel supplies the IPv6 header. */
  function Ipv6TcpPayload(p: seq<byte>): Option<seq<byte>> {
    if |p| < 60 || p[0] / 0x10 != 6 || p[6] != TCP then None
    else
      var payloadLen: int := FromBe16(p[4..6]);
      if payloadLen < 20 || payloadLen + 40 != |p| then None else Some(p[40..])
  }

  /** The IPv6 sender takes exactly the complete IPv6 TCP packets and passes on what
      follows their header. */
  lemma Ipv6TcpPayloadExact(p: seq<byte>)
    ensures Ipv6TcpPayload(p) ==
      if IsTcpPacket(p) && p[0] / 0x10 == 6 then Some(p[40..]) else None
  {
  }

  /** Some IPv4 header for these addresses and this total length, not a fragment;
      the service type, identification, lifetime and checksum are free. */
  predicate IsKernelHeader4(h: seq<byte>, source: Ip4, destination: Ip4, totalLen: nat) {
    && |h| == 20
    && h[0] == 0x45
    && totalLen < 0x1_0000 && h[2..4] == Be16(totalLen)
    && h[6..8] == [0x40, 0]
    && h[9] == TCP
    && h[12..16] == source
    && h[16..20] == destination
  }

  lemma PrefixSlice(h: seq<byte>, tail: seq<byte>, i: nat, j: nat)
    requires i <= j <= |h|
    ensures (h + tail)[i..j] == h[i..j]
  {
  }

  /** The header the builder writes is one of them. */
  lemma BuiltHeaderIsKernel4(s: Segment)
    requires Buildable(s) && s.source.V4?
    ensures IsKernelHeader4(IpHeader(s), s.source.ip4, s.destination.ip4, PacketLen(s))
  {
    var h := IpHeader(s);
    assert h[2..4] == Be16(PacketLen(s));
    assert h[6..8] == [0x40, 0];
    assert h[12..16] == s.source.ip4;
    assert h[16..20] == s.destination.ip4;
  }

  /** The header under which a built IPv4 packet travels may differ in the free
      fields: under any such header the segment parses to what was sent. */
  lemma Ipv4SegmentPreserved(s: Segment, h: seq<byte>)
    requires Buildable(s) && s.source.V4?
    requires IsKernelHeader4(h, s.source.ip4, s.destination.ip4, PacketLen(s))
    ensures ParseIpPacket(h + Wire(s)[20..]) == Parsed(UnscopedSegment(s))
    ensures IsTcpPacket(h + Wire(s)[20..])
  {
    hide TcpBytes, TcpView, TcpChecksum, IpHeader;
    var tcp := TcpBytes(s, TcpChecksum(s));
    assert Wire(s)[20..] == tcp;
    var k := h + tcp;
    PrefixSlice(h, tcp, 2, 4);
    PrefixSlice(h, tcp, 6, 8);
    PrefixSlice(h, tcp, 12, 16);
    PrefixSlice(h, tcp, 16, 20);
    assert k[20..] == tcp;
    TcpViewOfBytes(s, TcpChecksum(s), V4(s.source.ip4, 0), V4(s.destination.ip4, 0));
  }

  /** Some IPv6 header for these addresses and this length; the traffic class,
      flow label and hop limit are the kernel's choice. */
  predicate IsKernelHeader(h: seq<byte>, source: Ip6, destination: Ip6, len: nat) {
    && |h| == 40
    && h[0] / 0x10 == 6
    && len < 0x1_0000 && h[4..6] == Be16(len)
    && h[6] == TCP
    && h[8..24] == source
    && h[24..40] == destination
  }

  /** For built IPv6 packets the payload is the segment, and under any header the
      kernel may choose it parses to the same segment and is a complete packet. */
  lemma Ipv6PayloadPreserved(s: Segment, h: seq<byte>)
    requires Buildable(s) && s.source.V6?
    requires IsKernelHeader(h, s.source.ip6, s.destination.ip6, TcpLen(s))
    ensures Ipv6TcpPayload(Wire(s)) == Some(Wire(s)[40..])
    ensures ParseIpPacket(h + Wire(s)[40..]) == Parsed(UnscopedSegment(s))
    ensures IsTcpPacket(h + Wire(s)[40..])
  {
    var w := Wire(s);
    assert w[4..6] == Be16(TcpLen(s));
    assert w[40..] == TcpBytes(s, TcpChecksum(s));
    var k := h + w[40..];
    assert k[4..6] == h[4..6] && k[8..24] == h[8..24] && k[24..40] == h[24..40] && k[40..] == w[40..];
    TcpViewOfBytes(s, TcpChecksum(s), V6(s.source.ip6, 0, 0, 0), V6(s.destination.ip6, 0, 0, 0));
  }
}
