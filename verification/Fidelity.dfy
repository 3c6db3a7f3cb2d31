/**
 End to end: the bytes given to `send` on one side are the bytes `recv` returns
 on the other, through the builder, the outbound conversion, any supported link
 framing, the record decoder, the queue, the parser and the dispatch.
 */
module Fidelity {
  import opened Bytes
  import opened Packet
  import opened Framing
  import opened Capture
  import opened Socket
  import SM = StackMachine
  import ST = StackTheorems
  import SR = StackRuntime

  /** A header the sender's kernel and the routers may put before the segment. */
  predicate IsHeaderFor(h: seq<byte>, source: SocketAddr, destination: SocketAddr, tcpLen: nat) {
    match (source, destination)
    case (V4(s, _), V4(d, _)) => IsKernelHeader4(h, s, d, IPV4_HEADER_LEN + tcpLen)
    case (V6(s, _, _, _), V6(d, _, _, _)) => IsKernelHeader(h, s, d, tcpLen)
    case _ => false
  }

  /** What arrives for a built segment: its bytes under some such header. */
  ghost predicate OnWire(s: Segment, bytes: seq<byte>)
    requires Buildable(s)
  {
    exists h :: IsHeaderFor(h, s.source, s.destination, TcpLen(s)) && bytes == h + Wire(s)[IpHeaderLen(s.source)..]
  }

  /** Among them is the packet just as it was built. */
  lemma OnWireUnchanged(s: Segment)
    requires Buildable(s)
    ensures OnWire(s, Wire(s))
  {
    hide TcpBytes, TcpChecksum;
    var h := IpHeader(s);
    if s.source.V4? {
      BuiltHeaderIsKernel4(s);
    } else {
      assert h[4..6] == Be16(TcpLen(s)) && h[8..24] == s.source.ip6 && h[24..40] == s.destination.ip6;
    }
    assert Wire(s) == h + Wire(s)[IpHeaderLen(s.source)..];
  }

  lemma OnWireParses(s: Segment, bytes: seq<byte>)
    requires Buildable(s) && OnWire(s, bytes)
    ensures |bytes| == PacketLen(s)
    ensures IsTcpPacket(bytes)
    ensures ParseIpPacket(bytes) == Parsed(UnscopedSegment(s))
  {
    hide ParseIpPacket, IsTcpPacket, Wire;
    var h :| IsHeaderFor(h, s.source, s.destination, TcpLen(s)) && bytes == h + Wire(s)[IpHeaderLen(s.source)..];
    if s.source.V4? {
      Ipv4SegmentPreserved(s, h);
    } else {
      Ipv6PayloadPreserved(s, h);
    }
  }

  /** The capture accepts the frame of a segment sent by the configured remote. */
  lemma FrameAccepted(c: Config, s: Segment, bytes: seq<byte>, e: Envelope, padding: seq<byte>)
    requires Buildable(s) && OnWire(s, bytes)
    requires ValidEnvelope(e) && LinkOf(e) == c.link && c.remote == s.source && IsUnscoped(s.source)
    ensures Accepted(c, Enclose(c.order, e, bytes + padding)) == [bytes]
  {
    hide ParseIpPacket, IsTcpPacket, Enclose, PacketFromLinkFrame, OnWire;
    var frame := Enclose(c.order, e, bytes + padding);
    OnWireParses(s, bytes);
    assert Encloses(c.order, c.link, frame, e, bytes, padding);
    LinkFrameExact(c.order, c.link, frame, bytes);
  }

  /** Datagram fidelity: a non-empty datagram in a packet of at most
      1500 bytes, captured among any other records, is decoded at its
      place, fits the reader's buffer, parses to the segment that was sent,
      dispatches on the receiver's tuple, and is what an Established socket's
      `recv` returns, whatever the socket's counters. */
  lemma DatagramFidelity(c: Config, s: Segment, bytes: seq<byte>, e: Envelope, padding: seq<byte>,
                         before: seq<Record>, record: Record, after: seq<Record>, t: Tcb)
    requires Buildable(s) && OnWire(s, bytes) && s.flags == ACK
    requires s.payload != [] && PacketLen(s) <= 1500
    requires ValidEnvelope(e) && LinkOf(e) == c.link && c.remote == s.source && IsUnscoped(s.source)
    requires record.frame == Enclose(c.order, e, bytes + padding)
    requires WellFormed(c, before + [record] + after)
    ensures Decode(c, Image(before + [record] + after), 0) == Packets(Select(c, before) + [bytes] + Select(c, after))
    ensures Fitting(Select(c, before) + [bytes] + Select(c, after), MAX_PACKET_LEN)
         == Fitting(Select(c, before), MAX_PACKET_LEN) + [bytes] + Fitting(Select(c, after), MAX_PACKET_LEN)
    ensures var tuple := AddrTuple(Unscoped(s.destination), s.source);
      && ParseIpPacket(bytes) == Parsed(UnscopedSegment(s))
      && TupleOf(UnscopedSegment(s)) == tuple
      && Receive(tuple, t, UnscopedSegment(s)).payload == Some(s.payload)
  {
    hide ParseIpPacket, IsTcpPacket, Enclose, Accepted, OnWire, Decode, WellFormed, Image;
    var rs := before + [record] + after;
    OnWireParses(s, bytes);
    FrameAccepted(c, s, bytes, e, padding);
    RecordGrammar(c, Image(rs));
    SelectConcat(c, before + [record], after);
    SelectConcat(c, before, [record]);
    assert [record][1..] == [];
    assert Select(c, [record]) == [bytes];
    FittingConcat(Select(c, before) + [bytes], Select(c, after), MAX_PACKET_LEN);
    FittingConcat(Select(c, before), [bytes], MAX_PACKET_LEN);
    assert [bytes][1..] == [];
    assert Fitting([bytes], MAX_PACKET_LEN) == [bytes];
  }

  /** The tuple under which the receiver's stack knows a connection whose other
      end sends `s`. */
  function ReceivingTuple(s: Segment): AddrTuple { AddrTuple(Unscoped(s.destination), s.source) }

  /** The stack has the tuple, and an idle reader that knows no predecessor of it. */
  predicate Awaits(k: SM.Stack, r: nat, tuple: AddrTuple) {
    && k.fault.None? && SM.ReaderAt(k, r) && k.readers[r].pc.Selecting?
    && tuple in k.tuples && k.tuples[tuple] < |k.socks|
    && (tuple in k.readers[r].cache ==> k.readers[r].cache[tuple] == k.tuples[tuple])
  }

  /** The whole path as one theorem: a datagram captured among any other records
      is decoded at its place; the packet parses; some run of the reader brings it
      to the end of the queue of the socket that owns the tuple; and receiving it
      there yields the bytes that were sent, whatever the socket's counters. */
  lemma EndToEnd(c: Config, s: Segment, bytes: seq<byte>, e: Envelope, padding: seq<byte>,
                 before: seq<Record>, record: Record, after: seq<Record>, t: Tcb, k: SM.Stack, r: nat)
    returns (steps: seq<SM.Step>, f: SM.Stack)
    requires Buildable(s) && OnWire(s, bytes) && s.flags == ACK
    requires s.payload != [] && PacketLen(s) <= 1500
    requires ValidEnvelope(e) && LinkOf(e) == c.link && c.remote == s.source && IsUnscoped(s.source)
    requires record.frame == Enclose(c.order, e, bytes + padding)
    requires WellFormed(c, before + [record] + after)
    requires SM.Inv(k) && Awaits(k, r, ReceivingTuple(s))
    requires |k.socks[k.tuples[ReceivingTuple(s)]].queue| < SM.QUEUE_CAPACITY
    ensures Decode(c, Image(before + [record] + after), 0) == Packets(Select(c, before) + [bytes] + Select(c, after))
    ensures ParseIpPacket(bytes).Parsed? && SM.Reaches(k, steps, f) && f.fault.None?
    ensures var p, id := ParseIpPacket(bytes).segment, k.tuples[ReceivingTuple(s)];
      && f.socks == k.socks[id := k.socks[id].(queue := k.socks[id].queue + [p])]
      && Receive(ReceivingTuple(s), t, p).payload == Some(s.payload)
  {
    DatagramFidelity(c, s, bytes, e, padding, before, record, after, t);
    hide SM.Reaches, SM.Inv, ParseIpPacket, Decode, WellFormed, Image;
    steps, f := ST.DispatchDelivers(k, r, UnscopedSegment(s));
  }

  lemma ReceiveYields(s: Segment, t: Tcb)
    requires s.flags == ACK && IsUnscoped(s.source)
    ensures TupleOf(UnscopedSegment(s)) == ReceivingTuple(s)
    ensures Receive(ReceivingTuple(s), t, UnscopedSegment(s)).payload == Some(s.payload)
  {
  }

  lemma AwaitsHears(k: SM.Stack, r: nat, p: Segment)
    requires Awaits(k, r, TupleOf(p))
    ensures SM.Enabled(k, SM.Hear(r, p)) && r < |k.readers| && TupleOf(p) in k.tuples && k.tuples[TupleOf(p)] < |k.socks|
    ensures TupleOf(p) in k.readers[r].cache ==> k.readers[r].cache[TupleOf(p)] == k.tuples[TupleOf(p)]
  {
  }

  /** And in every run from the moment the reader has the packet: as long as the
      owner is not dropped, the packet is on its way to it or has passed into its
      queue, as one more than there were before, and receiving it there yields the
      bytes that were sent. */
  lemma EndToEndInEveryRun(s: Segment, bytes: seq<byte>, t: Tcb, k: SM.Stack, r: nat, steps: seq<SM.Step>, f: SM.Stack)
    requires Buildable(s) && OnWire(s, bytes) && s.flags == ACK && IsUnscoped(s.source)
    requires SM.Inv(k) && Awaits(k, r, ReceivingTuple(s))
    requires SM.Reaches(SM.Apply(k, SM.Hear(r, UnscopedSegment(s))), steps, f) && f.fault.None?
    ensures ParseIpPacket(bytes) == Parsed(UnscopedSegment(s))
    ensures var p, id := UnscopedSegment(s), k.tuples[ReceivingTuple(s)];
      && (SM.SockIn(f, id, SM.Live) ==>
            && (ST.UnderWay(f, r, p, id) || ST.Arrived(f, p, id, |SM.Passed(k.socks[id])|))
            && ST.Tally(f, p, id) >= ST.Tally(k, p, id) + 1)
      && Receive(ReceivingTuple(s), t, p).payload == Some(s.payload)
  {
    var p := UnscopedSegment(s);
    ReceiveYields(s, t);
    AwaitsHears(k, r, p);
    OnWireParses(s, bytes);
    hide *;
    ST.DispatchNeverLoses(k, r, p, steps, f);
  }

  /** A Darwin BPF header: time stamp, captured and original length, own length. */
  function BpfHeader(order: ByteOrder, stamp: seq<byte>, captured: u32, original: u32): (h: seq<byte>)
    requires |stamp| == 8
    ensures |h| == 18
  {
    stamp + Ne32(order, captured) + Ne32(order, original) + Ne16(order, 18)
  }

  /** It makes a valid record of any frame, whatever the stamp and the length the
      packet had before it was captured. */
  lemma BpfRecordValid(c: Config, stamp: seq<byte>, original: u32, frame: seq<byte>)
    requires |stamp| == 8 && |frame| < TWO_TO_THE_32
    ensures ValidRecord(c, Record(BpfHeader(c.order, stamp, |frame|, original), frame, []))
    ensures WellFormed(c, [Record(BpfHeader(c.order, stamp, |frame|, original), frame, [])])
  {
    var h := BpfHeader(c.order, stamp, |frame|, original);
    hide Ne32, Ne16, FromNe32, FromNe16;
    assert h[8..12] == Ne32(c.order, |frame|);
    assert h[16..18] == Ne16(c.order, 18);
    Ne32RoundTrip(c.order, |frame|);
    Ne16RoundTrip(c.order, 18);
  }

  lemma EncloseLen(order: ByteOrder, e: Envelope, p: seq<byte>)
    ensures |Enclose(order, e, p)| == |Enclose(order, e, [])| + |p|
  {
  }

  /** The raw sender and the kernel below it: what reaches the wire. Darwin
      serialises the header it is given, in the fields it does not rewrite. */
  method Transmit(order: ByteOrder, s: Segment, kernelHeader: seq<byte>) returns (bytes: seq<byte>)
    requires Buildable(s)
    requires IsHeaderFor(kernelHeader, s.source, s.destination, TcpLen(s))
    ensures OnWire(s, bytes)
  {
    hide Wire, RawIpv4Acceptable, IsKernelHeader, IsKernelHeader4;
    var packet := BuildTcpPacket(s.source, s.destination, s.seqNo, s.ackNo, s.flags, Some(s.payload));
    if s.source.V4? {
      BuiltRawIpv4Acceptable(s);
      var raw := MacosRawIpv4Packet(order, packet.value);
      bytes := kernelHeader + DarwinOutput(order, raw.value)[IPV4_HEADER_LEN..];
    } else {
      Ipv6PayloadPreserved(s, kernelHeader);
      bytes := kernelHeader + Ipv6TcpPayload(packet.value).value;
    }
  }

  /** A read that decodes one fitting packet, if it decodes at all, and that has
      nothing else to deliver, delivers it. */
  lemma OneDelivery(bytes: seq<byte>, size: nat, x: Read)
    requires |bytes| <= size && IsRead([], x, size)
    requires x.decoded == [bytes] || (x.decoded == [] && x.delivered != [])
    requires x.delivered == [] ==> x.pending == []
    ensures x.delivered == [bytes]
  {
    assert [] + x.decoded == x.decoded;
    assert [bytes][1..] == [];
    assert Fitting([bytes], size) == [bytes];
    assert Fitting([], size) == [];
  }

  lemma DecodedPrefix(c: Config, poll: Poll, n: nat)
    requires n <= 1
    ensures DecodedAll(c, [poll][..n]) == if n == 1 then DecodedOne(c, poll) else []
  {
    hide DecodedOne;
    assert [poll][..1][1..] == [] && [poll][..0] == [];
    assert DecodedAll(c, []) == [];
  }

  /** What waits in a capture is read first, in order. */
  method DrainPending(capture: BpfCapture, output: array<byte>) returns (earlier: seq<seq<byte>>)
    modifies capture`pending, output
    ensures earlier == Fitting(old(capture.pending), output.Length) && capture.pending == []
  {
    hide Decode, TakeFitting;
    earlier := [];
    var more := true;
    while more
      invariant earlier + Fitting(capture.pending, output.Length) == Fitting(old(capture.pending), output.Length)
      invariant !more ==> capture.pending == []
      decreases more, |Fitting(capture.pending, output.Length)|
    {
      ghost var before := capture.pending;
      var read, consumed := capture.ReadPacket(output, []);
      NoBuffers(capture.config, before);
      more := read.Delivered?;
      if more {
        assert Fitting(before, output.Length) == [output[..read.size]] + Fitting(capture.pending, output.Length);
        earlier := earlier + [output[..read.size]];
      }
    }
  }

  /** The capture side in the imperative code: after the packets that wait already,
      the frame of one more packet is read and decoded into the reader's buffer. */
  method CaptureOne(capture: BpfCapture, s: Segment, bytes: seq<byte>, e: Envelope, padding: seq<byte>,
                    stamp: seq<byte>, original: u32, output: array<byte>)
    returns (earlier: seq<seq<byte>>, size: nat)
    requires Buildable(s) && OnWire(s, bytes) && s.flags == ACK
    requires s.payload != [] && PacketLen(s) <= 1500 == output.Length && |stamp| == 8
    requires capture.config.remote == s.source && IsUnscoped(s.source)
    requires ValidEnvelope(e) && LinkOf(e) == capture.config.link
    requires |Enclose(capture.config.order, e, [])| + MAX_PACKET_LEN + |padding| < TWO_TO_THE_32
    modifies capture, output
    ensures earlier == Fitting(old(capture.pending), 1500)
    ensures size <= output.Length && output[..size] == bytes
  {
    hide ParseIpPacket, Enclose, OnWire, Decode, Fitting, BpfHeader, Image, WellFormed, ValidEnvelope, DecodedAll;
    var c := capture.config;
    earlier := DrainPending(capture, output);
    OnWireParses(s, bytes);
    EncloseLen(c.order, e, bytes + padding);
    var frame := Enclose(c.order, e, bytes + padding);
    var record := Record(BpfHeader(c.order, stamp, |frame|, original), frame, []);
    BpfRecordValid(c, stamp, original, frame);
    assert [] + [record] + [] == [record];
    DatagramFidelity(c, s, bytes, e, padding, [], record, [], NewTcb(None));
    var buffer := Image([record]);
    assert Decode(c, buffer, 0) == Packets([bytes]);
    var read, consumed := capture.ReadPacket(output, [Yields(buffer)]);
    assert !read.Failed? && !read.Broken?;
    DecodedPrefix(c, Yields(buffer), consumed);
    OneDelivery(bytes, output.Length, ReadOf(c, [Yields(buffer)][..consumed], read, output[..], capture.pending));
    size := read.size;
  }

  /** The stack has a socket for the tuple and its reader is idle. */
  predicate Serves(k: SM.Stack, r: nat, tuple: AddrTuple) {
    k.fault.None? && SM.ReaderAt(k, r) && k.readers[r].pc.Selecting? && tuple in k.tuples
  }

  /** `recv` until everything taken from the queue has been received; the last one
      ends up in the buffer. */
  method ReceiveAll(receiver: Socket, got: seq<Segment>, buf: array<byte>) returns (result: RecvResult)
    requires receiver.state.Established? && got != []
    requires !HasRst(got[|got| - 1].flags) && |got[|got| - 1].payload| <= buf.Length
    modifies receiver, buf
    ensures var payload := got[|got| - 1].payload; result == Data(|payload|) && buf[..|payload|] == payload
  {
    var sent: seq<Segment>;
    for k := 0 to |got| - 1
      invariant receiver.state.Established?
    {
      result, sent := receiver.RecvSegment(got[k], buf);
    }
    result, sent := receiver.RecvSegment(got[|got| - 1], buf);
  }

  /** The whole path in the imperative code: one socket sends; the packet goes
      through the raw sender, the wire, the capture (behind the packets that wait
      there) and the parser; meanwhile the receiver's stack does anything; then its
      reader takes its purges, finds the owner of the tuple in its cache or in the
      table, waits for room if it has to, and the owner's `recv` copies out exactly
      what was sent, behind what was queued before. This fails exactly when the
      reader has lagged or caches a predecessor whose drop is not finished. */
  method SendAndReceive(sender: Socket, receiver: Socket, capture: BpfCapture, stack: SR.Runtime, r: nat, meanwhile: seq<SM.Step>,
                        payload: seq<byte>, e: Envelope, padding: seq<byte>, kernelHeader: seq<byte>,
                        stamp: seq<byte>, original: u32,
                        output: array<byte>, buf: array<byte>)
    returns (result: Option<RecvResult>)
    requires sender != receiver && output != buf
    requires sender.state.Established? && receiver.state.Established?
    requires payload != [] && IpHeaderLen(sender.tuple.local) + TCP_HEADER_LEN + |payload| <= 1500 && |stamp| == 8
    requires IsHeaderFor(kernelHeader, sender.tuple.local, sender.tuple.remote, TCP_HEADER_LEN + |payload|)
    requires capture.config.remote == sender.tuple.local && IsUnscoped(sender.tuple.local)
    requires ValidEnvelope(e) && LinkOf(e) == capture.config.link
    requires |Enclose(capture.config.order, e, [])| + MAX_PACKET_LEN + |padding| < TWO_TO_THE_32
    requires output.Length == 1500 && buf.Length == 1500
    requires receiver.tuple == AddrTuple(Unscoped(sender.tuple.remote), sender.tuple.local)
    requires SM.Inv(stack.View()) && Serves(SR.RunAll(stack.View(), meanwhile), r, receiver.tuple)
    modifies sender, receiver, capture, stack, output, buf
    ensures SM.Inv(stack.View())
    ensures result.Some? <==> !SR.Misses(SR.RunAll(old(stack.View()), meanwhile), r, receiver.tuple)
    ensures result.Some? ==> result.value == Data(|payload|) && buf[..|payload|] == payload
    ensures var k := SR.RunAll(old(stack.View()), meanwhile); var id := k.tuples[receiver.tuple];
      && id < |k.socks| <= |stack.socks|
      && (result.None? ==> stack.socks[id] == k.socks[id])
      && (result.Some? ==> forall i :: 0 <= i < |k.socks| && i != id ==> stack.socks[i] == k.socks[i])
  {
    hide ParseIpPacket, Enclose, OnWire, ValidEnvelope, IsHeaderFor, SM.Inv, SR.RunAll, SR.Misses, SM.Apply, Fitting;
    HeaderFamilies(kernelHeader, sender.tuple.local, sender.tuple.remote, TCP_HEADER_LEN + |payload|);
    var s, _ := sender.Send(payload, true);
    var bytes := Transmit(capture.config.order, s, kernelHeader);
    OnWireParses(s, bytes);
    var earlier, size := CaptureOne(capture, s, bytes, e, padding, stamp, original, output);
    SR.RunAllKeeps(stack.View(), meanwhile);
    stack.Interleave(meanwhile);
    var p := ParseIpPacket(output[..size]).segment;
    assert TupleOf(p) == receiver.tuple;
    var got := stack.DeliverToOwner(r, p);
    if got == [] {
      return None;
    }
    assert got[|got| - 1] == p;
    var received := ReceiveAll(receiver, got, buf);
    result := Some(received);
  }

  lemma HeaderFamilies(h: seq<byte>, source: SocketAddr, destination: SocketAddr, tcpLen: nat)
    requires IsHeaderFor(h, source, destination, tcpLen)
    ensures source.V4? <==> destination.V4?
  {
  }
}
