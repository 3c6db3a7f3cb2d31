/**
 The BPF capture of phantun-client-mac/src/macos_packet.rs: the record decoder
 and the queue of decoded packets.
 */
module Capture {
  import opened Bytes
  import opened Packet
  import opened Framing

  const CAPLEN_OFFSET := 8
  const HDRLEN_OFFSET := 16
  const HEADER_MIN_SIZE := 18

  datatype DecodeError = TruncatedHeader | BadBoundaries | BadAlignment
  datatype Decoded = Packets(packets: seq<seq<byte>>) | Invalid(error: DecodeError)

  /** What a capture is configured with. */
  datatype Config = Config(order: ByteOrder, link: LinkType, remote: SocketAddr)

  function WordAlign(value: nat): (r: nat)
    ensures value <= r < value + 4 && r % 4 == 0
  {
    (value + 3) / 4 * 4
  }

  /** From an aligned offset, aligning a length and aligning a position agree. */
  lemma AlignShift(offset: nat, len: nat)
    requires offset % 4 == 0
    ensures WordAlign(offset + len) == offset + WordAlign(len)
  {
  }

  predicate IsExpectedRemotePacket(packet: seq<byte>, remote: SocketAddr) {
    match ParseIpPacket(packet)
    case Parsed(s) => s.source == remote
    case _ => false
  }

  /** Zero or one packet per captured frame. */
  function Accepted(c: Config, frame: seq<byte>): seq<seq<byte>> {
    match PacketFromLinkFrame(c.order, c.link, frame)
    case Some(p) => if IsExpectedRemotePacket(p, c.remote) then [p] else []
    case None => []
  }

  function HeaderLen(c: Config, records: seq<byte>, offset: nat): nat
    requires offset + HEADER_MIN_SIZE <= |records|
  {
    FromNe16(c.order, records[offset + HDRLEN_OFFSET..offset + HEADER_MIN_SIZE])
  }

  function CapLen(c: Config, records: seq<byte>, offset: nat): nat
    requires offset + HEADER_MIN_SIZE <= |records|
  {
    FromNe32(c.order, records[offset + CAPLEN_OFFSET..offset + CAPLEN_OFFSET + 4])
  }

  /** Where the two lengths stand in a record header, and what their bytes are worth. */
  lemma HeaderWeights(c: Config, records: seq<byte>, offset: nat)
    requires offset + 18 <= |records|
    ensures var b := records[offset..offset + 18];
      if c.order.Little? then
        CapLen(c, records, offset) == Quad(b[11], b[10], b[9], b[8]) && HeaderLen(c, records, offset) == Pair(b[17], b[16])
      else
        CapLen(c, records, offset) == Quad(b[8], b[9], b[10], b[11]) && HeaderLen(c, records, offset) == Pair(b[16], b[17])
  {
    Weights32(c.order, records[offset + 8..offset + 12]);
    Weights16(c.order, records[offset + 16..offset + 18]);
  }

  function Prepend(ps: seq<seq<byte>>, d: Decoded): Decoded {
    match d
    case Packets(qs) => Packets(ps + qs)
    case Invalid(e) => Invalid(e)
  }

  /** Decoding from an offset on. */
  function Decode(c: Config, records: seq<byte>, offset: nat): Decoded
    requires offset <= |records|
    decreases |records| - offset
  {
    if offset == |records| then Packets([])
    else if |records| - offset < HEADER_MIN_SIZE then Invalid(TruncatedHeader)
    else
      var headerLen := HeaderLen(c, records, offset);
      var packetStart := offset + headerLen;
      var packetEnd := packetStart + CapLen(c, records, offset);
      if headerLen < HEADER_MIN_SIZE || packetEnd > |records| then Invalid(BadBoundaries)
      else
        var found := Accepted(c, records[packetStart..packetEnd]);
        if WordAlign(packetEnd) > |records| then
          if packetEnd == |records| then Packets(found) else Invalid(BadAlignment)
        else Prepend(found, Decode(c, records, WordAlign(packetEnd)))
  }

  /** Why a buffer is refused at its first record: it ends within the header, or the
      header's own length or that of the frame does not fit, or it ends within the
      padding, which may be missing as a whole. */
  lemma RecordErrors(c: Config, records: seq<byte>)
    ensures 0 < |records| < 18 ==> Decode(c, records, 0) == Invalid(TruncatedHeader)
    ensures |records| >= 18 ==>
      var header := HeaderLen(c, records, 0); var end := header + CapLen(c, records, 0);
      && (header < 18 || end > |records| ==> Decode(c, records, 0) == Invalid(BadBoundaries))
      && (header >= 18 && end < |records| < end + (4 - end % 4) % 4 ==> Decode(c, records, 0) == Invalid(BadAlignment))
  {
    hide Accepted, HeaderLen, CapLen;
  }

  /** `decode_records`. Every slice is in range on every buffer, and the guard
      against a record that does not advance is never taken. */
  method DecodeRecords(c: Config, records: seq<byte>) returns (r: Decoded)
    ensures r == Decode(c, records, 0)
  {
    hide Accepted, HeaderLen, CapLen, WordAlign;
    var offset := 0;
    var packets: seq<seq<byte>> := [];
    while offset < |records|
      invariant offset <= |records|
      invariant Decode(c, records, 0) == Prepend(packets, Decode(c, records, offset))
    {
      if |records| - offset < HEADER_MIN_SIZE {
        return Invalid(TruncatedHeader);
      }
      var headerLen := HeaderLen(c, records, offset);
      var caplen := CapLen(c, records, offset);
      var packetStart := offset + headerLen;
      var packetEnd := packetStart + caplen;
      if headerLen < HEADER_MIN_SIZE || packetStart > |records| || packetEnd > |records| {
        return Invalid(BadBoundaries);
      }
      var found := Accepted(c, records[packetStart..packetEnd]);
      ghost var before := packets;
      packets := packets + found;

      var nextOffset := WordAlign(packetEnd);
      if nextOffset <= offset {
        assert false;
      }
      if nextOffset > |records| {
        if packetEnd == |records| {
          return Packets(packets);
        }
        return Invalid(BadAlignment);
      }
      PrependTwice(before, found, Decode(c, records, nextOffset));
      offset := nextOffset;
    }
    r := Packets(packets);
  }

  lemma PrependTwice(ps: seq<seq<byte>>, qs: seq<seq<byte>>, d: Decoded)
    ensures Prepend(ps, Prepend(qs, d)) == Prepend(ps + qs, d)
  {
    if d.Packets? {
      assert ps + (qs + d.packets) == (ps + qs) + d.packets;
    }
  }

  // ------------------------------------------------------- record grammar

  /** One captured frame with its BPF header and what follows it. */
  datatype Record = Record(header: seq<byte>, frame: seq<byte>, padding: seq<byte>)

  predicate ValidRecord(c: Config, r: Record) {
    && |r.header| >= HEADER_MIN_SIZE
    && HeaderLen(c, r.header, 0) == |r.header|
    && CapLen(c, r.header, 0) == |r.frame|
  }

  predicate Padded(r: Record) {
    |r.padding| == WordAlign(|r.header| + |r.frame|) - (|r.header| + |r.frame|)
  }

  /** Each record padded to 4 bytes; the last one may have no padding at all. */
  ghost predicate WellFormed(c: Config, rs: seq<Record>) {
    && (forall i :: 0 <= i < |rs| ==> ValidRecord(c, rs[i]))
    && (forall i :: 0 <= i < |rs| ==> Padded(rs[i]) || (i == |rs| - 1 && rs[i].padding == []))
  }

  function Image(rs: seq<Record>): seq<byte> {
    if rs == [] then [] else rs[0].header + rs[0].frame + rs[0].padding + Image(rs[1..])
  }

  /** The accepted packets of the records, in order. */
  function Select(c: Config, rs: seq<Record>): seq<seq<byte>> {
    if rs == [] then [] else Accepted(c, rs[0].frame) + Select(c, rs[1..])
  }

  lemma FieldsAtOffset(c: Config, records: seq<byte>, offset: nat, r: Record, tail: seq<byte>)
    requires offset <= |records| && ValidRecord(c, r)
    requires records[offset..] == r.header + r.frame + r.padding + tail
    ensures HeaderLen(c, records, offset) == |r.header| && CapLen(c, records, offset) == |r.frame|
    ensures offset + |r.header| + |r.frame| <= |records|
    ensures records[offset + |r.header|..offset + |r.header| + |r.frame|] == r.frame
  {
    hide FromNe16, FromNe32;
    var rest := records[offset..|records|];
    assert rest == records[offset..];
    SliceOfSlice(records, offset, |records|, HDRLEN_OFFSET, HEADER_MIN_SIZE);
    SliceOfSlice(records, offset, |records|, CAPLEN_OFFSET, CAPLEN_OFFSET + 4);
    SliceOfSlice(records, offset, |records|, |r.header|, |r.header| + |r.frame|);
    assert rest[HDRLEN_OFFSET..HEADER_MIN_SIZE] == r.header[HDRLEN_OFFSET..HEADER_MIN_SIZE];
    assert rest[CAPLEN_OFFSET..CAPLEN_OFFSET + 4] == r.header[CAPLEN_OFFSET..CAPLEN_OFFSET + 4];
    assert rest[|r.header|..|r.header| + |r.frame|] == r.frame;
  }

  /** One record at the decoder's offset: its accepted packet, then the rest. */
  lemma DecodeRecord(c: Config, records: seq<byte>, offset: nat, r: Record, tail: seq<byte>)
    requires offset <= |records| && ValidRecord(c, r)
    requires records[offset..] == r.header + r.frame + r.padding + tail
    ensures var end := offset + |r.header| + |r.frame|;
      && (WordAlign(end) <= |records| ==>
            Decode(c, records, offset) == Prepend(Accepted(c, r.frame), Decode(c, records, WordAlign(end))))
      && (end == |records| < WordAlign(end) ==> Decode(c, records, offset) == Packets(Accepted(c, r.frame)))
  {
    hide Accepted, HeaderLen, CapLen, WordAlign;
    FieldsAtOffset(c, records, offset, r, tail);
  }

  /** Every well-formed buffer decodes, to exactly its accepted packets. */
  lemma {:induction false} DecodeComplete(c: Config, records: seq<byte>, offset: nat, rs: seq<Record>)
    requires offset <= |records| && offset % 4 == 0
    requires WellFormed(c, rs) && records[offset..] == Image(rs)
    ensures Decode(c, records, offset) == Packets(Select(c, rs))
    decreases |rs|
  {
    hide Accepted, HeaderLen, CapLen, ValidRecord, WordAlign;
    if rs != [] {
      var r, tail := rs[0], rs[1..];
      var end, next := offset + |r.header| + |r.frame|, offset + |r.header| + |r.frame| + |r.padding|;
      AlignShift(offset, |r.header| + |r.frame|);
      DecodeRecord(c, records, offset, r, Image(tail));
      TailAt(records, offset, r.header + r.frame + r.padding, Image(tail));
      if Padded(r) {
        assert next == WordAlign(end);
        assert WellFormed(c, tail);
        DecodeComplete(c, records, next, tail);
      } else {
        assert |rs| == 1 && tail == [];
        assert end == |records| < WordAlign(end);
      }
    }
  }

  lemma TailAt(records: seq<byte>, offset: nat, head: seq<byte>, tail: seq<byte>)
    requires offset <= |records| && records[offset..] == head + tail
    ensures offset + |head| + |tail| == |records| && records[offset + |head|..] == tail
  {
    assert records[offset + |head|..] == records[offset..][|head|..];
  }

  /** Every buffer that decodes is a well-formed sequence of records. */
  lemma {:induction false} DecodeSound(c: Config, records: seq<byte>, offset: nat) returns (rs: seq<Record>)
    requires offset <= |records| && offset % 4 == 0
    requires Decode(c, records, offset).Packets?
    ensures WellFormed(c, rs) && records[offset..] == Image(rs)
    decreases |records| - offset
  {
    hide Accepted, HeaderLen, CapLen, ValidRecord;
    if offset == |records| {
      return [];
    }
    var start := offset + HeaderLen(c, records, offset);
    var end := start + CapLen(c, records, offset);
    var next := WordAlign(end);
    hide Decode, WordAlign;
    AlignShift(offset, end - offset);
    if next > |records| {
      var r := RecordAt(c, records, offset, start, end, end);
      rs := [r];
      assert Image(rs[1..]) == [];
    } else {
      var tail := DecodeSound(c, records, next);
      var r := RecordAt(c, records, offset, start, end, next);
      rs := [r] + tail;
      assert rs[1..] == tail;
    }
  }

  lemma RecordAt(c: Config, records: seq<byte>, offset: nat, start: nat, end: nat, next: nat) returns (r: Record)
    requires offset + HEADER_MIN_SIZE <= start <= end <= next <= |records|
    requires start == offset + HeaderLen(c, records, offset) && end == start + CapLen(c, records, offset)
    ensures ValidRecord(c, r)
    ensures |r.header| == start - offset && |r.frame| == end - start && |r.padding| == next - end
    ensures records[offset..] == r.header + r.frame + r.padding + records[next..]
  {
    hide FromNe16, FromNe32;
    r := Record(records[offset..start], records[start..end], records[end..next]);
    SliceOfSlice(records, offset, start, HDRLEN_OFFSET, HEADER_MIN_SIZE);
    SliceOfSlice(records, offset, start, CAPLEN_OFFSET, CAPLEN_OFFSET + 4);
  }

  /** `decode_records` succeeds exactly on well-formed buffers, and then returns
      the normalised packets of the configured remote, in order. */
  lemma RecordGrammar(c: Config, records: seq<byte>)
    ensures Decode(c, records, 0).Packets? <==> exists rs :: WellFormed(c, rs) && records == Image(rs)
    ensures forall rs :: WellFormed(c, rs) && records == Image(rs) ==> Decode(c, records, 0) == Packets(Select(c, rs))
  {
    assert records[0..] == records;
    forall rs | WellFormed(c, rs) && records == Image(rs)
      ensures Decode(c, records, 0) == Packets(Select(c, rs))
    {
      DecodeComplete(c, records, 0, rs);
    }
    if Decode(c, records, 0).Packets? {
      var rs := DecodeSound(c, records, 0);
    }
  }

  lemma {:induction false} SelectConcat(c: Config, a: seq<Record>, b: seq<Record>)
    ensures Select(c, a + b) == Select(c, a) + Select(c, b)
  {
    if a == [] {
      assert a + b == b;
    } else {
      assert (a + b)[1..] == a[1..] + b;
      SelectConcat(c, a[1..], b);
    }
  }

  /** Everything the decoder returns is a complete TCP packet that parses, without
      a panic, to a segment of the configured remote. */
  lemma {:induction false} SelectedComeFromRemote(c: Config, rs: seq<Record>, p: seq<byte>)
    ensures p in Select(c, rs) ==>
      IsTcpPacket(p) && ParseIpPacket(p).Parsed? && ParseIpPacket(p).segment.source == c.remote
  {
    hide IsTcpPacket, ParseIpPacket, PacketFromLinkFrame;
    if rs != [] {
      LinkFrameExact(c.order, c.link, rs[0].frame, p);
      SelectedComeFromRemote(c, rs[1..], p);
    }
  }

  /** The remote's packets pass the filter exactly when the configured remote
      has no IPv6 flow info and no scope id. */
  lemma RemoteAcceptedIffUnscoped(s: Segment)
    requires Buildable(s)
    ensures IsExpectedRemotePacket(Wire(s), s.source) <==> IsUnscoped(s.source)
  {
    ParseBuilt(s);
  }

  // -------------------------------------------------------- pending queue

  /** What the queue hands out for an output buffer of a given size. */
  datatype Taken = Taken(packet: Option<seq<byte>>, rest: seq<seq<byte>>)

  function TakeFitting(pending: seq<seq<byte>>, size: nat): Taken {
    if pending == [] then Taken(None, [])
    else if |pending[0]| > size then TakeFitting(pending[1..], size)
    else Taken(Some(pending[0]), pending[1..])
  }

  function Fitting(ps: seq<seq<byte>>, size: nat): seq<seq<byte>> {
    if ps == [] then []
    else (if |ps[0]| > size then [] else [ps[0]]) + Fitting(ps[1..], size)
  }

  function Optional(p: Option<seq<byte>>): seq<seq<byte>> {
    if p.Some? then [p.value] else []
  }

  /** Taking removes the first fitting packet and only packets too long before it. */
  lemma {:induction false} TakeConserves(pending: seq<seq<byte>>, size: nat)
    ensures var t := TakeFitting(pending, size);
      Fitting(pending, size) == Optional(t.packet) + Fitting(t.rest, size)
  {
    if pending != [] && |pending[0]| > size {
      TakeConserves(pending[1..], size);
    }
  }

  lemma {:induction false} FittingConcat(a: seq<seq<byte>>, b: seq<seq<byte>>, size: nat)
    ensures Fitting(a + b, size) == Fitting(a, size) + Fitting(b, size)
  {
    if a == [] {
      assert a + b == b;
    } else {
      assert (a + b)[1..] == a[1..] + b;
      FittingConcat(a[1..], b, size);
    }
  }

  /** What one blocking device read comes to: no data, a buffer, an error, or a
      buffer that nobody is left to take because the future that waits for it was
      dropped meanwhile. */
  datatype Poll = NoData | Yields(records: seq<byte>) | Errors | Abandoned(records: seq<byte>)

  /** `Cancelled`: the future was dropped; `lost` is the buffer taken from the
      device and not decoded, if any. */
  datatype ReadResult = Delivered(size: nat) | Failed(error: DecodeError) | Broken | Cancelled(lost: Option<seq<byte>>)

  /** One call of `read_packet`: what it decoded, what it delivered, the queue it
      left, and the buffers it took and lost. */
  datatype Read = Read(
    decoded: seq<seq<byte>>, delivered: seq<seq<byte>>, pending: seq<seq<byte>>, lost: seq<seq<byte>>, cancelled: bool)

  /** At most one packet is delivered and no decoded packet that fits is lost; a
      cancelled read loses at most one buffer and any other read none. */
  predicate IsRead(pending: seq<seq<byte>>, x: Read, size: nat) {
    && |x.delivered| <= 1 && Fitting(pending + x.decoded, size) == x.delivered + Fitting(x.pending, size)
    && |x.lost| <= (if x.cancelled then 1 else 0)
  }

  class BpfCapture {
    const config: Config
    var pending: seq<seq<byte>>

    constructor (config: Config)
      ensures this.config == config && pending == []
    {
      this.config := config;
      pending := [];
    }

    /** `copy_pending_packet`. */
    method CopyPendingPacket(output: array<byte>) returns (size: Option<nat>)
      modifies this`pending, output
      ensures var t := TakeFitting(old(pending), output.Length);
        && pending == t.rest
        && (size.Some? <==> t.packet.Some?)
        && (size.Some? ==> size.value == |t.packet.value| <= output.Length && output[..size.value] == t.packet.value)
        && (size.None? ==> pending == [] && output[..] == old(output[..]))
    {
      while pending != []
        invariant TakeFitting(pending, output.Length) == TakeFitting(old(pending), output.Length)
        invariant output[..] == old(output[..])
        decreases |pending|
      {
        var packet := pending[0];
        pending := pending[1..];
        if |packet| <= output.Length {
          PutBytes(output, 0, packet);
          return Some(|packet|);
        }
      }
      size := None;
    }

    /** The end of one round of `read_packet`: what a buffer holds joins the queue,
        unless one of its records is bad. */
    method Append(records: seq<byte>) returns (error: Option<DecodeError>)
      modifies this`pending
      ensures pending == old(pending) + DecodedOne(config, Yields(records))
      ensures error.Some? ==> Decode(config, records, 0) == Invalid(error.value)
    {
      var decoded := DecodeRecords(config, records);
      if decoded.Invalid? {
        return Some(decoded.error);
      }
      pending := pending + decoded.packets;
      error := None;
    }

    /** `read_packet`, over what the device does while it is polled; a future
        dropped with no device read under way sees the polls run out. `consumed`
        polls were taken and their buffers decoded; the read stops at the first that
        provides a fitting packet. */
    method ReadPacket(output: array<byte>, device: seq<Poll>) returns (r: ReadResult, ghost consumed: nat)
      modifies this`pending, output
      ensures consumed <= |device|
      ensures forall k :: 0 <= k < consumed ==> !device[k].Abandoned?
      ensures r.Delivered? ==> r.size <= output.Length
      ensures IsRead(old(pending), ReadOf(config, device[..consumed], r, output[..], pending), output.Length)
      ensures consumed > 0 ==> Fitting(old(pending) + DecodedAll(config, device[..consumed - 1]), output.Length) == []
      ensures r.Cancelled? ==> pending == []
      ensures r.Cancelled? ==> if r.lost.None? then consumed == |device| else consumed < |device| && device[consumed] == Abandoned(r.lost.value)
      ensures r.Failed? ==> consumed > 0 && device[consumed - 1].Yields?
      ensures r.Failed? ==> Decode(config, device[consumed - 1].records, 0) == Invalid(r.error)
      ensures r.Broken? ==> consumed > 0 && device[consumed - 1].Errors?
    {
      hide Accepted, Decode, TakeFitting, DecodedAll, DecodedOne, Fitting;
      consumed := 0;
      var next := 0;
      ghost var start := pending;
      NoBuffers(config, start);
      assert device[..0] == [];
      while true
        invariant next == consumed <= |device|
        invariant forall k :: 0 <= k < consumed ==> !device[k].Abandoned?
        invariant Fitting(start + DecodedAll(config, device[..consumed]), output.Length) == Fitting(pending, output.Length)
        invariant consumed > 0 ==> Fitting(start + DecodedAll(config, device[..consumed - 1]), output.Length) == []
        decreases |device| - next
      {
        TakeConserves(pending, output.Length);
        NothingFits(output.Length);
        var size := CopyPendingPacket(output);
        if size.Some? {
          return Delivered(size.value), consumed;
        }
        if next == |device| {
          return Cancelled(None), consumed;
        }
        var poll := device[next];
        if poll.Abandoned? {
          return Cancelled(Some(poll.records)), consumed;
        }
        NextBuffer(config, device, next, start, output.Length);
        next := next + 1;
        consumed := consumed + 1;
        NoPackets(config, poll);
        if poll.Errors? {
          return Broken, consumed;
        }
        if poll.Yields? {
          var error := Append(poll.records);
          if error.Some? {
            return Failed(error.value), consumed;
          }
        }
      }
    }
  }

  /** What a call comes to, seen from outside. */
  ghost function ReadOf(c: Config, taken: seq<Poll>, r: ReadResult, output: seq<byte>, pending: seq<seq<byte>>): Read
    requires r.Delivered? ==> r.size <= |output|
  {
    Read(DecodedAll(c, taken), if r.Delivered? then [output[..r.size]] else [], pending,
         if r.Cancelled? then Optional(r.lost) else [], r.Cancelled?)
  }

  lemma NothingFits(size: nat)
    ensures Fitting([], size) == []
  {
  }

  lemma NoPackets(c: Config, poll: Poll)
    ensures !poll.Yields? ==> DecodedOne(c, poll) == []
    ensures [] + DecodedOne(c, poll) == DecodedOne(c, poll)
  {
  }

  lemma NoBuffers(c: Config, start: seq<seq<byte>>)
    ensures start + DecodedAll(c, []) == start
  {
  }

  lemma NextBuffer(c: Config, device: seq<Poll>, n: nat, start: seq<seq<byte>>, size: nat)
    requires n < |device|
    ensures Fitting(start + DecodedAll(c, device[..n + 1]), size)
         == Fitting(start + DecodedAll(c, device[..n]), size) + Fitting(DecodedOne(c, device[n]), size)
  {
    hide Fitting, DecodedOne, Collect;
    CollectNext(Decoder(c), device, n);
    FittingConcat(start + DecodedAll(c, device[..n]), DecodedOne(c, device[n]), size);
    assert start + DecodedAll(c, device[..n]) + DecodedOne(c, device[n]) == start + DecodedAll(c, device[..n + 1]);
  }

  function DecodedOne(c: Config, poll: Poll): seq<seq<byte>> {
    if !poll.Yields? then []
    else
      match Decode(c, poll.records, 0)
      case Packets(ps) => ps
      case Invalid(_) => []
  }

  /** What a function yields for each poll, one after the other. */
  function Collect(f: Poll -> seq<seq<byte>>, device: seq<Poll>): seq<seq<byte>> {
    if device == [] then [] else f(device[0]) + Collect(f, device[1..])
  }

  function Decoder(c: Config): Poll -> seq<seq<byte>> { poll => DecodedOne(c, poll) }

  function DecodedAll(c: Config, device: seq<Poll>): seq<seq<byte>> { Collect(Decoder(c), device) }

  lemma {:induction false} CollectNext(f: Poll -> seq<seq<byte>>, device: seq<Poll>, n: nat)
    requires n < |device|
    ensures Collect(f, device[..n + 1]) == Collect(f, device[..n]) + f(device[n])
    decreases n
  {
    if n == 0 {
      assert device[..1][1..] == [];
      assert Collect(f, device[..1][1..]) == [];
    } else {
      assert device[..n + 1][1..] == device[1..][..n] && device[..n][1..] == device[1..][..n - 1];
      CollectNext(f, device[1..], n - 1);
    }
  }

  // ------------------------------------------------------ series of reads

  /** Everything a series of reads decoded, everything it delivered, and the queue
      it left. */
  function DecodedBy(calls: seq<Read>): seq<seq<byte>> {
    if calls == [] then [] else calls[0].decoded + DecodedBy(calls[1..])
  }

  function DeliveredBy(calls: seq<Read>): seq<seq<byte>> {
    if calls == [] then [] else calls[0].delivered + DeliveredBy(calls[1..])
  }

  function LeftBy(pending: seq<seq<byte>>, calls: seq<Read>): seq<seq<byte>>
    decreases |calls|
  {
    if calls == [] then pending else LeftBy(calls[0].pending, calls[1..])
  }

  function LostBy(calls: seq<Read>): seq<seq<byte>> {
    if calls == [] then [] else calls[0].lost + LostBy(calls[1..])
  }

  function Cancellations(calls: seq<Read>): nat {
    if calls == [] then 0 else (if calls[0].cancelled then 1 else 0) + Cancellations(calls[1..])
  }

  /** Each read does what `ReadPacket` promises, from the queue the previous left. */
  predicate IsSeries(pending: seq<seq<byte>>, calls: seq<Read>, size: nat)
    decreases |calls|
  {
    calls == [] || (IsRead(pending, calls[0], size) && IsSeries(calls[0].pending, calls[1..], size))
  }

  lemma Associative(a: seq<seq<byte>>, b: seq<seq<byte>>, c: seq<seq<byte>>)
    ensures a + b + c == a + (b + c)
  {
  }

  /** Over any series of reads, successful, failed or cancelled, the packets
      delivered followed by the fitting packets still queued are the packets first
      queued and then decoded, in order, minus those too long; and at most one
      buffer per cancelled read was taken from the device and not decoded. */
  lemma {:induction false} QueueConservation(pending: seq<seq<byte>>, calls: seq<Read>, size: nat)
    requires IsSeries(pending, calls, size)
    ensures |LostBy(calls)| <= Cancellations(calls)
    ensures Fitting(pending + DecodedBy(calls), size) == DeliveredBy(calls) + Fitting(LeftBy(pending, calls), size)
    decreases |calls|
  {
    hide Fitting;
    if calls == [] {
      assert pending + DecodedBy(calls) == pending;
    } else {
      var x, later := calls[0], DecodedBy(calls[1..]);
      QueueConservation(x.pending, calls[1..], size);
      FittingConcat(pending + x.decoded, later, size);
      FittingConcat(x.pending, later, size);
      assert pending + (x.decoded + later) == pending + x.decoded + later;
      Associative(x.delivered, Fitting(x.pending, size), Fitting(later, size));
      Associative(x.delivered, DeliveredBy(calls[1..]), Fitting(LeftBy(pending, calls), size));
    }
  }
}
