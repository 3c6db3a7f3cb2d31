# Fake TCP stack and UDP forwarder: a verified model

This project models the userspace "fake TCP" stack of `fake-tcp`, the UDP-to-fake-TCP
forwarder of `phantun-client-mac`, and the macOS packet device between them, and proves
what they keep over every input and every interleaving. Nothing was executed: every
statement below is checked by the Dafny verifier (`dafny verify dfyconfig.toml`).

## How the model is laid out

| file | models |
|---|---|
| `Bytes.dfy`, `InetChecksum.dfy` | integers with explicit widths and byte orders; the checksum of RFC 1071 |
| `Packet.dfy` | builder and parser of `fake-tcp/src/packet.rs` |
| `Framing.dfy`, `Capture.dfy` | link framing, IP normalisation, raw-socket conversions, BPF record decoder and queue of `phantun-client-mac/src/macos_packet.rs` |
| `Socket.dfy`, `Counters.dfy`, `AckWindow.dfy` | `Socket` of `fake-tcp/src/lib.rs`: datagrams, both handshake loops, wrapping counters, and what concurrent callers do to them |
| `Network.dfy` | the handshake across a network that loses, duplicates and reorders |
| `StackMachine.dfy`, `StackTheorems.dfy`, `StackRuntime.dfy` | shared table, reader caches, purges, stages of `Drop`, `Stack::connect`, `reader_task` |
| `ConnTable.dfy`, `TableRuntime.dfy`, `Forwarder.dfy` | the forwarder's connection table, timeout tasks, workers and shutdown, on top of the stack |
| `Fidelity.dfy` | sender to receiver, end to end |

Concurrent code is a transition system: a `datatype` state, one constructor per atomic step
(a step of the stack, the table and the forwarder spans neither an `await` nor two lock
acquisitions; `AckWindow` and the senders of `Counters` go down to single loads, stores and
adds), `Enabled`, `Apply`, and `Reaches` for runs of any length. `Network` takes one iteration
of a handshake loop as one step: the client's taking of the SYN+ACK and the ACK it then sends
fall together. Causality is stated for the taking, and nobody sees the moment between the two,
since the socket is still private to `connect` and the server can take that ACK only once sent.
The classes `Socket`, `BpfCapture`, `Runtime` and `Connections` hold the same fields and update
them in place; their methods are proved against these functions.
Panics are outcomes of the model: `None` from the builder, `Crash` from the parser, `Panic`
from `recv`, a reader that is no longer `alive`, and the `fault` of a stack.

Main results:

- **Cache coherence and ownership.** In every run without a fault, with any number of
  readers, each entry of a live reader's cache is current or its end is on its way, and the
  table holds exactly the sockets no drop has removed. The asserts of the stack can never
  fire *if and only if* nothing listens, or there is one reader and no listening port is in
  32768..=60999; both failing families have a run that shows it.
- **Handshake causality.** The server is Established only after the client took a SYN+ACK,
  which it does only after the server saw a SYN, and both ends agree on the numbers: in
  every run *if and only if* the network holds no leftover that passes for the SYN+ACK or
  the final ACK of this tuple.
- **Handshake outcome and resets.** A handshake succeeds *if and only if* some waiting
  iteration takes the segment that completes it, every earlier send succeeded and no earlier
  waiting iteration got a reset. A dropped socket, or an answer to an unknown segment, puts a
  segment on its way to the peer that ends whatever the peer is doing.
- **Dispatch and conservation.** In every run, a segment heard for a registered tuple (with
  no predecessor cached) is on its way to the tuple's owner or in its queue for as long as
  the owner is not dropped, and the copies of a segment that passed into that queue or are on
  their way are exactly those of the start and those heard since. Over all sockets, what was
  received plus what still waits never exceeds what was heard, however often tuples are reused.
- **Replacement safety, isolation, lifecycle.** A timeout task removes its own entry or,
  only after shutdown, nothing. Every datagram sent to a UDP client comes, one for one, out
  of a heard segment addressed to the tuple of a socket opened for that client. A finished
  connection leaves nobody holding its socket, and its drop frees exactly its tuple. Each
  session has as many workers as configured, and every datagram of a client is handed to one
  of its sockets exactly once, unless no connection came about.
- **Wire and capture.** Built packets carry valid checksums and parse back; the link
  decoder and the record decoder accept exactly their grammars; the queue conserves packets.
- **Counters.** From the handshake on, wrapping counters refine unbounded ones on in-order
  streams. Concurrent sends tile the sequence space *if and only if* no add falls between
  another send's load and add, and whatever the interleaving *if and only if* at most one task
  sends or nothing has bytes. The unacknowledged bound survives concurrency *if and only
  if* a task that receives is the only one that uses the socket.
- **Port choice.** For any interference between two attempts: the port taken is free in the
  table then seen and each earlier one was in use in its own. From any state, it is the
  least free port whatever other tasks do *if and only if* none of them drops a socket or
  there is only one port to try.
- **End to end.** What `send` is given is what `recv` returns, as one theorem through
  framing, record decoding, parsing, dispatch and receive, and in the imperative code.

Where code and documentation differ, the model follows the code. The comment at
fake-tcp/src/lib.rs:520-521 announces a fall-through to the slow path on a closed channel;
the code drops the packet (line 518). The doc comments at lines 168-169 and 186-187 call
`send` and `recv` safe for several threads; that costs sequence tiling
(`ConcurrentSendsTileIff` says exactly when) and the unacknowledged bound (`BoundKeptIff`;
the forwarder, whose main loop sends while workers receive, is among the callers that lose it).

Assumptions about libraries that are not part of this model: `pnet_packet` views follow the
header layouts of RFC 791, RFC 8200 and section 3.1 of RFC 9293, a TCP payload starts after
the options and is empty when the buffer ends there; `internet_checksum` computes RFC 1071;
the BPF header of Darwin has its captured length at 8 and its own length at 16. The host's
byte order is a parameter. Between the raw socket and the capture, an IPv4 header may change
in service type, identification, lifetime and checksum and an IPv6 header in traffic class,
flow label and hop limit; all other bytes arrive as sent. The plain `+` at
fake-tcp/src/lib.rs:323, 567 and 579 is taken modulo 2^32; builds with overflow checks panic
there instead.

## Model

| member | source | states |
|---|---|---|
| InetChecksum.FoldedSumIsOnesSum | fake-tcp/src/packet.rs:67-69 | summing wide and folding once equals the word-by-word end-around-carry sum of RFC 1071, for every byte string |
| InetChecksum.WideSumConcat | fake-tcp/src/packet.rs:105-123 | feeding the accumulator in pieces, all but the last of even length, equals feeding the whole |
| InetChecksum.OddBytePadded | fake-tcp/src/packet.rs:122-123 | an odd last byte counts as the high half of a word, and a word as 256 times its first byte plus its second |
| InetChecksum.ChecksumValidates | fake-tcp/src/packet.rs:123-124 | a checksum computed over a zeroed field makes the receiver's sum 0xffff, odd lengths included |
| Packet.BuildTcpPacket | fake-tcp/src/packet.rs:34-128 | builds exactly the wire image; fails exactly on mixed families or a length that does not fit its 16-bit field |
| Packet.BuildableExact | fake-tcp/src/packet.rs:42-81 | the builder panics exactly on mixed families and on payloads whose packet (IPv4) or segment (IPv6) exceeds 65535 bytes |
| Packet.FillIpv4Header | fake-tcp/src/packet.rs:57-70 | the setters leave the RFC 791 header with its checksum over the zeroed field |
| Packet.FillIpv6Header | fake-tcp/src/packet.rs:71-79 | the setters leave the RFC 8200 header |
| Packet.FillTcpFields | fake-tcp/src/packet.rs:83-98 | the setters leave header, nop and window scale on SYN only, and payload, whatever their order |
| Packet.AccumulateTcpChecksum | fake-tcp/src/packet.rs:100-124 | the piecewise accumulation is the checksum of pseudo-header and segment; neither length cast truncates |
| Packet.TcpChecksumValid | fake-tcp/src/packet.rs:100-124 | every built segment sums to 0xffff with the pseudo-header a receiver takes from the packet itself |
| Packet.WireChecksumValid | fake-tcp/src/packet.rs:100-124 | the same with the receiver's pseudo-header written out byte by byte, for IPv4 and IPv6 |
| Packet.Ipv4HeaderLayout | fake-tcp/src/packet.rs:57-70 | every byte of the IPv4 header but its checksum |
| Packet.Ipv6HeaderLayout | fake-tcp/src/packet.rs:71-79 | every byte of the IPv6 header |
| Packet.TcpHeaderLayout | fake-tcp/src/packet.rs:83-98 | every byte of the TCP header but its checksum, the options of a SYN, and the payload after them |
| Packet.Ipv4ChecksumValid | fake-tcp/src/packet.rs:57-70 | every built IPv4 header sums to 0xffff |
| Packet.ParseBuilt | fake-tcp/src/packet.rs:130-150 | parsing a built packet returns addresses, ports, numbers, flags and payload; only IPv6 flow info and scope id are lost |
| Packet.ParseTakes | fake-tcp/src/packet.rs:130-150 | exactly which buffers are parsed, which are refused and on which the parser panics |
| Packet.ParseReads | fake-tcp/src/packet.rs:130-150 | where each field of any parsed buffer is read, with the payload after any options |
| Packet.WireInjective | fake-tcp/src/packet.rs:34-128 | equal wire images come from equal segments |
| Framing.NormalizeExact | phantun-client-mac/src/macos_packet.rs:524-553 | normalisation returns q exactly when q is the prefix that is a complete unfragmented TCP packet |
| Framing.BuiltIsTcpPacket | fake-tcp/src/packet.rs:42-98 | every built packet is such a complete packet |
| Framing.EthernetNetworkPacket | phantun-client-mac/src/macos_packet.rs:499-522 | the tag loop terminates in bounds on every frame and computes the payload the frame grammar gives |
| Framing.EthernetTypes | phantun-client-mac/src/macos_packet.rs:504-521 | for every type field: 0x0800 and 0x86dd announce the packet, 0x8100, 0x88a8 and 0x9100 a tag to skip, anything else is refused |
| Framing.NullFamilies | phantun-client-mac/src/macos_packet.rs:484-493 | for every four bytes in front: family 2 or 30 in host order announces the packet, anything else is refused |
| Framing.ShortFrames | phantun-client-mac/src/macos_packet.rs:483-502 | frames too short for their link header are refused; raw frames are the packet |
| Framing.SkipTagsUndoes | phantun-client-mac/src/macos_packet.rs:504-521 | any stack of VLAN tags before an IP type field is skipped to exactly the payload |
| Framing.LinkFrameExact | phantun-client-mac/src/macos_packet.rs:481-497 | a frame yields q exactly when it wraps the complete packet q in a supported framing with any tags and padding |
| Framing.FramingTransparent | phantun-client-mac/src/macos_packet.rs:481-553 | any framing and padding of any built packet is undone exactly |
| Framing.MacosRawIpv4Packet | phantun-client-mac/src/macos_packet.rs:691-715 | succeeds exactly on consistent headers; only bytes 2, 3, 6, 7 change, and host-order serialisation restores the packet |
| Framing.BuiltRawIpv4Acceptable | phantun-client-mac/src/macos_packet.rs:692-705 | no built IPv4 packet is refused |
| Framing.Ipv4SegmentPreserved | phantun-client-mac/src/macos_packet.rs:707-714 | under any IPv4 header that kernel and routers may leave, the segment of a built packet parses to what was sent and is a complete packet |
| Framing.Ipv6TcpPayloadExact | phantun-client-mac/src/macos_packet.rs:749-764 | the IPv6 sender takes exactly the complete IPv6 TCP packets and passes on what follows the header |
| Framing.Ipv6PayloadPreserved | phantun-client-mac/src/macos_packet.rs:749-764 | for built IPv6 packets the payload is the segment, and under any header of the kernel it parses to what was sent |
| Capture.WordAlign | phantun-client-mac/src/macos_packet.rs:477-479 | the least multiple of 4 not below the value |
| Capture.DecodeRecords | phantun-client-mac/src/macos_packet.rs:218-282 | the loop equals the recursive decoder with no read out of range; the guard at line 263 is unreachable |
| Capture.HeaderWeights | phantun-client-mac/src/macos_packet.rs:233-243 | the captured length stands at bytes 8 to 11 and the header length at 16 and 17, in host order |
| Capture.RecordErrors | phantun-client-mac/src/macos_packet.rs:226-277 | which of the three errors a bad first record gives |
| Capture.RecordGrammar | phantun-client-mac/src/macos_packet.rs:226-281 | succeeds exactly on sequences of well-formed padded records (last one may be unpadded) and returns the accepted packets in order |
| Capture.SelectedComeFromRemote | phantun-client-mac/src/macos_packet.rs:255-260 | every returned packet is complete, parses without a panic, and has the configured remote as source |
| Capture.RemoteAcceptedIffUnscoped | phantun-client-mac/src/macos_packet.rs:555-561 | the remote's own packets pass exactly when it has no flow info and no scope id |
| Capture.BpfCapture.CopyPendingPacket | phantun-client-mac/src/macos_packet.rs:198-216 | copies out the first packet that fits, drops only longer ones before it, leaves the rest in order |
| Capture.BpfCapture.ReadPacket | phantun-client-mac/src/macos_packet.rs:170-196 | reads the device until one packet fits; no packet of a buffer that decoded is lost if it fits, whatever the outcome; of a buffer with a bad record everything is discarded; a read cancelled during the device call loses that one buffer, any other outcome none |
| Capture.TakeConserves | phantun-client-mac/src/macos_packet.rs:203-214 | the fitting packets before are the one taken followed by the fitting packets after |
| Capture.QueueConservation | phantun-client-mac/src/macos_packet.rs:170-216 | over any series of reads, each bound only by the contract of `ReadPacket`: delivered plus fitting queued equals the fitting packets first queued and then decoded, in order, and at most one buffer per cancelled read went undecoded |
| Socket.Socket.constructor | fake-tcp/src/lib.rs:126-150 | initial counters and state |
| Socket.Socket.Build | fake-tcp/src/lib.rs:152-164 | the segment carries the current counters; only the last acknowledgement is recorded |
| Socket.Socket.Send | fake-tcp/src/lib.rs:173-182 | the datagram leaves with the old sequence number, which then advances by its length modulo 2^32 even if the device fails, which the result reports |
| Socket.ReceiveExact | fake-tcp/src/lib.rs:191-215 | a reset changes nothing; anything else is handed on, acknowledged up to its end, and answered by an empty ACK once more than 128 MiB are unacknowledged |
| Socket.Socket.BuildReset | fake-tcp/src/lib.rs:370-377 | the RST of a drop: own to other address, current sequence number, no acknowledgement |
| Socket.Socket.RecvSegment | fake-tcp/src/lib.rs:194-217 | on a parsed packet: a reset exactly when bit 2 of the flags is set, and then nothing changes and nothing is sent; otherwise counters, idle ACK, data copied unchanged, and a panic exactly on payloads longer than the buffer |
| Socket.Socket.Recv | fake-tcp/src/lib.rs:191-224 | reset, data copied unchanged, idle ACK, and exactly when it panics |
| Socket.Socket.ConnectOnce | fake-tcp/src/lib.rs:273-350 | one iteration of the client loop |
| Socket.Socket.Connect | fake-tcp/src/lib.rs:271-358 | the loop equals the fold of its iterations; it succeeds exactly when the socket is Established |
| Socket.Socket.AcceptOnce | fake-tcp/src/lib.rs:228-267 | one iteration of the server loop |
| Socket.Socket.Accept | fake-tcp/src/lib.rs:226-269 | the loop equals the fold of its iterations; a socket is handed on exactly when Established |
| Socket.HandshakeBounds | fake-tcp/src/lib.rs:226-358 | for any retry limit R: at most ceil(R/2) SYNs (or SYN+ACKs), 3 for the limit of 6, at most one final ACK, no unreachable arm, Done exactly when Established |
| Socket.SilentPeerMeetsBound | fake-tcp/src/lib.rs:272-347 | the ceil(R/2) bound is reached when nothing arrives, 3 for the limit of 6 |
| Socket.HandshakeSynced | fake-tcp/src/lib.rs:321-330 | whoever establishes has its last acknowledgement equal to its current one |
| Socket.HandshakeDone | fake-tcp/src/lib.rs:246-252 | success needs an accepted arrival; the numbers are own start plus one and peer start plus one |
| Socket.HandshakeSucceedsIff | fake-tcp/src/lib.rs:226-358 | client or server, for any environment: success exactly when a waiting iteration takes the completing segment, every earlier send succeeded and no earlier waiting iteration got a reset |
| Socket.WaitingRefuses | fake-tcp/src/lib.rs:240-260 | a waiting handshake fails at once and in silence on a reset and treats any other segment that does not complete it as if it had not come |
| Socket.HandshakeSends | fake-tcp/src/lib.rs:226-330 | every segment sent: addresses, flags, numbers |
| Counters.UnackedBounded | fake-tcp/src/lib.rs:191-220 | with one task, after any operations, (ack - last_ack) mod 2^32 is at most MAX_UNACKED_LEN |
| Counters.EstablishedUnackedBounded | fake-tcp/src/lib.rs:226-358 | the same for every socket that comes out of its handshake |
| Counters.DoRefines | fake-tcp/src/lib.rs:202-215 | one in-order operation keeps the refinement, the wrapped idle-ACK test decides as the unbounded one, and what is sent carries the reference counters |
| Counters.WrappingRefinesUnbounded | fake-tcp/src/lib.rs:152-220 | on any in-order stream the wrapped distance is the true number of unacknowledged bytes; the segments sent are the sends plus the idle ACKs, and each of those pays for more than MAX_UNACKED_LEN bytes |
| Counters.EstablishedRefines | fake-tcp/src/lib.rs:321-330 | the same for every socket that comes out of its handshake: beyond its sends it emits at most one segment per MAX_UNACKED_LEN + 1 bytes received |
| Counters.SendsTile | fake-tcp/src/lib.rs:173-178 | each segment of one task starts where the previous one ended |
| Counters.ConcurrentSendsSum | fake-tcp/src/lib.rs:176-177 | in every interleaving of sends the final sequence number is the start plus all payload lengths |
| Counters.ConcurrentSendsTileIff | fake-tcp/src/lib.rs:173-178 | in every interleaving of sends, exclusion (no add of a non-empty payload between another send's load and add) gives tiling; when all finish and fewer than 2^32 bytes are sent, tiling holds exactly then |
| Counters.TilesForCallersIff | fake-tcp/src/lib.rs:166-178 | sends of fewer than 2^32 bytes tile in every finished interleaving exactly when there is at most one task or every payload is empty |
| Counters.ConcurrentSendsOverlap | fake-tcp/src/lib.rs:168-178 | two sends that both load before either adds carry the same sequence number, from any start |
| AckWindow.UndisturbedSend | fake-tcp/src/lib.rs:152-154 | the two steps of a build, undisturbed, are what the sequential specification does to ack and last_ack |
| AckWindow.UndisturbedRecv | fake-tcp/src/lib.rs:202-215 | so are the steps of a receive, with and without an idle ACK |
| AckWindow.SettlingKept | fake-tcp/src/lib.rs:202-208 | a step that cuts no window keeps every loaded value current and the bound, unless an acknowledgement is on its way |
| AckWindow.UncutKeepsBound | fake-tcp/src/lib.rs:152-208 | for any number of sending and receiving tasks: if no store falls into another task's window, the bound holds whenever no call is under way |
| AckWindow.OneCutBreaks | fake-tcp/src/lib.rs:152-208 | from every quiet state and for every pair of tasks, one cut of either kind of window breaks the bound for good |
| AckWindow.BoundKeptIff | fake-tcp/src/lib.rs:184-208 | the bound survives every interleaving exactly when a task that receives is the only one that uses the socket |
| AckWindow.ForwarderBreaksBound | phantun-client-mac/src/forwarder.rs:62-76 | the main loop sends while workers receive, so some run breaks the bound |
| Network.CausalIffClean | fake-tcp/src/lib.rs:226-358 | causality and number agreement hold in every run exactly when no leftover passes for the SYN+ACK or the final ACK |
| Network.HandshakeCompletes | fake-tcp/src/lib.rs:271-332 | over an empty network some run establishes both ends with those numbers |
| Network.DropTellsPeer | fake-tcp/src/lib.rs:370-380 | after a drop the network holds a segment for the peer, with the dropped socket's number, that recv reports as a reset and that ends a waiting handshake |
| Network.AnswerTellsSender | fake-tcp/src/lib.rs:562-583 | none to a reset; else one segment back to the sender that ends what it is doing, with its flags and both numbers |
| Network.RunKeeps | fake-tcp/src/lib.rs:537-584 | the invariant behind it survives every run, with resets, retries, drops and re-created server sockets |
| StackMachine.OwnedKept | fake-tcp/src/lib.rs:361-366 | every step keeps the table equal to the live sockets; the assert in Drop cannot fire |
| StackMachine.CoherentKept | fake-tcp/src/lib.rs:490-595 | every step keeps every live reader's cache and pending lookup backed |
| StackMachine.InvKept | fake-tcp/src/lib.rs:361-598 | every step keeps ownership, coherence, queue addressing and drop order |
| StackTheorems.CacheCoherence | fake-tcp/src/lib.rs:513-535 | in every run: a cache entry is current, or its purge is queued, or its drop has yet to broadcast, or the reader has lagged |
| StackTheorems.QuietCacheExact | fake-tcp/src/lib.rs:591-595 | a reader with nothing pending has an exact cache |
| StackTheorems.TableOwnership | fake-tcp/src/lib.rs:361-368 | in every run the keys are exactly the tuples of unremoved sockets, one socket per key |
| StackTheorems.AssertsNeverFireIff | fake-tcp/src/lib.rs:524-560 | the asserts never fire exactly when nothing listens, or one reader and no listening ephemeral port |
| StackTheorems.TwoReadersClash | fake-tcp/src/lib.rs:524-559 | a run of two readers in which the accept assert fires |
| StackTheorems.EphemeralListenerClash | fake-tcp/src/lib.rs:443-480 | a run in which a connect takes the tuple between miss and accept |
| StackTheorems.DropFreesOwnTuple | fake-tcp/src/lib.rs:364-366 | a drop (a failed handshake's too) removes its own tuple and no other |
| StackTheorems.DropConservation | fake-tcp/src/lib.rs:361-383 | in every run, faults included, every socket does at most one removal, purge and RST, in order, and exactly one of each by the end of its drop |
| StackTheorems.ResetsBounded | fake-tcp/src/lib.rs:370-380 | over every run, faults included, RSTs attempted are at most sockets created plus non-RST segments received |
| StackTheorems.ChannelsBounded | fake-tcp/src/lib.rs:134 | in every run a queue holds at most 512 segments and a purge channel at most 16 purges |
| StackTheorems.LagsAfterSixteen | fake-tcp/src/lib.rs:406 | the channel keeps the last 16 purges; a reader has lagged exactly when more came than it could keep |
| StackTheorems.ReaderDiesIff | fake-tcp/src/lib.rs:502-592 | the four ways a reader dies, and no other |
| StackTheorems.MissRaceKills | fake-tcp/src/lib.rs:524-532 | from every state with an uncached registered tuple, a drop between look-up and enqueue kills the reader |
| StackTheorems.NothingTwice | fake-tcp/src/lib.rs:506-534 | over every run, a segment was received from sockets and waits in queues at most as often as it was heard, and only at sockets of its tuple |
| StackTheorems.DispatchDelivers | fake-tcp/src/lib.rs:506-534 | some run brings a segment for a registered tuple unchanged to its owner's queue unless a predecessor is still cached |
| StackTheorems.DispatchConserves | fake-tcp/src/lib.rs:506-534 | over every run in which the owner is not dropped, the copies of a segment that passed into its queue or are on their way equal those of the start plus those heard for it |
| StackTheorems.DispatchNeverLoses | fake-tcp/src/lib.rs:506-534 | in every run from the hearing on, while the owner is not dropped, the segment is in the reader's hands bound for the owner or has passed into its queue behind what was there, and the count of copies has grown by this one and those heard since |
| StackTheorems.StaleCacheMisdirects | fake-tcp/src/lib.rs:513-518 | with a predecessor still cached the owner of the tuple does not see the segment |
| StackRuntime.PortChoiceExact | fake-tcp/src/lib.rs:445-487 | a port is taken exactly when it is free in the table then seen and each earlier one was in use in the table seen for it; exhaustion exactly when each was in use when tried |
| StackRuntime.LeastFreeAlone | fake-tcp/src/lib.rs:445-487 | with no other task this is the least free port, and exhaustion means all to 60999 are in use |
| StackRuntime.LeastFreeWithoutDrops | fake-tcp/src/lib.rs:457-478 | with other tasks that drop nothing it is still the least port free at the moment of the choice |
| StackRuntime.AlwaysLeastIff | fake-tcp/src/lib.rs:445-487 | from every state, the port taken is the least free one in every run exactly when nothing is dropped meanwhile or only one port is left to try |
| StackRuntime.DropFreesPassedPort | fake-tcp/src/lib.rs:366-366 | from every state, with at least two ports to try, some interference with drops makes the scan take the second port while the first is free |
| StackRuntime.Runtime.Connect | fake-tcp/src/lib.rs:443-488 | the scan under arbitrary steps of other tasks between two attempts makes exactly that choice and registers the tuple in the table it then sees |
| StackRuntime.Runtime.ConnectAlone | fake-tcp/src/lib.rs:443-488 | without other tasks: least free port or exhaustion, nothing else changed |
| StackRuntime.Runtime.Dispatch | fake-tcp/src/lib.rs:506-534 | cached or looked up, the addressee is cached from then on and the segment goes to the end of its queue, or, exactly when that is full, stays with the waiting reader; the invariant holds |
| StackRuntime.Runtime.HandleUnknown | fake-tcp/src/lib.rs:537-584 | uninterrupted: a SYN for a listening port registers a new socket and no assert fires; any other segment but a RST is answered, and a failed answer kills the reader |
| StackRuntime.Runtime.CatchUp | fake-tcp/src/lib.rs:591-595 | a lagged reader dies on its purges; any other loses exactly the purged tuples from its cache, which is then exact unless a drop is between removal and purge |
| StackRuntime.StaleMeansDropping | fake-tcp/src/lib.rs:364-368 | a reader that has kept up caches a predecessor without a queued purge only while that predecessor's drop is between removal and purge |
| StackRuntime.Runtime.DeliverToOwner | fake-tcp/src/lib.rs:506-595 | a reader takes its purges and a segment, and the owner of the tuple receives what was queued and then it, full queue or not; fails exactly when the reader has lagged or caches a predecessor not yet purged, and then leaves the owner as it was |
| StackRuntime.Runtime.BroadcastPurge | fake-tcp/src/lib.rs:368-368 | every live reader gets the purge; the channel keeps the last 16 |
| StackRuntime.Runtime.Drop | fake-tcp/src/lib.rs:361-383 | all stages: only the own entry leaves the table, every live reader is told, one RST with the socket's number goes from local to remote address, each stage once, coherence kept |
| ConnTable.InvKept | phantun-client-mac/src/forwarder.rs:50-212 | every step of main loop, workers and timeout tasks keeps the table invariant |
| ConnTable.TendedKept | phantun-client-mac/src/forwarder.rs:79-111 | every step keeps a timeout task, present or about to be spawned, for every token ever issued |
| ConnTable.ReplacementSafety | phantun-client-mac/src/forwarder.rs:58-93 | in every interleaving each entry has exactly one active timeout task with its token, the insertion assert never fires, and a removal is of the own entry or, only after shutdown, nothing |
| ConnTable.EvictionIsOwn | phantun-client-mac/src/forwarder.rs:191-207 | a removal leaves the entries of all other sessions in place |
| ConnTable.ShutdownCancelsAll | phantun-client-mac/src/forwarder.rs:117-125 | after shutdown the table stays empty and every token ever issued is cancelled or cancelled next by its own timeout task |
| ConnTable.SessionOpens | phantun-client-mac/src/forwarder.rs:68-111 | whenever the main loop is ready, a client without an entry can get one with a fresh token and its timeout task |
| ConnTable.ReplacementOverlaps | phantun-client-mac/src/forwarder.rs:191-207 | a run in which a successor is open while its predecessor's timeout task is unfinished, and that task then leaves it alone |
| TableRuntime.Connections.InsertAndSpawn | phantun-client-mac/src/forwarder.rs:79-111 | inserts a key that was absent and spawns its tasks |
| TableRuntime.Connections.CloseOnTimeout | phantun-client-mac/src/forwarder.rs:192-202 | removes the own entry or nothing after shutdown; the own token is cancelled either way |
| TableRuntime.Connections.CloseOnQuit | phantun-client-mac/src/forwarder.rs:203-207 | removes no entry with another token |
| TableRuntime.Connections.CancelAll | phantun-client-mac/src/forwarder.rs:117-125 | empties the table and cancels exactly the tokens that were in it |
| Forwarder.InvKept | phantun-client-mac/src/forwarder.rs:34-212 | every step of forwarder and stack together keeps the combined invariant |
| Forwarder.ClientIsolation | phantun-client-mac/src/forwarder.rs:143-168 | whatever goes to a UDP client is the non-empty payload of a segment that the reader heard for the tuple of a socket opened for it, and its own datagrams go only to such sockets |
| Forwarder.DeliveredOnce | phantun-client-mac/src/forwarder.rs:143-168 | in every run, deliveries to clients plus segments still queued come one for one from segments heard |
| Forwarder.WorkerObeysRecv | phantun-client-mac/src/forwarder.rs:147-166 | a worker ends its session when recv gives nothing, skips an empty datagram and delivers any other |
| Forwarder.WorkerDelivers | phantun-client-mac/src/forwarder.rs:149-158 | a datagram is offered once; if that fails the worker and its session end |
| Forwarder.WorkersEndTogether | phantun-client-mac/src/forwarder.rs:157-172 | in every run the session of an ended worker is cancelled |
| Forwarder.WorkersPerSession | phantun-client-mac/src/forwarder.rs:136-141 | in every run each session has as many workers as configured, one at least |
| Forwarder.UploadsConserved | phantun-client-mac/src/forwarder.rs:56-77 | in every run the datagrams of a client are those offered to its sockets, those lost with a failed connect, and the one in hand |
| Forwarder.KnownClientRelayed | phantun-client-mac/src/forwarder.rs:58-66 | a datagram of a client with an entry goes to the socket of that entry |
| Forwarder.HeldSocketsRegistered | phantun-client-mac/src/forwarder.rs:69-104 | whoever holds a socket holds a registered one |
| Forwarder.StackAssertsSilent | phantun-client-mac/src/forwarder.rs:42-48 | no assert of the stack ever fires under the forwarder |
| Forwarder.FinishedConnectionFreesTuple | phantun-client-mac/src/forwarder.rs:127-212 | when a connection's tasks have ended its token is cancelled, nobody holds its socket, and its drop frees its tuple |
| Forwarder.RunsProject | phantun-client-mac/src/forwarder.rs:42-48 | every run of the forwarder is a run of its table and of a one-reader stack that never listens, so their theorems carry over |
| Forwarder.SystemReplacementSafety | phantun-client-mac/src/forwarder.rs:179-212 | replacement safety in runs of the whole system |
| Forwarder.ReplyDelivered | phantun-client-mac/src/forwarder.rs:143-168 | from any reachable state with a waiting worker and an idle reader, a reply to its socket can reach the client unchanged |
| Fidelity.FrameAccepted | phantun-client-mac/src/macos_packet.rs:255-260 | the capture accepts exactly the sent packet out of any framing of it |
| Fidelity.OnWireUnchanged | phantun-client-mac/src/macos_packet.rs:691-724 | the headers admitted on the wire include the one that was built |
| Fidelity.DatagramFidelity | fake-tcp/src/lib.rs:173-220 | among any other records the packet is decoded in place, fits, parses to what was sent, dispatches on the receiver's tuple, and recv returns the payload |
| Fidelity.EndToEnd | fake-tcp/src/lib.rs:173-220 | the whole path as one theorem: captured among any records, decoded, parsed, brought by some run to the queue of the tuple's owner, and received there as the sent bytes |
| Fidelity.EndToEndInEveryRun | fake-tcp/src/lib.rs:506-535 | in every run from the hearing on, while the owner is not dropped, the packet is bound for it or in its queue, as one more copy, and receiving it there yields the sent bytes |
| Fidelity.Transmit | phantun-client-mac/src/macos_packet.rs:680-724 | the raw senders put the segment of the built packet on the wire, under a header that differs at most in the fields left to kernel and routers |
| Fidelity.CaptureOne | phantun-client-mac/src/macos_packet.rs:170-282 | behind the packets that wait already, which are read first and in order, the capture reads the frame of a packet into the reader's buffer as exactly the bytes on the wire |
| Fidelity.SendAndReceive | fake-tcp/src/lib.rs:173-224 | the imperative code end to end, whatever waits in the capture and the queue and whatever the receiver's stack does meanwhile: the buffer of the tuple's owner holds exactly the sent payload and no other socket changes, unless the reader has lagged or caches a predecessor not yet purged |

## Left out

- Foreign calls of the packet device (`ioctl`, `poll`, `sendto`, BPF filter compilation, raw-socket set-up): the device is a source of byte buffers and a sink of packets.
- Firewall rules, the cleanup helper and route parsing: their guarantees are those of external programs.
- Configuration, command line, address discovery, UDP socket binding, the TUN wrappers of other platforms, logging and text output: they would add only one-branch facts.
- Real time: a timeout is a step that may happen at any moment; nothing is claimed about how long a session stays open.
- Liveness: handshakes may fail and readers may die; absence of reader panics is not claimed because the code does not guarantee it.
- RFC conformance of the reset answers at fake-tcp/src/lib.rs:563-582: modelled as written.
- Memory ordering of the relaxed atomics: each load, store and add is one step on one shared value.
- Counters.ConcurrentSendsTileIff: that tiling needs exclusion is stated (here and in `TilesForCallersIff`) for fewer than 2^32 bytes in all, because a whole turn of the counter can hide a stale load; that exclusion suffices has no such bound.
- Network.CausalIffClean: client and server loops may iterate any number of times, a superset of the 6 iterations of the code; the runs that refute causality need at most 2.
- ConnTable.InvKept: a worker may cancel any issued token at any moment, a superset of what workers do; `Forwarder` restricts each worker to its own connection.
- Forwarder.ClientIsolation: whether a handshake succeeds is an arbitrary choice of the step, so the statement holds whatever the peer does; the handshake itself is in `Socket` and `Network`.
- Counters.WrappingRefinesUnbounded: in-order streams only; on late or repeated packets `recv` moves `ack` backwards, as the code does.
