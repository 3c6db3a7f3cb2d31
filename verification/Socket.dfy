/**
 The socket of fake-tcp/src/lib.rs: its counters, the datagram operations, and
 the two handshake loops. The value `Tcb` holds the fields the methods update;
 the class updates them in place and is proved against functions of `Tcb`.
 */
module Socket {
  import opened Bytes
  import opened Packet

  const RETRIES := 6
  const MAX_UNACKED_LEN: u32 := 128 * 1024 * 1024

  datatype AddrTuple = AddrTuple(local: SocketAddr, remote: SocketAddr)

  /** The tuple a received segment is dispatched on. */
  function TupleOf(p: Segment): AddrTuple {
    AddrTuple(p.destination, p.source)
  }

  datatype State = Idle | SynSent | SynReceived | Established

  datatype Tcb = Tcb(seqNo: u32, ackNo: u32, lastAck: u32, state: State)

  function NewTcb(ack: Option<u32>): Tcb {
    var a := if ack.Some? then ack.value else 0;
    Tcb(0, a, a, Idle)
  }

  // --------------------------------------------------- segments and datagrams

  function Outgoing(a: AddrTuple, t: Tcb, flags: byte, payload: seq<byte>): Segment {
    Segment(a.local, a.remote, t.seqNo, t.ackNo, flags, payload)
  }

  /** Building any packet records the acknowledgement it carries. */
  function Acked(t: Tcb): Tcb {
    t.(lastAck := t.ackNo)
  }

  function Sent(t: Tcb, len: nat): Tcb {
    Acked(t).(seqNo := Wrap32(t.seqNo + len))
  }

  datatype Received = Received(tcb: Tcb, sent: seq<Segment>, payload: Option<seq<byte>>)

  /** `recv` on one queued segment; no payload means the peer reset the connection. */
  function Receive(a: AddrTuple, t: Tcb, p: Segment): Received {
    if HasRst(p.flags) then Received(t, [], None)
    else
      var u := t.(ackNo := Wrap32(p.seqNo + |p.payload|));
      if Diff32(u.ackNo, t.lastAck) > MAX_UNACKED_LEN
      then Received(Acked(u), [Outgoing(a, u, ACK, [])], Some(p.payload))
      else Received(u, [], Some(p.payload))
  }

  /** The flag with which a peer ends a connection. */
  predicate Resets(p: Segment) { p.flags / 4 % 2 == 1 }

  /** What a receive comes to. A reset is reported and changes nothing. Anything else
      is handed on unchanged and acknowledged up to its end; once that is more than
      128 MiB past the last acknowledgement sent, an empty ACK goes out. */
  lemma ReceiveExact(a: AddrTuple, t: Tcb, p: Segment)
    ensures Resets(p) ==> Receive(a, t, p) == Received(t, [], None)
    ensures !Resets(p) ==>
      var r := Receive(a, t, p);
      var end := (p.seqNo + |p.payload|) % 0x1_0000_0000;
      var idle := (end - t.lastAck) % 0x1_0000_0000 > 134217728;
      && r.payload == Some(p.payload)
      && r.tcb == Tcb(t.seqNo, end, if idle then end else t.lastAck, t.state)
      && r.sent == if idle then [Segment(a.local, a.remote, t.seqNo, end, 0x10, [])] else []
  {
  }

  /** The RST of a dropped socket. */
  function ResetOf(a: AddrTuple, t: Tcb): Segment {
    Segment(a.local, a.remote, t.seqNo, 0, RST, [])
  }

  // ------------------------------------------------------------ handshakes

  /** What the environment does in one loop iteration: whether a send succeeds,
      and what arrives before the timeout, if anything. */
  datatype Env = Env(sendOk: bool, arrival: Option<Segment>)

  /** `Unreachable` stands for an `unreachable!()` arm. */
  datatype Outcome = Continue | Done | Failed | Unreachable

  datatype Progress = Progress(tcb: Tcb, sent: seq<Segment>, outcome: Outcome)

  predicate AcceptsSynAck(t: Tcb, p: Segment) {
    !HasRst(p.flags) && p.flags == SYN_ACK && p.ackNo == Wrap32(t.seqNo + 1)
  }

  predicate AcceptsAck(t: Tcb, p: Segment) {
    !HasRst(p.flags) && p.flags == ACK && p.ackNo == Wrap32(t.seqNo + 1)
  }

  /** The counters of the client once it has taken the SYN+ACK. */
  function Synchronised(t: Tcb, p: Segment): Tcb {
    Acked(t.(seqNo := Wrap32(t.seqNo + 1), ackNo := Wrap32(p.seqNo + 1)))
  }

  /** One iteration of `Socket::connect`. */
  function ConnectStep(a: AddrTuple, t: Tcb, e: Env): Progress {
    match t.state
    case Idle =>
      var syn := Outgoing(a, t, SYN, []);
      if e.sendOk then Progress(Acked(t).(state := SynSent), [syn], Continue)
      else Progress(Acked(t), [syn], Failed)
    case SynSent =>
      if e.arrival.None? then Progress(t.(state := Idle), [], Continue)
      else if HasRst(e.arrival.value.flags) then Progress(t, [], Failed)
      else if AcceptsSynAck(t, e.arrival.value) then
        var u := Synchronised(t, e.arrival.value);
        var ack := Outgoing(a, u, ACK, []);
        if e.sendOk then Progress(u.(state := Established), [ack], Done) else Progress(u, [ack], Failed)
      else Progress(t, [], Continue)
    case _ => Progress(t, [], Unreachable)
  }

  /** One iteration of `Socket::accept`; a failed send panics, which ends it. */
  function AcceptStep(a: AddrTuple, t: Tcb, e: Env): Progress {
    match t.state
    case Idle =>
      var synAck := Outgoing(a, t, SYN_ACK, []);
      if e.sendOk then Progress(Acked(t).(state := SynReceived), [synAck], Continue)
      else Progress(Acked(t), [synAck], Failed)
    case SynReceived =>
      if e.arrival.None? then Progress(t.(state := Idle), [], Continue)
      else if HasRst(e.arrival.value.flags) then Progress(t, [], Failed)
      else if AcceptsAck(t, e.arrival.value) then
        Progress(t.(seqNo := Wrap32(t.seqNo + 1), state := Established), [], Done)
      else Progress(t, [], Continue)
    case _ => Progress(t, [], Unreachable)
  }

  function Step(client: bool, a: AddrTuple, t: Tcb, e: Env): Progress {
    if client then ConnectStep(a, t, e) else AcceptStep(a, t, e)
  }

  function After(sent: seq<Segment>, p: Progress): Progress {
    p.(sent := sent + p.sent)
  }

  /** The whole loop: one iteration per element, failure when they run out. */
  function Handshake(client: bool, a: AddrTuple, t: Tcb, env: seq<Env>): Progress
    decreases |env|
  {
    if env == [] then Progress(t, [], Failed)
    else
      var p := Step(client, a, t, env[0]);
      if p.outcome.Continue? then After(p.sent, Handshake(client, a, p.tcb, env[1..])) else p
  }

  lemma HandshakeUnfold(client: bool, a: AddrTuple, t: Tcb, env: seq<Env>, k: nat)
    requires k <= |env|
    ensures Handshake(client, a, t, env[k..]) ==
      if k == |env| then Progress(t, [], Failed)
      else
        var p := Step(client, a, t, env[k]);
        if p.outcome.Continue? then After(p.sent, Handshake(client, a, p.tcb, env[k + 1..])) else p
  {
    if k < |env| {
      assert env[k..][0] == env[k] && env[k..][1..] == env[k + 1..];
    }
  }

  function CountFlags(s: seq<Segment>, flags: byte): nat {
    if s == [] then 0 else (if s[0].flags == flags then 1 else 0) + CountFlags(s[1..], flags)
  }

  lemma {:induction false} CountFlagsConcat(s: seq<Segment>, r: seq<Segment>, flags: byte)
    ensures CountFlags(s + r, flags) == CountFlags(s, flags) + CountFlags(r, flags)
  {
    if s == [] {
      assert s + r == r;
    } else {
      assert (s + r)[1..] == s[1..] + r;
      CountFlagsConcat(s[1..], r, flags);
    }
  }

  /** The state a loop waits in after it has sent its opening segment. */
  function Waiting(client: bool): State { if client then SynSent else SynReceived }

  function Opening(client: bool): byte { if client then SYN else SYN_ACK }

  /** For any retry limit R: at most ceil(R/2) opening segments; a client sends one
      final ACK if it establishes and at most one otherwise, a server none; the
      loop ends Done exactly when it ends Established; no `unreachable!()` arm
      runs; only Done advances the sequence number of a server. */
  lemma {:induction false} HandshakeBounds(client: bool, a: AddrTuple, t: Tcb, env: seq<Env>)
    requires t.state == Idle || t.state == Waiting(client)
    requires t.seqNo == 0
    ensures var p := Handshake(client, a, t, env);
      && CountFlags(p.sent, Opening(client)) <= (if t.state.Idle? then |env| + 1 else |env|) / 2
      && CountFlags(p.sent, ACK) <= (if client then 1 else 0)
      && (p.outcome.Done? && client ==> CountFlags(p.sent, ACK) == 1)
      && (p.outcome.Done? || p.outcome.Failed?)
      && (p.outcome.Done? <==> p.tcb.state.Established?)
      && (p.outcome.Done? ==> p.tcb.seqNo == 1)
      && (|env| == RETRIES ==> CountFlags(p.sent, Opening(client)) <= 3)
    decreases |env|
  {
    if env != [] {
      var p := Step(client, a, t, env[0]);
      if p.outcome.Continue? {
        HandshakeBounds(client, a, p.tcb, env[1..]);
        var rest := Handshake(client, a, p.tcb, env[1..]);
        CountFlagsConcat(p.sent, rest.sent, Opening(client));
        CountFlagsConcat(p.sent, rest.sent, ACK);
      }
    }
  }

  // --------------------------------------------- exactly when it succeeds

  /** Whether iteration `i` waits for a segment: the first one does if the loop
      starts waiting, and a later one unless its predecessor waited in vain. */
  predicate WaitsAt(waiting: bool, env: seq<Env>, i: nat)
    requires i <= |env|
  {
    if i == 0 then waiting else !WaitsAt(waiting, env, i - 1) || env[i - 1].arrival.Some?
  }

  /** What completes the handshake: SYN+ACK for a client and ACK for a server, of
      exactly these flags, acknowledging the one number its opening segment used. */
  predicate Completes(client: bool, p: Segment) {
    p.flags == (if client then 0x12 else 0x10) && p.ackNo == 1
  }

  /** The loop survives an iteration: its send succeeded, or it waited and got
      nothing or something else. */
  predicate GoesOn(client: bool, waiting: bool, env: seq<Env>, i: nat)
    requires i < |env|
  {
    if WaitsAt(waiting, env, i)
    then env[i].arrival.None? || (!Resets(env[i].arrival.value) && !Completes(client, env[i].arrival.value))
    else env[i].sendOk
  }

  /** The loop ends well in an iteration; a client's last ACK must leave, too. */
  predicate EndsWell(client: bool, waiting: bool, env: seq<Env>, i: nat)
    requires i < |env|
  {
    && WaitsAt(waiting, env, i) && env[i].arrival.Some? && Completes(client, env[i].arrival.value)
    && (client ==> env[i].sendOk)
  }

  predicate SucceedsAt(client: bool, waiting: bool, env: seq<Env>, k: nat) {
    k < |env| && EndsWell(client, waiting, env, k) && forall i :: 0 <= i < k ==> GoesOn(client, waiting, env, i)
  }

  lemma {:induction false} WaitsShift(waiting: bool, env: seq<Env>, i: nat)
    requires i < |env|
    ensures WaitsAt(waiting, env, i + 1) == WaitsAt(!waiting || env[0].arrival.Some?, env[1..], i)
  {
    if i > 0 {
      WaitsShift(waiting, env, i - 1);
      assert env[1..][i - 1] == env[i];
    }
  }

  lemma SucceedsShift(client: bool, waiting: bool, env: seq<Env>, k: nat)
    requires env != []
    ensures SucceedsAt(client, waiting, env, k + 1) <==>
      GoesOn(client, waiting, env, 0) && SucceedsAt(client, !waiting || env[0].arrival.Some?, env[1..], k)
  {
    var later := !waiting || env[0].arrival.Some?;
    forall i: nat | i < |env| - 1
      ensures env[1..][i] == env[i + 1]
      ensures GoesOn(client, waiting, env, i + 1) == GoesOn(client, later, env[1..], i)
      ensures EndsWell(client, waiting, env, i + 1) == EndsWell(client, later, env[1..], i)
    {
      WaitsShift(waiting, env, i);
    }
    if SucceedsAt(client, waiting, env, k + 1) {
      forall i | 0 <= i < k
        ensures GoesOn(client, later, env[1..], i)
      {
        assert GoesOn(client, waiting, env, i + 1);
      }
    }
    if GoesOn(client, waiting, env, 0) && SucceedsAt(client, later, env[1..], k) {
      forall i | 0 <= i < k + 1
        ensures GoesOn(client, waiting, env, i)
      {
        assert i > 0 ==> GoesOn(client, later, env[1..], i - 1);
      }
    }
  }

  /** Where one iteration leads, for client and server. */
  lemma StepLeads(client: bool, waiting: bool, a: AddrTuple, t: Tcb, env: seq<Env>)
    requires env != [] && t.state == (if waiting then Waiting(client) else Idle) && t.seqNo == 0
    ensures var p := Step(client, a, t, env[0]);
      && (p.outcome.Continue? <==> GoesOn(client, waiting, env, 0))
      && (p.outcome.Done? <==> EndsWell(client, waiting, env, 0))
      && (p.outcome.Continue? ==>
            p.tcb.seqNo == 0 && p.tcb.state == if !waiting || env[0].arrival.Some? then Waiting(client) else Idle)
  {
  }

  /** A handshake succeeds exactly when some iteration that waits takes the segment
      that completes it (and a client's last ACK leaves), while every earlier one
      that sends succeeds and every earlier one that waits gets neither a reset nor
      such a segment. */
  lemma {:induction false} HandshakeSucceedsIff(client: bool, waiting: bool, a: AddrTuple, t: Tcb, env: seq<Env>)
    requires t.state == (if waiting then Waiting(client) else Idle) && t.seqNo == 0
    ensures Handshake(client, a, t, env).outcome.Done? <==> exists k :: SucceedsAt(client, waiting, env, k)
    decreases |env|
  {
    if env != [] {
      StepLeads(client, waiting, a, t, env);
      var p := Step(client, a, t, env[0]);
      var later := !waiting || env[0].arrival.Some?;
      hide Step;
      if p.outcome.Continue? {
        HandshakeSucceedsIff(client, later, a, p.tcb, env[1..]);
        if k: nat :| SucceedsAt(client, later, env[1..], k) {
          SucceedsShift(client, waiting, env, k);
        }
        if k: nat :| SucceedsAt(client, waiting, env, k) {
          assert k > 0;
          SucceedsShift(client, waiting, env, k - 1);
        }
      } else {
        assert p.outcome.Done? ==> SucceedsAt(client, waiting, env, 0);
      }
    }
  }

  /** Every segment a handshake sends: from the own to the other address and empty;
      either the opening one, with sequence number 0, or a client's ACK of the peer's
      number, with sequence number 1. */
  lemma {:induction false} HandshakeSends(client: bool, a: AddrTuple, t: Tcb, env: seq<Env>)
    requires (t.state == Idle || t.state == Waiting(client)) && t.seqNo == 0
    ensures var h := Handshake(client, a, t, env);
      forall p :: p in h.sent ==>
        && p.source == a.local && p.destination == a.remote && p.payload == []
        && (|| (p.flags == (if client then 0x02 else 0x12) && p.seqNo == 0 && p.ackNo == t.ackNo)
            || (client && p.flags == 0x10 && p.seqNo == 1 && p.ackNo == h.tcb.ackNo))
    decreases |env|
  {
    if env != [] {
      var p := Step(client, a, t, env[0]);
      if p.outcome.Continue? {
        HandshakeSends(client, a, p.tcb, env[1..]);
      }
    }
  }

  /** What a waiting handshake does with a segment that does not complete it: a reset
      ends it at once and in silence, anything else is as if it had not come. */
  lemma WaitingRefuses(client: bool, a: AddrTuple, t: Tcb, e: Env, rest: seq<Env>)
    requires t.state == Waiting(client) && t.seqNo == 0 && e.arrival.Some?
    ensures Resets(e.arrival.value) ==> Handshake(client, a, t, [e] + rest) == Progress(t, [], Failed)
    ensures !Resets(e.arrival.value) && !Completes(client, e.arrival.value) ==>
      Handshake(client, a, t, [e] + rest) == Handshake(client, a, t, rest)
  {
    assert ([e] + rest)[1..] == rest;
    assert [] + Handshake(client, a, t, rest).sent == Handshake(client, a, t, rest).sent;
  }

  /** Whoever establishes has acknowledged all it has counted: the last packet a
      client builds is its final ACK, and a server counts nothing after its SYN+ACK. */
  lemma {:induction false} HandshakeSynced(client: bool, a: AddrTuple, t: Tcb, env: seq<Env>)
    requires t.state == Idle || t.lastAck == t.ackNo
    ensures var p := Handshake(client, a, t, env); p.outcome.Done? ==> p.tcb.lastAck == p.tcb.ackNo
    decreases |env|
  {
    if env != [] {
      var p := Step(client, a, t, env[0]);
      if p.outcome.Continue? {
        HandshakeSynced(client, a, p.tcb, env[1..]);
      }
    }
  }

  /** A handshake ends Done only through an arrival it accepts, and then its
      numbers are its own start plus one and the peer's start plus one. */
  lemma {:induction false} HandshakeDone(client: bool, a: AddrTuple, t: Tcb, env: seq<Env>)
    requires t.state == Idle || t.state == Waiting(client)
    requires t.seqNo == 0
    ensures var p := Handshake(client, a, t, env);
      p.outcome.Done? ==>
        exists i :: 0 <= i < |env| && env[i].arrival.Some?
          && env[i].arrival.value.ackNo == 1
          && (if client then env[i].arrival.value.flags == SYN_ACK && p.tcb.ackNo == Wrap32(env[i].arrival.value.seqNo + 1)
              else env[i].arrival.value.flags == ACK && p.tcb.ackNo == t.ackNo)
    decreases |env|
  {
    if env != [] {
      var p := Step(client, a, t, env[0]);
      if p.outcome.Continue? {
        HandshakeDone(client, a, p.tcb, env[1..]);
        var r := Handshake(client, a, p.tcb, env[1..]);
        if r.outcome.Done? {
          var i :| 0 <= i < |env[1..]| && env[1..][i].arrival.Some?
            && env[1..][i].arrival.value.ackNo == 1
            && (if client then env[1..][i].arrival.value.flags == SYN_ACK && r.tcb.ackNo == Wrap32(env[1..][i].arrival.value.seqNo + 1)
                else env[1..][i].arrival.value.flags == ACK && r.tcb.ackNo == p.tcb.ackNo);
          assert env[i + 1] == env[1..][i];
        }
      } else if p.outcome.Done? {
        assert env[0].arrival.Some?;
      }
    }
  }

  /** The bound is met: when nothing ever arrives, exactly ceil(R/2) are sent. */
  lemma {:induction false} SilentPeerMeetsBound(client: bool, a: AddrTuple, t: Tcb, retries: nat)
    requires t.state == Idle || t.state == Waiting(client)
    ensures var p := Handshake(client, a, t, seq(retries, _ => Env(true, None)));
      && CountFlags(p.sent, Opening(client)) == (if t.state.Idle? then retries + 1 else retries) / 2
      && (retries == RETRIES ==> CountFlags(p.sent, Opening(client)) == 3)
    decreases retries
  {
    var env := seq(retries, _ => Env(true, None));
    if retries > 0 {
      var p := Step(client, a, t, Env(true, None));
      assert env[1..] == seq(retries - 1, _ => Env(true, None));
      SilentPeerMeetsBound(client, a, p.tcb, retries - 1);
      CountFlagsConcat(p.sent, Handshake(client, a, p.tcb, env[1..]).sent, Opening(client));
    }
  }

  // ---------------------------------------------------------------- class

  datatype RecvResult = Data(size: nat) | Reset | Panic

  class Socket {
    const tuple: AddrTuple
    var seqNo: u32
    var ackNo: u32
    var lastAck: u32
    var state: State

    ghost function View(): Tcb
      reads this
    {
      Tcb(seqNo, ackNo, lastAck, state)
    }

    constructor (tuple: AddrTuple, ack: Option<u32>)
      ensures this.tuple == tuple && View() == NewTcb(ack)
    {
      this.tuple := tuple;
      seqNo := 0;
      ackNo := if ack.Some? then ack.value else 0;
      lastAck := if ack.Some? then ack.value else 0;
      state := Idle;
    }

    method Build(flags: byte, payload: seq<byte>) returns (s: Segment)
      modifies this`lastAck
      ensures View() == Acked(old(View()))
      ensures s == Outgoing(tuple, old(View()), flags, payload)
    {
      lastAck := ackNo;
      s := Segment(tuple.local, tuple.remote, seqNo, ackNo, flags, payload);
    }

    /** `send`: the datagram is handed to the device with the counters as they
        were, and they advance whether or not the device takes it; the caller is
        told only the latter. */
    method Send(payload: seq<byte>, sendOk: bool) returns (s: Segment, result: Option<()>)
      requires state.Established?
      modifies this`seqNo, this`lastAck
      ensures View() == Sent(old(View()), |payload|)
      ensures s == Outgoing(tuple, old(View()), ACK, payload)
      ensures result.Some? <==> sendOk
    {
      s := Build(ACK, payload);
      seqNo := Wrap32(seqNo + |payload|);
      result := if sendOk then Some(()) else None;
    }

    /** The RST with which `Drop` tells the peer. */
    method BuildReset() returns (rst: Segment)
      ensures rst == ResetOf(tuple, View())
      ensures rst.source == tuple.local && rst.destination == tuple.remote && Resets(rst)
      ensures rst.seqNo == seqNo && rst.ackNo == 0 && rst.payload == []
    {
      rst := Segment(tuple.local, tuple.remote, seqNo, 0, RST, []);
    }

    /** `recv` on a packet the parser has taken; it panics exactly on payloads
        longer than the buffer. */
    method RecvSegment(p: Segment, buf: array<byte>) returns (r: RecvResult, sent: seq<Segment>)
      requires state.Established?
      modifies this`ackNo, this`lastAck, buf
      ensures r.Reset? <==> p.flags / 4 % 2 == 1
      ensures r.Reset? ==> View() == old(View()) && sent == []
      ensures var x := Receive(tuple, old(View()), p);
        && View() == x.tcb && sent == x.sent
        && (r.Reset? <==> x.payload.None?)
        && (x.payload.Some? ==> (r.Panic? <==> |x.payload.value| > buf.Length))
        && (r.Data? ==> r.size == |x.payload.value| <= buf.Length && buf[..r.size] == x.payload.value)
    {
      sent := [];
      if HasRst(p.flags) {
        return Reset, [];
      }
      var newAck := Wrap32(p.seqNo + |p.payload|);
      var last := lastAck;
      ackNo := newAck;
      if Diff32(newAck, last) > MAX_UNACKED_LEN {
        var idle := Build(ACK, []);
        sent := [idle];
      }
      if |p.payload| > buf.Length {
        return Panic, sent;
      }
      PutBytes(buf, 0, p.payload);
      r := Data(|p.payload|);
    }

    /** `recv` on the raw packet at the head of the queue. It also panics on bytes
        the parser does not take; the reader queues only what it has parsed. */
    method Recv(raw: seq<byte>, buf: array<byte>) returns (r: RecvResult, sent: seq<Segment>)
      requires state.Established?
      modifies this`ackNo, this`lastAck, buf
      ensures ParseIpPacket(raw).Parsed? ==>
        var x := Receive(tuple, old(View()), ParseIpPacket(raw).segment);
        && View() == x.tcb && sent == x.sent
        && (r.Reset? <==> x.payload.None?)
        && (x.payload.Some? ==> (r.Panic? <==> |x.payload.value| > buf.Length))
        && (r.Data? ==> r.size == |x.payload.value| <= buf.Length && buf[..r.size] == x.payload.value)
      ensures !ParseIpPacket(raw).Parsed? ==> r.Panic? && View() == old(View()) && sent == []
    {
      hide ParseIpPacket;
      var parsed := ParseIpPacket(raw);
      if !parsed.Parsed? {
        return Panic, [];
      }
      r, sent := RecvSegment(parsed.segment, buf);
    }

    /** The body of the loop in `Socket::connect`. */
    method ConnectOnce(e: Env) returns (outcome: Outcome, sent: seq<Segment>)
      requires (state.Idle? || state.SynSent?) && seqNo == 0
      modifies this
      ensures Progress(View(), sent, outcome) == Step(true, tuple, old(View()), e)
      ensures outcome.Continue? ==> (state.Idle? || state.SynSent?) && seqNo == 0
    {
      if state.Idle? {
        var syn := Build(SYN, []);
        if !e.sendOk {
          return Failed, [syn];
        }
        state := SynSent;
        return Continue, [syn];
      }
      if e.arrival.None? {
        state := Idle;
        return Continue, [];
      }
      var p := e.arrival.value;
      if HasRst(p.flags) {
        return Failed, [];
      }
      var expectedAck := Wrap32(seqNo + 1);
      if p.flags == SYN_ACK && p.ackNo == expectedAck {
        seqNo := Wrap32(seqNo + 1);
        ackNo := Wrap32(p.seqNo + 1);
        var ack := Build(ACK, []);
        if !e.sendOk {
          return Failed, [ack];
        }
        state := Established;
        return Done, [ack];
      }
      return Continue, [];
    }

    /** The body of the loop in `Socket::accept`. */
    method AcceptOnce(e: Env) returns (outcome: Outcome, sent: seq<Segment>)
      requires (state.Idle? || state.SynReceived?) && seqNo == 0
      modifies this
      ensures Progress(View(), sent, outcome) == Step(false, tuple, old(View()), e)
      ensures outcome.Continue? ==> (state.Idle? || state.SynReceived?) && seqNo == 0
    {
      if state.Idle? {
        var synAck := Build(SYN_ACK, []);
        if !e.sendOk {
          return Failed, [synAck];
        }
        state := SynReceived;
        return Continue, [synAck];
      }
      if e.arrival.None? {
        state := Idle;
        return Continue, [];
      }
      var p := e.arrival.value;
      if HasRst(p.flags) {
        return Failed, [];
      }
      if p.flags == ACK && p.ackNo == Wrap32(seqNo + 1) {
        seqNo := Wrap32(seqNo + 1);
        state := Established;
        return Done, [];
      }
      return Continue, [];
    }

    /** `Socket::connect`, for any number of iterations. */
    method Connect(env: seq<Env>) returns (ok: bool, sent: seq<Segment>)
      requires state.Idle? && seqNo == 0
      modifies this
      ensures var p := Handshake(true, tuple, old(View()), env);
        View() == p.tcb && sent == p.sent && (ok <==> p.outcome.Done?)
      ensures ok <==> state.Established?
    {
      HandshakeBounds(true, tuple, View(), env);
      hide Step, Handshake;
      sent := [];
      assert env[0..] == env;
      for retry := 0 to |env|
        invariant state.Idle? || state == Waiting(true)
        invariant seqNo == 0
        invariant Handshake(true, tuple, old(View()), env) == After(sent, Handshake(true, tuple, View(), env[retry..]))
      {
        HandshakeUnfold(true, tuple, View(), env, retry);
        var outcome, more := ConnectOnce(env[retry]);
        AfterTwice(sent, more, Handshake(true, tuple, View(), env[retry + 1..]));
        sent := sent + more;
        if !outcome.Continue? {
          return outcome.Done?, sent;
        }
      }
      HandshakeUnfold(true, tuple, View(), env, |env|);
      ok := false;
    }

    /** `Socket::accept`, for any number of iterations. */
    method Accept(env: seq<Env>) returns (ok: bool, sent: seq<Segment>)
      requires state.Idle? && seqNo == 0
      modifies this
      ensures var p := Handshake(false, tuple, old(View()), env);
        View() == p.tcb && sent == p.sent && (ok <==> p.outcome.Done?)
      ensures ok <==> state.Established?
    {
      HandshakeBounds(false, tuple, View(), env);
      hide Step, Handshake;
      sent := [];
      assert env[0..] == env;
      for retry := 0 to |env|
        invariant state.Idle? || state == Waiting(false)
        invariant seqNo == 0
        invariant Handshake(false, tuple, old(View()), env) == After(sent, Handshake(false, tuple, View(), env[retry..]))
      {
        HandshakeUnfold(false, tuple, View(), env, retry);
        var outcome, more := AcceptOnce(env[retry]);
        AfterTwice(sent, more, Handshake(false, tuple, View(), env[retry + 1..]));
        sent := sent + more;
        if !outcome.Continue? {
          return outcome.Done?, sent;
        }
      }
      HandshakeUnfold(false, tuple, View(), env, |env|);
      ok := false;
    }
  }

  lemma AfterTwice(r: seq<Segment>, s: seq<Segment>, p: Progress)
    ensures After(r, After(s, p)) == After(r + s, p)
  {
    assert r + (s + p.sent) == r + s + p.sent;
  }
}
