/**
 What the wrapping counters of an Established socket mean: a run of datagram
 operations against unbounded reference counters, and sends that interleave.
 */
module Counters {
  import opened Bytes
  import opened Packet
  import opened Socket

  datatype Op = Send(payload: seq<byte>) | Recv(segment: Segment)

  datatype Effect = Effect(tcb: Tcb, sent: seq<Segment>)

  function Do(a: AddrTuple, t: Tcb, op: Op): Effect {
    match op
    case Send(payload) => Effect(Sent(t, |payload|), [Outgoing(a, t, ACK, payload)])
    case Recv(p) => Effect(Receive(a, t, p).tcb, Receive(a, t, p).sent)
  }

  function Run(a: AddrTuple, t: Tcb, ops: seq<Op>): Effect
    decreases |ops|
  {
    if ops == [] then Effect(t, [])
    else
      var e := Do(a, t, ops[0]);
      var r := Run(a, e.tcb, ops[1..]);
      Effect(r.tcb, e.sent + r.sent)
  }

  /** With one task, whatever arrives, the unacknowledged distance stays bounded. */
  lemma {:induction false} UnackedBounded(a: AddrTuple, t: Tcb, ops: seq<Op>)
    requires Diff32(t.ackNo, t.lastAck) <= MAX_UNACKED_LEN
    ensures var u := Run(a, t, ops).tcb; Diff32(u.ackNo, u.lastAck) <= MAX_UNACKED_LEN
    decreases |ops|
  {
    if ops != [] {
      UnackedBounded(a, Do(a, t, ops[0]).tcb, ops[1..]);
    }
  }

  // ------------------------------------------------- unbounded reference

  /** Reference counters that never wrap. */
  datatype Ledger = Ledger(received: nat, acknowledged: nat, sent: nat, idleAcks: nat)

  function Owed(l: Ledger): int { l.received - l.acknowledged }

  function Book(l: Ledger, op: Op): Ledger {
    match op
    case Send(payload) => l.(acknowledged := l.received, sent := l.sent + |payload|)
    case Recv(p) =>
      var m := l.(received := l.received + |p.payload|);
      if Owed(m) > MAX_UNACKED_LEN then m.(acknowledged := m.received, idleAcks := m.idleAcks + 1) else m
  }

  function BookAll(l: Ledger, ops: seq<Op>): Ledger
    decreases |ops|
  {
    if ops == [] then l else BookAll(Book(l, ops[0]), ops[1..])
  }

  /** The socket's counters are the reference counters, shifted and wrapped. */
  predicate Refines(t: Tcb, l: Ledger, peerStart: u32, ownStart: u32) {
    && t.ackNo == Wrap32(peerStart + l.received)
    && t.lastAck == Wrap32(peerStart + l.acknowledged)
    && t.seqNo == Wrap32(ownStart + l.sent)
    && 0 <= Owed(l) <= MAX_UNACKED_LEN
  }

  /** The next arrival continues the peer's byte stream; packets are at most 64 KiB. */
  predicate InOrder(l: Ledger, op: Op, peerStart: u32) {
    match op
    case Send(_) => true
    case Recv(p) => !HasRst(p.flags) && p.seqNo == Wrap32(peerStart + l.received) && |p.payload| < 0x1_0000
  }

  predicate InOrderStream(l: Ledger, ops: seq<Op>, peerStart: u32)
    decreases |ops|
  {
    ops == [] || (InOrder(l, ops[0], peerStart) && InOrderStream(Book(l, ops[0]), ops[1..], peerStart))
  }

  lemma WrapAdd(base: int, n: int)
    ensures Wrap32(Wrap32(base) + n) == Wrap32(base + n)
  {
    var q := base / TWO_TO_THE_32;
    assert base + n == Wrap32(base) + n + q * TWO_TO_THE_32;
    ModShift(Wrap32(base) + n, q);
  }

  lemma ModShift(x: int, q: int)
    ensures (x + q * TWO_TO_THE_32) % TWO_TO_THE_32 == x % TWO_TO_THE_32
  {
  }

  /** The wrapped difference of two wrapped counters is their true difference. */
  lemma WrapDiff(base: int, high: nat, low: nat)
    requires 0 <= high - low < TWO_TO_THE_32
    ensures Diff32(Wrap32(base + high), Wrap32(base + low)) == high - low
  {
    var q := (base + high) / TWO_TO_THE_32;
    var r := (base + low) / TWO_TO_THE_32;
    assert Wrap32(base + high) - Wrap32(base + low) == high - low + (r - q) * TWO_TO_THE_32;
    ModShift(high - low, r - q);
  }

  /** One in-order operation keeps the refinement, the wrapped test for an idle
      ACK decides exactly as the unbounded one does, and whatever is sent carries
      the reference counters. */
  lemma DoRefines(a: AddrTuple, t: Tcb, l: Ledger, op: Op, peerStart: u32, ownStart: u32)
    requires Refines(t, l, peerStart, ownStart) && InOrder(l, op, peerStart)
    ensures Refines(Do(a, t, op).tcb, Book(l, op), peerStart, ownStart)
    ensures op.Recv? ==> |Do(a, t, op).sent| == Book(l, op).idleAcks - l.idleAcks
    ensures forall p :: p in Do(a, t, op).sent ==>
      && p.seqNo == Wrap32(ownStart + l.sent) && p.ackNo == Wrap32(peerStart + Book(l, op).acknowledged)
      && p.flags == ACK && p.payload == (if op.Send? then op.payload else [])
    ensures op.Recv? ==> Receive(a, t, op.segment).payload == Some(op.segment.payload)
  {
    hide Wrap32;
    match op {
      case Send(payload) =>
        WrapAdd(ownStart + l.sent, |payload|);
      case Recv(p) =>
        WrapAdd(peerStart + l.received, |p.payload|);
        WrapDiff(peerStart, l.received + |p.payload|, l.acknowledged);
        assert t.(ackNo := Wrap32(p.seqNo + |p.payload|)).ackNo == Wrap32(peerStart + (l.received + |p.payload|));
    }
  }

  /** How many of the operations are sends. */
  function SendCount(ops: seq<Op>): nat
    decreases |ops|
  {
    if ops == [] then 0 else (if ops[0].Send? then 1 else 0) + SendCount(ops[1..])
  }

  /** Over any in-order, loss-free stream the wrapped distance is the true number
      of unacknowledged bytes; the segments that leave are the sends and the idle
      ACKs; and every idle ACK pays for more than MAX_UNACKED_LEN received bytes. */
  lemma {:induction false} WrappingRefinesUnbounded(a: AddrTuple, t: Tcb, l: Ledger, ops: seq<Op>, peerStart: u32, ownStart: u32)
    requires Refines(t, l, peerStart, ownStart) && InOrderStream(l, ops, peerStart)
    requires l.idleAcks * (MAX_UNACKED_LEN + 1) <= l.acknowledged
    ensures var u, m := Run(a, t, ops).tcb, BookAll(l, ops);
      && Refines(u, m, peerStart, ownStart)
      && Diff32(u.ackNo, u.lastAck) == Owed(m)
      && |Run(a, t, ops).sent| == SendCount(ops) + m.idleAcks - l.idleAcks
      && m.idleAcks * (MAX_UNACKED_LEN + 1) <= m.received
    decreases |ops|
  {
    if ops == [] {
      WrapDiff(peerStart, l.received, l.acknowledged);
    } else {
      DoRefines(a, t, l, ops[0], peerStart, ownStart);
      WrappingRefinesUnbounded(a, Do(a, t, ops[0]).tcb, Book(l, ops[0]), ops[1..], peerStart, ownStart);
    }
  }

  /** A socket that comes out of its handshake, client or server, keeps the
      unacknowledged distance bounded whatever one task then does with it. */
  lemma EstablishedUnackedBounded(client: bool, a: AddrTuple, ack: Option<u32>, env: seq<Env>, ops: seq<Op>)
    requires Handshake(client, a, NewTcb(ack), env).outcome.Done?
    ensures var u := Run(a, Handshake(client, a, NewTcb(ack), env).tcb, ops).tcb;
      Diff32(u.ackNo, u.lastAck) <= MAX_UNACKED_LEN
  {
    HandshakeSynced(client, a, NewTcb(ack), env);
    UnackedBounded(a, Handshake(client, a, NewTcb(ack), env).tcb, ops);
  }

  /** On an in-order stream such a socket counts exactly: the wrapped distance is
      the true number of unacknowledged bytes, and besides its sends it emits at
      most one segment for every MAX_UNACKED_LEN + 1 bytes received. */
  lemma EstablishedRefines(client: bool, a: AddrTuple, ack: Option<u32>, env: seq<Env>, ops: seq<Op>)
    requires Handshake(client, a, NewTcb(ack), env).outcome.Done?
    requires InOrderStream(Ledger(0, 0, 0, 0), ops, Handshake(client, a, NewTcb(ack), env).tcb.ackNo)
    ensures var t := Handshake(client, a, NewTcb(ack), env).tcb;
      var r, m := Run(a, t, ops), BookAll(Ledger(0, 0, 0, 0), ops);
      && Refines(r.tcb, m, t.ackNo, t.seqNo)
      && Diff32(r.tcb.ackNo, r.tcb.lastAck) == Owed(m)
      && (|r.sent| - SendCount(ops)) * (MAX_UNACKED_LEN + 1) <= m.received
  {
    var t := Handshake(client, a, NewTcb(ack), env).tcb;
    HandshakeSynced(client, a, NewTcb(ack), env);
    assert Refines(t, Ledger(0, 0, 0, 0), t.ackNo, t.seqNo);
    WrappingRefinesUnbounded(a, t, Ledger(0, 0, 0, 0), ops, t.ackNo, t.seqNo);
  }

  // ----------------------------------------------------- sequence tiling

  function Sends(a: AddrTuple, t: Tcb, payloads: seq<seq<byte>>): seq<Segment>
    decreases |payloads|
  {
    if payloads == [] then []
    else [Outgoing(a, t, ACK, payloads[0])] + Sends(a, Sent(t, |payloads[0]|), payloads[1..])
  }

  /** Sends of one task tile the sequence space: no gap, no overlap, in order. */
  lemma {:induction false} SendsTile(a: AddrTuple, t: Tcb, payloads: seq<seq<byte>>)
    ensures var s := Sends(a, t, payloads);
      && |s| == |payloads|
      && (forall i :: 0 <= i < |s| ==> s[i].payload == payloads[i])
      && (s != [] ==> s[0].seqNo == t.seqNo)
      && (forall i :: 0 < i < |s| ==> s[i].seqNo == Wrap32(s[i - 1].seqNo + |s[i - 1].payload|))
    decreases |payloads|
  {
    hide Wrap32;
    if payloads != [] {
      var u := Sent(t, |payloads[0]|);
      SendsTile(a, u, payloads[1..]);
      var rest := Sends(a, u, payloads[1..]);
      var s := Sends(a, t, payloads);
      forall i | 0 <= i < |s|
        ensures s[i].payload == payloads[i]
        ensures i > 0 ==> s[i].seqNo == Wrap32(s[i - 1].seqNo + |s[i - 1].payload|)
      {
        if i > 1 {
          assert s[i - 1] == rest[i - 2] && s[i] == rest[i - 1];
        } else if i == 1 {
          assert s[1] == rest[0];
        }
      }
    }
  }

  /** Concurrent sends: each task first builds its segment (one load of the
      counter) and later adds its length (one atomic add). */
  datatype Sender = Sender(payload: seq<byte>, steps: nat, seqNo: u32)

  datatype Shared = Shared(seqNo: u32, senders: seq<Sender>)

  function SenderStep(s: Shared, i: nat): Shared
    requires i < |s.senders| && s.senders[i].steps < 2
  {
    var me := s.senders[i];
    if me.steps == 0 then s.(senders := s.senders[i := Sender(me.payload, 1, s.seqNo)])
    else Shared(Wrap32(s.seqNo + |me.payload|), s.senders[i := me.(steps := 2)])
  }

  function SenderRun(s: Shared, schedule: seq<nat>): Option<Shared>
    decreases |schedule|
  {
    if schedule == [] then Some(s)
    else if schedule[0] < |s.senders| && s.senders[schedule[0]].steps < 2
    then SenderRun(SenderStep(s, schedule[0]), schedule[1..])
    else None
  }

  /** Bytes added so far, and all bytes. */
  function Added(senders: seq<Sender>): nat {
    if senders == [] then 0 else (if senders[0].steps == 2 then |senders[0].payload| else 0) + Added(senders[1..])
  }

  function Total(senders: seq<Sender>): nat {
    if senders == [] then 0 else |senders[0].payload| + Total(senders[1..])
  }

  lemma {:induction false} AddedUpdate(senders: seq<Sender>, i: nat, x: Sender)
    requires i < |senders| && x.payload == senders[i].payload && senders[i].steps < 2
    ensures Added(senders[i := x]) == Added(senders) + if x.steps == 2 then |x.payload| else 0
    ensures Total(senders[i := x]) == Total(senders)
  {
    if i > 0 {
      assert senders[i := x][1..] == senders[1..][i - 1 := x];
      AddedUpdate(senders[1..], i - 1, x);
    }
  }

  lemma {:induction false} AllAdded(senders: seq<Sender>)
    requires forall i :: 0 <= i < |senders| ==> senders[i].steps == 2
    ensures Added(senders) == Total(senders)
  {
    if senders != [] {
      AllAdded(senders[1..]);
    }
  }

  /** In every interleaving the counter is its start plus what was added; when
      every send has finished that is the sum of all payload lengths. */
  lemma {:induction false} ConcurrentSendsSum(s: Shared, schedule: seq<nat>, start: int)
    requires s.seqNo == Wrap32(start + Added(s.senders))
    requires SenderRun(s, schedule).Some?
    ensures var f := SenderRun(s, schedule).value;
      && f.seqNo == Wrap32(start + Added(f.senders))
      && Total(f.senders) == Total(s.senders)
      && ((forall i :: 0 <= i < |f.senders| ==> f.senders[i].steps == 2) ==> f.seqNo == Wrap32(start + Total(s.senders)))
    decreases |schedule|
  {
    hide Wrap32;
    if schedule == [] {
      if forall i :: 0 <= i < |s.senders| ==> s.senders[i].steps == 2 {
        AllAdded(s.senders);
      }
    } else {
      var i := schedule[0];
      var me := s.senders[i];
      AddedUpdate(s.senders, i, SenderStep(s, i).senders[i]);
      WrapAdd(start + Added(s.senders), |me.payload|);
      ConcurrentSendsSum(SenderStep(s, i), schedule[1..], start);
    }
  }

  // ---------------------------------------- when concurrent sends tile

  /** The segments of a run in the order of their adds: where each starts, and
      how long it is. */
  datatype Span = Span(seqNo: u32, len: nat)

  function Spans(s: Shared, schedule: seq<nat>): seq<Span>
    requires SenderRun(s, schedule).Some?
    decreases |schedule|
  {
    if schedule == [] then []
    else
      var me := s.senders[schedule[0]];
      (if me.steps == 1 then [Span(me.seqNo, |me.payload|)] else []) + Spans(SenderStep(s, schedule[0]), schedule[1..])
  }

  /** Each segment starts where the previous one ended. */
  predicate Tile(start: u32, spans: seq<Span>)
    decreases |spans|
  {
    spans == [] || (spans[0].seqNo == start && Tile(Wrap32(start + spans[0].len), spans[1..]))
  }

  /** Nobody else has built a segment it has not yet counted. */
  predicate Alone(s: Shared, i: nat) {
    forall j :: 0 <= j < |s.senders| && j != i ==> s.senders[j].steps != 1
  }

  /** No add of a non-empty payload falls between another task's load and add. */
  predicate Exclusive(s: Shared, schedule: seq<nat>)
    requires SenderRun(s, schedule).Some?
    decreases |schedule|
  {
    schedule == [] ||
    var me := s.senders[schedule[0]];
    && (me.steps == 1 && me.payload != [] ==> Alone(s, schedule[0]))
    && Exclusive(SenderStep(s, schedule[0]), schedule[1..])
  }

  /** Every segment under way carries the current counter. */
  predicate Fresh(s: Shared) {
    forall i :: 0 <= i < |s.senders| && s.senders[i].steps == 1 ==> s.senders[i].seqNo == s.seqNo
  }

  predicate Finished(s: Shared) {
    forall i :: 0 <= i < |s.senders| ==> s.senders[i].steps == 2
  }

  lemma {:induction false} AddedAtMostTotal(senders: seq<Sender>)
    ensures Added(senders) <= Total(senders)
  {
    if senders != [] {
      AddedAtMostTotal(senders[1..]);
    }
  }

  /** Once bytes have been added past what task `j` loaded, and fewer than 2^32 in
      all, its segment cannot start where the others end. */
  lemma {:induction false} StaleBreaks(s: Shared, schedule: seq<nat>, j: nat, base: int, loaded: nat)
    requires SenderRun(s, schedule).Some? && Finished(SenderRun(s, schedule).value)
    requires s.seqNo == Wrap32(base + Added(s.senders)) && Total(s.senders) < TWO_TO_THE_32
    requires j < |s.senders| && s.senders[j].steps == 1 && s.senders[j].seqNo == Wrap32(base + loaded)
    requires loaded < Added(s.senders)
    ensures !Tile(s.seqNo, Spans(s, schedule))
    decreases |schedule|
  {
    hide Wrap32;
    if schedule != [] {
      var i := schedule[0];
      var me, f := s.senders[i], SenderStep(s, i);
      var rest := Spans(f, schedule[1..]);
      AddedAtMostTotal(s.senders);
      WrapDiff(base, Added(s.senders), loaded);
      AddedUpdate(s.senders, i, f.senders[i]);
      WrapAdd(base + Added(s.senders), |me.payload|);
      if i != j {
        StaleBreaks(f, schedule[1..], j, base, loaded);
      } else {
        assert Diff32(s.seqNo, me.seqNo) != 0;
        SameDiffersByZero(s.seqNo);
        assert me.seqNo != s.seqNo;
      }
      TileHead(s.seqNo, me, rest);
      assert Spans(s, schedule) == (if me.steps == 1 then [Span(me.seqNo, |me.payload|)] else []) + rest;
    }
  }

  lemma SameDiffersByZero(n: u32)
    ensures Diff32(n, n) == 0
  {
  }

  lemma TileHead(start: u32, me: Sender, rest: seq<Span>)
    ensures Tile(start, [Span(me.seqNo, |me.payload|)] + rest) <==>
            me.seqNo == start && Tile(Wrap32(start + |me.payload|), rest)
    ensures [] + rest == rest
  {
    assert ([Span(me.seqNo, |me.payload|)] + rest)[1..] == rest;
  }

  /** Concurrent sends tile the sequence space exactly when they exclude one
      another: no add of a non-empty payload may fall between another task's load
      and its add. That exclusion suffices needs no bound on the bytes sent; that
      it is necessary is shown for fewer than 2^32 bytes, since a whole turn of
      the counter hides a stale load. */
  lemma {:induction false} ConcurrentSendsTileIff(s: Shared, schedule: seq<nat>)
    requires Fresh(s) && SenderRun(s, schedule).Some?
    ensures Exclusive(s, schedule) ==> Tile(s.seqNo, Spans(s, schedule))
    ensures Finished(SenderRun(s, schedule).value) && Total(s.senders) < TWO_TO_THE_32 ==>
      (Tile(s.seqNo, Spans(s, schedule)) <==> Exclusive(s, schedule))
    decreases |schedule|
  {
    hide Wrap32;
    if schedule != [] {
      var i := schedule[0];
      var me, f := s.senders[i], SenderStep(s, i);
      var rest := Spans(f, schedule[1..]);
      assert Spans(s, schedule) == (if me.steps == 1 then [Span(me.seqNo, |me.payload|)] else []) + rest;
      TileHead(s.seqNo, me, rest);
      AddedUpdate(s.senders, i, f.senders[i]);
      if me.steps == 0 {
        ConcurrentSendsTileIff(f, schedule[1..]);
      } else if me.payload == [] {
        AddNothing(s.seqNo);
        ConcurrentSendsTileIff(f, schedule[1..]);
      } else if Alone(s, i) {
        ConcurrentSendsTileIff(f, schedule[1..]);
      } else if Finished(SenderRun(s, schedule).value) && Total(s.senders) < TWO_TO_THE_32 {
        var j :| 0 <= j < |s.senders| && j != i && s.senders[j].steps == 1;
        var base := s.seqNo - Added(s.senders);
        AddNothing(s.seqNo);
        WrapAdd(s.seqNo, |me.payload|);
        StaleBreaks(f, schedule[1..], j, base, Added(s.senders));
      }
    }
  }

  lemma AddNothing(n: u32)
    ensures Wrap32(n) == n
  {
  }

  // ------------------------------------------------ which callers tile

  /** One task per payload, none of which has begun. */
  function Unstarted(start: u32, payloads: seq<seq<byte>>): Shared {
    Shared(start, seq(|payloads|, i requires 0 <= i < |payloads| => Sender(payloads[i], 0, 0)))
  }

  /** Whatever the interleaving, the sends of these payloads tile. */
  ghost predicate AlwaysTiles(payloads: seq<seq<byte>>) {
    forall start: u32, schedule: seq<nat> ::
      var s := Unstarted(start, payloads);
      SenderRun(s, schedule).Some? && Finished(SenderRun(s, schedule).value) ==> Tile(start, Spans(s, schedule))
  }

  /** One task, or nothing to count. */
  predicate OneOrNothing(payloads: seq<seq<byte>>) {
    |payloads| <= 1 || forall i :: 0 <= i < |payloads| ==> payloads[i] == []
  }

  predicate SameWork(s: Shared, payloads: seq<seq<byte>>) {
    |s.senders| == |payloads| && forall i :: 0 <= i < |payloads| ==> s.senders[i].payload == payloads[i]
  }

  lemma {:induction false} OneOrNothingExclusive(s: Shared, schedule: seq<nat>, payloads: seq<seq<byte>>)
    requires OneOrNothing(payloads) && SameWork(s, payloads) && SenderRun(s, schedule).Some?
    ensures Exclusive(s, schedule)
    decreases |schedule|
  {
    if schedule != [] {
      OneOrNothingExclusive(SenderStep(s, schedule[0]), schedule[1..], payloads);
    }
  }

  /** Steps the tasks still have to take. */
  function StepsLeft(senders: seq<Sender>): nat {
    if senders == [] then 0 else (if senders[0].steps < 2 then 2 - senders[0].steps else 0) + StepsLeft(senders[1..])
  }

  lemma {:induction false} StepsLeftUpdate(senders: seq<Sender>, i: nat, x: Sender)
    requires i < |senders| && senders[i].steps < 2 && x.steps == senders[i].steps + 1
    ensures StepsLeft(senders[i := x]) == StepsLeft(senders) - 1
  {
    if i > 0 {
      assert senders[i := x][1..] == senders[1..][i - 1 := x];
      StepsLeftUpdate(senders[1..], i - 1, x);
    }
  }

  lemma RunStep(s: Shared, i: nat, schedule: seq<nat>)
    requires i < |s.senders| && s.senders[i].steps < 2
    ensures SenderRun(s, [i] + schedule) == SenderRun(SenderStep(s, i), schedule)
    ensures SenderRun(s, [i] + schedule).Some? && Exclusive(s, [i] + schedule) ==>
      && Exclusive(SenderStep(s, i), schedule)
      && (s.senders[i].steps == 1 && s.senders[i].payload != [] ==> Alone(s, i))
  {
    assert ([i] + schedule)[1..] == schedule;
  }

  /** Whatever has begun can be finished. */
  lemma {:induction false} CanFinish(s: Shared) returns (schedule: seq<nat>)
    requires forall i :: 0 <= i < |s.senders| ==> s.senders[i].steps <= 2
    ensures SenderRun(s, schedule).Some? && Finished(SenderRun(s, schedule).value)
    decreases StepsLeft(s.senders)
  {
    if i: nat :| i < |s.senders| && s.senders[i].steps < 2 {
      var f := SenderStep(s, i);
      StepsLeftUpdate(s.senders, i, f.senders[i]);
      var rest := CanFinish(f);
      RunStep(s, i, rest);
      schedule := [i] + rest;
    } else {
      schedule := [];
    }
  }

  /** Two tasks, one of them with bytes to count: the one adds while the other
      stands between its load and its add. */
  lemma OverlapExists(start: u32, payloads: seq<seq<byte>>, i: nat, j: nat) returns (schedule: seq<nat>)
    requires i < |payloads| && j < |payloads| && i != j && payloads[i] != []
    ensures var s := Unstarted(start, payloads);
      SenderRun(s, schedule).Some? && Finished(SenderRun(s, schedule).value) && !Exclusive(s, schedule)
  {
    var s := Unstarted(start, payloads);
    var s1 := SenderStep(s, i);
    var s2 := SenderStep(s1, j);
    var s3 := SenderStep(s2, i);
    assert !Alone(s2, i) by { assert s2.senders[j].steps == 1; }
    var rest := CanFinish(s3);
    hide SenderStep, Alone;
    RunStep(s2, i, rest);
    RunStep(s1, j, [i] + rest);
    RunStep(s, i, [j] + ([i] + rest));
    schedule := [i] + ([j] + ([i] + rest));
  }

  /** Sends of fewer than 2^32 bytes tile in every interleaving exactly when there
      is at most one task or there is nothing to count. */
  lemma TilesForCallersIff(payloads: seq<seq<byte>>)
    requires Total(Unstarted(0, payloads).senders) < TWO_TO_THE_32
    ensures AlwaysTiles(payloads) <==> OneOrNothing(payloads)
  {
    if OneOrNothing(payloads) {
      forall start: u32, schedule: seq<nat> |
        SenderRun(Unstarted(start, payloads), schedule).Some? && Finished(SenderRun(Unstarted(start, payloads), schedule).value)
        ensures Tile(start, Spans(Unstarted(start, payloads), schedule))
      {
        OneOrNothingExclusive(Unstarted(start, payloads), schedule, payloads);
        ConcurrentSendsTileIff(Unstarted(start, payloads), schedule);
      }
    } else {
      var i :| 0 <= i < |payloads| && payloads[i] != [];
      var schedule := OverlapExists(0, payloads, i, if i == 0 then 1 else 0);
      ConcurrentSendsTileIff(Unstarted(0, payloads), schedule);
    }
  }

  /** The failing family is inhabited: two sends that both load before either
      adds carry the same sequence number. */
  lemma ConcurrentSendsOverlap(p: seq<byte>, q: seq<byte>, start: u32)
    ensures var s := Shared(start, [Sender(p, 0, 0), Sender(q, 0, 0)]);
      && SenderRun(s, [0, 1, 0, 1]).Some?
      && Spans(s, [0, 1, 0, 1]) == [Span(start, |p|), Span(start, |q|)]
  {
    var s := Shared(start, [Sender(p, 0, 0), Sender(q, 0, 0)]);
    var s1 := SenderStep(s, 0);
    var s2 := SenderStep(s1, 1);
    var s3 := SenderStep(s2, 0);
    var s4 := SenderStep(s3, 1);
    assert [0, 1, 0, 1][1..] == [1, 0, 1] && [1, 0, 1][1..] == [0, 1] && [0, 1][1..] == [1] && [1][1..] == [];
    assert SenderRun(s3, [1]) == SenderRun(s4, []) == Some(s4);
    assert SenderRun(s2, [0, 1]) == Some(s4);
    assert SenderRun(s1, [1, 0, 1]) == Some(s4);
    assert Spans(s3, [1]) == [Span(start, |q|)];
    assert Spans(s2, [0, 1]) == [Span(start, |p|), Span(start, |q|)];
  }
}
