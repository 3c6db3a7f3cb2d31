/**
 The handshake of fake-tcp/src/lib.rs across a network that loses, duplicates
 and reorders: one client connect against a listening server. The network is
 the set of segments ever sent; a step may take any of them, any number of times.
 */
module Network {
  import opened Bytes
  import opened Packet
  import opened Socket

  /** A socket seen from outside: inside its handshake loop, handed to a user,
      about to be dropped, or not there (dropped, or never created). */
  datatype End = Absent | Opening(tcb: Tcb) | Open(tcb: Tcb) | Closing(tcb: Tcb)

  datatype World = World(
    net: set<Segment>,
    client: End,
    server: End,
    // history
    synSeen: bool,              // the server has created a socket for a SYN with seq 0
    accepted: bool,             // the client has taken a SYN+ACK
    clientUp: Option<Tcb>,      // the client's fields when it became Established
    serverUp: Option<Tcb>)      // the server's fields when it last became Established

  datatype Event =
    | ClientLoop(env: Env)
    | ClientSend(payload: seq<byte>)
    | ClientRecv(segment: Segment)
    | ClientDrop
    | ClientUnknown(segment: Segment)
    | ServerSyn(segment: Segment)
    | ServerUnknown(segment: Segment)
    | ServerLoop(env: Env)
    | ServerSend(payload: seq<byte>)
    | ServerRecv(segment: Segment)
    | ServerDrop

  function Mirror(c: AddrTuple): AddrTuple { AddrTuple(c.remote, c.local) }

  /** `c` is the client's tuple. */
  predicate ToClient(c: AddrTuple, p: Segment) { TupleOf(p) == c }
  predicate ToServer(c: AddrTuple, p: Segment) { TupleOf(p) == Mirror(c) }

  function Start(net: set<Segment>): World {
    World(net, Opening(NewTcb(None)), Absent, false, false, None, None)
  }

  predicate ArrivalFrom(e: Env, net: set<Segment>, a: AddrTuple) {
    e.arrival.Some? ==> e.arrival.value in net && TupleOf(e.arrival.value) == a
  }

  predicate Enabled(c: AddrTuple, w: World, e: Event) {
    match e
    case ClientLoop(env) => w.client.Opening? && ArrivalFrom(env, w.net, c)
    case ClientSend(_) => w.client.Open?
    case ClientRecv(p) => w.client.Open? && p in w.net && ToClient(c, p)
    case ClientDrop => !w.client.Absent?
    case ClientUnknown(p) => w.client.Absent? && p in w.net && ToClient(c, p)
    case ServerSyn(p) => w.server.Absent? && p in w.net && ToServer(c, p) && p.flags == SYN && p.seqNo == 0
    case ServerUnknown(p) => w.server.Absent? && p in w.net && ToServer(c, p) && !(p.flags == SYN && p.seqNo == 0)
    case ServerLoop(env) => w.server.Opening? && ArrivalFrom(env, w.net, Mirror(c))
    case ServerSend(_) => w.server.Open?
    case ServerRecv(p) => w.server.Open? && p in w.net && ToServer(c, p)
    case ServerDrop => !w.server.Absent?
  }

  function Segments(s: seq<Segment>): set<Segment> {
    set p | p in s
  }

  /** The answer to a segment of an unknown connection, if there is one. */
  function Answer(a: AddrTuple, p: Segment, listening: bool): seq<Segment> {
    if listening && p.flags == SYN then
      [Segment(a.local, a.remote, 0, Wrap32(p.seqNo + |p.payload| + 1), RST_ACK, [])]
    else if HasRst(p.flags) then []
    else [Segment(a.local, a.remote, p.ackNo, Wrap32(p.seqNo + |p.payload|), RST_ACK, [])]
  }

  function EndAfter(p: Progress): End {
    match p.outcome
    case Continue => Opening(p.tcb)
    case Done => Open(p.tcb)
    case _ => Closing(p.tcb)
  }

  function Apply(c: AddrTuple, w: World, e: Event): World
    requires Enabled(c, w, e)
  {
    match e
    case ClientLoop(env) =>
      var t := w.client.tcb;
      var p := ConnectStep(c, t, env);
      w.(net := w.net + Segments(p.sent), client := EndAfter(p),
         accepted := w.accepted || (t.state.SynSent? && env.arrival.Some? && AcceptsSynAck(t, env.arrival.value)),
         clientUp := if p.outcome.Done? then Some(p.tcb) else w.clientUp)
    case ClientSend(payload) =>
      w.(net := w.net + {Outgoing(c, w.client.tcb, ACK, payload)}, client := Open(Sent(w.client.tcb, |payload|)))
    case ClientRecv(p) =>
      var r := Receive(c, w.client.tcb, p);
      w.(net := w.net + Segments(r.sent), client := Open(r.tcb))
    case ClientDrop => w.(net := w.net + {ResetOf(c, w.client.tcb)}, client := Absent)
    case ClientUnknown(p) => w.(net := w.net + Segments(Answer(c, p, false)))
    case ServerSyn(p) => w.(server := Opening(NewTcb(Some(Wrap32(p.seqNo + 1)))), synSeen := true)
    case ServerUnknown(p) => w.(net := w.net + Segments(Answer(Mirror(c), p, true)))
    case ServerLoop(env) =>
      var p := AcceptStep(Mirror(c), w.server.tcb, env);
      w.(net := w.net + Segments(p.sent), server := EndAfter(p),
         serverUp := if p.outcome.Done? then Some(p.tcb) else w.serverUp)
    case ServerSend(payload) =>
      w.(net := w.net + {Outgoing(Mirror(c), w.server.tcb, ACK, payload)}, server := Open(Sent(w.server.tcb, |payload|)))
    case ServerRecv(p) =>
      var r := Receive(Mirror(c), w.server.tcb, p);
      w.(net := w.net + Segments(r.sent), server := Open(r.tcb))
    case ServerDrop => w.(net := w.net + {ResetOf(Mirror(c), w.server.tcb)}, server := Absent)
  }

  ghost predicate Reaches(c: AddrTuple, w: World, events: seq<Event>, v: World)
    decreases |events|
  {
    if events == [] then v == w
    else Enabled(c, w, events[0]) && Reaches(c, Apply(c, w, events[0]), events[1..], v)
  }

  // ------------------------------------------------------------- causality

  /** The server is Established only after the client took a SYN+ACK, which it
      did only after the server saw a SYN; each end starts from its own and its
      peer's initial number plus one (section 3.5 of RFC 9293; both are 0 here). */
  predicate Causal(w: World) {
    && (w.serverUp.Some? ==> w.accepted && w.serverUp.value.seqNo == 1 && w.serverUp.value.ackNo == 1)
    && (w.accepted ==> w.synSeen)
    && (w.clientUp.Some? ==> w.accepted && w.clientUp.value.seqNo == 1 && w.clientUp.value.ackNo == 1)
  }

  /** A segment that would pass for the final ACK, or for the SYN+ACK. */
  predicate LooksFinal(c: AddrTuple, p: Segment) { ToServer(c, p) && p.flags == ACK && p.ackNo == 1 }
  predicate LooksSynAck(c: AddrTuple, p: Segment) { ToClient(c, p) && p.flags == SYN_ACK && p.ackNo == 1 }

  /** No such segment is left over from an earlier connection of the tuple. */
  predicate Clean(c: AddrTuple, net: set<Segment>) {
    forall p :: p in net ==> !LooksFinal(c, p) && !LooksSynAck(c, p)
  }

  predicate NetOk(c: AddrTuple, w: World) {
    forall p :: p in w.net ==>
      && (LooksFinal(c, p) ==> w.accepted)
      && (LooksSynAck(c, p) ==> w.synSeen && p.seqNo == 0)
  }

  predicate ClientOk(w: World) {
    match w.client
    case Opening(t) => t.seqNo == 0 && t.ackNo == 0 && (t.state.Idle? || t.state.SynSent?)
    case Open(_) => w.accepted
    case _ => true
  }

  predicate ServerOk(w: World) {
    match w.server
    case Opening(t) => w.synSeen && t.seqNo == 0 && t.ackNo == 1 && (t.state.Idle? || t.state.SynReceived?)
    case Open(_) => w.accepted
    case _ => true
  }

  predicate Inv(c: AddrTuple, w: World) {
    NetOk(c, w) && ClientOk(w) && ServerOk(w) && Causal(w)
  }

  /** What a step adds to the network is harmless or licensed by the history. */
  lemma NetOkGrows(c: AddrTuple, w: World, v: World, more: set<Segment>)
    requires NetOk(c, w) && v.net == w.net + more
    requires (w.accepted ==> v.accepted) && (w.synSeen ==> v.synSeen)
    requires forall p :: p in more ==> (p.flags == ACK ==> v.accepted) && (p.flags == SYN_ACK ==> v.synSeen && p.seqNo == 0)
    ensures NetOk(c, v)
  {
  }

  lemma ClientStepKeeps(c: AddrTuple, w: World, e: Event)
    requires Inv(c, w) && Enabled(c, w, e)
    requires e.ClientLoop? || e.ClientSend? || e.ClientRecv? || e.ClientDrop? || e.ClientUnknown?
    ensures Inv(c, Apply(c, w, e))
  {
    var v := Apply(c, w, e);
    match e {
      case ClientLoop(env) => NetOkGrows(c, w, v, Segments(ConnectStep(c, w.client.tcb, env).sent));
      case ClientSend(payload) => NetOkGrows(c, w, v, {Outgoing(c, w.client.tcb, ACK, payload)});
      case ClientRecv(p) => NetOkGrows(c, w, v, Segments(Receive(c, w.client.tcb, p).sent));
      case ClientDrop => NetOkGrows(c, w, v, {ResetOf(c, w.client.tcb)});
      case ClientUnknown(p) => NetOkGrows(c, w, v, Segments(Answer(c, p, false)));
    }
  }

  lemma ServerStepKeeps(c: AddrTuple, w: World, e: Event)
    requires Inv(c, w) && Enabled(c, w, e)
    requires !(e.ClientLoop? || e.ClientSend? || e.ClientRecv? || e.ClientDrop? || e.ClientUnknown?)
    ensures Inv(c, Apply(c, w, e))
  {
    var v := Apply(c, w, e);
    match e {
      case ServerSyn(p) => NetOkGrows(c, w, v, {});
      case ServerUnknown(p) => NetOkGrows(c, w, v, Segments(Answer(Mirror(c), p, true)));
      case ServerLoop(env) => NetOkGrows(c, w, v, Segments(AcceptStep(Mirror(c), w.server.tcb, env).sent));
      case ServerSend(payload) => NetOkGrows(c, w, v, {Outgoing(Mirror(c), w.server.tcb, ACK, payload)});
      case ServerRecv(p) => NetOkGrows(c, w, v, Segments(Receive(Mirror(c), w.server.tcb, p).sent));
      case ServerDrop => NetOkGrows(c, w, v, {ResetOf(Mirror(c), w.server.tcb)});
    }
  }

  lemma {:induction false} RunKeeps(c: AddrTuple, w: World, events: seq<Event>, v: World)
    requires Inv(c, w) && Reaches(c, w, events, v)
    ensures Inv(c, v)
    decreases |events|
  {
    if events != [] {
      var e := events[0];
      if e.ClientLoop? || e.ClientSend? || e.ClientRecv? || e.ClientDrop? || e.ClientUnknown? {
        ClientStepKeeps(c, w, e);
      } else {
        ServerStepKeeps(c, w, e);
      }
      RunKeeps(c, Apply(c, w, e), events[1..], v);
    }
  }

  /** Client and server have exchanged SYN and SYN+ACK. */
  predicate SynAckOut(c: AddrTuple, w: World) {
    && w.client == Opening(Tcb(0, 0, 0, SynSent)) && w.server == Opening(Tcb(0, 1, 1, SynReceived))
    && Outgoing(Mirror(c), Tcb(0, 1, 1, Idle), SYN_ACK, []) in w.net
  }

  lemma SynThenSynAck(c: AddrTuple) returns (events: seq<Event>, w: World)
    ensures Reaches(c, Start({}), events, w) && SynAckOut(c, w)
  {
    var syn := Outgoing(c, NewTcb(None), SYN, []);
    var e0, e1, e2 := ClientLoop(Env(true, None)), ServerSyn(syn), ServerLoop(Env(true, None));
    var w1 := Apply(c, Start({}), e0);
    assert syn in w1.net;
    var w2 := Apply(c, w1, e1);
    w := Apply(c, w2, e2);
    ReachesStep(c, w2, e2, [], w);
    ReachesStep(c, w1, e1, [e2], w);
    ReachesStep(c, Start({}), e0, [e1] + [e2], w);
    events := [e0] + ([e1] + [e2]);
  }

  lemma AckCompletes(c: AddrTuple, w: World) returns (events: seq<Event>, v: World)
    requires SynAckOut(c, w)
    ensures Reaches(c, w, events, v)
    ensures v.client == Open(Tcb(1, 1, 1, Established)) && v.clientUp == Some(Tcb(1, 1, 1, Established))
    ensures v.server == Open(Tcb(1, 1, 1, Established)) && v.serverUp == Some(Tcb(1, 1, 1, Established))
  {
    var synAck := Outgoing(Mirror(c), Tcb(0, 1, 1, Idle), SYN_ACK, []);
    var ack := Outgoing(c, Tcb(1, 1, 1, SynSent), ACK, []);
    var e3, e4 := ClientLoop(Env(true, Some(synAck))), ServerLoop(Env(true, Some(ack)));
    var w1 := Apply(c, w, e3);
    assert ack in w1.net;
    v := Apply(c, w1, e4);
    ReachesStep(c, w1, e4, [], v);
    ReachesStep(c, w, e3, [e4], v);
    events := [e3] + [e4];
  }

  lemma {:induction false} ReachesConcat(c: AddrTuple, u: World, a: seq<Event>, w: World, b: seq<Event>, v: World)
    requires Reaches(c, u, a, w) && Reaches(c, w, b, v)
    ensures Reaches(c, u, a + b, v)
    decreases |a|
  {
    hide Apply, Enabled;
    if a == [] {
      assert a + b == b;
    } else {
      ReachesConcat(c, Apply(c, u, a[0]), a[1..], w, b, v);
      assert (a + b)[1..] == a[1..] + b;
    }
  }

  /** The handshake can complete: over an empty network some run establishes both
      ends, each with its own and its peer's initial number plus one. */
  lemma HandshakeCompletes(c: AddrTuple) returns (events: seq<Event>, v: World)
    ensures Reaches(c, Start({}), events, v)
    ensures v.client == Open(Tcb(1, 1, 1, Established)) && v.clientUp == Some(Tcb(1, 1, 1, Established))
    ensures v.server == Open(Tcb(1, 1, 1, Established)) && v.serverUp == Some(Tcb(1, 1, 1, Established))
  {
    hide Reaches;
    var first, w := SynThenSynAck(c);
    var second;
    second, v := AckCompletes(c, w);
    ReachesConcat(c, Start({}), first, w, second, v);
    events := first + second;
  }

  lemma ReachesStep(c: AddrTuple, w: World, e: Event, events: seq<Event>, v: World)
    requires Enabled(c, w, e) && Reaches(c, Apply(c, w, e), events, v)
    ensures Reaches(c, w, [e] + events, v)
  {
    assert ([e] + events)[1..] == events;
  }

  /** A leftover that looks like the final ACK establishes the server alone. */
  lemma StaleAckBreaks(c: AddrTuple, net: set<Segment>, p: Segment) returns (events: seq<Event>, v: World)
    requires p in net && LooksFinal(c, p)
    ensures Reaches(c, Start(net), events, v) && !Causal(v)
  {
    var syn := Outgoing(c, NewTcb(None), SYN, []);
    var e0, e1, e2, e3 := ClientLoop(Env(true, None)), ServerSyn(syn), ServerLoop(Env(true, None)), ServerLoop(Env(true, Some(p)));
    var w1 := Apply(c, Start(net), e0);
    assert syn in w1.net;
    var w2 := Apply(c, w1, e1);
    var w3 := Apply(c, w2, e2);
    v := Apply(c, w3, e3);
    events := [e0, e1, e2, e3];
    assert events[1..] == [e1, e2, e3] && [e1, e2, e3][1..] == [e2, e3] && [e2, e3][1..] == [e3] && [e3][1..] == [];
    assert Reaches(c, v, [], v);
    assert Reaches(c, w3, [e3], v);
    assert Reaches(c, w2, [e2, e3], v);
    assert Reaches(c, w1, [e1, e2, e3], v);
  }

  /** A leftover that looks like a SYN+ACK is taken before any SYN arrived. */
  lemma StaleSynAckBreaks(c: AddrTuple, net: set<Segment>, p: Segment) returns (events: seq<Event>, v: World)
    requires p in net && LooksSynAck(c, p)
    ensures Reaches(c, Start(net), events, v) && !Causal(v)
  {
    var e0, e1 := ClientLoop(Env(true, None)), ClientLoop(Env(true, Some(p)));
    var w1 := Apply(c, Start(net), e0);
    v := Apply(c, w1, e1);
    events := [e0, e1];
    assert events[1..] == [e1] && [e1][1..] == [];
    assert Reaches(c, v, [], v);
    assert Reaches(c, w1, [e1], v);
  }

  // --------------------------------------------------------------- resets

  /** A segment that ends whatever the owner of tuple `a` is doing: `recv` reports it
      and changes nothing, and a waiting handshake of either kind fails in silence. */
  ghost predicate EndsPeer(a: AddrTuple, p: Segment) {
    && TupleOf(p) == a && p.payload == []
    && (forall t: Tcb :: Receive(a, t, p) == Received(t, [], None))
    && (forall t: Tcb, ok: bool :: t.state == SynReceived ==> AcceptStep(a, t, Env(ok, Some(p))) == Progress(t, [], Failed))
    && (forall t: Tcb, ok: bool :: t.state == SynSent ==> ConnectStep(a, t, Env(ok, Some(p))) == Progress(t, [], Failed))
  }

  /** A drop tells the peer: afterwards the network holds a segment addressed to it
      that carries the dropped socket's sequence number and ends what it is doing. */
  lemma DropTellsPeer(c: AddrTuple, w: World)
    ensures Enabled(c, w, ClientDrop) ==>
      exists p :: p in Apply(c, w, ClientDrop).net && EndsPeer(Mirror(c), p) && p.seqNo == w.client.tcb.seqNo && p.ackNo == 0
    ensures Enabled(c, w, ServerDrop) ==>
      exists p :: p in Apply(c, w, ServerDrop).net && EndsPeer(c, p) && p.seqNo == w.server.tcb.seqNo && p.ackNo == 0
  {
    if Enabled(c, w, ClientDrop) {
      assert EndsPeer(Mirror(c), ResetOf(c, w.client.tcb));
    }
    if Enabled(c, w, ServerDrop) {
      assert EndsPeer(c, ResetOf(Mirror(c), w.server.tcb));
    }
  }

  /** The answer to a segment that arrived for tuple `a` and found no socket: none to
      a reset; else one that goes back to the sender and ends what it is doing. It
      acknowledges the end of the segment, and one more for a SYN to a listening
      port; its own number is 0 then and else what the segment acknowledged. */
  lemma AnswerTellsSender(a: AddrTuple, p: Segment, listening: bool)
    requires TupleOf(p) == a
    ensures Resets(p) ==> Answer(a, p, listening) == []
    ensures !Resets(p) ==>
      var syn := listening && p.flags == 0x02;
      && |Answer(a, p, listening)| == 1
      && var q := Answer(a, p, listening)[0];
         && EndsPeer(Mirror(a), q) && q.flags == 0x14
         && q.seqNo == (if syn then 0 else p.ackNo)
         && q.ackNo == (p.seqNo + |p.payload| + if syn then 1 else 0) % 0x1_0000_0000
  {
  }

  ghost predicate AlwaysCausal(c: AddrTuple, w: World) {
    forall events, v :: Reaches(c, w, events, v) ==> Causal(v)
  }

  /** Handshake causality holds in every run exactly when the network holds no
      leftover that could be mistaken for part of this handshake. */
  lemma CausalIffClean(c: AddrTuple, net: set<Segment>)
    ensures AlwaysCausal(c, Start(net)) <==> Clean(c, net)
  {
    if Clean(c, net) {
      forall events, v | Reaches(c, Start(net), events, v)
        ensures Causal(v)
      {
        RunKeeps(c, Start(net), events, v);
      }
    } else {
      var p :| p in net && (LooksFinal(c, p) || LooksSynAck(c, p));
      var events, v;
      if LooksFinal(c, p) {
        events, v := StaleAckBreaks(c, net, p);
      } else {
        events, v := StaleSynAckBreaks(c, net, p);
      }
      assert Reaches(c, Start(net), events, v) && !Causal(v);
    }
  }
}
