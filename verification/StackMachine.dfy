/**
 The stack of fake-tcp/src/lib.rs as interleaved atomic steps: the shared tuple
 table, each reader's private cache and purge channel, and the stages of
 `Drop`. Sockets are numbered in order of creation; a number also stands for
 the sending half of that socket's channel.
 */
module StackMachine {
  import opened Bytes
  import opened Packet
  import opened Socket

  const FIRST_PORT := 32768
  const LAST_PORT := 60999
  const PURGE_CAPACITY := 16
  const QUEUE_CAPACITY := 512

  predicate Ephemeral(port: u16) { FIRST_PORT <= port <= LAST_PORT }

  /** `Drop` removes the table entry, broadcasts the purge, attempts a RST; the
      receiving half of the channel closes last. */
  datatype Phase = Live | Removed | Purged | WasReset | Closed

  /** `taken` is what callers have received from the queue; `removals`, `purges`
      and `resets` count what the socket's drop has done. */
  datatype Sock = Sock(
    tuple: AddrTuple, phase: Phase, queue: seq<Segment>, taken: seq<Segment>, removals: nat, purges: nat, resets: nat)

  /** Where a reader is between two awaits or lock acquisitions. */
  datatype Pc =
    | Selecting
    | Missed(segment: Segment)
    | Found(segment: Segment, id: nat)
    | Sending(segment: Segment, id: nat, hit: bool)
    | Unknown(segment: Segment)
    | Accepting(segment: Segment)

  /** `lagged`: a purge was overwritten before this reader received it. */
  datatype Reader = Reader(alive: bool, cache: map<AddrTuple, nat>, purges: seq<AddrTuple>, lagged: bool, pc: Pc)

  /** The panics outside the readers: the two asserts on the table, and a purge
      broadcast that no reader is left to hear. */
  datatype Fault = DropUnregistered | AcceptOccupied | PurgeUnheard

  datatype Stack = Stack(
    tuples: map<AddrTuple, nat>,
    socks: seq<Sock>,
    readers: seq<Reader>,
    listening: set<u16>,
    fault: Option<Fault>,
    answers: nat,          // RSTs attempted for segments of unknown connections
    heard: seq<Segment>)   // segments received

  datatype Step =
    | Listen(port: u16)
    | Connect(tuple: AddrTuple)
    | Hear(reader: nat, segment: Segment)
    | LookUp(reader: nat)
    | Remember(reader: nat)
    | Enqueue(reader: nat)
    | Respond(reader: nat, sendOk: bool)
    | Admit(reader: nat)
    | Fail(reader: nat)   // a device error, or bytes the parser panics on
    | HearPurge(reader: nat)
    | Take(id: nat)
    | DropRemove(id: nat)
    | DropPurge(id: nat)
    | DropReset(id: nat)
    | DropClose(id: nat)

  function NewReader(): Reader { Reader(true, map[], [], false, Selecting) }

  function Start(readers: nat): Stack {
    Stack(map[], [], seq(readers, _ => NewReader()), {}, None, 0, [])
  }

  function NewSock(t: AddrTuple): Sock { Sock(t, Live, [], [], 0, 0, 0) }

  // ---------------------------------------------------------------- steps

  predicate ReaderAt(s: Stack, r: nat) { r < |s.readers| && s.readers[r].alive }

  predicate SockIn(s: Stack, id: nat, phase: Phase) { id < |s.socks| && s.socks[id].phase == phase }

  predicate Enabled(s: Stack, e: Step) {
    s.fault.None? &&
    match e
    case Listen(port) => port !in s.listening
    case Connect(t) => Ephemeral(t.local.port) && t !in s.tuples
    case Hear(r, _) => ReaderAt(s, r) && s.readers[r].pc.Selecting?
    case LookUp(r) => ReaderAt(s, r) && s.readers[r].pc.Missed?
    case Remember(r) => ReaderAt(s, r) && s.readers[r].pc.Found?
    case Enqueue(r) =>
      && ReaderAt(s, r) && s.readers[r].pc.Sending? && s.readers[r].pc.id < |s.socks|
      && (s.socks[s.readers[r].pc.id].phase.Closed? || |s.socks[s.readers[r].pc.id].queue| < QUEUE_CAPACITY)
    case Respond(r, _) => ReaderAt(s, r) && s.readers[r].pc.Unknown?
    case Admit(r) => ReaderAt(s, r) && s.readers[r].pc.Accepting?
    case Fail(r) => ReaderAt(s, r) && s.readers[r].pc.Selecting?
    case HearPurge(r) =>
      ReaderAt(s, r) && s.readers[r].pc.Selecting? && (s.readers[r].lagged || s.readers[r].purges != [])
    case Take(id) => id < |s.socks| && s.socks[id].queue != []
    case DropRemove(id) => SockIn(s, id, Live)
    case DropPurge(id) => SockIn(s, id, Removed)
    case DropReset(id) => SockIn(s, id, Purged)
    case DropClose(id) => SockIn(s, id, WasReset)
  }

  function SetReader(s: Stack, r: nat, x: Reader): Stack
    requires r < |s.readers|
  {
    s.(readers := s.readers[r := x])
  }

  function SetSock(s: Stack, id: nat, x: Sock): Stack
    requires id < |s.socks|
  {
    s.(socks := s.socks[id := x])
  }

  function Register(s: Stack, t: AddrTuple): Stack {
    s.(tuples := s.tuples[t := |s.socks|], socks := s.socks + [NewSock(t)])
  }

  function Dead(r: Reader): Reader { r.(alive := false, pc := Selecting) }

  function Heard(r: Reader, p: Segment): Reader {
    r.(pc := if TupleOf(p) in r.cache then Sending(p, r.cache[TupleOf(p)], true) else Missed(p))
  }

  function LookedUp(r: Reader, tuples: map<AddrTuple, nat>): Reader
    requires r.pc.Missed?
  {
    var p := r.pc.segment;
    r.(pc := if TupleOf(p) in tuples then Found(p, tuples[TupleOf(p)]) else Unknown(p))
  }

  function Remembered(r: Reader): Reader
    requires r.pc.Found?
  {
    r.(cache := r.cache[TupleOf(r.pc.segment) := r.pc.id], pc := Sending(r.pc.segment, r.pc.id, false))
  }

  /** A closed channel is ignored on a cache hit and fatal right after a miss. */
  function Enqueued(s: Stack, r: nat): Stack
    requires Enabled(s, Enqueue(r))
  {
    var x := s.readers[r];
    var id := x.pc.id;
    if s.socks[id].phase.Closed? then SetReader(s, r, if x.pc.hit then x.(pc := Selecting) else Dead(x))
    else SetReader(SetSock(s, id, s.socks[id].(queue := s.socks[id].queue + [x.pc.segment])), r, x.(pc := Selecting))
  }

  /** A segment of no known connection: go on to accept it, answer with RST, or
      ignore it. */
  function Responded(s: Stack, r: nat, sendOk: bool): Stack
    requires Enabled(s, Respond(r, sendOk))
  {
    var x := s.readers[r];
    var p := x.pc.segment;
    if p.flags == SYN && TupleOf(p).local.port in s.listening && p.seqNo == 0 then
      SetReader(s, r, x.(pc := Accepting(p)))
    else if (p.flags == SYN && TupleOf(p).local.port in s.listening) || !HasRst(p.flags) then
      SetReader(s, r, if sendOk then x.(pc := Selecting) else Dead(x)).(answers := s.answers + 1)
    else SetReader(s, r, x.(pc := Selecting))
  }

  /** The new socket of an accepted SYN enters the table, whose lock was released
      since the reader missed the tuple in it. */
  function Admitted(s: Stack, r: nat): Stack
    requires Enabled(s, Admit(r))
  {
    var t := TupleOf(s.readers[r].pc.segment);
    if t in s.tuples then s.(fault := Some(AcceptOccupied))
    else SetReader(Register(s, t), r, s.readers[r].(pc := Selecting))
  }

  function PurgeHeard(r: Reader): Reader
    requires r.lagged || r.purges != []
  {
    if r.lagged then Dead(r) else r.(purges := r.purges[1..], cache := r.cache - {r.purges[0]})
  }

  /** One purge reaches one live reader; the channel keeps the last 16. */
  function Notified(r: Reader, t: AddrTuple): Reader {
    if !r.alive then r
    else if |r.purges| < PURGE_CAPACITY then r.(purges := r.purges + [t])
    else r.(purges := r.purges[1..] + [t], lagged := true)
  }

  function Broadcast(rs: seq<Reader>, t: AddrTuple): (out: seq<Reader>)
    ensures |out| == |rs|
    ensures forall i :: 0 <= i < |rs| ==> out[i] == Notified(rs[i], t)
  {
    if rs == [] then [] else [Notified(rs[0], t)] + Broadcast(rs[1..], t)
  }

  function Apply(s: Stack, e: Step): Stack
    requires Enabled(s, e)
  {
    match e
    case Listen(port) => s.(listening := s.listening + {port})
    case Connect(t) => Register(s, t)
    case Hear(r, p) =>
      SetReader(s, r, Heard(s.readers[r], p)).(heard := s.heard + [p])
    case LookUp(r) => SetReader(s, r, LookedUp(s.readers[r], s.tuples))
    case Remember(r) => SetReader(s, r, Remembered(s.readers[r]))
    case Enqueue(r) => Enqueued(s, r)
    case Respond(r, sendOk) => Responded(s, r, sendOk)
    case Admit(r) => Admitted(s, r)
    case Fail(r) => SetReader(s, r, Dead(s.readers[r]))
    case HearPurge(r) => SetReader(s, r, PurgeHeard(s.readers[r]))
    case Take(id) =>
      var x := s.socks[id];
      SetSock(s, id, x.(queue := x.queue[1..], taken := x.taken + [x.queue[0]]))
    case DropRemove(id) =>
      var x := s.socks[id];
      if x.tuple !in s.tuples then s.(fault := Some(DropUnregistered))
      else SetSock(s, id, x.(phase := Removed, removals := x.removals + 1)).(tuples := s.tuples - {x.tuple})
    case DropPurge(id) =>
      var x := s.socks[id];
      if forall r :: 0 <= r < |s.readers| ==> !s.readers[r].alive then s.(fault := Some(PurgeUnheard))
      else SetSock(s, id, x.(phase := Purged, purges := x.purges + 1)).(readers := Broadcast(s.readers, x.tuple))
    case DropReset(id) => SetSock(s, id, s.socks[id].(phase := WasReset, resets := s.socks[id].resets + 1))
    case DropClose(id) => SetSock(s, id, s.socks[id].(phase := Closed, queue := []))
  }

  ghost predicate Reaches(s: Stack, steps: seq<Step>, f: Stack)
    decreases |steps|
  {
    if steps == [] then f == s else Enabled(s, steps[0]) && Reaches(Apply(s, steps[0]), steps[1..], f)
  }

  // ------------------------------------------------------------ invariants

  /** The table holds exactly the sockets no drop has removed, one per tuple. */
  ghost predicate Owned(s: Stack) {
    && (forall t :: t in s.tuples ==> SockIn(s, s.tuples[t], Live) && s.socks[s.tuples[t]].tuple == t)
    && (forall i :: 0 <= i < |s.socks| && s.socks[i].phase.Live? ==>
          s.socks[i].tuple in s.tuples && s.tuples[s.socks[i].tuple] == i)
  }

  /** The channel `id` under key `t` is that of a socket with tuple `t`, and it is
      the current one, or its end is on its way to the reader: a purge of `t` is
      queued, or the drop that removed it has yet to broadcast, or the reader has
      lagged and stops at its next purge. */
  predicate Backed(s: Stack, r: Reader, t: AddrTuple, id: nat) {
    && id < |s.socks| && s.socks[id].tuple == t
    && (|| (t in s.tuples && s.tuples[t] == id)
        || t in r.purges
        || s.socks[id].phase.Removed?
        || r.lagged)
  }

  ghost predicate CacheCoherent(s: Stack, r: Reader) {
    forall t :: t in r.cache ==> Backed(s, r, t, r.cache[t])
  }

  predicate PcCoherent(s: Stack, r: Reader) {
    match r.pc
    case Found(p, id) => Backed(s, r, TupleOf(p), id)
    case Sending(p, id, _) => id < |s.socks| && s.socks[id].tuple == TupleOf(p)
    case _ => true
  }

  ghost predicate Coherent(s: Stack) {
    forall r :: 0 <= r < |s.readers| && s.readers[r].alive ==>
      CacheCoherent(s, s.readers[r]) && PcCoherent(s, s.readers[r])
  }

  /** Everything that ever entered a socket's queue, as far as it is still there
      or was received. */
  function Passed(x: Sock): seq<Segment> { x.taken + x.queue }

  /** A socket's queue has only ever held segments addressed to its own tuple. */
  ghost predicate QueuesOwn(s: Stack) {
    forall i, k :: 0 <= i < |s.socks| && 0 <= k < |Passed(s.socks[i])| ==> TupleOf(Passed(s.socks[i])[k]) == s.socks[i].tuple
  }

  /** Each stage of a drop happens once, in order. */
  predicate DropsInOrder(x: Sock) {
    match x.phase
    case Live => x.removals == 0 && x.purges == 0 && x.resets == 0
    case Removed => x.removals == 1 && x.purges == 0 && x.resets == 0
    case Purged => x.removals == 1 && x.purges == 1 && x.resets == 0
    case _ => x.removals == 1 && x.purges == 1 && x.resets == 1
  }

  ghost predicate DropsOnce(s: Stack) {
    forall i :: 0 <= i < |s.socks| ==> DropsInOrder(s.socks[i])
  }

  ghost predicate Inv(s: Stack) {
    Owned(s) && Coherent(s) && QueuesOwn(s) && DropsOnce(s)
  }

  /** A step that touches neither the table nor which sockets are live. */
  lemma OwnedFrame(s: Stack, f: Stack)
    requires Owned(s) && f.tuples == s.tuples && |f.socks| == |s.socks|
    requires forall i :: 0 <= i < |s.socks| ==>
      f.socks[i].tuple == s.socks[i].tuple && (f.socks[i].phase.Live? <==> s.socks[i].phase.Live?)
    ensures Owned(f)
  {
  }

  lemma OwnedRegister(s: Stack, t: AddrTuple)
    requires Owned(s) && t !in s.tuples
    ensures Owned(Register(s, t))
  {
  }

  lemma OwnedRemove(s: Stack, id: nat)
    requires Owned(s) && Enabled(s, DropRemove(id))
    ensures Apply(s, DropRemove(id)).fault.None? && Owned(Apply(s, DropRemove(id)))
    ensures s.socks[id].tuple !in Apply(s, DropRemove(id)).tuples
  {
  }

  /** The assert in `Drop` cannot fire while the table is owned. */
  lemma OwnedKept(s: Stack, e: Step)
    requires Owned(s) && Enabled(s, e)
    ensures Apply(s, e).fault != Some(DropUnregistered)
    ensures Apply(s, e).fault.None? ==> Owned(Apply(s, e))
  {
    hide Owned;
    if e.Connect? {
      OwnedRegister(s, e.tuple);
    } else if e.DropRemove? {
      OwnedRemove(s, e.id);
    } else if e.Admit? {
      var t := TupleOf(s.readers[e.reader].pc.segment);
      if t !in s.tuples {
        OwnedRegister(s, t);
        OwnedFrame(Register(s, t), Apply(s, e));
      }
    } else {
      OwnedFrame(s, Apply(s, e));
    }
  }

  lemma DropsKept(s: Stack, e: Step)
    requires DropsOnce(s) && Enabled(s, e)
    ensures DropsOnce(Apply(s, e))
  {
  }

  lemma QueuesKept(s: Stack, e: Step)
    requires QueuesOwn(s) && Coherent(s) && Enabled(s, e)
    ensures QueuesOwn(Apply(s, e))
  {
    hide CacheCoherent, Backed;
    var f := Apply(s, e);
    if e.Enqueue? {
      assert PcCoherent(s, s.readers[e.reader]);
    }
    forall i | 0 <= i < |f.socks|
      ensures forall k :: 0 <= k < |Passed(f.socks[i])| ==> TupleOf(Passed(f.socks[i])[k]) == f.socks[i].tuple
    {
      if i < |s.socks| {
        PassedGrows(s, e, i);
      }
    }
  }

  /** A step leaves what has passed through a socket as it is, adds the segment a
      reader enqueues, or, when the channel closes, drops what was not received. */
  lemma PassedGrows(s: Stack, e: Step, i: nat)
    requires Enabled(s, e) && i < |s.socks|
    ensures i < |Apply(s, e).socks| && Apply(s, e).socks[i].tuple == s.socks[i].tuple
    ensures var x, y := s.socks[i], Apply(s, e).socks[i];
      || Passed(y) == Passed(x)
      || (e.Enqueue? && s.readers[e.reader].pc.id == i && Passed(y) == Passed(x) + [s.readers[e.reader].pc.segment])
      || (e.DropClose? && Passed(y) == Passed(x)[..|x.taken|])
  {
    var x, y := s.socks[i], Apply(s, e).socks[i];
    if e.Take? && e.id == i {
      assert Passed(y) == Passed(x);
    } else if e.Enqueue? && y != x {
      assert Passed(y) == Passed(x) + [s.readers[e.reader].pc.segment];
    } else if e.DropClose? && e.id == i {
      assert Passed(y) == Passed(x)[..|x.taken|];
    }
  }

  /** What a step may do to the table and the sockets without a reader noticing:
      an entry leaves the table only into the phase before its purge. */
  ghost predicate Announced(s: Stack, f: Stack) {
    && |s.socks| <= |f.socks|
    && (forall i :: 0 <= i < |s.socks| ==>
          f.socks[i].tuple == s.socks[i].tuple && (s.socks[i].phase.Removed? ==> f.socks[i].phase.Removed?))
    && (forall t :: t in s.tuples && s.tuples[t] < |s.socks| ==>
          (t in f.tuples && f.tuples[t] == s.tuples[t]) || f.socks[s.tuples[t]].phase.Removed?)
  }

  /** The entries of a reader stay backed when its channel only gains purges. */
  lemma ReaderFrame(s: Stack, f: Stack, x: Reader, y: Reader)
    requires CacheCoherent(s, x) && PcCoherent(s, x) && Announced(s, f)
    requires y == x
    ensures CacheCoherent(f, y) && PcCoherent(f, y)
  {
    forall t | t in x.cache
      ensures Backed(f, x, t, x.cache[t])
    {
      assert Backed(s, x, t, x.cache[t]);
    }
  }

  lemma CoherentFrame(s: Stack, f: Stack)
    requires Coherent(s) && Announced(s, f) && f.readers == s.readers
    ensures Coherent(f)
  {
    forall r | 0 <= r < |f.readers| && f.readers[r].alive
      ensures CacheCoherent(f, f.readers[r]) && PcCoherent(f, f.readers[r])
    {
      ReaderFrame(s, f, s.readers[r], f.readers[r]);
    }
  }

  /** A purge reaches every live reader, so the purged socket needs no other backing. */
  lemma CoherentPurge(s: Stack, id: nat)
    requires Coherent(s) && Owned(s) && Enabled(s, DropPurge(id)) && Apply(s, DropPurge(id)).fault.None?
    ensures Coherent(Apply(s, DropPurge(id)))
  {
    hide Owned;
    var f := Apply(s, DropPurge(id));
    forall r | 0 <= r < |f.readers| && f.readers[r].alive
      ensures CacheCoherent(f, f.readers[r]) && PcCoherent(f, f.readers[r])
    {
      var x, y := s.readers[r], f.readers[r];
      assert y == Notified(x, s.socks[id].tuple);
      assert CacheCoherent(s, x) && PcCoherent(s, x);
      NotifiedCoherent(s, f, id, x);
    }
  }

  lemma NotifiedCoherent(s: Stack, f: Stack, id: nat, x: Reader)
    requires Enabled(s, DropPurge(id)) && f.tuples == s.tuples
    requires f.socks == s.socks[id := s.socks[id].(phase := Purged, purges := s.socks[id].purges + 1)]
    requires x.alive && CacheCoherent(s, x) && PcCoherent(s, x)
    ensures var y := Notified(x, s.socks[id].tuple); CacheCoherent(f, y) && PcCoherent(f, y)
  {
    var y := Notified(x, s.socks[id].tuple);
    assert s.socks[id].tuple in y.purges;
    assert !y.lagged ==> forall t :: t in x.purges ==> t in y.purges;
    forall t | t in y.cache
      ensures Backed(f, y, t, y.cache[t])
    {
      assert Backed(s, x, t, x.cache[t]);
    }
  }

  /** What the reader itself does next is coherent with the state it sees. */
  lemma ReaderStepCoherent(s: Stack, e: Step)
    requires Coherent(s) && Owned(s) && Enabled(s, e)
    requires e.Hear? || e.LookUp? || e.Remember? || e.Respond? || e.HearPurge? || e.Fail?
    ensures var x := Apply(s, e).readers[e.reader]; x.alive ==> CacheCoherent(s, x) && PcCoherent(s, x)
  {
    var x := s.readers[e.reader];
    assert CacheCoherent(s, x) && PcCoherent(s, x);
    if e.HearPurge? && !x.lagged {
      var y := PurgeHeard(x);
      forall t | t in y.cache
        ensures Backed(s, y, t, y.cache[t])
      {
        assert Backed(s, x, t, x.cache[t]);
        assert t in x.purges ==> t in y.purges;
      }
    }
  }

  lemma SocketStepAnnounced(s: Stack, e: Step)
    requires Enabled(s, e) && Apply(s, e).fault.None? && Owned(s)
    requires e.Listen? || e.Connect? || e.Take? || e.DropRemove? || e.DropReset? || e.DropClose?
    ensures Announced(s, Apply(s, e)) && Apply(s, e).readers == s.readers
  {
  }

  lemma EnqueueAnnounced(s: Stack, r: nat)
    requires Enabled(s, Enqueue(r))
    ensures var f := Apply(s, Enqueue(r));
      r < |f.readers| && f.readers == s.readers[r := f.readers[r]] && Announced(s, f)
    ensures var x, y := s.readers[r], Apply(s, Enqueue(r)).readers[r];
      y == x.(pc := Selecting) || !y.alive
  {
  }

  lemma AdmitAnnounced(s: Stack, r: nat)
    requires Owned(s) && Enabled(s, Admit(r)) && Apply(s, Admit(r)).fault.None?
    ensures var f := Apply(s, Admit(r));
      r < |f.readers| && f.readers == s.readers[r := f.readers[r]] && Announced(s, f)
    ensures Apply(s, Admit(r)).readers[r] == s.readers[r].(pc := Selecting)
  {
  }

  lemma ReaderStepLocal(s: Stack, e: Step)
    requires Enabled(s, e)
    requires e.Hear? || e.LookUp? || e.Remember? || e.Respond? || e.HearPurge? || e.Fail?
    ensures var f := Apply(s, e);
      && e.reader < |s.readers| && |f.readers| == |s.readers|
      && f.readers == s.readers[e.reader := f.readers[e.reader]] && Announced(s, f)
  {
  }

  /** One reader moved and the rest of the step was announced. */
  lemma CoherentMove(s: Stack, f: Stack, r: nat)
    requires Coherent(s) && r < |s.readers| && |f.readers| == |s.readers|
    requires f.readers == s.readers[r := f.readers[r]] && Announced(s, f)
    requires f.readers[r].alive ==> CacheCoherent(s, f.readers[r]) && PcCoherent(s, f.readers[r])
    ensures Coherent(f)
  {
    hide Announced, CacheCoherent, PcCoherent;
    forall i | 0 <= i < |f.readers| && f.readers[i].alive
      ensures CacheCoherent(f, f.readers[i]) && PcCoherent(f, f.readers[i])
    {
      ReaderFrame(s, f, f.readers[i], f.readers[i]);
    }
  }

  lemma CoherentKept(s: Stack, e: Step)
    requires Coherent(s) && Owned(s) && Enabled(s, e) && Apply(s, e).fault.None?
    ensures Coherent(Apply(s, e))
  {
    hide Apply, Owned, Announced;
    var f := Apply(s, e);
    if e.DropPurge? {
      CoherentPurge(s, e.id);
    } else if e.Enqueue? {
      EnqueueAnnounced(s, e.reader);
      CoherentMove(s, f, e.reader);
    } else if e.Admit? {
      AdmitAnnounced(s, e.reader);
      CoherentMove(s, f, e.reader);
    } else if e.Hear? || e.LookUp? || e.Remember? || e.Respond? || e.HearPurge? || e.Fail? {
      ReaderStepLocal(s, e);
      ReaderStepCoherent(s, e);
      CoherentMove(s, f, e.reader);
    } else {
      SocketStepAnnounced(s, e);
      CoherentFrame(s, f);
    }
  }

  lemma InvKept(s: Stack, e: Step)
    requires Inv(s) && Enabled(s, e)
    ensures Apply(s, e).fault.None? ==> Inv(Apply(s, e))
    ensures Apply(s, e).fault != Some(DropUnregistered)
  {
    OwnedKept(s, e);
    DropsKept(s, e);
    QueuesKept(s, e);
    if Apply(s, e).fault.None? {
      CoherentKept(s, e);
    }
  }
}
