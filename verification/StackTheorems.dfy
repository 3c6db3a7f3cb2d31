/**
 What holds of the stack over whole runs: coherence and ownership, the exact
 condition under which its asserts cannot fire, and the bound on resets.
 */
module StackTheorems {
  import opened Bytes
  import opened Packet
  import opened Socket
  import opened StackMachine

  lemma StartInv(n: nat)
    ensures Inv(Start(n))
  {
  }

  lemma {:induction false} RunKeeps(s: Stack, steps: seq<Step>, f: Stack)
    requires Inv(s) && Reaches(s, steps, f)
    ensures f.fault.None? ==> Inv(f)
    ensures s.fault.None? ==> f.fault != Some(DropUnregistered)
    decreases |steps|
  {
    hide Inv, Enabled, Apply;
    if steps != [] {
      InvKept(s, steps[0]);
      if Apply(s, steps[0]).fault.None? {
        RunKeeps(Apply(s, steps[0]), steps[1..], f);
      } else {
        FaultStops(Apply(s, steps[0]), steps[1..], f);
      }
    }
  }

  lemma FaultStops(s: Stack, steps: seq<Step>, f: Stack)
    requires s.fault.Some? && Reaches(s, steps, f)
    ensures f == s
  {
  }

  /** Cache coherence, with any number of readers: in every run without a fault,
      each entry of a live reader's cache is the current table entry, or a purge
      of its tuple is queued for that reader, or the drop that removed it has yet
      to broadcast, or that reader has lagged. */
  lemma CacheCoherence(n: nat, steps: seq<Step>, f: Stack, r: nat, t: AddrTuple)
    requires Reaches(Start(n), steps, f) && f.fault.None?
    requires r < |f.readers| && f.readers[r].alive && t in f.readers[r].cache
    ensures var x := f.readers[r]; var id := x.cache[t];
      && id < |f.socks| && f.socks[id].tuple == t
      && ((t in f.tuples && f.tuples[t] == id) || t in x.purges || f.socks[id].phase.Removed? || x.lagged)
  {
    StartInv(n);
    RunKeeps(Start(n), steps, f);
    assert CacheCoherent(f, f.readers[r]);
    assert Backed(f, f.readers[r], t, f.readers[r].cache[t]);
  }

  /** A live reader that has kept up and has no purge waiting has an exact cache,
      as long as no drop stands between its removal and its purge. */
  lemma QuietCacheExact(n: nat, steps: seq<Step>, f: Stack, r: nat)
    requires Reaches(Start(n), steps, f) && f.fault.None?
    requires r < |f.readers| && f.readers[r].alive && !f.readers[r].lagged && f.readers[r].purges == []
    requires forall i :: 0 <= i < |f.socks| ==> !f.socks[i].phase.Removed?
    ensures forall t :: t in f.readers[r].cache ==> t in f.tuples && f.tuples[t] == f.readers[r].cache[t]
  {
    forall t | t in f.readers[r].cache
      ensures t in f.tuples && f.tuples[t] == f.readers[r].cache[t]
    {
      CacheCoherence(n, steps, f, r, t);
    }
  }

  /** Table ownership: the keys are exactly the tuples of the sockets no drop has
      removed, and no two of those share a tuple. */
  lemma TableOwnership(n: nat, steps: seq<Step>, f: Stack)
    requires Reaches(Start(n), steps, f) && f.fault.None?
    ensures forall t :: t in f.tuples <==> exists i :: 0 <= i < |f.socks| && f.socks[i].phase.Live? && f.socks[i].tuple == t
    ensures forall i, j | 0 <= i < j < |f.socks| && f.socks[i].phase.Live? && f.socks[j].phase.Live? ::
      f.socks[i].tuple != f.socks[j].tuple
  {
    StartInv(n);
    RunKeeps(Start(n), steps, f);
  }

  /** Dropping a socket frees its own tuple and no other. */
  lemma DropFreesOwnTuple(s: Stack, id: nat)
    requires Inv(s) && Enabled(s, DropRemove(id))
    ensures var f := Apply(s, DropRemove(id)); var t := s.socks[id].tuple;
      && t in s.tuples && s.tuples[t] == id
      && t !in f.tuples
      && (forall u :: u in s.tuples && u != t ==> u in f.tuples && f.tuples[u] == s.tuples[u])
      && f.tuples.Keys == s.tuples.Keys - {t}
  {
    OwnedRemove(s, id);
  }

  // ------------------------------------ when the asserts cannot fire

  predicate AssertFired(s: Stack) {
    s.fault == Some(DropUnregistered) || s.fault == Some(AcceptOccupied)
  }

  predicate ListensWithin(steps: seq<Step>, ports: set<u16>) {
    forall i :: 0 <= i < |steps| && steps[i].Listen? ==> steps[i].port in ports
  }

  /** No assert fires in any run of `n` readers that listens only on `ports`. */
  ghost predicate Safe(n: nat, ports: set<u16>) {
    forall steps, f :: Reaches(Start(n), steps, f) && ListensWithin(steps, ports) ==> !AssertFired(f)
  }

  predicate NoClash(n: nat, ports: set<u16>) {
    ports == {} || (n == 1 && forall p :: p in ports ==> p < 32768 || 60999 < p)
  }

  /** With one reader, a tuple it found absent can only be taken by a connect. */
  predicate MissStands(s: Stack, r: Reader) {
    r.alive && (r.pc.Unknown? || r.pc.Accepting?) ==>
      TupleOf(r.pc.segment) !in s.tuples || Ephemeral(TupleOf(r.pc.segment).local.port)
  }

  predicate AcceptsListened(s: Stack, r: Reader) {
    r.alive && r.pc.Accepting? ==> TupleOf(r.pc.segment).local.port in s.listening
  }

  predicate Guarded(s: Stack, n: nat, ports: set<u16>) {
    && |s.readers| == n && s.listening <= ports && NoClash(n, ports)
    && (n == 1 ==> MissStands(s, s.readers[0]))
    && (forall r :: 0 <= r < n ==> AcceptsListened(s, s.readers[r]))
  }

  /** A step of one reader. */
  predicate ReaderStep(e: Step) {
    e.Hear? || e.LookUp? || e.Remember? || e.Enqueue? || e.Respond? || e.Admit? || e.Fail? || e.HearPurge?
  }

  /** Where a reader is changes only in its own steps. */
  lemma OthersStay(s: Stack, e: Step, r: nat)
    requires Enabled(s, e) && r < |s.readers| && !(ReaderStep(e) && e.reader == r)
    ensures r < |Apply(s, e).readers|
    ensures Apply(s, e).readers[r].alive == s.readers[r].alive && Apply(s, e).readers[r].pc == s.readers[r].pc
  {
  }

  lemma OwnStepAccepts(s: Stack, e: Step)
    requires Enabled(s, e) && ReaderStep(e) && AcceptsListened(s, s.readers[e.reader])
    ensures e.reader < |Apply(s, e).readers| && AcceptsListened(Apply(s, e), Apply(s, e).readers[e.reader])
  {
  }

  lemma ListeningGrows(s: Stack, e: Step)
    requires Enabled(s, e)
    ensures |Apply(s, e).readers| == |s.readers|
    ensures Apply(s, e).listening == s.listening + if e.Listen? then {e.port} else {}
  {
  }

  lemma AcceptsKept(s: Stack, e: Step)
    requires Enabled(s, e) && forall r :: 0 <= r < |s.readers| ==> AcceptsListened(s, s.readers[r])
    ensures |Apply(s, e).readers| == |s.readers|
    ensures Apply(s, e).listening == s.listening + if e.Listen? then {e.port} else {}
    ensures forall r :: 0 <= r < |s.readers| ==> AcceptsListened(Apply(s, e), Apply(s, e).readers[r])
  {
    ListeningGrows(s, e);
    forall r | 0 <= r < |s.readers|
      ensures AcceptsListened(Apply(s, e), Apply(s, e).readers[r])
    {
      hide Apply, Enabled;
      assert AcceptsListened(s, s.readers[r]);
      if ReaderStep(e) && e.reader == r {
        OwnStepAccepts(s, e);
      } else {
        OthersStay(s, e, r);
      }
    }
  }

  lemma MissKept(s: Stack, e: Step)
    requires Enabled(s, e) && |s.readers| == 1 && MissStands(s, s.readers[0])
    ensures Apply(s, e).fault.None? ==> MissStands(Apply(s, e), Apply(s, e).readers[0])
  {
  }

  lemma GuardedKept(s: Stack, e: Step, n: nat, ports: set<u16>)
    requires Guarded(s, n, ports) && Enabled(s, e) && (e.Listen? ==> e.port in ports)
    ensures Apply(s, e).fault != Some(AcceptOccupied)
    ensures Apply(s, e).fault.None? ==> Guarded(Apply(s, e), n, ports)
  {
    if e.Admit? {
      assert AcceptsListened(s, s.readers[e.reader]);
      assert TupleOf(s.readers[e.reader].pc.segment) !in s.tuples;
    }
    AcceptsKept(s, e);
    if n == 1 {
      MissKept(s, e);
    }
    hide MissStands, AcceptsListened;
  }

  lemma {:induction false} GuardedRun(s: Stack, steps: seq<Step>, f: Stack, n: nat, ports: set<u16>)
    requires Inv(s) && s.fault.None? && Guarded(s, n, ports)
    requires Reaches(s, steps, f) && ListensWithin(steps, ports)
    ensures !AssertFired(f)
    decreases |steps|
  {
    hide Inv, Guarded, Enabled, Apply;
    if steps != [] {
      InvKept(s, steps[0]);
      GuardedKept(s, steps[0], n, ports);
      if Apply(s, steps[0]).fault.None? {
        GuardedRun(Apply(s, steps[0]), steps[1..], f, n, ports);
      } else {
        FaultStops(Apply(s, steps[0]), steps[1..], f);
      }
    }
  }

  lemma ReachesStep(s: Stack, e: Step, steps: seq<Step>, f: Stack)
    requires Enabled(s, e) && Reaches(Apply(s, e), steps, f)
    ensures Reaches(s, [e] + steps, f)
  {
    assert ([e] + steps)[1..] == steps;
  }

  /** The SYN of some remote to a local port. */
  function SynTo(port: u16): Segment {
    Segment(V4([10, 0, 0, 2], 5000), V4([10, 0, 0, 1], port), 0, 0, SYN, [])
  }

  /** A reader that has missed a tuple, and the steps in which it accepts its SYN. */
  function AcceptSteps(r: nat): seq<Step> { [Respond(r, true)] + ([Admit(r)] + []) }

  /** The accept of a reader after which the tuple is, or was already, taken. */
  lemma AcceptRuns(s: Stack, r: nat, p: Segment, port: u16) returns (f: Stack)
    requires s.fault.None? && ReaderAt(s, r) && s.readers[r].pc == Unknown(p)
    requires p == SynTo(port) && port in s.listening
    ensures Reaches(s, AcceptSteps(r), f)
    ensures if TupleOf(p) in s.tuples then AssertFired(f)
            else f == SetReader(Register(s, TupleOf(p)), r, s.readers[r].(pc := Selecting))
  {
    var m := Apply(s, Respond(r, true));
    assert m.readers[r].pc == Accepting(p);
    f := Apply(m, Admit(r));
    ReachesStep(m, Admit(r), [], f);
    ReachesStep(s, Respond(r, true), [Admit(r)] + [], f);
    if TupleOf(p) !in s.tuples {
      assert f.readers == s.readers[r := s.readers[r].(pc := Selecting)];
    }
  }

  lemma {:induction false} ReachesConcat(s: Stack, a: seq<Step>, m: Stack, b: seq<Step>, f: Stack)
    requires Reaches(s, a, m) && Reaches(m, b, f)
    ensures Reaches(s, a + b, f)
    decreases |a|
  {
    hide Enabled, Apply;
    if a == [] {
      assert a + b == b;
    } else {
      ReachesConcat(Apply(s, a[0]), a[1..], m, b, f);
      assert (a + b)[1..] == a[1..] + b;
    }
  }

  lemma BothMiss(n: nat, port: u16) returns (steps: seq<Step>, f: Stack)
    requires n >= 2
    ensures Reaches(Start(n), steps, f) && ListensWithin(steps, {port}) && |f.readers| == n
    ensures f.fault.None? && f.tuples == map[] && port in f.listening
    ensures forall r :: 0 <= r < 2 ==> f.readers[r].alive && f.readers[r].pc == Unknown(SynTo(port))
  {
    var p := SynTo(port);
    var s0 := Start(n);
    var s1 := Apply(s0, Listen(port));
    var s2 := Apply(s1, Hear(0, p));
    var s3 := Apply(s2, Hear(1, p));
    var s4 := Apply(s3, LookUp(0));
    f := Apply(s4, LookUp(1));
    hide Enabled, Apply;
    ReachesStep(s4, LookUp(1), [], f);
    var tail := [LookUp(1)] + [];
    ReachesStep(s3, LookUp(0), tail, f);
    ReachesStep(s2, Hear(1, p), [LookUp(0)] + tail, f);
    ReachesStep(s1, Hear(0, p), [Hear(1, p)] + ([LookUp(0)] + tail), f);
    ReachesStep(s0, Listen(port), [Hear(0, p)] + ([Hear(1, p)] + ([LookUp(0)] + tail)), f);
    steps := [Listen(port)] + ([Hear(0, p)] + ([Hear(1, p)] + ([LookUp(0)] + tail)));
  }

  /** Two readers can both miss the same SYN and both accept it. */
  lemma TwoReadersClash(n: nat, port: u16) returns (steps: seq<Step>, f: Stack)
    requires n >= 2
    ensures Reaches(Start(n), steps, f) && AssertFired(f) && ListensWithin(steps, {port})
  {
    hide Reaches;
    var miss, s := BothMiss(n, port);
    var m := AcceptRuns(s, 0, SynTo(port), port);
    f := AcceptRuns(m, 1, SynTo(port), port);
    ReachesConcat(s, AcceptSteps(0), m, AcceptSteps(1), f);
    ReachesConcat(Start(n), miss, s, AcceptSteps(0) + AcceptSteps(1), f);
    steps := miss + (AcceptSteps(0) + AcceptSteps(1));
  }

  /** A connect can take the tuple of a SYN between the miss and the accept. */
  lemma EphemeralListenerClash(n: nat, port: u16) returns (steps: seq<Step>, f: Stack)
    requires n >= 1 && Ephemeral(port)
    ensures Reaches(Start(n), steps, f) && AssertFired(f) && ListensWithin(steps, {port})
  {
    var p := SynTo(port);
    var s0 := Start(n);
    var s1 := Apply(s0, Listen(port));
    var s2 := Apply(s1, Hear(0, p));
    var s3 := Apply(s2, LookUp(0));
    var s4 := Apply(s3, Connect(TupleOf(p)));
    assert s4.readers[0].pc == Unknown(p) && TupleOf(p) in s4.tuples;
    f := AcceptRuns(s4, 0, p, port);
    hide Enabled, Apply;
    ReachesStep(s3, Connect(TupleOf(p)), AcceptSteps(0), f);
    var tail := [Connect(TupleOf(p))] + AcceptSteps(0);
    ReachesStep(s2, LookUp(0), tail, f);
    ReachesStep(s1, Hear(0, p), [LookUp(0)] + tail, f);
    ReachesStep(s0, Listen(port), [Hear(0, p)] + ([LookUp(0)] + tail), f);
    steps := [Listen(port)] + ([Hear(0, p)] + ([LookUp(0)] + tail));
  }

  /** The asserts in `Drop`, `Stack::connect` and the accept path can never fire
      exactly when nothing listens, or there is one reader and no listening port
      is in the ephemeral range. */
  lemma AssertsNeverFireIff(n: nat, ports: set<u16>)
    requires n >= 1
    ensures Safe(n, ports) <==> NoClash(n, ports)
  {
    if NoClash(n, ports) {
      forall steps, f | Reaches(Start(n), steps, f) && ListensWithin(steps, ports)
        ensures !AssertFired(f)
      {
        StartInv(n);
        GuardedRun(Start(n), steps, f, n, ports);
      }
    } else {
      var steps, f;
      if p :| p in ports && Ephemeral(p) {
        steps, f := EphemeralListenerClash(n, p);
      } else {
        var p :| p in ports;
        steps, f := TwoReadersClash(n, p);
      }
      assert Reaches(Start(n), steps, f) && ListensWithin(steps, ports) && AssertFired(f);
    }
  }

  // ------------------------------------------------------ bound on resets

  function TotalResets(socks: seq<Sock>): nat {
    if socks == [] then 0 else socks[0].resets + TotalResets(socks[1..])
  }

  lemma {:induction false} ResetsAtMostSockets(socks: seq<Sock>)
    requires forall i :: 0 <= i < |socks| ==> DropsInOrder(socks[i])
    ensures TotalResets(socks) <= |socks|
  {
    if socks != [] {
      assert DropsInOrder(socks[0]);
      ResetsAtMostSockets(socks[1..]);
    }
  }

  /** A live reader that still carries a segment it may answer with a RST. */
  function Carries(r: Reader): nat {
    if r.alive && !r.pc.Selecting? && !HasRst(r.pc.segment.flags) then 1 else 0
  }

  function InFlight(rs: seq<Reader>): nat {
    if rs == [] then 0 else Carries(rs[0]) + InFlight(rs[1..])
  }

  lemma {:induction false} InFlightUpdate(rs: seq<Reader>, r: nat, x: Reader)
    requires r < |rs|
    ensures InFlight(rs[r := x]) == InFlight(rs) - Carries(rs[r]) + Carries(x)
  {
    if r > 0 {
      assert rs[r := x][1..] == rs[1..][r - 1 := x];
      InFlightUpdate(rs[1..], r - 1, x);
    }
  }

  lemma {:induction false} InFlightBroadcast(rs: seq<Reader>, t: AddrTuple)
    ensures InFlight(Broadcast(rs, t)) == InFlight(rs)
  {
    if rs != [] {
      InFlightBroadcast(rs[1..], t);
    }
  }

  /** How many of the segments are not RSTs. */
  function NonRst(ps: seq<Segment>): nat {
    if ps == [] then 0 else NonRst(ps[..|ps| - 1]) + if HasRst(ps[|ps| - 1].flags) then 0 else 1
  }

  lemma NonRstAppend(ps: seq<Segment>, p: Segment)
    ensures NonRst(ps + [p]) == NonRst(ps) + if HasRst(p.flags) then 0 else 1
  {
    assert (ps + [p])[..|ps|] == ps;
  }

  lemma AnswersKept(s: Stack, e: Step)
    requires Enabled(s, e) && s.answers + InFlight(s.readers) <= NonRst(s.heard)
    ensures var f := Apply(s, e); f.answers + InFlight(f.readers) <= NonRst(f.heard)
  {
    hide InFlight, NonRst;
    var f := Apply(s, e);
    if e.Hear? {
      NonRstAppend(s.heard, e.segment);
    }
    if e.DropPurge? {
      InFlightBroadcast(s.readers, s.socks[e.id].tuple);
    } else if e.Hear? || e.LookUp? || e.Remember? || e.Enqueue? || e.Respond? || e.HearPurge? || e.Fail?
              || (e.Admit? && f.fault.None?) {
      InFlightUpdate(s.readers, e.reader, f.readers[e.reader]);
    }
  }

  lemma {:induction false} AnswersInRun(s: Stack, steps: seq<Step>, f: Stack)
    requires s.answers + InFlight(s.readers) <= NonRst(s.heard) && Reaches(s, steps, f)
    ensures f.answers + InFlight(f.readers) <= NonRst(f.heard)
    decreases |steps|
  {
    hide Enabled, Apply;
    if steps != [] {
      AnswersKept(s, steps[0]);
      AnswersInRun(Apply(s, steps[0]), steps[1..], f);
    }
  }

  lemma {:induction false} NoneInFlight(n: nat)
    ensures InFlight(seq(n, _ => NewReader())) == 0
  {
    if n > 0 {
      var rs := seq(n, _ => NewReader());
      assert rs[1..] == seq(n - 1, _ => NewReader());
      NoneInFlight(n - 1);
    }
  }

  lemma {:induction false} DropsInRun(s: Stack, steps: seq<Step>, f: Stack)
    requires DropsOnce(s) && Reaches(s, steps, f)
    ensures DropsOnce(f)
    decreases |steps|
  {
    hide DropsOnce, Enabled, Apply;
    if steps != [] {
      DropsKept(s, steps[0]);
      DropsInRun(Apply(s, steps[0]), steps[1..], f);
    }
  }

  /** Over every run, the RSTs a stack attempts, on drops and on unknown segments
      together, are at most its sockets plus the non-RST segments it received. */
  lemma ResetsBounded(n: nat, steps: seq<Step>, f: Stack)
    requires Reaches(Start(n), steps, f)
    ensures TotalResets(f.socks) + f.answers <= |f.socks| + NonRst(f.heard)
  {
    DropsInRun(Start(n), steps, f);
    ResetsAtMostSockets(f.socks);
    NoneInFlight(n);
    AnswersInRun(Start(n), steps, f);
  }

  /** Each stage of every drop happens exactly once: a finished drop has removed
      one entry, sent one purge and attempted one RST, and its tuple, if in the
      table, belongs to another socket. */
  lemma DropConservation(n: nat, steps: seq<Step>, f: Stack, id: nat)
    requires Reaches(Start(n), steps, f) && id < |f.socks|
    ensures f.socks[id].removals <= 1 && f.socks[id].purges <= f.socks[id].removals && f.socks[id].resets <= f.socks[id].purges
    ensures f.socks[id].phase.Closed? ==> f.socks[id].resets == 1
    ensures f.fault.None? ==>
      (f.socks[id].removals == 0 <==> f.socks[id].tuple in f.tuples && f.tuples[f.socks[id].tuple] == id)
  {
    DropsInRun(Start(n), steps, f);
    StartInv(n);
    RunKeeps(Start(n), steps, f);
    assert DropsInOrder(f.socks[id]);
  }

  // -------------------------------------------------- channels and readers

  /** No channel holds more than its bound. */
  ghost predicate Bounded(s: Stack) {
    && (forall i :: 0 <= i < |s.socks| ==> |s.socks[i].queue| <= 512)
    && (forall r :: 0 <= r < |s.readers| ==> |s.readers[r].purges| <= 16)
  }

  lemma QueueBoundKept(s: Stack, e: Step, i: nat)
    requires Enabled(s, e) && i < |Apply(s, e).socks| && (i < |s.socks| ==> |s.socks[i].queue| <= 512)
    ensures |Apply(s, e).socks[i].queue| <= 512
  {
  }

  lemma PurgeBoundKept(s: Stack, e: Step, r: nat)
    requires Enabled(s, e) && r < |s.readers| && |s.readers[r].purges| <= 16
    ensures |Apply(s, e).readers| == |s.readers| && |Apply(s, e).readers[r].purges| <= 16
  {
  }

  lemma BoundedKept(s: Stack, e: Step)
    requires Bounded(s) && Enabled(s, e)
    ensures Bounded(Apply(s, e))
  {
    var f := Apply(s, e);
    ListeningGrows(s, e);
    hide Apply, Enabled;
    forall i | 0 <= i < |f.socks|
      ensures |f.socks[i].queue| <= 512
    {
      QueueBoundKept(s, e, i);
    }
    forall r | 0 <= r < |f.readers|
      ensures |f.readers[r].purges| <= 16
    {
      PurgeBoundKept(s, e, r);
    }
  }

  /** In every run a socket's queue holds at most 512 segments and a reader's purge
      channel at most 16 purges. */
  lemma {:induction false} ChannelsBounded(s: Stack, steps: seq<Step>, f: Stack)
    requires Bounded(s) && Reaches(s, steps, f)
    ensures Bounded(f)
    decreases |steps|
  {
    hide Bounded, Enabled, Apply;
    if steps != [] {
      BoundedKept(s, steps[0]);
      ChannelsBounded(Apply(s, steps[0]), steps[1..], f);
    }
  }

  /** Purges that reach a reader while it receives none. */
  function NotifiedOf(x: Reader, ts: seq<AddrTuple>): Reader
    decreases |ts|
  {
    if ts == [] then x else NotifiedOf(Notified(x, ts[0]), ts[1..])
  }

  /** The channel keeps the last 16 purges, and a reader has lagged exactly when more
      than 16 have come since it last received one. */
  lemma {:induction false} LagsAfterSixteen(x: Reader, ts: seq<AddrTuple>)
    requires x.alive && |x.purges| <= 16
    ensures var y := NotifiedOf(x, ts); var all := x.purges + ts;
      && (y.lagged <==> x.lagged || |all| > 16)
      && y.purges == all[if |all| > 16 then |all| - 16 else 0..]
      && y.cache == x.cache && y.alive && y.pc == x.pc
    decreases |ts|
  {
    if ts != [] {
      var m := Notified(x, ts[0]);
      LagsAfterSixteen(m, ts[1..]);
      if |x.purges| < 16 {
        assert m.purges + ts[1..] == x.purges + ts;
      } else {
        assert m.purges + ts[1..] == (x.purges + ts)[1..];
      }
    } else {
      assert x.purges + ts == x.purges;
    }
  }

  /** What a reader answers with a RST: anything of an unknown connection but a RST
      and the SYN, numbered 0, that opens a connection to a listening port. */
  predicate Answers(s: Stack, p: Segment) {
    p.flags / 4 % 2 == 0 && !(p.flags == 2 && TupleOf(p).local.port in s.listening && p.seqNo == 0)
  }

  /** The four ways a reader dies, and no other: its device or parser fails, it finds
      the channel closed right after a miss, an answer cannot be sent, or it has
      lagged when it turns to its purges. */
  lemma ReaderDiesIff(s: Stack, e: Step, r: nat)
    requires Enabled(s, e) && r < |s.readers| && s.readers[r].alive
    ensures r < |Apply(s, e).readers|
    ensures !Apply(s, e).readers[r].alive <==>
      || e == Fail(r)
      || (e == Enqueue(r) && s.socks[s.readers[r].pc.id].phase.Closed? && !s.readers[r].pc.hit)
      || (e == Respond(r, false) && Answers(s, s.readers[r].pc.segment))
      || (e == HearPurge(r) && s.readers[r].lagged)
  {
    if !(ReaderStep(e) && e.reader == r) {
      OthersStay(s, e, r);
      hide Apply, Enabled;
    }
  }

  lemma MissRuns(s: Stack, r: nat, p: Segment) returns (f: Stack)
    requires s.fault.None? && ReaderAt(s, r) && s.readers[r].pc.Selecting?
    requires TupleOf(p) in s.tuples && TupleOf(p) !in s.readers[r].cache
    ensures Reaches(s, [Hear(r, p)] + ([LookUp(r)] + ([Remember(r)] + [])), f)
    ensures f.fault.None? && f.tuples == s.tuples && f.socks == s.socks && ReaderAt(f, r)
    ensures f.readers[r].pc == Sending(p, s.tuples[TupleOf(p)], false)
  {
    var s1 := Apply(s, Hear(r, p));
    var s2 := Apply(s1, LookUp(r));
    f := Apply(s2, Remember(r));
    hide Enabled, Apply;
    ReachesStep(s2, Remember(r), [], f);
    ReachesStep(s1, LookUp(r), [Remember(r)] + [], f);
    ReachesStep(s, Hear(r, p), [LookUp(r)] + ([Remember(r)] + []), f);
  }

  lemma RemoveAndPurgeRun(s: Stack, r: nat, id: nat) returns (f: Stack)
    requires s.fault.None? && ReaderAt(s, r) && SockIn(s, id, Live) && s.socks[id].tuple in s.tuples
    ensures Reaches(s, [DropRemove(id)] + ([DropPurge(id)] + []), f)
    ensures f.fault.None? && SockIn(f, id, Purged) && ReaderAt(f, r) && f.readers[r].pc == s.readers[r].pc
  {
    var m := Apply(s, DropRemove(id));
    f := Apply(m, DropPurge(id));
    assert f.readers[r] == Notified(m.readers[r], s.socks[id].tuple);
    hide Enabled, Apply;
    ReachesStep(m, DropPurge(id), [], f);
    ReachesStep(s, DropRemove(id), [DropPurge(id)] + [], f);
  }

  lemma ResetAndCloseRun(s: Stack, id: nat) returns (f: Stack)
    requires s.fault.None? && SockIn(s, id, Purged)
    ensures Reaches(s, [DropReset(id)] + ([DropClose(id)] + []), f)
    ensures f.fault.None? && SockIn(f, id, Closed) && f.readers == s.readers
  {
    var m := Apply(s, DropReset(id));
    f := Apply(m, DropClose(id));
    hide Enabled, Apply;
    ReachesStep(m, DropClose(id), [], f);
    ReachesStep(s, DropReset(id), [DropClose(id)] + [], f);
  }

  lemma DropRuns(s: Stack, r: nat, id: nat) returns (steps: seq<Step>, f: Stack)
    requires s.fault.None? && ReaderAt(s, r) && SockIn(s, id, Live) && s.socks[id].tuple in s.tuples
    ensures Reaches(s, steps, f)
    ensures f.fault.None? && SockIn(f, id, Closed) && ReaderAt(f, r) && f.readers[r].pc == s.readers[r].pc
  {
    hide Reaches;
    var m := RemoveAndPurgeRun(s, r, id);
    f := ResetAndCloseRun(m, id);
    steps := [DropRemove(id)] + ([DropPurge(id)] + []) + ([DropReset(id)] + ([DropClose(id)] + []));
    ReachesConcat(s, [DropRemove(id)] + ([DropPurge(id)] + []), m, [DropReset(id)] + ([DropClose(id)] + []), f);
  }

  /** The race between a miss and a drop: from every state in which an idle reader
      does not cache a registered tuple, a drop of its owner between the look-up and
      the enqueue kills the reader. */
  lemma MissRaceKills(s: Stack, r: nat, p: Segment) returns (steps: seq<Step>, f: Stack)
    requires Inv(s) && s.fault.None? && ReaderAt(s, r) && s.readers[r].pc.Selecting?
    requires TupleOf(p) in s.tuples && TupleOf(p) !in s.readers[r].cache
    ensures Reaches(s, steps, f) && f.fault.None? && r < |f.readers| && !f.readers[r].alive
  {
    var id := s.tuples[TupleOf(p)];
    assert SockIn(s, id, Live) && s.socks[id].tuple == TupleOf(p);
    hide Inv, Reaches;
    var m := MissRuns(s, r, p);
    var drop, d := DropRuns(m, r, id);
    f := Apply(d, Enqueue(r));
    LastStep(d, Enqueue(r), f);
    ReachesConcat(m, drop, d, [Enqueue(r)], f);
    ReachesConcat(s, [Hear(r, p)] + ([LookUp(r)] + ([Remember(r)] + [])), m, drop + [Enqueue(r)], f);
    steps := [Hear(r, p)] + ([LookUp(r)] + ([Remember(r)] + [])) + (drop + [Enqueue(r)]);
  }

  lemma LastStep(s: Stack, e: Step, f: Stack)
    requires Enabled(s, e) && f == Apply(s, e)
    ensures Reaches(s, [e], f)
  {
  }

  // --------------------------------------- nothing invented, nothing twice

  /** How often a segment was received from some socket, and how often it still
      waits in some queue. */
  function TakenCount(socks: seq<Sock>, p: Segment): nat {
    if socks == [] then 0 else multiset(socks[0].taken)[p] + TakenCount(socks[1..], p)
  }

  function WaitingCount(socks: seq<Sock>, p: Segment): nat {
    if socks == [] then 0 else multiset(socks[0].queue)[p] + WaitingCount(socks[1..], p)
  }

  function Holds(r: Reader, p: Segment): nat {
    if r.alive && !r.pc.Selecting? && r.pc.segment == p then 1 else 0
  }

  function OnHand(rs: seq<Reader>, p: Segment): nat {
    if rs == [] then 0 else Holds(rs[0], p) + OnHand(rs[1..], p)
  }

  lemma {:induction false} CountsUpdate(socks: seq<Sock>, i: nat, x: Sock, p: Segment)
    requires i < |socks|
    ensures TakenCount(socks[i := x], p) == TakenCount(socks, p) - multiset(socks[i].taken)[p] + multiset(x.taken)[p]
    ensures WaitingCount(socks[i := x], p) == WaitingCount(socks, p) - multiset(socks[i].queue)[p] + multiset(x.queue)[p]
  {
    if i > 0 {
      assert socks[i := x][1..] == socks[1..][i - 1 := x];
      CountsUpdate(socks[1..], i - 1, x, p);
    }
  }

  lemma {:induction false} CountsNew(socks: seq<Sock>, t: AddrTuple, p: Segment)
    ensures TakenCount(socks + [NewSock(t)], p) == TakenCount(socks, p)
    ensures WaitingCount(socks + [NewSock(t)], p) == WaitingCount(socks, p)
  {
    if socks == [] {
      assert [NewSock(t)][1..] == [] && [] + [NewSock(t)] == [NewSock(t)];
      assert TakenCount([], p) == 0 && WaitingCount([], p) == 0;
      assert TakenCount([NewSock(t)], p) == 0 && WaitingCount([NewSock(t)], p) == 0;
    } else {
      assert (socks + [NewSock(t)])[1..] == socks[1..] + [NewSock(t)];
      CountsNew(socks[1..], t, p);
    }
  }

  lemma {:induction false} OnHandUpdate(rs: seq<Reader>, r: nat, x: Reader, p: Segment)
    requires r < |rs|
    ensures OnHand(rs[r := x], p) == OnHand(rs, p) - Holds(rs[r], p) + Holds(x, p)
  {
    if r > 0 {
      assert rs[r := x][1..] == rs[1..][r - 1 := x];
      OnHandUpdate(rs[1..], r - 1, x, p);
    }
  }

  lemma {:induction false} OnHandBroadcast(rs: seq<Reader>, t: AddrTuple, p: Segment)
    ensures OnHand(Broadcast(rs, t), p) == OnHand(rs, p)
  {
    if rs != [] {
      OnHandBroadcast(rs[1..], t, p);
    }
  }

  /** What was received, what waits and what a reader carries was heard. */
  predicate Accounted(s: Stack, p: Segment) {
    TakenCount(s.socks, p) + WaitingCount(s.socks, p) + OnHand(s.readers, p) <= multiset(s.heard)[p]
  }

  lemma HeadAndRest(q: seq<Segment>)
    requires q != []
    ensures multiset(q) == multiset([q[0]]) + multiset(q[1..])
  {
    assert q == [q[0]] + q[1..];
  }

  lemma SocketStepAccounted(s: Stack, e: Step, p: Segment)
    requires Enabled(s, e) && Accounted(s, p)
    requires e.Listen? || e.Connect? || e.Take? || e.DropRemove? || e.DropPurge? || e.DropReset? || e.DropClose?
    ensures Accounted(Apply(s, e), p)
  {
    hide TakenCount, WaitingCount, OnHand;
    var f := Apply(s, e);
    if e.Connect? {
      CountsNew(s.socks, e.tuple, p);
    } else if !e.Listen? {
      CountsUpdate(s.socks, e.id, f.socks[e.id], p);
      if e.Take? {
        HeadAndRest(s.socks[e.id].queue);
      } else if e.DropPurge? {
        OnHandBroadcast(s.readers, s.socks[e.id].tuple, p);
      }
    }
  }

  lemma ReaderStepAccounted(s: Stack, e: Step, p: Segment)
    requires Enabled(s, e) && Accounted(s, p)
    requires e.Hear? || e.LookUp? || e.Remember? || e.Respond? || e.Fail? || e.HearPurge?
    ensures Accounted(Apply(s, e), p)
  {
    hide TakenCount, WaitingCount, OnHand;
    OnHandUpdate(s.readers, e.reader, Apply(s, e).readers[e.reader], p);
  }

  lemma EnqueueAccounted(s: Stack, r: nat, p: Segment)
    requires Enabled(s, Enqueue(r)) && Accounted(s, p)
    ensures Accounted(Apply(s, Enqueue(r)), p)
  {
    hide TakenCount, WaitingCount, OnHand;
    var f := Apply(s, Enqueue(r));
    var id := s.readers[r].pc.id;
    OnHandUpdate(s.readers, r, f.readers[r], p);
    CountsUpdate(s.socks, id, f.socks[id], p);
    assert f.socks == s.socks[id := f.socks[id]];
  }

  lemma AdmitAccounted(s: Stack, r: nat, p: Segment)
    requires Enabled(s, Admit(r)) && Accounted(s, p)
    ensures Accounted(Apply(s, Admit(r)), p)
  {
    hide TakenCount, WaitingCount, OnHand;
    var x := s.readers[r];
    OnHandUpdate(s.readers, r, x.(pc := Selecting), p);
    CountsNew(s.socks, TupleOf(x.pc.segment), p);
  }

  lemma {:induction false} AccountedInRun(s: Stack, steps: seq<Step>, f: Stack, p: Segment)
    requires Accounted(s, p) && Reaches(s, steps, f)
    ensures Accounted(f, p)
    decreases |steps|
  {
    if steps != [] {
      var e := steps[0];
      var m := Apply(s, e);
      hide Enabled, Apply, Accounted;
      if e.Enqueue? {
        EnqueueAccounted(s, e.reader, p);
      } else if e.Admit? {
        AdmitAccounted(s, e.reader, p);
      } else if e.Hear? || e.LookUp? || e.Remember? || e.Respond? || e.Fail? || e.HearPurge? {
        ReaderStepAccounted(s, e, p);
      } else {
        SocketStepAccounted(s, e, p);
      }
      AccountedInRun(m, steps[1..], f, p);
    }
  }

  lemma {:induction false} NothingOnHand(n: nat, p: Segment)
    ensures OnHand(seq(n, _ => NewReader()), p) == 0
  {
    if n > 0 {
      assert seq(n, _ => NewReader())[1..] == seq(n - 1, _ => NewReader());
      NothingOnHand(n - 1, p);
    }
  }

  /** Nothing is invented and nothing is delivered twice: over every run, however
      often tuples are reused, a segment was received from sockets and waits in
      their queues at most as often as readers heard it; and what passed through a
      socket was addressed to its tuple. */
  lemma NothingTwice(n: nat, steps: seq<Step>, f: Stack)
    requires Reaches(Start(n), steps, f)
    ensures forall p :: TakenCount(f.socks, p) + WaitingCount(f.socks, p) <= multiset(f.heard)[p]
    ensures f.fault.None? ==> forall id, k :: 0 <= id < |f.socks| && 0 <= k < |Passed(f.socks[id])| ==>
      TupleOf(Passed(f.socks[id])[k]) == f.socks[id].tuple
  {
    forall p
      ensures TakenCount(f.socks, p) + WaitingCount(f.socks, p) <= multiset(f.heard)[p]
    {
      NothingOnHand(n, p);
      AccountedInRun(Start(n), steps, f, p);
    }
    StartInv(n);
    RunKeeps(Start(n), steps, f);
  }

  // ------------------------------------------------------------- dispatch

  /** The queue of a socket after one more segment has been put into it. */
  function Queued(s: Stack, id: nat, p: Segment): Stack
    requires id < |s.socks|
  {
    SetSock(s, id, s.socks[id].(queue := s.socks[id].queue + [p]))
  }

  predicate CanDispatch(s: Stack, r: nat, p: Segment) {
    && s.fault.None? && ReaderAt(s, r) && s.readers[r].pc.Selecting?
    && TupleOf(p) in s.tuples && SockIn(s, s.tuples[TupleOf(p)], Live)
    && |s.socks[s.tuples[TupleOf(p)]].queue| < QUEUE_CAPACITY
  }

  lemma DispatchHit(s: Stack, r: nat, p: Segment) returns (f: Stack)
    requires CanDispatch(s, r, p)
    requires TupleOf(p) in s.readers[r].cache && s.readers[r].cache[TupleOf(p)] == s.tuples[TupleOf(p)]
    ensures Reaches(s, [Hear(r, p)] + [Enqueue(r)], f)
    ensures f.fault.None? && f.tuples == s.tuples && f.socks == Queued(s, s.tuples[TupleOf(p)], p).socks
  {
    var s1 := Apply(s, Hear(r, p));
    f := Apply(s1, Enqueue(r));
    hide Enabled, Apply;
    ReachesStep(s1, Enqueue(r), [], f);
    ReachesStep(s, Hear(r, p), [Enqueue(r)], f);
  }

  lemma DispatchMiss(s: Stack, r: nat, p: Segment) returns (f: Stack)
    requires CanDispatch(s, r, p) && TupleOf(p) !in s.readers[r].cache
    ensures Reaches(s, [Hear(r, p)] + ([LookUp(r)] + ([Remember(r)] + [Enqueue(r)])), f)
    ensures f.fault.None? && f.tuples == s.tuples && f.socks == Queued(s, s.tuples[TupleOf(p)], p).socks
  {
    var s1 := Apply(s, Hear(r, p));
    var s2 := Apply(s1, LookUp(r));
    var s3 := Apply(s2, Remember(r));
    f := Apply(s3, Enqueue(r));
    hide Enabled, Apply;
    ReachesStep(s3, Enqueue(r), [], f);
    ReachesStep(s2, Remember(r), [Enqueue(r)], f);
    ReachesStep(s1, LookUp(r), [Remember(r)] + [Enqueue(r)], f);
    ReachesStep(s, Hear(r, p), [LookUp(r)] + ([Remember(r)] + [Enqueue(r)]), f);
  }

  /** From any reachable state, a segment for a registered tuple that an idle
      reader has not cached for a predecessor can be brought, unchanged, to the
      end of the queue of the socket that owns the tuple. */
  lemma DispatchDelivers(s: Stack, r: nat, p: Segment) returns (steps: seq<Step>, f: Stack)
    requires Inv(s) && s.fault.None? && ReaderAt(s, r) && s.readers[r].pc.Selecting?
    requires TupleOf(p) in s.tuples && |s.socks[s.tuples[TupleOf(p)]].queue| < QUEUE_CAPACITY
    requires TupleOf(p) in s.readers[r].cache ==> s.readers[r].cache[TupleOf(p)] == s.tuples[TupleOf(p)]
    ensures Reaches(s, steps, f) && f.fault.None? && f.tuples == s.tuples
    ensures forall i :: 0 <= i < |steps| ==> steps[i].Hear? || steps[i].LookUp? || steps[i].Remember? || steps[i].Enqueue?
    ensures var id := s.tuples[TupleOf(p)];
      f.socks == s.socks[id := s.socks[id].(queue := s.socks[id].queue + [p])]
  {
    assert CanDispatch(s, r, p);
    hide Inv, Reaches;
    if TupleOf(p) in s.readers[r].cache {
      f := DispatchHit(s, r, p);
      steps := [Hear(r, p)] + [Enqueue(r)];
    } else {
      f := DispatchMiss(s, r, p);
      steps := [Hear(r, p)] + ([LookUp(r)] + ([Remember(r)] + [Enqueue(r)]));
    }
  }

  /** A live reader carries a segment that is bound for socket `id`, the owner of
      its tuple. */
  predicate BoundFor(x: Reader, p: Segment, id: nat) {
    x.alive &&
    match x.pc
    case Missed(q) => q == p
    case Found(q, i) => q == p && i == id
    case Sending(q, i, _) => q == p && i == id
    case _ => false
  }

  predicate UnderWay(s: Stack, r: nat, p: Segment, id: nat) {
    r < |s.readers| && BoundFor(s.readers[r], p, id)
  }

  /** The segment has passed into the queue of `id`, after the first `n` others. */
  ghost predicate Arrived(s: Stack, p: Segment, id: nat, n: nat)
    requires id < |s.socks|
  {
    n <= |Passed(s.socks[id])| && p in Passed(s.socks[id])[n..]
  }

  lemma LiveBefore(s: Stack, e: Step, id: nat)
    requires Enabled(s, e) && id < |s.socks|
    ensures id < |Apply(s, e).socks| && Apply(s, e).socks[id].tuple == s.socks[id].tuple
    ensures Apply(s, e).socks[id].phase.Live? ==> s.socks[id].phase.Live?
  {
  }

  /** A reader in the middle of a dispatch is moved by its own three steps only. */
  lemma UnderWayMoves(s: Stack, e: Step, r: nat, p: Segment, id: nat)
    requires Owned(s) && Enabled(s, e) && Apply(s, e).fault.None?
    requires SockIn(s, id, Live) && s.socks[id].tuple == TupleOf(p) && UnderWay(s, r, p, id)
    ensures UnderWay(Apply(s, e), r, p, id) || (e == Enqueue(r) && s.readers[r].pc.Sending?)
  {
    if !(ReaderStep(e) && e.reader == r) {
      hide Apply, Enabled, Owned;
      OthersStay(s, e, r);
    }
  }

  lemma PassedStays(s: Stack, e: Step, p: Segment, id: nat, n: nat)
    requires Enabled(s, e) && SockIn(s, id, Live) && n <= |Passed(s.socks[id])|
    ensures id < |Apply(s, e).socks| && n <= |Passed(Apply(s, e).socks[id])|
    ensures Arrived(s, p, id, n) ==> Arrived(Apply(s, e), p, id, n)
    ensures e.Enqueue? && s.readers[e.reader].pc.segment == p && s.readers[e.reader].pc.id == id ==>
      Arrived(Apply(s, e), p, id, n)
  {
    PassedGrows(s, e, id);
    var x, y := s.socks[id], Apply(s, e).socks[id];
    if e.Enqueue? && s.readers[e.reader].pc.id == id {
      var q := s.readers[e.reader].pc.segment;
      assert Passed(y) == Passed(x) + [q];
      assert Passed(y)[n..] == Passed(x)[n..] + [q];
    } else {
      assert Passed(y) == Passed(x);
    }
  }

  lemma {:induction false} DispatchRun(s: Stack, steps: seq<Step>, f: Stack, r: nat, p: Segment, id: nat, n: nat)
    requires Inv(s) && s.fault.None? && Reaches(s, steps, f) && f.fault.None?
    requires id < |s.socks| && s.socks[id].tuple == TupleOf(p) && n <= |Passed(s.socks[id])|
    requires UnderWay(s, r, p, id) || Arrived(s, p, id, n)
    ensures SockIn(f, id, Live) ==> UnderWay(f, r, p, id) || Arrived(f, p, id, n)
    decreases |steps|
  {
    if steps != [] {
      var e := steps[0];
      var m := Apply(s, e);
      InvKept(s, e);
      LiveBefore(s, e, id);
      if m.fault.Some? {
        FaultStops(m, steps[1..], f);
      } else if !s.socks[id].phase.Live? {
        StaysDead(s, steps, f, id);
      } else {
        PassedStays(s, e, p, id, n);
        if UnderWay(s, r, p, id) {
          UnderWayMoves(s, e, r, p, id);
        }
        hide Inv, Enabled, Apply, Arrived, UnderWay;
        DispatchRun(m, steps[1..], f, r, p, id, n);
      }
    }
  }

  lemma {:induction false} StaysDead(s: Stack, steps: seq<Step>, f: Stack, id: nat)
    requires Reaches(s, steps, f) && id < |s.socks| && !s.socks[id].phase.Live?
    ensures !SockIn(f, id, Live)
    decreases |steps|
  {
    hide Enabled, Apply;
    if steps != [] {
      LiveBefore(s, steps[0], id);
      StaysDead(Apply(s, steps[0]), steps[1..], f, id);
    }
  }

  /** How many readers carry a segment that is bound for socket `id`. */
  function Carriers(rs: seq<Reader>, p: Segment, id: nat): nat {
    if rs == [] then 0 else (if BoundFor(rs[0], p, id) then 1 else 0) + Carriers(rs[1..], p, id)
  }

  lemma {:induction false} CarriersUpdate(rs: seq<Reader>, r: nat, x: Reader, p: Segment, id: nat)
    requires r < |rs|
    ensures Carriers(rs[r := x], p, id) ==
      Carriers(rs, p, id) - (if BoundFor(rs[r], p, id) then 1 else 0) + if BoundFor(x, p, id) then 1 else 0
  {
    if r > 0 {
      assert rs[r := x][1..] == rs[1..][r - 1 := x];
      CarriersUpdate(rs[1..], r - 1, x, p, id);
    }
  }

  lemma {:induction false} CarriersBroadcast(rs: seq<Reader>, t: AddrTuple, p: Segment, id: nat)
    ensures Carriers(Broadcast(rs, t), p, id) == Carriers(rs, p, id)
  {
    if rs != [] {
      CarriersBroadcast(rs[1..], t, p, id);
    }
  }

  /** The copies of a segment that have passed into the queue of `id` or are on
      their way there. */
  function Tally(s: Stack, p: Segment, id: nat): nat
    requires id < |s.socks|
  {
    multiset(Passed(s.socks[id]))[p] + Carriers(s.readers, p, id)
  }

  /** The step hears one more copy, and no predecessor of `id` is cached for it. */
  predicate Directed(s: Stack, e: Step, p: Segment, id: nat)
    requires Enabled(s, e)
  {
    e.Hear? && e.segment == p && (TupleOf(p) in s.readers[e.reader].cache ==> s.readers[e.reader].cache[TupleOf(p)] == id)
  }

  lemma PassedTally(s: Stack, e: Step, p: Segment, id: nat)
    requires Enabled(s, e) && SockIn(s, id, Live)
    ensures id < |Apply(s, e).socks|
    ensures multiset(Passed(Apply(s, e).socks[id]))[p] == multiset(Passed(s.socks[id]))[p]
      + if e.Enqueue? && s.readers[e.reader].pc.id == id && s.readers[e.reader].pc.segment == p then 1 else 0
  {
    PassedGrows(s, e, id);
    if e.Enqueue? && s.readers[e.reader].pc.id == id {
      assert Passed(Apply(s, e).socks[id]) == Passed(s.socks[id]) + [s.readers[e.reader].pc.segment];
    } else {
      assert Passed(Apply(s, e).socks[id]) == Passed(s.socks[id]);
    }
  }

  lemma OneReaderMoves(s: Stack, e: Step)
    requires Enabled(s, e) && ReaderStep(e)
    ensures e.reader < |Apply(s, e).readers| && Apply(s, e).readers == s.readers[e.reader := Apply(s, e).readers[e.reader]]
  {
  }

  /** One step of a reader on a segment for the tuple of a live socket. */
  lemma CarrierStep(s: Stack, e: Step, p: Segment, id: nat)
    requires Owned(s) && Enabled(s, e) && ReaderStep(e)
    requires SockIn(s, id, Live) && s.socks[id].tuple == TupleOf(p)
    ensures e.reader < |Apply(s, e).readers|
    ensures var x, y := s.readers[e.reader], Apply(s, e).readers[e.reader];
      if Directed(s, e, p, id) then !BoundFor(x, p, id) && BoundFor(y, p, id)
      else if e.Enqueue? && x.pc.id == id && x.pc.segment == p then BoundFor(x, p, id) && !BoundFor(y, p, id)
      else BoundFor(y, p, id) == BoundFor(x, p, id)
  {
  }

  lemma TallyKept(s: Stack, e: Step, p: Segment, id: nat)
    requires Owned(s) && Enabled(s, e)
    requires SockIn(s, id, Live) && s.socks[id].tuple == TupleOf(p)
    ensures id < |Apply(s, e).socks|
    ensures Tally(Apply(s, e), p, id) == Tally(s, p, id) + if Directed(s, e, p, id) then 1 else 0
  {
    hide Carriers, BoundFor, Passed, Owned;
    PassedTally(s, e, p, id);
    if ReaderStep(e) {
      OneReaderMoves(s, e);
      CarrierStep(s, e, p, id);
      CarriersUpdate(s.readers, e.reader, Apply(s, e).readers[e.reader], p, id);
    } else if e.DropPurge? {
      CarriersBroadcast(s.readers, s.socks[e.id].tuple, p, id);
    }
  }

  /** How many copies of a segment a run hears for socket `id`. */
  function HeardFor(s: Stack, steps: seq<Step>, p: Segment, id: nat): nat
    decreases |steps|
  {
    if steps == [] || !Enabled(s, steps[0]) then 0
    else (if Directed(s, steps[0], p, id) then 1 else 0) + HeardFor(Apply(s, steps[0]), steps[1..], p, id)
  }

  /** Dispatch conserves copies: over every run in which the owner of a tuple is not
      dropped, the copies of a segment that passed into its queue and those still
      on their way to it are those of the start and those heard for it since.
      Nothing is lost, nothing is doubled and nothing is sent elsewhere. */
  lemma {:induction false} DispatchConserves(s: Stack, steps: seq<Step>, f: Stack, p: Segment, id: nat)
    requires Inv(s) && s.fault.None? && Reaches(s, steps, f) && f.fault.None?
    requires id < |s.socks| && s.socks[id].tuple == TupleOf(p) && SockIn(f, id, Live)
    ensures Tally(f, p, id) == Tally(s, p, id) + HeardFor(s, steps, p, id)
    decreases |steps|
  {
    if steps != [] {
      var e := steps[0];
      var m := Apply(s, e);
      InvKept(s, e);
      LiveBefore(s, e, id);
      if m.fault.Some? {
        FaultStops(m, steps[1..], f);
      } else if !s.socks[id].phase.Live? {
        StaysDead(s, steps, f, id);
      } else {
        TallyKept(s, e, p, id);
        hide Inv, Enabled, Apply, Tally, Directed;
        DispatchConserves(m, steps[1..], f, p, id);
      }
    }
  }

  /** Dispatch in every run: once a reader has heard a segment for a registered
      tuple that it has not cached for a predecessor, then, whatever readers,
      connects, drops and receives do in between, as long as the owner is not
      dropped the segment is still in that reader's hands, bound for the owner, or
      it has passed into the owner's queue behind what was there before; and with
      it every equal segment is accounted for. */
  lemma DispatchNeverLoses(s: Stack, r: nat, p: Segment, steps: seq<Step>, f: Stack)
    requires Inv(s) && Enabled(s, Hear(r, p)) && TupleOf(p) in s.tuples
    requires TupleOf(p) in s.readers[r].cache ==> s.readers[r].cache[TupleOf(p)] == s.tuples[TupleOf(p)]
    requires Reaches(Apply(s, Hear(r, p)), steps, f) && f.fault.None?
    ensures var id := s.tuples[TupleOf(p)];
      SockIn(f, id, Live) ==>
        && (UnderWay(f, r, p, id) || Arrived(f, p, id, |Passed(s.socks[id])|))
        && Tally(f, p, id) == Tally(s, p, id) + 1 + HeardFor(Apply(s, Hear(r, p)), steps, p, id)
  {
    var id := s.tuples[TupleOf(p)];
    InvKept(s, Hear(r, p));
    DispatchRun(Apply(s, Hear(r, p)), steps, f, r, p, id, |Passed(s.socks[id])|);
    TallyKept(s, Hear(r, p), p, id);
    if SockIn(f, id, Live) {
      hide Inv, Apply, Tally;
      DispatchConserves(Apply(s, Hear(r, p)), steps, f, p, id);
    }
  }

  /** With a predecessor still cached, the segment goes to the predecessor's
      channel: the owner of the tuple does not see it. */
  lemma StaleCacheMisdirects(s: Stack, r: nat, p: Segment) returns (f: Stack)
    requires Inv(s) && s.fault.None? && ReaderAt(s, r) && s.readers[r].pc.Selecting?
    requires TupleOf(p) in s.tuples && TupleOf(p) in s.readers[r].cache
    requires s.readers[r].cache[TupleOf(p)] != s.tuples[TupleOf(p)]
    requires |s.socks[s.readers[r].cache[TupleOf(p)]].queue| < QUEUE_CAPACITY
    ensures Reaches(s, [Hear(r, p)] + [Enqueue(r)], f) && f.fault.None?
    ensures |f.socks| == |s.socks| && f.socks[s.tuples[TupleOf(p)]] == s.socks[s.tuples[TupleOf(p)]]
  {
    var s1 := Apply(s, Hear(r, p));
    f := Apply(s1, Enqueue(r));
    hide Enabled, Apply;
    ReachesStep(s1, Enqueue(r), [], f);
    ReachesStep(s, Hear(r, p), [Enqueue(r)], f);
  }
}
