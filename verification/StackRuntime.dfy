/**
 The stack as an object whose fields are updated in place: the body of a reader's
 loop, the port scan of `Stack::connect` with other tasks running in between,
 and `Drop`. Single steps are proved against the steps of the transition system,
 the operations made of them against what they do for their callers.
 */
module StackRuntime {
  import opened Bytes
  import opened Packet
  import opened Socket
  import opened StackMachine

  // ------------------------------------------------------------- port scan

  function At(local: SocketAddr, port: u16, remote: SocketAddr): AddrTuple {
    AddrTuple(local.(port := port), remote)
  }

  /** `Halted`: another task's panic has stopped the stack before the next port. */
  datatype PortChoice = Chosen(port: u16) | Exhausted | Halted

  /** Steps of other tasks, as far as they are possible. */
  function RunAll(s: Stack, steps: seq<Step>): Stack
    decreases |steps|
  {
    if steps == [] then s
    else RunAll(if Enabled(s, steps[0]) then Apply(s, steps[0]) else s, steps[1..])
  }

  /** What the scan finds each time it takes the lock, when `others[k]` runs
      before its k-th attempt. */
  function Seen(s: Stack, others: seq<seq<Step>>): (seen: seq<Stack>)
    ensures |seen| == |others|
    decreases |others|
  {
    if others == [] then [] else [RunAll(s, others[0])] + Seen(RunAll(s, others[0]), others[1..])
  }

  function FirstFree(local: SocketAddr, remote: SocketAddr, port: nat, seen: seq<Stack>): PortChoice
    requires port + |seen| <= LAST_PORT + 1
    decreases |seen|
  {
    if seen == [] then Exhausted
    else if seen[0].fault.Some? then Halted
    else if At(local, port, remote) !in seen[0].tuples then Chosen(port)
    else FirstFree(local, remote, port + 1, seen[1..])
  }

  /** The k-th port was in use when the scan tried it. */
  predicate InUse(local: SocketAddr, remote: SocketAddr, start: nat, seen: seq<Stack>, k: nat)
    requires k < |seen| && start + |seen| <= LAST_PORT + 1
  {
    seen[k].fault.None? && At(local, start + k, remote) in seen[k].tuples
  }

  predicate InUseBefore(local: SocketAddr, remote: SocketAddr, start: nat, seen: seq<Stack>, n: nat)
    requires n <= |seen| && start + |seen| <= LAST_PORT + 1
  {
    forall k :: 0 <= k < n ==> InUse(local, remote, start, seen, k)
  }

  predicate FreeAt(local: SocketAddr, remote: SocketAddr, start: nat, seen: seq<Stack>, k: nat)
    requires k < |seen| && start + |seen| <= LAST_PORT + 1
  {
    seen[k].fault.None? && At(local, start + k, remote) !in seen[k].tuples
  }

  /** Where a scan stops, and why. */
  lemma {:induction false} ScanStops(local: SocketAddr, remote: SocketAddr, start: nat, seen: seq<Stack>) returns (n: nat)
    requires start + |seen| <= LAST_PORT + 1
    ensures n <= |seen| && InUseBefore(local, remote, start, seen, n)
    ensures match FirstFree(local, remote, start, seen)
      case Chosen(p) => n < |seen| && p == start + n && FreeAt(local, remote, start, seen, n)
      case Exhausted => n == |seen|
      case Halted => n < |seen| && seen[n].fault.Some?
    decreases |seen|
  {
    if seen != [] && InUse(local, remote, start, seen, 0) {
      var m := ScanStops(local, remote, start + 1, seen[1..]);
      n := m + 1;
      forall k | 0 <= k < n
        ensures InUse(local, remote, start, seen, k)
      {
        assert k > 0 ==> InUse(local, remote, start + 1, seen[1..], k - 1);
      }
    } else {
      n := 0;
    }
  }

  /** The scan takes a port exactly when that one is free in the table it then
      sees and each earlier one was in use in the table seen for it; it gives up
      exactly when each one was in use when it was tried. */
  lemma PortChoiceExact(local: SocketAddr, remote: SocketAddr, start: nat, seen: seq<Stack>)
    requires start + |seen| <= LAST_PORT + 1
    ensures forall k :: 0 <= k < |seen| ==>
      (FirstFree(local, remote, start, seen) == Chosen(start + k) <==>
       FreeAt(local, remote, start, seen, k) && InUseBefore(local, remote, start, seen, k))
    ensures FirstFree(local, remote, start, seen).Exhausted? <==> InUseBefore(local, remote, start, seen, |seen|)
  {
    var n := ScanStops(local, remote, start, seen);
    forall k | 0 <= k < |seen|
      ensures FirstFree(local, remote, start, seen) == Chosen(start + k) <==>
              FreeAt(local, remote, start, seen, k) && InUseBefore(local, remote, start, seen, k)
    {
      assert k < n ==> InUse(local, remote, start, seen, k);
      assert n < k ==> !InUse(local, remote, start, seen, n);
    }
    assert n < |seen| ==> !InUse(local, remote, start, seen, n);
  }

  /** After `k` attempts the scan has left the stack as it last saw it, and what it
      will see is what it would see starting from there. */
  ghost predicate Scanned(s: Stack, others: seq<seq<Step>>, k: nat, now: Stack)
    requires k <= |others|
  {
    && Seen(s, others)[k..] == Seen(now, others[k..])
    && (k > 0 ==> now == Seen(s, others)[k - 1])
  }

  lemma ScanStart(s: Stack, others: seq<seq<Step>>)
    ensures Scanned(s, others, 0, s) && Seen(s, others)[0..] == Seen(s, others)
  {
    assert others[0..] == others;
  }

  lemma ScanNext(s: Stack, others: seq<seq<Step>>, k: nat, now: Stack, local: SocketAddr, remote: SocketAddr, start: nat)
    requires k < |others| && Scanned(s, others, k, now) && start + |others| == LAST_PORT + 1
    ensures Seen(s, others)[k] == RunAll(now, others[k]) && Scanned(s, others, k + 1, RunAll(now, others[k]))
    ensures var seen := Seen(s, others);
      FirstFree(local, remote, start + k, seen[k..]) ==
        if seen[k].fault.Some? then Halted
        else if At(local, start + k, remote) !in seen[k].tuples then Chosen(start + k)
        else FirstFree(local, remote, start + (k + 1), seen[k + 1..])
  {
    hide RunAll;
    var seen := Seen(s, others);
    assert others[k..][0] == others[k] && others[k..][1..] == others[k + 1..];
    assert seen[k..][0] == seen[k] && seen[k..][1..] == seen[k + 1..];
  }

  lemma ScanEnd(local: SocketAddr, remote: SocketAddr, port: nat, seen: seq<Stack>)
    requires seen == [] && port <= LAST_PORT + 1
    ensures FirstFree(local, remote, port, seen) == Exhausted
  {
  }

  lemma {:induction false} SeenAlone(s: Stack, others: seq<seq<Step>>)
    requires forall k :: 0 <= k < |others| ==> others[k] == []
    ensures forall k :: 0 <= k < |others| ==> Seen(s, others)[k] == s
    decreases |others|
  {
    if others != [] {
      assert others[0] == [];
      SeenAlone(s, others[1..]);
    }
  }

  /** Without other tasks this is the least free port from the start on. */
  lemma LeastFreeAlone(s: Stack, local: SocketAddr, remote: SocketAddr, start: nat, others: seq<seq<Step>>)
    requires start + |others| == LAST_PORT + 1 && s.fault.None?
    requires forall k :: 0 <= k < |others| ==> others[k] == []
    ensures match FirstFree(local, remote, start, Seen(s, others))
      case Chosen(p) =>
        && start <= p <= 60999 && At(local, p, remote) !in s.tuples
        && (forall q :: start <= q < p ==> At(local, q, remote) in s.tuples)
      case Exhausted => forall q :: start <= q <= 60999 ==> At(local, q, remote) in s.tuples
      case Halted => false
  {
    var seen := Seen(s, others);
    SeenAlone(s, others);
    var n := ScanStops(local, remote, start, seen);
    forall q: nat | start <= q < start + n
      ensures At(local, q, remote) in s.tuples
    {
      assert InUse(local, remote, start, seen, q - start);
    }
  }

  predicate NoDrops(steps: seq<Step>) {
    forall i :: 0 <= i < |steps| ==> !steps[i].DropRemove?
  }

  lemma {:induction false} TuplesStay(s: Stack, steps: seq<Step>)
    requires NoDrops(steps)
    ensures forall t :: t in s.tuples ==> t in RunAll(s, steps).tuples
    decreases |steps|
  {
    if steps != [] {
      assert !steps[0].DropRemove?;
      TuplesStay(if Enabled(s, steps[0]) then Apply(s, steps[0]) else s, steps[1..]);
    }
  }

  lemma {:induction false} SeenGrows(s: Stack, others: seq<seq<Step>>, i: nat, j: nat, t: AddrTuple)
    requires i <= j < |others| && forall k :: 0 <= k < |others| ==> NoDrops(others[k])
    requires t in (if i == 0 then s else Seen(s, others)[i - 1]).tuples
    ensures t in Seen(s, others)[j].tuples
    decreases |others|
  {
    var next := RunAll(s, others[0]);
    hide Apply, Enabled;
    if i == 0 {
      TuplesStay(s, others[0]);
    }
    if j > 0 {
      SeenGrows(next, others[1..], if i == 0 then 0 else i - 1, j - 1, t);
    }
  }

  /** With other tasks that connect, accept and receive but drop nothing, it is
      still the least port free at the moment of the choice. */
  lemma LeastFreeWithoutDrops(s: Stack, local: SocketAddr, remote: SocketAddr, start: nat, others: seq<seq<Step>>, port: u16)
    requires start + |others| == LAST_PORT + 1 && forall k :: 0 <= k < |others| ==> NoDrops(others[k])
    requires FirstFree(local, remote, start, Seen(s, others)) == Chosen(port)
    ensures start <= port <= LAST_PORT
    ensures var now := Seen(s, others)[port - start];
      && At(local, port, remote) !in now.tuples
      && (forall q :: start <= q < port ==> At(local, q, remote) in now.tuples)
  {
    hide FirstFree, Seen, NoDrops;
    var seen := Seen(s, others);
    var n := ScanStops(local, remote, start, seen);
    forall q: nat | start <= q < port
      ensures At(local, q, remote) in seen[n].tuples
    {
      assert InUse(local, remote, start, seen, q - start);
      SeenGrows(s, others, q - start + 1, n, At(local, q, remote));
    }
  }

  /** The port chosen is free at that moment and every lower one from the start
      on is in use at that moment. */
  predicate LeastAt(local: SocketAddr, remote: SocketAddr, start: nat, port: u16, now: Stack) {
    && At(local, port, remote) !in now.tuples
    && (forall q: u16 :: start <= q < port ==> At(local, q, remote) in now.tuples)
  }

  /** Whatever other tasks do between two attempts, with or without drops, the scan
      takes the least port free at the moment of its choice. */
  ghost predicate AlwaysLeast(s: Stack, local: SocketAddr, remote: SocketAddr, start: nat, drops: bool)
    requires start <= LAST_PORT
  {
    forall others: seq<seq<Step>> ::
      start + |others| == LAST_PORT + 1 && (drops || forall k :: 0 <= k < |others| ==> NoDrops(others[k])) ==>
        match FirstFree(local, remote, start, Seen(s, others))
        case Chosen(port) => start <= port <= LAST_PORT && LeastAt(local, remote, start, port, Seen(s, others)[port - start])
        case _ => true
  }

  lemma RunOne(s: Stack, e: Step, steps: seq<Step>)
    ensures RunAll(s, [e] + steps) == RunAll(if Enabled(s, e) then Apply(s, e) else s, steps)
  {
    assert ([e] + steps)[1..] == steps;
  }

  /** Dropping the owner of a tuple frees it, and frees no other. */
  lemma FreeTuple(s: Stack, t: AddrTuple) returns (steps: seq<Step>)
    requires Inv(s) && s.fault.None?
    ensures var f := RunAll(s, steps); Inv(f) && f.fault.None? && f.tuples == s.tuples - {t}
  {
    steps := [];
    if t in s.tuples {
      var drop := DropRemove(s.tuples[t]);
      assert SockIn(s, s.tuples[t], Live) && s.socks[s.tuples[t]].tuple == t;
      OwnedRemove(s, s.tuples[t]);
      InvKept(s, drop);
      assert Apply(s, drop).tuples == s.tuples - {t};
      RunOne(s, drop, []);
      steps := [drop] + [];
    } else {
      assert s.tuples - {t} == s.tuples;
    }
  }

  /** Connecting a tuple, if it is free, puts it in use. */
  lemma TakeTuple(s: Stack, t: AddrTuple) returns (steps: seq<Step>)
    requires Inv(s) && s.fault.None? && Ephemeral(t.local.port)
    ensures var f := RunAll(s, steps); Inv(f) && f.fault.None? && t in f.tuples
  {
    steps := [Connect(t)] + [];
    RunOne(s, Connect(t), []);
    if t !in s.tuples {
      InvKept(s, Connect(t));
    }
  }

  lemma {:induction false} FaultStays(s: Stack, steps: seq<Step>)
    requires s.fault.Some?
    ensures RunAll(s, steps) == s
    decreases |steps|
  {
    if steps != [] {
      FaultStays(s, steps[1..]);
    }
  }

  lemma {:induction false} RunAllKeeps(s: Stack, steps: seq<Step>)
    requires Inv(s)
    ensures RunAll(s, steps).fault.None? ==> Inv(RunAll(s, steps))
    decreases |steps|
  {
    hide Inv, Apply;
    if steps != [] {
      var m := if Enabled(s, steps[0]) then Apply(s, steps[0]) else s;
      if Enabled(s, steps[0]) {
        InvKept(s, steps[0]);
      }
      if m.fault.None? || m == s {
        RunAllKeeps(m, steps[1..]);
      } else {
        FaultStays(m, steps[1..]);
      }
    }
  }

  lemma {:induction false} RunAllConcat(s: Stack, a: seq<Step>, b: seq<Step>)
    ensures RunAll(s, a + b) == RunAll(RunAll(s, a), b)
    decreases |a|
  {
    hide Enabled, Apply;
    if a == [] {
      assert a + b == b;
    } else {
      assert (a + b)[1..] == a[1..] + b && (a + b)[0] == a[0];
      RunAllConcat(if Enabled(s, a[0]) then Apply(s, a[0]) else s, a[1..], b);
    }
  }

  /** Drops break it from every state: other tasks take the first port before it is
      tried, then free it and the second before the second is tried. */
  lemma DropFreesPassedPort(s: Stack, local: SocketAddr, remote: SocketAddr, start: nat) returns (others: seq<seq<Step>>)
    requires Inv(s) && s.fault.None? && FIRST_PORT <= start < LAST_PORT
    ensures start + |others| == LAST_PORT + 1
    ensures FirstFree(local, remote, start, Seen(s, others)) == Chosen(start + 1)
    ensures At(local, start, remote) !in Seen(s, others)[1].tuples
  {
    var t, u := At(local, start, remote), At(local, start + 1, remote);
    hide Inv, Apply, Enabled, RunAll;
    var take := TakeTuple(s, t);
    var s1 := RunAll(s, take);
    var first := FreeTuple(s1, t);
    var second := FreeTuple(RunAll(s1, first), u);
    RunAllConcat(s1, first, second);
    var s2 := RunAll(s1, first + second);
    var rest: seq<seq<Step>> := seq(LAST_PORT - 1 - start, _ => []);
    others := [take, first + second] + rest;
    assert others[0] == take && others[1..][0] == first + second;
    assert Seen(s, others)[0] == s1 && Seen(s, others)[1..] == Seen(s1, others[1..]);
    assert Seen(s1, others[1..])[0] == s2;
  }

  /** The scan takes the least free port in every run exactly when nothing is
      dropped meanwhile or there is only one port to try. */
  lemma AlwaysLeastIff(s: Stack, local: SocketAddr, remote: SocketAddr, start: nat, drops: bool)
    requires Inv(s) && s.fault.None? && 32768 <= start <= 60999
    ensures AlwaysLeast(s, local, remote, start, drops) <==> !drops || start == 60999
  {
    hide Inv, FirstFree, Seen, NoDrops;
    if !drops || start == LAST_PORT {
      forall others: seq<seq<Step>> |
        start + |others| == LAST_PORT + 1 && (drops || forall k :: 0 <= k < |others| ==> NoDrops(others[k]))
        ensures match FirstFree(local, remote, start, Seen(s, others))
          case Chosen(port) => start <= port <= LAST_PORT && LeastAt(local, remote, start, port, Seen(s, others)[port - start])
          case _ => true
      {
        if FirstFree(local, remote, start, Seen(s, others)).Chosen? {
          var port := FirstFree(local, remote, start, Seen(s, others)).port;
          if drops {
            var n := ScanStops(local, remote, start, Seen(s, others));
          } else {
            LeastFreeWithoutDrops(s, local, remote, start, others, port);
          }
        }
      }
    } else {
      var others := DropFreesPassedPort(s, local, remote, start);
      assert !LeastAt(local, remote, start, start + 1, Seen(s, others)[1]);
    }
  }

  // ------------------------------------------------------------ the object

  /** The socket a reader hands a segment to: the cached one, else the owner. */
  function Addressee(s: Stack, r: nat, p: Segment): Option<nat>
    requires r < |s.readers|
  {
    var t := TupleOf(p);
    if t in s.readers[r].cache then Some(s.readers[r].cache[t])
    else if t in s.tuples then Some(s.tuples[t])
    else None
  }

  lemma AddresseeExists(s: Stack, r: nat, p: Segment)
    requires Inv(s) && ReaderAt(s, r) && Addressee(s, r, p).Some?
    ensures Addressee(s, r, p).value < |s.socks|
    ensures TupleOf(p) !in s.readers[r].cache ==> s.socks[Addressee(s, r, p).value].phase.Live?
  {
    assert CacheCoherent(s, s.readers[r]);
    assert TupleOf(p) in s.readers[r].cache ==> Backed(s, s.readers[r], TupleOf(p), s.readers[r].cache[TupleOf(p)]);
  }

  /** Its channel is closed, or has room: `send_async` does not wait. */
  predicate HasRoom(s: Stack, id: nat) {
    id < |s.socks| && (s.socks[id].phase.Closed? || |s.socks[id].queue| < 512)
  }

  /** A segment has entered a queue; a closed channel drops it. */
  function Delivered(socks: seq<Sock>, id: nat, p: Segment): seq<Sock>
    requires id < |socks|
  {
    if socks[id].phase.Closed? then socks else socks[id := socks[id].(queue := socks[id].queue + [p])]
  }

  /** A predecessor is cached for a registered tuple and its purge has not been
      queued: its drop stands between removal and purge. */
  predicate Stale(s: Stack, r: nat, t: AddrTuple)
    requires r < |s.readers|
  {
    && t in s.readers[r].cache && t !in s.readers[r].purges
    && t in s.tuples && s.readers[r].cache[t] != s.tuples[t]
  }

  /** The reader will not bring a segment for this tuple to its owner. */
  predicate Misses(s: Stack, r: nat, t: AddrTuple)
    requires r < |s.readers|
  {
    s.readers[r].lagged || Stale(s, r, t)
  }

  lemma StaleMeansDropping(s: Stack, r: nat, t: AddrTuple)
    requires Inv(s) && ReaderAt(s, r) && !s.readers[r].lagged && Stale(s, r, t)
    ensures var id := s.readers[r].cache[t]; id < |s.socks| && s.socks[id].tuple == t && s.socks[id].phase.Removed?
  {
    assert CacheCoherent(s, s.readers[r]);
    assert Backed(s, s.readers[r], t, s.readers[r].cache[t]);
  }

  /** A SYN that opens a connection. */
  predicate Opens(s: Stack, p: Segment) {
    p.flags == 2 && TupleOf(p).local.port in s.listening && p.seqNo == 0
  }

  lemma PurgeHeardLeaves(x: Reader)
    ensures !x.lagged && x.purges != [] ==>
      var y := PurgeHeard(x); y.cache - (set t | t in y.purges) == x.cache - (set t | t in x.purges)
  {
    if !x.lagged && x.purges != [] {
      assert x.purges == [x.purges[0]] + x.purges[1..];
      assert (set t | t in x.purges) == {x.purges[0]} + (set t | t in x.purges[1..]);
    }
  }

  lemma CaughtUpExact(s: Stack, r: nat)
    requires Inv(s) && ReaderAt(s, r) && !s.readers[r].lagged && s.readers[r].purges == []
    ensures (forall i :: 0 <= i < |s.socks| ==> !s.socks[i].phase.Removed?) ==>
      forall t :: t in s.readers[r].cache ==> t in s.tuples && s.tuples[t] == s.readers[r].cache[t]
  {
    assert CacheCoherent(s, s.readers[r]);
    forall t | t in s.readers[r].cache && forall i :: 0 <= i < |s.socks| ==> !s.socks[i].phase.Removed?
      ensures t in s.tuples && s.tuples[t] == s.readers[r].cache[t]
    {
      assert Backed(s, s.readers[r], t, s.readers[r].cache[t]);
    }
  }

  class Runtime {
    var tuples: map<AddrTuple, nat>
    var socks: seq<Sock>
    var readers: seq<Reader>
    var listening: set<u16>
    var fault: Option<Fault>
    var answers: nat
    var heard: seq<Segment>

    ghost function View(): Stack
      reads this
    {
      Stack(tuples, socks, readers, listening, fault, answers, heard)
    }

    /** A stack with one reader per device that listens on some ports. */
    constructor (devices: nat, ports: set<u16>)
      ensures View() == Start(devices).(listening := ports) && Inv(View())
    {
      tuples, socks, readers, listening := map[], [], seq(devices, _ => NewReader()), ports;
      fault, answers, heard := None, 0, [];
    }

    /** Steps of other tasks while this one does not hold the lock. */
    method Interleave(steps: seq<Step>)
      modifies this
      ensures View() == RunAll(old(View()), steps)
    {
      hide Apply, Enabled;
      var s := Stack(tuples, socks, readers, listening, fault, answers, heard);
      for k := 0 to |steps|
        invariant RunAll(s, steps[k..]) == RunAll(old(View()), steps)
      {
        assert steps[k..][0] == steps[k] && steps[k..][1..] == steps[k + 1..];
        if Enabled(s, steps[k]) {
          s := Apply(s, steps[k]);
        }
      }
      tuples, socks, readers, listening := s.tuples, s.socks, s.readers, s.listening;
      fault, answers, heard := s.fault, s.answers, s.heard;
    }

    /** One attempt, after steps of other tasks: under the lock it registers the
        tuple if it is free. */
    method Attempt(tuple: AddrTuple, steps: seq<Step>) returns (ok: bool)
      requires Ephemeral(tuple.local.port)
      modifies this
      ensures var m := RunAll(old(View()), steps);
        && (ok <==> m.fault.None? && tuple !in m.tuples)
        && (ok ==> Enabled(m, Step.Connect(tuple)))
        && View() == if ok then Apply(m, Step.Connect(tuple)) else m
    {
      hide RunAll;
      Interleave(steps);
      ok := fault.None? && tuple !in tuples;
      if ok {
        tuples := tuples[tuple := |socks|];
        socks := socks + [NewSock(tuple)];
      }
    }

    /** `Stack::connect` up to the handshake. The lock is taken and released for
        each port; `others[k]` is what other tasks do before the k-th attempt. */
    method Connect(local: SocketAddr, remote: SocketAddr, start: u16, others: seq<seq<Step>>) returns (choice: PortChoice)
      requires Ephemeral(start) && start + |others| == LAST_PORT + 1
      modifies this
      ensures choice == FirstFree(local, remote, start, Seen(old(View()), others))
      ensures choice.Chosen? ==>
        && start <= choice.port <= LAST_PORT
        && Enabled(Seen(old(View()), others)[choice.port - start], Step.Connect(At(local, choice.port, remote)))
        && View() == Apply(Seen(old(View()), others)[choice.port - start], Step.Connect(At(local, choice.port, remote)))
      ensures choice.Exhausted? ==> View() == Seen(old(View()), others)[|others| - 1]
    {
      hide RunAll, Apply, Enabled, Seen, FirstFree;
      ghost var was := View();
      ScanStart(was, others);
      var k := 0;
      while k < |others|
        invariant 0 <= k <= |others|
        invariant Scanned(was, others, k, View())
        invariant FirstFree(local, remote, start, Seen(was, others)) == FirstFree(local, remote, start + k, Seen(was, others)[k..])
      {
        ScanNext(was, others, k, View(), local, remote, start);
        var ok := Attempt(At(local, start + k, remote), others[k]);
        if ok {
          return Chosen(start + k);
        }
        if fault.Some? {
          return Halted;
        }
        k := k + 1;
      }
      ScanEnd(local, remote, start + k, Seen(was, others)[k..]);
      choice := Exhausted;
    }

    /** The same with no other task: takes the least free port at or above its
        start, and gives up only when none is free. */
    method ConnectAlone(local: SocketAddr, remote: SocketAddr, start: u16) returns (port: Option<u16>)
      requires fault.None? && Ephemeral(start)
      modifies this
      ensures port.Some? ==>
        && start <= port.value <= LAST_PORT
        && At(local, port.value, remote) !in old(tuples)
        && (forall q :: start <= q < port.value ==> At(local, q, remote) in old(tuples))
        && View() == Apply(old(View()), Step.Connect(At(local, port.value, remote)))
      ensures port.None? ==>
        && View() == old(View())
        && (forall q :: start <= q <= LAST_PORT ==> At(local, q, remote) in tuples)
    {
      var others: seq<seq<Step>> := seq(LAST_PORT + 1 - start, _ => []);
      SeenAlone(View(), others);
      LeastFreeAlone(View(), local, remote, start, others);
      hide FirstFree, Seen;
      var choice := Connect(local, remote, start, others);
      port := if choice.Chosen? then Some(choice.port) else None;
    }

    method HearSegment(r: nat, p: Segment)
      requires Inv(View()) && Enabled(View(), Hear(r, p))
      modifies this`readers, this`heard
      ensures (fault.None? ==> Inv(View())) && View() == Apply(old(View()), Hear(r, p))
    {
      InvKept(View(), Hear(r, p));
      hide Inv;
      var x := readers[r];
      var pc := if TupleOf(p) in x.cache then Sending(p, x.cache[TupleOf(p)], true) else Missed(p);
      readers := readers[r := x.(pc := pc)];
      heard := heard + [p];
    }

    method LookUpShared(r: nat)
      requires Inv(View()) && Enabled(View(), LookUp(r))
      modifies this`readers
      ensures (fault.None? ==> Inv(View())) && View() == Apply(old(View()), LookUp(r))
    {
      InvKept(View(), LookUp(r));
      hide Inv;
      var p := readers[r].pc.segment;
      if TupleOf(p) in tuples {
        readers := readers[r := readers[r].(pc := Found(p, tuples[TupleOf(p)]))];
      } else {
        readers := readers[r := readers[r].(pc := Unknown(p))];
      }
    }

    method RememberSender(r: nat)
      requires Inv(View()) && Enabled(View(), Remember(r))
      modifies this`readers
      ensures (fault.None? ==> Inv(View())) && View() == Apply(old(View()), Remember(r))
    {
      InvKept(View(), Remember(r));
      hide Inv;
      var x := readers[r];
      readers := readers[r := x.(cache := x.cache[TupleOf(x.pc.segment) := x.pc.id], pc := Sending(x.pc.segment, x.pc.id, false))];
    }

    method EnqueueSegment(r: nat)
      requires Inv(View()) && Enabled(View(), Enqueue(r))
      modifies this`readers, this`socks
      ensures (fault.None? ==> Inv(View())) && View() == Apply(old(View()), Enqueue(r))
    {
      InvKept(View(), Enqueue(r));
      hide Inv;
      var x := readers[r];
      var id := x.pc.id;
      if !socks[id].phase.Closed? {
        socks := socks[id := socks[id].(queue := socks[id].queue + [x.pc.segment])];
        readers := readers[r := x.(pc := Selecting)];
      } else if x.pc.hit {
        readers := readers[r := x.(pc := Selecting)];
      } else {
        readers := readers[r := x.(alive := false, pc := Selecting)];
      }
    }

    /** The slow path for a registered tuple: look the sender up and cache it. */
    method FindSender(r: nat)
      requires Inv(View()) && Enabled(View(), LookUp(r)) && TupleOf(readers[r].pc.segment) in tuples
      modifies this`readers
      ensures Inv(View()) && |readers| == |old(readers)|
      ensures var x := old(readers)[r]; var p := x.pc.segment; var id := tuples[TupleOf(p)];
        readers == old(readers)[r := x.(cache := x.cache[TupleOf(p) := id], pc := Sending(p, id, false))]
    {
      hide Inv;
      LookUpShared(r);
      RememberSender(r);
    }

    /** The reader's loop body on a segment whose tuple it knows or finds in the
        table: cached or not, the addressee is cached from then on, and the segment
        goes to the end of its queue; if that is full, the reader waits with it. */
    method Dispatch(r: nat, p: Segment) returns (done: bool)
      requires Inv(View()) && Enabled(View(), Hear(r, p)) && Addressee(View(), r, p).Some?
      modifies this`readers, this`socks, this`heard
      ensures Inv(View()) && heard == old(heard) + [p]
      ensures done <==> HasRoom(old(View()), Addressee(old(View()), r, p).value)
      ensures ReaderAt(View(), r) && readers[r].purges == old(readers[r].purges)
      ensures var id := Addressee(old(View()), r, p).value;
        && id < |old(socks)|
        && readers[r].cache == old(readers[r].cache)[TupleOf(p) := id]
        && (done ==> readers[r].pc.Selecting? && socks == Delivered(old(socks), id, p))
        && (!done ==> socks == old(socks) && readers[r].pc.Sending? && readers[r].pc.segment == p && readers[r].pc.id == id)
    {
      AddresseeExists(View(), r, p);
      hide Inv;
      HearSegment(r, p);
      if readers[r].pc.Missed? {
        FindSender(r);
      }
      var id := readers[r].pc.id;
      done := socks[id].phase.Closed? || |socks[id].queue| < QUEUE_CAPACITY;
      if done {
        EnqueueSegment(r);
      }
    }

    method RespondToUnknown(r: nat, sendOk: bool)
      requires Inv(View()) && Enabled(View(), Respond(r, sendOk))
      modifies this`readers, this`answers
      ensures (fault.None? ==> Inv(View())) && View() == Apply(old(View()), Respond(r, sendOk))
    {
      InvKept(View(), Respond(r, sendOk));
      hide Inv;
      var x := readers[r];
      var p := x.pc.segment;
      if p.flags == SYN && TupleOf(p).local.port in listening && p.seqNo == 0 {
        readers := readers[r := x.(pc := Accepting(p))];
      } else if (p.flags == SYN && TupleOf(p).local.port in listening) || !HasRst(p.flags) {
        answers := answers + 1;
        readers := readers[r := if sendOk then x.(pc := Selecting) else x.(alive := false, pc := Selecting)];
      } else {
        readers := readers[r := x.(pc := Selecting)];
      }
    }

    method AdmitSocket(r: nat)
      requires Inv(View()) && Enabled(View(), Admit(r))
      modifies this
      ensures (fault.None? ==> Inv(View())) && View() == Apply(old(View()), Admit(r))
    {
      InvKept(View(), Admit(r));
      hide Inv;
      var t := TupleOf(readers[r].pc.segment);
      if t in tuples {
        fault := Some(AcceptOccupied);
        return;
      }
      tuples := tuples[t := |socks|];
      socks := socks + [NewSock(t)];
      readers := readers[r := readers[r].(pc := Selecting)];
    }

    /** The loop body on a segment of no known connection. Uninterrupted, its
        assert does not fire: a SYN for a listening port registers a new socket;
        any other segment but a RST is answered, and a failed answer kills the
        reader. */
    method HandleUnknown(r: nat, p: Segment, sendOk: bool)
      requires Inv(View()) && Enabled(View(), Hear(r, p)) && Addressee(View(), r, p).None?
      modifies this
      ensures Inv(View()) && fault.None? && heard == old(heard) + [p]
      ensures Opens(old(View()), p) ==>
        && tuples == old(tuples)[TupleOf(p) := |old(socks)|] && socks == old(socks) + [NewSock(TupleOf(p))]
        && answers == old(answers) && ReaderAt(View(), r) && readers[r] == old(readers[r])
      ensures !Opens(old(View()), p) ==>
        && tuples == old(tuples) && socks == old(socks)
        && answers == old(answers) + (if HasRst(p.flags) then 0 else 1)
        && r < |readers| && (readers[r].alive <==> HasRst(p.flags) || sendOk)
    {
      hide Inv;
      HearSegment(r, p);
      LookUpShared(r);
      RespondToUnknown(r, sendOk);
      if readers[r].pc.Accepting? {
        AdmitSocket(r);
      }
    }

    method ReceivePurge(r: nat)
      requires Inv(View()) && Enabled(View(), HearPurge(r))
      modifies this`readers
      ensures (fault.None? ==> Inv(View())) && View() == Apply(old(View()), HearPurge(r))
    {
      InvKept(View(), HearPurge(r));
      hide Inv;
      var x := readers[r];
      if x.lagged {
        readers := readers[r := x.(alive := false, pc := Selecting)];
      } else {
        readers := readers[r := x.(purges := x.purges[1..], cache := x.cache - {x.purges[0]})];
      }
    }

    /** The loop on the purges that wait. A reader that has lagged dies; any other
        ends with a cache that has lost exactly the purged tuples, and that is exact
        as long as no drop stands between its removal and its purge. */
    method CatchUp(r: nat)
      requires Inv(View()) && fault.None? && ReaderAt(View(), r) && readers[r].pc.Selecting?
      modifies this`readers
      ensures Inv(View()) && |readers| == |old(readers)|
      ensures readers[r].alive <==> !(old(readers[r].lagged))
      ensures readers[r].pc.Selecting?
      ensures readers[r].alive ==> readers[r].purges == [] && !readers[r].lagged
      ensures readers[r].alive ==> readers[r].cache == old(readers[r].cache) - (set t | t in old(readers[r].purges))
      ensures readers[r].alive && (forall i :: 0 <= i < |socks| ==> !socks[i].phase.Removed?) ==>
        forall t :: t in readers[r].cache ==> t in tuples && tuples[t] == readers[r].cache[t]
    {
      while readers[r].alive && (readers[r].lagged || readers[r].purges != [])
        invariant Inv(View()) && |readers| == |old(readers)| && readers[r].pc.Selecting?
        invariant readers[r].lagged == old(readers[r].lagged)
        invariant readers[r].alive || readers[r].lagged
        invariant readers[r].alive ==>
          readers[r].cache - (set t | t in readers[r].purges) == old(readers[r].cache) - (set t | t in old(readers[r].purges))
        decreases readers[r].alive, |readers[r].purges|
      {
        PurgeHeardLeaves(readers[r]);
        ReceivePurge(r);
      }
      if readers[r].alive {
        assert readers[r].cache - (set t | t in readers[r].purges) == readers[r].cache;
        CaughtUpExact(View(), r);
      }
    }

    /** What a waiting `recv` takes from the socket's channel. */
    method TakeQueued(id: nat) returns (p: Segment)
      requires Inv(View()) && Enabled(View(), Take(id))
      modifies this`socks
      ensures Inv(View()) && p == old(socks[id].queue[0])
      ensures View() == Apply(old(View()), Take(id))
      ensures socks == old(socks)[id := old(socks[id]).(queue := old(socks[id].queue)[1..], taken := old(socks[id].taken) + [p])]
    {
      InvKept(View(), Take(id));
      hide Inv;
      p := socks[id].queue[0];
      socks := socks[id := socks[id].(queue := socks[id].queue[1..], taken := socks[id].taken + [p])];
    }

    /** Receives until the queue is empty. */
    method TakeAll(id: nat) returns (got: seq<Segment>)
      requires Inv(View()) && fault.None? && id < |socks|
      modifies this`socks
      ensures Inv(View()) && got == old(socks[id].queue)
      ensures socks == old(socks)[id := old(socks[id]).(queue := [], taken := old(socks[id].taken) + got)]
    {
      hide Inv, Apply;
      got := [];
      ghost var x := socks[id];
      assert x.taken + got == x.taken && socks[id := x] == socks;
      while socks[id].queue != []
        invariant Inv(View()) && fault.None? && |socks| == |old(socks)|
        invariant got + socks[id].queue == x.queue
        invariant socks == old(socks)[id := x.(queue := socks[id].queue, taken := x.taken + got)]
        decreases |socks[id].queue|
      {
        ghost var q := socks[id].queue;
        var p := TakeQueued(id);
        assert q == [p] + q[1..];
        assert x.taken + got + [p] == x.taken + (got + [p]);
        got := got + [p];
      }
    }

    /** A reader takes its purges and then a segment for a registered tuple; the
        owner receives until it has it, behind what was queued before, even if the
        reader had to wait for room. This fails exactly when the reader has lagged
        or still caches a predecessor that is being dropped, and then the owner is
        left as it was. */
    method DeliverToOwner(r: nat, p: Segment) returns (got: seq<Segment>)
      requires Inv(View()) && fault.None? && ReaderAt(View(), r) && readers[r].pc.Selecting?
      requires TupleOf(p) in tuples
      modifies this`readers, this`socks, this`heard
      ensures Inv(View())
      ensures old(tuples)[TupleOf(p)] < |old(socks)| <= |socks|
      ensures var id := old(tuples)[TupleOf(p)]; var x := old(socks)[id];
        if Misses(old(View()), r, TupleOf(p)) then got == [] && socks[id] == x
        else got == x.queue + [p] && socks == old(socks)[id := x.(queue := [], taken := x.taken + got)]
    {
      var id := tuples[TupleOf(p)];
      assert SockIn(View(), id, Live);
      hide Inv, Apply;
      CatchUp(r);
      if !readers[r].alive {
        return [];
      }
      if TupleOf(p) in readers[r].cache && readers[r].cache[TupleOf(p)] != id {
        var _ := Dispatch(r, p);
        return [];
      }
      got := DispatchAndTake(r, id, p);
    }

    method DispatchAndTake(r: nat, id: nat, p: Segment) returns (got: seq<Segment>)
      requires Inv(View()) && Enabled(View(), Hear(r, p)) && SockIn(View(), id, Live)
      requires Addressee(View(), r, p) == Some(id)
      modifies this`readers, this`socks, this`heard
      ensures Inv(View()) && got == old(socks[id].queue) + [p]
      ensures socks == old(socks)[id := old(socks[id]).(queue := [], taken := old(socks[id].taken) + got)]
    {
      hide Inv, Apply;
      ghost var was := socks;
      var done := Dispatch(r, p);
      got := TakeAll(id);
      if done {
        assert socks == was[id := was[id].(queue := [], taken := was[id].taken + got)];
      } else {
        got := EnqueueAndTake(r, id, p, was, got);
      }
    }

    /** The queue has been emptied, so the waiting reader can go on. */
    method EnqueueAndTake(r: nat, id: nat, p: Segment, ghost was: seq<Sock>, got: seq<Segment>) returns (all: seq<Segment>)
      requires Inv(View()) && fault.None? && ReaderAt(View(), r) && id < |was| && was[id].phase.Live?
      requires readers[r].pc.Sending? && readers[r].pc.segment == p && readers[r].pc.id == id
      requires got == was[id].queue && socks == was[id := was[id].(queue := [], taken := was[id].taken + got)]
      modifies this`readers, this`socks
      ensures Inv(View()) && all == got + [p]
      ensures socks == was[id := was[id].(queue := [], taken := was[id].taken + all)]
    {
      hide Inv;
      EnqueueSegment(r);
      var more := TakeAll(id);
      assert more == [p];
      assert was[id].taken + got + more == was[id].taken + (got + more);
      all := got + more;
    }

    /** The loop of the broadcast channel over its receivers. */
    method BroadcastPurge(t: AddrTuple)
      modifies this`readers
      ensures readers == Broadcast(old(readers), t)
    {
      var i := 0;
      while i < |readers|
        invariant 0 <= i <= |readers| == |old(readers)|
        invariant forall j :: 0 <= j < |readers| ==>
          readers[j] == if j < i then Notified(old(readers)[j], t) else old(readers)[j]
      {
        var x := readers[i];
        if x.alive {
          if |x.purges| < PURGE_CAPACITY {
            readers := readers[i := x.(purges := x.purges + [t])];
          } else {
            readers := readers[i := x.(purges := x.purges[1..] + [t], lagged := true)];
          }
        }
        i := i + 1;
      }
    }

    /** First stage of a drop; its assert never fires. */
    method Unregister(id: nat)
      requires Inv(View()) && Enabled(View(), DropRemove(id))
      modifies this`tuples, this`socks
      ensures View() == Apply(old(View()), DropRemove(id)) && fault.None? && Inv(View())
      ensures old(socks[id].tuple) in old(tuples) && tuples == old(tuples) - {old(socks[id].tuple)}
      ensures socks == old(socks)[id := old(socks[id]).(phase := Removed, removals := 1)]
    {
      assert DropsInOrder(socks[id]);
      InvKept(View(), DropRemove(id));
      OwnedRemove(View(), id);
      var x := socks[id];
      tuples := tuples - {x.tuple};
      socks := socks[id := x.(phase := Removed, removals := x.removals + 1)];
    }

    /** Second stage: every live reader is told. */
    method Purge(id: nat)
      requires Inv(View()) && Enabled(View(), DropPurge(id))
      requires exists r :: 0 <= r < |readers| && readers[r].alive
      modifies this`socks, this`readers
      ensures View() == Apply(old(View()), DropPurge(id)) && fault.None? && Inv(View())
      ensures readers == Broadcast(old(readers), old(socks[id].tuple))
      ensures socks == old(socks)[id := old(socks[id]).(phase := Purged, purges := 1)]
    {
      assert DropsInOrder(socks[id]);
      InvKept(View(), DropPurge(id));
      hide Inv;
      var x := socks[id];
      BroadcastPurge(x.tuple);
      socks := socks[id := x.(phase := Purged, purges := x.purges + 1)];
    }

    /** Last stages: one RST attempt, then the channel closes. */
    method ResetAndClose(id: nat)
      requires Inv(View()) && Enabled(View(), DropReset(id))
      modifies this`socks
      ensures fault.None? && Inv(View())
      ensures socks == old(socks)[id := old(socks[id]).(phase := Closed, resets := 1, queue := [])]
    {
      assert DropsInOrder(socks[id]);
      InvKept(View(), DropReset(id));
      socks := socks[id := socks[id].(phase := WasReset, resets := socks[id].resets + 1)];
      InvKept(View(), DropClose(id));
      socks := socks[id := socks[id].(phase := Closed, queue := [])];
    }

    /** `Drop`, all stages in a row, of a socket that stands at `seqNo`. From a
        coherent state with a live reader no assert fires, exactly the socket's own
        entry leaves the table, every live reader is told, the peer is sent one RST,
        and the state is coherent again. */
    method Drop(id: nat, seqNo: u32) returns (rst: Segment)
      requires Inv(View()) && fault.None? && id < |socks| && socks[id].phase.Live?
      requires exists r :: 0 <= r < |readers| && readers[r].alive
      modifies this`tuples, this`socks, this`readers
      ensures Inv(View())
      ensures old(socks[id].tuple) in old(tuples) && tuples == old(tuples) - {old(socks[id].tuple)}
      ensures readers == Broadcast(old(readers), old(socks[id].tuple))
      ensures socks == old(socks)[id := Sock(old(socks[id].tuple), Closed, [], old(socks[id].taken), 1, 1, 1)]
      ensures rst.source == old(socks[id].tuple.local) && rst.destination == old(socks[id].tuple.remote)
      ensures Resets(rst) && rst.seqNo == seqNo && rst.ackNo == 0 && rst.payload == []
    {
      hide Inv, Broadcast, Apply;
      var tuple := socks[id].tuple;
      Unregister(id);
      Purge(id);
      rst := Segment(tuple.local, tuple.remote, seqNo, 0, RST, []);
      ResetAndClose(id);
    }
  }
}
