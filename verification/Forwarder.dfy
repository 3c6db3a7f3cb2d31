/**
 The forwarder of phantun-client-mac/src/forwarder.rs running on the stack: the
 connection table and the stack's steps interleave with the workers that move
 datagrams to UDP clients, and a socket's drop starts when its last holder is
 gone.
 */
module Forwarder {
  import opened Bytes
  import opened Packet
  import opened Socket
  import S = StackMachine
  import T = ConnTable
  import ST = StackTheorems

  datatype WorkerPc = Receiving | Delivering(segment: Segment) | Ended

  datatype Worker = Worker(client: T.Client, conn: T.Conn, pc: WorkerPc)

  /** A datagram handed to the UDP socket for a client, and where it came from. */
  datatype Delivery = Delivery(client: T.Client, segment: Segment, sock: nat)

  /** A datagram of a client handed to a socket. */
  datatype Upload = Upload(client: T.Client, sock: nat)

  datatype Fwd = Fwd(
    table: T.Table,
    stack: S.Stack,
    workers: seq<Worker>,
    workerCount: nat,
    // history
    clientOf: seq<T.Client>,   // the client each socket was opened for
    tokens: seq<nat>,          // the socket each quit token was issued for
    down: seq<Delivery>,
    up: seq<Upload>)

  datatype Event =
    | Inner(step: S.Step)
    | LastHolderGone(id: nat)
    | Open(tuple: AddrTuple)
    | ConnectTake
    | Tabular(event: T.Event)
    | SpawnWorker
    | WorkerTake(worker: nat)
    | WorkerDeliver(worker: nat, ok: bool)
    | WorkerQuit(worker: nat)

  /** A client forwarder has one packet device, and nothing listens. */
  function Start(workerCount: nat): Fwd {
    Fwd(T.Start(), S.Start(1), [], if workerCount == 0 then 1 else workerCount, [], [], [], [])
  }

  // --------------------------------------------------------------- holders

  ghost predicate MainHolds(m: T.Main, id: nat) {
    match m
    case Relaying(_, sock) => sock == id
    case Connecting(_, sock) => sock == id
    case Greeting(_, sock) => sock == id
    case Inserting(_, sock) => sock == id
    case Spawning(_, conn, _) => conn.sock == id
    case Cancelling(rest) => exists conn :: conn in rest && conn.sock == id
    case _ => false
  }

  predicate TimerHolds(x: T.Timer, id: nat) {
    x.phase.Evicted? && x.phase.taken.Some? && x.phase.taken.value.sock == id
  }

  /** Some clone of the `Arc<Socket>` is still alive. */
  ghost predicate Held(f: Fwd, id: nat) {
    || MainHolds(f.table.main, id)
    || (exists c :: c in f.table.entries && f.table.entries[c].sock == id)
    || (exists w :: 0 <= w < |f.workers| && !f.workers[w].pc.Ended? && f.workers[w].conn.sock == id)
    || (exists i :: 0 <= i < |f.table.timers| && TimerHolds(f.table.timers[i], id))
  }

  // ----------------------------------------------------------------- steps

  /** The steps of the stack's own tasks. */
  predicate IsInner(e: S.Step) {
    e.Hear? || e.LookUp? || e.Remember? || e.Enqueue? || e.Respond? || e.Admit? || e.Fail? || e.HearPurge?
    || e.DropPurge? || e.DropReset? || e.DropClose?
  }

  predicate IsTabular(e: T.Event) { !e.Dial? && !e.SpawnWorker? && !e.Cancel? }

  predicate WorkerAt(f: Fwd, w: nat) {
    w < |f.workers| && T.Enabled(f.table, T.Cancel(f.workers[w].conn.quit))
  }

  ghost predicate Enabled(f: Fwd, e: Event) {
    f.stack.fault.None? &&
    match e
    case Inner(step) => IsInner(step) && S.Enabled(f.stack, step)
    case LastHolderGone(id) => !Held(f, id) && S.Enabled(f.stack, S.DropRemove(id))
    case Open(t) => T.Enabled(f.table, T.Dial(|f.stack.socks|)) && S.Enabled(f.stack, S.Connect(t))
    case ConnectTake => f.table.main.Connecting? && S.Enabled(f.stack, S.Take(f.table.main.sock))
    case Tabular(event) => IsTabular(event) && T.Enabled(f.table, event) && (event.Insert? ==> event.workers == f.workerCount)
    case SpawnWorker => T.Enabled(f.table, T.SpawnWorker)
    case WorkerTake(w) =>
      WorkerAt(f, w) && f.workers[w].pc.Receiving? && S.Enabled(f.stack, S.Take(f.workers[w].conn.sock))
    case WorkerDeliver(w, _) => WorkerAt(f, w) && f.workers[w].pc.Delivering?
    case WorkerQuit(w) => WorkerAt(f, w) && f.workers[w].pc.Receiving? && f.workers[w].conn.quit in f.table.cancelled
  }

  function SetWorker(f: Fwd, w: nat, pc: WorkerPc): Fwd
    requires w < |f.workers|
  {
    f.(workers := f.workers[w := f.workers[w].(pc := pc)])
  }

  /** Cancels the quit token of a worker's connection and ends the worker. */
  function CloseWorker(f: Fwd, w: nat): Fwd
    requires WorkerAt(f, w)
  {
    SetWorker(f, w, Ended).(table := T.Apply(f.table, T.Cancel(f.workers[w].conn.quit)))
  }

  /** The main loop has offered a datagram to the socket it holds. */
  function Uploads(m: T.Main, e: T.Event): seq<Upload> {
    if (m.Relaying? && e.GiveUp?) || (m.Greeting? && (e.GiveUp? || e.Greeted?)) then [Upload(m.client, m.sock)] else []
  }

  function WorkerTook(f: Fwd, w: nat): Fwd
    requires WorkerAt(f, w) && S.Enabled(f.stack, S.Take(f.workers[w].conn.sock))
  {
    var sock := f.workers[w].conn.sock;
    var p := f.stack.socks[sock].queue[0];
    var g := f.(stack := S.Apply(f.stack, S.Take(sock)));
    if HasRst(p.flags) then CloseWorker(g, w)
    else if p.payload == [] then g
    else SetWorker(g, w, Delivering(p))
  }

  function WorkerDelivered(f: Fwd, w: nat, ok: bool): Fwd
    requires WorkerAt(f, w) && f.workers[w].pc.Delivering?
  {
    var x := f.workers[w];
    var g := f.(down := f.down + [Delivery(x.client, x.pc.segment, x.conn.sock)]);
    if ok then SetWorker(g, w, Receiving) else CloseWorker(g, w)
  }

  ghost function Apply(f: Fwd, e: Event): Fwd
    requires Enabled(f, e)
  {
    match e
    case Inner(step) => f.(stack := S.Apply(f.stack, step))
    case LastHolderGone(id) => f.(stack := S.Apply(f.stack, S.DropRemove(id)))
    case Open(t) =>
      f.(table := T.Apply(f.table, T.Dial(|f.stack.socks|)), stack := S.Apply(f.stack, S.Connect(t)),
         clientOf := f.clientOf + [f.table.main.client])
    case ConnectTake => f.(stack := S.Apply(f.stack, S.Take(f.table.main.sock)))
    case Tabular(event) =>
      f.(table := T.Apply(f.table, event),
         tokens := if event.Insert? then f.tokens + [f.table.main.sock] else f.tokens,
         up := f.up + Uploads(f.table.main, event))
    case SpawnWorker =>
      f.(table := T.Apply(f.table, T.SpawnWorker),
         workers := f.workers + [Worker(f.table.main.client, f.table.main.conn, Receiving)])
    case WorkerTake(w) => WorkerTook(f, w)
    case WorkerDeliver(w, ok) => WorkerDelivered(f, w, ok)
    case WorkerQuit(w) => SetWorker(f, w, Ended)
  }

  ghost predicate Reaches(f: Fwd, events: seq<Event>, g: Fwd)
    decreases |events|
  {
    if events == [] then g == f else Enabled(f, events[0]) && Reaches(Apply(f, events[0]), events[1..], g)
  }

  // ------------------------------------------------------------ invariants

  /** The socket was opened for this client and nothing has begun to drop it. */
  predicate Serves(f: Fwd, c: T.Client, sock: nat) {
    sock < |f.clientOf| == |f.stack.socks| && f.clientOf[sock] == c && f.stack.socks[sock].phase.Live?
  }

  predicate Issued(f: Fwd, conn: T.Conn) {
    conn.quit < |f.tokens| && f.tokens[conn.quit] == conn.sock
  }

  ghost predicate EntriesServe(f: Fwd) {
    forall c :: c in f.table.entries ==> Serves(f, c, f.table.entries[c].sock) && Issued(f, f.table.entries[c])
  }

  ghost predicate MainServes(f: Fwd) {
    match f.table.main
    case Relaying(c, sock) => Serves(f, c, sock)
    case Connecting(c, sock) => Serves(f, c, sock) && sock !in f.tokens
    case Greeting(c, sock) => Serves(f, c, sock) && sock !in f.tokens
    case Inserting(c, sock) => Serves(f, c, sock) && sock !in f.tokens
    case Spawning(c, conn, _) => Serves(f, c, conn.sock) && Issued(f, conn)
    case Cancelling(rest) => forall conn :: conn in rest ==> exists c :: Serves(f, c, conn.sock) && Issued(f, conn)
    case _ => true
  }

  /** What a worker holds for delivery came out of its own socket's queue. */
  predicate WorkerServes(f: Fwd, x: Worker) {
    && Issued(f, x.conn)
    && (!x.pc.Ended? ==> Serves(f, x.client, x.conn.sock))
    && (x.pc.Delivering? && x.conn.sock < |f.stack.socks| ==>
          x.pc.segment.payload != [] && TupleOf(x.pc.segment) == f.stack.socks[x.conn.sock].tuple)
  }

  ghost predicate WorkersServe(f: Fwd) {
    forall w :: 0 <= w < |f.workers| ==> WorkerServes(f, f.workers[w])
  }

  predicate TimerServes(f: Fwd, x: T.Timer) {
    x.phase.Evicted? && x.phase.taken.Some? ==>
      Serves(f, x.client, x.phase.taken.value.sock) && Issued(f, x.phase.taken.value)
  }

  ghost predicate TimersServe(f: Fwd) {
    forall i :: 0 <= i < |f.table.timers| ==> TimerServes(f, f.table.timers[i])
  }

  /** The datagram is the payload of a segment addressed to the tuple of a socket
      that was opened for the client it went to. */
  predicate DeliveredRight(f: Fwd, d: Delivery) {
    && d.sock < |f.clientOf| == |f.stack.socks|
    && f.clientOf[d.sock] == d.client
    && f.stack.socks[d.sock].tuple == TupleOf(d.segment)
    && d.segment.payload != []
  }

  predicate UploadedRight(f: Fwd, u: Upload) {
    u.sock < |f.clientOf| && f.clientOf[u.sock] == u.client
  }

  ghost predicate LogsRight(f: Fwd) {
    && (forall i :: 0 <= i < |f.down| ==> DeliveredRight(f, f.down[i]))
    && (forall i :: 0 <= i < |f.up| ==> UploadedRight(f, f.up[i]))
  }

  ghost predicate TokensRight(f: Fwd) {
    && |f.tokens| == f.table.quits
    && (forall q :: 0 <= q < |f.tokens| ==> f.tokens[q] < |f.stack.socks|)
    && (forall p, q :: 0 <= p < q < |f.tokens| ==> f.tokens[p] != f.tokens[q])
  }

  ghost predicate NothingAccepting(s: S.Stack) {
    forall r :: 0 <= r < |s.readers| ==> ST.AcceptsListened(s, s.readers[r])
  }

  ghost predicate StackRight(f: Fwd) {
    && |f.clientOf| == |f.stack.socks| && f.stack.listening == {} && NothingAccepting(f.stack)
    && (f.stack.fault.None? ==> S.Inv(f.stack))
    && f.stack.fault != Some(S.DropUnregistered) && f.stack.fault != Some(S.AcceptOccupied)
  }

  ghost predicate Inv(f: Fwd) {
    && T.Inv(f.table) && StackRight(f) && TokensRight(f)
    && EntriesServe(f) && MainServes(f) && WorkersServe(f) && TimersServe(f) && LogsRight(f)
  }

  // ---------------------------------------------------- invariant is kept

  /** The stack changed, but no socket appeared, moved or began to drop. */
  ghost predicate Quiet(s: S.Stack, r: S.Stack) {
    && |r.socks| == |s.socks|
    && forall i :: 0 <= i < |s.socks| ==>
         r.socks[i].tuple == s.socks[i].tuple && (r.socks[i].phase.Live? <==> s.socks[i].phase.Live?)
  }

  lemma InnerQuiet(s: S.Stack, e: S.Step)
    requires S.Enabled(s, e) && (IsInner(e) || e.Take?) && s.listening == {} && NothingAccepting(s)
    ensures Quiet(s, S.Apply(s, e)) && S.Apply(s, e).listening == {}
    ensures S.Apply(s, e).fault != Some(S.AcceptOccupied)
  {
  }

  lemma QuietServes(f: Fwd, g: Fwd, c: T.Client, sock: nat)
    requires Quiet(f.stack, g.stack) && g.clientOf == f.clientOf && Serves(f, c, sock)
    ensures Serves(g, c, sock)
  {
  }

  /** Steps of the stack's own tasks, and receives during a connect. */
  lemma StackStepKept(f: Fwd, g: Fwd)
    requires Inv(f) && StackRight(g) && Quiet(f.stack, g.stack)
    requires g == f.(stack := g.stack)
    ensures Inv(g)
  {
    hide T.Inv, StackRight;
    if f.table.main.Cancelling? {
      forall conn | conn in f.table.main.rest
        ensures exists c :: Serves(g, c, conn.sock) && Issued(g, conn)
      {
        var c :| Serves(f, c, conn.sock) && Issued(f, conn);
        QuietServes(f, g, c, conn.sock);
      }
    }
  }

  lemma StackRightKept(f: Fwd, e: S.Step)
    requires StackRight(f) && f.stack.fault.None? && S.Enabled(f.stack, e)
    requires IsInner(e) || e.Take? || e.DropRemove?
    ensures StackRight(f.(stack := S.Apply(f.stack, e)))
  {
    hide S.Inv;
    S.InvKept(f.stack, e);
    ST.AcceptsKept(f.stack, e);
    if !e.DropRemove? {
      InnerQuiet(f.stack, e);
    }
  }

  lemma DropTouchesOne(s: S.Stack, id: nat)
    requires S.Enabled(s, S.DropRemove(id))
    ensures var r := S.Apply(s, S.DropRemove(id));
      && |r.socks| == |s.socks|
      && (forall i :: 0 <= i < |s.socks| ==> r.socks[i].tuple == s.socks[i].tuple)
      && (forall i :: 0 <= i < |s.socks| && i != id ==> r.socks[i] == s.socks[i])
  {
  }

  /** `g` differs from `f` only in the stack, and there all sockets keep their
      tuples and all but `id` their phases. */
  ghost predicate OnlyDrops(f: Fwd, g: Fwd, id: nat) {
    && g == f.(stack := g.stack) && |g.stack.socks| == |f.stack.socks|
    && (forall i :: 0 <= i < |f.stack.socks| ==> g.stack.socks[i].tuple == f.stack.socks[i].tuple)
    && (forall i :: 0 <= i < |f.stack.socks| && i != id ==> g.stack.socks[i] == f.stack.socks[i])
  }

  lemma DropEntries(f: Fwd, g: Fwd, id: nat)
    requires OnlyDrops(f, g, id) && !Held(f, id) && EntriesServe(f) && TimersServe(f)
    ensures EntriesServe(g) && TimersServe(g)
  {
    forall i | 0 <= i < |g.table.timers|
      ensures TimerServes(g, g.table.timers[i])
    {
      assert TimerServes(f, f.table.timers[i]);
    }
  }

  lemma DropWorkers(f: Fwd, g: Fwd, id: nat)
    requires OnlyDrops(f, g, id) && !Held(f, id) && WorkersServe(f) && LogsRight(f)
    ensures WorkersServe(g) && LogsRight(g)
  {
    forall w | 0 <= w < |g.workers|
      ensures WorkerServes(g, g.workers[w])
    {
      assert WorkerServes(f, f.workers[w]);
    }
  }

  lemma DropMain(f: Fwd, g: Fwd, id: nat)
    requires OnlyDrops(f, g, id) && !Held(f, id) && MainServes(f)
    ensures MainServes(g)
  {
    if f.table.main.Cancelling? {
      forall conn | conn in f.table.main.rest
        ensures exists c :: Serves(g, c, conn.sock) && Issued(g, conn)
      {
        var c :| Serves(f, c, conn.sock) && Issued(f, conn);
        assert Serves(g, c, conn.sock);
      }
    }
  }

  /** The last holder is gone: everybody else holds other sockets. */
  lemma DropKept(f: Fwd, id: nat)
    requires Inv(f) && Enabled(f, LastHolderGone(id))
    ensures Inv(Apply(f, LastHolderGone(id)))
  {
    var g := Apply(f, LastHolderGone(id));
    StackRightKept(f, S.DropRemove(id));
    DropTouchesOne(f.stack, id);
    hide T.Inv, S.Inv, S.Apply, S.Enabled, StackRight, Held, EntriesServe, MainServes, WorkersServe, TimersServe, LogsRight;
    DropEntries(f, g, id);
    DropWorkers(f, g, id);
    DropMain(f, g, id);
  }

  lemma OpenStack(f: Fwd, t: AddrTuple)
    requires Inv(f) && Enabled(f, Open(t))
    ensures var g := Apply(f, Open(t));
      && T.Inv(g.table) && StackRight(g)
      && g.stack.socks == f.stack.socks + [S.NewSock(t)]
      && f.table.main.Dialling? && g.table == f.table.(main := T.Connecting(f.table.main.client, |f.stack.socks|))
  {
    T.InvKept(f.table, T.Dial(|f.stack.socks|));
    S.InvKept(f.stack, S.Connect(t));
    ST.AcceptsKept(f.stack, S.Connect(t));
  }

  lemma OpenKept(f: Fwd, t: AddrTuple)
    requires Inv(f) && Enabled(f, Open(t))
    ensures Inv(Apply(f, Open(t)))
  {
    var g := Apply(f, Open(t));
    OpenStack(f, t);
    assert |f.clientOf| == |f.stack.socks|;
    OpenHolders(f, g, f.table.main.client, S.NewSock(t));
  }

  /** Everything held before is held for the same clients after one more socket. */
  lemma OpenHolders(f: Fwd, g: Fwd, c: T.Client, x: S.Sock)
    requires Inv(f) && T.Inv(g.table) && StackRight(g)
    requires x.phase.Live? && f.table.main.Dialling? && g.stack.socks == f.stack.socks + [x]
    requires g == f.(table := f.table.(main := T.Connecting(c, |f.stack.socks|)), stack := g.stack, clientOf := f.clientOf + [c])
    ensures Inv(g)
  {
    assert |f.clientOf| == |f.stack.socks|;
    hide T.Inv, StackRight;
    forall w | 0 <= w < |g.workers|
      ensures WorkerServes(g, g.workers[w])
    {
      assert WorkerServes(f, f.workers[w]);
    }
    forall i | 0 <= i < |g.table.timers|
      ensures TimerServes(g, g.table.timers[i])
    {
      assert TimerServes(f, f.table.timers[i]);
    }
  }

  /** A step of the table alone leaves the stack as it is. */
  ghost predicate TableStep(f: Fwd, e: T.Event, g: Fwd) {
    && IsTabular(e) && T.Enabled(f.table, e)
    && g.table == T.Apply(f.table, e)
    && g.stack == f.stack && g.clientOf == f.clientOf && g.workers == f.workers && g.down == f.down
    && g.tokens == (if e.Insert? then f.tokens + [f.table.main.sock] else f.tokens)
    && g.up == f.up + Uploads(f.table.main, e)
  }

  lemma TabularTokens(f: Fwd, e: T.Event, g: Fwd)
    requires TableStep(f, e, g) && !g.table.clash
    requires TokensRight(f) && MainServes(f)
    ensures TokensRight(g)
    ensures forall conn :: Issued(f, conn) ==> Issued(g, conn)
  {
  }

  lemma TabularEntries(f: Fwd, e: T.Event, g: Fwd)
    requires TableStep(f, e, g) && !g.table.clash
    requires TokensRight(f) && EntriesServe(f) && MainServes(f)
    ensures EntriesServe(g)
  {
    forall c | c in g.table.entries
      ensures Serves(g, c, g.table.entries[c].sock) && Issued(g, g.table.entries[c])
    {
      if c in f.table.entries && g.table.entries[c] == f.table.entries[c] {
        assert Serves(f, c, f.table.entries[c].sock);
      }
    }
  }

  lemma TabularTimers(f: Fwd, e: T.Event, g: Fwd)
    requires TableStep(f, e, g) && !g.table.clash
    requires EntriesServe(f) && TimersServe(f)
    ensures TimersServe(g)
  {
    forall i | 0 <= i < |g.table.timers|
      ensures TimerServes(g, g.table.timers[i])
    {
      if i < |f.table.timers| {
        assert TimerServes(f, f.table.timers[i]);
        if e.Evict? && e.timer == i && f.table.timers[i].client in f.table.entries {
          assert Serves(f, f.table.timers[i].client, f.table.entries[f.table.timers[i].client].sock);
        }
      }
    }
  }

  lemma TabularMain(f: Fwd, e: T.Event, g: Fwd)
    requires TableStep(f, e, g) && !g.table.clash
    requires TokensRight(f) && EntriesServe(f) && MainServes(f)
    ensures MainServes(g)
  {
    if e.Shutdown? {
      forall conn | conn in g.table.main.rest
        ensures exists c :: Serves(g, c, conn.sock) && Issued(g, conn)
      {
        var c :| c in f.table.entries && f.table.entries[c] == conn;
        assert Serves(g, c, conn.sock);
      }
    } else if e.Evict? || e.Expire? || e.SeeQuit? || e.CancelEvicted? {
      assert g.table.main == f.table.main;
      MainFrame(f, g);
    } else if e.CancelOne? {
      forall conn | conn in g.table.main.rest
        ensures exists c :: Serves(g, c, conn.sock) && Issued(g, conn)
      {
        var c :| Serves(f, c, conn.sock) && Issued(f, conn);
        assert Serves(g, c, conn.sock);
      }
    }
  }

  lemma MainFrame(f: Fwd, g: Fwd)
    requires MainServes(f) && g.table.main == f.table.main && g.tokens == f.tokens
    requires g.clientOf == f.clientOf && g.stack == f.stack
    ensures MainServes(g)
  {
    if f.table.main.Cancelling? {
      forall conn | conn in g.table.main.rest
        ensures exists c :: Serves(g, c, conn.sock) && Issued(g, conn)
      {
        var c :| Serves(f, c, conn.sock) && Issued(f, conn);
        assert Serves(g, c, conn.sock);
      }
    }
  }

  lemma TabularLogs(f: Fwd, e: T.Event, g: Fwd)
    requires TableStep(f, e, g) && MainServes(f) && LogsRight(f) && WorkersServe(f)
    requires forall conn :: Issued(f, conn) ==> Issued(g, conn)
    ensures LogsRight(g) && WorkersServe(g)
  {
    hide T.Apply, T.Enabled;
    forall w | 0 <= w < |g.workers|
      ensures WorkerServes(g, g.workers[w])
    {
      assert WorkerServes(f, f.workers[w]);
    }
  }

  lemma TabularKept(f: Fwd, e: T.Event)
    requires Inv(f) && Enabled(f, Tabular(e))
    ensures Inv(Apply(f, Tabular(e)))
  {
    var g := Apply(f, Tabular(e));
    T.InvKept(f.table, e);
    assert !g.table.clash;
    assert TableStep(f, e, g);
    hide T.Inv, T.Apply, T.Enabled, S.Inv, Enabled, EntriesServe, MainServes, WorkersServe, TimersServe, LogsRight, TokensRight;
    TabularTokens(f, e, g);
    TabularEntries(f, e, g);
    TabularMain(f, e, g);
    TabularTimers(f, e, g);
    TabularLogs(f, e, g);
  }

  // ------------------------------------------------------------- workers

  /** One worker moved; the table may have gained a cancelled token. */
  ghost predicate WorkerStep(f: Fwd, w: nat, g: Fwd) {
    && w < |f.workers| == |g.workers|
    && g.workers == f.workers[w := g.workers[w]]
    && g.table.entries == f.table.entries && g.table.main == f.table.main && g.table.timers == f.table.timers
    && g.table.quits == f.table.quits
    && g.clientOf == f.clientOf && g.tokens == f.tokens && g.up == f.up
    && Quiet(f.stack, g.stack)
  }

  lemma WorkerStepKept(f: Fwd, w: nat, g: Fwd)
    requires Inv(f) && WorkerStep(f, w, g)
    requires T.Inv(g.table) && StackRight(g)
    requires WorkerServes(g, g.workers[w])
    requires g.down == f.down || exists d :: g.down == f.down + [d] && DeliveredRight(g, d)
    ensures Inv(g)
  {
    hide T.Inv, StackRight;
    var h := f.(stack := g.stack);
    assert StackRight(h) by {
      hide *;
      StackRightSame(h, g);
    }
    StackStepKept(f, h);
    assert EntriesServe(g) && TimersServe(g) && TokensRight(g);
    forall i | 0 <= i < |g.workers|
      ensures WorkerServes(g, g.workers[i])
    {
      if i != w {
        assert WorkerServes(h, h.workers[i]);
      }
    }
    MainFrame(h, g);
  }

  lemma StackRightSame(h: Fwd, g: Fwd)
    requires StackRight(g) && h.stack == g.stack && h.clientOf == g.clientOf
    ensures StackRight(h)
  {
  }

  lemma HeadAddressed(s: S.Stack, id: nat)
    requires S.Inv(s) && id < |s.socks| && s.socks[id].queue != []
    ensures TupleOf(s.socks[id].queue[0]) == s.socks[id].tuple
  {
    var x := s.socks[id];
    assert S.Passed(x)[|x.taken|] == x.queue[0];
  }

  /** What a worker takes from its socket is addressed to that socket's tuple. */
  lemma WorkerTakeStep(f: Fwd, w: nat)
    requires Inv(f) && Enabled(f, WorkerTake(w))
    ensures var g := Apply(f, WorkerTake(w));
      WorkerStep(f, w, g) && g.down == f.down && T.Inv(g.table) && WorkerServes(g, g.workers[w])
  {
    var x := f.workers[w];
    hide T.Inv, S.Inv, EntriesServe, MainServes, TimersServe, LogsRight, TokensRight;
    assert WorkerServes(f, x);
    InnerQuiet(f.stack, S.Take(x.conn.sock));
    T.InvKept(f.table, T.Cancel(x.conn.quit));
    HeadAddressed(f.stack, x.conn.sock);
    CancelOnly(f.table, x.conn.quit);
    hide Inv, StackRight, S.Apply, S.Enabled, T.Apply, T.Enabled;
    var s := S.Apply(f.stack, S.Take(x.conn.sock));
    assert Serves(f.(stack := s), x.client, x.conn.sock) by { QuietServes(f, f.(stack := s), x.client, x.conn.sock); }
  }

  lemma CancelOnly(s: T.Table, q: nat)
    requires T.Enabled(s, T.Cancel(q))
    ensures T.Apply(s, T.Cancel(q)) == s.(cancelled := s.cancelled + {q})
  {
  }

  lemma WorkerTakeKept(f: Fwd, w: nat)
    requires Inv(f) && Enabled(f, WorkerTake(w))
    ensures Inv(Apply(f, WorkerTake(w)))
  {
    var g := Apply(f, WorkerTake(w));
    var h := f.(stack := S.Apply(f.stack, S.Take(f.workers[w].conn.sock)));
    assert g.stack == h.stack && g.clientOf == h.clientOf;
    StackRightKept(f, S.Take(f.workers[w].conn.sock));
    WorkerTakeStep(f, w);
    hide Inv, T.Inv, StackRight, WorkerStep, WorkerServes, Enabled;
    StackRightSame(g, h);
    WorkerStepKept(f, w, g);
  }

  lemma WorkerDeliverKept(f: Fwd, w: nat, ok: bool)
    requires Inv(f) && Enabled(f, WorkerDeliver(w, ok))
    ensures Inv(Apply(f, WorkerDeliver(w, ok)))
  {
    var g := Apply(f, WorkerDeliver(w, ok));
    var x := f.workers[w];
    assert WorkerServes(f, x);
    T.InvKept(f.table, T.Cancel(x.conn.quit));
    StackRightSame(g, f);
    assert DeliveredRight(g, Delivery(x.client, x.pc.segment, x.conn.sock));
    WorkerStepKept(f, w, g);
  }

  lemma WorkerQuitKept(f: Fwd, w: nat)
    requires Inv(f) && Enabled(f, WorkerQuit(w))
    ensures Inv(Apply(f, WorkerQuit(w)))
  {
    var g := Apply(f, WorkerQuit(w));
    assert WorkerServes(f, f.workers[w]);
    StackRightSame(g, f);
    WorkerStepKept(f, w, g);
  }

  lemma LogsFrame(f: Fwd, g: Fwd)
    requires LogsRight(f) && g.down == f.down && g.up == f.up && g.clientOf == f.clientOf && g.stack == f.stack
    ensures LogsRight(g)
  {
  }

  lemma SpawnWorkerKept(f: Fwd)
    requires Inv(f) && Enabled(f, SpawnWorker)
    ensures Inv(Apply(f, SpawnWorker))
  {
    var g := Apply(f, SpawnWorker);
    T.InvKept(f.table, T.SpawnWorker);
    hide T.Inv, S.Inv, LogsRight;
    assert LogsRight(g) by { LogsFrame(f, g); }
    forall w | 0 <= w < |g.workers|
      ensures WorkerServes(g, g.workers[w])
    {
      if w < |f.workers| {
        assert WorkerServes(f, f.workers[w]);
      }
    }
  }

  lemma InvKept(f: Fwd, e: Event)
    requires Inv(f) && Enabled(f, e)
    ensures Inv(Apply(f, e))
  {
    match e {
      case Inner(step) =>
        StackRightKept(f, step);
        InnerQuiet(f.stack, step);
        StackStepKept(f, Apply(f, e));
      case ConnectTake =>
        StackRightKept(f, S.Take(f.table.main.sock));
        InnerQuiet(f.stack, S.Take(f.table.main.sock));
        StackStepKept(f, Apply(f, e));
      case LastHolderGone(id) => DropKept(f, id);
      case Open(t) => OpenKept(f, t);
      case Tabular(event) => TabularKept(f, event);
      case SpawnWorker => SpawnWorkerKept(f);
      case WorkerTake(w) => WorkerTakeKept(f, w);
      case WorkerDeliver(w, ok) => WorkerDeliverKept(f, w, ok);
      case WorkerQuit(w) => WorkerQuitKept(f, w);
    }
  }

  lemma {:induction false} RunKeeps(f: Fwd, events: seq<Event>, g: Fwd)
    requires Inv(f) && Reaches(f, events, g)
    ensures Inv(g)
    decreases |events|
  {
    hide Inv, Enabled, Apply;
    if events != [] {
      InvKept(f, events[0]);
      RunKeeps(Apply(f, events[0]), events[1..], g);
    }
  }

  lemma StartInv(workerCount: nat)
    ensures Inv(Start(workerCount))
  {
    T.StartInv();
  }

  // ------------------------------------------------------------- theorems

  lemma HeldLive(f: Fwd, id: nat)
    requires EntriesServe(f) && MainServes(f) && WorkersServe(f) && TimersServe(f) && Held(f, id)
    ensures id < |f.stack.socks| && f.stack.socks[id].phase.Live?
  {
    assert forall w :: 0 <= w < |f.workers| ==> WorkerServes(f, f.workers[w]);
    assert forall i :: 0 <= i < |f.table.timers| ==> TimerServes(f, f.table.timers[i]);
  }

  /** No assert of the stack ever fires under the forwarder; the one fault left is
      a purge that no reader is alive to hear. */
  lemma StackAssertsSilent(workerCount: nat, events: seq<Event>, g: Fwd)
    requires Reaches(Start(workerCount), events, g)
    ensures !ST.AssertFired(g.stack)
    ensures g.stack.fault.None? || g.stack.fault == Some(S.PurgeUnheard)
  {
    StartInv(workerCount);
    RunKeeps(Start(workerCount), events, g);
    assert StackRight(g);
    if g.stack.fault.Some? {
      assert g.stack.fault.value.DropUnregistered? || g.stack.fault.value.AcceptOccupied? || g.stack.fault.value.PurgeUnheard?;
    }
  }

  /** Whoever still holds a socket holds a registered one, so no task ever uses a
      socket whose drop has begun. */
  lemma HeldSocketsRegistered(workerCount: nat, events: seq<Event>, g: Fwd, id: nat)
    requires Reaches(Start(workerCount), events, g) && Held(g, id)
    ensures id < |g.stack.socks| && g.stack.socks[id].phase.Live?
    ensures g.stack.fault.None? ==> g.stack.socks[id].tuple in g.stack.tuples && g.stack.tuples[g.stack.socks[id].tuple] == id
  {
    StartInv(workerCount);
    RunKeeps(Start(workerCount), events, g);
    hide Held, EntriesServe, MainServes, WorkersServe, TimersServe, T.Inv, Start;
    HeldLive(g, id);
  }

  /** An entry for the socket of a token needs that token's task active. */
  lemma FinishedNotInTable(g: Fwd, i: nat, c: T.Client)
    requires T.EntriesGuarded(g.table) && T.TokensDistinct(g.table) && TokensRight(g) && EntriesServe(g)
    requires c in g.table.entries && i < |g.table.timers| && g.table.timers[i].phase.Finished?
    requires !MainHolds(g.table.main, g.tokens[g.table.timers[i].quit])
    ensures g.table.entries[c].sock != g.tokens[g.table.timers[i].quit]
  {
    var conn := g.table.entries[c];
    assert Issued(g, conn);
    assert T.EntryGuarded(g.table, c);
    if T.HasTimer(g.table.timers, c, conn) {
      var j :| 0 <= j < |g.table.timers| && T.Guards(g.table.timers[j], c, conn);
      assert g.table.timers[j].quit != g.table.timers[i].quit;
    }
  }

  /** Nobody holds the socket of a connection whose tasks have all ended. */
  lemma FinishedNotHeld(g: Fwd, i: nat)
    requires Inv(g) && i < |g.table.timers| && g.table.timers[i].phase.Finished?
    requires forall w :: 0 <= w < |g.workers| && g.workers[w].conn.quit == g.table.timers[i].quit ==> g.workers[w].pc.Ended?
    requires !MainHolds(g.table.main, g.tokens[g.table.timers[i].quit])
    ensures !Held(g, g.tokens[g.table.timers[i].quit])
  {
    var q := g.table.timers[i].quit;
    hide S.Inv, StackRight, LogsRight, MainServes, MainHolds;
    forall c | c in g.table.entries
      ensures g.table.entries[c].sock != g.tokens[q]
    {
      FinishedNotInTable(g, i, c);
    }
    forall w | 0 <= w < |g.workers| && !g.workers[w].pc.Ended?
      ensures g.workers[w].conn.sock != g.tokens[q]
    {
      assert WorkerServes(g, g.workers[w]);
    }
    forall j | 0 <= j < |g.table.timers|
      ensures !TimerHolds(g.table.timers[j], g.tokens[q])
    {
      assert TimerServes(g, g.table.timers[j]) && T.TimerCancels(g.table, g.table.timers[j]);
    }
  }

  /** A finished connection frees its tuple: once the timeout task of a token and
      the workers of its connection have ended and the main loop does not hold its
      socket, nobody does, so its drop can start, and that frees its tuple. */
  lemma FinishedConnectionFreesTuple(workerCount: nat, events: seq<Event>, g: Fwd, q: nat, i: nat)
    requires Reaches(Start(workerCount), events, g) && g.stack.fault.None?
    requires q < |g.tokens| && i < |g.table.timers| && g.table.timers[i].quit == q && g.table.timers[i].phase.Finished?
    requires forall w :: 0 <= w < |g.workers| && g.workers[w].conn.quit == q ==> g.workers[w].pc.Ended?
    requires !MainHolds(g.table.main, g.tokens[q])
    ensures var id := g.tokens[q];
      && q in g.table.cancelled
      && id < |g.stack.socks| && !Held(g, id)
      && (g.stack.socks[id].phase.Live? ==>
            && Enabled(g, LastHolderGone(id))
            && g.stack.socks[id].tuple !in Apply(g, LastHolderGone(id)).stack.tuples)
  {
    StartInv(workerCount);
    RunKeeps(Start(workerCount), events, g);
    FinishedNotHeld(g, i);
    assert T.TimerCancels(g.table, g.table.timers[i]);
    hide Held, EntriesServe, MainServes, WorkersServe, TimersServe, T.Inv, Start;
    var id := g.tokens[q];
    if g.stack.socks[id].phase.Live? {
      S.OwnedRemove(g.stack, id);
    }
  }

  // -------------------------------------------------- runs of the two parts

  /** The event of the table, and the step of the stack, inside an event. */
  ghost function TableEvents(f: Fwd, e: Event): (es: seq<T.Event>)
    requires Enabled(f, e)
  {
    match e
    case Open(_) => [T.Dial(|f.stack.socks|)]
    case Tabular(event) => [event]
    case SpawnWorker => [T.SpawnWorker]
    case WorkerTake(w) =>
      if HasRst(f.stack.socks[f.workers[w].conn.sock].queue[0].flags) then [T.Cancel(f.workers[w].conn.quit)] else []
    case WorkerDeliver(w, ok) => if ok then [] else [T.Cancel(f.workers[w].conn.quit)]
    case _ => []
  }

  ghost function StackSteps(f: Fwd, e: Event): (steps: seq<S.Step>)
    requires Enabled(f, e)
  {
    match e
    case Inner(step) => [step]
    case LastHolderGone(id) => [S.DropRemove(id)]
    case Open(t) => [S.Connect(t)]
    case ConnectTake => [S.Take(f.table.main.sock)]
    case WorkerTake(w) => [S.Take(f.workers[w].conn.sock)]
    case _ => []
  }

  lemma EventProjects(f: Fwd, e: Event)
    requires Enabled(f, e)
    ensures var es := TableEvents(f, e);
      if es == [] then Apply(f, e).table == f.table
      else |es| == 1 && T.Enabled(f.table, es[0]) && Apply(f, e).table == T.Apply(f.table, es[0])
    ensures var steps := StackSteps(f, e);
      if steps == [] then Apply(f, e).stack == f.stack
      else |steps| == 1 && !steps[0].Listen? && S.Enabled(f.stack, steps[0]) && Apply(f, e).stack == S.Apply(f.stack, steps[0])
  {
  }

  /** Every run of the whole forwarder is a run of its table and a run of a stack
      with one reader that never listens, so all theorems about those runs hold of
      the forwarder. */
  lemma {:induction false} RunsProject(f: Fwd, events: seq<Event>, g: Fwd) returns (es: seq<T.Event>, steps: seq<S.Step>)
    requires Reaches(f, events, g)
    ensures T.Reaches(f.table, es, g.table)
    ensures S.Reaches(f.stack, steps, g.stack) && ST.ListensWithin(steps, {})
    decreases |events|
  {
    if events == [] {
      es, steps := [], [];
    } else {
      EventProjects(f, events[0]);
      hide Enabled, Apply, T.Enabled, T.Apply, S.Enabled, S.Apply, TableEvents, StackSteps;
      var h := Apply(f, events[0]);
      es, steps := RunsProject(h, events[1..], g);
      var te, st := TableEvents(f, events[0]), StackSteps(f, events[0]);
      if te != [] {
        T.ReachesStep(f.table, te[0], es, g.table);
        es := [te[0]] + es;
      }
      if st != [] {
        ST.ReachesStep(f.stack, st[0], steps, g.stack);
        steps := [st[0]] + steps;
      }
    }
  }

  /** Replacement safety in the whole system: an active timeout task finds its own
      entry under its key or, only after shutdown, none. */
  lemma SystemReplacementSafety(workerCount: nat, events: seq<Event>, g: Fwd, i: nat)
    requires Reaches(Start(workerCount), events, g)
    requires i < |g.table.timers| && T.Active(g.table.timers[i])
    ensures !g.table.clash
    ensures match T.EntryOf(g.table, g.table.timers[i].client)
      case Some(conn) => conn.quit == g.table.timers[i].quit
      case None => T.Shut(g.table)
  {
    hide Reaches, T.Reaches;
    var es, steps := RunsProject(Start(workerCount), events, g);
    T.ReplacementSafety(es, g.table);
  }

  // --------------------------------- every delivery is of a heard segment

  function Delivered(down: seq<Delivery>, p: Segment): nat {
    if down == [] then 0 else Delivered(down[..|down| - 1], p) + if down[|down| - 1].segment == p then 1 else 0
  }

  function Carries(x: Worker, p: Segment): nat { if x.pc == Delivering(p) then 1 else 0 }

  function Carried(workers: seq<Worker>, p: Segment): nat {
    if workers == [] then 0 else Carries(workers[0], p) + Carried(workers[1..], p)
  }

  lemma {:induction false} CarriedUpdate(workers: seq<Worker>, w: nat, x: Worker, p: Segment)
    requires w < |workers|
    ensures Carried(workers[w := x], p) == Carried(workers, p) - Carries(workers[w], p) + Carries(x, p)
  {
    if w > 0 {
      assert workers[w := x][1..] == workers[1..][w - 1 := x];
      CarriedUpdate(workers[1..], w - 1, x, p);
    }
  }

  lemma {:induction false} CarriedSpawn(workers: seq<Worker>, x: Worker, p: Segment)
    requires x.pc.Receiving?
    ensures Carried(workers + [x], p) == Carried(workers, p)
  {
    if workers == [] {
      assert [x][1..] == [] && [] + [x] == [x];
      assert Carried([x], p) == 0;
    } else {
      assert (workers + [x])[1..] == workers[1..] + [x];
      CarriedSpawn(workers[1..], x, p);
    }
  }

  lemma DeliveredAppend(down: seq<Delivery>, d: Delivery, p: Segment)
    ensures Delivered(down + [d], p) == Delivered(down, p) + if d.segment == p then 1 else 0
  {
    assert (down + [d])[..|down|] == down;
  }

  lemma {:induction false} TakenSame(a: seq<S.Sock>, b: seq<S.Sock>, p: Segment)
    requires |a| <= |b| && forall i :: 0 <= i < |a| ==> b[i].taken == a[i].taken
    ensures ST.TakenCount(a, p) <= ST.TakenCount(b, p)
  {
    if a != [] {
      TakenSame(a[1..], b[1..], p);
    }
  }

  /** A receive takes one segment; nothing else changes what was received. */
  lemma TakenGrows(s: S.Stack, e: S.Step, p: Segment)
    requires S.Enabled(s, e)
    ensures ST.TakenCount(S.Apply(s, e).socks, p) >=
      ST.TakenCount(s.socks, p) + if e.Take? && s.socks[e.id].queue[0] == p then 1 else 0
  {
    var f := S.Apply(s, e);
    if e.Take? {
      ST.CountsUpdate(s.socks, e.id, f.socks[e.id], p);
    } else {
      TakenSame(s.socks, f.socks, p);
    }
  }

  predicate Sourced(f: Fwd, p: Segment) {
    Delivered(f.down, p) + Carried(f.workers, p) <= ST.TakenCount(f.stack.socks, p)
  }

  lemma WorkerSourced(f: Fwd, e: Event, p: Segment)
    requires Enabled(f, e) && Sourced(f, p) && (e.WorkerTake? || e.WorkerDeliver? || e.WorkerQuit?)
    ensures Sourced(Apply(f, e), p)
  {
    hide Delivered, Carried, ST.TakenCount, T.Apply;
    var g := Apply(f, e);
    var x := f.workers[e.worker];
    CarriedUpdate(f.workers, e.worker, g.workers[e.worker], p);
    assert g.workers == f.workers[e.worker := g.workers[e.worker]];
    if e.WorkerTake? {
      TakenGrows(f.stack, S.Take(x.conn.sock), p);
    } else if e.WorkerDeliver? {
      DeliveredAppend(f.down, Delivery(x.client, x.pc.segment, x.conn.sock), p);
    }
  }

  lemma SourcedKept(f: Fwd, e: Event, p: Segment)
    requires Enabled(f, e) && Sourced(f, p)
    ensures Sourced(Apply(f, e), p)
  {
    hide Delivered, Carried, ST.TakenCount, S.Apply, T.Apply;
    match e {
      case Inner(step) => TakenGrows(f.stack, step, p);
      case LastHolderGone(id) => TakenGrows(f.stack, S.DropRemove(id), p);
      case Open(t) => TakenGrows(f.stack, S.Connect(t), p);
      case ConnectTake => TakenGrows(f.stack, S.Take(f.table.main.sock), p);
      case Tabular(_) =>
      case SpawnWorker => CarriedSpawn(f.workers, Worker(f.table.main.client, f.table.main.conn, Receiving), p);
      case _ => WorkerSourced(f, e, p);
    }
  }

  lemma {:induction false} SourcedInRun(f: Fwd, events: seq<Event>, g: Fwd, p: Segment)
    requires Sourced(f, p) && Reaches(f, events, g)
    ensures Sourced(g, p)
    decreases |events|
  {
    hide Enabled, Apply, Sourced;
    if events != [] {
      SourcedKept(f, events[0], p);
      SourcedInRun(Apply(f, events[0]), events[1..], g, p);
    }
  }

  /** Nothing is invented and nothing is delivered twice: in every run the
      datagrams that went to UDP clients, with the segments that still wait in
      queues, come one for one from segments the packet device brought in. */
  lemma DeliveredOnce(workerCount: nat, events: seq<Event>, g: Fwd, p: Segment)
    requires Reaches(Start(workerCount), events, g)
    ensures Delivered(g.down, p) + ST.WaitingCount(g.stack.socks, p) <= multiset(g.stack.heard)[p]
  {
    SourcedInRun(Start(workerCount), events, g, p);
    hide Reaches;
    var es, steps := RunsProject(Start(workerCount), events, g);
    hide S.Reaches;
    ST.NothingTwice(1, steps, g.stack);
  }

  lemma {:induction false} DeliveredCounts(down: seq<Delivery>, i: nat)
    requires i < |down|
    ensures Delivered(down, down[i].segment) > 0
  {
    if i < |down| - 1 {
      DeliveredCounts(down[..|down| - 1], i);
    }
  }

  /** Client isolation: in every run, whatever is sent to a UDP client is the
      non-empty payload of a segment that the reader heard and whose (destination,
      source) pair is the tuple of a socket opened for that client; and a client's
      datagrams go only to sockets opened for it. */
  lemma ClientIsolation(workerCount: nat, events: seq<Event>, g: Fwd)
    requires Reaches(Start(workerCount), events, g)
    ensures forall i :: 0 <= i < |g.down| ==>
      var d := g.down[i];
      && d.sock < |g.stack.socks| == |g.clientOf| && g.clientOf[d.sock] == d.client
      && g.stack.socks[d.sock].tuple == TupleOf(d.segment) && d.segment.payload != []
      && d.segment in g.stack.heard
    ensures forall i :: 0 <= i < |g.up| ==> g.up[i].sock < |g.clientOf| && g.clientOf[g.up[i].sock] == g.up[i].client
  {
    StartInv(workerCount);
    RunKeeps(Start(workerCount), events, g);
    assert forall i :: 0 <= i < |g.down| ==> DeliveredRight(g, g.down[i]);
    forall i | 0 <= i < |g.down|
      ensures g.down[i].segment in g.stack.heard
    {
      DeliveredCounts(g.down, i);
      DeliveredOnce(workerCount, events, g, g.down[i].segment);
    }
  }

  // ------------------------------------------------------ what workers do

  /** A worker treats what it takes as `recv` reports it, whatever the counters of the
      socket: no payload ends it and its session, an empty one is skipped, and any
      other one is what it delivers. */
  lemma WorkerObeysRecv(f: Fwd, w: nat, t: Tcb)
    requires Enabled(f, WorkerTake(w))
    ensures var g := Apply(f, WorkerTake(w)); var x := f.stack.socks[f.workers[w].conn.sock];
      && w < |g.workers|
      && match Receive(x.tuple, t, x.queue[0]).payload
         case None => g.workers[w].pc == Ended && f.workers[w].conn.quit in g.table.cancelled
         case Some(bytes) => g.workers[w].pc == if bytes == [] then Receiving else Delivering(x.queue[0])
  {
    ReceiveExact(f.stack.socks[f.workers[w].conn.sock].tuple, t, f.stack.socks[f.workers[w].conn.sock].queue[0]);
  }

  /** A datagram that cannot be sent ends the worker and its session; otherwise the
      worker goes on. Either way it was offered once. */
  lemma WorkerDelivers(f: Fwd, w: nat, ok: bool)
    requires Enabled(f, WorkerDeliver(w, ok))
    ensures var g := Apply(f, WorkerDeliver(w, ok)); var x := f.workers[w];
      && w < |g.workers| && g.workers[w].pc == (if ok then Receiving else Ended)
      && g.down == f.down + [Delivery(x.client, x.pc.segment, x.conn.sock)]
      && g.table.cancelled == f.table.cancelled + if ok then {} else {x.conn.quit}
  {
  }

  ghost predicate EndedCancelled(f: Fwd) {
    forall w :: 0 <= w < |f.workers| && f.workers[w].pc.Ended? ==> f.workers[w].conn.quit in f.table.cancelled
  }

  lemma CancelledGrows(s: T.Table, e: T.Event)
    requires T.Enabled(s, e)
    ensures s.cancelled <= T.Apply(s, e).cancelled
  {
  }

  lemma EndedStep(f: Fwd, e: Event)
    requires Enabled(f, e) && EndedCancelled(f)
    ensures EndedCancelled(Apply(f, e))
  {
    EventProjects(f, e);
    var es := TableEvents(f, e);
    if es != [] {
      CancelledGrows(f.table, es[0]);
    }
    hide S.Apply, S.Enabled, TableEvents;
  }

  /** In every run an ended worker's session is cancelled: workers end together. */
  lemma {:induction false} WorkersEndTogether(f: Fwd, events: seq<Event>, g: Fwd)
    requires EndedCancelled(f) && Reaches(f, events, g)
    ensures EndedCancelled(g)
    decreases |events|
  {
    hide Enabled, Apply, EndedCancelled;
    if events != [] {
      EndedStep(f, events[0]);
      WorkersEndTogether(Apply(f, events[0]), events[1..], g);
    }
  }

  // --------------------------------------------------- workers per session

  function Count(workers: seq<Worker>, q: nat): nat {
    if workers == [] then 0 else Count(workers[..|workers| - 1], q) + if workers[|workers| - 1].conn.quit == q then 1 else 0
  }

  lemma CountSpawn(workers: seq<Worker>, x: Worker, q: nat)
    ensures Count(workers + [x], q) == Count(workers, q) + if x.conn.quit == q then 1 else 0
  {
    assert (workers + [x])[..|workers|] == workers;
  }

  lemma {:induction false} CountSame(a: seq<Worker>, b: seq<Worker>, q: nat)
    requires |a| == |b| && forall w :: 0 <= w < |a| ==> a[w].conn == b[w].conn
    ensures Count(a, q) == Count(b, q)
  {
    if a != [] {
      CountSame(a[..|a| - 1], b[..|b| - 1], q);
    }
  }

  lemma {:induction false} CountNone(workers: seq<Worker>, q: nat)
    requires forall w :: 0 <= w < |workers| ==> workers[w].conn.quit != q
    ensures Count(workers, q) == 0
  {
    if workers != [] {
      CountNone(workers[..|workers| - 1], q);
    }
  }

  function ToSpawn(m: T.Main, q: nat): nat { if m.Spawning? && m.conn.quit == q then m.left else 0 }

  predicate Staffed(f: Fwd, q: nat) { Count(f.workers, q) + ToSpawn(f.table.main, q) == f.workerCount }

  lemma NewTokenUnstaffed(f: Fwd)
    requires WorkersServe(f)
    ensures Count(f.workers, |f.tokens|) == 0
  {
    assert forall w :: 0 <= w < |f.workers| ==> WorkerServes(f, f.workers[w]);
    CountNone(f.workers, |f.tokens|);
  }

  /** Only a spawn changes who works for which session. */
  lemma WorkersStay(f: Fwd, e: Event)
    requires Enabled(f, e) && !e.SpawnWorker?
    ensures var g := Apply(f, e); |g.workers| == |f.workers| && forall w :: 0 <= w < |f.workers| ==> g.workers[w].conn == f.workers[w].conn
  {
    hide S.Apply, S.Enabled, T.Apply;
  }

  /** What is left to spawn changes only when a session begins or a worker is spawned. */
  lemma ToSpawnStep(f: Fwd, e: Event, q: nat)
    requires Enabled(f, e) && T.Inv(f.table) && TokensRight(f)
    ensures var g := Apply(f, e);
      && g.workerCount == f.workerCount
      && |f.tokens| <= |g.tokens| <= |f.tokens| + 1
      && (q < |f.tokens| && !e.SpawnWorker? ==> ToSpawn(g.table.main, q) == ToSpawn(f.table.main, q))
      && (|f.tokens| == q < |g.tokens| ==> !e.SpawnWorker? && ToSpawn(g.table.main, q) == f.workerCount)
  {
    hide S.Apply, S.Enabled;
    assert !f.table.clash;
    if e.Tabular? && e.event.Insert? {
      T.InvKept(f.table, e.event);
    }
  }

  lemma StaffedKept(f: Fwd, e: Event, q: nat)
    requires Inv(f) && Enabled(f, e) && (q < |f.tokens| ==> Staffed(f, q))
    ensures Apply(f, e).workerCount == f.workerCount
    ensures q < |Apply(f, e).tokens| ==> Staffed(Apply(f, e), q)
  {
    ToSpawnStep(f, e, q);
    NewTokenUnstaffed(f);
    if e.SpawnWorker? {
      hide Count, Inv;
      CountSpawn(f.workers, Worker(f.table.main.client, f.table.main.conn, Receiving), q);
    } else {
      WorkersStay(f, e);
      hide Count, Inv, Enabled, Apply;
      CountSame(f.workers, Apply(f, e).workers, q);
    }
  }

  lemma {:induction false} StaffedInRun(f: Fwd, events: seq<Event>, g: Fwd, q: nat)
    requires Inv(f) && Reaches(f, events, g) && (q < |f.tokens| ==> Staffed(f, q))
    ensures g.workerCount == f.workerCount && (q < |g.tokens| ==> Staffed(g, q))
    decreases |events|
  {
    hide Inv, Enabled, Apply, Staffed;
    if events != [] {
      InvKept(f, events[0]);
      StaffedKept(f, events[0], q);
      StaffedInRun(Apply(f, events[0]), events[1..], g, q);
    }
  }

  /** In every run each session has as many workers as configured, one at least, as
      soon as the main loop has set it up. */
  lemma WorkersPerSession(workerCount: nat, events: seq<Event>, g: Fwd, q: nat)
    requires Reaches(Start(workerCount), events, g) && q < |g.tokens|
    requires !(g.table.main.Spawning? && g.table.main.conn.quit == q)
    ensures Count(g.workers, q) == if workerCount == 0 then 1 else workerCount
  {
    StartInv(workerCount);
    StaffedInRun(Start(workerCount), events, g, q);
  }

  // --------------------------------------------------------------- uploads

  /** How often datagrams of a client were offered to a socket. */
  function Offered(up: seq<Upload>, c: T.Client): nat {
    if up == [] then 0 else Offered(up[..|up| - 1], c) + if up[|up| - 1].client == c then 1 else 0
  }

  lemma OfferedAppend(up: seq<Upload>, more: seq<Upload>, c: T.Client)
    requires |more| <= 1
    ensures Offered(up + more, c) == Offered(up, c) + if more != [] && more[0].client == c then 1 else 0
  {
    if more == [] {
      assert up + more == up;
    } else {
      assert (up + more)[..|up|] == up;
    }
  }

  /** The main loop has a datagram of the client in its buffer. */
  function InHand(m: T.Main, c: T.Client): nat {
    if (m.Relaying? || m.Dialling? || m.Connecting? || m.Greeting?) && m.client == c then 1 else 0
  }

  predicate Arrives(e: Event, c: T.Client) { e == Tabular(T.UdpKnown(c)) || e == Tabular(T.UdpNew(c)) }

  /** No port was free or the handshake failed. */
  predicate Abandons(m: T.Main, e: Event, c: T.Client) {
    e == Tabular(T.GiveUp) && (m.Dialling? || m.Connecting?) && m.client == c
  }

  /** Datagrams of a client in a run, and those lost with a failed connect. */
  function Datagrams(events: seq<Event>, c: T.Client): nat
    decreases |events|
  {
    if events == [] then 0 else (if Arrives(events[0], c) then 1 else 0) + Datagrams(events[1..], c)
  }

  ghost function Lost(f: Fwd, events: seq<Event>, c: T.Client): nat
    decreases |events|
  {
    if events == [] || !Enabled(f, events[0]) then 0
    else (if Abandons(f.table.main, events[0], c) then 1 else 0) + Lost(Apply(f, events[0]), events[1..], c)
  }

  lemma UploadStep(f: Fwd, e: Event, c: T.Client)
    requires Enabled(f, e)
    ensures var g := Apply(f, e);
      InHand(g.table.main, c) + Offered(g.up, c) + (if Abandons(f.table.main, e, c) then 1 else 0)
      == InHand(f.table.main, c) + Offered(f.up, c) + if Arrives(e, c) then 1 else 0
  {
    hide Offered, S.Apply, S.Enabled;
    if e.Tabular? {
      OfferedAppend(f.up, Uploads(f.table.main, e.event), c);
    }
  }

  lemma {:induction false} UploadsInRun(f: Fwd, events: seq<Event>, g: Fwd, c: T.Client)
    requires Reaches(f, events, g)
    ensures InHand(g.table.main, c) + Offered(g.up, c) + Lost(f, events, c)
      == InHand(f.table.main, c) + Offered(f.up, c) + Datagrams(events, c)
    decreases |events|
  {
    hide Enabled, Apply, InHand, Abandons, Arrives;
    if events != [] {
      UploadStep(f, events[0], c);
      UploadsInRun(Apply(f, events[0]), events[1..], g, c);
    }
  }

  /** Every datagram of a client is handed on exactly once: in every run those that
      arrived are those offered to its sockets, those lost because no connection
      came about, and the one the main loop still has in hand. */
  lemma UploadsConserved(workerCount: nat, events: seq<Event>, g: Fwd, c: T.Client)
    requires Reaches(Start(workerCount), events, g)
    ensures Datagrams(events, c) == Offered(g.up, c) + Lost(Start(workerCount), events, c) + InHand(g.table.main, c)
  {
    UploadsInRun(Start(workerCount), events, g, c);
  }

  /** A datagram of a client that has an entry goes to the socket of that entry. */
  lemma KnownClientRelayed(f: Fwd, c: T.Client)
    requires Enabled(f, Tabular(T.UdpKnown(c)))
    ensures var g := Apply(f, Tabular(T.UdpKnown(c)));
      && Enabled(g, Tabular(T.GiveUp))
      && Apply(g, Tabular(T.GiveUp)).up == f.up + [Upload(c, f.table.entries[c].sock)]
      && Apply(g, Tabular(T.GiveUp)).table == f.table
  {
    assert f.up + [] == f.up;
  }

  // ------------------------------------------------- a reply gets through

  lemma ReachesStep(f: Fwd, e: Event, events: seq<Event>, g: Fwd)
    requires Enabled(f, e) && Reaches(Apply(f, e), events, g)
    ensures Reaches(f, [e] + events, g)
  {
    assert ([e] + events)[1..] == events;
  }

  /** Steps of the stack's own tasks followed by more of the forwarder. */
  lemma {:induction false} InnerThen(f: Fwd, steps: seq<S.Step>, s: S.Stack, events: seq<Event>, g: Fwd) returns (all: seq<Event>)
    requires S.Reaches(f.stack, steps, s) && (forall i :: 0 <= i < |steps| ==> IsInner(steps[i]))
    requires Reaches(f.(stack := s), events, g)
    ensures Reaches(f, all, g)
    decreases |steps|
  {
    if steps == [] {
      assert f.(stack := s) == f;
      all := events;
    } else {
      assert IsInner(steps[0]) && f.stack.fault.None?;
      var h := Apply(f, Inner(steps[0]));
      assert h.(stack := s) == f.(stack := s);
      var rest := InnerThen(h, steps[1..], s, events, g);
      ReachesStep(f, Inner(steps[0]), rest, g);
      all := [Inner(steps[0])] + rest;
    }
  }

  /** A waiting worker with one segment queued hands its payload to the client. */
  lemma TakeThenDeliver(f: Fwd, w: nat, p: Segment) returns (h: Fwd)
    requires f.stack.fault.None? && WorkerAt(f, w) && f.workers[w].pc.Receiving?
    requires f.workers[w].conn.sock < |f.stack.socks| && f.stack.socks[f.workers[w].conn.sock].queue == [p]
    requires !HasRst(p.flags) && p.payload != []
    ensures Reaches(f, [WorkerTake(w)] + [WorkerDeliver(w, true)], h)
    ensures h.down == f.down + [Delivery(f.workers[w].client, p, f.workers[w].conn.sock)]
  {
    var x := f.workers[w];
    assert S.Enabled(f.stack, S.Take(x.conn.sock));
    var g := Apply(f, WorkerTake(w));
    assert g.workers[w] == x.(pc := Delivering(p)) && g.table == f.table && g.stack.fault.None? && g.down == f.down;
    h := Apply(g, WorkerDeliver(w, true));
    hide Enabled, Apply;
    EmptyRun(h);
    ReachesStep(g, WorkerDeliver(w, true), [], h);
    ReachesStep(f, WorkerTake(w), [WorkerDeliver(w, true)], h);
  }

  lemma WaitingWorkerReady(g: Fwd, w: nat)
    requires Inv(g) && g.stack.fault.None? && w < |g.workers| && g.workers[w].pc.Receiving?
    ensures WorkerAt(g, w) && S.Inv(g.stack)
    ensures var sock := g.workers[w].conn.sock;
      && sock < |g.stack.socks| && g.stack.socks[sock].tuple in g.stack.tuples
      && g.stack.tuples[g.stack.socks[sock].tuple] == sock
  {
    assert WorkerServes(g, g.workers[w]);
  }

  /** From any reachable state in which a worker of a client waits on an empty
      queue and the reader is idle with no predecessor cached, a reply to that
      worker's socket can reach the client, unchanged. */
  lemma ReplyDelivered(workerCount: nat, events: seq<Event>, g: Fwd, w: nat, p: Segment) returns (more: seq<Event>, h: Fwd)
    requires Reaches(Start(workerCount), events, g) && g.stack.fault.None?
    requires w < |g.workers| && g.workers[w].pc.Receiving? && g.workers[w].conn.sock < |g.stack.socks|
    requires var x := g.stack.socks[g.workers[w].conn.sock]; x.queue == [] && TupleOf(p) == x.tuple
    requires !HasRst(p.flags) && p.payload != []
    requires S.ReaderAt(g.stack, 0) && g.stack.readers[0].pc.Selecting?
    requires TupleOf(p) in g.stack.readers[0].cache ==> g.stack.readers[0].cache[TupleOf(p)] == g.workers[w].conn.sock
    ensures Reaches(g, more, h)
    ensures h.down == g.down + [Delivery(g.workers[w].client, p, g.workers[w].conn.sock)]
  {
    StartInv(workerCount);
    RunKeeps(Start(workerCount), events, g);
    hide Inv, Reaches, Start, S.Inv, S.Reaches, T.Enabled;
    WaitingWorkerReady(g, w);
    var steps, s := ST.DispatchDelivers(g.stack, 0, p);
    var g1 := g.(stack := s);
    assert s.socks[g.workers[w].conn.sock].queue == [p];
    h := TakeThenDeliver(g1, w, p);
    more := InnerThen(g, steps, s, [WorkerTake(w)] + [WorkerDeliver(w, true)], h);
  }

  lemma EmptyRun(f: Fwd)
    ensures Reaches(f, [], f)
  {
  }
}
