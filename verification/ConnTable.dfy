/**
 The connection table of phantun-client-mac/src/forwarder.rs as interleaved
 steps of the main loop, one timeout task per connection, and the workers (of
 which the table sees only that they may cancel a connection's quit token).
 Sockets and quit tokens are numbered.
 */
module ConnTable {
  import opened Bytes
  import opened Packet

  type Client = SocketAddr

  datatype Conn = Conn(sock: nat, quit: nat)

  /** Where the main loop is between two awaits; `sock` is what it holds. */
  datatype Main =
    | Ready
    | Relaying(client: Client, sock: nat)
    | Dialling(client: Client)
    | Connecting(client: Client, sock: nat)
    | Greeting(client: Client, sock: nat)
    | Inserting(client: Client, sock: nat)
    | Spawning(client: Client, conn: Conn, left: nat)
    | Cancelling(rest: set<Conn>)
    | Stopped
    | Aborted

  /** A timeout task waits; its timer fires or it sees its token cancelled; it
      removes the entry under its client's key; after a timer it cancels a token. */
  datatype Phase = Watching | Expired | Quitting | Evicted(taken: Option<Conn>) | Finished

  datatype Timer = Timer(client: Client, quit: nat, phase: Phase)

  datatype Table = Table(
    entries: map<Client, Conn>,
    main: Main,
    timers: seq<Timer>,
    cancelled: set<nat>,
    quits: nat,      // tokens issued so far
    clash: bool)     // the assert on insertion has fired

  datatype Event =
    | UdpKnown(client: Client)
    | UdpNew(client: Client)
    | Dial(sock: nat)           // a port was free and its socket is registered
    | GiveUp                    // relayed, or no port was free, or connect or first send failed
    | Connected
    | Greeted
    | Insert(workers: nat)
    | SpawnWorker
    | SpawnTimer
    | Shutdown
    | UdpError                  // the main loop returns and leaves the table as it is
    | CancelOne(conn: Conn)
    | CancelsDone
    | Cancel(quit: nat)         // by a worker
    | Expire(timer: nat)
    | SeeQuit(timer: nat)
    | Evict(timer: nat)
    | CancelEvicted(timer: nat)

  function Start(): Table { Table(map[], Ready, [], {}, 0, false) }

  predicate TimerIn(s: Table, i: nat, phase: Phase) { i < |s.timers| && s.timers[i].phase == phase }

  predicate Enabled(s: Table, e: Event) {
    !s.clash &&
    match e
    case UdpKnown(c) => s.main.Ready? && c in s.entries
    case UdpNew(c) => s.main.Ready? && c !in s.entries
    case Dial(_) => s.main.Dialling?
    case GiveUp => s.main.Relaying? || s.main.Dialling? || s.main.Connecting? || s.main.Greeting?
    case Connected => s.main.Connecting?
    case Greeted => s.main.Greeting?
    case Insert(_) => s.main.Inserting?
    case SpawnWorker => s.main.Spawning? && s.main.left > 0
    case SpawnTimer => s.main.Spawning? && s.main.left == 0
    case Shutdown => s.main.Ready?
    case UdpError => s.main.Ready?
    case CancelOne(conn) => s.main.Cancelling? && conn in s.main.rest
    case CancelsDone => s.main.Cancelling? && s.main.rest == {}
    case Cancel(q) => q < s.quits
    case Expire(i) => TimerIn(s, i, Watching)
    case SeeQuit(i) => TimerIn(s, i, Watching) && s.timers[i].quit in s.cancelled
    case Evict(i) => TimerIn(s, i, Expired) || TimerIn(s, i, Quitting)
    case CancelEvicted(i) => i < |s.timers| && s.timers[i].phase.Evicted?
  }

  function SetPhase(s: Table, i: nat, phase: Phase): Table
    requires i < |s.timers|
  {
    s.(timers := s.timers[i := s.timers[i].(phase := phase)])
  }

  /** The entry under a key, if any: what `HashMap::remove` returns. */
  function EntryOf(s: Table, c: Client): Option<Conn> {
    if c in s.entries then Some(s.entries[c]) else None
  }

  /** The token a task cancels after its timer fired: that of the connection it
      removed, or its own if there was none. */
  function Target(x: Timer): nat
    requires x.phase.Evicted?
  {
    if x.phase.taken.Some? then x.phase.taken.value.quit else x.quit
  }

  function Apply(s: Table, e: Event): Table
    requires Enabled(s, e)
  {
    match e
    case UdpKnown(c) => s.(main := Relaying(c, s.entries[c].sock))
    case UdpNew(c) => s.(main := Dialling(c))
    case Dial(sock) => s.(main := Connecting(s.main.client, sock))
    case GiveUp => s.(main := Ready)
    case Connected => s.(main := Greeting(s.main.client, s.main.sock))
    case Greeted => s.(main := Inserting(s.main.client, s.main.sock))
    case Insert(workers) =>
      var c, conn := s.main.client, Conn(s.main.sock, s.quits);
      if c in s.entries then s.(clash := true)
      else s.(entries := s.entries[c := conn], quits := s.quits + 1, main := Spawning(c, conn, workers))
    case SpawnWorker => s.(main := s.main.(left := s.main.left - 1))
    case SpawnTimer =>
      s.(timers := s.timers + [Timer(s.main.client, s.main.conn.quit, Watching)], main := Ready)
    case Shutdown => s.(entries := map[], main := Cancelling(s.entries.Values))
    case UdpError => s.(main := Aborted)
    case CancelOne(conn) => s.(cancelled := s.cancelled + {conn.quit}, main := Cancelling(s.main.rest - {conn}))
    case CancelsDone => s.(main := Stopped)
    case Cancel(q) => s.(cancelled := s.cancelled + {q})
    case Expire(i) => SetPhase(s, i, Expired)
    case SeeQuit(i) => SetPhase(s, i, Quitting)
    case Evict(i) =>
      var x := s.timers[i];
      SetPhase(s, i, if x.phase.Expired? then Evicted(EntryOf(s, x.client)) else Finished)
        .(entries := s.entries - {x.client})
    case CancelEvicted(i) =>
      var x := s.timers[i];
      SetPhase(s, i, Finished)
        .(cancelled := s.cancelled + {Target(x)})
  }

  ghost predicate Reaches(s: Table, events: seq<Event>, f: Table)
    decreases |events|
  {
    if events == [] then f == s else Enabled(s, events[0]) && Reaches(Apply(s, events[0]), events[1..], f)
  }

  // ------------------------------------------------------------ invariant

  /** The shutdown branch has taken the table. */
  predicate Shut(s: Table) { s.main.Cancelling? || s.main.Stopped? }

  /** This timeout has not yet removed anything. */
  predicate Active(x: Timer) { x.phase.Watching? || x.phase.Expired? || x.phase.Quitting? }

  predicate Guards(x: Timer, c: Client, conn: Conn) { Active(x) && x.client == c && x.quit == conn.quit }

  /** Every entry has its own active timeout task, or the main loop is about to
      spawn it. */
  ghost predicate HasTimer(timers: seq<Timer>, c: Client, conn: Conn) {
    exists i :: 0 <= i < |timers| && Guards(timers[i], c, conn)
  }

  ghost predicate EntryGuarded(s: Table, c: Client)
    requires c in s.entries
  {
    || HasTimer(s.timers, c, s.entries[c])
    || (s.main.Spawning? && s.main.client == c && s.main.conn == s.entries[c])
  }

  ghost predicate EntriesGuarded(s: Table) {
    forall c :: c in s.entries ==> EntryGuarded(s, c)
  }

  /** Before shutdown, an active task finds its own entry under its key. */
  ghost predicate TimersOwn(s: Table) {
    !Shut(s) ==> forall i :: 0 <= i < |s.timers| && Active(s.timers[i]) ==>
      && s.timers[i].client in s.entries && s.entries[s.timers[i].client].quit == s.timers[i].quit
      && !(s.main.Spawning? && s.main.client == s.timers[i].client)
  }

  ghost predicate TokensDistinct(s: Table) {
    && (forall i :: 0 <= i < |s.timers| ==> s.timers[i].quit < s.quits)
    && (forall i, j :: 0 <= i < j < |s.timers| ==> s.timers[i].quit != s.timers[j].quit)
    && (forall c :: c in s.entries ==> s.entries[c].quit < s.quits)
    && (s.main.Spawning? ==> forall i :: 0 <= i < |s.timers| ==> s.timers[i].quit != s.main.conn.quit)
  }

  /** Every token ever issued has a timeout task, or the main loop is about to
      spawn it. */
  ghost predicate HasTask(timers: seq<Timer>, q: nat) {
    exists i :: 0 <= i < |timers| && timers[i].quit == q
  }

  ghost predicate Tended(s: Table, q: nat) {
    (s.main.Spawning? && s.main.conn.quit == q) || HasTask(s.timers, q)
  }

  ghost predicate TokensTended(s: Table) {
    forall q: nat :: q < s.quits ==> Tended(s, q)
  }

  predicate MainOk(s: Table) {
    match s.main
    case Dialling(c) => c !in s.entries
    case Connecting(c, _) => c !in s.entries
    case Greeting(c, _) => c !in s.entries
    case Inserting(c, _) => c !in s.entries
    case Spawning(c, conn, _) => c in s.entries && s.entries[c] == conn
    case Cancelling(_) => s.entries == map[]
    case Stopped => s.entries == map[]
    case _ => true
  }

  /** The main loop of a shut-down forwarder still has to cancel this token. */
  ghost predicate CancelPending(s: Table, q: nat) {
    s.main.Cancelling? && exists conn :: conn in s.main.rest && conn.quit == q
  }

  ghost predicate TimerCancels(s: Table, x: Timer) {
    match x.phase
    case Evicted(taken) => taken.Some? ==> taken.value.quit == x.quit
    case Quitting => x.quit in s.cancelled
    case Finished => x.quit in s.cancelled
    case _ => Shut(s) ==> x.quit in s.cancelled || CancelPending(s, x.quit)
  }

  ghost predicate Inv(s: Table) {
    && !s.clash
    && EntriesGuarded(s) && TimersOwn(s) && TokensDistinct(s) && TokensTended(s) && MainOk(s)
    && (forall i :: 0 <= i < |s.timers| ==> TimerCancels(s, s.timers[i]))
  }

  lemma StartInv()
    ensures Inv(Start())
  {
  }

  /** The assert on insertion cannot fire, and the main loop's view of the table
      stays right: only it inserts. */
  lemma MainKept(s: Table, e: Event)
    requires Enabled(s, e) && MainOk(s) && TimersOwn(s)
    ensures !Apply(s, e).clash && MainOk(Apply(s, e))
  {
    if e.Evict? && s.main.Spawning? {
      assert Active(s.timers[e.timer]);
    }
  }

  lemma TokensKept(s: Table, e: Event)
    requires Enabled(s, e) && TokensDistinct(s) && MainOk(s)
    ensures TokensDistinct(Apply(s, e))
  {
    var f := Apply(s, e);
    if !e.Insert? && !e.SpawnTimer? {
      assert f.quits == s.quits && |f.timers| == |s.timers|;
      assert forall i :: 0 <= i < |s.timers| ==> f.timers[i].quit == s.timers[i].quit;
      assert forall c :: c in f.entries ==> c in s.entries && f.entries[c] == s.entries[c];
      assert f.main.Spawning? ==> s.main.Spawning? && f.main.conn == s.main.conn;
      TokensFrame(s, f);
    }
  }

  lemma TokensFrame(s: Table, f: Table)
    requires TokensDistinct(s) && f.quits == s.quits && |f.timers| == |s.timers|
    requires forall i :: 0 <= i < |s.timers| ==> f.timers[i].quit == s.timers[i].quit
    requires forall c :: c in f.entries ==> c in s.entries && f.entries[c] == s.entries[c]
    requires f.main.Spawning? ==> s.main.Spawning? && f.main.conn == s.main.conn
    ensures TokensDistinct(f)
  {
  }

  lemma HasTaskKept(s: Table, e: Event, q: nat)
    requires Enabled(s, e) && HasTask(s.timers, q)
    ensures HasTask(Apply(s, e).timers, q)
  {
    var i :| 0 <= i < |s.timers| && s.timers[i].quit == q;
    assert Apply(s, e).timers[i].quit == q;
  }

  lemma NewTask(timers: seq<Timer>, x: Timer)
    ensures HasTask(timers + [x], x.quit)
  {
    assert (timers + [x])[|timers|].quit == x.quit;
  }

  lemma TendedKept(s: Table, e: Event)
    requires Enabled(s, e) && TokensTended(s) && MainOk(s)
    ensures TokensTended(Apply(s, e))
  {
    hide HasTask;
    var f := Apply(s, e);
    forall q: nat | q < f.quits
      ensures Tended(f, q)
    {
      if q < s.quits {
        assert Tended(s, q);
        if HasTask(s.timers, q) {
          HasTaskKept(s, e, q);
        } else if e.SpawnTimer? {
          NewTask(s.timers, Timer(s.main.client, q, Watching));
        }
      }
    }
  }

  /** An active task keeps its entry: nobody else removes it before shutdown. */
  lemma TimersOwnKept(s: Table, e: Event)
    requires Enabled(s, e) && TimersOwn(s) && MainOk(s) && TokensDistinct(s)
    ensures TimersOwn(Apply(s, e))
  {
    var f := Apply(s, e);
    if !Shut(f) {
      forall i | 0 <= i < |f.timers| && Active(f.timers[i])
        ensures f.timers[i].client in f.entries && f.entries[f.timers[i].client].quit == f.timers[i].quit
        ensures !(f.main.Spawning? && f.main.client == f.timers[i].client)
      {
        if i < |s.timers| {
          assert Active(s.timers[i]);
          if e.Evict? {
            // Another task under the same key would hold the same token.
            assert Active(s.timers[e.timer]);
            assert s.timers[i].quit != s.timers[e.timer].quit;
          }
        }
      }
    }
  }

  /** A task other than the one that moved, or one still active, keeps guarding. */
  lemma HasTimerKept(s: Table, e: Event, c: Client, conn: Conn)
    requires Enabled(s, e) && HasTimer(s.timers, c, conn)
    requires e.Evict? ==> s.timers[e.timer].client != c
    ensures HasTimer(Apply(s, e).timers, c, conn)
  {
    var i :| 0 <= i < |s.timers| && Guards(s.timers[i], c, conn);
    assert Guards(Apply(s, e).timers[i], c, conn);
  }

  lemma EntriesKept(s: Table, e: Event)
    requires Enabled(s, e) && EntriesGuarded(s) && MainOk(s)
    ensures EntriesGuarded(Apply(s, e))
  {
    hide HasTimer;
    var f := Apply(s, e);
    forall c | c in f.entries
      ensures EntryGuarded(f, c)
    {
      if c in s.entries {
        assert EntryGuarded(s, c);
        if HasTimer(s.timers, c, s.entries[c]) {
          HasTimerKept(s, e, c, s.entries[c]);
        } else if e.SpawnTimer? {
          NewTimerGuards(s.timers, c, s.entries[c]);
        }
      }
    }
  }

  lemma NewTimerGuards(timers: seq<Timer>, c: Client, conn: Conn)
    ensures HasTimer(timers + [Timer(c, conn.quit, Watching)], c, conn)
  {
    assert Guards((timers + [Timer(c, conn.quit, Watching)])[|timers|], c, conn);
  }

  lemma CancelsKept(s: Table, e: Event)
    requires Enabled(s, e) && TimersOwn(s) && TokensDistinct(s) && MainOk(s)
    requires forall i :: 0 <= i < |s.timers| ==> TimerCancels(s, s.timers[i])
    ensures forall i :: 0 <= i < |Apply(s, e).timers| ==> TimerCancels(Apply(s, e), Apply(s, e).timers[i])
  {
    var f := Apply(s, e);
    forall i | 0 <= i < |f.timers|
      ensures TimerCancels(f, f.timers[i])
    {
      if i < |s.timers| {
        var x := s.timers[i];
        assert TimerCancels(s, x);
        if e.Shutdown? && Active(x) {
          assert s.entries[x.client] in f.main.rest;
        } else if e.CancelOne? && CancelPending(s, x.quit) && x.quit != e.conn.quit {
          var conn :| conn in s.main.rest && conn.quit == x.quit;
          assert conn in f.main.rest;
        }
      }
    }
  }

  lemma InvKept(s: Table, e: Event)
    requires Inv(s) && Enabled(s, e)
    ensures Inv(Apply(s, e))
  {
    hide EntriesGuarded, TimersOwn, TokensDistinct, TokensTended, MainOk, TimerCancels, Apply, Enabled;
    MainKept(s, e);
    TokensKept(s, e);
    TendedKept(s, e);
    TimersOwnKept(s, e);
    EntriesKept(s, e);
    CancelsKept(s, e);
  }

  lemma {:induction false} RunKeeps(s: Table, events: seq<Event>, f: Table)
    requires Inv(s) && Reaches(s, events, f)
    ensures Inv(f)
    decreases |events|
  {
    hide Inv, Enabled, Apply;
    if events != [] {
      InvKept(s, events[0]);
      RunKeeps(Apply(s, events[0]), events[1..], f);
    }
  }

  // ------------------------------------------------------------- theorems

  /** Replacement safety: in every interleaving the insertion assert never fires;
      every entry has exactly one active timeout task with its own token, or the
      main loop is about to spawn it; and a task about to remove an entry removes
      its own, or, only after shutdown, nothing. */
  lemma ReplacementSafety(events: seq<Event>, f: Table)
    requires Reaches(Start(), events, f)
    ensures !f.clash
    ensures forall c :: c in f.entries ==>
      || (f.main.Spawning? && f.main.client == c && f.main.conn == f.entries[c])
      || exists i :: 0 <= i < |f.timers| && Active(f.timers[i]) && f.timers[i].client == c && f.timers[i].quit == f.entries[c].quit
    ensures !Shut(f) ==> forall i, j | 0 <= i < j < |f.timers| && Active(f.timers[i]) && Active(f.timers[j]) ::
      f.timers[i].client != f.timers[j].client
    ensures forall i | 0 <= i < |f.timers| && Active(f.timers[i]) ::
      match EntryOf(f, f.timers[i].client)
      case Some(conn) => conn.quit == f.timers[i].quit
      case None => Shut(f)
  {
    StartInv();
    RunKeeps(Start(), events, f);
    forall c | c in f.entries && HasTimer(f.timers, c, f.entries[c])
      ensures exists i :: 0 <= i < |f.timers| && Active(f.timers[i]) && f.timers[i].client == c && f.timers[i].quit == f.entries[c].quit
    {
      var i :| 0 <= i < |f.timers| && Guards(f.timers[i], c, f.entries[c]);
    }
    assert forall c :: c in f.entries ==> EntryGuarded(f, c);
  }

  /** Closing an old session never evicts its successor: whenever a timeout task
      removes an entry, the entries of all other sessions stay. */
  lemma EvictionIsOwn(events: seq<Event>, s: Table, i: nat)
    requires Reaches(Start(), events, s) && Enabled(s, Evict(i))
    ensures forall c :: c in s.entries && s.entries[c].quit != s.timers[i].quit ==>
      c in Apply(s, Evict(i)).entries && Apply(s, Evict(i)).entries[c] == s.entries[c]
  {
    StartInv();
    RunKeeps(Start(), events, s);
    assert Active(s.timers[i]);
  }

  /** The token is cancelled, or its own timeout task holds what it has removed and
      cancels this token next. */
  ghost predicate Settled(s: Table, q: nat) {
    || q in s.cancelled
    || exists i :: 0 <= i < |s.timers| && s.timers[i].quit == q && s.timers[i].phase.Evicted? && Target(s.timers[i]) == q
  }

  /** After shutdown the table stays empty, and once the main loop has stopped
      every connection ever made, that is every token ever issued, is cancelled or
      held by its own timeout task, which cancels it next. */
  lemma ShutdownCancelsAll(events: seq<Event>, f: Table)
    requires Reaches(Start(), events, f) && Shut(f)
    ensures f.entries == map[]
    ensures f.main.Stopped? ==> forall q: nat :: q < f.quits ==> Settled(f, q)
  {
    StartInv();
    RunKeeps(Start(), events, f);
    if f.main.Stopped? {
      forall q: nat | q < f.quits
        ensures Settled(f, q)
      {
        assert Tended(f, q);
        var i :| 0 <= i < |f.timers| && f.timers[i].quit == q;
        assert TimerCancels(f, f.timers[i]);
      }
    }
  }

  lemma ReachesStep(s: Table, e: Event, events: seq<Event>, f: Table)
    requires Enabled(s, e) && Reaches(Apply(s, e), events, f)
    ensures Reaches(s, [e] + events, f)
  {
    assert ([e] + events)[1..] == events;
  }

  lemma {:induction false} ReachesConcat(s: Table, a: seq<Event>, m: Table, b: seq<Event>, f: Table)
    requires Reaches(s, a, m) && Reaches(m, b, f)
    ensures Reaches(s, a + b, f)
    decreases |a|
  {
    hide Enabled, Apply;
    if a == [] {
      assert a + b == b;
    } else {
      ReachesConcat(Apply(s, a[0]), a[1..], m, b, f);
      assert (a + b)[1..] == a[1..] + b;
    }
  }

  /** The table after a new session for `c` has been set up. */
  function WithSession(s: Table, c: Client, sock: nat): Table {
    s.(entries := s.entries[c := Conn(sock, s.quits)], timers := s.timers + [Timer(c, s.quits, Watching)], quits := s.quits + 1)
  }

  /** Whenever the main loop is ready and a client has no entry, it can get one. */
  lemma SessionOpens(s: Table, c: Client, sock: nat) returns (events: seq<Event>)
    requires !s.clash && s.main.Ready? && c !in s.entries
    ensures Reaches(s, events, WithSession(s, c, sock))
  {
    var s0 := Apply(s, UdpNew(c));
    var s1 := Apply(s0, Dial(sock));
    var s2 := Apply(s1, Connected);
    var s3 := Apply(s2, Greeted);
    var s4 := Apply(s3, Insert(0));
    var f := Apply(s4, SpawnTimer);
    assert f == WithSession(s, c, sock);
    ReachesStep(s4, SpawnTimer, [], f);
    ReachesStep(s3, Insert(0), [SpawnTimer], f);
    ReachesStep(s2, Greeted, [Insert(0)] + [SpawnTimer], f);
    ReachesStep(s1, Connected, [Greeted] + ([Insert(0)] + [SpawnTimer]), f);
    var tail := [Connected] + ([Greeted] + ([Insert(0)] + [SpawnTimer]));
    ReachesStep(s0, Dial(sock), tail, f);
    ReachesStep(s, UdpNew(c), [Dial(sock)] + tail, f);
    events := [UdpNew(c)] + ([Dial(sock)] + tail);
  }

  /** The overlap that replacement safety is about does happen: a session can be
      open while the timeout task of its predecessor has yet to finish, and that
      task then ends without touching it. */
  lemma ReplacementOverlaps(c: Client) returns (events: seq<Event>, f: Table)
    ensures Reaches(Start(), events, f) && |f.timers| == 2
    ensures f.timers[0].client == c && f.timers[0].phase.Evicted?
    ensures c in f.entries && f.entries[c] == Conn(1, 1) && Guards(f.timers[1], c, f.entries[c])
    ensures Enabled(f, CancelEvicted(0))
    ensures var g := Apply(f, CancelEvicted(0)); g.entries == f.entries && 0 in g.cancelled && 1 !in g.cancelled
  {
    var first := SessionOpens(Start(), c, 0);
    var a := WithSession(Start(), c, 0);
    var d := Table(map[], Ready, [Timer(c, 0, Evicted(Some(Conn(0, 0))))], {}, 1, false);
    FirstExpires(c);
    var second := SessionOpens(d, c, 1);
    f := WithSession(d, c, 1);
    hide Reaches;
    ReachesConcat(a, [Expire(0)] + [Evict(0)], d, second, f);
    ReachesConcat(Start(), first, a, [Expire(0)] + [Evict(0)] + second, f);
    events := first + ([Expire(0)] + [Evict(0)] + second);
  }

  lemma FirstExpires(c: Client)
    ensures Reaches(WithSession(Start(), c, 0), [Expire(0)] + [Evict(0)],
                    Table(map[], Ready, [Timer(c, 0, Evicted(Some(Conn(0, 0))))], {}, 1, false))
  {
    var a := WithSession(Start(), c, 0);
    var d := Table(map[], Ready, [Timer(c, 0, Evicted(Some(Conn(0, 0))))], {}, 1, false);
    var b := Apply(a, Expire(0));
    assert b == a.(timers := [Timer(c, 0, Expired)]);
    assert Apply(b, Evict(0)) == d;
    ReachesStep(b, Evict(0), [], d);
    ReachesStep(a, Expire(0), [Evict(0)], d);
  }
}
