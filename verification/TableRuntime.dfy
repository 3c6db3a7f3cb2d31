/**
 The connection table as an object updated in place: the operations of
 phantun-client-mac/src/forwarder.rs that insert, remove and cancel.
 */
module TableRuntime {
  import opened Bytes
  import opened ConnTable

  /** What an active timeout task finds under its client's key. */
  lemma ActiveFindsOwn(s: Table, i: nat)
    requires Inv(s) && i < |s.timers| && Active(s.timers[i])
    ensures match EntryOf(s, s.timers[i].client)
      case Some(conn) => conn.quit == s.timers[i].quit
      case None => Shut(s)
  {
  }

  lemma InsertionIsNew(s: Table)
    requires Inv(s) && s.main.Inserting?
    ensures s.main.client !in s.entries && !s.clash
  {
  }

  class Connections {
    var entries: map<Client, Conn>
    var main: Main
    var timers: seq<Timer>
    var cancelled: set<nat>
    var quits: nat
    var clash: bool

    ghost function View(): Table
      reads this
    {
      Table(entries, main, timers, cancelled, quits, clash)
    }

    constructor ()
      ensures View() == Start() && Inv(View())
    {
      entries, main, timers, cancelled, quits, clash := map[], Ready, [], {}, 0, false;
    }

    /** Inserts a new connection and spawns its tasks; the assert never fires. */
    method InsertAndSpawn(workers: nat) returns (conn: Conn)
      requires Inv(View()) && main.Inserting?
      modifies this
      ensures Inv(View()) && main.Ready?
      ensures old(main.client) !in old(entries)
      ensures conn == Conn(old(main.sock), old(quits)) && entries == old(entries)[old(main.client) := conn]
      ensures timers == old(timers) + [Timer(old(main.client), conn.quit, Watching)] && cancelled == old(cancelled)
    {
      InsertionIsNew(View());
      hide Inv;
      InvKept(View(), Insert(workers));
      conn := Conn(main.sock, quits);
      entries := entries[main.client := conn];
      quits := quits + 1;
      main := Spawning(main.client, conn, workers);
      SpawnTasks();
    }

    /** Spawns the workers, then the timeout task of the new connection. */
    method SpawnTasks()
      requires Inv(View()) && main.Spawning?
      modifies this`main, this`timers
      ensures Inv(View()) && main.Ready?
      ensures timers == old(timers) + [Timer(old(main.client), old(main.conn.quit), Watching)]
    {
      assert !clash;
      hide Inv;
      while main.left > 0
        invariant main.Spawning? && main.client == old(main.client) && main.conn == old(main.conn)
        invariant Inv(View()) && !clash
        invariant timers == old(timers)
        decreases main.left
      {
        InvKept(View(), SpawnWorker);
        main := main.(left := main.left - 1);
      }
      InvKept(View(), SpawnTimer);
      timers := timers + [Timer(main.client, main.conn.quit, Watching)];
      main := Ready;
    }

    /** The timer branch of a timeout task: it removes its own entry or, after
        shutdown, nothing, and its own token ends up cancelled either way. */
    method CloseOnTimeout(i: nat)
      requires Inv(View()) && i < |timers| && timers[i].phase.Watching?
      modifies this`entries, this`timers, this`cancelled
      ensures Inv(View())
      ensures entries == old(entries) - {old(timers[i].client)}
      ensures old(timers[i].client) in old(entries) ==> old(entries)[old(timers[i].client)].quit == old(timers[i].quit)
      ensures old(timers[i].client) !in old(entries) ==> Shut(old(View()))
      ensures cancelled == old(cancelled) + {old(timers[i].quit)}
      ensures timers == old(timers)[i := old(timers[i]).(phase := Finished)]
    {
      ActiveFindsOwn(View(), i);
      assert !clash;
      hide Inv;
      var client, quit := timers[i].client, timers[i].quit;
      InvKept(View(), Expire(i));
      timers := timers[i := timers[i].(phase := Expired)];
      InvKept(View(), Evict(i));
      var connection := if client in entries then Some(entries[client]) else None;
      entries := entries - {client};
      timers := timers[i := timers[i].(phase := Evicted(connection))];
      InvKept(View(), CancelEvicted(i));
      if connection.Some? {
        cancelled := cancelled + {connection.value.quit};
      } else {
        cancelled := cancelled + {quit};
      }
      timers := timers[i := timers[i].(phase := Finished)];
    }

    /** The quit branch of a timeout task. */
    method CloseOnQuit(i: nat)
      requires Inv(View()) && i < |timers| && timers[i].phase.Watching? && timers[i].quit in cancelled
      modifies this`entries, this`timers
      ensures Inv(View())
      ensures entries == old(entries) - {old(timers[i].client)}
      ensures forall c :: c in old(entries) && old(entries)[c].quit != old(timers[i].quit) ==>
        c in entries && entries[c] == old(entries)[c]
      ensures timers == old(timers)[i := old(timers[i]).(phase := Finished)]
    {
      ActiveFindsOwn(View(), i);
      assert !clash;
      hide Inv;
      InvKept(View(), SeeQuit(i));
      timers := timers[i := timers[i].(phase := Quitting)];
      InvKept(View(), Evict(i));
      entries := entries - {timers[i].client};
      timers := timers[i := timers[i].(phase := Finished)];
    }

    /** `cancel_all_connections`: takes the table, then cancels every token in it. */
    method CancelAll()
      requires Inv(View()) && main.Ready?
      modifies this`entries, this`main, this`cancelled
      ensures Inv(View()) && main.Stopped? && entries == map[]
      ensures cancelled == old(cancelled) + QuitsOf(old(entries).Values)
    {
      assert !clash;
      hide Inv;
      InvKept(View(), Shutdown);
      main := Cancelling(entries.Values);
      entries := map[];
      CancelRest();
      InvKept(View(), CancelsDone);
      main := Stopped;
    }

    /** The loop over the taken connections. */
    method CancelRest()
      requires Inv(View()) && main.Cancelling?
      modifies this`main, this`cancelled
      ensures Inv(View()) && main == Cancelling({})
      ensures cancelled == old(cancelled) + QuitsOf(old(main.rest))
    {
      assert !clash;
      hide Inv;
      while main.rest != {}
        invariant main.Cancelling? && !clash && Inv(View())
        invariant cancelled + QuitsOf(main.rest) == old(cancelled) + QuitsOf(old(main.rest))
        decreases main.rest
      {
        var conn :| conn in main.rest;
        InvKept(View(), CancelOne(conn));
        QuitsWithout(main.rest, conn);
        main := Cancelling(main.rest - {conn});
        cancelled := cancelled + {conn.quit};
      }
      main := Cancelling({});
    }
  }

  ghost function QuitsOf(conns: set<Conn>): set<nat> {
    set conn | conn in conns :: conn.quit
  }

  lemma QuitsWithout(conns: set<Conn>, conn: Conn)
    requires conn in conns
    ensures QuitsOf(conns) == QuitsOf(conns - {conn}) + {conn.quit}
  {
    assert conns == (conns - {conn}) + {conn};
  }
}
