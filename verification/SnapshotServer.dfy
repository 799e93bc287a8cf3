/** Saving and restoring the subscriptions of a channel (server/snapshot.go, server/server.go, server/client.go). */
module SnapshotServer {
  import opened Basics
  import opened Snapshot

  datatype Client = Client(id: string, info: string)

  function ToMap(cs: seq<Client>): map<string, string> {
    if cs == [] then map[] else ToMap(cs[..|cs| - 1])[cs[|cs| - 1].id := cs[|cs| - 1].info]
  }

  /** No client is twice in the list. */
  predicate EachOnce(cs: seq<Client>) {
    cs == [] || (cs[|cs| - 1].id !in ToMap(cs[..|cs| - 1]) && EachOnce(cs[..|cs| - 1]))
  }

  lemma {:induction false} NotBefore(cs: seq<Client>, i: nat)
    requires EachOnce(cs) && i < |cs|
    ensures cs[i].id !in ToMap(cs[..i])
    decreases |cs|
  {
    if i < |cs| - 1 {
      assert cs[..|cs| - 1][..i] == cs[..i];
      NotBefore(cs[..|cs| - 1], i);
    }
  }

  lemma PushClient(cs: seq<Client>, c: Client)
    ensures ToMap(cs + [c]) == ToMap(cs)[c.id := c.info]
    ensures EachOnce(cs) && c.id !in ToMap(cs) ==> EachOnce(cs + [c])
  {
    assert (cs + [c])[..|cs|] == cs;
  }

  class StanServer {
    const subject: string
    var clients: map<string, string>
    var subs: map<nat, Sub>
    var psubs: seq<nat>
    var durables: map<string, nat>
    var qsubs: map<string, Queue>
    var nextSubID: nat

    constructor (subject: string)
      ensures this.subject == subject && View() == Server(map[], map[], [], map[], map[], 1)
    {
      this.subject := subject;
      clients, subs, psubs, durables, qsubs, nextSubID := map[], map[], [], map[], map[], 1;
    }

    function View(): Server
      reads this
    {
      Server(clients, subs, psubs, durables, qsubs, nextSubID)
    }

    // ---------- Saving ----------

    method SnapshotClients() returns (cs: seq<Client>)
      ensures ToMap(cs) == clients && EachOnce(cs)
    {
      cs := [];
      var todo := clients.Keys;
      while todo != {}
        invariant todo <= clients.Keys && EachOnce(cs)
        invariant ToMap(cs) == map c | c in clients && c !in todo :: clients[c]
        decreases todo
      {
        var c :| c in todo;
        PushClient(cs, Client(c, clients[c]));
        cs, todo := cs + [Client(c, clients[c])], todo - {c};
      }
    }

    method SnapshotPlains() returns (es: seq<Entry>)
      requires forall i :: 0 <= i < |psubs| ==> psubs[i] in subs
      ensures es == Entries(View(), psubs)
    {
      es := [];
      for i := 0 to |psubs|
        invariant es == Entries(View(), psubs)[..i]
      {
        es := es + [EntryOf(View(), psubs[i])];
      }
    }

    /** The closed durables, in whatever order they are gone through. */
    method SnapshotClosed() returns (es: seq<Entry>, ghost closed: seq<nat>)
      requires WellFormed(View())
      ensures forall i :: 0 <= i < |closed| ==>
                ClosedOk(View(), closed[i]) && exists k :: k in durables && durables[k] == closed[i]
      ensures forall k :: k in durables && durables[k] in subs && subs[durables[k]].state.isClosed ==>
                durables[k] in closed
      ensures es == Entries(View(), closed)
    {
      es, closed := [], [];
      var todo := durables.Keys;
      while todo != {}
        invariant todo <= durables.Keys
        invariant forall i :: 0 <= i < |closed| ==>
                    ClosedOk(View(), closed[i]) && exists k :: k in durables && durables[k] == closed[i]
        invariant forall k :: k in durables && k !in todo && durables[k] in subs && subs[durables[k]].state.isClosed ==>
                    durables[k] in closed
        invariant es == Entries(View(), closed)
        decreases todo
      {
        var k :| k in todo;
        assert DurableOk(View(), durables[k]);
        var id := durables[k];
        if subs[id].state.isClosed {
          es, closed := es + [EntryOf(View(), id)], closed + [id];
        }
        todo := todo - {k};
      }
    }

    method SnapshotQueues() returns (es: seq<Entry>, ghost groups: seq<string>)
      requires QueuesOk(View())
      ensures (forall g :: g in qsubs <==> g in groups) && NoDoubles(groups)
      ensures es == GroupsEntries(View(), groups)
    {
      es, groups := [], [];
      var todo := qsubs.Keys;
      while todo != {}
        invariant todo <= qsubs.Keys && NoDoubles(groups) && forall g :: g in groups <==> g in qsubs && g !in todo
        invariant es == GroupsEntries(View(), groups)
        decreases todo
      {
        var g :| g in todo;
        GroupIDsKnown(View(), g);
        var more := SnapshotGroup(g);
        assert (groups + [g])[..|groups|] == groups;
        es, groups, todo := es + more, groups + [g], todo - {g};
      }
    }

    method SnapshotGroup(g: string) returns (es: seq<Entry>)
      requires g in qsubs && forall i :: 0 <= i < |GroupIDs(qsubs[g])| ==> GroupIDs(qsubs[g])[i] in subs
      ensures es == GroupEntries(View(), g)
    {
      var ids := GroupIDs(qsubs[g]);
      es := [];
      for i := 0 to |ids|
        invariant es == GroupEntries(View(), g)[..i]
      {
        es := es + [EntryOf(View(), ids[i])];
      }
    }

    method SnapshotSubs() returns (es: seq<Entry>, ghost closed: seq<nat>, ghost groups: seq<string>)
      requires WellFormed(View())
      ensures Covers(View(), closed, groups) && es == List(View(), closed, groups)
    {
      var plain := SnapshotPlains();
      var offline, queued;
      offline, closed := SnapshotClosed();
      queued, groups := SnapshotQueues();
      es := plain + offline + queued;
    }

    // ---------- Restoring ----------

    method Register(c: Client) returns (ok: bool)
      modifies this`clients
      ensures ok <==> c.id !in old(clients)
      ensures clients == if ok then old(clients)[c.id := c.info] else old(clients)
    {
      ok := c.id !in clients;
      if ok {
        clients := clients[c.id := c.info];
      }
    }

    method RestoreClients(cs: seq<Client>)
      requires clients == map[] && EachOnce(cs)
      modifies this`clients
      ensures clients == ToMap(cs)
    {
      for i := 0 to |cs|
        invariant clients == ToMap(cs[..i])
      {
        NotBefore(cs, i);
        assert cs[..i + 1] == cs[..i] + [cs[i]];
        PushClient(cs[..i], cs[i]);
        var ok := Register(cs[i]);
      }
      assert cs[..|cs|] == cs;
    }

    /** Adds a subscription to the lists by which it is found. */
    method UpdateState(st: SubState)
      modifies this`psubs, this`durables, this`qsubs
      ensures st.qgroup != "" ==>
                && psubs == old(psubs) && durables == old(durables)
                && qsubs == old(qsubs)[st.qgroup := Joined(if st.qgroup in old(qsubs) then old(qsubs)[st.qgroup]
                                                           else NEW_QUEUE, st)]
      ensures st.qgroup == "" ==>
                && psubs == old(psubs) + [st.id] && qsubs == old(qsubs)
                && durables == if st.durableName == "" then old(durables)
                  else old(durables)[DurableKey(st.clientID, subject, st.durableName) := st.id]
    {
      if st.qgroup != "" {
        var q := if st.qgroup in qsubs then qsubs[st.qgroup] else NEW_QUEUE;
        if st.clientID == "" {
          if q.shadow.None? || st.lastSent > q.lastSent {
            q := q.(shadow := Some(st.id));
          }
        } else {
          q := q.(members := q.members + [st.id]);
        }
        if st.lastSent > q.lastSent {
          q := q.(lastSent := st.lastSent);
        }
        qsubs := qsubs[st.qgroup := q];
      } else {
        psubs := psubs + [st.id];
        if st.durableName != "" {
          durables := durables[DurableKey(st.clientID, subject, st.durableName) := st.id];
        }
      }
    }

    method ProcessOfflineSub(e: Entry)
      modifies this`subs, this`durables
      ensures durables == old(durables)[DurableKey(e.state.clientID, subject, e.state.durableName) := e.state.id]
      ensures subs == old(subs)[e.state.id := Sub(e.state.(isDurable := true, clientID := ""), e.pending,
                                                  e.state.clientID)]
    {
      var st := e.state.(isDurable := true);
      durables := durables[DurableKey(st.clientID, subject, st.durableName) := st.id];
      subs := subs[st.id := Sub(st.(clientID := ""), e.pending, st.clientID)];
    }

    /** Restores one subscription: among the plain ones, in its group, as a closed durable, or not at all. */
    method RecoverOneSub(e: Entry)
      modifies this`subs, this`psubs, this`durables, this`qsubs
      ensures Recovered(old(View()), View(), subject, e)
    {
      var st := e.state;
      var durableSub := st.durableName != "";
      if durableSub {
        st := st.(isDurable := true);
        if st.isClosed {
          ProcessOfflineSub(e);
          return;
        }
      }
      var added := st.clientID in clients;
      if added || st.isDurable {
        if !added && st.qgroup != "" && st.isDurable && st.clientID != "" {
          return;
        }
        if durableSub && !added {
          ProcessOfflineSub(e);
        } else {
          subs := subs[st.id := Sub(st, e.pending, "")];
          UpdateState(st);
        }
      }
    }

    method RestoreSubs(es: seq<Entry>)
      requires subs == map[] && psubs == [] && durables == map[] && qsubs == map[]
      modifies this`subs, this`psubs, this`durables, this`qsubs, this`nextSubID
      ensures subs == Subs(clients.Keys, es) && psubs == Psubs(clients.Keys, es)
              && durables == Durables(clients.Keys, subject, es)
      ensures qsubs == Queues(clients.Keys, es) && nextSubID == NextID(es, old(nextSubID))
    {
      for i := 0 to |es|
        invariant subs == Subs(clients.Keys, es[..i]) && psubs == Psubs(clients.Keys, es[..i])
                  && durables == Durables(clients.Keys, subject, es[..i])
        invariant qsubs == Queues(clients.Keys, es[..i]) && nextSubID == NextID(es[..i], old(nextSubID))
      {
        assert es[..i + 1][..i] == es[..i] && es[..i + 1][i] == es[i];
        RecoverOneSub(es[i]);
        if es[i].state.id >= nextSubID {
          nextSubID := es[i].state.id + 1;
        }
      }
      assert es[..|es|] == es;
    }

    /** Restores a snapshot into an empty server. */
    method Restore(cs: seq<Client>, es: seq<Entry>, next: nat)
      requires View() == Server(map[], map[], [], map[], map[], 1) && EachOnce(cs)
      modifies this
      ensures View() == Restored(ToMap(cs), subject, es, next)
    {
      RestoreClients(cs);
      RestoreSubs(es);
      if next > nextSubID {
        nextSubID := next;
      }
    }
  }

  /** What restoring one subscription changes. */
  ghost predicate Recovered(s: Server, r: Server, subject: string, e: Entry) {
    var st, kind := e.state, KindOf(s.clients.Keys, e.state);
    && r.clients == s.clients && r.nextSubID == s.nextSubID
    && r.subs == (if kind == Dropped then s.subs else s.subs[st.id := SubOf(s.clients.Keys, e)])
    && r.psubs == s.psubs + (if kind == Plain then [st.id] else [])
    && r.durables == (if Keyed(s.clients.Keys, st)
                      then s.durables[DurableKey(st.clientID, subject, st.durableName) := st.id] else s.durables)
    && r.qsubs == if kind == Queued
      then s.qsubs[st.qgroup := Joined(if st.qgroup in s.qsubs then s.qsubs[st.qgroup] else NEW_QUEUE, st)] else s.qsubs
  }

  /**
   A snapshot of a well-formed server, restored into a new one, gives the same exactly if every durable is kept under
   its own key.
   */
  method SaveAndRestore(s: StanServer) returns (r: StanServer)
    requires WellFormed(s.View())
    ensures fresh(r) && (Same(s.View(), r.View()) <==> KeysOwn(s.View(), s.subject))
  {
    var cs := s.SnapshotClients();
    var es, closed, groups := s.SnapshotSubs();
    r := new StanServer(s.subject);
    r.Restore(cs, es, s.nextSubID);
    RoundTrip(s.View(), s.subject, closed, groups);
  }
}
