/**
 The replicated operations on clients and subscriptions, and that they keep a server well formed (server/server.go,
 server/client.go).
 */
module SnapshotOps {
  import opened Basics
  import opened Snapshot

  datatype Request = Request(clientID: string, qgroup: string, inbox: string, maxInFlight: int, ackWaitInSecs: int,
                             durableName: string)

  /** Lists hold a subscription once. */
  ghost predicate Unique(s: Server) {
    && (forall id :: multiset(s.psubs)[id] <= 1)
    && (forall g, id :: g in s.qsubs ==> multiset(s.qsubs[g].members)[id] <= 1)
  }

  ghost predicate Good(s: Server) {
    WellFormed(s) && Unique(s)
  }

  const EMPTY_SERVER := Server(map[], map[], [], map[], map[], 1)

  lemma EmptyGood(subject: string)
    ensures Good(EMPTY_SERVER) && KeysFit(EMPTY_SERVER, subject)
  {
  }

  /** The durable is found under its own key. */
  predicate Found(s: Server, subject: string, id: nat)
    requires id in s.subs
  {
    IsDurable(s, id) ==> OwnKey(s, subject, id) in s.durables && s.durables[OwnKey(s, subject, id)] == id
  }

  /** Every durable is under its own key, and no two have the same. */
  ghost predicate KeysFit(s: Server, subject: string) {
    && (forall k :: k in s.durables ==> UnderOwnKey(s, subject, k))
    && (forall i :: 0 <= i < |s.psubs| ==> s.psubs[i] in s.subs && Found(s, subject, s.psubs[i]))
  }

  // ---------- Clients ----------

  function Connected(s: Server, c: string, info: string): Server {
    if c in s.clients then s else s.(clients := s.clients[c := info])
  }

  lemma ConnectedGood(s: Server, c: string, info: string)
    requires Good(s) && c != ""
    ensures Good(Connected(s, c, info))
  {
    var r := Connected(s, c, info);
    forall i | 0 <= i < |r.psubs| ensures PlainOk(r, r.psubs[i]) {
      assert PlainOk(s, s.psubs[i]);
    }
    forall g | g in r.qsubs ensures QueueOk(r, g) {
      assert QueueOk(s, g);
    }
  }

  /** An online subscription of the client. */
  predicate Owned(s: Server, c: string, id: nat) {
    id in s.subs &&
    var st := s.subs[id].state;
    st.clientID == c && (id in s.psubs || (st.qgroup in s.qsubs && id in s.qsubs[st.qgroup].members))
  }

  /** A client is unregistered once its subscriptions are gone. */
  function Disconnected(s: Server, c: string): Server {
    s.(clients := s.clients - {c})
  }

  lemma DisconnectedGood(s: Server, c: string)
    requires Good(s) && forall id :: !Owned(s, c, id)
    ensures Good(Disconnected(s, c))
  {
    var r := Disconnected(s, c);
    forall i | 0 <= i < |r.psubs| ensures PlainOk(r, r.psubs[i]) {
      assert PlainOk(s, s.psubs[i]) && !Owned(s, c, s.psubs[i]);
    }
    forall g | g in r.qsubs ensures QueueOk(r, g) {
      assert QueueOk(s, g);
      forall i | 0 <= i < |r.qsubs[g].members| ensures MemberOk(r, g, r.qsubs[g].members[i]) {
        assert MemberOk(s, g, s.qsubs[g].members[i]) && !Owned(s, c, s.qsubs[g].members[i]);
      }
    }
  }

  /** What only concerns clients and groups leaves the keys as they are. */
  lemma KeysStay(s: Server, r: Server, subject: string)
    requires WellFormed(s) && KeysFit(s, subject) && r.psubs == s.psubs && r.durables == s.durables
             && s.subs.Keys <= r.subs.Keys
    requires forall id :: id in s.subs && s.subs[id].state.qgroup == "" ==> r.subs[id] == s.subs[id]
    ensures KeysFit(r, subject)
  {
    forall k | k in r.durables ensures UnderOwnKey(r, subject, k) {
      assert UnderOwnKey(s, subject, k) && DurableOk(s, s.durables[k]);
    }
    forall i | 0 <= i < |r.psubs| ensures r.psubs[i] in r.subs && Found(r, subject, r.psubs[i]) {
      assert PlainOk(s, s.psubs[i]) && Found(s, subject, s.psubs[i]);
    }
  }

  // ---------- New subscriptions ----------

  function NewState(s: Server, req: Request, ackInbox: string, qgroup: string, durableName: string, isDurable: bool,
                    lastSent: nat): SubState {
    SubState(s.nextSubID, req.clientID, qgroup, req.inbox, ackInbox, req.maxInFlight, req.ackWaitInSecs, durableName,
             isDurable, lastSent, false)
  }

  /** A plain subscription, durable if it has a name. */
  function NewPlain(s: Server, subject: string, req: Request, ackInbox: string, lastSent: nat): Server {
    var id := s.nextSubID;
    var st := NewState(s, req, ackInbox, "", req.durableName, req.durableName != "", lastSent);
    s.(subs := s.subs[id := Sub(st, {}, "")], psubs := s.psubs + [id], nextSubID := id + 1,
       durables := if req.durableName != "" then s.durables[DurableKey(req.clientID, subject, req.durableName) := id]
         else s.durables)
  }

  lemma NewPlainGood(s: Server, subject: string, req: Request, ackInbox: string, lastSent: nat)
    requires Good(s) && req.clientID in s.clients
    ensures Good(NewPlain(s, subject, req, ackInbox, lastSent))
  {
    var r, id := NewPlain(s, subject, req, ackInbox, lastSent), s.nextSubID;
    assert r.psubs[|s.psubs|] == id;
    forall i | 0 <= i < |r.psubs| ensures PlainOk(r, r.psubs[i]) {
      if i < |s.psubs| {
        assert PlainOk(s, s.psubs[i]);
      }
    }
    forall k | k in r.durables ensures DurableOk(r, r.durables[k]) {
      if r.durables[k] != id {
        assert DurableOk(s, s.durables[k]);
      }
    }
    OutsideGroups(s, r, id);
    NewPlainUnique(s, subject, req, ackInbox, lastSent);
  }

  lemma NewPlainUnique(s: Server, subject: string, req: Request, ackInbox: string, lastSent: nat)
    requires Good(s)
    ensures Unique(NewPlain(s, subject, req, ackInbox, lastSent))
  {
    var r, id := NewPlain(s, subject, req, ackInbox, lastSent), s.nextSubID;
    assert multiset(r.psubs) == multiset(s.psubs) + multiset{id};
    assert id !in s.psubs;
  }

  lemma NewPlainFit(s: Server, subject: string, req: Request, ackInbox: string, lastSent: nat)
    requires Good(s) && KeysFit(s, subject) && req.clientID in s.clients
    requires req.durableName != "" ==> DurableKey(req.clientID, subject, req.durableName) !in s.durables
    ensures KeysFit(NewPlain(s, subject, req, ackInbox, lastSent), subject)
  {
    var r, id := NewPlain(s, subject, req, ackInbox, lastSent), s.nextSubID;
    assert r.psubs[|s.psubs|] == id;
    forall k | k in r.durables ensures UnderOwnKey(r, subject, k) {
      if r.durables[k] != id {
        assert UnderOwnKey(s, subject, k);
      }
    }
    forall i | 0 <= i < |r.psubs| ensures r.psubs[i] in r.subs && Found(r, subject, r.psubs[i]) {
      if i < |s.psubs| {
        assert PlainOk(s, s.psubs[i]) && Found(s, subject, s.psubs[i]);
      }
    }
  }

  /** A subscription outside the groups comes, or changes. */
  lemma OutsideGroups(s: Server, r: Server, id: nat)
    requires WellFormed(s) && (id in s.subs ==> s.subs[id].state.qgroup == "") && id in r.subs
    requires r.qsubs == s.qsubs && r.clients == s.clients && r.subs == s.subs[id := r.subs[id]]
    ensures forall g :: g in r.qsubs ==> QueueOk(r, g)
  {
    forall g | g in r.qsubs ensures QueueOk(r, g) {
      assert QueueOk(s, g);
      forall i | 0 <= i < |s.qsubs[g].members| ensures MemberOk(r, g, s.qsubs[g].members[i]) {
        assert MemberOk(s, g, s.qsubs[g].members[i]);
      }
    }
  }

  /** A durable without a client gets one; its name, its position and its pending messages stay. */
  function Resumed(s: Server, id: nat, req: Request, ackInbox: string): Server
    requires id in s.subs
  {
    var st := s.subs[id].state.(ackInbox := ackInbox, clientID := req.clientID, inbox := req.inbox, isDurable := true,
                                maxInFlight := req.maxInFlight, ackWaitInSecs := req.ackWaitInSecs, isClosed := false);
    s.(subs := s.subs[id := s.subs[id].(state := st)], psubs := s.psubs + [id])
  }

  /** A subscription without a client is not among the online ones. */
  lemma NotOnline(s: Server, id: nat)
    requires WellFormed(s) && id in s.subs && s.subs[id].state.clientID == ""
    ensures id !in s.psubs
  {
    forall i | 0 <= i < |s.psubs| ensures s.psubs[i] != id {
      assert PlainOk(s, s.psubs[i]);
    }
  }

  lemma ResumedGood(s: Server, k: string, req: Request, ackInbox: string)
    requires Good(s) && req.clientID in s.clients
    requires k in s.durables && s.durables[k] in s.subs && s.subs[s.durables[k]].state.clientID == ""
    ensures Good(Resumed(s, s.durables[k], req, ackInbox))
  {
    var id := s.durables[k];
    var r := Resumed(s, id, req, ackInbox);
    assert DurableOk(s, id) && r.psubs[|s.psubs|] == id;
    NotOnline(s, id);
    forall i | 0 <= i < |r.psubs| ensures PlainOk(r, r.psubs[i]) {
      if i < |s.psubs| {
        assert PlainOk(s, s.psubs[i]);
      }
    }
    forall k | k in r.durables ensures DurableOk(r, r.durables[k]) {
      assert DurableOk(s, s.durables[k]);
    }
    OutsideGroups(s, r, id);
    assert multiset(r.psubs) == multiset(s.psubs) + multiset{id};
  }

  /** The keys stay in order exactly if the durable found under the key is the one that was asked for. */
  lemma ResumedFit(s: Server, subject: string, req: Request, ackInbox: string)
    requires Good(s) && KeysFit(s, subject) && req.clientID in s.clients
    requires var k := DurableKey(req.clientID, subject, req.durableName);
             k in s.durables && s.durables[k] in s.subs && s.subs[s.durables[k]].state.clientID == ""
    ensures var id := s.durables[DurableKey(req.clientID, subject, req.durableName)];
            KeysFit(Resumed(s, id, req, ackInbox), subject) <==> s.subs[id].state.durableName == req.durableName
  {
    var key := DurableKey(req.clientID, subject, req.durableName);
    var id := s.durables[key];
    var r := Resumed(s, id, req, ackInbox);
    assert UnderOwnKey(s, subject, key) && DurableOk(s, id) && r.psubs[|s.psubs|] == id;
    NotOnline(s, id);
    if s.subs[id].state.durableName == req.durableName {
      forall k | k in r.durables ensures UnderOwnKey(r, subject, k) {
        assert UnderOwnKey(s, subject, k);
      }
      forall i | 0 <= i < |r.psubs| ensures r.psubs[i] in r.subs && Found(r, subject, r.psubs[i]) {
        if i < |s.psubs| {
          assert Found(s, subject, s.psubs[i]);
        }
      }
    } else {
      assert r.durables[key] == id;
      SameKey(req.clientID, subject, s.subs[id].state.durableName, req.durableName);
      assert !UnderOwnKey(r, subject, key);
    }
  }

  lemma SameKey(c: string, subject: string, a: string, b: string)
    ensures DurableKey(c, subject, a) == DurableKey(c, subject, b) ==> a == b
  {
    var n := |c| + 1 + |subject| + 1;
    assert DurableKey(c, subject, a)[n..] == a && DurableKey(c, subject, b)[n..] == b;
  }

  // ---------- Closing plain subscriptions ----------

  /** A list without entry `i`, whose place the last one takes. */
  function RemovedAt(list: seq<nat>, i: nat): seq<nat>
    requires i < |list|
  {
    list[i := list[|list| - 1]][..|list| - 1]
  }

  lemma RemovedAtIs(list: seq<nat>, i: nat)
    requires i < |list| && forall x :: multiset(list)[x] <= 1
    ensures multiset(RemovedAt(list, i)) == multiset(list) - multiset{list[i]}
    ensures forall j :: 0 <= j < |list| - 1 ==> RemovedAt(list, i)[j] in list && RemovedAt(list, i)[j] != list[i]
    ensures forall x :: x in list && x != list[i] ==> x in RemovedAt(list, i)
  {
    var n, last := |list| - 1, list[|list| - 1];
    var swapped, r := list[i := last], RemovedAt(list, i);
    assert swapped == r + [last];
    assert multiset(swapped) == multiset(list) - multiset{list[i]} + multiset{last};
    assert multiset(r) == multiset(swapped) - multiset{last};
    forall j | 0 <= j < n ensures r[j] in list && r[j] != list[i] {
      assert r[j] in multiset(r);
    }
    forall x | x in list && x != list[i] ensures x in r {
      assert x in multiset(list);
      assert x in multiset(r);
    }
  }

  /** A subscription that lost its client, which is remembered. */
  function Left(sub: Sub, isClosed: bool): Sub {
    Sub(sub.state.(clientID := "", isClosed := isClosed), sub.pending, sub.state.clientID)
  }

  /** A plain subscription is closed: a durable one is kept for its client, unless it unsubscribes. */
  function ClosedPlain(s: Server, subject: string, i: nat, unsubscribe: bool): Server
    requires i < |s.psubs| && s.psubs[i] in s.subs
  {
    var id := s.psubs[i];
    var st := s.subs[id].state;
    s.(psubs := RemovedAt(s.psubs, i), subs := s.subs[id := Left(s.subs[id], st.isDurable && !unsubscribe)],
       durables := if st.durableName != "" && unsubscribe
         then s.durables - {DurableKey(st.clientID, subject, st.durableName)} else s.durables)
  }

  lemma ClosedPlainGood(s: Server, subject: string, i: nat, unsubscribe: bool)
    requires Good(s) && i < |s.psubs| && s.psubs[i] in s.subs
    ensures Good(ClosedPlain(s, subject, i, unsubscribe))
  {
    var r, id := ClosedPlain(s, subject, i, unsubscribe), s.psubs[i];
    assert PlainOk(s, id);
    RemovedAtIs(s.psubs, i);
    OutsideGroups(s, r, id);
    forall j | 0 <= j < |r.psubs| ensures PlainOk(r, r.psubs[j]) {
      ClosedPlainOther(s, subject, i, unsubscribe, j);
    }
    forall k | k in r.durables ensures DurableOk(r, r.durables[k]) {
      assert DurableOk(s, s.durables[k]);
    }
  }

  lemma ClosedPlainOther(s: Server, subject: string, i: nat, unsubscribe: bool, j: nat)
    requires Good(s) && i < |s.psubs| && s.psubs[i] in s.subs && j < |ClosedPlain(s, subject, i, unsubscribe).psubs|
    ensures var r := ClosedPlain(s, subject, i, unsubscribe);
            r.psubs[j] != s.psubs[i] && r.psubs[j] in s.psubs && PlainOk(s, r.psubs[j]) && PlainOk(r, r.psubs[j])
  {
    RemovedAtIs(s.psubs, i);
    var m :| 0 <= m < |s.psubs| && s.psubs[m] == RemovedAt(s.psubs, i)[j];
    assert PlainOk(s, s.psubs[m]);
  }

  lemma ClosedPlainFit(s: Server, subject: string, i: nat, unsubscribe: bool)
    requires Good(s) && KeysFit(s, subject) && i < |s.psubs| && s.psubs[i] in s.subs
    ensures KeysFit(ClosedPlain(s, subject, i, unsubscribe), subject)
  {
    var r, id := ClosedPlain(s, subject, i, unsubscribe), s.psubs[i];
    RemovedAtIs(s.psubs, i);
    assert PlainOk(s, id) && Found(s, subject, id);
    forall k | k in r.durables ensures UnderOwnKey(r, subject, k) {
      assert UnderOwnKey(s, subject, k) && DurableOk(s, s.durables[k]);
    }
    forall j | 0 <= j < |r.psubs| ensures r.psubs[j] in r.subs && Found(r, subject, r.psubs[j]) {
      ClosedPlainOther(s, subject, i, unsubscribe, j);
      var m :| 0 <= m < |s.psubs| && s.psubs[m] == r.psubs[j];
      assert Found(s, subject, s.psubs[m]);
    }
  }

  // ---------- Queue groups ----------

  /** The group that a request names: with the durable name in front, if it has one. */
  function GroupName(req: Request): string {
    if req.durableName != "" then req.durableName + ":" + req.qgroup else req.qgroup
  }

  /** A new member: of a new group, from its own position, or of one that there is. */
  function NewMember(s: Server, req: Request, ackInbox: string, lastSent: nat): Server {
    var g, id := GroupName(req), s.nextSubID;
    var st := NewState(s, req, ackInbox, g, "", req.durableName != "", if g in s.qsubs then 0 else lastSent);
    s.(subs := s.subs[id := Sub(st, {}, "")], nextSubID := id + 1,
       qsubs := s.qsubs[g := Joined(if g in s.qsubs then s.qsubs[g] else NEW_QUEUE, st)])
  }

  lemma NewMemberGood(s: Server, req: Request, ackInbox: string, lastSent: nat)
    requires Good(s) && req.clientID in s.clients && req.qgroup != ""
    ensures Good(NewMember(s, req, ackInbox, lastSent))
  {
    var r := NewMember(s, req, ackInbox, lastSent);
    PlainsStay(s, r);
    forall h | h in r.qsubs ensures QueueOk(r, h) {
      NewMemberQueue(s, req, ackInbox, lastSent, h);
    }
    NewMemberUnique(s, req, ackInbox, lastSent);
  }

  lemma NewMemberUnique(s: Server, req: Request, ackInbox: string, lastSent: nat)
    requires Good(s) && req.clientID in s.clients && req.qgroup != ""
    ensures Unique(NewMember(s, req, ackInbox, lastSent))
  {
    var r, g, id := NewMember(s, req, ackInbox, lastSent), GroupName(req), s.nextSubID;
    if g in s.qsubs {
      NewMemberQueue(s, req, ackInbox, lastSent, g);
    }
    assert req.clientID != "";
    assert multiset(r.qsubs[g].members) == multiset(if g in s.qsubs then s.qsubs[g].members else []) + multiset{id};
  }

  lemma NewMemberQueue(s: Server, req: Request, ackInbox: string, lastSent: nat, h: string)
    requires Good(s) && req.clientID in s.clients && req.qgroup != ""
             && h in NewMember(s, req, ackInbox, lastSent).qsubs
    ensures QueueOk(NewMember(s, req, ackInbox, lastSent), h)
    ensures h in s.qsubs ==> s.nextSubID !in s.qsubs[h].members
  {
    var r := NewMember(s, req, ackInbox, lastSent);
    if h in s.qsubs {
      assert QueueOk(s, h);
      forall i | 0 <= i < |s.qsubs[h].members| ensures MemberOk(r, h, s.qsubs[h].members[i]) {
        assert MemberOk(s, h, s.qsubs[h].members[i]);
      }
    }
  }

  /** What is not in a group stays as it is. */
  lemma PlainsStay(s: Server, r: Server)
    requires WellFormed(s) && r.psubs == s.psubs && r.durables == s.durables && r.clients == s.clients
             && s.subs.Keys <= r.subs.Keys
    requires forall id :: id in s.subs && s.subs[id].state.qgroup == "" ==> r.subs[id] == s.subs[id]
    ensures forall i :: 0 <= i < |r.psubs| ==> PlainOk(r, r.psubs[i])
    ensures forall k :: k in r.durables ==> DurableOk(r, r.durables[k])
  {
    forall i | 0 <= i < |r.psubs| ensures PlainOk(r, r.psubs[i]) {
      assert PlainOk(s, s.psubs[i]);
    }
    forall k | k in r.durables ensures DurableOk(r, r.durables[k]) {
      assert DurableOk(s, s.durables[k]);
    }
  }

  /** The shadow of a group gets a client, and is its first member again. */
  function Rejoined(s: Server, g: string, req: Request, ackInbox: string): Server
    requires g in s.qsubs && s.qsubs[g].shadow.Some? && s.qsubs[g].shadow.value in s.subs
  {
    var q, id := s.qsubs[g], s.qsubs[g].shadow.value;
    var st := s.subs[id].state.(ackInbox := ackInbox, clientID := req.clientID, inbox := req.inbox, isDurable := true,
                                maxInFlight := req.maxInFlight, ackWaitInSecs := req.ackWaitInSecs, isClosed := false);
    s.(subs := s.subs[id := s.subs[id].(state := st)],
       qsubs := s.qsubs[g := q.(members := q.members + [id], shadow := None)])
  }

  /** Subscriptions of other groups stay as they are. */
  lemma OtherGroup(s: Server, r: Server, g: string, h: string)
    requires QueueOk(s, h) && h != g && r.clients == s.clients && s.subs.Keys <= r.subs.Keys
    requires h in r.qsubs && r.qsubs[h] == s.qsubs[h]
    requires forall id :: id in s.subs && s.subs[id].state.qgroup != g ==> r.subs[id] == s.subs[id]
    ensures QueueOk(r, h)
  {
    forall i | 0 <= i < |s.qsubs[h].members| ensures MemberOk(r, h, s.qsubs[h].members[i]) {
      assert MemberOk(s, h, s.qsubs[h].members[i]);
    }
  }

  lemma ShadowIsNoMember(s: Server, g: string)
    requires QueueOk(s, g) && s.qsubs[g].shadow.Some?
    ensures s.qsubs[g].shadow.value !in s.qsubs[g].members
  {
    forall i | 0 <= i < |s.qsubs[g].members| ensures s.qsubs[g].members[i] != s.qsubs[g].shadow.value {
      assert MemberOk(s, g, s.qsubs[g].members[i]);
    }
  }

  ghost predicate CanRejoin(s: Server, g: string, req: Request) {
    Good(s) && req.clientID in s.clients && g in s.qsubs && s.qsubs[g].shadow.Some? && s.qsubs[g].shadow.value in s.subs
  }

  lemma RejoinedQueue(s: Server, g: string, req: Request, ackInbox: string)
    requires CanRejoin(s, g, req)
    ensures QueueOk(Rejoined(s, g, req, ackInbox), g)
  {
    var r, q := Rejoined(s, g, req, ackInbox), s.qsubs[g];
    assert QueueOk(s, g);
    ShadowIsNoMember(s, g);
    forall i | 0 <= i < |r.qsubs[g].members| ensures MemberOk(r, g, r.qsubs[g].members[i]) {
      if i < |q.members| {
        assert MemberOk(s, g, q.members[i]);
        assert q.members[i] in q.members;
      } else {
        assert ShadowOk(s, g, q.shadow.value);
      }
    }
  }

  lemma RejoinedGood(s: Server, g: string, req: Request, ackInbox: string)
    requires CanRejoin(s, g, req)
    ensures Good(Rejoined(s, g, req, ackInbox))
  {
    var r, id := Rejoined(s, g, req, ackInbox), s.qsubs[g].shadow.value;
    assert QueueOk(s, g);
    PlainsStay(s, r);
    RejoinedQueue(s, g, req, ackInbox);
    forall h | h in r.qsubs ensures QueueOk(r, h) {
      if h != g {
        assert QueueOk(s, h);
        OtherGroup(s, r, g, h);
      }
    }
    ShadowIsNoMember(s, g);
    UniqueMembers(s, r, g, id);
  }

  lemma UniqueMembers(s: Server, r: Server, g: string, id: nat)
    requires Unique(s) && r.psubs == s.psubs && g in s.qsubs && id !in s.qsubs[g].members
    requires g in r.qsubs && r.qsubs == s.qsubs[g := r.qsubs[g]] && r.qsubs[g].members == s.qsubs[g].members + [id]
    ensures Unique(r)
  {
    assert multiset(r.qsubs[g].members) == multiset(s.qsubs[g].members) + multiset{id};
  }

  // ---------- Leaving a group ----------

  /** A subscription gets a pending message of another one. */
  function WithPending(sub: Sub, x: nat): Sub {
    sub.(pending := sub.pending + {x}, state := sub.state.(lastSent := Max(sub.state.lastSent, x)))
  }

  /** The members, in turn, get these messages. */
  function Given(subs: map<nat, Sub>, members: seq<nat>, xs: seq<nat>): map<nat, Sub>
    requires members != []
  {
    if xs == [] then subs
    else
      var n := |xs| - 1;
      var r, id := Given(subs, members, xs[..n]), members[n % |members|];
      if id in r then r[id := WithPending(r[id], xs[n])] else r
  }

  /** Only positions and pending messages of members change, and the group stays as far as they are. */
  ghost predicate OnlyMembers(a: map<nat, Sub>, b: map<nat, Sub>, members: seq<nat>, lastSent: nat) {
    && b.Keys == a.Keys
    && (forall id :: id in a && id !in members ==> b[id] == a[id])
    && (forall id :: id in a && id in members ==>
          b[id].state == a[id].state.(lastSent := b[id].state.lastSent)
            && (Reached(a[id], lastSent) ==> Reached(b[id], lastSent)))
  }

  lemma {:induction false} GivenIs(subs: map<nat, Sub>, members: seq<nat>, xs: seq<nat>, lastSent: nat)
    requires members != [] && forall i :: 0 <= i < |xs| ==> xs[i] <= lastSent
    ensures OnlyMembers(subs, Given(subs, members, xs), members, lastSent)
    decreases |xs|
  {
    if xs != [] {
      GivenIs(subs, members, xs[..|xs| - 1], lastSent);
    }
  }

  /** A position is brought to that of the group. */
  function AtPosition(subs: map<nat, Sub>, id: nat, lastSent: nat): map<nat, Sub> {
    if id in subs then subs[id := subs[id].(state := subs[id].state.(lastSent := lastSent))] else subs
  }

  /**
   A member leaves its group; the last one of a durable group stays as its shadow unless it unsubscribes. `given` are
   its pending messages as the leader hands them on; a follower hands none on, and gets told later. The first member
   takes over the position of the group, if the one that leaves had it and did not hand it on.
   */
  function LeftGroup(s: Server, g: string, i: nat, unsubscribe: bool, given: seq<nat>): Server
    requires g in s.qsubs && i < |s.qsubs[g].members| && s.qsubs[g].members[i] in s.subs
  {
    var q, id := s.qsubs[g], s.qsubs[g].members[i];
    var sub, rest := s.subs[id], RemovedAt(q.members, i);
    var subs := s.subs[id := Left(sub, false)];
    if rest != [] then
      var after := Given(subs, rest, given);
      s.(qsubs := s.qsubs[g := q.(members := rest)],
         subs := if sub.state.lastSent == q.lastSent && q.lastSent !in given
           then AtPosition(after, rest[0], q.lastSent) else after)
    else if !sub.state.isDurable || unsubscribe then s.(subs := subs, qsubs := s.qsubs - {g})
    else s.(subs := AtPosition(subs, id, q.lastSent), qsubs := s.qsubs[g := Queue(q.lastSent, [], Some(id))])
  }

  ghost predicate CanLeave(s: Server, g: string, i: nat, given: seq<nat>) {
    && Good(s) && g in s.qsubs && i < |s.qsubs[g].members| && s.qsubs[g].members[i] in s.subs
    && forall j :: 0 <= j < |given| ==> given[j] in s.subs[s.qsubs[g].members[i]].pending
  }

  /** What becomes of the subscriptions when others stay in the group. */
  lemma LeftSubs(s: Server, g: string, i: nat, unsubscribe: bool, given: seq<nat>)
    requires CanLeave(s, g, i, given) && RemovedAt(s.qsubs[g].members, i) != []
    ensures var q, id := s.qsubs[g], s.qsubs[g].members[i];
            OnlyMembers(s.subs[id := Left(s.subs[id], false)], LeftGroup(s, g, i, unsubscribe, given).subs,
                        RemovedAt(q.members, i), q.lastSent)
  {
    var q, id := s.qsubs[g], s.qsubs[g].members[i];
    var subs, rest := s.subs[id := Left(s.subs[id], false)], RemovedAt(q.members, i);
    assert QueueOk(s, g) && MemberOk(s, g, id);
    GivenIs(subs, rest, given, q.lastSent);
    assert rest[0] in rest;
  }

  /** The members that stay are those of before. */
  lemma StillMembers(s: Server, g: string, i: nat, id: nat)
    requires Good(s) && g in s.qsubs && i < |s.qsubs[g].members| && id in RemovedAt(s.qsubs[g].members, i)
    ensures id in s.qsubs[g].members && id != s.qsubs[g].members[i] && MemberOk(s, g, id)
  {
    var members := s.qsubs[g].members;
    RemovedAtIs(members, i);
    var m :| 0 <= m < |members| && members[m] == id;
    assert QueueOk(s, g);
  }

  lemma LeftGroupRest(s: Server, g: string, i: nat, unsubscribe: bool, given: seq<nat>)
    requires CanLeave(s, g, i, given) && RemovedAt(s.qsubs[g].members, i) != []
    ensures QueueOk(LeftGroup(s, g, i, unsubscribe, given), g)
  {
    var r, q := LeftGroup(s, g, i, unsubscribe, given), s.qsubs[g];
    LeftSubs(s, g, i, unsubscribe, given);
    assert QueueOk(s, g);
    forall j | 0 <= j < |r.qsubs[g].members| ensures MemberOk(r, g, r.qsubs[g].members[j]) {
      StillMembers(s, g, i, r.qsubs[g].members[j]);
    }
    if q.shadow.Some? {
      ShadowIsNoMember(s, g);
      ShadowStays(s, g, i);
    }
  }

  lemma ShadowStays(s: Server, g: string, i: nat)
    requires Good(s) && g in s.qsubs && i < |s.qsubs[g].members| && s.qsubs[g].shadow.Some?
    ensures var id := s.qsubs[g].shadow.value; id != s.qsubs[g].members[i] && id !in RemovedAt(s.qsubs[g].members, i)
  {
    var id := s.qsubs[g].shadow.value;
    assert QueueOk(s, g);
    ShadowIsNoMember(s, g);
    if id in RemovedAt(s.qsubs[g].members, i) {
      StillMembers(s, g, i, id);
    }
  }

  lemma LeftGroupQueue(s: Server, g: string, i: nat, unsubscribe: bool, given: seq<nat>)
    requires CanLeave(s, g, i, given)
    ensures var r := LeftGroup(s, g, i, unsubscribe, given); g in r.qsubs ==> QueueOk(r, g)
  {
    assert QueueOk(s, g) && MemberOk(s, g, s.qsubs[g].members[i]);
    if RemovedAt(s.qsubs[g].members, i) != [] {
      LeftGroupRest(s, g, i, unsubscribe, given);
    }
  }

  /** Only subscriptions of the group change. */
  lemma LeftGroupSubs(s: Server, g: string, i: nat, unsubscribe: bool, given: seq<nat>)
    requires CanLeave(s, g, i, given)
    ensures var r := LeftGroup(s, g, i, unsubscribe, given);
            r.subs.Keys == s.subs.Keys && forall id :: id in s.subs && s.subs[id].state.qgroup != g ==>
                r.subs[id] == s.subs[id]
  {
    var r, members := LeftGroup(s, g, i, unsubscribe, given), s.qsubs[g].members;
    assert QueueOk(s, g) && MemberOk(s, g, members[i]);
    if RemovedAt(members, i) != [] {
      LeftSubs(s, g, i, unsubscribe, given);
      forall id | id in s.subs && s.subs[id].state.qgroup != g ensures r.subs[id] == s.subs[id] {
        if id in RemovedAt(members, i) {
          StillMembers(s, g, i, id);
        }
      }
    }
  }

  lemma LeftGroupGood(s: Server, g: string, i: nat, unsubscribe: bool, given: seq<nat>)
    requires CanLeave(s, g, i, given)
    ensures Good(LeftGroup(s, g, i, unsubscribe, given))
  {
    var r := LeftGroup(s, g, i, unsubscribe, given);
    assert QueueOk(s, g);
    LeftGroupSubs(s, g, i, unsubscribe, given);
    PlainsStay(s, r);
    forall h | h in r.qsubs ensures QueueOk(r, h) {
      LeftGroupQueues(s, g, i, unsubscribe, given, h);
    }
    LeftGroupUnique(s, g, i, unsubscribe, given);
  }

  lemma LeftGroupQueues(s: Server, g: string, i: nat, unsubscribe: bool, given: seq<nat>, h: string)
    requires CanLeave(s, g, i, given) && h in LeftGroup(s, g, i, unsubscribe, given).qsubs
    ensures QueueOk(LeftGroup(s, g, i, unsubscribe, given), h)
  {
    if h == g {
      LeftGroupQueue(s, g, i, unsubscribe, given);
    } else {
      assert QueueOk(s, h);
      LeftGroupSubs(s, g, i, unsubscribe, given);
      OtherGroup(s, LeftGroup(s, g, i, unsubscribe, given), g, h);
    }
  }

  lemma LeftGroupUnique(s: Server, g: string, i: nat, unsubscribe: bool, given: seq<nat>)
    requires CanLeave(s, g, i, given)
    ensures Unique(LeftGroup(s, g, i, unsubscribe, given))
  {
    var r := LeftGroup(s, g, i, unsubscribe, given);
    RemovedAtIs(s.qsubs[g].members, i);
    forall h, id | h in r.qsubs ensures multiset(r.qsubs[h].members)[id] <= 1 {
      assert h in s.qsubs && multiset(s.qsubs[h].members)[id] <= 1;
    }
  }

  // ---------- Deliveries and acknowledgements ----------

  function Highest(list: seq<nat>, from: nat): (r: nat)
    ensures from <= r && forall i :: 0 <= i < |list| ==> list[i] <= r
  {
    if list == [] then from else Max(Highest(list[..|list| - 1], from), list[|list| - 1])
  }

  /** Messages are sent and acknowledged: one by one on the leader, a window at once on a follower. */
  function Delivered(s: Server, id: nat, sent: seq<nat>, ack: set<nat>): Server
    requires id in s.subs
  {
    var sub := s.subs[id];
    var g := sub.state.qgroup;
    s.(subs := s.subs[id := Sub(sub.state.(lastSent := Highest(sent, sub.state.lastSent)),
                                sub.pending + (set x | x in sent) - ack, sub.savedClientID)],
       qsubs := if g in s.qsubs then s.qsubs[g := s.qsubs[g].(lastSent := Highest(sent, s.qsubs[g].lastSent))]
         else s.qsubs)
  }

  lemma {:induction false} HighestMonotone(list: seq<nat>, a: nat, b: nat)
    requires a <= b
    ensures Highest(list, a) <= Highest(list, b)
    decreases |list|
  {
    if list != [] {
      HighestMonotone(list[..|list| - 1], a, b);
    }
  }

  lemma DeliveredGood(s: Server, id: nat, sent: seq<nat>, ack: set<nat>)
    requires Good(s) && id in s.subs
    ensures Good(Delivered(s, id, sent, ack))
  {
    var r := Delivered(s, id, sent, ack);
    forall i | 0 <= i < |r.psubs| ensures PlainOk(r, r.psubs[i]) {
      assert PlainOk(s, s.psubs[i]);
    }
    forall k | k in r.durables ensures DurableOk(r, r.durables[k]) {
      assert DurableOk(s, s.durables[k]);
    }
    forall h | h in r.qsubs ensures QueueOk(r, h) {
      DeliveredQueue(s, id, sent, ack, h);
    }
  }

  lemma DeliveredFit(s: Server, subject: string, id: nat, sent: seq<nat>, ack: set<nat>)
    requires KeysFit(s, subject) && id in s.subs
    ensures KeysFit(Delivered(s, id, sent, ack), subject)
  {
    var r := Delivered(s, id, sent, ack);
    forall k | k in r.durables ensures UnderOwnKey(r, subject, k) {
      assert UnderOwnKey(s, subject, k);
    }
    forall i | 0 <= i < |r.psubs| ensures r.psubs[i] in r.subs && Found(r, subject, r.psubs[i]) {
      assert Found(s, subject, s.psubs[i]);
    }
  }

  lemma DeliveredReached(s: Server, id: nat, sent: seq<nat>, ack: set<nat>, h: string, x: nat)
    requires id in s.subs && h in s.qsubs && x in s.subs && s.subs[x].state.qgroup == h
             && Reached(s.subs[x], s.qsubs[h].lastSent)
    ensures var r := Delivered(s, id, sent, ack); Reached(r.subs[x], r.qsubs[h].lastSent)
  {
    HighestMonotone(sent, s.subs[x].state.lastSent, s.qsubs[h].lastSent);
  }

  lemma DeliveredQueue(s: Server, id: nat, sent: seq<nat>, ack: set<nat>, h: string)
    requires WellFormed(s) && id in s.subs && h in s.qsubs
    ensures QueueOk(Delivered(s, id, sent, ack), h)
  {
    var r, q := Delivered(s, id, sent, ack), s.qsubs[h];
    assert QueueOk(s, h);
    forall i | 0 <= i < |q.members| ensures MemberOk(r, h, q.members[i]) {
      assert MemberOk(s, h, q.members[i]);
      DeliveredReached(s, id, sent, ack, h, q.members[i]);
    }
    if q.shadow.Some? {
      DeliveredReached(s, id, sent, ack, h, q.shadow.value);
    }
  }

  // ---------- Runs ----------

  /** A subscription to be closed, with the messages that it hands on. */
  datatype Closing = Closing(id: nat, given: seq<nat>)

  datatype Op =
    | Connect(c: string, info: string)
    | Subscribe(req: Request, ackInbox: string, lastSent: nat)
    | CloseSub(one: Closing, unsubscribe: bool)
    | CloseClient(client: string, closings: seq<Closing>)
    | SendAndAck(sub: nat, sent: seq<nat>, ack: set<nat>)

  /**
   A subscription request. It fails for a client that is not registered, for a queue's durable name with a colon, and
   for a durable that is online.
   */
  function Subscribed(s: Server, subject: string, req: Request, ackInbox: string, lastSent: nat): Server {
    var g, k := GroupName(req), DurableKey(req.clientID, subject, req.durableName);
    if req.clientID !in s.clients then s
    else if req.qgroup != "" then
      if ':' in req.durableName then s
      else if g in s.qsubs && s.qsubs[g].shadow.Some? && s.qsubs[g].shadow.value in s.subs
        then Rejoined(s, g, req, ackInbox)
      else NewMember(s, req, ackInbox, lastSent)
    else if req.durableName != "" && k in s.durables && s.durables[k] in s.subs then
      if s.subs[s.durables[k]].state.clientID != "" then s else Resumed(s, s.durables[k], req, ackInbox)
    else NewPlain(s, subject, req, ackInbox, lastSent)
  }

  lemma SubscribedGood(s: Server, subject: string, req: Request, ackInbox: string, lastSent: nat)
    requires Good(s)
    ensures Good(Subscribed(s, subject, req, ackInbox, lastSent))
  {
    var g, k := GroupName(req), DurableKey(req.clientID, subject, req.durableName);
    if req.clientID !in s.clients {
    } else if req.qgroup != "" {
      if g in s.qsubs && s.qsubs[g].shadow.Some? && s.qsubs[g].shadow.value in s.subs {
        RejoinedGood(s, g, req, ackInbox);
      } else {
        NewMemberGood(s, req, ackInbox, lastSent);
      }
    } else if req.durableName != "" && k in s.durables && s.durables[k] in s.subs {
      if s.subs[s.durables[k]].state.clientID == "" {
        ResumedGood(s, k, req, ackInbox);
      }
    } else {
      NewPlainGood(s, subject, req, ackInbox, lastSent);
    }
  }

  /** The durable that a request finds is the one that it names: false only if two keys are spelled the same. */
  predicate FindsOwn(s: Server, subject: string, req: Request) {
    var k := DurableKey(req.clientID, subject, req.durableName);
    req.qgroup == "" && k in s.durables && s.durables[k] in s.subs ==>
        s.subs[s.durables[k]].state.durableName == req.durableName
  }

  lemma SubscribedFit(s: Server, subject: string, req: Request, ackInbox: string, lastSent: nat)
    requires Good(s) && KeysFit(s, subject) && FindsOwn(s, subject, req)
    ensures KeysFit(Subscribed(s, subject, req, ackInbox, lastSent), subject)
  {
    var g, k := GroupName(req), DurableKey(req.clientID, subject, req.durableName);
    if req.clientID !in s.clients {
    } else if req.qgroup != "" {
      GroupKeysStay(s, subject, req, ackInbox, lastSent);
    } else if req.durableName != "" && k in s.durables {
      assert DurableOk(s, s.durables[k]);
      if s.subs[s.durables[k]].state.clientID == "" {
        ResumedFit(s, subject, req, ackInbox);
      }
    } else {
      NewPlainFit(s, subject, req, ackInbox, lastSent);
    }
  }

  lemma GroupKeysStay(s: Server, subject: string, req: Request, ackInbox: string, lastSent: nat)
    requires Good(s) && KeysFit(s, subject) && req.qgroup != ""
    ensures KeysFit(Subscribed(s, subject, req, ackInbox, lastSent), subject)
  {
    var g := GroupName(req);
    if g in s.qsubs {
      assert QueueOk(s, g);
    }
    KeysStay(s, Subscribed(s, subject, req, ackInbox, lastSent), subject);
  }

  predicate InGroup(s: Server, id: nat) {
    id in s.subs && s.subs[id].state.qgroup in s.qsubs && id in s.qsubs[s.subs[id].state.qgroup].members
  }

  /** A subscription is closed, wherever it is. */
  function Closed(s: Server, subject: string, c: Closing, unsubscribe: bool): Server {
    if c.id in s.psubs && c.id in s.subs then ClosedPlain(s, subject, IndexOf(s.psubs, c.id), unsubscribe)
    else if InGroup(s, c.id) then
      var g := s.subs[c.id].state.qgroup;
      LeftGroup(s, g, IndexOf(s.qsubs[g].members, c.id), unsubscribe, c.given)
    else s
  }

  /** A follower hands nothing on; the leader hands on what is pending, in some order. */
  ghost predicate HandsOn(s: Server, c: Closing) {
    c.given == [] || (c.id in s.subs && NoDoubles(c.given) && forall x :: x in c.given <==> x in s.subs[c.id].pending)
  }

  lemma ClosedGood(s: Server, subject: string, c: Closing, unsubscribe: bool)
    requires Good(s) && HandsOn(s, c)
    ensures Good(Closed(s, subject, c, unsubscribe))
  {
    if c.id in s.psubs && c.id in s.subs {
      ClosedPlainGood(s, subject, IndexOf(s.psubs, c.id), unsubscribe);
    } else if InGroup(s, c.id) {
      var g := s.subs[c.id].state.qgroup;
      LeftGroupGood(s, g, IndexOf(s.qsubs[g].members, c.id), unsubscribe, c.given);
    }
  }

  lemma ClosedFit(s: Server, subject: string, c: Closing, unsubscribe: bool)
    requires Good(s) && HandsOn(s, c) && KeysFit(s, subject)
    ensures KeysFit(Closed(s, subject, c, unsubscribe), subject)
  {
    if c.id in s.psubs && c.id in s.subs {
      ClosedPlainFit(s, subject, IndexOf(s.psubs, c.id), unsubscribe);
    } else if InGroup(s, c.id) {
      var g := s.subs[c.id].state.qgroup;
      LeftGroupFit(s, subject, g, IndexOf(s.qsubs[g].members, c.id), unsubscribe, c.given);
    }
  }

  lemma LeftGroupFit(s: Server, subject: string, g: string, i: nat, unsubscribe: bool, given: seq<nat>)
    requires CanLeave(s, g, i, given) && KeysFit(s, subject)
    ensures KeysFit(LeftGroup(s, g, i, unsubscribe, given), subject)
  {
    assert QueueOk(s, g);
    LeftGroupSubs(s, g, i, unsubscribe, given);
    KeysStay(s, LeftGroup(s, g, i, unsubscribe, given), subject);
  }

  /** A subscription that was closed is nobody's, and no other one changes hands. */
  lemma ClosedOwned(s: Server, subject: string, c: Closing, client: string, id: nat)
    requires Good(s) && HandsOn(s, c) && client != "" && Owned(Closed(s, subject, c, false), client, id)
    ensures Owned(s, client, id) && id != c.id
  {
    if c.id in s.psubs && c.id in s.subs {
      RemovedAtIs(s.psubs, IndexOf(s.psubs, c.id));
    } else if InGroup(s, c.id) {
      LeftOwned(s, subject, c, client, id);
    }
  }

  lemma LeftOwned(s: Server, subject: string, c: Closing, client: string, id: nat)
    requires Good(s) && HandsOn(s, c) && client != "" && InGroup(s, c.id)
    requires var g := s.subs[c.id].state.qgroup;
             Owned(LeftGroup(s, g, IndexOf(s.qsubs[g].members, c.id), false, c.given), client, id)
    ensures Owned(s, client, id) && id != c.id
  {
    var g := s.subs[c.id].state.qgroup;
    var members := s.qsubs[g].members;
    var i := IndexOf(members, c.id);
    assert QueueOk(s, g) && MemberOk(s, g, members[i]);
    RemovedAtIs(members, i);
    if RemovedAt(members, i) != [] {
      LeftSubs(s, g, i, false, c.given);
    }
  }

  function AllClosed(s: Server, subject: string, cs: seq<Closing>): Server {
    if cs == [] then s else Closed(AllClosed(s, subject, cs[..|cs| - 1]), subject, cs[|cs| - 1], false)
  }

  ghost predicate AllHandOn(s: Server, subject: string, cs: seq<Closing>) {
    cs == [] || (AllHandOn(s, subject, cs[..|cs| - 1]) && HandsOn(AllClosed(s, subject, cs[..|cs| - 1]), cs[|cs| - 1]))
  }

  lemma {:induction false} AllClosedGood(s: Server, subject: string, cs: seq<Closing>)
    requires Good(s) && AllHandOn(s, subject, cs)
    ensures Good(AllClosed(s, subject, cs))
    ensures KeysFit(s, subject) ==> KeysFit(AllClosed(s, subject, cs), subject)
    decreases |cs|
  {
    if cs != [] {
      var before, c := cs[..|cs| - 1], cs[|cs| - 1];
      AllClosedGood(s, subject, before);
      ClosedGood(AllClosed(s, subject, before), subject, c, false);
      if KeysFit(s, subject) {
        ClosedFit(AllClosed(s, subject, before), subject, c, false);
      }
    }
  }

  /** The last one is closed. */
  lemma LastClosed(s: Server, subject: string, cs: seq<Closing>, client: string, id: nat)
    requires cs != [] && Good(s) && AllHandOn(s, subject, cs) && client != ""
             && Owned(AllClosed(s, subject, cs), client, id)
    ensures Owned(AllClosed(s, subject, cs[..|cs| - 1]), client, id) && id != cs[|cs| - 1].id
  {
    AllClosedGood(s, subject, cs[..|cs| - 1]);
    ClosedOwned(AllClosed(s, subject, cs[..|cs| - 1]), subject, cs[|cs| - 1], client, id);
  }

  /** What the client still has was its own before. */
  lemma {:induction false} StillOwned(s: Server, subject: string, cs: seq<Closing>, client: string, id: nat)
    requires Good(s) && AllHandOn(s, subject, cs) && client != "" && Owned(AllClosed(s, subject, cs), client, id)
    ensures Owned(s, client, id)
    decreases |cs|
  {
    if cs != [] {
      LastClosed(s, subject, cs, client, id);
      StillOwned(s, subject, cs[..|cs| - 1], client, id);
    }
  }

  /** It is none of those that were closed. */
  lemma {:induction false} NotClosed(s: Server, subject: string, cs: seq<Closing>, client: string, id: nat, i: nat)
    requires Good(s) && AllHandOn(s, subject, cs) && client != "" && Owned(AllClosed(s, subject, cs), client, id)
             && i < |cs|
    ensures cs[i].id != id
    decreases |cs|
  {
    LastClosed(s, subject, cs, client, id);
    if i < |cs| - 1 {
      NotClosed(s, subject, cs[..|cs| - 1], client, id, i);
    }
  }

  function Applied(s: Server, subject: string, op: Op): Server {
    match op
    case Connect(c, info) => if c == "" then s else Connected(s, c, info)
    case Subscribe(req, ackInbox, lastSent) => Subscribed(s, subject, req, ackInbox, lastSent)
    case CloseSub(c, unsubscribe) => Closed(s, subject, c, unsubscribe)
    case CloseClient(c, cs) => if c in s.clients then Disconnected(AllClosed(s, subject, cs), c) else s
    case SendAndAck(id, sent, ack) => if id in s.subs then Delivered(s, id, sent, ack) else s
  }

  /** A client is closed with all its subscriptions. */
  ghost predicate Legal(s: Server, subject: string, op: Op) {
    match op
    case CloseSub(c, _) => HandsOn(s, c)
    case CloseClient(c, cs) => AllHandOn(s, subject, cs) && forall id :: Owned(s, c, id) ==>
        exists i :: 0 <= i < |cs| && cs[i].id == id
    case _ => true
  }

  lemma AppliedGood(s: Server, subject: string, op: Op)
    requires Good(s) && Legal(s, subject, op)
    ensures Good(Applied(s, subject, op))
  {
    match op
    case Connect(c, info) => if c != "" { ConnectedGood(s, c, info); }
    case Subscribe(req, ackInbox, lastSent) => SubscribedGood(s, subject, req, ackInbox, lastSent);
    case CloseSub(c, unsubscribe) => ClosedGood(s, subject, c, unsubscribe);
    case CloseClient(c, cs) => if c in s.clients { ClientClosed(s, subject, c, cs); }
    case SendAndAck(id, sent, ack) => if id in s.subs { DeliveredGood(s, id, sent, ack); }
  }

  lemma ClientClosed(s: Server, subject: string, c: string, cs: seq<Closing>)
    requires Good(s) && Legal(s, subject, CloseClient(c, cs)) && c in s.clients
    ensures Good(Disconnected(AllClosed(s, subject, cs), c))
  {
    AllClosedGood(s, subject, cs);
    forall id ensures !Owned(AllClosed(s, subject, cs), c, id) {
      if Owned(AllClosed(s, subject, cs), c, id) {
        StillOwned(s, subject, cs, c, id);
        var i :| 0 <= i < |cs| && cs[i].id == id;
        NotClosed(s, subject, cs, c, id, i);
      }
    }
    DisconnectedGood(AllClosed(s, subject, cs), c);
  }

  lemma AppliedFit(s: Server, subject: string, op: Op)
    requires Good(s) && KeysFit(s, subject) && Legal(s, subject, op) && (op.Subscribe? ==> FindsOwn(s, subject, op.req))
    ensures KeysFit(Applied(s, subject, op), subject)
  {
    match op
    case Connect(c, info) => KeysStay(s, Applied(s, subject, op), subject);
    case Subscribe(req, ackInbox, lastSent) => SubscribedFit(s, subject, req, ackInbox, lastSent);
    case CloseSub(c, unsubscribe) => ClosedFit(s, subject, c, unsubscribe);
    case CloseClient(c, cs) =>
      AllClosedGood(s, subject, cs);
      KeysStay(AllClosed(s, subject, cs), Disconnected(AllClosed(s, subject, cs), c), subject);
    case SendAndAck(id, sent, ack) => if id in s.subs { DeliveredFit(s, subject, id, sent, ack); }
  }

  ghost predicate Run(s: Server, subject: string, ops: seq<Op>)
    decreases |ops|
  {
    ops == [] || (Legal(s, subject, ops[0]) && Run(Applied(s, subject, ops[0]), subject, ops[1..]))
  }

  function After(s: Server, subject: string, ops: seq<Op>): Server
    decreases |ops|
  {
    if ops == [] then s else After(Applied(s, subject, ops[0]), subject, ops[1..])
  }

  lemma {:induction false} RunGood(s: Server, subject: string, ops: seq<Op>)
    requires Good(s) && Run(s, subject, ops)
    ensures Good(After(s, subject, ops))
    decreases |ops|
  {
    if ops != [] {
      AppliedGood(s, subject, ops[0]);
      RunGood(Applied(s, subject, ops[0]), subject, ops[1..]);
    }
  }

  /** Every request for a durable finds the one that it names, if any. */
  predicate AllFindOwn(s: Server, subject: string, ops: seq<Op>)
    decreases |ops|
  {
    ops == [] ||
    ((ops[0].Subscribe? ==> FindsOwn(s, subject, ops[0].req))
     && AllFindOwn(Applied(s, subject, ops[0]), subject, ops[1..]))
  }

  lemma {:induction false} RunFit(s: Server, subject: string, ops: seq<Op>)
    requires Good(s) && KeysFit(s, subject) && Run(s, subject, ops) && AllFindOwn(s, subject, ops)
    ensures KeysFit(After(s, subject, ops), subject)
    decreases |ops|
  {
    if ops != [] {
      AppliedGood(s, subject, ops[0]);
      AppliedFit(s, subject, ops[0]);
      RunFit(Applied(s, subject, ops[0]), subject, ops[1..]);
    }
  }

  /**
   Whatever happened since the start, a snapshot restored into an empty server gives the same state if and only if every
   durable is kept under its own key.
   */
  lemma ReachableRoundTrip(subject: string, ops: seq<Op>, closed: seq<nat>, groups: seq<string>)
    requires Run(EMPTY_SERVER, subject, ops) && Covers(After(EMPTY_SERVER, subject, ops), closed, groups)
    ensures var s := After(EMPTY_SERVER, subject, ops);
            && WellFormed(s)
            && (Same(s, Restored(s.clients, subject, List(s, closed, groups), s.nextSubID)) <==> KeysOwn(s, subject))
  {
    EmptyGood(subject);
    RunGood(EMPTY_SERVER, subject, ops);
    RoundTrip(After(EMPTY_SERVER, subject, ops), subject, closed, groups);
  }

  /** As long as every request for a durable finds the one that it names, this is so. */
  lemma KeysStayOwn(subject: string, ops: seq<Op>)
    requires Run(EMPTY_SERVER, subject, ops) && AllFindOwn(EMPTY_SERVER, subject, ops)
    ensures KeysOwn(After(EMPTY_SERVER, subject, ops), subject)
  {
    EmptyGood(subject);
    RunFit(EMPTY_SERVER, subject, ops);
    var s := After(EMPTY_SERVER, subject, ops);
    forall i | 0 <= i < |s.psubs| && IsDurable(s, s.psubs[i]) ensures KeyTaken(s, subject, s.psubs[i]) {
      assert Found(s, subject, s.psubs[i]);
    }
  }

  // ---------- Keys that are spelled the same ----------

  const A := Request("a", "", "", 1, 1, "x-s-y")
  const B := Request("a-s-x", "", "", 1, 1, "y")

  /** Client "a" closes its durable "x-s-y"; client "a-s-x" asks for its own durable "y", and is given that of "a". */
  const COLLIDING: seq<Op> :=
    [Connect("a", ""), Connect("a-s-x", ""), Subscribe(A, "", 0), CloseSub(Closing(1, []), false), Subscribe(B, "", 0)]

  lemma Colliding()
    ensures DurableKey("a", "s", "x-s-y") == DurableKey("a-s-x", "s", "y")
    ensures DurableKey("a-s-x", "s", "x-s-y") != DurableKey("a-s-x", "s", "y")
  {
    assert DurableKey("a", "s", "x-s-y") == "a-s-x-s-y";
    assert DurableKey("a-s-x", "s", "y") == "a-s-x-s-y";
    assert |DurableKey("a-s-x", "s", "x-s-y")| != |DurableKey("a-s-x", "s", "y")|;
  }

  lemma {:induction false} AfterLast(s: Server, subject: string, ops: seq<Op>, op: Op)
    ensures After(s, subject, ops + [op]) == Applied(After(s, subject, ops), subject, op)
    ensures Run(s, subject, ops + [op]) <==> Run(s, subject, ops) && Legal(After(s, subject, ops), subject, op)
    decreases |ops|
  {
    if ops == [] {
      assert After(Applied(s, subject, op), subject, []) == Applied(s, subject, op);
    } else {
      assert (ops + [op])[1..] == ops[1..] + [op];
      AfterLast(Applied(s, subject, ops[0]), subject, ops[1..], op);
    }
  }

  /** A run of two operations. */
  lemma TwoOps(s: Server, subject: string, a: Op, b: Op)
    ensures After(s, subject, [a, b]) == Applied(Applied(s, subject, a), subject, b)
    ensures Run(s, subject, [a, b]) <==> Legal(s, subject, a) && Legal(Applied(s, subject, a), subject, b)
  {
    AfterLast(s, subject, [a], b);
    AfterLast(s, subject, [], a);
    assert [a] + [b] == [a, b] && [] + [a] == [a];
  }

  /** Two clients, and the durable of the first one. */
  lemma Subscribing()
    ensures After(EMPTY_SERVER, "s", COLLIDING[..3]) ==
            NewPlain(EMPTY_SERVER.(clients := map["a" := "", "a-s-x" := ""]), "s", A, "", 0)
    ensures Run(EMPTY_SERVER, "s", COLLIDING[..3])
  {
    TwoOps(EMPTY_SERVER, "s", COLLIDING[0], COLLIDING[1]);
    assert COLLIDING[..3] == [COLLIDING[0], COLLIDING[1]] + [COLLIDING[2]];
    AfterLast(EMPTY_SERVER, "s", [COLLIDING[0], COLLIDING[1]], COLLIDING[2]);
  }

  /** The only subscription of a server is closed. */
  lemma OnlyOneClosed(s: Server, subject: string)
    requires s.psubs == [1] && 1 in s.subs
    ensures var r := Closed(s, subject, Closing(1, []), false);
            && r.psubs == [] && r.clients == s.clients && r.durables == s.durables && 1 in r.subs
            && r.subs[1] == Left(s.subs[1], s.subs[1].state.isDurable)
  {
    assert IndexOf(s.psubs, 1) == 0;
  }

  /** After the first four operations, the durable of "a" waits for its client. */
  lemma BeforeCollision() returns (s: Server)
    ensures Run(EMPTY_SERVER, "s", COLLIDING[..4]) && After(EMPTY_SERVER, "s", COLLIDING[..4]) == s
    ensures s.clients.Keys == {"a", "a-s-x"} && s.psubs == []
    ensures s.durables == map[DurableKey("a", "s", "x-s-y") := 1]
    ensures 1 in s.subs && s.subs[1].state.clientID == "" && s.subs[1].state.durableName == "x-s-y"
  {
    Subscribing();
    var ops := COLLIDING[..3];
    var s3 := After(EMPTY_SERVER, "s", ops);
    assert COLLIDING[..4] == ops + [CloseSub(Closing(1, []), false)];
    AfterLast(EMPTY_SERVER, "s", ops, CloseSub(Closing(1, []), false));
    OnlyOneClosed(s3, "s");
    s := Closed(s3, "s", Closing(1, []), false);
  }

  /** The snapshot of that server is not the same after a restore, in whatever order it is written. */
  lemma CollidingRun(closed: seq<nat>, groups: seq<string>)
    requires Covers(After(EMPTY_SERVER, "s", COLLIDING), closed, groups)
    ensures Run(EMPTY_SERVER, "s", COLLIDING)
    ensures var s := After(EMPTY_SERVER, "s", COLLIDING);
            WellFormed(s) && !Same(s, Restored(s.clients, "s", List(s, closed, groups), s.nextSubID))
  {
    var before := BeforeCollision();
    assert COLLIDING == COLLIDING[..4] + [COLLIDING[4]];
    AfterLast(EMPTY_SERVER, "s", COLLIDING[..4], COLLIDING[4]);
    Colliding();
    ReachableRoundTrip("s", COLLIDING, closed, groups);
    var s, k := After(EMPTY_SERVER, "s", COLLIDING), DurableKey("a-s-x", "s", "y");
    assert s == Resumed(before, 1, B, "");
    assert k in s.durables && !UnderOwnKey(s, "s", k);
  }
}
