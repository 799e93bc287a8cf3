/**
 Subscriptions of a channel as a snapshot saves them and a restore rebuilds them (server/snapshot.go, server/server.go).
 */
module Snapshot {
  import opened Basics

  /** What is stored of a subscription. */
  datatype SubState = SubState(id: nat, clientID: string, qgroup: string, inbox: string, ackInbox: string,
                               maxInFlight: int, ackWaitInSecs: int, durableName: string, isDurable: bool,
                                 lastSent: nat, isClosed: bool)

  /** A subscription; `savedClientID` remembers the client of one that was closed. */
  datatype Sub = Sub(state: SubState, pending: set<nat>, savedClientID: string)

  /** A queue group: the members and the shadow by the ID of their subscription. */
  datatype Queue = Queue(lastSent: nat, members: seq<nat>, shadow: Option<nat>)

  /** A subscription in a snapshot. */
  datatype Entry = Entry(state: SubState, pending: set<nat>)

  function DurableKey(clientID: string, subject: string, durableName: string): string {
    clientID + "-" + subject + "-" + durableName
  }

  // ---------- Restoring one subscription ----------

  datatype Kind = Offline | Plain | Queued | Dropped

  /** Where a restored subscription goes, given the clients that are registered. */
  function KindOf(clients: set<string>, st: SubState): Kind {
    if st.durableName != "" && st.isClosed then Offline
    else if st.clientID !in clients && !st.isDurable && st.durableName == "" then Dropped
    else if st.clientID !in clients && st.qgroup != "" && st.clientID != "" then Dropped
    else if st.durableName != "" && st.clientID !in clients then Offline
    else if st.qgroup != "" then Queued
    else Plain
  }

  /** The restored subscription. */
  function SubOf(clients: set<string>, e: Entry): Sub {
    var st := if e.state.durableName != "" then e.state.(isDurable := true) else e.state;
    if KindOf(clients, e.state) == Offline then Sub(st.(clientID := ""), e.pending, st.clientID)
    else Sub(st, e.pending, "")
  }

  /** A member, or the shadow, joins its group. */
  function Joined(q: Queue, st: SubState): Queue {
    var q' :=
      if st.clientID == "" then (if q.shadow.None? || st.lastSent > q.lastSent then q.(shadow := Some(st.id)) else q)
      else q.(members := q.members + [st.id]);
    q'.(lastSent := Max(q.lastSent, st.lastSent))
  }

  const NEW_QUEUE := Queue(0, [], None)

  // ---------- Restoring a list of them ----------

  function Subs(clients: set<string>, es: seq<Entry>): map<nat, Sub> {
    if es == [] then map[]
    else
      var n := |es| - 1;
      var r := Subs(clients, es[..n]);
      if KindOf(clients, es[n].state) == Dropped then r else r[es[n].state.id := SubOf(clients, es[n])]
  }

  function Psubs(clients: set<string>, es: seq<Entry>): seq<nat> {
    if es == [] then []
    else
      var n := |es| - 1;
      Psubs(clients, es[..n]) + if KindOf(clients, es[n].state) == Plain then [es[n].state.id] else []
  }

  function Durables(clients: set<string>, subject: string, es: seq<Entry>): map<string, nat> {
    if es == [] then map[]
    else
      var n := |es| - 1;
      var r, st := Durables(clients, subject, es[..n]), es[n].state;
      if st.durableName != "" && (KindOf(clients, st) == Offline || KindOf(clients, st) == Plain)
      then r[DurableKey(st.clientID, subject, st.durableName) := st.id] else r
  }

  function Queues(clients: set<string>, es: seq<Entry>): map<string, Queue> {
    if es == [] then map[]
    else
      var n := |es| - 1;
      var r, st := Queues(clients, es[..n]), es[n].state;
      if KindOf(clients, st) == Queued
      then r[st.qgroup := Joined(if st.qgroup in r then r[st.qgroup] else NEW_QUEUE, st)] else r
  }

  function NextID(es: seq<Entry>, from: nat): nat {
    if es == [] then from else Max(NextID(es[..|es| - 1], from), es[|es| - 1].state.id + 1)
  }

  // ---------- A server's state, and its snapshot ----------

  /** The clients and one channel's subscriptions; `subs` holds every subscription by its ID. */
  datatype Server = Server(clients: map<string, string>, subs: map<nat, Sub>, psubs: seq<nat>,
                           durables: map<string, nat>, qsubs: map<string, Queue>, nextSubID: nat)

  /** What a snapshot saves of a subscription: with the position of its group, and with the client that closed it. */
  function EntryOf(s: Server, id: nat): Entry
    requires id in s.subs
  {
    var sub := s.subs[id];
    var st := sub.state;
    if st.qgroup != "" && st.qgroup in s.qsubs
      then Entry(st.(lastSent := Max(st.lastSent, s.qsubs[st.qgroup].lastSent)), sub.pending)
    else if st.isClosed then Entry(st.(clientID := sub.savedClientID), sub.pending)
    else Entry(st, sub.pending)
  }

  function Entries(s: Server, ids: seq<nat>): (es: seq<Entry>)
    requires forall i :: 0 <= i < |ids| ==> ids[i] in s.subs
    ensures |es| == |ids| && forall i :: 0 <= i < |ids| ==> es[i] == EntryOf(s, ids[i])
  {
    seq(|ids|, i requires 0 <= i < |ids| => EntryOf(s, ids[i]))
  }

  /** The subscriptions of a group, as they are saved. */
  function GroupIDs(q: Queue): seq<nat> {
    q.members + if q.shadow.Some? then [q.shadow.value] else []
  }

  // ---------- Well-formed servers ----------

  /** An online plain subscription, durable or not, of a registered client. */
  predicate PlainOk(s: Server, id: nat) {
    id in s.subs &&
    var st := s.subs[id].state;
    st.id == id && st.qgroup == "" && st.clientID in s.clients && !st.isClosed
      && (st.isDurable <==> st.durableName != "")
  }

  /** A durable subscription that was closed, and waits for its client. */
  predicate ClosedOk(s: Server, id: nat) {
    id in s.subs &&
    var st := s.subs[id].state;
    st.id == id && st.qgroup == "" && st.clientID == "" && st.isClosed && st.isDurable && st.durableName != ""
  }

  /** The group is as far as its subscription. */
  predicate Reached(sub: Sub, lastSent: nat) {
    sub.state.lastSent <= lastSent && forall x :: x in sub.pending ==> x <= lastSent
  }

  predicate MemberOk(s: Server, g: string, id: nat) {
    id in s.subs && g in s.qsubs && g != "" &&
    var st := s.subs[id].state;
    && st.id == id && st.qgroup == g && st.clientID != "" && st.clientID in s.clients && st.durableName == ""
      && !st.isClosed
    && Reached(s.subs[id], s.qsubs[g].lastSent)
  }

  predicate ShadowOk(s: Server, g: string, id: nat) {
    id in s.subs && g in s.qsubs && g != "" &&
    var st := s.subs[id].state;
    && st.id == id && st.qgroup == g && st.clientID == "" && st.isDurable && st.durableName == "" && !st.isClosed
    && Reached(s.subs[id], s.qsubs[g].lastSent)
  }

  /** A group has members, or a shadow in their place. */
  ghost predicate QueueOk(s: Server, g: string) {
    g in s.qsubs && (s.qsubs[g].members != [] || s.qsubs[g].shadow.Some?)
    && (forall i :: 0 <= i < |s.qsubs[g].members| ==> MemberOk(s, g, s.qsubs[g].members[i]))
    && (s.qsubs[g].shadow.Some? ==> ShadowOk(s, g, s.qsubs[g].shadow.value))
  }

  /** What is kept under a durable key: an online subscription, a closed one, or one that its client gave up. */
  predicate DurableOk(s: Server, id: nat) {
    id in s.subs &&
    var st := s.subs[id].state;
    && st.id == id && st.qgroup == "" && st.isDurable && st.durableName != ""
    && (id in s.psubs || st.clientID == "") && (st.isClosed ==> st.clientID == "")
  }

  ghost predicate WellFormed(s: Server) {
    && "" !in s.clients && s.nextSubID > 0
    && (forall i :: 0 <= i < |s.psubs| ==> PlainOk(s, s.psubs[i]))
    && (forall k :: k in s.durables ==> DurableOk(s, s.durables[k]))
    && (forall g :: g in s.qsubs ==> QueueOk(s, g))
    && (forall id :: id in s.subs ==> id < s.nextSubID)
  }

  // ---------- Durable keys ----------

  /** The client that a durable subscription belongs to, online or not. */
  function OwnerOf(sub: Sub): string {
    if sub.state.isClosed then sub.savedClientID else sub.state.clientID
  }

  /** The key made of the client of a durable, the subject and its name. */
  function OwnKey(s: Server, subject: string, id: nat): string
    requires id in s.subs
  {
    DurableKey(OwnerOf(s.subs[id]), subject, s.subs[id].state.durableName)
  }

  predicate IsDurable(s: Server, id: nat) {
    id in s.subs && s.subs[id].state.durableName != ""
  }

  /** The subscription kept under `k` has that key, and is online or closed. */
  predicate UnderOwnKey(s: Server, subject: string, k: string) {
    && k in s.durables && s.durables[k] in s.subs && k == OwnKey(s, subject, s.durables[k])
    && (s.subs[s.durables[k]].state.isClosed || s.durables[k] in s.psubs)
  }

  /** No online durable after number `i` has the same key. */
  predicate LastOfKey(s: Server, subject: string, i: nat)
    requires forall j :: 0 <= j < |s.psubs| ==> s.psubs[j] in s.subs
    requires i < |s.psubs|
  {
    forall j :: i < j < |s.psubs| && IsDurable(s, s.psubs[j]) ==>
        OwnKey(s, subject, s.psubs[j]) != OwnKey(s, subject, s.psubs[i])
  }

  /** Under the key of the subscription there is the subscription itself, or a closed one. */
  predicate KeyTaken(s: Server, subject: string, id: nat)
    requires id in s.subs
  {
    var k := OwnKey(s, subject, id);
    k in s.durables && s.durables[k] in s.subs && (s.durables[k] == id || s.subs[s.durables[k]].state.isClosed)
  }

  /**
   Every durable is kept under its own key; where online durables have the same key, this is asked of the last of them.
   */
  ghost predicate KeysOwn(s: Server, subject: string) {
    && (forall k :: k in s.durables ==> UnderOwnKey(s, subject, k))
    && (forall i :: 0 <= i < |s.psubs| ==> s.psubs[i] in s.subs)
    && (forall i :: 0 <= i < |s.psubs| && IsDurable(s, s.psubs[i]) && LastOfKey(s, subject, i) ==>
        KeyTaken(s, subject, s.psubs[i]))
  }

  // ---------- What each kind of subscription becomes ----------

  lemma PlainKind(s: Server, id: nat)
    requires PlainOk(s, id)
    ensures EntryOf(s, id).state == s.subs[id].state || s.subs[id].state.qgroup != ""
    ensures "" !in s.clients ==> KindOf(s.clients.Keys, EntryOf(s, id).state) == Plain
    ensures "" !in s.clients ==> SubOf(s.clients.Keys, EntryOf(s, id)) == Sub(s.subs[id].state, s.subs[id].pending, "")
  {
  }

  lemma ClosedKind(s: Server, id: nat)
    requires ClosedOk(s, id)
    ensures KindOf(s.clients.Keys, EntryOf(s, id).state) == Offline
            && SubOf(s.clients.Keys, EntryOf(s, id)) == s.subs[id]
  {
  }

  lemma MemberKind(s: Server, g: string, id: nat)
    requires MemberOk(s, g, id) || ShadowOk(s, g, id)
    requires "" !in s.clients
    ensures var e := EntryOf(s, id);
            && e.state == s.subs[id].state.(lastSent := s.qsubs[g].lastSent)
              && KindOf(s.clients.Keys, e.state) == Queued
            && SubOf(s.clients.Keys, e) == Sub(s.subs[id].state.(lastSent := s.qsubs[g].lastSent), s.subs[id].pending,
                                               "")
  {
  }

  // ---------- The pieces of the list ----------

  lemma {:induction false} PsubsAppend(clients: set<string>, a: seq<Entry>, b: seq<Entry>)
    ensures Psubs(clients, a + b) == Psubs(clients, a) + Psubs(clients, b)
    decreases |b|
  {
    if b == [] {
      assert a + b == a;
    } else {
      var n := |b| - 1;
      assert (a + b)[..|a + b| - 1] == a + b[..n];
      PsubsAppend(clients, a, b[..n]);
    }
  }

  lemma {:induction false} PsubsOfPlain(s: Server, ids: seq<nat>)
    requires "" !in s.clients && forall i :: 0 <= i < |ids| ==> ids[i] in s.subs && PlainOk(s, ids[i])
    ensures Psubs(s.clients.Keys, Entries(s, ids)) == ids
    decreases |ids|
  {
    if ids != [] {
      var n := |ids| - 1;
      assert Entries(s, ids)[..n] == Entries(s, ids[..n]);
      PsubsOfPlain(s, ids[..n]);
      PlainKind(s, ids[n]);
      assert ids == ids[..n] + [ids[n]];
    }
  }

  lemma {:induction false} PsubsOfOthers(clients: set<string>, es: seq<Entry>)
    requires forall i :: 0 <= i < |es| ==> KindOf(clients, es[i].state) != Plain
    ensures Psubs(clients, es) == []
    decreases |es|
  {
    if es != [] {
      PsubsOfOthers(clients, es[..|es| - 1]);
    }
  }

  /** The entries are those that the server saves for its subscriptions, and none is dropped on a restore. */
  ghost predicate Saved(s: Server, es: seq<Entry>) {
    forall i :: 0 <= i < |es| ==>
      && es[i].state.id in s.subs && es[i] == EntryOf(s, es[i].state.id)
        && KindOf(s.clients.Keys, es[i].state) != Dropped
  }

  /** Nothing but the subscription itself decides what becomes of it, wherever it is in the list. */
  lemma {:induction false} SubsOfEntries(s: Server, es: seq<Entry>, i: nat)
    requires Saved(s, es) && i < |es|
    ensures var r, id := Subs(s.clients.Keys, es), es[i].state.id;
            id in r && r[id] == SubOf(s.clients.Keys, EntryOf(s, id))
    decreases |es|
  {
    var n := |es| - 1;
    if i < n {
      SubsOfEntries(s, es[..n], i);
    }
  }

  lemma {:induction false} NextIDIs(s: Server, es: seq<Entry>)
    requires Saved(s, es) && s.nextSubID > 0 && forall id :: id in s.subs ==> id < s.nextSubID
    ensures Max(NextID(es, 1), s.nextSubID) == s.nextSubID
    decreases |es|
  {
    if es != [] {
      NextIDIs(s, es[..|es| - 1]);
    }
  }

  /** An entry that is found by a durable key. */
  predicate Keyed(clients: set<string>, st: SubState) {
    st.durableName != "" && (KindOf(clients, st) == Offline || KindOf(clients, st) == Plain)
  }

  function KeyOf(subject: string, st: SubState): string {
    DurableKey(st.clientID, subject, st.durableName)
  }

  /** Entry `i` is the last one with its key. */
  ghost predicate LastWithKey(clients: set<string>, subject: string, es: seq<Entry>, i: nat) {
    && i < |es| && Keyed(clients, es[i].state)
    && forall j :: i < j < |es| && Keyed(clients, es[j].state) ==>
        KeyOf(subject, es[j].state) != KeyOf(subject, es[i].state)
  }

  /** A restored key comes from the last entry that has it. */
  lemma {:induction false} DurablesFrom(clients: set<string>, subject: string, es: seq<Entry>, k: string)
      returns (i: nat)
    requires k in Durables(clients, subject, es)
    ensures LastWithKey(clients, subject, es, i) && KeyOf(subject, es[i].state) == k
            && Durables(clients, subject, es)[k] == es[i].state.id
    decreases |es|
  {
    var n := |es| - 1;
    if Keyed(clients, es[n].state) && KeyOf(subject, es[n].state) == k {
      i := n;
    } else {
      i := DurablesFrom(clients, subject, es[..n], k);
      assert es[..n][i] == es[i] && forall j :: i < j < n ==> es[..n][j] == es[j];
    }
  }

  lemma {:induction false} DurablesHas(clients: set<string>, subject: string, es: seq<Entry>, i: nat)
    requires i < |es| && Keyed(clients, es[i].state)
    ensures KeyOf(subject, es[i].state) in Durables(clients, subject, es)
    decreases |es|
  {
    if i < |es| - 1 {
      DurablesHas(clients, subject, es[..|es| - 1], i);
    }
  }

  // ---------- Groups ----------

  lemma {:induction false} QueuesOfOthers(clients: set<string>, es: seq<Entry>)
    requires forall i :: 0 <= i < |es| ==> KindOf(clients, es[i].state) != Queued
    ensures Queues(clients, es) == map[]
    decreases |es|
  {
    if es != [] {
      QueuesOfOthers(clients, es[..|es| - 1]);
    }
  }

  /** One more subscription of a group. */
  lemma QueuesPush(clients: set<string>, es: seq<Entry>, e: Entry)
    requires KindOf(clients, e.state) == Queued
    ensures var r, g := Queues(clients, es), e.state.qgroup;
            Queues(clients, es + [e]) == r[g := Joined(if g in r then r[g] else NEW_QUEUE, e.state)]
  {
    assert (es + [e])[..|es|] == es;
  }

  lemma EntriesPush(s: Server, pre: seq<Entry>, ids: seq<nat>, n: nat)
    requires 0 < n <= |ids| && forall i :: 0 <= i < |ids| ==> ids[i] in s.subs
    ensures pre + Entries(s, ids[..n]) == pre + Entries(s, ids[..n - 1]) + [EntryOf(s, ids[n - 1])]
  {
    assert Entries(s, ids[..n]) == Entries(s, ids[..n - 1]) + [EntryOf(s, ids[n - 1])];
  }

  lemma EntriesNone(s: Server, pre: seq<Entry>, ids: seq<nat>)
    requires ids == []
    ensures pre + Entries(s, ids) == pre
  {
  }

  /** A member that joins its group, after others or as the first. */
  lemma MemberJoins(s: Server, g: string, n: nat)
    requires "" !in s.clients && QueueOk(s, g) && 0 < n <= |s.qsubs[g].members|
    ensures var q, id := s.qsubs[g], s.qsubs[g].members[n - 1];
            id in s.subs && var st := EntryOf(s, id).state;
            && KindOf(s.clients.Keys, st) == Queued && st.qgroup == g
            && Joined(if n == 1 then NEW_QUEUE else Queue(q.lastSent, q.members[..n - 1], None), st) ==
              Queue(q.lastSent, q.members[..n], None)
  {
    var q, id := s.qsubs[g], s.qsubs[g].members[n - 1];
    assert MemberOk(s, g, id);
    MemberKind(s, g, id);
    assert q.members[..n] == q.members[..n - 1] + [id];
  }

  lemma {:induction false} QueuesOfMembers(s: Server, pre: seq<Entry>, g: string, n: nat)
    requires "" !in s.clients && QueueOk(s, g) && g !in Queues(s.clients.Keys, pre) && 0 < n <= |s.qsubs[g].members|
    ensures var q := s.qsubs[g];
            Queues(s.clients.Keys, pre + Entries(s, q.members[..n])) ==
              Queues(s.clients.Keys, pre)[g := Queue(q.lastSent, q.members[..n], None)]
    decreases n
  {
    var q, clients := s.qsubs[g], s.clients.Keys;
    var before, e := pre + Entries(s, q.members[..n - 1]), EntryOf(s, q.members[n - 1]);
    MemberJoins(s, g, n);
    EntriesPush(s, pre, q.members, n);
    QueuesPush(clients, before, e);
    if n == 1 {
      EntriesNone(s, pre, q.members[..0]);
    } else {
      QueuesOfMembers(s, pre, g, n - 1);
    }
    Twice(Queues(clients, pre), g, Queue(q.lastSent, q.members[..n - 1], None),
          Queue(q.lastSent, q.members[..n], None));
  }

  lemma Twice(m: map<string, Queue>, g: string, a: Queue, b: Queue)
    ensures m[g := a][g := b] == m[g := b]
  {
  }

  /** All members of a group, of which there may be none. */
  lemma QueuesOfAllMembers(s: Server, pre: seq<Entry>, g: string)
    requires "" !in s.clients && QueueOk(s, g) && g !in Queues(s.clients.Keys, pre)
    ensures var q, r := s.qsubs[g], Queues(s.clients.Keys, pre);
            Queues(s.clients.Keys, pre + Entries(s, q.members)) ==
            if q.members == [] then r else r[g := Queue(q.lastSent, q.members, None)]
  {
    var members := s.qsubs[g].members;
    if members == [] {
      EntriesNone(s, pre, members);
    } else {
      assert members[..|members|] == members;
      QueuesOfMembers(s, pre, g, |members|);
    }
  }

  lemma EntriesAnd(s: Server, pre: seq<Entry>, ids: seq<nat>, id: nat)
    requires id in s.subs && forall i :: 0 <= i < |ids| ==> ids[i] in s.subs
    ensures pre + Entries(s, ids + [id]) == pre + Entries(s, ids) + [EntryOf(s, id)]
  {
    assert Entries(s, ids + [id]) == Entries(s, ids) + [EntryOf(s, id)];
  }

  /** The shadow comes after the members, if there were any. */
  lemma QueuesOfShadow(s: Server, es: seq<Entry>, g: string)
    requires "" !in s.clients && QueueOk(s, g) && s.qsubs[g].shadow.Some?
    requires var q, r := s.qsubs[g], Queues(s.clients.Keys, es);
             if q.members == [] then g !in r else g in r && r[g] == Queue(q.lastSent, q.members, None)
    ensures Queues(s.clients.Keys, es + [EntryOf(s, s.qsubs[g].shadow.value)]) ==
            Queues(s.clients.Keys, es)[g := s.qsubs[g]]
  {
    var id := s.qsubs[g].shadow.value;
    MemberKind(s, g, id);
    QueuesPush(s.clients.Keys, es, EntryOf(s, id));
  }

  lemma QueuesOfGroup(s: Server, pre: seq<Entry>, g: string)
    requires "" !in s.clients && QueueOk(s, g) && g !in Queues(s.clients.Keys, pre)
    ensures forall i :: 0 <= i < |GroupIDs(s.qsubs[g])| ==> GroupIDs(s.qsubs[g])[i] in s.subs
    ensures Queues(s.clients.Keys, pre + Entries(s, GroupIDs(s.qsubs[g]))) ==
            Queues(s.clients.Keys, pre)[g := s.qsubs[g]]
  {
    var q := s.qsubs[g];
    GroupIDsKnown(s, g);
    QueuesOfAllMembers(s, pre, g);
    if q.shadow.Some? {
      EntriesAnd(s, pre, q.members, q.shadow.value);
      ShadowLast(s, pre, g);
    } else {
      assert GroupIDs(q) == q.members;
    }
  }

  lemma ShadowLast(s: Server, pre: seq<Entry>, g: string)
    requires "" !in s.clients && QueueOk(s, g) && g !in Queues(s.clients.Keys, pre) && s.qsubs[g].shadow.Some?
    ensures var q, r := s.qsubs[g], Queues(s.clients.Keys, pre);
            Queues(s.clients.Keys, pre + Entries(s, q.members) + [EntryOf(s, q.shadow.value)]) == r[g := q]
  {
    QueuesOfAllMembers(s, pre, g);
    QueuesOfShadow(s, pre + Entries(s, s.qsubs[g].members), g);
  }

  lemma GroupIDsKnown(s: Server, g: string)
    requires QueueOk(s, g)
    ensures forall i :: 0 <= i < |GroupIDs(s.qsubs[g])| ==>
              GroupIDs(s.qsubs[g])[i] in s.subs
                && (MemberOk(s, g, GroupIDs(s.qsubs[g])[i]) || ShadowOk(s, g, GroupIDs(s.qsubs[g])[i]))
  {
  }

  function GroupsOf(s: Server, groups: seq<string>): (r: map<string, Queue>)
    requires forall i :: 0 <= i < |groups| ==> groups[i] in s.qsubs
    ensures forall g :: g in r <==> g in groups
    ensures forall g :: g in r ==> r[g] == s.qsubs[g]
  {
    if groups == [] then map[]
    else
      var n := |groups| - 1;
      assert groups == groups[..n] + [groups[n]];
      GroupsOf(s, groups[..n])[groups[n] := s.qsubs[groups[n]]]
  }

  /** What a snapshot saves of a group. */
  function GroupEntries(s: Server, g: string): seq<Entry>
    requires g in s.qsubs && forall i :: 0 <= i < |GroupIDs(s.qsubs[g])| ==> GroupIDs(s.qsubs[g])[i] in s.subs
  {
    Entries(s, GroupIDs(s.qsubs[g]))
  }

  ghost predicate QueuesOk(s: Server) {
    && "" !in s.clients && forall g :: g in s.qsubs ==> QueueOk(s, g)
  }

  ghost function GroupsEntries(s: Server, groups: seq<string>): seq<Entry>
    requires QueuesOk(s) && forall i :: 0 <= i < |groups| ==> groups[i] in s.qsubs
  {
    if groups == [] then []
    else
      var n := |groups| - 1;
      GroupIDsKnown(s, groups[n]);
      GroupsEntries(s, groups[..n]) + GroupEntries(s, groups[n])
  }

  /** Restored in any order, the groups are those that were saved. */
  lemma {:induction false} QueuesOfGroups(s: Server, pre: seq<Entry>, groups: seq<string>)
    requires QueuesOk(s) && NoDoubles(groups) && Queues(s.clients.Keys, pre) == map[]
    requires forall i :: 0 <= i < |groups| ==> groups[i] in s.qsubs
    ensures Queues(s.clients.Keys, pre + GroupsEntries(s, groups)) == GroupsOf(s, groups)
    decreases |groups|
  {
    if groups == [] {
      assert pre + GroupsEntries(s, groups) == pre;
    } else {
      var rest, g := groups[..|groups| - 1], groups[|groups| - 1];
      QueuesOfGroups(s, pre, rest);
      QueuesOfGroup(s, pre + GroupsEntries(s, rest), g);
      GroupIDsKnown(s, g);
      Associative(pre, GroupsEntries(s, rest), GroupEntries(s, g));
    }
  }

  lemma {:induction false} GroupsSaved(s: Server, groups: seq<string>)
    requires QueuesOk(s) && forall i :: 0 <= i < |groups| ==> groups[i] in s.qsubs
    ensures Saved(s, GroupsEntries(s, groups))
    ensures forall i :: 0 <= i < |GroupsEntries(s, groups)| ==>
              KindOf(s.clients.Keys, GroupsEntries(s, groups)[i].state) == Queued
                && GroupsEntries(s, groups)[i].state.durableName == ""
    decreases |groups|
  {
    if groups != [] {
      var g := groups[|groups| - 1];
      GroupsSaved(s, groups[..|groups| - 1]);
      GroupIDsKnown(s, g);
      var ids := GroupIDs(s.qsubs[g]);
      forall i | 0 <= i < |ids|
        ensures var e := GroupEntries(s, g)[i];
                e.state.id == ids[i] && e == EntryOf(s, ids[i]) && KindOf(s.clients.Keys, e.state) == Queued
                  && e.state.durableName == ""
      {
        MemberKind(s, g, ids[i]);
      }
    }
  }

  // ---------- The round trip ----------

  /** The closed durables and the groups, each group once, in any order. */
  ghost predicate Covers(s: Server, closed: seq<nat>, groups: seq<string>) {
    && (forall i :: 0 <= i < |closed| ==>
        ClosedOk(s, closed[i]) && exists k :: k in s.durables && s.durables[k] == closed[i])
    && (forall k :: k in s.durables && s.durables[k] in s.subs && s.subs[s.durables[k]].state.isClosed ==>
        s.durables[k] in closed)
    && (forall g :: g in s.qsubs <==> g in groups) && NoDoubles(groups)
  }

  /** The subscriptions in a snapshot. */
  ghost function List(s: Server, closed: seq<nat>, groups: seq<string>): seq<Entry>
    requires WellFormed(s) && Covers(s, closed, groups)
  {
    Entries(s, s.psubs) + Entries(s, closed) + GroupsEntries(s, groups)
  }

  lemma PlainsSaved(s: Server, closed: seq<nat>, groups: seq<string>)
    requires WellFormed(s) && Covers(s, closed, groups)
    ensures forall i :: 0 <= i < |s.psubs| ==> KindOf(s.clients.Keys, Entries(s, s.psubs)[i].state) == Plain
    ensures forall i :: 0 <= i < |closed| ==> KindOf(s.clients.Keys, Entries(s, closed)[i].state) == Offline
    ensures Saved(s, Entries(s, s.psubs)) && Saved(s, Entries(s, closed))
  {
    forall i | 0 <= i < |s.psubs|
      ensures var e := Entries(s, s.psubs)[i]; e == EntryOf(s, e.state.id) && KindOf(s.clients.Keys, e.state) == Plain
    {
      PlainKind(s, s.psubs[i]);
    }
    forall i | 0 <= i < |closed|
      ensures var e := Entries(s, closed)[i]; e == EntryOf(s, e.state.id) && KindOf(s.clients.Keys, e.state) == Offline
    {
      ClosedKind(s, closed[i]);
    }
  }

  lemma AllSaved(s: Server, closed: seq<nat>, groups: seq<string>)
    requires WellFormed(s) && Covers(s, closed, groups)
    ensures Saved(s, List(s, closed, groups))
  {
    PlainsSaved(s, closed, groups);
    GroupsSaved(s, groups);
  }

  lemma RestoredPsubs(s: Server, closed: seq<nat>, groups: seq<string>)
    requires WellFormed(s) && Covers(s, closed, groups)
    ensures Psubs(s.clients.Keys, List(s, closed, groups)) == s.psubs
  {
    var a, b, c := Entries(s, s.psubs), Entries(s, closed), GroupsEntries(s, groups);
    PlainsSaved(s, closed, groups);
    GroupsSaved(s, groups);
    PsubsOfPlain(s, s.psubs);
    PsubsOfOthers(s.clients.Keys, b);
    PsubsOfOthers(s.clients.Keys, c);
    PsubsAppend(s.clients.Keys, a, b);
    PsubsAppend(s.clients.Keys, a + b, c);
  }

  lemma RestoredQueues(s: Server, closed: seq<nat>, groups: seq<string>)
    requires WellFormed(s) && Covers(s, closed, groups)
    ensures Queues(s.clients.Keys, List(s, closed, groups)) == s.qsubs
  {
    var pre := Entries(s, s.psubs) + Entries(s, closed);
    NothingQueued(s, closed, groups);
    QueuesOfGroups(s, pre, groups);
    AllGroups(s, groups);
  }

  /** Online and closed subscriptions make no group. */
  lemma NothingQueued(s: Server, closed: seq<nat>, groups: seq<string>)
    requires WellFormed(s) && Covers(s, closed, groups)
    ensures Queues(s.clients.Keys, Entries(s, s.psubs) + Entries(s, closed)) == map[]
  {
    PlainsSaved(s, closed, groups);
    QueuesOfOthers(s.clients.Keys, Entries(s, s.psubs) + Entries(s, closed));
  }

  lemma AllGroups(s: Server, groups: seq<string>)
    requires forall g :: g in s.qsubs <==> g in groups
    ensures GroupsOf(s, groups) == s.qsubs
  {
  }

  // ---------- Which keys a restore gives ----------

  /** The entry of a subscription outside the groups has its key. */
  ghost predicate EntryKeyed(s: Server, subject: string, st: SubState, id: nat) {
    && id in s.subs && st.id == id && KeyOf(subject, st) == OwnKey(s, subject, id)
    && (Keyed(s.clients.Keys, st) <==> IsDurable(s, id))
  }

  lemma PlainKeyed(s: Server, subject: string, id: nat)
    requires PlainOk(s, id) && "" !in s.clients
    ensures EntryKeyed(s, subject, EntryOf(s, id).state, id)
  {
    PlainKind(s, id);
  }

  lemma ClosedKeyed(s: Server, subject: string, id: nat)
    requires ClosedOk(s, id)
    ensures EntryKeyed(s, subject, EntryOf(s, id).state, id)
  {
    ClosedKind(s, id);
  }

  /** The key of an entry is that of its subscription; only entries outside the groups are found by a key. */
  lemma EntryAt(s: Server, subject: string, closed: seq<nat>, groups: seq<string>, i: nat)
    requires WellFormed(s) && Covers(s, closed, groups) && i < |List(s, closed, groups)|
    ensures var st := List(s, closed, groups)[i].state;
            if i < |s.psubs + closed| then EntryKeyed(s, subject, st, (s.psubs + closed)[i])
            else !Keyed(s.clients.Keys, st)
  {
    if i < |s.psubs| {
      PlainKeyed(s, subject, s.psubs[i]);
    } else if i < |s.psubs + closed| {
      ClosedKeyed(s, subject, closed[i - |s.psubs|]);
    } else {
      GroupsSaved(s, groups);
      InList(s, closed, groups, i - |s.psubs + closed|);
    }
  }

  /** A key that a restore gives is that of the last durable that has it: an online one, or a closed one. */
  lemma RestoredKey(s: Server, subject: string, closed: seq<nat>, groups: seq<string>, k: string) returns (i: nat)
    requires WellFormed(s) && Covers(s, closed, groups)
             && k in Durables(s.clients.Keys, subject, List(s, closed, groups))
    ensures i < |s.psubs + closed| && LastDurable(s, subject, s.psubs + closed, i)
    ensures var id := (s.psubs + closed)[i];
            OwnKey(s, subject, id) == k && Durables(s.clients.Keys, subject, List(s, closed, groups))[k] == id
  {
    var es := List(s, closed, groups);
    i := DurablesFrom(s.clients.Keys, subject, es, k);
    EntryAt(s, subject, closed, groups, i);
    forall j | i < j < |s.psubs + closed|
      ensures var id := (s.psubs + closed)[j]; id in s.subs && (IsDurable(s, id) ==> OwnKey(s, subject, id) != k)
    {
      EntryAt(s, subject, closed, groups, j);
    }
  }

  /** A durable, and none after it has the same key. */
  ghost predicate LastDurable(s: Server, subject: string, ids: seq<nat>, i: nat) {
    && i < |ids| && IsDurable(s, ids[i])
    && forall j :: i < j < |ids| && IsDurable(s, ids[j]) ==> OwnKey(s, subject, ids[j]) != OwnKey(s, subject, ids[i])
  }

  lemma RestoredHas(s: Server, subject: string, closed: seq<nat>, groups: seq<string>, i: nat)
    requires WellFormed(s) && Covers(s, closed, groups) && i < |s.psubs + closed| && IsDurable(s, (s.psubs + closed)[i])
    ensures OwnKey(s, subject, (s.psubs + closed)[i]) in Durables(s.clients.Keys, subject, List(s, closed, groups))
  {
    EntryAt(s, subject, closed, groups, i);
    DurablesHas(s.clients.Keys, subject, List(s, closed, groups), i);
  }

  /** If the keys stay the same, the durables were under their own keys. */
  lemma SameKeysOwn(s: Server, subject: string, closed: seq<nat>, groups: seq<string>)
    requires WellFormed(s) && Covers(s, closed, groups)
    requires Durables(s.clients.Keys, subject, List(s, closed, groups)) == s.durables
    ensures KeysOwn(s, subject)
  {
    forall k | k in s.durables ensures UnderOwnKey(s, subject, k) {
      var i := RestoredKey(s, subject, closed, groups, k);
    }
    forall i | 0 <= i < |s.psubs| && IsDurable(s, s.psubs[i]) && LastOfKey(s, subject, i)
      ensures KeyTaken(s, subject, s.psubs[i])
    {
      SameKeyTaken(s, subject, closed, groups, i);
    }
  }

  lemma SameKeyTaken(s: Server, subject: string, closed: seq<nat>, groups: seq<string>, i: nat)
    requires WellFormed(s) && Covers(s, closed, groups)
    requires Durables(s.clients.Keys, subject, List(s, closed, groups)) == s.durables
    requires i < |s.psubs| && IsDurable(s, s.psubs[i]) && LastOfKey(s, subject, i)
    ensures KeyTaken(s, subject, s.psubs[i])
  {
    assert (s.psubs + closed)[i] == s.psubs[i];
    RestoredHas(s, subject, closed, groups, i);
    var j := RestoredKey(s, subject, closed, groups, OwnKey(s, subject, s.psubs[i]));
    if j < |s.psubs| {
      assert (s.psubs + closed)[j] == s.psubs[j];
    } else {
      assert ClosedOk(s, closed[j - |s.psubs|]);
    }
  }

  lemma ClosedAt(s: Server, subject: string, closed: seq<nat>, groups: seq<string>, k: string) returns (j: nat)
    requires WellFormed(s) && Covers(s, closed, groups) && KeysOwn(s, subject)
    requires k in s.durables && s.durables[k] in s.subs && s.subs[s.durables[k]].state.isClosed
    ensures |s.psubs| <= j < |s.psubs + closed|
    ensures IsDurable(s, (s.psubs + closed)[j]) && OwnKey(s, subject, (s.psubs + closed)[j]) == k
  {
    assert UnderOwnKey(s, subject, k) && DurableOk(s, s.durables[k]);
    var c :| 0 <= c < |closed| && closed[c] == s.durables[k];
    j := |s.psubs| + c;
  }

  /** A durable that is the last of its key is the one that is kept under it. */
  lemma OwnKeyed(s: Server, subject: string, closed: seq<nat>, groups: seq<string>, i: nat)
    requires WellFormed(s) && Covers(s, closed, groups) && KeysOwn(s, subject)
             && LastDurable(s, subject, s.psubs + closed, i)
    ensures var id := (s.psubs + closed)[i]; var k := OwnKey(s, subject, id); k in s.durables && s.durables[k] == id
  {
    var ids, n := s.psubs + closed, |s.psubs|;
    if i < n {
      forall j | i < j < n && IsDurable(s, s.psubs[j]) ensures OwnKey(s, subject, s.psubs[j]) != OwnKey(s, subject,
          s.psubs[i]) {
        assert ids[j] == s.psubs[j];
      }
      assert LastOfKey(s, subject, i) && KeyTaken(s, subject, s.psubs[i]);
      var k := OwnKey(s, subject, s.psubs[i]);
      if s.durables[k] != s.psubs[i] {
        var j := ClosedAt(s, subject, closed, groups, k);
      }
    } else {
      var k :| k in s.durables && s.durables[k] == closed[i - n];
      assert UnderOwnKey(s, subject, k);
    }
  }

  lemma OwnKeysSame(s: Server, subject: string, closed: seq<nat>, groups: seq<string>)
    requires WellFormed(s) && Covers(s, closed, groups) && KeysOwn(s, subject)
    ensures Durables(s.clients.Keys, subject, List(s, closed, groups)) == s.durables
  {
    var r := Durables(s.clients.Keys, subject, List(s, closed, groups));
    forall k | k in r ensures k in s.durables && r[k] == s.durables[k] {
      var i := RestoredKey(s, subject, closed, groups, k);
      OwnKeyed(s, subject, closed, groups, i);
    }
    forall k | k in s.durables ensures k in r {
      var i := KeptAt(s, subject, closed, groups, k);
      RestoredHas(s, subject, closed, groups, i);
    }
  }

  lemma KeptAt(s: Server, subject: string, closed: seq<nat>, groups: seq<string>, k: string) returns (i: nat)
    requires WellFormed(s) && Covers(s, closed, groups) && KeysOwn(s, subject) && k in s.durables
    ensures i < |s.psubs + closed| && IsDurable(s, (s.psubs + closed)[i])
            && OwnKey(s, subject, (s.psubs + closed)[i]) == k
  {
    var id := s.durables[k];
    assert UnderOwnKey(s, subject, k) && DurableOk(s, id);
    assert id in s.psubs + closed;
    i :| 0 <= i < |s.psubs + closed| && (s.psubs + closed)[i] == id;
  }

  // ---------- What is the same after a restore ----------

  /** A plain subscription that is online: its state and what it has pending. */
  predicate SamePlain(s: Server, r: Server, id: nat) {
    id in s.subs && id in r.subs && r.subs[id].state == s.subs[id].state && r.subs[id].pending == s.subs[id].pending
  }

  /** A closed durable: also the client that it waits for. */
  predicate SameClosed(s: Server, r: Server, id: nat) {
    id in s.subs && id in r.subs && r.subs[id] == s.subs[id]
  }

  /** A member of a group, or its shadow: the position is then that of the group. */
  predicate SameInGroup(s: Server, r: Server, g: string, id: nat) {
    g in s.qsubs && id in s.subs && id in r.subs
    && r.subs[id].state == s.subs[id].state.(lastSent := s.qsubs[g].lastSent)
      && r.subs[id].pending == s.subs[id].pending
  }

  ghost predicate SameSubs(s: Server, r: Server) {
    && (forall i :: 0 <= i < |s.psubs| ==> SamePlain(s, r, s.psubs[i]))
    && (forall k :: k in s.durables && s.durables[k] in s.subs && s.subs[s.durables[k]].state.isClosed ==>
        SameClosed(s, r, s.durables[k]))
    && (forall g, i :: g in s.qsubs && 0 <= i < |GroupIDs(s.qsubs[g])| ==>
        SameInGroup(s, r, g, GroupIDs(s.qsubs[g])[i]))
  }

  /** The clients, the subscriptions and how they are found, the groups and the next ID. */
  ghost predicate Same(s: Server, r: Server) {
    && r.clients == s.clients && r.psubs == s.psubs && r.durables == s.durables && r.qsubs == s.qsubs
      && r.nextSubID == s.nextSubID
    && SameSubs(s, r)
  }

  /** What a restore builds from a snapshot, in an empty server. */
  ghost function Restored(clients: map<string, string>, subject: string, es: seq<Entry>, nextSubID: nat): Server {
    Server(clients, Subs(clients.Keys, es), Psubs(clients.Keys, es), Durables(clients.Keys, subject, es),
           Queues(clients.Keys, es),
           Max(NextID(es, 1), nextSubID))
  }

  lemma {:induction false} GroupEntryIn(s: Server, groups: seq<string>, g: string, i: nat) returns (j: nat)
    requires QueuesOk(s) && (forall k :: 0 <= k < |groups| ==> groups[k] in s.qsubs) && g in groups
             && i < |GroupIDs(s.qsubs[g])|
    ensures j < |GroupsEntries(s, groups)| && GroupIDs(s.qsubs[g])[i] in s.subs
            && GroupsEntries(s, groups)[j] == EntryOf(s, GroupIDs(s.qsubs[g])[i])
    decreases |groups|
  {
    var n := |groups| - 1;
    GroupIDsKnown(s, groups[n]);
    if groups[n] == g {
      j := |GroupsEntries(s, groups[..n])| + i;
    } else {
      assert groups == groups[..n] + [groups[n]];
      j := GroupEntryIn(s, groups[..n], g, i);
    }
  }

  /** The subscription of an entry in the list. */
  lemma SubAt(s: Server, closed: seq<nat>, groups: seq<string>, at: nat)
    requires WellFormed(s) && Covers(s, closed, groups) && at < |List(s, closed, groups)|
    ensures var r, id := Subs(s.clients.Keys, List(s, closed, groups)), List(s, closed, groups)[at].state.id;
            id in s.subs && id in r && r[id] == SubOf(s.clients.Keys, EntryOf(s, id))
  {
    AllSaved(s, closed, groups);
    SubsOfEntries(s, List(s, closed, groups), at);
  }

  lemma InList(s: Server, closed: seq<nat>, groups: seq<string>, j: nat)
    requires WellFormed(s) && Covers(s, closed, groups) && j < |GroupsEntries(s, groups)|
    ensures var at := |s.psubs| + |closed| + j;
            at < |List(s, closed, groups)| && List(s, closed, groups)[at] == GroupsEntries(s, groups)[j]
  {
  }

  lemma InGroupIs(s: Server, closed: seq<nat>, groups: seq<string>, r: Server, g: string, i: nat)
    requires WellFormed(s) && Covers(s, closed, groups) && g in s.qsubs && i < |GroupIDs(s.qsubs[g])|
    requires r.subs == Subs(s.clients.Keys, List(s, closed, groups))
    ensures SameInGroup(s, r, g, GroupIDs(s.qsubs[g])[i])
  {
    var j := GroupEntryIn(s, groups, g, i);
    GroupIDsKnown(s, g);
    MemberKind(s, g, GroupIDs(s.qsubs[g])[i]);
    InList(s, closed, groups, j);
    SubAt(s, closed, groups, |s.psubs| + |closed| + j);
  }

  lemma PlainIs(s: Server, closed: seq<nat>, groups: seq<string>, r: Server, i: nat)
    requires WellFormed(s) && Covers(s, closed, groups) && i < |s.psubs|
    requires r.subs == Subs(s.clients.Keys, List(s, closed, groups))
    ensures SamePlain(s, r, s.psubs[i])
  {
    var es := List(s, closed, groups);
    PlainKind(s, s.psubs[i]);
    assert es[i] == Entries(s, s.psubs)[i];
    SubAt(s, closed, groups, i);
  }

  lemma ClosedIs(s: Server, closed: seq<nat>, groups: seq<string>, r: Server, i: nat)
    requires WellFormed(s) && Covers(s, closed, groups) && i < |closed|
    requires r.subs == Subs(s.clients.Keys, List(s, closed, groups))
    ensures SameClosed(s, r, closed[i])
  {
    var es := List(s, closed, groups);
    ClosedKind(s, closed[i]);
    assert es[|s.psubs| + i] == Entries(s, closed)[i];
    SubAt(s, closed, groups, |s.psubs| + i);
  }

  lemma RestoredSubs(s: Server, closed: seq<nat>, groups: seq<string>, r: Server)
    requires WellFormed(s) && Covers(s, closed, groups)
    requires r.subs == Subs(s.clients.Keys, List(s, closed, groups))
    ensures SameSubs(s, r)
  {
    forall i | 0 <= i < |s.psubs| ensures SamePlain(s, r, s.psubs[i]) {
      PlainIs(s, closed, groups, r, i);
    }
    forall k | k in s.durables && s.durables[k] in s.subs
      && s.subs[s.durables[k]].state.isClosed ensures SameClosed(s, r, s.durables[k]) {
      var i :| 0 <= i < |closed| && closed[i] == s.durables[k];
      ClosedIs(s, closed, groups, r, i);
    }
    forall g, i | g in s.qsubs
      && 0 <= i < |GroupIDs(s.qsubs[g])| ensures SameInGroup(s, r, g, GroupIDs(s.qsubs[g])[i]) {
      InGroupIs(s, closed, groups, r, g, i);
    }
  }

  /**
   A restore into an empty server gives back what was saved, in whatever order the maps were gone through, if and only
   if every durable is kept under its own key.
   */
  lemma RoundTrip(s: Server, subject: string, closed: seq<nat>, groups: seq<string>)
    requires WellFormed(s) && Covers(s, closed, groups)
    ensures Same(s, Restored(s.clients, subject, List(s, closed, groups), s.nextSubID)) <==> KeysOwn(s, subject)
  {
    var es := List(s, closed, groups);
    var r := Restored(s.clients, subject, es, s.nextSubID);
    RestoredPsubs(s, closed, groups);
    RestoredQueues(s, closed, groups);
    RestoredSubs(s, closed, groups, r);
    AllSaved(s, closed, groups);
    NextIDIs(s, es);
    assert Same(s, r) <==> r.durables == s.durables;
    if KeysOwn(s, subject) {
      OwnKeysSame(s, subject, closed, groups);
    }
    if r.durables == s.durables {
      SameKeysOwn(s, subject, closed, groups);
    }
  }
}
