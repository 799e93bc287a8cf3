/** A queue group: delivery to its members, redelivery to others, members that come and go (server/server.go). */
module QueueDelivery {
  import opened Basics
  import opened Delivery
  import opened PlainDelivery
  import opened QueueState

  class QueueGroup {
    const durable: bool
    var members: seq<nat>
    var subs: map<nat, Sub>
    var shadow: Option<Sub>
    var lastSent: nat
    var stalledSubCount: int
    var newOnHold: bool
    var removed: bool
    var msgs: Stored
    /** Where the group starts, what was first delivered to it, in order, and what its clients acknowledged. */
    ghost const start: nat
    ghost var sent: seq<nat>
    ghost var acked: set<nat>
    /** The member on which a message is pending. */
    ghost var owner: map<nat, nat>

    ghost predicate InShape()
      reads this`members, this`subs, this`shadow, this`stalledSubCount, this`lastSent
    {
      Grouped(members, subs, shadow, stalledSubCount) && Behind(subs, shadow, lastSent)
    }

    ghost predicate Valid()
      reads this
    {
      !removed ==> InShape() && Owned(subs, owner) && Conserved(subs, shadow, lastSent, msgs, start, sent, acked)
    }

    constructor (durable: bool, msgs: Stored, lastSent: nat)
      requires msgs.Valid() && lastSent <= msgs.last
      ensures Valid() && !removed && this.durable == durable && this.msgs == msgs && start == lastSent && sent == []
              && acked == {} && members == []
    {
      this.durable, this.msgs, this.lastSent := durable, msgs, lastSent;
      members, subs, shadow, stalledSubCount, newOnHold, removed := [], map[], None, 0, false, false;
      start, sent, acked, owner := lastSent, [], {}, map[];
    }

    /** A member that new messages may go to. */
    predicate Candidate(id: nat)
      reads this`subs
    {
      id in subs && !subs[id].stalled && !subs[id].hasFailedHB
    }

    /**
     Picks the member for the next message: of those that are neither stalled nor missing heartbeats the one with the
     fewest pending messages, else the first. A pick at the head of the list goes to its end.
     */
    method FindBestQueueSub() returns (pick: Option<nat>)
      requires Listed(members, subs)
      modifies this`members
      ensures Listed(members, subs) && |members| == |old(members)|
      ensures pick.None? <==> members == []
      ensures pick.Some? ==> pick.value in subs
      ensures pick.Some? && !Candidate(pick.value) ==> pick.value == old(members)[0] && forall id :: !Candidate(id)
      ensures pick.Some? && Candidate(pick.value) ==>
                forall id :: Candidate(id) ==> |subs[pick.value].pending| <= |subs[id].pending|
    {
      pick := None;
      for i := 0 to |members|
        invariant pick.Some? ==> pick.value in members && Candidate(pick.value)
        invariant forall j :: 0 <= j < i && Candidate(members[j]) ==>
                    pick.Some? && |subs[pick.value].pending| <= |subs[members[j]].pending|
      {
        var id := members[i];
        if Candidate(id) && (pick.None? || |subs[id].pending| < |subs[pick.value].pending|) {
          pick := Some(id);
        }
      }
      if pick.None? && |members| > 0 {
        pick := Some(members[0]);
      }
      if |members| > 1 && pick == Some(members[0]) {
        RotatedListed(members, subs);
        members := members[1..] + [members[0]];
      }
    }

    /** Sends a message to a member, and keeps count of the stalled ones. */
    method SendToMember(id: nat, s: nat, redelivered: bool, force: bool) returns (sent: bool)
      requires InShape() && id in subs
      modifies this`subs, this`stalledSubCount, this`lastSent
      ensures InShape()
      ensures Updated(old(subs), subs, id, s, sent) && (!sent && !force && !redelivered ==> !CanTake(subs[id]))
      ensures sent <==> Accepts(old(subs)[id], redelivered) && (force
                                                                || |old(subs)[id].pending| < old(subs)[id].maxInFlight)
      ensures lastSent == if sent && s !in old(subs)[id].pending then Max(old(lastSent), s) else old(lastSent)
    {
      var r := SendMsgToSub(subs[id], s, redelivered, force);
      sent := r.sent;
      GroupedAfter(members, subs, shadow, stalledSubCount, id, r.sub);
      BehindAfter(subs, shadow, lastSent, id, r.sub);
      if !force && !subs[id].stalled && r.sub.stalled {
        stalledSubCount := stalledSubCount + 1;
      }
      subs := subs[id := r.sub];
      if sent && r.sub.lastSent > lastSent {
        lastSent := r.sub.lastSent;
      }
    }

    method SendMsgToQueueGroup(s: nat, redelivered: bool, force: bool) returns (pick: Option<nat>, sent: bool)
      requires InShape()
      modifies this`members, this`subs, this`stalledSubCount, this`lastSent
      ensures InShape() && |members| == |old(members)|
      ensures pick.None? <==> members == []
      ensures pick.None? ==> !sent && subs == old(subs) && lastSent == old(lastSent)
      ensures pick.Some? ==> Updated(old(subs), subs, pick.value, s, sent)
      ensures pick.Some? && !sent && !force && !redelivered ==> pick.value in subs && !CanTake(subs[pick.value])
      ensures pick.Some? ==> lastSent == if sent && s !in old(subs)[pick.value].pending then Max(old(lastSent), s)
              else old(lastSent)
    {
      sent := false;
      pick := FindBestQueueSub();
      if pick.Some? {
        sent := SendToMember(pick.value, s, redelivered, force);
      }
    }

    /** One turn of the delivery loop: sends the next stored message to a member. */
    method SendNext() returns (more: bool)
      requires Valid() && !removed
      modifies this`members, this`subs, this`stalledSubCount, this`lastSent, this`sent, this`owner
      ensures Valid() && old(lastSent) <= lastSent && |members| == |old(members)|
      ensures more ==> old(lastSent) < lastSent
      ensures !more ==> Served()
      ensures SameOwners(old(owner), owner, old(lastSent)) && old(sent) <= sent
    {
      var next, last := GetNextMsg(msgs, lastSent);
      PassedOver(msgs, start, lastSent, sent, last);
      lastSent := last;
      if next == None {
        return false;
      }
      more := SendNew(next.value);
    }

    method SendNew(s: nat) returns (done: bool)
      requires Valid() && !removed && s == lastSent + 1 && s in msgs.has
      modifies this`members, this`subs, this`stalledSubCount, this`lastSent, this`sent, this`owner
      ensures Valid() && |members| == |old(members)| && lastSent == if done then s else old(lastSent)
      ensures !done ==> Served()
      ensures SameOwners(old(owner), owner, old(lastSent)) && old(sent) <= sent
    {
      var pick;
      pick, done := SendMsgToQueueGroup(s, false, false);
      if done {
        ConservedNext(old(subs), subs, shadow, old(lastSent), msgs, start, sent, acked, pick.value);
        NoteSent(old(subs), old(lastSent), pick.value);
      } else if pick.Some? {
        ConservedAgain(old(subs), subs, shadow, old(lastSent), msgs, start, sent, acked, pick.value, s, false);
        OwnedSame(old(subs), subs, owner, pick.value, s, false);
      }
    }

    /** The message after `before` was delivered to member `id`, which owns it now. */
    ghost method NoteSent(was: map<nat, Sub>, before: nat, id: nat)
      requires InShape() && Owned(was, owner) && Conserved(was, shadow, before, msgs, start, sent, acked)
               && Updated(was, subs, id, before + 1, true)
      requires Conserved(subs, shadow, lastSent, msgs, start, sent + [before + 1], acked)
      modifies this`sent, this`owner
      ensures Valid() && sent == old(sent) + [before + 1] && SameOwners(old(owner), owner, before)
    {
      OwnedNext(was, subs, shadow, before, msgs, start, sent, acked, owner, id);
      sent, owner := sent + [before + 1], owner[before + 1 := id];
    }

    /** Nothing is left to send, or some member cannot take a message. */
    ghost predicate Served()
      reads this`members, this`subs, this`lastSent, this`msgs
    {
      || members == [] || (forall s :: s in msgs.has ==> s <= lastSent)
      || (exists id :: id in subs && !CanTake(subs[id]))
    }

    /** Sends what is stored while some member is not stalled. */
    method SendAvailableMessagesToQueue()
      requires Valid() && !removed
      modifies this`members, this`subs, this`stalledSubCount, this`lastSent, this`sent, this`owner
      ensures Valid() && old(lastSent) <= lastSent && |members| == |old(members)|
      ensures newOnHold || stalledSubCount >= |members| || Served()
      ensures SameOwners(old(owner), owner, old(lastSent)) && old(sent) <= sent
    {
      if |members| == 0 || newOnHold {
        return;
      }
      while stalledSubCount < |members|
        invariant Valid() && old(lastSent) <= lastSent && |members| == |old(members)|
        invariant SameOwners(old(owner), owner, old(lastSent)) && old(sent) <= sent
        decreases msgs.last - lastSent
      {
        var more := SendNext();
        if !more {
          break;
        }
      }
    }

    // ---------- Acknowledgements ----------

    /** A message that is no longer stored, or that another member owns, is no longer pending on this one. */
    method DropPending(id: nat, s: nat)
      requires InShape() && !removed && id in subs && Conserved(subs, shadow, lastSent, msgs, start, sent, acked)
               && OwnedBut(subs, owner, id, s)
      requires s !in msgs.has || exists k :: k in subs && k != id && s in subs[k].pending
      modifies this`subs
      ensures Valid() && subs == old(subs)[id := old(subs)[id].(pending := old(subs)[id].pending - {s})]
    {
      var after := subs[id].(pending := subs[id].pending - {s});
      GroupedAfter(members, subs, shadow, stalledSubCount, id, after);
      ConservedWithout(subs, shadow, lastSent, msgs, start, sent, acked, id, after, s);
      subs := subs[id := after];
    }

    /** A message that a client acknowledged is no longer pending. */
    method AckOn(id: nat, s: nat)
      requires Valid() && !removed && id in subs && s in subs[id].pending
      modifies this`subs, this`acked
      ensures Valid() && acked == old(acked) + {s} && Dropped(old(subs), subs, Some(id), s)
    {
      var after := subs[id].(pending := subs[id].pending - {s});
      GroupedAfter(members, subs, shadow, stalledSubCount, id, after);
      ConservedAcked(subs, lastSent, msgs, start, sent, acked, owner, id, after, s);
      subs, acked := subs[id := after], acked + {s};
    }

    /** Looks for the acknowledged message on the other members. */
    method AckElsewhere(id: nat, s: nat) returns (k: Option<nat>)
      requires Valid() && !removed && id in subs && s !in subs[id].pending
      modifies this`subs, this`acked
      ensures Valid() && Dropped(old(subs), subs, k, s) && acked == old(acked) + if s in sent then {s} else {}
      ensures k != Some(id) && (k.None? ==> forall j :: j in subs ==> s !in subs[j].pending)
    {
      for i := 0 to |members|
        invariant Valid() && subs == old(subs) && acked == old(acked) && forall j :: 0 <= j < i ==>
                    s !in subs[members[j]].pending
      {
        if members[i] != id && s in subs[members[i]].pending {
          k := Some(members[i]);
          SentBefore(subs, shadow, lastSent, msgs, start, sent, acked, members[i], s);
          AckOn(members[i], s);
          return;
        }
      }
      k := None;
      forall j | j in subs ensures s !in subs[j].pending {
        var i :| 0 <= i < |members| && members[i] == j;
      }
      NotPending(subs, s);
      if s in sent {
        ConservedAckedNowhere(subs, shadow, lastSent, msgs, start, sent, acked, s);
        acked := acked + {s};
      }
    }

    /** Takes the message from the member, else from another one if a client acknowledged it. */
    method TakeAck(id: nat, s: nat) returns (k: Option<nat>)
      requires Valid() && !removed && id in subs
      modifies this`subs, this`acked
      ensures Valid() && Dropped(old(subs), subs, k, s) && acked == old(acked) + if s in sent then {s} else {}
      ensures k == Some(id) <==> s in old(subs)[id].pending
      ensures k.None? ==> forall j :: j in subs ==> s !in subs[j].pending
    {
      if s in subs[id].pending {
        k := Some(id);
        SentBefore(subs, shadow, lastSent, msgs, start, sent, acked, id, s);
        AckOn(id, s);
      } else {
        k := AckElsewhere(id, s);
      }
    }

    /** A member with room again is no longer stalled. */
    method Unstall(id: nat)
      requires Valid() && !removed && id in subs && subs[id].stalled
      modifies this`subs, this`stalledSubCount
      ensures Valid() && subs == old(subs)[id := old(subs)[id].(stalled := false)]
    {
      var after := subs[id].(stalled := false);
      GroupedAfter(members, subs, shadow, stalledSubCount, id, after);
      SomeStalled(subs, id);
      PendingSame(subs, shadow, id, after);
      subs := subs[id := after];
      if stalledSubCount > 0 {
        stalledSubCount := stalledSubCount - 1;
      }
    }

    /** A member that has room again gets more messages. */
    method Release(id: nat)
      requires Valid() && !removed && id in subs
      modifies this`members, this`subs, this`stalledSubCount, this`lastSent, this`sent, this`owner
      ensures Valid() && |members| == |old(members)|
      ensures SameOwners(old(owner), owner, old(lastSent)) && old(sent) <= sent
    {
      if subs[id].stalled && |subs[id].pending| < subs[id].maxInFlight {
        Unstall(id);
        SendAvailableMessagesToQueue();
      }
    }

    /**
     An acknowledgement by the client of a member, for a message of any member. From then on the message is pending
     nowhere, and so is never sent again.
     */
    method ProcessAck(id: nat, s: nat)
      requires Valid() && !removed && id in subs
      modifies this`members, this`subs, this`stalledSubCount, this`lastSent, this`sent, this`acked, this`owner
      ensures Valid() && |members| == |old(members)|
      ensures acked == old(acked) + if s in old(sent) then {s} else {}
    {
      var k := TakeAck(id, s);
      Release(id);
    }

    /** The server's own acknowledgement: the message is no longer stored, or another member has taken it over. */
    method ProcessOwnAck(id: nat, s: nat)
      requires InShape() && !removed && id in subs && Conserved(subs, shadow, lastSent, msgs, start, sent, acked)
               && OwnedBut(subs, owner, id, s)
      requires s !in msgs.has || exists k :: k in subs && k != id && s in subs[k].pending
      modifies this`members, this`subs, this`stalledSubCount, this`lastSent, this`sent, this`owner
      ensures Valid() && |members| == |old(members)|
      ensures SameOwners(old(owner), owner, old(lastSent)) && old(sent) <= sent
    {
      DropPending(id, s);
      Release(id);
    }

    // ---------- Redelivery ----------

    /**
     Redelivers one message of a member: to whichever member is picked, which then takes it over. A message that is no
     longer stored is dropped. On startup, a message goes to its own member only.
     */
    method RedeliverOne(id: nat, s: nat, isStartup: bool) returns (to: Option<nat>)
      requires Valid() && !removed && id in subs
      modifies this`members, this`subs, this`stalledSubCount, this`lastSent, this`sent, this`owner
      ensures Valid() && |members| == |old(members)|
      ensures to.Some? ==> s in msgs.has && s in old(subs)[id].pending
      ensures isStartup ==>
                to == if s in msgs.has && s in old(subs)[id].pending && Accepts(old(subs)[id], true) then Some(id)
                  else None
      ensures s in msgs.has && s in old(subs)[id].pending ==>
                var k := if to.Some? then to.value else id; k in subs && s in subs[k].pending
    {
      to := None;
      if s !in msgs.has {
        ProcessOwnAck(id, s);
      } else if s in subs[id].pending {
        if isStartup {
          var again := Resend(id, s);
          to := if again then Some(id) else None;
        } else {
          to := Reassign(id, s);
        }
      }
    }

    method Resend(id: nat, s: nat) returns (again: bool)
      requires Valid() && !removed && id in subs && s in subs[id].pending
      modifies this`subs, this`stalledSubCount, this`lastSent
      ensures Valid() && lastSent == old(lastSent) && (again <==> Accepts(old(subs)[id], true))
      ensures id in subs && s in subs[id].pending
    {
      SentBefore(subs, shadow, lastSent, msgs, start, sent, acked, id, s);
      again := SendToMember(id, s, true, true);
      ConservedAgain(old(subs), subs, shadow, old(lastSent), msgs, start, sent, acked, id, s, again);
      OwnedSame(old(subs), subs, owner, id, s, again);
    }

    method Reassign(id: nat, s: nat) returns (to: Option<nat>)
      requires Valid() && !removed && id in subs && s in subs[id].pending && s in msgs.has
      modifies this`members, this`subs, this`stalledSubCount, this`lastSent, this`sent, this`owner
      ensures Valid() && |members| == |old(members)|
      ensures var k := if to.Some? then to.value else id; k in subs && s in subs[k].pending
    {
      SentBefore(subs, shadow, lastSent, msgs, start, sent, acked, id, s);
      PendingIsSent(subs, shadow, lastSent, msgs, start, sent, acked, owner, id, s);
      to := None;
      var pick, again := SendMsgToQueueGroup(s, true, true);
      ConservedAgain(old(subs), subs, shadow, old(lastSent), msgs, start, sent, acked, pick.value, s, again);
      if pick != Some(id) && again {
        OwnedReassign(old(subs), subs, owner, id, pick.value, s);
        owner := owner[s := pick.value];
        ProcessOwnAck(id, s);
        HeldByOwner(subs, lastSent, msgs, start, sent, acked, owner, s);
        to := pick;
      } else {
        OwnedSame(old(subs), subs, owner, pick.value, s, again);
        to := if again then pick else None;
      }
    }

    // ---------- Members that leave and come ----------

    /** Takes the member out of the list, where the last one takes its place. */
    method DeleteFromList(id: nat)
      requires Listed(members, subs) && id in subs
      modifies this`members, this`subs
      ensures subs == old(subs) - {id} && Listed(members, subs)
    {
      for i := 0 to |members|
        invariant members == old(members) && subs == old(subs) && forall j :: 0 <= j < i ==> members[j] != id
      {
        if members[i] == id {
          ListedWithout(members, subs, i);
          var n := |members| - 1;
          members, subs := members[i := members[n]][..n], subs - {id};
          return;
        }
      }
      assert false;
    }

    /** A member has left, and its pending messages are still counted as its own. */
    ghost predicate Leaving(left: Sub, gone: nat)
      reads this
    {
      HasLeft(Rest(members, stalledSubCount, lastSent, msgs, start, sent, acked, left, gone), subs, owner)
    }

    /**
     Gives the pending messages of the member that left to the others, in turn; returns whether the group's last message
     was among them.
     */
    method Transfer(order: seq<nat>, ghost left: Sub, ghost gone: nat) returns (lastToo: bool)
      requires Leaving(left, gone) && members != [] && Enumerates(order, left.pending)
               && OwnedBy(left.pending, owner, gone)
      modifies this`subs, this`owner
      ensures Leaving(left, gone) && left.pending <= PendingIn(subs, None)
    {
      ghost var rest := Rest(members, stalledSubCount, lastSent, msgs, start, sent, acked, left, gone);
      subs, owner := TransferAll(members, subs, order, rest, owner);
      lastToo := lastSent in order;
    }

    /** The first member takes over the position of the group, if the member that left had it. */
    method KeepLastSent(ghost left: Sub, ghost gone: nat)
      requires Leaving(left, gone) && members != []
      modifies this`subs
      ensures Leaving(left, gone) && PendingIn(subs, None) == PendingIn(old(subs), None)
    {
      var id := members[0];
      var after := subs[id].(lastSent := lastSent);
      GroupedAfter(members, subs, None, stalledSubCount, id, after);
      PendingSame(subs, None, id, after);
      PendingSame(subs, Some(left), id, after);
      subs := subs[id := after];
    }

    /** The rest of the group takes over from a member that left. */
    method TakeOver(left: Sub, order: seq<nat>, ghost gone: nat)
      requires Leaving(left, gone) && members != [] && Enumerates(order, left.pending) && shadow == None && !removed
      requires OwnedBy(left.pending, owner, gone)
      modifies this`subs, this`owner
      ensures Valid() && subs.Keys == old(subs.Keys)
    {
      var lastToo := Transfer(order, left, gone);
      if left.lastSent == lastSent && !lastToo {
        KeepLastSent(left, gone);
      }
      Settled(left, gone);
      SameKeys(members, old(subs), subs);
    }

    /** Nothing depends on the member that left any more. */
    lemma Settled(left: Sub, gone: nat)
      requires Leaving(left, gone) && left.pending <= PendingIn(subs, None) && shadow == None && !removed
      ensures Valid()
    {
      AllTransferred(subs, left, lastSent, msgs, start, sent, acked);
    }

    /** Takes a member out of the group and of the count of the stalled ones. */
    method Leave(id: nat) returns (left: Sub)
      requires Valid() && !removed && id in subs
      modifies this`members, this`subs, this`stalledSubCount
      ensures Leaving(left, id) && left == old(subs)[id].(online := false) && subs == old(subs) - {id}
      ensures OwnedBy(left.pending, owner, id)
    {
      left := subs[id].(online := false);
      StalledWithout(subs, id);
      SomeStalledIf(subs, id);
      ConservedLeft(subs, lastSent, msgs, start, sent, acked, id, left);
      OthersStay(subs, owner, lastSent, id);
      DeleteFromList(id);
      if left.stalled && stalledSubCount > 0 {
        stalledSubCount := stalledSubCount - 1;
      }
    }

    /** The last member of a durable group stays as its shadow. */
    method BecomeShadow(left: Sub, ghost gone: nat)
      requires Leaving(left, gone) && members == [] && !removed
      modifies this`shadow, this`stalledSubCount
      ensures Valid() && shadow == Some(left.(lastSent := lastSent))
    {
      assert subs == map[];
      shadow, stalledSubCount := Some(left.(lastSent := lastSent)), 0;
      PendingOfShadow(left, left.(lastSent := lastSent));
    }

    /**
     A member leaves. Its pending messages go to the other members, in any order. The last member of a durable group
     becomes its shadow, unless it unsubscribes; in all other cases the group is removed with its last member.
     */
    method Remove(id: nat, unsubscribe: bool)
      requires Valid() && !removed && id in subs
      modifies this`members, this`subs, this`stalledSubCount, this`owner, this`shadow, this`removed
      ensures Valid() && subs.Keys == old(subs.Keys) - {id}
      ensures removed <==> old(subs.Keys) == {id} && (!durable || unsubscribe)
      ensures shadow.Some? <==> old(subs.Keys) == {id} && durable && !unsubscribe
    {
      var left := Leave(id);
      LeftKeys(old(subs), subs, id);
      if |members| == 0 {
        NoMembers(members, subs);
        if !durable || unsubscribe {
          removed := true;
        } else {
          BecomeShadow(left, id);
        }
      } else {
        Others(members, subs);
        var order := MakePendingMsgs(left.pending);
        TakeOver(left, order, id);
      }
    }

    /** Adds a member: as a new one, or with what the shadow had. */
    method Add(id: nat, sub: Sub)
      requires Valid() && !removed && id !in subs && !sub.stalled && sub.lastSent <= lastSent
      requires sub.pending == if shadow.Some? then shadow.value.pending else {}
      modifies this`members, this`subs, this`shadow, this`owner
      ensures Valid() && subs == old(subs)[id := sub] && shadow == None
    {
      ConservedJoined(subs, shadow, lastSent, msgs, start, sent, acked, id, sub);
      NoMembers(members, subs);
      OwnedJoined(subs, owner, id, sub);
      GroupedJoined(members, subs, shadow, stalledSubCount, lastSent, id, sub);
      owner := WithOwner(owner, sub.pending, id);
      members, subs, shadow := members + [id], subs[id := sub], None;
    }

    /** A member comes: as a new one, or as the shadow come back, with its pending messages and its position. */
    method Join(id: nat, maxInFlight: int)
      requires Valid() && !removed && id !in subs
      modifies this`members, this`subs, this`shadow, this`owner
      ensures Valid() && subs.Keys == old(subs.Keys) + {id} && shadow == None
      ensures subs[id].pending == if old(shadow).Some? then old(shadow).value.pending else {}
      ensures subs[id].pending != {} ==> subs[id].newOnHold
    {
      var sub := Sub(true, false, false, false, false, maxInFlight, 0, {});
      if shadow.Some? {
        sub := shadow.value.(online := true, maxInFlight := maxInFlight, stalled := false, hasFailedHB := false,
                             initialized := false);
        if sub.pending != {} {
          sub := sub.(newOnHold := true);
        }
      }
      Add(id, sub);
    }

    /**
     A subscription is told to begin, is put on hold or released, or its client misses heartbeats or answers again.
     */
    method SetFlags(id: nat, initialized: bool, hold: bool, hasFailedHB: bool)
      requires Valid() && !removed && id in subs
      modifies this`subs
      ensures Valid() && subs == old(subs)[id := old(subs)[id].(initialized := initialized, newOnHold := hold,
                                                                hasFailedHB := hasFailedHB)]
    {
      var after := subs[id].(initialized := initialized, newOnHold := hold, hasFailedHB := hasFailedHB);
      GroupedAfter(members, subs, shadow, stalledSubCount, id, after);
      PendingSame(subs, shadow, id, after);
      OwnedSame(subs, subs[id := after], owner, id, 0, false);
      subs := subs[id := after];
    }

    /** The store changes: messages are added at its end, others disappear. */
    method StoreChanges(next: Stored)
      requires Valid() && msgs.Becomes(next)
      modifies this`msgs
      ensures Valid() && msgs == next
    {
      msgs := next;
    }
  }

  lemma RotatedListed(members: seq<nat>, subs: map<nat, Sub>)
    requires Listed(members, subs) && members != []
    ensures Listed(members[1..] + [members[0]], subs)
  {
    var r := members[1..] + [members[0]];
    forall id | id in subs ensures id in r {
      var i :| 0 <= i < |members| && members[i] == id;
      assert i > 0 ==> r[i - 1] == id;
      assert r[|members| - 1] == members[0];
    }
  }

  /** Gives pending messages to the members in turn. */
  method TransferAll(members: seq<nat>, subs0: map<nat, Sub>, order: seq<nat>, ghost rest: Rest,
                     ghost owner0: map<nat, nat>)
    returns (subs: map<nat, Sub>, ghost owner: map<nat, nat>)
    requires HasLeft(rest, subs0, owner0) && rest.members == members != []
    requires Enumerates(order, rest.left.pending) && OwnedBy(rest.left.pending, owner0, rest.gone)
    ensures HasLeft(rest, subs, owner) && rest.left.pending <= PendingIn(subs, None)
  {
    subs, owner := subs0, owner0;
    var idx, todo := 0, order;
    while todo != []
      invariant HasLeft(rest, subs, owner) && 0 <= idx < |members| && ToGive(rest, subs, owner, todo)
      decreases |todo|
    {
      var id, s := members[idx], todo[0];
      var subs' := subs[id := Given(subs[id], s)];
      Transferred(rest, subs, subs', owner, id, s);
      ToGiveNext(rest, subs, subs', owner, todo, id);
      subs, owner, todo := subs', owner[s := id], todo[1..];
      idx := if idx + 1 == |members| then 0 else idx + 1;
    }
  }

  /** The pending messages as a list; in which order is left open. */
  method MakePendingMsgs(pending: set<nat>) returns (order: seq<nat>)
    ensures Enumerates(order, pending)
  {
    order := [];
    var todo := pending;
    while todo != {}
      invariant todo <= pending && NoDoubles(order)
      invariant forall s :: s in order <==> s in pending && s !in todo
      decreases todo
    {
      var s :| s in todo;
      order, todo := order + [s], todo - {s};
    }
  }

  // ---------- Runs ----------

  datatype Op =
    | Publish(next: Stored)
    | Deliver
    | Ack(id: nat, s: nat)
    | Redeliver(id: nat, s: nat, isStartup: bool)
    | Flags(id: nat, initialized: bool, hold: bool, hasFailedHB: bool)
    | Hold(hold: bool)
    | Join(id: nat, maxInFlight: int)
    | Leave(id: nat, unsubscribe: bool)

  /** One event; what concerns a subscription that is not a member, or a group that is no more, has no effect. */
  method Do(g: QueueGroup, op: Op)
    requires g.Valid() && (op.Publish? ==> g.msgs.Becomes(op.next))
    modifies g
    ensures g.Valid() && g.msgs == if op.Publish? then op.next else old(g.msgs)
  {
    if op.Publish? {
      g.StoreChanges(op.next);
    } else if !g.removed {
      if op.Join? || op.Leave? {
        DoMembership(g, op);
      } else {
        DoDelivery(g, op);
      }
    }
  }

  method DoMembership(g: QueueGroup, op: Op)
    requires g.Valid() && !g.removed && (op.Join? || op.Leave?)
    modifies g
    ensures g.Valid() && g.msgs == old(g.msgs)
  {
    if op.Join? {
      if op.id !in g.subs {
        g.Join(op.id, op.maxInFlight);
      }
    } else if op.id in g.subs {
      g.Remove(op.id, op.unsubscribe);
    }
  }

  method DoDelivery(g: QueueGroup, op: Op)
    requires g.Valid() && !g.removed && !op.Publish? && !op.Join? && !op.Leave?
    modifies g
    ensures g.Valid() && g.msgs == old(g.msgs)
  {
    if op.Deliver? {
      g.SendAvailableMessagesToQueue();
    } else if op.Hold? {
      g.newOnHold := op.hold;
    } else if op.id in g.subs {
      match op
      case Ack(id, s) => g.ProcessAck(id, s);
      case Redeliver(id, s, isStartup) => var to := g.RedeliverOne(id, s, isStartup);
      case Flags(id, initialized, hold, failed) => g.SetFlags(id, initialized, hold, failed);
    }
  }

  predicate Legal(msgs: Stored, ops: seq<Op>)
    decreases |ops|
  {
    ops == [] || if ops[0].Publish? then msgs.Becomes(ops[0].next) && Legal(ops[0].next, ops[1..])
      else Legal(msgs, ops[1..])
  }

  /**
   Over every run of a group, until it is removed: a message that was delivered and is still stored is pending on a
   member or on the shadow unless a client acknowledged it, and then it is pending nowhere; first deliveries go up and
   pass over nothing; and the count of stalled members is exact, so that a count below the number of members means that
   one can take more.
   */
  method Run(durable: bool, msgs: Stored, lastSent: nat, ops: seq<Op>) returns (g: QueueGroup)
    requires msgs.Valid() && lastSent <= msgs.last && Legal(msgs, ops)
    ensures !g.removed ==> forall s :: s in g.sent && s in g.msgs.has ==>
              (s in g.acked <==> s !in PendingIn(g.subs, g.shadow))
    ensures !g.removed ==> Increasing(g.sent) && forall s :: s in g.msgs.has && lastSent < s <= g.lastSent ==>
              s in g.sent
    ensures !g.removed ==> g.stalledSubCount == |StalledIn(g.subs)|
    ensures !g.removed ==> (g.stalledSubCount < |g.members| <==> exists id :: id in g.subs && !g.subs[id].stalled)
  {
    g := new QueueGroup(durable, msgs, lastSent);
    var rest := ops;
    while rest != []
      invariant fresh(g) && g.start == lastSent && g.Valid() && Legal(g.msgs, rest)
      decreases |rest|
    {
      Do(g, rest[0]);
      rest := rest[1..];
    }
    if !g.removed {
      SomeNotStalled(g.members, g.subs);
    }
  }
}
