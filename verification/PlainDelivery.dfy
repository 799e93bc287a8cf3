/** A plain or durable subscription: delivery, acknowledgement and redelivery over its whole life (server/server.go). */
module PlainDelivery {
  import opened Basics
  import opened Delivery

  predicate Increasing(sent: seq<nat>) {
    sent == [] || (var n := |sent| - 1; Increasing(sent[..n]) && (n > 0 ==> sent[n - 1] < sent[n]))
  }

  lemma {:induction false} IncreasingPairs(sent: seq<nat>, i: nat, j: nat)
    requires Increasing(sent) && i < j < |sent|
    ensures sent[i] < sent[j]
    decreases |sent|
  {
    var n := |sent| - 1;
    if j < n {
      IncreasingPairs(sent[..n], i, j);
    } else if i < n - 1 {
      IncreasingPairs(sent[..n], i, n - 1);
    }
  }

  /** First deliveries go up, and no stored message was passed over since `start`. */
  ghost predicate InOrder(msgs: Stored, start: nat, lastSent: nat, sent: seq<nat>) {
    && msgs.Valid() && start <= lastSent <= msgs.last
    && Increasing(sent) && (forall s :: s in sent ==> start < s <= lastSent)
    && (forall s :: s in msgs.has && start < s <= lastSent ==> s in sent)
  }

  /** What was delivered stays pending until it is acknowledged or no longer stored, and nothing else is pending. */
  ghost predicate Accounted(msgs: Stored, sent: seq<nat>, acked: set<nat>, pending: set<nat>) {
    && (forall s :: s in sent ==> s in acked || s !in msgs.has || s in pending)
    && (forall s :: s in pending ==> s in sent)
  }

  lemma PassedOver(msgs: Stored, start: nat, lastSent: nat, sent: seq<nat>, to: nat)
    requires InOrder(msgs, start, lastSent, sent) && lastSent <= to <= msgs.last && NoneIn(msgs, lastSent + 1, to + 1)
    ensures InOrder(msgs, start, to, sent)
  {
  }

  lemma DeliveredNext(msgs: Stored, start: nat, lastSent: nat, sent: seq<nat>)
    requires InOrder(msgs, start, lastSent, sent) && lastSent + 1 in msgs.has
    ensures InOrder(msgs, start, lastSent + 1, sent + [lastSent + 1])
  {
    var after := sent + [lastSent + 1];
    assert after[..|sent|] == sent;
    assert sent != [] ==> sent[|sent| - 1] in sent;
  }

  lemma SentNext(msgs: Stored, start: nat, sub: Sub, after: Sub, sent: seq<nat>, acked: set<nat>)
    requires InOrder(msgs, start, sub.lastSent, sent) && Accounted(msgs, sent, acked, sub.pending)
             && sub.lastSent + 1 in msgs.has
    requires after.lastSent == sub.lastSent + 1 && after.pending == sub.pending + {sub.lastSent + 1}
    ensures InOrder(msgs, start, after.lastSent, sent + [sub.lastSent + 1])
    ensures Accounted(msgs, sent + [sub.lastSent + 1], acked, after.pending)
  {
    DeliveredNext(msgs, start, sub.lastSent, sent);
    AccountedNext(msgs, sent, acked, sub.pending, sub.lastSent + 1);
  }

  lemma AccountedNext(msgs: Stored, sent: seq<nat>, acked: set<nat>, pending: set<nat>, s: nat)
    requires Accounted(msgs, sent, acked, pending)
    ensures Accounted(msgs, sent + [s], acked, pending + {s})
  {
  }

  class PlainSub {
    var sub: Sub
    var msgs: Stored
    /** Where the subscription starts, what was first delivered to it, in order, and what its client acknowledged. */
    ghost const start: nat
    ghost var sent: seq<nat>
    ghost var acked: set<nat>

    ghost predicate Valid()
      reads this
    {
      InOrder(msgs, start, sub.lastSent, sent) && Accounted(msgs, sent, acked, sub.pending)
    }

    predicate Bounded()
      reads this
    {
      |sub.pending| <= sub.maxInFlight
    }

    /** A new subscription, from a start position within the store. */
    constructor (msgs: Stored, lastSent: nat, maxInFlight: int)
      requires msgs.Valid() && lastSent <= msgs.last
      ensures Valid() && this.msgs == msgs && start == lastSent && sent == [] && acked == {}
      ensures sub.maxInFlight == maxInFlight && (maxInFlight >= 0 ==> Bounded())
    {
      sub := Sub(true, false, false, false, false, maxInFlight, lastSent, {});
      this.msgs, start, sent, acked := msgs, lastSent, [], {};
    }

    /** One turn of the delivery loop: sends the next stored message, if there is one. */
    method SendNext() returns (more: bool)
      requires Valid()
      modifies this`sub, this`sent
      ensures Valid() && sub == old(sub).(stalled := sub.stalled, lastSent := sub.lastSent, pending := sub.pending)
      ensures old(sub).lastSent <= sub.lastSent && old(sent) <= sent
      ensures forall k :: k in sub.pending ==> k in old(sub).pending || k > old(sub).lastSent
      ensures old(Bounded()) ==> Bounded()
      ensures more ==> old(sub).lastSent < sub.lastSent
      ensures !more && Accepts(sub, false) ==> sub.stalled || forall s :: s in msgs.has ==> s <= sub.lastSent
    {
      var next, lastSent := GetNextMsg(msgs, sub.lastSent);
      PassedOver(msgs, start, sub.lastSent, sent, lastSent);
      sub := sub.(lastSent := lastSent);
      if next == None {
        return false;
      }
      more := SendNew(next.value);
    }

    /** Sends the message that follows the last one sent. */
    method SendNew(s: nat) returns (more: bool)
      requires Valid() && s == sub.lastSent + 1 && s in msgs.has
      modifies this`sub, this`sent
      ensures Valid() && sub == old(sub).(stalled := sub.stalled, lastSent := sub.lastSent, pending := sub.pending)
      ensures old(sent) <= sent && old(sub).lastSent <= sub.lastSent && sub.pending <= old(sub).pending + {s}
      ensures old(Bounded()) ==> Bounded()
      ensures more ==> sub.lastSent == s
      ensures !more && Accepts(sub, false) ==> sub.stalled
    {
      assert s !in sub.pending;
      var r := SendMsgToSub(sub, s, false, false);
      if r.sent {
        SentNext(msgs, start, sub, r.sub, sent, acked);
        sent := sent + [s];
      }
      sub := r.sub;
      return r.sent && r.more;
    }

    /** Sends what is stored, until the subscription is stalled or has everything. */
    method SendAvailableMessages()
      requires Valid()
      modifies this`sub, this`sent
      ensures Valid() && sub == old(sub).(stalled := sub.stalled, lastSent := sub.lastSent, pending := sub.pending)
      ensures old(sub).lastSent <= sub.lastSent && old(sent) <= sent
      ensures forall k :: k in sub.pending ==> k in old(sub).pending || k > old(sub).lastSent
      ensures old(Bounded()) ==> Bounded()
      ensures Accepts(sub, false) ==> sub.stalled || forall s :: s in msgs.has ==> s <= sub.lastSent
    {
      while !sub.stalled
        invariant Valid() && sub == old(sub).(stalled := sub.stalled, lastSent := sub.lastSent, pending := sub.pending)
        invariant old(sub).lastSent <= sub.lastSent && old(sent) <= sent
        invariant forall k :: k in sub.pending ==> k in old(sub).pending || k > old(sub).lastSent
        invariant old(Bounded()) ==> Bounded()
        decreases msgs.last - sub.lastSent
      {
        var more := SendNext();
        if !more {
          break;
        }
      }
    }

    /** An acknowledgement: from the client, or for a message found to be no longer stored. */
    method ProcessAck(s: nat, fromUser: bool)
      requires Valid() && (fromUser || s !in msgs.has)
      modifies this`sub, this`sent, this`acked
      ensures Valid() && old(sent) <= sent && old(sub).lastSent <= sub.lastSent
      ensures s <= old(sub).lastSent ==> s !in sub.pending
      ensures acked == old(acked) + if fromUser then {s} else {}
      ensures sub == old(sub).(stalled := sub.stalled, lastSent := sub.lastSent, pending := sub.pending)
      ensures old(Bounded()) ==> Bounded()
    {
      TakeAck(s, fromUser);
      if sub.stalled && |sub.pending| < sub.maxInFlight {
        sub := sub.(stalled := false);
        SendAvailableMessages();
      }
    }

    /** The message is no longer pending. */
    method TakeAck(s: nat, fromUser: bool)
      requires Valid() && (fromUser || s !in msgs.has)
      modifies this`sub, this`acked
      ensures Valid() && sub == old(sub).(pending := old(sub).pending - {s})
      ensures acked == old(acked) + if fromUser then {s} else {}
      ensures old(Bounded()) ==> Bounded()
    {
      SmallerBound(sub.pending, s);
      sub := sub.(pending := sub.pending - {s});
      if fromUser {
        acked := acked + {s};
      }
    }

    /** Sends one pending message again, or drops it if it is no longer stored. */
    method RedeliverOne(s: nat) returns (again: bool)
      requires Valid()
      modifies this`sub, this`sent, this`acked
      ensures Valid() && old(sent) <= sent && acked == old(acked)
      ensures sub == old(sub).(stalled := sub.stalled, lastSent := sub.lastSent, pending := sub.pending)
      ensures s in msgs.has ==> sub == old(sub) && sent == old(sent)
      ensures again <==> s in msgs.has && s in old(sub).pending && Accepts(old(sub), true)
      ensures s in old(sub).pending && s !in msgs.has ==> s !in sub.pending
      ensures old(Bounded()) ==> Bounded()
    {
      again := false;
      if s !in msgs.has {
        ProcessAck(s, false);
      } else if s in sub.pending {
        var r := SendMsgToSub(sub, s, true, true);
        assert sub.pending + {s} == sub.pending;
        sub, again := r.sub, r.sent;
      }
    }

    /** Redelivery of the pending messages, in any order and up to any point; skipped while heartbeats fail. */
    method PerformAckExpirationRedelivery(order: seq<nat>)
      requires Valid()
      modifies this`sub, this`sent, this`acked
      ensures Valid() && old(sent) <= sent && acked == old(acked)
      ensures sub == old(sub).(stalled := sub.stalled, lastSent := sub.lastSent, pending := sub.pending)
      ensures old(Bounded()) ==> Bounded()
    {
      if sub.hasFailedHB {
        return;
      }
      RedeliverAll(order);
    }

    method RedeliverAll(order: seq<nat>)
      requires Valid()
      modifies this`sub, this`sent, this`acked
      ensures Valid() && old(sent) <= sent && acked == old(acked)
      ensures sub == old(sub).(stalled := sub.stalled, lastSent := sub.lastSent, pending := sub.pending)
      ensures old(Bounded()) ==> Bounded()
    {
      for i := 0 to |order|
        invariant Valid() && old(sent) <= sent && acked == old(acked)
        invariant sub == old(sub).(stalled := sub.stalled, lastSent := sub.lastSent, pending := sub.pending)
        invariant old(Bounded()) ==> Bounded()
      {
        var again := RedeliverOne(order[i]);
      }
    }

    /** The client closes a durable subscription, which is then kept without it. */
    method Close()
      requires Valid()
      modifies this`sub
      ensures Valid() && sub == old(sub).(online := false)
    {
      sub := sub.(online := false);
    }

    /**
     A client takes the durable over: its position and its pending messages stay, new messages wait for the redelivery.
     */
    method Resume(maxInFlight: int)
      requires Valid()
      modifies this`sub
      ensures Valid() && sub.lastSent == old(sub).lastSent && sub.pending == old(sub).pending
              && sub.maxInFlight == maxInFlight
      ensures sub.pending != {} ==> sub.newOnHold
      ensures old(Bounded()) && old(sub).maxInFlight <= maxInFlight ==> Bounded()
    {
      sub := sub.(online := true, maxInFlight := maxInFlight, stalled := false, hasFailedHB := false,
                  initialized := false);
      if sub.pending != {} {
        sub := sub.(newOnHold := true);
      }
    }

    /** Once the client was told: a durable first gets its pending messages again, then comes what is stored. */
    method Start(durable: bool, order: seq<nat>)
      requires Valid()
      modifies this`sub, this`sent, this`acked
      ensures Valid() && old(sent) <= sent && acked == old(acked)
      ensures old(Bounded()) ==> Bounded()
      ensures sub.online && !sub.newOnHold ==> sub.stalled || forall s :: s in msgs.has ==> s <= sub.lastSent
      ensures (durable ==> !sub.newOnHold) && sub.maxInFlight == old(sub).maxInFlight
    {
      sub := sub.(initialized := true);
      if durable {
        RedeliverAll(order);
        sub := sub.(newOnHold := false);
      }
      SendAvailableMessages();
    }

    /** The store changes: messages are added at its end, others disappear. */
    method StoreChanges(next: Stored)
      requires Valid() && msgs.Becomes(next)
      modifies this`msgs
      ensures Valid() && msgs == next
    {
      msgs := next;
    }
  }

  lemma SmallerBound(pending: set<nat>, s: nat)
    ensures |pending - {s}| <= |pending|
  {
    if s !in pending {
      assert pending - {s} == pending;
    }
  }

  // ---------- Runs ----------

  datatype Op =
    | Publish(next: Stored)
    | Deliver
    | Ack(s: nat)
    | Redeliver(order: seq<nat>)
    | Heartbeat(failed: bool)
    | Close
    | Resume(maxInFlight: int)
    | Start(durable: bool, order: seq<nat>)

  method Do(p: PlainSub, op: Op)
    requires p.Valid() && (op.Publish? ==> p.msgs.Becomes(op.next))
    modifies p
    ensures p.Valid() && old(p.sent) <= p.sent
    ensures p.msgs == if op.Publish? then op.next else old(p.msgs)
    ensures p.acked == old(p.acked) + if op.Ack? then {op.s} else {}
    ensures p.sub.maxInFlight == if op.Resume? then op.maxInFlight else old(p.sub.maxInFlight)
    ensures old(p.Bounded()) && (op.Resume? ==> op.maxInFlight >= old(p.sub.maxInFlight)) ==> p.Bounded()
  {
    match op
    case Publish(next) => p.StoreChanges(next);
    case Deliver => p.SendAvailableMessages();
    case Ack(s) => p.ProcessAck(s, true);
    case Redeliver(order) => p.PerformAckExpirationRedelivery(order);
    case Heartbeat(failed) => p.sub := p.sub.(hasFailedHB := failed);
    case Close => p.Close();
    case Resume(maxInFlight) => p.Resume(maxInFlight);
    case Start(durable, order) => p.Start(durable, order);
  }

  /** The store only ever changes as a message store does. */
  predicate Legal(msgs: Stored, ops: seq<Op>)
    decreases |ops|
  {
    ops == [] || if ops[0].Publish? then msgs.Becomes(ops[0].next) && Legal(ops[0].next, ops[1..])
      else Legal(msgs, ops[1..])
  }

  predicate NotLowered(maxInFlight: int, ops: seq<Op>)
    decreases |ops|
  {
    ops == [] ||
    if ops[0].Resume? then ops[0].maxInFlight >= maxInFlight && NotLowered(ops[0].maxInFlight, ops[1..])
    else NotLowered(maxInFlight, ops[1..])
  }

  /**
   Over every run of a subscription: first deliveries go up, no message that is still stored was passed over, a
   delivered message is pending until it is acknowledged or gone, and while the limit is not lowered it bounds the
   number of pending messages.
   */
  method Run(msgs: Stored, lastSent: nat, maxInFlight: int, ops: seq<Op>) returns (p: PlainSub)
    requires msgs.Valid() && lastSent <= msgs.last && maxInFlight >= 0 && Legal(msgs, ops)
    ensures fresh(p) && p.start == lastSent
    ensures Increasing(p.sent)
    ensures forall s :: s in p.msgs.has && lastSent < s <= p.sub.lastSent ==> s in p.sent
    ensures forall s :: s in p.sent ==> s in p.acked || s !in p.msgs.has || s in p.sub.pending
    ensures NotLowered(maxInFlight, ops) ==> |p.sub.pending| <= p.sub.maxInFlight
  {
    p := new PlainSub(msgs, lastSent, maxInFlight);
    var rest := ops;
    while rest != []
      invariant fresh(p) && p.start == lastSent && p.Valid() && Legal(p.msgs, rest)
      invariant NotLowered(maxInFlight, ops) ==> NotLowered(p.sub.maxInFlight, rest) && p.Bounded()
      decreases |rest|
    {
      Do(p, rest[0]);
      rest := rest[1..];
    }
  }
}
