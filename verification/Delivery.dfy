/** Delivery of one message to one subscription, and the search for the next message (server/server.go). */
module Delivery {
  import opened Basics

  /** The sequences that a channel's message store has; there may be holes between its first and its last. */
  datatype Stored = Stored(first: nat, last: nat, has: set<nat>)
  {
    predicate Valid() {
      first <= last + 1 && forall s :: s in has ==> 0 < first <= s <= last
    }

    /** What happens to the store: messages are added after the last one, and others disappear for good. */
    predicate Becomes(next: Stored) {
      next.Valid() && last <= next.last && forall s :: s in next.has ==> s in has || s > last
    }
  }

  /**
   A subscription. `pending` are the messages sent and not acknowledged; `online` says that a client owns the
   subscription. The time when a pending message is due again is not kept: redelivery may come at any time.
   */
  datatype Sub = Sub(online: bool, initialized: bool, newOnHold: bool, hasFailedHB: bool, stalled: bool,
                     maxInFlight: int, lastSent: nat, pending: set<nat>)

  datatype Send = Send(sub: Sub, sent: bool, more: bool)

  predicate Accepts(sub: Sub, redelivered: bool) {
    sub.initialized && sub.online && (sub.newOnHold ==> redelivered)
  }

  predicate CanTake(sub: Sub) {
    Accepts(sub, false) && |sub.pending| < sub.maxInFlight
  }

  /** Sending `s` without force fills the subscription, or finds it full. */
  predicate Fills(sub: Sub, s: nat) {
    |sub.pending| >= sub.maxInFlight || (s !in sub.pending && |sub.pending| + 1 == sub.maxInFlight)
  }

  /** Sends message `s` to the subscription, unless it has as many unacknowledged messages as it wants. */
  method SendMsgToSub(sub: Sub, s: nat, redelivered: bool, force: bool) returns (r: Send)
    ensures r.sent <==> Accepts(sub, redelivered) && (force || |sub.pending| < sub.maxInFlight)
    ensures r.sub.stalled <==> sub.stalled || (Accepts(sub, redelivered) && !force && Fills(sub, s))
    ensures r.more <==> r.sent && (force || !Fills(sub, s))
    ensures r.sub.pending == sub.pending + if r.sent then {s} else {}
    ensures r.sub.lastSent == if r.sent && s !in sub.pending then Max(sub.lastSent, s) else sub.lastSent
    ensures r.sub == sub.(stalled := r.sub.stalled, lastSent := r.sub.lastSent, pending := r.sub.pending)
    ensures !force && |sub.pending| <= sub.maxInFlight ==> |r.sub.pending| <= sub.maxInFlight
  {
    if !Accepts(sub, redelivered) {
      return Send(sub, false, false);
    }
    if !force && |sub.pending| >= sub.maxInFlight {
      return Send(sub.(stalled := true), false, false);
    }
    if s in sub.pending {
      return Send(sub, true, true);
    }
    var after := sub.(lastSent := Max(sub.lastSent, s), pending := sub.pending + {s});
    if !force && |sub.pending| + 1 == sub.maxInFlight {
      return Send(after.(stalled := true), true, false);
    }
    return Send(after, true, true);
  }

  /** No stored message lies in `from <= s < to`. */
  predicate NoneIn(msgs: Stored, from: nat, to: nat) {
    forall s :: s in msgs.has ==> !(from <= s < to)
  }

  /**
   Searches for the first stored message from `lastSent + 1` on. On a store that does not change this ends, and it
   passes over nothing that is stored.
   */
  method GetNextMsg(msgs: Stored, lastSent0: nat) returns (next: Option<nat>, lastSent: nat)
    requires msgs.Valid()
    ensures lastSent0 <= lastSent && NoneIn(msgs, lastSent0 + 1, lastSent + 1)
    ensures next.Some? ==> next.value == lastSent + 1 && next.value in msgs.has
    ensures next.None? ==> forall s :: s in msgs.has ==> s <= lastSent
    ensures lastSent <= Max(lastSent0, msgs.last)
  {
    var nextSeq, i := lastSent0 + 1, 0;
    lastSent := lastSent0;
    while true
      invariant nextSeq == lastSent + 1 && lastSent0 <= lastSent <= Max(lastSent0, msgs.last)
      invariant NoneIn(msgs, lastSent0 + 1, lastSent + 1)
      decreases if nextSeq < msgs.first then 1 else 0, msgs.last - nextSeq, if i == 0 then 1 else 0
    {
      if nextSeq in msgs.has {
        return Some(nextSeq), lastSent;
      }
      if nextSeq >= msgs.last {
        return None, lastSent;
      } else if nextSeq < msgs.first {
        nextSeq, lastSent := msgs.first, msgs.first - 1;
      } else if i > 0 {
        nextSeq, lastSent := nextSeq + 1, lastSent + 1;
      }
      i := i + 1;
    }
  }
}
