/** The two ends of the replication of sent and acknowledged messages (server/server.go). */
module SentAndAck {
  import opened Basics
  import opened Replication

  /** The leader's end of one subscription. */
  class LeaderSub {
    const queue: bool
    var acksPending: set<nat>
    var sent: set<nat>
    var ack: set<nat>
    var hiSentSeq: nat
    var hiAckSeq: nat
    /** The highest message ever sent. */
    ghost var top: nat

    constructor (queue: bool)
      ensures this.queue == queue && acksPending == {} && W() == EMPTY_WINDOW && top == 0
    {
      this.queue, acksPending, sent, ack, hiSentSeq, hiAckSeq, top := queue, {}, {}, {}, 0, 0, 0;
    }

    function W(): Window
      reads this`sent, this`ack, this`hiSentSeq, this`hiAckSeq
    {
      Window(sent, ack, hiSentSeq, hiAckSeq)
    }

    method CollectSentOrAck(isSent: bool, s: nat)
      modifies this`sent, this`ack, this`hiSentSeq, this`hiAckSeq
      ensures W() == Collected(old(W()), queue, if isSent then Sent(s) else Acked(s))
    {
      if isSent {
        sent := sent + {s};
        if queue {
          ack := ack - {s};
        }
        if s >= hiSentSeq {
          hiSentSeq, hiAckSeq := s, 0;
        }
      } else if s in sent {
        sent := sent - {s};
        if s == hiSentSeq {
          hiAckSeq := s;
        }
      } else {
        ack := ack + {s};
      }
    }

    /** A message that is not pending is sent. */
    method Send(s: nat)
      requires s !in acksPending
      modifies this`sent, this`ack, this`hiSentSeq, this`hiAckSeq, this`acksPending, this`top
      ensures W() == Collected(old(W()), queue, Sent(s)) && acksPending == old(acksPending) + {s}
              && top == Max(old(top), s)
    {
      CollectSentOrAck(true, s);
      acksPending := acksPending + {s};
      top := Max(top, s);
    }

    /** A pending message is acknowledged. */
    method Ack(s: nat)
      requires s in acksPending
      modifies this`sent, this`ack, this`hiSentSeq, this`hiAckSeq, this`acksPending
      ensures W() == Collected(old(W()), queue, Acked(s)) && acksPending == old(acksPending) - {s}
    {
      CollectSentOrAck(false, s);
      acksPending := acksPending - {s};
    }

    /** Makes the two lists and starts a new window. */
    method CreateSubSentAndAckProto() returns (sentSeqs: seq<nat>, ackSeqs: seq<nat>)
      modifies this`sent, this`ack, this`hiSentSeq, this`hiAckSeq
      ensures W() == EMPTY_WINDOW
      ensures ToSet(sentSeqs) == SentSet(old(W())) && ToSet(ackSeqs) == AckSet(old(W()))
    {
      sentSeqs := FillSentOrAckSeqs(sent, hiAckSeq);
      ackSeqs := FillSentOrAckSeqs(ack, hiAckSeq);
      sent, ack, hiSentSeq, hiAckSeq := {}, {}, 0, 0;
    }
  }

  /** Lists the sequences in any order, with the highest acknowledged one if there is one. */
  method FillSentOrAckSeqs(from: set<nat>, hiAckSeq: nat) returns (seqs: seq<nat>)
    ensures ToSet(seqs) == from + if hiAckSeq > 0 then {hiAckSeq} else {}
  {
    seqs := [];
    var left := from;
    while left != {}
      invariant left <= from && ToSet(seqs) == from - left
      decreases left
    {
      var s :| s in left;
      ToSetAppend(seqs, s);
      seqs, left := seqs + [s], left - {s};
    }
    if hiAckSeq > 0 {
      ToSetAppend(seqs, hiAckSeq);
      seqs := seqs + [hiAckSeq];
    }
  }

  lemma ToSetAppend(list: seq<nat>, s: nat)
    ensures ToSet(list + [s]) == ToSet(list) + {s}
  {
  }

  /** A follower's end; `qLastSent` is the position of the queue group, if the subscription is a member of one. */
  class FollowerSub {
    const queue: bool
    const maxInFlight: int
    var acksPending: set<nat>
    var lastSent: nat
    var qLastSent: nat
    var stalled: bool

    constructor (queue: bool, maxInFlight: int)
      ensures this.queue == queue && acksPending == {} && lastSent == 0 && qLastSent == 0
    {
      this.queue, this.maxInFlight, acksPending, lastSent, qLastSent, stalled := queue, maxInFlight, {}, 0, 0, false;
    }

    /** Applies a replicated window. */
    method ProcessReplicatedSendAndAck(sentSeqs: seq<nat>, ackSeqs: seq<nat>)
      modifies this
      ensures acksPending == old(acksPending) + ToSet(sentSeqs) - ToSet(ackSeqs)
      ensures lastSent >= old(lastSent) && forall s :: s in sentSeqs ==> s <= lastSent
      ensures lastSent == old(lastSent) || lastSent in sentSeqs
      ensures queue ==> qLastSent >= old(qLastSent) && forall s :: s in sentSeqs ==> s <= qLastSent
      ensures stalled <==> |acksPending| >= maxInFlight
    {
      for i := 0 to |sentSeqs|
        invariant acksPending == old(acksPending) + ToSet(sentSeqs[..i])
        invariant lastSent >= old(lastSent) && forall j :: 0 <= j < i ==> sentSeqs[j] <= lastSent
        invariant lastSent == old(lastSent) || lastSent in sentSeqs
        invariant queue ==> qLastSent >= old(qLastSent) && forall j :: 0 <= j < i ==> sentSeqs[j] <= qLastSent
      {
        var s := sentSeqs[i];
        if s > lastSent {
          lastSent := s;
        }
        if queue && s > qLastSent {
          qLastSent := s;
        }
        acksPending := acksPending + {s};
        assert sentSeqs[..i + 1] == sentSeqs[..i] + [s];
        ToSetAppend(sentSeqs[..i], s);
      }
      assert sentSeqs[..|sentSeqs|] == sentSeqs;
      RemoveAcks(ackSeqs);
      stalled := |acksPending| >= maxInFlight;
    }

    method RemoveAcks(ackSeqs: seq<nat>)
      modifies this`acksPending
      ensures acksPending == old(acksPending) - ToSet(ackSeqs)
    {
      for i := 0 to |ackSeqs|
        invariant acksPending == old(acksPending) - ToSet(ackSeqs[..i])
      {
        acksPending := acksPending - {ackSeqs[i]};
        assert ackSeqs[..i + 1] == ackSeqs[..i] + [ackSeqs[i]];
        ToSetAppend(ackSeqs[..i], ackSeqs[i]);
      }
      assert ackSeqs[..|ackSeqs|] == ackSeqs;
    }
  }

  /** How far a follower, that has applied every flushed window, is behind the leader. */
  ghost predicate InStep(l: LeaderSub, f: FollowerSub)
    reads l, f
  {
    && l.queue == f.queue && Covers(l.acksPending, f.acksPending, l.W())
    && l.top <= Max(f.lastSent, l.hiSentSeq) && (l.queue ==> l.top <= Max(f.qLastSent, l.hiSentSeq))
    && (!l.queue ==> Exact(l.acksPending, f.acksPending, l.W(), l.top) && forall s :: s in l.ack ==> s <= l.top)
  }

  method Collect(l: LeaderSub, f: FollowerSub, e: Event)
    requires InStep(l, f) && Possible(l.acksPending, e) && (!l.queue ==> InOrder(l.top, e))
    modifies l
    ensures InStep(l, f) && l.acksPending == Pending(old(l.acksPending), e) && l.top == if e.Sent?
            then Max(old(l.top), e.s) else old(l.top)
  {
    if l.queue {
      CollectCovers(l.acksPending, f.acksPending, l.W(), e);
    } else {
      CollectExact(l.acksPending, f.acksPending, l.W(), l.top, e);
    }
    match e
    case Sent(s) => l.Send(s);
    case Acked(s) => l.Ack(s);
  }

  /**
   The leader flushes its window and a follower applies it. The follower then has pending at least what the leader has,
   for a plain subscription exactly that, and its position is at or past every message ever sent.
   */
  method Flush(l: LeaderSub, f: FollowerSub)
    requires InStep(l, f)
    modifies l, f
    ensures InStep(l, f) && l.acksPending == old(l.acksPending) && l.top == old(l.top)
    ensures l.acksPending <= f.acksPending && f.acksPending == Applied(old(f.acksPending), old(l.W()))
    ensures !l.queue ==> f.acksPending == l.acksPending
    ensures l.top <= f.lastSent && (l.queue ==> l.top <= f.qLastSent)
  {
    FlushCovers(l.acksPending, f.acksPending, l.W());
    if !l.queue {
      FlushExact(l.acksPending, f.acksPending, l.W(), l.top);
    }
    HighestListed(l.acksPending, f.acksPending, l.W());
    if l.W().Left() {
      Replicate(l, f);
    }
  }

  /** The leader's window goes to the follower. */
  method Replicate(l: LeaderSub, f: FollowerSub)
    modifies l`sent, l`ack, l`hiSentSeq, l`hiAckSeq, f
    ensures l.W() == EMPTY_WINDOW && f.acksPending == Applied(old(f.acksPending), old(l.W()))
    ensures f.lastSent >= old(f.lastSent)
            && (old(l.hiSentSeq) in SentSet(old(l.W())) ==> f.lastSent >= old(l.hiSentSeq))
    ensures f.queue ==> f.qLastSent >= old(f.qLastSent) && (old(l.hiSentSeq) in SentSet(old(l.W())) ==>
                                                            f.qLastSent >= old(l.hiSentSeq))
  {
    var sentSeqs, ackSeqs := l.CreateSubSentAndAckProto();
    f.ProcessReplicatedSendAndAck(sentSeqs, ackSeqs);
    assert forall s :: s in ToSet(sentSeqs) ==> s in sentSeqs;
  }

  /** The highest message sent in a window is always in its list, even if it is acknowledged. */
  lemma HighestListed(pending: set<nat>, follower: set<nat>, w: Window)
    requires Covers(pending, follower, w)
    ensures w.hiSent > 0 ==> w.hiSent in SentSet(w)
    ensures !w.Left() ==> w == EMPTY_WINDOW && Applied(follower, w) == follower
  {
  }

  // ---------- Runs ----------

  datatype Op = Event(e: Event) | Flush

  /**
   A possible run: only what is not pending is sent, only what is pending is acknowledged, and a plain subscription goes
   up.
   */
  predicate Legal(queue: bool, pending: set<nat>, top: nat, ops: seq<Op>)
    decreases |ops|
  {
    ops == [] ||
    match ops[0]
    case Flush => Legal(queue, pending, top, ops[1..])
    case Event(e) =>
      && Possible(pending, e) && (!queue ==> InOrder(top, e))
      && Legal(queue, Pending(pending, e), if e.Sent? then Max(top, e.s) else top, ops[1..])
  }

  /** Over every run that ends with a flush, the follower is in step. */
  method Run(queue: bool, maxInFlight: int, ops: seq<Op>) returns (l: LeaderSub, f: FollowerSub)
    requires Legal(queue, {}, 0, ops)
    ensures l.acksPending <= f.acksPending && (!queue ==> f.acksPending == l.acksPending)
    ensures l.top <= f.lastSent && (queue ==> l.top <= f.qLastSent)
  {
    l := new LeaderSub(queue);
    f := new FollowerSub(queue, maxInFlight);
    var rest := ops;
    while rest != []
      invariant fresh(l) && fresh(f) && l.queue == queue && InStep(l, f) && Legal(queue, l.acksPending, l.top, rest)
      decreases |rest|
    {
      match rest[0] {
        case Flush => Flush(l, f);
        case Event(e) => Collect(l, f, e);
      }
      rest := rest[1..];
    }
    Flush(l, f);
  }
}
