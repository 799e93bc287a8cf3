/**
 Replication of a subscription's sent and acknowledged messages: the leader collects them in a window, and sends each
 window as two lists that the followers apply (server/server.go).
 */
module Replication {
  import opened Basics

  /** What the leader has collected since the last flush. */
  datatype Window = Window(sent: set<nat>, ack: set<nat>, hiSent: nat, hiAck: nat)
  {
    predicate Left() {
      sent != {} || ack != {} || hiAck > 0
    }
  }

  const EMPTY_WINDOW := Window({}, {}, 0, 0)

  datatype Event = Sent(s: nat) | Acked(s: nat)

  function Collected(w: Window, queue: bool, e: Event): Window {
    match e
    case Sent(s) =>
      var v := w.(sent := w.sent + {s}, ack := if queue then w.ack - {s} else w.ack);
      if s >= w.hiSent then v.(hiSent := s, hiAck := 0) else v
    case Acked(s) =>
      if s in w.sent then w.(sent := w.sent - {s}, hiAck := if s == w.hiSent then s else w.hiAck)
      else w.(ack := w.ack + {s})
  }

  /** The messages that the leader itself has pending. */
  function Pending(pending: set<nat>, e: Event): set<nat> {
    match e
    case Sent(s) => pending + {s}
    case Acked(s) => pending - {s}
  }

  /** The two lists of a flushed window, as sets. */
  function SentSet(w: Window): set<nat> {
    w.sent + if w.hiAck > 0 then {w.hiAck} else {}
  }

  function AckSet(w: Window): set<nat> {
    w.ack + if w.hiAck > 0 then {w.hiAck} else {}
  }

  /** What a follower has pending after it applied the window. */
  function Applied(follower: set<nat>, w: Window): set<nat> {
    (follower + SentSet(w)) - AckSet(w)
  }

  // ---------- The invariant ----------

  /** Whatever comes, the window keeps the follower's view: `pending` is on the leader, `follower` at the last flush. */
  ghost predicate Covers(pending: set<nat>, follower: set<nat>, w: Window) {
    && w.sent <= pending && w.ack !! w.sent && w.ack !! pending
    && pending <= (follower + w.sent) - w.ack
    && (w.hiAck > 0 ==> w.hiAck == w.hiSent && w.hiAck !in pending)
    && (w.hiSent > 0 ==> w.hiSent in w.sent || w.hiAck == w.hiSent)
    && (forall s :: s in w.sent ==> 0 < s <= w.hiSent)
  }

  /** For a plain subscription nothing is sent twice, and the view is exact. */
  ghost predicate Exact(pending: set<nat>, follower: set<nat>, w: Window, lastSent: nat) {
    && pending == (follower + w.sent) - w.ack && w.sent !! follower
    && (forall s :: s in follower || s in w.sent ==> s <= lastSent)
    && w.hiSent <= lastSent
  }

  /** The leader only sends what is not pending, and only takes acknowledgements of what is. */
  predicate Possible(pending: set<nat>, e: Event) {
    match e
    case Sent(s) => s > 0 && s !in pending
    case Acked(s) => s in pending
  }

  /** A plain subscription is sent each message once, in order. */
  predicate InOrder(lastSent: nat, e: Event) {
    e.Sent? ==> e.s > lastSent
  }

  lemma CollectCovers(pending: set<nat>, follower: set<nat>, w: Window, e: Event)
    requires Covers(pending, follower, w) && Possible(pending, e)
    ensures Covers(Pending(pending, e), follower, Collected(w, true, e))
  {
  }

  lemma CollectExact(pending: set<nat>, follower: set<nat>, w: Window, lastSent: nat, e: Event)
    requires Covers(pending, follower, w) && Exact(pending, follower, w, lastSent) && Possible(pending, e)
             && InOrder(lastSent, e)
    requires forall s :: s in w.ack ==> s <= lastSent
    ensures Covers(Pending(pending, e), follower, Collected(w, false, e))
    ensures Exact(Pending(pending, e), follower, Collected(w, false, e), if e.Sent? then e.s else lastSent)
    ensures forall s :: s in Collected(w, false, e).ack ==> s <= if e.Sent? then e.s else lastSent
  {
  }

  lemma FlushCovers(pending: set<nat>, follower: set<nat>, w: Window)
    requires Covers(pending, follower, w)
    ensures pending <= Applied(follower, w) && Covers(pending, Applied(follower, w), EMPTY_WINDOW)
  {
  }

  lemma FlushExact(pending: set<nat>, follower: set<nat>, w: Window, lastSent: nat)
    requires Covers(pending, follower, w) && Exact(pending, follower, w, lastSent)
    ensures Applied(follower, w) == pending && Exact(pending, Applied(follower, w), EMPTY_WINDOW, lastSent)
  {
  }

  // ---------- When a queue member's window is exact ----------

  /**
   What the events of a window did last to a message; `resent` says that it was sent before that in the same window.
   */
  datatype Fate = Untouched | SentLast | AckedLast(resent: bool)

  function SentIn(events: seq<Event>, s: nat): bool {
    events != [] && (events[|events| - 1] == Sent(s) || SentIn(events[..|events| - 1], s))
  }

  function FateOf(events: seq<Event>, s: nat): Fate {
    if events == [] then Untouched
    else
      var before, e := events[..|events| - 1], events[|events| - 1];
      if e == Sent(s) then SentLast
      else if e == Acked(s) then AckedLast(SentIn(before, s))
      else FateOf(before, s)
  }

  function HighestSent(events: seq<Event>): nat {
    if events == [] then 0
    else
      var before, e := events[..|events| - 1], events[|events| - 1];
      if e.Sent? then Max(HighestSent(before), e.s) else HighestSent(before)
  }

  function WindowOf(queue: bool, events: seq<Event>): Window {
    if events == [] then EMPTY_WINDOW
    else Collected(WindowOf(queue, events[..|events| - 1]), queue, events[|events| - 1])
  }

  function PendingAfter(pending: set<nat>, events: seq<Event>): set<nat> {
    if events == [] then pending
    else Pending(PendingAfter(pending, events[..|events| - 1]), events[|events| - 1])
  }

  predicate AllPossible(pending: set<nat>, events: seq<Event>) {
    events == [] ||
    (var before := events[..|events| - 1];
     AllPossible(pending, before) && Possible(PendingAfter(pending, before), events[|events| - 1]))
  }

  lemma {:induction false} FateIsSent(events: seq<Event>, s: nat)
    ensures FateOf(events, s).SentLast? ==> SentIn(events, s)
    ensures SentIn(events, s) ==> s <= HighestSent(events)
    decreases |events|
  {
    if events != [] {
      FateIsSent(events[..|events| - 1], s);
    }
  }

  /** What a message's fate says about the window and about the leader's pending messages. */
  lemma {:induction false} FateIs(pending: set<nat>, events: seq<Event>, s: nat)
    requires AllPossible(pending, events) && s > 0
    ensures var w := WindowOf(true, events);
            && (s in w.sent <==> FateOf(events, s) == SentLast)
            && (s in w.ack <==> FateOf(events, s) == AckedLast(false))
            && (s in PendingAfter(pending, events) <==>
                FateOf(events, s) == SentLast || (FateOf(events, s) == Untouched && s in pending))
    ensures FateOf(events, s) == Untouched || FateOf(events, s) == AckedLast(false) ==> !SentIn(events, s)
    decreases |events|
  {
    if events != [] {
      var before := events[..|events| - 1];
      FateIs(pending, before, s);
      FateIsSent(before, s);
      if events[|events| - 1].s > 0 {
        FateIs(pending, before, events[|events| - 1].s);
      }
    }
  }

  lemma {:induction false} HighestIs(pending: set<nat>, events: seq<Event>)
    requires AllPossible(pending, events)
    ensures var w, hi := WindowOf(true, events), HighestSent(events);
            w.hiSent == hi && w.hiAck == if hi > 0 && FateOf(events, hi).AckedLast? then hi else 0
    ensures HighestSent(events) > 0 ==> SentIn(events, HighestSent(events))
    decreases |events|
  {
    if events != [] {
      var before, e := events[..|events| - 1], events[|events| - 1];
      HighestIs(pending, before);
      var hi := HighestSent(before);
      if hi > 0 {
        FateIs(pending, before, hi);
      }
      if e.s > 0 {
        FateIs(pending, before, e.s);
        FateIsSent(before, e.s);
      }
    }
  }

  /**
   A queue member's window, applied by any follower. The follower then has a message that the leader has not pending
   exactly if it had it before, and either nothing happened to it and the leader had it not pending already, or it was
   sent again and then acknowledged within the window and is not the highest one sent.
   */
  lemma StaleIff(follower: set<nat>, pending: set<nat>, events: seq<Event>, s: nat)
    requires AllPossible(pending, events) && s > 0
    ensures s in Applied(follower, WindowOf(true, events)) && s !in PendingAfter(pending, events) <==>
            s in follower && ((FateOf(events, s) == Untouched && s !in pending)
                              || (FateOf(events, s) == AckedLast(true) && s != HighestSent(events)))
  {
    FateIs(pending, events, s);
    HighestIs(pending, events);
    FateIsSent(events, s);
  }

  // ---------- Window after window ----------

  /** What the leader has pending after these windows, from nothing. */
  function LeaderAfter(ws: seq<seq<Event>>): set<nat> {
    if ws == [] then {} else PendingAfter(LeaderAfter(ws[..|ws| - 1]), ws[|ws| - 1])
  }

  /** What a follower's queue member has pending after it applied them. */
  function FollowerAfter(ws: seq<seq<Event>>): set<nat> {
    if ws == [] then {} else Applied(FollowerAfter(ws[..|ws| - 1]), WindowOf(true, ws[|ws| - 1]))
  }

  predicate PossibleRun(ws: seq<seq<Event>>) {
    ws == [] || (PossibleRun(ws[..|ws| - 1]) && AllPossible(LeaderAfter(ws[..|ws| - 1]), ws[|ws| - 1]))
  }

  /**
   An acknowledgement was lost for good: in the last window that concerns the message, it was sent again and then
   acknowledged, it was not the highest one sent, and when the window began it was pending or lost before.
   */
  predicate LostAck(ws: seq<seq<Event>>, s: nat) {
    ws != [] &&
    var before, events := ws[..|ws| - 1], ws[|ws| - 1];
    if FateOf(events, s) == Untouched then LostAck(before, s)
    else
      && FateOf(events, s) == AckedLast(true) && s != HighestSent(events)
      && (s in LeaderAfter(before) || LostAck(before, s))
  }

  lemma {:induction false} WindowCovers(pending: set<nat>, follower: set<nat>, events: seq<Event>)
    requires Covers(pending, follower, EMPTY_WINDOW) && AllPossible(pending, events)
    ensures Covers(PendingAfter(pending, events), follower, WindowOf(true, events))
    decreases |events|
  {
    if events != [] {
      var before := events[..|events| - 1];
      WindowCovers(pending, follower, before);
      CollectCovers(PendingAfter(pending, before), follower, WindowOf(true, before), events[|events| - 1]);
    }
  }

  lemma {:induction false} FollowerCovers(ws: seq<seq<Event>>)
    requires PossibleRun(ws)
    ensures Covers(LeaderAfter(ws), FollowerAfter(ws), EMPTY_WINDOW)
    decreases |ws|
  {
    if ws != [] {
      var before, events := ws[..|ws| - 1], ws[|ws| - 1];
      FollowerCovers(before);
      WindowCovers(LeaderAfter(before), FollowerAfter(before), events);
      FlushCovers(LeaderAfter(ws), FollowerAfter(before), WindowOf(true, events));
    }
  }

  /** Over every run, a follower has a message in excess of the leader exactly if an acknowledgement of it was lost. */
  lemma {:induction false} StaleRun(ws: seq<seq<Event>>, s: nat)
    requires PossibleRun(ws) && s > 0
    ensures s in FollowerAfter(ws) && s !in LeaderAfter(ws) <==> LostAck(ws, s)
    decreases |ws|
  {
    if ws != [] {
      var before, events := ws[..|ws| - 1], ws[|ws| - 1];
      StaleRun(before, s);
      FollowerCovers(before);
      StaleIff(FollowerAfter(before), LeaderAfter(before), events, s);
    }
  }

  lemma {:induction false} NoZeroIn(pending: set<nat>, events: seq<Event>)
    requires AllPossible(pending, events) && 0 !in pending
    ensures 0 !in PendingAfter(pending, events) && 0 !in WindowOf(true, events).sent
    decreases |events|
  {
    if events != [] {
      NoZeroIn(pending, events[..|events| - 1]);
    }
  }

  lemma {:induction false} NoZero(ws: seq<seq<Event>>)
    requires PossibleRun(ws)
    ensures 0 !in LeaderAfter(ws) && 0 !in FollowerAfter(ws)
    decreases |ws|
  {
    if ws != [] {
      NoZero(ws[..|ws| - 1]);
      NoZeroIn(LeaderAfter(ws[..|ws| - 1]), ws[|ws| - 1]);
    }
  }

  /** A lost acknowledgement stays lost as long as no window concerns the message. */
  lemma LostStays(ws: seq<seq<Event>>, events: seq<Event>, s: nat)
    requires FateOf(events, s) == Untouched
    ensures LostAck(ws + [events], s) == LostAck(ws, s)
  {
    assert (ws + [events])[..|ws|] == ws;
  }

  /** Over every run, the follower has exactly what the leader has pending if and only if no acknowledgement is lost. */
  lemma SameIff(ws: seq<seq<Event>>)
    requires PossibleRun(ws)
    ensures FollowerAfter(ws) == LeaderAfter(ws) <==> forall s | s in FollowerAfter(ws) :: !LostAck(ws, s)
  {
    FollowerCovers(ws);
    NoZero(ws);
    forall s | s in FollowerAfter(ws) ensures s in LeaderAfter(ws) <==> !LostAck(ws, s) {
      StaleRun(ws, s);
    }
  }

  /** A message sent again and acknowledged within one window: the follower still has it. */
  lemma ResentAckIsLost()
    ensures var events := [Acked(1), Sent(1), Sent(2), Acked(1)];
            && AllPossible({1}, events)
            && PendingAfter({1}, events) == {2}
            && Applied({1}, WindowOf(true, events)) == {1, 2}
  {
    var a, b, c, d := [Acked(1)], [Acked(1), Sent(1)], [Acked(1), Sent(1), Sent(2)],
      [Acked(1), Sent(1), Sent(2), Acked(1)];
    assert a[..0] == [] && b[..1] == a && c[..2] == b && d[..3] == c;
    assert PendingAfter({1}, a) == {} && PendingAfter({1}, b) == {1} && PendingAfter({1}, c) == {1, 2};
    assert WindowOf(true, a) == Window({}, {1}, 0, 0);
    assert WindowOf(true, b) == Window({1}, {}, 1, 0);
    assert WindowOf(true, c) == Window({1, 2}, {}, 2, 0);
    assert WindowOf(true, d) == Window({2}, {}, 2, 0);
  }

  /** The same from the start: message 1 is sent and flushed before that window. */
  lemma ResentAckIsLostFromStart()
    ensures var ws := [[Sent(1)], [Acked(1), Sent(1), Sent(2), Acked(1)]];
            PossibleRun(ws) && LeaderAfter(ws) == {2} && FollowerAfter(ws) == {1, 2}
  {
    var first, second := [Sent(1)], [Acked(1), Sent(1), Sent(2), Acked(1)];
    var one, ws: seq<seq<Event>> := [first], [first, second];
    assert ws[..1] == one && one[..0] == [] && first[..0] == [];
    assert WindowOf(true, first) == Window({1}, {}, 1, 0);
    assert LeaderAfter(one) == {1};
    assert FollowerAfter(one) == Applied({}, Window({1}, {}, 1, 0)) == {1};
    ResentAckIsLost();
  }
}
