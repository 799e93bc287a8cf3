/** The members of a queue group, as values: what is pending among them, and how many are stalled (server/server.go). */
module QueueState {
  import opened Basics
  import opened Delivery
  import opened PlainDelivery

  /** The messages that are pending on some member, or on the shadow that a durable group leaves behind. */
  ghost function PendingIn(subs: map<nat, Sub>, shadow: Option<Sub>): set<nat> {
    (set id, s | id in subs && s in subs[id].pending :: s) + if shadow.Some? then shadow.value.pending else {}
  }

  lemma PendingAfterSend(subs: map<nat, Sub>, shadow: Option<Sub>, id: nat, after: Sub, s: nat)
    requires id in subs && after.pending == subs[id].pending + {s}
    ensures PendingIn(subs[id := after], shadow) == PendingIn(subs, shadow) + {s}
  {
    var subs' := subs[id := after];
    forall x | x in PendingIn(subs, shadow) ensures x in PendingIn(subs', shadow) {
      if shadow.None? || x !in shadow.value.pending {
        var k :| k in subs && x in subs[k].pending;
        assert k in subs' && x in subs'[k].pending;
      }
    }
    assert id in subs' && s in subs'[id].pending;
  }

  lemma PendingAfterAck(subs: map<nat, Sub>, shadow: Option<Sub>, id: nat, after: Sub, s: nat)
    requires id in subs && after.pending == subs[id].pending - {s}
    ensures PendingIn(subs, shadow) - {s} <= PendingIn(subs[id := after], shadow) <= PendingIn(subs, shadow)
  {
    var subs' := subs[id := after];
    forall x | x in PendingIn(subs, shadow) && x != s ensures x in PendingIn(subs', shadow) {
      if shadow.None? || x !in shadow.value.pending {
        var k :| k in subs && x in subs[k].pending;
        assert k in subs' && x in subs'[k].pending;
      }
    }
  }

  lemma PendingElsewhere(subs: map<nat, Sub>, shadow: Option<Sub>, id: nat, s: nat)
    requires id in subs && s in subs[id].pending
    ensures s in PendingIn(subs, shadow)
  {
  }

  /** A change that leaves what is pending on the member alone. */
  lemma PendingSame(subs: map<nat, Sub>, shadow: Option<Sub>, id: nat, after: Sub)
    requires id in subs && after.pending == subs[id].pending
    ensures PendingIn(subs[id := after], shadow) == PendingIn(subs, shadow)
  {
    var subs' := subs[id := after];
    forall x | x in PendingIn(subs, shadow) ensures x in PendingIn(subs', shadow) {
      if shadow.None? || x !in shadow.value.pending {
        var k :| k in subs && x in subs[k].pending;
        assert k in subs' && x in subs'[k].pending;
      }
    }
  }

  /** A member leaves, or a shadow becomes one. */
  lemma PendingWithout(subs: map<nat, Sub>, id: nat)
    requires id in subs
    ensures PendingIn(subs, None) == PendingIn(subs - {id}, None) + subs[id].pending
  {
    var rest := subs - {id};
    forall x | x in PendingIn(subs, None) && x !in subs[id].pending ensures x in PendingIn(rest, None) {
      var k :| k in subs && x in subs[k].pending;
      assert k in rest && x in rest[k].pending;
    }
    forall x | x in PendingIn(rest, None) ensures x in PendingIn(subs, None) {
      var k :| k in rest && x in rest[k].pending;
      assert k in subs && x in subs[k].pending;
    }
  }

  ghost function StalledIn(subs: map<nat, Sub>): set<nat> {
    set id | id in subs && subs[id].stalled
  }

  lemma StalledAfter(subs: map<nat, Sub>, id: nat, after: Sub)
    requires id in subs
    ensures StalledIn(subs[id := after]) == StalledIn(subs) - {id} + if after.stalled then {id} else {}
    ensures |StalledIn(subs[id := after])| == |StalledIn(subs)| - (if subs[id].stalled then 1
                                                                   else 0) + if after.stalled then 1 else 0
  {
    assert StalledIn(subs[id := after]) == StalledIn(subs) - {id} + if after.stalled then {id} else {};
  }

  /** The members are counted by their list, without doubles. */
  ghost predicate Listed(members: seq<nat>, subs: map<nat, Sub>) {
    && |members| == |subs| && (forall i :: 0 <= i < |members| ==> members[i] in subs)
    && (forall id :: id in subs ==> id in members)
  }

  /** As long as not every member counts as stalled, there is one that is not. */
  lemma SomeNotStalled(members: seq<nat>, subs: map<nat, Sub>)
    requires Listed(members, subs)
    ensures |StalledIn(subs)| <= |members|
    ensures |StalledIn(subs)| < |members| <==> exists id :: id in subs && !subs[id].stalled
  {
    SubsetSize(StalledIn(subs), subs.Keys);
    if |StalledIn(subs)| < |members| {
      if subs.Keys <= StalledIn(subs) {
        SubsetSize(subs.Keys, StalledIn(subs));
      }
      var id :| id in subs.Keys && id !in StalledIn(subs);
      assert id in subs && !subs[id].stalled;
    }
    if id :| id in subs && !subs[id].stalled {
      SubsetSize(StalledIn(subs), subs.Keys - {id});
    }
  }

  /** The members are listed once each, those that are stalled are counted, and only an empty group has a shadow. */
  ghost predicate Grouped(members: seq<nat>, subs: map<nat, Sub>, shadow: Option<Sub>, stalledSubCount: int) {
    && Listed(members, subs) && stalledSubCount == |StalledIn(subs)|
    && (shadow.Some? ==> members == [])
  }

  /** No member is ahead of the group. */
  ghost predicate Behind(subs: map<nat, Sub>, shadow: Option<Sub>, lastSent: nat) {
    && (forall id :: id in subs ==> subs[id].lastSent <= lastSent)
    && (shadow.Some? ==> shadow.value.lastSent <= lastSent)
  }

  /**
   What was delivered stays pending on some member, or on the shadow, until it is acknowledged or no longer stored; and
   what a client acknowledged is pending nowhere.
   */
  ghost predicate Conserved(subs: map<nat, Sub>, shadow: Option<Sub>, lastSent: nat, msgs: Stored, start: nat,
                            sent: seq<nat>, acked: set<nat>) {
    && InOrder(msgs, start, lastSent, sent) && Accounted(msgs, sent, acked, PendingIn(subs, shadow))
    && forall s :: s in acked ==> s in sent && s !in PendingIn(subs, shadow)
  }

  /** A message is pending on one member at most, its owner; `id` may have `s` beside the owner. */
  ghost predicate OwnedBut(subs: map<nat, Sub>, owner: map<nat, nat>, id: nat, s: nat) {
    forall k :: k in subs ==> OwnedBy(subs[k].pending - if k == id then {s} else {}, owner, k)
  }

  ghost predicate Owned(subs: map<nat, Sub>, owner: map<nat, nat>) {
    forall k :: k in subs ==> OwnedBy(subs[k].pending, owner, k)
  }

  ghost predicate OwnedBy(pending: set<nat>, owner: map<nat, nat>, id: nat) {
    forall x :: x in pending ==> x in owner && owner[x] == id
  }

  lemma ListedAfter(members: seq<nat>, subs: map<nat, Sub>, id: nat, after: Sub)
    requires Listed(members, subs) && id in subs
    ensures Listed(members, subs[id := after])
  {
    assert subs[id := after].Keys == subs.Keys;
    assert |subs[id := after]| == |subs[id := after].Keys| == |subs.Keys| == |subs|;
  }

  /** A member changes, and the count of stalled members with it. */
  lemma GroupedAfter(members: seq<nat>, subs: map<nat, Sub>, shadow: Option<Sub>, stalledSubCount: int, id: nat,
                     after: Sub)
    requires Grouped(members, subs, shadow, stalledSubCount) && id in subs
    ensures Grouped(members, subs[id := after], shadow,
                    stalledSubCount - (if subs[id].stalled then 1 else 0) + if after.stalled then 1 else 0)
  {
    StalledAfter(subs, id, after);
    ListedAfter(members, subs, id, after);
  }

  lemma BehindAfter(subs: map<nat, Sub>, shadow: Option<Sub>, lastSent: nat, id: nat, after: Sub)
    requires Behind(subs, shadow, lastSent) && id in subs
    ensures Behind(subs[id := after], shadow, Max(lastSent, after.lastSent))
  {
  }

  /** Only member `id` changed; if a message was sent to it, that one is now pending there. */
  ghost predicate Updated(subs: map<nat, Sub>, subs': map<nat, Sub>, id: nat, s: nat, sent: bool) {
    && id in subs && id in subs' && subs' == subs[id := subs'[id]]
    && subs'[id].pending == subs[id].pending + if sent then {s} else {}
  }

  lemma SentBefore(subs: map<nat, Sub>, shadow: Option<Sub>, lastSent: nat, msgs: Stored, start: nat, sent: seq<nat>,
                   acked: set<nat>, id: nat, s: nat)
    requires Conserved(subs, shadow, lastSent, msgs, start, sent, acked) && id in subs && s in subs[id].pending
    ensures s in PendingIn(subs, shadow) && s in sent && s <= lastSent
  {
    PendingElsewhere(subs, shadow, id, s);
  }

  /** The next message is delivered to a member. */
  lemma ConservedNext(subs: map<nat, Sub>, subs': map<nat, Sub>, shadow: Option<Sub>, lastSent: nat, msgs: Stored,
                      start: nat, sent: seq<nat>, acked: set<nat>, id: nat)
    requires Conserved(subs, shadow, lastSent, msgs, start, sent, acked) && lastSent + 1 in msgs.has
    requires Updated(subs, subs', id, lastSent + 1, true)
    ensures lastSent + 1 !in subs[id].pending
    ensures Conserved(subs', shadow, lastSent + 1, msgs, start, sent + [lastSent + 1], acked)
  {
    if lastSent + 1 in subs[id].pending {
      SentBefore(subs, shadow, lastSent, msgs, start, sent, acked, id, lastSent + 1);
    }
    PendingAfterSend(subs, shadow, id, subs'[id], lastSent + 1);
    DeliveredNext(msgs, start, lastSent, sent);
    AccountedNext(msgs, sent, acked, PendingIn(subs, shadow), lastSent + 1);
  }

  /** A message that is pending somewhere is delivered again, or is not. */
  lemma ConservedAgain(subs: map<nat, Sub>, subs': map<nat, Sub>, shadow: Option<Sub>, lastSent: nat, msgs: Stored,
                       start: nat, sent: seq<nat>, acked: set<nat>, id: nat, s: nat, again: bool)
    requires Conserved(subs, shadow, lastSent, msgs, start, sent, acked) && Updated(subs, subs', id, s, again)
             && (again ==> s in PendingIn(subs, shadow))
    ensures Conserved(subs', shadow, lastSent, msgs, start, sent, acked) && (again ==> s <= lastSent)
  {
    if again {
      PendingAfterSend(subs, shadow, id, subs'[id], s);
      assert PendingIn(subs, shadow) + {s} == PendingIn(subs, shadow);
    } else {
      PendingSame(subs, shadow, id, subs'[id]);
    }
  }

  /** A message goes from a member: it is gone, or it is pending on another member. */
  lemma ConservedWithout(subs: map<nat, Sub>, shadow: Option<Sub>, lastSent: nat, msgs: Stored, start: nat,
                         sent: seq<nat>, acked: set<nat>, id: nat, after: Sub, s: nat)
    requires Conserved(subs, shadow, lastSent, msgs, start, sent, acked) && id in subs
             && after.pending == subs[id].pending - {s}
    requires s !in msgs.has || exists k :: k in subs && k != id && s in subs[k].pending
    ensures Conserved(subs[id := after], shadow, lastSent, msgs, start, sent, acked)
  {
    PendingAfterAck(subs, shadow, id, after, s);
    if k :| k in subs && k != id && s in subs[k].pending {
      PendingElsewhere(subs[id := after], shadow, k, s);
    }
  }

  /** A client acknowledges a message, which goes from the one member that has it. */
  lemma ConservedAcked(subs: map<nat, Sub>, lastSent: nat, msgs: Stored, start: nat, sent: seq<nat>, acked: set<nat>,
                       owner: map<nat, nat>, id: nat, after: Sub, s: nat)
    requires Conserved(subs, None, lastSent, msgs, start, sent, acked) && Owned(subs, owner)
    requires id in subs && s in subs[id].pending && after.pending == subs[id].pending - {s}
    ensures Conserved(subs[id := after], None, lastSent, msgs, start, sent, acked + {s})
  {
    PendingAfterAck(subs, None, id, after, s);
    PendingElsewhere(subs, None, id, s);
    var subs' := subs[id := after];
    forall k | k in subs' ensures s !in subs'[k].pending {
      assert k in subs && s in subs[k].pending ==> owner[s] == k == id;
    }
    NotPending(subs', s);
  }

  lemma ConservedAckedNowhere(subs: map<nat, Sub>, shadow: Option<Sub>, lastSent: nat, msgs: Stored, start: nat,
                              sent: seq<nat>, acked: set<nat>, s: nat)
    requires Conserved(subs, shadow, lastSent, msgs, start, sent, acked) && s in sent && s !in PendingIn(subs, shadow)
    ensures Conserved(subs, shadow, lastSent, msgs, start, sent, acked + {s})
  {
  }

  lemma NotPending(subs: map<nat, Sub>, s: nat)
    requires forall k :: k in subs ==> s !in subs[k].pending
    ensures s !in PendingIn(subs, None)
  {
  }

  lemma SomeStalled(subs: map<nat, Sub>, id: nat)
    requires id in subs && subs[id].stalled
    ensures |StalledIn(subs)| > 0
  {
    assert id in StalledIn(subs);
  }

  /** Message `s` was taken from member `k`, and nothing else changed. */
  ghost predicate Dropped(subs: map<nat, Sub>, subs': map<nat, Sub>, k: Option<nat>, s: nat) {
    if k.None? then subs' == subs
    else
      && k.value in subs && s in subs[k.value].pending
      && subs' == subs[k.value := subs[k.value].(pending := subs[k.value].pending - {s})]
  }

  lemma OwnedNext(subs: map<nat, Sub>, subs': map<nat, Sub>, shadow: Option<Sub>, lastSent: nat, msgs: Stored,
                  start: nat, sent: seq<nat>, acked: set<nat>, owner: map<nat, nat>, id: nat)
    requires Conserved(subs, shadow, lastSent, msgs, start, sent, acked) && Owned(subs, owner)
    requires Updated(subs, subs', id, lastSent + 1, true)
    ensures Owned(subs', owner[lastSent + 1 := id])
  {
    forall k, x | k in subs' && x in subs'[k].pending
      ensures x in owner[lastSent + 1 := id] && owner[lastSent + 1 := id][x] == k
    {
      if x in subs[k].pending {
        SentBefore(subs, shadow, lastSent, msgs, start, sent, acked, k, x);
      }
    }
  }

  /** Up to a position, every message has the owner that it had. */
  ghost predicate SameOwners(was: map<nat, nat>, owner: map<nat, nat>, upTo: nat) {
    forall x :: x in was && x <= upTo ==> x in owner && owner[x] == was[x]
  }

  /** A message that is stored and not acknowledged is pending on its owner. */
  lemma HeldByOwner(subs: map<nat, Sub>, lastSent: nat, msgs: Stored, start: nat, sent: seq<nat>, acked: set<nat>,
                    owner: map<nat, nat>, s: nat)
    requires Conserved(subs, None, lastSent, msgs, start, sent, acked) && Owned(subs, owner)
    requires s in sent && s in msgs.has && s !in acked
    ensures s in owner && owner[s] in subs && s in subs[owner[s]].pending
  {
    assert s in PendingIn(subs, None);
    var k :| k in subs && s in subs[k].pending;
    assert OwnedBy(subs[k].pending, owner, k);
  }

  /** A pending message was sent and is not acknowledged. */
  lemma PendingIsSent(subs: map<nat, Sub>, shadow: Option<Sub>, lastSent: nat, msgs: Stored, start: nat,
                      sent: seq<nat>, acked: set<nat>, owner: map<nat, nat>, id: nat, s: nat)
    requires Conserved(subs, shadow, lastSent, msgs, start, sent, acked) && Owned(subs, owner)
    requires id in subs && s in subs[id].pending
    ensures s in sent && s !in acked && s <= lastSent && s in owner && owner[s] == id
  {
    assert s in PendingIn(subs, shadow) && OwnedBy(subs[id].pending, owner, id);
  }

  lemma OwnedReassign(subs: map<nat, Sub>, subs': map<nat, Sub>, owner: map<nat, nat>, id: nat, pick: nat, s: nat)
    requires Owned(subs, owner) && id in subs && s in subs[id].pending && pick != id
             && Updated(subs, subs', pick, s, true)
    ensures OwnedBut(subs', owner[s := pick], id, s)
  {
    assert owner[s] == id;
    forall k, x | k in subs' && x in subs'[k].pending && !(k == id && x == s)
      ensures x in owner[s := pick] && owner[s := pick][x] == k
    {
      if k != pick {
        assert x in subs[k].pending;
      }
    }
  }

  lemma OwnedSame(subs: map<nat, Sub>, subs': map<nat, Sub>, owner: map<nat, nat>, id: nat, s: nat, again: bool)
    requires Owned(subs, owner) && Updated(subs, subs', id, s, again) && (again ==> s in subs[id].pending)
    ensures Owned(subs', owner)
  {
  }

  // ---------- Members that leave and come ----------

  lemma StalledWithout(subs: map<nat, Sub>, id: nat)
    requires id in subs
    ensures |StalledIn(subs - {id})| == |StalledIn(subs)| - if subs[id].stalled then 1 else 0
  {
    assert StalledIn(subs - {id}) == StalledIn(subs) - {id};
  }

  lemma StalledWith(subs: map<nat, Sub>, id: nat, sub: Sub)
    requires id !in subs && !sub.stalled
    ensures StalledIn(subs[id := sub]) == StalledIn(subs)
  {
  }

  lemma ListedWith(members: seq<nat>, subs: map<nat, Sub>, id: nat, sub: Sub)
    requires Listed(members, subs) && id !in subs
    ensures Listed(members + [id], subs[id := sub])
  {
    var more := members + [id];
    assert subs[id := sub].Keys == subs.Keys + {id};
    assert |subs[id := sub]| == |subs[id := sub].Keys| == |subs.Keys| + 1 == |subs| + 1;
    forall k | k in subs[id := sub] ensures k in more {
      if k != id {
        var i :| 0 <= i < |members| && members[i] == k;
        assert more[i] == k;
      } else {
        assert more[|members|] == id;
      }
    }
  }

  /** A member is replaced in the list by the last one. */
  lemma ListedWithout(members: seq<nat>, subs: map<nat, Sub>, i: nat)
    requires Listed(members, subs) && i < |members|
    ensures var n := |members| - 1;
            Listed(members[i := members[n]][..n], subs - {members[i]})
  {
    var n, id := |members| - 1, members[i];
    var rest, fewer := members[i := members[n]][..n], subs - {id};
    assert fewer.Keys == subs.Keys - {id};
    assert |fewer| == |fewer.Keys| == |subs.Keys| - 1 == |subs| - 1;
    Distinct(members, subs);
    forall j | 0 <= j < n ensures rest[j] in fewer {
      assert rest[j] == if j == i then members[n] else members[j];
    }
    forall k | k in fewer ensures k in rest {
      var j :| 0 <= j < |members| && members[j] == k;
      assert j < n ==> rest[j] == k;
      assert j == n && i < n ==> rest[i] == k;
    }
  }

  /** As many entries as members: each is listed once. */
  lemma Distinct(members: seq<nat>, subs: map<nat, Sub>)
    requires Listed(members, subs)
    ensures forall i, j :: 0 <= i < j < |members| ==> members[i] != members[j]
  {
    forall i, j | 0 <= i < j < |members| ensures members[i] != members[j] {
      if members[i] == members[j] {
        var rest := members[..j] + members[j + 1..];
        ListSize(rest);
        forall k | k in subs.Keys ensures k in ToSet(rest) {
          var m :| 0 <= m < |members| && members[m] == k;
          if m == j {
            assert rest[i] == k;
          } else {
            assert rest[if m < j then m else m - 1] == k;
          }
        }
        SubsetSize(subs.Keys, ToSet(rest));
      }
    }
  }

  lemma {:induction false} ListSize(list: seq<nat>)
    ensures |ToSet(list)| <= |list|
    decreases |list|
  {
    if list != [] {
      ListSize(list[1..]);
      assert ToSet(list) == ToSet(list[1..]) + {list[0]};
    }
  }

  /** The pending messages of a member that has just left are still accounted for, as its own. */
  lemma ConservedLeft(subs: map<nat, Sub>, lastSent: nat, msgs: Stored, start: nat, sent: seq<nat>, acked: set<nat>,
                      id: nat, left: Sub)
    requires Conserved(subs, None, lastSent, msgs, start, sent, acked) && id in subs && left.pending == subs[id].pending
    ensures Conserved(subs - {id}, Some(left), lastSent, msgs, start, sent, acked)
  {
    PendingWithout(subs, id);
    assert PendingIn(subs - {id}, Some(left)) == PendingIn(subs - {id}, None) + left.pending;
  }

  /** What stays the same while the messages of a member that left are given away. */
  datatype Rest = Rest(members: seq<nat>, stalledSubCount: int, lastSent: nat, msgs: Stored, start: nat,
                       sent: seq<nat>, acked: set<nat>, left: Sub, gone: nat)

  ghost predicate HasLeft(r: Rest, subs: map<nat, Sub>, owner: map<nat, nat>) {
    && r.gone !in subs && Grouped(r.members, subs, None, r.stalledSubCount) && Behind(subs, None, r.lastSent)
      && Owned(subs, owner)
    && Conserved(subs, Some(r.left), r.lastSent, r.msgs, r.start, r.sent, r.acked)
  }

  /** A member that takes a message over. */
  function Given(sub: Sub, s: nat): Sub {
    sub.(lastSent := Max(sub.lastSent, s), pending := sub.pending + {s})
  }

  /** A pending message of a member that left is given to another one. */
  lemma Transferred(r: Rest, subs: map<nat, Sub>, subs': map<nat, Sub>, owner: map<nat, nat>, id: nat, s: nat)
    requires HasLeft(r, subs, owner) && id in subs && s in r.left.pending && s in owner && owner[s] == r.gone
             && subs' == subs[id := Given(subs[id], s)]
    ensures HasLeft(r, subs', owner[s := id])
    ensures PendingIn(subs', None) == PendingIn(subs, None) + {s}
  {
    GivenConserved(subs, subs', r.left, r.lastSent, r.msgs, r.start, r.sent, r.acked, id, s);
    GivenOwned(subs, subs', owner, r.gone, id, s);
    GroupedAfter(r.members, subs, None, r.stalledSubCount, id, Given(subs[id], s));
  }

  lemma GivenConserved(subs: map<nat, Sub>, subs': map<nat, Sub>, left: Sub, lastSent: nat, msgs: Stored, start: nat,
                       sent: seq<nat>, acked: set<nat>, id: nat, s: nat)
    requires Conserved(subs, Some(left), lastSent, msgs, start, sent, acked) && Behind(subs, None, lastSent)
    requires id in subs && s in left.pending && subs' == subs[id := Given(subs[id], s)]
    ensures Conserved(subs', Some(left), lastSent, msgs, start, sent, acked) && Behind(subs', None, lastSent)
    ensures PendingIn(subs', None) == PendingIn(subs, None) + {s} && subs'.Keys == subs.Keys
  {
    assert s in PendingIn(subs, Some(left));
    PendingAfterSend(subs, Some(left), id, subs'[id], s);
    PendingAfterSend(subs, None, id, subs'[id], s);
    assert PendingIn(subs, Some(left)) + {s} == PendingIn(subs, Some(left));
  }

  lemma GivenOwned(subs: map<nat, Sub>, subs': map<nat, Sub>, owner: map<nat, nat>, gone: nat, id: nat, s: nat)
    requires Owned(subs, owner) && id in subs && gone !in subs && s in owner && owner[s] == gone
             && subs' == subs[id := Given(subs[id], s)]
    ensures Owned(subs', owner[s := id])
  {
  }

  /** Once all were given away, nothing depends on the member that left. */
  lemma AllTransferred(subs: map<nat, Sub>, left: Sub, lastSent: nat, msgs: Stored, start: nat, sent: seq<nat>,
                       acked: set<nat>)
    requires Conserved(subs, Some(left), lastSent, msgs, start, sent, acked) && left.pending <= PendingIn(subs, None)
    ensures Conserved(subs, None, lastSent, msgs, start, sent, acked)
  {
    assert PendingIn(subs, Some(left)) == PendingIn(subs, None);
  }

  /** The list has each of these once. */
  ghost predicate Enumerates(order: seq<nat>, of: set<nat>) {
    (forall s :: s in of <==> s in order) && NoDoubles(order)
  }

  lemma SomeStalledIf(subs: map<nat, Sub>, id: nat)
    requires id in subs
    ensures subs[id].stalled ==> |StalledIn(subs)| > 0
  {
    if subs[id].stalled {
      SomeStalled(subs, id);
    }
  }

  lemma PendingOfShadow(a: Sub, b: Sub)
    requires a.pending == b.pending
    ensures PendingIn(map[], Some(a)) == PendingIn(map[], Some(b))
  {
  }

  lemma OthersStay(subs: map<nat, Sub>, owner: map<nat, nat>, lastSent: nat, id: nat)
    requires Owned(subs, owner) && Behind(subs, None, lastSent) && id in subs
    ensures Owned(subs - {id}, owner) && Behind(subs - {id}, None, lastSent)
    ensures OwnedBy(subs[id].pending, owner, id)
  {
  }

  /** The pending messages of the shadow are those of the member that it becomes. */
  lemma ConservedJoined(subs: map<nat, Sub>, shadow: Option<Sub>, lastSent: nat, msgs: Stored, start: nat,
                        sent: seq<nat>, acked: set<nat>, id: nat, sub: Sub)
    requires Conserved(subs, shadow, lastSent, msgs, start, sent, acked) && id !in subs
    requires sub.pending == if shadow.Some? then shadow.value.pending else {}
    ensures Conserved(subs[id := sub], None, lastSent, msgs, start, sent, acked)
  {
    PendingWithout(subs[id := sub], id);
    assert subs[id := sub] - {id} == subs;
    assert PendingIn(subs, shadow) == PendingIn(subs, None) + sub.pending;
  }

  ghost function WithOwner(owner: map<nat, nat>, pending: set<nat>, id: nat): map<nat, nat> {
    map s | s in owner.Keys + pending :: if s in pending then id else owner[s]
  }

  lemma OwnedJoined(subs: map<nat, Sub>, owner: map<nat, nat>, id: nat, sub: Sub)
    requires Owned(subs, owner) && id !in subs && (sub.pending == {} || subs == map[])
    ensures Owned(subs[id := sub], WithOwner(owner, sub.pending, id))
  {
  }

  lemma NoMembers(members: seq<nat>, subs: map<nat, Sub>)
    requires Listed(members, subs)
    ensures members == [] <==> subs == map[]
  {
  }

  lemma GroupedJoined(members: seq<nat>, subs: map<nat, Sub>, shadow: Option<Sub>, stalledSubCount: int, lastSent: nat,
                      id: nat, sub: Sub)
    requires Grouped(members, subs, shadow, stalledSubCount) && Behind(subs, shadow, lastSent)
    requires id !in subs && !sub.stalled && sub.lastSent <= lastSent
    ensures Grouped(members + [id], subs[id := sub], None, stalledSubCount) && Behind(subs[id := sub], None, lastSent)
  {
    StalledWith(subs, id, sub);
    ListedWith(members, subs, id, sub);
  }

  lemma LeftKeys(subs: map<nat, Sub>, rest: map<nat, Sub>, id: nat)
    requires id in subs && rest == subs - {id}
    ensures rest.Keys == subs.Keys - {id} && (rest == map[] <==> subs.Keys == {id})
  {
    assert subs.Keys == rest.Keys + {id};
  }

  lemma Others(members: seq<nat>, subs: map<nat, Sub>)
    requires Listed(members, subs) && members != []
    ensures subs != map[] && members[0] in subs
  {
  }

  /** The list of members says who they are. */
  lemma SameKeys(members: seq<nat>, subs: map<nat, Sub>, subs': map<nat, Sub>)
    requires Listed(members, subs) && Listed(members, subs')
    ensures subs.Keys == subs'.Keys
  {
    assert forall id :: id in subs ==> id in subs';
    assert forall id :: id in subs' ==> id in subs;
  }

  /** The messages still to be given away are in the list; the others are pending on a member. */
  ghost predicate ToGive(r: Rest, subs: map<nat, Sub>, owner: map<nat, nat>, todo: seq<nat>) {
    && NoDoubles(todo)
    && (forall s :: s in r.left.pending ==> s in todo || s in PendingIn(subs, None))
    && (forall s :: s in todo ==> s in r.left.pending && s in owner && owner[s] == r.gone)
  }

  lemma ToGiveNext(r: Rest, subs: map<nat, Sub>, subs': map<nat, Sub>, owner: map<nat, nat>, todo: seq<nat>, id: nat)
    requires ToGive(r, subs, owner, todo) && todo != [] && PendingIn(subs', None) == PendingIn(subs, None) + {todo[0]}
    ensures ToGive(r, subs', owner[todo[0] := id], todo[1..])
  {
    assert todo == [todo[0]] + todo[1..];
  }
}
