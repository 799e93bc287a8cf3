/**
 The cache of recently used messages: a doubly linked list in order of expiration, and a map (stores/filestore.go).
 */
module MsgCache {
  import opened Basics
  import opened MsgLog

  /** How long a message stays in the cache. */
  const CACHE_TTL := 1000000000

  class CachedMsg {
    const msg: Msg
    var expiration: int
    var prev: CachedMsg?
    var next: CachedMsg?

    constructor (msg: Msg, expiration: int)
      ensures this.msg == msg && this.expiration == expiration && prev == null && next == null
    {
      this.msg, this.expiration, prev, next := msg, expiration, null, null;
    }
  }

  /** The nodes are linked both ways, in the order of the list, from `head` to `tail`. */
  ghost predicate Linked(list: seq<CachedMsg>, head: CachedMsg?, tail: CachedMsg?)
    reads list`prev, list`next
  {
    if list == [] then head == null && tail == null
    else
      && head == list[0] && tail == list[|list| - 1] && list[0].prev == null && list[|list| - 1].next == null
      && (forall i {:trigger list[i].next} :: 0 <= i < |list| - 1 ==> list[i].next == list[i + 1])
      && (forall i {:trigger list[i].prev} :: 0 < i < |list| ==> list[i].prev == list[i - 1])
  }

  ghost predicate Distinct(list: seq<CachedMsg>) {
    list == [] || (list[|list| - 1] !in list[..|list| - 1] && Distinct(list[..|list| - 1]))
  }

  /** Expirations go up along the list, to `bound` at most. */
  ghost predicate Sorted(list: seq<CachedMsg>, bound: int)
    reads list`expiration
  {
    list == [] || (var n := |list| - 1; list[n].expiration <= bound && Sorted(list[..n], list[n].expiration))
  }

  /** The map has exactly the nodes of the list, each under its sequence. */
  ghost predicate Mapped(list: seq<CachedMsg>, seqMaps: map<nat, CachedMsg>) {
    && (forall i :: 0 <= i < |list| ==> list[i].msg.sequence in seqMaps && seqMaps[list[i].msg.sequence] == list[i])
    && (forall s :: s in seqMaps ==> seqMaps[s] in list && seqMaps[s].msg.sequence == s)
  }

  function Without(list: seq<CachedMsg>, i: nat): seq<CachedMsg>
    requires i < |list|
  {
    list[..i] + list[i + 1..]
  }

  lemma {:induction false} DistinctWithout(list: seq<CachedMsg>, i: nat)
    requires Distinct(list) && i < |list|
    ensures Distinct(Without(list, i)) && list[i] !in Without(list, i)
    decreases |list|
  {
    var n := |list| - 1;
    if i == n {
      assert Without(list, i) == list[..n];
    } else {
      DistinctWithout(list[..n], i);
      var rest := Without(list, i);
      assert rest[..|rest| - 1] == Without(list[..n], i);
      assert rest[|rest| - 1] == list[n];
      assert list[i] in list[..n];
      assert forall x :: x in Without(list[..n], i) ==> x in list[..n];
    }
  }

  lemma {:induction false} DistinctPair(list: seq<CachedMsg>, i: nat, j: nat)
    requires Distinct(list) && i < j < |list|
    ensures list[i] != list[j]
    decreases |list|
  {
    var n := |list| - 1;
    if j < n {
      DistinctPair(list[..n], i, j);
    } else {
      assert list[i] == list[..n][i];
    }
  }

  lemma SortedUpTo(list: seq<CachedMsg>, a: int, b: int)
    requires Sorted(list, a) && a <= b
    ensures Sorted(list, b)
  {
  }

  lemma SortedPush(list: seq<CachedMsg>, n: CachedMsg, bound: int)
    requires Sorted(list, n.expiration) && n.expiration <= bound
    ensures Sorted(list + [n], bound)
  {
    assert (list + [n])[..|list|] == list;
  }

  lemma DistinctPush(list: seq<CachedMsg>, n: CachedMsg)
    requires Distinct(list) && n !in list
    ensures Distinct(list + [n])
  {
    assert (list + [n])[..|list|] == list;
  }

  lemma {:induction false} SortedWithout(list: seq<CachedMsg>, i: nat, bound: int)
    requires Sorted(list, bound) && i < |list|
    ensures Sorted(Without(list, i), bound)
    decreases |list|
  {
    var n := |list| - 1;
    if i == n {
      assert Without(list, i) == list[..n];
      SortedUpTo(list[..n], list[n].expiration, bound);
    } else {
      SortedWithout(list[..n], i, list[n].expiration);
      var rest := Without(list, i);
      assert rest[..|rest| - 1] == Without(list[..n], i);
      assert rest[|rest| - 1] == list[n];
    }
  }

  lemma {:induction false} SortedAt(list: seq<CachedMsg>, bound: int, i: nat, j: nat)
    requires Sorted(list, bound) && i <= j < |list|
    ensures list[i].expiration <= list[j].expiration <= bound
    decreases |list|
  {
    var n := |list| - 1;
    if j < n {
      SortedAt(list[..n], list[n].expiration, i, j);
    } else if i < n {
      SortedAt(list[..n], list[n].expiration, i, n - 1);
    }
  }

  /** The end of a sorted list. */
  lemma {:induction false} SortedFrom(list: seq<CachedMsg>, bound: int, k: nat)
    requires Sorted(list, bound) && k <= |list|
    ensures Sorted(list[k..], bound)
    decreases |list|
  {
    if k < |list| {
      var n := |list| - 1;
      SortedFrom(list[..n], list[n].expiration, k);
      assert list[k..][..n - k] == list[..n][k..];
    }
  }

  lemma {:induction false} DistinctFrom(list: seq<CachedMsg>, k: nat)
    requires Distinct(list) && k <= |list|
    ensures Distinct(list[k..])
    decreases |list|
  {
    if k < |list| {
      var n := |list| - 1;
      DistinctFrom(list[..n], k);
      assert list[k..][..n - k] == list[..n][k..];
      assert forall x :: x in list[..n][k..] ==> x in list[..n];
    }
  }

  lemma MappedWithout(list: seq<CachedMsg>, seqMaps: map<nat, CachedMsg>, i: nat)
    requires Mapped(list, seqMaps) && i < |list|
    ensures Mapped(Without(list, i) + [list[i]], seqMaps)
  {
    var moved := Without(list, i) + [list[i]];
    forall s | s in seqMaps ensures seqMaps[s] in moved {
      var j :| 0 <= j < |list| && list[j] == seqMaps[s];
      assert j < i ==> moved[j] == list[j];
      assert j > i ==> moved[j - 1] == list[j];
      assert j == i ==> moved[|list| - 1] == list[i];
    }
  }

  lemma MappedWith(list: seq<CachedMsg>, seqMaps: map<nat, CachedMsg>, n: CachedMsg)
    requires Mapped(list, seqMaps) && n.msg.sequence !in seqMaps
    ensures Mapped(list + [n], seqMaps[n.msg.sequence := n])
  {
    var more := list + [n];
    forall s | s in seqMaps ensures seqMaps[s] in more {
      assert seqMaps[s] in list;
    }
    assert more[|list|] == n;
  }

  /** What can be said of a list from which a node is about to be moved to the end. */
  lemma Moving(list: seq<CachedMsg>, seqMaps: map<nat, CachedMsg>, i: nat)
    requires Distinct(list) && Mapped(list, seqMaps) && i < |list| - 1
    ensures Distinct(Without(list, i)) && list[i] !in Without(list, i)
    ensures Mapped(Without(list, i) + [list[i]], seqMaps)
    ensures InOrder(list) ==> Sorted(Without(list, i), list[|list| - 1].expiration)
  {
    DistinctWithout(list, i);
    MappedWithout(list, seqMaps, i);
    if InOrder(list) {
      SortedWithout(list, i, list[|list| - 1].expiration);
    }
  }

  /** Expirations go up along the list. */
  ghost predicate InOrder(list: seq<CachedMsg>)
    reads list`expiration
  {
    list == [] || Sorted(list, list[|list| - 1].expiration)
  }

  class MsgsCache {
    var tryEvict: bool
    var seqMaps: map<nat, CachedMsg>
    var head: CachedMsg?
    var tail: CachedMsg?
    ghost var list: seq<CachedMsg>
    /** The time of the last operation. */
    ghost var clock: int

    /** The list and the map hold the same entries, and the flag is set unless there are none. */
    ghost predicate Kept()
      reads this, list
    {
      Linked(list, head, tail) && Distinct(list) && Mapped(list, seqMaps) && (list != [] ==> tryEvict)
    }

    ghost predicate Ordered()
      reads this, list
    {
      InOrder(list)
    }

    /** No message expires later than one that would be used now. */
    ghost predicate InTime()
      reads this, list
    {
      Sorted(list, clock + CACHE_TTL)
    }

    /**
     Using the message makes it expire before the one in front of it: it is the last, and that one lies ahead of the
     time.
     */
    ghost predicate Lowers(s: nat, now: int)
      reads this, list
    {
      s in seqMaps && seqMaps[s] == tail && |list| > 1 && list[|list| - 2].expiration > now + CACHE_TTL
    }

    constructor ()
      ensures Kept() && Ordered() && InTime() && list == [] && fresh(this)
    {
      tryEvict, seqMaps, head, tail, list, clock := false, map[], null, null, [], 0;
    }

    /** Puts a node that is in no list at the end. */
    method PushTail(n: CachedMsg)
      requires Linked(list, head, tail) && n !in list
      modifies this`head, this`tail, this`list, n`prev, n`next, list`next
      ensures list == old(list) + [n] && Linked(list, head, tail)
    {
      n.next := null;
      n.prev := tail;
      if tail == null {
        head := n;
      } else {
        tail.next := n;
      }
      tail := n;
      list := list + [n];
    }

    /** Takes a node that is not the last one out of the list. */
    method Unlink(n: CachedMsg, ghost i: nat)
      requires Linked(list, head, tail) && Distinct(list) && i < |list| - 1 && list[i] == n
      modifies this`head, this`list, list`prev, list`next
      ensures list == Without(old(list), i) && Linked(list, head, tail) && tail == old(tail)
    {
      ghost var was, rest := list, Without(list, i);
      forall j, k | 0 <= j < k < |was| ensures was[j] != was[k] {
        DistinctPair(was, j, k);
      }
      if n.prev != null {
        n.prev.next := n.next;
      }
      if n.next != null {
        n.next.prev := n.prev;
      }
      if n == head {
        head := n.next;
      }
      assert forall k {:trigger was[k].next} :: 0 <= k < |was| - 1 ==> was[k].next == if k == i - 1 then was[i + 1]
        else was[k + 1];
      assert forall k {:trigger was[k].prev} :: 0 < k < |was| ==> was[k].prev == if k == i + 1
        then (if i > 0 then was[i - 1] else null) else was[k - 1];
      forall j | 0 <= j < |rest| - 1 ensures rest[j].next == rest[j + 1] {
        assert rest[j] == was[if j < i then j else j + 1];
        assert rest[j + 1] == was[if j + 1 < i then j + 1 else j + 2];
      }
      forall j | 0 < j < |rest| ensures rest[j].prev == rest[j - 1] {
        assert rest[j] == was[if j < i then j else j + 1];
        assert rest[j - 1] == was[if j - 1 < i then j - 1 else j];
      }
      list := rest;
    }

    /** Links a node that is not the last one behind the last one. */
    method Relink(n: CachedMsg, ghost i: nat)
      requires Linked(list, head, tail) && Distinct(list) && i < |list| - 1 && list[i] == n && n !in Without(list, i)
      modifies this`head, this`tail, this`list, list`prev, list`next
      ensures list == Without(old(list), i) + [n] && Linked(list, head, tail)
    {
      Unlink(n, i);
      PushTail(n);
    }

    /** Makes a node that is not the last one the last to expire. */
    method MoveToTail(n: CachedMsg, ghost i: nat, ghost rest: seq<CachedMsg>, now: int)
      requires Linked(list, head, tail) && Distinct(list) && i < |list| - 1 && list[i] == n && rest == Without(list, i)
      requires Distinct(rest) && n !in rest && Mapped(rest + [n], seqMaps) && tryEvict
      modifies this`head, this`tail, this`list, list`prev, list`next, n`expiration
      ensures Kept() && list == rest + [n] && n.expiration == Max(now + CACHE_TTL, old(tail.expiration))
      ensures old(Sorted(rest, tail.expiration)) ==> Ordered()
    {
      var expiration := Max(now + CACHE_TTL, tail.expiration);
      ghost var bound := tail.expiration;
      Relink(n, i);
      Bump(n, rest, bound, expiration);
    }

    /** The expiration of a node that was moved to the end. */
    method Bump(n: CachedMsg, ghost rest: seq<CachedMsg>, ghost bound: int, expiration: int)
      requires Linked(list, head, tail) && list == rest + [n] && Distinct(rest) && n !in rest && Mapped(list, seqMaps)
      requires tryEvict && bound <= expiration
      modifies n`expiration
      ensures Kept() && n.expiration == expiration && (old(Sorted(rest, bound)) ==> Ordered())
    {
      n.expiration := expiration;
      DistinctPush(rest, n);
      PushedTo(rest, n, bound);
    }

    /** The last node gets the longest time to live again. */
    method Refresh(n: CachedMsg, now: int)
      requires Kept() && list != [] && list[|list| - 1] == n
      modifies n`expiration
      ensures Kept() && n.expiration == now + CACHE_TTL
      ensures old(Ordered()) ==> (Ordered() <==> |list| == 1 || list[|list| - 2].expiration <= now + CACHE_TTL)
    {
      ghost var rest, was := list[..|list| - 1], n.expiration;
      n.expiration := now + CACHE_TTL;
      assert old(Ordered()) ==> Sorted(rest, was);
      assert Ordered() <==> Sorted(rest, now + CACHE_TTL);
      if Sorted(rest, was) && (rest != [] ==> rest[|rest| - 1].expiration <= now + CACHE_TTL) {
        SortedFit(rest, was, now + CACHE_TTL);
      }
    }

    /** Makes a message of the list the last to expire. */
    method Use(m: CachedMsg, now: int)
      requires Kept() && m in list
      modifies this`head, this`tail, this`list, list
      ensures Kept() && list != [] && list[|list| - 1] == m && multiset(list) == multiset(old(list))
      ensures m.expiration >= now + CACHE_TTL
      ensures old(list[|list| - 1].expiration) <= now + CACHE_TTL ==> m.expiration == now + CACHE_TTL
      ensures old(Ordered()) ==> (Ordered() <==> !old(Lowers(m.msg.sequence, now)))
    {
      ghost var i :| 0 <= i < |list| && list[i] == m;
      if m == tail {
        Refresh(m, now);
      } else {
        MovedSame(list, i);
        Moving(list, seqMaps, i);
        MoveToTail(m, i, Without(list, i), now);
      }
    }

    /** Looks a message up, and makes it the last to expire. */
    method Get(s: nat, now: int) returns (m: CachedMsg?)
      requires Kept()
      modifies this`head, this`tail, this`list, this`clock, list
      ensures Kept() && clock == now && m == (if s in seqMaps then seqMaps[s] else null)
      ensures m != null ==> list != [] && list[|list| - 1] == m && m.expiration >= now + CACHE_TTL
      ensures multiset(list) == multiset(old(list))
      ensures m == null ==> list == old(list) && forall n :: n in list ==> n.expiration == old(n.expiration)
      ensures old(Ordered()) ==> (Ordered() <==> !old(Lowers(s, now)))
      ensures old(InTime()) && old(clock) <= now ==> InTime()
    {
      if s !in seqMaps {
        Tick(now);
        return null;
      }
      m := seqMaps[s];
      UseNow(m, now);
    }

    /** In time, using a message lowers nothing. */
    lemma Timely(m: CachedMsg, now: int)
      requires Kept() && m in list && InTime() && clock <= now
      ensures Ordered() && !Lowers(m.msg.sequence, now) && list != [] && list[|list| - 1].expiration <= now + CACHE_TTL
    {
      if |list| > 1 {
        SortedAt(list, clock + CACHE_TTL, |list| - 2, |list| - 1);
      }
    }

    /** Time passes. */
    ghost method Tick(now: int)
      modifies this`clock
      ensures clock == now && (old(InTime()) && old(clock) <= now ==> InTime())
    {
      if InTime() && clock <= now {
        SortedUpTo(list, clock + CACHE_TTL, now + CACHE_TTL);
      }
      clock := now;
    }

    method UseNow(m: CachedMsg, now: int)
      requires Kept() && m in list
      modifies this`head, this`tail, this`list, this`clock, list
      ensures Kept() && clock == now && list != [] && list[|list| - 1] == m && multiset(list) == multiset(old(list))
      ensures m.expiration >= now + CACHE_TTL
      ensures old(Ordered()) ==> (Ordered() <==> !old(Lowers(m.msg.sequence, now)))
      ensures old(InTime()) && old(clock) <= now ==> InTime()
    {
      ghost var timely := InTime() && clock <= now;
      if timely {
        Timely(m, now);
      }
      Use(m, now);
      clock := now;
      if timely {
        LastFits(list, now + CACHE_TTL);
      }
    }

    /**
     Adds a message: a new one expires a while after it was published, one that was read a while after now. The caller
     knows that it is not in the cache, or asks for a check.
     */
    method Add(msg: Msg, isNew: bool, checkPresent: bool, now: int)
      requires Kept() && (checkPresent || msg.sequence !in seqMaps)
      modifies this, list
      ensures Kept() && clock == now && seqMaps.Keys == old(seqMaps.Keys) + {msg.sequence}
      ensures msg.sequence in old(seqMaps) ==> seqMaps == old(seqMaps)
      ensures msg.sequence !in old(seqMaps) ==>
                seqMaps[msg.sequence].msg == msg && list == old(list) + [seqMaps[msg.sequence]]
      ensures msg.sequence !in old(seqMaps) ==>
                && fresh(seqMaps[msg.sequence])
                && seqMaps[msg.sequence].expiration >= CACHE_TTL + (if isNew then msg.timestamp else now)
                && forall n :: n in old(list) ==> n.expiration == old(n.expiration)
      ensures old(Ordered()) ==> (Ordered() <==> !old(Lowers(msg.sequence, now)))
      ensures old(InTime()) && old(clock) <= now && (isNew ==> msg.timestamp <= now) ==> InTime()
    {
      var present := false;
      if checkPresent {
        present := Touch(msg.sequence, now);
      }
      if !present {
        Append(msg, CACHE_TTL + if isNew then msg.timestamp else now, now);
      }
    }

    method Touch(s: nat, now: int) returns (present: bool)
      requires Kept()
      modifies this`head, this`tail, this`list, this`clock, list
      ensures Kept() && clock == now && (present <==> s in seqMaps)
      ensures !present ==> list == old(list) && forall n :: n in list ==> n.expiration == old(n.expiration)
      ensures forall n :: n in list <==> n in old(list)
      ensures old(Ordered()) ==> (Ordered() <==> !old(Lowers(s, now)))
      ensures old(InTime()) && old(clock) <= now ==> InTime()
    {
      var m := Get(s, now);
      present := m != null;
      assert forall n :: n in list <==> n in multiset(list);
    }

    /** The node for a message: it expires no earlier than the last one. */
    method NewNode(msg: Msg, expiration: int) returns (n: CachedMsg)
      requires Kept()
      ensures fresh(n) && n.msg == msg
      ensures n.expiration == if list == [] then expiration else Max(expiration, list[|list| - 1].expiration)
    {
      n := new CachedMsg(msg, expiration);
      if tail != null {
        n.expiration := Max(n.expiration, tail.expiration);
      }
    }

    method Append(msg: Msg, expiration: int, now: int)
      requires Kept() && msg.sequence !in seqMaps
      modifies this, list`next
      ensures Kept() && clock == now && msg.sequence in seqMaps
              && seqMaps == old(seqMaps)[msg.sequence := seqMaps[msg.sequence]]
      ensures seqMaps[msg.sequence].msg == msg && list == old(list) + [seqMaps[msg.sequence]]
      ensures fresh(seqMaps[msg.sequence]) && seqMaps[msg.sequence].expiration >= expiration
      ensures old(Ordered()) ==> Ordered()
      ensures old(InTime()) && old(clock) <= now && expiration <= now + CACHE_TTL ==> InTime()
    {
      var n := NewNode(msg, expiration);
      Pushed(list, n, clock + CACHE_TTL, now + CACHE_TTL);
      Enter(n);
      clock := now;
    }

    /** A node that is in no list comes to the end, and into the map. */
    method Enter(n: CachedMsg)
      requires Kept() && n !in list && n.msg.sequence !in seqMaps
      modifies this`head, this`tail, this`list, this`seqMaps, this`tryEvict, n`prev, n`next, list`next
      ensures Kept() && list == old(list) + [n] && seqMaps == old(seqMaps)[n.msg.sequence := n]
    {
      ghost var was := list;
      DistinctPush(list, n);
      PushTail(n);
      Record(n, was);
    }

    /** The map gets the node that was put at the end. */
    method Record(n: CachedMsg, ghost was: seq<CachedMsg>)
      requires Linked(list, head, tail) && Distinct(list) && Mapped(was, seqMaps)
      requires list == was + [n] && n.msg.sequence !in seqMaps && (was != [] ==> tryEvict)
      modifies this`seqMaps, this`tryEvict
      ensures Kept() && seqMaps == old(seqMaps)[n.msg.sequence := n]
    {
      MappedWith(was, seqMaps, n);
      OneEntry(was, seqMaps, n.msg.sequence, n);
      seqMaps := seqMaps[n.msg.sequence := n];
      if |seqMaps| == 1 {
        tryEvict := true;
      }
    }

    // ---------- Eviction ----------

    method Empty()
      modifies this
      ensures Kept() && Ordered() && InTime() && list == [] && seqMaps == map[] && !tryEvict
    {
      tryEvict, head, tail, seqMaps, list := false, null, null, map[], [];
    }

    method DropEntry(n: CachedMsg, ghost k: nat)
      requires Distinct(list) && k < |list| && list[k] == n && Mapped(list[k..], seqMaps)
      modifies this`seqMaps
      ensures Mapped(list[k + 1..], seqMaps) && seqMaps.Keys <= old(seqMaps.Keys)
    {
      DistinctFrom(list, k);
      MappedTail(list[k..], seqMaps);
      assert list[k..][1..] == list[k + 1..];
      seqMaps := seqMaps - {n.msg.sequence};
    }

    /** Goes past the expired nodes from the head on, and takes them out of the map. */
    method PassExpired(now: int) returns (n: CachedMsg?, ghost k: nat)
      requires Linked(list, head, tail) && Distinct(list) && Mapped(list, seqMaps) && list != []
               && tail.expiration > now
      modifies this`seqMaps
      ensures Front(list, k, now) && n == list[k] && Mapped(list[k..], seqMaps)
      ensures seqMaps.Keys <= old(seqMaps.Keys)
    {
      n, k := head, 0;
      assert list[0..] == list;
      while n != null && n.expiration <= now
        invariant k < |list| && n == list[k] && Mapped(list[k..], seqMaps) && seqMaps.Keys <= old(seqMaps.Keys)
        invariant forall j :: 0 <= j < k ==> list[j].expiration <= now
        decreases |list| - k
      {
        DropEntry(n, k);
        n, k := n.next, k + 1;
      }
    }

    /** The list begins with a later node. */
    method CutAt(n: CachedMsg, ghost k: nat)
      requires Linked(list, head, tail) && Distinct(list) && k < |list| && list[k] == n
      modifies this`head, this`list, n`prev
      ensures list == old(list)[k..] && Linked(list, head, tail)
    {
      if k > 0 {
        DistinctPair(list, 0, k);
      }
      ghost var was := list;
      if n != head {
        n.prev := null;
        head := n;
      }
      list := list[k..];
      forall j | 0 < j < |list| ensures list[j] != n {
        DistinctPair(was, k, k + j);
      }
    }

    /**
     Evicts everything if the last message has expired, else the longest expired beginning of the list; of a list in
     order, these are exactly the messages that have expired.
     */
    method Evict(now: int)
      requires Kept()
      modifies this, list`prev
      ensures Kept() && (old(Ordered()) ==> Ordered()) && (old(InTime()) ==> InTime())
      ensures old(list) != [] && old(tail.expiration) <= now ==> list == []
      ensures old(list) != [] && old(tail.expiration) > now ==>
                exists k :: 0 <= k < |old(list)| && list == old(list)[k..] && Front(old(list), k, now)
      ensures old(Ordered()) ==> forall n :: n in list <==> n in old(list) && n.expiration > now
      ensures seqMaps.Keys <= old(seqMaps.Keys) && (list == [] ==> !tryEvict || old(list) == [])
    {
      if head == null {
        return;
      }
      if now >= tail.expiration {
        if Ordered() {
          AllExpired(list, now);
        }
        Empty();
        return;
      }
      ghost var was := list;
      ghost var k := EvictFront(now);
      StillSorted(was, k, now, clock + CACHE_TTL);
    }

    /** Evicts the longest expired beginning of the list, behind which there is a message that has not expired. */
    method EvictFront(now: int) returns (ghost k: nat)
      requires Kept() && list != [] && tail.expiration > now
      modifies this`seqMaps, this`head, this`list, list`prev
      ensures Kept() && list != [] && seqMaps.Keys <= old(seqMaps.Keys)
      ensures Front(old(list), k, now) && list == old(list)[k..]
    {
      var n;
      n, k := PassExpired(now);
      Shorten(n, k);
    }

    method Shorten(n: CachedMsg, ghost k: nat)
      requires Linked(list, head, tail) && Distinct(list) && k < |list| && list[k] == n && tryEvict
      requires Mapped(list[k..], seqMaps)
      modifies this`head, this`list, n`prev
      ensures Kept() && list == old(list)[k..]
    {
      DistinctFrom(list, k);
      CutAt(n, k);
    }
  }

  lemma StillSorted(list: seq<CachedMsg>, k: nat, now: int, bound: int)
    requires Front(list, k, now) && Distinct(list)
    ensures InOrder(list) ==> InOrder(list[k..]) && forall n :: n in list[k..] <==> n in list && n.expiration > now
    ensures Sorted(list, bound) ==> Sorted(list[k..], bound)
  {
    if Sorted(list, bound) {
      SortedFrom(list, bound, k);
    }
    if InOrder(list) {
      Survivors(list, list[|list| - 1].expiration, k, now);
    }
  }

  /** The first `k` nodes have expired, and the next one has not. */
  ghost predicate Front(list: seq<CachedMsg>, k: nat, now: int)
    reads list`expiration
  {
    && k < |list| && list[k].expiration > now && forall j :: 0 <= j < k ==> list[j].expiration <= now
  }

  lemma AllExpired(list: seq<CachedMsg>, now: int)
    requires list != [] && InOrder(list) && list[|list| - 1].expiration <= now
    ensures forall n :: n in list ==> n.expiration <= now
  {
    forall j | 0 <= j < |list| ensures list[j].expiration <= now {
      SortedAt(list, list[|list| - 1].expiration, j, |list| - 1);
    }
  }

  /** A sorted list fits any bound that its last node fits. */
  lemma SortedFit(list: seq<CachedMsg>, a: int, b: int)
    requires Sorted(list, a) && (list != [] ==> list[|list| - 1].expiration <= b)
    ensures Sorted(list, b)
  {
  }

  lemma LastFits(list: seq<CachedMsg>, bound: int)
    requires InOrder(list) && (list != [] ==> list[|list| - 1].expiration <= bound)
    ensures Sorted(list, bound)
  {
  }

  lemma PushedTo(rest: seq<CachedMsg>, n: CachedMsg, bound: int)
    requires bound <= n.expiration
    ensures Sorted(rest, bound) ==> InOrder(rest + [n])
  {
    if Sorted(rest, bound) {
      SortedUpTo(rest, bound, n.expiration);
      SortedPush(rest, n, n.expiration);
    }
  }

  /** A node that expires no earlier than the last one is put at the end. */
  lemma Pushed(list: seq<CachedMsg>, n: CachedMsg, a: int, b: int)
    requires list != [] ==> list[|list| - 1].expiration <= n.expiration
    ensures InOrder(list) ==> InOrder(list + [n])
    ensures Sorted(list, a) && n.expiration <= b ==> Sorted(list + [n], b)
  {
    if InOrder(list) {
      LastFits(list, n.expiration);
      SortedPush(list, n, n.expiration);
    }
    if Sorted(list, a) && n.expiration <= b {
      SortedFit(list, a, n.expiration);
      SortedPush(list, n, b);
    }
  }

  /** Messages whose time stamps lie ahead: using the last one breaks the order. */
  method FutureMessages(now: int) returns (c: MsgsCache)
    ensures c.Kept() && !c.Ordered()
  {
    c := new MsgsCache();
    c.Add(Msg(1, now + 1, ""), true, false, now);
    ghost var first := c.list[0];
    c.Add(Msg(2, now + 1, ""), true, false, now);
    assert c.list[0] == first && first.expiration > now + CACHE_TTL && c.seqMaps[2] == c.tail;
    var m := c.Get(2, now);
  }

  /** The nodes from the first one that has not expired are those that have not. */
  lemma Survivors(list: seq<CachedMsg>, bound: int, k: nat, now: int)
    requires Sorted(list, bound) && Distinct(list) && k < |list| && list[k].expiration > now
    requires forall j :: 0 <= j < k ==> list[j].expiration <= now
    ensures Sorted(list[k..], bound) && Distinct(list[k..])
    ensures forall n :: n in list[k..] <==> n in list && n.expiration > now
  {
    SortedFrom(list, bound, k);
    DistinctFrom(list, k);
    forall j | k <= j < |list| ensures list[j].expiration > now {
      SortedAt(list, bound, k, j);
    }
    assert list == list[..k] + list[k..];
  }

  /** The first node goes, and its entry with it. */
  lemma MappedTail(list: seq<CachedMsg>, seqMaps: map<nat, CachedMsg>)
    requires Mapped(list, seqMaps) && Distinct(list) && list != []
    ensures Mapped(list[1..], seqMaps - {list[0].msg.sequence})
  {
    forall j | 0 < j < |list| ensures list[j] != list[0] {
      DistinctPair(list, 0, j);
    }
    forall s | s in seqMaps && s != list[0].msg.sequence ensures seqMaps[s] in list[1..] {
      var j :| 0 <= j < |list| && list[j] == seqMaps[s];
      assert list[1..][j - 1] == list[j];
    }
  }

  lemma OneEntry(list: seq<CachedMsg>, seqMaps: map<nat, CachedMsg>, s: nat, n: CachedMsg)
    requires Mapped(list, seqMaps)
    ensures list == [] ==> |seqMaps[s := n]| == 1
  {
    if list == [] {
      assert seqMaps == map[];
    }
  }

  lemma MovedSame(list: seq<CachedMsg>, i: nat)
    requires i < |list|
    ensures multiset(Without(list, i) + [list[i]]) == multiset(list)
  {
    assert list == list[..i] + [list[i]] + list[i + 1..];
  }
}
