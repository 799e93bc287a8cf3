/**
 Refilling a follower's log from the leader over a lossy exchange of requests and responses (server/snapshot.go, the
 leader's request handler in server/server.go, the publish case of Apply in server/clustering.go).

 Both parties are 0.14.2+ servers. Whatever the network and the passing of time may do is left open: responses get lost,
 the leader loses old messages and receives new ones between any two steps.
 */
module Restore {
  import opened Basics
  import opened MsgLog

  /** The message that was committed under each sequence. */
  datatype History = History(timestamp: nat -> int, data: nat -> string)
  {
    function Get(s: nat): Msg {
      Msg(s, timestamp(s), data(s))
    }
  }

  ghost predicate Agrees(l: Log, h: History) {
    l.Valid() && forall s :: l.Has(s) ==> l.At(s) == h.Get(s)
  }

  function Committed(h: History, from: nat, n: nat): (r: seq<Msg>)
    ensures |r| == n && forall i :: 0 <= i < n ==> r[i] == h.Get(from + i)
  {
    seq(n, i requires 0 <= i => h.Get(from + i))
  }

  lemma GrownAgrees(l: Log, h: History, n: nat)
    requires Agrees(l, h) && l.first > 0
    ensures var g := Log(l.first, l.entries + Committed(h, l.Last() + 1, n));
            Agrees(g, h) && l.Last() <= g.Last() && (l.entries != [] ==> g.entries != [])
  {
    var more := Committed(h, l.Last() + 1, n);
    var g := Log(l.first, l.entries + more);
    forall s: nat | g.Has(s)
      ensures g.At(s) == h.Get(s)
    {
      if s <= l.Last() {
        assert l.Has(s) && l.At(s) == g.At(s);
      } else {
        assert g.At(s) == more[s - (l.Last() + 1)];
      }
    }
    assert forall i :: 0 <= i < |g.entries| ==> g.entries[i] == g.At(l.first + i);
  }

  lemma DropAgrees(l: Log, h: History, k: nat)
    requires Agrees(l, h) && l.first > 0 && k <= |l.entries|
    ensures Agrees(l.Drop(k), h) && l.Drop(k).Last() == l.Last()
  {
    var d := l.Drop(k);
    forall s | d.Has(s)
      ensures d.At(s) == h.Get(s)
    {
      assert l.Has(s) && l.At(s) == d.At(s);
    }
  }

  /** A response carries a message, or nothing when the leader has no message at all. */
  datatype Response = Response(msg: Option<Msg>, firstAvail: bool)
  {
    function Seq(): nat
      requires msg.Some?
    {
      msg.value.sequence
    }
  }

  /**
   The responses still to come for a request whose next expected sequence is `from` and whose last one is `end`, when
   the oldest message of the leader is `oldest`. Only the last of them can lie at or past `end`, or be empty.
   */
  ghost predicate Batch(h: History, q: seq<Response>, from: nat, end: nat, oldest: nat, keepsOne: bool) {
    q == [] ||
    if q[0].msg.None? then |q| == 1 && !keepsOne
    else
      && q[0].msg.value == h.Get(q[0].Seq())
      && from <= q[0].Seq()
      && (q[0].firstAvail ==> q[0].Seq() <= oldest)
      && (end <= q[0].Seq() ==> |q| == 1)
      && Batch(h, q[1..], q[0].Seq() + 1, end, oldest, keepsOne)
  }

  /** The sequence after the ones that `q` is about. */
  ghost function After(h: History, q: seq<Response>, from: nat, end: nat, oldest: nat, keepsOne: bool): (s: nat)
    requires Batch(h, q, from, end, oldest, keepsOne)
    ensures from <= s
  {
    if q == [] || q[0].msg.None? then from
    else After(h, q[1..], q[0].Seq() + 1, end, oldest, keepsOne)
  }

  lemma {:induction false} BatchExtend(h: History, q: seq<Response>, r: Response, from: nat, end: nat, oldest: nat,
                                       keepsOne: bool)
    requires Batch(h, q, from, end, oldest, keepsOne)
    requires forall i :: 0 <= i < |q| ==> q[i].msg.Some?
    requires var s := After(h, q, from, end, oldest, keepsOne);
             && s <= end
             && if r.msg.None? then !keepsOne
                else r.msg.value == h.Get(r.Seq()) && s <= r.Seq() && (r.firstAvail ==> r.Seq() <= oldest)
    ensures Batch(h, q + [r], from, end, oldest, keepsOne)
    ensures r.msg.Some? ==> After(h, q + [r], from, end, oldest, keepsOne) == r.Seq() + 1
    decreases |q|
  {
    if q == [] {
      assert (q + [r])[1..] == [];
    } else {
      assert (q + [r])[1..] == q[1..] + [r];
      BatchExtend(h, q[1..], r, q[0].Seq() + 1, end, oldest, keepsOne);
    }
  }

  /** Whatever responses are lost, what follows the received one is again the rest of a request. */
  lemma {:induction false} BatchRest(h: History, q: seq<Response>, k: nat, from: nat, end: nat, oldest: nat,
                                     keepsOne: bool)
    requires Batch(h, q, from, end, oldest, keepsOne) && k < |q|
    ensures var r := q[k];
            if r.msg.None? then !keepsOne
            else
              && r.msg.value == h.Get(r.Seq()) && from <= r.Seq()
              && (r.firstAvail ==> r.Seq() <= oldest)
              && Batch(h, q[k + 1..], r.Seq() + 1, end, oldest, keepsOne)
              && (end <= r.Seq() ==> q[k + 1..] == [])
    decreases k
  {
    if k > 0 {
      BatchRest(h, q[1..], k - 1, q[0].Seq() + 1, end, oldest, keepsOne);
      assert q[1..][k..] == q[k + 1..];
    }
  }

  lemma {:induction false} BatchLater(h: History, q: seq<Response>, from: nat, end: nat, oldest: nat, oldest': nat,
                                      keepsOne: bool)
    requires Batch(h, q, from, end, oldest, keepsOne) && oldest <= oldest'
    ensures Batch(h, q, from, end, oldest', keepsOne)
    ensures After(h, q, from, end, oldest', keepsOne) == After(h, q, from, end, oldest, keepsOne)
    decreases |q|
  {
    if q != [] && q[0].msg.Some? {
      BatchLater(h, q[1..], q[0].Seq() + 1, end, oldest, oldest', keepsOne);
    }
  }

  ghost predicate SomeIn(q: seq<Response>) {
    forall i :: 0 <= i < |q| ==> q[i].msg.Some?
  }

  ghost predicate NoneIn(q: seq<Response>) {
    forall i :: 0 <= i < |q| ==> q[i].msg.None?
  }

  class Leader {
    const h: History
    /** The log never loses its last message, as when neither age limit nor channel deletion applies. */
    const keepsOne: bool
    /** The log stays as it is while requests are served. */
    const quiet: bool
    var log: Log

    ghost predicate Valid()
      reads this
    {
      Agrees(log, h) && log.first > 0 && (keepsOne ==> log.entries != [])
    }

    constructor (h: History, log: Log, keepsOne: bool, quiet: bool)
      requires Agrees(log, h) && log.first > 0 && (keepsOne ==> log.entries != [])
      ensures Valid() && this.h == h && this.log == log && this.keepsOne == keepsOne && this.quiet == quiet
    {
      this.h, this.log, this.keepsOne, this.quiet := h, log, keepsOne, quiet;
    }

    /** New messages arrive. */
    method Grow()
      requires Valid()
      modifies this
      ensures Valid() && (quiet ==> log == old(log))
      ensures log.first == old(log.first) && old(log.Last()) <= log.Last()
    {
      var n: nat :| 0 <= n;
      if !quiet {
        GrownAgrees(log, h, n);
        log := Log(log.first, log.entries + Committed(h, log.Last() + 1, n));
      }
    }

    /** Old messages go. */
    method Expire()
      requires Valid()
      modifies this
      ensures Valid() && (quiet ==> log == old(log))
      ensures old(log.first) <= log.first && log.Last() == old(log.Last())
    {
      var k: nat :| 0 <= k;
      if !quiet && (k < |log.entries| || (k == |log.entries| && !keepsOne)) {
        DropAgrees(log, h, k);
        log := log.Drop(k);
      }
    }

    /** Time passes. */
    method Advance()
      requires Valid()
      modifies this
      ensures Valid() && (quiet ==> log == old(log))
      ensures old(log.first) <= log.first && old(log.Last()) <= log.Last()
    {
      Grow();
      Expire();
    }

    /** The handler of restore requests. */
    method Serve(start: nat, end: nat) returns (q: seq<Response>)
      requires Valid()
      modifies this
      ensures Valid()
      ensures old(log.first) <= log.first && old(log.Last()) <= log.Last()
      ensures end <= old(log.Last()) ==> Batch(h, q, start, end, log.first, keepsOne)
      ensures q != [] && q[0].msg.Some? && !q[0].firstAvail ==> q[0].Seq() == start
      ensures quiet ==> log == old(log)
      ensures quiet && log.entries == [] && start <= end ==> q == [Response(None, false)]
      ensures quiet && log.entries != [] && end <= log.Last() ==> SomeIn(q)
    {
      q := [];
      var s := start;
      while s <= end
        invariant Valid() && start <= s
        invariant old(log.first) <= log.first && old(log.Last()) <= log.Last()
        invariant forall i :: 0 <= i < |q| ==> q[i].msg.Some?
        invariant end <= old(log.Last()) ==> Batch(h, q, start, end, log.first, keepsOne)
        invariant end <= old(log.Last()) ==> After(h, q, start, end, log.first, keepsOne) == s
        invariant q == [] ==> s == start
        invariant q != [] && !q[0].firstAvail ==> q[0].Seq() == start
        invariant quiet ==> log == old(log) && (log.entries == [] ==> q == [])
        decreases end + 1 - s
      {
        ghost var oldest := log.first;
        var r := Answer(s);
        if end <= old(log.Last()) {
          BatchLater(h, q, start, end, oldest, log.first, keepsOne);
          BatchExtend(h, q, r, start, end, log.first, keepsOne);
        }
        q := q + [r];
        if r.msg.None? {
          return;
        }
        s := r.Seq() + 1;
      }
    }

    /** The response about sequence `s`: its message, else the first available one. */
    method Answer(s: nat) returns (r: Response)
      requires Valid()
      modifies this
      ensures Valid()
      ensures old(log.first) <= log.first && old(log.Last()) <= log.Last()
      ensures r.msg.Some? ==> s <= r.Seq() && r.msg.value == h.Get(r.Seq())
      ensures r.msg.Some? && r.firstAvail ==> r.Seq() <= log.first
      ensures r.msg.Some? && !r.firstAvail ==> r.Seq() == s
      ensures r.msg.None? && keepsOne ==> old(log.Last()) < s
      ensures quiet ==> log == old(log) && (log.entries == [] ==> r == Response(None, false))
      ensures quiet && log.entries != [] && s <= log.Last() ==> r.msg.Some?
    {
      Advance();
      var msg := log.Lookup(s);
      var firstAvail := false;
      if msg == None {
        Advance();
        msg := log.Lookup(log.first);
        firstAvail := msg.Some?;
        if firstAvail && msg.value.sequence < s {
          msg := None;
        }
      }
      return Response(msg, firstAvail);
    }
  }

  datatype Outcome =
    | Restored        // returned without error
    | LeaderEmpty     // returned without error after the leader answered that it has no message
    | Failed          // returned an error: a response was lost, or a check did not succeed

  const BATCH: nat := 100

  /** The next response to arrive, after any number of lost ones; none at all is a timeout. */
  method NextMsg(q: seq<Response>, reliable: bool)
    returns (resp: Option<Response>, rest: seq<Response>, ghost lost: nat)
    ensures resp.Some? ==> lost < |q| && resp.value == q[lost] && rest == q[lost + 1..]
    ensures resp.None? ==> rest == [] && (reliable ==> q == [])
  {
    var k: nat :| 0 <= k;
    if reliable {
      k := 0;
    }
    lost := k;
    if k < |q| {
      resp, rest := Some(q[k]), q[k + 1..];
    } else {
      resp, rest := None, [];
    }
  }

  /** Storing the next message of the history keeps the log in agreement with it. */
  lemma StoreAgrees(limits: Limits, cost: Msg -> nat, l: Log, h: History, m: Msg)
    requires Agrees(l, h) && m == h.Get(m.sequence) && m.sequence > 0
    requires l.first == 0 || l.Last() + 1 == m.sequence
    ensures var r := Store(limits, cost, l, m);
            && Agrees(r, h) && r.Last() == m.sequence && r.first > 0
            && (limits.maxMsgs <= 0 && limits.maxBytes <= 0 ==> r.first == if l.first == 0 then m.sequence else l.first)
  {
    StoreKeepsLast(limits, cost, l, m);
    var a := Append(l, m);
    assert l.first > 0 ==> Fill(l.Last() + 1, m.sequence, m.timestamp) == [];
    assert Agrees(a, h) by {
      forall s: nat | a.Has(s) ensures a.At(s) == h.Get(s) {
        if s < m.sequence { assert l.Has(s) && l.At(s) == a.At(s); }
      }
    }
    var k := TrimIsLeast(limits, cost, a);
    DropAgrees(a, h, k);
    assert limits.maxMsgs <= 0 && limits.maxBytes <= 0 ==> Trim(limits, cost, a) == a;
  }

  /** The channel of a follower: its message store and the floor that snapshots set. */
  class Channel {
    const limits: Limits
    const cost: Msg -> nat
    /** The follower's own store has an age limit. */
    const ages: bool
    /** No response gets lost. */
    const reliable: bool
    var store: Log
    var firstSeq: nat
    var lSeqChecked: bool

    constructor (limits: Limits, cost: Msg -> nat, ages: bool, reliable: bool, firstSeq: nat)
      ensures store == EMPTY_LOG && this.firstSeq == firstSeq && !lSeqChecked
      ensures this.limits == limits && this.cost == cost && this.ages == ages && this.reliable == reliable
    {
      this.limits, this.cost, this.ages, this.reliable := limits, cost, ages, reliable;
      store, this.firstSeq, lSeqChecked := EMPTY_LOG, firstSeq, false;
    }

    /** The store is a run of the history, and the floor does not lie past its end. */
    ghost predicate Consistent(h: History)
      reads this
    {
      Agrees(store, h) && (store.first > 0 ==> store.Last() > 0 && firstSeq <= store.Last() + 1)
    }

    /** Nothing up to `last` is missing: the reported last sequence is at least `last`. */
    predicate Reaches(last: nat)
      reads this
    {
      store.Last() >= last || (store == EMPTY_LOG && firstSeq >= last + 1)
    }

    /** The first and last sequences a clustered server reports for the channel. */
    function FirstAndLastSeq(): (r: (nat, nat))
      reads this
      ensures store.Valid() ==> forall last: nat :: Reaches(last) ==> last <= r.1
    {
      if store.first == 0 && store.Last() == 0 && firstSeq != 0 then (firstSeq, firstSeq - 1)
      else (store.first, store.Last())
    }

    /** Asks again for `reqSeq` alone, to tell a first available message from a loss in transit. */
    method HasLeaderSentFirstAvail(leader: Leader, reqSeq: nat, gotSeq: nat) returns (ok: bool)
      requires leader.Valid() && reqSeq <= leader.log.Last() && reqSeq != gotSeq
      modifies leader
      ensures leader.Valid()
      ensures old(leader.log.first) <= leader.log.first && old(leader.log.Last()) <= leader.log.Last()
      ensures ok ==> gotSeq <= leader.log.first
      ensures leader.quiet ==> leader.log == old(leader.log)
    {
      var q := leader.Serve(reqSeq, reqSeq);
      var resp, _, lost := NextMsg(q, reliable);
      ok := resp.Some? && resp.value.msg.Some? && resp.value.Seq() == gotSeq;
      if ok {
        BatchRest(leader.h, q, lost, reqSeq, reqSeq, leader.log.first, leader.keepsOne);
      }
    }

    /** Messages of the follower's own store reach the age limit. */
    method Age(ghost h: History)
      requires Consistent(h)
      modifies this
      ensures Consistent(h) && firstSeq == old(firstSeq)
      ensures store.Last() == old(store.Last()) && (store.first == 0 <==> old(store.first) == 0)
      ensures !ages ==> store == old(store)
    {
      var k: nat :| 0 <= k;
      if ages && k <= |store.entries| && store.first > 0 {
        DropAgrees(store, h, k);
        store := store.Drop(k);
      }
    }

    /** Both the limits and the age limit leave this store alone. */
    predicate Unbounded() {
      limits.maxMsgs <= 0 && limits.maxBytes <= 0 && !ages
    }

    /** The positions before the loop: an outdated store goes, and the first sequence to ask for is fixed. */
    method StartAt(first: nat, fromApply: bool) returns (start: nat)
      modifies this
      ensures firstSeq == old(firstSeq)
      ensures store == if !fromApply && first > old(store.Last()) + 1 && old(store.Last()) != 0 then EMPTY_LOG
              else old(store)
      ensures start == Start(old(store.Last()), old(firstSeq), first, fromApply)
    {
      var storeLast := store.Last();
      start := if fromApply then storeLast + 1 else first;
      if start > storeLast + 1 {
        if storeLast != 0 {
          store := EMPTY_LOG;
        }
      } else if start <= storeLast {
        start := storeLast + 1;
      }
      if firstSeq > start {
        start := firstSeq;
      }
    }

    /** One message, at the expected sequence `s` or later. `ok` is false when the restore fails on it. */
    method Receive(leader: Leader, resp: Response, s: nat, reqEnd: nat, last: nat) returns (ok: bool)
      requires leader.Valid() && resp.msg.Some? && resp.msg.value == leader.h.Get(resp.Seq())
      requires Consistent(leader.h) && firstSeq <= s && 0 < s <= resp.Seq() && s <= reqEnd <= last <= leader.log.Last()
      requires store.first == 0 || store.Last() + 1 == s
      requires resp.firstAvail ==> resp.Seq() <= leader.log.first
      modifies this, leader
      ensures leader.Valid() && Consistent(leader.h)
      ensures old(leader.log.first) <= leader.log.first && old(leader.log.Last()) <= leader.log.Last()
      ensures ok ==> resp.Seq() == s || resp.Seq() <= leader.log.first
      ensures ok && resp.Seq() <= last ==> firstSeq <= resp.Seq() == store.Last()
      ensures ok && resp.Seq() > last ==> store == EMPTY_LOG && firstSeq == last + 1
      ensures old(firstSeq) <= firstSeq <= last + 1
      ensures leader.quiet ==> leader.log == old(leader.log)
      ensures ok && Unbounded() && resp.Seq() <= last ==>
                store.first == if resp.Seq() == s && old(store.first) != 0 then old(store.first) else resp.Seq()
    {
      var msg := resp.msg.value;
      if msg.sequence != s {
        if !resp.firstAvail && s <= reqEnd {
          ok := HasLeaderSentFirstAvail(leader, s, msg.sequence);
          if !ok {
            return;
          }
        }
        store := EMPTY_LOG;
        if msg.sequence > last {
          firstSeq := last + 1;
          return true;
        }
        firstSeq := msg.sequence;
      }
      StoreAgrees(limits, cost, store, leader.h, msg);
      store := Store(limits, cost, store, msg);
      return true;
    }

    /** The loop of RestoreMsgs stands before sequence `s`, in a restore that began at `start`. */
    ghost predicate InLoop(leader: Leader, start: nat, s: nat, last: nat)
      reads this, leader
    {
      && leader.Valid() && last <= leader.log.Last()
      && 0 < start <= s <= last + 1
      && Consistent(leader.h) && firstSeq <= s
      && (store.first == 0 || store.Last() + 1 == s)
      && (s > start ==> store.first > 0)
      && (s > start && Unbounded() ==> store.first <= start || store.first <= leader.log.first)
    }

    /** Waits for the next response of the current request and processes it; `s'` is the sequence it was about. */
    method Step(leader: Leader, q: seq<Response>, start: nat, s: nat, reqEnd: nat, last: nat, stored: bool)
      returns (r: Outcome, rest: seq<Response>, s': nat)
      requires InLoop(leader, start, s, last) && s <= reqEnd <= last && (s == start || stored)
      requires Batch(leader.h, q, s, reqEnd, leader.log.first, leader.keepsOne)
      modifies this, leader
      ensures leader.Valid() && old(leader.log.Last()) <= leader.log.Last()
      ensures Consistent(leader.h) && old(firstSeq) <= firstSeq <= last + 1
      ensures r.Restored? ==> s <= s' && (s' >= reqEnd ==> rest == [])
      ensures r.Restored? && s' <= last ==>
                InLoop(leader, start, s' + 1, last)
                  && Batch(leader.h, rest, s' + 1, reqEnd, leader.log.first, leader.keepsOne)
      ensures r.Restored? && s' > last ==> store == EMPTY_LOG && firstSeq == last + 1 <= leader.log.first
      ensures leader.keepsOne ==> !r.LeaderEmpty?
      ensures r.LeaderEmpty? ==> store == EMPTY_LOG && firstSeq == s + 1
      ensures leader.quiet ==> leader.log == old(leader.log)
      ensures NoneIn(q) ==> !r.Restored? && (reliable && q != [] ==> r.LeaderEmpty?)
      ensures SomeIn(q) ==> !r.LeaderEmpty? && SomeIn(rest)
    {
      s' := s;
      var resp;
      ghost var lost;
      resp, rest, lost := NextMsg(q, reliable);
      if resp.None? {
        return Failed, rest, s';
      }
      BatchRest(leader.h, q, lost, s, reqEnd, leader.log.first, leader.keepsOne);
      if resp.value.msg.None? {
        if s == start || stored {
          store := EMPTY_LOG;
        }
        firstSeq := s + 1;
        return LeaderEmpty, rest, s';
      }
      ghost var oldest := leader.log.first;
      var ok := Receive(leader, resp.value, s, reqEnd, last);
      BatchLater(leader.h, rest, resp.value.Seq() + 1, reqEnd, oldest, leader.log.first, leader.keepsOne);
      return if ok then Restored else Failed, rest, resp.value.Seq();
    }

    /** Asks for a batch of messages from sequence `s` on. */
    method Request(leader: Leader, start: nat, s: nat, last: nat) returns (q: seq<Response>, reqEnd: nat)
      requires InLoop(leader, start, s, last) && s <= last
      modifies leader
      ensures InLoop(leader, start, s, last) && old(leader.log.Last()) <= leader.log.Last()
      ensures s <= reqEnd <= last && Batch(leader.h, q, s, reqEnd, leader.log.first, leader.keepsOne)
      ensures leader.quiet ==> leader.log == old(leader.log)
      ensures leader.quiet && leader.log.entries == [] ==> q != [] && NoneIn(q)
      ensures leader.quiet && leader.log.entries != [] ==> SomeIn(q)
    {
      reqEnd := if s + BATCH - 1 > last then last else s + BATCH - 1;
      q := leader.Serve(s, reqEnd);
    }

    /** The request and response loop. */
    method FetchAll(leader: Leader, start: nat, last: nat) returns (r: Outcome)
      requires InLoop(leader, start, start, last) && start <= last
      modifies this, leader
      ensures leader.Valid() && old(leader.log.Last()) <= leader.log.Last()
      ensures Consistent(leader.h) && old(firstSeq) <= firstSeq <= last + 1
      ensures r.Restored? ==>
                || (store.Last() == last && (Unbounded() ==> store.first <= start || store.first <= leader.log.first))
                || (store == EMPTY_LOG && firstSeq == last + 1 <= leader.log.first)
      ensures leader.keepsOne ==> !r.LeaderEmpty?
      ensures r.LeaderEmpty? ==> store == EMPTY_LOG && start < firstSeq
      ensures leader.quiet ==> leader.log == old(leader.log)
      ensures leader.quiet && leader.log.entries != [] ==> !r.LeaderEmpty?
      ensures leader.quiet && leader.log.entries == [] ==>
                !r.Restored? && (r.LeaderEmpty? ==> firstSeq == start + 1) && (reliable ==> r.LeaderEmpty?)
    {
      var q: seq<Response> := [];
      var reqStart, reqEnd, s := start, 0, start;
      var stored := false;
      while s <= last
        invariant InLoop(leader, start, s, last) && old(leader.log.Last()) <= leader.log.Last()
        invariant old(firstSeq) <= firstSeq && (s == start || stored)
        invariant s == reqStart ==> q == []
        invariant s != reqStart ==> s <= reqEnd + 1 <= last + 1
        invariant s != reqStart ==> (s <= reqEnd && reqStart == reqEnd + 1) || (reqStart < s && reqEnd == last)
        invariant s != reqStart ==> Batch(leader.h, q, s, reqEnd, leader.log.first, leader.keepsOne)
        invariant leader.quiet ==> leader.log == old(leader.log)
        invariant leader.quiet && leader.log.entries == [] ==> s == start == reqStart
        invariant leader.quiet && leader.log.entries != [] ==> SomeIn(q)
        decreases last + 1 - s
      {
        if s == reqStart {
          q, reqEnd := Request(leader, start, reqStart, last);
          if reqEnd != last {
            reqStart := reqEnd + 1;
          }
        }
        Age(leader.h);
        r, q, s := Step(leader, q, start, s, reqEnd, last, stored);
        if !r.Restored? || s > last {
          return;
        }
        stored := true;
        if s > reqEnd {
          reqStart := s + 1;
        }
        s := s + 1;
      }
      return Restored;
    }

    /** Every message from `start` to `last` that the leader still has is here. */
    ghost predicate Complete(leader: Leader, start: nat, last: nat)
      reads this, leader
    {
      forall s :: start <= s <= last && leader.log.Has(s) ==> store.Lookup(s) == Some(leader.h.Get(s))
    }

    /**
     Refills the store up to `last`. On every return the store is still a run of the history. A return without error
     leaves nothing missing up to `last`, unless the leader answered that it has no message at all; and a store without
     limits of its own then has every message from the start of the restore that the leader still has. From a leader
     whose log stays as it is, an error-free return reaches `last` if and only if that log has a message, or no more
     than one sequence was missing.
     */
    method RestoreMsgs(leader: Leader, first: nat, last: nat, fromApply: bool) returns (r: Outcome)
      requires leader.Valid() && last <= leader.log.Last()
      requires Agrees(store, leader.h) && (store.first > 0 ==> store.Last() > 0)
      requires FloorFits(store.Last(), firstSeq, first, fromApply)
      modifies this, leader
      ensures leader.Valid() && old(leader.log.Last()) <= leader.log.Last()
      ensures Consistent(leader.h) && (old(firstSeq) == firstSeq || old(firstSeq) <= firstSeq <= last + 1)
      ensures r.Restored? ==> Reaches(last)
      ensures r.Restored? && Unbounded() ==>
                Complete(leader, Start(old(store.Last()), old(firstSeq), first, fromApply), last)
      ensures leader.keepsOne ==> !r.LeaderEmpty?
      ensures r.LeaderEmpty? ==>
                store == EMPTY_LOG && Start(old(store.Last()), old(firstSeq), first, fromApply) < firstSeq <= last + 1
      ensures leader.quiet ==> leader.log == old(leader.log)
      ensures leader.quiet && !r.Failed? ==>
                (Reaches(last) <==>
                 leader.log.entries != [] || last <= Start(old(store.Last()), old(firstSeq), first, fromApply))
      ensures reliable && leader.quiet && leader.log.entries == [] ==> !r.Failed?
    {
      var start := StartAt(first, fromApply);
      if start > last {
        return Restored;
      }
      r := FetchAll(leader, start, last);
    }

    /** Restores the messages of a channel from a snapshot that covers `first` to `last`, in up to ten attempts. */
    method RestoreFromSnapshot(leader: Leader, first: nat, last: nat) returns (r: Outcome)
      requires leader.Valid() && last <= leader.log.Last() && first <= last + 1
      requires Agrees(store, leader.h) && (store.first > 0 ==> store.Last() > 0)
      modifies this, leader
      ensures leader.Valid() && old(leader.log.Last()) <= leader.log.Last()
      ensures Consistent(leader.h) && first <= firstSeq <= last + 1
      ensures r.Restored? ==> Reaches(last)
      ensures leader.keepsOne ==> !r.LeaderEmpty?
      ensures !r.Failed? ==> !lSeqChecked
    {
      firstSeq := first;
      r := RestoreMsgs(leader, first, last, false);
      var i := 1;
      while r.Failed? && i < 10
        invariant leader.Valid() && old(leader.log.Last()) <= leader.log.Last()
        invariant Consistent(leader.h) && first <= firstSeq <= last + 1
        invariant r.Restored? ==> Reaches(last)
        invariant leader.keepsOne ==> !r.LeaderEmpty?
      {
        r := RestoreMsgs(leader, first, last, false);
        i := i + 1;
      }
      if !r.Failed? {
        lSeqChecked := false;
      }
    }

    /** What holds between two entries of the replicated log, when `pos` is the last sequence published so far. */
    ghost predicate Inv(h: History, pos: nat)
      reads this
    {
      && Agrees(store, h) && (store.first > 0 ==> store.Last() > 0)
      && if lSeqChecked then store.Last() >= pos else Consistent(h)
    }

    /** Applies the replicated messages `from` to `to`; a restore that fails stops the server. */
    method ApplyPublish(leader: Leader, from: nat, to: nat, ghost pos: nat) returns (r: Outcome)
      requires leader.Valid() && 0 < from <= to <= leader.log.Last()
      requires Inv(leader.h, pos) && (lSeqChecked ==> from <= pos + 1)
      modifies this, leader
      ensures leader.Valid() && old(leader.log.Last()) <= leader.log.Last()
      ensures r.Restored? ==> Inv(leader.h, to) && lSeqChecked && store.Last() >= to
      ensures leader.keepsOne ==> !r.LeaderEmpty?
    {
      r := Restored;
      if !lSeqChecked {
        if from > 1 {
          r := RestoreMsgs(leader, 1, from - 1, true);
          if !r.Restored? {
            return;
          }
        }
        lSeqChecked := true;
      }
      var s := from;
      while s <= to
        invariant leader.Valid() && old(leader.log.Last()) <= leader.log.Last()
        invariant from <= s <= to + 1 && lSeqChecked
        invariant Agrees(store, leader.h) && (store.first > 0 ==> store.Last() > 0)
        invariant store.Last() >= s - 1 || (s == from && store.first == 0)
      {
        var m := leader.h.Get(s);
        if m.sequence > store.Last() {
          StoreAgrees(limits, cost, store, leader.h, m);
        }
        store := Store(limits, cost, store, m);
        s := s + 1;
      }
    }

    /**
     Any run of snapshots and published batches, in the order of the replicated log. As long as no step fails, the store
     is a run of the history that reaches what the last entry covers.
     */
    method Run(leader: Leader, entries: seq<Entry>) returns (r: Outcome)
      requires leader.Valid() && InLogOrder(entries, leader.log.Last())
      requires store == EMPTY_LOG && firstSeq == 0 && !lSeqChecked
      modifies this, leader
      ensures r.Restored? ==> Agrees(store, leader.h)
      ensures r.Restored? && entries != [] ==> Reaches(entries[|entries| - 1].last)
      ensures leader.keepsOne ==> !r.LeaderEmpty?
    {
      r := Restored;
      ghost var pos: nat := 0;
      for i := 0 to |entries|
        invariant leader.Valid() && old(leader.log.Last()) <= leader.log.Last()
        invariant r.Restored? && Inv(leader.h, pos)
        invariant lSeqChecked ==> i > 0 && entries[i - 1].Publish? && pos == entries[i - 1].last
        invariant i > 0 ==> Reaches(entries[i - 1].last)
      {
        match entries[i] {
          case Snapshot(first, last) =>
            r := RestoreFromSnapshot(leader, first, last);
          case Publish(first, last) =>
            r := ApplyPublish(leader, first, last, pos);
        }
        if !r.Restored? {
          return;
        }
        pos := entries[i].last;
      }
    }
  }

  /** An entry of the replicated log, as far as the messages of one channel go. */
  datatype Entry = Snapshot(first: nat, last: nat) | Publish(first: nat, last: nat)

  /** A batch follows the previous one without a hole, or overlaps it; all is committed up to `committed`. */
  predicate InLogOrder(entries: seq<Entry>, committed: nat) {
    forall i :: 0 <= i < |entries| ==>
      && entries[i].last <= committed && entries[i].first <= entries[i].last + 1
      && (entries[i].Publish? ==> 0 < entries[i].first <= entries[i].last)
      && (entries[i].Publish? && i > 0 && entries[i - 1].Publish? ==> entries[i].first <= entries[i - 1].last + 1)
  }

  /**
   The floor does not lie beyond the store that the restore keeps, nor below the first sequence of a snapshot. This is
   what the callers establish, by setting the floor to `first` or by having stored up to it.
   */
  predicate FloorFits(storeLast: nat, firstSeq: nat, first: nat, fromApply: bool) {
    && (storeLast == 0 || (!fromApply && first > storeLast + 1) || firstSeq <= storeLast + 1)
    && (!fromApply ==> first <= firstSeq)
  }

  /** The first sequence a restore asks for. */
  function Start(storeLast: nat, firstSeq: nat, first: nat, fromApply: bool): nat {
    var f := if fromApply || first <= storeLast then storeLast + 1 else first;
    if firstSeq > f then firstSeq else f
  }

  /**
   Two sequences are missing, and the leader has lost all its messages: the restore stops after the first, without an
   error.
   */
  method EmptiedLeader(h: History, limits: Limits, cost: Msg -> nat) returns (c: Channel, r: Outcome)
    ensures r.LeaderEmpty? && c.store == EMPTY_LOG && c.firstSeq == 2 && !c.Reaches(2)
  {
    var leader := new Leader(h, Log(3, []), false, true);
    c := new Channel(limits, cost, false, true, 1);
    r := c.RestoreMsgs(leader, 1, 2, false);
  }
}
