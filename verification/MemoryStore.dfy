/** The in-memory message store (stores/memstore.go), proved against the bounded log. */
module MemoryStore {
  import opened Basics
  import opened MsgLog

  class MemoryMsgStore {
    const limits: Limits
    const cost: Msg -> nat
    var first: nat
    var last: nat
    var msgs: map<nat, Msg>
    var totalCount: int
    var totalBytes: int

    /** The store holds one contiguous run and its counters are exact. */
    ghost predicate Valid()
      reads this
    {
      Whole(cost, first, last, msgs, totalCount, totalBytes)
    }

    ghost function View(): Log
      requires Contiguous(first, last, msgs)
      reads this
    {
      ViewOf(first, last, msgs)
    }

    constructor (limits: Limits, cost: Msg -> nat)
      ensures Valid() && View() == EMPTY_LOG
      ensures this.limits == limits && this.cost == cost
    {
      this.limits, this.cost := limits, cost;
      first, last, msgs, totalCount, totalBytes := 0, 0, map[], 0, 0;
    }

    /** `m` leaves no hole after the last stored message. */
    predicate NoGap(m: Msg)
      reads this
    {
      m.sequence == last + 1 || (first == 0 && last == 0 && m.sequence > 0)
    }

    /** There may be holes: the first and the last sequence bound what is stored, and the count may be too low. */
    ghost predicate Bounded()
      reads this
    {
      Within(first, last, msgs, totalCount)
    }

    /** The first sequence once `m` is stored, before any limit applies. */
    function FirstWith(m: Msg): nat
      reads this
    {
      if first == 0 then m.sequence else first
    }

    /** What counts toward the bytes limit at a sequence; nothing, if that is a hole. */
    function CostAt(all: map<nat, Msg>, s: nat): nat
      reads this
    {
      if s in all then cost(all[s]) else 0
    }

    /**
     Stores a message, and then removes sequences from the first on, holes included, until the limits hold. Without a
     gap this is what the bounded log does.
     */
    method Store(m: Msg) returns (stored: nat)
      requires Bounded()
      modifies this
      ensures Bounded() && stored == m.sequence
      ensures m.sequence <= old(last) ==>
                first == old(first) && last == old(last) && msgs == old(msgs)
                  && totalCount == old(totalCount) && totalBytes == old(totalBytes)
      ensures m.sequence > old(last) ==> last == m.sequence && old(FirstWith(m)) <= first
      ensures m.sequence > old(last) ==> msgs == From(old(msgs)[m.sequence := m], first)
      ensures m.sequence > old(last) ==>
                totalCount == old(totalCount) + 1 - (first - old(FirstWith(m))) && !Over(limits, totalCount, totalBytes)
      ensures m.sequence > old(last) && first > old(FirstWith(m)) ==>
                Over(limits, totalCount + 1, totalBytes + CostAt(old(msgs)[m.sequence := m], first - 1))
      ensures old(Valid() && NoGap(m)) ==> Valid() && View() == MsgLog.Store(limits, cost, old(View()), m)
    {
      if m.sequence <= last {
        return m.sequence;
      }
      ghost var all := msgs[m.sequence := m];
      Put(m);
      if limits.maxMsgs > 0 || limits.maxBytes > 0 {
        EnforceLimits(all);
      }
      return last;
    }

    /** Adds a message after the last one. */
    method Put(m: Msg)
      requires Bounded() && m.sequence > last
      modifies this
      ensures Bounded() && first == old(FirstWith(m)) && last == m.sequence && msgs == old(msgs)[m.sequence := m]
      ensures totalCount == old(totalCount) + 1 && totalBytes == old(totalBytes) + cost(m)
      ensures msgs == From(msgs, first)
      ensures old(Valid() && NoGap(m)) ==> Valid() && View() == Append(old(View()), m)
    {
      if Valid() && NoGap(m) {
        AppendView(cost, first, last, msgs, totalCount, totalBytes, m);
      }
      if first == 0 {
        first := m.sequence;
      }
      last := m.sequence;
      msgs := msgs[last := m];
      totalCount := totalCount + 1;
      totalBytes := totalBytes + cost(m);
    }

    /** Removes sequences from the first on until the limits hold; `all` is what is stored before. */
    method EnforceLimits(ghost all: map<nat, Msg>)
      requires Bounded() && msgs == all && msgs == From(all, first)
      modifies this
      ensures Bounded() && last == old(last) && old(first) <= first && msgs == From(all, first)
      ensures totalCount == old(totalCount) - (first - old(first)) && !Over(limits, totalCount, totalBytes)
      ensures first > old(first) ==> Over(limits, totalCount + 1, totalBytes + CostAt(all, first - 1))
      ensures old(Valid()) ==> Valid() && View() == Trim(limits, cost, old(View()))
    {
      while Over(limits, totalCount, totalBytes)
        invariant Bounded() && last == old(last) && old(first) <= first && msgs == From(all, first)
        invariant totalCount == old(totalCount) - (first - old(first))
        invariant first > old(first) ==> Over(limits, totalCount + 1, totalBytes + CostAt(all, first - 1))
        invariant old(Valid()) ==> Valid() && Trim(limits, cost, View()) == Trim(limits, cost, old(View()))
        decreases totalCount
      {
        FromNext(all, first);
        AnotherKey(msgs, first);
        RemoveFirstMsg();
      }
    }

    method RemoveFirstMsg()
      requires Bounded() && 0 < first <= last
      modifies this
      ensures last == old(last) && totalCount == old(totalCount) - 1 && first == old(first) + 1
      ensures msgs == old(msgs) - {old(first)} && totalBytes == old(totalBytes) - old(CostAt(msgs, first))
      ensures Bounded()
      ensures old(Valid()) && old(View()).entries != [] ==> Valid() && View() == old(View()).Drop(1)
    {
      if Valid() && View().entries != [] {
        DroppedFirst(cost, first, last, msgs, totalCount, totalBytes);
      }
      WithinRest(first, last, msgs, totalCount);
      if first in msgs {
        totalBytes := totalBytes - cost(msgs[first]);
      }
      totalCount := totalCount - 1;
      msgs := msgs - {first};
      first := first + 1;
    }

    method Lookup(s: nat) returns (m: Option<Msg>)
      requires Bounded()
      ensures m == (if s in msgs then Some(msgs[s]) else None) && (Valid() ==> m == View().Lookup(s))
    {
      m := if s in msgs then Some(msgs[s]) else None;
    }

    method ExpireMsgs(now: int, maxAge: int)
      requires Bounded()
      modifies this
      ensures Bounded()
      ensures old(Valid()) ==> Valid() && View() == Expire(old(View()), now, maxAge)
    {
      while true
        invariant old(Valid()) ==> Valid() && Expire(View(), now, maxAge) == Expire(old(View()), now, maxAge)
        invariant Bounded() && last == old(last)
        decreases |msgs|, last - first
      {
        if first !in msgs {
          if first < last {
            first := first + 1;
            continue;
          }
          return;
        }
        assert old(Valid()) ==> msgs[first] == View().entries[0];
        if now - msgs[first].timestamp >= maxAge {
          WithinRest(first, last, msgs, totalCount);
          RemoveFirstMsg();
        } else {
          return;
        }
      }
    }

    method Empty()
      modifies this
      ensures Valid() && View() == EMPTY_LOG
    {
      first, last, totalCount, totalBytes := 0, 0, 0, 0;
      msgs := map[];
    }
  }

  ghost predicate Contiguous(first: nat, last: nat, msgs: map<nat, Msg>) {
    (first > 0 ==> first <= last + 1) && forall s :: s in msgs <==> 0 < first <= s <= last
  }

  ghost function ViewOf(first: nat, last: nat, msgs: map<nat, Msg>): Log
    requires Contiguous(first, last, msgs)
  {
    Log(first, if first == 0 then [] else Run(msgs, first, last + 1 - first))
  }

  ghost predicate Whole(cost: Msg -> nat, first: nat, last: nat, msgs: map<nat, Msg>, count: int, bytes: int) {
    && (first == 0 ==> last == 0) && Contiguous(first, last, msgs)
    && (forall s :: s in msgs ==> msgs[s].sequence == s)
    && count == |ViewOf(first, last, msgs).entries| && bytes == Total(cost, ViewOf(first, last, msgs).entries)
  }

  /** A message after the last one, without a gap. */
  lemma AppendView(cost: Msg -> nat, first: nat, last: nat, msgs: map<nat, Msg>, count: int, bytes: int, m: Msg)
    requires Whole(cost, first, last, msgs, count, bytes)
    requires m.sequence == last + 1 || (first == 0 && m.sequence > 0)
    ensures var f, more := if first == 0 then m.sequence else first, msgs[m.sequence := m];
            && Whole(cost, f, m.sequence, more, count + 1, bytes + cost(m))
            && ViewOf(f, m.sequence, more) == Append(ViewOf(first, last, msgs), m)
  {
    var before, f := ViewOf(first, last, msgs), if first == 0 then m.sequence else first;
    assert Run(msgs[m.sequence := m], f, m.sequence + 1 - f) == before.entries + [m];
    TotalAppend(cost, before.entries, [m]);
    assert first > 0 ==> Fill(before.Last() + 1, m.sequence, m.timestamp) == [];
  }

  lemma DroppedFirst(cost: Msg -> nat, first: nat, last: nat, msgs: map<nat, Msg>, count: int, bytes: int)
    requires Whole(cost, first, last, msgs, count, bytes) && ViewOf(first, last, msgs).entries != []
    ensures first in msgs && Whole(cost, first + 1, last, msgs - {first}, count - 1, bytes - cost(msgs[first]))
    ensures ViewOf(first + 1, last, msgs - {first}) == ViewOf(first, last, msgs).Drop(1)
  {
    RunTail(msgs, first, last + 1 - first);
  }

  /** The messages from a sequence on. */
  function From(msgs: map<nat, Msg>, from: nat): map<nat, Msg> {
    map s | s in msgs && from <= s :: msgs[s]
  }

  ghost predicate Within(first: nat, last: nat, msgs: map<nat, Msg>, count: int) {
    first <= last + 1 && count <= |msgs| && forall s :: s in msgs ==> 0 < first <= s <= last
  }

  lemma WithinRest(first: nat, last: nat, msgs: map<nat, Msg>, count: int)
    requires Within(first, last, msgs, count) && 0 < first <= last
    ensures Within(first + 1, last, msgs - {first}, count - 1)
    ensures first in msgs ==> |msgs - {first}| < |msgs|
  {
    assert (msgs - {first}).Keys == msgs.Keys - {first};
    assert |msgs.Keys - {first}| == |msgs.Keys| - if first in msgs then 1 else 0;
  }

  lemma AnotherKey(msgs: map<nat, Msg>, x: nat)
    requires |msgs| > 1
    ensures exists s :: s in msgs && s != x
  {
    if msgs.Keys <= {x} {
      SubsetSize(msgs.Keys, {x});
    }
  }

  lemma FromNext(msgs: map<nat, Msg>, from: nat)
    ensures From(msgs, from) - {from} == From(msgs, from + 1)
    ensures from in From(msgs, from) <==> from in msgs
  {
  }

  lemma RunTail(msgs: map<nat, Msg>, from: nat, n: nat)
    requires n > 0 && forall s :: from <= s < from + n ==> s in msgs
    ensures Run(msgs - {from}, from + 1, n - 1) == Run(msgs, from, n)[1..]
  {
  }

  ghost function Run(msgs: map<nat, Msg>, from: nat, n: nat): (r: seq<Msg>)
    requires forall s :: from <= s < from + n ==> s in msgs
    ensures |r| == n
    ensures forall i :: 0 <= i < n ==> r[i] == msgs[from + i]
  {
    seq(n, i requires 0 <= i < n => msgs[from + i])
  }
}
