/**
 The bounded message log of a channel, as a value.

 Every message store of the server (memory, file) answers lookups from such a log: a contiguous run of messages that
 grows at its end and loses messages at its front, because of limits or of age.
 */
module MsgLog {
  import opened Basics

  datatype Msg = Msg(sequence: nat, timestamp: int, data: string)

  datatype Limits = Limits(maxMsgs: int, maxBytes: int)

  /** `first == 0` means that no message was ever stored; once all messages are gone, `first == Last() + 1`. */
  datatype Log = Log(first: nat, entries: seq<Msg>)
  {
    predicate Valid() {
      && (first == 0 ==> entries == [])
      && forall i :: 0 <= i < |entries| ==> entries[i].sequence == first + i
    }

    function Last(): nat {
      if first == 0 then 0 else first + |entries| - 1
    }

    predicate Has(s: nat) {
      0 < first <= s <= Last()
    }

    function At(s: nat): Msg
      requires Has(s)
    {
      entries[s - first]
    }

    function Lookup(s: nat): Option<Msg> {
      if Has(s) then Some(At(s)) else None
    }

    function Drop(n: nat): Log
      requires n <= |entries|
    {
      Log(first + n, entries[n..])
    }
  }

  const EMPTY_LOG := Log(0, [])

  /** What a list of messages counts toward the bytes limit; `cost` is the accounted size of one message. */
  function Total(cost: Msg -> nat, entries: seq<Msg>): nat {
    if entries == [] then 0 else cost(entries[0]) + Total(cost, entries[1..])
  }

  /** The limits call for a removal. The last message always stays. */
  predicate Over(limits: Limits, count: int, bytes: int) {
    && count > 1
    && (|| (limits.maxMsgs > 0 && count > limits.maxMsgs)
        || (limits.maxBytes > 0 && bytes > limits.maxBytes))
  }

  predicate OverLog(limits: Limits, cost: Msg -> nat, l: Log) {
    Over(limits, |l.entries|, Total(cost, l.entries))
  }

  function Trim(limits: Limits, cost: Msg -> nat, l: Log): Log
    decreases |l.entries|
  {
    if OverLog(limits, cost, l) then Trim(limits, cost, l.Drop(1)) else l
  }

  /** The placeholders a store writes for sequences from `from` up to, but not including, `to`. */
  function Fill(from: nat, to: nat, timestamp: int): (r: seq<Msg>)
    requires from <= to
    ensures |r| == to - from
  {
    seq(to - from, i requires 0 <= i => Msg(from + i, timestamp, ""))
  }

  function Append(l: Log, m: Msg): Log {
    if m.sequence <= l.Last() then l
    else if l.first == 0 then Log(m.sequence, [m])
    else Log(l.first, l.entries + Fill(l.Last() + 1, m.sequence, m.timestamp) + [m])
  }

  function Store(limits: Limits, cost: Msg -> nat, l: Log, m: Msg): Log {
    if m.sequence <= l.Last() then l else Trim(limits, cost, Append(l, m))
  }

  predicate Expired(m: Msg, now: int, maxAge: int) {
    now - m.timestamp >= maxAge
  }

  function Expire(l: Log, now: int, maxAge: int): Log
    decreases |l.entries|
  {
    if l.entries != [] && Expired(l.entries[0], now, maxAge) then Expire(l.Drop(1), now, maxAge) else l
  }

  lemma AppendValid(l: Log, m: Msg)
    requires l.Valid() && m.sequence > 0
    ensures Append(l, m).Valid()
    ensures Append(l, m).Last() == if m.sequence <= l.Last() then l.Last() else m.sequence
    ensures forall s :: l.Has(s) ==> Append(l, m).Lookup(s) == l.Lookup(s)
  {
  }

  /**
   Trimming removes exactly as many of the oldest messages as the limits call for: all shorter removals leave the log
   over.
   */
  lemma {:induction false} TrimIsLeast(limits: Limits, cost: Msg -> nat, l: Log) returns (k: nat)
    ensures k <= |l.entries| && (l.entries != [] ==> k < |l.entries|)
    ensures Trim(limits, cost, l) == l.Drop(k)
    ensures !OverLog(limits, cost, l.Drop(k))
    ensures forall j :: 0 <= j < k ==> OverLog(limits, cost, l.Drop(j))
    decreases |l.entries|
  {
    assert l.Drop(0) == l;
    if OverLog(limits, cost, l) {
      var next := l.Drop(1);
      var k' := TrimIsLeast(limits, cost, next);
      k := k' + 1;
      assert next.Drop(k') == l.Drop(k);
      forall j | 0 <= j < k
        ensures OverLog(limits, cost, l.Drop(j))
      {
        if j > 0 {
          assert next.Drop(j - 1) == l.Drop(j);
        }
      }
    } else {
      k := 0;
    }
  }

  /** Expiry removes exactly the longest prefix of expired messages. */
  lemma {:induction false} ExpireIsLongestPrefix(l: Log, now: int, maxAge: int) returns (k: nat)
    ensures k <= |l.entries|
    ensures Expire(l, now, maxAge) == l.Drop(k)
    ensures forall j :: 0 <= j < k ==> Expired(l.entries[j], now, maxAge)
    ensures k < |l.entries| ==> !Expired(l.entries[k], now, maxAge)
    decreases |l.entries|
  {
    assert l.Drop(0) == l;
    if l.entries != [] && Expired(l.entries[0], now, maxAge) {
      var k' := ExpireIsLongestPrefix(l.Drop(1), now, maxAge);
      k := k' + 1;
      assert l.Drop(1).Drop(k') == l.Drop(k);
      assert forall j :: 0 < j < k ==> l.entries[j] == l.Drop(1).entries[j - 1];
    } else {
      k := 0;
    }
  }

  lemma {:induction false} TotalAppend(cost: Msg -> nat, a: seq<Msg>, b: seq<Msg>)
    ensures Total(cost, a + b) == Total(cost, a) + Total(cost, b)
  {
    if a == [] {
      assert a + b == b;
    } else {
      TotalAppend(cost, a[1..], b);
      assert (a + b)[1..] == a[1..] + b;
    }
  }

  /** A stored message is the one that lookups return, whatever the limits. */
  lemma StoreKeepsLast(limits: Limits, cost: Msg -> nat, l: Log, m: Msg)
    requires l.Valid() && m.sequence > l.Last()
    ensures var r := Store(limits, cost, l, m);
            && r.Valid() && r.Last() == m.sequence && r.Lookup(m.sequence) == Some(m)
            && (l.first > 0 ==> l.first <= r.first)
            && forall s :: l.Has(s) && r.first <= s ==> r.Lookup(s) == l.Lookup(s)
  {
    var a := Append(l, m);
    AppendValid(l, m);
    var k := TrimIsLeast(limits, cost, a);
    assert a.entries[|a.entries| - 1] == m;
    DropKeeps(a, k);
  }

  /** What is dropped is all that lookups lose. */
  lemma DropKeeps(l: Log, k: nat)
    requires l.Valid() && k <= |l.entries|
    ensures var r := l.Drop(k);
            && r.Valid() && (l.first > 0 ==> r.Last() == l.Last())
            && forall s :: r.first <= s ==> r.Lookup(s) == l.Lookup(s)
  {
  }
}
