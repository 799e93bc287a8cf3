/**
 The subscriptions file: a log of changes that recovery replays, and that compaction rewrites (stores/filestore.go).
 */
module SubLog {
  import opened Basics

  datatype SubState = SubState(id: nat, lastSent: nat, rest: string)

  /** A subscription with its pending messages. */
  datatype Sub = Sub(state: SubState, seqnos: set<nat>)

  datatype Rec = New(st: SubState) | Update(st: SubState) | Del(id: nat) | Msg(id: nat, s: nat) | Ack(id: nat, s: nat)

  function Pended(sub: Sub, s: nat): Sub {
    Sub(sub.state.(lastSent := Max(sub.state.lastSent, s)), sub.seqnos + {s})
  }

  /** What a record does to the subscriptions. */
  function Applied(subs: map<nat, Sub>, r: Rec): map<nat, Sub> {
    match r
    case New(st) => subs[st.id := Sub(st, {})]
    case Update(st) => subs[st.id := Sub(st, if st.id in subs then subs[st.id].seqnos else {})]
    case Del(id) => subs - {id}
    case Msg(id, s) => if id in subs then subs[id := Pended(subs[id], s)] else subs
    case Ack(id, s) => if id in subs then subs[id := subs[id].(seqnos := subs[id].seqnos - {s})] else subs
  }

  function Replay(file: seq<Rec>): map<nat, Sub> {
    if file == [] then map[] else Applied(Replay(file[..|file| - 1]), file[|file| - 1])
  }

  /** The loop of recovery. */
  method RecoverSubscriptions(file: seq<Rec>) returns (subs: map<nat, Sub>)
    ensures subs == Replay(file)
  {
    subs := map[];
    for i := 0 to |file|
      invariant subs == Replay(file[..i])
    {
      assert file[..i + 1][..i] == file[..i];
      match file[i]
      case New(st) => subs := subs[st.id := Sub(st, {})];
      case Update(st) =>
        if st.id in subs {
          subs := subs[st.id := subs[st.id].(state := st)];
        } else {
          subs := subs[st.id := Sub(st, {})];
        }
      case Del(id) => if id in subs { subs := subs - {id}; } else { assert subs - {id} == subs; }
      case Msg(id, s) => if id in subs { subs := subs[id := Pended(subs[id], s)]; }
      case Ack(id, s) => if id in subs { subs := subs[id := subs[id].(seqnos := subs[id].seqnos - {s})]; }
    }
    assert file[..|file|] == file;
  }

  // ---------- Compaction ----------

  /** The records that compaction writes for a subscription, with its pending messages in some order. */
  function Rewritten(sub: Sub, order: seq<nat>): seq<Rec> {
    [New(sub.state)] + seq(|order|, i requires 0 <= i < |order| => Msg(sub.state.id, order[i]))
  }

  /** The position raised to the highest pending message. */
  function Raised(sub: Sub, order: seq<nat>): Sub {
    if order == [] then Sub(sub.state, {}) else Pended(Raised(sub, order[..|order| - 1]), order[|order| - 1])
  }

  lemma {:induction false} RaisedIs(sub: Sub, order: seq<nat>)
    ensures var r := Raised(sub, order);
            && r.state == sub.state.(lastSent := r.state.lastSent) && r.seqnos == (set s | s in order)
            && r.state.lastSent >= sub.state.lastSent && (forall s :: s in order ==> s <= r.state.lastSent)
            && (r.state.lastSent == sub.state.lastSent || r.state.lastSent in order)
    decreases |order|
  {
    if order != [] {
      var n := |order| - 1;
      RaisedIs(sub, order[..n]);
      assert order == order[..n] + [order[n]];
    }
  }

  lemma {:induction false} ReplayRewritten(file: seq<Rec>, sub: Sub, order: seq<nat>)
    ensures Replay(file + Rewritten(sub, order)) == Replay(file)[sub.state.id := Raised(sub, order)]
    decreases |order|
  {
    var all := file + Rewritten(sub, order);
    if order == [] {
      assert all == file + [New(sub.state)];
      assert all[..|all| - 1] == file;
    } else {
      var n := |order| - 1;
      assert all[..|all| - 1] == file + Rewritten(sub, order[..n]);
      assert all[|all| - 1] == Msg(sub.state.id, order[n]);
      ReplayRewritten(file, sub, order[..n]);
    }
  }

  /** No message is pending beyond the position of its subscription. */
  predicate NotAhead(sub: Sub) {
    forall s :: s in sub.seqnos ==> s <= sub.state.lastSent
  }

  /** A rewritten subscription is the same exactly if no message is pending beyond its position. */
  lemma RewrittenSame(sub: Sub, order: seq<nat>)
    requires forall s :: s in order <==> s in sub.seqnos
    ensures Higher(sub, Raised(sub, order))
    ensures Raised(sub, order) == sub <==> NotAhead(sub)
  {
    RaisedIs(sub, order);
  }

  predicate Higher(sub: Sub, other: Sub) {
    && other.seqnos == sub.seqnos && sub.state.lastSent <= other.state.lastSent
    && other.state == sub.state.(lastSent := other.state.lastSent)
  }

  /** The same subscriptions with the same pending messages; only positions may be higher. */
  ghost predicate AtLeast(subs: map<nat, Sub>, others: map<nat, Sub>) {
    && others.Keys == subs.Keys
    && forall id :: id in subs ==> Higher(subs[id], others[id])
  }

  /** Every record keeps this. */
  lemma AppliedAtLeast(subs: map<nat, Sub>, others: map<nat, Sub>, r: Rec)
    requires AtLeast(subs, others)
    ensures AtLeast(Applied(subs, r), Applied(others, r))
  {
  }

  class FileSubStore {
    const maxSubscriptions: int
    var subs: map<nat, Sub>
    var maxSubID: nat
    var file: seq<Rec>

    /** Every subscription is kept under its own ID. */
    ghost predicate Numbered()
      reads this`subs
    {
      forall id :: id in subs ==> subs[id].state.id == id
    }

    /** Replaying the file gives what is in memory, but for positions that a compaction has raised. */
    ghost predicate Kept()
      reads this
    {
      Numbered() && AtLeast(subs, Replay(file))
    }

    /** Replaying the file gives what is in memory. */
    ghost predicate Valid()
      reads this
    {
      Numbered() && Replay(file) == subs
    }

    ghost predicate AllNotAhead()
      reads this`subs
    {
      forall id :: id in subs ==> NotAhead(subs[id])
    }

    constructor (maxSubscriptions: int)
      ensures Valid() && AllNotAhead() && subs == map[] && maxSubID == 0 && this.maxSubscriptions == maxSubscriptions
    {
      this.maxSubscriptions, subs, maxSubID, file := maxSubscriptions, map[], 0, [];
    }

    method Write(r: Rec)
      modifies this`file
      ensures file == old(file) + [r] && Replay(file) == Applied(Replay(old(file)), r)
    {
      assert (file + [r])[..|file|] == file;
      file := file + [r];
    }

    /** Creates a subscription under a new ID, unless there are too many. */
    method CreateSub(lastSent: nat, rest: string) returns (id: nat, ok: bool)
      requires Kept()
      modifies this
      ensures Kept() && (old(Valid()) ==> Valid()) && (old(AllNotAhead()) ==> AllNotAhead())
      ensures ok <==> !(maxSubscriptions > 0 && |old(subs)| >= maxSubscriptions)
      ensures ok ==> id == maxSubID == old(maxSubID) + 1
      ensures ok ==> subs == old(subs)[id := Sub(SubState(id, lastSent, rest), {})]
      ensures !ok ==> subs == old(subs) && file == old(file) && maxSubID == old(maxSubID)
    {
      if maxSubscriptions > 0 && |subs| >= maxSubscriptions {
        return 0, false;
      }
      maxSubID := maxSubID + 1;
      var st := SubState(maxSubID, lastSent, rest);
      AppliedAtLeast(subs, Replay(file), New(st));
      Write(New(st));
      subs := subs[st.id := Sub(st, {})];
      return st.id, true;
    }

    /** Replaces the stored state; the pending messages stay. */
    method UpdateSub(st: SubState)
      requires Kept()
      modifies this`file, this`subs
      ensures Kept() && (old(Valid()) ==> Valid()) && subs == Applied(old(subs), Update(st))
      ensures old(AllNotAhead()) ==> (AllNotAhead() <==> NotAhead(subs[st.id]))
    {
      AppliedAtLeast(subs, Replay(file), Update(st));
      Write(Update(st));
      assert st.id in Applied(subs, Update(st));
      if st.id in subs {
        subs := subs[st.id := subs[st.id].(state := st)];
      } else {
        subs := subs[st.id := Sub(st, {})];
      }
    }

    method DeleteSub(id: nat, compactNow: bool)
      requires Kept()
      modifies this`file, this`subs
      ensures Kept() && subs == old(subs) - {id} && (old(AllNotAhead()) ==> AllNotAhead())
      ensures old(Valid()) && (!compactNow || old(AllNotAhead())) ==> Valid()
    {
      AppliedAtLeast(subs, Replay(file), Del(id));
      Write(Del(id));
      if id in subs {
        subs := subs - {id};
        if compactNow {
          Compact();
        }
      } else {
        assert subs - {id} == subs;
      }
    }

    method AddSeqPending(id: nat, s: nat)
      requires Kept()
      modifies this`file, this`subs
      ensures Kept() && (old(Valid()) ==> Valid())
      ensures subs == Applied(old(subs), Msg(id, s)) && (old(AllNotAhead()) ==> AllNotAhead())
    {
      AppliedAtLeast(subs, Replay(file), Msg(id, s));
      Write(Msg(id, s));
      if id in subs {
        subs := subs[id := Pended(subs[id], s)];
      }
    }

    method AckSeqPending(id: nat, s: nat, compactNow: bool)
      requires Kept()
      modifies this`file, this`subs
      ensures Kept() && subs == Applied(old(subs), Ack(id, s)) && (old(AllNotAhead()) ==> AllNotAhead())
      ensures old(Valid()) && (!compactNow || old(AllNotAhead())) ==> Valid()
    {
      AppliedAtLeast(subs, Replay(file), Ack(id, s));
      Write(Ack(id, s));
      if id in subs {
        subs := subs[id := subs[id].(seqnos := subs[id].seqnos - {s})];
        if compactNow {
          Compact();
        }
      }
    }

    /**
     Rewrites the file. Replaying it gives what is in memory exactly if no message is pending beyond the position of its
     subscription.
     */
    method Compact()
      requires Numbered()
      modifies this`file
      ensures AtLeast(subs, Replay(file))
      ensures forall id :: id in subs ==> (Replay(file)[id] == subs[id] <==> NotAhead(subs[id]))
      ensures Replay(file) == subs <==> AllNotAhead()
    {
      var rewritten: seq<Rec> := [];
      var todo := subs.Keys;
      while todo != {}
        invariant todo <= subs.Keys && Replay(rewritten).Keys == subs.Keys - todo
        invariant forall id :: id in subs && id !in todo ==>
                    Higher(subs[id], Replay(rewritten)[id])
                      && (Replay(rewritten)[id] == subs[id] <==> NotAhead(subs[id]))
        decreases todo
      {
        var id :| id in todo;
        var order := SomeOrder(subs[id].seqnos);
        RewrittenSame(subs[id], order);
        ReplayRewritten(rewritten, subs[id], order);
        rewritten, todo := rewritten + Rewritten(subs[id], order), todo - {id};
      }
      file := rewritten;
    }
  }

  method SomeOrder(seqnos: set<nat>) returns (order: seq<nat>)
    ensures forall s :: s in order <==> s in seqnos
  {
    order := [];
    var todo := seqnos;
    while todo != {}
      invariant todo <= seqnos && forall s :: s in order <==> s in seqnos && s !in todo
      decreases todo
    {
      var s :| s in todo;
      order, todo := order + [s], todo - {s};
    }
  }

  /** An update that moves the position below a pending message: compaction brings the old position back. */
  lemma CompactionRaises()
    ensures var st := SubState(1, 3, "");
            var sub := Replay([New(SubState(1, 0, "")), Msg(1, 5), Update(st)])[1];
            sub == Sub(st, {5}) && Replay(Rewritten(sub, [5])) == map[1 := Sub(SubState(1, 5, ""), {5})]
  {
    var st, a, b := SubState(1, 3, ""), New(SubState(1, 0, "")), Msg(1, 5);
    var file := [a, b, Update(st)];
    assert file[..2] == [a, b] && [a, b][..1] == [a] && [a][..0] == [];
    assert Replay([a]) == map[1 := Sub(SubState(1, 0, ""), {})];
    assert Pended(Sub(SubState(1, 0, ""), {}), 5) == Sub(SubState(1, 5, ""), {5});
    assert Replay([a, b]) == map[1 := Sub(SubState(1, 5, ""), {5})];
    assert Replay(file) == map[1 := Sub(st, {5})];
    ReplayRewritten([], Sub(st, {5}), [5]);
    assert [] + Rewritten(Sub(st, {5}), [5]) == Rewritten(Sub(st, {5}), [5]);
    assert [5][..0] == [];
  }

  // ---------- Runs ----------

  datatype Op =
    | Create(lastSent: nat, rest: string)
    | Change(st: SubState)
    | Delete(id: nat, compactNow: bool)
    | Pend(id: nat, s: nat)
    | Acked(id: nat, s: nat, compactNow: bool)

  /** What is in memory: the subscriptions and the highest ID given. */
  datatype Memory = Memory(subs: map<nat, Sub>, maxSubID: nat)

  function Effect(maxSubscriptions: int, m: Memory, op: Op): Memory {
    match op
    case Create(lastSent, rest) =>
      if maxSubscriptions > 0 && |m.subs| >= maxSubscriptions then m
      else Memory(m.subs[m.maxSubID + 1 := Sub(SubState(m.maxSubID + 1, lastSent, rest), {})], m.maxSubID + 1)
    case Change(st) => m.(subs := Applied(m.subs, Update(st)))
    case Delete(id, _) => m.(subs := m.subs - {id})
    case Pend(id, s) => m.(subs := Applied(m.subs, Msg(id, s)))
    case Acked(id, s, _) => m.(subs := Applied(m.subs, Ack(id, s)))
  }

  /** No update moves a position below a pending message. */
  predicate Proper(maxSubscriptions: int, m: Memory, ops: seq<Op>)
    decreases |ops|
  {
    ops == [] ||
    (ProperOp(m.subs, ops[0]) && Proper(maxSubscriptions, Effect(maxSubscriptions, m, ops[0]), ops[1..]))
  }

  function After(maxSubscriptions: int, m: Memory, ops: seq<Op>): Memory
    decreases |ops|
  {
    if ops == [] then m else After(maxSubscriptions, Effect(maxSubscriptions, m, ops[0]), ops[1..])
  }

  /** An update that does not move the position below a pending message. */
  predicate ProperOp(subs: map<nat, Sub>, op: Op) {
    op.Change? && op.st.id in subs ==> forall s :: s in subs[op.st.id].seqnos ==> s <= op.st.lastSent
  }

  method Do(store: FileSubStore, op: Op)
    requires store.Kept()
    modifies store
    ensures store.Kept()
    ensures old(store.Valid() && store.AllNotAhead() && ProperOp(store.subs, op)) ==>
              store.Valid() && store.AllNotAhead()
    ensures Memory(store.subs, store.maxSubID) ==
            Effect(store.maxSubscriptions, old(Memory(store.subs, store.maxSubID)), op)
  {
    if op.Change? {
      store.UpdateSub(op.st);
    } else if op.Create? {
      var id, ok := store.CreateSub(op.lastSent, op.rest);
    } else {
      DoPending(store, op);
    }
  }

  method DoPending(store: FileSubStore, op: Op)
    requires store.Kept() && (op.Delete? || op.Pend? || op.Acked?)
    modifies store
    ensures store.Kept() && (old(store.Valid() && store.AllNotAhead()) ==> store.Valid() && store.AllNotAhead())
    ensures Memory(store.subs, store.maxSubID) ==
            Effect(store.maxSubscriptions, old(Memory(store.subs, store.maxSubID)), op)
  {
    if op.Delete? {
      store.DeleteSub(op.id, op.compactNow);
    } else if op.Pend? {
      store.AddSeqPending(op.id, op.s);
    } else {
      store.AckSeqPending(op.id, op.s, op.compactNow);
    }
  }

  /**
   Over every run, with compaction at any point, recovery gives the subscriptions and pending messages that were in
   memory, with no lower position; and exactly what was in memory if no update moved a position below a pending message.
   */
  method Run(maxSubscriptions: int, ops: seq<Op>) returns (recovered: map<nat, Sub>)
    ensures AtLeast(After(maxSubscriptions, Memory(map[], 0), ops).subs, recovered)
    ensures Proper(maxSubscriptions, Memory(map[], 0), ops) ==>
              recovered == After(maxSubscriptions, Memory(map[], 0), ops).subs
  {
    var store := new FileSubStore(maxSubscriptions);
    var rest := ops;
    ghost var proper := Proper(maxSubscriptions, Memory(map[], 0), ops);
    while rest != []
      invariant fresh(store) && store.Kept() && store.maxSubscriptions == maxSubscriptions
      invariant After(maxSubscriptions, Memory(store.subs, store.maxSubID), rest) ==
                After(maxSubscriptions, Memory(map[], 0), ops)
      invariant proper ==>
                  && store.Valid() && store.AllNotAhead()
                  && Proper(maxSubscriptions, Memory(store.subs, store.maxSubID), rest)
      decreases |rest|
    {
      Do(store, rest[0]);
      rest := rest[1..];
    }
    recovered := RecoverSubscriptions(store.file);
  }
}
