/** The cache of SqlPending as the object that the SQL subscription store updates (stores/sqlstore.go). */
module SqlSubStore {
  import opened SqlPending

  const MAX_PENDING_ACKS := 2000

  /** The counts after the acknowledgements of the messages in `done` are released. */
  function LessAcks(rows: map<nat, Row>, ackToRow: map<nat, nat>, done: set<nat>): (r: map<nat, Row>)
    ensures r.Keys == rows.Keys
  {
    map y | y in rows :: rows[y].(acksRefs := rows[y].acksRefs - |In(ackToRow, y, done)|)
  }

  lemma InWith(where: map<nat, nat>, x: nat, among: set<nat>, s: nat)
    requires s !in among
    ensures |In(where, x, among + {s})| == |In(where, x, among)| + if s in where && where[s] == x then 1 else 0
  {
    if s in where && where[s] == x {
      assert In(where, x, among + {s}) == In(where, x, among) + {s};
    } else {
      assert In(where, x, among + {s}) == In(where, x, among);
    }
  }

  /** One more message released: the count of the row of its acknowledgement goes down by one. */
  lemma ReleaseOne(rows: map<nat, Row>, ackToRow: map<nat, nat>, done: set<nat>, s: nat)
    requires s !in done && (s in ackToRow ==> ackToRow[s] in rows)
    ensures LessAcks(rows, ackToRow, done + {s}) ==
            var r := LessAcks(rows, ackToRow, done);
            if s in ackToRow then r[ackToRow[s] := r[ackToRow[s]].(acksRefs := r[ackToRow[s]].acksRefs - 1)] else r
  {
    forall y | y in rows
      ensures |In(ackToRow, y, done + {s})| == |In(ackToRow, y, done)| + if s in ackToRow && ackToRow[s] == y then 1
              else 0
    {
      InWith(ackToRow, y, done, s);
    }
  }

  /** Deleting the row that just lost its last reference leaves exactly the rows in use. */
  lemma DeleteOne(db: map<nat, DbRow>, rows: map<nat, Row>, y: nat, row: Row)
    requires y in rows && row.acksRefs == rows[y].acksRefs - 1 >= 0 && row.msgsRefs == rows[y].msgsRefs
    ensures RowsLeft(db, rows[y := row]) == RowsLeft(db, rows) - if Unused(row) then {y} else {}
  {
  }

  class SqlSubAcksPending {
    var lastSent: nat
    var prevLastSent: nat
    var msgs: set<nat>
    var acks: set<nat>
    var msgToRow: map<nat, nat>
    var ackToRow: map<nat, nat>
    var rows: map<nat, Row>
    var needsFlush: bool
    var db: map<nat, DbRow>
    var column: nat
    var curRow: nat
    /** The operations so far. */
    ghost var ops: seq<Op>

    ghost function Cached(): Cache
      reads this
    {
      Cache(lastSent, prevLastSent, msgs, acks, msgToRow, ackToRow, rows, needsFlush, db, column, curRow)
    }

    /** The object is what the operations so far make of an empty cache. */
    ghost predicate Valid()
      reads this
    {
      LegalRun(INITIAL, ops) && Run(INITIAL, ops).c == Cached()
    }

    ghost function Past(): Past
      reads this
      requires Valid()
    {
      Run(INITIAL, ops).p
    }

    constructor ()
      ensures Valid() && ops == []
    {
      lastSent, prevLastSent, msgs, acks := 0, 0, {}, {};
      msgToRow, ackToRow, rows, needsFlush := map[], map[], map[], false;
      db, column, curRow := map[], 0, 0;
      ops := [];
    }

    method Touch(seqno: nat)
      modifies this`needsFlush, this`lastSent
      ensures Cached() == Touched(old(Cached()), seqno)
    {
      needsFlush := true;
      if seqno > lastSent {
        lastSent := seqno;
      }
    }

    /** Records a sent message; a sequence is added at most once. The result tells that a flush is due. */
    method AddSeq(seqno: nat) returns (full: bool)
      requires Valid() && seqno !in Past().added
      modifies this
      ensures Valid() && ops == old(ops) + [Add(seqno)] && Cached() == Added(old(Cached()), seqno)
      ensures full == (|msgs| >= MAX_PENDING_ACKS)
    {
      RunAppend(INITIAL, ops, Add(seqno));
      ops := ops + [Add(seqno)];
      full := Collect(seqno);
    }

    method Collect(seqno: nat) returns (full: bool)
      modifies this`needsFlush, this`lastSent, this`msgs
      ensures Cached() == Added(old(Cached()), seqno) && full == (|msgs| >= MAX_PENDING_ACKS)
    {
      Touch(seqno);
      msgs := msgs + {seqno};
      return |msgs| >= MAX_PENDING_ACKS;
    }

    /**
     Records an acknowledgement, and deletes the rows that are no longer needed. The result tells that a flush is due.
     */
    method AckSeq(seqno: nat) returns (full: bool)
      requires Valid()
      modifies this
      ensures Valid() && ops == old(ops) + [Ack(seqno)] && Cached() == Acked(old(Cached()), seqno)
      ensures full == (|acks| >= MAX_PENDING_ACKS)
    {
      RunAppend(INITIAL, ops, Ack(seqno));
      RunFits(ops, seqno);
      Touch(seqno);
      if seqno in msgs {
        msgs := msgs - {seqno};
      } else if seqno in msgToRow && msgToRow[seqno] in rows {
        AckSeqInRow(seqno);
      }
      ops := ops + [Ack(seqno)];
      return |acks| >= MAX_PENDING_ACKS;
    }

    /** Writes what was collected into a new row; `x` is the next row identifier. */
    method Flush(x: nat)
      requires Valid() && curRow < x
      modifies this
      ensures Valid() && ops == old(ops) + [Op.Flush(x)] && Cached() == Flushed(old(Cached()), x)
    {
      RunAppend(INITIAL, ops, Op.Flush(x));
      RunLastSent(ops);
      WriteRow(x);
      ops := ops + [Op.Flush(x)];
    }

    method WriteRow(x: nat)
      requires column == prevLastSent
      modifies this`needsFlush, this`column, this`prevLastSent, this`curRow, this`rows, this`db, this`msgToRow,
               this`ackToRow, this`msgs, this`acks
      ensures Cached() == Flushed(old(Cached()), x)
    {
      if needsFlush {
        if msgs == {} && acks == {} {
          if lastSent != prevLastSent {
            column := lastSent;
            prevLastSent := lastSent;
          }
        } else {
          WriteNewRow(x);
        }
        needsFlush := false;
      }
    }

    method WriteNewRow(x: nat)
      modifies this`curRow, this`rows, this`db, this`msgToRow, this`ackToRow, this`msgs, this`acks
      ensures curRow == x && rows == old(rows)[x := Row(old(msgs), |old(msgs)|, |old(acks)|)]
      ensures db == old(db)[x := DbRow(lastSent, old(msgs), old(acks))]
      ensures msgToRow == Placed(old(msgToRow), old(msgs), x) && ackToRow == Placed(old(ackToRow), old(acks), x)
      ensures msgs == {} && acks == {}
    {
      curRow := x;
      rows := rows[x := Row(msgs, |msgs|, |acks|)];
      db := db[x := DbRow(lastSent, msgs, acks)];
      msgToRow := Placed(msgToRow, msgs, x);
      ackToRow := Placed(ackToRow, acks, x);
      msgs, acks := {}, {};
    }

    method AckSeqInRow(seqno: nat)
      requires ReleaseFits(Cached(), seqno)
      modifies this`acks, this`msgToRow, this`rows, this`db
      ensures Cached() == AckedInRow(old(Cached()), seqno)
    {
      ghost var before := Cached();
      var x := msgToRow[seqno];
      var row := rows[x];
      CountAck(seqno, x);
      if row.msgsRefs - 1 == 0 {
        if row.acksRefs == 0 {
          db := db - {x};
          acks := acks - {seqno};
        }
        ReleasedIs(before, seqno, Loop(rows, db, acks));
        ReleaseAcks(x);
      }
    }

    method CountAck(seqno: nat, x: nat)
      requires x in rows
      modifies this`acks, this`msgToRow, this`rows
      ensures acks == old(acks) + {seqno} && msgToRow == old(msgToRow) - {seqno} && rows == OneLess(old(rows), x)
    {
      acks := acks + {seqno};
      msgToRow := msgToRow - {seqno};
      rows := rows[x := rows[x].(msgsRefs := rows[x].msgsRefs - 1)];
    }

    method ReleaseAck(s: nat)
      requires s in ackToRow ==> ackToRow[s] in rows
      modifies this`acks, this`rows, this`db
      ensures Loop(rows, db, acks) == Released(old(Loop(rows, db, acks)), ackToRow, s)
    {
      if s in ackToRow {
        var y := ackToRow[s];
        var row := rows[y].(acksRefs := rows[y].acksRefs - 1);
        rows := rows[y := row];
        if row.acksRefs == 0 && row.msgsRefs == 0 {
          db := db - {y};
        }
      } else {
        acks := acks - {s};
      }
    }

    /** Goes over the messages of the complete row `x` to release their acknowledgements. */
    method ReleaseAcks(x: nat)
      requires Releasable(rows, ackToRow, db, x)
      modifies this`acks, this`rows, this`db
      ensures Loop(rows, db, acks) == AllDone(old(Loop(rows, db, acks)), ackToRow, x)
    {
      ghost var start, all, done := Loop(rows, db, acks), rows[x].msgs, {};
      var todo := rows[x].msgs;
      AtStart(start, ackToRow);
      while todo != {}
        invariant todo == all - done && done <= all
        invariant Loop(rows, db, acks) == At(start, ackToRow, done)
        decreases todo
      {
        var s :| s in todo;
        AtStep(start, ackToRow, done, all, s);
        ReleaseAck(s);
        todo := todo - {s};
        done := done + {s};
      }
      assert done == all;
      rows := rows[x := rows[x].(msgs := {})];
    }
  }

  /** One turn of that loop. */
  function Released(l: Loop, ackToRow: map<nat, nat>, s: nat): Loop
    requires s in ackToRow ==> ackToRow[s] in l.rows
  {
    if s in ackToRow then
      var y := ackToRow[s];
      var row := l.rows[y].(acksRefs := l.rows[y].acksRefs - 1);
      Loop(l.rows[y := row], if Unused(row) then l.db - {y} else l.db, l.acks)
    else l.(acks := l.acks - {s})
  }

  /** What the loop of ReleaseAcks updates. */
  datatype Loop = Loop(rows: map<nat, Row>, db: map<nat, DbRow>, acks: set<nat>)

  /** Its state after the messages in `done`. */
  function At(start: Loop, ackToRow: map<nat, nat>, done: set<nat>): Loop {
    var rows := LessAcks(start.rows, ackToRow, done);
    Loop(rows, RowsLeft(start.db, rows), start.acks - (done - ackToRow.Keys))
  }

  function AllDone(start: Loop, ackToRow: map<nat, nat>, x: nat): Loop
    requires x in start.rows
  {
    var l := At(start, ackToRow, start.rows[x].msgs);
    l.(rows := l.rows[x := l.rows[x].(msgs := {})])
  }

  lemma AtStart(start: Loop, ackToRow: map<nat, nat>)
    requires RowsLeft(start.db, start.rows) == start.db
    ensures At(start, ackToRow, {}) == start
  {
    LessNone(start.rows, ackToRow);
  }

  lemma AtStep(start: Loop, ackToRow: map<nat, nat>, done: set<nat>, all: set<nat>, s: nat)
    requires s in all && s !in done && done <= all && (s in ackToRow ==> ackToRow[s] in start.rows)
    requires forall y :: y in start.rows ==> |In(ackToRow, y, all)| <= start.rows[y].acksRefs
    ensures At(start, ackToRow, done + {s}) == Released(At(start, ackToRow, done), ackToRow, s)
  {
    var l := At(start, ackToRow, done);
    ReleaseOne(start.rows, ackToRow, done, s);
    if s in ackToRow {
      var y := ackToRow[s];
      StillCounted(start.rows, ackToRow, done, all, s);
      DeleteOne(start.db, l.rows, y, l.rows[y].(acksRefs := l.rows[y].acksRefs - 1));
      assert done + {s} - ackToRow.Keys == done - ackToRow.Keys;
    } else {
      assert start.acks - (done + {s} - ackToRow.Keys) == start.acks - (done - ackToRow.Keys) - {s};
    }
  }

  lemma LessNone(rows: map<nat, Row>, ackToRow: map<nat, nat>)
    ensures LessAcks(rows, ackToRow, {}) == rows
  {
    assert forall y :: In(ackToRow, y, {}) == {};
  }

  lemma StillCounted(rows: map<nat, Row>, ackToRow: map<nat, nat>, done: set<nat>, all: set<nat>, s: nat)
    requires s in all && s !in done && done <= all && s in ackToRow && ackToRow[s] in rows
    requires forall y :: y in rows ==> |In(ackToRow, y, all)| <= rows[y].acksRefs
    ensures LessAcks(rows, ackToRow, done)[ackToRow[s]].acksRefs >= 1
  {
    InWith(ackToRow, ackToRow[s], done, s);
    InMonotone(ackToRow, ackToRow[s], done + {s}, all);
  }

  /** The counts that the loop of ReleaseAcks computes, after the last message of row `x` is counted. */
  lemma ReleasedRowsAre(rows: map<nat, Row>, ackToRow: map<nat, nat>, x: nat)
    requires x in rows
    ensures var r := LessAcks(OneLess(rows, x), ackToRow, rows[x].msgs);
            r[x := r[x].(msgs := {})] == AllReleased(rows, ackToRow, x)
  {
  }

  /** The rows of the database that are left. */
  lemma ReleasedDbIs(rows: map<nat, Row>, ackToRow: map<nat, nat>, db: map<nat, DbRow>, db': map<nat, DbRow>, x: nat)
    requires x in rows && rows[x].msgsRefs == 1 && In(ackToRow, x, rows[x].msgs) == {}
    requires db.Keys <= rows.Keys && forall y :: y in rows ==> (y in db <==> !Unused(rows[y]))
    requires db' == if rows[x].acksRefs == 0 then db - {x} else db
    ensures RowsLeft(db', OneLess(rows, x)) == db'
    ensures RowsLeft(db', LessAcks(OneLess(rows, x), ackToRow, rows[x].msgs)) ==
            RowsLeft(db, AllReleased(rows, ackToRow, x))
  {
    var r, a := LessAcks(OneLess(rows, x), ackToRow, rows[x].msgs), AllReleased(rows, ackToRow, x);
    forall y | y in rows
      ensures y in r && y in a && (Unused(r[y]) <==> Unused(a[y]))
    {
      SameUse(rows, ackToRow, x, y);
    }
    SameRowsLeft(rows, r, a, db, db', x);
  }

  lemma SameUse(rows: map<nat, Row>, ackToRow: map<nat, nat>, x: nat, y: nat)
    requires x in rows && y in rows && rows[x].msgsRefs == 1
    ensures var r, a := LessAcks(OneLess(rows, x), ackToRow, rows[x].msgs), AllReleased(rows, ackToRow, x);
            y in r && y in a && (Unused(r[y]) <==> Unused(a[y]))
  {
  }

  lemma SameRowsLeft(rows: map<nat, Row>, r: map<nat, Row>, a: map<nat, Row>, db: map<nat, DbRow>,
                     db': map<nat, DbRow>, x: nat)
    requires x in rows && db.Keys <= rows.Keys && r.Keys == a.Keys == rows.Keys && forall y :: y in rows ==>
               (Unused(r[y]) <==> Unused(a[y]))
    requires db' == db || (db' == db - {x} && Unused(a[x]))
    ensures RowsLeft(db', r) == RowsLeft(db, a)
  {
  }

  lemma ReleasedAcksAre(acks: set<nat>, ackToRow: map<nat, nat>, s: nat, done: set<nat>)
    requires s in done && s !in ackToRow && acks !! ackToRow.Keys
    ensures acks + {s} - (done - ackToRow.Keys) == acks - done
    ensures acks + {s} - {s} - (done - ackToRow.Keys) == acks - done
  {
  }

  ghost predicate Releasable(rows: map<nat, Row>, ackToRow: map<nat, nat>, db: map<nat, DbRow>, x: nat) {
    && x in rows && RowsLeft(db, rows) == db
    && (forall s :: s in ackToRow ==> ackToRow[s] in rows)
    && (forall y :: y in rows ==> |In(ackToRow, y, rows[x].msgs)| <= rows[y].acksRefs)
  }

  /** From the state `l` before the loop, ReleaseAcks computes what AckedInRow says. */
  lemma ReleasedIs(c: Cache, s: nat, l: Loop)
    requires ReleaseFits(c, s) && c.rows[c.msgToRow[s]].msgsRefs == 1
    requires var x := c.msgToRow[s];
             && l.rows == OneLess(c.rows, x)
             && (c.rows[x].acksRefs == 0 ==> l.db == c.db - {x} && l.acks == c.acks + {s} - {s})
             && (c.rows[x].acksRefs != 0 ==> l.db == c.db && l.acks == c.acks + {s})
    ensures Releasable(l.rows, c.ackToRow, l.db, c.msgToRow[s])
    ensures var r := AllDone(l, c.ackToRow, c.msgToRow[s]);
            c.(rows := r.rows, db := r.db, acks := r.acks, msgToRow := c.msgToRow - {s}) == AckedInRow(c, s)
  {
    var x := c.msgToRow[s];
    ReleasedRowsAre(c.rows, c.ackToRow, x);
    ReleasedDbIs(c.rows, c.ackToRow, c.db, l.db, x);
    ReleasedAcksAre(c.acks, c.ackToRow, s, c.rows[x].msgs);
  }

  lemma InMonotone(where: map<nat, nat>, y: nat, done: set<nat>, all: set<nat>)
    requires done <= all
    ensures |In(where, y, done)| <= |In(where, y, all)|
  {
    InDifference(where, y, all, done);
  }

  /** What is known about the row that loses message `s`. */
  ghost predicate ReleaseFits(c: Cache, s: nat) {
    && s in c.msgToRow && c.msgToRow[s] in c.rows
    && var x := c.msgToRow[s];
    && s !in c.ackToRow && c.acks !! c.ackToRow.Keys && c.rows[x].msgsRefs > 0
    && (c.rows[x].msgsRefs == 1 ==> s in c.rows[x].msgs)
    && In(c.ackToRow, x, c.rows[x].msgs) == {}
    && (forall s :: s in c.ackToRow ==> c.ackToRow[s] in c.rows)
    && (forall y :: y in c.rows ==> |In(c.ackToRow, y, c.rows[x].msgs)| <= c.rows[y].acksRefs)
    && c.db.Keys <= c.rows.Keys && forall y :: y in c.rows ==> (y in c.db <==> !Unused(c.rows[y]))
  }

  lemma ValidFits(c: Cache, p: Past, s: nat)
    requires SqlPending.Valid(c, p) && s in c.msgToRow
    ensures ReleaseFits(c, s)
  {
    var x, live := c.msgToRow[s], Live(p.home, c.rows);
    CountedOne(c.rows, p.unacked, p.home, s, x);
    NoOwnAcks(c.acks, c.ackToRow, p.unacked, live, p.home, x);
    assert c.rows[x].msgs <= live;
    ReleasedCounts(c.rows, c.ackToRow, live, x);
  }

  lemma RunFits(ops: seq<Op>, s: nat)
    requires LegalRun(INITIAL, ops)
    ensures s in Run(INITIAL, ops).c.msgToRow ==> ReleaseFits(Run(INITIAL, ops).c, s)
  {
    InitialValid();
    RunKeeps(INITIAL, ops);
    var st := Run(INITIAL, ops);
    if s in st.c.msgToRow {
      ValidFits(st.c, st.p, s);
    }
  }

  lemma RunLastSent(ops: seq<Op>)
    requires LegalRun(INITIAL, ops)
    ensures Run(INITIAL, ops).c.column == Run(INITIAL, ops).c.prevLastSent
  {
    InitialValid();
    RunKeeps(INITIAL, ops);
  }

  lemma {:induction false} RunAppend(st: State, ops: seq<Op>, op: Op)
    requires LegalRun(st, ops) && Legal(Run(st, ops), op)
    ensures LegalRun(st, ops + [op]) && Run(st, ops + [op]) == Step(Run(st, ops), op)
    decreases |ops|
  {
    if ops == [] {
      assert ops + [op] == [op];
    } else {
      assert (ops + [op])[1..] == ops[1..] + [op];
      RunAppend(Step(st, ops[0]), ops[1..], op);
    }
  }
}
