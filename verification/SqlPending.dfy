/**
 The buffered pending-message cache of a subscription in the SQL store, and the rows it writes (stores/sqlstore.go).

 Sent and acknowledged sequences are collected in memory and flushed together into rows. Rows are never updated: two
 reference counts per row decide when a row can be deleted.
 */
module SqlPending {

  /** A row as the server remembers it. */
  datatype Row = Row(msgs: set<nat>, msgsRefs: int, acksRefs: int)

  /** A row in the database. */
  datatype DbRow = DbRow(lastSent: nat, pending: set<nat>, acks: set<nat>)

  /**
   The cache together with its part of the database: the rows of the subscription, its last-sent column, and the last
   row identifier in use.
   */
  datatype Cache = Cache(
    lastSent: nat, prevLastSent: nat, msgs: set<nat>, acks: set<nat>,
    msgToRow: map<nat, nat>, ackToRow: map<nat, nat>, rows: map<nat, Row>, needsFlush: bool,
    db: map<nat, DbRow>, column: nat, curRow: nat)

  const EMPTY_CACHE := Cache(0, 0, {}, {}, map[], map[], map[], false, map[], 0, 0)

  /** The sequences that `where` places in row `x`, among `among`. */
  function In(where: map<nat, nat>, x: nat, among: set<nat>): set<nat> {
    set s | s in where && where[s] == x && s in among
  }

  predicate Unused(row: Row) {
    row.msgsRefs == 0 && row.acksRefs == 0
  }

  // ---------- The operations, as functions ----------

  function Touched(c: Cache, seqno: nat): Cache {
    c.(needsFlush := true, lastSent := if seqno > c.lastSent then seqno else c.lastSent)
  }

  function Added(c: Cache, seqno: nat): Cache {
    var c := Touched(c, seqno);
    c.(msgs := c.msgs + {seqno})
  }

  /** One message of row `x` less. */
  function OneLess(rows: map<nat, Row>, x: nat): map<nat, Row>
    requires x in rows
  {
    rows[x := rows[x].(msgsRefs := rows[x].msgsRefs - 1)]
  }

  /** All messages of row `x` are acknowledged: no row needs to keep their acknowledgements any more. */
  function AllReleased(rows: map<nat, Row>, ackToRow: map<nat, nat>, x: nat): (r: map<nat, Row>)
    requires x in rows
    ensures r.Keys == rows.Keys
  {
    map y | y in rows ::
      var refs := rows[y].acksRefs - |In(ackToRow, y, rows[x].msgs)|;
      if y == x then Row({}, rows[y].msgsRefs - 1, refs) else rows[y].(acksRefs := refs)
  }

  /** The database rows that are still in use. */
  function RowsLeft(db: map<nat, DbRow>, rows: map<nat, Row>): map<nat, DbRow> {
    map y | y in db && !(y in rows && Unused(rows[y])) :: db[y]
  }

  /** An acknowledgement for a message that was written into a row. */
  function AckedInRow(c: Cache, seqno: nat): Cache
    requires seqno in c.msgToRow && c.msgToRow[seqno] in c.rows
  {
    var x := c.msgToRow[seqno];
    if c.rows[x].msgsRefs == 1 then
      var rows := AllReleased(c.rows, c.ackToRow, x);
      c.(msgToRow := c.msgToRow - {seqno}, acks := c.acks - c.rows[x].msgs, rows := rows, db := RowsLeft(c.db, rows))
    else
      c.(msgToRow := c.msgToRow - {seqno}, acks := c.acks + {seqno}, rows := OneLess(c.rows, x))
  }

  function Acked(c: Cache, seqno: nat): Cache {
    var c := Touched(c, seqno);
    if seqno in c.msgs then c.(msgs := c.msgs - {seqno})
    else if seqno in c.msgToRow && c.msgToRow[seqno] in c.rows then AckedInRow(c, seqno)
    else c
  }

  function Placed(where: map<nat, nat>, seqs: set<nat>, x: nat): map<nat, nat> {
    where + map s | s in seqs :: x
  }

  /** Writes what was collected; `x` is the next row identifier. */
  function Flushed(c: Cache, x: nat): Cache {
    if !c.needsFlush then c
    else if c.msgs == {} && c.acks == {} then
      c.(needsFlush := false, column := c.lastSent, prevLastSent := c.lastSent)
    else
      c.(needsFlush := false, curRow := x,
         rows := c.rows[x := Row(c.msgs, |c.msgs|, |c.acks|)],
         db := c.db[x := DbRow(c.lastSent, c.msgs, c.acks)],
         msgToRow := Placed(c.msgToRow, c.msgs, x),
         ackToRow := Placed(c.ackToRow, c.acks, x),
         msgs := {}, acks := {})
  }

  // ---------- What every run keeps ----------

  /** What happened so far: sequences added, those not acknowledged, and the row that each flushed message went to. */
  datatype Past = Past(added: set<nat>, unacked: set<nat>, home: map<nat, nat>)

  /** The messages of rows that still have one that is not acknowledged. */
  function Live(home: map<nat, nat>, rows: map<nat, Row>): set<nat> {
    set s | s in home && home[s] in rows && rows[home[s]].msgsRefs > 0
  }

  /** Each unacknowledged message is either still in memory or in the row that `msgToRow` tells. */
  ghost predicate MsgsPlaced(msgs: set<nat>, msgToRow: map<nat, nat>, unacked: set<nat>, home: map<nat, nat>) {
    && msgs !! home.Keys && unacked <= msgs + home.Keys && msgs <= unacked
    && (forall s :: s in msgToRow <==> s in home && s in unacked)
    && (forall s :: s in msgToRow ==> msgToRow[s] == home[s])
  }

  ghost predicate Known(p: Past) {
    p.unacked <= p.added && p.home.Keys <= p.added
  }

  ghost predicate InRows(where: map<nat, nat>, rows: map<nat, Row>) {
    forall s :: s in where ==> where[s] in rows
  }

  /** Each acknowledgement that matters is either still in memory or in a row later than the message. */
  ghost predicate AcksPlaced(acks: set<nat>, ackToRow: map<nat, nat>, unacked: set<nat>, live: set<nat>,
                             home: map<nat, nat>) {
    && acks !! ackToRow.Keys && acks !! unacked && ackToRow.Keys !! unacked && acks <= live
    && (forall s :: s in live && s !in unacked ==> s in acks || s in ackToRow)
    && (forall s :: s in ackToRow ==> s in home && home[s] < ackToRow[s])
  }

  /** `msgsRefs` counts the messages of the row not yet acknowledged, and `msgs` keeps them all until none is left. */
  ghost predicate MsgsCounted(rows: map<nat, Row>, unacked: set<nat>, home: map<nat, nat>) {
    forall x :: x in rows ==>
      && rows[x].msgsRefs == |In(home, x, unacked)|
      && rows[x].msgs == if rows[x].msgsRefs > 0 then In(home, x, home.Keys) else {}
  }

  /** `acksRefs` counts the acknowledgements in the row that concern a live message. */
  ghost predicate AcksCounted(rows: map<nat, Row>, ackToRow: map<nat, nat>, live: set<nat>) {
    forall x :: x in rows ==> rows[x].acksRefs == |In(ackToRow, x, live)|
  }

  /** A row is in the database exactly as long as one of its counts is positive. */
  ghost predicate RowsKept(rows: map<nat, Row>, db: map<nat, DbRow>, curRow: nat) {
    && db.Keys <= rows.Keys
    && forall x :: x in rows ==> x <= curRow && (x in db <==> !Unused(rows[x]))
  }

  /** A row keeps all that it was written with. */
  ghost predicate RowsWhole(db: map<nat, DbRow>, home: map<nat, nat>, ackToRow: map<nat, nat>) {
    forall x :: x in db ==>
      db[x].pending == In(home, x, home.Keys) && db[x].acks == In(ackToRow, x, ackToRow.Keys)
  }

  /** Some message of row `x` has no acknowledgement in a row. */
  ghost predicate OneDropped(home: map<nat, nat>, ackToRow: map<nat, nat>, x: nat) {
    exists s :: s in home && home[s] == x && s !in ackToRow
  }

  /** Of the messages of a complete row, one has no acknowledgement in a row: that of the last one was dropped. */
  ghost predicate LastDropped(rows: map<nat, Row>, home: map<nat, nat>, ackToRow: map<nat, nat>) {
    forall s :: s in home && home[s] in rows && rows[home[s]].msgsRefs == 0 ==> OneDropped(home, ackToRow, home[s])
  }

  ghost predicate Valid(c: Cache, p: Past) {
    && Known(p)
    && MsgsPlaced(c.msgs, c.msgToRow, p.unacked, p.home)
    && InRows(p.home, c.rows) && InRows(c.ackToRow, c.rows)
    && AcksPlaced(c.acks, c.ackToRow, p.unacked, Live(p.home, c.rows), p.home)
    && MsgsCounted(c.rows, p.unacked, p.home)
    && AcksCounted(c.rows, c.ackToRow, Live(p.home, c.rows))
    && RowsKept(c.rows, c.db, c.curRow)
    && RowsWhole(c.db, p.home, c.ackToRow)
    && LastDropped(c.rows, p.home, c.ackToRow)
  }

  lemma InWithout(where: map<nat, nat>, x: nat, among: set<nat>, s: nat)
    requires s in where && s in among
    ensures |In(where, x, among - {s})| == |In(where, x, among)| - if where[s] == x then 1 else 0
  {
    assert In(where, x, among - {s}) == In(where, x, among) - {s};
  }

  // ---------- Adding, and acknowledging what is still in memory ----------

  /** Only what is in memory changes: no row counts a sequence without a row. */
  lemma NotInRow(rows: map<nat, Row>, home: map<nat, nat>, unacked: set<nat>, unacked': set<nat>)
    requires MsgsCounted(rows, unacked, home)
    requires forall s :: s in home ==> (s in unacked <==> s in unacked')
    ensures MsgsCounted(rows, unacked', home)
  {
    assert forall x :: In(home, x, unacked) == In(home, x, unacked');
  }

  lemma AddedValid(c: Cache, p: Past, s: nat)
    requires Valid(c, p) && s !in p.added
    ensures Valid(Added(c, s), p.(added := p.added + {s}, unacked := p.unacked + {s}))
  {
    AddedPlaced(c, p, s);
    NotInRow(c.rows, p.home, p.unacked, p.unacked + {s});
  }

  lemma AddedPlaced(c: Cache, p: Past, s: nat)
    requires Known(p) && MsgsPlaced(c.msgs, c.msgToRow, p.unacked, p.home) && s !in p.added
    requires AcksPlaced(c.acks, c.ackToRow, p.unacked, Live(p.home, c.rows), p.home)
    ensures s !in p.home && Known(p.(added := p.added + {s}, unacked := p.unacked + {s}))
    ensures MsgsPlaced(c.msgs + {s}, c.msgToRow, p.unacked + {s}, p.home)
    ensures AcksPlaced(c.acks, c.ackToRow, p.unacked + {s}, Live(p.home, c.rows), p.home)
  {
  }

  lemma AckedInMemoryValid(c: Cache, p: Past, s: nat)
    requires Valid(c, p) && s in c.msgs
    ensures Valid(c.(msgs := c.msgs - {s}), p.(unacked := p.unacked - {s}))
  {
    AckedInMemoryPlaced(c, p, s);
    NotInRow(c.rows, p.home, p.unacked, p.unacked - {s});
  }

  lemma AckedInMemoryPlaced(c: Cache, p: Past, s: nat)
    requires Known(p) && MsgsPlaced(c.msgs, c.msgToRow, p.unacked, p.home) && s in c.msgs
    requires AcksPlaced(c.acks, c.ackToRow, p.unacked, Live(p.home, c.rows), p.home)
    ensures s !in p.home && Known(p.(unacked := p.unacked - {s}))
    ensures MsgsPlaced(c.msgs - {s}, c.msgToRow, p.unacked - {s}, p.home)
    ensures AcksPlaced(c.acks, c.ackToRow, p.unacked - {s}, Live(p.home, c.rows), p.home)
  {
  }

  // ---------- Acknowledging a message in a row ----------

  lemma AckedPlaced(msgs: set<nat>, msgToRow: map<nat, nat>, unacked: set<nat>, home: map<nat, nat>, s: nat)
    requires MsgsPlaced(msgs, msgToRow, unacked, home) && s in msgToRow
    ensures MsgsPlaced(msgs, msgToRow - {s}, unacked - {s}, home)
  {
  }

  /** One message of row `x` less: only the count of that row changes. */
  lemma CountedOne(rows: map<nat, Row>, unacked: set<nat>, home: map<nat, nat>, s: nat, x: nat)
    requires MsgsCounted(rows, unacked, home) && s in home && home[s] == x && s in unacked && x in rows
    ensures forall y :: y in rows ==> |In(home, y, unacked - {s})| == rows[y].msgsRefs - if y == x then 1 else 0
    ensures rows[x].msgsRefs > 1 ==> MsgsCounted(OneLess(rows, x), unacked - {s}, home)
    ensures rows[x].msgsRefs > 0
  {
    forall y | y in rows
      ensures |In(home, y, unacked - {s})| == rows[y].msgsRefs - if y == x then 1 else 0
    {
      InWithout(home, y, unacked, s);
    }
  }

  lemma CountedRows(rows: map<nat, Row>, home: map<nat, nat>, ackToRow: map<nat, nat>, db: map<nat, DbRow>,
                    curRow: nat, x: nat)
    requires x in rows && rows[x].msgsRefs > 1
    requires InRows(home, rows) && InRows(ackToRow, rows)
    requires AcksCounted(rows, ackToRow, Live(home, rows)) && RowsKept(rows, db, curRow)
    ensures Live(home, OneLess(rows, x)) == Live(home, rows)
    ensures InRows(home, OneLess(rows, x)) && InRows(ackToRow, OneLess(rows, x))
    ensures AcksCounted(OneLess(rows, x), ackToRow, Live(home, OneLess(rows, x)))
    ensures RowsKept(OneLess(rows, x), db, curRow)
  {
    assert Live(home, OneLess(rows, x)) == Live(home, rows);
  }

  lemma CountedAcks(acks: set<nat>, ackToRow: map<nat, nat>, unacked: set<nat>, live: set<nat>, home: map<nat, nat>,
                    s: nat)
    requires AcksPlaced(acks, ackToRow, unacked, live, home) && s in live && s in unacked
    ensures AcksPlaced(acks + {s}, ackToRow, unacked - {s}, live, home)
  {
  }

  /** Not the last message of its row: nothing else changes. */
  lemma CountedValid(c: Cache, p: Past, s: nat)
    requires Valid(c, p) && s in c.msgToRow && c.rows[c.msgToRow[s]].msgsRefs > 1
    ensures Valid(AckedInRow(c, s), p.(unacked := p.unacked - {s}))
  {
    var x := c.msgToRow[s];
    AckedPlaced(c.msgs, c.msgToRow, p.unacked, p.home, s);
    CountedOne(c.rows, p.unacked, p.home, s, x);
    CountedRows(c.rows, p.home, c.ackToRow, c.db, c.curRow, x);
    CountedAcks(c.acks, c.ackToRow, p.unacked, Live(p.home, c.rows), p.home, s);
  }

  // ---------- Acknowledging the last message of a row ----------

  lemma ReleasedMsgs(rows: map<nat, Row>, ackToRow: map<nat, nat>, unacked: set<nat>, home: map<nat, nat>, s: nat,
                     x: nat)
    requires MsgsCounted(rows, unacked, home) && s in home && home[s] == x && s in unacked && x in rows
    requires rows[x].msgsRefs == 1
    ensures MsgsCounted(AllReleased(rows, ackToRow, x), unacked - {s}, home)
    ensures s in rows[x].msgs && rows[x].msgs == In(home, x, home.Keys)
  {
    CountedOne(rows, unacked, home, s, x);
  }

  /** Completing a row ends the life of exactly its messages. */
  lemma ReleasedLive(rows: map<nat, Row>, ackToRow: map<nat, nat>, home: map<nat, nat>, x: nat)
    requires x in rows && rows[x].msgsRefs == 1 && rows[x].msgs == In(home, x, home.Keys)
    requires InRows(home, rows) && InRows(ackToRow, rows)
    ensures Live(home, AllReleased(rows, ackToRow, x)) == Live(home, rows) - rows[x].msgs
    ensures rows[x].msgs <= Live(home, rows)
    ensures InRows(home, AllReleased(rows, ackToRow, x)) && InRows(ackToRow, AllReleased(rows, ackToRow, x))
  {
  }

  lemma InDifference(where: map<nat, nat>, y: nat, live: set<nat>, done: set<nat>)
    requires done <= live
    ensures |In(where, y, live - done)| == |In(where, y, live)| - |In(where, y, done)|
  {
    assert In(where, y, live) == In(where, y, live - done) + In(where, y, done);
  }

  lemma ReleasedCounts(rows: map<nat, Row>, ackToRow: map<nat, nat>, live: set<nat>, x: nat)
    requires AcksCounted(rows, ackToRow, live) && x in rows && rows[x].msgs <= live
    ensures AcksCounted(AllReleased(rows, ackToRow, x), ackToRow, live - rows[x].msgs)
    ensures forall y :: y in rows ==> |In(ackToRow, y, rows[x].msgs)| <= rows[y].acksRefs
  {
    forall y | y in rows
      ensures |In(ackToRow, y, live - rows[x].msgs)| == rows[y].acksRefs - |In(ackToRow, y, rows[x].msgs)|
    {
      InDifference(ackToRow, y, live, rows[x].msgs);
    }
  }

  /** No row holds the acknowledgement of one of its own messages. */
  lemma NoOwnAcks(acks: set<nat>, ackToRow: map<nat, nat>, unacked: set<nat>, live: set<nat>, home: map<nat, nat>,
                  x: nat)
    requires AcksPlaced(acks, ackToRow, unacked, live, home)
    ensures In(ackToRow, x, In(home, x, home.Keys)) == {}
  {
  }

  lemma ReleasedAcks(acks: set<nat>, ackToRow: map<nat, nat>, unacked: set<nat>, live: set<nat>, home: map<nat, nat>,
                     s: nat, done: set<nat>)
    requires AcksPlaced(acks, ackToRow, unacked, live, home) && s in done && s in unacked
    ensures AcksPlaced(acks - done, ackToRow, unacked - {s}, live - done, home)
  {
  }

  lemma ReleasedRows(rows: map<nat, Row>, ackToRow: map<nat, nat>, db: map<nat, DbRow>, curRow: nat, x: nat)
    requires RowsKept(rows, db, curRow) && x in rows && rows[x].msgsRefs == 1
    requires forall y :: y in rows ==> |In(ackToRow, y, rows[x].msgs)| <= rows[y].acksRefs
    ensures RowsKept(AllReleased(rows, ackToRow, x), RowsLeft(db, AllReleased(rows, ackToRow, x)), curRow)
  {
  }

  lemma CompletedDropped(rows: map<nat, Row>, home: map<nat, nat>, ackToRow: map<nat, nat>, s: nat, x: nat)
    requires LastDropped(rows, home, ackToRow) && x in rows && s in home && home[s] == x && s !in ackToRow
    ensures LastDropped(AllReleased(rows, ackToRow, x), home, ackToRow)
  {
    assert OneDropped(home, ackToRow, x);
  }

  lemma CompletedValid(c: Cache, p: Past, s: nat)
    requires Valid(c, p) && s in c.msgToRow && c.rows[c.msgToRow[s]].msgsRefs == 1
    ensures Valid(AckedInRow(c, s), p.(unacked := p.unacked - {s}))
  {
    var x, live := c.msgToRow[s], Live(p.home, c.rows);
    AckedPlaced(c.msgs, c.msgToRow, p.unacked, p.home, s);
    ReleasedMsgs(c.rows, c.ackToRow, p.unacked, p.home, s, x);
    ReleasedLive(c.rows, c.ackToRow, p.home, x);
    ReleasedCounts(c.rows, c.ackToRow, live, x);
    ReleasedAcks(c.acks, c.ackToRow, p.unacked, live, p.home, s, c.rows[x].msgs);
    ReleasedRows(c.rows, c.ackToRow, c.db, c.curRow, x);
    CompletedDropped(c.rows, p.home, c.ackToRow, s, x);
  }

  lemma AckedValid(c: Cache, p: Past, s: nat)
    requires Valid(c, p)
    ensures Valid(Acked(c, s), p.(unacked := p.unacked - {s}))
  {
    var c0 := Touched(c, s);
    assert Valid(c0, p);
    if s in c.msgs {
      AckedInMemoryValid(c0, p, s);
    } else if s in c.msgToRow {
      CountedOne(c.rows, p.unacked, p.home, s, c.msgToRow[s]);
      if c.rows[c.msgToRow[s]].msgsRefs == 1 {
        CompletedValid(c0, p, s);
      } else {
        CountedValid(c0, p, s);
      }
    } else {
      assert p.unacked - {s} == p.unacked;
    }
  }

  // ---------- Flushing ----------

  function FlushedPast(c: Cache, p: Past, x: nat): Past {
    if c.needsFlush && c.msgs != {} then p.(home := Placed(p.home, c.msgs, x)) else p
  }

  /** What is placed in a row: the new row has all that was collected, the others what they had. */
  lemma FlushedIn(where: map<nat, nat>, more: set<nat>, x: nat, y: nat, among: set<nat>)
    requires more !! where.Keys && more <= among && forall s :: s in where ==> where[s] != x
    ensures y == x ==> In(Placed(where, more, x), y, among) == more
    ensures y != x ==> In(Placed(where, more, x), y, among) == In(where, y, among)
  {
  }

  lemma FlushedPlaced(msgs: set<nat>, msgToRow: map<nat, nat>, unacked: set<nat>, home: map<nat, nat>, x: nat)
    requires MsgsPlaced(msgs, msgToRow, unacked, home)
    ensures MsgsPlaced({}, Placed(msgToRow, msgs, x), unacked, Placed(home, msgs, x))
  {
  }

  lemma FlushedLive(home: map<nat, nat>, rows: map<nat, Row>, msgs: set<nat>, x: nat, row: Row)
    requires x !in rows && InRows(home, rows) && msgs !! home.Keys && (msgs != {} ==> row.msgsRefs > 0)
    ensures Live(Placed(home, msgs, x), rows[x := row]) == Live(home, rows) + msgs
  {
  }

  lemma FlushedInRows(where: map<nat, nat>, rows: map<nat, Row>, seqs: set<nat>, x: nat, row: Row)
    requires InRows(where, rows)
    ensures InRows(Placed(where, seqs, x), rows[x := row])
  {
  }

  lemma FlushedAcks(acks: set<nat>, ackToRow: map<nat, nat>, unacked: set<nat>, live: set<nat>, home: map<nat, nat>,
                    msgs: set<nat>, x: nat)
    requires AcksPlaced(acks, ackToRow, unacked, live, home)
    requires msgs !! home.Keys && msgs <= unacked && live <= home.Keys && forall s :: s in home ==> home[s] < x
    ensures AcksPlaced({}, Placed(ackToRow, acks, x), unacked, live + msgs, Placed(home, msgs, x))
  {
  }

  lemma FlushedMsgsCounted(rows: map<nat, Row>, unacked: set<nat>, home: map<nat, nat>, msgs: set<nat>, x: nat,
                           row: Row)
    requires MsgsCounted(rows, unacked, home) && x !in rows && InRows(home, rows)
    requires msgs !! home.Keys && msgs <= unacked && row.msgs == msgs && row.msgsRefs == |msgs|
    ensures MsgsCounted(rows[x := row], unacked, Placed(home, msgs, x))
  {
    var home' := Placed(home, msgs, x);
    forall y | y in rows[x := row]
      ensures In(home', y, unacked) == (if y == x then msgs else In(home, y, unacked))
      ensures In(home', y, home'.Keys) == (if y == x then msgs else In(home, y, home.Keys))
    {
      FlushedIn(home, msgs, x, y, unacked);
      FlushedIn(home, msgs, x, y, home'.Keys);
      assert In(home, y, home'.Keys) == In(home, y, home.Keys);
    }
  }

  lemma FlushedAcksCounted(rows: map<nat, Row>, ackToRow: map<nat, nat>, live: set<nat>, acks: set<nat>,
                           msgs: set<nat>, x: nat, row: Row)
    requires AcksCounted(rows, ackToRow, live) && x !in rows && InRows(ackToRow, rows)
    requires acks !! ackToRow.Keys && acks <= live && msgs !! ackToRow.Keys && row.acksRefs == |acks|
    ensures AcksCounted(rows[x := row], Placed(ackToRow, acks, x), live + msgs)
  {
    forall y | y in rows[x := row]
      ensures In(Placed(ackToRow, acks, x), y, live + msgs) == if y == x then acks else In(ackToRow, y, live)
    {
      FlushedIn(ackToRow, acks, x, y, live + msgs);
      assert In(ackToRow, y, live + msgs) == In(ackToRow, y, live);
    }
  }

  lemma FlushedWhole(db: map<nat, DbRow>, rows: map<nat, Row>, home: map<nat, nat>, ackToRow: map<nat, nat>,
                     msgs: set<nat>, acks: set<nat>, x: nat, row: DbRow)
    requires RowsWhole(db, home, ackToRow) && x !in rows && InRows(home, rows) && InRows(ackToRow, rows)
    requires msgs !! home.Keys && acks !! ackToRow.Keys && row.pending == msgs && row.acks == acks
    ensures RowsWhole(db[x := row], Placed(home, msgs, x), Placed(ackToRow, acks, x))
  {
    forall y
      ensures In(Placed(home, msgs, x), y, Placed(home, msgs, x).Keys) == if y == x then msgs
              else In(home, y, home.Keys)
      ensures In(Placed(ackToRow, acks, x), y, Placed(ackToRow, acks, x).Keys) == if y == x then acks
              else In(ackToRow, y, ackToRow.Keys)
    {
      FlushedIn(home, msgs, x, y, Placed(home, msgs, x).Keys);
      FlushedIn(ackToRow, acks, x, y, Placed(ackToRow, acks, x).Keys);
      assert In(home, y, Placed(home, msgs, x).Keys) == In(home, y, home.Keys);
      assert In(ackToRow, y, Placed(ackToRow, acks, x).Keys) == In(ackToRow, y, ackToRow.Keys);
    }
  }

  lemma FlushedKept(rows: map<nat, Row>, db: map<nat, DbRow>, curRow: nat, x: nat, row: Row, dbRow: DbRow)
    requires RowsKept(rows, db, curRow) && curRow < x && !Unused(row)
    ensures RowsKept(rows[x := row], db[x := dbRow], x)
  {
  }

  /** The side conditions of the lemmas above. */
  lemma FlushedFits(c: Cache, p: Past, x: nat)
    requires RowsKept(c.rows, c.db, c.curRow) && InRows(p.home, c.rows) && c.curRow < x
    requires c.msgs <= p.unacked && c.ackToRow.Keys !! p.unacked
    ensures x !in c.rows && forall s :: s in p.home ==> p.home[s] < x
    ensures c.msgs !! c.ackToRow.Keys && Live(p.home, c.rows) <= p.home.Keys
    ensures c.msgs != {} ==> |c.msgs| > 0
    ensures c.acks != {} ==> |c.acks| > 0
    ensures Placed(p.home, {}, x) == p.home
  {
  }

  lemma FlushedPlaces(c: Cache, p: Past, x: nat, row: Row)
    requires Valid(c, p) && c.curRow < x && row.msgsRefs == |c.msgs|
    ensures var home, ackToRow, rows := Placed(p.home, c.msgs, x), Placed(c.ackToRow, c.acks, x), c.rows[x := row];
            && Known(p.(home := home))
            && MsgsPlaced({}, Placed(c.msgToRow, c.msgs, x), p.unacked, home)
            && InRows(home, rows) && InRows(ackToRow, rows)
            && Live(home, rows) == Live(p.home, c.rows) + c.msgs
            && AcksPlaced({}, ackToRow, p.unacked, Live(home, rows), home)
  {
    FlushedFits(c, p, x);
    FlushedPlaced(c.msgs, c.msgToRow, p.unacked, p.home, x);
    FlushedLive(p.home, c.rows, c.msgs, x, row);
    FlushedInRows(p.home, c.rows, c.msgs, x, row);
    FlushedInRows(c.ackToRow, c.rows, c.acks, x, row);
    FlushedAcks(c.acks, c.ackToRow, p.unacked, Live(p.home, c.rows), p.home, c.msgs, x);
  }

  /** There is something to flush, into a new row. */
  ghost predicate Flushing(c: Cache, p: Past, x: nat) {
    Valid(c, p) && c.curRow < x && c.needsFlush && (c.msgs != {} || c.acks != {})
  }

  lemma FlushedIs(c: Cache, p: Past, x: nat)
    requires c.needsFlush && (c.msgs != {} || c.acks != {})
    ensures var d, row := Flushed(c, x), Row(c.msgs, |c.msgs|, |c.acks|);
            && d.msgs == {} && d.acks == {} && d.rows == c.rows[x := row]
            && d.msgToRow == Placed(c.msgToRow, c.msgs, x) && d.ackToRow == Placed(c.ackToRow, c.acks, x)
    ensures FlushedPast(c, p, x) == p.(home := Placed(p.home, c.msgs, x))
  {
    assert Placed(p.home, {}, x) == p.home;
  }

  lemma FlushedPlacesValid(c: Cache, p: Past, x: nat)
    requires Flushing(c, p, x)
    ensures var d, q := Flushed(c, x), FlushedPast(c, p, x);
            && Known(q) && MsgsPlaced(d.msgs, d.msgToRow, q.unacked, q.home) && InRows(q.home, d.rows)
              && InRows(d.ackToRow, d.rows)
            && AcksPlaced(d.acks, d.ackToRow, q.unacked, Live(q.home, d.rows), q.home)
  {
    FlushedIs(c, p, x);
    FlushedPlaces(c, p, x, Row(c.msgs, |c.msgs|, |c.acks|));
  }

  lemma FlushedCountsValid(c: Cache, p: Past, x: nat)
    requires Flushing(c, p, x)
    ensures var d, q := Flushed(c, x), FlushedPast(c, p, x);
            MsgsCounted(d.rows, q.unacked, q.home) && AcksCounted(d.rows, d.ackToRow, Live(q.home, d.rows))
  {
    var row := Row(c.msgs, |c.msgs|, |c.acks|);
    FlushedFits(c, p, x);
    FlushedPlaces(c, p, x, row);
    FlushedMsgsCounted(c.rows, p.unacked, p.home, c.msgs, x, row);
    FlushedAcksCounted(c.rows, c.ackToRow, Live(p.home, c.rows), c.acks, c.msgs, x, row);
  }

  lemma FlushedRowsValid(c: Cache, p: Past, x: nat)
    requires Flushing(c, p, x)
    ensures var d, q := Flushed(c, x), FlushedPast(c, p, x);
            RowsKept(d.rows, d.db, d.curRow) && RowsWhole(d.db, q.home, d.ackToRow)
  {
    var row, dbRow := Row(c.msgs, |c.msgs|, |c.acks|), DbRow(c.lastSent, c.msgs, c.acks);
    FlushedFits(c, p, x);
    FlushedWhole(c.db, c.rows, p.home, c.ackToRow, c.msgs, c.acks, x, dbRow);
    FlushedKept(c.rows, c.db, c.curRow, x, row, dbRow);
  }

  /** The acknowledgements that are flushed concern no complete row. */
  lemma FlushedDropped(rows: map<nat, Row>, home: map<nat, nat>, ackToRow: map<nat, nat>, msgs: set<nat>,
                       acks: set<nat>, x: nat, row: Row)
    requires LastDropped(rows, home, ackToRow) && x !in rows && InRows(home, rows) && msgs !! home.Keys
             && acks <= Live(home, rows)
    requires msgs != {} ==> row.msgsRefs > 0
    ensures LastDropped(rows[x := row], Placed(home, msgs, x), Placed(ackToRow, acks, x))
  {
    var home', ackToRow' := Placed(home, msgs, x), Placed(ackToRow, acks, x);
    forall s | s in home' && home'[s] in rows[x := row] && rows[x := row][home'[s]].msgsRefs == 0
      ensures OneDropped(home', ackToRow', home'[s])
    {
      var y := home'[s];
      assert s in home && OneDropped(home, ackToRow, y);
      var t :| t in home && home[t] == y && t !in ackToRow;
      assert t in home' && home'[t] == y && t !in ackToRow';
    }
  }

  lemma FlushedDroppedValid(c: Cache, p: Past, x: nat)
    requires Flushing(c, p, x)
    ensures var d, q := Flushed(c, x), FlushedPast(c, p, x); LastDropped(d.rows, q.home, d.ackToRow)
  {
    FlushedFits(c, p, x);
    FlushedDropped(c.rows, p.home, c.ackToRow, c.msgs, c.acks, x, Row(c.msgs, |c.msgs|, |c.acks|));
  }

  lemma FlushedValid(c: Cache, p: Past, x: nat)
    requires Valid(c, p) && c.curRow < x
    ensures Valid(Flushed(c, x), FlushedPast(c, p, x))
  {
    if c.needsFlush && (c.msgs != {} || c.acks != {}) {
      FlushedPlacesValid(c, p, x);
      FlushedCountsValid(c, p, x);
      FlushedRowsValid(c, p, x);
      FlushedDroppedValid(c, p, x);
    }
  }

  // ---------- The last sequence sent ----------

  /** The recovered last-sent value is the highest sequence seen, once all is flushed. */
  ghost predicate LastSentKept(c: Cache) {
    && (forall x :: x in c.db ==> c.db[x].lastSent <= c.lastSent)
    && c.column == c.prevLastSent <= c.lastSent
    && (!c.needsFlush ==>
          c.msgs == {} && c.acks == {}
            && (c.column == c.lastSent || exists x :: x in c.db && c.db[x].lastSent == c.lastSent))
  }

  lemma AckedLastSent(c: Cache, s: nat)
    requires LastSentKept(c)
    ensures LastSentKept(Acked(c, s)) && s <= Acked(c, s).lastSent
  {
  }

  lemma FlushedLastSent(c: Cache, x: nat)
    requires LastSentKept(c)
    ensures LastSentKept(Flushed(c, x)) && !Flushed(c, x).needsFlush
  {
    if c.needsFlush && (c.msgs != {} || c.acks != {}) {
      assert x in Flushed(c, x).db;
    }
  }

  // ---------- Runs ----------

  datatype Op = Add(s: nat) | Ack(s: nat) | Flush(x: nat)

  datatype State = State(c: Cache, p: Past)

  const INITIAL := State(EMPTY_CACHE, Past({}, {}, map[]))

  /** No sequence is added twice, and row identifiers grow. */
  predicate Legal(st: State, op: Op) {
    match op
    case Add(s) => s !in st.p.added
    case Ack(s) => true
    case Flush(x) => st.c.curRow < x
  }

  function Step(st: State, op: Op): State
    requires Legal(st, op)
  {
    match op
    case Add(s) => State(Added(st.c, s), st.p.(added := st.p.added + {s}, unacked := st.p.unacked + {s}))
    case Ack(s) => State(Acked(st.c, s), st.p.(unacked := st.p.unacked - {s}))
    case Flush(x) => State(Flushed(st.c, x), FlushedPast(st.c, st.p, x))
  }

  predicate LegalRun(st: State, ops: seq<Op>)
    decreases |ops|
  {
    ops == [] || (Legal(st, ops[0]) && LegalRun(Step(st, ops[0]), ops[1..]))
  }

  function Run(st: State, ops: seq<Op>): State
    requires LegalRun(st, ops)
    decreases |ops|
  {
    if ops == [] then st else Run(Step(st, ops[0]), ops[1..])
  }

  lemma StepKeeps(st: State, op: Op)
    requires Legal(st, op) && Valid(st.c, st.p) && LastSentKept(st.c)
    ensures Valid(Step(st, op).c, Step(st, op).p) && LastSentKept(Step(st, op).c)
  {
    match op
    case Add(s) => AddedValid(st.c, st.p, s);
    case Ack(s) => AckedValid(st.c, st.p, s); AckedLastSent(st.c, s);
    case Flush(x) => FlushedValid(st.c, st.p, x); FlushedLastSent(st.c, x);
  }

  /** From the empty cache, every run keeps all counts exact. */
  lemma {:induction false} RunKeeps(st: State, ops: seq<Op>)
    requires LegalRun(st, ops) && Valid(st.c, st.p) && LastSentKept(st.c)
    ensures Valid(Run(st, ops).c, Run(st, ops).p) && LastSentKept(Run(st, ops).c)
    decreases |ops|
  {
    if ops != [] {
      StepKeeps(st, ops[0]);
      RunKeeps(Step(st, ops[0]), ops[1..]);
    }
  }

  lemma InitialValid()
    ensures Valid(INITIAL.c, INITIAL.p) && LastSentKept(INITIAL.c)
  {
  }

  // ---------- What recovery finds ----------

  /** The pending messages after reading the database rows in the given order. */
  function Recovered(db: map<nat, DbRow>, order: seq<nat>): set<nat>
    requires forall i :: 0 <= i < |order| ==> order[i] in db
  {
    if order == [] then {}
    else
      var n := |order| - 1;
      Recovered(db, order[..n]) + db[order[n]].pending - db[order[n]].acks
  }

  /** All rows, each once. */
  predicate AllRows(db: map<nat, DbRow>, order: seq<nat>) {
    (forall i :: 0 <= i < |order| ==> order[i] in db) && forall x :: x in db ==> x in order
  }

  predicate Ascending(order: seq<nat>) {
    forall i, j :: 0 <= i < j < |order| ==> order[i] < order[j]
  }

  method Recover(db: map<nat, DbRow>, order: seq<nat>, column: nat) returns (pendingAcks: set<nat>, lastSent: nat)
    requires AllRows(db, order)
    ensures pendingAcks == Recovered(db, order)
    ensures column <= lastSent && forall x :: x in db ==> db[x].lastSent <= lastSent
    ensures lastSent == column || exists x :: x in db && lastSent == db[x].lastSent
  {
    pendingAcks, lastSent := {}, column;
    for i := 0 to |order|
      invariant pendingAcks == Recovered(db, order[..i])
      invariant column <= lastSent && forall j :: 0 <= j < i ==> db[order[j]].lastSent <= lastSent
      invariant lastSent == column || exists x :: x in db && lastSent == db[x].lastSent
    {
      assert order[..i + 1][..i] == order[..i];
      var row := db[order[i]];
      if row.lastSent > lastSent {
        lastSent := row.lastSent;
      }
      pendingAcks := pendingAcks + row.pending - row.acks;
    }
    assert order[..|order|] == order;
  }

  /** A message that no row acknowledges is recovered, in whatever order the rows come. */
  lemma {:induction false} RecoveredPending(db: map<nat, DbRow>, order: seq<nat>, s: nat, i: nat)
    requires forall i :: 0 <= i < |order| ==> order[i] in db
    requires i < |order| && s in db[order[i]].pending
    requires forall j :: i <= j < |order| ==> s !in db[order[j]].acks
    ensures s in Recovered(db, order)
    decreases |order|
  {
    var n := |order| - 1;
    if i < n {
      RecoveredPending(db, order[..n], s, i);
    }
  }

  /** What is recovered was written in some row, and no later row acknowledges it. */
  lemma {:induction false} RecoveredFrom(db: map<nat, DbRow>, order: seq<nat>, s: nat) returns (i: nat)
    requires forall i :: 0 <= i < |order| ==> order[i] in db
    requires s in Recovered(db, order)
    ensures i < |order| && s in db[order[i]].pending
    ensures forall j :: i <= j < |order| ==> s !in db[order[j]].acks
    decreases |order|
  {
    var n := |order| - 1;
    i := n;
    if s !in db[order[n]].pending {
      i := RecoveredFrom(db, order[..n], s);
      assert forall j :: i <= j < n ==> order[..n][j] == order[j];
    }
  }

  /** No row with an unacknowledged message is ever deleted. */
  lemma UnackedRowKept(c: Cache, p: Past, s: nat)
    requires Valid(c, p) && s in p.unacked && s in p.home
    ensures p.home[s] in c.db && s in c.db[p.home[s]].pending
    ensures forall x :: x in c.db ==> s !in c.db[x].acks
  {
    assert s in In(p.home, p.home[s], p.unacked);
  }

  /** After a flush, recovery returns every unacknowledged message, in whatever order the rows come. */
  lemma RecoveryIsComplete(c: Cache, p: Past, order: seq<nat>)
    requires Valid(c, p) && c.msgs == {} && AllRows(c.db, order)
    ensures p.unacked <= Recovered(c.db, order)
  {
    forall s | s in p.unacked
      ensures s in Recovered(c.db, order)
    {
      assert s in p.home;
      UnackedRowKept(c, p, s);
      RecoveredRow(c.db, order, s, p.home[s]);
    }
  }

  lemma RecoveredRow(db: map<nat, DbRow>, order: seq<nat>, s: nat, x: nat)
    requires AllRows(db, order) && x in db && s in db[x].pending && forall y :: y in db ==> s !in db[y].acks
    ensures s in Recovered(db, order)
  {
    var i :| 0 <= i < |order| && order[i] == x;
    RecoveredPending(db, order, s, i);
  }

  /** Once all messages are acknowledged, no row is left. */
  lemma AllAckedLeavesNothing(c: Cache, p: Past)
    requires Valid(c, p) && p.unacked == {}
    ensures c.db == map[]
  {
    forall x | x in c.rows
      ensures Unused(c.rows[x])
    {
      assert In(p.home, x, {}) == {};
      assert forall y :: y in c.rows ==> c.rows[y].msgsRefs == |In(p.home, y, {})|;
      assert Live(p.home, c.rows) == {};
      assert In(c.ackToRow, x, {}) == {};
    }
  }

  /**
   With rows in ascending order, a message is recovered exactly if its row is left and the row of its acknowledgement is
   not.
   */
  lemma RecoveryIs(db: map<nat, DbRow>, order: seq<nat>, home: map<nat, nat>, ackToRow: map<nat, nat>, s: nat)
    requires RowsWhole(db, home, ackToRow) && AllRows(db, order) && Ascending(order)
    requires forall s :: s in ackToRow ==> s in home && home[s] < ackToRow[s]
    ensures s in Recovered(db, order) <==> s in home && home[s] in db && !(s in ackToRow && ackToRow[s] in db)
  {
    if s in Recovered(db, order) {
      var i := RecoveredFrom(db, order, s);
    } else if s in home && home[s] in db && !(s in ackToRow && ackToRow[s] in db) {
      RecoveredRow(db, order, s, home[s]);
    }
  }

  /** An acknowledged message of a row that still has an unacknowledged one is not recovered. */
  lemma LiveAckKept(c: Cache, p: Past, s: nat)
    requires AcksPlaced(c.acks, c.ackToRow, p.unacked, Live(p.home, c.rows), p.home) && c.acks == {}
    requires AcksCounted(c.rows, c.ackToRow, Live(p.home, c.rows)) && RowsKept(c.rows, c.db, c.curRow)
    requires InRows(c.ackToRow, c.rows)
    requires s in Live(p.home, c.rows) && s !in p.unacked
    ensures s in c.ackToRow && c.ackToRow[s] in c.db
  {
    assert s in In(c.ackToRow, c.ackToRow[s], Live(p.home, c.rows));
  }

  /**
   What recovery returns in excess of the unacknowledged messages is from rows that are complete and left for their
   acknowledgements.
   */
  lemma ExcessIsFromCompleteRow(c: Cache, p: Past, order: seq<nat>, s: nat)
    requires Valid(c, p) && c.acks == {} && AllRows(c.db, order) && Ascending(order)
    requires s in Recovered(c.db, order) && s !in p.unacked
    ensures s in p.home && c.rows[p.home[s]].msgsRefs == 0 && c.rows[p.home[s]].acksRefs > 0
  {
    RecoveryIs(c.db, order, p.home, c.ackToRow, s);
    CountsAreNatural(c.rows, c.ackToRow, Live(p.home, c.rows), p.unacked, p.home, p.home[s]);
    if s in Live(p.home, c.rows) {
      LiveAckKept(c, p, s);
    }
  }

  lemma CountsAreNatural(rows: map<nat, Row>, ackToRow: map<nat, nat>, live: set<nat>, unacked: set<nat>,
                         home: map<nat, nat>, x: nat)
    requires AcksCounted(rows, ackToRow, live) && MsgsCounted(rows, unacked, home) && x in rows
    ensures rows[x].msgsRefs >= 0 && rows[x].acksRefs >= 0
  {
  }

  lemma NoneUnacked(rows: map<nat, Row>, unacked: set<nat>, home: map<nat, nat>, x: nat)
    requires MsgsCounted(rows, unacked, home) && x in rows && rows[x].msgsRefs == 0
    ensures forall s :: s in home && home[s] == x ==> s !in unacked
  {
    forall s | s in home && home[s] == x ensures s !in unacked {
      assert s in unacked ==> s in In(home, x, unacked);
    }
  }

  /** A complete row that is left brings back a message: the one whose acknowledgement was dropped. */
  lemma CompleteRowComesBack(c: Cache, p: Past, order: seq<nat>, x: nat) returns (s: nat)
    requires Valid(c, p) && AllRows(c.db, order) && Ascending(order)
    requires x in c.db && c.rows[x].msgsRefs == 0 && c.db[x].pending != {}
    ensures s in Recovered(c.db, order) && s !in p.unacked
  {
    var t :| t in c.db[x].pending;
    assert OneDropped(p.home, c.ackToRow, p.home[t]);
    s :| s in p.home && p.home[s] == x && s !in c.ackToRow;
    NoneUnacked(c.rows, p.unacked, p.home, x);
    RecoveryIs(c.db, order, p.home, c.ackToRow, s);
  }

  /** The row of a message that is recovered in excess. */
  lemma ExcessRow(c: Cache, p: Past, order: seq<nat>, s: nat)
    requires Valid(c, p) && c.acks == {} && AllRows(c.db, order) && Ascending(order)
    requires s in Recovered(c.db, order) && s !in p.unacked
    ensures s in p.home && p.home[s] in c.db && !BringsNothingBack(c.rows, c.db, p.home[s])
  {
    ExcessIsFromCompleteRow(c, p, order, s);
    RecoveryIs(c.db, order, p.home, c.ackToRow, s);
  }

  /** A row that still has an unacknowledged message, or never had a message. */
  predicate BringsNothingBack(rows: map<nat, Row>, db: map<nat, DbRow>, x: nat) {
    x in rows && x in db && (rows[x].msgsRefs > 0 || db[x].pending == {})
  }

  ghost predicate NoneComesBack(rows: map<nat, Row>, db: map<nat, DbRow>) {
    forall x :: x in db ==> BringsNothingBack(rows, db, x)
  }

  lemma NoExcessIff(c: Cache, p: Past, order: seq<nat>)
    requires Valid(c, p) && c.acks == {} && AllRows(c.db, order) && Ascending(order)
    ensures Recovered(c.db, order) <= p.unacked <==> NoneComesBack(c.rows, c.db)
  {
    if x :| x in c.db && !BringsNothingBack(c.rows, c.db, x) {
      CountsAreNatural(c.rows, c.ackToRow, Live(p.home, c.rows), p.unacked, p.home, x);
      var s := CompleteRowComesBack(c, p, order, x);
    } else if s :| s in Recovered(c.db, order) && s !in p.unacked {
      ExcessRow(c, p, order, s);
    }
  }

  /**
   Recovery returns exactly the unacknowledged messages if and only if every row that is left still has an
   unacknowledged message, or never had a message.
   */
  lemma RecoveryExcess(c: Cache, p: Past, order: seq<nat>)
    requires Valid(c, p) && c.msgs == {} && c.acks == {} && AllRows(c.db, order) && Ascending(order)
    ensures Recovered(c.db, order) == p.unacked <==> NoneComesBack(c.rows, c.db)
  {
    RecoveryIsComplete(c, p, order);
    NoExcessIff(c, p, order);
    Between(p.unacked, Recovered(c.db, order));
  }

  lemma Between(a: set<nat>, b: set<nat>)
    ensures a <= b ==> (b == a <==> b <= a)
  {
  }

  /**
   The guarantees for every run from an empty cache: a row with an unacknowledged message is in the database; right
   after a flush, recovery finds every unacknowledged message, whatever the order of rows, and with ascending rows
   nothing else exactly if no complete row with messages is left; and nothing is left once all messages are
   acknowledged.
   */
  lemma EveryRun(ops: seq<Op>)
    requires LegalRun(INITIAL, ops)
    ensures var st := Run(INITIAL, ops);
            && (forall s :: s in st.p.unacked && s in st.p.home ==> st.p.home[s] in st.c.db)
            && (!st.c.needsFlush ==> forall order :: AllRows(st.c.db, order) ==>
                st.p.unacked <= Recovered(st.c.db, order))
            && (!st.c.needsFlush ==> forall order :: AllRows(st.c.db, order) && Ascending(order) ==>
                  (Recovered(st.c.db, order) == st.p.unacked <==> NoneComesBack(st.c.rows, st.c.db)))
            && (st.p.unacked == {} ==> st.c.db == map[])
  {
    InitialValid();
    RunKeeps(INITIAL, ops);
    var st := Run(INITIAL, ops);
    RunGuarantees(st.c, st.p);
  }

  lemma RunGuarantees(c: Cache, p: Past)
    requires Valid(c, p) && LastSentKept(c)
    ensures forall s :: s in p.unacked && s in p.home ==> p.home[s] in c.db
    ensures !c.needsFlush ==> forall order :: AllRows(c.db, order) ==> p.unacked <= Recovered(c.db, order)
    ensures !c.needsFlush ==> forall order :: AllRows(c.db, order) && Ascending(order) ==>
              (Recovered(c.db, order) == p.unacked <==> NoneComesBack(c.rows, c.db))
    ensures p.unacked == {} ==> c.db == map[]
  {
    forall order | !c.needsFlush && AllRows(c.db, order) && Ascending(order)
      ensures Recovered(c.db, order) == p.unacked <==> NoneComesBack(c.rows, c.db)
    {
      RecoveryExcess(c, p, order);
    }
    forall s | s in p.unacked && s in p.home
      ensures p.home[s] in c.db
    {
      UnackedRowKept(c, p, s);
    }
    forall order | !c.needsFlush && AllRows(c.db, order)
      ensures p.unacked <= Recovered(c.db, order)
    {
      RecoveryIsComplete(c, p, order);
    }
    if p.unacked == {} {
      AllAckedLeavesNothing(c, p);
    }
  }

  /** With rows in ascending order, the row with the highest identifier is read last. */
  lemma LastRow(db: map<nat, DbRow>, order: seq<nat>, x: nat)
    requires AllRows(db, order) && Ascending(order) && x in db && forall y :: y in db ==> y <= x
    ensures order != [] && order[|order| - 1] == x
  {
    var i :| 0 <= i < |order| && order[i] == x;
    if i < |order| - 1 {
      assert order[i] < order[|order| - 1];
    }
  }

  lemma ReadLast(db: map<nat, DbRow>, row: DbRow, order: seq<nat>, s: nat, x: nat)
    requires AllRows(db[x := row], order) && Ascending(order) && (forall y :: y in db ==> y < x) && s in row.pending
    ensures s in Recovered(db[x := row], order) <==> s !in row.acks
  {
    LastRow(db[x := row], order, x);
  }

  /**
   A message that was acknowledged and is sent again: the next flush writes it, and recovery finds it if and only if its
   acknowledgement was not in memory, to be written into the same row.
   */
  lemma AddedAgainIff(c: Cache, p: Past, s: nat, x: nat, order: seq<nat>)
    requires Valid(c, p) && s in p.added && s !in p.unacked && c.curRow < x
    requires AllRows(Flushed(Added(c, s), x).db, order) && Ascending(order)
    ensures s in Recovered(Flushed(Added(c, s), x).db, order) <==> s !in c.acks
  {
    var row := DbRow(Added(c, s).lastSent, c.msgs + {s}, c.acks);
    assert Flushed(Added(c, s), x).db == c.db[x := row];
    assert forall y :: y in c.db ==> y in c.rows && y < x;
    ReadLast(c.db, row, order, s, x);
  }

  /**
   It does happen: sequence 1 is sent, flushed, acknowledged, sent again and flushed; it is pending, but recovery does
   not find it.
   */
  lemma AddedAgainIsLost()
    ensures var c0 := Flushed(Added(Added(EMPTY_CACHE, 1), 2), 1);
            var c1 := Added(Acked(c0, 1), 1);
            var c2 := Flushed(c1, 2);
            1 in c1.msgs && c2.msgToRow[1] == 2 && AllRows(c2.db, [1, 2]) && 1 !in Recovered(c2.db, [1, 2])
  {
    OneRowIs();
    AddedAgain();
  }

  lemma AddedAgain()
    ensures var c1 := Added(Acked(OneRow(), 1), 1);
            var c2 := Flushed(c1, 2);
            1 in c1.msgs && c2.msgToRow[1] == 2 && AllRows(c2.db, [1, 2]) && 1 !in Recovered(c2.db, [1, 2])
  {
    var c1 := Added(Acked(OneRow(), 1), 1);
    assert c1.acks == {1} && c1.msgs == {1};
    var c2 := Flushed(c1, 2);
    assert c2.db[2].acks == {1};
    assert [1, 2][..1] == [1];
  }

  /** Messages 1 and 2 in a first row. */
  function OneRow(): Cache {
    Cache(2, 0, {}, {}, map[1 := 1, 2 := 1], map[], map[1 := Row({1, 2}, 2, 0)], false, map[1 := DbRow(2, {1, 2}, {})],
          0, 1)
  }

  lemma OneRowIs()
    ensures Flushed(Added(Added(EMPTY_CACHE, 1), 2), 1) == OneRow()
  {
    var c := Added(Added(EMPTY_CACHE, 1), 2);
    assert c.msgs == {1, 2} && |{1, 2}| == 2;
    assert Placed(map[], {1, 2}, 1) == map[1 := 1, 2 := 1];
    assert Placed(map[], {}, 1) == map[];
  }

  /** Message 3 and the acknowledgement of 1 in a second row. */
  function TwoRows(): Cache {
    Cache(3, 0, {}, {}, map[2 := 1, 3 := 2], map[1 := 2],
          map[1 := Row({1, 2}, 1, 0), 2 := Row({3}, 1, 1)], false,
          map[1 := DbRow(2, {1, 2}, {}), 2 := DbRow(3, {3}, {1})], 0, 2)
  }

  lemma TwoRowsAre()
    ensures Flushed(Added(Acked(OneRow(), 1), 3), 2) == TwoRows()
  {
    var c := Added(Acked(OneRow(), 1), 3);
    assert c.rows == map[1 := Row({1, 2}, 1, 0)];
    assert c.msgs == {3} && c.acks == {1};
    assert c.msgToRow == map[2 := 1];
    assert Placed(map[2 := 1], {3}, 2) == map[2 := 1, 3 := 2];
    assert Placed(map[], {1}, 2) == map[1 := 2];
  }

  /**
   Recovery may return a message that was acknowledged: message 3 is acknowledged, but its row is left for the
   acknowledgement of message 1, and the acknowledgement of 3 is dropped.
   */
  lemma AckedMayComeBack()
    ensures Flushed(Added(Acked(Flushed(Added(Added(EMPTY_CACHE, 1), 2), 1), 1), 3), 2) == TwoRows()
    ensures var c := Flushed(Acked(TwoRows(), 3), 3);
            AllRows(c.db, [1, 2]) && 3 !in c.msgToRow && c.acks == {} && 3 in Recovered(c.db, [1, 2])
  {
    OneRowIs();
    TwoRowsAre();
    ThreeComesBack();
  }

  lemma ThreeComesBack()
    ensures var c := Flushed(Acked(TwoRows(), 3), 3);
            AllRows(c.db, [1, 2]) && 3 !in c.msgToRow && c.acks == {} && 3 in Recovered(c.db, [1, 2])
  {
    ThreeIsAcked();
    RecoveredPending(Flushed(Acked(TwoRows(), 3), 3).db, [1, 2], 3, 1);
  }

  lemma ThreeIsAcked()
    ensures Acked(TwoRows(), 3).db == TwoRows().db && Acked(TwoRows(), 3).msgToRow == map[2 := 1]
    ensures Acked(TwoRows(), 3).acks == {} && Acked(TwoRows(), 3).msgs == {}
  {
    TwoReleased();
  }

  lemma TwoReleased()
    ensures var c := TwoRows();
            var rows := AllReleased(c.rows, c.ackToRow, 2);
            1 in rows && 2 in rows && rows[1] == Row({1, 2}, 1, 0) && rows[2] == Row({}, 0, 1)
  {
    var c := TwoRows();
    assert In(c.ackToRow, 1, {3}) == {} && In(c.ackToRow, 2, {3}) == {};
  }
}
