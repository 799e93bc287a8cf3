/**
 The files of a file message store, as values: slices of the log, each a data file and an index file
 (stores/filestore.go).
 */
module FileSlices {
  import opened MsgLog

  /** Header of a data record, and size of an index record: what a message costs beside its own size. */
  const RECORD_HEADER := 8
  const INDEX_RECORD := 32

  function Cost(size: Msg -> nat): Msg -> nat {
    m => size(m) + RECORD_HEADER + INDEX_RECORD
  }

  datatype IndexRec = IndexRec(sequence: nat, offset: nat, timestamp: int, msgSize: nat)

  /** A slice: `data` is the data file by byte offset, `idx` the index file by position. */
  datatype Slice = Slice(firstSeq: nat, lastSeq: nat, rmCount: nat, msgsCount: nat, msgsSize: nat, firstWrite: int,
                         data: map<nat, Msg>, idx: seq<IndexRec>)

  const NEW_SLICE := Slice(0, 0, 0, 0, 0, 0, map[], [])

  /** The index record is that of message `s`, and `data` has that message at its offset. */
  ghost predicate RecOk(size: Msg -> nat, r: IndexRec, s: nat, data: map<nat, Msg>, log: Log) {
    && r.sequence == s && r.offset in data
    && data[r.offset].sequence == s && r.timestamp == data[r.offset].timestamp && r.msgSize == size(data[r.offset])
    && (log.first <= s ==> log.Has(s) && log.At(s) == data[r.offset])
  }

  /** What the messages of the first `n` records take in the files. */
  function Bytes(idx: seq<IndexRec>, n: nat): nat
    requires n <= |idx|
  {
    if n == 0 then 0 else Bytes(idx, n - 1) + idx[n - 1].msgSize + RECORD_HEADER + INDEX_RECORD
  }

  lemma {:induction false} BytesPrefix(idx: seq<IndexRec>, more: seq<IndexRec>, n: nat)
    requires n <= |idx|
    ensures Bytes(idx + more, n) == Bytes(idx, n)
    decreases n
  {
    if n > 0 {
      BytesPrefix(idx, more, n - 1);
    }
  }

  lemma BytesPush(idx: seq<IndexRec>, r: IndexRec)
    ensures Bytes(idx + [r], |idx| + 1) == Bytes(idx, |idx|) + r.msgSize + RECORD_HEADER + INDEX_RECORD
  {
    BytesPrefix(idx, [r], |idx|);
  }

  /** The size of a slice is what the messages of its records take. */
  ghost predicate Sized(sl: Slice) {
    forall n: nat :: n == |sl.idx| ==> sl.msgsSize == Bytes(sl.idx, n)
  }

  /** The records of a slice are those of consecutive messages; the first `rmCount` of them are no longer valid. */
  ghost predicate SliceOk(size: Msg -> nat, sl: Slice, log: Log) {
    && sl.msgsCount == |sl.idx| && Sized(sl) && sl.rmCount <= sl.msgsCount && sl.rmCount < sl.firstSeq
    && sl.lastSeq + 1 == sl.firstSeq - sl.rmCount + sl.msgsCount
    && log.first <= sl.firstSeq && sl.lastSeq <= log.Last()
    && forall i :: 0 <= i < |sl.idx| ==> RecOk(size, sl.idx[i], sl.firstSeq - sl.rmCount + i, sl.data, log)
  }

  /** Slices one after the other, without a hole and without an overlap, from the first to the last message. */
  ghost predicate Ranges(files: map<nat, Slice>, fsl: nat, lsl: nat, log: Log) {
    && 1 <= fsl <= lsl && log.first > 0 && log.Last() > 0 && (forall k :: k in files <==> fsl <= k <= lsl)
    && files[fsl].firstSeq == log.first && files[lsl].lastSeq == log.Last()
    && (forall j, k :: j in files && k in files && j < k ==> files[j].lastSeq < files[k].firstSeq)
    && (forall j, k :: j in files && k in files && k == j + 1 ==> files[k].firstSeq == files[j].lastSeq + 1)
  }

  /** Only the first slice has lost messages, and only a slice that is alone can have lost all. */
  ghost predicate Removals(files: map<nat, Slice>, fsl: nat, lsl: nat) {
    && (forall k :: k in files && k > fsl ==> files[k].rmCount == 0)
    && (forall k :: k in files && fsl < lsl ==> files[k].firstSeq <= files[k].lastSeq)
  }

  ghost predicate AllOk(size: Msg -> nat, files: map<nat, Slice>, log: Log) {
    forall k :: k in files ==> SliceOk(size, files[k], log)
  }

  ghost predicate FilesOk(size: Msg -> nat, files: map<nat, Slice>, fsl: nat, lsl: nat, log: Log) {
    && log.Valid()
    && Ranges(files, fsl, lsl, log)
    && Removals(files, fsl, lsl)
    && AllOk(size, files, log)
  }

  // ---------- Reading ----------

  predicate Contains(sl: Slice, s: nat) {
    sl.firstSeq <= s <= sl.lastSeq
  }

  /** The place of a message's record in the index file. */
  function Position(sl: Slice, s: nat): nat
    requires Contains(sl, s)
  {
    s - sl.firstSeq + sl.rmCount
  }

  /** The offset formula finds the record of the requested message. */
  lemma PositionFinds(size: Msg -> nat, sl: Slice, log: Log, s: nat)
    requires SliceOk(size, sl, log) && Contains(sl, s)
    ensures var p := Position(sl, s);
            && p < |sl.idx| && sl.idx[p].sequence == s && sl.idx[p].offset in sl.data
            && log.Has(s) && sl.data[sl.idx[p].offset] == log.At(s)
            && sl.idx[p].timestamp == log.At(s).timestamp && sl.idx[p].msgSize == size(log.At(s))
  {
    var p := Position(sl, s);
    assert RecOk(size, sl.idx[p], s, sl.data, log);
  }

  /** Every message of the log is in one slice. */
  lemma {:induction false} SliceOf(files: map<nat, Slice>, fsl: nat, lsl: nat, log: Log, from: nat, s: nat)
      returns (k: nat)
    requires Ranges(files, fsl, lsl, log) && log.Has(s) && fsl <= from <= lsl && files[from].firstSeq <= s
    ensures k in files && Contains(files[k], s)
    decreases lsl - from
  {
    if s <= files[from].lastSeq {
      k := from;
    } else {
      assert from + 1 in files;
      k := SliceOf(files, fsl, lsl, log, from + 1, s);
    }
  }

  lemma OneSlice(files: map<nat, Slice>, fsl: nat, lsl: nat, log: Log, j: nat, k: nat, s: nat)
    requires Ranges(files, fsl, lsl, log) && j in files && k in files && Contains(files[j], s) && Contains(files[k], s)
    ensures j == k
  {
  }

  // ---------- Appending one record to the last slice ----------

  function Longer(log: Log, m: Msg): Log {
    if log.first == 0 then Log(m.sequence, [m]) else Log(log.first, log.entries + [m])
  }

  function Appended(size: Msg -> nat, sl: Slice, m: Msg, off: nat, firstWrite: int): Slice {
    sl.(firstWrite := firstWrite, lastSeq := m.sequence, msgsCount := sl.msgsCount + 1,
        msgsSize := sl.msgsSize + Cost(size)(m),
        data := sl.data[off := m], idx := sl.idx + [IndexRec(m.sequence, off, m.timestamp, size(m))])
  }

  lemma RecStays(size: Msg -> nat, r: IndexRec, s: nat, data: map<nat, Msg>, log: Log, m: Msg, off: nat)
    requires RecOk(size, r, s, data, log) && log.first > 0 && s <= log.Last() && r.offset != off
    ensures RecOk(size, r, s, data[off := m], Longer(log, m)) && RecOk(size, r, s, data, Longer(log, m))
  {
  }

  lemma SliceStays(size: Msg -> nat, sl: Slice, log: Log, m: Msg)
    requires SliceOk(size, sl, log) && log.first > 0
    ensures SliceOk(size, sl, Longer(log, m))
  {
    forall i | 0 <= i < |sl.idx|
      ensures RecOk(size, sl.idx[i], sl.firstSeq - sl.rmCount + i, sl.data, Longer(log, m))
    {
      assert RecOk(size, sl.idx[i], sl.firstSeq - sl.rmCount + i, sl.data, log);
    }
  }

  lemma AppendedSized(size: Msg -> nat, sl: Slice, m: Msg, off: nat, fw: int)
    requires Sized(sl)
    ensures Sized(Appended(size, sl, m, off, fw))
  {
    BytesPush(sl.idx, IndexRec(m.sequence, off, m.timestamp, size(m)));
  }

  lemma AppendedOk(size: Msg -> nat, sl: Slice, log: Log, m: Msg, off: nat, fw: int)
    requires SliceOk(size, sl, log) && log.first > 0 && m.sequence == log.Last() + 1 == sl.lastSeq + 1
             && off !in sl.data
    ensures SliceOk(size, Appended(size, sl, m, off, fw), Longer(log, m))
  {
    var r := Appended(size, sl, m, off, fw);
    AppendedSized(size, sl, m, off, fw);
    forall i | 0 <= i < |r.idx|
      ensures RecOk(size, r.idx[i], r.firstSeq - r.rmCount + i, r.data, Longer(log, m))
    {
      if i < |sl.idx| {
        assert RecOk(size, sl.idx[i], sl.firstSeq - sl.rmCount + i, sl.data, log);
        RecStays(size, sl.idx[i], sl.firstSeq - sl.rmCount + i, sl.data, log, m, off);
      }
    }
  }

  lemma AppendFiles(size: Msg -> nat, files: map<nat, Slice>, fsl: nat, lsl: nat, log: Log, m: Msg, off: nat, fw: int)
    requires FilesOk(size, files, fsl, lsl, log) && m.sequence == log.Last() + 1 && off !in files[lsl].data
    ensures FilesOk(size, files[lsl := Appended(size, files[lsl], m, off, fw)], fsl, lsl, Longer(log, m))
  {
    var after := files[lsl := Appended(size, files[lsl], m, off, fw)];
    AppendedOk(size, files[lsl], log, m, off, fw);
    forall k | k in after ensures SliceOk(size, after[k], Longer(log, m)) {
      if k != lsl {
        SliceStays(size, files[k], log, m);
      }
    }
    AppendRanges(files, fsl, lsl, log, Longer(log, m), Appended(size, files[lsl], m, off, fw));
  }

  lemma AppendRanges(files: map<nat, Slice>, fsl: nat, lsl: nat, log: Log, longer: Log, sl: Slice)
    requires Ranges(files, fsl, lsl, log) && Removals(files, fsl, lsl) && longer.first == log.first
             && longer.Last() == log.Last() + 1
    requires sl.firstSeq == files[lsl].firstSeq && sl.lastSeq == files[lsl].lastSeq + 1
             && sl.rmCount == files[lsl].rmCount
    ensures Ranges(files[lsl := sl], fsl, lsl, longer) && Removals(files[lsl := sl], fsl, lsl)
  {
  }

  // ---------- A new slice ----------

  function Single(size: Msg -> nat, m: Msg, off: nat): Slice {
    Appended(size, NEW_SLICE.(firstSeq := m.sequence), m, off, m.timestamp)
  }

  lemma SingleOk(size: Msg -> nat, log: Log, m: Msg, off: nat)
    requires log.Valid() && (m.sequence == log.Last() + 1 || (log.first == 0 && m.sequence > 0))
    ensures SliceOk(size, Single(size, m, off), Longer(log, m)) && Longer(log, m).Valid()
  {
    var r := Single(size, m, off);
    AppendedSized(size, NEW_SLICE.(firstSeq := m.sequence), m, off, m.timestamp);
    assert RecOk(size, r.idx[0], m.sequence, r.data, Longer(log, m));
  }

  lemma NextSlice(size: Msg -> nat, files: map<nat, Slice>, fsl: nat, lsl: nat, log: Log, m: Msg, off: nat)
    requires FilesOk(size, files, fsl, lsl, log) && m.sequence == log.Last() + 1 && log.entries != []
    ensures FilesOk(size, files[lsl + 1 := Single(size, m, off)], fsl, lsl + 1, Longer(log, m))
  {
    var after := files[lsl + 1 := Single(size, m, off)];
    SingleOk(size, log, m, off);
    forall k | k in after ensures SliceOk(size, after[k], Longer(log, m)) {
      if k != lsl + 1 {
        SliceStays(size, files[k], log, m);
      }
    }
    NextRanges(files, fsl, lsl, log, Longer(log, m), Single(size, m, off));
    NextRemovals(files, fsl, lsl, Single(size, m, off));
  }

  lemma NextRanges(files: map<nat, Slice>, fsl: nat, lsl: nat, log: Log, longer: Log, sl: Slice)
    requires Ranges(files, fsl, lsl, log) && longer.first == log.first && longer.Last() == log.Last() + 1
    requires forall k :: k in files ==> files[k].lastSeq <= log.Last()
    requires sl.firstSeq == sl.lastSeq == log.Last() + 1
    ensures Ranges(files[lsl + 1 := sl], fsl, lsl + 1, longer)
  {
  }

  lemma NextRemovals(files: map<nat, Slice>, fsl: nat, lsl: nat, sl: Slice)
    requires Removals(files, fsl, lsl) && (forall k :: k in files <==> fsl <= k <= lsl) && fsl <= lsl
    requires files[lsl].firstSeq <= files[lsl].lastSeq && sl.firstSeq == sl.lastSeq && sl.rmCount == 0
    ensures Removals(files[lsl + 1 := sl], fsl, lsl + 1)
  {
  }

  lemma OnlySlice(size: Msg -> nat, lsl: nat, log: Log, m: Msg, off: nat)
    requires log.Valid() && log.entries == [] && lsl > 0
             && (m.sequence == log.Last() + 1 || (log.first == 0 && m.sequence > 0))
    ensures FilesOk(size, map[lsl := Single(size, m, off)], lsl, lsl, Longer(log, m))
  {
    SingleOk(size, log, m, off);
  }

  // ---------- Removing the first message ----------

  function FirstRemoved(sl: Slice): Slice {
    sl.(rmCount := sl.rmCount + 1, firstSeq := sl.firstSeq + 1)
  }

  lemma SliceShrinks(size: Msg -> nat, sl: Slice, log: Log)
    requires SliceOk(size, sl, log) && log.first > 0 && log.entries != [] && log.first < sl.firstSeq
    ensures SliceOk(size, sl, log.Drop(1))
  {
    forall i | 0 <= i < |sl.idx|
      ensures RecOk(size, sl.idx[i], sl.firstSeq - sl.rmCount + i, sl.data, log.Drop(1))
    {
      assert RecOk(size, sl.idx[i], sl.firstSeq - sl.rmCount + i, sl.data, log);
    }
  }

  lemma FirstRemovedOk(size: Msg -> nat, sl: Slice, log: Log)
    requires SliceOk(size, sl, log) && log.first > 0 && log.entries != [] && log.first == sl.firstSeq
             && sl.rmCount < sl.msgsCount
    ensures SliceOk(size, FirstRemoved(sl), log.Drop(1))
  {
    forall i | 0 <= i < |sl.idx|
      ensures RecOk(size, sl.idx[i], sl.firstSeq - sl.rmCount + i, sl.data, log.Drop(1))
    {
      assert RecOk(size, sl.idx[i], sl.firstSeq - sl.rmCount + i, sl.data, log);
    }
  }

  /** The first message is removed and its slice stays. */
  lemma RemoveInSlice(size: Msg -> nat, files: map<nat, Slice>, fsl: nat, lsl: nat, log: Log)
    requires FilesOk(size, files, fsl, lsl, log) && log.entries != []
    requires files[fsl].rmCount + 1 < files[fsl].msgsCount || fsl == lsl
    ensures FilesOk(size, files[fsl := FirstRemoved(files[fsl])], fsl, lsl, log.Drop(1))
  {
    var after := files[fsl := FirstRemoved(files[fsl])];
    FirstRemovedOk(size, files[fsl], log);
    forall k | k in after ensures SliceOk(size, after[k], log.Drop(1)) {
      if k != fsl {
        SliceShrinks(size, files[k], log);
      }
    }
    assert Ranges(after, fsl, lsl, log.Drop(1));
    assert Removals(after, fsl, lsl);
  }

  /** The first message was the last valid one of its slice, and the slice goes with it. */
  lemma RemoveSlice(size: Msg -> nat, files: map<nat, Slice>, fsl: nat, lsl: nat, log: Log)
    requires FilesOk(size, files, fsl, lsl, log) && fsl < lsl && files[fsl].rmCount + 1 == files[fsl].msgsCount
    ensures log.entries != [] && FilesOk(size, files - {fsl}, fsl + 1, lsl, log.Drop(1))
  {
    var after := files - {fsl};
    assert lsl in files && fsl + 1 in files;
    forall k | k in after ensures SliceOk(size, after[k], log.Drop(1)) {
      SliceShrinks(size, files[k], log);
    }
    assert Ranges(after, fsl + 1, lsl, log.Drop(1));
    assert Removals(after, fsl + 1, lsl);
  }

  // ---------- Totals ----------

  ghost predicate SlicesFrom(files: map<nat, Slice>, k: nat, lsl: nat)
    decreases lsl + 1 - k
  {
    k > lsl || (k in files && SlicesFrom(files, k + 1, lsl))
  }

  /** The messages that the slices from `k` on still hold. */
  ghost function Held(files: map<nat, Slice>, k: nat, lsl: nat): int
    requires SlicesFrom(files, k, lsl)
    decreases lsl + 1 - k
  {
    if k > lsl then 0 else files[k].msgsCount - files[k].rmCount + Held(files, k + 1, lsl)
  }

  lemma {:induction false} HeldFrom(size: Msg -> nat, files: map<nat, Slice>, k: nat, lsl: nat, log: Log)
    requires log.Valid() && Layout(size, files, k, lsl, log)
    ensures SlicesFrom(files, k, lsl) && Held(files, k, lsl) == log.Last() + 1 - files[k].firstSeq
    decreases lsl - k
  {
    if k < lsl {
      HeldFrom(size, files, k + 1, lsl, log);
    } else {
      assert SlicesFrom(files, k + 1, lsl) && Held(files, k + 1, lsl) == 0;
    }
  }

  /** The number of messages is the sum over the slices of those written less those removed. */
  lemma HeldIsCount(size: Msg -> nat, files: map<nat, Slice>, fsl: nat, lsl: nat, log: Log)
    requires Laid(size, files, fsl, lsl, log)
    ensures SlicesFrom(files, fsl, lsl) && Held(files, fsl, lsl) == |log.entries|
  {
    HeldFrom(size, files, fsl, lsl, log);
  }

  /** The removed messages of a slice have their records in it. */
  ghost predicate RemovedWithin(files: map<nat, Slice>, k: nat, lsl: nat)
    decreases lsl + 1 - k
  {
    k > lsl || (k in files && files[k].rmCount <= |files[k].idx| && RemovedWithin(files, k + 1, lsl))
  }

  /** What the messages that the slices from `k` on still hold take in the files. */
  ghost function HeldBytes(files: map<nat, Slice>, k: nat, lsl: nat): int
    requires RemovedWithin(files, k, lsl)
    decreases lsl + 1 - k
  {
    if k > lsl then 0 else files[k].msgsSize - Bytes(files[k].idx, files[k].rmCount) + HeldBytes(files, k + 1, lsl)
  }

  /** The messages from `from` on are those of the records from `rm` to `n`. */
  ghost predicate SameCosts(cost: Msg -> nat, idx: seq<IndexRec>, rm: nat, n: nat, entries: seq<Msg>, from: nat) {
    && rm <= n <= |idx| && from + n - rm <= |entries|
    && forall p :: rm <= p < n ==> idx[p].msgSize + RECORD_HEADER + INDEX_RECORD == cost(entries[from + p - rm])
  }

  lemma TotalPush(cost: Msg -> nat, entries: seq<Msg>, from: nat, to: nat)
    requires from <= to < |entries|
    ensures Total(cost, entries[from..to + 1]) == Total(cost, entries[from..to]) + cost(entries[to])
  {
    assert entries[from..to + 1] == entries[from..to] + [entries[to]];
    TotalAppend(cost, entries[from..to], [entries[to]]);
  }

  lemma {:induction false} BytesAreTotal(cost: Msg -> nat, idx: seq<IndexRec>, rm: nat, n: nat, entries: seq<Msg>,
                                         from: nat)
    requires SameCosts(cost, idx, rm, n, entries, from)
    ensures Bytes(idx, n) == Bytes(idx, rm) + Total(cost, entries[from..from + n - rm])
    decreases n
  {
    if n == rm {
      assert entries[from..from] == [];
    } else {
      BytesAreTotal(cost, idx, rm, n - 1, entries, from);
      TotalPush(cost, entries, from, from + n - 1 - rm);
    }
  }

  lemma ValidCosts(size: Msg -> nat, sl: Slice, log: Log)
    requires log.Valid() && log.first > 0 && SliceOk(size, sl, log)
    ensures SameCosts(Cost(size), sl.idx, sl.rmCount, |sl.idx|, log.entries, sl.firstSeq - log.first)
  {
    forall p | sl.rmCount <= p < |sl.idx|
      ensures sl.idx[p].msgSize + RECORD_HEADER + INDEX_RECORD ==
              Cost(size)(log.entries[sl.firstSeq - log.first + p - sl.rmCount])
    {
      assert RecOk(size, sl.idx[p], sl.firstSeq - sl.rmCount + p, sl.data, log);
    }
  }

  /** What the valid messages of a slice take. */
  ghost predicate BytesOf(cost: Msg -> nat, sl: Slice, log: Log) {
    && sl.rmCount <= |sl.idx| && 0 <= sl.firstSeq - log.first <= sl.lastSeq + 1 - log.first <= |log.entries|
    && sl.msgsSize - Bytes(sl.idx, sl.rmCount) ==
       Total(cost, log.entries[sl.firstSeq - log.first..sl.lastSeq + 1 - log.first])
  }

  ghost predicate BytesAlong(cost: Msg -> nat, files: map<nat, Slice>, k: nat, lsl: nat, log: Log)
    decreases lsl - k
  {
    && k in files && k <= lsl && BytesOf(cost, files[k], log)
    && if k == lsl then files[k].lastSeq + 1 - log.first == |log.entries|
       else k + 1 in files && files[k + 1].firstSeq == files[k].lastSeq + 1 && BytesAlong(cost, files, k + 1, lsl, log)
  }

  lemma {:induction false} LayoutBytes(size: Msg -> nat, files: map<nat, Slice>, k: nat, lsl: nat, log: Log)
    requires log.Valid() && log.first > 0 && Layout(size, files, k, lsl, log)
    ensures BytesAlong(Cost(size), files, k, lsl, log)
    decreases lsl - k
  {
    SliceBytes(size, files[k], log);
    if k < lsl {
      LayoutBytes(size, files, k + 1, lsl, log);
    }
  }

  lemma {:induction false} HeldBytesFrom(cost: Msg -> nat, files: map<nat, Slice>, k: nat, lsl: nat, log: Log)
    requires BytesAlong(cost, files, k, lsl, log)
    ensures RemovedWithin(files, k, lsl)
            && HeldBytes(files, k, lsl) == Total(cost, log.entries[files[k].firstSeq - log.first..])
    decreases lsl - k
  {
    if k < lsl {
      HeldBytesFrom(cost, files, k + 1, lsl, log);
    } else {
      assert log.entries[|log.entries|..] == [];
      assert RemovedWithin(files, k + 1, lsl) && HeldBytes(files, k + 1, lsl) == 0;
    }
    TotalSplit(cost, log.entries, files[k].firstSeq - log.first, files[k].lastSeq + 1 - log.first);
  }

  lemma SliceBytes(size: Msg -> nat, sl: Slice, log: Log)
    requires log.Valid() && log.first > 0 && SliceOk(size, sl, log)
    ensures BytesOf(Cost(size), sl, log)
  {
    ValidCosts(size, sl, log);
    BytesAreTotal(Cost(size), sl.idx, sl.rmCount, |sl.idx|, log.entries, sl.firstSeq - log.first);
    assert sl.msgsSize == Bytes(sl.idx, |sl.idx|);
  }

  lemma TotalSplit(cost: Msg -> nat, entries: seq<Msg>, a: nat, b: nat)
    requires a <= b <= |entries|
    ensures Total(cost, entries[a..]) == Total(cost, entries[a..b]) + Total(cost, entries[b..])
  {
    assert entries[a..] == entries[a..b] + entries[b..];
    TotalAppend(cost, entries[a..b], entries[b..]);
  }

  /** The bytes of a log are the sum over the slices of those written less those of the removed messages. */
  lemma HeldBytesIsTotal(size: Msg -> nat, files: map<nat, Slice>, fsl: nat, lsl: nat, log: Log)
    requires Laid(size, files, fsl, lsl, log)
    ensures RemovedWithin(files, fsl, lsl) && HeldBytes(files, fsl, lsl) == Total(Cost(size), log.entries)
  {
    LayoutBytes(size, files, fsl, lsl, log);
    HeldBytesFrom(Cost(size), files, fsl, lsl, log);
    assert log.entries[0..] == log.entries;
  }

  // ---------- The same, slice by slice ----------

  /** The slices from `k` on hold the end of the log. */
  ghost predicate Layout(size: Msg -> nat, files: map<nat, Slice>, k: nat, lsl: nat, log: Log)
    decreases lsl - k
  {
    && k in files && k <= lsl && SliceOk(size, files[k], log)
    && if k == lsl then files[k].lastSeq == log.Last()
       else
         && files[k].firstSeq <= files[k].lastSeq
         && k + 1 in files && files[k + 1].firstSeq == files[k].lastSeq + 1 && files[k + 1].rmCount == 0
         && files[k + 1].firstSeq <= files[k + 1].lastSeq
         && Layout(size, files, k + 1, lsl, log)
  }

  /** From the first slice to the last, with nothing else. */
  ghost predicate Laid(size: Msg -> nat, files: map<nat, Slice>, fsl: nat, lsl: nat, log: Log) {
    && log.Valid() && log.first > 0 && log.Last() > 0 && 1 <= fsl && (forall k :: k in files <==> fsl <= k <= lsl)
    && fsl in files && files[fsl].firstSeq == log.first && Layout(size, files, fsl, lsl, log)
  }

  lemma {:induction false} LayoutFrom(size: Msg -> nat, files: map<nat, Slice>, fsl: nat, lsl: nat, log: Log, k: nat)
    requires FilesOk(size, files, fsl, lsl, log) && fsl <= k <= lsl
    ensures Layout(size, files, k, lsl, log)
    decreases lsl - k
  {
    if k < lsl {
      assert k + 1 in files;
      LayoutFrom(size, files, fsl, lsl, log, k + 1);
    }
  }

  lemma {:induction false} LayoutAt(size: Msg -> nat, files: map<nat, Slice>, k: nat, lsl: nat, log: Log, j: nat)
    requires Layout(size, files, k, lsl, log) && k <= j <= lsl
    ensures Layout(size, files, j, lsl, log)
    ensures k < lsl ==> files[j].firstSeq <= files[j].lastSeq
    ensures k < j ==> files[j].rmCount == 0 && files[k].lastSeq < files[j].firstSeq
    decreases lsl - k
  {
    if k < j {
      LayoutAt(size, files, k + 1, lsl, log, j);
    }
  }

  lemma LaidSlices(size: Msg -> nat, files: map<nat, Slice>, fsl: nat, lsl: nat, log: Log)
    requires Laid(size, files, fsl, lsl, log)
    ensures AllOk(size, files, log) && Removals(files, fsl, lsl)
  {
    forall k | k in files
      ensures SliceOk(size, files[k], log) && (k > fsl ==> files[k].rmCount == 0)
              && (fsl < lsl ==> files[k].firstSeq <= files[k].lastSeq)
    {
      LayoutAt(size, files, fsl, lsl, log, k);
    }
  }

  lemma LaidOrder(size: Msg -> nat, files: map<nat, Slice>, fsl: nat, lsl: nat, log: Log, j: nat, k: nat)
    requires Laid(size, files, fsl, lsl, log) && j in files && k in files && j < k
    ensures files[j].lastSeq < files[k].firstSeq && (k == j + 1 ==> files[k].firstSeq == files[j].lastSeq + 1)
  {
    LayoutAt(size, files, fsl, lsl, log, j);
    LayoutAt(size, files, j, lsl, log, k);
  }

  /** A layout is what was said of the files at once. */
  lemma LaidIsFilesOk(size: Msg -> nat, files: map<nat, Slice>, fsl: nat, lsl: nat, log: Log)
    ensures Laid(size, files, fsl, lsl, log) <==> FilesOk(size, files, fsl, lsl, log)
  {
    if FilesOk(size, files, fsl, lsl, log) {
      LayoutFrom(size, files, fsl, lsl, log, fsl);
    }
    if Laid(size, files, fsl, lsl, log) {
      LaidSlices(size, files, fsl, lsl, log);
      forall j, k | j in files && k in files && j < k
        ensures files[j].lastSeq < files[k].firstSeq && (k == j + 1 ==> files[k].firstSeq == files[j].lastSeq + 1)
      {
        LaidOrder(size, files, fsl, lsl, log, j, k);
      }
      LayoutAt(size, files, fsl, lsl, log, lsl);
    }
  }

  lemma AppendLaid(size: Msg -> nat, files: map<nat, Slice>, fsl: nat, lsl: nat, log: Log, m: Msg, off: nat, fw: int)
    requires Laid(size, files, fsl, lsl, log) && m.sequence == log.Last() + 1 && lsl in files && off !in files[lsl].data
    ensures Laid(size, files[lsl := Appended(size, files[lsl], m, off, fw)], fsl, lsl, Longer(log, m))
  {
    LaidIsFilesOk(size, files, fsl, lsl, log);
    AppendFiles(size, files, fsl, lsl, log, m, off, fw);
    LaidIsFilesOk(size, files[lsl := Appended(size, files[lsl], m, off, fw)], fsl, lsl, Longer(log, m));
  }

  lemma RemoveInLaid(size: Msg -> nat, files: map<nat, Slice>, fsl: nat, lsl: nat, log: Log)
    requires Laid(size, files, fsl, lsl, log) && log.entries != []
    requires files[fsl].rmCount + 1 != files[fsl].msgsCount || fsl == lsl
    ensures Laid(size, files[fsl := FirstRemoved(files[fsl])], fsl, lsl, log.Drop(1))
  {
    LaidIsFilesOk(size, files, fsl, lsl, log);
    assert SliceOk(size, files[fsl], log);
    RemoveInSlice(size, files, fsl, lsl, log);
    LaidIsFilesOk(size, files[fsl := FirstRemoved(files[fsl])], fsl, lsl, log.Drop(1));
  }

  lemma RemoveLaid(size: Msg -> nat, files: map<nat, Slice>, fsl: nat, lsl: nat, log: Log)
    requires Laid(size, files, fsl, lsl, log) && log.entries != [] && fsl < lsl
             && files[fsl].rmCount + 1 == files[fsl].msgsCount
    ensures Laid(size, files - {fsl}, fsl + 1, lsl, log.Drop(1))
  {
    LaidIsFilesOk(size, files, fsl, lsl, log);
    RemoveSlice(size, files, fsl, lsl, log);
    LaidIsFilesOk(size, files - {fsl}, fsl + 1, lsl, log.Drop(1));
  }

  /** One slice of several. */
  lemma SliceIn(size: Msg -> nat, files: map<nat, Slice>, fsl: nat, lsl: nat, log: Log, k: nat)
    requires Laid(size, files, fsl, lsl, log) && k in files
    ensures SliceOk(size, files[k], log) && lsl in files && files[lsl].lastSeq == log.Last()
    ensures k < lsl ==> files[k].lastSeq < files[lsl].firstSeq && files[lsl].rmCount == 0
  {
    LayoutAt(size, files, fsl, lsl, log, k);
    LayoutAt(size, files, k, lsl, log, lsl);
  }
}
