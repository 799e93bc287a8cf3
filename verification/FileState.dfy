/** What the fields of a file message store say together, and how each kind of update keeps it (stores/filestore.go). */
module FileState {
  import opened Basics
  import opened MsgLog
  import opened FileSlices

  datatype BufferedMsg = BufferedMsg(msg: Msg, index: IndexRec)

  /** The index records of messages that are only in the buffer. */
  function Pending(seqs: seq<nat>, msgs: map<nat, BufferedMsg>): (r: seq<IndexRec>)
    requires forall i :: 0 <= i < |seqs| ==> seqs[i] in msgs
    ensures |r| == |seqs| && forall i :: 0 <= i < |seqs| ==> r[i] == msgs[seqs[i]].index
  {
    seq(|seqs|, i requires 0 <= i < |seqs| => msgs[seqs[i]].index)
  }

  /** The buffered messages are the latest ones, in order. */
  ghost predicate BufferOk(seqs: seq<nat>, msgs: map<nat, BufferedMsg>, last: nat) {
    && |seqs| <= last
    && (forall i :: 0 <= i < |seqs| ==> seqs[i] == last + 1 - |seqs| + i && seqs[i] in msgs)
    && (forall s :: s in msgs ==> last + 1 - |seqs| <= s <= last)
  }

  /** A slice with what is still to be written to its two files. */
  ghost function Full(sl: Slice, buf: map<nat, Msg>, pending: seq<IndexRec>): Slice {
    sl.(data := sl.data + buf, idx := sl.idx + pending)
  }

  ghost function Whole(files: map<nat, Slice>, lsl: nat, buf: map<nat, Msg>, seqs: seq<nat>,
                       msgs: map<nat, BufferedMsg>): map<nat, Slice>
    requires lsl in files && forall i :: 0 <= i < |seqs| ==> seqs[i] in msgs
  {
    files[lsl := Full(files[lsl], buf, Pending(seqs, msgs))]
  }

  ghost predicate OffsetsBelow(data: map<nat, Msg>, buf: map<nat, Msg>, wOffset: nat) {
    && (forall off :: off in data || off in buf ==> off < wOffset)
    && (forall off :: off in buf ==> off !in data)
  }

  ghost predicate NothingOnDisk(files: map<nat, Slice>, fsl: nat, lsl: nat, buf: map<nat, Msg>, seqs: seq<nat>,
                                msgs: map<nat, BufferedMsg>, log: Log) {
    log == EMPTY_LOG && files == map[] && fsl == 0 == lsl && buf == map[] && seqs == [] && msgs == map[]
  }

  /** The files and the buffer hold the log. */
  ghost predicate Stored(size: Msg -> nat, files: map<nat, Slice>, fsl: nat, lsl: nat, wOffset: nat,
                         buf: map<nat, Msg>, seqs: seq<nat>, msgs: map<nat, BufferedMsg>, log: Log) {
    && lsl in files && BufferOk(seqs, msgs, log.Last()) && OffsetsBelow(files[lsl].data, buf, wOffset)
    && Laid(size, Whole(files, lsl, buf, seqs, msgs), fsl, lsl, log)
  }

  ghost predicate Disk(size: Msg -> nat, files: map<nat, Slice>, fsl: nat, lsl: nat, wOffset: nat, buf: map<nat, Msg>,
                       seqs: seq<nat>, msgs: map<nat, BufferedMsg>, log: Log) {
    if log.first == 0 then NothingOnDisk(files, fsl, lsl, buf, seqs, msgs, log)
    else Stored(size, files, fsl, lsl, wOffset, buf, seqs, msgs, log)
  }

  /** Copies of messages that are kept beside the files. */
  ghost predicate Copies(cache: map<nat, Msg>, msgs: map<nat, BufferedMsg>, firstMsg: Option<Msg>,
                         lastMsg: Option<Msg>, log: Log) {
    && (forall s :: s in cache && log.first <= s ==> log.Lookup(s) == Some(cache[s]))
    && (forall s :: s in msgs && log.first <= s ==> log.Lookup(s) == Some(msgs[s].msg))
    && (firstMsg.Some? ==> log.Lookup(log.first) == firstMsg)
    && (lastMsg.Some? ==> log.Lookup(log.Last()) == lastMsg)
  }

  ghost predicate Counters(size: Msg -> nat, first: nat, last: nat, totalCount: int, totalBytes: int, log: Log) {
    && first == log.first && last == log.Last() && totalCount == |log.entries|
      && totalBytes == Total(Cost(size), log.entries)
  }

  /** The message follows the last one, or is the first of all. */
  ghost predicate Next(log: Log, m: Msg) {
    m.sequence == log.Last() + 1 || (log.first == 0 && m.sequence > 0)
  }

  // ---------- Writing out the buffer ----------

  lemma FlushedData(size: Msg -> nat, files: map<nat, Slice>, fsl: nat, lsl: nat, wOffset: nat, buf: map<nat, Msg>,
                    seqs: seq<nat>, msgs: map<nat, BufferedMsg>, log: Log)
    requires Stored(size, files, fsl, lsl, wOffset, buf, seqs, msgs, log)
    ensures Stored(size, files[lsl := files[lsl].(data := files[lsl].data + buf)], fsl, lsl, wOffset, map[], seqs,
                   msgs, log)
  {
    var after := files[lsl := files[lsl].(data := files[lsl].data + buf)];
    assert after[lsl].data + map[] == files[lsl].data + buf;
    assert Whole(after, lsl, map[], seqs, msgs) == Whole(files, lsl, buf, seqs, msgs);
  }

  lemma FlushedIndex(size: Msg -> nat, files: map<nat, Slice>, fsl: nat, lsl: nat, wOffset: nat, buf: map<nat, Msg>,
                     seqs: seq<nat>, msgs: map<nat, BufferedMsg>, log: Log)
    requires Stored(size, files, fsl, lsl, wOffset, buf, seqs, msgs, log)
    ensures Stored(size, files[lsl := files[lsl].(idx := files[lsl].idx + Pending(seqs, msgs))], fsl, lsl, wOffset,
                   buf, [], map[], log)
  {
    var after := files[lsl := files[lsl].(idx := files[lsl].idx + Pending(seqs, msgs))];
    assert after[lsl].idx + Pending([], map[]) == files[lsl].idx + Pending(seqs, msgs);
    assert Whole(after, lsl, buf, [], map[]) == Whole(files, lsl, buf, seqs, msgs);
  }

  // ---------- Adding a record ----------

  /** The slice after a record was put into the buffer: only its counters change. */
  function InBuffer(size: Msg -> nat, sl: Slice, m: Msg, fw: int): Slice {
    sl.(firstWrite := fw, lastSeq := m.sequence, msgsCount := sl.msgsCount + 1, msgsSize := sl.msgsSize + Cost(size)(m))
  }

  lemma WrittenOnDisk(size: Msg -> nat, files: map<nat, Slice>, fsl: nat, lsl: nat, wOffset: nat, log: Log, m: Msg,
                      fw: int)
    requires Stored(size, files, fsl, lsl, wOffset, map[], [], map[], log) && m.sequence == log.Last() + 1
    ensures Stored(size, files[lsl := Appended(size, files[lsl], m, wOffset, fw)], fsl, lsl,
                   wOffset + size(m) + RECORD_HEADER, map[], [], map[], Longer(log, m))
  {
    var after := files[lsl := Appended(size, files[lsl], m, wOffset, fw)];
    WholeFlushed(files, lsl);
    WholeFlushed(after, lsl);
    AppendLaid(size, files, fsl, lsl, log, m, wOffset, fw);
  }

  lemma WholeFlushed(files: map<nat, Slice>, lsl: nat)
    requires lsl in files
    ensures Whole(files, lsl, map[], [], map[]) == files
  {
    assert files[lsl].data + map[] == files[lsl].data;
    assert files[lsl].idx + Pending([], map[]) == files[lsl].idx;
  }

  /** The index record of a message about to be written. */
  function IndexRecOf(size: Msg -> nat, m: Msg, off: nat): IndexRec {
    IndexRec(m.sequence, off, m.timestamp, size(m))
  }

  lemma BufferGrows(size: Msg -> nat, seqs: seq<nat>, msgs: map<nat, BufferedMsg>, log: Log, m: Msg, off: nat)
    requires BufferOk(seqs, msgs, log.Last()) && m.sequence == log.Last() + 1 && log.first > 0
    ensures BufferOk(seqs + [m.sequence], msgs[m.sequence := BufferedMsg(m, IndexRecOf(size, m, off))],
                     Longer(log, m).Last())
    ensures Pending(seqs + [m.sequence], msgs[m.sequence := BufferedMsg(m, IndexRecOf(size, m, off))]) ==
            Pending(seqs, msgs) + [IndexRecOf(size, m, off)]
  {
  }

  lemma WrittenInBuffer(size: Msg -> nat, files: map<nat, Slice>, fsl: nat, lsl: nat, wOffset: nat, buf: map<nat, Msg>,
                        seqs: seq<nat>, msgs: map<nat, BufferedMsg>, log: Log, m: Msg, fw: int)
    requires Stored(size, files, fsl, lsl, wOffset, buf, seqs, msgs, log) && m.sequence == log.Last() + 1
    ensures Stored(size, files[lsl := InBuffer(size, files[lsl], m, fw)], fsl, lsl, wOffset + size(m) + RECORD_HEADER,
                   buf[wOffset := m],
                   seqs + [m.sequence], msgs[m.sequence := BufferedMsg(m, IndexRecOf(size, m, wOffset))],
                     Longer(log, m))
  {
    var whole := Whole(files, lsl, buf, seqs, msgs);
    BufferGrows(size, seqs, msgs, log, m, wOffset);
    AppendLaid(size, whole, fsl, lsl, log, m, wOffset, fw);
    WholeInBuffer(size, files, lsl, wOffset, buf, seqs, msgs, log, m, fw);
  }

  lemma WholeInBuffer(size: Msg -> nat, files: map<nat, Slice>, lsl: nat, wOffset: nat, buf: map<nat, Msg>,
                      seqs: seq<nat>, msgs: map<nat, BufferedMsg>, log: Log, m: Msg, fw: int)
    requires lsl in files && BufferOk(seqs, msgs, log.Last()) && m.sequence == log.Last() + 1 && log.first > 0
    ensures var whole := Whole(files, lsl, buf, seqs, msgs);
            && (forall i :: 0 <= i < |seqs + [m.sequence]| ==>
                (seqs + [m.sequence])[i] in msgs[m.sequence := BufferedMsg(m, IndexRecOf(size, m, wOffset))])
            && Whole(files[lsl := InBuffer(size, files[lsl], m, fw)], lsl, buf[wOffset := m], seqs + [m.sequence],
                     msgs[m.sequence := BufferedMsg(m, IndexRecOf(size, m, wOffset))])
               == whole[lsl := Appended(size, whole[lsl], m, wOffset, fw)]
  {
    BufferGrows(size, seqs, msgs, log, m, wOffset);
    assert files[lsl].data + buf[wOffset := m] == (files[lsl].data + buf)[wOffset := m];
    assert files[lsl].idx + (Pending(seqs, msgs) + [IndexRecOf(size, m, wOffset)]) ==
      (files[lsl].idx + Pending(seqs, msgs)) + [IndexRecOf(size, m, wOffset)];
  }

  /** A slice that was just added: the others hold the log. */
  ghost predicate Rolled(size: Msg -> nat, files: map<nat, Slice>, fsl: nat, lsl: nat, log: Log) {
    && lsl in files && files[lsl] == NEW_SLICE && log.Valid() && 1 <= fsl <= lsl
    && if fsl == lsl then files == map[lsl := NEW_SLICE] && log.entries == []
       else log.entries != [] && Laid(size, files - {lsl}, fsl, lsl - 1, log)
  }

  lemma WrittenToNewSlice(size: Msg -> nat, files: map<nat, Slice>, fsl: nat, lsl: nat, log: Log, m: Msg, off: nat)
    requires Rolled(size, files, fsl, lsl, log) && Next(log, m)
    ensures Laid(size, files[lsl := Single(size, m, off)], fsl, lsl, Longer(log, m))
  {
    LaidIsFilesOk(size, files[lsl := Single(size, m, off)], fsl, lsl, Longer(log, m));
    if fsl == lsl {
      OnlySlice(size, lsl, log, m, off);
      assert files[lsl := Single(size, m, off)] == map[lsl := Single(size, m, off)];
    } else {
      LaidIsFilesOk(size, files - {lsl}, fsl, lsl - 1, log);
      NextSlice(size, files - {lsl}, fsl, lsl - 1, log, m, off);
      assert files[lsl := Single(size, m, off)] == (files - {lsl})[lsl := Single(size, m, off)];
    }
  }

  /** The first record of a new slice, in its files. */
  lemma NewSliceOnDisk(size: Msg -> nat, files: map<nat, Slice>, fsl: nat, lsl: nat, log: Log, m: Msg, off: nat)
    requires Rolled(size, files, fsl, lsl, log) && Next(log, m)
    ensures Stored(size, files[lsl := Single(size, m, off)], fsl, lsl, off + size(m) + RECORD_HEADER, map[], [], map[],
                   Longer(log, m))
  {
    WrittenToNewSlice(size, files, fsl, lsl, log, m, off);
    WholeFlushed(files[lsl := Single(size, m, off)], lsl);
  }

  /** The first record of a new slice, in the buffer. */
  lemma NewSliceInBuffer(size: Msg -> nat, files: map<nat, Slice>, fsl: nat, lsl: nat, log: Log, m: Msg, off: nat)
    requires Rolled(size, files, fsl, lsl, log) && Next(log, m)
    ensures Stored(size, files[lsl := InBuffer(size, NEW_SLICE.(firstSeq := m.sequence), m, m.timestamp)], fsl, lsl,
                   off + size(m) + RECORD_HEADER,
                   map[off := m], [m.sequence], map[m.sequence := BufferedMsg(m, IndexRecOf(size, m, off))],
                     Longer(log, m))
  {
    var after := files[lsl := InBuffer(size, NEW_SLICE.(firstSeq := m.sequence), m, m.timestamp)];
    var msgs := map[m.sequence := BufferedMsg(m, IndexRecOf(size, m, off))];
    WrittenToNewSlice(size, files, fsl, lsl, log, m, off);
    assert after[lsl].data + map[off := m] == Single(size, m, off).data;
    assert after[lsl].idx + Pending([m.sequence], msgs) == Single(size, m, off).idx;
    assert Whole(after, lsl, map[off := m], [m.sequence], msgs) == files[lsl := Single(size, m, off)];
  }

  // ---------- Removing the first message ----------

  lemma RemovedInSlice(size: Msg -> nat, files: map<nat, Slice>, fsl: nat, lsl: nat, wOffset: nat, buf: map<nat, Msg>,
                       seqs: seq<nat>, msgs: map<nat, BufferedMsg>, log: Log)
    requires Stored(size, files, fsl, lsl, wOffset, buf, seqs, msgs, log) && log.entries != [] && fsl in files
    requires files[fsl].rmCount + 1 != files[fsl].msgsCount || fsl == lsl
    ensures Stored(size, files[fsl := FirstRemoved(files[fsl])], fsl, lsl, wOffset, buf, seqs, msgs, log.Drop(1))
  {
    var whole := Whole(files, lsl, buf, seqs, msgs);
    RemoveInLaid(size, whole, fsl, lsl, log);
    assert Whole(files[fsl := FirstRemoved(files[fsl])], lsl, buf, seqs, msgs) ==
      whole[fsl := FirstRemoved(whole[fsl])];
  }

  lemma RemovedSlice(size: Msg -> nat, files: map<nat, Slice>, fsl: nat, lsl: nat, wOffset: nat, buf: map<nat, Msg>,
                     seqs: seq<nat>, msgs: map<nat, BufferedMsg>, log: Log)
    requires Stored(size, files, fsl, lsl, wOffset, buf, seqs, msgs, log) && log.entries != [] && fsl < lsl
             && fsl in files
    requires files[fsl].rmCount + 1 == files[fsl].msgsCount
    ensures Stored(size, files - {fsl}, fsl + 1, lsl, wOffset, buf, seqs, msgs, log.Drop(1))
  {
    var whole := Whole(files, lsl, buf, seqs, msgs);
    RemoveLaid(size, whole, fsl, lsl, log);
    assert Whole(files - {fsl}, lsl, buf, seqs, msgs) == whole - {fsl};
  }

  lemma CopiesAfterRemoval(cache: map<nat, Msg>, msgs: map<nat, BufferedMsg>, firstMsg: Option<Msg>,
                           lastMsg: Option<Msg>, log: Log)
    requires Copies(cache, msgs, firstMsg, lastMsg, log) && log.first > 0 && log.entries != []
    ensures Copies(cache, msgs, None, if log.first + 1 > log.Last() then None else lastMsg, log.Drop(1))
  {
    forall s | log.first < s ensures log.Drop(1).Lookup(s) == log.Lookup(s) {
    }
  }

  /** The buffered messages, after `m` was written: maybe fewer, and maybe with `m`. */
  ghost predicate MsgsAfter(msgs: map<nat, BufferedMsg>, msgs': map<nat, BufferedMsg>, m: Msg) {
    forall s :: s in msgs' ==> if s == m.sequence then msgs'[s].msg == m else s in msgs && msgs'[s] == msgs[s]
  }

  lemma CopiesAfterWrite(cache: map<nat, Msg>, msgs: map<nat, BufferedMsg>, firstMsg: Option<Msg>,
                         lastMsg: Option<Msg>, log: Log, m: Msg)
    requires Copies(cache, msgs, firstMsg, lastMsg, log) && log.Valid() && Next(log, m)
    ensures Copies(cache[m.sequence := m], msgs, if log.entries == [] then Some(m)
                   else firstMsg, Some(m), Longer(log, m))
  {
    var longer := Longer(log, m);
    assert longer.Lookup(m.sequence) == Some(m);
    forall s | log.Has(s) ensures longer.Lookup(s) == log.Lookup(s) {
    }
  }

  /** The message may be buffered, and others may no longer be. */
  lemma CopiesBuffered(cache: map<nat, Msg>, msgs: map<nat, BufferedMsg>, msgs': map<nat, BufferedMsg>,
                       firstMsg: Option<Msg>, lastMsg: Option<Msg>, log: Log, m: Msg)
    requires Copies(cache, msgs, firstMsg, lastMsg, Longer(log, m)) && log.Valid() && Next(log, m)
             && MsgsAfter(msgs, msgs', m)
    ensures Copies(cache, msgs', firstMsg, lastMsg, Longer(log, m))
  {
    assert Longer(log, m).Lookup(m.sequence) == Some(m);
  }

  // ---------- Reading ----------

  /** The slice that a search by sequence returns has the index record, on disk or among the buffered ones. */
  lemma IndexFound(size: Msg -> nat, files: map<nat, Slice>, fsl: nat, lsl: nat, wOffset: nat, buf: map<nat, Msg>,
                   seqs: seq<nat>, msgs: map<nat, BufferedMsg>, log: Log, k: nat, s: nat)
    requires Stored(size, files, fsl, lsl, wOffset, buf, seqs, msgs, log) && k in files && Contains(files[k], s)
    ensures log.Has(s)
    ensures s !in msgs ==> Position(files[k], s) < |files[k].idx|
    ensures var r := if s in msgs then msgs[s].index else files[k].idx[Position(files[k], s)];
            && r.sequence == s && r.timestamp == log.At(s).timestamp && r.msgSize == size(log.At(s))
            && (r.offset in files[k].data ==> files[k].data[r.offset] == log.At(s))
            && (r.offset in files[k].data || (r.offset in buf && buf[r.offset].sequence == s))
  {
    var whole := Whole(files, lsl, buf, seqs, msgs);
    SliceIn(size, whole, fsl, lsl, log, k);
    SliceIn(size, whole, fsl, lsl, log, lsl);
    PositionFinds(size, whole[k], log, s);
    if k == lsl {
      AmongPending(files[k], seqs, msgs, log.Last(), s);
    }
  }

  /** The index file has the record of message `s`, and the data that it points to is still in the write buffer. */
  ghost predicate Ahead(files: map<nat, Slice>, lsl: nat, buf: map<nat, Msg>, s: nat) {
    && lsl in files && Contains(files[lsl], s) && Position(files[lsl], s) < |files[lsl].idx|
    && files[lsl].idx[Position(files[lsl], s)].offset in buf
  }

  /** A message that is not buffered can be read from its slice exactly if its index record is not ahead of the data. */
  lemma ReadFails(size: Msg -> nat, files: map<nat, Slice>, fsl: nat, lsl: nat, wOffset: nat, buf: map<nat, Msg>,
                  seqs: seq<nat>, msgs: map<nat, BufferedMsg>, log: Log, k: nat, s: nat)
    requires Stored(size, files, fsl, lsl, wOffset, buf, seqs, msgs, log) && k in files && Contains(files[k], s)
             && s !in msgs
    requires Position(files[k], s) < |files[k].idx|
    ensures files[k].idx[Position(files[k], s)].offset !in files[k].data <==> Ahead(files, lsl, buf, s)
  {
    SlicesApart(size, files, fsl, lsl, wOffset, buf, seqs, msgs, log, s);
    var whole := Whole(files, lsl, buf, seqs, msgs);
    SliceIn(size, whole, fsl, lsl, log, k);
    PositionFinds(size, whole[k], log, s);
  }

  lemma AheadIsBuffered(size: Msg -> nat, files: map<nat, Slice>, fsl: nat, lsl: nat, wOffset: nat, buf: map<nat, Msg>,
                        seqs: seq<nat>, msgs: map<nat, BufferedMsg>, log: Log, s: nat)
    requires Disk(size, files, fsl, lsl, wOffset, buf, seqs, msgs, log) && Ahead(files, lsl, buf, s) && s !in msgs
    ensures log.Has(s) && exists off :: off in buf && buf[off].sequence == s
  {
    IndexFound(size, files, fsl, lsl, wOffset, buf, seqs, msgs, log, lsl, s);
    assert OffsetsBelow(files[lsl].data, buf, wOffset);
  }

  /** Writing the index records alone puts every message whose data is in the buffer ahead. */
  lemma IndexGetsAhead(size: Msg -> nat, files: map<nat, Slice>, fsl: nat, lsl: nat, wOffset: nat, buf: map<nat, Msg>,
                       seqs: seq<nat>, msgs: map<nat, BufferedMsg>, log: Log, s: nat)
    requires Stored(size, files, fsl, lsl, wOffset, buf, seqs, msgs, log)
    requires s in msgs && log.Has(s) && msgs[s].index.offset in buf
    ensures Ahead(files[lsl := files[lsl].(idx := files[lsl].idx + Pending(seqs, msgs))], lsl, buf, s)
  {
    var whole := Whole(files, lsl, buf, seqs, msgs);
    SliceIn(size, whole, fsl, lsl, log, lsl);
    LaidIsFilesOk(size, whole, fsl, lsl, log);
    assert Contains(files[lsl], s);
    AmongPending(files[lsl], seqs, msgs, log.Last(), s);
  }

  /** In the write slice, a record is among the pending ones exactly if its message is buffered. */
  lemma AmongPending(sl: Slice, seqs: seq<nat>, msgs: map<nat, BufferedMsg>, last: nat, s: nat)
    requires BufferOk(seqs, msgs, last) && Contains(sl, s) && sl.lastSeq == last && sl.rmCount < sl.firstSeq
    requires last + 1 == sl.firstSeq - sl.rmCount + |sl.idx + Pending(seqs, msgs)|
    ensures var p := Position(sl, s);
            && p < |sl.idx + Pending(seqs, msgs)| && (s in msgs <==> p >= |sl.idx|)
            && (s in msgs ==> (sl.idx + Pending(seqs, msgs))[p] == msgs[s].index)
  {
    var p := Position(sl, s);
    if p >= |sl.idx| {
      assert seqs[p - |sl.idx|] == s;
    }
  }

  /** A slice has the message exactly if the log does. */
  lemma DiskSearch(size: Msg -> nat, files: map<nat, Slice>, fsl: nat, lsl: nat, wOffset: nat, buf: map<nat, Msg>,
                   seqs: seq<nat>, msgs: map<nat, BufferedMsg>, log: Log, s: nat)
    requires Disk(size, files, fsl, lsl, wOffset, buf, seqs, msgs, log)
    ensures log.Has(s) <==> exists k :: k in files && Contains(files[k], s)
  {
    if log.first > 0 {
      var whole := Whole(files, lsl, buf, seqs, msgs);
      LaidIsFilesOk(size, whole, fsl, lsl, log);
      if log.Has(s) {
        var k := SliceOf(whole, fsl, lsl, log, fsl, s);
        assert Contains(files[k], s);
      }
      forall k | k in files && Contains(files[k], s) ensures log.Has(s) {
        assert SliceOk(size, whole[k], log);
      }
    }
  }

  /** The first slice begins with the first message. */
  lemma FirstSlice(size: Msg -> nat, files: map<nat, Slice>, fsl: nat, lsl: nat, wOffset: nat, buf: map<nat, Msg>,
                   seqs: seq<nat>, msgs: map<nat, BufferedMsg>, log: Log)
    requires Stored(size, files, fsl, lsl, wOffset, buf, seqs, msgs, log) && log.entries != []
    ensures fsl in files && Contains(files[fsl], log.first) && files[fsl].firstSeq == log.first
    ensures fsl <= lsl && forall k :: k in files <==> fsl <= k <= lsl
    ensures |files| == lsl + 1 - fsl
  {
    var whole := Whole(files, lsl, buf, seqs, msgs);
    SliceIn(size, whole, fsl, lsl, log, fsl);
    assert files.Keys == whole.Keys;
    SizeOfRange(files.Keys, fsl, lsl);
  }

  lemma {:induction false} SizeOfRange(keys: set<nat>, lo: nat, hi: nat)
    requires lo <= hi && forall k :: k in keys <==> lo <= k <= hi
    ensures |keys| == hi + 1 - lo
    decreases hi - lo
  {
    if lo == hi {
      assert keys == {lo};
    } else {
      SizeOfRange(keys - {lo}, lo + 1, hi);
    }
  }

  // ---------- The next slice ----------

  /** A new slice after the others: if it is the second and the first holds no message, that one has to go. */
  lemma RolledOnce(size: Msg -> nat, files: map<nat, Slice>, fsl: nat, lsl: nat, wOffset: nat, log: Log)
    requires Disk(size, files, fsl, lsl, wOffset, map[], [], map[], log) && log.Valid()
    ensures lsl + 1 !in files && (forall k :: k in files <==> 1 <= fsl <= k <= lsl)
    ensures fsl == 0 <==> log.first == 0
    ensures fsl == 0 ==> Rolled(size, map[lsl + 1 := NEW_SLICE], lsl + 1, lsl + 1, log) && files == map[] && lsl == 0
    ensures fsl > 0 ==> fsl <= lsl && |files[lsl + 1 := NEW_SLICE]| == lsl + 2 - fsl
    ensures fsl > 0 && log.entries != [] ==>
              Rolled(size, files[lsl + 1 := NEW_SLICE], fsl, lsl + 1, log)
                && !(fsl == lsl && files[lsl].msgsCount == files[lsl].rmCount)
    ensures fsl > 0 && log.entries == [] ==>
              fsl == lsl && files[lsl].msgsCount == files[lsl].rmCount
                && Rolled(size, files[lsl + 1 := NEW_SLICE] - {lsl}, lsl + 1, lsl + 1, log)
  {
    if log.first > 0 {
      WholeFlushed(files, lsl);
      SliceIn(size, files, fsl, lsl, log, fsl);
      SliceIn(size, files, fsl, lsl, log, lsl);
      var more := files[lsl + 1 := NEW_SLICE];
      SizeOfRange(more.Keys, fsl, lsl + 1);
      assert more - {lsl + 1} == files;
      if fsl == lsl {
        assert more - {lsl} == map[lsl + 1 := NEW_SLICE];
      }
    }
  }

  lemma WriteSliceBegun(size: Msg -> nat, files: map<nat, Slice>, fsl: nat, lsl: nat, wOffset: nat, buf: map<nat, Msg>,
                        seqs: seq<nat>, msgs: map<nat, BufferedMsg>, log: Log)
    requires Stored(size, files, fsl, lsl, wOffset, buf, seqs, msgs, log)
    ensures files[lsl].firstSeq > 0
  {
    SliceIn(size, Whole(files, lsl, buf, seqs, msgs), fsl, lsl, log, lsl);
  }

  lemma TotalLonger(size: Msg -> nat, log: Log, m: Msg)
    requires log.first == 0 ==> log.entries == []
    ensures Total(Cost(size), Longer(log, m).entries) ==
            Total(Cost(size), log.entries) + size(m) + RECORD_HEADER + INDEX_RECORD
  {
    TotalAppend(Cost(size), log.entries, [m]);
    assert log.first == 0 ==> log.entries + [m] == [m];
  }

  lemma CopiesAfterFill(cache: map<nat, Msg>, firstMsg: Option<Msg>, log: Log, m: Msg)
    requires Copies(cache, map[], firstMsg, None, log) && log.first > 0 && m.sequence == log.Last() + 1
    ensures Copies(cache, map[], firstMsg, None, Longer(log, m))
  {
    forall s | log.Has(s) ensures Longer(log, m).Lookup(s) == log.Lookup(s) {
    }
  }

  /** The log with `n` placeholders more. */
  ghost function Filled(log: Log, n: nat, timestamp: int): Log {
    if n == 0 then log
    else
      var l := Filled(log, n - 1, timestamp);
      Longer(l, Msg(l.Last() + 1, timestamp, ""))
  }

  lemma {:induction false} FilledIs(log: Log, n: nat, timestamp: int)
    requires log.first > 0
    ensures Filled(log, n, timestamp) ==
            Log(log.first, log.entries + Fill(log.Last() + 1, log.Last() + 1 + n, timestamp))
    decreases n
  {
    if n > 0 {
      FilledIs(log, n - 1, timestamp);
      var from := log.Last() + 1;
      assert Fill(from, from + n, timestamp) ==
        Fill(from, from + n - 1, timestamp) + [Msg(from + n - 1, timestamp, "")];
    }
  }

  lemma FilledStep(log: Log, n: nat, timestamp: int)
    ensures var l := Filled(log, n, timestamp);
            Filled(log, n + 1, timestamp) == Longer(l, Msg(l.Last() + 1, timestamp, ""))
  {
  }

  lemma AppendIsFilled(log: Log, m: Msg)
    requires log.Valid() && m.sequence > log.Last() && (log.first > 0 ==> log.Last() > 0)
    ensures log.Last() > 0 && m.sequence > log.Last() + 1 ==>
              var l := Filled(log, m.sequence - log.Last() - 1, m.timestamp);
              Append(log, m) == Longer(l, m) && Next(l, m)
    ensures !(log.Last() > 0 && m.sequence > log.Last() + 1) ==> Append(log, m) == Longer(log, m) && Next(log, m)
  {
    if log.first > 0 {
      FilledIs(log, m.sequence - log.Last() - 1, m.timestamp);
    }
  }

  /** The files alone hold the log. */
  ghost predicate PlainDisk(size: Msg -> nat, files: map<nat, Slice>, fsl: nat, lsl: nat, wOffset: nat, log: Log) {
    lsl in files && OffsetsBelow(files[lsl].data, map[], wOffset) && Laid(size, files, fsl, lsl, log)
  }

  lemma PlainIsStored(size: Msg -> nat, files: map<nat, Slice>, fsl: nat, lsl: nat, wOffset: nat, log: Log)
    ensures PlainDisk(size, files, fsl, lsl, wOffset, log) <==>
              Stored(size, files, fsl, lsl, wOffset, map[], [], map[], log)
  {
    if lsl in files {
      WholeFlushed(files, lsl);
    }
  }

  lemma PlainAppended(size: Msg -> nat, files: map<nat, Slice>, fsl: nat, lsl: nat, wOffset: nat, log: Log, m: Msg,
                      fw: int)
    requires PlainDisk(size, files, fsl, lsl, wOffset, log) && m.sequence == log.Last() + 1
    ensures PlainDisk(size, files[lsl := Appended(size, files[lsl], m, wOffset, fw)], fsl, lsl,
                      wOffset + size(m) + RECORD_HEADER, Longer(log, m))
  {
    AppendLaid(size, files, fsl, lsl, log, m, wOffset, fw);
  }

  lemma SlicesApart(size: Msg -> nat, files: map<nat, Slice>, fsl: nat, lsl: nat, wOffset: nat, buf: map<nat, Msg>,
                    seqs: seq<nat>, msgs: map<nat, BufferedMsg>, log: Log, s: nat)
    requires Stored(size, files, fsl, lsl, wOffset, buf, seqs, msgs, log)
    ensures forall j, k :: j in files && k in files && Contains(files[j], s) && Contains(files[k], s) ==> j == k
    ensures forall k :: k in files <==> fsl <= k <= lsl
  {
    var whole := Whole(files, lsl, buf, seqs, msgs);
    LaidIsFilesOk(size, whole, fsl, lsl, log);
    assert files.Keys == whole.Keys;
    forall j, k | j in files && k in files && Contains(files[j], s) && Contains(files[k], s) ensures j == k {
      OneSlice(whole, fsl, lsl, log, j, k, s);
    }
  }

  // ---------- What the counters say about the slices ----------

  /**
   The counters are the sums over the slices, with what is still in the buffer: what was written less what was removed.
   */
  ghost predicate Summed(files: map<nat, Slice>, fsl: nat, lsl: nat, buf: map<nat, Msg>, seqs: seq<nat>,
                         msgs: map<nat, BufferedMsg>, count: int, bytes: int) {
    && lsl in files && (forall i :: 0 <= i < |seqs| ==> seqs[i] in msgs) &&
    var whole := Whole(files, lsl, buf, seqs, msgs);
    RemovedWithin(whole, fsl, lsl) && SlicesFrom(whole, fsl, lsl) && count == Held(whole, fsl, lsl)
      && bytes == HeldBytes(whole, fsl, lsl)
  }

  lemma CountersAreSums(size: Msg -> nat, files: map<nat, Slice>, fsl: nat, lsl: nat, wOffset: nat, buf: map<nat, Msg>,
                        seqs: seq<nat>, msgs: map<nat, BufferedMsg>, log: Log)
    requires Stored(size, files, fsl, lsl, wOffset, buf, seqs, msgs, log)
    ensures Summed(files, fsl, lsl, buf, seqs, msgs, |log.entries|, Total(Cost(size), log.entries))
  {
    var whole := Whole(files, lsl, buf, seqs, msgs);
    HeldIsCount(size, whole, fsl, lsl, log);
    HeldBytesIsTotal(size, whole, fsl, lsl, log);
  }
}
