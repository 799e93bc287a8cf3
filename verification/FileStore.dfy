/** The file message store (stores/filestore.go), proved against the bounded log. */
module FileStore {
  import opened Basics
  import opened MsgLog
  import opened FileSlices
  import opened FileState

  datatype Answer = Found(msg: Option<Msg>) | ReadError

  class FileMsgStore {
    const limits: Limits
    const size: Msg -> nat
    const slCountLim: int
    const slSizeLim: int
    const slAgeLim: int

    var first: nat
    var last: nat
    var totalCount: int
    var totalBytes: int
    var files: map<nat, Slice>
    var firstFSlSeq: nat
    var lastFSlSeq: nat
    var wOffset: nat
    /** The bytes in the write buffer, by the offset that they will have in the data file. */
    var buf: map<nat, Msg>
    var bufferedSeqs: seq<nat>
    var bufferedMsgs: map<nat, BufferedMsg>
    var cache: map<nat, Msg>
    var firstMsg: Option<Msg>
    var lastMsg: Option<Msg>
    /** The log that the store stands for. */
    ghost var log: Log

    ghost predicate OnDisk()
      reads this
    {
      Disk(size, files, firstFSlSeq, lastFSlSeq, wOffset, buf, bufferedSeqs, bufferedMsgs, log)
    }

    ghost predicate InMemory()
      reads this
    {
      && Counters(size, first, last, totalCount, totalBytes, log)
      && Copies(cache, bufferedMsgs, firstMsg, lastMsg, log)
    }

    ghost predicate Valid()
      reads this
    {
      OnDisk() && InMemory()
    }

    /** Every message in the write buffer is also kept among the buffered messages. */
    ghost predicate Covered()
      reads this`buf, this`bufferedMsgs
    {
      forall off :: off in buf ==> buf[off].sequence in bufferedMsgs
    }

    /** The message is buffered, and its record is in the write buffer. */
    ghost predicate InBuf(s: nat)
      reads this`buf, this`bufferedMsgs
    {
      s in bufferedMsgs && bufferedMsgs[s].index.offset in buf
    }

    /** The fields stand for `next`, as far as the files and the memory are concerned. */
    ghost predicate Holds(next: Log)
      reads this
    {
      && Disk(size, files, firstFSlSeq, lastFSlSeq, wOffset, buf, bufferedSeqs, bufferedMsgs, next)
      && Counters(size, first, last, totalCount, totalBytes, next)
      && Copies(cache, bufferedMsgs, firstMsg, lastMsg, next)
    }

    ghost method Commit(next: Log)
      requires Holds(next)
      modifies this`log
      ensures Valid() && log == next
    {
      log := next;
    }

    constructor (limits: Limits, size: Msg -> nat, slCountLim: int, slSizeLim: int, slAgeLim: int)
      ensures Valid() && Covered() && log == EMPTY_LOG
      ensures this.limits == limits && this.size == size
    {
      this.limits, this.size := limits, size;
      this.slCountLim, this.slSizeLim, this.slAgeLim := slCountLim, slSizeLim, slAgeLim;
      first, last, totalCount, totalBytes := 0, 0, 0, 0;
      files, firstFSlSeq, lastFSlSeq, wOffset := map[], 0, 0, 0;
      buf, bufferedSeqs, bufferedMsgs, cache := map[], [], map[], map[];
      firstMsg, lastMsg, log := None, None, EMPTY_LOG;
    }

    // ---------- Flushing ----------

    /** Writes the buffer to the data file; also done before the data file of the write slice is closed. */
    method FlushData()
      requires OnDisk() && log.first > 0
      modifies this`files, this`buf
      ensures OnDisk() && buf == map[]
    {
      FlushedData(size, files, firstFSlSeq, lastFSlSeq, wOffset, buf, bufferedSeqs, bufferedMsgs, log);
      files := files[lastFSlSeq := files[lastFSlSeq].(data := files[lastFSlSeq].data + buf)];
      buf := map[];
    }

    /**
     Writes the index records of the buffered messages; also done before the index file of the write slice is closed.
     */
    method ProcessBufferedMsgs()
      requires OnDisk() && log.first > 0
      modifies this`files, this`bufferedSeqs, this`bufferedMsgs
      ensures OnDisk() && bufferedSeqs == [] && bufferedMsgs == map[]
      ensures files == old(files[lastFSlSeq := files[lastFSlSeq].(idx := files[lastFSlSeq].idx + Pending(bufferedSeqs,
                bufferedMsgs))])
    {
      FlushedIndex(size, files, firstFSlSeq, lastFSlSeq, wOffset, buf, bufferedSeqs, bufferedMsgs, log);
      var recs, left := CollectIndexes(bufferedSeqs, bufferedMsgs, log.Last());
      files := files[lastFSlSeq := files[lastFSlSeq].(idx := files[lastFSlSeq].idx + recs)];
      bufferedSeqs, bufferedMsgs := [], left;
    }

    /** The file manager may close either file of the write slice whenever the store does not use it. */
    method CloseData()
      requires Valid()
      modifies this`files, this`buf
      ensures Valid() && Covered() && buf == map[]
    {
      if lastFSlSeq in files {
        FlushData();
      }
    }

    method CloseIndex()
      requires Valid()
      modifies this`files, this`bufferedSeqs, this`bufferedMsgs
      ensures Valid() && bufferedSeqs == [] && bufferedMsgs == map[]
      ensures forall s :: s in old(bufferedMsgs) && log.Has(s) && old(bufferedMsgs)[s].index.offset in buf ==>
                Ahead(files, lastFSlSeq, buf, s)
    {
      if lastFSlSeq in files {
        forall s | s in bufferedMsgs && log.Has(s) && bufferedMsgs[s].index.offset in buf
          ensures Ahead(files[lastFSlSeq := files[lastFSlSeq].(idx := files[lastFSlSeq].idx + Pending(bufferedSeqs,
                    bufferedMsgs))], lastFSlSeq, buf, s)
        {
          IndexGetsAhead(size, files, firstFSlSeq, lastFSlSeq, wOffset, buf, bufferedSeqs, bufferedMsgs, log, s);
        }
        ProcessBufferedMsgs();
      }
    }

    method Flush()
      requires Valid()
      modifies this`files, this`buf, this`bufferedSeqs, this`bufferedMsgs
      ensures Valid() && Covered() && buf == map[] && bufferedSeqs == [] && bufferedMsgs == map[]
    {
      CloseData();
      CloseIndex();
    }

    // ---------- Reading index records ----------

    /** The index record of a message: from the buffered messages, else from the index file. */
    method GetMsgIndex(k: nat, s: nat) returns (r: Option<IndexRec>)
      requires OnDisk() && log.first > 0 && k in files && Contains(files[k], s)
      ensures log.Has(s) && r.Some? && r.value.timestamp == log.At(s).timestamp && r.value.msgSize == size(log.At(s))
    {
      IndexFound(size, files, firstFSlSeq, lastFSlSeq, wOffset, buf, bufferedSeqs, bufferedMsgs, log, k, s);
      if s in bufferedMsgs {
        return Some(bufferedMsgs[s].index);
      }
      r := ReadMsgIndex(files[k], s);
    }

    // ---------- Removing messages ----------

    /** Removes the first slice, which is not the last one; the next one that there is becomes the first. */
    method RemoveFirstSlice()
      requires firstFSlSeq < lastFSlSeq && lastFSlSeq in files
      modifies this`files, this`firstFSlSeq
      ensures files == old(files) - {old(firstFSlSeq)}
      ensures old(firstFSlSeq) < firstFSlSeq <= lastFSlSeq && firstFSlSeq in files
      ensures forall k :: old(firstFSlSeq) < k < firstFSlSeq ==> k !in files
    {
      files := files - {firstFSlSeq};
      while firstFSlSeq < lastFSlSeq
        invariant old(firstFSlSeq) <= firstFSlSeq <= lastFSlSeq
        invariant files == old(files) - {old(firstFSlSeq)} && lastFSlSeq in files
        invariant forall k :: old(firstFSlSeq) < k <= firstFSlSeq ==> k !in files
      {
        firstFSlSeq := firstFSlSeq + 1;
        if firstFSlSeq in files {
          break;
        }
      }
    }

    /** Where the slices have consecutive numbers, the first one becomes the next. */
    method DropFirstSlice()
      requires firstFSlSeq < lastFSlSeq && forall k :: k in files <==> firstFSlSeq <= k <= lastFSlSeq
      modifies this`files, this`firstFSlSeq
      ensures files == old(files) - {old(firstFSlSeq)} && firstFSlSeq == old(firstFSlSeq) + 1
    {
      RemoveFirstSlice();
      assert old(firstFSlSeq) + 1 in files;
    }

    /** Counts the first message as removed in its slice, and removes the slice with its last message. */
    method RemoveRecord()
      requires OnDisk() && log.first > 0 && log.entries != []
      modifies this`files, this`firstFSlSeq
      ensures Disk(size, files, firstFSlSeq, lastFSlSeq, wOffset, buf, bufferedSeqs, bufferedMsgs, log.Drop(1))
    {
      FirstSlice(size, files, firstFSlSeq, lastFSlSeq, wOffset, buf, bufferedSeqs, bufferedMsgs, log);
      var sl := files[firstFSlSeq];
      if sl.msgsCount == sl.rmCount + 1 && |files| > 1 {
        RemovedSlice(size, files, firstFSlSeq, lastFSlSeq, wOffset, buf, bufferedSeqs, bufferedMsgs, log);
        DropFirstSlice();
      } else {
        RemovedInSlice(size, files, firstFSlSeq, lastFSlSeq, wOffset, buf, bufferedSeqs, bufferedMsgs, log);
        files := files[firstFSlSeq := FirstRemoved(sl)];
      }
    }

    /** Updates the counters for the removal of the first message, of that size. */
    method CountRemoval(msgSize: nat)
      requires InMemory() && log.first > 0 && log.entries != [] && msgSize == size(log.entries[0])
      modifies this`first, this`totalCount, this`totalBytes, this`firstMsg, this`lastMsg
      ensures Counters(size, first, last, totalCount, totalBytes, log.Drop(1))
      ensures Copies(cache, bufferedMsgs, firstMsg, lastMsg, log.Drop(1))
    {
      CopiesAfterRemoval(cache, bufferedMsgs, firstMsg, lastMsg, log);
      totalCount, totalBytes := totalCount - 1, totalBytes - (msgSize + RECORD_HEADER + INDEX_RECORD);
      first := first + 1;
      firstMsg := None;
      if first > last {
        lastMsg := None;
      }
    }

    /** The size of the first message, from its index record. */
    method FirstSize() returns (msgSize: nat)
      requires OnDisk() && log.first > 0 && log.entries != []
      ensures msgSize == size(log.entries[0])
    {
      FirstSlice(size, files, firstFSlSeq, lastFSlSeq, wOffset, buf, bufferedSeqs, bufferedMsgs, log);
      var mindex := GetMsgIndex(firstFSlSeq, files[firstFSlSeq].firstSeq);
      msgSize := mindex.value.msgSize;
    }

    method RemoveFirstMsg()
      requires Valid() && log.first > 0 && log.entries != []
      modifies this`files, this`firstFSlSeq, this`first, this`totalCount, this`totalBytes, this`firstMsg, this`lastMsg,
               this`log
      ensures Valid() && log == old(log).Drop(1)
    {
      var msgSize := FirstSize();
      CountRemoval(msgSize);
      RemoveRecord();
      Commit(log.Drop(1));
    }

    method EnforceLimits()
      requires Valid()
      modifies this`files, this`firstFSlSeq, this`first, this`totalCount, this`totalBytes, this`firstMsg, this`lastMsg,
               this`log
      ensures Valid() && log == Trim(limits, Cost(size), old(log))
    {
      while Over(limits, totalCount, totalBytes)
        invariant Valid() && Trim(limits, Cost(size), log) == Trim(limits, Cost(size), old(log))
        decreases |log.entries|
      {
        RemoveFirstMsg();
      }
    }

    /** The slice that has the message: the write slice if it does, else whichever is found. */
    method GetFileSliceForSeq(s: nat) returns (k: Option<nat>)
      ensures k.Some? ==> k.value in files && Contains(files[k.value], s)
      ensures k.None? ==> forall j :: j in files ==> !Contains(files[j], s)
    {
      if lastFSlSeq in files && Contains(files[lastFSlSeq], s) {
        return Some(lastFSlSeq);
      }
      var todo := files.Keys;
      while todo != {}
        invariant todo <= files.Keys && forall j :: j in files && j !in todo ==> !Contains(files[j], s)
        decreases todo
      {
        var j :| j in todo;
        if Contains(files[j], s) {
          return Some(j);
        }
        todo := todo - {j};
      }
      return None;
    }

    /** The time stamp of the first message, from its index record. */
    method FirstTimestamp() returns (timestamp: int)
      requires OnDisk() && first == log.first > 0 && log.entries != []
      ensures timestamp == log.entries[0].timestamp
    {
      FirstSlice(size, files, firstFSlSeq, lastFSlSeq, wOffset, buf, bufferedSeqs, bufferedMsgs, log);
      var k := GetFileSliceForSeq(first);
      var mindex := GetMsgIndex(k.value, first);
      timestamp := mindex.value.timestamp;
    }

    /** Removes the expired messages, and returns when the next one expires. */
    method ExpireMsgs(now: int, maxAge: int) returns (expiration: int)
      requires Valid()
      modifies this`files, this`firstFSlSeq, this`first, this`totalCount, this`totalBytes, this`firstMsg, this`lastMsg,
               this`log
      ensures Valid() && log == MsgLog.Expire(old(log), now, maxAge)
      ensures expiration == if log.entries == [] then 0 else log.entries[0].timestamp + maxAge
    {
      if first == 0 {
        return 0;
      }
      while first <= last
        invariant Valid() && log.first > 0 && MsgLog.Expire(log, now, maxAge) == MsgLog.Expire(old(log), now, maxAge)
        decreases |log.entries|
      {
        var timestamp := FirstTimestamp();
        var elapsed := now - timestamp;
        if elapsed < maxAge {
          return if elapsed < 0 then timestamp + maxAge else now + (maxAge - elapsed);
        }
        RemoveFirstMsg();
      }
      return 0;
    }

    // ---------- Storing ----------

    /** Opens the next slice, and removes the previous one if it is alone and has no message left. */
    method Roll()
      requires OnDisk() && buf == map[] && bufferedSeqs == [] && bufferedMsgs == map[]
      modifies this`files, this`firstFSlSeq, this`lastFSlSeq, this`wOffset
      ensures Rolled(size, files, firstFSlSeq, lastFSlSeq, log)
    {
      RolledOnce(size, files, firstFSlSeq, lastFSlSeq, wOffset, log);
      var newSliceSeq := lastFSlSeq + 1;
      files := files[newSliceSeq := NEW_SLICE];
      if firstFSlSeq == 0 {
        firstFSlSeq := newSliceSeq;
      }
      lastFSlSeq := newSliceSeq;
      wOffset := 4;
      if |files| == 2 && files[lastFSlSeq - 1].msgsCount == files[lastFSlSeq - 1].rmCount {
        DropFirstSlice();
      }
    }

    /** Whether the next record goes to a new slice, or follows the last message in the write slice. */
    ghost predicate Ready(rolled: bool, m: Msg)
      reads this
    {
      if rolled then
        && Rolled(size, files, firstFSlSeq, lastFSlSeq, log) && Next(log, m)
        && buf == map[] && bufferedSeqs == [] && bufferedMsgs == map[]
      else
        && Stored(size, files, firstFSlSeq, lastFSlSeq, wOffset, buf, bufferedSeqs, bufferedMsgs, log)
        && m.sequence == log.Last() + 1
    }

    /** The write slice with the counters that a new message sets. */
    function Begun(m: Msg): Slice
      requires lastFSlSeq in files
      reads this`files, this`lastFSlSeq
    {
      var sl := files[lastFSlSeq];
      sl.(firstSeq := if sl.firstSeq == 0 then m.sequence else sl.firstSeq)
    }

    function FirstWrite(m: Msg): int
      requires lastFSlSeq in files
      reads this`files, this`lastFSlSeq
    {
      if files[lastFSlSeq].firstWrite == 0 then m.timestamp else files[lastFSlSeq].firstWrite
    }

    method PutOnDisk(ghost rolled: bool, m: Msg)
      requires Ready(rolled, m) && buf == map[] && bufferedSeqs == [] && bufferedMsgs == map[]
      modifies this`files, this`wOffset
      ensures Stored(size, files, firstFSlSeq, lastFSlSeq, wOffset, buf, bufferedSeqs, bufferedMsgs, Longer(log, m))
    {
      if rolled {
        NewSliceOnDisk(size, files, firstFSlSeq, lastFSlSeq, log, m, wOffset);
      } else {
        WriteSliceBegun(size, files, firstFSlSeq, lastFSlSeq, wOffset, buf, bufferedSeqs, bufferedMsgs, log);
        WrittenOnDisk(size, files, firstFSlSeq, lastFSlSeq, wOffset, log, m, FirstWrite(m));
      }
      files := files[lastFSlSeq := Appended(size, Begun(m), m, wOffset, FirstWrite(m))];
      wOffset := wOffset + size(m) + RECORD_HEADER;
    }

    method PutInBuffer(ghost rolled: bool, m: Msg)
      requires Ready(rolled, m)
      modifies this`files, this`wOffset, this`buf, this`bufferedSeqs, this`bufferedMsgs
      ensures Stored(size, files, firstFSlSeq, lastFSlSeq, wOffset, buf, bufferedSeqs, bufferedMsgs, Longer(log, m))
      ensures bufferedMsgs == old(bufferedMsgs)[m.sequence := BufferedMsg(m, IndexRecOf(size, m, old(wOffset)))]
              && buf == old(buf)[old(wOffset) := m]
    {
      if rolled {
        NewSliceInBuffer(size, files, firstFSlSeq, lastFSlSeq, log, m, wOffset);
        assert bufferedSeqs + [m.sequence] == [m.sequence];
      } else {
        WriteSliceBegun(size, files, firstFSlSeq, lastFSlSeq, wOffset, buf, bufferedSeqs, bufferedMsgs, log);
        WrittenInBuffer(size, files, firstFSlSeq, lastFSlSeq, wOffset, buf, bufferedSeqs, bufferedMsgs, log, m,
                        FirstWrite(m));
      }
      files := files[lastFSlSeq := InBuffer(size, Begun(m), m, FirstWrite(m))];
      buf := buf[wOffset := m];
      bufferedSeqs := bufferedSeqs + [m.sequence];
      bufferedMsgs := bufferedMsgs[m.sequence := BufferedMsg(m, IndexRecOf(size, m, wOffset))];
      wOffset := wOffset + size(m) + RECORD_HEADER;
    }

    /** Updates the counters and the kept copies for a message that is written. */
    method CountWrite(m: Msg)
      requires Next(log, m) && log.Valid() && InMemory()
      modifies this`first, this`firstMsg, this`last, this`lastMsg, this`cache, this`totalCount, this`totalBytes
      ensures Counters(size, first, last, totalCount, totalBytes, Longer(log, m))
      ensures Copies(cache, bufferedMsgs, firstMsg, lastMsg, Longer(log, m))
    {
      CopiesAfterWrite(cache, bufferedMsgs, firstMsg, lastMsg, log, m);
      TotalLonger(size, log, m);
      if first == 0 || first == m.sequence {
        first, firstMsg := m.sequence, Some(m);
      }
      last, lastMsg := m.sequence, Some(m);
      cache := cache[m.sequence := m];
      totalCount, totalBytes := totalCount + 1, totalBytes + (size(m) + RECORD_HEADER + INDEX_RECORD);
    }

    /** Writes out the buffer if the record does not fit into it. */
    method MakeRoom(ghost rolled: bool, m: Msg)
      requires Ready(rolled, m)
      modifies this`files, this`buf, this`bufferedSeqs, this`bufferedMsgs
      ensures Ready(rolled, m) && buf == map[] && bufferedSeqs == [] && bufferedMsgs == map[]
    {
      if !(buf == map[]) {
        FlushData();
      }
      if bufferedSeqs != [] {
        ProcessBufferedMsgs();
      }
    }

    /**
     Writes the record: into the buffer if it has room, maybe after the buffer was written out. A record that is too big
     for the buffer goes to the file, and so does every record of a store without a buffer.
     */
    method PutRecord(ghost rolled: bool, m: Msg, room: bool, kept: bool)
      requires Ready(rolled, m)
      modifies this`files, this`wOffset, this`buf, this`bufferedSeqs, this`bufferedMsgs
      ensures Stored(size, files, firstFSlSeq, lastFSlSeq, wOffset, buf, bufferedSeqs, bufferedMsgs, Longer(log, m))
      ensures MsgsAfter(old(bufferedMsgs), bufferedMsgs, m) && (room || kept ==> InBuf(m.sequence))
      ensures old(Covered()) ==> Covered()
    {
      if !room {
        MakeRoom(rolled, m);
      }
      if room || kept {
        PutInBuffer(rolled, m);
      } else {
        PutOnDisk(rolled, m);
      }
    }

    /** Writes the record of a message that is already counted. */
    method PutCounted(ghost rolled: bool, m: Msg, room: bool, kept: bool)
      requires Ready(rolled, m) && Next(log, m) && log.Valid()
      requires Counters(size, first, last, totalCount, totalBytes, Longer(log, m))
      requires Copies(cache, bufferedMsgs, firstMsg, lastMsg, Longer(log, m))
      modifies this`files, this`wOffset, this`buf, this`bufferedSeqs, this`bufferedMsgs
      ensures Holds(Longer(log, m)) && (room || kept ==> InBuf(m.sequence))
      ensures old(Covered()) ==> Covered()
    {
      PutRecord(rolled, m, room, kept);
      CopiesBuffered(cache, old(bufferedMsgs), bufferedMsgs, firstMsg, lastMsg, log, m);
    }

    /** Writes the record and updates the counters; the log is then longer by the message. */
    method WriteAndCount(ghost rolled: bool, m: Msg, room: bool, kept: bool)
      requires Ready(rolled, m) && Next(log, m) && InMemory() && log.Valid()
      modifies this`files, this`wOffset, this`buf, this`bufferedSeqs, this`bufferedMsgs
      modifies this`first, this`firstMsg, this`last, this`lastMsg, this`cache, this`totalCount, this`totalBytes
      ensures Holds(Longer(log, m)) && (room || kept ==> InBuf(m.sequence))
      ensures old(Covered()) ==> Covered()
    {
      CountWrite(m);
      PutCounted(rolled, m, room, kept);
    }

    method WriteMsg(ghost rolled: bool, m: Msg, room: bool, kept: bool)
      requires Ready(rolled, m) && Next(log, m) && InMemory() && log.Valid()
      modifies this`files, this`wOffset, this`buf, this`bufferedSeqs, this`bufferedMsgs, this`log
      modifies this`first, this`firstMsg, this`last, this`lastMsg, this`cache, this`totalCount, this`totalBytes
      ensures Valid() && log == Longer(old(log), m) && (room || kept ==> InBuf(m.sequence))
      ensures old(Covered()) ==> Covered()
    {
      WriteAndCount(rolled, m, room, kept);
      Commit(Longer(log, m));
    }

    // ---------- Gaps ----------

    /** The files alone hold the log. */
    ghost predicate Plain()
      reads this
    {
      && PlainDisk(size, files, firstFSlSeq, lastFSlSeq, wOffset, log)
      && Counters(size, first, last, totalCount, totalBytes, log)
      && Copies(cache, map[], firstMsg, None, log)
    }

    /** Writes a placeholder straight to the files. */
    method PutPlaceholder(m: Msg)
      requires PlainDisk(size, files, firstFSlSeq, lastFSlSeq, wOffset, log) && m.sequence == log.Last() + 1
      modifies this`files, this`wOffset
      ensures PlainDisk(size, files, firstFSlSeq, lastFSlSeq, wOffset, Longer(log, m))
    {
      var sl := files[lastFSlSeq];
      PlainAppended(size, files, firstFSlSeq, lastFSlSeq, wOffset, log, m, sl.firstWrite);
      files := files[lastFSlSeq := Appended(size, sl, m, wOffset, sl.firstWrite)];
      wOffset := wOffset + size(m) + RECORD_HEADER;
    }

    method CountPlaceholder(m: Msg)
      requires Counters(size, first, last, totalCount, totalBytes, log) && Copies(cache, map[], firstMsg, None, log)
      requires log.first > 0 && m.sequence == log.Last() + 1
      modifies this`last, this`totalCount, this`totalBytes
      ensures Counters(size, first, last, totalCount, totalBytes, Longer(log, m))
              && Copies(cache, map[], firstMsg, None, Longer(log, m))
    {
      CopiesAfterFill(cache, firstMsg, log, m);
      TotalLonger(size, log, m);
      last, totalCount, totalBytes := last + 1, totalCount + 1, totalBytes + (size(m) + RECORD_HEADER + INDEX_RECORD);
    }

    method FillOne(timestamp: int)
      requires Plain()
      modifies this`files, this`wOffset, this`last, this`totalCount, this`totalBytes, this`log
      ensures Plain() && log == Longer(old(log), Msg(old(log).Last() + 1, timestamp, "")) && last == old(last) + 1
    {
      var m := Msg(last + 1, timestamp, "");
      PutPlaceholder(m);
      CountPlaceholder(m);
      log := Longer(log, m);
    }

    method FillNext(timestamp: int, ghost was: Log, ghost n: nat)
      requires Plain() && log == Filled(was, n, timestamp)
      modifies this`files, this`wOffset, this`last, this`totalCount, this`totalBytes, this`log
      ensures Plain() && log == Filled(was, n + 1, timestamp) && last == old(last) + 1
    {
      FilledStep(was, n, timestamp);
      FillOne(timestamp);
    }

    method FillUpTo(m: Msg)
      requires Plain() && m.sequence > last
      modifies this`files, this`wOffset, this`last, this`totalCount, this`totalBytes, this`log
      ensures Plain() && log == Filled(old(log), m.sequence - old(last) - 1, m.timestamp)
    {
      ghost var n := 0;
      while last + 1 < m.sequence
        invariant Plain() && last == old(last) + n < m.sequence
        invariant log == Filled(old(log), n, m.timestamp)
        decreases m.sequence - last
      {
        FillNext(m.timestamp, old(log), n);
        n := n + 1;
      }
    }

    /** Writes out what is pending, so that placeholders can go straight to the files. */
    method BeginGap()
      requires Valid() && log.first > 0
      modifies this`files, this`buf, this`bufferedSeqs, this`bufferedMsgs, this`lastMsg
      ensures Plain() && buf == map[] && bufferedSeqs == [] && bufferedMsgs == map[] && lastMsg == None
    {
      Flush();
      lastMsg := None;
      PlainIsStored(size, files, firstFSlSeq, lastFSlSeq, wOffset, log);
    }

    /** Writes a placeholder for every sequence between the last message and `m`. */
    method FillGaps(m: Msg)
      requires Valid() && log.first > 0 && m.sequence > last
      modifies this`files, this`buf, this`bufferedSeqs, this`bufferedMsgs, this`wOffset, this`last, this`lastMsg,
               this`totalCount, this`totalBytes, this`log
      ensures Valid() && Covered() && log == Filled(old(log), m.sequence - old(last) - 1, m.timestamp)
    {
      BeginGap();
      FillUpTo(m);
      PlainIsStored(size, files, firstFSlSeq, lastFSlSeq, wOffset, log);
    }

    // ---------- The operations of the store ----------

    /** Whether the next message goes to a new slice. */
    predicate SliceIsFull(timeTick: int)
      reads this`files, this`lastFSlSeq
    {
      || lastFSlSeq !in files
      || (slSizeLim > 0 && files[lastFSlSeq].msgsSize >= slSizeLim)
      || (slCountLim > 0 && files[lastFSlSeq].msgsCount >= slCountLim)
      || (slAgeLim > 0 && timeTick - files[lastFSlSeq].firstWrite >= slAgeLim)
    }

    /** Moves to a new slice if need be. */
    method PrepareSlice(timeTick: int, m: Msg) returns (ghost rolled: bool)
      requires Valid() && Next(log, m)
      modifies this`files, this`firstFSlSeq, this`lastFSlSeq, this`wOffset, this`buf, this`bufferedSeqs,
               this`bufferedMsgs
      ensures Ready(rolled, m) && InMemory()
      ensures old(Covered()) ==> Covered()
    {
      rolled := SliceIsFull(timeTick);
      if SliceIsFull(timeTick) {
        Flush();
        Roll();
      }
    }

    /** Appends the message, after placeholders for the sequences that were skipped. */
    method AppendMsg(m: Msg, timeTick: int, room: bool, kept: bool)
      requires Valid() && m.sequence > last
      modifies this
      ensures Valid() && log == Append(old(log), m) && (room || kept ==> InBuf(m.sequence))
      ensures old(Covered()) ==> Covered()
    {
      AppendIsFilled(log, m);
      if last > 0 && m.sequence > last + 1 {
        FillGaps(m);
      }
      var rolled := PrepareSlice(timeTick, m);
      WriteMsg(rolled, m, room, kept);
    }

    /**
     Stores a message. `timeTick` is the time of the store, `room` says whether the write buffer has room for the
     record, and `kept` whether a record that had none goes to the buffer once that was written out.
     */
    method Store(m: Msg, timeTick: int, room: bool, kept: bool) returns (r: nat)
      requires Valid()
      modifies this
      ensures Valid() && r == m.sequence && log == MsgLog.Store(limits, Cost(size), old(log), m)
      ensures m.sequence > old(last) && (room || kept) ==> InBuf(m.sequence)
      ensures old(Covered()) ==> Covered()
    {
      r := m.sequence;
      if m.sequence > last {
        AppendMsg(m, timeTick, room, kept);
        if limits.maxMsgs > 0 || limits.maxBytes > 0 {
          EnforceLimits();
        }
      }
    }

    /** Reads a message from the files of its slice. */
    method ReadFromDisk(s: nat) returns (r: Answer)
      requires OnDisk() && s !in bufferedMsgs
      ensures r.Found? ==> r.msg == log.Lookup(s)
      ensures r.ReadError? <==> Ahead(files, lastFSlSeq, buf, s)
    {
      var k := GetFileSliceForSeq(s);
      DiskSearch(size, files, firstFSlSeq, lastFSlSeq, wOffset, buf, bufferedSeqs, bufferedMsgs, log, s);
      if k == None {
        return Found(None);
      }
      IndexFound(size, files, firstFSlSeq, lastFSlSeq, wOffset, buf, bufferedSeqs, bufferedMsgs, log, k.value, s);
      ReadFails(size, files, firstFSlSeq, lastFSlSeq, wOffset, buf, bufferedSeqs, bufferedMsgs, log, k.value, s);
      var index := ReadMsgIndex(files[k.value], s);
      if index.value.offset !in files[k.value].data {
        return ReadError;
      }
      return Found(Some(files[k.value].data[index.value.offset]));
    }

    /**
     Looks a message up: in the cache, among the buffered messages, then in the files. An answer is what the log has.
     Reading fails only for a message whose index record was written while its data is still in the write buffer.
     */
    method Lookup(s: nat) returns (r: Answer)
      requires Valid()
      modifies this`cache
      ensures Valid()
      ensures r.Found? ==> r.msg == log.Lookup(s)
      ensures r.ReadError? <==> s !in old(cache) && s !in bufferedMsgs && Ahead(files, lastFSlSeq, buf, s)
      ensures Covered() ==> r.Found?
    {
      if Ahead(files, lastFSlSeq, buf, s) && s !in bufferedMsgs {
        AheadIsBuffered(size, files, firstFSlSeq, lastFSlSeq, wOffset, buf, bufferedSeqs, bufferedMsgs, log, s);
      }
      if s < first || s > last {
        return Found(None);
      }
      if s in cache {
        return Found(Some(cache[s]));
      }
      if s in bufferedMsgs {
        cache := cache[s := bufferedMsgs[s].msg];
        return Found(Some(bufferedMsgs[s].msg));
      }
      r := ReadFromDisk(s);
      if r.Found? && r.msg.Some? {
        cache := cache[s := r.msg.value];
      }
    }

    /** The cache may lose entries at any time. */
    method Evict(expired: set<nat>)
      requires Valid()
      modifies this`cache
      ensures Valid() && cache == old(cache) - expired
    {
      cache := cache - expired;
    }

    method FirstMsg() returns (r: Answer)
      requires Valid()
      modifies this`cache, this`firstMsg
      ensures Valid()
      ensures r.Found? ==> r.msg == log.Lookup(log.first)
      ensures Covered() ==> r.Found?
    {
      r := Found(firstMsg);
      if firstMsg == None {
        r := Lookup(first);
        firstMsg := if r.Found? then r.msg else None;
      }
    }

    method LastMsg() returns (r: Answer)
      requires Valid()
      modifies this`cache, this`lastMsg
      ensures Valid()
      ensures r.Found? ==> r.msg == log.Lookup(log.Last())
      ensures Covered() ==> r.Found?
    {
      r := Found(lastMsg);
      if lastMsg == None {
        r := Lookup(last);
        lastMsg := if r.Found? then r.msg else None;
      }
    }

    /** Resets the counters that all message stores have. */
    method EmptyCounters()
      modifies this`first, this`last, this`totalCount, this`totalBytes
      ensures Counters(size, first, last, totalCount, totalBytes, EMPTY_LOG)
    {
      first, last, totalCount, totalBytes := 0, 0, 0, 0;
    }

    method EmptyFiles()
      modifies this`files, this`firstFSlSeq, this`lastFSlSeq, this`wOffset, this`buf, this`bufferedSeqs,
               this`bufferedMsgs
      ensures Disk(size, files, firstFSlSeq, lastFSlSeq, wOffset, buf, bufferedSeqs, bufferedMsgs, EMPTY_LOG)
      ensures buf == map[] && bufferedMsgs == map[]
    {
      files, firstFSlSeq, lastFSlSeq, wOffset := map[], 0, 0, 0;
      buf, bufferedSeqs, bufferedMsgs := map[], [], map[];
    }

    /** Drops every message; the next one may have any sequence. */
    method Empty()
      modifies this
      ensures Valid() && Covered() && log == EMPTY_LOG
    {
      EmptyFiles();
      EmptyCounters();
      cache, firstMsg, lastMsg := map[], None, None;
      log := EMPTY_LOG;
    }

    /** The slices share the messages out: each message of the log is in exactly one, and nothing else is. */
    ghost predicate Partitioned()
      reads this
    {
      && (forall s :: log.Has(s) <==> exists k :: k in files && Contains(files[k], s))
      && (forall j, k, s :: j in files && k in files && Contains(files[j], s) && Contains(files[k], s) ==> j == k)
      && (log.first > 0 ==> forall k :: k in files <==> firstFSlSeq <= k <= lastFSlSeq)
    }

    lemma Partition()
      requires Valid()
      ensures Partitioned()
    {
      forall s ensures log.Has(s) <==> exists k :: k in files && Contains(files[k], s) {
        DiskSearch(size, files, firstFSlSeq, lastFSlSeq, wOffset, buf, bufferedSeqs, bufferedMsgs, log, s);
      }
      if log.first > 0 {
        forall j, k, s | j in files && k in files && Contains(files[j], s) && Contains(files[k], s) ensures j == k {
          SlicesApart(size, files, firstFSlSeq, lastFSlSeq, wOffset, buf, bufferedSeqs, bufferedMsgs, log, s);
        }
        SlicesApart(size, files, firstFSlSeq, lastFSlSeq, wOffset, buf, bufferedSeqs, bufferedMsgs, log, 0);
      }
    }

    /** The counters of the store are the sums over its slices. */
    ghost predicate Totalled()
      reads this
    {
      if log.first == 0 then files == map[] && totalCount == 0 && totalBytes == 0
      else Summed(files, firstFSlSeq, lastFSlSeq, buf, bufferedSeqs, bufferedMsgs, totalCount, totalBytes)
    }

    lemma Totals()
      requires Valid()
      ensures Totalled()
    {
      if log.first > 0 {
        CountersAreSums(size, files, firstFSlSeq, lastFSlSeq, wOffset, buf, bufferedSeqs, bufferedMsgs, log);
      }
    }
  }

  /** The loop over the buffered messages: takes the index record of each, in order, and forgets the message. */
  method CollectIndexes(seqs: seq<nat>, msgs: map<nat, BufferedMsg>, ghost last: nat)
      returns (recs: seq<IndexRec>, left: map<nat, BufferedMsg>)
    requires BufferOk(seqs, msgs, last)
    ensures recs == Pending(seqs, msgs) && left == map[]
  {
    recs, left := [], msgs;
    for i := 0 to |seqs|
      invariant recs == Pending(seqs, msgs)[..i]
      invariant forall s :: s in left <==> s in msgs && last + 1 - |seqs| + i <= s
      invariant forall s :: s in left ==> left[s] == msgs[s]
    {
      var s := seqs[i];
      if s in left {
        recs, left := recs + [left[s].index], left - {s};
      }
    }
  }

  /** Reads the index record at the message's place, or looks for it further back. */
  method ReadMsgIndex(sl: Slice, s: nat) returns (r: Option<IndexRec>)
    requires Contains(sl, s)
    ensures r.Some? ==> r.value in sl.idx && r.value.sequence == s
    ensures Position(sl, s) < |sl.idx| && sl.idx[Position(sl, s)].sequence == s ==> r == Some(sl.idx[Position(sl, s)])
  {
    var pos := Position(sl, s);
    if pos < |sl.idx| && sl.idx[pos].sequence == s {
      return Some(sl.idx[pos]);
    }
    while pos > 0
      invariant pos <= Position(sl, s)
    {
      pos := pos - 1;
      if pos < |sl.idx| {
        if sl.idx[pos].sequence == s {
          return Some(sl.idx[pos]);
        }
        if sl.idx[pos].sequence < s {
          break;
        }
      }
    }
    return None;
  }

  // ---------- Runs ----------

  datatype Op =
    | Store(m: Msg, timeTick: int, room: bool, kept: bool)
    | Expire(now: int, maxAge: int)
    | Flush
    | CloseData
    | CloseIndex
    | Evict(expired: set<nat>)
    | Lookup(s: nat)
    | Empty

  /** What an operation does to the bounded log: only storing, expiry and emptying change it. */
  ghost function Meaning(limits: Limits, size: Msg -> nat, l: Log, op: Op): Log {
    match op
    case Store(m, _, _, _) => MsgLog.Store(limits, Cost(size), l, m)
    case Expire(now, maxAge) => MsgLog.Expire(l, now, maxAge)
    case Empty => EMPTY_LOG
    case _ => l
  }

  ghost function Meanings(limits: Limits, size: Msg -> nat, ops: seq<Op>): Log {
    if ops == [] then EMPTY_LOG else Meaning(limits, size, Meanings(limits, size, ops[..|ops| - 1]), ops[|ops| - 1])
  }

  method Do(store: FileMsgStore, op: Op) returns (r: Answer)
    requires store.Valid()
    modifies store
    ensures store.Valid() && store.log == Meaning(store.limits, store.size, old(store.log), op)
    ensures old(store.Covered()) && op != CloseIndex ==> store.Covered()
    ensures op.Lookup? && r.Found? ==> r.msg == store.log.Lookup(op.s)
    ensures op.Lookup? && old(store.Covered()) ==> r.Found?
  {
    r := ReadError;
    if op.Lookup? {
      r := store.Lookup(op.s);
    } else if op.Store? || op.Expire? || op.Empty? {
      DoChange(store, op);
    } else {
      match op
      case Flush => store.Flush();
      case CloseData => store.CloseData();
      case CloseIndex => store.CloseIndex();
      case Evict(expired) => store.Evict(expired);
    }
  }

  /** The operations that change the log. */
  method DoChange(store: FileMsgStore, op: Op)
    requires store.Valid() && (op.Store? || op.Expire? || op.Empty?)
    modifies store
    ensures store.Valid() && store.log == Meaning(store.limits, store.size, old(store.log), op)
    ensures old(store.Covered()) ==> store.Covered()
  {
    if op.Store? {
      var stored := store.Store(op.m, op.timeTick, op.room, op.kept);
    } else if op.Expire? {
      var next := store.ExpireMsgs(op.now, op.maxAge);
    } else {
      store.Empty();
    }
  }

  /** The answer to operation `i`, if it is a lookup: what the log has after the operations before. */
  ghost predicate Right(limits: Limits, size: Msg -> nat, ops: seq<Op>, i: nat, answer: Answer)
    requires i < |ops|
  {
    ops[i].Lookup? && answer.Found? ==> answer.msg == Meanings(limits, size, ops[..i]).Lookup(ops[i].s)
  }

  ghost predicate Answered(ops: seq<Op>, i: nat, answer: Answer)
    requires i < |ops|
  {
    CloseIndex !in ops && ops[i].Lookup? ==> answer.Found?
  }

  ghost predicate AllRight(limits: Limits, size: Msg -> nat, ops: seq<Op>, answers: seq<Answer>)
    requires |answers| <= |ops|
    decreases |answers|
  {
    answers == [] ||
    (var n := |answers| - 1;
     AllRight(limits, size, ops, answers[..n]) && Right(limits, size, ops, n, answers[n])
       && Answered(ops, n, answers[n]))
  }

  lemma {:induction false} EachRight(limits: Limits, size: Msg -> nat, ops: seq<Op>, answers: seq<Answer>, i: nat)
    requires |answers| <= |ops| && AllRight(limits, size, ops, answers) && i < |answers|
    ensures Right(limits, size, ops, i, answers[i]) && Answered(ops, i, answers[i])
    decreases |answers|
  {
    if i < |answers| - 1 {
      EachRight(limits, size, ops, answers[..|answers| - 1], i);
    }
  }

  method DoNext(store: FileMsgStore, ops: seq<Op>, n: nat) returns (r: Answer)
    requires n < |ops| && store.Valid() && store.log == Meanings(store.limits, store.size, ops[..n])
    requires CloseIndex !in ops ==> store.Covered()
    modifies store
    ensures store.Valid() && store.log == Meanings(store.limits, store.size, ops[..n + 1])
    ensures CloseIndex !in ops ==> store.Covered()
    ensures Right(store.limits, store.size, ops, n, r) && Answered(ops, n, r)
  {
    assert ops[..n + 1][..n] == ops[..n] && ops[..n + 1][n] == ops[n];
    r := Do(store, ops[n]);
  }

  /**
   Over every run, the store stands for the bounded log of the same operations, and an answer is what that log has. In a
   run that never closes the index file by itself, every lookup answers. The slices share the messages out, and the
   counters are the sums over them.
   */
  method Run(limits: Limits, size: Msg -> nat, slCountLim: int, slSizeLim: int, slAgeLim: int, ops: seq<Op>)
    returns (store: FileMsgStore, answers: seq<Answer>)
    ensures |answers| == |ops| && AllRight(limits, size, ops, answers)
    ensures store.log == Meanings(limits, size, ops) && store.Partitioned() && store.Totalled()
  {
    store := new FileMsgStore(limits, size, slCountLim, slSizeLim, slAgeLim);
    answers := [];
    for n := 0 to |ops|
      invariant store.Valid() && store.limits == limits && store.size == size && fresh(store)
      invariant store.log == Meanings(limits, size, ops[..n]) && (CloseIndex !in ops ==> store.Covered())
      invariant |answers| == n && AllRight(limits, size, ops, answers)
    {
      var r := DoNext(store, ops, n);
      assert (answers + [r])[..n] == answers;
      answers := answers + [r];
    }
    assert ops[..|ops|] == ops;
    store.Partition();
    store.Totals();
  }

  /**
   A lookup that fails: a message is stored into the buffer, the index file is closed before the data file, and the
   message is no longer cached.
   */
  method LookupAhead(store: FileMsgStore, m: Msg, timeTick: int, room: bool, kept: bool) returns (r: Answer)
    requires store.Valid() && m.sequence > store.last && (room || kept)
    modifies store
    ensures r == ReadError && store.Valid() && store.log.Lookup(m.sequence) == Some(m)
  {
    StoreKeepsLast(store.limits, Cost(store.size), store.log, m);
    var stored := store.Store(m, timeTick, room, kept);
    store.CloseIndex();
    store.Evict({m.sequence});
    r := store.Lookup(m.sequence);
  }
}
