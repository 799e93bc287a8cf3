/**
 A byte stream over messages: chunks are queued as they come, and a reader takes bytes from the first one
 (server/raft_transport.go).
 */
module ByteStream {
  import opened Basics

  function Flatten(bufs: seq<seq<Byte>>): seq<Byte> {
    if bufs == [] then [] else bufs[0] + Flatten(bufs[1..])
  }

  lemma {:induction false} FlattenAppend(a: seq<seq<Byte>>, b: seq<seq<Byte>>)
    ensures Flatten(a + b) == Flatten(a) + Flatten(b)
    decreases |a|
  {
    if a == [] {
      assert a + b == b;
    } else {
      FlattenAppend(a[1..], b);
      assert (a + b)[1..] == a[1..] + b;
      assert a[0] + (Flatten(a[1..]) + Flatten(b)) == a[0] + Flatten(a[1..]) + Flatten(b);
    }
  }

  lemma FlattenNext(before: seq<Byte>, msgs: seq<seq<Byte>>, i: nat)
    requires i < |msgs|
    ensures before + Flatten(msgs[..i]) + msgs[i] == before + Flatten(msgs[..i + 1])
  {
    FlattenAppend(msgs[..i], [msgs[i]]);
    assert msgs[..i + 1] == msgs[..i] + [msgs[i]] && Flatten([msgs[i]]) == msgs[i];
    assert before + (Flatten(msgs[..i]) + msgs[i]) == before + Flatten(msgs[..i]) + msgs[i];
  }

  /** Cuts what is written into messages of a bounded size, none of them empty. */
  method Chunks(b: seq<Byte>, maxPayload: nat) returns (msgs: seq<seq<Byte>>)
    requires maxPayload > 0
    ensures Flatten(msgs) == b && forall i :: 0 <= i < |msgs| ==> 0 < |msgs[i]| <= maxPayload
  {
    msgs := [];
    var i := 0;
    while i < |b|
      invariant 0 <= i <= |b| && Flatten(msgs) == b[..i]
      invariant forall j :: 0 <= j < |msgs| ==> 0 < |msgs[j]| <= maxPayload
    {
      var size := if |b| - i < maxPayload then |b| - i else maxPayload;
      var chunk := b[i..i + size];
      FlattenAppend(msgs, [chunk]);
      assert Flatten([chunk]) == chunk;
      assert b[..i] + chunk == b[..i + size];
      msgs, i := msgs + [chunk], i + size;
    }
    assert b[..|b|] == b;
  }

  /**
   Where the reader is: not reading, blocked for a buffer, about to copy from the first one, or about to drop what it
   copied.
   */
  datatype Reader = Idle | Waiting | Have | Copied(n: nat)

  datatype ReadResult = Bytes(data: seq<Byte>) | EndOfStream | TimedOut | Blocked

  /** What is queued and not yet given to the reader. */
  ghost function Queued(pending: seq<seq<Byte>>, reader: Reader): seq<Byte>
    requires reader.Copied? ==> pending != [] && reader.n <= |pending[0]|
  {
    if reader.Copied? then pending[0][reader.n..] + Flatten(pending[1..]) else Flatten(pending)
  }

  /** Only the last message can be empty, and it ends the stream. */
  ghost predicate Ends(bufs: seq<seq<Byte>>, ended: bool) {
    forall i :: 0 <= i < |bufs| ==> bufs[i] != [] || (ended && i == |bufs| - 1)
  }

  /** What was read, what is queued and what is on its way are together what was written. */
  ghost predicate Whole(read: seq<Byte>, queued: seq<Byte>, inFlight: seq<seq<Byte>>, written: seq<Byte>) {
    read + queued + Flatten(inFlight) == written
  }

  lemma PublishWhole(read: seq<Byte>, queued: seq<Byte>, inFlight: seq<seq<Byte>>, written: seq<Byte>, msg: seq<Byte>)
    requires Whole(read, queued, inFlight, written)
    ensures Whole(read, queued, inFlight + [msg], written + msg)
  {
    FlattenAppend(inFlight, [msg]);
    assert Flatten([msg]) == msg;
    assert read + queued + (Flatten(inFlight) + msg) == read + queued + Flatten(inFlight) + msg;
  }

  lemma ArriveWhole(read: seq<Byte>, queued: seq<Byte>, inFlight: seq<seq<Byte>>, written: seq<Byte>)
    requires Whole(read, queued, inFlight, written) && inFlight != []
    ensures Whole(read, queued + inFlight[0], inFlight[1..], written)
  {
    assert read + queued + (inFlight[0] + Flatten(inFlight[1..])) ==
      read + (queued + inFlight[0]) + Flatten(inFlight[1..]);
  }

  lemma QueuedAppend(pending: seq<seq<Byte>>, reader: Reader, msg: seq<Byte>)
    requires reader.Copied? ==> pending != [] && reader.n <= |pending[0]|
    ensures Queued(pending + [msg], reader) == Queued(pending, reader) + msg
  {
    assert Flatten([msg]) == msg;
    if reader.Copied? {
      FlattenAppend(pending[1..], [msg]);
      assert (pending + [msg])[1..] == pending[1..] + [msg];
      assert pending[0][reader.n..] + (Flatten(pending[1..]) + msg) ==
        pending[0][reader.n..] + Flatten(pending[1..]) + msg;
    } else {
      FlattenAppend(pending, [msg]);
    }
  }

  lemma ReadWhole(read: seq<Byte>, buf: seq<Byte>, n: nat, rest: seq<Byte>, inFlight: seq<seq<Byte>>,
                  written: seq<Byte>)
    requires Whole(read, buf + rest, inFlight, written) && n <= |buf|
    ensures Whole(read + buf[..n], buf[n..] + rest, inFlight, written)
  {
    assert buf[..n] + buf[n..] == buf;
    assert read + (buf[..n] + buf[n..] + rest) == read + buf[..n] + (buf[n..] + rest);
  }

  lemma EndsAppend(bufs: seq<seq<Byte>>, msg: seq<Byte>)
    requires Ends(bufs, false)
    ensures msg != [] ==> Ends(bufs + [msg], false)
    ensures Ends(bufs + [msg], true)
  {
  }

  /** The first buffer is reduced by what was copied, or goes with its last byte. */
  lemma Reduced(pending: seq<seq<Byte>>, inFlight: seq<seq<Byte>>, ended: bool, n: nat)
    requires pending != [] && n <= |pending[0]| && Ends(pending + inFlight, ended)
    ensures var rest := if n < |pending[0]| then [pending[0][n..]] + pending[1..] else pending[1..];
            Flatten(rest) == Queued(pending, Copied(n)) && Ends(rest + inFlight, ended)
  {
    var all, tail := pending + inFlight, pending[1..];
    assert tail + inFlight == all[1..];
    if n < |pending[0]| {
      var rest := [pending[0][n..]] + tail;
      assert rest[1..] == tail;
      assert rest + inFlight == [pending[0][n..]] + all[1..];
    } else {
      assert pending[0][n..] == [] && [] + Flatten(tail) == Flatten(tail);
    }
  }

  /**
   One direction of a connection: the messages on their way, the queued buffers, the one-token channel and the reader.
   */
  class Link {
    var inFlight: seq<seq<Byte>>
    var pending: seq<seq<Byte>>
    var token: bool
    var closed: bool
    var reader: Reader
    /** The writer has sent the empty message that ends the stream. */
    var ended: bool
    ghost var written: seq<Byte>
    ghost var read: seq<Byte>
    /** A read came to the end of the stream. */
    ghost var finished: bool

    /** Nothing is lost or reordered, and a reader that is blocked while a buffer is queued has its token. */
    ghost predicate Valid()
      reads this
    {
      && (reader == Have ==> pending != [])
      && (reader.Copied? ==> pending != [] && 0 < |pending[0]| && reader.n <= |pending[0]|)
      && Ends(pending + inFlight, ended)
      && Whole(read, Queued(pending, reader), inFlight, written)
      && (reader == Waiting && pending != [] ==> token)
      && (finished ==> ended && read == written)
    }

    constructor ()
      ensures Valid() && written == [] && read == [] && !closed && !ended && !finished
    {
      finished := false;
      inFlight, pending, token, closed, reader, ended, written, read := [], [], false, false, Idle, false, [], [];
    }

    /** A message is put on its way. */
    method Publish(msg: seq<Byte>)
      requires Valid() && !ended && msg != []
      modifies this`inFlight, this`written
      ensures Valid() && written == old(written) + msg && inFlight == old(inFlight) + [msg]
    {
      PublishWhole(read, Queued(pending, reader), inFlight, written, msg);
      EndsAppend(pending + inFlight, msg);
      assert pending + (inFlight + [msg]) == pending + inFlight + [msg];
      inFlight, written := inFlight + [msg], written + msg;
    }

    method Write(b: seq<Byte>, maxPayload: nat)
      requires Valid() && !ended && maxPayload > 0
      modifies this`inFlight, this`written
      ensures Valid() && written == old(written) + b
    {
      var msgs := Chunks(b, maxPayload);
      ghost var before := written;
      for i := 0 to |msgs|
        invariant Valid() && written == before + Flatten(msgs[..i])
      {
        FlattenNext(before, msgs, i);
        Publish(msgs[i]);
      }
      assert msgs[..|msgs|] == msgs;
    }

    /** The writer closes its end. */
    method End()
      requires Valid() && !ended
      modifies this`inFlight, this`ended
      ensures Valid() && ended
    {
      PublishWhole(read, Queued(pending, reader), inFlight, written, []);
      EndsAppend(pending + inFlight, []);
      assert written + [] == written;
      assert pending + (inFlight + [[]]) == pending + inFlight + [[]];
      inFlight, ended := inFlight + [[]], true;
    }

    /** The next message arrives; the first buffer to be queued comes with a token. */
    method OnMsg()
      requires Valid() && inFlight != [] && !closed
      modifies this`inFlight, this`pending, this`token
      ensures Valid() && pending == old(pending) + [old(inFlight)[0]] && inFlight == old(inFlight)[1..]
    {
      var msg := inFlight[0];
      ArriveWhole(read, Queued(pending, reader), inFlight, written);
      QueuedAppend(pending, reader, msg);
      assert pending + inFlight == pending + [msg] + inFlight[1..];
      if pending == [] {
        token := true;
      }
      inFlight, pending := inFlight[1..], pending + [msg];
    }

    /** A read begins: with the first buffer, or by waiting for one. */
    method StartRead() returns (r: ReadResult)
      requires Valid() && reader == Idle
      modifies this`reader
      ensures Valid() && (r == EndOfStream <==> closed)
              && (!closed ==> r == Blocked && reader == if pending == [] then Waiting else Have)
    {
      if closed {
        return EndOfStream;
      }
      reader := if pending == [] then Waiting else Have;
      return Blocked;
    }

    /** The reader closes its own end, which closes the channel; tokens that are in it can still be taken. */
    method Close()
      requires Valid()
      modifies this`closed
      ensures Valid() && closed
    {
      closed := true;
    }

    /**
     The token is taken; it may be one for a buffer that was read meanwhile. A channel that was closed wakes the reader
     without a token, and ends the read.
     */
    method Wake() returns (r: ReadResult)
      requires Valid() && reader == Waiting && (token || closed)
      modifies this`reader, this`token
      ensures Valid() && !token
      ensures old(token) ==> r == Blocked && reader == if pending == [] then Waiting else Have
      ensures !old(token) ==> r == EndOfStream && reader == Idle && pending == []
    {
      if !token {
        reader := Idle;
        return EndOfStream;
      }
      token := false;
      if pending != [] {
        reader := Have;
      }
      return Blocked;
    }

    method TimeOut() returns (r: ReadResult)
      requires Valid() && reader == Waiting
      modifies this`reader
      ensures Valid() && reader == Idle && r == TimedOut
    {
      reader := Idle;
      return TimedOut;
    }

    /** Copies as much of the first buffer as there is room for; an empty one ends the stream. */
    method Copy(room: nat) returns (r: ReadResult)
      requires Valid() && reader == Have
      modifies this`reader, this`read, this`closed, this`finished
      ensures Valid()
      ensures pending[0] == [] ==>
                r == EndOfStream && closed && reader == Idle && finished && read == old(read) == written
      ensures pending[0] != [] ==> reader.Copied? && reader.n == if room < |pending[0]| then room else |pending[0]|
      ensures pending[0] != [] ==>
                r.Bytes? && r.data == pending[0][..reader.n] && read == old(read) + r.data && closed == old(closed)
    {
      var buf := pending[0];
      if buf == [] {
        assert (pending + inFlight)[0] == [];
        assert |pending| == 1 && inFlight == [] && pending[1..] == [];
        closed, reader, finished := true, Idle, true;
        return EndOfStream;
      }
      var n := if room < |buf| then room else |buf|;
      ReadWhole(read, buf, n, Flatten(pending[1..]), inFlight, written);
      read := read + buf[..n];
      reader := Copied(n);
      return Bytes(buf[..n]);
    }

    /** Drops what was copied, and the buffer with its last byte. */
    method Release()
      requires Valid() && reader.Copied?
      modifies this`reader, this`pending
      ensures Valid() && reader == Idle
    {
      var n, buf := reader.n, pending[0];
      Reduced(pending, inFlight, ended, n);
      pending := if n < |buf| then [buf[n..]] + pending[1..] else pending[1..];
      reader := Idle;
    }
  }

  // ---------- Runs ----------

  datatype Op =
    | Write(b: seq<Byte>, maxPayload: nat) | End | OnMsg
    | StartRead | Close | Wake | TimeOut | Copy(room: nat) | Release

  /** One event, if it can happen; returns the bytes that a read gives. */
  method Do(link: Link, op: Op) returns (data: seq<Byte>)
    requires link.Valid()
    modifies link
    ensures link.Valid() && link.read == old(link.read) + data
    ensures link.written == old(link.written) + if op.Write? && !old(link.ended) && op.maxPayload > 0 then op.b else []
  {
    data := [];
    match op
    case Write(b, maxPayload) => if !link.ended && maxPayload > 0 { link.Write(b, maxPayload); }
    case End => if !link.ended { link.End(); }
    case OnMsg => if link.inFlight != [] && !link.closed { link.OnMsg(); }
    case StartRead => if link.reader == Idle { var r := link.StartRead(); }
    case Close => link.Close();
    case Wake => if link.reader == Waiting && (link.token || link.closed) { var r := link.Wake(); }
    case TimeOut => if link.reader == Waiting { var r := link.TimeOut(); }
    case Copy(room) =>
      if link.reader == Have {
        var r := link.Copy(room);
        data := if r.Bytes? then r.data else [];
      }
    case Release => if link.reader.Copied? { link.Release(); }
  }

  /**
   Over every run, the bytes that the reads returned are a prefix of those written, all of them once everything has
   arrived and was read, or once a read came to the end of the stream; and a reader that is blocked while a buffer is
   queued has its token.
   */
  method Run(ops: seq<Op>) returns (link: Link, data: seq<Byte>)
    ensures data <= link.written
    ensures link.pending == [] && link.inFlight == [] ==> data == link.written
    ensures link.finished ==> data == link.written
    ensures link.reader == Waiting && link.pending != [] ==> link.token
  {
    link := new Link();
    data := [];
    for i := 0 to |ops|
      invariant fresh(link) && link.Valid() && data == link.read
    {
      var more := Do(link, ops[i]);
      data := data + more;
    }
    ghost var rest := Queued(link.pending, link.reader) + Flatten(link.inFlight);
    assert link.written == data + rest;
  }
}
