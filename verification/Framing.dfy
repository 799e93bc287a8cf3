/**
 The framing of records in the store's files, and what reading a truncated or zero-filled file gives
 (stores/filestore.go).
 */
module Framing {
  import opened Basics

  type UInt32 = x: nat | x < 0x1_0000_0000

  /** Little-endian encoding of 32 bits. */
  function PutUint32(n: UInt32): (b: seq<Byte>)
    ensures |b| == 4
  {
    [n % 256, n / 256 % 256, n / 65536 % 256, n / 16777216]
  }

  function Uint32(b: seq<Byte>): UInt32
    requires |b| == 4
  {
    var b0: int, b1: int, b2: int, b3: int := b[0], b[1], b[2], b[3];
    b0 + 256 * b1 + 65536 * b2 + 16777216 * b3
  }

  lemma Uint32RoundTrip(n: UInt32)
    ensures Uint32(PutUint32(n)) == n
  {
    var a, b, c := n / 256, n / 65536, n / 16777216;
    assert n == 256 * a + n % 256;
    assert a == 256 * b + a % 256;
    assert b == 256 * c + b % 256;
  }

  const HEADER := 8
  const MAX_TYPED := 0xFFFFFF

  /** A record: `typ` is 0 in a file of untyped records. */
  datatype Rec = Rec(typ: nat, payload: seq<Byte>)

  /** A record as the stores write them: with a type, or with a payload. */
  predicate Writable(typed: bool, r: Rec) {
    if typed then 0 < r.typ < 256 && |r.payload| <= MAX_TYPED
    else r.typ == 0 && 0 < |r.payload| < 0x1_0000_0000
  }

  /** What a header has room for; the writer asks no more. */
  predicate Fits(typed: bool, r: Rec) {
    if typed then r.typ < 256 && |r.payload| <= MAX_TYPED else r.typ == 0 && |r.payload| < 0x1_0000_0000
  }

  function Framed(crc: seq<Byte> -> UInt32, typed: bool, r: Rec): (b: seq<Byte>)
    requires Fits(typed, r)
    ensures |b| == HEADER + |r.payload|
  {
    PutUint32(r.typ * 16777216 + |r.payload|) + PutUint32(crc(r.payload)) + r.payload
  }

  function Written(crc: seq<Byte> -> UInt32, typed: bool, r: Rec): (b: seq<Byte>)
    requires Writable(typed, r)
    ensures |b| == HEADER + |r.payload|
  {
    Framed(crc, typed, r)
  }

  datatype Outcome = Got(rec: Rec, size: nat) | EndOfFile | UnexpectedEnd | NeedRewind | Corrupted

  /** Reads one record from the start of `b`. */
  function ReadRecord(crc: seq<Byte> -> UInt32, typed: bool, check: bool, b: seq<Byte>): (r: Outcome)
    ensures r.Got? ==> HEADER <= r.size <= |b|
  {
    if b == [] then EndOfFile
    else if |b| < HEADER then UnexpectedEnd
    else
      var first, stored := Uint32(b[..4]), Uint32(b[4..8]);
      var typ := if typed then first / 16777216 else 0;
      var size := if typed then first % 16777216 else first;
      if size == 0 && typ == 0 && stored == 0 then NeedRewind
      else if size > 0 && |b| == HEADER then EndOfFile
      else if |b| < HEADER + size then UnexpectedEnd
      else if check && crc(b[HEADER..HEADER + size]) != stored then Corrupted
      else Got(Rec(typ, b[HEADER..HEADER + size]), HEADER + size)
  }

  /** What was read, up to which offset, and why reading stopped. */
  datatype Recovery = Recovery(recs: seq<Rec>, offset: nat, stop: Outcome)

  /** A way to read one record takes some bytes of those that there are. */
  ghost predicate Sound(read: seq<Byte> -> Outcome) {
    forall b :: read(b).Got? ==> 0 < read(b).size <= |b|
  }

  ghost function ReadAll(read: seq<Byte> -> Outcome, b: seq<Byte>): Recovery
    requires Sound(read)
    decreases |b|
  {
    match read(b)
    case Got(r, n) =>
      var rest := ReadAll(read, b[n..]);
      Recovery([r] + rest.recs, n + rest.offset, rest.stop)
    case o => Recovery([], 0, o)
  }

  /** The rest of a recovery that has come to `offset`. */
  ghost function ReadOn(read: seq<Byte> -> Outcome, b: seq<Byte>, offset: nat, recs: seq<Rec>): Recovery
    requires Sound(read) && offset <= |b|
    decreases |b| - offset
  {
    var o := read(b[offset..]);
    if o.Got? then ReadOn(read, b, offset + o.size, recs + [o.rec]) else Recovery(recs, offset, o)
  }

  lemma {:induction false} ReadOnIs(read: seq<Byte> -> Outcome, b: seq<Byte>, offset: nat, recs: seq<Rec>)
    requires Sound(read) && offset <= |b|
    ensures var t := ReadAll(read, b[offset..]);
            ReadOn(read, b, offset, recs) == Recovery(recs + t.recs, offset + t.offset, t.stop)
    decreases |b| - offset
  {
    var o := read(b[offset..]);
    if o.Got? {
      Suffix(b, offset, o.size);
      ReadOnIs(read, b, offset + o.size, recs + [o.rec]);
      Shifted(recs, o.rec, ReadAll(read, b[offset + o.size..]).recs);
    } else {
      assert recs + [] == recs;
    }
  }

  /** The loop of a recovery. */
  method Recover(read: seq<Byte> -> Outcome, b: seq<Byte>) returns (r: Recovery)
    requires Sound(read)
    ensures r == ReadAll(read, b)
  {
    var recs, offset := [], 0;
    ghost var whole := ReadOn(read, b, 0, []);
    while true
      invariant offset <= |b| && whole == ReadOn(read, b, offset, recs)
      decreases |b| - offset
    {
      var o := read(b[offset..]);
      if !o.Got? {
        r := Recovery(recs, offset, o);
        break;
      }
      recs, offset := recs + [o.rec], offset + o.size;
    }
    ReadOnIs(read, b, 0, []);
    assert b[0..] == b && [] + ReadAll(read, b).recs == ReadAll(read, b).recs;
  }

  lemma Suffix(b: seq<Byte>, i: nat, n: nat)
    requires i + n <= |b|
    ensures b[i..][n..] == b[i + n..]
  {
  }

  lemma Shifted(a: seq<Rec>, r: Rec, b: seq<Rec>)
    ensures a + ([r] + b) == a + [r] + b
  {
  }

  /** Reading records of one kind, with or without a check of their checksum. */
  function Reading(crc: seq<Byte> -> UInt32, typed: bool, check: bool): seq<Byte> -> Outcome {
    b => ReadRecord(crc, typed, check, b)
  }

  // ---------- What is written can be read ----------

  lemma Header(crc: seq<Byte> -> UInt32, typed: bool, r: Rec, k: nat)
    requires Fits(typed, r) && HEADER <= k <= |Framed(crc, typed, r)|
    ensures var b := Framed(crc, typed, r)[..k];
            Uint32(b[..4]) == r.typ * 16777216 + |r.payload| && Uint32(b[4..8]) == crc(r.payload)
              && b[HEADER..] == r.payload[..k - HEADER]
  {
    var b := Framed(crc, typed, r)[..k];
    Uint32RoundTrip(r.typ * 16777216 + |r.payload|);
    Uint32RoundTrip(crc(r.payload));
    Pieces(PutUint32(r.typ * 16777216 + |r.payload|), PutUint32(crc(r.payload)), r.payload, k);
  }

  lemma Pieces(p: seq<Byte>, q: seq<Byte>, r: seq<Byte>, k: nat)
    requires |p| == 4 && |q| == 4 && 8 <= k <= 8 + |r|
    ensures var b := (p + q + r)[..k]; b[..4] == p && b[4..8] == q && b[8..] == r[..k - 8]
  {
    var b := (p + q + r)[..k];
    assert forall i :: 0 <= i < 4 ==> b[4..8][i] == q[i];
  }

  lemma TypeAndSize(typ: nat, size: nat)
    requires size < 16777216
    ensures (typ * 16777216 + size) / 16777216 == typ && (typ * 16777216 + size) % 16777216 == size
  {
  }

  /**
   A record that was written is read back, whatever follows it; except for one without type and payload whose checksum
   is zero, which asks for a rewind.
   */
  lemma RecordRoundTrip(crc: seq<Byte> -> UInt32, typed: bool, check: bool, r: Rec, tail: seq<Byte>)
    requires Fits(typed, r)
    ensures ReadRecord(crc, typed, check, Framed(crc, typed, r) + tail) ==
            if r.typ == 0 && r.payload == [] && crc(r.payload) == 0 then NeedRewind else Got(r, HEADER + |r.payload|)
  {
    var w := Framed(crc, typed, r);
    var b := w + tail;
    Header(crc, typed, r, |w|);
    assert w[..|w|] == w;
    assert b[..4] == w[..4] && b[4..8] == w[4..8] && b[HEADER..|w|] == w[HEADER..];
    if typed {
      TypeAndSize(r.typ, |r.payload|);
    }
  }

  /**
   A record that is cut off is not read. A cut right after its header looks like the end of the file, any other cut does
   not.
   */
  lemma CutRecord(crc: seq<Byte> -> UInt32, typed: bool, check: bool, r: Rec, k: nat)
    requires Writable(typed, r) && k < |Written(crc, typed, r)|
    ensures ReadRecord(crc, typed, check, Written(crc, typed, r)[..k]) == if k == 0 || k == HEADER then EndOfFile
            else UnexpectedEnd
  {
    if k >= HEADER {
      Header(crc, typed, r, k);
      if typed {
        TypeAndSize(r.typ, |r.payload|);
      }
    }
  }

  // ---------- Files ----------

  function File(crc: seq<Byte> -> UInt32, typed: bool, rs: seq<Rec>): seq<Byte>
    requires forall i :: 0 <= i < |rs| ==> Writable(typed, rs[i])
  {
    if rs == [] then [] else Written(crc, typed, rs[0]) + File(crc, typed, rs[1..])
  }

  /** Records are read back whatever follows them, and not at all if they are cut off. */
  ghost predicate ReadsBack(read: seq<Byte> -> Outcome, crc: seq<Byte> -> UInt32, typed: bool) {
    && Sound(read)
    && (forall r, tail {:trigger read(Written(crc, typed, r) + tail)} :: Writable(typed, r) ==>
        read(Written(crc, typed, r) + tail) == Got(r, |Written(crc, typed, r)|))
    && (forall r, k {:trigger read(Written(crc, typed, r)[..k])} :: Writable(typed, r) && 0 <= k < |Written(crc, typed,
        r)| ==>
          read(Written(crc, typed, r)[..k]) == if k == 0 || k == HEADER then EndOfFile else UnexpectedEnd)
  }

  lemma ReadingReadsBack(crc: seq<Byte> -> UInt32, typed: bool, check: bool)
    ensures ReadsBack(Reading(crc, typed, check), crc, typed)
  {
    forall r, tail | Writable(typed, r)
      ensures Reading(crc, typed, check)(Written(crc, typed, r) + tail) == Got(r, |Written(crc, typed, r)|)
    {
      RecordRoundTrip(crc, typed, check, r, tail);
    }
    forall r, k | Writable(typed, r) && 0 <= k < |Written(crc, typed, r)|
      ensures Reading(crc, typed, check)(Written(crc, typed, r)[..k]) == if k == 0 || k == HEADER then EndOfFile
              else UnexpectedEnd
    {
      CutRecord(crc, typed, check, r, k);
    }
  }

  /** A file followed by anything: its records come first, and reading goes on after them. */
  lemma {:induction false} FileThen(read: seq<Byte> -> Outcome, crc: seq<Byte> -> UInt32, typed: bool, rs: seq<Rec>,
                                    tail: seq<Byte>)
    requires ReadsBack(read, crc, typed) && forall i :: 0 <= i < |rs| ==> Writable(typed, rs[i])
    ensures var t := ReadAll(read, tail);
            ReadAll(read, File(crc, typed, rs) + tail) == Recovery(rs + t.recs, |File(crc, typed, rs)| + t.offset,
                                                                   t.stop)
    decreases |rs|
  {
    if rs == [] {
      assert File(crc, typed, rs) + tail == tail;
    } else {
      var w, rest := Written(crc, typed, rs[0]), File(crc, typed, rs[1..]);
      FileThen(read, crc, typed, rs[1..], tail);
      Associative(w, rest, tail);
      ReadFirst(read, crc, typed, rs[0], rest + tail);
      FirstAndRest(rs, ReadAll(read, tail).recs);
    }
  }

  lemma ReadFirst(read: seq<Byte> -> Outcome, crc: seq<Byte> -> UInt32, typed: bool, r: Rec, tail: seq<Byte>)
    requires ReadsBack(read, crc, typed) && Writable(typed, r)
    ensures var t, w := ReadAll(read, tail), Written(crc, typed, r);
            ReadAll(read, w + tail) == Recovery([r] + t.recs, |w| + t.offset, t.stop)
  {
    Behind(Written(crc, typed, r), tail);
  }

  lemma Behind(w: seq<Byte>, rest: seq<Byte>)
    ensures (w + rest)[|w|..] == rest
  {
  }

  lemma FirstAndRest(rs: seq<Rec>, more: seq<Rec>)
    requires rs != []
    ensures [rs[0]] + (rs[1..] + more) == rs + more
  {
  }

  lemma Taken(w: seq<Byte>, rest: seq<Byte>, n: nat)
    requires |w| <= n <= |w + rest|
    ensures (w + rest)[..n] == w + rest[..n - |w|]
  {
  }

  /** How many records the first `n` bytes of a file hold in full. */
  function Complete(crc: seq<Byte> -> UInt32, typed: bool, rs: seq<Rec>, n: nat): (m: nat)
    requires forall i :: 0 <= i < |rs| ==> Writable(typed, rs[i])
    ensures m <= |rs|
  {
    if rs == [] || n < |Written(crc, typed, rs[0])| then 0
    else 1 + Complete(crc, typed, rs[1..], n - |Written(crc, typed, rs[0])|)
  }

  /** The part of record `m` that a prefix has beyond the `at` bytes of the records before. */
  function Cut(crc: seq<Byte> -> UInt32, typed: bool, rs: seq<Rec>, m: nat, k: nat): seq<Byte>
    requires (forall i :: 0 <= i < |rs| ==> Writable(typed, rs[i])) && (m < |rs| ==> k <= |Written(crc, typed, rs[m])|)
  {
    if m < |rs| then Written(crc, typed, rs[m])[..k] else []
  }

  ghost predicate Decomposed(crc: seq<Byte> -> UInt32, typed: bool, rs: seq<Rec>, n: nat, m: nat)
    requires (forall i :: 0 <= i < |rs| ==> Writable(typed, rs[i])) && n <= |File(crc, typed, rs)| && m <= |rs|
  {
    var at := |File(crc, typed, rs[..m])|;
    && at <= n && (m == |rs| ==> n == at) && (m < |rs| ==> n < at + |Written(crc, typed, rs[m])|)
    && File(crc, typed, rs)[..n] == File(crc, typed, rs[..m]) + Cut(crc, typed, rs, m, n - at)
  }

  lemma DecomposedMore(crc: seq<Byte> -> UInt32, typed: bool, rs: seq<Rec>, n: nat, m: nat)
    requires (forall i :: 0 <= i < |rs| ==> Writable(typed, rs[i])) && rs != []
             && |Written(crc, typed, rs[0])| <= n <= |File(crc, typed, rs)| && m < |rs|
    requires Decomposed(crc, typed, rs[1..], n - |Written(crc, typed, rs[0])|, m)
    ensures Decomposed(crc, typed, rs, n, m + 1)
  {
    var w, rest := Written(crc, typed, rs[0]), File(crc, typed, rs[1..]);
    var before := File(crc, typed, rs[1..][..m]);
    Taken(w, rest, n);
    FirstOf(crc, typed, rs, m);
    Associative(w, before, Cut(crc, typed, rs[1..], m, n - |w| - |before|));
  }

  /** A prefix is the complete records and a part of the next one. */
  lemma {:induction false} Decompose(crc: seq<Byte> -> UInt32, typed: bool, rs: seq<Rec>, n: nat) returns (m: nat)
    requires (forall i :: 0 <= i < |rs| ==> Writable(typed, rs[i])) && n <= |File(crc, typed, rs)|
    ensures m == Complete(crc, typed, rs, n) && Decomposed(crc, typed, rs, n, m)
    decreases |rs|
  {
    if rs == [] {
      m := 0;
    } else if n < |Written(crc, typed, rs[0])| {
      DecomposedFirst(crc, typed, rs, n);
      m := 0;
    } else {
      var k := n - |Written(crc, typed, rs[0])|;
      var before := Decompose(crc, typed, rs[1..], k);
      DecomposedMore(crc, typed, rs, n, before);
      m := before + 1;
    }
  }

  lemma DecomposedFirst(crc: seq<Byte> -> UInt32, typed: bool, rs: seq<Rec>, n: nat)
    requires (forall i :: 0 <= i < |rs| ==> Writable(typed, rs[i])) && rs != [] && n < |Written(crc, typed, rs[0])|
    ensures n <= |File(crc, typed, rs)| && Decomposed(crc, typed, rs, n, 0)
  {
    var w, rest := Written(crc, typed, rs[0]), File(crc, typed, rs[1..]);
    assert (w + rest)[..n] == w[..n];
    assert rs[..0] == [] && [] + w[..n] == w[..n];
  }

  lemma FirstOf(crc: seq<Byte> -> UInt32, typed: bool, rs: seq<Rec>, m: nat)
    requires (forall i :: 0 <= i < |rs| ==> Writable(typed, rs[i])) && m < |rs|
    ensures File(crc, typed, rs[..m + 1]) == Written(crc, typed, rs[0]) + File(crc, typed, rs[1..][..m])
  {
    assert rs[..m + 1][1..] == rs[1..][..m];
  }

  /** Nothing is read from a part of a record. */
  lemma CutRead(read: seq<Byte> -> Outcome, crc: seq<Byte> -> UInt32, typed: bool, rs: seq<Rec>, m: nat, k: nat)
    requires ReadsBack(read, crc, typed) && (forall i :: 0 <= i < |rs| ==> Writable(typed, rs[i])) && m <= |rs|
    requires if m < |rs| then k < |Written(crc, typed, rs[m])| else k == 0 && read([]) == EndOfFile
    ensures ReadAll(read, Cut(crc, typed, rs, m, k)) == Recovery([], 0, if k == 0 || k == HEADER then EndOfFile
                                                                 else UnexpectedEnd)
  {
  }

  lemma PrefixOf(read: seq<Byte> -> Outcome, crc: seq<Byte> -> UInt32, typed: bool, rs: seq<Rec>, n: nat)
    requires ReadsBack(read, crc, typed) && read([]) == EndOfFile
    requires (forall i :: 0 <= i < |rs| ==> Writable(typed, rs[i])) && n <= |File(crc, typed, rs)|
    ensures var m := Complete(crc, typed, rs, n);
            var at := |File(crc, typed, rs[..m])|;
            at <= n && ReadAll(read, File(crc, typed, rs)[..n]) == Recovery(rs[..m], at,
                if n == at || n == at + HEADER then EndOfFile else UnexpectedEnd)
  {
    var m := Decompose(crc, typed, rs, n);
    DecomposedRead(read, crc, typed, rs, n, m);
  }

  lemma DecomposedRead(read: seq<Byte> -> Outcome, crc: seq<Byte> -> UInt32, typed: bool, rs: seq<Rec>, n: nat, m: nat)
    requires ReadsBack(read, crc, typed) && read([]) == EndOfFile
    requires (forall i :: 0 <= i < |rs| ==> Writable(typed, rs[i])) && n <= |File(crc, typed, rs)| && m <= |rs|
    requires Decomposed(crc, typed, rs, n, m)
    ensures var at := |File(crc, typed, rs[..m])|;
            ReadAll(read, File(crc, typed, rs)[..n]) ==
            Recovery(rs[..m], at, if n == at || n == at + HEADER then EndOfFile else UnexpectedEnd)
  {
    var k := n - |File(crc, typed, rs[..m])|;
    CutRead(read, crc, typed, rs, m, k);
    StopsBehind(read, crc, typed, rs[..m], Cut(crc, typed, rs, m, k));
  }

  /** A file followed by something from which nothing is read. */
  lemma StopsBehind(read: seq<Byte> -> Outcome, crc: seq<Byte> -> UInt32, typed: bool, rs: seq<Rec>, tail: seq<Byte>)
    requires ReadsBack(read, crc, typed) && forall i :: 0 <= i < |rs| ==> Writable(typed, rs[i])
    requires ReadAll(read, tail).recs == [] && ReadAll(read, tail).offset == 0
    ensures ReadAll(read, File(crc, typed, rs) + tail) ==
            Recovery(rs, |File(crc, typed, rs)|, ReadAll(read, tail).stop)
  {
    FileThen(read, crc, typed, rs, tail);
    assert rs + [] == rs;
  }

  /**
   Any prefix of a file gives exactly the records that are complete in it, in order. Reading ends as at the end of a
   file exactly if the prefix ends with a record, or right after the header of one.
   */
  lemma PrefixRead(crc: seq<Byte> -> UInt32, typed: bool, check: bool, rs: seq<Rec>, n: nat)
    requires (forall i :: 0 <= i < |rs| ==> Writable(typed, rs[i])) && n <= |File(crc, typed, rs)|
    ensures var m := Complete(crc, typed, rs, n);
            var at := |File(crc, typed, rs[..m])|;
            && Sound(Reading(crc, typed, check)) && at <= n
            && ReadAll(Reading(crc, typed, check), File(crc, typed, rs)[..n]) ==
               Recovery(rs[..m], at, if n == at || n == at + HEADER then EndOfFile else UnexpectedEnd)
  {
    ReadingReadsBack(crc, typed, check);
    PrefixOf(Reading(crc, typed, check), crc, typed, rs, n);
  }

  function Zeros(n: nat): (b: seq<Byte>)
    ensures |b| == n && forall i :: 0 <= i < n ==> b[i] == 0
  {
    seq(n, i => 0)
  }

  lemma ZerosRead(crc: seq<Byte> -> UInt32, typed: bool, check: bool, n: nat)
    requires n >= HEADER
    ensures ReadRecord(crc, typed, check, Zeros(n)) == NeedRewind
  {
    assert Zeros(n)[..4] == [0, 0, 0, 0] && Zeros(n)[4..8] == [0, 0, 0, 0];
  }

  /**
   A file followed by at least a header's worth of zeros: reading stops where the records end, with a request to rewind.
   */
  lemma ZeroTail(crc: seq<Byte> -> UInt32, typed: bool, check: bool, rs: seq<Rec>, n: nat)
    requires (forall i :: 0 <= i < |rs| ==> Writable(typed, rs[i])) && n >= HEADER
    ensures Sound(Reading(crc, typed, check))
    ensures ReadAll(Reading(crc, typed, check), File(crc, typed, rs) + Zeros(n)) ==
            Recovery(rs, |File(crc, typed, rs)|, NeedRewind)
  {
    ReadingReadsBack(crc, typed, check);
    ZerosRead(crc, typed, check, n);
    FileThen(Reading(crc, typed, check), crc, typed, rs, Zeros(n));
    assert rs + [] == rs;
  }
}
