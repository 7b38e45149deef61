/**
 Directory listing: linux_dirent64 records and the resume cursor of getdents64.
 */
module Dirents {
  import opened Bytes

  /** A directory entry; `kind` is its d_type byte and its name holds no zero byte. */
  datatype Entry = Entry(ino: nat, name: seq<byte>, kind: byte)

  const HEADER: nat := 19

  // ---------------------------------------------------------------- little-endian fields

  function Pow(n: nat): (p: nat) ensures p >= 1 { if n == 0 then 1 else 256 * Pow(n - 1) }

  function Le(v: nat, n: nat): (b: seq<byte>)
    ensures |b| == n
  {
    if n == 0 then [] else [(v % 256) as byte] + Le(v / 256, n - 1)
  }

  function UnLe(b: seq<byte>): nat { if b == [] then 0 else b[0] as nat + 256 * UnLe(b[1..]) }

  lemma {:induction false} LeBack(v: nat, n: nat)
    requires v < Pow(n)
    ensures UnLe(Le(v, n)) == v
  {
    if n > 0 {
      LeBack(v / 256, n - 1);
      assert Le(v, n)[1..] == Le(v / 256, n - 1);
    }
  }

  /** The lowest byte comes first. */
  lemma {:induction false} LeByte(v: nat, n: nat, i: nat)
    requires i < n
    ensures Le(v, n)[i] as nat == ByteOf(v, i)
  {
    if i > 0 {
      LeByte(v / 256, n - 1, i - 1);
    }
  }

  // ---------------------------------------------------------------- records

  /** The length of a record: header, name, terminator, up to a multiple of eight. */
  function RecLen(e: Entry): (n: nat)
    ensures HEADER + |e.name| < n
  {
    (HEADER + |e.name| + 1 + 7) / 8 * 8
  }

  /** It is the least multiple of eight that holds them. */
  lemma RecLenLeast(e: Entry, n: nat)
    ensures RecLen(e) % 8 == 0
    ensures n % 8 == 0 && HEADER + |e.name| < n ==> RecLen(e) <= n
  {
  }

  /** Names short enough for the 16-bit length field, numbers that fit theirs. */
  predicate Fits(e: Entry) { RecLen(e) < 0x1_0000 && e.ino < Pow(8) && 0 !in e.name }

  function Record(e: Entry, next: nat): (r: seq<byte>)
    ensures |r| == RecLen(e)
  {
    Le(e.ino, 8) + Le(next, 8) + Le(RecLen(e) % 0x1_0000, 2) + [e.kind] + e.name + Zeros(RecLen(e) - HEADER - |e.name|)
  }

  /** The format of a record: inode number, position of the next one, length, type, name and zeros, in this order. */
  lemma RecordBytes(e: Entry, next: nat, i: nat)
    requires Fits(e)
    ensures var r := Record(e, next);
            && (i < 8 ==> r[i] as nat == ByteOf(e.ino, i) && r[8 + i] as nat == ByteOf(next, i))
            && (i < 2 ==> r[16 + i] as nat == ByteOf(RecLen(e), i)) && r[18] == e.kind
            && (i < |e.name| ==> r[19 + i] == e.name[i])
            && (19 + |e.name| <= i < |r| ==> r[i] == 0)
  {
    hide RecLen, Le;
    if i < 8 {
      LeByte(e.ino, 8, i);
      LeByte(next, 8, i);
    }
    if i < 2 {
      LeByte(RecLen(e), 2, i);
    }
  }

  /** The records of entries `from` to `end`, each naming the position after it. */
  function Records(es: seq<Entry>, from: nat, end: nat): seq<byte>
    requires from <= end <= |es|
  {
    if from == end then [] else Records(es, from, end - 1) + Record(es[end - 1], end)
  }

  lemma {:induction false} RecordsSplit(es: seq<Entry>, from: nat, mid: nat, end: nat)
    requires from <= mid <= end <= |es|
    ensures Records(es, from, end) == Records(es, from, mid) + Records(es, mid, end)
  {
    if mid < end {
      RecordsSplit(es, from, mid, end - 1);
    }
  }

  /** Every record of a listing starts at a multiple of eight. */
  lemma {:induction false} RecordsAligned(es: seq<Entry>, from: nat, end: nat)
    requires from <= end <= |es|
    ensures |Records(es, from, end)| % 8 == 0
  {
    hide RecLen, Record;
    if from < end {
      RecordsAligned(es, from, end - 1);
      RecLenLeast(es[end - 1], 0);
      SumAligned(|Records(es, from, end - 1)|, RecLen(es[end - 1]));
    }
  }

  lemma SumAligned(a: nat, b: nat)
    requires a % 8 == 0 && b % 8 == 0
    ensures (a + b) % 8 == 0
  {
  }

  /** How far a buffer of `room` bytes reaches. */
  function Reach(es: seq<Entry>, from: nat, room: nat): (end: nat)
    requires from <= |es|
    ensures from <= end <= |es|
    decreases |es| - from
  {
    if from == |es| || RecLen(es[from]) > room then from else Reach(es, from + 1, room - RecLen(es[from]))
  }

  // ---------------------------------------------------------------- reading records

  datatype Head = Head(ino: nat, next: nat, len: nat, kind: byte)

  function HeadOf(b: seq<byte>): Head
    requires |b| >= HEADER
  {
    Head(UnLe(b[..8]), UnLe(b[8..16]), UnLe(b[16..18]), b[18])
  }

  function UpToZero(b: seq<byte>): seq<byte> {
    if b == [] || b[0] == 0 then [] else [b[0]] + UpToZero(b[1..])
  }

  lemma {:induction false} UpToZeroIs(s: seq<byte>, k: nat)
    requires 0 !in s && k > 0
    ensures UpToZero(s + Zeros(k)) == s
  {
    if s != [] {
      UpToZeroIs(s[1..], k);
      assert (s + Zeros(k))[1..] == s[1..] + Zeros(k);
    }
  }

  /** A record at the front of a buffer reads back. */
  lemma RecordBack(e: Entry, next: nat, rest: seq<byte>)
    requires Fits(e) && next < Pow(8)
    ensures var b := Record(e, next) + rest;
            && |b| >= HEADER && HeadOf(b) == Head(e.ino, next, RecLen(e), e.kind)
            && UpToZero(b[HEADER..RecLen(e)]) == e.name
  {
    hide Le, UnLe, Pow, RecLen, Record;
    TwoBytes();
    LeBack(e.ino, 8);
    LeBack(next, 8);
    LeBack(RecLen(e), 2);
    var pad := RecLen(e) - HEADER - |e.name|;
    var a, b, c, body := Le(e.ino, 8), Le(next, 8), Le(RecLen(e), 2), e.name + Zeros(pad);
    RecordIs(e, next);
    Slices(a, b, c, e.kind, body, rest);
    UpToZeroIs(e.name, pad);
  }

  lemma TwoBytes()
    ensures Pow(2) == 0x1_0000
  {
    assert Pow(1) == 256;
  }

  lemma RecordIs(e: Entry, next: nat)
    requires RecLen(e) < 0x1_0000
    ensures Record(e, next) == Le(e.ino, 8) + Le(next, 8) + Le(RecLen(e), 2) + [e.kind] + (e.name + Zeros(RecLen(e) - HEADER - |e.name|))
  {
    hide Le, RecLen;
  }

  lemma Slices(a: seq<byte>, b: seq<byte>, c: seq<byte>, k: byte, body: seq<byte>, rest: seq<byte>)
    requires |a| == 8 && |b| == 8 && |c| == 2
    ensures var s := a + b + c + [k] + body + rest;
            s[..8] == a && s[8..16] == b && s[16..18] == c && s[18] == k && s[19..19 + |body|] == body
  {
  }

  // ---------------------------------------------------------------- the encoder

  /** Store bytes in a buffer. */
  method Put(buf: array<byte>, at: nat, data: seq<byte>)
    requires at + |data| <= buf.Length
    modifies buf
    ensures buf[..at + |data|] == old(buf[..at]) + data && buf[at + |data|..] == old(buf[at + |data|..])
  {
    for i := 0 to |data|
      invariant buf[..at + i] == old(buf[..at]) + data[..i]
      invariant forall j | at + i <= j < buf.Length :: buf[j] == old(buf[j])
    {
      buf[at + i] := data[i];
      assert buf[..at + i + 1] == buf[..at + i] + [data[i]];
    }
  }

  /** Encode as many whole records as fit. */
  method EncodeRecords(es: seq<Entry>, offset: nat, buf: array<byte>) returns (written: nat)
    modifies buf
    ensures written <= buf.Length && buf[written..] == old(buf[written..])
    ensures offset <= |es| ==> buf[..written] == Records(es, offset, Reach(es, offset, buf.Length))
    ensures offset > |es| ==> written == 0
  {
    hide Record, RecLen;
    written := 0;
    if offset > |es| {
      return;
    }
    var i := offset;
    assert buf[..0] == [];
    while i < |es|
      invariant offset <= i <= |es| && written <= buf.Length && buf[written..] == old(buf[written..])
      invariant buf[..written] == Records(es, offset, i)
      invariant Reach(es, i, buf.Length - written) == Reach(es, offset, buf.Length)
    {
      var e := es[i];
      if written + RecLen(e) > buf.Length {
        break;
      }
      ghost var tail := buf[written..];
      Put(buf, written, Record(e, i + 1));
      assert old(buf[written + RecLen(e)..]) == old(buf[written..])[RecLen(e)..];
      written := written + RecLen(e);
      i := i + 1;
    }
  }

  // ---------------------------------------------------------------- listing

  predicate AllFit(es: seq<Entry>) { (forall i | 0 <= i < |es| :: Fits(es[i])) && |es| < 0x8000_0000_0000_0000 }

  /** What a reader of the records sees. */
  function ReadAll(b: seq<byte>): seq<Entry>
    decreases |b|
  {
    if |b| < HEADER then []
    else
      var h := HeadOf(b);
      if h.len < HEADER || h.len > |b| then []
      else [Entry(h.ino, UpToZero(b[HEADER..h.len]), h.kind)] + ReadAll(b[h.len..])
  }

  lemma EightBytes(n: nat)
    requires n <= 0x8000_0000_0000_0000
    ensures n < Pow(8)
  {
    assert Pow(1) == 256 && Pow(2) == 65536 && Pow(4) == 0x1_0000_0000;
    assert Pow(6) == 0x1_0000_0000_0000;
  }

  /** The first of several records. */
  lemma FirstRecord(es: seq<Entry>, i: nat, end: nat)
    requires AllFit(es) && i < end <= |es|
    ensures var b := Records(es, i, end);
            && |b| >= RecLen(es[i]) && HeadOf(b) == Head(es[i].ino, i + 1, RecLen(es[i]), es[i].kind)
            && UpToZero(b[HEADER..RecLen(es[i])]) == es[i].name && b[RecLen(es[i])..] == Records(es, i + 1, end)
  {
    hide HeadOf, UpToZero, Record, RecLen;
    RecordsSplit(es, i, i + 1, end);
    assert Records(es, i, i + 1) == Record(es[i], i + 1) by {
      assert Records(es, i, i) == [];
    }
    EightBytes(i + 1);
    assert Fits(es[i]);
    RecordBack(es[i], i + 1, Records(es, i + 1, end));
  }

  /** Reading the records gives the entries back, in order. */
  lemma {:induction false} ReadBack(es: seq<Entry>, from: nat, end: nat)
    requires AllFit(es) && from <= end <= |es|
    ensures ReadAll(Records(es, from, end)) == es[from..end]
    decreases end - from
  {
    hide HeadOf, UpToZero, Record, RecLen, Records;
    if from == end {
      NoRecords(es, from);
    } else {
      FirstRecord(es, from, end);
      RecordLong(es[from]);
      ReadBack(es, from + 1, end);
      var b, e := Records(es, from, end), es[from];
      assert ReadAll(b) == [e] + ReadAll(b[RecLen(e)..]);
      assert es[from..end] == [e] + es[from + 1..end];
    }
  }

  lemma NoRecords(es: seq<Entry>, i: nat)
    requires i <= |es|
    ensures Records(es, i, i) == []
  {
  }

  lemma RecordLong(e: Entry)
    ensures RecLen(e) > HEADER
  {
  }

  /** A buffer that can hold the next record makes progress. */
  lemma ReachProgress(es: seq<Entry>, from: nat, room: nat)
    requires from < |es| && RecLen(es[from]) <= room
    ensures Reach(es, from, room) > from
  {
  }

  /** The position after a series of calls. */
  function Position(es: seq<Entry>, rooms: seq<nat>): (p: nat)
    ensures p <= |es|
  {
    if rooms == [] then 0 else Reach(es, Position(es, rooms[..|rooms| - 1]), rooms[|rooms| - 1])
  }

  /** Everything a series of calls returned. */
  function Returned(es: seq<Entry>, rooms: seq<nat>): seq<byte> {
    if rooms == [] then []
    else Returned(es, rooms[..|rooms| - 1]) + Records(es, Position(es, rooms[..|rooms| - 1]), Position(es, rooms))
  }

  /** A series of calls lists a prefix of the snapshot, each entry once and in order; with buffers that fit
      every record, as many calls as entries list them all. */
  lemma {:induction false} ListsOnce(es: seq<Entry>, rooms: seq<nat>)
    requires AllFit(es)
    ensures Returned(es, rooms) == Records(es, 0, Position(es, rooms))
    ensures ReadAll(Returned(es, rooms)) == es[..Position(es, rooms)]
    ensures (forall i, j | 0 <= i < |es| && 0 <= j < |rooms| :: RecLen(es[i]) <= rooms[j]) ==>
              Position(es, rooms) >= if |rooms| < |es| then |rooms| else |es|
  {
    hide ReadAll, Records, RecLen;
    if rooms == [] {
      NoRecords(es, 0);
    } else {
      var t := rooms[..|rooms| - 1];
      ListsOnce(es, t);
      var p := Position(es, t);
      RecordsSplit(es, 0, p, Position(es, rooms));
      if p < |es| && RecLen(es[p]) <= rooms[|rooms| - 1] {
        ReachProgress(es, p, rooms[|rooms| - 1]);
      }
      assert forall j | 0 <= j < |t| :: t[j] == rooms[j];
    }
    ReadBack(es, 0, Position(es, rooms));
  }

  // ---------------------------------------------------------------- the open directory

  datatype Snapshot = NotTaken | Taken(entries: seq<Entry>)

  /** Where an open directory stands. */
  datatype Cursor = Cursor(offset: nat, snapshot: Snapshot)

  /** The entries a call lists: a fresh snapshot at the start, the kept one after that. */
  function Listed(c: Cursor, dir: seq<Entry>): seq<Entry> {
    if c.offset == 0 || c.snapshot.NotTaken? then dir else c.snapshot.entries
  }

  /** How far a call gets with a buffer of `room` bytes. */
  function EndOf(c: Cursor, dir: seq<Entry>, room: nat): nat {
    if c.offset <= |Listed(c, dir)| then Reach(Listed(c, dir), c.offset, room) else c.offset
  }

  function NextCursor(c: Cursor, dir: seq<Entry>, room: nat): Cursor { Cursor(EndOf(c, dir, room), Taken(Listed(c, dir))) }

  function Output(c: Cursor, dir: seq<Entry>, room: nat): seq<byte> {
    if c.offset <= |Listed(c, dir)| then Records(Listed(c, dir), c.offset, EndOf(c, dir, room)) else []
  }

  /** One call: what the directory holds at that time, and the room in the buffer. */
  datatype Call = Call(dir: seq<Entry>, room: nat)

  function CursorAfter(calls: seq<Call>): Cursor {
    if calls == [] then Cursor(0, NotTaken)
    else
      var last := calls[|calls| - 1];
      NextCursor(CursorAfter(calls[..|calls| - 1]), last.dir, last.room)
  }

  function OutputOf(calls: seq<Call>): seq<byte> {
    if calls == [] then []
    else
      var last := calls[|calls| - 1];
      OutputOf(calls[..|calls| - 1]) + Output(CursorAfter(calls[..|calls| - 1]), last.dir, last.room)
  }

  /** The listing so far is the start of what the directory held at call `j`, which was made at the start. */
  ghost predicate ListsFrom(calls: seq<Call>, j: nat) {
    && j < |calls| && CursorAfter(calls[..j]).offset == 0
    && var c, dir := CursorAfter(calls), calls[j].dir;
       c.snapshot == Taken(dir) && c.offset <= |dir| && OutputOf(calls) == Records(dir, 0, c.offset)
  }

  /** However the directory changes between the calls, they list the entries it held at one moment: at the last
      call that was made before anything was listed. */
  lemma {:induction false} ListsOneMoment(calls: seq<Call>)
    ensures CursorAfter(calls).offset == 0 ==> OutputOf(calls) == []
    ensures calls != [] ==> exists j: nat :: ListsFrom(calls, j)
  {
    hide Reach, Records;
    if calls != [] {
      var t, last, m := calls[..|calls| - 1], calls[|calls| - 1], |calls| - 1;
      ListsOneMoment(t);
      var c := CursorAfter(t);
      if c.offset == 0 {
        NoRecords(last.dir, 0);
        assert ListsFrom(calls, m);
      } else {
        var j: nat :| ListsFrom(t, j);
        assert calls[..j] == t[..j] && calls[j] == t[j];
        var dir := calls[j].dir;
        RecordsSplit(dir, 0, c.offset, EndOf(c, last.dir, last.room));
        assert ListsFrom(calls, j);
      }
    }
  }

  /** A reader of all the buffers sees exactly those entries, in order and once each. */
  lemma ReadsOneMoment(calls: seq<Call>, j: nat)
    requires ListsFrom(calls, j) && AllFit(calls[j].dir)
    ensures ReadAll(OutputOf(calls)) == calls[j].dir[..CursorAfter(calls).offset]
  {
    hide ReadAll, Records;
    ReadBack(calls[j].dir, 0, CursorAfter(calls).offset);
  }

  class Directory {
    var offset: nat
    var snapshot: Snapshot

    constructor ()
      ensures offset == 0 && snapshot == NotTaken
    {
      offset, snapshot := 0, NotTaken;
    }

    function Cur(): Cursor
      reads this
    {
      Cursor(offset, snapshot)
    }

    /** List the next entries and move the position past them. */
    method Getdents64(dir: seq<Entry>, buf: array<byte>) returns (n: nat)
      requires AllFit(Listed(Cur(), dir))
      modifies this, buf
      ensures Cur() == NextCursor(old(Cur()), dir, buf.Length)
      ensures n <= buf.Length && buf[..n] == Output(old(Cur()), dir, buf.Length)
      ensures n == 0 <==> offset == old(offset)
    {
      hide Records, RecLen, Reach, HeadOf;
      var es := if offset == 0 || snapshot.NotTaken? then dir else snapshot.entries;
      snapshot := Taken(es);
      n := EncodeRecords(es, offset, buf);
      if offset <= |es| {
        RecordsSize(es, offset, Reach(es, offset, buf.Length));
      }
      if n == 0 {
        return;
      }
      ghost var end := Reach(es, offset, buf.Length);
      var nextOff, parsed := LastOffset(buf, n, offset, es, end);
      // the fallback to byte offsets is for files that do not write such records
      if parsed {
        offset := nextOff;
      } else {
        assert false;
      }
    }

    /** Walk the records just written to find where the last one points. */
    static method LastOffset(buf: array<byte>, n: nat, start: nat, ghost es: seq<Entry>, ghost end: nat) returns (nextOff: nat, parsed: bool)
      requires n <= buf.Length && AllFit(es) && start < end <= |es| && buf[..n] == Records(es, start, end)
      ensures parsed && nextOff == end
    {
      hide Records, RecLen, HeadOf;
      var cursor := 0;
      nextOff, parsed := start, false;
      assert buf[0..n] == buf[..n];
      while cursor + HEADER <= n
        invariant start <= nextOff <= end && cursor <= n && buf[cursor..n] == Records(es, nextOff, end)
        invariant parsed <==> nextOff > start
        decreases n - cursor
      {
        RecordsSize(es, nextOff, end);
        FirstRecord(es, nextOff, end);
        RecordLong(es[nextOff]);
        var h := HeadOf(buf[cursor..n]);
        if h.len == 0 || cursor + h.len > n {
          break;
        }
        if h.next < 0x8000_0000_0000_0000 {
          nextOff, parsed := h.next, true;
        }
        assert buf[cursor + h.len..n] == buf[cursor..n][h.len..];
        cursor := cursor + h.len;
      }
      RecordsSize(es, nextOff, end);
    }
  }

  /** Records take room exactly when there are some. */
  lemma {:induction false} RecordsSize(es: seq<Entry>, from: nat, end: nat)
    requires from <= end <= |es|
    ensures |Records(es, from, end)| == 0 <==> from == end
    ensures from < end ==> |Records(es, from, end)| > HEADER
  {
    hide Record;
    if from < end {
      RecordsSize(es, from, end - 1);
    }
  }
}
