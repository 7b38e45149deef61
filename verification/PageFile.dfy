/**
 The page cache as a file: what buffered reads and writes of one mapping mean for the file the cache
 stands for (`View`).
 */
module PageFile {
  import opened Basics
  import opened Bytes
  import opened PageCache
  import opened PageWriteback

  ghost predicate NoneInFlight(m: Mapping) {
    forall p | p in m.pages :: !m.pages[p].writeback
  }

  /** No write-back in flight, and the only writers at work are those ending at `pending`. */
  ghost predicate Calm(m: Mapping, pending: set<nat>) {
    Inv(m) && NoneInFlight(m) && LengthOk(m, pending)
  }

  ghost predicate Quiet(m: Mapping) {
    Calm(m, {})
  }

  // ---------------------------------------------------------------- writing

  /** Load a page and copy into it. */
  function PutChunk(m: Mapping, p: nat, off: nat, chunk: seq<byte>): (r: Mapping)
    requires off + |chunk| <= PAGE_SIZE
    ensures r.size == m.size && r.backing == m.backing
  {
    CopyIn(LoadPage(m, p), p, off, chunk)
  }

  /** A write, page by page. */
  function PutAll(m: Mapping, off: nat, buf: seq<byte>): Mapping
    decreases |buf|
  {
    if buf == [] then m
    else
      var n := FirstChunk(off, |buf|);
      PutAll(PutChunk(m, PageOf(off), off % PAGE_SIZE, buf[..n]), off + n, buf[n..])
  }

  function WriteSpec(m: Mapping, off: nat, buf: seq<byte>): Mapping {
    if buf == [] then m else PutAll(m.(size := Max(m.size, off + |buf|)), off, buf)
  }

  /** The source skips the load when the page starts at or past the old size, or is overwritten
      whole; loading first would give the same page. */
  lemma SkippedLoad(m: Mapping, p: nat, off: nat, chunk: seq<byte>)
    requires Inv(m) && off + |chunk| <= PAGE_SIZE && !PageOrFresh(m, p).uptodate
    requires |m.backing| <= PageStart(p) || |chunk| == PAGE_SIZE
    ensures CopyIn(m.(pages := m.pages[p := PageOrFresh(m, p)]), p, off, chunk) == PutChunk(m, p, off, chunk)
  {
    if p in m.pages { assert PageInv(m.pages[p], p, m.size, m.backing); }
    hide Inv, PageInv, Splice, Fill;
    var pg := PageOrFresh(m, p);
    var filled := Fill(pg.(ref := true), p, ValidFor(m.size, p), m.backing);
    SkippedFill(pg.(ref := true), p, ValidFor(m.size, p), m.backing, off, chunk);
    CopyClean(m, p, pg, off, chunk);
    CopyClean(m, p, filled, off, chunk);
  }

  /** Copying into a clean page. */
  lemma CopyClean(m: Mapping, p: nat, pg: Page, off: nat, chunk: seq<byte>)
    requires !pg.dirty && off + |chunk| <= PAGE_SIZE
    ensures CopyIn(m.(pages := m.pages[p := pg]), p, off, chunk) ==
            m.(pages := m.pages[p := pg.(data := Splice(pg.data, off, chunk), valid := Max(pg.valid, ValidFor(m.size, p)),
                                         ref := true, dirty := true, uptodate := true)],
               dirty := m.dirty + {p}, retained := true)
  {
    hide Splice;
    var a := CopyIn(m.(pages := m.pages[p := pg]), p, off, chunk);
    assert a.pages == m.pages[p := a.pages[p]];
  }

  lemma SkippedFill(pg: Page, p: nat, valid: PageLen, backing: seq<byte>, off: nat, chunk: seq<byte>)
    requires off + |chunk| <= PAGE_SIZE && (|backing| <= PageStart(p) || |chunk| == PAGE_SIZE)
    ensures Splice(pg.data, off, chunk) == Splice(Fill(pg, p, valid, backing).data, off, chunk)
    ensures Fill(pg, p, valid, backing) == pg.(data := Fill(pg, p, valid, backing).data, valid := valid, uptodate := true)
  {
    var a, b := Splice(pg.data, off, chunk), Splice(Fill(pg, p, valid, backing).data, off, chunk);
    assert forall k | 0 <= k < PAGE_SIZE :: a[k] == b[k];
    assert a == b;
  }

  lemma PutChunkSafe(m: Mapping, pending: set<nat>, p: nat, off: nat, chunk: seq<byte>, last: bool)
    requires Calm(m, pending) && chunk != [] && off + |chunk| <= PAGE_SIZE && Pos(p, off) + |chunk| <= m.size
    ensures Calm(PutChunk(m, p, off, chunk), Retire(pending, Pos(p, off) + |chunk|, last))
    ensures View(PutChunk(m, p, off, chunk)) == Overlay(View(m), Pos(p, off), chunk)
    ensures PutChunk(m, p, off, chunk).size == m.size
  {
    LoadStep(m, p);
    LoadLength(m, pending, p);
    var m1 := LoadPage(m, p);
    assert NoneInFlight(CopyIn(m1, p, off, chunk));
    assert p in m1.pages && m1.pages[p].uptodate && m1.size == m.size;
    hide Inv, LengthOk, View, LoadPage, CopyIn, NoneInFlight;
    CopyInSafe(m1, pending, p, off, chunk, last);
  }

  lemma {:induction false} PutAllSafe(m: Mapping, off: nat, buf: seq<byte>)
    requires buf != [] && off + |buf| <= m.size && Calm(m, {off + |buf|})
    ensures Quiet(PutAll(m, off, buf))
    ensures View(PutAll(m, off, buf)) == Overlay(View(m), off, buf)
    decreases |buf|
  {
    hide PutChunk, Inv, NoneInFlight, LengthOk, View, Overlay;
    var n := FirstChunk(off, |buf|);
    var p, k := PageOf(off), off % PAGE_SIZE;
    assert Pos(p, k) == off;
    PutChunkSafe(m, {off + |buf|}, p, k, buf[..n], n == |buf|);
    var m1 := PutChunk(m, p, k, buf[..n]);
    if n < |buf| {
      PutAllSafe(m1, off + n, buf[n..]);
      OverlayConcat(View(m), off, buf[..n], buf[n..]);
      assert buf[..n] + buf[n..] == buf;
    } else {
      assert buf[..n] == buf;
      assert {off + |buf|} - {off + |buf|} == {};
      assert PutAll(m1, off + n, []) == m1;
    }
  }

  lemma GrownCalm(m: Mapping, end: nat)
    requires Quiet(m)
    ensures Calm(Grown(m, end), {end}) && View(Grown(m, end)) == Padded(View(m), end)
  {
    GrowStep(m, end);
  }

  /** A buffered write overlays the file, wherever it starts. */
  lemma WriteOverlays(m: Mapping, off: nat, buf: seq<byte>)
    requires Quiet(m)
    ensures Quiet(WriteSpec(m, off, buf))
    ensures View(WriteSpec(m, off, buf)) == Overlay(View(m), off, buf)
  {
    hide Calm, PutAll, View;
    if buf != [] {
      GrownCalm(m, off + |buf|);
      PutAllSafe(Grown(m, off + |buf|), off, buf);
      PadThenOverlay(View(m), off, buf);
    }
  }

  lemma PadThenOverlay(v: seq<byte>, off: nat, buf: seq<byte>)
    requires buf != []
    ensures Overlay(Padded(v, off + |buf|), off, buf) == Overlay(v, off, buf)
  {
    var g := Padded(v, off + |buf|);
    forall i: nat ensures At(Overlay(g, off, buf), i) == At(Overlay(v, off, buf), i) {
      OverlayAt(g, off, buf, i);
      OverlayAt(v, off, buf, i);
    }
    SameBytes(Overlay(g, off, buf), Overlay(v, off, buf));
  }

  // ---------------------------------------------------------------- reading

  /** `Spin` is the outcome in which the outer read loop repeats without progress. */
  datatype ReadResult = Data(bytes: seq<byte>) | Spin

  function Available(pg: Page, k: nat, limit: nat): PageLen {
    if pg.valid <= k then 0 else Min(pg.valid - k, limit)
  }

  /** How many bytes one round of the copy loop takes at `off`. */
  function RoundLen(m: Mapping, off: nat, end: nat): (n: nat)
    requires off < end
    ensures off % PAGE_SIZE + n <= PAGE_SIZE && off + n <= end
  {
    Available(LoadPage(m, PageOf(off)).pages[PageOf(off)], off % PAGE_SIZE, end - off)
  }

  function RoundBytes(m: Mapping, off: nat, n: nat): seq<byte>
    requires off % PAGE_SIZE + n <= PAGE_SIZE
  {
    LoadPage(m, PageOf(off)).pages[PageOf(off)].data[off % PAGE_SIZE..off % PAGE_SIZE + n]
  }

  function Prepend(d: seq<byte>, r: ReadResult): ReadResult {
    if r.Data? then Data(d + r.bytes) else Spin
  }

  /** The copy loop of a buffered read over [off, end). */
  function ReadPages(m: Mapping, off: nat, end: nat): ReadResult
    requires off <= end
    decreases end - off
  {
    if off == end then Data([])
    else
      var n := RoundLen(m, off, end);
      if n == 0 then Spin
      else Prepend(RoundBytes(m, off, n), ReadPages(LoadPage(m, PageOf(off)), off + n, end))
  }

  predicate WithinPage(off: nat, len: nat) {
    len == 0 || PageOf(off) == PageOf(off + len - 1)
  }

  /** The fast path of a read that stays within one resident page. */
  function ReadHit(m: Mapping, off: nat, len: nat): (ReadResult, bool) {
    var p := PageOf(off);
    if m.size <= off then (Data([]), true)
    else if p !in m.pages || !m.pages[p].uptodate then (Spin, false)
    else
      var n := Available(m.pages[p], off % PAGE_SIZE, Min(m.size, off + len) - off);
      (Data(m.pages[p].data[off % PAGE_SIZE..off % PAGE_SIZE + n]), true)
  }

  function ReadSpec(m: Mapping, off: nat, len: nat): ReadResult {
    if len == 0 then Data([])
    else if WithinPage(off, len) && ReadHit(m, off, len).1 then ReadHit(m, off, len).0
    else if m.size <= off then Data([])
    else ReadPages(m, off, Min(m.size, off + len))
  }

  /** Every up-to-date page reaches as far as the read needs. */
  ghost predicate Covers(m: Mapping, off: nat, end: nat) {
    forall p: nat, k: nat | k < PAGE_SIZE && off <= Pos(p, k) < end && p in m.pages && m.pages[p].uptodate ::
      k < m.pages[p].valid
  }

  function ReadEnd(m: Mapping, off: nat, len: nat): nat {
    Max(off, Min(m.size, off + len))
  }

  /** Loading a page makes it cover whatever the file holds there, unless it already was up to date. */
  lemma LoadCovers(m: Mapping, p: nat, off: nat, end: nat)
    requires Inv(m) && end <= m.size
    ensures Covers(LoadPage(m, p), off, end) <==> Covers(m, off, end)
  {
    var m1 := LoadPage(m, p);
    if Covers(m, off, end) {
      forall q: nat, k: nat | k < PAGE_SIZE && off <= Pos(q, k) < end && q in m1.pages && m1.pages[q].uptodate
        ensures k < m1.pages[q].valid
      {
        if q in m.pages && m.pages[q].uptodate { assert k < m.pages[q].valid; }
      }
    }
    if Covers(m1, off, end) {
      forall q: nat, k: nat | k < PAGE_SIZE && off <= Pos(q, k) < end && q in m.pages && m.pages[q].uptodate
        ensures k < m.pages[q].valid
      {
        assert q in m1.pages && m1.pages[q].uptodate && k < m1.pages[q].valid;
      }
    }
  }

  /** The first bytes of a read, taken from one loaded page. */
  lemma ChunkOfView(m: Mapping, off: nat, n: nat)
    requires off + n <= m.size && PageOf(off) in m.pages && off % PAGE_SIZE + n <= PAGE_SIZE
    ensures m.pages[PageOf(off)].data[off % PAGE_SIZE..off % PAGE_SIZE + n] == View(m)[off..off + n]
  {
    var p, k := PageOf(off), off % PAGE_SIZE;
    var a, b := m.pages[p].data[k..k + n], View(m)[off..off + n];
    forall j | 0 <= j < n ensures a[j] == b[j] {
      assert (off + j) / PAGE_SIZE == p && (off + j) % PAGE_SIZE == k + j;
    }
  }

  lemma CoversSplit(m: Mapping, off: nat, n: nat, end: nat)
    requires off + n <= end && PageOf(off) in m.pages
    requires off % PAGE_SIZE + n <= m.pages[PageOf(off)].valid
    ensures Covers(m, off, end) <==> Covers(m, off + n, end)
  {
    var p := PageOf(off);
    if Covers(m, off + n, end) {
      forall q: nat, k: nat | k < PAGE_SIZE && off <= Pos(q, k) < end && q in m.pages && m.pages[q].uptodate
        ensures k < m.pages[q].valid
      {
        if Pos(q, k) < off + n { assert q == p && k < off % PAGE_SIZE + n; }
      }
    }
  }

  /** One round of the copy loop: either it stands still at an uncovered byte, or it copies `n`
      bytes of the file and the rest of the read is as covered as before. */
  lemma ReadRound(m: Mapping, off: nat, end: nat)
    requires Inv(m) && off < end <= m.size
    ensures RoundLen(m, off, end) == 0 ==> !Covers(m, off, end)
    ensures RoundLen(m, off, end) != 0 ==>
              (Covers(m, off, end) <==> Covers(LoadPage(m, PageOf(off)), off + RoundLen(m, off, end), end))
    ensures RoundBytes(m, off, RoundLen(m, off, end)) == View(m)[off..off + RoundLen(m, off, end)]
  {
    hide LoadPage, Inv, View;
    var p, k := PageOf(off), off % PAGE_SIZE;
    assert Pos(p, k) == off;
    LoadStep(m, p);
    LoadCovers(m, p, off, end);
    var m1 := LoadPage(m, p);
    var n := RoundLen(m, off, end);
    ChunkOfView(m1, off, n);
    if n != 0 { CoversSplit(m1, off, n, end); }
  }

  /** What the copy loop should deliver. */
  ghost function Wanted(m: Mapping, off: nat, end: nat): ReadResult
    requires off <= end <= m.size
  {
    if Covers(m, off, end) then Data(View(m)[off..end]) else Spin
  }

  lemma WantedRound(m: Mapping, off: nat, end: nat)
    requires Inv(m) && off < end <= m.size
    ensures var n := RoundLen(m, off, end);
            Wanted(m, off, end) ==
            if n == 0 then Spin
            else Prepend(RoundBytes(m, off, n), Wanted(LoadPage(m, PageOf(off)), off + n, end))
  {
    hide LoadPage, Inv, View, Covers, RoundLen, RoundBytes, PageOf;
    ReadRound(m, off, end);
    LoadStep(m, PageOf(off));
    var n := RoundLen(m, off, end);
    if n != 0 && Covers(m, off, end) {
      assert View(m)[off..end] == View(m)[off..off + n] + View(m)[off + n..end];
    }
  }

  lemma WantedNothing(m: Mapping, off: nat)
    requires off <= m.size
    ensures Wanted(m, off, off) == Data([])
  {
  }

  lemma {:induction false} ReadPagesExact(m: Mapping, off: nat, end: nat)
    requires Inv(m) && off <= end <= m.size
    ensures ReadPages(m, off, end) == Wanted(m, off, end)
    decreases end - off
  {
    hide LoadPage, Inv, Wanted, RoundLen, RoundBytes, PageOf;
    if off == end {
      WantedNothing(m, off);
    } else {
      WantedRound(m, off, end);
      LoadStep(m, PageOf(off));
      if RoundLen(m, off, end) != 0 {
        ReadPagesExact(LoadPage(m, PageOf(off)), off + RoundLen(m, off, end), end);
      }
    }
  }

  /** A read returns the file's bytes exactly when every up-to-date page it meets reaches far
      enough; otherwise it comes back short or does not come back. */
  lemma ReadExact(m: Mapping, off: nat, len: nat)
    requires Quiet(m)
    ensures ReadSpec(m, off, len) == Data(if off < m.size then View(m)[off..ReadEnd(m, off, len)] else [])
            <==> Covers(m, off, ReadEnd(m, off, len))
  {
    if len != 0 && off < m.size {
      var end := ReadEnd(m, off, len);
      ReadPagesExact(m, off, end);
      var p, k := PageOf(off), off % PAGE_SIZE;
      assert Pos(p, k) == off;
      if WithinPage(off, len) && ReadHit(m, off, len).1 {
        HitExact(m, off, len);
      }
    }
  }

  lemma HitExact(m: Mapping, off: nat, len: nat)
    requires Inv(m) && 0 < len && off < m.size && WithinPage(off, len) && ReadHit(m, off, len).1
    ensures ReadHit(m, off, len).0 == Data(View(m)[off..ReadEnd(m, off, len)]) <==> Covers(m, off, ReadEnd(m, off, len))
  {
    var end := ReadEnd(m, off, len);
    var p, k := PageOf(off), off % PAGE_SIZE;
    var n := Available(m.pages[p], k, end - off);
    assert PageInv(m.pages[p], p, m.size, m.backing);
    ChunkOfView(m, off, n);
    assert |ReadHit(m, off, len).0.bytes| == n;
    if n == end - off {
      assert Covers(m, off, end) by {
        forall q: nat, j: nat | j < PAGE_SIZE && off <= Pos(q, j) < end && q in m.pages && m.pages[q].uptodate
          ensures j < m.pages[q].valid
        {
          assert PageOf(off + len - 1) == p;
          assert q == p;
        }
      }
    } else {
      assert Pos(p, k + n) == off + n && m.pages[p].valid <= k + n;
      assert !Covers(m, off, end);
    }
  }

  // ---------------------------------------------------------------- when reads stay exact

  /** Every up-to-date page reaches to the end of the file or of the page. */
  ghost predicate FullValid(m: Mapping) {
    forall p | p in m.pages && m.pages[p].uptodate :: m.pages[p].valid == ValidFor(m.size, p)
  }

  lemma LoadQuiet(m: Mapping, p: nat)
    requires Quiet(m)
    ensures Quiet(LoadPage(m, p)) && View(LoadPage(m, p)) == View(m)
    ensures FullValid(m) ==> FullValid(LoadPage(m, p))
  {
    LoadStep(m, p);
    LoadLength(m, {}, p);
  }

  /** A read returns the bytes of the file. */
  ghost predicate ExactRead(m: Mapping, off: nat, len: nat) {
    ReadSpec(m, off, len) == Data(if off < m.size then View(m)[off..ReadEnd(m, off, len)] else [])
  }

  ghost predicate ReadsExact(m: Mapping) { forall off: nat, len: nat :: ExactRead(m, off, len) }

  /** Every read returns the file's bytes if and only if the mapping is such. */
  lemma FullReadsExact(m: Mapping)
    requires Quiet(m)
    ensures ReadsExact(m) <==> FullValid(m)
  {
    if FullValid(m) {
      forall off: nat, len: nat ensures ExactRead(m, off, len) {
        ReadExact(m, off, len);
      }
    } else {
      var p :| p in m.pages && m.pages[p].uptodate && m.pages[p].valid != ValidFor(m.size, p);
      assert PageInv(m.pages[p], p, m.size, m.backing);
      var k := m.pages[p].valid;
      ReadExact(m, Pos(p, k), 1);
      assert !Covers(m, Pos(p, k), ReadEnd(m, Pos(p, k), 1));
      assert !ExactRead(m, Pos(p, k), 1);
    }
  }

  /** What a write over `len` bytes at `off` leaves at page `q`. */
  ghost predicate AfterWrite(m: Mapping, m': Mapping, off: nat, len: nat, q: nat)
    requires 0 < len
  {
    && m'.size == m.size
    && if PageOf(off) <= q <= PageOf(off + len - 1)
       then q in m'.pages && m'.pages[q].uptodate && m'.pages[q].valid == ValidFor(m.size, q)
       else (q in m'.pages <==> q in m.pages) && (q in m.pages ==> m'.pages[q] == m.pages[q])
  }

  lemma ChunkArith(off: nat, len: nat)
    requires 0 < len
    ensures var n := FirstChunk(off, len);
            && 0 < n <= len && off % PAGE_SIZE + n <= PAGE_SIZE && Pos(PageOf(off), off % PAGE_SIZE) == off
            && PageOf(off) <= PageOf(off + len - 1)
            && (n < len ==> PageOf(off + n) == PageOf(off) + 1)
            && (n == len ==> PageOf(off + len - 1) == PageOf(off))
  {
  }

  lemma PutChunkPage(m: Mapping, p: nat, off: nat, chunk: seq<byte>)
    requires Inv(m) && off + |chunk| <= PAGE_SIZE
    ensures var m' := PutChunk(m, p, off, chunk);
            && m'.size == m.size && p in m'.pages && m'.pages == m.pages[p := m'.pages[p]]
            && m'.pages[p].uptodate && m'.pages[p].valid == ValidFor(m.size, p)
  {
    if p in m.pages { assert PageInv(m.pages[p], p, m.size, m.backing); }
  }

  /** A write touches exactly the pages of its range, and leaves them covering the file. */
  lemma {:induction false} PutAllPages(m: Mapping, off: nat, buf: seq<byte>, q: nat)
    requires buf != [] && Calm(m, {off + |buf|}) && off + |buf| <= m.size
    ensures AfterWrite(m, PutAll(m, off, buf), off, |buf|, q)
    decreases |buf|
  {
    hide PutChunk, Inv, NoneInFlight, LengthOk, View, Overlay, FirstChunk, PageOf, AfterWrite;
    ChunkArith(off, |buf|);
    var n := FirstChunk(off, |buf|);
    var p, k := PageOf(off), off % PAGE_SIZE;
    var m1 := PutChunk(m, p, k, buf[..n]);
    PutChunkSafe(m, {off + |buf|}, p, k, buf[..n], n == |buf|);
    PutChunkPage(m, p, k, buf[..n]);
    if n < |buf| {
      PutAllPages(m1, off + n, buf[n..], q);
      AfterMore(m, m1, PutAll(m, off, buf), off, n, |buf|, q);
    } else {
      assert PutAll(m1, off + n, []) == m1 && buf[n..] == [];
      AfterOne(m, m1, off, n, q);
    }
  }

  lemma AfterOne(m: Mapping, m1: Mapping, off: nat, n: nat, q: nat)
    requires 0 < n && m1.size == m.size && PageOf(off + n - 1) == PageOf(off)
    requires PageOf(off) in m1.pages && m1.pages == m.pages[PageOf(off) := m1.pages[PageOf(off)]]
    requires m1.pages[PageOf(off)].uptodate && m1.pages[PageOf(off)].valid == ValidFor(m.size, PageOf(off))
    ensures AfterWrite(m, m1, off, n, q)
  {
  }

  lemma AfterMore(m: Mapping, m1: Mapping, m': Mapping, off: nat, n: nat, len: nat, q: nat)
    requires 0 < n < len && m1.size == m.size && PageOf(off + n) == PageOf(off) + 1
    requires PageOf(off) in m1.pages && m1.pages == m.pages[PageOf(off) := m1.pages[PageOf(off)]]
    requires m1.pages[PageOf(off)].uptodate && m1.pages[PageOf(off)].valid == ValidFor(m.size, PageOf(off))
    requires AfterWrite(m1, m', off + n, len - n, q) && PageOf(off) <= PageOf(off + len - 1)
    ensures AfterWrite(m, m', off, len, q)
  {
  }

  /** Writes keep all reads exact if and only if no up-to-date page below the written range is partly
      filled: the source does not revisit the old tail page of a write that leaves a gap. */
  lemma WriteKeepsReads(m: Mapping, off: nat, buf: seq<byte>)
    requires Quiet(m) && ReadsExact(m) && buf != []
    ensures ReadsExact(WriteSpec(m, off, buf))
       <==> forall p | p in m.pages && m.pages[p].uptodate && p < PageOf(off) :: m.pages[p].valid == PAGE_SIZE
  {
    hide Calm, ReadsExact, FullValid, WriteSpec;
    FullReadsExact(m);
    WriteOverlays(m, off, buf);
    FullReadsExact(WriteSpec(m, off, buf));
    WriteKeepsFull(m, off, buf);
  }

  lemma WriteKeepsFull(m: Mapping, off: nat, buf: seq<byte>)
    requires Quiet(m) && FullValid(m) && buf != []
    ensures FullValid(WriteSpec(m, off, buf))
       <==> forall p | p in m.pages && m.pages[p].uptodate && p < PageOf(off) :: m.pages[p].valid == PAGE_SIZE
  {
    hide Calm, PutAll, AfterWrite, FullValid;
    var g := Grown(m, off + |buf|);
    GrownCalm(m, off + |buf|);
    var m' := WriteSpec(m, off, buf);
    forall q: nat ensures AfterWrite(g, m', off, |buf|, q) { PutAllPages(g, off, buf, q); }
    FullAfter(m, m', off, |buf|);
  }

  lemma FullAfter(m: Mapping, m': Mapping, off: nat, len: nat)
    requires FullValid(m) && 0 < len
    requires var g := Grown(m, off + len); forall q: nat :: AfterWrite(g, m', off, len, q)
    ensures FullValid(m')
       <==> forall p | p in m.pages && m.pages[p].uptodate && p < PageOf(off) :: m.pages[p].valid == PAGE_SIZE
  {
    assert AfterWrite(Grown(m, off + len), m', off, len, 0);
    if FullValid(m') {
      forall p | p in m.pages && m.pages[p].uptodate && p < PageOf(off) ensures m.pages[p].valid == PAGE_SIZE {
        assert AfterWrite(Grown(m, off + len), m', off, len, p);
        assert (p + 1) * PAGE_SIZE <= off;
      }
    }
    if forall p | p in m.pages && m.pages[p].uptodate && p < PageOf(off) :: m.pages[p].valid == PAGE_SIZE {
      forall p | p in m'.pages && m'.pages[p].uptodate ensures m'.pages[p].valid == ValidFor(m'.size, p) {
        assert AfterWrite(Grown(m, off + len), m', off, len, p);
        if p < PageOf(off) { assert (p + 1) * PAGE_SIZE <= off; }
        if p > PageOf(off + len - 1) { assert p * PAGE_SIZE >= off + len; }
      }
    }
  }

  /** A hundred-byte file with its page loaded. */
  function SmallFile(): Mapping {
    LoadPage(Mapping(100, map[], {}, false, Zeros(100)), 0)
  }

  lemma SmallFileFacts()
    ensures Quiet(SmallFile()) && FullValid(SmallFile()) && View(SmallFile()) == Zeros(100)
    ensures SmallFile().size == 100 && 0 in SmallFile().pages
    ensures SmallFile().pages[0].uptodate && SmallFile().pages[0].valid == 100
  {
    var m0 := Mapping(100, map[], {}, false, Zeros(100));
    LoadStep(m0, 0);
    LoadLength(m0, {}, 0);
    assert View(m0) == Zeros(100);
  }

  /** The gap case, concretely: one byte written at 5000 leaves the loaded page at 100 valid bytes,
      and a read across it no longer completes. */
  lemma GapWriteStopsReads()
    ensures ReadSpec(SmallFile(), 0, 100) == Data(Zeros(100))
    ensures ReadSpec(WriteSpec(SmallFile(), 5000, [1]), 0, 5001) == Spin
  {
    SmallFileFacts();
    hide SmallFile, Calm, FullValid, View, PutAll, ReadPages, Overlay;
    var m1 := SmallFile();
    FullReadsExact(m1);
    assert ExactRead(m1, 0, 100);
    assert Zeros(100)[0..100] == Zeros(100);
    var m2 := WriteSpec(m1, 5000, [1]);
    WriteOverlays(m1, 5000, [1]);
    GapPage(m1, 5000, [1]);
    CalmInv(m2);
    assert Pos(0, 100) == 100;
    assert !Covers(m2, 0, 5001);
    ReadPagesExact(m2, 0, 5001);
  }

  lemma CalmInv(m: Mapping)
    requires Quiet(m)
    ensures Inv(m)
  {
  }

  lemma GapPage(m: Mapping, off: nat, buf: seq<byte>)
    requires Quiet(m) && buf != [] && 0 < PageOf(off) && 0 in m.pages && m.size <= off
    ensures var m' := WriteSpec(m, off, buf); m'.size == off + |buf| && 0 in m'.pages && m'.pages[0] == m.pages[0]
  {
    hide Calm, PutAll;
    GrownCalm(m, off + |buf|);
    PutAllPages(Grown(m, off + |buf|), off, buf, 0);
  }
}
