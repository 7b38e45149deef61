/**
 The mutable page mapping of one inode. Each method updates the fields as the source does and is
 proved against the specification functions of the page-cache modules.
 */
module PageMapping {
  import opened Basics
  import opened Bytes
  import opened PageCache
  import opened PageWriteback
  import opened PageFile
  import opened PageTruncate
  import opened PageFlush
  import opened PageLoad

  /** A dirty page with bytes to write. */
  predicate Flushable(m: Mapping, p: nat) { p in m.pages && m.pages[p].dirty && m.pages[p].valid > 0 }

  /** The run of `count` pages from list[start] on cannot be longer: it is at its limit or at the end of the list, its
      last page is not full, or the page after it is not the next one in the file or has nothing to write. */
  ghost predicate Longest(m: Mapping, list: seq<nat>, start: nat, count: nat)
    requires start < |list|
  {
    && count <= MAX_BATCH
    && (|| count == MAX_BATCH || start + count >= |list|
        || (count > 0 && Flushable(m, list[start] + count - 1) && m.pages[list[start] + count - 1].valid < PAGE_SIZE)
        || list[start + count] != list[start] + count || !Flushable(m, list[start + count]))
  }

  lemma LongestEnds(m: Mapping, list: seq<nat>, start: nat, count: nat)
    requires start < |list| && count <= MAX_BATCH
    requires || count == MAX_BATCH || start + count >= |list|
             || (count > 0 && Flushable(m, list[start] + count - 1) && m.pages[list[start] + count - 1].valid < PAGE_SIZE)
             || list[start + count] != list[start] + count || !Flushable(m, list[start + count])
    ensures Longest(m, list, start, count)
  {
  }

  /** What an inode answers to a write of some bytes at an offset: how many it takes, and whether it reports an error. */
  datatype Answer = Answer(taken: nat, failed: bool)

  type Inode = (nat, nat) -> Answer

  /** The inode takes all of the bytes. */
  predicate Accepts(inode: Inode, off: nat, len: nat) { !inode(off, len).failed && inode(off, len).taken >= len }

  class PageMapping {
    var size: nat
    var pages: map<nat, Page>
    var dirtyPages: set<nat>
    var retained: bool
    var backing: seq<byte>  // the inode behind the mapping

    ghost function St(): Mapping
      reads this
    {
      Mapping(size, pages, dirtyPages, retained, backing)
    }

    /** A mapping for an inode holding `contents`. */
    constructor (contents: seq<byte>)
      ensures Quiet(St()) && FullValid(St()) && View(St()) == contents
    {
      size, pages, dirtyPages, retained, backing := |contents|, map[], {}, false, contents;
    }

    /** Make sure page `p` is loaded. */
    method EnsureUptodate(p: nat)
      modifies this
      ensures St() == LoadPage(old(St()), p)
    {
      var pg := if p in pages then pages[p] else FRESH;
      pg := pg.(ref := true);
      if !pg.uptodate {
        var valid := ValidFor(size, p);
        var read := ReadCount(backing, PageStart(p), valid);
        pg := pg.(data := FillData(pg.data, p, read, backing), valid := Max(valid, read), uptodate := true);
      }
      pages := pages[p := pg];
    }

    method MarkPageDirty(p: nat)
      requires p in pages
      modifies this
      ensures St() == MarkDirty(old(St()), p)
    {
      var pg := pages[p].(ref := true);
      if pg.dirty {
        if pg.writeback {
          pg := pg.(redirtied := true);
        }
        pages := pages[p := pg];
        return;
      }
      pages := pages[p := pg.(dirty := true, uptodate := true)];
      dirtyPages := dirtyPages + {p};
      retained := true;
    }

    /** One page of a buffered write: create or load the page, copy, mark dirty. */
    method WriteChunk(oldSize: nat, p: nat, off: nat, chunk: seq<byte>)
      requires Inv(St()) && |backing| <= oldSize && off + |chunk| <= PAGE_SIZE && chunk != []
      modifies this
      ensures St() == PutChunk(old(St()), p, off, chunk)
    {
      hide Inv, Splice, Fill;
      ghost var m := St();
      if p !in pages {
        pages := pages[p := FRESH];
      }
      var needLoad := PageStart(p) < oldSize && (off != 0 || |chunk| < PAGE_SIZE) && !pages[p].uptodate;
      if needLoad {
        LoadFresh(m, p);
        EnsureUptodate(p);
        assert St() == LoadPage(m, p);
      } else {
        ChunkWithoutLoad(m, p, off, chunk, oldSize);
        assert St().pages == m.pages[p := PageOrFresh(m, p)];
      }
      assert CopyIn(St(), p, off, chunk) == PutChunk(m, p, off, chunk);
      var pg := pages[p];
      pages := pages[p := pg.(data := Splice(pg.data, off, chunk), valid := Max(pg.valid, ValidFor(size, p)))];
      MarkPageDirty(p);
    }

    /** Buffered write. */
    method Write(offset: nat, buf: seq<byte>) returns (done: nat)
      requires Quiet(St())
      modifies this
      ensures done == |buf|
      ensures St() == WriteSpec(old(St()), offset, buf)
      ensures Quiet(St()) && View(St()) == Overlay(old(View(St())), offset, buf)
    {
      hide Inv, View, Overlay, WriteSpec, PutChunk, PutAll, Writing, Calm;
      WriteOverlays(St(), offset, buf);
      done := 0;
      if buf == [] {
        WriteNothing(St(), offset);
        return;
      }
      WritingStarts(St(), offset, buf);
      ghost var goal := WriteSpec(St(), offset, buf);
      var oldSize := size;
      if size < offset + |buf| {
        size := offset + |buf|;
      }
      while done < |buf|
        invariant Writing(St(), goal, offset, buf, done) && done <= |buf|
        invariant |backing| <= oldSize
      {
        var p, off := PageOf(offset + done), (offset + done) % PAGE_SIZE;
        var n := Min(PAGE_SIZE - off, |buf| - done);
        WritingStep(St(), goal, offset, buf, done);
        WriteChunk(oldSize, p, off, buf[done..done + n]);
        done := done + n;
      }
      WritingEnds(St(), goal, offset, buf);
    }

    /** Load the missing pages of a range, one inode request per run of adjacent pages. */
    method LoadRange(first: nat, count: nat)
      modifies this
      ensures Preloaded(old(St()), St(), first, count)
    {
      hide Preloaded, Loading;
      ghost var m := St();
      ghost var keys: set<nat> := pages.Keys;
      LoadingStarts(m);
      var wanted: seq<nat> := [];
      for p := first to first + count
        invariant Loading(m, St(), keys, {}) && pages.Keys == keys && m.pages.Keys <= keys
        invariant forall q: nat :: q in keys <==> q in m.pages || first <= q < p
        invariant Increasing(wanted) && forall i | 0 <= i < |wanted| :: wanted[i] < p
        invariant forall q: nat :: q in wanted <==> first <= q < p && !PageOrFresh(m, q).uptodate
      {
        if p !in pages {
          LoadingCreates(m, St(), keys, p);
          pages := pages[p := FRESH];
          keys := keys + {p};
        }
        LoadingAt(m, St(), keys, {}, p);
        if !pages[p].uptodate {
          wanted := wanted + [p];
        }
      }
      var start := 0;
      ghost var done: set<nat> := {};
      while start < |wanted|
        invariant start <= |wanted|
        invariant Loading(m, St(), keys, done)
        invariant forall q: nat :: q in done <==> q in wanted[..start]
      {
        var end := start + 1;
        while end < |wanted| && wanted[end] == wanted[end - 1] + 1
          invariant start < end <= |wanted|
          invariant forall i | start <= i < end :: wanted[i] == wanted[start] + (i - start)
        {
          end := end + 1;
        }
        done := FinishRun(wanted, start, end, m, keys, done);
        start := end;
      }
      assert wanted[..start] == wanted;
      LoadingEnds(m, St(), keys, done, first, count);
    }

    /** The fast path of a read within one page; it may decline. */
    method ReadSinglePage(offset: nat, len: nat) returns (r: ReadResult, answered: bool)
      requires 0 < len && WithinPage(offset, len)
      modifies this
      ensures (r, answered) == ReadHit(old(St()), offset, len)
      ensures St() == Touched(old(St()), PageOf(offset)) || St() == old(St())
    {
      var p, k := PageOf(offset), offset % PAGE_SIZE;
      if size <= offset {
        return Data([]), true;
      }
      if p !in pages {
        return Spin, false;
      }
      pages := pages[p := pages[p].(ref := true)];
      if !pages[p].uptodate {
        return Spin, false;
      }
      var n := Available(pages[p], k, Min(size, offset + len) - offset);
      return Data(pages[p].data[k..k + n]), true;
    }

    /** Buffered read. `Spin` stands for the outer loop repeating without progress. */
    method Read(offset: nat, len: nat) returns (r: ReadResult)
      requires Quiet(St())
      modifies this
      ensures r == ReadSpec(old(St()), offset, len)
      ensures Quiet(St()) && View(St()) == old(View(St()))
      ensures old(FullValid(St())) ==> FullValid(St())
    {
      hide Inv, View, Covers, ReadPages, Preloaded, Calm, Reading, FullValid, Touched, ReadHit;
      ghost var m := St();
      if len == 0 {
        return Data([]);
      }
      if WithinPage(offset, len) {
        var answered;
        r, answered := ReadSinglePage(offset, len);
        TouchSafe(m, PageOf(offset));
        if answered {
          return;
        }
      }
      if size <= offset {
        return Data([]);
      }
      var end := Min(size, offset + len);
      var done: seq<byte> := [];
      ReadingStarts(m, St(), offset, end);
      while offset + |done| < end
        invariant Reading(m, St(), offset, end, done) && offset + |done| <= end
      {
        var stalled;
        done, stalled := ReadWindow(offset, end, done, m);
        if stalled {
          return Spin;
        }
      }
      ReadingEnds(m, St(), offset, end, done);
      return Data(done);
    }

    /** One window of a read: load its pages together, then copy them out one by one. */
    method ReadWindow(offset: nat, end: nat, before: seq<byte>, ghost m: Mapping) returns (done: seq<byte>, stalled: bool)
      requires Quiet(m) && Reading(m, St(), offset, end, before) && offset + |before| < end
      modifies this
      ensures Quiet(St()) && View(St()) == View(m) && (FullValid(m) ==> FullValid(St()))
      ensures stalled ==> ReadPages(m, offset, end) == Spin
      ensures !stalled ==> Reading(m, St(), offset, end, done) && |before| < |done| && offset + |done| <= end
    {
      hide Inv, View, Covers, ReadPages, Preloaded, Calm, Reading, FullValid, RunLen;
      done := before;
      var at := offset + |done|;
      var windowStart := PageStart(PageOf(at));
      var windowEnd := Min(end, windowStart + PAGE_SIZE * READ_BATCH_PAGES);
      var windowPages := (windowEnd - windowStart + PAGE_SIZE - 1) / PAGE_SIZE;
      ghost var m1 := St();
      LoadRange(PageOf(at), windowPages);
      ReadingPreloads(m, m1, St(), offset, end, done, PageOf(at), windowPages);
      while offset + |done| < windowEnd
        invariant Reading(m, St(), offset, end, done) && at <= offset + |done| <= windowEnd
      {
        var off := offset + |done|;
        ReadingRound(m, St(), offset, end, done);
        EnsureUptodate(PageOf(off));
        var n := Available(pages[PageOf(off)], off % PAGE_SIZE, end - off);
        if n == 0 {
          return done, true;
        }
        WindowArith(windowStart, end, off, n);
        done := done + pages[PageOf(off)].data[off % PAGE_SIZE..off % PAGE_SIZE + n];
      }
      ReadingKeeps(m, St(), offset, end, done);
      return done, false;
    }

    /** Resize the file. The inode is resized first and may refuse. */
    method Truncate(newSize: nat, inodeAgrees: bool) returns (ok: bool)
      requires Quiet(St())
      modifies this
      ensures ok == (inodeAgrees || newSize == old(size))
      ensures St() == if ok then TruncateSpec(old(St()), newSize) else old(St())
      ensures Quiet(St()) && View(St()) == if ok then Resize(old(View(St())), newSize) else old(View(St()))
    {
      hide Calm, View, Resize, Shrink, Extend;
      ghost var m := St();
      TruncateResizes(m, newSize);
      var oldSize := size;
      if oldSize == newSize {
        return true;
      }
      if !inodeAgrees {
        return false;
      }
      backing := Resize(backing, newSize);
      size := newSize;
      if newSize < oldSize {
        DropPages(newSize, m);
      } else {
        ExtendTail(oldSize, newSize, m);
      }
      return true;
    }

    /** The pages of a shrunk file: those past the end go, the new tail page is cut. */
    method DropPages(newSize: nat, ghost m: Mapping)
      requires newSize < m.size && St() == m.(size := newSize, backing := Resize(m.backing, newSize))
      modifies this
      ensures St() == Shrink(m, newSize)
    {
      hide CutTail, Resize;
      ShrinkPages(m, newSize);
      var cut := FirstRemoved(newSize);
      pages := map p | p in pages && p < cut :: pages[p];
      dirtyPages := set p | p in dirtyPages && p < cut;
      if dirtyPages == {} {
        retained := false;
      }
      if newSize > 0 {
        var tail := (newSize - 1) / PAGE_SIZE;
        if tail in pages {
          pages := pages[tail := CutTail(pages[tail], ValidFor(newSize, tail))];
        }
      }
    }

    /** The old tail page of an extended file covers as much of it as it can. */
    method ExtendTail(oldSize: nat, newSize: nat, ghost m: Mapping)
      requires oldSize == m.size < newSize && St() == m.(size := newSize, backing := Resize(m.backing, newSize))
      modifies this
      ensures St() == Extend(m, newSize)
    {
      hide GrowTail, Resize;
      if oldSize > 0 {
        var tail := (oldSize - 1) / PAGE_SIZE;
        var was := ValidFor(oldSize, tail);
        if was < PAGE_SIZE && tail in pages {
          var now := ValidFor(newSize, tail);
          if now > was {
            pages := pages[tail := GrowTail(pages[tail], was, now)];
          }
        }
      }
    }

    // -------------------------------------------------------------- write-back

    method BeginWriteback(p: nat)
      requires p in pages
      modifies this
      ensures St() == Begin(old(St()), p)
    {
      pages := pages[p := pages[p].(writeback := true, redirtied := false, pins := pages[p].pins + 1)];
    }

    method FinishWriteback(p: nat, ok: bool)
      requires p in pages
      modifies this
      ensures St() == Finish(old(St()), p, ok)
    {
      var pg := pages[p];
      if pg.dirty {
        if !ok || pg.maps > 0 || pg.redirtied {
          dirtyPages := dirtyPages + {p};
          retained := true;
        } else {
          pg := pg.(dirty := false);
          dirtyPages := dirtyPages - {p};
          if dirtyPages == {} {
            retained := false;
          }
        }
      }
      pages := pages[p := pg.(writeback := false, pins := if pg.pins == 0 then 0 else pg.pins - 1)];
    }

    /** The inode's positional write: complete, short, or failed after any prefix. */
    method StoreToInode(off: nat, data: seq<byte>, inode: Inode) returns (ok: bool, ghost written: nat)
      modifies this
      ensures written <= |data| && (ok ==> written == |data|) && ok == Accepts(inode, off, |data|)
      ensures St() == old(St()).(backing := Overlay(old(backing), off, data[..written]))
    {
      var n := Min(inode(off, |data|).taken, |data|);
      backing := Overlay(backing, off, data[..n]);
      return !inode(off, |data|).failed && n == |data|, n;
    }

    /** Write one page back; a failed or short write leaves it dirty. */
    method FlushPage(p: nat, inode: Inode) returns (ok: bool)
      requires Quiet(St()) && p in pages
      modifies this
      ensures Quiet(St()) && View(St()) == old(View(St()))
      ensures if ok then St() == FlushOne(old(St()), p) else dirtyPages == old(dirtyPages)
      ensures var pg := old(pages)[p]; ok <==> pg.dirty && pg.valid > 0 ==> Accepts(inode, PageStart(p), pg.valid)
    {
      hide Calm, View, Overlay;
      ghost var m := St();
      if !pages[p].dirty {
        return true;
      }
      var data := pages[p].data[..pages[p].valid];
      BeginWriteback(p);
      ok := true;
      ghost var written: nat := 0;
      if data != [] {
        ok, written := StoreToInode(PageStart(p), data, inode);
      }
      assert data[..written] == m.pages[p].data[..written];
      assert backing == Overlay(m.backing, PageStart(p), m.pages[p].data[..written]);
      SingleOutcome(m, p, written, ok);
      FinishWriteback(p, ok);
    }

    /** Take the longest run of consecutive dirty pages from list[start..], copying their bytes. */
    method CollectBatch(list: seq<nat>, start: nat) returns (count: nat, data: seq<byte>, single: bool)
      requires Quiet(St()) && start < |list|
      modifies this
      ensures start + count <= |list| && Longest(old(St()), list, start, count)
      ensures count == 0 ==> St() == old(St()) && (single ==> list[start] in pages)
      ensures count == 0 && !single ==> FlushOne(St(), list[start]) == St()
      ensures count > 0 ==>
        && (forall i | start <= i < start + count :: list[i] == list[start] + (i - start))
        && IsRun(old(St()), list[start], count) && data == RunData(old(St()), list[start], count)
        && St() == Underway(old(St()), list[start], count, 0, old(backing), true)
    {
      hide Calm, Underway, Begin, Longest;
      ghost var m := St();
      var first := list[start];
      count, data, single := 0, [], false;
      QuietInv(m);
      UnderwayStart(m, first, backing, true);
      while start + count < |list| && count < MAX_BATCH
        invariant start + count <= |list| && count <= MAX_BATCH
        invariant forall i | start <= i < start + count :: list[i] == first + (i - start)
        invariant forall q | first <= q < first + count :: q in m.pages && m.pages[q].dirty && m.pages[q].valid == PAGE_SIZE
        invariant data == RunData(m, first, count)
        invariant St() == Underway(m, first, count, 0, m.backing, true)
      {
        var p := list[start + count];
        if p != first + count {
          break;
        }
        UnderwayAt(m, first, count, p);
        if p !in pages || !pages[p].dirty {
          LongestEnds(m, list, start, count);
          return;
        }
        if pages[p].valid == 0 {
          single := count == 0;
          LongestEnds(m, list, start, count);
          return;
        }
        var bytes := pages[p].data[..pages[p].valid];
        UnderwayTakes(m, first, count, true);
        BeginWriteback(p);
        data := data + bytes;
        count := count + 1;
        if |bytes| != PAGE_SIZE {
          LongestEnds(m, list, start, count);
          return;
        }
      }
      LongestEnds(m, list, start, count);
    }

    /** Write a collected batch with one request and complete its pages with the one outcome. */
    method FlushBatch(first: nat, count: nat, data: seq<byte>, inode: Inode, ghost m: Mapping) returns (ok: bool)
      requires Quiet(m) && 0 < count && IsRun(m, first, count) && data == RunData(m, first, count)
      requires St() == Underway(m, first, count, 0, m.backing, true)
      modifies this
      ensures Quiet(St()) && View(St()) == View(m)
      ensures if ok then St() == FlushRun(m, first, count) else St().dirty == m.dirty
      ensures ok <==> Accepts(inode, PageStart(first), |data|)
    {
      hide Calm, View, Overlay, Underway, Settled, RunData, FlushRun;
      QuietInv(m);
      UnderwayAll(m, first, count);
      ghost var written;
      ok, written := StoreToInode(PageStart(first), data, inode);
      ghost var b := backing;
      UnderwayOutcome(m, first, count, b, ok);
      for j := 0 to count
        invariant St() == Underway(m, first, count, j, b, ok)
      {
        UnderwayCompletes(m, first, count, j, b, ok);
        FinishWriteback(first + j, ok);
      }
      UnderwayEnd(m, first, count, b, ok);
      BatchOutcome(m, first, count, written, ok);
      if ok { assert data[..written] == data; }
    }

    /** Write back the listed pages in batches; stops at the first failure. */
    method FlushDirtyPages(list: seq<nat>, inode: Inode) returns (ok: bool)
      requires Quiet(St())
      modifies this
      ensures Quiet(St()) && View(St()) == old(View(St()))
      ensures ok ==> St() == FlushAll(old(St()), list)
      ensures ok ==> forall q: nat :: q in dirtyPages <==> q in old(dirtyPages) && (q in list ==> Mapped(old(St()), q))
      ensures ok && (forall q | q in old(dirtyPages) :: q in list) ==> backing == old(View(St()))
      ensures !ok ==> exists n: nat :: n < |list| && dirtyPages == FlushAll(old(St()), list[..n]).dirty
      ensures !ok ==> exists off: nat, len: nat :: !Accepts(inode, off, len)
    {
      hide Calm, View, FlushOne, FlushAll, Underway, Mapped;
      ghost var m := St();
      var pos := 0;
      FlushNothing(m);
      while pos < |list|
        invariant pos <= |list|
        invariant Quiet(St()) && View(St()) == View(m)
        invariant St() == FlushAll(m, list[..pos])
      {
        ghost var m1 := St();
        var count, data, single := CollectBatch(list, pos);
        var p := list[pos];
        if count > 0 {
          ok := FlushBatch(p, count, data, inode, m1);
          if !ok {
            return false;
          }
          FlushRunIsList(m1, p, list[pos..pos + count]);
          FlushAllAppend(m, list[..pos], list[pos..pos + count]);
          assert list[..pos] + list[pos..pos + count] == list[..pos + count];
          pos := pos + count;
        } else {
          if single {
            ok := FlushPage(p, inode);
            if !ok {
              return false;
            }
          }
          FlushAllOne(m, list, pos);
          pos := pos + 1;
        }
      }
      assert list[..pos] == list;
      FlushedList(m, list);
      return true;
    }

    /** Complete the run wanted[start..end] after its read. */
    method FinishRun(wanted: seq<nat>, start: nat, end: nat, ghost m: Mapping, ghost keys: set<nat>, ghost before: set<nat>)
      returns (ghost done: set<nat>)
      requires start < end <= |wanted| && Increasing(wanted)
      requires forall i | start <= i < end :: wanted[i] == wanted[start] + (i - start)
      requires forall q | q in wanted :: q in keys && !PageOrFresh(m, q).uptodate
      requires Loading(m, St(), keys, before)
      requires forall q: nat :: q in before <==> q in wanted[..start]
      modifies this
      ensures Loading(m, St(), keys, done)
      ensures forall q: nat :: q in done <==> q in wanted[..end]
    {
      hide Loading;
      var a, b := wanted[start], wanted[end - 1];
      done := before;
      for i := start to end
        invariant Loading(m, St(), keys, done)
        invariant forall q: nat :: q in done <==> q in wanted[..i]
      {
        var p := wanted[i];
        assert p !in wanted[..i];
        LoadingAt(m, St(), keys, done, p);
        RunIsPageByPage(size, backing, a, b, p);
        var valid := RunValid(size, backing, a, b, p);
        LoadingStep(m, St(), keys, done, p, valid);
        pages := pages[p := pages[p].(data := FillData(pages[p].data, p, valid, backing), valid := valid,
                                      uptodate := valid == ValidFor(size, p))];
        done := done + {p};
        assert wanted[..i + 1] == wanted[..i] + [p];
      }
    }
  }

  const READ_BATCH_PAGES: nat := 64

  /** A shrink drops the pages past the end and cuts the new tail page. */
  lemma ShrinkPages(m: Mapping, n: nat)
    requires n < m.size
    ensures var kept := map p | p in m.pages && p < FirstRemoved(n) :: m.pages[p];
            Shrink(m, n).pages ==
            if n > 0 && (n - 1) / PAGE_SIZE in kept
            then kept[(n - 1) / PAGE_SIZE := CutTail(m.pages[(n - 1) / PAGE_SIZE], ValidFor(n, (n - 1) / PAGE_SIZE))]
            else kept
  {
    hide CutTail;
  }

  lemma FlushedList(m: Mapping, list: seq<nat>)
    requires Quiet(m)
    ensures forall q: nat :: q in FlushAll(m, list).dirty <==> q in m.dirty && (q in list ==> Mapped(m, q))
    ensures (forall q | q in m.dirty :: q in list) ==> FlushAll(m, list).backing == View(m)
  {
    hide Calm, View, FlushAll, Mapped;
    forall q: nat ensures q in FlushAll(m, list).dirty <==> q in m.dirty && (q in list ==> Mapped(m, q)) {
      FlushAllDirty(m, list, q);
    }
    if forall q | q in m.dirty :: q in list {
      SyncStores(m, list);
    }
  }

  // ---------------------------------------------------------------- the read loop

  ghost function Touched(m: Mapping, p: nat): Mapping {
    if p in m.pages then SetPage(m, p, m.pages[p].(ref := true)) else m
  }

  lemma TouchSafe(m: Mapping, p: nat)
    requires Quiet(m)
    ensures Quiet(Touched(m, p)) && View(Touched(m, p)) == View(m) && Touched(m, p).size == m.size
    ensures FullValid(m) ==> FullValid(Touched(m, p))
  {
    if p in m.pages {
      assert PageInv(m.pages[p], p, m.size, m.backing);
      SetPageInv(m, p, m.pages[p].(ref := true));
      SameView(m, Touched(m, p));
    }
  }

  lemma TouchCovers(m: Mapping, p: nat, off: nat, end: nat)
    ensures Covers(Touched(m, p), off, end) <==> Covers(m, off, end)
  {
    var m1 := Touched(m, p);
    forall q: nat ensures (q in m1.pages <==> q in m.pages) &&
      (q in m.pages ==> m1.pages[q].valid == m.pages[q].valid && m1.pages[q].uptodate == m.pages[q].uptodate) {}
  }

  /** A read of [off, end) of `m` has delivered `done` and left the cache as `m'`. */
  ghost predicate Reading(m: Mapping, m': Mapping, off: nat, end: nat, done: seq<byte>) {
    && Quiet(m') && View(m') == View(m) && m'.size == m.size && (FullValid(m) ==> FullValid(m'))
    && off + |done| <= end <= m.size
    && done == View(m)[off..off + |done|]
    && (Covers(m', off + |done|, end) <==> Covers(m, off, end))
  }

  lemma ReadingStarts(m: Mapping, m': Mapping, off: nat, end: nat)
    requires Quiet(m) && off <= end <= m.size && (m' == m || m' == Touched(m, PageOf(off)))
    ensures Reading(m, m', off, end, [])
  {
    TouchSafe(m, PageOf(off));
    TouchCovers(m, PageOf(off), off, end);
    assert View(m)[off..off] == [];
  }

  lemma ReadingPreloads(m: Mapping, m1: Mapping, m2: Mapping, off: nat, end: nat, done: seq<byte>, first: nat, count: nat)
    requires Reading(m, m1, off, end, done) && Preloaded(m1, m2, first, count)
    ensures Reading(m, m2, off, end, done)
  {
    hide Covers, View, Calm, FullValid;
    PreloadSafe(m1, m2, first, count);
    PreloadCovers(m1, m2, first, count, off + |done|, end);
  }

  /** One page copied, or a stall that only an uncovered byte can cause. */
  lemma ReadingRound(m: Mapping, m': Mapping, off: nat, end: nat, done: seq<byte>)
    requires Quiet(m) && Reading(m, m', off, end, done) && off + |done| < end
    ensures var at := off + |done|;
            var m1 := LoadPage(m', PageOf(at));
            var n := RoundLen(m', at, end);
            && Quiet(m1) && View(m1) == View(m) && (FullValid(m) ==> FullValid(m1))
            && (n == 0 ==> ReadPages(m, off, end) == Spin)
            && (n != 0 ==> Reading(m, m1, off, end, done + RoundBytes(m', at, n)))
  {
    var at := off + |done|;
    hide Covers, View, LoadPage, FullValid, RoundLen, RoundBytes, Calm, ReadPages, PageOf;
    CalmInv(m);
    CalmInv(m');
    LoadQuiet(m', PageOf(at));
    ReadRound(m', at, end);
    ReadPagesExact(m, off, end);
    var n := RoundLen(m', at, end);
    assert View(m)[off..at + n] == View(m)[off..at] + View(m)[at..at + n];
  }

  lemma ReadingKeeps(m: Mapping, m': Mapping, off: nat, end: nat, done: seq<byte>)
    requires Reading(m, m', off, end, done)
    ensures Quiet(m') && View(m') == View(m) && (FullValid(m) ==> FullValid(m'))
  {
  }

  lemma ReadingEnds(m: Mapping, m': Mapping, off: nat, end: nat, done: seq<byte>)
    requires Quiet(m) && Reading(m, m', off, end, done) && off + |done| == end
    ensures ReadPages(m, off, end) == Data(done)
    ensures Quiet(m') && View(m') == View(m) && (FullValid(m) ==> FullValid(m'))
  {
    assert Covers(m', end, end);
    ReadPagesExact(m, off, end);
  }

  /** Copying up to a page end never passes the window. */
  lemma WindowArith(windowStart: nat, end: nat, off: nat, n: nat)
    requires windowStart % PAGE_SIZE == 0 && windowStart <= off < Min(end, windowStart + PAGE_SIZE * READ_BATCH_PAGES)
    requires off % PAGE_SIZE + n <= PAGE_SIZE && off + n <= end
    ensures off + n <= Min(end, windowStart + PAGE_SIZE * READ_BATCH_PAGES)
  {
  }

  // ---------------------------------------------------------------- write-back helpers

  lemma UnderwayAll(m: Mapping, first: nat, count: nat)
    ensures Underway(m, first, count, 0, m.backing, true).backing == m.backing
  {
  }

  lemma BatchOutcome(m: Mapping, first: nat, count: nat, written: nat, ok: bool)
    requires Quiet(m) && 0 < count && IsRun(m, first, count) && written <= |RunData(m, first, count)|
    requires ok ==> written == |RunData(m, first, count)|
    ensures var s := Settled(m, RunSet(first, count), Overlay(m.backing, PageStart(first), RunData(m, first, count)[..written]), ok);
            && Quiet(s) && View(s) == View(m) && (ok ==> s == FlushRun(m, first, count)) && (!ok ==> s.dirty == m.dirty)
  {
    hide View, Calm, Settled, FlushRun;
    if ok {
      assert RunData(m, first, count)[..written] == RunData(m, first, count);
      BatchIsPageByPage(m, first, count);
      FlushRunSafe(m, first, count);
    } else {
      FailedBatch(m, first, count, written);
    }
  }

  lemma FlushNothing(m: Mapping)
    ensures FlushAll(m, []) == m
  {
  }

  lemma FlushAllOne(m: Mapping, list: seq<nat>, pos: nat)
    requires pos < |list|
    ensures list[..0] == [] && FlushAll(m, list[..pos + 1]) == FlushOne(FlushAll(m, list[..pos]), list[pos])
  {
    assert list[..pos + 1][..pos] == list[..pos];
  }

  lemma QuietInv(m: Mapping)
    requires Quiet(m)
    ensures Inv(m) && NoneInFlight(m) && |m.backing| <= m.size
  {
  }

  /** A page not yet taken is as it was. */
  lemma UnderwayAt(m: Mapping, first: nat, count: nat, p: nat)
    requires Quiet(m) && p == first + count
    ensures var u := Underway(m, first, count, 0, m.backing, true);
            (p in u.pages <==> p in m.pages) && (p in m.pages ==> u.pages[p] == m.pages[p] && !m.pages[p].writeback)
  {
  }

  lemma SingleOutcome(m: Mapping, p: nat, written: nat, ok: bool)
    requires Quiet(m) && p in m.pages && m.pages[p].dirty && written <= m.pages[p].valid
    requires ok ==> written == m.pages[p].valid
    ensures var u := Begin(m, p).(backing := Overlay(m.backing, PageStart(p), m.pages[p].data[..written]));
            var f := Finish(u, p, ok);
            && Quiet(f) && View(f) == View(m) && (ok ==> f == FlushOne(m, p)) && (!ok ==> f.dirty == m.dirty)
  {
    hide View, Overlay, LengthOk, Settled;
    var d := m.pages[p].data[..written];
    SingleIsSettled(m, p, Overlay(m.backing, PageStart(p), d), ok);
    if ok {
      FlushOneSafe(m, p);
      FlushOneIsSettled(m, p);
    } else {
      StoreOnDirty(m, p);
      assert OnDirty(m, PageStart(p), |d|);
      SettledSafe(m, {p}, PageStart(p), d, false);
      SettledKeepsDirty(m, {p}, Overlay(m.backing, PageStart(p), d));
    }
  }

  lemma SettledKeepsDirty(m: Mapping, S: set<nat>, backing: seq<byte>)
    ensures Settled(m, S, backing, false).dirty == m.dirty
  {
  }

  ghost predicate Increasing(s: seq<nat>) {
    forall i, j | 0 <= i < j < |s| :: s[i] < s[j]
  }

  lemma LoadingStarts(m: Mapping)
    ensures Loading(m, m, m.pages.Keys, {})
  {
  }

  lemma LoadingAt(m: Mapping, m': Mapping, keys: set<nat>, done: set<nat>, p: nat)
    requires Loading(m, m', keys, done) && p in keys
    ensures p in m'.pages && m'.size == m.size && m'.backing == m.backing
    ensures p !in done ==> m'.pages[p] == PageOrFresh(m, p)
  {
  }

  /** The write loop with `done` bytes copied: what is left to copy leads to `goal`. */
  ghost predicate Writing(m: Mapping, goal: Mapping, offset: nat, buf: seq<byte>, done: nat) {
    && done <= |buf| && offset + |buf| <= m.size
    && (done < |buf| ==> Calm(m, {offset + |buf|}))
    && PutAll(m, offset + done, buf[done..]) == goal
  }

  lemma WriteNothing(m: Mapping, offset: nat)
    ensures WriteSpec(m, offset, []) == m
  {
  }

  lemma WritingStarts(m: Mapping, offset: nat, buf: seq<byte>)
    requires Quiet(m) && buf != []
    ensures |m.backing| <= m.size
    ensures Writing(Grown(m, offset + |buf|), WriteSpec(m, offset, buf), offset, buf, 0)
  {
    hide Inv, NoneInFlight, LengthOk, PutAll, View;
    QuietInv(m);
    GrownCalm(m, offset + |buf|);
    assert buf[0..] == buf;
  }

  lemma WritingEnds(m: Mapping, goal: Mapping, offset: nat, buf: seq<byte>)
    requires Writing(m, goal, offset, buf, |buf|)
    ensures m == goal
  {
    assert buf[|buf|..] == [];
  }

  /** One round of the write loop. */
  lemma WritingStep(m: Mapping, goal: Mapping, offset: nat, buf: seq<byte>, done: nat)
    requires Writing(m, goal, offset, buf, done) && done < |buf|
    ensures Inv(m)
    ensures var off := (offset + done) % PAGE_SIZE;
            var n := Min(PAGE_SIZE - off, |buf| - done);
            && 0 < n && off + n <= PAGE_SIZE && done + n <= |buf|
            && var m1 := PutChunk(m, PageOf(offset + done), off, buf[done..done + n]);
               Writing(m1, goal, offset, buf, done + n) && m1.backing == m.backing
  {
    hide Inv, NoneInFlight, LengthOk, View, Overlay, PutChunk, PutAll;
    var rest := buf[done..];
    ChunkArith(offset + done, |rest|);
    var n := FirstChunk(offset + done, |rest|);
    assert rest[..n] == buf[done..done + n] && rest[n..] == buf[done + n..];
    PutAllOne(m, offset + done, rest);
    PutChunkSafe(m, {offset + |buf|}, PageOf(offset + done), (offset + done) % PAGE_SIZE, rest[..n], false);
  }

  lemma PutAllOne(m: Mapping, off: nat, rest: seq<byte>)
    requires rest != []
    ensures var n := FirstChunk(off, |rest|);
            PutAll(m, off, rest) == PutAll(PutChunk(m, PageOf(off), off % PAGE_SIZE, rest[..n]), off + n, rest[n..])
  {
  }

  lemma LoadFresh(m: Mapping, p: nat)
    ensures LoadPage(m.(pages := m.pages[p := PageOrFresh(m, p)]), p) == LoadPage(m, p)
  {
  }

  /** Without a load the copy still gives what loading first would give. */
  lemma ChunkWithoutLoad(m: Mapping, p: nat, off: nat, chunk: seq<byte>, oldSize: nat)
    requires Inv(m) && |m.backing| <= oldSize && off + |chunk| <= PAGE_SIZE
    requires oldSize <= PageStart(p) || (off == 0 && |chunk| == PAGE_SIZE) || PageOrFresh(m, p).uptodate
    ensures CopyIn(m.(pages := m.pages[p := PageOrFresh(m, p)]), p, off, chunk) == PutChunk(m, p, off, chunk)
  {
    if PageOrFresh(m, p).uptodate {
      var a, b := CopyIn(m.(pages := m.pages[p := PageOrFresh(m, p)]), p, off, chunk), PutChunk(m, p, off, chunk);
      assert a.pages == b.pages;
    } else {
      SkippedLoad(m, p, off, chunk);
    }
  }
}
