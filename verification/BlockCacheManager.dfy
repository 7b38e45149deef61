/**
 The block-cache manager: every public operation, proved against the flat disk its users see.
 Each operation is one atomic step.
 */
module BlockCacheManager {
  import opened Bytes
  import opened BlockCache

  /** A request for `count` blocks from `start`. */
  datatype Range = Range(start: nat, count: nat)

  /** A request to store whole blocks from `start`. */
  datatype BlockWrite = BlockWrite(start: nat, data: seq<Block>)

  predicate Hits(dev: nat, w: BlockWrite, k: Key) {
    k.dev == dev && w.start <= k.block < w.start + |w.data|
  }

  /** Block `k` after the writes are stored in order over `base`. */
  function AfterWrites(dev: nat, writes: seq<BlockWrite>, k: Key, base: Block): Block {
    if writes == [] then base
    else
      var w := writes[|writes| - 1];
      if Hits(dev, w, k) then w.data[k.block - w.start] else AfterWrites(dev, writes[..|writes| - 1], k, base)
  }

  class Manager {
    var queue: seq<Key>
    var clockHand: nat
    var table: map<Key, Entry>
    var disk: map<Key, Block>

    ghost function St(): Cache
      reads this
    {
      Cache(queue, clockHand, table, disk)
    }

    constructor (contents: map<Key, Block>)
      ensures St() == Cache([], 0, map[], contents)
      ensures Inv(St()) && forall k :: Logical(St(), k) == Stored(contents, k)
    {
      queue, clockHand, table, disk := [], 0, map[], contents;
    }

    /** Make room for one insertion. */
    method EvictOneIfNeeded() returns (v: Victim)
      requires Inv(St())
      modifies this
      ensures (St(), v) == Evict(old(St()))
    {
      hide Inv;
      if |table| < CACHE_SIZE {
        return NoNeed;
      }
      if queue == [] {
        return AllPinned;
      }
      var len := |queue|;
      var left: nat := 2 * len;
      while left > 0
        invariant queue == old(queue) && len == |queue| && left <= 2 * len
        invariant Sweep(St(), left) == Sweep(old(St()), 2 * len)
      {
        HandInRange(clockHand, len);
        var i := clockHand % len;
        var k := queue[i];
        clockHand := (i + 1) % len;
        if k in table {
          if table[k].pins == 0 {
            if !table[k].ref {
              if table[k].modified {
                disk := disk[k := table[k].data];
              }
              table := table - {k};
              return Slot(i);
            }
            table := table[k := table[k].(ref := false)];
          } else {
            assert table[k := table[k]] == table;
          }
        }
        left := left - 1;
      }
      return AllPinned;
    }

    method InstallEntry(k: Key, e: Entry, v: Victim)
      requires v.Slot? ==> v.i < |queue|
      modifies this`queue, this`table
      ensures St() == Install(old(St()), k, e, v)
    {
      if v.Slot? {
        queue := queue[v.i := k];
      } else {
        queue := queue + [k];
      }
      table := table[k := e];
    }

    /** Reference the cached block `k`, loading it on a miss. Fails exactly when it is not cached and every
        entry is pinned. */
    method GetBlock(k: Key) returns (ok: bool)
      requires Inv(St())
      modifies this
      ensures Inv(St()) && SameDisk(old(St()), St())
      ensures ok <==> k in old(table) || !FullPinned(old(St()))
      ensures ok ==> k in table && table[k].ref && table[k].pins == (if k in old(table) then old(table)[k].pins else 0) + 1
      ensures forall q | q in old(table) && old(table)[q].pins != 0 && q != k :: q in table && table[q] == old(table)[q]
      ensures !ok ==> table == old(table)
    {
      hide Inv, SameDisk, FullPinned, Evict, Logical;
      ghost var c := St();
      if k in table {
        TouchSafe(c, k, table[k].(ref := true, pins := table[k].pins + 1), clockHand);
        table := table[k := table[k].(ref := true, pins := table[k].pins + 1)];
        return true;
      }
      EvictSafe(c);
      EvictKeepsHeld(c);
      var v := EvictOneIfNeeded();
      ghost var c1 := St();
      if v.AllPinned? {
        ReadyIsInv(c1);
        return false;
      }
      var e := Entry(Stored(disk, k), false, true, 1);
      InstallSafe(c1, k, e, v);
      SameDiskTrans(c, c1, Install(c1, k, e, v));
      InstallEntry(k, e, v);
      return true;
    }

    /** Give a reference back. */
    method Release(k: Key)
      requires Inv(St()) && k in table
      modifies this`table
      ensures Inv(St()) && SameDisk(old(St()), St())
      ensures table == old(table)[k := old(table)[k].(pins := if old(table)[k].pins == 0 then 0 else old(table)[k].pins - 1)]
    {
      var e := table[k].(pins := if table[k].pins == 0 then 0 else table[k].pins - 1);
      TouchSafe(St(), k, e, clockHand);
      table := table[k := e];
    }

    /** Store bytes into a referenced block. */
    method WriteBytes(k: Key, off: nat, data: seq<byte>)
      requires Inv(St()) && k in table && off + |data| <= BLOCK_SZ
      modifies this`table
      ensures Inv(St()) && k in table && table[k].pins == old(table)[k].pins && table[k].ref && table[k].modified
      ensures forall q :: Logical(St(), q) == if q == k then Patch(Logical(old(St()), k), off, data) else Logical(old(St()), q)
    {
      ghost var c := St();
      table := table[k := table[k].(data := Patch(table[k].data, off, data), modified := true, ref := true)];
      PatchSafe(c, k, off, data);
    }

    /** Backfill a block that was just read from its device; fails as `GetBlock` does. */
    method InsertPrefetched(k: Key, data: Block) returns (ok: bool)
      requires Inv(St()) && data == Logical(St(), k)
      modifies this
      ensures Inv(St()) && SameDisk(old(St()), St())
      ensures ok <==> k in old(table) || !FullPinned(old(St()))
      ensures ok ==> k in table && table[k] == if k in old(table) then old(table)[k] else Entry(data, false, true, 0)
      ensures !ok || k in old(table) ==> table == old(table)
      ensures HeldKept(old(St()), St())
    {
      hide Inv, FullPinned, Evict;
      ghost var c := St();
      if k in table {
        return true;
      }
      EvictSafe(c);
      EvictKeepsHeld(c);
      var v := EvictOneIfNeeded();
      ghost var c1 := St();
      if v.AllPinned? {
        ReadyIsInv(c1);
        return false;
      }
      assert Logical(c1, k) == Logical(c, k);
      var e := Entry(data, false, true, 0);
      InstallSafe(c1, k, e, v);
      SameDiskTrans(c, c1, Install(c1, k, e, v));
      InstallEntry(k, e, v);
      return true;
    }

    /** The metadata pass over one range: copy hits, note runs of misses. */
    method ScanRange(dev: nat, r: nat, range: Range) returns (got: seq<Block>, runs: seq<Run>)
      requires Inv(St())
      modifies this`table
      ensures Inv(St()) && SameDisk(old(St()), St()) && table.Keys == old(table).Keys
      ensures Scanned(old(St()), dev, r, range, got, runs, range.count)
      ensures UsedIn(old(table), table, dev, range, range.count)
    {
      hide Inv, SameDisk, Scanned, UsedIn;
      NoneUsed(table, dev, range);
      ghost var c := St();
      got, runs := seq(range.count, _ => Zeros(BLOCK_SZ)), [];
      InvFacts(c);
      ScanStarts(c, dev, r, range, got);
      var i := 0;
      while i < range.count
        invariant 0 <= i <= range.count && |got| == range.count
        invariant Inv(St()) && SameDisk(c, St()) && table.Keys == c.table.Keys
        invariant Scanned(c, dev, r, range, got, runs, i) && UsedIn(c.table, table, dev, range, i)
      {
        var k := RangeKey(dev, range, i);
        ghost var c1 := St();
        if k in table {
          SameAt(c, c1, k);
          ScanHit(c, dev, r, range, got, runs, i);
          got := got[i := table[k].data];
          TouchSafe(c1, k, table[k].(ref := true), clockHand);
          UseHit(c.table, table, dev, range, i);
          table := table[k := table[k].(ref := true)];
          SameDiskTrans(c, c1, St());
          i := i + 1;
        } else {
          var first := i;
          i := i + 1;
          while i < range.count && RangeKey(dev, range, i) !in table
            invariant first < i <= range.count
            invariant forall n | first <= n < i :: RangeKey(dev, range, n) !in table
          {
            i := i + 1;
          }
          ScanMisses(c, dev, r, range, got, runs, first, i);
          UseMisses(c.table, table, dev, range, first, i);
          runs := runs + [Run(r, first, i)];
        }
      }
    }

    /** Read several ranges: hits are copied, runs of misses are read from the device together and
        backfilled. Fails only when a backfill finds every entry pinned. */
    method ReadRanges(dev: nat, ranges: seq<Range>) returns (out: seq<seq<Block>>, ok: bool)
      requires Inv(St())
      modifies this
      ensures Inv(St()) && SameDisk(old(St()), St())
      ensures forall r, i | 0 <= r < |ranges| && 0 <= i < ranges[r].count ::
                r < |out| && i < |out[r]| && out[r][i] == Logical(old(St()), RangeKey(dev, ranges[r], i))
      ensures Shaped(out, ranges)
      ensures !ok ==> FullPinned(St())
    {
      hide Inv, SameDisk, Scanned, Filling;
      ghost var c := St();
      out := [];
      var pending: seq<Run> := [];
      InvFacts(c);
      FillStarts(c, dev, ranges);
      for r := 0 to |ranges|
        invariant Inv(St()) && SameDisk(c, St()) && table.Keys == c.table.Keys && disk == c.disk
        invariant Filling(c, dev, ranges[..r], out, pending, 0)
      {
        ghost var c1 := St();
        var got, runs := ScanRange(dev, r, ranges[r]);
        ScannedSame(c, c1, dev, r, ranges[r], got, runs);
        SameDiskTrans(c, c1, St());
        FillScan(c, dev, ranges, r, out, pending, got, runs);
        out := out + [got];
        pending := pending + runs;
      }
      assert ranges[..|ranges|] == ranges;
      RunsInRange(c, dev, ranges, out, pending, 0);
      // one device batch for all runs
      var fetched: seq<seq<Block>> := [];
      for m := 0 to |pending|
        invariant |fetched| == m && disk == c.disk
        invariant Filling(c, dev, ranges, out, pending, m)
        modifies {}
        invariant forall n | 0 <= n < m :: fetched[n] == RunBlocks(c.disk, dev, ranges, pending[n])
      {
        var run := pending[m];
        var blocks := RunBlocks(disk, dev, ranges, run);
        FillRun(c, dev, ranges, out, pending, m);
        out := out[run.r := out[run.r][..run.first] + blocks + out[run.r][run.end..]];
        fetched := fetched + [blocks];
      }
      FillEnds(c, dev, ranges, out, pending);
      ok := true;
      for m := 0 to |pending|
        invariant Inv(St()) && SameDisk(c, St())
      {
        var run := pending[m];
        for b := run.first to run.end
          invariant Inv(St()) && SameDisk(c, St())
        {
          var k := RangeKey(dev, ranges[run.r], b);
          ghost var c1 := St();
          RunBlock(c, dev, ranges, out, pending, m, b);
          SameAt(c, c1, k);
          ok := InsertPrefetched(k, fetched[m][b - run.first]);
          SameDiskTrans(c, c1, St());
          if !ok {
            return;
          }
        }
      }
    }

    /** Replace the cached blocks a write covers; blocks that are not cached stay out. */
    method OverwriteHits(dev: nat, w: BlockWrite)
      modifies this`table
      ensures table == Replaced(old(table), dev, w)
    {
      var todo := set k | k in table && Hits(dev, w, k);
      while todo != {}
        invariant todo <= table.Keys && table.Keys == old(table).Keys
        invariant forall k | k in todo :: Hits(dev, w, k)
        invariant forall k | k in table ::
                    table[k] == if Hits(dev, w, k) && k !in todo then Overwritten(old(table)[k], w, k) else old(table)[k]
        decreases |todo|
      {
        var k :| k in todo;
        table := table[k := Overwritten(table[k], w, k)];
        todo := todo - {k};
      }
    }

    /** Store whole blocks: first every cached copy, then the device, write by write. */
    method OverwriteRanges(dev: nat, writes: seq<BlockWrite>)
      requires Inv(St())
      modifies this`table, this`disk
      ensures Inv(St()) && table.Keys == old(table).Keys
      ensures forall k :: Logical(St(), k) == AfterWrites(dev, writes, k, Logical(old(St()), k))
      ensures forall k | k !in table :: Stored(disk, k) == AfterWrites(dev, writes, k, Stored(old(disk), k))
      ensures forall k | k in table :: table[k].pins == old(table)[k].pins && (table[k].ref <==> old(table)[k].ref || Touched(dev, writes, k))
    {
      hide AfterWrites, Touched;
      ghost var c := St();
      NoWrites(dev);
      for i := 0 to |writes|
        invariant queue == c.queue && disk == c.disk && TableAfter(c.table, table, dev, writes[..i])
      {
        MoreWrites(dev, writes, i);
        ReplacedAfter(c.table, table, dev, writes, i);
        OverwriteHits(dev, writes[i]);
      }
      assert writes[..|writes|] == writes;
      for i := 0 to |writes|
        invariant queue == c.queue && TableAfter(c.table, table, dev, writes)
        invariant forall k :: Stored(disk, k) == AfterWrites(dev, writes[..i], k, Stored(c.disk, k))
      {
        MoreWrites(dev, writes, i);
        disk := WriteBlocks(disk, dev, writes[i]);
      }
    }

    /** Write every modified block to its device. */
    method SyncAll()
      requires Inv(St())
      modifies this`table, this`disk
      ensures Inv(St()) && SameDisk(old(St()), St())
      ensures forall k :: Stored(disk, k) == Logical(old(St()), k)
      ensures table.Keys == old(table).Keys && forall k | k in table :: !table[k].modified
    {
      ghost var c := St();
      var todo := table.Keys;
      while todo != {}
        invariant todo <= table.Keys && table.Keys == old(table).Keys && queue == old(queue)
        invariant Coherent(St()) && SameDisk(c, St())
        invariant forall k | k in table && k !in todo :: !table[k].modified
        decreases |todo|
      {
        var k :| k in todo;
        ghost var c1 := St();
        if table[k].modified {
          disk := disk[k := table[k].data];
          table := table[k := table[k].(modified := false)];
          SyncSafe(c1, k);
          SameDiskTrans(c, c1, St());
        }
        todo := todo - {k};
      }
      forall k ensures Stored(disk, k) == Logical(c, k) {
        assert Logical(St(), k) == Logical(c, k);
      }
    }
  }

  // ---------------------------------------------------------------- overwriting

  function Overwritten(e: Entry, w: BlockWrite, k: Key): Entry
    requires w.start <= k.block < w.start + |w.data|
  {
    e.(data := w.data[k.block - w.start], modified := true, ref := true)
  }

  function Replaced(table: map<Key, Entry>, dev: nat, w: BlockWrite): map<Key, Entry> {
    map k | k in table :: if Hits(dev, w, k) then Overwritten(table[k], w, k) else table[k]
  }

  /** The device after one write. */
  function WriteBlocks(disk: map<Key, Block>, dev: nat, w: BlockWrite): (d: map<Key, Block>)
    ensures forall k :: Stored(d, k) == if Hits(dev, w, k) then w.data[k.block - w.start] else Stored(disk, k)
  {
    disk + map i: nat | w.start <= i < w.start + |w.data| :: Key(dev, i) := w.data[i - w.start]
  }

  /** The cached copies after a run of writes. */
  ghost predicate TableAfter(t: map<Key, Entry>, t': map<Key, Entry>, dev: nat, writes: seq<BlockWrite>) {
    && t'.Keys == t.Keys
    && (forall k | k in t :: t'[k].data == AfterWrites(dev, writes, k, t[k].data))
    && (forall k | k in t :: t[k].modified ==> t'[k].modified)
    && (forall k | k in t && !t'[k].modified :: t'[k] == t[k])
    && (forall k | k in t :: t'[k].pins == t[k].pins && (t'[k].ref <==> t[k].ref || Touched(dev, writes, k)))
  }

  /** Some write covers block `k`. */
  ghost predicate Touched(dev: nat, writes: seq<BlockWrite>, k: Key) { exists i | 0 <= i < |writes| :: Hits(dev, writes[i], k) }

  lemma NoWrites(dev: nat)
    ensures forall k, base: Block :: AfterWrites(dev, [], k, base) == base
    ensures forall k :: !Touched(dev, [], k)
  {
  }

  lemma MoreWrites(dev: nat, writes: seq<BlockWrite>, i: nat)
    requires i < |writes|
    ensures forall k, base: Block :: AfterWrites(dev, writes[..i + 1], k, base) ==
              if Hits(dev, writes[i], k) then writes[i].data[k.block - writes[i].start] else AfterWrites(dev, writes[..i], k, base)
  {
    var ws := writes[..i + 1];
    assert ws[..|ws| - 1] == writes[..i] && ws[|ws| - 1] == writes[i];
    forall k, base: Block
      ensures AfterWrites(dev, ws, k, base) ==
              if Hits(dev, writes[i], k) then writes[i].data[k.block - writes[i].start] else AfterWrites(dev, writes[..i], k, base)
    {
      assert AfterWrites(dev, ws, k, base) ==
             var w := ws[|ws| - 1]; if Hits(dev, w, k) then w.data[k.block - w.start] else AfterWrites(dev, ws[..|ws| - 1], k, base);
    }
  }

  lemma ReplacedAfter(t: map<Key, Entry>, t': map<Key, Entry>, dev: nat, writes: seq<BlockWrite>, i: nat)
    requires i < |writes| && TableAfter(t, t', dev, writes[..i])
    ensures TableAfter(t, Replaced(t', dev, writes[i]), dev, writes[..i + 1])
  {
    hide AfterWrites;
    MoreWrites(dev, writes, i);
    forall k ensures Touched(dev, writes[..i + 1], k) <==> Touched(dev, writes[..i], k) || Hits(dev, writes[i], k) {
      TouchedMore(dev, writes, i, k);
    }
    hide Touched;
  }

  lemma TouchedMore(dev: nat, writes: seq<BlockWrite>, i: nat, k: Key)
    requires i < |writes|
    ensures Touched(dev, writes[..i + 1], k) <==> Touched(dev, writes[..i], k) || Hits(dev, writes[i], k)
  {
    var a, b := writes[..i], writes[..i + 1];
    assert b[i] == writes[i] && forall j | 0 <= j < i :: a[j] == b[j];
  }

  // ---------------------------------------------------------------- use bits

  /** The entries of the first `n` blocks of a range are marked used, and nothing else changed. */
  ghost predicate UsedIn(t: map<Key, Entry>, t': map<Key, Entry>, dev: nat, range: Range, n: nat) {
    && t'.Keys == t.Keys
    && forall k | k in t :: t'[k] == t[k].(ref := t[k].ref || (k.dev == dev && range.start <= k.block < range.start + n))
  }

  lemma NoneUsed(t: map<Key, Entry>, dev: nat, range: Range)
    ensures UsedIn(t, t, dev, range, 0)
  {
  }

  lemma UseHit(t: map<Key, Entry>, t': map<Key, Entry>, dev: nat, range: Range, i: nat)
    requires UsedIn(t, t', dev, range, i) && RangeKey(dev, range, i) in t'
    ensures var k := RangeKey(dev, range, i); UsedIn(t, t'[k := t'[k].(ref := true)], dev, range, i + 1)
  {
  }

  lemma UseMisses(t: map<Key, Entry>, t': map<Key, Entry>, dev: nat, range: Range, first: nat, end: nat)
    requires UsedIn(t, t', dev, range, first) && first <= end && forall n | first <= n < end :: RangeKey(dev, range, n) !in t'
    ensures UsedIn(t, t', dev, range, end)
  {
    forall k | k in t && k.dev == dev && range.start + first <= k.block ensures range.start + end <= k.block {
      var n := k.block - range.start;
      assert k == RangeKey(dev, range, n);
    }
  }

  // ---------------------------------------------------------------- runs of misses

  function RangeKey(dev: nat, range: Range, i: nat): Key { Key(dev, range.start + i) }

  /** Blocks [first, end) of range `r`, all of them misses. */
  datatype Run = Run(r: nat, first: nat, end: nat)

  ghost predicate RunOf(c: Cache, dev: nat, r: nat, range: Range, run: Run) {
    && run.r == r && run.first < run.end <= range.count
    && forall n | run.first <= n < run.end :: RangeKey(dev, range, n) !in c.table
  }

  ghost predicate Covers(run: Run, r: nat, i: nat) {
    run.r == r && run.first <= i < run.end
  }

  /** Some run from `from` on covers block `i` of range `r`. */
  ghost predicate Covered(runs: seq<Run>, from: nat, r: nat, i: nat) {
    exists m :: from <= m < |runs| && Covers(runs[m], r, i)
  }

  lemma CoverJoin(a: seq<Run>, b: seq<Run>, r: nat, i: nat)
    ensures Covered(a, 0, r, i) || Covered(b, 0, r, i) ==> Covered(a + b, 0, r, i)
  {
    if Covered(a, 0, r, i) {
      var m :| 0 <= m < |a| && Covers(a[m], r, i);
      assert (a + b)[m] == a[m];
    }
    if Covered(b, 0, r, i) {
      var m :| 0 <= m < |b| && Covers(b[m], r, i);
      assert (a + b)[|a| + m] == b[m];
    }
  }

  /** The scan of a range has passed `upto` blocks: hits are copied, misses are noted. */
  ghost predicate Scanned(c: Cache, dev: nat, r: nat, range: Range, got: seq<Block>, runs: seq<Run>, upto: nat) {
    && |got| == range.count && upto <= range.count
    && (forall m | 0 <= m < |runs| :: RunOf(c, dev, r, range, runs[m]))
    && (forall n | 0 <= n < upto ::
          if RangeKey(dev, range, n) in c.table then got[n] == Logical(c, RangeKey(dev, range, n))
          else Covered(runs, 0, r, n))
  }

  lemma ScanStarts(c: Cache, dev: nat, r: nat, range: Range, got: seq<Block>)
    requires |got| == range.count
    ensures Scanned(c, dev, r, range, got, [], 0)
  {
  }

  lemma ScanHit(c: Cache, dev: nat, r: nat, range: Range, got: seq<Block>, runs: seq<Run>, i: nat)
    requires Scanned(c, dev, r, range, got, runs, i) && i < range.count && RangeKey(dev, range, i) in c.table
    ensures Scanned(c, dev, r, range, got[i := Logical(c, RangeKey(dev, range, i))], runs, i + 1)
  {
  }

  lemma ScanMisses(c: Cache, dev: nat, r: nat, range: Range, got: seq<Block>, runs: seq<Run>, first: nat, end: nat)
    requires Scanned(c, dev, r, range, got, runs, first) && first < end <= range.count
    requires forall n | first <= n < end :: RangeKey(dev, range, n) !in c.table
    ensures Scanned(c, dev, r, range, got, runs + [Run(r, first, end)], end)
  {
    var runs' := runs + [Run(r, first, end)];
    forall n | 0 <= n < end && RangeKey(dev, range, n) !in c.table ensures Covered(runs', 0, r, n) {
      CoverJoin(runs, [Run(r, first, end)], r, n);
      if n >= first { assert Covers([Run(r, first, end)][0], r, n); }
    }
  }

  lemma ScannedSame(c: Cache, c1: Cache, dev: nat, r: nat, range: Range, got: seq<Block>, runs: seq<Run>)
    requires SameDisk(c, c1) && c1.table.Keys == c.table.Keys && Scanned(c1, dev, r, range, got, runs, range.count)
    ensures Scanned(c, dev, r, range, got, runs, range.count)
  {
    forall m | 0 <= m < |runs| ensures RunOf(c, dev, r, range, runs[m]) {
      assert RunOf(c1, dev, r, range, runs[m]);
      forall n | runs[m].first <= n < runs[m].end ensures RangeKey(dev, range, n) !in c.table {
        assert RangeKey(dev, range, n) !in c1.table.Keys;
      }
    }
    forall n | 0 <= n < range.count
      ensures if RangeKey(dev, range, n) in c.table then got[n] == Logical(c, RangeKey(dev, range, n)) else Covered(runs, 0, r, n)
    {
      var k := RangeKey(dev, range, n);
      assert k in c.table <==> k in c1.table.Keys;
      assert Logical(c1, k) == Logical(c, k);
    }
  }

  lemma SameAt(c: Cache, c1: Cache, k: Key)
    requires SameDisk(c, c1)
    ensures Logical(c1, k) == Logical(c, k)
  {
  }

  ghost predicate Shaped(out: seq<seq<Block>>, ranges: seq<Range>) {
    |out| == |ranges| && forall r | 0 <= r < |ranges| :: |out[r]| == ranges[r].count
  }

  /** Every block of the ranges is delivered, or awaits a run from `from` on. */
  ghost predicate Filling(c: Cache, dev: nat, ranges: seq<Range>, out: seq<seq<Block>>, runs: seq<Run>, from: nat) {
    && Shaped(out, ranges) && from <= |runs|
    && (forall m | 0 <= m < |runs| :: runs[m].r < |ranges| && RunOf(c, dev, runs[m].r, ranges[runs[m].r], runs[m]))
    && (forall r, i | 0 <= r < |ranges| && 0 <= i < ranges[r].count ::
          out[r][i] == Logical(c, RangeKey(dev, ranges[r], i)) || Covered(runs, from, r, i))
  }

  lemma FillStarts(c: Cache, dev: nat, ranges: seq<Range>)
    ensures Filling(c, dev, ranges[..0], [], [], 0)
  {
  }

  lemma FillScan(c: Cache, dev: nat, ranges: seq<Range>, r: nat, out: seq<seq<Block>>, runs: seq<Run>, got: seq<Block>, more: seq<Run>)
    requires r < |ranges| && Filling(c, dev, ranges[..r], out, runs, 0)
    requires Scanned(c, dev, r, ranges[r], got, more, ranges[r].count)
    ensures Filling(c, dev, ranges[..r + 1], out + [got], runs + more, 0)
  {
    var rs := ranges[..r + 1];
    forall q, i | 0 <= q < |rs| && 0 <= i < rs[q].count
      ensures (out + [got])[q][i] == Logical(c, RangeKey(dev, rs[q], i)) || Covered(runs + more, 0, q, i)
    {
      CoverJoin(runs, more, q, i);
      if q < r {
        assert rs[q] == ranges[..r][q];
        assert out[q][i] == Logical(c, RangeKey(dev, ranges[..r][q], i)) || Covered(runs, 0, q, i);
      }
    }
    forall m | 0 <= m < |runs + more| ensures (runs + more)[m].r < |rs| && RunOf(c, dev, (runs + more)[m].r, rs[(runs + more)[m].r], (runs + more)[m]) {
      if m < |runs| { assert RunOf(c, dev, runs[m].r, ranges[..r][runs[m].r], runs[m]); }
      else { assert RunOf(c, dev, r, ranges[r], more[m - |runs|]); }
    }
  }

  /** What the device returns for a run. */
  function RunBlocks(disk: map<Key, Block>, dev: nat, ranges: seq<Range>, run: Run): (b: seq<Block>)
    requires run.r < |ranges| && run.first <= run.end
    ensures |b| == run.end - run.first
  {
    var range := ranges[run.r];
    seq<Block>(run.end - run.first, (i: nat) => Stored(disk, RangeKey(dev, range, run.first + i)))
  }

  lemma FillRun(c: Cache, dev: nat, ranges: seq<Range>, out: seq<seq<Block>>, runs: seq<Run>, m: nat)
    requires Filling(c, dev, ranges, out, runs, m) && m < |runs|
    ensures var run := runs[m];
            && run.r < |out| && run.r < |ranges| && run.first < run.end <= |out[run.r]|
            && Filling(c, dev, ranges,
                       out[run.r := out[run.r][..run.first] + RunBlocks(c.disk, dev, ranges, run) + out[run.r][run.end..]], runs, m + 1)
  {
    var run := runs[m];
    assert RunOf(c, dev, run.r, ranges[run.r], run);
    var row := out[run.r][..run.first] + RunBlocks(c.disk, dev, ranges, run) + out[run.r][run.end..];
    var out' := out[run.r := row];
    forall r, i | 0 <= r < |ranges| && 0 <= i < ranges[r].count
      ensures out'[r][i] == Logical(c, RangeKey(dev, ranges[r], i)) || Covered(runs, m + 1, r, i)
    {
      if Covers(run, r, i) {
        assert row[i] == RunBlocks(c.disk, dev, ranges, run)[i - run.first];
        assert RangeKey(dev, ranges[r], i) !in c.table;
      } else {
        assert out'[r][i] == out[r][i];
        if Covered(runs, m, r, i) {
          var n :| m <= n < |runs| && Covers(runs[n], r, i);
          assert n != m;
        }
      }
    }
  }

  lemma RunsInRange(c: Cache, dev: nat, ranges: seq<Range>, out: seq<seq<Block>>, runs: seq<Run>, m: nat)
    requires Filling(c, dev, ranges, out, runs, m)
    ensures forall n | 0 <= n < |runs| :: runs[n].r < |ranges| && runs[n].first < runs[n].end <= ranges[runs[n].r].count
  {
    forall n | 0 <= n < |runs| ensures runs[n].r < |ranges| && runs[n].first < runs[n].end <= ranges[runs[n].r].count {
      assert RunOf(c, dev, runs[n].r, ranges[runs[n].r], runs[n]);
    }
  }

  lemma FillEnds(c: Cache, dev: nat, ranges: seq<Range>, out: seq<seq<Block>>, runs: seq<Run>)
    requires Filling(c, dev, ranges, out, runs, |runs|)
    ensures Shaped(out, ranges)
    ensures forall r, i | 0 <= r < |ranges| && 0 <= i < ranges[r].count :: out[r][i] == Logical(c, RangeKey(dev, ranges[r], i))
  {
  }

  lemma RunBlock(c: Cache, dev: nat, ranges: seq<Range>, out: seq<seq<Block>>, runs: seq<Run>, m: nat, b: nat)
    requires Filling(c, dev, ranges, out, runs, |runs|) && m < |runs| && runs[m].first <= b < runs[m].end
    ensures runs[m].r < |ranges|
    ensures RunBlocks(c.disk, dev, ranges, runs[m])[b - runs[m].first] == Logical(c, RangeKey(dev, ranges[runs[m].r], b))
  {
    assert RunOf(c, dev, runs[m].r, ranges[runs[m].r], runs[m]);
  }

  /** A block with bytes replaced from `off`. */
  function Patch(b: Block, off: nat, data: seq<byte>): (r: Block)
    requires off + |data| <= BLOCK_SZ
    ensures forall i | 0 <= i < BLOCK_SZ :: r[i] == if off <= i < off + |data| then data[i - off] else b[i]
  {
    b[..off] + data + b[off + |data|..]
  }

  lemma PatchSafe(c: Cache, k: Key, off: nat, data: seq<byte>)
    requires Inv(c) && k in c.table && off + |data| <= BLOCK_SZ
    ensures var c1 := c.(table := c.table[k := c.table[k].(data := Patch(c.table[k].data, off, data), modified := true, ref := true)]);
            Inv(c1) && forall q :: Logical(c1, q) == if q == k then Patch(Logical(c, k), off, data) else Logical(c, q)
  {
  }

  lemma SyncSafe(c: Cache, k: Key)
    requires Coherent(c) && k in c.table
    ensures var c1 := c.(disk := c.disk[k := c.table[k].data], table := c.table[k := c.table[k].(modified := false)]);
            Coherent(c1) && SameDisk(c, c1)
  {
  }

  lemma ReadyIsInv(c: Cache)
    requires Ready(c, AllPinned)
    ensures Inv(c)
  {
  }
}
