/**
 Growing, clearing, reading and writing one EasyFS file, block by block on the disk.
 */
module EasyInode {
  import opened Basics
  import opened Bytes
  import opened BlockCache
  import opened EasyTree
  import Cache = BlockCacheManager

  /** The first `pos` new blocks have been stored. */
  ghost predicate Growing(t0: Tree, slots: seq<Slot>, ids: seq<nat>, pos: nat, t: Tree) {
    && pos <= |slots| == |ids| && AllInTree(slots) && AllU32(ids)
    && t == PutSeq(t0, slots[..pos], ids[..pos])
  }

  lemma GrowingStarts(t0: Tree, slots: seq<Slot>, ids: seq<nat>)
    requires |slots| == |ids| && AllInTree(slots) && AllU32(ids)
    ensures Growing(t0, slots, ids, 0, t0)
  {
  }

  lemma GrowingStep(t0: Tree, slots: seq<Slot>, ids: seq<nat>, pos: nat, t: Tree)
    requires Growing(t0, slots, ids, pos, t) && pos < |slots|
    ensures InTree(slots[pos]) && ids[pos] < U32 && Growing(t0, slots, ids, pos + 1, Put(t, slots[pos], ids[pos]))
  {
    hide Put;
    assert slots[..pos + 1][..pos] == slots[..pos] && ids[..pos + 1][..pos] == ids[..pos];
  }

  lemma GrowingEnds(t0: Tree, slots: seq<Slot>, ids: seq<nat>, t: Tree)
    requires Growing(t0, slots, ids, |slots|, t)
    ensures AllInTree(slots) && AllU32(ids) && t == PutSeq(t0, slots, ids)
  {
    assert slots[..|slots|] == slots && ids[..|ids|] == ids;
  }

  /** The slots that growth from `n` to `m` blocks fills. */
  function NewSlots(n: nat, m: nat): seq<Slot> {
    if |SlotSeq(n)| <= |SlotSeq(m)| then SlotSeq(m)[|SlotSeq(n)|..] else []
  }

  /** The slot filled at each point of the growth from `n` to `m` blocks. */
  lemma SlotAt(n: nat, m: nat, cur: nat, j: nat)
    requires n <= cur < m && j < |SlotsFor(cur)|
    ensures Total(n) <= Total(cur) && Total(cur) - Total(n) + j < |NewSlots(n, m)|
    ensures NewSlots(n, m)[Total(cur) - Total(n) + j] == SlotsFor(cur)[j]
    ensures Total(cur + 1) == Total(cur) + |SlotsFor(cur)|
  {
    hide SlotsFor, SlotSeq, Total;
    TotalIsSlots(n);
    TotalIsSlots(cur);
    TotalIsSlots(cur + 1);
    SlotPrefix(n, cur);
    SlotPrefix(cur + 1, m);
    SlotStep(cur + 1);
    PrefixAt(SlotSeq(n), SlotSeq(cur), SlotsFor(cur), SlotSeq(m), j);
  }

  lemma PrefixAt(a: seq<Slot>, b: seq<Slot>, f: seq<Slot>, all: seq<Slot>, j: nat)
    requires a <= b && b + f <= all && j < |f|
    ensures |b| - |a| + j < |all[|a|..]| && all[|a|..][|b| - |a| + j] == f[j]
  {
    assert all[|b| + j] == (b + f)[|b| + j];
  }

  lemma NewSlotsInTree(n: nat, m: nat)
    requires n <= m <= LIMIT
    ensures |NewSlots(n, m)| == Total(m) - Total(n) && AllInTree(NewSlots(n, m))
  {
    TotalIsSlots(m);
    TotalIsSlots(n);
    SlotPrefix(n, m);
    SlotSeqExact(m);
    forall j | 0 <= j < |NewSlots(n, m)| ensures InTree(NewSlots(n, m)[j]) {
      assert NewSlots(n, m)[j] == SlotSeq(m)[Total(n) + j];
      UsedInTree(m, SlotSeq(m)[Total(n) + j]);
    }
  }

  class Device {
    var disk: Disk

    constructor ()
      ensures forall b: nat :: Blk(disk, b) == Zeros(BLOCK_SZ)
    {
      disk := map[];
    }

    /** Grow a file: the new blocks fill the next slots of its tree in order. */
    method IncreaseSize(di0: DiskInode, newSize: nat, ids: seq<nat>) returns (di: DiskInode)
      requires di0.size <= newSize && DataBlocks(newSize) <= LIMIT && AllU32(ids)
      requires |ids| == Total(DataBlocks(newSize)) - Total(DataBlocks(di0.size))
      modifies this
      ensures var slots := NewSlots(DataBlocks(di0.size), DataBlocks(newSize));
              && |slots| == |ids| && AllInTree(slots)
              && Tree(di, disk) == PutSeq(Tree(di0.(size := newSize), old(disk)), slots, ids)
    {
      hide Growing, NewSlots, Total, PutSeq;
      var n, m := DataBlocks(di0.size), DataBlocks(newSize);
      assert n <= m;
      di := di0.(size := newSize);
      ghost var t0, slots := Tree(di, disk), NewSlots(n, m);
      NewSlotsInTree(n, m);
      GrowingStarts(t0, slots, ids);
      var cur, pos := n, 0;
      // direct blocks
      while cur < Min(m, DIRECT)
        invariant n <= cur <= m && pos == Total(cur) - Total(n)
        invariant Growing(t0, slots, ids, pos, Tree(di, disk))
      {
        SlotAt(n, m, cur, 0);
        GrowingStep(t0, slots, ids, pos, Tree(di, disk));
        di := di.(direct := di.direct[cur := ids[pos]]);
        cur, pos := cur + 1, pos + 1;
      }
      if m <= DIRECT {
        GrowingEnds(t0, slots, ids, Tree(di, disk));
        return;
      }
      // indirect block
      if cur == DIRECT {
        SlotAt(n, m, cur, 0);
        GrowingStep(t0, slots, ids, pos, Tree(di, disk));
        di := di.(ind1 := ids[pos]);
        pos := pos + 1;
      }
      while cur < Min(m, INDIRECT1_BOUND)
        invariant n <= cur <= m && DIRECT <= cur && pos == Total(cur) - Total(n) + (if cur == DIRECT then 1 else 0)
        invariant Growing(t0, slots, ids, pos, Tree(di, disk))
      {
        SlotAt(n, m, cur, if cur == DIRECT then 1 else 0);
        GrowingStep(t0, slots, ids, pos, Tree(di, disk));
        disk := PutWord(Tree(di, disk), di.ind1, cur - DIRECT, ids[pos]).d;
        cur, pos := cur + 1, pos + 1;
      }
      if m <= INDIRECT1_BOUND {
        GrowingEnds(t0, slots, ids, Tree(di, disk));
        return;
      }
      // double-indirect block
      if cur == INDIRECT1_BOUND {
        SlotAt(n, m, cur, 0);
        GrowingStep(t0, slots, ids, pos, Tree(di, disk));
        di := di.(ind2 := ids[pos]);
        pos := pos + 1;
      }
      FillDouble(di, cur, m, ids, pos, n, t0);
      GrowingEnds(t0, slots, ids, Tree(di, disk));
    }

    /** Fill the double-indirect part from block `from` on. */
    method FillDouble(di: DiskInode, from: nat, m: nat, ids: seq<nat>, start: nat, ghost n: nat, ghost t0: Tree)
      requires INDIRECT1_BOUND <= from && n <= from <= m <= LIMIT
      requires |NewSlots(n, m)| == Total(m) - Total(n) == |ids|
      requires from == INDIRECT1_BOUND ==> from < m
      requires start == Total(from) - Total(n) + (if from == INDIRECT1_BOUND then 1 else 0)
      requires Growing(t0, NewSlots(n, m), ids, start, Tree(di, disk))
      modifies this
      ensures Growing(t0, NewSlots(n, m), ids, |ids|, Tree(di, disk))
    {
      hide Growing, NewSlots, Total, PutSeq, Put, PutWord, SlotsFor, SubId;
      ghost var slots := NewSlots(n, m);
      var a0: nat, b0: nat := (from - INDIRECT1_BOUND) / FAN, (from - INDIRECT1_BOUND) % FAN;
      var a1: nat, b1: nat := (m - INDIRECT1_BOUND) / FAN, (m - INDIRECT1_BOUND) % FAN;
      ghost var cur := from;
      var pos: nat := start;
      while a0 < a1 || (a0 == a1 && b0 < b1)
        invariant b0 < FAN && a0 <= a1 && (a0 == a1 ==> b0 <= b1)
        invariant cur == INDIRECT1_BOUND + 128 * a0 + b0
        invariant n <= cur <= m && pos == Total(cur) - Total(n) + (if cur == INDIRECT1_BOUND then 1 else 0)
        invariant Growing(t0, slots, ids, pos, Tree(di, disk))
        decreases m - cur
      {
        DoubleSlots(cur, a0, b0);
        if b0 == 0 {
          SlotAt(n, m, cur, |SlotsFor(cur)| - 2);
          GrowingStep(t0, slots, ids, pos, Tree(di, disk));
          PutSub(Tree(di, disk), a0, ids[pos]);
          disk := PutWord(Tree(di, disk), di.ind2, a0, ids[pos]).d;
          pos := pos + 1;
        }
        SlotAt(n, m, cur, |SlotsFor(cur)| - 1);
        GrowingStep(t0, slots, ids, pos, Tree(di, disk));
        PutDouble(Tree(di, disk), cur, a0, b0, ids[pos]);
        disk := PutWord(Tree(di, disk), SubId(di, disk, a0), b0, ids[pos]).d;
        b0 := b0 + 1;
        if b0 == FAN {
          a0, b0 := a0 + 1, 0;
        }
        cur, pos := cur + 1, pos + 1;
      }
    }

    /** Empty a file: forget every root of its tree and list every block of it. */
    method ClearSize(di0: DiskInode) returns (di: DiskInode, v: seq<nat>)
      requires DataBlocks(di0.size) <= LIMIT
      ensures di.size == 0 && v == Listed(di0, disk, DataBlocks(di0.size))
      ensures forall i | 0 <= i < DIRECT :: di.direct[i] == if i < DataBlocks(di0.size) then 0 else di0.direct[i]
      ensures di.ind1 == (if DIRECT < DataBlocks(di0.size) then 0 else di0.ind1)
      ensures di.ind2 == (if INDIRECT1_BOUND < DataBlocks(di0.size) then 0 else di0.ind2)
    {
      hide Listed, Head, BlockId, SubId;
      var n := DataBlocks(di0.size);
      di, v := di0.(size := 0), [];
      ListedNone(di0, disk);
      var cur := 0;
      while cur < Min(n, DIRECT)
        invariant cur <= Min(n, DIRECT) && v == Listed(di0, disk, cur)
        invariant di.size == 0 && di.ind1 == di0.ind1 && di.ind2 == di0.ind2
        invariant forall i | 0 <= i < DIRECT :: di.direct[i] == if i < cur then 0 else di0.direct[i]
      {
        ListedNext(di0, disk, cur);
        v := v + [di.direct[cur]];
        di := di.(direct := di.direct[cur := 0]);
        cur := cur + 1;
      }
      if n <= DIRECT {
        return;
      }
      HeadIndirect(di0, disk);
      v := v + [di.ind1];
      var i := 0;
      while i < Min(n - DIRECT, FAN)
        invariant i <= Min(n - DIRECT, FAN)
        invariant v == if i == 0 then Head(di0, disk, DIRECT) else Listed(di0, disk, DIRECT + i)
      {
        ListedNext(di0, disk, DIRECT + i);
        v := v + [Word(Blk(disk, di.ind1), i)];
        i := i + 1;
      }
      di := di.(ind1 := 0);
      if n <= INDIRECT1_BOUND {
        return;
      }
      v := v + [di.ind2];
      v := ListDouble(di0, n, v);
      di := di.(ind2 := 0);
    }

    /** List the double-indirect part. */
    method ListDouble(di: DiskInode, n: nat, v0: seq<nat>) returns (v: seq<nat>)
      requires INDIRECT1_BOUND < n <= LIMIT && v0 == Listed(di, disk, INDIRECT1_BOUND) + [di.ind2]
      ensures v == Listed(di, disk, n)
    {
      hide Listed, Head, BlockId, SubId;
      v := v0;
      var a1: nat, b1: nat := (n - INDIRECT1_BOUND) / FAN, (n - INDIRECT1_BOUND) % FAN;
      for a := 0 to a1
        invariant v == if a == 0 then v0 else Listed(di, disk, INDIRECT1_BOUND + 128 * a)
      {
        HeadDouble(di, disk, a);
        v := v + [SubId(di, disk, a)];
        v := ListEntries(di, a, FAN, v);
      }
      if b1 > 0 {
        HeadDouble(di, disk, a1);
        v := v + [SubId(di, disk, a1)];
        v := ListEntries(di, a1, b1, v);
      }
    }

    /** List the first `count` entries of a low-level indirect block. */
    method ListEntries(di: DiskInode, a: nat, count: nat, v0: seq<nat>) returns (v: seq<nat>)
      requires a < FAN && 0 < count <= FAN && v0 == Head(di, disk, INDIRECT1_BOUND + 128 * a)
      ensures v == Listed(di, disk, INDIRECT1_BOUND + 128 * a + count)
    {
      hide Listed, Head, BlockId, SubId;
      v := v0;
      for b := 0 to count
        invariant v == if b == 0 then v0 else Listed(di, disk, INDIRECT1_BOUND + 128 * a + b)
      {
        ListedNext(di, disk, INDIRECT1_BOUND + 128 * a + b);
        DoubleId(di, disk, a, b);
        v := v + [Word(Blk(disk, SubId(di, disk, a)), b)];
      }
    }

    /** Read up to `len` bytes from `offset`. */
    method ReadAt(di: DiskInode, offset: nat, len: nat) returns (out: seq<byte>)
      requires DataBlocks(di.size) <= LIMIT
      ensures |out| == Min(offset + len, di.size) - Min(offset, Min(offset + len, di.size))
      ensures forall j | 0 <= j < |out| :: offset + j < di.size && out[j] == FileByte(di, disk, offset + j)
    {
      hide BlockId;
      var start, end := offset, Min(offset + len, di.size);
      out := [];
      if start >= end {
        return;
      }
      SizeFits(di.size);
      while true
        invariant offset <= start < end && |out| == start - offset
        invariant forall j | 0 <= j < |out| :: out[j] == FileByte(di, disk, offset + j)
        decreases end - start
      {
        var endBlock := Min((start / BLOCK_SZ + 1) * BLOCK_SZ, end);
        InBlock(start, endBlock, end);
        var from := start % BLOCK_SZ;
        var block := Blk(disk, BlockId(di, disk, start / BLOCK_SZ));
        ghost var before := out;
        out := out + block[from..from + (endBlock - start)];
        forall j | |before| <= j < |out| ensures out[j] == FileByte(di, disk, offset + j) {
          SameBlock(start, endBlock, offset + j);
        }
        if endBlock == end {
          return;
        }
        start := endBlock;
      }
    }

    /** Write bytes inside the file's size. */
    method WriteAt(di: DiskInode, offset: nat, buf: seq<byte>, ghost own: Owners, ghost ino: nat)
      requires buf != [] && offset + |buf| <= di.size && TreeOk(own, ino, di, disk)
      modifies this
      ensures DataOnly(own, ino, old(disk), disk) && DataBlocks(di.size) <= LIMIT
      ensures forall p: nat | p < BLOCK_SZ * DataBlocks(di.size) ::
                FileByte(di, disk, p) == if offset <= p < offset + |buf| then buf[p - offset] else FileByte(di, old(disk), p)
    {
      hide BlockId, TreeOk, Owns, DataOnly, FileByte, DataBlocks;
      var start, end := offset, offset + |buf|;
      ghost var n, d0 := DataBlocks(di.size), disk;
      TreeFacts(own, ino, di, disk);
      SizeFits(di.size);
      DataOnlySelf(own, ino, d0);
      while true
        invariant offset <= start < end
        invariant TreeOk(own, ino, di, disk) && DataOnly(own, ino, d0, disk)
        invariant forall p: nat | p < BLOCK_SZ * n ::
                    FileByte(di, disk, p) == if offset <= p < start then buf[p - offset] else FileByte(di, d0, p)
        decreases end - start
      {
        var endBlock := Min((start / BLOCK_SZ + 1) * BLOCK_SZ, end);
        InBlock(start, endBlock, end);
        var from, written := start % BLOCK_SZ, start - offset;
        var id := BlockId(di, disk, start / BLOCK_SZ);
        var chunk := buf[written..written + (endBlock - start)];
        ghost var d1 := disk;
        disk := disk[id := Cache.Patch(Blk(disk, id), from, chunk)];
        StoreChunk(own, ino, di, d1, start, endBlock, chunk);
        DataOnlyTrans(own, ino, d0, d1, disk);
        if endBlock == end {
          return;
        }
        start := endBlock;
      }
    }
  }

  // ---------------------------------------------------------------- blocks and positions

  lemma SizeFits(size: nat)
    ensures size <= BLOCK_SZ * DataBlocks(size) < size + BLOCK_SZ
  {
  }

  lemma InBlock(start: nat, endBlock: nat, end: nat)
    requires start < end && endBlock == Min((start / BLOCK_SZ + 1) * BLOCK_SZ, end)
    ensures start < endBlock <= end && start % BLOCK_SZ + (endBlock - start) <= BLOCK_SZ
  {
  }

  lemma SameBlock(start: nat, endBlock: nat, p: nat)
    requires start <= p < endBlock <= (start / BLOCK_SZ + 1) * BLOCK_SZ
    ensures p / BLOCK_SZ == start / BLOCK_SZ && p % BLOCK_SZ == start % BLOCK_SZ + (p - start)
  {
    var b := start / BLOCK_SZ;
    assert start == 512 * b + start % BLOCK_SZ;
    assert p == 512 * b + (p - 512 * b) && 0 <= p - 512 * b < 512;
  }

  lemma ChunkByte(start: nat, endBlock: nat, p: nat)
    requires start < endBlock <= (start / BLOCK_SZ + 1) * BLOCK_SZ
    ensures p / BLOCK_SZ == start / BLOCK_SZ ==>
              (start <= p < endBlock <==> start % BLOCK_SZ <= p % BLOCK_SZ < start % BLOCK_SZ + (endBlock - start))
              && p - start == p % BLOCK_SZ - start % BLOCK_SZ
    ensures start <= p < endBlock ==> p / BLOCK_SZ == start / BLOCK_SZ
  {
    if start <= p < endBlock {
      SameBlock(start, endBlock, p);
    }
  }

  /** One block's worth of a write. */
  lemma StoreChunk(own: Owners, ino: nat, di: DiskInode, d: Disk, start: nat, endBlock: nat, chunk: seq<byte>)
    requires TreeOk(own, ino, di, d) && start < endBlock <= di.size && endBlock <= (start / BLOCK_SZ + 1) * BLOCK_SZ
    requires |chunk| == endBlock - start && start % BLOCK_SZ + |chunk| <= BLOCK_SZ
    ensures DataBlocks(di.size) <= LIMIT && start / BLOCK_SZ < DataBlocks(di.size)
    ensures var id := BlockId(di, d, start / BLOCK_SZ);
            var d' := d[id := Cache.Patch(Blk(d, id), start % BLOCK_SZ, chunk)];
            && TreeOk(own, ino, di, d') && DataOnly(own, ino, d, d')
            && forall p: nat | p < BLOCK_SZ * DataBlocks(di.size) ::
                 FileByte(di, d', p) == if start <= p < endBlock then chunk[p - start] else FileByte(di, d, p)
  {
    hide BlockId, Owns, DataOnly, TreeOk;
    var n, i := DataBlocks(di.size), start / BLOCK_SZ;
    TreeFacts(own, ino, di, d);
    SizeFits(di.size);
    var id := BlockId(di, d, i);
    var block := Cache.Patch(Blk(d, id), start % BLOCK_SZ, chunk);
    var d' := d[id := block];
    StoreInBlock(own, ino, di, d, n, i, block, start);
    DataOnlyKeeps(own, ino, d, d', ino, di);
    forall p: nat | p < BLOCK_SZ * n ensures FileByte(di, d', p) == if start <= p < endBlock then chunk[p - start] else FileByte(di, d, p) {
      StoreInBlock(own, ino, di, d, n, i, block, p);
      ChunkByte(start, endBlock, p);
    }
  }

  lemma DataOnlySelf(own: Owners, ino: nat, d: Disk)
    ensures DataOnly(own, ino, d, d)
  {
  }

  // ---------------------------------------------------------------- listing a tree

  function SlotIds(di: DiskInode, d: Disk, slots: seq<Slot>): (ids: seq<nat>)
    requires AllInTree(slots)
    ensures |ids| == |slots| && forall j | 0 <= j < |slots| :: ids[j] == SlotId(di, d, slots[j])
  {
    if slots == [] then [] else SlotIds(di, d, slots[..|slots| - 1]) + [SlotId(di, d, slots[|slots| - 1])]
  }

  lemma SlotIdsConcat(di: DiskInode, d: Disk, a: seq<Slot>, b: seq<Slot>)
    requires AllInTree(a) && AllInTree(b)
    ensures AllInTree(a + b) && SlotIds(di, d, a + b) == SlotIds(di, d, a) + SlotIds(di, d, b)
  {
    hide SlotId;
  }

  lemma SlotSeqInTree(n: nat)
    requires n <= LIMIT
    ensures AllInTree(SlotSeq(n))
  {
    SlotSeqExact(n);
    forall j | 0 <= j < |SlotSeq(n)| ensures InTree(SlotSeq(n)[j]) {
      UsedInTree(n, SlotSeq(n)[j]);
    }
  }

  /** Every block of a tree, in allocation order. */
  function Listed(di: DiskInode, d: Disk, n: nat): seq<nat>
    requires n <= LIMIT
  {
    SlotSeqInTree(n);
    SlotIds(di, d, SlotSeq(n))
  }

  /** The list just before data block `n`: the blocks so far and the index blocks it is first to need. */
  function Head(di: DiskInode, d: Disk, n: nat): seq<nat>
    requires n < LIMIT
  {
    SlotsForInTree(n);
    Listed(di, d, n) + SlotIds(di, d, SlotsFor(n)[..|SlotsFor(n)| - 1])
  }

  lemma SlotsForInTree(n: nat)
    requires n < LIMIT
    ensures AllInTree(SlotsFor(n)) && AllInTree(SlotsFor(n)[..|SlotsFor(n)| - 1])
  {
  }

  lemma ListedNone(di: DiskInode, d: Disk)
    ensures Listed(di, d, 0) == []
  {
  }

  lemma ListedNext(di: DiskInode, d: Disk, n: nat)
    requires n < LIMIT
    ensures Listed(di, d, n + 1) == Head(di, d, n) + [BlockId(di, d, n)]
    ensures n != DIRECT && !(n >= INDIRECT1_BOUND && (n - INDIRECT1_BOUND) % FAN == 0) ==> Head(di, d, n) == Listed(di, d, n)
    ensures n < DIRECT ==> BlockId(di, d, n) == di.direct[n]
    ensures DIRECT <= n < INDIRECT1_BOUND ==> BlockId(di, d, n) == Word(Blk(d, di.ind1), n - DIRECT)
  {
    hide BlockId, Listed, Head, SlotIds;
    ListedHead(di, d, n);
    if n != DIRECT && !(n >= INDIRECT1_BOUND && (n - INDIRECT1_BOUND) % FAN == 0) {
      HeadPlain(di, d, n);
    }
    ReadsThrough(di, d, n);
  }

  lemma LastSlot(n: nat)
    ensures SlotsFor(n) != [] && SlotsFor(n)[|SlotsFor(n)| - 1] == Data(n)
    ensures n != DIRECT && !(n >= INDIRECT1_BOUND && (n - INDIRECT1_BOUND) % FAN == 0) ==> SlotsFor(n) == [Data(n)]
  {
  }

  lemma ListedHead(di: DiskInode, d: Disk, n: nat)
    requires n < LIMIT
    ensures Listed(di, d, n + 1) == Head(di, d, n) + [BlockId(di, d, n)]
  {
    hide BlockId, SlotsFor, SlotSeq, SlotIds;
    SlotsForInTree(n);
    SlotSeqInTree(n);
    LastSlot(n);
    SlotStep(n + 1);
    SlotIdsConcat(di, d, SlotSeq(n), SlotsFor(n));
    SlotIdsSnoc(di, d, SlotsFor(n));
  }

  lemma SlotIdsSnoc(di: DiskInode, d: Disk, slots: seq<Slot>)
    requires AllInTree(slots) && slots != []
    ensures AllInTree(slots[..|slots| - 1])
    ensures SlotIds(di, d, slots) == SlotIds(di, d, slots[..|slots| - 1]) + [SlotId(di, d, slots[|slots| - 1])]
  {
  }

  lemma HeadPlain(di: DiskInode, d: Disk, n: nat)
    requires n < LIMIT && n != DIRECT && !(n >= INDIRECT1_BOUND && (n - INDIRECT1_BOUND) % FAN == 0)
    ensures Head(di, d, n) == Listed(di, d, n)
  {
    hide Listed, SlotsFor;
    LastSlot(n);
    assert SlotsFor(n)[..0] == [];
  }

  lemma ReadsThrough(di: DiskInode, d: Disk, n: nat)
    requires n < LIMIT
    ensures n < DIRECT ==> BlockId(di, d, n) == di.direct[n]
    ensures DIRECT <= n < INDIRECT1_BOUND ==> BlockId(di, d, n) == Word(Blk(d, di.ind1), n - DIRECT)
  {
  }

  lemma HeadIndirect(di: DiskInode, d: Disk)
    ensures Head(di, d, DIRECT) == Listed(di, d, DIRECT) + [di.ind1]
  {
    hide Listed;
    assert SlotsFor(DIRECT)[..1] == [Ind1];
    assert SlotIds(di, d, [Ind1]) == [di.ind1];
  }

  lemma HeadDouble(di: DiskInode, d: Disk, a: nat)
    requires a < FAN
    ensures Head(di, d, INDIRECT1_BOUND + 128 * a) ==
            Listed(di, d, INDIRECT1_BOUND + 128 * a) + (if a == 0 then [di.ind2] else []) + [SubId(di, d, a)]
  {
    hide Listed;
    var n := INDIRECT1_BOUND + 128 * a;
    DoubleSlots(n, a, 0);
    var f := SlotsFor(n)[..|SlotsFor(n)| - 1];
    assert f == (if a == 0 then [Ind2] else []) + [Sub(a)];
    SlotsForInTree(n);
    assert SlotIds(di, d, f) == (if a == 0 then [di.ind2] else []) + [SubId(di, d, a)];
  }

  lemma DoubleId(di: DiskInode, d: Disk, a: nat, b: nat)
    requires a < FAN && b < FAN
    ensures BlockId(di, d, INDIRECT1_BOUND + 128 * a + b) == Word(Blk(d, SubId(di, d, a)), b)
    ensures (INDIRECT1_BOUND + 128 * a + b - INDIRECT1_BOUND) % FAN == b
  {
    hide Word;
    DoubleSlots(INDIRECT1_BOUND + 128 * a + b, a, b);
  }

  lemma PutSub(t: Tree, a: nat, id: nat)
    requires a < FAN && id < U32
    ensures Put(t, Sub(a), id) == Tree(t.di, PutWord(t, t.di.ind2, a, id).d)
  {
  }

  lemma PutDouble(t: Tree, cur: nat, a: nat, b: nat, id: nat)
    requires b < FAN && INDIRECT1_BOUND <= cur == INDIRECT1_BOUND + 128 * a + b < LIMIT && id < U32
    ensures a < FAN && Put(t, Data(cur), id) == Tree(t.di, PutWord(t, SubId(t.di, t.d, a), b, id).d)
  {
    DoubleSlots(cur, a, b);
  }

  lemma DoubleSlots(cur: nat, a: nat, b: nat)
    requires b < FAN && cur == INDIRECT1_BOUND + 128 * a + b
    ensures SlotsFor(cur) == (if cur == INDIRECT1_BOUND then [Ind2] else []) + (if b == 0 then [Sub(a)] else []) + [Data(cur)]
    ensures (cur - INDIRECT1_BOUND) / FAN == a && (cur - INDIRECT1_BOUND) % FAN == b
  {
  }
}
