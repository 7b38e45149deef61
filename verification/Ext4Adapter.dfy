/**
 The adapter that gives the ext4 driver byte-addressed access to a device through the block cache.
 */
module Ext4Adapter {
  import opened Basics
  import opened Bytes
  import opened BlockCache
  import opened BlockCacheManager

  const EXT4_BLOCK: nat := 4096

  /** Byte `p` of device `d` as the users of the cache see it. */
  function ByteAt(c: Cache, d: nat, p: nat): byte {
    Logical(c, Key(d, p / BLOCK_SZ))[p % BLOCK_SZ]
  }

  /** `c'` is `c` with `data` stored from byte `start` of device `dev`, and nothing else changed. */
  ghost predicate Written(c: Cache, c': Cache, dev: nat, start: nat, data: seq<byte>) {
    forall d, p: nat :: ByteAt(c', d, p) == if d == dev && start <= p < start + |data| then data[p - start] else ByteAt(c, d, p)
  }

  datatype ByteWrite = ByteWrite(offset: nat, data: seq<byte>)

  predicate Aligned(w: ByteWrite) { w.offset % BLOCK_SZ == 0 && |w.data| % BLOCK_SZ == 0 }

  predicate Touches(dev: nat, w: ByteWrite, d: nat, p: nat) {
    d == dev && w.offset <= p < w.offset + |w.data|
  }

  /** Byte `p` after the writes are stored in order over `base`. */
  function AfterAll(dev: nat, writes: seq<ByteWrite>, d: nat, p: nat, base: byte): byte {
    if writes == [] then base
    else
      var w := writes[|writes| - 1];
      if Touches(dev, w, d, p) then w.data[p - w.offset] else AfterAll(dev, writes[..|writes| - 1], d, p, base)
  }

  // ---------------------------------------------------------------- blocks and bytes

  function Join(blocks: seq<Block>): (s: seq<byte>)
    ensures |s| == BLOCK_SZ * |blocks|
  {
    if blocks == [] then [] else Join(blocks[..|blocks| - 1]) + blocks[|blocks| - 1]
  }

  lemma {:induction false} JoinAt(blocks: seq<Block>, i: nat, o: nat)
    requires i < |blocks| && o < BLOCK_SZ
    ensures BLOCK_SZ * i + o < |Join(blocks)| && Join(blocks)[BLOCK_SZ * i + o] == blocks[i][o]
  {
    if i < |blocks| - 1 {
      JoinAt(blocks[..|blocks| - 1], i, o);
    }
  }

  function Cut(data: seq<byte>, i: nat): Block
    requires BLOCK_SZ * (i + 1) <= |data|
  {
    data[BLOCK_SZ * i..BLOCK_SZ * (i + 1)]
  }

  /** Whole blocks of a byte string. */
  function Blocks(data: seq<byte>): (b: seq<Block>)
    requires |data| % BLOCK_SZ == 0
    ensures |b| * BLOCK_SZ == |data|
    ensures forall i | 0 <= i < |b| :: b[i] == Cut(data, i)
  {
    seq<Block>(|data| / BLOCK_SZ, (i: nat) requires BLOCK_SZ * (i + 1) <= |data| => Cut(data, i))
  }

  lemma Locate(p: nat, b: nat, o: nat)
    requires o < BLOCK_SZ && p == BLOCK_SZ * b + o
    ensures p / BLOCK_SZ == b && p % BLOCK_SZ == o
  {
  }

  lemma Split(p: nat)
    ensures p == BLOCK_SZ * (p / BLOCK_SZ) + p % BLOCK_SZ && p % BLOCK_SZ < BLOCK_SZ
  {
  }

  lemma Compose(c: Cache, c1: Cache, c2: Cache, dev: nat, start: nat, d1: seq<byte>, d2: seq<byte>)
    requires Written(c, c1, dev, start, d1) && Written(c1, c2, dev, start + |d1|, d2)
    ensures Written(c, c2, dev, start, d1 + d2)
  {
    hide ByteAt;
  }

  /** Patching one block stores the bytes at its place. */
  lemma PatchStores(c: Cache, c': Cache, dev: nat, b: nat, off: nat, data: seq<byte>)
    requires off + |data| <= BLOCK_SZ
    requires forall q :: Logical(c', q) == if q == Key(dev, b) then Patch(Logical(c, q), off, data) else Logical(c, q)
    ensures Written(c, c', dev, BLOCK_SZ * b + off, data)
  {
    hide Logical, Patch;
    forall d, p: nat
      ensures ByteAt(c', d, p) ==
              if d == dev && BLOCK_SZ * b + off <= p < BLOCK_SZ * b + off + |data| then data[p - (BLOCK_SZ * b + off)] else ByteAt(c, d, p)
    {
      Split(p);
      if d == dev && p / BLOCK_SZ == b {
        PatchByte(Logical(c, Key(dev, b)), off, data, p % BLOCK_SZ);
      }
    }
  }

  lemma PatchByte(block: Block, off: nat, data: seq<byte>, k: nat)
    requires off + |data| <= BLOCK_SZ && k < BLOCK_SZ
    ensures Patch(block, off, data)[k] == if off <= k < off + |data| then data[k - off] else block[k]
  {
  }

  /** Storing whole blocks stores their bytes. */
  lemma BlocksStore(c: Cache, c': Cache, dev: nat, b: nat, data: seq<byte>)
    requires |data| % BLOCK_SZ == 0
    requires forall q :: Logical(c', q) == AfterWrites(dev, [BlockWrite(b, Blocks(data))], q, Logical(c, q))
    ensures Written(c, c', dev, BLOCK_SZ * b, data)
  {
    var w := BlockWrite(b, Blocks(data));
    forall d, p: nat
      ensures ByteAt(c', d, p) == if d == dev && BLOCK_SZ * b <= p < BLOCK_SZ * b + |data| then data[p - BLOCK_SZ * b] else ByteAt(c, d, p)
    {
      var q := Key(d, p / BLOCK_SZ);
      assert AfterWrites(dev, [w], q, Logical(c, q)) == if Hits(dev, w, q) then w.data[q.block - b] else Logical(c, q) by {
        assert [w][..0] == [];
      }
      BlockByte(w, dev, d, p, data);
    }
  }

  lemma BlockByte(w: BlockWrite, dev: nat, d: nat, p: nat, data: seq<byte>)
    requires |data| % BLOCK_SZ == 0 && w.data == Blocks(data)
    ensures Hits(dev, w, Key(d, p / BLOCK_SZ)) <==> d == dev && BLOCK_SZ * w.start <= p < BLOCK_SZ * w.start + |data|
    ensures Hits(dev, w, Key(d, p / BLOCK_SZ)) ==> w.data[p / BLOCK_SZ - w.start][p % BLOCK_SZ] == data[p - BLOCK_SZ * w.start]
  {
    Split(p);
    if Hits(dev, w, Key(d, p / BLOCK_SZ)) {
      assert w.data[p / BLOCK_SZ - w.start] == Cut(data, p / BLOCK_SZ - w.start);
    }
  }

  class Adapter {
    const dev: nat
    const cache: Manager

    constructor (dev: nat, cache: Manager)
      ensures this.dev == dev && this.cache == cache
    {
      this.dev, this.cache := dev, cache;
    }

    /** Store bytes inside one block. */
    method WriteInBlock(b: nat, off: nat, data: seq<byte>) returns (ok: bool)
      requires Inv(cache.St()) && off + |data| <= BLOCK_SZ
      modifies cache
      ensures Inv(cache.St())
      ensures Written(old(cache.St()), cache.St(), dev, BLOCK_SZ * b + off, if ok then data else [])
      ensures !ok ==> FullPinned(cache.St())
    {
      hide Inv, Written, FullPinned;
      var k := Key(dev, b);
      ghost var c := cache.St();
      ok := cache.GetBlock(k);
      ghost var c1 := cache.St();
      if !ok {
        SamePins(c, c1);
        NothingStored(c, c1, dev, BLOCK_SZ * b + off);
        return;
      }
      cache.WriteBytes(k, off, data);
      ghost var c2 := cache.St();
      cache.Release(k);
      ghost var c3 := cache.St();
      SameAround(c, c1, c2, c3, k, off, data);
      PatchStores(c, c3, dev, b, off, data);
    }

    /** Store bytes anywhere. The result says how many leading bytes took effect: all of them,
        unless a block had to be loaded while every cached block was pinned. */
    method WriteOffset(offset: nat, data: seq<byte>) returns (written: nat)
      requires Inv(cache.St())
      modifies cache
      ensures Inv(cache.St()) && written <= |data|
      ensures Written(old(cache.St()), cache.St(), dev, offset, data[..written])
      ensures written < |data| ==> FullPinned(cache.St())
    {
      hide Inv, Written, FullPinned;
      ghost var c := cache.St();
      written := 0;
      NothingStored(c, c, dev, offset);
      assert data[..0] == [];
      if data == [] {
        return;
      }
      if offset % BLOCK_SZ != 0 {
        Split(offset);
        var len := Min(BLOCK_SZ - offset % BLOCK_SZ, |data|);
        var ok := WriteInBlock(offset / BLOCK_SZ, offset % BLOCK_SZ, data[..len]);
        if !ok {
          return;
        }
        written := len;
      }
      ghost var c1 := cache.St();
      Boundary(offset, |data|, written);
      var aligned := (|data| - written) / BLOCK_SZ * BLOCK_SZ;
      if aligned != 0 {
        var middle := data[written..written + aligned];
        var start := (offset + written) / BLOCK_SZ;
        cache.OverwriteRanges(dev, [BlockWrite(start, Blocks(middle))]);
        BlocksStore(c1, cache.St(), dev, start, middle);
        Compose(c, c1, cache.St(), dev, offset, data[..written], middle);
        assert data[..written] + middle == data[..written + aligned];
        written := written + aligned;
      }
      ghost var c2 := cache.St();
      if written < |data| {
        var tail := data[written..];
        var ok := WriteInBlock((offset + written) / BLOCK_SZ, 0, tail);
        Compose(c, c2, cache.St(), dev, offset, data[..written], if ok then tail else []);
        assert data[..written] + tail == data[..|data|];
        assert data[..written] + [] == data[..written];
        if ok {
          written := |data|;
        }
      }
    }

    /** Store several writes in order, batching runs of aligned ones. All of them take effect, unless an
        unaligned one stops short; then it and every later one are dropped after `partial` bytes. */
    method WriteOffsetsMany(writes: seq<ByteWrite>) returns (done: nat, partial: nat)
      requires Inv(cache.St())
      modifies cache
      ensures Inv(cache.St()) && done <= |writes|
      ensures partial <= if done < |writes| then |writes[done].data| else 0
      ensures var effect := if done == |writes| then writes
                            else writes[..done] + [ByteWrite(writes[done].offset, writes[done].data[..partial])];
              AllWritten(old(cache.St()), cache.St(), dev, effect)
      ensures done < |writes| ==> FullPinned(cache.St())
    {
      hide Inv, Written, AllWritten, Deferred, FullPinned;
      ghost var c := cache.St();
      var pending: seq<BlockWrite> := [];
      done, partial := 0, 0;
      DeferStarts(c, dev);
      while done < |writes|
        invariant done <= |writes|
        invariant Inv(cache.St()) && Deferred(c, cache.St(), dev, writes[..done], pending)
      {
        var w := writes[done];
        assert writes[..done] + [w] == writes[..done + 1];
        if w.data == [] {
          DeferEmpty(c, cache.St(), dev, writes[..done], w, pending);
        } else if Aligned(w) {
          DeferOne(c, cache.St(), dev, writes[..done], w, pending);
          pending := pending + [BlockWrite(w.offset / BLOCK_SZ, Blocks(w.data))];
        } else {
          ghost var c1 := cache.St();
          if pending != [] {
            cache.OverwriteRanges(dev, pending);
          } else {
            NoWrites(dev);
          }
          ghost var c2 := cache.St();
          DeferFlush(c, c1, c2, dev, writes[..done], pending);
          pending := [];
          partial := WriteOffset(w.offset, w.data);
          WriteOne(c, c2, cache.St(), dev, writes[..done], ByteWrite(w.offset, w.data[..partial]));
          if partial < |w.data| {
            return;
          }
          assert w.data[..partial] == w.data;
          DeferNone(c, cache.St(), dev, writes[..done + 1]);
          partial := 0;
        }
        done := done + 1;
      }
      assert writes[..|writes|] == writes;
      ghost var c1 := cache.St();
      if pending != [] {
        cache.OverwriteRanges(dev, pending);
      } else {
        NoWrites(dev);
      }
      DeferFlush(c, c1, cache.St(), dev, writes, pending);
    }

    /** Read one ext4 block from any byte offset. */
    method ReadOffset(offset: nat) returns (out: seq<byte>)
      requires Inv(cache.St())
      modifies cache
      ensures Inv(cache.St()) && SameDisk(old(cache.St()), cache.St())
      ensures out == Extent(old(cache.St()), dev, offset, EXT4_BLOCK)
    {
      hide Inv, SameDisk;
      ghost var c := cache.St();
      var first := offset / BLOCK_SZ;
      var end := (offset + EXT4_BLOCK + BLOCK_SZ - 1) / BLOCK_SZ;
      Split(offset);
      Split(offset + EXT4_BLOCK + BLOCK_SZ - 1);
      var range := Range(first, end - first);
      var got, _ := cache.ReadRanges(dev, [range]);
      assert |got[0]| == [range][0].count;
      forall i | 0 <= i < range.count ensures got[0][i] == Logical(c, RangeKey(dev, range, i)) {
        assert got[0][i] == Logical(c, RangeKey(dev, [range][0], i));
      }
      JoinReads(c, dev, range, got[0]);
      var aligned := Join(got[0]);
      SubBytes(c, dev, BLOCK_SZ * first, BLOCK_SZ * range.count, offset - BLOCK_SZ * first, EXT4_BLOCK);
      out := aligned[offset - BLOCK_SZ * first..][..EXT4_BLOCK];
    }

    /** Read several ext4 blocks at once, merging adjacent ones. Each is read from the device block
        that holds its offset. */
    method ReadOffsets(offsets: seq<nat>) returns (data: seq<byte>)
      requires Inv(cache.St())
      modifies cache
      ensures Inv(cache.St()) && SameDisk(old(cache.St()), cache.St())
      ensures data == Chunks(old(cache.St()), dev, offsets)
    {
      hide Inv, SameDisk;
      ghost var c := cache.St();
      var ranges: seq<Range> := [];
      ghost var cuts: seq<nat> := [0];
      var runStart := 0;
      while runStart < |offsets|
        invariant runStart <= |offsets| && |cuts| == |ranges| + 1 && cuts[|ranges|] == runStart && cuts[0] == 0
        invariant forall r | 0 <= r < |ranges| :: MergedRun(offsets, cuts[r], cuts[r + 1], ranges[r])
      {
        var runEnd := runStart + 1;
        while runEnd < |offsets| && offsets[runEnd] == offsets[runEnd - 1] + EXT4_BLOCK
          invariant runStart < runEnd <= |offsets|
          invariant Adjacent(offsets, runStart, runEnd)
        {
          runEnd := runEnd + 1;
        }
        ranges := ranges + [Range(offsets[runStart] / BLOCK_SZ, (runEnd - runStart) * 8)];
        cuts := cuts + [runEnd];
        runStart := runEnd;
      }
      var got, _ := cache.ReadRanges(dev, ranges);
      data := [];
      for r := 0 to |ranges|
        invariant cuts[r] <= |offsets|
        invariant data == Chunks(c, dev, offsets[..cuts[r]])
        modifies {}
      {
        assert MergedRun(offsets, cuts[r], cuts[r + 1], ranges[r]);
        JoinReads(c, dev, ranges[r], got[r]);
        RunChunks(c, dev, offsets, cuts[r], cuts[r + 1], BLOCK_SZ * ranges[r].start, BLOCK_SZ * ranges[r].count);
        data := data + Join(got[r]);
      }
      assert offsets[..|offsets|] == offsets;
    }
  }

  // ---------------------------------------------------------------- reads

  /** `n` bytes of a device from byte `p`. */
  function Extent(c: Cache, d: nat, p: nat, n: nat): (s: seq<byte>)
    ensures |s| == n && forall i | 0 <= i < n :: s[i] == ByteAt(c, d, p + i)
  {
    seq(n, (i: nat) => ByteAt(c, d, p + i))
  }

  lemma SubBytes(c: Cache, d: nat, p: nat, n: nat, from: nat, len: nat)
    requires from + len <= n
    ensures Extent(c, d, p, n)[from..][..len] == Extent(c, d, p + from, len)
  {
  }

  /** The blocks of a range, joined, are its bytes. */
  lemma JoinReads(c: Cache, dev: nat, range: Range, got: seq<Block>)
    requires |got| == range.count
    requires forall i | 0 <= i < range.count :: got[i] == Logical(c, RangeKey(dev, range, i))
    ensures Join(got) == Extent(c, dev, BLOCK_SZ * range.start, BLOCK_SZ * range.count)
  {
    var b := Extent(c, dev, BLOCK_SZ * range.start, BLOCK_SZ * range.count);
    forall p | 0 <= p < |b| ensures Join(got)[p] == b[p] {
      Split(p);
      JoinAt(got, p / BLOCK_SZ, p % BLOCK_SZ);
      Locate(BLOCK_SZ * range.start + p, range.start + p / BLOCK_SZ, p % BLOCK_SZ);
      assert got[p / BLOCK_SZ] == Logical(c, RangeKey(dev, range, p / BLOCK_SZ));
    }
  }

  /** One chunk: the ext4 block from the device block that holds the offset. */
  function Chunk(c: Cache, dev: nat, offset: nat): (s: seq<byte>)
    ensures |s| == EXT4_BLOCK
  {
    Extent(c, dev, offset / BLOCK_SZ * BLOCK_SZ, EXT4_BLOCK)
  }

  /** The reads one at a time. */
  function Chunks(c: Cache, dev: nat, offsets: seq<nat>): (s: seq<byte>)
    ensures |s| == EXT4_BLOCK * |offsets|
  {
    if offsets == [] then [] else Chunks(c, dev, offsets[..|offsets| - 1]) + Chunk(c, dev, offsets[|offsets| - 1])
  }

  /** An aligned offset is read exactly. */
  lemma ChunkExact(c: Cache, dev: nat, offset: nat)
    ensures offset % BLOCK_SZ == 0 ==> Chunk(c, dev, offset) == Extent(c, dev, offset, EXT4_BLOCK)
  {
    Split(offset);
  }

  ghost predicate Adjacent(offsets: seq<nat>, from: nat, end: nat)
    requires end <= |offsets|
  {
    forall n | from < n < end :: offsets[n] == offsets[n - 1] + EXT4_BLOCK
  }

  ghost predicate MergedRun(offsets: seq<nat>, from: nat, end: nat, range: Range) {
    && from < end <= |offsets| && Adjacent(offsets, from, end)
    && range == Range(offsets[from] / BLOCK_SZ, (end - from) * 8)
  }

  /** A merged read delivers what its offsets ask for. */
  lemma {:induction false} RunChunks(c: Cache, dev: nat, offsets: seq<nat>, from: nat, end: nat, p: nat, n: nat)
    requires from < end <= |offsets| && Adjacent(offsets, from, end)
    requires p == offsets[from] / BLOCK_SZ * BLOCK_SZ && n == EXT4_BLOCK * (end - from)
    ensures Chunks(c, dev, offsets[..from]) + Extent(c, dev, p, n) == Chunks(c, dev, offsets[..end])
    decreases end
  {
    hide Extent, Chunk, Chunks, ByteAt;
    var last, m := offsets[end - 1], n - EXT4_BLOCK;
    RunOffset(offsets, from, end);
    ChunkIs(c, dev, last, p + m);
    ChunksStep(c, dev, offsets, end);
    if end - 1 > from {
      RunChunks(c, dev, offsets, from, end - 1, p, m);
      ExtentJoin(c, dev, p, m, EXT4_BLOCK);
      Assoc(Chunks(c, dev, offsets[..from]), Extent(c, dev, p, m), Chunk(c, dev, last));
    }
  }

  lemma Assoc(a: seq<byte>, b: seq<byte>, c: seq<byte>)
    ensures (a + b) + c == a + (b + c)
  {
  }

  lemma ChunksStep(c: Cache, dev: nat, offsets: seq<nat>, end: nat)
    requires 0 < end <= |offsets|
    ensures Chunks(c, dev, offsets[..end]) == Chunks(c, dev, offsets[..end - 1]) + Chunk(c, dev, offsets[end - 1])
  {
    assert offsets[..end][..end - 1] == offsets[..end - 1];
  }

  lemma ExtentJoin(c: Cache, d: nat, p: nat, n: nat, m: nat)
    ensures Extent(c, d, p, n + m) == Extent(c, d, p, n) + Extent(c, d, p + n, m)
  {
  }

  lemma ChunkIs(c: Cache, dev: nat, offset: nat, p: nat)
    requires offset / BLOCK_SZ * BLOCK_SZ == p
    ensures Chunk(c, dev, offset) == Extent(c, dev, p, EXT4_BLOCK)
  {
  }

  lemma {:induction false} RunOffset(offsets: seq<nat>, from: nat, end: nat)
    requires from < end <= |offsets| && Adjacent(offsets, from, end)
    ensures offsets[end - 1] / BLOCK_SZ * BLOCK_SZ == BLOCK_SZ * (offsets[from] / BLOCK_SZ) + EXT4_BLOCK * (end - 1 - from)
    decreases end
  {
    if from < end - 1 {
      RunOffset(offsets, from, end - 1);
      assert offsets[end - 1] == offsets[end - 2] + EXT4_BLOCK;
      Split(offsets[end - 2]);
      Locate(offsets[end - 1], offsets[end - 2] / BLOCK_SZ + 8, offsets[end - 2] % BLOCK_SZ);
    }
  }

  // ---------------------------------------------------------------- deferred writes

  /** `c'` is `c` with the writes stored in order. */
  ghost predicate AllWritten(c: Cache, c': Cache, dev: nat, writes: seq<ByteWrite>) {
    forall d, p: nat :: ByteAt(c', d, p) == AfterAll(dev, writes, d, p, ByteAt(c, d, p))
  }

  function PendingByte(c: Cache, dev: nat, pending: seq<BlockWrite>, d: nat, p: nat): byte {
    var k := Key(d, p / BLOCK_SZ);
    AfterWrites(dev, pending, k, Logical(c, k))[p % BLOCK_SZ]
  }

  /** The writes are stored in `c'` except for the aligned ones still pending. */
  ghost predicate Deferred(c: Cache, c': Cache, dev: nat, writes: seq<ByteWrite>, pending: seq<BlockWrite>) {
    forall d, p: nat :: PendingByte(c', dev, pending, d, p) == AfterAll(dev, writes, d, p, ByteAt(c, d, p))
  }

  lemma AfterOne(dev: nat, writes: seq<ByteWrite>, w: ByteWrite, d: nat, p: nat, base: byte)
    ensures AfterAll(dev, writes + [w], d, p, base) ==
            if Touches(dev, w, d, p) then w.data[p - w.offset] else AfterAll(dev, writes, d, p, base)
  {
    var ws := writes + [w];
    assert ws[..|ws| - 1] == writes && ws[|ws| - 1] == w;
  }

  lemma AfterOneBlock(dev: nat, writes: seq<BlockWrite>, w: BlockWrite, k: Key, base: Block)
    ensures AfterWrites(dev, writes + [w], k, base) ==
            if Hits(dev, w, k) then w.data[k.block - w.start] else AfterWrites(dev, writes, k, base)
  {
    var ws := writes + [w];
    assert ws[..|ws| - 1] == writes && ws[|ws| - 1] == w;
  }

  lemma DeferStarts(c: Cache, dev: nat)
    ensures Deferred(c, c, dev, [], [])
  {
  }

  lemma DeferEmpty(c: Cache, c': Cache, dev: nat, writes: seq<ByteWrite>, w: ByteWrite, pending: seq<BlockWrite>)
    requires Deferred(c, c', dev, writes, pending) && w.data == []
    ensures Deferred(c, c', dev, writes + [w], pending)
  {
    hide ByteAt, PendingByte, AfterAll;
    forall d, p: nat ensures PendingByte(c', dev, pending, d, p) == AfterAll(dev, writes + [w], d, p, ByteAt(c, d, p)) {
      AfterOne(dev, writes, w, d, p, ByteAt(c, d, p));
    }
  }

  lemma DeferOne(c: Cache, c': Cache, dev: nat, writes: seq<ByteWrite>, w: ByteWrite, pending: seq<BlockWrite>)
    requires Deferred(c, c', dev, writes, pending) && Aligned(w)
    ensures Deferred(c, c', dev, writes + [w], pending + [BlockWrite(w.offset / BLOCK_SZ, Blocks(w.data))])
  {
    hide ByteAt, AfterAll, AfterWrites, Blocks;
    var b := BlockWrite(w.offset / BLOCK_SZ, Blocks(w.data));
    Split(w.offset);
    forall d, p: nat ensures PendingByte(c', dev, pending + [b], d, p) == AfterAll(dev, writes + [w], d, p, ByteAt(c, d, p)) {
      var k := Key(d, p / BLOCK_SZ);
      AfterOne(dev, writes, w, d, p, ByteAt(c, d, p));
      AfterOneBlock(dev, pending, b, k, Logical(c', k));
      BlockByte(b, dev, d, p, w.data);
      assert PendingByte(c', dev, pending, d, p) == AfterAll(dev, writes, d, p, ByteAt(c, d, p));
    }
  }

  lemma DeferFlush(c: Cache, c1: Cache, c2: Cache, dev: nat, writes: seq<ByteWrite>, pending: seq<BlockWrite>)
    requires Deferred(c, c1, dev, writes, pending)
    requires forall k :: Logical(c2, k) == AfterWrites(dev, pending, k, Logical(c1, k))
    ensures AllWritten(c, c2, dev, writes)
  {
    hide AfterAll, AfterWrites;
    forall d, p: nat ensures ByteAt(c2, d, p) == AfterAll(dev, writes, d, p, ByteAt(c, d, p)) {
      assert PendingByte(c1, dev, pending, d, p) == AfterAll(dev, writes, d, p, ByteAt(c, d, p));
    }
  }

  lemma DeferNone(c: Cache, c': Cache, dev: nat, writes: seq<ByteWrite>)
    requires AllWritten(c, c', dev, writes)
    ensures Deferred(c, c', dev, writes, [])
  {
    hide AfterAll;
    forall d, p: nat ensures PendingByte(c', dev, [], d, p) == AfterAll(dev, writes, d, p, ByteAt(c, d, p)) {
      assert ByteAt(c', d, p) == AfterAll(dev, writes, d, p, ByteAt(c, d, p));
    }
  }

  lemma WriteOne(c: Cache, c1: Cache, c2: Cache, dev: nat, writes: seq<ByteWrite>, w: ByteWrite)
    requires AllWritten(c, c1, dev, writes) && Written(c1, c2, dev, w.offset, w.data)
    ensures AllWritten(c, c2, dev, writes + [w])
  {
    hide ByteAt, AfterAll;
    forall d, p: nat ensures ByteAt(c2, d, p) == AfterAll(dev, writes + [w], d, p, ByteAt(c, d, p)) {
      AfterOne(dev, writes, w, d, p, ByteAt(c, d, p));
    }
  }

  // ---------------------------------------------------------------- boundaries

  /** The head of a write ends on a block boundary unless it ends the write; so does the middle. */
  lemma Boundary(offset: nat, len: nat, head: nat)
    requires head == if offset % BLOCK_SZ == 0 then 0 else Min(BLOCK_SZ - offset % BLOCK_SZ, len)
    ensures head < len ==> BLOCK_SZ * ((offset + head) / BLOCK_SZ) == offset + head
    ensures var aligned := (len - head) / BLOCK_SZ * BLOCK_SZ;
            && aligned % BLOCK_SZ == 0 && len - head - aligned < BLOCK_SZ
            && (head < len ==> BLOCK_SZ * ((offset + head + aligned) / BLOCK_SZ) == offset + head + aligned)
  {
    Split(offset);
    Split(len - head);
    if head < len {
      var b := if offset % BLOCK_SZ == 0 then offset / BLOCK_SZ else offset / BLOCK_SZ + 1;
      Locate(offset + head, b, 0);
      Locate(offset + head + (len - head) / BLOCK_SZ * BLOCK_SZ, b + (len - head) / BLOCK_SZ, 0);
    }
    Locate((len - head) / BLOCK_SZ * BLOCK_SZ, (len - head) / BLOCK_SZ, 0);
  }

  lemma SamePins(c: Cache, c': Cache)
    requires FullPinned(c) && c'.table == c.table
    ensures FullPinned(c')
  {
  }

  lemma NothingStored(c: Cache, c': Cache, dev: nat, start: nat)
    requires SameDisk(c, c')
    ensures Written(c, c', dev, start, [])
  {
  }

  lemma SameAround(c: Cache, c1: Cache, c2: Cache, c3: Cache, k: Key, off: nat, data: seq<byte>)
    requires SameDisk(c, c1) && SameDisk(c2, c3) && off + |data| <= BLOCK_SZ
    requires forall q :: Logical(c2, q) == if q == k then Patch(Logical(c1, k), off, data) else Logical(c1, q)
    ensures forall q :: Logical(c3, q) == if q == k then Patch(Logical(c, q), off, data) else Logical(c, q)
  {
  }
}
