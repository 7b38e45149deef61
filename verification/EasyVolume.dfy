/**
 What every EasyFS volume keeps: the set bits of the data bitmap are the disjoint union of the
 trees of all files, free blocks are zero, and bytes past a file's size are zero.
 */
module EasyVolume {
  import opened Basics
  import opened Bytes
  import opened BlockCache
  import opened EasyBitmap
  import opened EasyTree
  import opened EasyInode

  datatype Volume = Volume(start: nat, count: nat, d: Disk, bits: seq<BitBlock>, inodes: map<nat, DiskInode>)

  function Blocks(di: DiskInode): nat { DataBlocks(di.size) }

  /** The set bits are exactly a set of block numbers. */
  ghost predicate BitsAre(start: nat, bits: seq<BitBlock>, s: set<nat>) {
    && (forall b | b in s :: start <= b < start + Size(bits))
    && (forall i | 0 <= i < Size(bits) :: Bit(bits, i) <==> start + i in s)
  }

  /** Every file has a tree of its own blocks. */
  ghost predicate Trees(v: Volume, own: Owners) {
    forall ino | ino in v.inodes :: TreeOk(own, ino, v.inodes[ino], v.d)
  }

  ghost predicate Area(v: Volume, own: Owners) {
    && v.count <= Size(v.bits) && v.start + v.count <= U32
    && BitsAre(v.start, v.bits, own.Keys)
    && forall b | b in own :: v.start <= b < v.start + v.count
  }

  /** Free blocks of the data area are zero. */
  ghost predicate Clean(v: Volume, own: Owners) {
    forall b: nat | v.start <= b < v.start + v.count && b !in own :: Blk(v.d, b) == Zeros(BLOCK_SZ)
  }

  /** The slack of a file's last block is zero. */
  ghost predicate Slack(di: DiskInode, d: Disk) {
    Blocks(di) <= LIMIT ==> forall p: nat | di.size <= p < BLOCK_SZ * Blocks(di) :: FileByte(di, d, p) == 0
  }

  ghost predicate Slacks(v: Volume) {
    forall ino | ino in v.inodes :: Slack(v.inodes[ino], v.d)
  }

  ghost predicate VolumeInv(v: Volume, own: Owners) {
    && Trees(v, own) && Area(v, own) && Clean(v, own) && Slacks(v)
    && forall b | b in own :: own[b].ino in v.inodes
  }

  /** A file as its reader sees it. */
  function Contents(di: DiskInode, d: Disk): (f: seq<byte>)
    requires Blocks(di) <= LIMIT
    ensures |f| == di.size && forall p | 0 <= p < di.size :: p < BLOCK_SZ * LIMIT && f[p] == FileByte(di, d, p)
  {
    SizeFits(di.size);
    seq(di.size, p requires 0 <= p < di.size => FileByte(di, d, p))
  }

  /** The first `n` data blocks of a file, one after the other. */
  ghost function Joined(di: DiskInode, d: Disk, n: nat): (f: seq<byte>)
    requires n <= LIMIT
    ensures |f| == BLOCK_SZ * n
  {
    if n == 0 then [] else Joined(di, d, n - 1) + Blk(d, BlockId(di, d, n - 1))
  }

  lemma {:induction false} JoinedAt(di: DiskInode, d: Disk, n: nat, p: nat)
    requires n <= LIMIT && p < BLOCK_SZ * n
    ensures Joined(di, d, n)[p] == FileByte(di, d, p)
  {
    hide BlockId, Blk;
    if p < BLOCK_SZ * (n - 1) {
      JoinedAt(di, d, n - 1, p);
    } else {
      assert p / BLOCK_SZ == n - 1 && p % BLOCK_SZ == p - BLOCK_SZ * (n - 1);
    }
  }

  /** A file is its data blocks in order, cut at its size inside the last one. */
  lemma FileIsBlocks(di: DiskInode, d: Disk)
    requires Blocks(di) <= LIMIT
    ensures var all := Joined(di, d, Blocks(di)); di.size <= |all| < di.size + BLOCK_SZ && Contents(di, d) == all[..di.size]
  {
    var all := Joined(di, d, Blocks(di));
    forall p: nat | p < di.size ensures Contents(di, d)[p] == all[p] {
      JoinedAt(di, d, Blocks(di), p);
    }
  }

  // ---------------------------------------------------------------- allocation

  lemma RangeCard(start: nat, n: nat, s: set<nat>)
    requires forall b: nat | start <= b < start + n :: b in s
    ensures n <= |s|
  {
    if n > 0 {
      var t := s - {start + n - 1};
      RangeCard(start, n - 1, t);
    }
  }

  /** First fit stays below the number of used bits. */
  lemma FirstFit(start: nat, bits: seq<BitBlock>, s: set<nat>, n: nat)
    requires BitsAre(start, bits, s) && n <= Size(bits) && SetBefore(bits, n)
    ensures n <= |s|
  {
    forall b: nat | start <= b < start + n ensures b in s {
      assert Bit(bits, b - start);
    }
    RangeCard(start, n, s);
  }

  /** Blocks of an area are no more than the area. */
  lemma AreaCard(start: nat, n: nat, s: set<nat>)
    requires forall b | b in s :: start <= b < start + n
    ensures |s| <= n
  {
    if n > 0 {
      AreaCard(start, n - 1, s - {start + n - 1});
    } else {
      assert s == {};
    }
  }

  ghost predicate InArea(start: nat, n: nat, s: set<nat>) { forall b | b in s :: start <= b < start + n }

  /** The block first fit takes lies in the area exactly when the area has a free block. */
  lemma FirstFitInArea(start: nat, bits: seq<BitBlock>, s: set<nat>, bit: nat, n: nat)
    requires BitsAre(start, bits, s) && bit < Size(bits) && SetBefore(bits, bit) && !Bit(bits, bit) && InArea(start, n, s)
    ensures start + bit !in s && (bit < n <==> |s| < n) && |s| < Size(bits)
  {
    FirstFit(start, bits, s, bit);
    if bit < n {
      AreaCard(start, n, s + {start + bit});
    }
    AreaCard(start, Size(bits), s + {start + bit});
  }

  lemma BitsSet(start: nat, bits: seq<BitBlock>, s: set<nat>, n: nat, v: bool)
    requires BitsAre(start, bits, s) && n < Size(bits)
    ensures BitsAre(start, SetBit(bits, n, v), if v then s + {start + n} else s - {start + n})
  {
    hide Bit, SetBit;
    forall i: nat | i < Size(bits) ensures Size(SetBit(bits, n, v)) == Size(bits) && (Bit(SetBit(bits, n, v), i) == if i == n then v else Bit(bits, i)) {
      SetBitAt(bits, n, v, i);
    }
    SetBitAt(bits, n, v, n);
  }

  // ---------------------------------------------------------------- growth

  /** Blocks `own'` adds for one file, outside its old tree. */
  ghost predicate Added(v: Volume, own: Owners, own': Owners, ino: nat)
    requires ino in v.inodes
  {
    && (forall b | b in own :: b in own' && own'[b] == own[b])
    && (forall b | b in own' && b !in own ::
          v.start <= b < v.start + v.count && own'[b].ino == ino && !Used(Blocks(v.inodes[ino]), own'[b].slot))
  }

  /** What growing one file leaves: its old bytes and then zeros. */
  lemma GrownByte(own: Owners, own': Owners, ino: nat, v: Volume, di': DiskInode, d': Disk, p: nat)
    requires VolumeInv(v, own) && ino in v.inodes && TreeOk(own', ino, di', d') && Quiet(own', ino, v.d, d')
    requires Added(v, own, own', ino)
    requires v.inodes[ino].size <= di'.size && p < BLOCK_SZ * Blocks(di')
    ensures Blocks(di') <= LIMIT && Blocks(v.inodes[ino]) <= LIMIT
    ensures FileByte(di', d', p) == if p < v.inodes[ino].size then FileByte(v.inodes[ino], v.d, p) else 0
  {
    hide Owns, SlotId, BlockId;
    var di, i := v.inodes[ino], p / BLOCK_SZ;
    var n, m := Blocks(di), Blocks(di');
    SizeFits(di.size);
    OwnsSlot(own', ino, di', d', UsedSet(m), Data(i));
    var b := SlotId(di', d', Data(i));
    SlotData(di', d', i);
    assert Blk(d', b) == Blk(v.d, b);
    assert TreeOk(own, ino, di, v.d);
    if i < n {
      assert b in own && own[b] == Owner(ino, Data(i));
      assert PlacedAt(own[b].slot, di, v.d, UsedSet(n), b);
      SlotData(di, v.d, i);
      assert FileByte(di', d', p) == FileByte(di, v.d, p);
      assert Slack(di, v.d);
    }
  }

  lemma SlotData(di: DiskInode, d: Disk, i: nat)
    requires i < LIMIT
    ensures SlotId(di, d, Data(i)) == BlockId(di, d, i)
  {
  }

  /** A file whose tree and data blocks are kept reads the same. */
  lemma SameByte(own: Owners, own': Owners, ino: nat, di: DiskInode, d: Disk, d': Disk, p: nat)
    requires TreeOk(own, ino, di, d) && IndexSame(own, ino, d, d') && p < BLOCK_SZ * Blocks(di)
    requires forall b | b in own && own[b].ino == ino :: Blk(d', b) == Blk(d, b)
    ensures Blocks(di) <= LIMIT && FileByte(di, d', p) == FileByte(di, d, p)
  {
    hide Owns, SlotId, BlockId;
    var i, u := p / BLOCK_SZ, UsedSet(Blocks(di));
    OwnsSlot(own, ino, di, d, u, Data(i));
    SlotsSame(own, ino, d, d', di, u, Data(i));
    SlotData(di, d, i);
    SlotData(di, d', i);
  }

  /** Nothing that belongs to a file has changed. */
  ghost predicate Spared(own: Owners, ino: nat, d: Disk, d': Disk) {
    forall b | b in own && own[b].ino == ino :: Blk(d', b) == Blk(d, b)
  }

  lemma SparedFile(own: Owners, own': Owners, ino: nat, di: DiskInode, d: Disk, d': Disk)
    requires TreeOk(own, ino, di, d) && Slack(di, d) && Spared(own, ino, d, d')
    requires forall b | b in own && own[b].ino == ino :: b in own' && own'[b] == own[b]
    requires forall b | b in own' && own'[b].ino == ino :: b in own && own'[b] == own[b]
    ensures TreeOk(own', ino, di, d') && Slack(di, d') && Blocks(di) <= LIMIT && Contents(di, d') == Contents(di, d)
  {
    hide Owns, Placed, FileByte;
    TreeKept(own, own', ino, d, d', di);
    SizeFits(di.size);
    forall p: nat | p < BLOCK_SZ * Blocks(di) ensures FileByte(di, d', p) == FileByte(di, d, p) {
      SameByte(own, own', ino, di, d, d', p);
    }
  }

  lemma OtherFile(own: Owners, own': Owners, ino: nat, v: Volume, d': Disk, i: nat)
    requires VolumeInv(v, own) && ino in v.inodes && Quiet(own', ino, v.d, d') && Added(v, own, own', ino)
    requires i in v.inodes && i != ino
    ensures TreeOk(own', i, v.inodes[i], d') && Slack(v.inodes[i], d') && Blocks(v.inodes[i]) <= LIMIT
    ensures Contents(v.inodes[i], d') == Contents(v.inodes[i], v.d)
  {
    hide TreeOk, FileByte, Slack, Area;
    SparedFile(own, own', i, v.inodes[i], v.d, d');
  }

  /** The volume with one file grown. */
  lemma GrowKeeps(own: Owners, own': Owners, ino: nat, v: Volume, v': Volume)
    requires VolumeInv(v, own) && ino in v.inodes && v'.inodes.Keys == v.inodes.Keys
    requires v'.start == v.start && v'.count == v.count
    requires TreeOk(own', ino, v'.inodes[ino], v'.d) && Quiet(own', ino, v.d, v'.d) && Added(v, own, own', ino)
    requires Area(v', own')
    requires v.inodes[ino].size <= v'.inodes[ino].size
    requires forall i | i in v.inodes && i != ino :: v'.inodes[i] == v.inodes[i]
    ensures VolumeInv(v', own')
    ensures Same(v, v', ino)
    ensures Blocks(v'.inodes[ino]) <= LIMIT && Blocks(v.inodes[ino]) <= LIMIT
    ensures Contents(v'.inodes[ino], v'.d) == Contents(v.inodes[ino], v.d) + Zeros(v'.inodes[ino].size - v.inodes[ino].size)
  {
    hide TreeOk, FileByte, Slack, Area;
    var di, di' := v.inodes[ino], v'.inodes[ino];
    forall i | i in v.inodes && i != ino
      ensures TreeOk(own', i, v.inodes[i], v'.d) && Slack(v.inodes[i], v'.d) && Blocks(v.inodes[i]) <= LIMIT
      ensures Contents(v.inodes[i], v'.d) == Contents(v.inodes[i], v.d)
    {
      OtherFile(own, own', ino, v, v'.d, i);
    }
    TreeFacts(own', ino, di', v'.d);
    TreeFacts(own, ino, di, v.d);
    SizeFits(di'.size);
    SizeFits(di.size);
    forall p: nat | p < BLOCK_SZ * Blocks(di')
      ensures FileByte(di', v'.d, p) == if p < di.size then FileByte(di, v.d, p) else 0
    {
      GrownByte(own, own', ino, v, di', v'.d, p);
    }
    SlackZero(di', v'.d, di.size);
    CleanKept(own, own', ino, v, v');
  }

  lemma SlackZero(di: DiskInode, d: Disk, from: nat)
    requires Blocks(di) <= LIMIT && from <= di.size
    requires forall p: nat | from <= p < BLOCK_SZ * Blocks(di) :: FileByte(di, d, p) == 0
    ensures Slack(di, d)
  {
  }

  lemma CleanKept(own: Owners, own': Owners, ino: nat, v: Volume, v': Volume)
    requires Clean(v, own) && v'.start == v.start && v'.count == v.count && Quiet(own', ino, v.d, v'.d)
    requires forall b | b in own :: b in own'
    ensures Clean(v', own')
  {
  }

  /** Every other file keeps its inode and its bytes. */
  ghost predicate Same(v: Volume, v': Volume, ino: nat) {
    && v'.inodes.Keys == v.inodes.Keys
    && (forall i | i in v.inodes && i != ino :: v'.inodes[i] == v.inodes[i])
    && (forall i | i in v.inodes && i != ino && Blocks(v.inodes[i]) <= LIMIT ::
          Contents(v.inodes[i], v'.d) == Contents(v.inodes[i], v.d))
  }

  /** Filling the slots that growth needs with unused blocks gives the tree of the larger file. */
  lemma GrowTree(own: Owners, ino: nat, v: Volume, newSize: nat, ids: seq<nat>)
    requires VolumeInv(v, own) && ino in v.inodes && v.inodes[ino].size <= newSize && DataBlocks(newSize) <= LIMIT
    requires |ids| == |NewSlots(Blocks(v.inodes[ino]), DataBlocks(newSize))| && AllU32(ids)
    requires AllInTree(NewSlots(Blocks(v.inodes[ino]), DataBlocks(newSize)))
    requires Distinct(ids) && forall j | 0 <= j < |ids| :: ids[j] !in own && v.start <= ids[j] < v.start + v.count
    ensures var slots := NewSlots(Blocks(v.inodes[ino]), DataBlocks(newSize));
            var t', own' := PutSeq(Tree(v.inodes[ino].(size := newSize), v.d), slots, ids), AddOwner(own, ino, slots, ids);
            && t'.di.size == newSize && TreeOk(own', ino, t'.di, t'.d) && Quiet(own', ino, v.d, t'.d) && Added(v, own, own', ino)
            && own'.Keys == own.Keys + Members(ids)
  {
    hide Owns, Placed, Quiet, SlotSeq, PutSeq, AddOwner;
    var di := v.inodes[ino];
    var n, m := Blocks(di), DataBlocks(newSize);
    var t := Tree(di.(size := newSize), v.d);
    assert TreeOk(own, ino, di, v.d);
    FilledIsUsed(n, m);
    FilledIsUsed(m, m);
    TotalIsSlots(n);
    TotalIsSlots(m);
    ResizeOwns(own, ino, di, newSize, v.d, UsedSet(n));
    var slots := NewSlots(n, m);
    assert slots == SlotSeq(m)[Total(n)..Total(n) + |ids|];
    GrowOwns(own, ino, t, m, Total(n), |ids|, ids);
    AddOwnerIs(own, ino, slots, ids);
    forall j | 0 <= j < |slots| ensures !Used(n, slots[j]) {
      SlotSeqExact(m);
      SlotSeqExact(n);
      assert slots[j] == SlotSeq(m)[Total(n) + j];
    }
  }

  lemma ResizeOwns(own: Owners, ino: nat, di: DiskInode, size: nat, d: Disk, u: iset<Slot>)
    requires Owns(own, ino, di, d, u) && Placed(own, ino, di, d, u)
    ensures Owns(own, ino, di.(size := size), d, u) && Placed(own, ino, di.(size := size), d, u)
  {
    var di' := di.(size := size);
    forall s | InTree(s) ensures SlotId(di', d, s) == SlotId(di, d, s) {
    }
    forall s | s in u ensures InTree(s) && Parent(s) in u + iset{s} && Owned(own, ino, di', d, s) {
      assert Owned(own, ino, di, d, s);
    }
    forall b | b in own && own[b].ino == ino ensures PlacedAt(own[b].slot, di', d, u, b) {
      assert PlacedAt(own[b].slot, di, d, u, b);
    }
  }

  // ---------------------------------------------------------------- clearing

  /** The listed blocks of a file are its blocks, each once. */
  lemma ListedExact(own: Owners, ino: nat, di: DiskInode, d: Disk)
    requires TreeOk(own, ino, di, d)
    ensures Blocks(di) <= LIMIT && Distinct(Listed(di, d, Blocks(di)))
    ensures forall b :: b in Listed(di, d, Blocks(di)) <==> b in own && own[b].ino == ino
  {
    hide SlotId, Owns, SlotSeq;
    var n := Blocks(di);
    var slots, ids, u := SlotSeq(n), Listed(di, d, n), UsedSet(n);
    SlotSeqExact(n);
    SlotSeqInTree(n);
    forall j | 0 <= j < |slots| ensures ids[j] in own && own[ids[j]] == Owner(ino, slots[j]) {
      assert slots[j] in slots;
      OwnsSlot(own, ino, di, d, u, slots[j]);
    }
    forall b | b in own && own[b].ino == ino ensures b in ids {
      assert PlacedAt(own[b].slot, di, d, u, b);
      assert own[b].slot in slots;
      var j :| 0 <= j < |slots| && slots[j] == own[b].slot;
      assert ids[j] == b;
    }
  }

  /** The listed blocks are zero and every other block is as it was. */
  ghost predicate Freed(d: Disk, d': Disk, ids: seq<nat>) {
    forall b: nat :: Blk(d', b) == if b in ids then Zeros(BLOCK_SZ) else Blk(d, b)
  }

  /** The volume with one file emptied and its blocks zeroed and freed. */
  lemma ClearKeeps(own: Owners, ino: nat, v: Volume, v': Volume)
    requires VolumeInv(v, own) && ino in v.inodes && Blocks(v.inodes[ino]) <= LIMIT
    requires v'.start == v.start && v'.count == v.count && Size(v'.bits) == Size(v.bits)
    requires v'.inodes.Keys == v.inodes.Keys && v'.inodes[ino].size == 0
    requires forall i | i in v.inodes && i != ino :: v'.inodes[i] == v.inodes[i]
    requires var ids := Listed(v.inodes[ino], v.d, Blocks(v.inodes[ino]));
             && Freed(v.d, v'.d, ids)
             && BitsAre(v.start, v'.bits, own.Keys - Members(ids))
    ensures var own' := own - Members(Listed(v.inodes[ino], v.d, Blocks(v.inodes[ino])));
            VolumeInv(v', own')
    ensures Same(v, v', ino)
  {
    hide TreeOk, FileByte, Slack, Listed, BitsAre;
    var di := v.inodes[ino];
    var ids := Listed(di, v.d, Blocks(di));
    ListedExact(own, ino, di, v.d);
    var own' := own - Members(ids);
    assert own'.Keys == own.Keys - Members(ids);
    forall i | i in v.inodes && i != ino
      ensures TreeOk(own', i, v.inodes[i], v'.d) && Slack(v.inodes[i], v'.d) && Blocks(v.inodes[i]) <= LIMIT
      ensures Contents(v.inodes[i], v'.d) == Contents(v.inodes[i], v.d)
    {
      SparedFile(own, own', i, v.inodes[i], v.d, v'.d);
    }
    EmptyTree(own', ino, v'.inodes[ino], v'.d);
  }

  /** An empty file needs no blocks. */
  lemma EmptyTree(own: Owners, ino: nat, di: DiskInode, d: Disk)
    requires di.size == 0 && forall b | b in own :: own[b].ino != ino
    ensures TreeOk(own, ino, di, d) && Slack(di, d)
  {
  }
}
