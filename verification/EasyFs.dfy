/**
 The EasyFS file system: volume layout, block allocation, and files that behave as byte arrays.
 */
module EasyFs {
  import opened Basics
  import opened Bytes
  import opened BlockCache
  import opened EasyBitmap
  import opened EasyTree
  import opened EasyInode
  import opened EasyVolume

  // ---------------------------------------------------------------- layout

  const INODE_SIZE: nat := 128
  const INODES_PER_BLOCK: nat := 4

  /** The regions of a volume: superblock, inode bitmap, inode area, data bitmap, data area. */
  datatype Layout = Layout(inodeBitmap: nat, inodeArea: nat, dataBitmap: nat, dataArea: nat)

  function MakeLayout(total: nat, inodeBitmap: nat): Layout
    requires 1 + inodeBitmap + (inodeBitmap * BLOCK_BITS * INODE_SIZE + BLOCK_SZ - 1) / BLOCK_SZ <= total
  {
    var inodeArea := (inodeBitmap * BLOCK_BITS * INODE_SIZE + BLOCK_SZ - 1) / BLOCK_SZ;
    var dataTotal := total - 1 - (inodeBitmap + inodeArea);
    var dataBitmap := (dataTotal + 4096) / 4097;
    Layout(inodeBitmap, inodeArea, dataBitmap, dataTotal - dataBitmap)
  }

  function InodeStart(l: Layout): nat { 1 + l.inodeBitmap }

  function DataBitmapStart(l: Layout): nat { 1 + l.inodeBitmap + l.inodeArea }

  function DataStart(l: Layout): nat { 1 + l.inodeBitmap + l.inodeArea + l.dataBitmap }

  /** The regions follow each other from the superblock on and fill the volume, and both bitmaps can name everything they manage. */
  lemma LayoutFills(total: nat, inodeBitmap: nat)
    requires 1 + inodeBitmap + (inodeBitmap * BLOCK_BITS * INODE_SIZE + BLOCK_SZ - 1) / BLOCK_SZ <= total
    ensures var l := MakeLayout(total, inodeBitmap);
            && InodeStart(l) == 1 + inodeBitmap && DataBitmapStart(l) == InodeStart(l) + l.inodeArea
            && DataStart(l) == DataBitmapStart(l) + l.dataBitmap && DataStart(l) + l.dataArea == total
            && l.inodeArea * INODES_PER_BLOCK == inodeBitmap * BLOCK_BITS
            && l.dataArea <= l.dataBitmap * BLOCK_BITS
            && (l.dataBitmap > 0 ==> (l.dataBitmap - 1) * BLOCK_BITS <= l.dataArea)
  {
    var ia := (inodeBitmap * 524288 + 511) / 512;
    assert ia == inodeBitmap * 1024;
    var dt := total - 1 - (inodeBitmap + ia);
    var db := (dt + 4096) / 4097;
    assert 4097 * db <= dt + 4096 < 4097 * db + 4097;
  }

  datatype InodePos = InodePos(block: nat, offset: nat)

  function DiskInodePos(l: Layout, ino: nat): InodePos {
    InodePos(InodeStart(l) + ino / INODES_PER_BLOCK, ino % INODES_PER_BLOCK * INODE_SIZE)
  }

  /** Inodes follow each other through the inode area, each within a block, and never overlap. */
  lemma InodePosFits(l: Layout, a: nat, b: nat)
    requires a < l.inodeArea * INODES_PER_BLOCK
    ensures InodeStart(l) <= DiskInodePos(l, a).block < DataBitmapStart(l) && DiskInodePos(l, a).offset + INODE_SIZE <= BLOCK_SZ
    ensures DiskInodePos(l, a).block * BLOCK_SZ + DiskInodePos(l, a).offset == InodeStart(l) * BLOCK_SZ + a * INODE_SIZE
    ensures a != b && DiskInodePos(l, a).block == DiskInodePos(l, b).block ==>
              || DiskInodePos(l, a).offset + INODE_SIZE <= DiskInodePos(l, b).offset
              || DiskInodePos(l, b).offset + INODE_SIZE <= DiskInodePos(l, a).offset
  {
    assert a == 4 * (a / 4) + a % 4 && b == 4 * (b / 4) + b % 4;
  }

  // ---------------------------------------------------------------- the file system

  function FreshInode(): DiskInode { DiskInode(0, seq(DIRECT, _ => 0), 0, 0) }

  /** The blocks a write still needs. */
  function Needed(size: nat, newSize: nat): nat {
    if newSize < size then 0 else if Total(DataBlocks(newSize)) < Total(DataBlocks(size)) then 0
    else Total(DataBlocks(newSize)) - Total(DataBlocks(size))
  }

  class FileSystem {
    const start: nat
    const count: nat
    const dev: Device
    const dataBits: Bitmap
    const inodeBits: Bitmap
    var inodes: map<nat, DiskInode>
    ghost var own: Owners

    ghost function Vol(): Volume
      reads this, dev, dataBits
    {
      Volume(start, count, dev.disk, dataBits.blocks, inodes)
    }

    ghost predicate Valid()
      reads this, dev, dataBits, inodeBits
    {
      && dataBits != inodeBits
      && VolumeInv(Vol(), own)
      && BitsAre(0, inodeBits.blocks, inodes.Keys)
    }

    /** Every file as a byte array. */
    ghost function Files(): map<nat, seq<byte>>
      requires Valid()
      reads this, dev, dataBits, inodeBits
    {
      FilesOf(Vol(), own)
    }

    /** Make an empty volume with a root directory. */
    constructor (total: nat, inodeBitmap: nat)
      requires 0 < inodeBitmap && total <= U32
      requires 1 + inodeBitmap + (inodeBitmap * BLOCK_BITS * INODE_SIZE + BLOCK_SZ - 1) / BLOCK_SZ <= total
      ensures Valid() && Files() == map[0 := []] && own == map[]
      ensures var l := MakeLayout(total, inodeBitmap); start == DataStart(l) && count == l.dataArea
    {
      hide VolumeInv, BitsAre, Bit, SetBit, MakeLayout, FilesOf, Blk;
      var l := MakeLayout(total, inodeBitmap);
      LayoutFills(total, inodeBitmap);
      start, count := DataStart(l), l.dataArea;
      var d := new Device();
      var db := new Bitmap(l.dataBitmap);
      var ib := new Bitmap(inodeBitmap);
      NoBits(DataStart(l), db.blocks);
      NoBits(0, ib.blocks);
      ghost var before := ib.blocks;
      var found, root := ib.Alloc();
      assert !Bit(before, 0);
      assert found && root == 0;
      BitsSet(0, before, {}, 0, true);
      assert {} + {0} == {0};
      dev, dataBits, inodeBits := d, db, ib;
      inodes := map[0 := FreshInode()];
      own := map[];
      new;
      assert inodes.Keys == {0};
      EmptyVolume(Vol());
    }

    /** Allocate one data block; `found` is false where the source panics. With the data area full but bits to
        spare, the block lies past the area. */
    method AllocData(ghost used: set<nat>) returns (found: bool, id: nat)
      requires BitsAre(start, dataBits.blocks, used)
      modifies dataBits
      ensures found <==> |used| < Size(old(dataBits.blocks))
      ensures found ==> id !in used && start <= id && BitsAre(start, dataBits.blocks, used + {id})
      ensures found ==> (|used| < count ==> id < start + count) && (InArea(start, count, used) && count <= |used| ==> start + count <= id)
      ensures !found ==> dataBits.blocks == old(dataBits.blocks)
      ensures Size(dataBits.blocks) == Size(old(dataBits.blocks))
    {
      hide Bit, SetBit;
      ghost var bits := dataBits.blocks;
      id := 0;
      var bit: nat;
      found, bit := dataBits.Alloc();
      if !found {
        FirstFit(start, bits, used, Size(bits));
        return;
      }
      FirstFit(start, bits, used, bit);
      FirstFitInArea(start, bits, used, bit, Size(bits));
      if InArea(start, count, used) {
        FirstFitInArea(start, bits, used, bit, count);
      }
      BitsSet(start, bits, used, bit, true);
      SetBitAt(bits, bit, true, bit);
      id := start + bit;
    }

    /** Zero a data block and free it. */
    method DeallocData(id: nat, ghost used: set<nat>)
      requires BitsAre(start, dataBits.blocks, used) && id in used
      modifies dev, dataBits
      ensures dev.disk == old(dev.disk)[id := Zeros(BLOCK_SZ)] && BitsAre(start, dataBits.blocks, used - {id})
      ensures Size(dataBits.blocks) == Size(old(dataBits.blocks))
    {
      hide SetBit;
      ghost var bits := dataBits.blocks;
      assert Bit(bits, id - start);
      dev.disk := dev.disk[id := Zeros(BLOCK_SZ)];
      BitsSet(start, bits, used, id - start, false);
      SetBitAt(bits, id - start, false, id - start);
      dataBits.Dealloc(id - start);
    }

    /** Allocate the blocks a growing file needs: distinct and unused while the bitmap has bits, and all in the
        data area if and only if the area has room for them. */
    method AllocMany(needed: nat) returns (ok: bool, ids: seq<nat>)
      requires BitsAre(start, dataBits.blocks, own.Keys) && InArea(start, count, own.Keys)
      modifies dataBits
      ensures ok <==> needed == 0 || |own| + needed <= Size(old(dataBits.blocks))
      ensures ok ==> |ids| == needed
      ensures Distinct(ids) && forall j | 0 <= j < |ids| :: ids[j] !in own && start <= ids[j]
      ensures ok ==> (AllBelow(ids, start + count) <==> |own| + needed <= count)
      ensures BitsAre(start, dataBits.blocks, own.Keys + Members(ids))
      ensures |own.Keys + Members(ids)| == |own| + |ids|
      ensures Size(dataBits.blocks) == Size(old(dataBits.blocks))
    {
      hide BitsAre, Members, AreaKept, InArea;
      ok, ids := true, [];
      NoMembers();
      ghost var used: set<nat> := own.Keys;
      AreaStart(start, count, used);
      for i := 0 to needed
        invariant |ids| == i && used == own.Keys + Members(ids) && |used| == |own| + i
        invariant BitsAre(start, dataBits.blocks, used) && Size(dataBits.blocks) == Size(old(dataBits.blocks))
        invariant Distinct(ids) && (i > 0 ==> |used| <= Size(dataBits.blocks))
        invariant forall j | 0 <= j < |ids| :: ids[j] !in own && start <= ids[j]
        invariant AreaKept(ids, start, count, used)
      {
        var found, id := AllocData(used);
        if !found {
          return false, ids;
        }
        MemberOf(ids);
        MembersPush(ids, id);
        SetAssoc(own.Keys, Members(ids), {id});
        AreaStep(ids, id, start, count, used);
        ids, used := ids + [id], used + {id};
      }
      AreaEnd(ids, start, count, used);
    }

    /** Give a file the blocks of its new size; a smaller size changes nothing. */
    method Grow(ino: nat, newSize: nat)
      requires Valid() && ino in inodes && DataBlocks(newSize) <= LIMIT
      requires |own| + Needed(inodes[ino].size, newSize) <= count
      modifies this, dev, dataBits
      ensures Valid() && inodes.Keys == old(inodes).Keys && ino in inodes
      ensures inodes[ino].size == if newSize < old(inodes)[ino].size then old(inodes)[ino].size else newSize
      ensures Files() == old(Files())[ino := Padded(old(Files())[ino], newSize)]
      ensures |own| == |old(own)| + Needed(old(inodes)[ino].size, newSize)
    {
      hide VolumeInv, BitsAre, FilesOf, TreeOk, Quiet, Added, NewSlots, PutSeq, AddOwner, Padded;
      var di := inodes[ino];
      ghost var v := Vol();
      FilesGrown(v, own, ino, newSize);
      if newSize < di.size {
        return;
      }
      VolumeBits(v, own);
      var n, m := DataBlocks(di.size), DataBlocks(newSize);
      NewSlotsInTree(n, m);
      var ok, ids := AllocMany(Total(m) - Total(n));
      ghost var slots := NewSlots(n, m);
      GrowTree(own, ino, v, newSize, ids);
      var di' := dev.IncreaseSize(di, newSize, ids);
      inodes := inodes[ino := di'];
      own := AddOwner(own, ino, slots, ids);
      GrownVolume(v, old(own), own, Vol(), ino);
    }

    /** Store bytes at any offset of a file; a gap before them reads as zero. */
    method WriteAt(ino: nat, offset: nat, buf: seq<byte>) returns (written: nat)
      requires Valid() && ino in inodes && DataBlocks(offset + |buf|) <= LIMIT
      requires |own| + Needed(inodes[ino].size, offset + |buf|) <= count
      modifies this, dev, dataBits
      ensures Valid() && inodes.Keys == old(inodes).Keys && written == |buf|
      ensures Files() == old(Files())[ino := Overlay(Padded(old(Files())[ino], offset), offset, buf)]
      ensures |own| == |old(own)| + Needed(old(inodes)[ino].size, offset + |buf|)
    {
      hide VolumeInv, FilesOf, Overlay, Padded, Needed, BitsAre, TreeOk, DataOnly, FileByte;
      FilesAre(Vol(), own);
      ghost var f := Files()[ino];
      Grow(ino, offset + |buf|);
      written := |buf|;
      if buf == [] {
        return;
      }
      ghost var v := Vol();
      VolumeTree(v, own, ino);
      FilesAre(v, own);
      dev.WriteAt(inodes[ino], offset, buf, own, ino);
      WrittenVolume(v, own, ino, dev.disk, offset, buf);
      PaddedOverlay(f, offset, buf);
      UpdateTwice(old(Files()), ino, Padded(f, offset + |buf|), Overlay(f, offset, buf));
    }

    /** Read bytes of a file, cut at its end. */
    method ReadAt(ino: nat, offset: nat, len: nat) returns (out: seq<byte>)
      requires Valid() && ino in inodes
      ensures var f := Files()[ino];
              out == if offset < |f| then f[offset..Min(offset + len, |f|)] else []
    {
      hide VolumeInv, BitsAre;
      FilesAre(Vol(), own);
      out := dev.ReadAt(inodes[ino], offset, len);
    }

    /** Empty a file and free every block of its tree. */
    method Clear(ino: nat)
      requires Valid() && ino in inodes
      modifies this, dev, dataBits
      ensures Valid() && inodes.Keys == old(inodes).Keys
      ensures Files() == old(Files())[ino := []]
      ensures own.Keys == old(own).Keys - set b | b in old(own) && old(own)[b].ino == ino
      ensures |own| + Total(DataBlocks(old(inodes)[ino].size)) == |old(own)|
    {
      hide VolumeInv, BitsAre, FilesOf, Listed, Total;
      ghost var v := Vol();
      VolumeTree(v, own, ino);
      VolumeBits(v, own);
      var di, ids := dev.ClearSize(inodes[ino]);
      ListedOwned(v, own, ino);
      FreeMany(ids);
      inodes := inodes[ino := di];
      own := own - Members(ids);
      assert own.Keys == old(own).Keys - Members(ids);
      ClearedVolume(v, old(own), ino, Vol());
    }

    /** Zero and free the blocks of an emptied file. */
    method FreeMany(ids: seq<nat>)
      requires BitsAre(start, dataBits.blocks, own.Keys) && Distinct(ids) && Members(ids) <= own.Keys
      modifies dev, dataBits
      ensures BitsAre(start, dataBits.blocks, own.Keys - Members(ids)) && Size(dataBits.blocks) == Size(old(dataBits.blocks))
      ensures |own.Keys - Members(ids)| == |own.Keys| - |ids|
      ensures Freed(old(dev.disk), dev.disk, ids)
    {
      hide BitsAre, Members, Blk;
      ghost var used: set<nat> := own.Keys;
      ghost var d0 := dev.disk;
      NoMembers();
      MemberOf(ids);
      for i := 0 to |ids|
        invariant used == own.Keys - Members(ids[..i]) && |used| == |own.Keys| - i
        invariant BitsAre(start, dataBits.blocks, used) && Size(dataBits.blocks) == Size(old(dataBits.blocks))
        invariant Freed(d0, dev.disk, ids[..i])
      {
        FreeOne(ids, i, own.Keys);
        ghost var d1 := dev.disk;
        DeallocData(ids[i], used);
        FreedDisk(d0, d1, dev.disk, ids, i);
        used := used - {ids[i]};
      }
      assert ids[..|ids|] == ids;
    }

    /** Make an empty file. */
    method Create() returns (found: bool, ino: nat)
      requires Valid()
      modifies this, inodeBits
      ensures Valid() && (found <==> |old(inodes)| < Size(old(inodeBits.blocks)))
      ensures found ==> ino !in old(inodes) && Files() == old(Files())[ino := []]
      ensures !found ==> Files() == old(Files()) && inodes == old(inodes)
    {
      hide VolumeInv, FilesOf, Bit, SetBit, SetBefore, BitsAre, FreshInode;
      ghost var v, bits := Vol(), inodeBits.blocks;
      var bit: nat;
      found, bit := inodeBits.Alloc();
      if !found {
        FirstFit(0, bits, inodes.Keys, Size(bits));
        return false, 0;
      }
      TakeInode(bits, inodes.Keys, bit);
      ino := bit;
      inodes := inodes[ino := FreshInode()];
      assert inodes.Keys == old(inodes).Keys + {ino};
      CreatedVolume(v, own, ino);
    }
  }

  /** Every block of the list comes before `end`. */
  ghost predicate AllBelow(ids: seq<nat>, end: nat) { forall j | 0 <= j < |ids| :: ids[j] < end }

  /** All blocks taken lie in the area as long as it has room, and one does not once it has none. */
  ghost predicate AreaKept(ids: seq<nat>, start: nat, count: nat, used: set<nat>) {
    if |used| <= count then AllBelow(ids, start + count) && InArea(start, count, used) else !AllBelow(ids, start + count)
  }

  lemma AreaStart(start: nat, count: nat, used: set<nat>)
    requires InArea(start, count, used)
    ensures AreaKept([], start, count, used) && |used| <= count
  {
    AreaCard(start, count, used);
  }

  lemma AreaStep(ids: seq<nat>, id: nat, start: nat, count: nat, used: set<nat>)
    requires AreaKept(ids, start, count, used) && id !in used && start <= id
    requires |used| < count ==> id < start + count
    requires InArea(start, count, used) && count <= |used| ==> start + count <= id
    ensures AreaKept(ids + [id], start, count, used + {id})
  {
    assert (ids + [id])[|ids|] == id;
    assert forall j | 0 <= j < |ids| :: (ids + [id])[j] == ids[j];
    assert |used + {id}| == |used| + 1;
  }

  lemma AreaEnd(ids: seq<nat>, start: nat, count: nat, used: set<nat>)
    requires AreaKept(ids, start, count, used)
    ensures AllBelow(ids, start + count) <==> |used| <= count
  {
  }

  lemma TakeInode(bits: seq<BitBlock>, s: set<nat>, bit: nat)
    requires BitsAre(0, bits, s) && bit < Size(bits) && !Bit(bits, bit) && SetBefore(bits, bit)
    ensures bit !in s && |s| < Size(bits) && BitsAre(0, SetBit(bits, bit, true), s + {bit})
  {
    FirstFitInArea(0, bits, s, bit, Size(bits));
    BitsSet(0, bits, s, bit, true);
  }

  lemma UpdateTwice(m: map<nat, seq<byte>>, k: nat, a: seq<byte>, b: seq<byte>)
    ensures m[k := a][k := b] == m[k := b]
  {
  }

  lemma VolumeTree(v: Volume, own: Owners, ino: nat)
    requires VolumeInv(v, own) && ino in v.inodes
    ensures TreeOk(own, ino, v.inodes[ino], v.d) && Blocks(v.inodes[ino]) <= LIMIT
  {
  }

  /** A write inside a file changes those bytes of that file and nothing else. */
  lemma WrittenVolume(v: Volume, own: Owners, ino: nat, d': Disk, off: nat, buf: seq<byte>)
    requires VolumeInv(v, own) && ino in v.inodes && DataOnly(own, ino, v.d, d')
    requires off + |buf| <= v.inodes[ino].size && buf != [] && Blocks(v.inodes[ino]) <= LIMIT
    requires forall p: nat | p < BLOCK_SZ * Blocks(v.inodes[ino]) ::
               FileByte(v.inodes[ino], d', p) == if off <= p < off + |buf| then buf[p - off] else FileByte(v.inodes[ino], v.d, p)
    ensures VolumeInv(v.(d := d'), own) && ino in FilesOf(v, own)
    ensures FilesOf(v.(d := d'), own) == FilesOf(v, own)[ino := Overlay(FilesOf(v, own)[ino], off, buf)]
  {
    hide TreeOk, FileByte, Slack, BitsAre, FilesOf, Overlay;
    var v', di := v.(d := d'), v.inodes[ino];
    forall i | i in v.inodes
      ensures TreeOk(own, i, v.inodes[i], d') && Blocks(v.inodes[i]) <= LIMIT
      ensures i != ino ==> Slack(v.inodes[i], d') && Contents(v.inodes[i], d') == Contents(v.inodes[i], v.d)
    {
      DataOnlyKeeps(own, ino, v.d, d', i, v.inodes[i]);
      if i != ino {
        SparedFile(own, own, i, v.inodes[i], v.d, d');
      } else {
        TreeFacts(own, ino, di, d');
      }
    }
    SizeFits(di.size);
    SlackKept(di, v.d, d');
    FilesAre(v, own);
    FilesAre(v', own);
    OverlayContents(di, v.d, d', off, buf);
  }

  lemma OverlayContents(di: DiskInode, d: Disk, d': Disk, off: nat, buf: seq<byte>)
    requires off + |buf| <= di.size && buf != [] && Blocks(di) <= LIMIT
    requires forall p: nat | p < di.size <= BLOCK_SZ * LIMIT ::
               FileByte(di, d', p) == if off <= p < off + |buf| then buf[p - off] else FileByte(di, d, p)
    ensures Contents(di, d') == Overlay(Contents(di, d), off, buf)
  {
    hide FileByte;
    SizeFits(di.size);
  }

  lemma SlackKept(di: DiskInode, d: Disk, d': Disk)
    requires Slack(di, d) && Blocks(di) <= LIMIT
    requires forall p: nat | di.size <= p < BLOCK_SZ * Blocks(di) :: FileByte(di, d', p) == FileByte(di, d, p)
    ensures Slack(di, d')
  {
  }

  lemma ListedOwned(v: Volume, own: Owners, ino: nat)
    requires VolumeInv(v, own) && ino in v.inodes && Blocks(v.inodes[ino]) <= LIMIT
    ensures var ids := Listed(v.inodes[ino], v.d, Blocks(v.inodes[ino]));
            && Distinct(ids) && |ids| == Total(Blocks(v.inodes[ino]))
            && Members(ids) <= own.Keys && Members(ids) == set b | b in own && own[b].ino == ino
  {
    var ids := Listed(v.inodes[ino], v.d, Blocks(v.inodes[ino]));
    ListedExact(own, ino, v.inodes[ino], v.d);
    TotalIsSlots(Blocks(v.inodes[ino]));
  }

  lemma ClearedVolume(v: Volume, own: Owners, ino: nat, v': Volume)
    requires VolumeInv(v, own) && ino in v.inodes && Blocks(v.inodes[ino]) <= LIMIT
    requires v'.start == v.start && v'.count == v.count && Size(v'.bits) == Size(v.bits)
    requires v'.inodes.Keys == v.inodes.Keys && v'.inodes[ino].size == 0
    requires forall i | i in v.inodes && i != ino :: v'.inodes[i] == v.inodes[i]
    requires var ids := Listed(v.inodes[ino], v.d, Blocks(v.inodes[ino]));
             && Freed(v.d, v'.d, ids)
             && BitsAre(v.start, v'.bits, own.Keys - Members(ids))
    ensures var own' := own - Members(Listed(v.inodes[ino], v.d, Blocks(v.inodes[ino])));
            && VolumeInv(v', own')
            && FilesOf(v', own') == FilesOf(v, own)[ino := []]
  {
    hide TreeOk, BitsAre, Listed, VolumeInv;
    ClearKeeps(own, ino, v, v');
    FilesAre(v, own);
    FilesAre(v', own - Members(Listed(v.inodes[ino], v.d, Blocks(v.inodes[ino]))));
  }

  lemma CreatedVolume(v: Volume, own: Owners, ino: nat)
    requires VolumeInv(v, own) && ino !in v.inodes
    ensures var v' := v.(inodes := v.inodes[ino := FreshInode()]);
            VolumeInv(v', own) && FilesOf(v', own) == FilesOf(v, own)[ino := []]
  {
    hide TreeOk, BitsAre, FilesOf, Slack, FreshInode;
    var v' := v.(inodes := v.inodes[ino := FreshInode()]);
    FreshIsEmpty();
    EmptyTree(own, ino, FreshInode(), v.d);
    FilesAre(v, own);
    FilesAre(v', own);
  }

  lemma FreshIsEmpty()
    ensures FreshInode().size == 0
  {
  }

  /** What the bitmap and the block numbers of a volume are. */
  lemma VolumeBits(v: Volume, own: Owners)
    requires VolumeInv(v, own)
    ensures BitsAre(v.start, v.bits, own.Keys) && v.count <= Size(v.bits) && v.start + v.count <= U32
    ensures forall b | b in own :: v.start <= b < v.start + v.count
    ensures |own| == |own.Keys|
  {
  }

  lemma FilesGrown(v: Volume, own: Owners, ino: nat, newSize: nat)
    requires VolumeInv(v, own) && ino in v.inodes
    ensures ino in FilesOf(v, own) && |FilesOf(v, own)[ino]| == v.inodes[ino].size
    ensures newSize < v.inodes[ino].size ==> FilesOf(v, own) == FilesOf(v, own)[ino := Padded(FilesOf(v, own)[ino], newSize)]
  {
  }

  lemma GrownVolume(v: Volume, own: Owners, own': Owners, v': Volume, ino: nat)
    requires VolumeInv(v, own) && ino in v.inodes && v'.inodes.Keys == v.inodes.Keys
    requires v'.start == v.start && v'.count == v.count && Size(v'.bits) == Size(v.bits)
    requires TreeOk(own', ino, v'.inodes[ino], v'.d) && Quiet(own', ino, v.d, v'.d) && Added(v, own, own', ino)
    requires BitsAre(v.start, v'.bits, own'.Keys)
    requires v.inodes[ino].size <= v'.inodes[ino].size
    requires forall i | i in v.inodes && i != ino :: v'.inodes[i] == v.inodes[i]
    ensures VolumeInv(v', own')
    ensures ino in FilesOf(v, own) && FilesOf(v', own') == FilesOf(v, own)[ino := Padded(FilesOf(v, own)[ino], v'.inodes[ino].size)]
  {
    hide TreeOk, Quiet, BitsAre, Contents, Padded;
    GrowKeeps(own, own', ino, v, v');
    FilesAre(v, own);
    FilesAre(v', own');
    PaddedIs(FilesOf(v, own)[ino], v'.inodes[ino].size);
  }

  lemma PaddedIs(f: seq<byte>, size: nat)
    ensures |f| <= size ==> Padded(f, size) == f + Zeros(size - |f|)
  {
    assert f + Zeros(0) == f;
  }

  lemma FilesAre(v: Volume, own: Owners)
    requires VolumeInv(v, own)
    ensures FilesOf(v, own).Keys == v.inodes.Keys
    ensures forall i | i in v.inodes :: Blocks(v.inodes[i]) <= LIMIT && FilesOf(v, own)[i] == Contents(v.inodes[i], v.d)
  {
    hide Contents;
    forall i | i in v.inodes ensures Blocks(v.inodes[i]) <= LIMIT && FilesOf(v, own)[i] == Contents(v.inodes[i], v.d) {
      TreeFacts(own, i, v.inodes[i], v.d);
    }
  }

  lemma EmptyVolume(v: Volume)
    requires v.inodes == map[0 := FreshInode()] && BitsAre(v.start, v.bits, {}) && v.count <= Size(v.bits) && v.start + v.count <= U32
    requires forall b: nat :: Blk(v.d, b) == Zeros(BLOCK_SZ)
    ensures VolumeInv(v, map[]) && FilesOf(v, map[]) == map[0 := []]
  {
    EmptyTree(map[], 0, FreshInode(), v.d);
    var own: Owners := map[];
    assert own.Keys == {};
  }

  lemma FreedDisk(d: Disk, d1: Disk, d2: Disk, ids: seq<nat>, i: nat)
    requires i < |ids| && Freed(d, d1, ids[..i]) && d2 == d1[ids[i] := Zeros(BLOCK_SZ)]
    ensures Freed(d, d2, ids[..i + 1])
  {
    assert ids[..i + 1] == ids[..i] + [ids[i]];
    forall b: nat ensures Blk(d2, b) == if b in ids[..i + 1] then Zeros(BLOCK_SZ) else Blk(d, b) {
      assert Blk(d1, b) == if b in ids[..i] then Zeros(BLOCK_SZ) else Blk(d, b);
    }
  }

  lemma FreeOne(ids: seq<nat>, i: nat, keys: set<nat>)
    requires i < |ids| && Distinct(ids) && Members(ids) <= keys
    ensures ids[i] in keys - Members(ids[..i]) && keys - Members(ids[..i + 1]) == keys - Members(ids[..i]) - {ids[i]}
  {
    assert ids[..i + 1] == ids[..i] + [ids[i]];
    assert ids[i] in Members(ids);
  }

  lemma SetAssoc(a: set<nat>, b: set<nat>, c: set<nat>)
    ensures (a + b) + c == a + (b + c)
  {
  }

  lemma NoMembers()
    ensures Members([]) == {}
  {
  }

  lemma MemberOf(ids: seq<nat>)
    ensures forall j | 0 <= j < |ids| :: ids[j] in Members(ids)
  {
  }

  lemma NoBits(start: nat, bits: seq<BitBlock>)
    requires forall i | 0 <= i < Size(bits) :: !Bit(bits, i)
    ensures BitsAre(start, bits, {})
  {
  }

  ghost function FilesOf(v: Volume, own: Owners): map<nat, seq<byte>>
    requires VolumeInv(v, own)
  {
    map ino | ino in v.inodes :: FileOf(v, own, ino)
  }

  ghost function FileOf(v: Volume, own: Owners, ino: nat): seq<byte>
    requires VolumeInv(v, own) && ino in v.inodes
  {
    TreeFacts(own, ino, v.inodes[ino], v.d);
    Contents(v.inodes[ino], v.d)
  }
}
