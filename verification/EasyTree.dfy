/**
 The EasyFS block tree: 28 direct blocks, one indirect block of 128 and one double-indirect block
 of 128 indirect blocks. Every block of a tree fills one slot.
 */
module EasyTree {
  import opened Basics
  import opened Bytes
  import opened BlockCache

  const DIRECT: nat := 28
  const FAN: nat := 128
  const INDIRECT1_BOUND: nat := 156
  /** The most data blocks a file can have. */
  const LIMIT: nat := 16540
  const U32: nat := 0x1_0000_0000

  type Disk = map<nat, Block>

  function Blk(d: Disk, id: nat): Block {
    if id in d then d[id] else Zeros(BLOCK_SZ)
  }

  // ---------------------------------------------------------------- words of a block

  function Decode(b: seq<byte>): (v: nat)
    requires |b| == 4
    ensures v < U32
  {
    b[0] as nat + 256 * b[1] as nat + 65536 * b[2] as nat + 16777216 * b[3] as nat
  }

  function Encode(v: nat): (b: seq<byte>)
    requires v < U32
    ensures |b| == 4
  {
    [(v % 256) as byte, (v / 256 % 256) as byte, (v / 65536 % 256) as byte, (v / 16777216) as byte]
  }

  lemma DecodeEncode(v: nat)
    requires v < U32
    ensures Decode(Encode(v)) == v
  {
    var a, b, c := v / 256, v / 65536, v / 16777216;
    assert v == 256 * a + v % 256;
    assert a == 256 * b + a % 256;
    assert b == 256 * c + b % 256;
  }

  /** Entry `i` of an indirect block, little endian. */
  function Word(b: Block, i: nat): (v: nat)
    requires i < FAN
    ensures v < U32
  {
    Decode(b[4 * i..4 * i + 4])
  }

  /** An entry is four bytes, the lowest first, and entries follow each other. */
  lemma WordBytes(b: Block, i: nat, k: nat)
    requires i < FAN && k < 4
    ensures b[4 * i + k] as nat == ByteOf(Word(b, i), k)
  {
    var a := b[4 * i..4 * i + 4];
    assert a[k] == b[4 * i + k];
    LowerBytes(a[0] as nat, a[1] as nat, a[2] as nat, a[3] as nat);
  }

  lemma LowerBytes(a: nat, b: nat, c: nat, d: nat)
    requires a < 256 && b < 256 && c < 256 && d < 256
    ensures var v := a + 256 * b + 65536 * c + 16777216 * d;
            ByteOf(v, 0) == a && ByteOf(v, 1) == b && ByteOf(v, 2) == c && ByteOf(v, 3) == d
  {
    var v := a + 256 * b + 65536 * c + 16777216 * d;
    var w := b + 256 * c + 65536 * d;
    var x := c + 256 * d;
    assert v / 256 == w && w / 256 == x && x / 256 == d;
    assert ByteOf(v, 1) == ByteOf(w, 0) && ByteOf(v, 2) == ByteOf(w, 1) && ByteOf(v, 3) == ByteOf(w, 2);
    assert ByteOf(w, 1) == ByteOf(x, 0) && ByteOf(w, 2) == ByteOf(x, 1) == ByteOf(d, 0);
  }

  function SetWord(b: Block, i: nat, v: nat): Block
    requires i < FAN && v < U32
  {
    b[..4 * i] + Encode(v) + b[4 * i + 4..]
  }

  lemma WordSet(b: Block, i: nat, v: nat, j: nat)
    requires i < FAN && j < FAN && v < U32
    ensures Word(SetWord(b, i, v), j) == if i == j then v else Word(b, j)
  {
    hide Encode, Decode;
    DecodeEncode(v);
    var c := SetWord(b, i, v);
    if i == j {
      assert c[4 * j..4 * j + 4] == Encode(v);
    } else {
      assert c[4 * j..4 * j + 4] == b[4 * j..4 * j + 4];
    }
  }

  // ---------------------------------------------------------------- slots

  type Direct = s: seq<nat> | |s| == DIRECT witness seq(DIRECT, _ => 0)

  datatype DiskInode = DiskInode(size: nat, direct: Direct, ind1: nat, ind2: nat)

  datatype Slot = Data(i: nat) | Ind1 | Ind2 | Sub(a: nat)

  predicate InTree(s: Slot) {
    match s case Data(i) => i < LIMIT case Sub(a) => a < FAN case _ => true
  }

  /** The block number of data block `i`. */
  function BlockId(di: DiskInode, d: Disk, i: nat): nat
    requires i < LIMIT
  {
    if i < DIRECT then di.direct[i]
    else if i < INDIRECT1_BOUND then Word(Blk(d, di.ind1), i - DIRECT)
    else Word(Blk(d, SubId(di, d, (i - INDIRECT1_BOUND) / FAN)), (i - INDIRECT1_BOUND) % FAN)
  }

  function SubId(di: DiskInode, d: Disk, a: nat): nat
    requires a < FAN
  {
    Word(Blk(d, di.ind2), a)
  }

  ghost function Words(b: Block): (w: seq<nat>)
    ensures |w| == FAN && forall j | 0 <= j < FAN :: w[j] == Word(b, j)
  {
    seq(FAN, j requires 0 <= j < FAN => Word(b, j))
  }

  /** The entries of the first `n` blocks that the double-indirect block names, one block after the other. */
  ghost function Subs(di: DiskInode, d: Disk, n: nat): seq<nat>
    requires n <= FAN
  {
    if n == 0 then [] else Subs(di, d, n - 1) + Words(Blk(d, Word(Blk(d, di.ind2), n - 1)))
  }

  lemma {:induction false} SubsAt(di: DiskInode, d: Disk, n: nat, a: nat, j: nat)
    requires a < n <= FAN && j < FAN
    ensures FAN * a + j < |Subs(di, d, n)| == FAN * n && Subs(di, d, n)[FAN * a + j] == Word(Blk(d, Word(Blk(d, di.ind2), a)), j)
  {
    hide Word, Blk;
    if a < n - 1 {
      SubsAt(di, d, n - 1, a, j);
    } else {
      SubsSize(di, d, n - 1);
    }
  }

  lemma {:induction false} SubsSize(di: DiskInode, d: Disk, n: nat)
    requires n <= FAN
    ensures |Subs(di, d, n)| == FAN * n
  {
    if n > 0 {
      SubsSize(di, d, n - 1);
    }
  }

  /** The blocks of a file in order: the direct ones, those of the indirect block, and then block by block those
      of the double-indirect block. */
  lemma BlocksInOrder(di: DiskInode, d: Disk, i: nat)
    requires i < LIMIT
    ensures var all := di.direct + Words(Blk(d, di.ind1)) + Subs(di, d, FAN);
            |all| == LIMIT && BlockId(di, d, i) == all[i]
  {
    hide Word, Blk, Words;
    SubsSize(di, d, FAN);
    if i >= INDIRECT1_BOUND {
      var k := i - INDIRECT1_BOUND;
      assert k == FAN * (k / FAN) + k % FAN;
      SubsAt(di, d, FAN, k / FAN, k % FAN);
    }
  }

  function SlotId(di: DiskInode, d: Disk, s: Slot): nat
    requires InTree(s)
  {
    match s
    case Data(i) => BlockId(di, d, i)
    case Ind1 => di.ind1
    case Ind2 => di.ind2
    case Sub(a) => SubId(di, d, a)
  }

  /** The slot whose block holds this slot's number. */
  function Parent(s: Slot): Slot {
    match s
    case Data(i) => if i < DIRECT then s else if i < INDIRECT1_BOUND then Ind1 else Sub((i - INDIRECT1_BOUND) / FAN)
    case Sub(a) => Ind2
    case _ => s
  }

  /** The slots that a file of `n` data blocks fills. */
  predicate Used(n: nat, s: Slot) {
    match s
    case Data(i) => i < n
    case Ind1 => n > DIRECT
    case Ind2 => n > INDIRECT1_BOUND
    case Sub(a) => n > INDIRECT1_BOUND + FAN * a
  }

  /** The slots data block `i` is the first to need, in the order they are allocated. */
  function SlotsFor(i: nat): seq<Slot> {
    (if i == DIRECT then [Ind1] else []) +
    (if i == INDIRECT1_BOUND then [Ind2] else []) +
    (if i >= INDIRECT1_BOUND && (i - INDIRECT1_BOUND) % FAN == 0 then [Sub((i - INDIRECT1_BOUND) / FAN)] else []) +
    [Data(i)]
  }

  /** All slots of a file of `n` data blocks, in allocation order. */
  function SlotSeq(n: nat): seq<Slot> {
    if n == 0 then [] else SlotSeq(n - 1) + SlotsFor(n - 1)
  }

  function DataBlocks(size: nat): nat { (size + BLOCK_SZ - 1) / BLOCK_SZ }

  /** How many blocks a file of `n` data blocks takes, index blocks included. */
  function Total(n: nat): nat {
    n + (if n > DIRECT then 1 else 0) +
    (if n > INDIRECT1_BOUND then 1 + (n - INDIRECT1_BOUND + FAN - 1) / FAN else 0)
  }

  /** The block count is the number of slots. */
  lemma {:induction false} TotalIsSlots(n: nat)
    ensures |SlotSeq(n)| == Total(n)
  {
    if n > 0 {
      TotalIsSlots(n - 1);
      if n > INDIRECT1_BOUND {
        CeilNext(n - 1 - INDIRECT1_BOUND);
      }
    }
  }

  lemma CeilNext(k: nat)
    ensures (k + 1 + FAN - 1) / FAN == (k + FAN - 1) / FAN + if k % FAN == 0 then 1 else 0
  {
    var q, r := k / FAN, k % FAN;
    assert k == 128 * q + r;
    assert (k + FAN) / FAN == q + 1;
    if r == 0 {
      assert k + 127 == 128 * q + 127;
    } else {
      assert k + 127 == 128 * (q + 1) + (r - 1);
    }
  }

  lemma {:induction false} SlotPrefix(n: nat, m: nat)
    requires n <= m
    ensures SlotSeq(n) <= SlotSeq(m)
    decreases m
  {
    if n < m {
      SlotPrefix(n, m - 1);
    }
  }

  /** The slots of a file are listed once each. */
  lemma {:induction false} SlotSeqExact(n: nat)
    ensures forall s :: s in SlotSeq(n) <==> Used(n, s)
    ensures forall i, j | 0 <= i < j < |SlotSeq(n)| :: SlotSeq(n)[i] != SlotSeq(n)[j]
  {
    if n > 0 {
      SlotSeqExact(n - 1);
      assert forall s :: Used(n - 1, s) ==> Used(n, s);
      hide Used, SlotsFor;
      forall s ensures s in SlotsFor(n - 1) <==> Used(n, s) && !Used(n - 1, s) {
        NewSlot(n - 1, s);
      }
      NewSlotsDistinct(n - 1);
      var had, more := SlotSeq(n - 1), SlotsFor(n - 1);
      assert SlotSeq(n) == had + more;
      forall i, j | 0 <= i < j < |had + more| ensures (had + more)[i] != (had + more)[j] {
        if i < |had| <= j {
          assert had[i] in had && more[j - |had|] in more;
        }
      }
    }
  }

  lemma NewSlot(i: nat, s: Slot)
    ensures s in SlotsFor(i) <==> Used(i + 1, s) && !Used(i, s)
  {
    if s.Sub? && i >= INDIRECT1_BOUND {
      var k := i - INDIRECT1_BOUND;
      assert k == 128 * (k / FAN) + k % FAN;
      assert Used(i + 1, s) && !Used(i, s) <==> k == 128 * s.a;
    }
  }

  lemma NewSlotsDistinct(i: nat)
    ensures forall x, y | 0 <= x < y < |SlotsFor(i)| :: SlotsFor(i)[x] != SlotsFor(i)[y]
  {
  }

  // ---------------------------------------------------------------- storing block numbers

  datatype Tree = Tree(di: DiskInode, d: Disk)

  /** Store a block number in a slot. */
  function Put(t: Tree, s: Slot, id: nat): Tree
    requires InTree(s) && id < U32
  {
    match s
    case Ind1 => t.(di := t.di.(ind1 := id))
    case Ind2 => t.(di := t.di.(ind2 := id))
    case Sub(a) => PutWord(t, t.di.ind2, a, id)
    case Data(i) =>
      if i < DIRECT then t.(di := t.di.(direct := t.di.direct[i := id]))
      else if i < INDIRECT1_BOUND then PutWord(t, t.di.ind1, i - DIRECT, id)
      else PutWord(t, SubId(t.di, t.d, (i - INDIRECT1_BOUND) / FAN), (i - INDIRECT1_BOUND) % FAN, id)
  }

  function PutWord(t: Tree, at: nat, j: nat, id: nat): Tree
    requires j < FAN && id < U32
  {
    t.(d := t.d[at := SetWord(Blk(t.d, at), j, id)])
  }

  /** Whose slot a block fills. */
  datatype Owner = Owner(ino: nat, slot: Slot)

  type Owners = map<nat, Owner>

  /** The slots of a set are filled by blocks of this inode alone. */
  ghost predicate Owns(own: Owners, ino: nat, di: DiskInode, d: Disk, u: iset<Slot>) {
    forall s | s in u :: InTree(s) && Parent(s) in u + iset{s} && Owned(own, ino, di, d, s)
  }

  ghost predicate Owned(own: Owners, ino: nat, di: DiskInode, d: Disk, s: Slot)
    requires InTree(s)
  {
    SlotId(di, d, s) in own && own[SlotId(di, d, s)] == Owner(ino, s)
  }

  /** The only block storing into a slot changes. */
  predicate Touched(t: Tree, s: Slot, id: nat)
    requires InTree(s)
  {
    Parent(s) != s && InTree(Parent(s)) && id == SlotId(t.di, t.d, Parent(s))
  }

  lemma PutDisk(t: Tree, s: Slot, id: nat, b: nat)
    requires InTree(s) && id < U32
    ensures !Touched(t, s, b) ==> Blk(Put(t, s, id).d, b) == Blk(t.d, b)
  {
  }

  lemma WordAfter(t: Tree, at: nat, j: nat, id: nat, b: nat, k: nat)
    requires j < FAN && id < U32 && k < FAN
    ensures Word(Blk(PutWord(t, at, j, id).d, b), k) == if b == at && k == j then id else Word(Blk(t.d, b), k)
  {
    hide Word, SetWord;
    WordSet(Blk(t.d, at), j, id, k);
  }

  /** The index and the parent name a slot. */
  function Index(s: Slot): (j: nat)
    requires InTree(s)
    ensures Parent(s) != s ==> j < FAN
  {
    match s
    case Data(i) => if i < DIRECT then i else if i < INDIRECT1_BOUND then i - DIRECT else (i - INDIRECT1_BOUND) % FAN
    case Sub(a) => a
    case _ => 0
  }

  lemma IndexInjective(s: Slot, q: Slot)
    requires InTree(s) && InTree(q) && Parent(s) == Parent(q) && Parent(s) != s && Parent(q) != q && Index(s) == Index(q)
    ensures s == q
  {
    if s.Data? && q.Data? && s.i >= INDIRECT1_BOUND {
      var k, l := s.i - INDIRECT1_BOUND, q.i - INDIRECT1_BOUND;
      assert k == 128 * (k / FAN) + k % FAN && l == 128 * (l / FAN) + l % FAN;
    }
  }

  /** Slots below the root are read from, and stored in, their parent's block. */
  lemma SlotWord(t: Tree, s: Slot, id: nat)
    requires InTree(s) && Parent(s) != s
    ensures InTree(Parent(s)) && SlotId(t.di, t.d, s) == Word(Blk(t.d, SlotId(t.di, t.d, Parent(s))), Index(s))
    ensures id < U32 ==> Put(t, s, id) == PutWord(t, SlotId(t.di, t.d, Parent(s)), Index(s), id)
  {
    hide Word, SetWord, Blk, PutWord;
  }

  lemma PutOwns(own: Owners, ino: nat, t: Tree, u: iset<Slot>, s: Slot, id: nat)
    requires Owns(own, ino, t.di, t.d, u) && InTree(s) && s !in u && Parent(s) in u + iset{s}
    requires id < U32 && id !in own
    ensures var t' := Put(t, s, id); Owns(own[id := Owner(ino, s)], ino, t'.di, t'.d, u + iset{s})
  {
    hide Owns, SlotId, Put;
    var t', own' := Put(t, s, id), own[id := Owner(ino, s)];
    var u' := u + iset{s};
    forall q | q in u' ensures InTree(q) && Parent(q) in u' + iset{q} && Owned(own', ino, t'.di, t'.d, q) {
      if q == s {
        PutAt(own, ino, t, u, s, id);
      } else {
        OwnsSlot(own, ino, t.di, t.d, u, q);
        PutKeeps(own, ino, t, u, s, id, q);
      }
    }
    OwnsAll(own', ino, t'.di, t'.d, u');
  }

  lemma OwnsSlot(own: Owners, ino: nat, di: DiskInode, d: Disk, u: iset<Slot>, s: Slot)
    requires Owns(own, ino, di, d, u) && s in u
    ensures InTree(s) && Parent(s) in u + iset{s} && Owned(own, ino, di, d, s)
  {
  }

  lemma OwnsAll(own: Owners, ino: nat, di: DiskInode, d: Disk, u: iset<Slot>)
    requires forall s | s in u :: InTree(s) && Parent(s) in u + iset{s} && Owned(own, ino, di, d, s)
    ensures Owns(own, ino, di, d, u)
  {
  }

  /** A stored number leaves every filled slot alone. */
  lemma PutKeeps(own: Owners, ino: nat, t: Tree, u: iset<Slot>, s: Slot, id: nat, q: Slot)
    requires Owns(own, ino, t.di, t.d, u) && InTree(s) && s !in u && Parent(s) in u + iset{s}
    requires id < U32 && q in u
    ensures InTree(q) && SlotId(Put(t, s, id).di, Put(t, s, id).d, q) == SlotId(t.di, t.d, q)
    decreases Depth(q)
  {
    hide Owns, Word, SetWord, Put, SlotId;
    OwnsSlot(own, ino, t.di, t.d, u, q);
    var t' := Put(t, s, id);
    PutRoot(t, s, id, q);
    if Parent(q) != q {
      OwnsSlot(own, ino, t.di, t.d, u, Parent(q));
      PutKeeps(own, ino, t, u, s, id, Parent(q));
      SlotWord(t, q, id);
      SlotWord(t', q, id);
      if Parent(s) != s {
        SlotWord(t, s, id);
        OwnsSlot(own, ino, t.di, t.d, u, Parent(s));
        var at, b := SlotId(t.di, t.d, Parent(s)), SlotId(t.di, t.d, Parent(q));
        WordAfter(t, at, Index(s), id, b, Index(q));
        if b == at && Index(q) == Index(s) {
          IndexInjective(s, q);
        }
      }
    }
  }

  lemma PutRoot(t: Tree, s: Slot, id: nat, q: Slot)
    requires InTree(s) && id < U32 && InTree(q) && q != s
    ensures Parent(q) == q ==> SlotId(Put(t, s, id).di, Put(t, s, id).d, q) == SlotId(t.di, t.d, q)
    ensures Parent(s) == s ==> Put(t, s, id).d == t.d
  {
  }

  function Depth(s: Slot): nat {
    match s
    case Data(i) => if i < DIRECT then 0 else if i < INDIRECT1_BOUND then 1 else 2
    case Sub(a) => 1
    case _ => 0
  }

  /** The slot just stored reads back. */
  lemma PutAt(own: Owners, ino: nat, t: Tree, u: iset<Slot>, s: Slot, id: nat)
    requires Owns(own, ino, t.di, t.d, u) && InTree(s) && s !in u && Parent(s) in u + iset{s} && id < U32
    ensures SlotId(Put(t, s, id).di, Put(t, s, id).d, s) == id
  {
    hide Owns, Word, SetWord;
    if Parent(s) != s {
      var t' := Put(t, s, id);
      SlotWord(t, s, id);
      SlotWord(t', s, id);
      PutKeeps(own, ino, t, u, s, id, Parent(s));
      var at := SlotId(t.di, t.d, Parent(s));
      WordAfter(t, at, Index(s), id, at, Index(s));
    }
  }

  // ---------------------------------------------------------------- growing

  /** The slots a growing file has filled after `k` blocks. */
  ghost function Filled(m: nat, k: nat): iset<Slot>
    requires k <= |SlotSeq(m)|
  {
    iset s | s in SlotSeq(m)[..k]
  }

  ghost function UsedSet(n: nat): iset<Slot> { iset s | Used(n, s) }

  lemma FilledIsUsed(n: nat, m: nat)
    requires n <= m
    ensures Total(n) <= |SlotSeq(m)| && Filled(m, Total(n)) == UsedSet(n) && SlotSeq(m)[..Total(n)] == SlotSeq(n)
  {
    SlotPrefix(n, m);
    TotalIsSlots(n);
    SlotSeqExact(n);
  }

  /** An index block is allocated before the slots it holds. */
  lemma {:induction false} ParentFirst(m: nat, k: nat)
    requires k < |SlotSeq(m)| && m <= LIMIT
    ensures var s := SlotSeq(m)[k]; InTree(s) && s !in Filled(m, k) && Parent(s) in Filled(m, k) + iset{s}
  {
    hide SlotSeq, SlotsFor, Used;
    SlotSeqExact(m);
    var s := SlotSeq(m)[k];
    UsedInTree(m, s);
    assert m > 0 by { if m == 0 { NoSlots(); } }
    var had := SlotSeq(m - 1);
    SlotStep(m);
    if k < |had| {
      ParentFirst(m - 1, k);
      assert SlotSeq(m)[..k] == had[..k];
    } else {
      assert s == SlotsFor(m - 1)[k - |had|];
      NewParent(m - 1, k - |had|);
      SlotSeqExact(m - 1);
      if Parent(s) != s {
        ParentAt(SlotSeq(m), k, had, SlotsFor(m - 1), Parent(s));
      }
    }
  }

  lemma ParentAt(all: seq<Slot>, k: nat, had: seq<Slot>, more: seq<Slot>, p: Slot)
    requires all == had + more && |had| <= k < |all|
    requires p in had || (k > |had| && more[k - |had| - 1] == p)
    ensures p in all[..k]
  {
    if p in had {
      var i :| 0 <= i < |had| && had[i] == p;
      assert all[..k][i] == p;
    } else {
      assert all[..k][k - 1] == p;
    }
  }

  lemma SlotStep(m: nat)
    requires m > 0
    ensures SlotSeq(m) == SlotSeq(m - 1) + SlotsFor(m - 1)
  {
  }

  lemma NoSlots()
    ensures SlotSeq(0) == []
  {
  }

  lemma UsedInTree(m: nat, s: Slot)
    requires m <= LIMIT && Used(m, s)
    ensures InTree(s)
  {
  }

  lemma NewParent(i: nat, j: nat)
    requires j < |SlotsFor(i)|
    ensures var s := SlotsFor(i)[j]; Parent(s) == s || Used(i, Parent(s)) || (j > 0 && SlotsFor(i)[j - 1] == Parent(s))
  {
    var s := SlotsFor(i)[j];
    if i >= INDIRECT1_BOUND {
      var k := i - INDIRECT1_BOUND;
      assert k == 128 * (k / FAN) + k % FAN;
    }
  }

  function PutSeq(t: Tree, slots: seq<Slot>, ids: seq<nat>): Tree
    requires |slots| == |ids| && AllInTree(slots) && AllU32(ids)
  {
    if slots == [] then t
    else
      var k := |slots| - 1;
      Put(PutSeq(t, slots[..k], ids[..k]), slots[k], ids[k])
  }

  function AddOwner(own: Owners, ino: nat, slots: seq<Slot>, ids: seq<nat>): Owners
    requires |slots| == |ids|
  {
    if slots == [] then own
    else
      var k := |slots| - 1;
      AddOwner(own, ino, slots[..k], ids[..k])[ids[k] := Owner(ino, slots[k])]
  }

  lemma {:induction false} AddOwnerIs(own: Owners, ino: nat, slots: seq<Slot>, ids: seq<nat>)
    requires |slots| == |ids| && Distinct(ids) && forall j | 0 <= j < |ids| :: ids[j] !in own
    ensures var own' := AddOwner(own, ino, slots, ids);
            && own'.Keys == own.Keys + Members(ids)
            && (forall b | b in own :: own'[b] == own[b])
            && (forall j | 0 <= j < |ids| :: own'[ids[j]] == Owner(ino, slots[j]))
  {
    if slots != [] {
      var k := |slots| - 1;
      AddOwnerIs(own, ino, slots[..k], ids[..k]);
      MembersPush(ids[..k], ids[k]);
      assert ids == ids[..k] + [ids[k]];
    }
  }

  function Members(ids: seq<nat>): set<nat> { set id | id in ids }

  lemma MembersPush(ids: seq<nat>, id: nat)
    ensures Members(ids + [id]) == Members(ids) + {id}
  {
  }

  predicate AllInTree(slots: seq<Slot>) { forall j | 0 <= j < |slots| :: InTree(slots[j]) }

  predicate AllU32(ids: seq<nat>) { forall j | 0 <= j < |ids| :: ids[j] < U32 }

  /** Every block of this inode is in the slot it is owned for. */
  ghost predicate Placed(own: Owners, ino: nat, di: DiskInode, d: Disk, u: iset<Slot>) {
    forall b | b in own && own[b].ino == ino :: PlacedAt(own[b].slot, di, d, u, b)
  }

  ghost predicate PlacedAt(s: Slot, di: DiskInode, d: Disk, u: iset<Slot>, b: nat) {
    s in u && InTree(s) && SlotId(di, d, s) == b
  }

  lemma PutPlaced(own: Owners, ino: nat, t: Tree, u: iset<Slot>, s: Slot, id: nat)
    requires Owns(own, ino, t.di, t.d, u) && InTree(s) && s !in u && Parent(s) in u + iset{s}
    requires id < U32 && id !in own && Placed(own, ino, t.di, t.d, u)
    ensures var t' := Put(t, s, id); Placed(own[id := Owner(ino, s)], ino, t'.di, t'.d, u + iset{s})
  {
    hide Owns, SlotId, Put;
    var t', own' := Put(t, s, id), own[id := Owner(ino, s)];
    forall b | b in own' && own'[b].ino == ino ensures PlacedAt(own'[b].slot, t'.di, t'.d, u + iset{s}, b) {
      if b == id {
        PutAt(own, ino, t, u, s, id);
      } else {
        assert PlacedAt(own[b].slot, t.di, t.d, u, b);
        PutKeeps(own, ino, t, u, s, id, own[b].slot);
      }
    }
  }

  /** Only index blocks of one inode differ. */
  ghost predicate Quiet(own: Owners, ino: nat, d: Disk, d': Disk) {
    forall b: nat | !(b in own && own[b].ino == ino && !own[b].slot.Data?) :: Blk(d', b) == Blk(d, b)
  }

  lemma PutQuiet(own: Owners, ino: nat, t: Tree, u: iset<Slot>, s: Slot, id: nat)
    requires Owns(own, ino, t.di, t.d, u) && InTree(s) && s !in u && Parent(s) in u + iset{s} && id < U32
    ensures Quiet(own, ino, t.d, Put(t, s, id).d)
  {
    hide Owns;
    forall b: nat | !(b in own && own[b].ino == ino && !own[b].slot.Data?) ensures Blk(Put(t, s, id).d, b) == Blk(t.d, b) {
      PutDisk(t, s, id, b);
      if Parent(s) != s {
        OwnsSlot(own, ino, t.di, t.d, u, Parent(s));
      }
    }
  }

  /** Filling the next `k` slots with unused blocks. */
  lemma {:induction false} GrowOwns(own: Owners, ino: nat, t: Tree, m: nat, a: nat, k: nat, ids: seq<nat>)
    requires m <= LIMIT && a + k <= |SlotSeq(m)| && |ids| == k
    requires Owns(own, ino, t.di, t.d, Filled(m, a)) && Placed(own, ino, t.di, t.d, Filled(m, a))
    requires Distinct(ids) && forall j | 0 <= j < |ids| :: ids[j] !in own && ids[j] < U32
    ensures AllInTree(SlotSeq(m)[a..a + k])
    ensures var slots := SlotSeq(m)[a..a + k];
            var t', own' := PutSeq(t, slots, ids), AddOwner(own, ino, slots, ids);
            && Owns(own', ino, t'.di, t'.d, Filled(m, a + k))
            && Placed(own', ino, t'.di, t'.d, Filled(m, a + k))
            && Quiet(own', ino, t.d, t'.d)
            && t'.di.size == t.di.size
    decreases k
  {
    hide Owns, Placed, Put, PutSeq, AddOwner, Quiet, SlotSeq, Filled;
    var slots := SlotSeq(m)[a..a + k];
    if k == 0 {
      GrowNone(own, ino, t);
    } else {
      var slots1, ids1 := SlotSeq(m)[a..a + k - 1], ids[..k - 1];
      var s, id := SlotSeq(m)[a + k - 1], ids[k - 1];
      assert slots == slots1 + [s] && ids == ids1 + [id];
      GrowOwns(own, ino, t, m, a, k - 1, ids1);
      ParentFirst(m, a + k - 1);
      var t1, own1 := PutSeq(t, slots1, ids1), AddOwner(own, ino, slots1, ids1);
      NotYet(own, ino, slots1, ids1, id);
      FilledNext(m, a + k - 1);
      PutOwns(own1, ino, t1, Filled(m, a + k - 1), s, id);
      PutPlaced(own1, ino, t1, Filled(m, a + k - 1), s, id);
      PutQuiet(own1, ino, t1, Filled(m, a + k - 1), s, id);
      var t2 := Put(t1, s, id);
      QuietTrans(own1, own1[id := Owner(ino, s)], ino, t.d, t1.d, t2.d, id, s);
      PutSize(t1, s, id);
      PutSeqPush(t, slots1, ids1, s, id);
      AddOwnerPush(own, ino, slots1, ids1, s, id);
    }
  }

  lemma GrowNone(own: Owners, ino: nat, t: Tree)
    ensures PutSeq(t, [], []) == t && AddOwner(own, ino, [], []) == own && Quiet(own, ino, t.d, t.d)
  {
  }

  lemma NotYet(own: Owners, ino: nat, slots: seq<Slot>, ids: seq<nat>, id: nat)
    requires |slots| == |ids| && Distinct(ids + [id]) && id !in own && forall j | 0 <= j < |ids| :: ids[j] !in own
    ensures id !in AddOwner(own, ino, slots, ids)
  {
    hide AddOwner;
    assert Distinct(ids) by {
      forall i, j | 0 <= i < j < |ids| ensures ids[i] != ids[j] {
        assert (ids + [id])[i] != (ids + [id])[j];
      }
    }
    AddOwnerIs(own, ino, slots, ids);
    forall j | 0 <= j < |ids| ensures ids[j] != id {
      assert (ids + [id])[j] != (ids + [id])[|ids|];
    }
  }

  lemma PutSeqPush(t: Tree, slots: seq<Slot>, ids: seq<nat>, s: Slot, id: nat)
    requires |slots| == |ids| && AllInTree(slots) && AllU32(ids) && InTree(s) && id < U32
    ensures AllInTree(slots + [s]) && AllU32(ids + [id]) && PutSeq(t, slots + [s], ids + [id]) == Put(PutSeq(t, slots, ids), s, id)
  {
    hide Put;
    assert (slots + [s])[..|slots|] == slots && (ids + [id])[..|ids|] == ids;
  }

  lemma AddOwnerPush(own: Owners, ino: nat, slots: seq<Slot>, ids: seq<nat>, s: Slot, id: nat)
    requires |slots| == |ids|
    ensures AddOwner(own, ino, slots + [s], ids + [id]) == AddOwner(own, ino, slots, ids)[id := Owner(ino, s)]
  {
    assert (slots + [s])[..|slots|] == slots && (ids + [id])[..|ids|] == ids;
  }

  lemma PutSize(t: Tree, s: Slot, id: nat)
    requires InTree(s) && id < U32
    ensures Put(t, s, id).di.size == t.di.size
  {
  }

  lemma FilledNext(m: nat, k: nat)
    requires k < |SlotSeq(m)|
    ensures Filled(m, k + 1) == Filled(m, k) + iset{SlotSeq(m)[k]}
  {
    assert SlotSeq(m)[..k + 1] == SlotSeq(m)[..k] + [SlotSeq(m)[k]];
  }

  lemma QuietTrans(own: Owners, own': Owners, ino: nat, d: Disk, d1: Disk, d2: Disk, id: nat, s: Slot)
    requires Quiet(own, ino, d, d1) && Quiet(own, ino, d1, d2) && id !in own && own' == own[id := Owner(ino, s)]
    ensures Quiet(own', ino, d, d2)
  {
  }

  /** The index blocks of an inode are the same. */
  ghost predicate IndexSame(own: Owners, ino: nat, d: Disk, d': Disk) {
    forall b: nat | b in own && own[b].ino == ino && !own[b].slot.Data? :: Blk(d', b) == Blk(d, b)
  }

  /** A tree whose index blocks are the same is the same. */
  lemma SlotsSame(own: Owners, ino: nat, d: Disk, d': Disk, di: DiskInode, u: iset<Slot>, s: Slot)
    requires Owns(own, ino, di, d, u) && IndexSame(own, ino, d, d') && s in u
    ensures InTree(s) && SlotId(di, d', s) == SlotId(di, d, s)
    decreases Depth(s)
  {
    hide Owns, SlotId, Word;
    OwnsSlot(own, ino, di, d, u, s);
    if Parent(s) == s {
      RootSlot(di, d, d', s);
    } else {
      OwnsSlot(own, ino, di, d, u, Parent(s));
      SlotsSame(own, ino, d, d', di, u, Parent(s));
      SlotWord(Tree(di, d), s, 0);
      SlotWord(Tree(di, d'), s, 0);
    }
  }

  /** The blocks of an inode and the slots of its tree correspond one to one. */
  ghost predicate TreeOk(own: Owners, ino: nat, di: DiskInode, d: Disk) {
    var u := UsedSet(DataBlocks(di.size));
    DataBlocks(di.size) <= LIMIT && Owns(own, ino, di, d, u) && Placed(own, ino, di, d, u)
  }

  /** A tree is kept while its index blocks and its owners are. */
  lemma TreeKept(own: Owners, own': Owners, ino: nat, d: Disk, d': Disk, di: DiskInode)
    requires TreeOk(own, ino, di, d) && IndexSame(own, ino, d, d')
    requires forall b | b in own && own[b].ino == ino :: b in own' && own'[b] == own[b]
    requires forall b | b in own' && own'[b].ino == ino :: b in own && own'[b] == own[b]
    ensures TreeOk(own', ino, di, d')
  {
    hide Owns, SlotId, IndexSame, UsedSet;
    var u := UsedSet(DataBlocks(di.size));
    forall s | s in u ensures InTree(s) && Parent(s) in u + iset{s} && Owned(own', ino, di, d', s) {
      OwnsSlot(own, ino, di, d, u, s);
      SlotsSame(own, ino, d, d', di, u, s);
    }
    OwnsAll(own', ino, di, d', u);
    forall b | b in own' && own'[b].ino == ino ensures PlacedAt(own'[b].slot, di, d', u, b) {
      assert PlacedAt(own[b].slot, di, d, u, b);
      SlotsSame(own, ino, d, d', di, u, own[b].slot);
    }
  }

  lemma RootSlot(di: DiskInode, d: Disk, d': Disk, s: Slot)
    requires InTree(s) && Parent(s) == s
    ensures SlotId(di, d', s) == SlotId(di, d, s)
  {
  }

  // ---------------------------------------------------------------- bytes

  /** Byte `p` of a file. */
  function FileByte(di: DiskInode, d: Disk, p: nat): byte
    requires p < BLOCK_SZ * LIMIT
  {
    Blk(d, BlockId(di, d, p / BLOCK_SZ))[p % BLOCK_SZ]
  }

  /** Only data blocks of one inode differ. */
  ghost predicate DataOnly(own: Owners, ino: nat, d: Disk, d': Disk) {
    forall b: nat | !(b in own && own[b].ino == ino && own[b].slot.Data?) :: Blk(d', b) == Blk(d, b)
  }

  /** Storing into data block `i` of a file changes those bytes of that file only. */
  lemma StoreInBlock(own: Owners, ino: nat, di: DiskInode, d: Disk, n: nat, i: nat, b: Block, p: nat)
    requires n <= LIMIT && i < n && Owns(own, ino, di, d, UsedSet(n)) && p < BLOCK_SZ * n
    ensures var d' := d[BlockId(di, d, i) := b];
            && FileByte(di, d', p) == (if p / BLOCK_SZ == i then b[p % BLOCK_SZ] else FileByte(di, d, p))
            && DataOnly(own, ino, d, d')
  {
    hide Owns, BlockId;
    var d' := d[BlockId(di, d, i) := b];
    var q := p / BLOCK_SZ;
    assert q < n;
    OwnsSlot(own, ino, di, d, UsedSet(n), Data(i));
    OwnsSlot(own, ino, di, d, UsedSet(n), Data(q));
    SlotsSame(own, ino, d, d', di, UsedSet(n), Data(q));
  }

  lemma DataOnlyTrans(own: Owners, ino: nat, d: Disk, d1: Disk, d2: Disk)
    requires DataOnly(own, ino, d, d1) && DataOnly(own, ino, d1, d2)
    ensures DataOnly(own, ino, d, d2)
  {
  }

  lemma DataOnlyKeeps(own: Owners, ino: nat, d: Disk, d': Disk, other: nat, di: DiskInode)
    requires DataOnly(own, ino, d, d') && TreeOk(own, other, di, d)
    ensures TreeOk(own, other, di, d')
  {
    hide TreeOk;
    TreeKept(own, own, other, d, d', di);
  }

  lemma TreeFacts(own: Owners, ino: nat, di: DiskInode, d: Disk)
    requires TreeOk(own, ino, di, d)
    ensures DataBlocks(di.size) <= LIMIT && Owns(own, ino, di, d, UsedSet(DataBlocks(di.size)))
    ensures Placed(own, ino, di, d, UsedSet(DataBlocks(di.size)))
  {
  }
}
