/**
 The block cache: a fixed-capacity table over block devices with CLOCK eviction.
 */
module BlockCache {
  import opened Bytes

  const BLOCK_SZ: nat := 512
  const CACHE_SIZE: nat := 65536

  type Block = b: seq<byte> | |b| == BLOCK_SZ witness Zeros(BLOCK_SZ)

  /** A device and a block number on it. */
  datatype Key = Key(dev: nat, block: nat)

  /** `pins` counts the references held outside the table. */
  datatype Entry = Entry(data: Block, modified: bool, ref: bool, pins: nat)

  datatype Cache = Cache(queue: seq<Key>, hand: nat, table: map<Key, Entry>, disk: map<Key, Block>)

  function Stored(disk: map<Key, Block>, k: Key): Block {
    if k in disk then disk[k] else Zeros(BLOCK_SZ)
  }

  /** The disk as the users of the cache see it. */
  function Logical(c: Cache, k: Key): Block {
    if k in c.table then c.table[k].data else Stored(c.disk, k)
  }

  ghost predicate SameDisk(c: Cache, c': Cache) {
    forall k :: Logical(c', k) == Logical(c, k)
  }

  // ---------------------------------------------------------------- invariant

  ghost predicate DistinctKeys(q: seq<Key>) {
    forall i, j | 0 <= i < j < |q| :: q[i] != q[j]
  }

  /** Queue slots and table keys correspond one to one. */
  ghost predicate Slots(c: Cache) {
    && DistinctKeys(c.queue)
    && (forall i | 0 <= i < |c.queue| :: c.queue[i] in c.table)
    && (forall k | k in c.table :: k in c.queue)
  }

  /** An unmodified entry equals its block on the device. */
  ghost predicate Coherent(c: Cache) {
    forall k | k in c.table && !c.table[k].modified :: c.table[k].data == Stored(c.disk, k)
  }

  ghost predicate Inv(c: Cache) {
    Slots(c) && Coherent(c) && |c.queue| <= CACHE_SIZE
  }

  // ---------------------------------------------------------------- CLOCK

  datatype Victim = NoNeed | Slot(i: nat) | AllPinned

  /** Drop an entry; a modified one is written to the device first. */
  function Discard(c: Cache, k: Key): Cache
    requires k in c.table
  {
    c.(table := c.table - {k}, disk := if c.table[k].modified then c.disk[k := c.table[k].data] else c.disk)
  }

  /** Sweep `n` slots from the hand. */
  function Sweep(c: Cache, n: nat): (Cache, Victim)
    requires c.queue != []
    decreases n
  {
    if n == 0 then (c, AllPinned)
    else
      var i := c.hand % |c.queue|;
      var next := (i + 1) % |c.queue|;
      var k := c.queue[i];
      if k !in c.table then Sweep(c.(hand := next), n - 1)
      else if c.table[k].pins == 0 && !c.table[k].ref then (Discard(c, k).(hand := next), Slot(i))
      else
        var e := if c.table[k].pins == 0 then c.table[k].(ref := false) else c.table[k];
        Sweep(c.(hand := next, table := c.table[k := e]), n - 1)
  }

  function Evict(c: Cache): (Cache, Victim) {
    if |c.table| < CACHE_SIZE then (c, NoNeed)
    else if c.queue == [] then (c, AllPinned)
    else Sweep(c, 2 * |c.queue|)
  }

  /** How far the hand has to move to slot `i`. */
  ghost function Ahead(c: Cache, i: nat): nat
    requires i < |c.queue|
  {
    var h := c.hand % |c.queue|;
    if h <= i then i - h else i + |c.queue| - h
  }

  /** How many more slots until the sweep takes slot `i`: a full extra turn while it is referenced. */
  ghost function Need(c: Cache, i: nat): nat
    requires i < |c.queue| && c.queue[i] in c.table
  {
    Ahead(c, i) + (if c.table[c.queue[i]].ref then |c.queue| else 0)
  }

  lemma NextSlot(h: nat, n: nat)
    requires h < n
    ensures (h + 1) % n == if h + 1 == n then 0 else h + 1
    ensures ((h + 1) % n) % n == (h + 1) % n
  {
    if h + 1 < n {} else { assert h + 1 == n; assert n % n == 0; }
  }

  lemma HandInRange(h: nat, n: nat)
    requires 0 < n
    ensures h % n < n
  {
  }

  /** A sweep comes to rest on a victim as soon as it is longer than some unpinned slot needs. */
  lemma {:induction false} SweepFinds(c: Cache, n: nat, i: nat)
    requires Slots(c) && i < |c.queue| && c.table[c.queue[i]].pins == 0 && Need(c, i) < n
    ensures Sweep(c, n).1.Slot?
    decreases n
  {
    var h := c.hand % |c.queue|;
    HandInRange(c.hand, |c.queue|);
    NextSlot(h, |c.queue|);
    var k := c.queue[h];
    if c.table[k].pins != 0 || c.table[k].ref {
      var e := if c.table[k].pins == 0 then c.table[k].(ref := false) else c.table[k];
      var c1 := c.(hand := (h + 1) % |c.queue|, table := c.table[k := e]);
      assert Slots(c1);
      assert i != h ==> c.queue[i] != k;
      SweepFinds(c1, n - 1, i);
    }
  }

  /** The panic is reachable only when every entry is pinned. */
  lemma EvictFindsVictim(c: Cache)
    requires Inv(c)
    ensures Evict(c).1.AllPinned? <==> |c.table| >= CACHE_SIZE && forall k | k in c.table :: c.table[k].pins != 0
  {
    if |c.table| >= CACHE_SIZE {
      assert c.table.Keys != {};
      var k0 :| k0 in c.table;
      assert k0 in c.queue;
      if k :| k in c.table && c.table[k].pins == 0 {
        assert k in c.queue;
        var i :| 0 <= i < |c.queue| && c.queue[i] == k;
        HandInRange(c.hand, |c.queue|);
        SweepFinds(c, 2 * |c.queue|, i);
      } else {
        SweepFails(c, 2 * |c.queue|);
      }
    }
  }

  lemma {:induction false} SweepFails(c: Cache, n: nat)
    requires Slots(c) && c.queue != [] && forall k | k in c.table :: c.table[k].pins != 0
    ensures Sweep(c, n).1.AllPinned?
    decreases n
  {
    if n != 0 {
      var h := c.hand % |c.queue|;
      HandInRange(c.hand, |c.queue|);
      var k := c.queue[h];
      assert k in c.table;
      var c1 := c.(hand := (h + 1) % |c.queue|, table := c.table[k := c.table[k]]);
      assert c1.table == c.table;
      SweepFails(c1, n - 1);
    }
  }

  /** The state after the hand has passed one slot without taking its entry. */
  ghost function Passed(c: Cache): Cache
    requires c.queue != [] && c.queue[c.hand % |c.queue|] in c.table
  {
    var k := c.queue[c.hand % |c.queue|];
    c.(hand := (c.hand % |c.queue| + 1) % |c.queue|, table := c.table[k := c.table[k].(ref := c.table[k].ref && c.table[k].pins != 0)])
  }

  lemma PassedSlots(c: Cache, i: nat)
    requires Slots(c) && i < |c.queue|
    ensures Slots(Passed(c)) && Passed(c).queue == c.queue && Passed(c).disk == c.disk
    ensures Passed(c).table[c.queue[i]] == c.table[c.queue[i]].(ref := Passed(c).table[c.queue[i]].ref)
    ensures Ahead(Passed(c), i) == if Ahead(c, i) == 0 then |c.queue| - 1 else Ahead(c, i) - 1
    ensures c.table[c.queue[i]].pins == 0 && (Ahead(c, i) != 0 || c.table[c.queue[i]].ref) ==> Need(Passed(c), i) == Need(c, i) - 1
  {
    var h := c.hand % |c.queue|;
    HandInRange(c.hand, |c.queue|);
    NextSlot(h, |c.queue|);
    assert i != h ==> c.queue[i] != c.queue[h];
  }

  /** Whether the hand takes the entry it stands on. */
  ghost predicate Takes(c: Cache)
    requires c.queue != [] && c.queue[c.hand % |c.queue|] in c.table
  {
    c.table[c.queue[c.hand % |c.queue|]].pins == 0 && !c.table[c.queue[c.hand % |c.queue|]].ref
  }

  lemma SweepStep(c: Cache, n: nat)
    requires Slots(c) && c.queue != [] && n > 0
    ensures c.hand % |c.queue| < |c.queue| && c.queue[c.hand % |c.queue|] in c.table
    ensures !Takes(c) ==> Sweep(c, n) == Sweep(Passed(c), n - 1)
    ensures var h := c.hand % |c.queue|;
            Takes(c) ==> Sweep(c, n) == (Discard(c, c.queue[h]).(hand := (h + 1) % |c.queue|), Slot(h))
  {
    var h := c.hand % |c.queue|;
    HandInRange(c.hand, |c.queue|);
    var k := c.queue[h];
    if !Takes(c) {
      var e := if c.table[k].pins == 0 then c.table[k].(ref := false) else c.table[k];
      assert Passed(c) == c.(hand := (h + 1) % |c.queue|, table := c.table[k := e]);
    }
  }

  /** The sweep takes the unpinned slot that needs the fewest moves. */
  lemma {:induction false} SweepFirst(c: Cache, n: nat, i: nat)
    requires Slots(c) && i < |c.queue| && c.table[c.queue[i]].pins == 0 && Sweep(c, n).1.Slot?
    ensures var v := Sweep(c, n).1.i; v < |c.queue| && c.table[c.queue[v]].pins == 0 && Need(c, v) <= Need(c, i)
    decreases n
  {
    SweepStep(c, n);
    if !Takes(c) {
      PassedSlots(c, i);
      SweepFirst(Passed(c), n - 1, i);
      VictimUnpinned(c, n);
      PassedSlots(c, Sweep(c, n).1.i);
    }
  }

  /** Second chance: the victim is the first unpinned entry from the hand on that was not used since the hand last
      passed it, and a used one only if every unpinned entry was used. */
  lemma SecondChance(c: Cache, i: nat)
    requires Inv(c) && Evict(c).1.Slot? && i < |c.queue| && c.table[c.queue[i]].pins == 0
    ensures var v := Evict(c).1.i;
            && v < |c.queue| && c.table[c.queue[v]].pins == 0
            && (c.table[c.queue[v]].ref ==> c.table[c.queue[i]].ref)
            && (c.table[c.queue[v]].ref == c.table[c.queue[i]].ref ==> Ahead(c, v) <= Ahead(c, i))
  {
    HandInRange(c.hand, |c.queue|);
    SweepFirst(c, 2 * |c.queue|, i);
  }

  /** Making room writes the victim to its device if it was modified, and nothing else. */
  lemma {:induction false} SweepWrites(c: Cache, n: nat)
    requires Slots(c) && c.queue != []
    ensures var (c', v) := Sweep(c, n); v.Slot? ==> v.i < |c.queue|
    ensures var (c', v) := Sweep(c, n);
            c'.disk == if v.Slot? && c.table[c.queue[v.i]].modified then c.disk[c.queue[v.i] := c.table[c.queue[v.i]].data] else c.disk
    decreases n
  {
    if n != 0 {
      SweepStep(c, n);
      if !Takes(c) {
        PassedSlots(c, c.hand % |c.queue|);
        hide Sweep, Takes, Slots;
        SweepWrites(Passed(c), n - 1);
        if Sweep(c, n).1.Slot? {
          PassedSlots(c, Sweep(c, n).1.i);
        }
      }
    }
  }

  /** An entry that stays loses its use bit if it is unpinned and the hand passed it, and nothing else. */
  lemma {:induction false} SweepClears(c: Cache, n: nat, i: nat)
    requires Slots(c) && i < |c.queue| && Sweep(c, n).1.Slot? && i != Sweep(c, n).1.i
    ensures var (c', v) := Sweep(c, n);
            && v.i < |c.queue| && c.queue[i] in c'.table
            && var e := c.table[c.queue[i]];
               c'.table[c.queue[i]] == if e.pins == 0 && Ahead(c, i) < Need(c, v.i) then e.(ref := false) else e
    decreases n
  {
    SweepStep(c, n);
    if !Takes(c) {
      PassedSlots(c, i);
      SweepClears(Passed(c), n - 1, i);
      VictimUnpinned(c, n);
      PassedSlots(c, Sweep(c, n).1.i);
    }
  }

  lemma AheadZero(c: Cache, i: nat)
    requires i < |c.queue| && Ahead(c, i) == 0
    ensures i == c.hand % |c.queue|
  {
    HandInRange(c.hand, |c.queue|);
  }

  lemma {:induction false} VictimUnpinned(c: Cache, n: nat)
    requires Slots(c) && c.queue != [] && Sweep(c, n).1.Slot?
    ensures var v := Sweep(c, n).1.i; v < |c.queue| && c.table[c.queue[v]].pins == 0 && (Takes(c) || Need(c, v) > 0)
    decreases n
  {
    SweepStep(c, n);
    if !Takes(c) {
      PassedSlots(c, c.hand % |c.queue|);
      hide Sweep, Slots, Ahead, Passed;
      VictimUnpinned(Passed(c), n - 1);
      var v := Sweep(c, n).1.i;
      PassedSlots(c, v);
      if Ahead(c, v) == 0 {
        AheadZero(c, v);
      }
    }
  }

  // ---------------------------------------------------------------- eviction and installation are invisible

  /** Slot `i` has lost its entry and waits for a new one. */
  ghost predicate Hole(c: Cache, i: nat) {
    && i < |c.queue| && DistinctKeys(c.queue) && c.queue[i] !in c.table
    && (forall j | 0 <= j < |c.queue| && j != i :: c.queue[j] in c.table)
    && (forall k | k in c.table :: k in c.queue)
  }

  /** The cache is ready to take an entry for `k` after `v`. */
  ghost predicate Ready(c: Cache, v: Victim) {
    && Coherent(c) && |c.queue| <= CACHE_SIZE
    && match v
       case NoNeed => Slots(c) && |c.queue| < CACHE_SIZE
       case Slot(i) => Hole(c, i)
       case AllPinned => Slots(c)
  }

  lemma {:induction false} DistinctSize(q: seq<Key>, keys: set<Key>)
    requires DistinctKeys(q) && (forall k :: k in q <==> k in keys)
    ensures |q| == |keys|
  {
    if q == [] {
      assert keys == {};
    } else {
      var k := q[|q| - 1];
      var q' := q[..|q| - 1];
      assert q == q' + [k];
      DistinctSize(q', keys - {k});
    }
  }

  lemma SlotCount(c: Cache)
    requires Slots(c)
    ensures |c.queue| == |c.table|
  {
    assert forall k :: k in c.queue <==> k in c.table.Keys;
    DistinctSize(c.queue, c.table.Keys);
  }

  lemma DiscardSafe(c: Cache, i: nat, next: nat)
    requires Inv(c) && i < |c.queue|
    ensures var c1 := Discard(c, c.queue[i]).(hand := next);
            Ready(c1, Slot(i)) && SameDisk(c, c1)
  {
  }

  lemma TouchSafe(c: Cache, k: Key, e: Entry, hand: nat)
    requires Inv(c) && k in c.table && e.data == c.table[k].data && e.modified == c.table[k].modified
    ensures var c1 := c.(hand := hand, table := c.table[k := e]); Inv(c1) && SameDisk(c, c1)
  {
  }

  lemma SameDiskTrans(a: Cache, b: Cache, c: Cache)
    requires SameDisk(a, b) && SameDisk(b, c)
    ensures SameDisk(a, c)
  {
    forall k ensures Logical(c, k) == Logical(a, k) { assert Logical(b, k) == Logical(a, k); }
  }

  lemma InvFacts(c: Cache)
    requires Inv(c)
    ensures Ready(c, AllPinned) && SameDisk(c, c)
    ensures forall i | 0 <= i < |c.queue| :: c.queue[i] in c.table
  {
  }

  lemma {:induction false} SweepSafe(c: Cache, n: nat)
    requires Inv(c) && c.queue != []
    ensures Ready(Sweep(c, n).0, Sweep(c, n).1) && SameDisk(c, Sweep(c, n).0)
    ensures |Sweep(c, n).0.queue| == |c.queue| && !Sweep(c, n).1.NoNeed?
    decreases n
  {
    hide Inv, Ready, SameDisk;
    InvFacts(c);
    if n != 0 {
      var h := c.hand % |c.queue|;
      HandInRange(c.hand, |c.queue|);
      var next := (h + 1) % |c.queue|;
      var k := c.queue[h];
      if c.table[k].pins == 0 && !c.table[k].ref {
        DiscardSafe(c, h, next);
      } else {
        var e := if c.table[k].pins == 0 then c.table[k].(ref := false) else c.table[k];
        var c1 := c.(hand := next, table := c.table[k := e]);
        TouchSafe(c, k, e, next);
        SweepSafe(c1, n - 1);
        SameDiskTrans(c, c1, Sweep(c1, n - 1).0);
      }
    }
  }

  /** Making room changes no block as its users see it. */
  lemma EvictSafe(c: Cache)
    requires Inv(c)
    ensures Ready(Evict(c).0, Evict(c).1) && SameDisk(c, Evict(c).0)
    ensures forall k | k in Evict(c).0.table :: k in c.table
  {
    SlotCount(c);
    if |c.table| >= CACHE_SIZE && c.queue != [] {
      SweepSafe(c, 2 * |c.queue|);
      SweepShrinks(c, 2 * |c.queue|);
    }
  }

  lemma {:induction false} SweepShrinks(c: Cache, n: nat)
    requires Inv(c) && c.queue != []
    ensures forall k | k in Sweep(c, n).0.table :: k in c.table
    decreases n
  {
    if n != 0 {
      var h := c.hand % |c.queue|;
      HandInRange(c.hand, |c.queue|);
      var k := c.queue[h];
      assert k in c.table;
      if c.table[k].pins != 0 || c.table[k].ref {
        var e := if c.table[k].pins == 0 then c.table[k].(ref := false) else c.table[k];
        TouchSafe(c, k, e, (h + 1) % |c.queue|);
        SweepShrinks(c.(hand := (h + 1) % |c.queue|, table := c.table[k := e]), n - 1);
      }
    }
  }

  /** Every entry is held, so nothing can be evicted. */
  ghost predicate FullPinned(c: Cache) {
    |c.table| >= CACHE_SIZE && forall k | k in c.table :: c.table[k].pins != 0
  }

  /** Entries that are held stay exactly as they are. */
  ghost predicate HeldKept(c: Cache, c': Cache) {
    forall k | k in c.table && c.table[k].pins != 0 :: k in c'.table && c'.table[k] == c.table[k]
  }

  lemma {:induction false} SweepKeepsHeld(c: Cache, n: nat)
    requires c.queue != []
    ensures HeldKept(c, Sweep(c, n).0)
    decreases n
  {
    if n != 0 {
      HandInRange(c.hand, |c.queue|);
      var h := c.hand % |c.queue|;
      var k, next := c.queue[h], (h + 1) % |c.queue|;
      if k !in c.table {
        SweepKeepsHeld(c.(hand := next), n - 1);
      } else if c.table[k].pins != 0 || c.table[k].ref {
        var e := if c.table[k].pins == 0 then c.table[k].(ref := false) else c.table[k];
        SweepKeepsHeld(c.(hand := next, table := c.table[k := e]), n - 1);
      }
    }
  }

  /** Eviction never touches an entry that is held; when all are, it changes no entry. */
  lemma EvictKeepsHeld(c: Cache)
    requires Inv(c)
    ensures HeldKept(c, Evict(c).0)
    ensures Evict(c).1.AllPinned? <==> FullPinned(c)
    ensures FullPinned(c) ==> Evict(c).0.table == c.table
  {
    hide Inv, Sweep;
    EvictFindsVictim(c);
    EvictSafe(c);
    if |c.table| >= CACHE_SIZE && c.queue != [] {
      SweepKeepsHeld(c, 2 * |c.queue|);
    }
  }

  function Install(c: Cache, k: Key, e: Entry, v: Victim): Cache
    requires v.Slot? ==> v.i < |c.queue|
  {
    c.(queue := if v.Slot? then c.queue[v.i := k] else c.queue + [k], table := c.table[k := e])
  }

  /** Installing a block's stored bytes is invisible and restores the correspondence. */
  lemma InstallSafe(c: Cache, k: Key, e: Entry, v: Victim)
    requires Ready(c, v) && !v.AllPinned? && k !in c.table && e.data == Stored(c.disk, k)
    ensures Inv(Install(c, k, e, v)) && SameDisk(c, Install(c, k, e, v))
  {
    var c1 := Install(c, k, e, v);
    assert Coherent(c1);
    forall i, j | 0 <= i < j < |c1.queue| ensures c1.queue[i] != c1.queue[j] {
      if v.Slot? {
        if i == v.i { assert c.queue[j] in c.table; }
        if j == v.i { assert c.queue[i] in c.table; }
      } else {
        assert c.queue[i] in c.table;
      }
    }
    forall q | q in c1.table ensures q in c1.queue {
      if q == k {
        assert c1.queue[if v.Slot? then v.i else |c.queue|] == k;
      } else {
        assert q in c.queue;
        var i :| 0 <= i < |c.queue| && c.queue[i] == q;
        assert c1.queue[i] == q;
      }
    }
  }
}
