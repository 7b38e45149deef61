/**
 The VFS name cache: positive and negative directory entries over a backend, with CLOCK eviction.
 */
module DentryCache {

  const HIGH: nat := 4096
  const LOW: nat := 2304

  datatype Key = Key(fs: nat, parent: nat, name: string)

  /** The inode a name leads to; `NoEntry` is a name that does not exist. */
  datatype Child = NoEntry | Child(ino: nat)

  datatype Entry = Entry(child: Child, ref: bool)

  datatype Cache = Cache(table: map<Key, Entry>, inactive: seq<Key>, negatives: nat)

  /** What the file systems themselves answer. */
  type Backend = map<Key, nat>

  function Answer(b: Backend, k: Key): Child { if k in b then Child(b[k]) else NoEntry }

  // ---------------------------------------------------------------- invariant

  /** Every cached answer is the backend's answer. */
  ghost predicate Coherent(c: Cache, b: Backend) {
    forall k | k in c.table :: c.table[k].child == Answer(b, k)
  }

  function Negatives(t: map<Key, Entry>): set<Key> { set k | k in t && t[k].child == NoEntry }

  /** The negative count is exact and every entry waits in the eviction queue. */
  ghost predicate Inv(c: Cache) {
    && c.negatives == |Negatives(c.table)|
    && (forall k | k in c.table :: k in c.inactive)
  }

  function IsNeg(t: map<Key, Entry>, k: Key): nat { if k in t && t[k].child == NoEntry then 1 else 0 }

  lemma NegSet(t: map<Key, Entry>, k: Key, e: Entry)
    ensures Negatives(t[k := e]) == if e.child == NoEntry then Negatives(t) + {k} else Negatives(t) - {k}
    ensures t[k := e].Keys == t.Keys + {k}
  {
    var t' := t[k := e];
    forall q ensures q in Negatives(t') <==> if e.child == NoEntry then q in Negatives(t) + {k} else q in Negatives(t) - {k} {
      if q != k {
        assert q in t' <==> q in t;
      }
    }
  }

  lemma NegUpdate(t: map<Key, Entry>, k: Key, e: Entry)
    ensures |Negatives(t[k := e])| == |Negatives(t)| - IsNeg(t, k) + if e.child == NoEntry then 1 else 0
    ensures |t[k := e]| == |t| + if k in t then 0 else 1
    ensures IsNeg(t, k) <= |Negatives(t)|
  {
    hide Negatives;
    NegSet(t, k, e);
    NegOf(t, k);
    Card(Negatives(t), k);
    Card(t.Keys, k);
    assert |t[k := e]| == |t[k := e].Keys| && |t| == |t.Keys|;
  }

  lemma Card(s: set<Key>, k: Key)
    ensures |s + {k}| == |s| + if k in s then 0 else 1
    ensures |s - {k}| == |s| - if k in s then 1 else 0
  {
    if k in s {
      assert s + {k} == s;
    } else {
      assert s - {k} == s;
    }
  }

  lemma NegOf(t: map<Key, Entry>, k: Key)
    ensures k in Negatives(t) <==> IsNeg(t, k) == 1
  {
  }

  lemma NegRemove(t: map<Key, Entry>, k: Key)
    ensures |Negatives(t - {k})| == |Negatives(t)| - IsNeg(t, k)
    ensures |t - {k}| <= |t| && IsNeg(t, k) <= |Negatives(t)|
  {
    assert Negatives(t - {k}) == Negatives(t) - {k};
    assert (t - {k}).Keys == t.Keys - {k};
  }

  lemma EmptyTable(c: Cache)
    requires Inv(c) && c.inactive == []
    ensures |c.table| == 0
  {
    assert c.table.Keys == {};
  }

  // ---------------------------------------------------------------- eviction

  function Refs(t: map<Key, Entry>): set<Key> { set k | k in t && t[k].ref }

  function Dropped(n: nat, e: Entry): nat { if e.child == NoEntry && n > 0 then n - 1 else n }

  /** Take the oldest queued key: forget a stale one, give a used one a second chance, or evict. */
  function ReclaimOne(c: Cache): Cache
    requires c.inactive != []
  {
    var k, rest := c.inactive[0], c.inactive[1..];
    if k !in c.table then c.(inactive := rest)
    else if c.table[k].ref then c.(table := c.table[k := c.table[k].(ref := false)], inactive := rest + [k])
    else Cache(c.table - {k}, rest, Dropped(c.negatives, c.table[k]))
  }

  ghost function Work(c: Cache): nat { |c.inactive| + |Refs(c.table)| }

  /** Every step leaves less to do. */
  lemma ReclaimProgress(c: Cache)
    requires c.inactive != []
    ensures Work(ReclaimOne(c)) < Work(c)
  {
    var k, t := c.inactive[0], c.table;
    if k in t {
      if t[k].ref {
        assert Refs(t[k := t[k].(ref := false)]) == Refs(t) - {k};
      } else {
        assert Refs(t - {k}) == Refs(t);
      }
    }
  }

  lemma ReclaimKeeps(c: Cache, b: Backend)
    requires Inv(c) && Coherent(c, b) && c.inactive != []
    ensures Inv(ReclaimOne(c)) && Coherent(ReclaimOne(c), b)
    ensures |ReclaimOne(c).table| <= |c.table|
  {
    hide Negatives, Work;
    var k, t := c.inactive[0], c.table;
    assert c.inactive == [k] + c.inactive[1..];
    if k in t {
      if t[k].ref {
        NegUpdate(t, k, t[k].(ref := false));
      } else {
        NegRemove(t, k);
      }
    }
  }

  /** Evict while the table is above the high watermark. */
  function Reclaimed(c: Cache): Cache
    decreases Work(c)
  {
    if |c.table| <= HIGH || c.inactive == [] then c
    else
      ReclaimProgress(c);
      Reclaimed(ReclaimOne(c))
  }

  /** Eviction ends at the watermark and never changes an answer. */
  lemma {:induction false} ReclaimedKeeps(c: Cache, b: Backend)
    requires Inv(c) && Coherent(c, b)
    ensures Inv(Reclaimed(c)) && Coherent(Reclaimed(c), b)
    ensures |Reclaimed(c).table| <= HIGH
    decreases Work(c)
  {
    if |c.table| <= HIGH {
    } else if c.inactive == [] {
      EmptyTable(c);
    } else {
      ReclaimProgress(c);
      ReclaimKeeps(c, b);
      ReclaimedKeeps(ReclaimOne(c), b);
    }
  }

  // ---------------------------------------------------------------- entries

  /** Record an answer, new or replaced. */
  function Inserted(c: Cache, k: Key, child: Child): Cache {
    if k in c.table then
      var was := c.table[k].child;
      var n := if was == NoEntry && child != NoEntry then Dropped(c.negatives, c.table[k])
               else if was != NoEntry && child == NoEntry then c.negatives + 1 else c.negatives;
      c.(table := c.table[k := Entry(child, true)], negatives := n)
    else
      Reclaimed(Cache(c.table[k := Entry(child, true)], c.inactive + [k], c.negatives + if child == NoEntry then 1 else 0))
  }

  lemma InsertedKeeps(c: Cache, b: Backend, b': Backend, k: Key)
    requires Inv(c) && Coherent(c, b) && |c.table| <= HIGH
    requires forall q | q != k :: Answer(b', q) == Answer(b, q)
    ensures var c' := Inserted(c, k, Answer(b', k)); Inv(c') && Coherent(c', b') && |c'.table| <= HIGH
  {
    hide Negatives, Reclaimed;
    var t, child := c.table, Answer(b', k);
    var t' := t[k := Entry(child, true)];
    NegUpdate(t, k, Entry(child, true));
    if k !in t {
      ReclaimedKeeps(Cache(t', c.inactive + [k], c.negatives + if child == NoEntry then 1 else 0), b');
    }
  }

  function Removed(c: Cache, k: Key): Cache {
    if k in c.table then c.(table := c.table - {k}, negatives := Dropped(c.negatives, c.table[k])) else c
  }

  /** Without its entry a name may change in the backend. */
  lemma RemovedKeeps(c: Cache, b: Backend, b': Backend, k: Key)
    requires Inv(c) && |c.table| <= HIGH
    requires forall q | q in c.table && q != k :: c.table[q].child == Answer(b', q)
    ensures var c' := Removed(c, k); Inv(c') && Coherent(c', b') && |c'.table| <= HIGH && k !in c'.table
  {
    hide Negatives;
    NegRemove(c.table, k);
  }

  // ---------------------------------------------------------------- lookup and rename

  /** The cache after a lookup: the entry is marked used, or the backend's answer is recorded. */
  function Looked(c: Cache, b: Backend, k: Key): Cache {
    if k.fs == 0 then c
    else if k in c.table then c.(table := c.table[k := c.table[k].(ref := true)])
    else Inserted(c, k, Answer(b, k))
  }

  /** The cache after a rename: the old name is recorded as missing and the new one as the renamed inode. */
  function Renamed(c: Cache, from: Key, dest: Key, ino: nat): Cache {
    var c1 := if from.fs == 0 then c else Inserted(c, from, NoEntry);
    if dest.fs == 0 then c1 else Inserted(Removed(c1, dest), dest, Child(ino))
  }

  function Moved(b: Backend, from: Key, dest: Key): Backend
    requires from in b
  {
    (b - {from})[dest := b[from]]
  }

  /** Both names lead to one inode. */
  predicate SameInode(b: Backend, from: Key, dest: Key) { from in b && dest in b && b[from] == b[dest] }

  /** How a backend ends a rename: refused, with the name moved, or with two links of one inode left alone. */
  datatype Move = Refused | Moves | Leaves

  predicate CanEnd(b: Backend, from: Key, dest: Key, how: Move) {
    (how.Moves? ==> from in b) && (how.Leaves? ==> SameInode(b, from, dest))
  }

  function After(b: Backend, from: Key, dest: Key, how: Move): Backend
    requires CanEnd(b, from, dest, how)
  {
    if how.Moves? then Moved(b, from, dest) else b
  }

  /** Ext4 leaves two links of one inode alone. */
  function Ext4Move(b: Backend, from: Key, dest: Key): Move { if SameInode(b, from, dest) then Leaves else Moves }

  /** A rename that does not run between two links of one inode. */
  predicate Movable(b: Backend, from: Key, dest: Key) {
    from in b && (dest in b && dest != from ==> b[dest] != b[from])
  }

  /** Only names of file systems with a number are cached. */
  ghost predicate Numbered(c: Cache) { forall k | k in c.table :: k.fs != 0 }

  ghost predicate Good(c: Cache, b: Backend) { Inv(c) && Coherent(c, b) && |c.table| <= HIGH && Numbered(c) }

  /** Recording the backend's answer for the one name that may have changed. */
  lemma RecordGood(c: Cache, b: Backend, b': Backend, k: Key)
    requires Good(c, b) && k.fs != 0 && forall q | q != k :: Answer(b', q) == Answer(b, q)
    ensures Good(Inserted(c, k, Answer(b', k)), b')
  {
    hide Inv, Coherent, Inserted;
    InsertedKeeps(c, b, b', k);
    KeysFrom(c, k, Answer(b', k));
  }

  lemma LookedGood(c: Cache, b: Backend, k: Key)
    requires Good(c, b)
    ensures Good(Looked(c, b, k), b)
  {
    hide Inv, Coherent, Inserted;
    if k.fs != 0 {
      if k in c.table {
        TouchKeeps(c, b, k);
        assert |Looked(c, b, k).table| == |Looked(c, b, k).table.Keys| == |c.table.Keys|;
      } else {
        RecordGood(c, b, b, k);
      }
    }
  }

  /** The cache after a rename always agrees with a backend that moved the name. */
  lemma RenamedMoves(c: Cache, b: Backend, from: Key, dest: Key)
    requires Good(c, b) && from in b
    ensures Good(Renamed(c, from, dest, b[from]), Moved(b, from, dest))
  {
    hide Inv, Coherent, Inserted, Removed;
    var b1, b2 := b - {from}, Moved(b, from, dest);
    var c1 := if from.fs == 0 then c else Inserted(c, from, NoEntry);
    if from.fs == 0 {
      UncachedChange(c, b, b1, from);
    } else {
      RecordGood(c, b, b1, from);
    }
    if dest.fs == 0 {
      UncachedChange(c1, b1, b2, dest);
    } else {
      RemovedNarrows(c1, b1, b2, dest);
      RecordGood(Removed(c1, dest), b2, b2, dest);
    }
  }

  /** When the cache is right after a rename: the backend moved the name, or old and new name are one, or
      the old name did not stay cached. */
  lemma RenamedExact(c: Cache, b: Backend, from: Key, dest: Key, how: Move)
    requires Good(c, b) && !how.Refused? && CanEnd(b, from, dest, how)
    ensures var c' := Renamed(c, from, dest, b[from]);
            && Good(c', Moved(b, from, dest))
            && (Coherent(c', After(b, from, dest, how)) <==> how.Moves? || from == dest || from !in c'.table)
  {
    hide Renamed, Inv;
    RenamedMoves(c, b, from, dest);
    var c' := Renamed(c, from, dest, b[from]);
    if how.Leaves? {
      if from == dest {
        assert Moved(b, from, dest) == b;
      } else {
        assert forall q | q != from :: Answer(Moved(b, from, dest), q) == Answer(b, q);
      }
    }
  }

  /** Slots a name may need. */
  function Extra(c: Cache, k: Key): nat { if k in c.table || k.fs == 0 then 0 else 1 }

  /** Without eviction the old name stays cached. */
  lemma RenamedStays(c: Cache, from: Key, dest: Key, ino: nat)
    requires from != dest && from.fs != 0 && |c.table| + Extra(c, from) + Extra(c, dest) <= HIGH
    ensures from in Renamed(c, from, dest, ino).table
  {
    hide Negatives;
    NegUpdate(c.table, from, Entry(NoEntry, true));
    var c1 := Inserted(c, from, NoEntry);
    assert c1.table == c.table[from := Entry(NoEntry, true)];
    if dest.fs != 0 {
      var t := c1.table - {dest};
      assert t.Keys == c1.table.Keys - {dest};
      Card(c1.table.Keys, dest);
      NegUpdate(t, dest, Entry(Child(ino), true));
      assert |t| == |t.Keys| && |c1.table| == |c1.table.Keys|;
    }
  }

  /** Rename over ext4 keeps the cache right if and only if it is not between two links of one inode, whenever
      the two names fit the cache; both names being cached is one such case. */
  lemma RenameExact(c: Cache, b: Backend, from: Key, dest: Key)
    requires Good(c, b) && from in b && from.fs != 0
    requires |c.table| + Extra(c, from) + Extra(c, dest) <= HIGH
    ensures Coherent(Renamed(c, from, dest, b[from]), After(b, from, dest, Ext4Move(b, from, dest))) <==> Movable(b, from, dest)
  {
    hide Renamed, Good, Coherent;
    RenamedExact(c, b, from, dest, Ext4Move(b, from, dest));
    if from != dest {
      RenamedStays(c, from, dest, b[from]);
    }
  }

  // ---------------------------------------------------------------- second chance

  /** The use bits of the entries among `ks` are cleared. */
  ghost function Cleared(t: map<Key, Entry>, ks: seq<Key>): map<Key, Entry> {
    map k | k in t :: if k in ks then t[k].(ref := false) else t[k]
  }

  /** Every entry is queued once. */
  ghost predicate Once(c: Cache) {
    forall i, j | 0 <= i < j < |c.inactive| && c.inactive[i] in c.table :: c.inactive[i] != c.inactive[j]
  }

  /** Place `i` of the queue is the first with an unused entry. */
  ghost predicate FirstUnused(c: Cache, i: nat) {
    && i < |c.inactive| && c.inactive[i] in c.table && !c.table[c.inactive[i]].ref
    && forall j | 0 <= j < i && c.inactive[j] in c.table :: c.table[c.inactive[j]].ref
  }

  /** One entry too many: the first unused one in the queue goes, the used ones before it lose their bit and stay. */
  lemma {:induction false} EvictsFirstUnused(c: Cache, i: nat)
    requires Once(c) && FirstUnused(c, i) && |c.table| == HIGH + 1
    ensures Reclaimed(c).table == Cleared(c.table, c.inactive[..i]) - {c.inactive[i]}
    decreases i
  {
    var k, c1 := c.inactive[0], ReclaimOne(c);
    ReclaimProgress(c);
    hide Refs, Work;
    if i == 0 {
      OneLess(c.table, k);
      assert Cleared(c.table, []) == c.table;
    } else {
      NextUnused(c, i);
      EvictsFirstUnused(c1, i - 1);
      ClearedNext(c, i);
    }
  }

  lemma OneLess(t: map<Key, Entry>, k: Key)
    requires k in t
    ensures |t - {k}| == |t| - 1
  {
    assert (t - {k}).Keys == t.Keys - {k};
    Card(t.Keys, k);
    assert |t| == |t.Keys| && |t - {k}| == |(t - {k}).Keys|;
  }

  lemma NextUnused(c: Cache, i: nat)
    requires Once(c) && FirstUnused(c, i) && i > 0
    ensures var c1 := ReclaimOne(c); Once(c1) && FirstUnused(c1, i - 1) && |c1.table| == |c.table| && c1.inactive[i - 1] == c.inactive[i]
  {
    var k, c1 := c.inactive[0], ReclaimOne(c);
    if k in c.table {
      assert c1.table.Keys == c.table.Keys;
      assert |c1.table| == |c1.table.Keys| && |c.table| == |c.table.Keys|;
      assert c1.inactive == c.inactive[1..] + [k];
    }
    assert forall j | 0 <= j < |c.inactive| - 1 :: c1.inactive[j] == c.inactive[j + 1];
  }

  lemma ClearedNext(c: Cache, i: nat)
    requires Once(c) && FirstUnused(c, i) && i > 0
    ensures var c1 := ReclaimOne(c);
            Cleared(c1.table, c1.inactive[..i - 1]) == Cleared(c.table, c.inactive[..i])
  {
    var k, c1 := c.inactive[0], ReclaimOne(c);
    assert c.inactive[..i] == [k] + c.inactive[1..i];
    assert c1.inactive[..i - 1] == c.inactive[1..i];
  }

  /** A cached name that was just looked up outlives the next insertion, as long as some entry is unused: the
      insertion takes the first unused one, or none if there is room. */
  lemma UsedNameStays(c: Cache, b: Backend, k: Key, q: Key, child: Child, i: nat)
    requires Good(c, b) && Once(c) && k in c.table && k.fs != 0 && q !in c.table && q !in c.inactive
    requires FirstUnused(c, i) && c.inactive[i] != k
    ensures var t := Inserted(Looked(c, b, k), q, child).table;
            && k in t && t[k].child == c.table[k].child && q in t && t[q].child == child
            && t.Keys == c.table.Keys + {q} - if |c.table| < HIGH then {} else {c.inactive[i]}
  {
    hide Coherent, Inv, Once, FirstUnused, Cleared, Reclaimed;
    var e := c.table[k].(ref := true);
    var c1 := c.(table := c.table[k := e]);
    assert Looked(c, b, k) == c1;
    assert c1.table.Keys == c.table.Keys;
    assert |c1.table| == |c1.table.Keys| && |c.table| == |c.table.Keys|;
    UseKeeps(c, k, i);
    var n := c1.negatives + if child == NoEntry then 1 else 0;
    PushKeeps(c1, q, Entry(child, true), n, i);
    var c2 := Cache(c1.table[q := Entry(child, true)], c1.inactive + [q], n);
    if |c.table| < HIGH {
      NoEviction(c2);
    } else {
      EvictsFirstUnused(c2, i);
      Unqueued(c2, i, k);
      Unqueued(c2, i, q);
    }
  }

  lemma UseKeeps(c: Cache, k: Key, i: nat)
    requires Once(c) && FirstUnused(c, i) && k in c.table && c.inactive[i] != k
    ensures var c1 := c.(table := c.table[k := c.table[k].(ref := true)]); Once(c1) && FirstUnused(c1, i)
  {
  }

  lemma PushKeeps(c: Cache, q: Key, e: Entry, n: nat, i: nat)
    requires Once(c) && FirstUnused(c, i) && q !in c.table && q !in c.inactive
    ensures var c' := Cache(c.table[q := e], c.inactive + [q], n);
            Once(c') && FirstUnused(c', i) && c'.inactive[i] == c.inactive[i] && |c'.table| == |c.table| + 1 && c'.table.Keys == c.table.Keys + {q}
            && c.inactive[i] != q
  {
    var c' := Cache(c.table[q := e], c.inactive + [q], n);
    assert c'.table.Keys == c.table.Keys + {q};
    Card(c.table.Keys, q);
    assert |c'.table| == |c'.table.Keys| && |c.table| == |c.table.Keys|;
    assert forall j | 0 <= j < |c.inactive| :: c'.inactive[j] == c.inactive[j];
  }

  lemma NoEviction(c: Cache)
    requires |c.table| <= HIGH
    ensures Reclaimed(c) == c
  {
  }

  /** What eviction leaves of an entry other than the one that goes. */
  lemma Unqueued(c: Cache, i: nat, k: Key)
    requires i < |c.inactive| && k in c.table && k != c.inactive[i]
    ensures var t := Cleared(c.table, c.inactive[..i]) - {c.inactive[i]};
            k in t && t[k].child == c.table[k].child && t.Keys == c.table.Keys - {c.inactive[i]}
  {
  }

  /** Removing a name leaves its place in the queue, so a name that is recorded again waits there twice. */
  lemma QueuedTwice(c: Cache, k: Key, child: Child)
    requires k in c.table && k in c.inactive && |c.table| <= HIGH
    ensures Inserted(Removed(c, k), k, child).inactive == c.inactive + [k]
  {
    assert (c.table - {k})[k := Entry(child, true)].Keys == c.table.Keys;
    assert |(c.table - {k})[k := Entry(child, true)]| == |c.table.Keys| == |c.table|;
  }

  /** Such a name has no second chance: it goes although it was just used and an unused name is queued. */
  lemma SecondChanceLost(k: Key, rest: seq<Key>, t: map<Key, Entry>, negatives: nat)
    requires k in t && t[k].ref && |t| == HIGH + 1
    ensures k !in Reclaimed(Cache(t, [k, k] + rest, negatives)).table
    ensures forall x | x in t && x != k :: x in Reclaimed(Cache(t, [k, k] + rest, negatives)).table
  {
    var c := Cache(t, [k, k] + rest, negatives);
    var t1 := t[k := t[k].(ref := false)];
    assert c.inactive[1..] == [k] + rest && c.inactive[1..] + [k] == [k] + (rest + [k]);
    var c1 := Cache(t1, [k] + (rest + [k]), negatives);
    assert ReclaimOne(c) == c1;
    assert t1.Keys == t.Keys && |t1| == |t1.Keys| && |t| == |t.Keys|;
    ReclaimProgress(c);
    OneLess(t1, k);
    var c2 := ReclaimOne(c1);
    assert c1.inactive[1..] == rest + [k];
    assert c2.table == t1 - {k};
    hide Refs, Work;
    assert Reclaimed(c) == Reclaimed(c1);
    ReclaimProgress(c1);
    assert Reclaimed(c1) == Reclaimed(c2) == c2;
  }

  // ---------------------------------------------------------------- the operations

  datatype Lookup = Positive(ino: nat) | Negative | Miss

  /** How a backend call ends. */
  datatype Status = Done | NotFound | Failed

  class Vfs {
    var table: map<Key, Entry>
    var inactive: seq<Key>
    var negatives: nat
    var backend: Backend

    ghost function St(): Cache
      reads this
    {
      Cache(table, inactive, negatives)
    }

    /** The cache agrees with the backend and stays within its bound. */
    ghost predicate Valid()
      reads this
    {
      Good(St(), backend)
    }

    constructor (names: Backend)
      ensures Valid() && backend == names
    {
      table, inactive, negatives, backend := map[], [], 0, names;
    }

    method LookupEntry(k: Key) returns (r: Lookup)
      requires Valid()
      modifies this`table
      ensures Valid()
      ensures r.Positive? ==> Answer(backend, k) == Child(r.ino)
      ensures r.Negative? ==> Answer(backend, k) == NoEntry
      ensures r.Miss? <==> k !in old(table)
      ensures k.fs != 0 ==> St() == if r.Miss? then old(St()) else Looked(old(St()), backend, k)
    {
      if k in table {
        var e := table[k];
        TouchKeeps(St(), backend, k);
        table := table[k := e.(ref := true)];
        return if e.child == NoEntry then Negative else Positive(e.child.ino);
      }
      return Miss;
    }

    /** Evict down to the high watermark. */
    method ReclaimIfNeeded()
      modifies this`table, this`inactive, this`negatives
      ensures St() == Reclaimed(old(St()))
    {
      while |table| > HIGH
        invariant Reclaimed(St()) == Reclaimed(old(St()))
        decreases Work(St())
      {
        if |table| <= LOW || inactive == [] {
          break;
        }
        ReclaimProgress(St());
        var k := inactive[0];
        inactive := inactive[1..];
        if k in table {
          if table[k].ref {
            table := table[k := table[k].(ref := false)];
            inactive := inactive + [k];
          } else {
            if table[k].child == NoEntry && negatives > 0 {
              negatives := negatives - 1;
            }
            table := table - {k};
          }
        }
      }
    }

    /** Record what a name now leads to. */
    method Insert(k: Key, child: Child)
      modifies this`table, this`inactive, this`negatives
      ensures St() == Inserted(old(St()), k, child)
    {
      if k in table {
        var was := table[k].child;
        if was == NoEntry && child != NoEntry && negatives > 0 {
          negatives := negatives - 1;
        } else if was != NoEntry && child == NoEntry {
          negatives := negatives + 1;
        }
        table := table[k := Entry(child, true)];
        return;
      }
      table := table[k := Entry(child, true)];
      inactive := inactive + [k];
      if child == NoEntry {
        negatives := negatives + 1;
      }
      ReclaimIfNeeded();
    }

    method Remove(k: Key)
      modifies this`table, this`negatives
      ensures St() == Removed(old(St()), k)
    {
      if k in table {
        if table[k].child == NoEntry && negatives > 0 {
          negatives := negatives - 1;
        }
        table := table - {k};
      }
    }

    /** Record the backend's current answer for a name. */
    method Record(k: Key, child: Child, ghost before: Backend)
      requires k.fs != 0 && Good(St(), before)
      requires child == Answer(backend, k) && forall q | q != k :: Answer(backend, q) == Answer(before, q)
      modifies this`table, this`inactive, this`negatives
      ensures Valid() && St() == Inserted(old(St()), k, child)
    {
      hide Good, Inserted;
      RecordGood(St(), before, backend, k);
      Insert(k, child);
    }

    /** Resolve a name: the cached answer, else the backend's, which is then cached. */
    method Find(k: Key) returns (r: Child)
      requires Valid()
      modifies this`table, this`inactive, this`negatives
      ensures Valid() && r == Answer(backend, k) && St() == Looked(old(St()), backend, k)
    {
      hide Inv, Coherent, Inserted;
      if k.fs != 0 {
        var hit := LookupEntry(k);
        if hit.Positive? {
          return Child(hit.ino);
        }
        if hit.Negative? {
          return NoEntry;
        }
      }
      r := if k in backend then Child(backend[k]) else NoEntry;
      if k.fs != 0 {
        Record(k, r, backend);
      }
    }

    /** Create, mkdir, symlink or link: on success the backend has the new name. */
    method AddName(k: Key, child: nat, status: Status)
      requires Valid() && (status == Done ==> k !in backend)
      modifies this
      ensures Valid() && backend == if status == Done then old(backend)[k := child] else old(backend)
    {
      hide Inv, Coherent;
      if status != Done {
        return;
      }
      ghost var before := backend;
      backend := backend[k := child];
      if k.fs != 0 {
        Record(k, Child(child), before);
      } else {
        UncachedChange(St(), before, backend, k);
      }
    }

    /** Unlink or rmdir: look the name up, then remove it from the backend. */
    method RemoveName(k: Key, status: Status)
      requires Valid() && (status == NotFound ==> k !in backend)
      modifies this
      ensures Valid() && backend == if status == Done then old(backend) - {k} else old(backend)
    {
      hide Inv, Coherent;
      var _ := Find(k);
      ghost var before := backend;
      if status == Done {
        backend := backend - {k};
      }
      if status != Failed && k.fs != 0 {
        Record(k, NoEntry, before);
      } else {
        UncachedChange(St(), before, backend, k);
      }
    }

    /** Rename one child: look both names up, let the backend rename, and update the cache whatever a
        successful backend did. */
    method Rename(from: Key, dest: Key, how: Move)
      requires Valid() && CanEnd(backend, from, dest, how)
      modifies this
      ensures backend == After(old(backend), from, dest, how)
      ensures var c := Looked(Looked(old(St()), old(backend), from), old(backend), dest);
              St() == if how.Refused? then c else Renamed(c, from, dest, old(backend)[from])
      ensures Valid() <==> how != Leaves || from == dest || from !in table
      ensures Good(St(), if how == Leaves then Moved(old(backend), from, dest) else backend)
    {
      hide Good, Looked, Inserted, Removed;
      var child := Find(from);
      var _ := Find(dest);
      if how.Refused? {
        return;
      }
      ghost var c := St();
      RenamedExact(c, backend, from, dest, how);
      GoodCoherent(Renamed(c, from, dest, backend[from]), Moved(backend, from, dest), After(backend, from, dest, how));
      backend := if how.Moves? then (backend - {from})[dest := backend[from]] else backend;
      if from.fs != 0 {
        Insert(from, NoEntry);
      }
      if dest.fs != 0 {
        Remove(dest);
        if child != NoEntry {
          Insert(dest, child);
        }
      }
    }

    /** Rename by path: two names of one inode number end the call before the backend is asked, so what it
        then does keeps the cache right. `how` is the outcome of the checks and of the backend. */
    method RenameAt(from: Key, dest: Key, how: Move)
      requires Valid() && CanEnd(backend, from, dest, how)
      modifies this
      ensures Valid()
      ensures backend == if SameInode(old(backend), from, dest) then old(backend) else After(old(backend), from, dest, how)
    {
      hide Good, Looked, Renamed;
      var oldInode := Find(from);
      if oldInode == NoEntry {
        return;
      }
      var newInode := Find(dest);
      if newInode != NoEntry && oldInode.ino == newInode.ino {
        return;
      }
      Rename(from, dest, how);
    }
  }

  /** What is good for one backend is good for another exactly when it is coherent with it. */
  lemma GoodCoherent(c: Cache, b: Backend, b': Backend)
    requires Good(c, b)
    ensures Good(c, b') <==> Coherent(c, b')
  {
  }

  lemma TouchKeeps(c: Cache, b: Backend, k: Key)
    requires Inv(c) && Coherent(c, b) && k in c.table
    ensures var c' := c.(table := c.table[k := c.table[k].(ref := true)]);
            Inv(c') && Coherent(c', b) && c'.table.Keys == c.table.Keys
  {
    hide Negatives;
    NegUpdate(c.table, k, c.table[k].(ref := true));
  }

  lemma KeysFrom(c: Cache, k: Key, child: Child)
    ensures forall q | q in Inserted(c, k, child).table :: q in c.table || q == k
  {
    if k !in c.table {
      ReclaimedSubset(Cache(c.table[k := Entry(child, true)], c.inactive + [k], c.negatives + if child == NoEntry then 1 else 0));
    }
  }

  lemma {:induction false} ReclaimedSubset(c: Cache)
    ensures forall q | q in Reclaimed(c).table :: q in c.table
    decreases Work(c)
  {
    if !(|c.table| <= HIGH || c.inactive == []) {
      ReclaimProgress(c);
      ReclaimedSubset(ReclaimOne(c));
    }
  }

  /** Names of uncached file systems may change freely. */
  lemma UncachedChange(c: Cache, b: Backend, b': Backend, k: Key)
    requires Coherent(c, b) && forall q | q != k :: Answer(b', q) == Answer(b, q)
    requires k !in c.table || Answer(b', k) == Answer(b, k)
    ensures Coherent(c, b')
  {
  }

  lemma RemovedNarrows(c: Cache, b: Backend, b': Backend, k: Key)
    requires Inv(c) && Coherent(c, b) && |c.table| <= HIGH && forall q | q != k :: Answer(b', q) == Answer(b, q)
    ensures var c' := Removed(c, k); Inv(c') && Coherent(c', b') && |c'.table| <= HIGH && forall q | q in c'.table :: q in c.table
  {
    RemovedKeeps(c, b, b', k);
  }

  /** A rename between two links of one inode, which ext4 leaves alone, makes the cache deny the old name. */
  lemma SameInodeRenameStale(fs: nat)
    requires fs != 0
    ensures var from, dest := Key(fs, 2, "a"), Key(fs, 2, "b");
            var b: Backend := map[from := 12, dest := 12];
            var c := Renamed(Looked(Looked(Cache(map[], [], 0), b, from), b, dest), from, dest, 12);
            && Ext4Move(b, from, dest) == Leaves && Good(Cache(map[], [], 0), b)
            && from in c.table && c.table[from].child == NoEntry && Answer(b, from) == Child(12)
  {
    var from, dest := Key(fs, 2, "a"), Key(fs, 2, "b");
    var b: Backend := map[from := 12, dest := 12];
    var c0 := Cache(map[], [], 0);
    assert c0.table.Keys == {};
    LookedGood(c0, b, from);
    var c1 := Looked(c0, b, from);
    LookedGood(c1, b, dest);
    NegUpdate(c0.table, from, Entry(Child(12), true));
    NegUpdate(c1.table, dest, Entry(Child(12), true));
    var c2 := Looked(c1, b, dest);
    RenamedStays(c2, from, dest, 12);
    RenamedMoves(c2, b, from, dest);
  }
}
