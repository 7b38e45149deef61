/**
 FAT32 cluster chains over mirrored allocation tables.
 */
module FatChains {
  import opened Basics
  import opened Bytes

  const LOW: nat := 0x1000_0000
  const EOC: nat := 0x0FFF_FFFF
  const U32: nat := 0x1_0000_0000
  const SECTOR: nat := 512

  predicate IsEoc(v: nat) { v >= 0x0FFF_FFF8 }

  /** A chain ends at an end mark, and also at the two reserved numbers. */
  predicate Ends(v: nat) { IsEoc(v) || v < 2 }

  function Low(v: nat): (r: nat) ensures r < LOW { v % LOW }

  function High(v: nat): nat { v / LOW * LOW }

  // ---------------------------------------------------------------- where an entry lies

  datatype Pos = Pos(sector: nat, offset: nat)

  function EntryPos(start: nat, sectors: nat, cluster: nat, copy: nat): Pos {
    Pos(start + copy * sectors + cluster * 4 / SECTOR, cluster * 4 % SECTOR)
  }

  /** Entries follow each other in their copy of the table, fit in it, and no two overlap. */
  lemma EntryPosFits(start: nat, sectors: nat, c: nat, k: nat, c': nat, k': nat)
    requires c * 4 < sectors * SECTOR && c' * 4 < sectors * SECTOR
    ensures var p := EntryPos(start, sectors, c, k);
            && start + k * sectors <= p.sector < start + (k + 1) * sectors && p.offset + 4 <= SECTOR
            && p.sector * SECTOR + p.offset == (start + k * sectors) * SECTOR + 4 * c
    ensures (c, k) != (c', k') ==> EntryPos(start, sectors, c, k) != EntryPos(start, sectors, c', k')
  {
    var q, q' := c / 128, c' / 128;
    assert c * 4 == 512 * q + 4 * (c % 128) && c' * 4 == 512 * q' + 4 * (c' % 128);
    assert c * 4 / SECTOR == q && c' * 4 / SECTOR == q' && c * 4 % SECTOR == 4 * (c % 128) && c' * 4 % SECTOR == 4 * (c' % 128);
    if k < k' {
      assert k' * sectors >= (k + 1) * sectors;
    } else if k' < k {
      assert k * sectors >= (k' + 1) * sectors;
    }
  }

  // ---------------------------------------------------------------- chains

  /** A chain: clusters in range, each naming the next, the last holding an end mark. */
  ghost predicate IsChain(t: seq<nat>, ch: seq<nat>) {
    && ch != []
    && (forall i | 0 <= i < |ch| :: 2 <= ch[i] < |t|)
    && (forall i | 0 <= i < |ch| - 1 :: t[ch[i]] == ch[i + 1])
    && IsEoc(t[ch[|ch| - 1]])
  }

  /** The end marks are the last eight values of 28 bits, and they alone end a chain. */
  lemma EndMarks(t: seq<nat>, c: nat)
    requires c < |t| && t[c] < 0x1000_0000
    ensures IsChain(t, [c]) <==> c >= 2 && t[c] / 8 == 0x1FF_FFFF
  {
  }

  /** A table too small to hold an end mark as a cluster number. */
  predicate InRange(t: seq<nat>) { 2 <= |t| <= 0x0FFF_FFF8 }

  lemma {:induction false} ChainMeets(t: seq<nat>, ch: seq<nat>, i: nat, j: nat, k: nat)
    requires IsChain(t, ch) && i < j && j + k < |ch| && ch[i] == ch[j]
    ensures ch[i + k] == ch[j + k]
  {
    if k > 0 {
      ChainMeets(t, ch, i, j, k - 1);
    }
  }

  /** A chain that ends never returns to itself. */
  lemma ChainAcyclic(t: seq<nat>, ch: seq<nat>)
    requires IsChain(t, ch) && InRange(t)
    ensures Distinct(ch)
  {
    forall i, j | 0 <= i < j < |ch| ensures ch[i] != ch[j] {
      if ch[i] == ch[j] {
        var k := |ch| - 1 - j;
        var next := ch[i + k + 1];
        ChainMeets(t, ch, i, j, k);
      }
    }
  }

  /** The walk along a chain stops exactly at its end. */
  lemma ChainStep(t: seq<nat>, ch: seq<nat>, i: nat)
    requires IsChain(t, ch) && InRange(t) && i < |ch|
    ensures Ends(t[ch[i]]) <==> i == |ch| - 1
    ensures i < |ch| - 1 ==> t[ch[i]] == ch[i + 1]
  {
  }

  /** A table changed outside a chain keeps it. */
  lemma ChainKept(t: seq<nat>, t': seq<nat>, ch: seq<nat>)
    requires IsChain(t, ch) && |t'| == |t| && forall i | 0 <= i < |ch| :: t'[ch[i]] == t[ch[i]]
    ensures IsChain(t', ch)
  {
  }

  /** Linking a new cluster after the last one extends a chain. */
  lemma ChainAppend(t: seq<nat>, ch: seq<nat>, c: nat)
    requires IsChain(t, ch) && InRange(t) && 2 <= c < |t| && c !in ch
    ensures IsChain(t[c := EOC][ch[|ch| - 1] := c], ch + [c])
  {
    ChainAcyclic(t, ch);
    var t', n := t[c := EOC][ch[|ch| - 1] := c], ch + [c];
    forall i | 0 <= i < |n| - 1 ensures t'[n[i]] == n[i + 1] {
      if i < |ch| - 1 {
        assert ch[i] != ch[|ch| - 1] && ch[i] in ch;
      }
    }
  }

  // ---------------------------------------------------------------- counting

  /** The free clusters below `n`. */
  function FreeBelow(t: seq<nat>, n: nat): nat
    requires n <= |t|
  {
    if n <= 2 then 0 else FreeBelow(t, n - 1) + if t[n - 1] == 0 then 1 else 0
  }

  function FreeCount(t: seq<nat>): nat { FreeBelow(t, |t|) }

  lemma {:induction false} FreeUpdate(t: seq<nat>, n: nat, c: nat, v: nat)
    requires 2 <= c < |t| && n <= |t|
    ensures FreeBelow(t[c := v], n) == FreeBelow(t, n) + (if c < n then (if v == 0 then 1 else 0) - (if t[c] == 0 then 1 else 0) else 0)
    decreases n
  {
    if n > 2 {
      FreeUpdate(t, n - 1, c, v);
    }
  }

  lemma {:induction false} FreeNone(t: seq<nat>, n: nat)
    requires n <= |t|
    ensures FreeBelow(t, n) == 0 <==> forall c | 2 <= c < n :: t[c] != 0
    decreases n
  {
    if n > 2 {
      FreeNone(t, n - 1);
    }
  }

  // ---------------------------------------------------------------- a volume of files

  type Chains = map<nat, seq<nat>>

  /** Every file's chain is in the table, and no cluster is in two of them. */
  ghost predicate ChainsOk(t: seq<nat>, chains: Chains) {
    && InRange(t)
    && (forall f | f in chains && chains[f] != [] :: IsChain(t, chains[f]))
    && (forall f, g | f in chains && g in chains && f != g :: Apart(chains[f], chains[g]))
  }

  ghost predicate Apart(a: seq<nat>, b: seq<nat>) { forall c | c in a :: c !in b }

  function StartOf(ch: seq<nat>): nat { if ch == [] then 0 else ch[0] }

  lemma ChainUsed(t: seq<nat>, ch: seq<nat>, c: nat)
    requires IsChain(t, ch) && c in ch
    ensures 2 <= c < |t| && t[c] != 0
  {
    var i :| 0 <= i < |ch| && ch[i] == c;
    if i < |ch| - 1 {
      assert t[ch[i]] == ch[i + 1];
    }
  }

  /** A free cluster is in no chain. */
  lemma FreeIsUnused(t: seq<nat>, chains: Chains, c: nat)
    requires ChainsOk(t, chains) && 2 <= c < |t| && t[c] == 0
    ensures forall f | f in chains :: c !in chains[f]
  {
    forall f | f in chains ensures c !in chains[f] {
      if c in chains[f] {
        ChainUsed(t, chains[f], c);
      }
    }
  }

  /** Growing one file by a free cluster keeps every chain. */
  lemma GrowOk(t: seq<nat>, chains: Chains, f: nat, c: nat)
    requires ChainsOk(t, chains) && f in chains && 2 <= c < |t| && t[c] == 0
    ensures var t' := Grown(t, chains[f], c);
            && |t'| == |t| && ChainsOk(t', chains[f := chains[f] + [c]]) && FreeCount(t') + 1 == FreeCount(t)
  {
    var ch := chains[f];
    var t' := Grown(t, ch, c);
    FreeIsUnused(t, chains, c);
    FreeUpdate(t, |t|, c, EOC);
    if ch == [] {
      assert IsChain(t', [c]);
    } else {
      ChainUsed(t, ch, ch[|ch| - 1]);
      FreeUpdate(t[c := EOC], |t|, ch[|ch| - 1], c);
      ChainAppend(t, ch, c);
    }
    forall x | 0 <= x < |t| && x !in ch && x != c ensures t'[x] == t[x] {
    }
    RestKept(t, t', chains, f, ch + [c]);
  }

  /** Chains other than one file's are kept when only clusters of that file change. */
  lemma RestKept(t: seq<nat>, t': seq<nat>, chains: Chains, f: nat, ch: seq<nat>)
    requires ChainsOk(t, chains) && f in chains && |t'| == |t|
    requires ch != [] ==> IsChain(t', ch)
    requires forall x | 0 <= x < |t| && x !in chains[f] && x !in ch :: t'[x] == t[x]
    requires forall g | g in chains && g != f :: Apart(ch, chains[g])
    ensures ChainsOk(t', chains[f := ch])
  {
    forall g | g in chains && g != f && chains[g] != [] ensures IsChain(t', chains[g]) {
      OtherKept(t, t', chains, f, ch, g);
    }
    var chains' := chains[f := ch];
    forall a, b | a in chains' && b in chains' && a != b ensures Apart(chains'[a], chains'[b]) {
      assert Apart(chains[a], chains[b]);
      assert b != f ==> Apart(ch, chains[b]);
      assert a != f ==> Apart(ch, chains[a]);
    }
  }

  lemma OtherKept(t: seq<nat>, t': seq<nat>, chains: Chains, f: nat, ch: seq<nat>, g: nat)
    requires ChainsOk(t, chains) && f in chains && |t'| == |t| && g in chains && g != f && chains[g] != []
    requires forall x | 0 <= x < |t| && x !in chains[f] && x !in ch :: t'[x] == t[x]
    requires Apart(ch, chains[g])
    ensures IsChain(t', chains[g])
  {
    assert Apart(chains[f], chains[g]);
    forall i | 0 <= i < |chains[g]| ensures t'[chains[g][i]] == t[chains[g][i]] {
      assert chains[g][i] in chains[g];
    }
    ChainKept(t, t', chains[g]);
  }

  function Grown(t: seq<nat>, ch: seq<nat>, c: nat): seq<nat>
    requires c < |t|
  {
    if ch == [] || ch[|ch| - 1] >= |t| then t[c := EOC] else t[c := EOC][ch[|ch| - 1] := c]
  }

  /** The table with the clusters of a list freed. */
  function FreedAll(t: seq<nat>, ch: seq<nat>): (r: seq<nat>)
    requires forall i | 0 <= i < |ch| :: ch[i] < |t|
    ensures |r| == |t|
  {
    if ch == [] then t else FreedAll(t, ch[..|ch| - 1])[ch[|ch| - 1] := 0]
  }

  lemma {:induction false} FreedAt(t: seq<nat>, ch: seq<nat>, c: nat)
    requires (forall i | 0 <= i < |ch| :: ch[i] < |t|) && c < |t|
    ensures FreedAll(t, ch)[c] == if c in ch then 0 else t[c]
  {
    if ch != [] {
      FreedAt(t, ch[..|ch| - 1], c);
      assert ch == ch[..|ch| - 1] + [ch[|ch| - 1]];
    }
  }

  lemma {:induction false} FreedCount(t: seq<nat>, ch: seq<nat>)
    requires Distinct(ch) && forall i | 0 <= i < |ch| :: 2 <= ch[i] < |t| && t[ch[i]] != 0
    ensures FreeCount(FreedAll(t, ch)) == FreeCount(t) + |ch|
  {
    if ch != [] {
      var d, c := ch[..|ch| - 1], ch[|ch| - 1];
      FreedCount(t, d);
      FreedAt(t, d, c);
      assert c !in d;
      FreeUpdate(FreedAll(t, d), |t|, c, 0);
    }
  }

  /** Clearing one file frees its clusters and keeps every other chain. */
  lemma ClearOk(t: seq<nat>, chains: Chains, f: nat)
    requires ChainsOk(t, chains) && f in chains && chains[f] != []
    ensures forall i | 0 <= i < |chains[f]| :: chains[f][i] < |t|
    ensures var t' := FreedAll(t, chains[f]);
            ChainsOk(t', chains[f := []]) && FreeCount(t') == FreeCount(t) + |chains[f]|
  {
    var ch := chains[f];
    ChainAcyclic(t, ch);
    forall i | 0 <= i < |ch| ensures 2 <= ch[i] < |t| && t[ch[i]] != 0 {
      ChainUsed(t, ch, ch[i]);
    }
    FreedCount(t, ch);
    var t' := FreedAll(t, ch);
    forall x | 0 <= x < |t| && x !in ch ensures t'[x] == t[x] {
      FreedAt(t, ch, x);
    }
    RestKept(t, t', chains, f, []);
  }

  // ---------------------------------------------------------------- mirrored tables

  function Lows(copy: seq<nat>): (t: seq<nat>)
    ensures |t| == |copy| && forall c | 0 <= c < |t| :: t[c] == Low(copy[c])
  {
    seq(|copy|, c requires 0 <= c < |copy| => Low(copy[c]))
  }

  /** All copies of the table hold the same low 28 bits. */
  ghost predicate Mirrored(copies: seq<seq<nat>>) {
    && copies != []
    && forall k | 0 <= k < |copies| :: Lows(copies[k]) == Lows(copies[0])
  }

  /** The high four bits of every entry of every copy are kept. */
  ghost predicate HighKept(copies: seq<seq<nat>>, copies': seq<seq<nat>>) {
    && |copies'| == |copies|
    && forall k | 0 <= k < |copies| :: |copies'[k]| == |copies[k]| && forall c | 0 <= c < |copies[k]| :: High(copies'[k][c]) == High(copies[k][c])
  }

  lemma HighTrans(a: seq<seq<nat>>, b: seq<seq<nat>>, c: seq<seq<nat>>)
    requires HighKept(a, b) && HighKept(b, c)
    ensures HighKept(a, c)
  {
  }

  lemma Merge(was: nat, v: nat)
    requires v < LOW
    ensures Low(High(was) + v) == v && High(High(was) + v) == High(was)
  {
    var q := was / LOW;
    assert (q * LOW + v) / LOW == q && (q * LOW + v) % LOW == v;
  }

  /** Where a search for a free entry starts: the hint, brought into the table. */
  function ScanStart(size: nat, hint: nat): (s: nat)
    requires size >= 3
    ensures 2 <= s < size
  {
    if hint < 2 then 2 else if size - 1 < hint then size - 1 else hint
  }

  /** `c` is the first free entry of the scan from `s` up to the end and then from 2 up to `s`. */
  ghost predicate FirstFree(t: seq<nat>, s: nat, c: nat) {
    && 2 <= c < |t| && t[c] == 0
    && (forall y | s <= y < |t| && (c < s || y < c) :: t[y] != 0)
    && (c < s ==> forall y | 2 <= y < c :: t[y] != 0)
  }

  class Fat {
    var copies: seq<seq<nat>>
    var hint: nat

    ghost predicate Valid()
      reads this
    {
      Mirrored(copies) && InRange(T())
    }

    /** The table as the file system reads it. */
    function T(): (t: seq<nat>)
      reads this
      ensures copies != [] ==> |t| == |copies[0]|
    {
      if copies == [] then [] else Lows(copies[0])
    }

    constructor (tables: seq<seq<nat>>)
      requires Mirrored(tables) && InRange(Lows(tables[0]))
      ensures Valid() && copies == tables && hint == Min(2, |tables[0]| - 1)
    {
      copies := tables;
      hint := if |tables[0]| <= 2 then |tables[0]| - 1 else 2;
    }

    /** Store an entry in every copy, leaving the high bits. */
    method WriteEntry(c: nat, value: nat)
      requires Valid() && c < |T()|
      modifies this`copies
      ensures Valid() && T() == old(T())[c := Low(value)] && HighKept(old(copies), copies)
    {
      var v := Low(value);
      for k := 0 to |copies|
        invariant |copies| == |old(copies)|
        invariant forall j | 0 <= j < |copies| :: |copies[j]| == |old(copies)[j]|
        invariant forall j | 0 <= j < |copies| :: forall x | 0 <= x < |copies[j]| ::
                    copies[j][x] == if j < k && x == c then High(old(copies)[j][x]) + v else old(copies)[j][x]
      {
        assert |Lows(old(copies)[k])| == |Lows(old(copies)[0])|;
        var table: seq<nat> := copies[k][c := High(copies[k][c]) + v];
        copies := copies[k := table];
      }
      forall j | 0 <= j < |copies| ensures Lows(copies[j]) == old(T())[c := v] {
        assert Lows(old(copies)[j]) == Lows(old(copies)[0]);
        Merge(old(copies)[j][c], v);
      }
      forall j, x | 0 <= j < |copies| && 0 <= x < |copies[j]| ensures High(copies[j][x]) == High(old(copies)[j][x]) {
        Merge(old(copies)[j][x], v);
      }
    }

    /** Take the first free cluster of the scan and mark it as an end; fails exactly when no entry is zero.
        The next scan starts right after the cluster taken. */
    method AllocCluster() returns (found: bool, c: nat)
      requires Valid()
      modifies this
      ensures Valid() && HighKept(old(copies), copies)
      ensures found ==> |old(T())| >= 3 && FirstFree(old(T()), ScanStart(|old(T())|, old(hint)), c) && T() == old(T())[c := EOC]
      ensures found ==> hint == if c + 1 < |T()| then c + 1 else c
      ensures !found ==> copies == old(copies) && hint == old(hint) && FreeCount(T()) == 0
    {
      FreeNone(T(), |T()|);
      if |T()| - 1 < 2 {
        return false, 0;
      }
      var max := |T()| - 1;
      var start := ScanStart(|T()|, hint);
      for x := start to max + 1
        invariant copies == old(copies) && hint == old(hint) && forall y | start <= y < x :: T()[y] != 0
      {
        if T()[x] == 0 {
          c := x;
          WriteEntry(c, EOC);
          hint := if c + 1 < max then c + 1 else max;
          return true, c;
        }
      }
      for x := 2 to start
        invariant copies == old(copies) && hint == old(hint) && forall y | 2 <= y < x :: T()[y] != 0
      {
        if T()[x] == 0 {
          c := x;
          WriteEntry(c, EOC);
          hint := if c + 1 < max then c + 1 else max;
          return true, c;
        }
      }
      return false, 0;
    }

    /** The last cluster of a chain. */
    method LastCluster(start: nat, ghost ch: seq<nat>) returns (last: nat)
      requires Valid() && IsChain(T(), ch) && start == ch[0]
      ensures last == ch[|ch| - 1]
    {
      last := start;
      ghost var i := 0;
      ChainStep(T(), ch, 0);
      while !Ends(T()[last])
        invariant i < |ch| && last == ch[i] && (Ends(T()[last]) <==> i == |ch| - 1) && (i < |ch| - 1 ==> T()[last] == ch[i + 1])
        decreases |ch| - i
      {
        last := T()[last];
        i := i + 1;
        ChainStep(T(), ch, i);
      }
    }

    /** The length of a chain; zero when there is none. */
    method ChainLength(start: nat, ghost ch: seq<nat>) returns (n: nat)
      requires Valid() && (ch != [] ==> IsChain(T(), ch)) && start == StartOf(ch)
      ensures n == |ch|
    {
      if start < 2 {
        return 0;
      }
      n := 1;
      var cur := start;
      ChainStep(T(), ch, 0);
      while !Ends(T()[cur])
        invariant 1 <= n <= |ch| && cur == ch[n - 1]
        invariant (Ends(T()[cur]) <==> n == |ch|) && (n < |ch| ==> T()[cur] == ch[n])
        decreases |ch| - n
      {
        cur := T()[cur];
        n := n + 1;
        ChainStep(T(), ch, n - 1);
      }
    }

    /** Cluster `n` of a chain, if the chain is that long. */
    method NthCluster(start: nat, n: nat, ghost ch: seq<nat>) returns (found: bool, c: nat)
      requires Valid() && (ch != [] ==> IsChain(T(), ch)) && start == StartOf(ch)
      ensures found <==> n < |ch|
      ensures found ==> c == ch[n]
    {
      if start < 2 {
        return false, 0;
      }
      c := start;
      for i := 0 to n
        invariant i < |ch| && c == ch[i]
      {
        ChainStep(T(), ch, i);
        var next := T()[c];
        if Ends(next) {
          return false, 0;
        }
        c := next;
      }
      return true, c;
    }

    /** Free every cluster of a chain. */
    method FreeChain(start: nat, ghost ch: seq<nat>)
      requires Valid() && IsChain(T(), ch) && start == ch[0]
      modifies this`copies
      ensures Valid() && HighKept(old(copies), copies) && |T()| == |old(T())|
      ensures (forall i | 0 <= i < |ch| :: ch[i] < |old(T())|) && T() == FreedAll(old(T()), ch)
    {
      ghost var t := T();
      ChainAcyclic(t, ch);
      var cur := start;
      ghost var i := 0;
      while true
        invariant Valid() && HighKept(old(copies), copies) && i < |ch| && cur == ch[i] && |T()| == |t|
        invariant T() == FreedAll(t, ch[..i])
        decreases |ch| - i
      {
        FreedAt(t, ch[..i], cur);
        assert cur !in ch[..i];
        ChainStep(t, ch, i);
        var next := T()[cur];
        ghost var before := copies;
        WriteEntry(cur, 0);
        HighTrans(old(copies), before, copies);
        assert ch[..i + 1][..i] == ch[..i];
        if Ends(next) {
          assert ch[..i + 1] == ch;
          return;
        }
        cur, i := next, i + 1;
      }
    }

    method CountFree() returns (free: nat)
      requires Valid()
      ensures free == FreeCount(T())
    {
      free := 0;
      if |T()| - 1 < 2 {
        return;
      }
      for c := 2 to |T()|
        invariant free == FreeBelow(T(), c)
      {
        if T()[c] == 0 {
          free := free + 1;
        }
      }
    }
  }

  // ---------------------------------------------------------------- cluster contents

  /** Where the clusters lie: the first data sector and the sectors of a cluster. */
  datatype Geometry = Geometry(dataStart: nat, perCluster: nat)

  type Sector = s: seq<byte> | |s| == SECTOR witness Zeros(SECTOR)

  type Sectors = map<nat, Sector>

  function SectorAt(d: Sectors, l: nat): Sector { if l in d then d[l] else Zeros(SECTOR) }

  function FirstSector(g: Geometry, c: nat): nat
    requires c >= 2
  {
    g.dataStart + (c - 2) * g.perCluster
  }

  /** Sector `l` belongs to cluster `c`. */
  predicate InCluster(g: Geometry, c: nat, l: nat)
    requires c >= 2
  {
    FirstSector(g, c) <= l < FirstSector(g, c) + g.perCluster
  }

  lemma Beyond(a: nat, b: nat, n: nat)
    requires a < b
    ensures a * n + n <= b * n
  {
    assert b * n == a * n + (b - a) * n;
    assert (b - a) * n == n + (b - a - 1) * n;
  }

  /** The sectors of different clusters never meet. */
  lemma ClustersApart(g: Geometry, a: nat, b: nat, l: nat)
    requires 2 <= a && 2 <= b && InCluster(g, a, l) && InCluster(g, b, l)
    ensures a == b
  {
    if a < b {
      Beyond(a - 2, b - 2, g.perCluster);
    } else if b < a {
      Beyond(b - 2, a - 2, g.perCluster);
    }
  }

  /** Cluster 2 is the first, each cluster begins where the one before it ends, and `n` clusters fill exactly the
      `n * perCluster` sectors from the first data sector on. */
  lemma ClustersTile(g: Geometry, n: nat, l: nat)
    ensures FirstSector(g, 2) == g.dataStart
    ensures forall c: nat | c >= 2 :: FirstSector(g, c + 1) == FirstSector(g, c) + g.perCluster
    ensures g.dataStart <= l < g.dataStart + n * g.perCluster <==> exists c: nat :: 2 <= c < n + 2 && InCluster(g, c, l)
  {
    forall c: nat | c >= 2 ensures FirstSector(g, c + 1) == FirstSector(g, c) + g.perCluster {
      ClusterAfter(c - 2, g.perCluster);
    }
    if g.dataStart <= l < g.dataStart + n * g.perCluster {
      ClusterHolding(g, n, l);
    }
    if c: nat :| 2 <= c < n + 2 && InCluster(g, c, l) {
      Beyond(c - 2, n, g.perCluster);
    }
  }

  lemma ClusterAfter(a: nat, n: nat)
    ensures (a + 1) * n == a * n + n
  {
  }

  lemma {:induction false} ClusterHolding(g: Geometry, n: nat, l: nat)
    requires g.dataStart <= l < g.dataStart + n * g.perCluster
    ensures exists c: nat :: 2 <= c < n + 2 && InCluster(g, c, l)
  {
    if n > 0 {
      ClusterAfter(n - 1, g.perCluster);
      if l < g.dataStart + (n - 1) * g.perCluster {
        ClusterHolding(g, n - 1, l);
      } else {
        assert InCluster(g, n + 1, l);
      }
    }
  }

  function SectorOf(g: Geometry, d: Sectors, c: nat, i: nat): seq<byte> {
    if c < 2 then [] else SectorAt(d, FirstSector(g, c) + i)
  }

  function ClusterData(g: Geometry, d: Sectors, c: nat): seq<seq<byte>> { seq(g.perCluster, i requires 0 <= i => SectorOf(g, d, c, i)) }

  function ZeroCluster(g: Geometry): seq<seq<byte>> { seq(g.perCluster, _ => Zeros(SECTOR)) }

  /** The sectors of a file, cluster after cluster. */
  function ChainData(g: Geometry, d: Sectors, ch: seq<nat>): seq<seq<byte>> {
    if ch == [] then [] else ChainData(g, d, ch[..|ch| - 1]) + ClusterData(g, d, ch[|ch| - 1])
  }

  function ZeroClusters(g: Geometry, n: nat): seq<seq<byte>> {
    if n == 0 then [] else ZeroClusters(g, n - 1) + ZeroCluster(g)
  }

  /** `d'` is `d` with the first `n` sectors of cluster `c` zeroed. */
  ghost predicate Zeroed(g: Geometry, d: Sectors, d': Sectors, c: nat, n: nat)
    requires c >= 2
  {
    forall l: nat :: SectorAt(d', l) == if FirstSector(g, c) <= l < FirstSector(g, c) + n then Zeros(SECTOR) else SectorAt(d, l)
  }

  lemma ZeroedNext(g: Geometry, d: Sectors, d1: Sectors, c: nat, n: nat)
    requires c >= 2 && Zeroed(g, d, d1, c, n)
    ensures Zeroed(g, d, d1[FirstSector(g, c) + n := Zeros(SECTOR)], c, n + 1)
  {
    hide FirstSector;
    var at := FirstSector(g, c) + n;
    var d2 := d1[at := Zeros(SECTOR)];
    forall l: nat ensures SectorAt(d2, l) == if FirstSector(g, c) <= l < FirstSector(g, c) + n + 1 then Zeros(SECTOR) else SectorAt(d, l) {
      assert SectorAt(d2, l) == if l == at then Zeros(SECTOR) else SectorAt(d1, l);
    }
  }

  lemma ClusterKept(g: Geometry, d: Sectors, d': Sectors, c: nat, b: nat)
    requires c >= 2 && Zeroed(g, d, d', c, g.perCluster) && b != c
    ensures ClusterData(g, d', b) == ClusterData(g, d, b)
  {
    hide FirstSector;
    forall i: nat | i < g.perCluster ensures SectorOf(g, d', b, i) == SectorOf(g, d, b, i) {
      if b >= 2 && InCluster(g, c, FirstSector(g, b) + i) {
        ClustersApart(g, c, b, FirstSector(g, b) + i);
      }
    }
  }

  lemma {:induction false} OthersKept(g: Geometry, d: Sectors, d': Sectors, c: nat, ch: seq<nat>)
    requires c >= 2 && Zeroed(g, d, d', c, g.perCluster) && c !in ch
    ensures ChainData(g, d', ch) == ChainData(g, d, ch)
  {
    hide Zeroed, ClusterData;
    if ch != [] {
      OthersKept(g, d, d', c, ch[..|ch| - 1]);
      ClusterKept(g, d, d', c, ch[|ch| - 1]);
    }
  }

  lemma ClusterZeroed(g: Geometry, d: Sectors, d': Sectors, c: nat)
    requires c >= 2 && Zeroed(g, d, d', c, g.perCluster)
    ensures ClusterData(g, d', c) == ZeroCluster(g)
  {
    hide FirstSector;
    forall i: nat | i < g.perCluster ensures SectorOf(g, d', c, i) == Zeros(SECTOR) {
      assert SectorAt(d', FirstSector(g, c) + i) == Zeros(SECTOR);
    }
  }

  /** Only sectors of these clusters differ. */
  ghost predicate OnlyIn(g: Geometry, d: Sectors, d': Sectors, ch: seq<nat>) {
    forall l: nat | SectorAt(d', l) != SectorAt(d, l) :: exists c | c in ch :: c >= 2 && InCluster(g, c, l)
  }

  lemma OnlyInThen(g: Geometry, d: Sectors, d1: Sectors, d2: Sectors, a: seq<nat>, b: seq<nat>, ch: seq<nat>)
    requires OnlyIn(g, d, d1, a) && OnlyIn(g, d1, d2, b) && forall c | c in a || c in b :: c in ch
    ensures OnlyIn(g, d, d2, ch)
  {
    hide InCluster, SectorAt;
    forall l: nat | SectorAt(d2, l) != SectorAt(d, l) ensures exists c | c in ch :: c >= 2 && InCluster(g, c, l) {
      if SectorAt(d1, l) != SectorAt(d, l) {
        var c :| c in a && c >= 2 && InCluster(g, c, l);
        assert c in ch;
      } else {
        var c :| c in b && c >= 2 && InCluster(g, c, l);
        assert c in ch;
      }
    }
  }

  lemma NothingDiffers(g: Geometry, d: Sectors, ch: seq<nat>)
    ensures OnlyIn(g, d, d, ch)
  {
  }

  lemma ZeroedOnly(g: Geometry, d: Sectors, d': Sectors, c: nat)
    requires c >= 2 && Zeroed(g, d, d', c, g.perCluster)
    ensures OnlyIn(g, d, d', [c])
  {
    hide FirstSector;
    assert c in [c];
  }

  /** Nothing outside the data area changes with a file whose clusters are in the table. */
  lemma OnlyData(g: Geometry, d: Sectors, d': Sectors, ch: seq<nat>, n: nat, l: nat)
    requires OnlyIn(g, d, d', ch) && (forall c | c in ch :: c < n + 2) && !(g.dataStart <= l < g.dataStart + n * g.perCluster)
    ensures SectorAt(d', l) == SectorAt(d, l)
  {
    ClustersTile(g, n, l);
  }

  type Files = map<nat, seq<seq<byte>>>

  ghost function DataOf(g: Geometry, d: Sectors, chains: Chains): Files { map f | f in chains :: ChainData(g, d, chains[f]) }

  /** A zeroed cluster at the end of one file: that file grows by zeros and no other changes. */
  lemma DataGrows(g: Geometry, d: Sectors, d': Sectors, chains: Chains, f: nat, c: nat)
    requires c >= 2 && Zeroed(g, d, d', c, g.perCluster) && f in chains && forall h | h in chains :: c !in chains[h]
    ensures DataOf(g, d', chains[f := chains[f] + [c]]) == DataOf(g, d, chains)[f := DataOf(g, d, chains)[f] + ZeroCluster(g)]
  {
    hide ClusterData, Zeroed, ZeroCluster;
    forall h | h in chains ensures ChainData(g, d', chains[h]) == ChainData(g, d, chains[h]) {
      OthersKept(g, d, d', c, chains[h]);
    }
    ClusterZeroed(g, d, d', c);
    var ch := chains[f] + [c];
    assert ch[..|ch| - 1] == chains[f];
    assert ChainData(g, d', ch) == ChainData(g, d, chains[f]) + ZeroCluster(g);
  }

  /** One file has grown, by zero clusters at its end, and no other has changed. */
  ghost predicate Longer(g: Geometry, chains: Chains, files: Files, chains': Chains, files': Files, f: nat) {
    && f in chains && f in files && f in chains' && chains[f] <= chains'[f] && chains' == chains[f := chains'[f]]
    && files' == files[f := files[f] + ZeroClusters(g, |chains'[f]| - |chains[f]|)]
  }

  lemma LongerStart(g: Geometry, chains: Chains, files: Files, f: nat)
    requires f in chains && f in files
    ensures Longer(g, chains, files, chains, files, f)
  {
    assert files[f] + [] == files[f];
    assert files[f := files[f]] == files && chains[f := chains[f]] == chains;
  }

  lemma LongerStep(g: Geometry, chains: Chains, files: Files, chains1: Chains, files1: Files, f: nat, c: nat)
    requires Longer(g, chains, files, chains1, files1, f)
    ensures Longer(g, chains, files, chains1[f := chains1[f] + [c]], files1[f := files1[f] + ZeroCluster(g)], f)
  {
    hide ZeroCluster;
    var n := |chains1[f]| - |chains[f]|;
    assert files1[f] + ZeroCluster(g) == files[f] + ZeroClusters(g, n + 1);
  }

  // ---------------------------------------------------------------- files

  /** Files over one table; `start` is what each directory entry records. */
  class Volume {
    const fat: Fat
    const geometry: Geometry
    var start: map<nat, nat>
    var sectors: Sectors
    ghost var chains: Chains

    ghost predicate Valid()
      reads this, fat
    {
      && fat.Valid() && ChainsOk(fat.T(), chains)
      && start.Keys == chains.Keys
      && forall f | f in chains :: start[f] == StartOf(chains[f])
    }

    /** What every file holds, sector by sector. */
    ghost function Data(): Files
      reads this
    {
      DataOf(geometry, sectors, chains)
    }

    constructor (tables: seq<seq<nat>>, g: Geometry, contents: Sectors)
      requires Mirrored(tables) && InRange(Lows(tables[0]))
      ensures Valid() && chains == map[] && fresh(fat) && fat.copies == tables && geometry == g && sectors == contents
    {
      fat := new Fat(tables);
      geometry, sectors := g, contents;
      start, chains := map[], map[];
    }

    /** Zero every sector of a cluster. */
    method ZeroFill(c: nat)
      requires c >= 2
      modifies this`sectors
      ensures Zeroed(geometry, old(sectors), sectors, c, geometry.perCluster)
    {
      for i := 0 to geometry.perCluster
        invariant Zeroed(geometry, old(sectors), sectors, c, i)
      {
        ZeroedNext(geometry, old(sectors), sectors, c, i);
        sectors := sectors[FirstSector(geometry, c) + i := Zeros(SECTOR)];
      }
    }

    /** A new file has no clusters. */
    method Create(f: nat)
      requires Valid() && f !in start
      modifies this`start, this`chains
      ensures Valid() && chains == old(chains)[f := []] && Data() == old(Data())[f := []]
    {
      hide IsChain, Mirrored, DataOf;
      DataEmptied(geometry, sectors, chains, f);
      start := start[f := 0];
      chains := chains[f := []];
    }

    /** Link one more cluster, filled with zeros, after the last one of a file. */
    method Append(f: nat, last: nat) returns (ok: bool, c: nat)
      requires Valid() && f in start && (chains[f] != [] ==> last == chains[f][|chains[f]| - 1])
      modifies this, fat
      ensures Valid() && HighKept(old(fat.copies), fat.copies)
      ensures ok ==> chains == old(chains)[f := old(chains)[f] + [c]] && FreeCount(fat.T()) + 1 == FreeCount(old(fat.T()))
      ensures !ok ==> chains == old(chains) && fat.T() == old(fat.T()) && FreeCount(fat.T()) == 0
      ensures f in old(Data()) && Data() == if ok then old(Data())[f := old(Data())[f] + ZeroCluster(geometry)] else old(Data())
      ensures OnlyIn(geometry, old(sectors), sectors, if ok then [c] else [])
    {
      hide OnlyIn, IsChain, Mirrored, FreeCount, ChainsOk, HighKept, DataOf, Zeroed, ZeroCluster, Lows, InRange;
      DataKeys(geometry, sectors, chains);
      ghost var was, d := chains, sectors;
      ok, c := LinkCluster(f, last);
      if ok {
        ZeroFill(c);
        DataGrows(geometry, d, sectors, was, f, c);
        ZeroedOnly(geometry, d, sectors, c);
      } else {
        NothingDiffers(geometry, d, []);
      }
    }

    /** Take a free cluster and link it after the last one of a file. */
    method LinkCluster(f: nat, last: nat) returns (ok: bool, c: nat)
      requires Valid() && f in start && (chains[f] != [] ==> last == chains[f][|chains[f]| - 1])
      modifies this`start, this`chains, fat
      ensures Valid() && HighKept(old(fat.copies), fat.copies)
      ensures ok ==> chains == old(chains)[f := old(chains)[f] + [c]] && FreeCount(fat.T()) + 1 == FreeCount(old(fat.T()))
      ensures ok ==> c >= 2 && forall h | h in old(chains) :: c !in old(chains)[h]
      ensures !ok ==> chains == old(chains) && fat.T() == old(fat.T()) && FreeCount(fat.T()) == 0
    {
      hide IsChain, Mirrored, FreeCount, ChainsOk, HighKept, FirstFree, ScanStart;
      ghost var t, ch, copies, scan := fat.T(), chains[f], fat.copies, fat.hint;
      ChainsFact(t, chains, f);
      var found: bool;
      found, c := fat.AllocCluster();
      if !found {
        return false, 0;
      }
      FirstFreeIs(t, ScanStart(|t|, scan), c);
      GrowOk(t, chains, f, c);
      FreeIsUnused(t, chains, c);
      if start[f] < 2 {
        NoStart(t, ch);
        start := start[f := c];
      } else {
        LastInTable(t, ch);
        ghost var copies1 := fat.copies;
        fat.WriteEntry(last, c);
        ghost var copies2 := fat.copies;
        fat.WriteEntry(c, EOC);
        HighTrans(copies, copies1, copies2);
        HighTrans(copies, copies2, fat.copies);
        assert fat.T() == Grown(t, ch, c);
      }
      chains := chains[f := ch + [c]];
      return true, c;
    }

    /** Give a file at least `need` clusters. Stops early only when the table has no free entry. */
    method EnsureClusters(f: nat, need: nat) returns (ok: bool)
      requires Valid() && f in start
      modifies this, fat
      ensures Valid() && HighKept(old(fat.copies), fat.copies)
      ensures Longer(geometry, old(chains), old(Data()), chains, Data(), f)
      ensures FreeCount(fat.T()) + |chains[f]| == FreeCount(old(fat.T())) + |old(chains)[f]|
      ensures ok ==> |chains[f]| == if |old(chains)[f]| < need then need else |old(chains)[f]|
      ensures !ok ==> |chains[f]| < need && FreeCount(fat.T()) == 0
      ensures OnlyIn(geometry, old(sectors), sectors, chains[f])
    {
      hide OnlyIn, IsChain, Mirrored, FreeCount, HighKept, ChainsOk, DataOf, Longer;
      NothingDiffers(geometry, sectors, chains[f]);
      DataKeys(geometry, sectors, chains);
      LongerStart(geometry, chains, Data(), f);
      ChainsFact(fat.T(), chains, f);
      var have := fat.ChainLength(start[f], chains[f]);
      HighSame(fat.copies);
      if have >= need {
        return true;
      }
      var last := 0;
      if have > 0 {
        last := fat.LastCluster(start[f], chains[f]);
      }
      while have < need
        invariant Valid() && f in chains && have == |chains[f]| && HighKept(old(fat.copies), fat.copies)
        invariant have <= need && (have > 0 ==> last == chains[f][have - 1])
        invariant Longer(geometry, old(chains), old(Data()), chains, Data(), f)
        invariant OnlyIn(geometry, old(sectors), sectors, chains[f])
        invariant FreeCount(fat.T()) + have == FreeCount(old(fat.T())) + |old(chains)[f]|
      {
        ghost var before, chains1, files1, d := fat.copies, chains, Data(), sectors;
        var grown, c := Append(f, last);
        OnlyInThen(geometry, old(sectors), d, sectors, chains1[f], if grown then [c] else [], chains[f]);
        HighTrans(old(fat.copies), before, fat.copies);
        if !grown {
          return false;
        }
        LongerStep(geometry, old(chains), old(Data()), chains1, files1, f, c);
        last, have := c, have + 1;
      }
      return true;
    }

    /** Free every cluster of a file. */
    method Clear(f: nat)
      requires Valid() && f in start
      modifies this`start, this`chains, fat
      ensures Valid() && chains == old(chains)[f := []] && HighKept(old(fat.copies), fat.copies)
      ensures FreeCount(fat.T()) == FreeCount(old(fat.T())) + |old(chains)[f]|
      ensures Data() == old(Data())[f := []]
    {
      hide IsChain, Mirrored, DataOf, ChainsOk, FreeCount, HighKept, FreedAll, Lows, InRange;
      DataEmptied(geometry, sectors, chains, f);
      HighSame(fat.copies);
      ChainsFact(fat.T(), chains, f);
      if start[f] >= 2 {
        ClearOk(fat.T(), chains, f);
        fat.FreeChain(start[f], chains[f]);
      } else {
        NoStart(fat.T(), chains[f]);
        EmptyAgain(chains, f);
      }
      start := start[f := 0];
      chains := chains[f := []];
    }
  }

  lemma DataEmptied(g: Geometry, d: Sectors, chains: Chains, f: nat)
    ensures DataOf(g, d, chains[f := []]) == DataOf(g, d, chains)[f := []]
  {
  }

  lemma EmptyAgain(chains: Chains, f: nat)
    requires f in chains && chains[f] == []
    ensures chains[f := []] == chains
  {
  }

  lemma FirstFreeIs(t: seq<nat>, s: nat, c: nat)
    requires FirstFree(t, s, c)
    ensures 2 <= c < |t| && t[c] == 0
  {
  }

  lemma DataKeys(g: Geometry, d: Sectors, chains: Chains)
    ensures DataOf(g, d, chains).Keys == chains.Keys
  {
  }

  lemma ChainsFact(t: seq<nat>, chains: Chains, f: nat)
    requires ChainsOk(t, chains) && f in chains
    ensures chains[f] != [] ==> IsChain(t, chains[f])
  {
  }

  lemma HighSame(copies: seq<seq<nat>>)
    ensures HighKept(copies, copies)
  {
  }

  lemma LastInTable(t: seq<nat>, ch: seq<nat>)
    requires ch != [] ==> IsChain(t, ch)
    ensures ch != [] ==> 2 <= ch[|ch| - 1] < |t|
  {
  }

  lemma NoStart(t: seq<nat>, ch: seq<nat>)
    requires (ch != [] ==> IsChain(t, ch)) && StartOf(ch) < 2
    ensures ch == []
  {
  }
}
