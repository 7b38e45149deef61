/**
 FAT32 files as byte arrays: reads and writes walk the cluster chain and, inside a cluster, its sectors.
 */
module FatFiles {
  import opened Basics
  import opened Bytes
  import opened FatChains

  const U32_END: nat := 0x1_0000_0000

  // ---------------------------------------------------------------- bytes of a chain

  /** Which cluster of its chain byte `i` lies in, and which sector of that cluster. */
  function Index(g: Geometry, i: nat): nat { if g.perCluster == 0 then 0 else i / SECTOR / g.perCluster }

  function Inner(g: Geometry, i: nat): nat { if g.perCluster == 0 then 0 else i / SECTOR % g.perCluster }

  /** Byte `i` of a chain lies in one of its clusters. */
  predicate Covered(g: Geometry, ch: seq<nat>, i: nat) { g.perCluster > 0 && Index(g, i) < |ch| }

  /** Byte `i` of a chain. */
  function ByteAt(g: Geometry, d: Sectors, ch: seq<nat>, i: nat): byte {
    if !Covered(g, ch, i) then 0
    else
      var c := ch[Index(g, i)];
      if c < 2 then 0 else SectorAt(d, FirstSector(g, c) + Inner(g, i))[i % SECTOR]
  }

  /** Where byte `off` lies: cluster `off / size`, then sector and byte inside it. */
  lemma Locate(per: nat, off: nat)
    requires per > 0
    ensures var size := per * SECTOR;
            var a, o := off / size, off % size;
            && o < size && off == a * size + o && o / SECTOR < per
            && off / SECTOR == a * per + o / SECTOR && off % SECTOR == o % SECTOR
            && off / SECTOR / per == a && off / SECTOR % per == o / SECTOR
  {
    var size := per * SECTOR;
    var a, o := off / size, off % size;
    assert off == a * size + o;
    assert a * size == SECTOR * (a * per);
    assert o == SECTOR * (o / SECTOR) + o % SECTOR;
    assert off == SECTOR * (a * per + o / SECTOR) + o % SECTOR;
    Quotient(a * per + o / SECTOR, SECTOR, o % SECTOR);
    assert o / SECTOR < per;
    Quotient(a, per, o / SECTOR);
  }

  lemma Quotient(q: nat, n: nat, r: nat)
    requires r < n
    ensures (q * n + r) / n == q && (q * n + r) % n == r
  {
    var x := q * n + r;
    assert x == (x / n) * n + x % n;
    if x / n < q {
      Beyond(x / n, q, n);
    } else if x / n > q {
      Beyond(q, x / n, n);
    }
  }

  // ---------------------------------------------------------------- bytes of the disk

  /** Byte `p` of the disk. */
  function DiskByte(d: Sectors, p: nat): byte { SectorAt(d, p / SECTOR)[p % SECTOR] }

  function ClusterSize(g: Geometry): nat { g.perCluster * SECTOR }

  /** Where cluster `a` of a chain begins. */
  function Base(g: Geometry, a: nat): nat { a * ClusterSize(g) }

  function ChainIndex(g: Geometry, off: nat): nat
    requires ClusterSize(g) > 0
  {
    off / ClusterSize(g)
  }

  function ChainInner(g: Geometry, off: nat): nat
    requires ClusterSize(g) > 0
  {
    off % ClusterSize(g)
  }

  /** Where byte `i` of a chain lies on the disk: the data area starts with cluster 2, and its clusters follow each
      other without a gap. */
  ghost function Address(g: Geometry, ch: seq<nat>, i: nat): nat
    requires ClusterSize(g) > 0 && ChainIndex(g, i) < |ch| && forall c | c in ch :: c >= 2
  {
    assert ch[ChainIndex(g, i)] in ch;
    g.dataStart * SECTOR + Base(g, ch[ChainIndex(g, i)] - 2) + ChainInner(g, i)
  }

  lemma ByteOnDisk(g: Geometry, d: Sectors, ch: seq<nat>, i: nat)
    requires Covered(g, ch, i) && forall c | c in ch :: c >= 2
    ensures ClusterSize(g) > 0 && ChainIndex(g, i) < |ch| && ByteAt(g, d, ch, i) == DiskByte(d, Address(g, ch, i))
  {
    Locate(g.perCluster, i);
    var size := g.perCluster * SECTOR;
    var a, o := i / size, i % size;
    assert ch[a] in ch;
    var c := ch[a] - 2;
    assert c * size == SECTOR * (c * g.perCluster);
    assert o == SECTOR * (o / SECTOR) + o % SECTOR;
    Quotient(g.dataStart + c * g.perCluster + o / SECTOR, SECTOR, o % SECTOR);
    assert Address(g, ch, i) == (g.dataStart + c * g.perCluster + o / SECTOR) * SECTOR + o % SECTOR;
  }

  /** A file whose clusters are neighbours lies on the disk in one piece. */
  lemma OnePiece(g: Geometry, ch: seq<nat>, i: nat)
    requires ClusterSize(g) > 0 && ChainIndex(g, i) < |ch| && (forall c | c in ch :: c >= 2) && forall k | 0 <= k < |ch| :: ch[k] == ch[0] + k
    ensures ch[0] in ch && Address(g, ch, i) == g.dataStart * SECTOR + Base(g, ch[0] - 2) + i
  {
    assert ch[0] in ch && ch[ChainIndex(g, i)] in ch;
    Neighbours(g, ch[0] - 2, i);
    hide Base, ChainIndex, ChainInner;
  }

  lemma Neighbours(g: Geometry, c: nat, i: nat)
    requires ClusterSize(g) > 0
    ensures Base(g, c + ChainIndex(g, i)) + ChainInner(g, i) == Base(g, c) + i
  {
    var size := ClusterSize(g);
    hide ClusterSize;
    DivMod(i, size);
    assert (c + i / size) * size == c * size + i / size * size;
  }

  // ---------------------------------------------------------------- storing one sector

  /** Every cluster of every chain is a data cluster, no cluster is in two places. */
  ghost predicate Places(chains: Chains) {
    && (forall f | f in chains :: Distinct(chains[f]) && forall c | c in chains[f] :: c >= 2)
    && (forall f, h | f in chains && h in chains && f != h :: Apart(chains[f], chains[h]))
  }

  lemma ChainPlaces(t: seq<nat>, chains: Chains)
    requires ChainsOk(t, chains)
    ensures Places(chains)
  {
    forall f | f in chains ensures Distinct(chains[f]) && forall c | c in chains[f] :: c >= 2 {
      if chains[f] != [] {
        ChainAcyclic(t, chains[f]);
      }
    }
  }

  /** The sector that holds byte `i` of a chain. */
  function Home(g: Geometry, ch: seq<nat>, i: nat): nat
    requires Covered(g, ch, i) && forall c | c in ch :: c >= 2
  {
    assert ch[Index(g, i)] in ch;
    FirstSector(g, ch[Index(g, i)]) + Inner(g, i)
  }

  lemma DivMod(x: nat, n: nat)
    requires n > 0
    ensures x == x / n * n + x % n && 0 <= x % n < n
  {
  }

  lemma HomeIn(g: Geometry, ch: seq<nat>, i: nat)
    requires Covered(g, ch, i) && forall c | c in ch :: c >= 2
    ensures var a, b := Index(g, i), Inner(g, i);
            && a < |ch| && ch[a] in ch && b < g.perCluster && i / SECTOR == a * g.perCluster + b
            && Home(g, ch, i) == FirstSector(g, ch[a]) + b && InCluster(g, ch[a], Home(g, ch, i))
  {
    DivMod(i / SECTOR, g.perCluster);
    assert ch[Index(g, i)] in ch;
  }

  /** Bytes of two files share a sector only if they are bytes of one sector of one file. */
  lemma HomesApart(g: Geometry, chains: Chains, f: nat, i: nat, h: nat, j: nat)
    requires Places(chains) && f in chains && h in chains && Covered(g, chains[f], i) && Covered(g, chains[h], j)
    requires Home(g, chains[f], i) == Home(g, chains[h], j)
    ensures f == h && i / SECTOR == j / SECTOR
  {
    hide FirstSector, InCluster, Home, Index, Inner;
    HomeIn(g, chains[f], i);
    HomeIn(g, chains[h], j);
    var a, a' := Index(g, i), Index(g, j);
    ClustersApart(g, chains[f][a], chains[h][a'], Home(g, chains[f], i));
    assert f == h && a == a';
  }

  lemma SameSector(g: Geometry, i: nat, j: nat)
    requires i / SECTOR == j / SECTOR
    ensures Index(g, i) == Index(g, j) && Inner(g, i) == Inner(g, j)
  {
  }

  /** What storing a sector shows: the bytes of that sector of that file, and nothing else. */
  lemma SectorStored(g: Geometry, d: Sectors, chains: Chains, f: nat, i: nat, sec: Sector, h: nat, j: nat)
    requires Places(chains) && f in chains && h in chains && Covered(g, chains[f], i) && Covered(g, chains[h], j)
    ensures ByteAt(g, d[Home(g, chains[f], i) := sec], chains[h], j) ==
            if h == f && j / SECTOR == i / SECTOR then sec[j % SECTOR] else ByteAt(g, d, chains[h], j)
  {
    hide FirstSector, Index, Inner;
    assert chains[h][Index(g, j)] in chains[h];
    if h == f && j / SECTOR == i / SECTOR {
      SameSector(g, i, j);
    }
    if Home(g, chains[h], j) == Home(g, chains[f], i) {
      HomesApart(g, chains, f, i, h, j);
    }
  }

  /** `d'` shows the files of `d` with `data` stored at `off` in file `f`. */
  ghost predicate Wrote(g: Geometry, d: Sectors, d': Sectors, chains: Chains, f: nat, off: nat, data: seq<byte>) {
    forall h, j: nat | h in chains && Covered(g, chains[h], j) ::
      ByteAt(g, d', chains[h], j) == if h == f && off <= j < off + |data| then data[j - off] else ByteAt(g, d, chains[h], j)
  }

  function Patched(sec: Sector, off: nat, piece: seq<byte>): (r: Sector)
    requires off + |piece| <= SECTOR
    ensures forall k | 0 <= k < SECTOR :: r[k] == if off <= k < off + |piece| then piece[k - off] else sec[k]
  {
    sec[..off] + piece + sec[off + |piece|..]
  }

  /** One more piece, inside one sector. */
  lemma WroteMore(g: Geometry, d: Sectors, d1: Sectors, chains: Chains, f: nat, off: nat, data: seq<byte>, piece: seq<byte>)
    requires Wrote(g, d, d1, chains, f, off, data) && Places(chains) && f in chains && piece != []
    requires Covered(g, chains[f], off + |data|) && (off + |data|) % SECTOR + |piece| <= SECTOR
    ensures var at := off + |data|;
            var l := Home(g, chains[f], at);
            Wrote(g, d, d1[l := Patched(SectorAt(d1, l), at % SECTOR, piece)], chains, f, off, data + piece)
  {
    hide FirstSector, Index, Inner, ByteAt, Home;
    var at := off + |data|;
    var l := Home(g, chains[f], at);
    var sec := Patched(SectorAt(d1, l), at % SECTOR, piece);
    var d2 := d1[l := sec];
    forall h, j: nat | h in chains && Covered(g, chains[h], j)
      ensures ByteAt(g, d2, chains[h], j) == if h == f && off <= j < off + |data + piece| then (data + piece)[j - off] else ByteAt(g, d, chains[h], j)
    {
      SectorStored(g, d1, chains, f, at, sec, h, j);
      assert ByteAt(g, d1, chains[h], j) == if h == f && off <= j < off + |data| then data[j - off] else ByteAt(g, d, chains[h], j);
      if h == f && j / SECTOR == at / SECTOR {
        SameHome(g, d1, chains[f], at, j);
      }
    }
  }

  lemma SameHome(g: Geometry, d: Sectors, ch: seq<nat>, i: nat, j: nat)
    requires Covered(g, ch, i) && (forall c | c in ch :: c >= 2) && j / SECTOR == i / SECTOR
    ensures Covered(g, ch, j) && SectorAt(d, Home(g, ch, i))[j % SECTOR] == ByteAt(g, d, ch, j)
  {
    SameSector(g, i, j);
    hide FirstSector, Index, Inner;
    assert ch[Index(g, i)] in ch;
  }

  lemma WroteNothing(g: Geometry, d: Sectors, chains: Chains, f: nat, off: nat)
    ensures Wrote(g, d, d, chains, f, off, [])
  {
  }

  lemma WroteThen(g: Geometry, d: Sectors, d1: Sectors, d2: Sectors, chains: Chains, f: nat, off: nat, data: seq<byte>, more: seq<byte>)
    requires Wrote(g, d, d1, chains, f, off, data) && Wrote(g, d1, d2, chains, f, off + |data|, more)
    ensures Wrote(g, d, d2, chains, f, off, data + more)
  {
    forall h, j: nat | h in chains && Covered(g, chains[h], j)
      ensures ByteAt(g, d2, chains[h], j) == if h == f && off <= j < off + |data + more| then (data + more)[j - off] else ByteAt(g, d, chains[h], j)
    {
      assert ByteAt(g, d1, chains[h], j) == if h == f && off <= j < off + |data| then data[j - off] else ByteAt(g, d, chains[h], j);
    }
  }

  lemma WroteNext(g: Geometry, d: Sectors, d1: Sectors, d2: Sectors, chains: Chains, f: nat, off: nat, buf: seq<byte>, total: nat, n: nat)
    requires total + n <= |buf| && Wrote(g, d, d1, chains, f, off, buf[..total]) && Wrote(g, d1, d2, chains, f, off + total, buf[total..total + n])
    ensures Wrote(g, d, d2, chains, f, off, buf[..total + n])
  {
    hide Wrote;
    WroteThen(g, d, d1, d2, chains, f, off, buf[..total], buf[total..total + n]);
    assert buf[..total] + buf[total..total + n] == buf[..total + n];
  }

  // ---------------------------------------------------------------- growth

  /** Sector `b` of cluster `a` in a chain's data. */
  lemma {:induction false} ChainDataAt(g: Geometry, d: Sectors, ch: seq<nat>, a: nat, b: nat)
    requires a < |ch| && b < g.perCluster
    ensures a * g.perCluster + b < |ChainData(g, d, ch)| == |ch| * g.perCluster
    ensures ChainData(g, d, ch)[a * g.perCluster + b] == SectorOf(g, d, ch[a], b)
  {
    var n, per := |ch| - 1, g.perCluster;
    var front := ch[..n];
    ChainDataSize(g, d, ch);
    ChainDataSize(g, d, front);
    Beyond(a, |ch|, per);
    hide SectorOf;
    if a < n {
      ChainDataAt(g, d, front, a, b);
    }
  }

  lemma {:induction false} ChainDataSize(g: Geometry, d: Sectors, ch: seq<nat>)
    ensures |ChainData(g, d, ch)| == |ch| * g.perCluster
  {
    if ch != [] {
      ChainDataSize(g, d, ch[..|ch| - 1]);
      assert |ch| * g.perCluster == (|ch| - 1) * g.perCluster + g.perCluster;
    }
  }

  /** A byte of a chain, read from its data. */
  lemma ByteOfData(g: Geometry, d: Sectors, ch: seq<nat>, i: nat)
    requires Covered(g, ch, i) && forall c | c in ch :: c >= 2
    ensures i / SECTOR < |ChainData(g, d, ch)| && |ChainData(g, d, ch)[i / SECTOR]| == SECTOR
    ensures ByteAt(g, d, ch, i) == ChainData(g, d, ch)[i / SECTOR][i % SECTOR]
  {
    hide FirstSector, InCluster, ChainData, Index, Inner;
    HomeIn(g, ch, i);
    ChainDataAt(g, d, ch, Index(g, i), Inner(g, i));
  }

  lemma {:induction false} ZeroData(g: Geometry, n: nat)
    ensures |ZeroClusters(g, n)| == n * g.perCluster && forall j | 0 <= j < |ZeroClusters(g, n)| :: ZeroClusters(g, n)[j] == Zeros(SECTOR)
  {
    if n > 0 {
      ZeroData(g, n - 1);
      assert n * g.perCluster == (n - 1) * g.perCluster + g.perCluster;
    }
  }

  /** A file that grew shows its old bytes and then zeros; no other file changed. */
  lemma GrewBytes(g: Geometry, d: Sectors, chains: Chains, d': Sectors, chains': Chains, f: nat, h: nat, i: nat)
    requires Longer(g, chains, DataOf(g, d, chains), chains', DataOf(g, d', chains'), f)
    requires Places(chains) && Places(chains') && h in chains' && Covered(g, chains'[h], i)
    ensures h in chains && ByteAt(g, d', chains'[h], i) == if Covered(g, chains[h], i) then ByteAt(g, d, chains[h], i) else 0
  {
    var was, now := DataOf(g, d, chains), DataOf(g, d', chains');
    ByteOfData(g, d', chains'[h], i);
    if h == f {
      var more := ZeroClusters(g, |chains'[f]| - |chains[f]|);
      assert now[f] == was[f] + more;
      ZeroData(g, |chains'[f]| - |chains[f]|);
      ChainDataSize(g, d, chains[f]);
      if Covered(g, chains[f], i) {
        ByteOfData(g, d, chains[f], i);
      } else {
        NotCovered(g, chains[f], i);
        assert now[f][i / SECTOR] == more[i / SECTOR - |was[f]|];
      }
    } else {
      assert chains'[h] == chains[h] && now[h] == was[h];
      ByteOfData(g, d, chains[h], i);
    }
  }

  lemma NotCovered(g: Geometry, ch: seq<nat>, i: nat)
    requires g.perCluster > 0 && !Covered(g, ch, i)
    ensures i / SECTOR >= |ch| * g.perCluster
  {
    var a := Index(g, i);
    DivMod(i / SECTOR, g.perCluster);
    if |ch| < a {
      Beyond(|ch|, a, g.perCluster);
    }
  }

  // ---------------------------------------------------------------- inside one cluster

  /** Byte `o` of cluster `a` of a chain. */
  lemma InsideCluster(g: Geometry, ch: seq<nat>, a: nat, o: nat)
    requires a < |ch| && o < ClusterSize(g) && forall c | c in ch :: c >= 2
    ensures var i := Base(g, a) + o;
            && Covered(g, ch, i) && ch[a] in ch && Home(g, ch, i) == FirstSector(g, ch[a]) + o / SECTOR && i % SECTOR == o % SECTOR
  {
    var i := Base(g, a) + o;
    Quotient(a, ClusterSize(g), o);
    Locate(g.perCluster, i);
    assert Index(g, i) == a && Inner(g, i) == o / SECTOR;
    hide Index, Inner, FirstSector;
    assert ch[a] in ch;
  }

  lemma InsideByte(g: Geometry, d: Sectors, ch: seq<nat>, a: nat, o: nat)
    requires a < |ch| && o < ClusterSize(g) && forall c | c in ch :: c >= 2
    ensures ch[a] in ch && ByteAt(g, d, ch, Base(g, a) + o) == SectorAt(d, FirstSector(g, ch[a]) + o / SECTOR)[o % SECTOR]
  {
    InsideCluster(g, ch, a, o);
    SameHome(g, d, ch, Base(g, a) + o, Base(g, a) + o);
    hide FirstSector, ByteAt, Home;
  }

  lemma SectorOnly(g: Geometry, d: Sectors, d1: Sectors, c: nat, off: nat, sec: Sector)
    requires c >= 2 && off < ClusterSize(g) && OnlyIn(g, d, d1, [c])
    ensures OnlyIn(g, d, d1[FirstSector(g, c) + off / SECTOR := sec], [c])
  {
    var d2 := d1[FirstSector(g, c) + off / SECTOR := sec];
    assert off / SECTOR < g.perCluster;
    hide FirstSector;
    assert c in [c];
    assert OnlyIn(g, d1, d2, [c]);
    hide OnlyIn;
    OnlyInThen(g, d, d1, d2, [c], [c], [c]);
  }

  lemma PieceSector(off: nat, n: nat, k: nat)
    requires off % SECTOR + n <= SECTOR && k < n
    ensures (off + k) / SECTOR == off / SECTOR && (off + k) % SECTOR == off % SECTOR + k
  {
  }

  /** Bytes before a covered one are covered. */
  lemma CoveredBelow(g: Geometry, ch: seq<nat>, i: nat, j: nat)
    requires i <= j && Covered(g, ch, j)
    ensures Covered(g, ch, i)
  {
    var x, y, n := i / SECTOR, j / SECTOR, g.perCluster;
    DivMod(x, n);
    DivMod(y, n);
    if y / n < x / n {
      Beyond(y / n, x / n, n);
    }
  }

  // ---------------------------------------------------------------- files

  /** The clusters of a file reach its end. */
  ghost predicate Fits(g: Geometry, ch: seq<nat>, n: nat) { n == 0 || Covered(g, ch, n - 1) }

  /** Past the end of the file its clusters hold zeros. */
  ghost predicate Slack(g: Geometry, d: Sectors, ch: seq<nat>, n: nat) {
    forall i: nat | n <= i && Covered(g, ch, i) :: ByteAt(g, d, ch, i) == 0
  }

  ghost function Contents(g: Geometry, d: Sectors, ch: seq<nat>, n: nat): (f: seq<byte>)
    ensures |f| == n
  {
    seq(n, i requires 0 <= i => ByteAt(g, d, ch, i))
  }

  /** Every file fits its clusters and is followed by zeros. */
  ghost predicate Shape(g: Geometry, d: Sectors, chains: Chains, size: map<nat, nat>) {
    && g.perCluster > 0 && size.Keys == chains.Keys
    && forall f | f in size :: Fits(g, chains[f], size[f]) && Slack(g, d, chains[f], size[f])
  }

  ghost function BytesOf(g: Geometry, d: Sectors, chains: Chains, size: map<nat, nat>): (m: map<nat, seq<byte>>)
    requires size.Keys == chains.Keys
    ensures m.Keys == size.Keys && forall f | f in size :: |m[f]| == size[f]
  {
    map f | f in size :: Contents(g, d, chains[f], size[f])
  }

  /** Every byte of a file lies on the disk where its clusters say. */
  lemma FileOnDisk(g: Geometry, d: Sectors, chains: Chains, size: map<nat, nat>, f: nat, i: nat)
    requires Shape(g, d, chains, size) && Places(chains) && f in size && i < size[f]
    ensures ClusterSize(g) > 0 && ChainIndex(g, i) < |chains[f]| && BytesOf(g, d, chains, size)[f][i] == DiskByte(d, Address(g, chains[f], i))
  {
    hide ByteAt, Covered, Address, DiskByte, Slack;
    CoveredBelow(g, chains[f], i, size[f] - 1);
    ByteOnDisk(g, d, chains[f], i);
  }

  /** `data` is on the disk from byte `off` of a file on. */
  ghost predicate OnDisk(g: Geometry, d: Sectors, ch: seq<nat>, off: nat, data: seq<byte>) {
    && ClusterSize(g) > 0 && (forall c | c in ch :: c >= 2)
    && forall k | 0 <= k < |data| :: ChainIndex(g, off + k) < |ch| && data[k] == DiskByte(d, Address(g, ch, off + k))
  }

  lemma SliceOnDisk(g: Geometry, d: Sectors, chains: Chains, size: map<nat, nat>, f: nat, off: nat, data: seq<byte>)
    requires Shape(g, d, chains, size) && Places(chains) && f in size
    requires data == [] || (off + |data| <= size[f] && data == BytesOf(g, d, chains, size)[f][off..off + |data|])
    ensures OnDisk(g, d, chains[f], off, data)
  {
    hide Shape, BytesOf, Address, DiskByte, ClusterSize, ChainIndex, Places;
    SomeSectors(g, d, chains, size);
    SomeSize(g);
    DataClusters(chains, f);
    forall k | 0 <= k < |data| ensures ChainIndex(g, off + k) < |chains[f]| && data[k] == DiskByte(d, Address(g, chains[f], off + k)) {
      FileOnDisk(g, d, chains, size, f, off + k);
    }
  }

  /** Growing a chain changes no file. */
  lemma GrowShape(g: Geometry, d: Sectors, chains: Chains, d': Sectors, chains': Chains, size: map<nat, nat>, f: nat)
    requires Shape(g, d, chains, size) && Places(chains) && Places(chains')
    requires Longer(g, chains, DataOf(g, d, chains), chains', DataOf(g, d', chains'), f)
    ensures Shape(g, d', chains', size) && BytesOf(g, d', chains', size) == BytesOf(g, d, chains, size)
  {
    hide ByteAt, Covered, Places, Longer, DataOf, Contents, Slack, Fits;
    LongerKeys(g, chains, DataOf(g, d, chains), chains', DataOf(g, d', chains'), f);
    forall h | h in size
      ensures Fits(g, chains'[h], size[h]) && Slack(g, d', chains'[h], size[h])
      ensures Contents(g, d', chains'[h], size[h]) == Contents(g, d, chains[h], size[h])
    {
      GrowFile(g, d, chains, d', chains', size[h], f, h);
    }
  }

  lemma GrowFile(g: Geometry, d: Sectors, chains: Chains, d': Sectors, chains': Chains, n: nat, f: nat, h: nat)
    requires Places(chains) && Places(chains') && h in chains && h in chains' && Fits(g, chains[h], n) && Slack(g, d, chains[h], n)
    requires Longer(g, chains, DataOf(g, d, chains), chains', DataOf(g, d', chains'), f)
    ensures Fits(g, chains'[h], n) && Slack(g, d', chains'[h], n) && Contents(g, d', chains'[h], n) == Contents(g, d, chains[h], n)
  {
    hide ByteAt, DataOf, Longer, Covered, Places;
    LongerChain(g, chains, DataOf(g, d, chains), chains', DataOf(g, d', chains'), f, h);
    forall i: nat | Covered(g, chains[h], i) ensures Covered(g, chains'[h], i) {
      CoveredLonger(g, chains[h], chains'[h], i);
    }
    forall i: nat | Covered(g, chains'[h], i)
      ensures ByteAt(g, d', chains'[h], i) == if Covered(g, chains[h], i) then ByteAt(g, d, chains[h], i) else 0
    {
      GrewBytes(g, d, chains, d', chains', f, h, i);
    }
    forall i: nat | i < n ensures ByteAt(g, d', chains'[h], i) == ByteAt(g, d, chains[h], i) {
      CoveredBelow(g, chains[h], i, n - 1);
      assert Covered(g, chains'[h], i);
    }
  }

  lemma CoveredLonger(g: Geometry, ch: seq<nat>, ch': seq<nat>, i: nat)
    requires Covered(g, ch, i) && |ch| <= |ch'|
    ensures Covered(g, ch', i)
  {
  }

  lemma LongerKeys(g: Geometry, chains: Chains, files: Files, chains': Chains, files': Files, f: nat)
    requires Longer(g, chains, files, chains', files', f)
    ensures chains'.Keys == chains.Keys
  {
  }

  lemma LongerChain(g: Geometry, chains: Chains, files: Files, chains': Chains, files': Files, f: nat, h: nat)
    requires Longer(g, chains, files, chains', files', f) && h in chains && h in chains'
    ensures |chains[h]| <= |chains'[h]|
  {
  }

  /** A file made longer within its clusters shows zeros. */
  lemma ResizeShape(g: Geometry, d: Sectors, chains: Chains, size: map<nat, nat>, f: nat, n: nat)
    requires Shape(g, d, chains, size) && f in size && size[f] <= n && Fits(g, chains[f], n)
    ensures size[f := n].Keys == chains.Keys && Shape(g, d, chains, size[f := n])
    ensures BytesOf(g, d, chains, size[f := n]) == BytesOf(g, d, chains, size)[f := Padded(BytesOf(g, d, chains, size)[f], n)]
  {
    hide ByteAt, Covered, Contents, Padded, Slack, Fits;
    ResizeFile(g, d, chains[f], size[f], n);
    assert size[f := n].Keys == size.Keys;
  }

  lemma ResizeFile(g: Geometry, d: Sectors, ch: seq<nat>, n: nat, n': nat)
    requires n <= n' && Fits(g, ch, n') && Slack(g, d, ch, n)
    ensures Slack(g, d, ch, n') && Contents(g, d, ch, n') == Padded(Contents(g, d, ch, n), n')
  {
    hide ByteAt, Covered;
    var now, want := Contents(g, d, ch, n'), Padded(Contents(g, d, ch, n), n');
    forall i: nat | i < n' ensures now[i] == want[i] {
      if n <= i {
        CoveredBelow(g, ch, i, n' - 1);
      }
    }
  }

  /** Bytes stored inside a file overlay it and change no other. */
  lemma StoreShape(g: Geometry, d: Sectors, d': Sectors, chains: Chains, size: map<nat, nat>, f: nat, off: nat, buf: seq<byte>)
    requires Shape(g, d, chains, size) && f in size && buf != [] && off + |buf| <= size[f] && Wrote(g, d, d', chains, f, off, buf)
    ensures Shape(g, d', chains, size)
    ensures BytesOf(g, d', chains, size) == BytesOf(g, d, chains, size)[f := Overlay(BytesOf(g, d, chains, size)[f], off, buf)]
  {
    hide ByteAt, Covered, Wrote, Contents, Slack;
    forall h | h in size
      ensures Slack(g, d', chains[h], size[h])
      ensures Contents(g, d', chains[h], size[h]) ==
              if h == f then Overlay(Contents(g, d, chains[h], size[h]), off, buf) else Contents(g, d, chains[h], size[h])
    {
      StoreFile(g, d, d', chains, size[h], f, off, buf, h);
    }
  }

  lemma StoreFile(g: Geometry, d: Sectors, d': Sectors, chains: Chains, n: nat, f: nat, off: nat, buf: seq<byte>, h: nat)
    requires h in chains && Fits(g, chains[h], n) && Slack(g, d, chains[h], n) && buf != [] && (h == f ==> off + |buf| <= n)
    requires Wrote(g, d, d', chains, f, off, buf)
    ensures Slack(g, d', chains[h], n)
    ensures Contents(g, d', chains[h], n) == if h == f then Overlay(Contents(g, d, chains[h], n), off, buf) else Contents(g, d, chains[h], n)
  {
    hide ByteAt, Covered;
    StoreSlack(g, d, d', chains, n, f, off, buf, h);
    hide Slack;
    var now := Contents(g, d', chains[h], n);
    var was := Contents(g, d, chains[h], n);
    forall i: nat | i < n ensures now[i] == if h == f && off <= i < off + |buf| then buf[i - off] else was[i] {
      CoveredBelow(g, chains[h], i, n - 1);
    }
    assert now == if h == f then Overlay(was, off, buf) else was;
  }

  lemma StoreSlack(g: Geometry, d: Sectors, d': Sectors, chains: Chains, n: nat, f: nat, off: nat, buf: seq<byte>, h: nat)
    requires h in chains && Slack(g, d, chains[h], n) && (h == f ==> off + |buf| <= n) && Wrote(g, d, d', chains, f, off, buf)
    ensures Slack(g, d', chains[h], n)
  {
    hide ByteAt, Covered;
  }

  lemma HasStart(g: Geometry, d: Sectors, chains: Chains, size: map<nat, nat>, f: nat)
    requires Shape(g, d, chains, size) && Places(chains) && f in size && size[f] > 0
    ensures StartOf(chains[f]) >= 2
  {
    hide Index, Slack;
    assert chains[f] != [];
    assert chains[f][0] in chains[f];
  }

  /** A write inside a file is never cut short. */
  lemma AllWritten(g: Geometry, d: Sectors, chains: Chains, size: map<nat, nat>, f: nat, off: nat, len: nat, total: nat)
    requires Shape(g, d, chains, size) && f in size && off + len <= size[f] && total <= len
    requires total == len || !Covered(g, chains[f], off + total)
    ensures total == len
  {
    hide Covered, Slack;
    if total < len {
      CoveredBelow(g, chains[f], off + total, size[f] - 1);
    }
  }

  /** A file that grew to `newEnd` bytes took its new clusters from the free ones, and no more than it needed: even the
      last one begins before its end. */
  ghost predicate Frugal(g: Geometry, chains: Chains, t: seq<nat>, chains': Chains, t': seq<nat>, f: nat, newEnd: nat) {
    && f in chains && f in chains' && FreeCount(t') + |chains'[f]| == FreeCount(t) + |chains[f]|
    && (|chains'[f]| > |chains[f]| ==> Base(g, |chains'[f]| - 1) < newEnd)
  }

  lemma LastNeeded(g: Geometry, n: nat, newEnd: nat)
    requires g.perCluster > 0 && newEnd > 0 && 0 < n <= (newEnd - 1) / ClusterSize(g) + 1
    ensures Base(g, n - 1) < newEnd
  {
    var size := ClusterSize(g);
    DivMod(newEnd - 1, size);
    var q := (newEnd - 1) / size;
    if n - 1 < q {
      Beyond(n - 1, q, size);
    }
  }

  lemma EnoughClusters(g: Geometry, ch: seq<nat>, n: nat)
    requires g.perCluster > 0 && n > 0 && (n - 1) / ClusterSize(g) + 1 <= |ch|
    ensures Fits(g, ch, n)
  {
    Locate(g.perCluster, n - 1);
  }

  class FileStore {
    const vol: Volume
    var size: map<nat, nat>

    ghost predicate Valid()
      reads this, vol, vol.fat
    {
      vol.Valid() && Shape(vol.geometry, vol.sectors, vol.chains, size)
    }

    /** Every file as a byte array. */
    ghost function FileBytes(): map<nat, seq<byte>>
      requires size.Keys == vol.chains.Keys
      reads this, vol
    {
      BytesOf(vol.geometry, vol.sectors, vol.chains, size)
    }

    constructor (v: Volume)
      requires v.Valid() && v.chains == map[] && v.geometry.perCluster > 0
      ensures vol == v && Valid() && FileBytes() == map[]
    {
      vol, size := v, map[];
    }

    /** Read inside one cluster, sector by sector. */
    method ReadCluster(c: nat, offset: nat, len: nat, ghost ch: seq<nat>, ghost a: nat) returns (out: seq<byte>)
      requires a < |ch| && c == ch[a] && (forall x | x in ch :: x >= 2) && offset + len <= ClusterSize(vol.geometry)
      ensures |out| == len
      ensures forall k | 0 <= k < len ::
                out[k] == ByteAt(vol.geometry, vol.sectors, ch, Base(vol.geometry, a) + offset + k)
    {
      hide ByteAt, FirstSector, SectorAt, ClusterSize, Base;
      assert ch[a] in ch;
      ghost var g, d, base := vol.geometry, vol.sectors, Base(vol.geometry, a);
      out := [];
      while |out| < len
        invariant |out| <= len
        invariant forall k | 0 <= k < |out| :: out[k] == ByteAt(g, d, ch, base + offset + k)
      {
        var off := offset + |out|;
        var n := Min(len - |out|, SECTOR - off % SECTOR);
        var sector := SectorAt(vol.sectors, FirstSector(vol.geometry, c) + off / SECTOR);
        ghost var before := out;
        out := out + sector[off % SECTOR..off % SECTOR + n];
        forall k | |before| <= k < |out| ensures out[k] == ByteAt(g, d, ch, base + offset + k) {
          PieceSector(off, n, k - |before|);
          InsideByte(g, d, ch, a, offset + k);
        }
      }
    }

    /** Write inside one cluster: read each sector, change it, store it. */
    method WriteCluster(c: nat, offset: nat, buf: seq<byte>, ghost f: nat, ghost a: nat)
      requires Places(vol.chains) && f in vol.chains && a < |vol.chains[f]| && c == vol.chains[f][a]
      requires offset + |buf| <= ClusterSize(vol.geometry)
      modifies vol`sectors
      ensures Wrote(vol.geometry, old(vol.sectors), vol.sectors, vol.chains, f, Base(vol.geometry, a) + offset, buf)
      ensures OnlyIn(vol.geometry, old(vol.sectors), vol.sectors, [c])
    {
      hide ByteAt, FirstSector, Wrote, Home, ClusterSize, Base, Covered, OnlyIn;
      NothingDiffers(vol.geometry, vol.sectors, [c]);
      ghost var g, d, ch, base := vol.geometry, vol.sectors, vol.chains[f], Base(vol.geometry, a);
      assert ch[a] in ch;
      WroteNothing(g, d, vol.chains, f, base + offset);
      var done := 0;
      assert buf[..0] == [];
      while done < |buf|
        invariant done <= |buf| && Wrote(g, d, vol.sectors, vol.chains, f, base + offset, buf[..done])
        invariant OnlyIn(g, d, vol.sectors, [c])
      {
        var off := offset + done;
        var n := Min(|buf| - done, SECTOR - off % SECTOR);
        var l := FirstSector(vol.geometry, c) + off / SECTOR;
        InsideCluster(g, ch, a, off);
        WroteMore(g, d, vol.sectors, vol.chains, f, base + offset, buf[..done], buf[done..done + n]);
        assert buf[..done] + buf[done..done + n] == buf[..done + n];
        SectorOnly(g, d, vol.sectors, c, off, Patched(SectorAt(vol.sectors, l), off % SECTOR, buf[done..done + n]));
        vol.sectors := vol.sectors[l := Patched(SectorAt(vol.sectors, l), off % SECTOR, buf[done..done + n])];
        done := done + n;
      }
      assert buf[..done] == buf;
    }

    /** Read along the chain of a file until it ends. */
    method ReadChainAt(f: nat, offset: nat, len: nat) returns (out: seq<byte>)
      requires Valid() && f in size
      ensures |out| <= len && (|out| == len || !Covered(vol.geometry, vol.chains[f], offset + |out|))
      ensures forall k | 0 <= k < |out| :: out[k] == ByteAt(vol.geometry, vol.sectors, vol.chains[f], offset + k)
    {
      hide ByteAt, IsChain, ChainsOk, Places, Shape, Covered, Mirrored, ClusterSize, Base, ChainIndex, ChainInner;
      SomeSectors(vol.geometry, vol.sectors, vol.chains, size);
      ghost var g, ch := vol.geometry, vol.chains[f];
      ChainsFact(vol.fat.T(), vol.chains, f);
      ChainPlaces(vol.fat.T(), vol.chains);
      DataClusters(vol.chains, f);
      out := [];
      SomeSize(g);
      while |out| < len
        invariant |out| <= len
        invariant forall k | 0 <= k < |out| :: out[k] == ByteAt(g, vol.sectors, ch, offset + k)
      {
        var off := offset + |out|;
        PlaceOf(g, ch, off);
        var index, inner := ChainIndex(vol.geometry, off), ChainInner(vol.geometry, off);
        var found, c := vol.fat.NthCluster(vol.start[f], index, ch);
        if !found {
          return;
        }
        var n := Min(len - |out|, ClusterSize(vol.geometry) - inner);
        var piece := ReadCluster(c, inner, n, ch, index);
        out := out + piece;
      }
    }

    /** Write along the chain of a file until it ends. */
    method WriteChainAt(f: nat, offset: nat, buf: seq<byte>) returns (total: nat)
      requires Valid() && f in size
      modifies vol`sectors
      ensures vol.Valid() && total <= |buf| && (total == |buf| || !Covered(vol.geometry, vol.chains[f], offset + total))
      ensures Wrote(vol.geometry, old(vol.sectors), vol.sectors, vol.chains, f, offset, buf[..total])
      ensures OnlyIn(vol.geometry, old(vol.sectors), vol.sectors, vol.chains[f])
    {
      hide OnlyIn, ByteAt, IsChain, ChainsOk, Places, Shape, Wrote, Mirrored, Covered, ClusterSize, Base, ChainIndex, ChainInner;
      SomeSectors(vol.geometry, vol.sectors, vol.chains, size);
      ghost var g, ch, d := vol.geometry, vol.chains[f], vol.sectors;
      ChainsFact(vol.fat.T(), vol.chains, f);
      ChainPlaces(vol.fat.T(), vol.chains);
      WroteNothing(g, d, vol.chains, f, offset);
      NothingDiffers(g, d, ch);
      total := 0;
      assert buf[..0] == [];
      SomeSize(g);
      while total < |buf|
        invariant total <= |buf| && vol.Valid() && Wrote(g, d, vol.sectors, vol.chains, f, offset, buf[..total])
        invariant OnlyIn(g, d, vol.sectors, ch)
      {
        var off := offset + total;
        PlaceOf(g, ch, off);
        var index, inner := ChainIndex(vol.geometry, off), ChainInner(vol.geometry, off);
        var found, c := vol.fat.NthCluster(vol.start[f], index, ch);
        if !found {
          return;
        }
        var n := Min(|buf| - total, ClusterSize(vol.geometry) - inner);
        ghost var d1 := vol.sectors;
        WriteCluster(c, inner, buf[total..total + n], f, index);
        WroteNext(g, d, d1, vol.sectors, vol.chains, f, offset, buf, total, n);
        OnlyInThen(g, d, d1, vol.sectors, ch, [c], ch);
        total := total + n;
      }
    }

    /** A new file is empty. */
    method Create(f: nat)
      requires Valid() && f !in size
      modifies this, vol
      ensures Valid() && FileBytes() == old(FileBytes())[f := []]
    {
      hide ByteAt, Covered, IsChain, ChainsOk, Mirrored, DataOf;
      NewShape(vol.geometry, vol.sectors, vol.chains, size, f);
      vol.Create(f);
      size := size[f := 0];
    }

    /** Read bytes of a file, cut at its end. */
    method ReadAt(f: nat, offset: nat, len: nat) returns (out: seq<byte>)
      requires Valid() && f in size
      ensures var b := FileBytes()[f]; out == if offset < |b| then b[offset..Min(offset + len, |b|)] else []
      ensures OnDisk(vol.geometry, vol.sectors, vol.chains[f], offset, out)
    {
      hide ByteAt, Covered, IsChain, ChainsOk, Mirrored, Slack, OnDisk, Places, Lows, InRange;
      ChainPlaces(vol.fat.T(), vol.chains);
      if offset % U32_END >= size[f] {
        SliceOnDisk(vol.geometry, vol.sectors, vol.chains, size, f, offset, []);
        return [];
      }
      var max := if size[f] < offset then 0 else size[f] - offset;
      out := ReadChainAt(f, offset, Min(len, max));
      if |out| < Min(len, max) {
        CoveredBelow(vol.geometry, vol.chains[f], offset + |out|, size[f] - 1);
      }
      SliceOnDisk(vol.geometry, vol.sectors, vol.chains, size, f, offset, out);
    }

    /** Store bytes at any offset of a file; a gap before them reads as zero. `ok` is false where the source panics,
        on a full volume. */
    method WriteAt(f: nat, offset: nat, buf: seq<byte>) returns (ok: bool, written: nat)
      requires Valid() && f in size && offset + |buf| < U32_END
      modifies this, vol, vol.fat
      ensures Valid()
      ensures ok ==> written == |buf| && FileBytes() == old(FileBytes())[f := Overlay(Padded(old(FileBytes())[f], offset), offset, buf)]
      ensures !ok ==> FileBytes() == old(FileBytes()) && FreeCount(vol.fat.T()) == 0
      ensures OnlyIn(vol.geometry, old(vol.sectors), vol.sectors, vol.chains[f])
      ensures ok ==> OnDisk(vol.geometry, vol.sectors, vol.chains[f], offset, buf)
      ensures Frugal(vol.geometry, old(vol.chains), old(vol.fat.T()), vol.chains, vol.fat.T(), f, offset + |buf|)
    {
      hide Frugal, OnDisk, OnlyIn, IsChain, ChainsOk, Mirrored, BytesOf, Overlay, Padded, Wrote, FreeCount, Shape, Places, Covered;
      SomeSectors(vol.geometry, vol.sectors, vol.chains, size);
      ghost var was, g, d0 := FileBytes(), vol.geometry, vol.sectors;
      NothingDiffers(g, d0, vol.chains[f]);
      var newEnd := offset + |buf|;
      ok, written := true, 0;
      if newEnd > size[f] {
        ok := Extend(f, newEnd);
        if !ok {
          return;
        }
      } else {
        if vol.start[f] < 2 && buf != [] {
          ChainPlaces(vol.fat.T(), vol.chains);
          HasStart(g, vol.sectors, vol.chains, size, f);
          assert false;
        }
        NothingPadded(was, f, newEnd, size[f]);
        NothingTaken(g, vol.chains, vol.fat.T(), f, newEnd);
      }
      if buf == [] {
        ChainPlaces(vol.fat.T(), vol.chains);
        SliceOnDisk(g, vol.sectors, vol.chains, size, f, offset, buf);
        return;
      }
      SomeSectors(g, vol.sectors, vol.chains, size);
      ghost var d, ch := vol.sectors, vol.chains[f];
      written := StoreInside(f, offset, buf);
      OnlyInThen(g, d0, d, vol.sectors, ch, ch, ch);
      PaddedOverlay(was[f], offset, buf);
    }

    /** Store bytes inside a file. */
    method StoreInside(f: nat, offset: nat, buf: seq<byte>) returns (written: nat)
      requires Valid() && f in size && buf != [] && offset + |buf| <= size[f]
      modifies vol`sectors
      ensures Valid() && written == |buf| && FileBytes() == old(FileBytes())[f := Overlay(old(FileBytes())[f], offset, buf)]
      ensures OnlyIn(vol.geometry, old(vol.sectors), vol.sectors, vol.chains[f])
      ensures OnDisk(vol.geometry, vol.sectors, vol.chains[f], offset, buf)
    {
      hide OnDisk, OnlyIn, IsChain, ChainsOk, Mirrored, BytesOf, Overlay, Wrote, Shape, Places, Covered;
      ghost var g, d := vol.geometry, vol.sectors;
      SomeSectors(g, d, vol.chains, size);
      ghost var was := BytesOf(g, d, vol.chains, size)[f];
      written := WriteChainAt(f, offset, buf);
      AllWritten(g, d, vol.chains, size, f, offset, |buf|, written);
      assert buf[..written] == buf;
      StoreShape(g, d, vol.sectors, vol.chains, size, f, offset, buf);
      OverlaySlice(was, offset, buf);
      ChainPlaces(vol.fat.T(), vol.chains);
      SliceOnDisk(g, vol.sectors, vol.chains, size, f, offset, buf);
    }

    /** Give a file the clusters of a larger size. */
    method Extend(f: nat, newEnd: nat) returns (ok: bool)
      requires Valid() && f in size && size[f] < newEnd
      modifies this, vol, vol.fat
      ensures Valid()
      ensures ok ==> size == old(size)[f := newEnd] && FileBytes() == old(FileBytes())[f := Padded(old(FileBytes())[f], newEnd)]
      ensures !ok ==> FileBytes() == old(FileBytes()) && FreeCount(vol.fat.T()) == 0
      ensures Frugal(vol.geometry, old(vol.chains), old(vol.fat.T()), vol.chains, vol.fat.T(), f, newEnd)
      ensures OnlyIn(vol.geometry, old(vol.sectors), vol.sectors, vol.chains[f])
    {
      hide Frugal, OnlyIn, IsChain, ChainsOk, Mirrored, BytesOf, Padded, FreeCount, HighKept, Longer, DataOf, Shape, Places, Fits, Covered;
      ghost var g := vol.geometry;
      SomeSectors(g, vol.sectors, vol.chains, size);
      ok := EnsureSize(f, newEnd);
      SomeSectors(g, vol.sectors, vol.chains, size);
      if ok {
        ResizeShape(g, vol.sectors, vol.chains, size, f, newEnd);
        size := size[f := newEnd];
      }
    }

    /** Clusters for `newEnd` bytes; the files stay as they are. */
    method EnsureSize(f: nat, newEnd: nat) returns (ok: bool)
      requires Valid() && f in size && size[f] < newEnd
      modifies vol, vol.fat
      ensures Valid() && FileBytes() == old(FileBytes())
      ensures if ok then Fits(vol.geometry, vol.chains[f], newEnd) else FreeCount(vol.fat.T()) == 0
      ensures Frugal(vol.geometry, old(vol.chains), old(vol.fat.T()), vol.chains, vol.fat.T(), f, newEnd)
      ensures OnlyIn(vol.geometry, old(vol.sectors), vol.sectors, vol.chains[f])
    {
      hide OnlyIn, IsChain, ChainsOk, Mirrored, BytesOf, FreeCount, HighKept, Longer, DataOf, Shape, Places, Fits, Covered;
      ghost var g, d, chains := vol.geometry, vol.sectors, vol.chains;
      ChainPlaces(vol.fat.T(), chains);
      SomeSectors(g, d, chains, size);
      var need := (newEnd - 1) / ClusterSize(vol.geometry) + 1;
      ok := vol.EnsureClusters(f, need);
      ChainPlaces(vol.fat.T(), vol.chains);
      GrowShape(g, d, chains, vol.sectors, vol.chains, size, f);
      SomeSectors(g, vol.sectors, vol.chains, size);
      if ok {
        EnoughClusters(g, vol.chains[f], newEnd);
      }
      if |vol.chains[f]| > |chains[f]| {
        LastNeeded(g, |vol.chains[f]|, newEnd);
      }
    }

    /** Empty a file and free its clusters. */
    method Clear(f: nat)
      requires Valid() && f in size
      modifies this, vol, vol.fat
      ensures Valid() && FileBytes() == old(FileBytes())[f := []]
    {
      hide IsChain, ChainsOk, Mirrored, FreeCount, HighKept, DataOf, Places, Shape, BytesOf;
      SomeSectors(vol.geometry, vol.sectors, vol.chains, size);
      ghost var g, d, chains := vol.geometry, vol.sectors, vol.chains;
      vol.Clear(f);
      NewShape(g, d, chains, size, f);
      size := size[f := 0];
    }
  }

  lemma SomeSectors(g: Geometry, d: Sectors, chains: Chains, size: map<nat, nat>)
    requires Shape(g, d, chains, size)
    ensures g.perCluster > 0 && size.Keys == chains.Keys
  {
  }

  lemma OverlaySlice(file: seq<byte>, off: nat, buf: seq<byte>)
    requires off + |buf| <= |file|
    ensures |Overlay(file, off, buf)| == |file| && Overlay(file, off, buf)[off..off + |buf|] == buf
  {
  }

  lemma NothingTaken(g: Geometry, chains: Chains, t: seq<nat>, f: nat, newEnd: nat)
    requires f in chains
    ensures Frugal(g, chains, t, chains, t, f, newEnd)
  {
  }

  lemma NothingPadded(files: map<nat, seq<byte>>, f: nat, n: nat, len: nat)
    requires f in files && |files[f]| == len && n <= len
    ensures files[f := Padded(files[f], n)] == files
  {
  }

  lemma NewShape(g: Geometry, d: Sectors, chains: Chains, size: map<nat, nat>, f: nat)
    requires Shape(g, d, chains, size)
    ensures size[f := 0].Keys == chains[f := []].Keys && Shape(g, d, chains[f := []], size[f := 0])
    ensures BytesOf(g, d, chains[f := []], size[f := 0]) == BytesOf(g, d, chains, size)[f := []]
  {
    hide ByteAt, Covered;
    EmptySlack(g, d);
  }

  lemma EmptySlack(g: Geometry, d: Sectors)
    ensures Slack(g, d, [], 0) && Fits(g, [], 0)
  {
    hide Index, ByteAt;
  }

  lemma PlaceOf(g: Geometry, ch: seq<nat>, off: nat)
    requires g.perCluster > 0
    ensures ClusterSize(g) > 0 && ChainInner(g, off) < ClusterSize(g) && off == Base(g, ChainIndex(g, off)) + ChainInner(g, off)
    ensures Covered(g, ch, off) <==> ChainIndex(g, off) < |ch|
  {
    Locate(g.perCluster, off);
  }

  lemma SomeSize(g: Geometry)
    requires g.perCluster > 0
    ensures ClusterSize(g) > 0
  {
  }

  lemma DataClusters(chains: Chains, f: nat)
    requires Places(chains) && f in chains
    ensures forall c | c in chains[f] :: c >= 2
  {
  }
}
