/**
 Truncation of a mapping: the inode is resized first, then the cached pages follow.
 */
module PageTruncate {
  import opened Basics
  import opened Bytes
  import opened PageCache
  import opened PageWriteback
  import opened PageFile
  import opened PageLoad

  /** The inode's own truncate: cut, or extend with zeros. */
  function Resize(s: seq<byte>, n: nat): (r: seq<byte>)
    ensures |r| == n
    ensures forall i: nat :: At(r, i) == if i < n then At(s, i) else 0
  {
    if n <= |s| then s[..n] else s + Zeros(n - |s|)
  }

  /** Zero a frame over [from, to). */
  function ZeroFill(data: Frame, from: nat, to: nat): (r: Frame)
    requires from <= to <= PAGE_SIZE
    ensures forall k: nat | k < PAGE_SIZE :: r[k] == if from <= k < to then 0 else data[k]
  {
    Splice(data, from, Zeros(to - from))
  }

  /** The retained tail page of a shrink. */
  function CutTail(pg: Page, keep: PageLen): Page {
    pg.(data := ZeroFill(pg.data, keep, PAGE_SIZE), valid := Min(pg.valid, keep), uptodate := true)
  }

  /** The old tail page of an extension. */
  function GrowTail(pg: Page, was: PageLen, now: PageLen): Page
    requires was <= now
  {
    pg.(data := ZeroFill(pg.data, was, now), valid := Max(pg.valid, now), uptodate := true)
  }

  function FirstRemoved(n: nat): nat {
    if n == 0 then 0 else (n - 1) / PAGE_SIZE + 1
  }

  function Shrink(m: Mapping, n: nat): Mapping
    requires n < m.size
  {
    var cut := FirstRemoved(n);
    var dirty' := set p | p in m.dirty && p < cut;
    Mapping(n,
            map p | p in m.pages && p < cut ::
              if p + 1 == cut then CutTail(m.pages[p], ValidFor(n, p)) else m.pages[p],
            dirty',
            if dirty' == {} then false else m.retained,
            Resize(m.backing, n))
  }

  function Extend(m: Mapping, n: nat): Mapping
    requires m.size < n
  {
    var m' := m.(size := n, backing := Resize(m.backing, n));
    if m.size == 0 then m'
    else
      var tail := (m.size - 1) / PAGE_SIZE;
      var was, now := ValidFor(m.size, tail), ValidFor(n, tail);
      if was < PAGE_SIZE && tail in m.pages && was < now
      then m'.(pages := m.pages[tail := GrowTail(m.pages[tail], was, now)])
      else m'
  }

  function TruncateSpec(m: Mapping, n: nat): Mapping {
    if n == m.size then m else if n < m.size then Shrink(m, n) else Extend(m, n)
  }

  // ---------------------------------------------------------------- the file is cut or padded

  lemma KeptPage(pg: Page, p: nat, size: nat, n: nat, backing: seq<byte>)
    requires PageInv(pg, p, size, backing) && PageStart(p) + PAGE_SIZE <= n
    ensures PageInv(pg, p, n, Resize(backing, n))
  {
    forall k: nat | k < PAGE_SIZE ensures BackingByte(Resize(backing, n), p, k) == BackingByte(backing, p, k) {}
  }

  lemma CutPage(pg: Page, p: nat, size: nat, n: nat, backing: seq<byte>)
    requires PageInv(pg, p, size, backing) && PageStart(p) < n <= PageStart(p) + PAGE_SIZE && !pg.writeback && n <= size
    ensures PageInv(CutTail(pg, ValidFor(n, p)), p, n, Resize(backing, n))
  {
    forall k: nat | k < PAGE_SIZE
      ensures BackingByte(Resize(backing, n), p, k) == if k < ValidFor(n, p) then BackingByte(backing, p, k) else 0 {}
  }

  lemma CutArith(n: nat, p: nat)
    requires p < FirstRemoved(n)
    ensures 0 < n
    ensures p + 1 < FirstRemoved(n) ==> PageStart(p) + PAGE_SIZE <= n
    ensures p + 1 == FirstRemoved(n) ==> PageStart(p) < n <= PageStart(p) + PAGE_SIZE
  {
  }

  lemma ShrinkInv(m: Mapping, n: nat)
    requires Quiet(m) && n < m.size
    ensures Quiet(Shrink(m, n))
  {
    var m' := Shrink(m, n);
    forall p | p in m'.pages ensures PageInv(m'.pages[p], p, n, m'.backing) && !m'.pages[p].writeback {
      assert PageInv(m.pages[p], p, m.size, m.backing);
      CutArith(n, p);
      if p + 1 == FirstRemoved(n) {
        CutPage(m.pages[p], p, m.size, n, m.backing);
      } else {
        KeptPage(m.pages[p], p, m.size, n, m.backing);
      }
    }
    assert DirtyExact(m');
  }

  lemma ShrinkView(m: Mapping, n: nat)
    requires n < m.size
    ensures View(Shrink(m, n)) == View(m)[..n]
  {
    var m' := Shrink(m, n);
    forall i: nat | i < n ensures View(m')[i] == View(m)[i] {
      var p, k := i / PAGE_SIZE, i % PAGE_SIZE;
      assert Pos(p, k) == i;
      assert p < FirstRemoved(n);
      CutArith(n, p);
      assert k < ValidFor(n, p);
      assert At(m'.backing, i) == At(m.backing, i);
      assert Span(m', p, k) == Span(m, p, k);
    }
  }

  lemma GrowPage(pg: Page, p: nat, size: nat, n: nat, backing: seq<byte>)
    requires PageInv(pg, p, size, backing) && size <= n && |backing| <= size && !pg.writeback
    ensures PageInv(pg, p, n, Resize(backing, n))
    ensures pg.valid <= ValidFor(size, p) <= ValidFor(n, p)
    ensures PageInv(GrowTail(pg, ValidFor(size, p), ValidFor(n, p)), p, n, Resize(backing, n))
    ensures GrowTail(pg, ValidFor(size, p), ValidFor(n, p)).data == pg.data
  {
    forall k: nat | k < PAGE_SIZE ensures BackingByte(Resize(backing, n), p, k) == BackingByte(backing, p, k) {}
    var g := GrowTail(pg, ValidFor(size, p), ValidFor(n, p));
    assert g.data == pg.data;
  }

  lemma ExtendSafe(m: Mapping, n: nat)
    requires Quiet(m) && m.size < n
    ensures Quiet(Extend(m, n))
    ensures View(Extend(m, n)) == Padded(View(m), n)
  {
    ExtendInv(m, n);
    var m' := Extend(m, n);
    assert SameSpans(Grown(m, n), m') by {
      hide Inv, LengthOk;
      forall p: nat, k: nat | k < PAGE_SIZE ensures Span(m', p, k) == Span(m, p, k) {
        assert At(m'.backing, Pos(p, k)) == At(m.backing, Pos(p, k));
      }
    }
    hide Extend, Span;
    GrowStep(m, n);
    SameView(Grown(m, n), m');
  }

  lemma ExtendInv(m: Mapping, n: nat)
    requires Quiet(m) && m.size < n
    ensures Quiet(Extend(m, n))
    ensures Extend(m, n).pages.Keys == m.pages.Keys && forall p | p in m.pages :: Extend(m, n).pages[p].data == m.pages[p].data
  {
    var m' := Extend(m, n);
    forall p | p in m.pages ensures PageInv(m'.pages[p], p, n, m'.backing) && m'.pages[p].data == m.pages[p].data {
      assert PageInv(m.pages[p], p, m.size, m.backing);
      GrowPage(m.pages[p], p, m.size, n, m.backing);
    }
    assert DirtyExact(m');
  }

  /** Truncate cuts the file or pads it with zeros, and nothing else. */
  lemma TruncateResizes(m: Mapping, n: nat)
    requires Quiet(m)
    ensures Quiet(TruncateSpec(m, n))
    ensures View(TruncateSpec(m, n)) == Resize(View(m), n)
  {
    if n < m.size {
      ShrinkInv(m, n);
      ShrinkView(m, n);
    } else if m.size < n {
      ExtendSafe(m, n);
    }
  }

  // ---------------------------------------------------------------- when reads stay exact

  /** A shrink marks its tail page up to date even if that page was only partly loaded. */
  ghost predicate ShrinkLeavesShort(m: Mapping, n: nat) {
    && 0 < n < m.size
    && var tail := (n - 1) / PAGE_SIZE;
       tail in m.pages && !m.pages[tail].uptodate && m.pages[tail].valid < ValidFor(n, tail)
  }

  /** An extension revisits only the old tail page. */
  ghost predicate ExtendLeavesShort(m: Mapping, n: nat) {
    exists p :: p in m.pages && m.pages[p].uptodate && m.size <= PageStart(p) < n
  }

  lemma ShrinkKeepsFull(m: Mapping, n: nat)
    requires Quiet(m) && FullValid(m) && n < m.size
    ensures FullValid(Shrink(m, n)) <==> !ShrinkLeavesShort(m, n)
  {
    var m' := Shrink(m, n);
    forall p | p in m'.pages && p + 1 < FirstRemoved(n) && m.pages[p].uptodate
      ensures m'.pages[p].valid == ValidFor(n, p)
    {
      CutArith(n, p);
      assert PageInv(m.pages[p], p, m.size, m.backing);
    }
    if 0 < n {
      var tail := (n - 1) / PAGE_SIZE;
      CutArith(n, tail);
      assert ValidFor(n, tail) <= ValidFor(m.size, tail);
    }
  }

  lemma ExtendKeepsFull(m: Mapping, n: nat)
    requires Quiet(m) && FullValid(m) && m.size < n
    ensures FullValid(Extend(m, n)) <==> !ExtendLeavesShort(m, n)
  {
    var m' := Extend(m, n);
    if ExtendLeavesShort(m, n) {
      var p :| p in m.pages && m.pages[p].uptodate && m.size <= PageStart(p) < n;
      assert m'.pages[p] == m.pages[p] && m'.pages[p].valid == 0;
    } else {
      forall p | p in m'.pages && m'.pages[p].uptodate ensures m'.pages[p].valid == ValidFor(n, p) {
        assert PageInv(m.pages[p], p, m.size, m.backing);
        if m.size == 0 || p != (m.size - 1) / PAGE_SIZE {
          assert m'.pages[p] == m.pages[p];
          assert PageStart(p) + PAGE_SIZE <= m.size || m.size <= PageStart(p);
        }
      }
    }
  }

  /** Truncation keeps all reads exact if and only if neither of the two short-page cases arises. */
  lemma TruncateKeepsReads(m: Mapping, n: nat)
    requires Quiet(m) && ReadsExact(m)
    ensures ReadsExact(TruncateSpec(m, n)) <==> !ShrinkLeavesShort(m, n) && !ExtendLeavesShort(m, n)
  {
    hide Calm, ReadsExact, FullValid, TruncateSpec, ShrinkLeavesShort, ExtendLeavesShort;
    FullReadsExact(m);
    TruncateResizes(m, n);
    FullReadsExact(TruncateSpec(m, n));
    TruncateKeepsFull(m, n);
  }

  lemma TruncateKeepsFull(m: Mapping, n: nat)
    requires Quiet(m) && FullValid(m)
    ensures FullValid(TruncateSpec(m, n)) <==> !ShrinkLeavesShort(m, n) && !ExtendLeavesShort(m, n)
  {
    if n < m.size {
      ShrinkKeepsFull(m, n);
    } else if m.size < n {
      ExtendKeepsFull(m, n);
    }
  }

  // ---------------------------------------------------------------- both cases, concretely

  /** A file of a hundred zero bytes, nothing cached. */
  function Unread(): Mapping { Mapping(100, map[], {}, false, Zeros(100)) }

  lemma UnreadFacts()
    ensures Quiet(Unread()) && FullValid(Unread()) && View(Unread()) == Zeros(100)
  {
  }

  /** A fault on page 0 loads a window of two pages although the file ends in page 0; extending the file to 5000
      bytes leaves page 1 empty, and a read across it no longer completes. */
  lemma ExtendStopsReads() returns (m: Mapping)
    ensures Preloaded(Unread(), m, 0, 2) && Quiet(m) && ReadsExact(m)
    ensures ExtendLeavesShort(m, 5000) && ReadSpec(TruncateSpec(m, 5000), 0, 5000) == Spin
  {
    UnreadFacts();
    var pg0, pg1 := PreloadPage(FRESH, 0, 100, Zeros(100)), PreloadPage(FRESH, 1, 100, Zeros(100));
    m := Unread().(pages := map[0 := pg0, 1 := pg1]);
    assert pg1.uptodate && pg1.valid == 0 && m.pages[1] == pg1;
    assert Preloaded(Unread(), m, 0, 2);
    assert m.size <= PageStart(1) < 5000;
    assert ExtendLeavesShort(m, 5000);
    var m' := TruncateSpec(m, 5000);
    assert m'.size == 5000 && 1 in m'.pages && m'.pages[1] == pg1;
    hide Preloaded, PreloadPage, Unread, Calm, FullValid, View, TruncateSpec, ReadPages, ReadsExact, ExtendLeavesShort;
    PreloadSafe(Unread(), m, 0, 2);
    FullReadsExact(m);
    TruncateResizes(m, 5000);
    CalmInv(m');
    assert Pos(1, 0) == 4096;
    assert !Covers(m', 0, 5000);
    ReadPagesExact(m', 0, 5000);
  }

  /** One byte written at 9000 and not yet written back. */
  function Sparse(): Mapping { WriteSpec(Unread(), 9000, [1]) }

  lemma SparseFacts()
    ensures Quiet(Sparse()) && FullValid(Sparse())
    ensures var m := Sparse(); m.size == 9001 && m.backing == Zeros(100) && 0 !in m.pages && 1 !in m.pages
  {
    UnreadFacts();
    WriteOverlays(Unread(), 9000, [1]);
    WriteKeepsFull(Unread(), 9000, [1]);
    var n := FirstChunk(9000, 1);
    assert n == 1 && PageOf(9000) == 2;
    var g := Unread().(size := 9001);
    assert PutAll(PutChunk(g, 2, 808, [1]), 9001, []) == PutChunk(g, 2, 808, [1]);
    assert [1][..1] == [1] && [1][1..] == [];
  }

  /** A fault on page 0 of that file: a window of two pages is loaded, then page 0 is completed. */
  ghost function Window(): Mapping {
    var m := Sparse();
    m.(pages := m.pages[0 := PreloadPage(FRESH, 0, 9001, Zeros(100))][1 := PreloadPage(FRESH, 1, 9001, Zeros(100))])
  }

  ghost function Faulted(): Mapping { LoadPage(Window(), 0) }

  lemma FaultedFacts()
    ensures Preloaded(Sparse(), Window(), 0, 2)
    ensures Quiet(Faulted()) && ReadsExact(Faulted()) && Faulted().size == 9001
    ensures 1 in Faulted().pages && Faulted().pages[1] == PreloadPage(FRESH, 1, 9001, Zeros(100))
  {
    SparseFacts();
    hide Sparse, Calm, ReadsExact, PreloadPage, View, Fill;
    assert Preloaded(Sparse(), Window(), 0, 2);
    PreloadSafe(Sparse(), Window(), 0, 2);
    LoadQuiet(Window(), 0);
    FullReadsExact(Faulted());
  }

  /** The inode ends before page 1, so the window left it unloaded; cutting the file to 8000 bytes marks it up
      to date as it is, and a read of it then returns nothing. */
  lemma ShrinkShortensReads()
    ensures Quiet(Faulted()) && ReadsExact(Faulted()) && ShrinkLeavesShort(Faulted(), 8000)
    ensures var m := TruncateSpec(Faulted(), 8000); |View(m)| == 8000 && ReadSpec(m, 4096, 3904) == Data([])
  {
    FaultedFacts();
    hide Faulted, Calm, ReadsExact, View;
    var m := TruncateSpec(Faulted(), 8000);
    TruncateResizes(Faulted(), 8000);
    assert m.pages[1] == CutTail(Faulted().pages[1], 3904);
    assert m.pages[1].uptodate && m.pages[1].valid == 0 && m.size == 8000;
    assert WithinPage(4096, 3904);
  }
}
