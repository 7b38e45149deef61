/**
 Loading a range of pages: adjacent missing pages are read from the inode with one request per
 run, and the outcome per page does not depend on how the runs were formed.
 */
module PageLoad {
  import opened Basics
  import opened Bytes
  import opened PageCache
  import opened PageWriteback
  import opened PageFile

  /** What a range load leaves of one page: untouched if up to date, otherwise filled as far as
      the inode reaches and up to date only when that is all the file holds there. */
  function PreloadPage(pg: Page, p: nat, size: nat, backing: seq<byte>): Page {
    if pg.uptodate then pg
    else
      var n: PageLen := ReadCount(backing, PageStart(p), ValidFor(size, p));
      pg.(data := FillData(pg.data, p, n, backing), valid := n, uptodate := n == ValidFor(size, p))
  }

  /** `m'` is `m` with every page of the range preloaded. */
  ghost predicate Preloaded(m: Mapping, m': Mapping, first: nat, count: nat) {
    && m' == m.(pages := m'.pages)
    && forall p: nat ::
         if first <= p < first + count
         then p in m'.pages && m'.pages[p] == PreloadPage(PageOrFresh(m, p), p, m.size, m.backing)
         else (p in m'.pages <==> p in m.pages) && (p in m.pages ==> m'.pages[p] == m.pages[p])
  }

  lemma PreloadPageSafe(pg: Page, p: nat, size: nat, backing: seq<byte>)
    requires |backing| <= size && !pg.dirty && !pg.writeback && pg.pins == 0 && !pg.uptodate
    requires pg == FRESH || PageInv(pg, p, size, backing)
    ensures PageInv(PreloadPage(pg, p, size, backing), p, size, backing)
    ensures Agrees(PreloadPage(pg, p, size, backing), p, backing)
  {
    var pg' := PreloadPage(pg, p, size, backing);
    forall k: nat | k < PAGE_SIZE ensures pg'.data[k] == BackingByte(backing, p, k) {
      if pg != FRESH { assert Agrees(pg, p, backing); }
    }
  }

  lemma PreloadedAt(m: Mapping, m': Mapping, first: nat, count: nat, p: nat)
    requires Inv(m) && NoneInFlight(m) && Preloaded(m, m', first, count) && p in m'.pages
    ensures PageInv(m'.pages[p], p, m.size, m.backing) && !m'.pages[p].writeback
    ensures m'.pages[p].dirty <==> p in m.pages && m.pages[p].dirty
    ensures forall k: nat | k < PAGE_SIZE :: Span(m', p, k) == Span(m, p, k)
    ensures m'.pages[p].dirty ==> m'.pages[p] == m.pages[p]
    ensures if p in m.pages && m.pages[p].uptodate then m'.pages[p] == m.pages[p]
            else m'.pages[p].uptodate ==> m'.pages[p].valid == ValidFor(m.size, p)
  {
    if p in m.pages { assert PageInv(m.pages[p], p, m.size, m.backing); }
    if first <= p < first + count {
      var pg := PageOrFresh(m, p);
      if !pg.uptodate { PreloadPageSafe(pg, p, m.size, m.backing); }
    }
  }

  /** A range load shows in no read: the file, the coverage of up-to-date pages and the
      exactness of reads are as before. */
  lemma PreloadSafe(m: Mapping, m': Mapping, first: nat, count: nat)
    requires Quiet(m) && Preloaded(m, m', first, count)
    ensures Quiet(m') && View(m') == View(m)
    ensures FullValid(m) ==> FullValid(m')
  {
    PreloadInv(m, m', first, count);
    PreloadLength(m, m', first, count);
    hide PageInv, PreloadPage;
    forall p: nat, k: nat | k < PAGE_SIZE ensures Span(m', p, k) == Span(m, p, k) {
      if p in m'.pages { PreloadedAt(m, m', first, count, p); }
    }
    SameView(m, m');
    forall p | p in m'.pages && m'.pages[p].uptodate && FullValid(m) ensures m'.pages[p].valid == ValidFor(m.size, p) {
      PreloadedAt(m, m', first, count, p);
    }
  }

  lemma PreloadInv(m: Mapping, m': Mapping, first: nat, count: nat)
    requires Inv(m) && NoneInFlight(m) && Preloaded(m, m', first, count)
    ensures Inv(m') && NoneInFlight(m')
  {
    hide PageInv, PreloadPage;
    forall p | p in m'.pages
      ensures PageInv(m'.pages[p], p, m.size, m.backing) && !m'.pages[p].writeback
    { PreloadedAt(m, m', first, count, p); }
    forall p: nat ensures p in m.dirty <==> p in m'.pages && m'.pages[p].dirty {
      if p in m'.pages { PreloadedAt(m, m', first, count, p); }
    }
  }

  lemma PreloadLength(m: Mapping, m': Mapping, first: nat, count: nat)
    requires Inv(m) && NoneInFlight(m) && LengthOk(m, {}) && Preloaded(m, m', first, count)
    ensures LengthOk(m', {})
  {
    hide PageInv, PreloadPage;
    var tail := if m.size == 0 then 0 else (m.size - 1) / PAGE_SIZE;
    if tail in m.pages && m.pages[tail].dirty {
      assert tail in m'.pages;
      PreloadedAt(m, m', first, count, tail);
    }
  }

  lemma PreloadCovers(m: Mapping, m': Mapping, first: nat, count: nat, off: nat, end: nat)
    requires Quiet(m) && Preloaded(m, m', first, count) && end <= m.size
    ensures Covers(m', off, end) <==> Covers(m, off, end)
  {
    if Covers(m, off, end) {
      forall q: nat, k: nat | k < PAGE_SIZE && off <= Pos(q, k) < end && q in m'.pages && m'.pages[q].uptodate
        ensures k < m'.pages[q].valid
      {
        PreloadedAt(m, m', first, count, q);
      }
    }
    if Covers(m', off, end) {
      forall q: nat, k: nat | k < PAGE_SIZE && off <= Pos(q, k) < end && q in m.pages && m.pages[q].uptodate
        ensures k < m.pages[q].valid
      {
        assert q in m'.pages;
        PreloadedAt(m, m', first, count, q);
      }
    }
  }

  // ---------------------------------------------------------------- one request per run

  /** How many bytes a run request for pages [a, b] reads. */
  function RunLen(size: nat, a: nat, b: nat): nat {
    if Min(size, PageStart(b) + PAGE_SIZE) <= PageStart(a) then 0
    else Min(size, PageStart(b) + PAGE_SIZE) - PageStart(a)
  }

  /** What pages [a, b] hold of a file, page by page. */
  ghost function HeldBytes(size: nat, a: nat, b: nat): nat
    requires a <= b
    decreases b - a
  {
    ValidFor(size, b) + if a == b then 0 else HeldBytes(size, a, b - 1)
  }

  /** A run asks for exactly the bytes of its pages. */
  lemma {:induction false} RunLenExact(size: nat, a: nat, b: nat)
    requires a <= b
    ensures RunLen(size, a, b) == HeldBytes(size, a, b)
    decreases b - a
  {
    if a < b {
      RunLenExact(size, a, b - 1);
    }
  }

  /** The valid bytes that completing a run gives page `p`. */
  function RunValid(size: nat, backing: seq<byte>, a: nat, b: nat, p: nat): PageLen
    requires a <= p <= b
  {
    var read := ReadCount(backing, PageStart(a), RunLen(size, a, b));
    var skip := (p - a) * PAGE_SIZE;
    Min(if read <= skip then 0 else read - skip, ValidFor(size, p))
  }

  /** Merging pages into a run reads no more and no less of any page than reading it alone. */
  lemma RunIsPageByPage(size: nat, backing: seq<byte>, a: nat, b: nat, p: nat)
    requires a <= p <= b
    ensures RunValid(size, backing, a, b, p) == ReadCount(backing, PageStart(p), ValidFor(size, p))
  {
  }

  // ---------------------------------------------------------------- the load in progress

  /** The pages of `keys` are resident and those of `done` have been completed. */
  ghost predicate Loading(m: Mapping, m': Mapping, keys: set<nat>, done: set<nat>) {
    && m' == m.(pages := m'.pages) && m'.pages.Keys == keys
    && forall q | q in keys ::
         m'.pages[q] == if q in done then PreloadPage(PageOrFresh(m, q), q, m.size, m.backing) else PageOrFresh(m, q)
  }

  /** A page enters the table. */
  lemma LoadingCreates(m: Mapping, m': Mapping, keys: set<nat>, p: nat)
    requires Loading(m, m', keys, {}) && m.pages.Keys <= keys && p !in keys
    ensures Loading(m, m'.(pages := m'.pages[p := FRESH]), keys + {p}, {})
  {
  }

  /** A page of a run is completed. */
  lemma LoadingStep(m: Mapping, m': Mapping, keys: set<nat>, done: set<nat>, p: nat, n: PageLen)
    requires Loading(m, m', keys, done) && p in keys && p !in done && !PageOrFresh(m, p).uptodate
    requires n == ReadCount(m.backing, PageStart(p), ValidFor(m.size, p))
    ensures var pg := m'.pages[p].(data := FillData(m'.pages[p].data, p, n, m.backing), valid := n,
                                   uptodate := n == ValidFor(m.size, p));
            Loading(m, m'.(pages := m'.pages[p := pg]), keys, done + {p})
  {
  }

  lemma LoadingEnds(m: Mapping, m': Mapping, keys: set<nat>, done: set<nat>, first: nat, count: nat)
    requires Loading(m, m', keys, done)
    requires forall q: nat :: q in keys <==> q in m.pages || first <= q < first + count
    requires forall q: nat :: q in done <==> first <= q < first + count && !PageOrFresh(m, q).uptodate
    ensures Preloaded(m, m', first, count)
  {
  }
}
