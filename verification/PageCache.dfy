/**
 The page cache of one inode: resident pages over a backing file.

 A page carries the state bits of the source (UPTODATE, DIRTY, WRITEBACK), its redirty flag,
 pin and map counts, the CLOCK reference bit, its frame and the number of valid bytes.
 The mapping carries the page table, the cached file size, the set of dirty page indices
 and the retained flag that the inode cache consults before dropping the inode.
 */
module PageCache {
  import opened Basics
  import opened Bytes

  const PAGE_SIZE: nat := 4096

  /** The contents of one physical page frame. */
  type Frame = s: seq<byte> | |s| == PAGE_SIZE witness Zeros(PAGE_SIZE)

  /** A byte count within one page. */
  type PageLen = n: nat | n <= PAGE_SIZE

  datatype Page = Page(
    data: Frame,
    valid: PageLen,
    uptodate: bool,
    dirty: bool,
    writeback: bool,
    redirtied: bool,
    pins: nat,
    maps: nat,
    ref: bool)

  datatype Mapping = Mapping(
    size: nat,
    pages: map<nat, Page>,
    dirty: set<nat>,
    retained: bool,
    backing: seq<byte>)

  function PageStart(p: nat): nat { p * PAGE_SIZE }

  /** How many bytes of page `p` lie inside a file of length `size`. */
  function ValidFor(size: nat, p: nat): PageLen {
    if size <= PageStart(p) then 0 else Min(size - PageStart(p), PAGE_SIZE)
  }

  /** File position of byte `k` of page `p`. */
  function Pos(p: nat, k: nat): nat { PageStart(p) + k }

  function PageOf(i: nat): nat { i / PAGE_SIZE }

  /** How much of `len` bytes at `off` falls on the first page. */
  function FirstChunk(off: nat, len: nat): nat {
    Min(PAGE_SIZE - off % PAGE_SIZE, len)
  }

  function BackingByte(backing: seq<byte>, p: nat, k: nat): byte { At(backing, Pos(p, k)) }

  // ---------------------------------------------------------------- the file behind the cache

  /** The byte a reader should see at byte `k` of page `p`: the resident page's, else the backing
      file's, else zero. */
  function Span(m: Mapping, p: nat, k: nat): byte
    requires k < PAGE_SIZE
  {
    if p in m.pages then m.pages[p].data[k] else BackingByte(m.backing, p, k)
  }

  /** The whole file as one byte string. */
  function View(m: Mapping): (v: seq<byte>)
    ensures |v| == m.size
  {
    seq(m.size, i requires 0 <= i < m.size => Span(m, i / PAGE_SIZE, i % PAGE_SIZE))
  }

  ghost predicate SameSpans(m: Mapping, m': Mapping) {
    forall p: nat, k: nat | k < PAGE_SIZE :: Span(m', p, k) == Span(m, p, k)
  }

  lemma SameView(m: Mapping, m': Mapping)
    requires m.size == m'.size && SameSpans(m, m')
    ensures View(m') == View(m)
  {
  }

  // ---------------------------------------------------------------- invariant

  /** The page's frame equals the backing file on the page's span. */
  ghost predicate Agrees(pg: Page, p: nat, backing: seq<byte>)
  {
    forall k: nat | k < PAGE_SIZE :: pg.data[k] == BackingByte(backing, p, k)
  }

  ghost predicate PageInv(pg: Page, p: nat, size: nat, backing: seq<byte>) {
    && pg.valid <= ValidFor(size, p)
    && (forall k: nat | pg.valid <= k < PAGE_SIZE :: pg.data[k] == 0)
    && (forall k: nat | pg.valid <= k < PAGE_SIZE :: BackingByte(backing, p, k) == 0)
    && (!pg.dirty ==> Agrees(pg, p, backing))
    && (pg.dirty ==> pg.uptodate)
    && (pg.writeback ==> pg.dirty)
    && pg.pins == (if pg.writeback then 1 else 0)
  }

  ghost predicate DirtyExact(m: Mapping) {
    && (forall p: nat :: p in m.dirty <==> p in m.pages && m.pages[p].dirty)
    && (m.retained <==> m.dirty != {})
  }

  ghost predicate Inv(m: Mapping) {
    && (forall p | p in m.pages :: PageInv(m.pages[p], p, m.size, m.backing))
    && DirtyExact(m)
    && |m.backing| <= m.size
  }

  // ---------------------------------------------------------------- operations on one page

  /** The backing inode's positional read: stops at end of file. */
  function ReadCount(backing: seq<byte>, off: nat, len: nat): nat {
    if |backing| <= off then 0 else Min(len, |backing| - off)
  }

  const FRESH: Page := Page(Zeros(PAGE_SIZE), 0, false, false, false, false, 0, 0, true)

  function PageOrFresh(m: Mapping, p: nat): Page {
    if p in m.pages then m.pages[p] else FRESH
  }

  /** Fill a frame from the backing file; bytes past the backing end keep their old value. */
  function Fill(pg: Page, p: nat, valid: PageLen, backing: seq<byte>): Page {
    var n := ReadCount(backing, PageStart(p), valid);
    pg.(data := FillData(pg.data, p, n, backing), valid := Max(valid, n), uptodate := true)
  }

  function FillData(frame: Frame, p: nat, n: nat, backing: seq<byte>): (r: Frame)
    ensures forall k: nat | k < PAGE_SIZE :: r[k] == if k < n then BackingByte(backing, p, k) else frame[k]
  {
    var r := seq(PAGE_SIZE, k requires 0 <= k < PAGE_SIZE => if k < n then BackingByte(backing, p, k) else frame[k]);
    assert |r| == PAGE_SIZE;
    r
  }

  function LoadPage(m: Mapping, p: nat): (r: Mapping)
    ensures p in r.pages && r.pages[p].uptodate && r.size == m.size
  {
    var pg := PageOrFresh(m, p).(ref := true);
    if pg.uptodate then m.(pages := m.pages[p := pg])
    else m.(pages := m.pages[p := Fill(pg, p, ValidFor(m.size, p), m.backing)])
  }

  /** Mark page `p` dirty; a page already under write-back is flagged for another pass. */
  function MarkDirty(m: Mapping, p: nat): Mapping
    requires p in m.pages
  {
    var pg := m.pages[p].(ref := true);
    if pg.dirty then
      m.(pages := m.pages[p := if pg.writeback then pg.(redirtied := true) else pg])
    else
      m.(pages := m.pages[p := pg.(dirty := true, uptodate := true)],
         dirty := m.dirty + {p}, retained := true)
  }

  function Splice(data: Frame, off: nat, chunk: seq<byte>): (r: Frame)
    requires off + |chunk| <= PAGE_SIZE
    ensures forall k | 0 <= k < PAGE_SIZE :: r[k] == if off <= k < off + |chunk| then chunk[k - off] else data[k]
  {
    data[..off] + chunk + data[off + |chunk|..]
  }

  /** One page-locked copy of a user write into an up-to-date page. */
  function CopyIn(m: Mapping, p: nat, off: nat, chunk: seq<byte>): (r: Mapping)
    requires p in m.pages && off + |chunk| <= PAGE_SIZE
    ensures p in r.pages && r.size == m.size && r.backing == m.backing
  {
    var pg := m.pages[p];
    var pg' := pg.(data := Splice(pg.data, off, chunk), valid := Max(pg.valid, ValidFor(m.size, p)));
    MarkDirty(m.(pages := m.pages[p := pg']), p)
  }

  /** Take page `p` for write-back. */
  function Begin(m: Mapping, p: nat): Mapping
    requires p in m.pages
  {
    var pg := m.pages[p];
    m.(pages := m.pages[p := pg.(writeback := true, redirtied := false, pins := pg.pins + 1)])
  }

  /** Completion of a page's write-back. */
  function Finish(m: Mapping, p: nat, ok: bool): Mapping
    requires p in m.pages
  {
    var pg := m.pages[p];
    var released := pg.(writeback := false, pins := if pg.pins == 0 then 0 else pg.pins - 1);
    if !pg.dirty then m.(pages := m.pages[p := released])
    else if !ok || pg.maps > 0 || pg.redirtied then
      m.(pages := m.pages[p := released], dirty := m.dirty + {p}, retained := true)
    else
      var rest := m.dirty - {p};
      m.(pages := m.pages[p := released.(dirty := false)], dirty := rest,
         retained := if rest == {} then false else m.retained)
  }

  /** Unlink a page from the mapping. */
  function Evict(m: Mapping, p: nat): Mapping {
    m.(pages := m.pages - {p})
  }

  /** What the reclaimer demands of a page before it unlinks it. */
  predicate Evictable(pg: Page) {
    pg.pins == 0 && pg.maps == 0 && !pg.writeback && !pg.ref && !pg.dirty
  }
}
