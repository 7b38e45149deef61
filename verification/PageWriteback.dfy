/**
 Write-back of the pages of one mapping, phase by phase: taking a page (with a private copy of its
 bytes for a batch, or by reference for a single page), the device write (complete, short or
 failed), and completion. Each operation is shown to keep the pages, the pages in flight and the
 length of the file consistent; `PageSystem` interleaves them.
 */
module PageWriteback {
  import opened Basics
  import opened Bytes
  import opened PageCache

  /** One page between its Begin and its Finish. `live` marks the single-page path, which hands
      the frame itself to the device; a batch captured `snap` under the page lock. */
  datatype Flight = Flight(live: bool, snap: seq<byte>, len: PageLen, done: bool, ok: bool)

  /** The bytes of `count` consecutive captured pages, in file order. */
  ghost function BatchData(flights: map<nat, Flight>, first: nat, count: nat): seq<byte>
    requires forall q | first <= q < first + count :: q in flights
  {
    if count == 0 then [] else BatchData(flights, first, count - 1) + flights[first + count - 1].snap
  }

  /** A batch is a run of captured, unwritten pages, all full but the last. */
  ghost predicate IsBatch(flights: map<nat, Flight>, first: nat, count: nat) {
    && 0 < count
    && (forall q | first <= q < first + count ::
          q in flights && !flights[q].live && !flights[q].done && |flights[q].snap| == flights[q].len)
    && (forall q | first <= q < first + count - 1 :: flights[q].len == PAGE_SIZE)
  }

  ghost function SetPage(m: Mapping, p: nat, pg: Page): Mapping {
    m.(pages := m.pages[p := pg])
  }

  ghost function StoreBytes(m: Mapping, off: nat, d: seq<byte>): Mapping {
    m.(backing := Overlay(m.backing, off, d))
  }

  /** Record the outcome of a device write on the flights it covered. */
  ghost function Settle(flights: map<nat, Flight>, first: nat, count: nat, ok: bool): map<nat, Flight> {
    map p | p in flights ::
      if first <= p < first + count then flights[p].(done := true, ok := ok) else flights[p]
  }

  ghost function Captured(pg: Page, live: bool): Flight {
    Flight(live, if live then [] else pg.data[..pg.valid], pg.valid, false, false)
  }

  // ---------------------------------------------------------------- invariant

  /** The backing file extends at least to the page's last valid byte. */
  ghost predicate Reaches(pg: Page, p: nat, backing: seq<byte>) {
    pg.valid == 0 || Pos(p, pg.valid) <= |backing|
  }

  ghost predicate FlightInv(f: Flight, pg: Page, p: nat, backing: seq<byte>) {
    && f.len <= pg.valid
    && (!f.live ==> |f.snap| == f.len)
    && (!f.done && !pg.redirtied ==> f.len == pg.valid && (!f.live ==> f.snap == pg.data[..pg.valid]))
    && (f.done && f.ok && !pg.redirtied ==> Agrees(pg, p, backing) && Reaches(pg, p, backing))
  }

  /** The pages in flight are exactly those marked WRITEBACK, and each is in a consistent phase. */
  ghost predicate FlightsOk(m: Mapping, flights: map<nat, Flight>) {
    && (forall p: nat :: p in flights <==> p in m.pages && m.pages[p].writeback)
    && (forall p | p in flights :: FlightInv(flights[p], m.pages[p], p, m.backing))
  }

  /** The cached length is on the device, or a dirty page will carry it there, or its writer is
      still copying. */
  ghost predicate LengthOk(m: Mapping, pending: set<nat>) {
    || m.size <= |m.backing|
    || m.size in pending
    || var tail := (m.size - 1) / PAGE_SIZE;
       tail in m.pages && m.pages[tail].dirty && m.pages[tail].valid == ValidFor(m.size, tail)
  }

  /** Pages, flights and length are consistent. */
  ghost predicate Sound(m: Mapping, flights: map<nat, Flight>, pending: set<nat>) {
    Inv(m) && FlightsOk(m, flights) && LengthOk(m, pending)
  }

  // ---------------------------------------------------------------- mapping-level facts

  /** Bytes past the cached size read as zero. */
  lemma ZeroPastSize(m: Mapping, p: nat, k: nat)
    requires Inv(m) && k < PAGE_SIZE && m.size <= Pos(p, k)
    ensures Span(m, p, k) == 0
  {
    if p in m.pages {
      assert PageInv(m.pages[p], p, m.size, m.backing);
    }
  }

  /** Replacing one page by another that satisfies the page invariant with the same dirtiness. */
  lemma SetPageInv(m: Mapping, p: nat, pg: Page)
    requires Inv(m) && PageInv(pg, p, m.size, m.backing)
    requires pg.dirty == (p in m.pages && m.pages[p].dirty)
    ensures Inv(SetPage(m, p, pg))
  {
  }

  /** A frame filled from the backing file agrees with it. */
  lemma FillAgrees(pg: Page, p: nat, size: nat, backing: seq<byte>)
    requires |backing| <= size && !pg.dirty && !pg.writeback && pg.pins == 0
    requires pg == FRESH || PageInv(pg.(ref := false), p, size, backing)
    ensures PageInv(Fill(pg, p, ValidFor(size, p), backing), p, size, backing)
    ensures Agrees(Fill(pg, p, ValidFor(size, p), backing), p, backing)
  {
    var pg' := Fill(pg, p, ValidFor(size, p), backing);
    forall k: nat | k < PAGE_SIZE ensures pg'.data[k] == BackingByte(backing, p, k) {
      if pg != FRESH { assert Agrees(pg.(ref := false), p, backing); }
    }
  }

  lemma LoadStep(m: Mapping, p: nat)
    requires Inv(m)
    ensures Inv(LoadPage(m, p)) && View(LoadPage(m, p)) == View(m)
  {
    var pg := PageOrFresh(m, p).(ref := true);
    assert p in m.pages ==> PageInv(m.pages[p], p, m.size, m.backing);
    var pg' := if pg.uptodate then pg else Fill(pg, p, ValidFor(m.size, p), m.backing);
    if !pg.uptodate {
      assert pg == FRESH || PageInv(pg.(ref := false), p, m.size, m.backing);
      FillAgrees(pg, p, m.size, m.backing);
    }
    assert PageInv(pg', p, m.size, m.backing);
    assert LoadPage(m, p) == SetPage(m, p, pg');
    SetPageInv(m, p, pg');
    SameView(m, SetPage(m, p, pg'));
  }

  lemma DropStep(m: Mapping, p: nat)
    requires Inv(m) && p in m.pages && !m.pages[p].dirty
    ensures Inv(Evict(m, p)) && View(Evict(m, p)) == View(m)
  {
    assert Agrees(m.pages[p], p, m.backing);
    SameView(m, Evict(m, p));
  }

  /** A write whose bytes all fall on valid bytes of dirty pages. */
  ghost predicate OnDirty(m: Mapping, off: nat, n: nat) {
    && off + n <= Max(off, m.size)
    && forall p: nat, k: nat | k < PAGE_SIZE && off <= Pos(p, k) < off + n ::
         p in m.pages && m.pages[p].dirty && k < m.pages[p].valid
  }

  /** A device write inside the valid bytes of dirty pages does not show through the cache. */
  lemma StoreStep(m: Mapping, off: nat, d: seq<byte>)
    requires Inv(m) && OnDirty(m, off, |d|)
    ensures Inv(StoreBytes(m, off, d)) && View(StoreBytes(m, off, d)) == View(m)
  {
    var m' := StoreBytes(m, off, d);
    forall p: nat, k: nat | k < PAGE_SIZE && (p !in m.pages || !m.pages[p].dirty || m.pages[p].valid <= k)
      ensures BackingByte(m'.backing, p, k) == BackingByte(m.backing, p, k)
    {
      OverlayAt(m.backing, off, d, Pos(p, k));
    }
    forall p | p in m.pages ensures PageInv(m.pages[p], p, m.size, m'.backing) {
      assert PageInv(m.pages[p], p, m.size, m.backing);
    }
    SameView(m, m');
  }

  lemma BeginStep(m: Mapping, p: nat)
    requires Inv(m) && p in m.pages && m.pages[p].dirty && !m.pages[p].writeback
    ensures Inv(Begin(m, p)) && View(Begin(m, p)) == View(m)
  {
    assert PageInv(m.pages[p], p, m.size, m.backing);
    assert PageInv(Begin(m, p).pages[p], p, m.size, m.backing);
    SetPageInv(m, p, Begin(m, p).pages[p]);
    SameView(m, Begin(m, p));
  }

  lemma FinishStep(m: Mapping, p: nat, ok: bool)
    requires Inv(m) && p in m.pages && m.pages[p].writeback
    requires ok && !m.pages[p].redirtied ==> Agrees(m.pages[p], p, m.backing)
    ensures Inv(Finish(m, p, ok)) && View(Finish(m, p, ok)) == View(m)
  {
    var m' := Finish(m, p, ok);
    assert PageInv(m.pages[p], p, m.size, m.backing);
    assert PageInv(m'.pages[p], p, m.size, m.backing);
    SameView(m, m');
  }

  // ---------------------------------------------------------------- flights

  /** Replacing one page keeps the flights when that page's own flight stays consistent. */
  lemma FlightsKept(m: Mapping, m': Mapping, flights: map<nat, Flight>, p: nat)
    requires FlightsOk(m, flights) && p in m'.pages
    requires m'.pages == m.pages[p := m'.pages[p]] && m'.backing == m.backing
    requires m'.pages[p].writeback == (p in m.pages && m.pages[p].writeback)
    requires p in flights ==> FlightInv(flights[p], m'.pages[p], p, m.backing)
    ensures FlightsOk(m', flights)
  {
    forall q | q in flights ensures FlightInv(flights[q], m'.pages[q], q, m'.backing) {
      if q != p { assert FlightInv(flights[q], m.pages[q], q, m.backing); }
    }
  }

  /** A device write leaves a page that lies outside it exactly as it was. */
  lemma OutsideWrite(f: Flight, pg: Page, q: nat, b: seq<byte>, off: nat, d: seq<byte>)
    requires FlightInv(f, pg, q, b)
    requires off + |d| <= PageStart(q) || PageStart(q) + PAGE_SIZE <= off
    ensures FlightInv(f, pg, q, Overlay(b, off, d))
  {
    forall k: nat | k < PAGE_SIZE ensures BackingByte(Overlay(b, off, d), q, k) == BackingByte(b, q, k) {
      OverlayAt(b, off, d, Pos(q, k));
    }
  }

  /** A batch's bytes are laid out page after page. */
  lemma {:induction false} BatchByte(flights: map<nat, Flight>, first: nat, count: nat)
    requires IsBatch(flights, first, count)
    ensures |BatchData(flights, first, count)| == (count - 1) * PAGE_SIZE + flights[first + count - 1].len
    ensures forall q, k: nat | first <= q < first + count && k < flights[q].len ::
              BatchData(flights, first, count)[(q - first) * PAGE_SIZE + k] == flights[q].snap[k]
  {
    if count > 1 {
      BatchByte(flights, first, count - 1);
      var before, all := BatchData(flights, first, count - 1), BatchData(flights, first, count);
      assert all == before + flights[first + count - 1].snap;
      forall q, k: nat | first <= q < first + count && k < flights[q].len
        ensures all[(q - first) * PAGE_SIZE + k] == flights[q].snap[k]
      {
        if q < first + count - 1 {
          assert (q - first) * PAGE_SIZE + k < |before|;
        }
      }
    } else {
      assert BatchData(flights, first, 0) == [];
    }
  }

  /** Every byte a batch writes belongs to a dirty page's valid prefix. */
  lemma BatchOnDirty(m: Mapping, flights: map<nat, Flight>, first: nat, count: nat, written: nat)
    requires Inv(m) && FlightsOk(m, flights) && IsBatch(flights, first, count)
    requires written <= |BatchData(flights, first, count)|
    ensures OnDirty(m, PageStart(first), written)
  {
    var last := first + count - 1;
    assert |BatchData(flights, first, count)| == (count - 1) * PAGE_SIZE + flights[last].len by {
      BatchByte(flights, first, count);
    }
    forall p: nat, k: nat | k < PAGE_SIZE && PageStart(first) <= Pos(p, k) < PageStart(first) + written
      ensures p in m.pages && m.pages[p].dirty && k < m.pages[p].valid && Pos(p, k) < m.size
    {
      assert first <= p <= last;
      assert PageInv(m.pages[p], p, m.size, m.backing);
      assert FlightInv(flights[p], m.pages[p], p, m.backing);
    }
    if written != 0 {
      var i := PageStart(first) + written - 1;
      assert i == Pos(i / PAGE_SIZE, i % PAGE_SIZE);
    }
  }

  /** One byte of a page after a complete batch write: the captured byte, or what was there before. */
  lemma BatchLandsAt(backing: seq<byte>, flights: map<nat, Flight>, first: nat, count: nat, q: nat, k: nat)
    requires IsBatch(flights, first, count) && first <= q < first + count && k < PAGE_SIZE
    ensures var b' := Overlay(backing, PageStart(first), BatchData(flights, first, count));
            && BackingByte(b', q, k) == (if k < flights[q].len then flights[q].snap[k] else BackingByte(backing, q, k))
            && (k < flights[q].len ==> Pos(q, k) < |b'|)
  {
    var data := BatchData(flights, first, count);
    var at := (q - first) * PAGE_SIZE + k;
    assert if k < flights[q].len then at < |data| && data[at] == flights[q].snap[k] else |data| <= at by {
      BatchByte(flights, first, count);
    }
    OverlayAt(backing, PageStart(first), data, Pos(q, k));
    assert Pos(q, k) - PageStart(first) == at;
  }

  /** A captured page that was not rewritten is on the device once its whole batch is. */
  lemma BatchPage(m: Mapping, flights: map<nat, Flight>, first: nat, count: nat, q: nat)
    requires Inv(m) && FlightsOk(m, flights) && IsBatch(flights, first, count) && first <= q < first + count
    requires !m.pages[q].redirtied
    ensures var b' := Overlay(m.backing, PageStart(first), BatchData(flights, first, count));
            Agrees(m.pages[q], q, b') && Reaches(m.pages[q], q, b')
  {
    var pg := m.pages[q];
    var b' := Overlay(m.backing, PageStart(first), BatchData(flights, first, count));
    assert FlightInv(flights[q], pg, q, m.backing);
    assert PageInv(pg, q, m.size, m.backing);
    forall k: nat | k < PAGE_SIZE ensures pg.data[k] == BackingByte(b', q, k) {
      BatchLandsAt(m.backing, flights, first, count, q, k);
    }
    if pg.valid != 0 {
      BatchLandsAt(m.backing, flights, first, count, q, pg.valid - 1);
    }
  }

  lemma BatchFlights(m: Mapping, flights: map<nat, Flight>, first: nat, count: nat, written: nat, failed: bool)
    requires Inv(m) && FlightsOk(m, flights) && IsBatch(flights, first, count)
    requires written <= |BatchData(flights, first, count)|
    ensures var data := BatchData(flights, first, count);
            FlightsOk(StoreBytes(m, PageStart(first), data[..written]),
                      Settle(flights, first, count, !failed && written == |data|))
  {
    hide Overlay, Inv, Agrees;
    var data := BatchData(flights, first, count);
    var flights' := Settle(flights, first, count, !failed && written == |data|);
    var b' := Overlay(m.backing, PageStart(first), data[..written]);
    assert |data| <= count * PAGE_SIZE by { BatchByte(flights, first, count); }
    forall q | q in flights' ensures FlightInv(flights'[q], m.pages[q], q, b') {
      assert FlightInv(flights[q], m.pages[q], q, m.backing);
      if !(first <= q < first + count) {
        OutsideWrite(flights[q], m.pages[q], q, m.backing, PageStart(first), data[..written]);
      } else if flights'[q].ok && !m.pages[q].redirtied {
        assert data[..written] == data;
        BatchPage(m, flights, first, count, q);
      }
    }
  }

  lemma LivePage(f: Flight, pg: Page, p: nat, size: nat, backing: seq<byte>, written: nat, ok: bool)
    requires PageInv(pg, p, size, backing) && FlightInv(f, pg, p, backing) && f.live && !f.done && written <= f.len
    requires ok ==> written == f.len
    ensures FlightInv(f.(done := true, ok := ok), pg, p, Overlay(backing, PageStart(p), pg.data[..written]))
  {
    hide Overlay;
    var d := pg.data[..written];
    if ok && !pg.redirtied {
      assert written == pg.valid;
      forall k: nat | k < PAGE_SIZE ensures pg.data[k] == BackingByte(Overlay(backing, PageStart(p), d), p, k) {
        OverlayAt(backing, PageStart(p), d, Pos(p, k));
        if k < written {
          assert Pos(p, k) - PageStart(p) == k && d[k] == pg.data[k];
        } else {
          assert pg.data[k] == 0 == BackingByte(backing, p, k);
        }
      }
    }
  }

  lemma LiveFlights(m: Mapping, flights: map<nat, Flight>, p: nat, written: nat, ok: bool)
    requires Inv(m) && FlightsOk(m, flights)
    requires p in flights && flights[p].live && !flights[p].done && written <= flights[p].len
    requires ok ==> written == flights[p].len
    ensures FlightsOk(StoreBytes(m, PageStart(p), m.pages[p].data[..written]), Settle(flights, p, 1, ok))
  {
    var d := m.pages[p].data[..written];
    var flights' := Settle(flights, p, 1, ok);
    forall q | q in flights' ensures FlightInv(flights'[q], m.pages[q], q, Overlay(m.backing, PageStart(p), d)) {
      assert FlightInv(flights[q], m.pages[q], q, m.backing);
      if q != p {
        OutsideWrite(flights[q], m.pages[q], q, m.backing, PageStart(p), d);
      } else {
        assert PageInv(m.pages[p], p, m.size, m.backing);
        LivePage(flights[p], m.pages[p], p, m.size, m.backing, written, ok);
      }
    }
  }

  // ---------------------------------------------------------------- each operation

  ghost function Grown(m: Mapping, end: nat): Mapping { m.(size := Max(m.size, end)) }

  lemma GrowStep(m: Mapping, end: nat)
    requires Inv(m)
    ensures Inv(Grown(m, end)) && View(Grown(m, end)) == Padded(View(m), end)
  {
    var m' := Grown(m, end);
    forall p | p in m.pages ensures PageInv(m'.pages[p], p, m'.size, m'.backing) {
      assert PageInv(m.pages[p], p, m.size, m.backing);
    }
    forall i: nat | m.size <= i ensures Span(m, i / PAGE_SIZE, i % PAGE_SIZE) == 0 {
      ZeroPastSize(m, i / PAGE_SIZE, i % PAGE_SIZE);
    }
  }

  lemma GrowSafe(m: Mapping, flights: map<nat, Flight>, pending: set<nat>, end: nat)
    requires Sound(m, flights, pending)
    ensures Sound(Grown(m, end), flights, pending + {end}) && View(Grown(m, end)) == Padded(View(m), end)
  {
    hide Inv, Agrees, View;
    var m' := Grown(m, end);
    GrowStep(m, end);
    forall q | q in flights ensures FlightInv(flights[q], m'.pages[q], q, m'.backing) {
      assert FlightInv(flights[q], m.pages[q], q, m.backing);
    }
  }

  /** The pending writers after a copy that ends at `end`. */
  ghost function Retire(pending: set<nat>, end: nat, last: bool): set<nat> {
    if last then pending - {end} else pending
  }

  /** One page-locked copy of a user write that saw the file `seen` bytes long. */
  function CopySeen(m: Mapping, p: nat, off: nat, chunk: seq<byte>, seen: nat): (r: Mapping)
    requires p in m.pages && off + |chunk| <= PAGE_SIZE
  {
    var pg := m.pages[p];
    MarkDirty(m.(pages := m.pages[p := pg.(data := Splice(pg.data, off, chunk), valid := Max(pg.valid, ValidFor(seen, p)))]), p)
  }

  /** What such a copy leaves of its page. */
  function SeenPage(pg: Page, p: nat, off: nat, chunk: seq<byte>, seen: nat): Page
    requires off + |chunk| <= PAGE_SIZE
  {
    pg.(data := Splice(pg.data, off, chunk), valid := Max(pg.valid, ValidFor(seen, p)), dirty := true, uptodate := true, ref := true,
        redirtied := pg.redirtied || (pg.dirty && pg.writeback))
  }

  ghost function SeenMap(m: Mapping, p: nat, off: nat, chunk: seq<byte>, seen: nat): Mapping
    requires p in m.pages && off + |chunk| <= PAGE_SIZE
  {
    m.(pages := m.pages[p := SeenPage(m.pages[p], p, off, chunk, seen)],
       dirty := if m.pages[p].dirty then m.dirty else m.dirty + {p}, retained := if m.pages[p].dirty then m.retained else true)
  }

  lemma CopySeenIs(m: Mapping, p: nat, off: nat, chunk: seq<byte>, seen: nat)
    requires p in m.pages && off + |chunk| <= PAGE_SIZE && (m.pages[p].dirty ==> m.pages[p].uptodate)
    ensures CopySeen(m, p, off, chunk, seen) == SeenMap(m, p, off, chunk, seen)
  {
    hide Splice;
    var a := CopySeen(m, p, off, chunk, seen);
    assert a.pages == m.pages[p := a.pages[p]];
  }

  /** The same when the copy sees the size as it is. */
  lemma CopyInSafe(m: Mapping, pending: set<nat>, p: nat, off: nat, chunk: seq<byte>, last: bool)
    requires Inv(m) && LengthOk(m, pending) && p in m.pages && chunk != []
    requires off + |chunk| <= PAGE_SIZE && Pos(p, off) + |chunk| <= m.size
    ensures Inv(CopyIn(m, p, off, chunk)) && LengthOk(CopyIn(m, p, off, chunk), Retire(pending, Pos(p, off) + |chunk|, last))
    ensures View(CopyIn(m, p, off, chunk)) == Overlay(View(m), Pos(p, off), chunk)
  {
    assert PageInv(m.pages[p], p, m.size, m.backing);
    CopySeenIs(m, p, off, chunk, m.size);
    assert CopyIn(m, p, off, chunk) == CopySeen(m, p, off, chunk, m.size);
    hide CopyIn, CopySeen, SeenMap, View, Overlay, Inv, LengthOk;
    SeenInv(m, p, off, chunk, m.size);
    SeenLength(m, pending, Retire(pending, Pos(p, off) + |chunk|, last), p, off, chunk, m.size);
    SeenView(m, p, off, chunk, m.size);
  }

  /** A copy into a loaded page overlays the file, even under write-back and with an older size in hand. */
  lemma CopySafe(m: Mapping, flights: map<nat, Flight>, pending: set<nat>, pending': set<nat>, p: nat, off: nat, chunk: seq<byte>, seen: nat)
    requires Sound(m, flights, pending) && p in m.pages && m.pages[p].uptodate && chunk != [] && off + |chunk| <= PAGE_SIZE
    requires Pos(p, off) + |chunk| <= seen <= m.size
    requires m.size in pending ==> m.size in pending' || Pos(p, off) + |chunk| == m.size
    ensures Sound(CopySeen(m, p, off, chunk, seen), flights, pending')
    ensures View(CopySeen(m, p, off, chunk, seen)) == Overlay(View(m), Pos(p, off), chunk)
  {
    assert PageInv(m.pages[p], p, m.size, m.backing);
    CopySeenIs(m, p, off, chunk, seen);
    SeenInv(m, p, off, chunk, seen);
    SeenFlights(m, flights, p, off, chunk, seen);
    SeenLength(m, pending, pending', p, off, chunk, seen);
    hide Inv, FlightsOk, LengthOk, CopySeen, View, Overlay, SeenPage;
    SeenView(m, p, off, chunk, seen);
  }

  lemma SeenInv(m: Mapping, p: nat, off: nat, chunk: seq<byte>, seen: nat)
    requires Inv(m) && p in m.pages && off + |chunk| <= PAGE_SIZE && Pos(p, off) + |chunk| <= seen <= m.size
    ensures Inv(SeenMap(m, p, off, chunk, seen))
  {
    var m' := SeenMap(m, p, off, chunk, seen);
    assert PageInv(m.pages[p], p, m.size, m.backing);
    assert PageInv(m'.pages[p], p, m.size, m.backing);
  }

  lemma SeenFlights(m: Mapping, flights: map<nat, Flight>, p: nat, off: nat, chunk: seq<byte>, seen: nat)
    requires Inv(m) && FlightsOk(m, flights) && p in m.pages && off + |chunk| <= PAGE_SIZE
    ensures FlightsOk(SeenMap(m, p, off, chunk, seen), flights)
  {
    var m' := SeenMap(m, p, off, chunk, seen);
    assert PageInv(m.pages[p], p, m.size, m.backing);
    if p in flights { assert FlightInv(flights[p], m.pages[p], p, m.backing); }
    FlightsKept(m, m', flights, p);
  }

  lemma SeenLength(m: Mapping, pending: set<nat>, pending': set<nat>, p: nat, off: nat, chunk: seq<byte>, seen: nat)
    requires Inv(m) && LengthOk(m, pending) && p in m.pages && chunk != [] && off + |chunk| <= PAGE_SIZE
    requires Pos(p, off) + |chunk| <= seen <= m.size
    requires m.size in pending ==> m.size in pending' || Pos(p, off) + |chunk| == m.size
    ensures LengthOk(SeenMap(m, p, off, chunk, seen), pending')
  {
    assert PageInv(m.pages[p], p, m.size, m.backing);
    if Pos(p, off) + |chunk| == m.size {
      assert (m.size - 1) / PAGE_SIZE == p;
    }
  }

  lemma SeenByte(m: Mapping, p: nat, off: nat, chunk: seq<byte>, seen: nat, q: nat, k: nat)
    requires p in m.pages && off + |chunk| <= PAGE_SIZE && k < PAGE_SIZE
    ensures Span(SeenMap(m, p, off, chunk, seen), q, k) ==
            if Pos(p, off) <= Pos(q, k) < Pos(p, off) + |chunk| then chunk[Pos(q, k) - Pos(p, off)] else Span(m, q, k)
  {
    if q < p { assert Pos(q, k) < PageStart(p); }
    if q > p { assert Pos(q, k) >= PageStart(p) + PAGE_SIZE; }
  }

  lemma SeenView(m: Mapping, p: nat, off: nat, chunk: seq<byte>, seen: nat)
    requires p in m.pages && chunk != [] && off + |chunk| <= PAGE_SIZE && Pos(p, off) + |chunk| <= m.size
    ensures View(SeenMap(m, p, off, chunk, seen)) == Overlay(View(m), Pos(p, off), chunk)
  {
    hide SeenMap, Span, Overlay;
    var m', v := SeenMap(m, p, off, chunk, seen), Overlay(View(m), Pos(p, off), chunk);
    assert m'.size == m.size by { SeenSize(m, p, off, chunk, seen); }
    forall i: nat | i < |v| ensures At(v, i) == At(View(m'), i) {
      OverlayAt(View(m), Pos(p, off), chunk, i);
      assert i == Pos(i / PAGE_SIZE, i % PAGE_SIZE);
      SeenByte(m, p, off, chunk, seen, i / PAGE_SIZE, i % PAGE_SIZE);
    }
    SameBytes(v, View(m'));
  }

  lemma SeenSize(m: Mapping, p: nat, off: nat, chunk: seq<byte>, seen: nat)
    requires p in m.pages && off + |chunk| <= PAGE_SIZE
    ensures SeenMap(m, p, off, chunk, seen).size == m.size
  {
  }

  // ---------------------------------------------------------------- copying without loading

  /** The inode holds nothing but zeros of page `p` outside the `n` bytes at `off`. */
  ghost predicate NothingElse(backing: seq<byte>, p: nat, off: nat, n: nat) {
    forall k: nat | k < PAGE_SIZE && !(off <= k < off + n) :: BackingByte(backing, p, k) == 0
  }

  /** A copy into a page that is linked but was never loaded. */
  ghost function CopyBlank(m: Mapping, p: nat, off: nat, chunk: seq<byte>, seen: nat): Mapping
    requires off + |chunk| <= PAGE_SIZE
  {
    CopySeen(SetPage(m, p, FRESH), p, off, chunk, seen)
  }

  lemma CopyBlankIs(m: Mapping, p: nat, off: nat, chunk: seq<byte>, seen: nat)
    requires off + |chunk| <= PAGE_SIZE
    ensures CopyBlank(m, p, off, chunk, seen) ==
            m.(pages := m.pages[p := SeenPage(FRESH, p, off, chunk, seen)], dirty := m.dirty + {p}, retained := true)
  {
    hide Splice;
    var a := CopyBlank(m, p, off, chunk, seen);
    assert a.pages == m.pages[p := a.pages[p]];
  }

  /** Such a copy keeps everything consistent, and overlays the file if and only if the inode has no other byte
      of that page. */
  lemma BlankSafe(m: Mapping, flights: map<nat, Flight>, pending: set<nat>, pending': set<nat>, p: nat, off: nat, chunk: seq<byte>, seen: nat)
    requires Sound(m, flights, pending) && p !in m.pages && chunk != [] && off + |chunk| <= PAGE_SIZE
    requires Pos(p, off) + |chunk| <= seen <= m.size && forall k: nat | k < PAGE_SIZE && seen <= Pos(p, k) :: BackingByte(m.backing, p, k) == 0
    requires m.size in pending ==> m.size in pending' || Pos(p, off) + |chunk| == m.size
    ensures Sound(CopyBlank(m, p, off, chunk, seen), flights, pending')
    ensures View(CopyBlank(m, p, off, chunk, seen)) == Overlay(View(m), Pos(p, off), chunk) <==> NothingElse(m.backing, p, off, |chunk|)
  {
    CopyBlankIs(m, p, off, chunk, seen);
    BlankInv(m, p, off, chunk, seen);
    BlankLength(m, pending, pending', p, off, chunk, seen);
    var m' := CopyBlank(m, p, off, chunk, seen);
    FlightsKept(m, m', flights, p);
    hide Inv, LengthOk, FlightsOk, CopyBlank;
    BlankView(m, p, off, chunk, seen);
  }

  lemma BlankInv(m: Mapping, p: nat, off: nat, chunk: seq<byte>, seen: nat)
    requires Inv(m) && p !in m.pages && off + |chunk| <= PAGE_SIZE && Pos(p, off) + |chunk| <= seen <= m.size
    requires forall k: nat | k < PAGE_SIZE && seen <= Pos(p, k) :: BackingByte(m.backing, p, k) == 0
    ensures Inv(CopyBlank(m, p, off, chunk, seen))
  {
    CopyBlankIs(m, p, off, chunk, seen);
    var m' := CopyBlank(m, p, off, chunk, seen);
    hide CopyBlank;
    assert PageInv(m'.pages[p], p, m.size, m.backing);
  }

  lemma BlankLength(m: Mapping, pending: set<nat>, pending': set<nat>, p: nat, off: nat, chunk: seq<byte>, seen: nat)
    requires LengthOk(m, pending) && p !in m.pages && chunk != [] && off + |chunk| <= PAGE_SIZE
    requires Pos(p, off) + |chunk| <= seen <= m.size
    requires m.size in pending ==> m.size in pending' || Pos(p, off) + |chunk| == m.size
    ensures LengthOk(CopyBlank(m, p, off, chunk, seen), pending')
  {
    CopyBlankIs(m, p, off, chunk, seen);
    hide CopyBlank;
    if Pos(p, off) + |chunk| == m.size {
      assert (m.size - 1) / PAGE_SIZE == p;
    }
  }

  lemma BlankByte(m: Mapping, p: nat, off: nat, chunk: seq<byte>, seen: nat, q: nat, k: nat)
    requires p !in m.pages && off + |chunk| <= PAGE_SIZE && k < PAGE_SIZE
    ensures Span(CopyBlank(m, p, off, chunk, seen), q, k) ==
            if Pos(p, off) <= Pos(q, k) < Pos(p, off) + |chunk| then chunk[Pos(q, k) - Pos(p, off)]
            else if q == p then 0 else Span(m, q, k)
  {
    CopyBlankIs(m, p, off, chunk, seen);
    hide CopyBlank;
    if q < p { assert Pos(q, k) < PageStart(p); }
    if q > p { assert Pos(q, k) >= PageStart(p) + PAGE_SIZE; }
  }

  lemma BlankView(m: Mapping, p: nat, off: nat, chunk: seq<byte>, seen: nat)
    requires Inv(m) && p !in m.pages && chunk != [] && off + |chunk| <= PAGE_SIZE && Pos(p, off) + |chunk| <= m.size
    ensures View(CopyBlank(m, p, off, chunk, seen)) == Overlay(View(m), Pos(p, off), chunk) <==> NothingElse(m.backing, p, off, |chunk|)
  {
    hide CopyBlank, Overlay, Inv, View;
    if NothingElse(m.backing, p, off, |chunk|) {
      BlankOverlays(m, p, off, chunk, seen);
    } else {
      var k: nat :| k < PAGE_SIZE && !(off <= k < off + |chunk|) && BackingByte(m.backing, p, k) != 0;
      BlankErases(m, p, off, chunk, seen, k);
    }
  }

  lemma BlankOverlays(m: Mapping, p: nat, off: nat, chunk: seq<byte>, seen: nat)
    requires p !in m.pages && chunk != [] && off + |chunk| <= PAGE_SIZE && Pos(p, off) + |chunk| <= m.size
    requires NothingElse(m.backing, p, off, |chunk|)
    ensures View(CopyBlank(m, p, off, chunk, seen)) == Overlay(View(m), Pos(p, off), chunk)
  {
    var m', v := CopyBlank(m, p, off, chunk, seen), Overlay(View(m), Pos(p, off), chunk);
    assert |View(m')| == |v| by { CopyBlankIs(m, p, off, chunk, seen); }
    hide CopyBlank, Overlay, View, NothingElse;
    forall i: nat | i < |v| ensures At(v, i) == At(View(m'), i) {
      BlankOverlayAt(m, p, off, chunk, seen, i);
    }
    SameBytes(v, View(m'));
  }

  lemma BlankOverlayAt(m: Mapping, p: nat, off: nat, chunk: seq<byte>, seen: nat, i: nat)
    requires p !in m.pages && chunk != [] && off + |chunk| <= PAGE_SIZE && Pos(p, off) + |chunk| <= m.size && i < m.size
    requires NothingElse(m.backing, p, off, |chunk|)
    ensures At(Overlay(View(m), Pos(p, off), chunk), i) == At(View(CopyBlank(m, p, off, chunk, seen)), i)
  {
    var m' := CopyBlank(m, p, off, chunk, seen);
    assert m'.size == m.size by { CopyBlankIs(m, p, off, chunk, seen); }
    hide CopyBlank, Overlay, Span, NothingElse;
    OverlayAt(View(m), Pos(p, off), chunk, i);
    assert i == Pos(i / PAGE_SIZE, i % PAGE_SIZE);
    BlankSpan(m, p, off, chunk, seen, i / PAGE_SIZE, i % PAGE_SIZE);
  }

  lemma BlankSpan(m: Mapping, p: nat, off: nat, chunk: seq<byte>, seen: nat, q: nat, k: nat)
    requires p !in m.pages && off + |chunk| <= PAGE_SIZE && k < PAGE_SIZE && NothingElse(m.backing, p, off, |chunk|)
    ensures Span(CopyBlank(m, p, off, chunk, seen), q, k) ==
            if Pos(p, off) <= Pos(q, k) < Pos(p, off) + |chunk| then chunk[Pos(q, k) - Pos(p, off)] else Span(m, q, k)
  {
    hide CopyBlank;
    BlankByte(m, p, off, chunk, seen, q, k);
  }

  /** A byte that only the inode held reads as zero after the copy. */
  lemma BlankErases(m: Mapping, p: nat, off: nat, chunk: seq<byte>, seen: nat, k: nat)
    requires Inv(m) && p !in m.pages && chunk != [] && off + |chunk| <= PAGE_SIZE && Pos(p, off) + |chunk| <= m.size
    requires k < PAGE_SIZE && !(off <= k < off + |chunk|) && BackingByte(m.backing, p, k) != 0
    ensures At(Overlay(View(m), Pos(p, off), chunk), Pos(p, k)) != 0 == At(View(CopyBlank(m, p, off, chunk, seen)), Pos(p, k))
  {
    BackingInside(m, p, k);
    hide Inv;
    var m', i := CopyBlank(m, p, off, chunk, seen), Pos(p, k);
    assert m'.size == m.size by { CopyBlankIs(m, p, off, chunk, seen); }
    hide CopyBlank, Overlay;
    assert i / PAGE_SIZE == p && i % PAGE_SIZE == k;
    OverlayAt(View(m), Pos(p, off), chunk, i);
    BlankByte(m, p, off, chunk, seen, p, k);
  }

  lemma BackingInside(m: Mapping, p: nat, k: nat)
    requires Inv(m) && BackingByte(m.backing, p, k) != 0
    ensures Pos(p, k) < m.size
  {
  }

  // ---------------------------------------------------------------- loading, reclaim and write-back

  lemma LoadLength(m: Mapping, pending: set<nat>, p: nat)
    requires Inv(m) && LengthOk(m, pending)
    ensures LengthOk(LoadPage(m, p), pending)
  {
    assert p in m.pages ==> PageInv(m.pages[p], p, m.size, m.backing);
  }

  /** What a load that saw the file `seen` bytes long leaves of its page. */
  ghost function Filled(m: Mapping, p: nat, seen: nat): Mapping {
    SetPage(m, p, Fill(PageOrFresh(m, p), p, ValidFor(seen, p), m.backing))
  }

  /** The end of a load, with an older size in hand, shows nothing. */
  lemma FillSafe(m: Mapping, flights: map<nat, Flight>, pending: set<nat>, p: nat, seen: nat)
    requires Sound(m, flights, pending) && p !in m.pages && seen <= m.size
    requires forall k: nat | k < PAGE_SIZE && seen <= Pos(p, k) :: BackingByte(m.backing, p, k) == 0
    ensures Sound(Filled(m, p, seen), flights, pending) && View(Filled(m, p, seen)) == View(m)
  {
    var m' := Filled(m, p, seen);
    FillFresh(p, m.size, m.backing, seen);
    hide Fill;
    SetPageInv(m, p, m'.pages[p]);
    FlightsKept(m, m', flights, p);
    assert LengthOk(m', pending);
    hide LengthOk, FlightsOk, Inv;
    SameView(m, m');
  }

  lemma FillFresh(p: nat, size: nat, backing: seq<byte>, seen: nat)
    requires |backing| <= size && seen <= size && forall k: nat | k < PAGE_SIZE && seen <= Pos(p, k) :: BackingByte(backing, p, k) == 0
    ensures var pg := Fill(FRESH, p, ValidFor(seen, p), backing);
            PageInv(pg, p, size, backing) && Agrees(pg, p, backing) && pg.uptodate && !pg.dirty && !pg.writeback
  {
    var pg := Fill(FRESH, p, ValidFor(seen, p), backing);
    forall k: nat | k < PAGE_SIZE ensures pg.data[k] == BackingByte(backing, p, k) {}
  }

  /** Changing only a page's reference bit or map count keeps everything else. */
  lemma MetaSafe(m: Mapping, flights: map<nat, Flight>, pending: set<nat>, p: nat, ref: bool, maps: nat)
    requires Sound(m, flights, pending) && p in m.pages
    ensures var m' := SetPage(m, p, m.pages[p].(ref := ref, maps := maps)); Sound(m', flights, pending) && View(m') == View(m)
  {
    var pg := m.pages[p].(ref := ref, maps := maps);
    var m' := SetPage(m, p, pg);
    assert PageInv(m.pages[p], p, m.size, m.backing);
    SetPageInv(m, p, pg);
    SameView(m, m');
    assert FlightsOk(m', flights) by {
      assert p in flights ==> FlightInv(flights[p], m.pages[p], p, m.backing);
      FlightsKept(m, m', flights, p);
    }
  }

  lemma EvictSafe(m: Mapping, flights: map<nat, Flight>, pending: set<nat>, p: nat)
    requires Sound(m, flights, pending) && p in m.pages && !m.pages[p].dirty
    ensures Sound(Evict(m, p), flights, pending) && View(Evict(m, p)) == View(m)
  {
    assert PageInv(m.pages[p], p, m.size, m.backing);
    DropStep(m, p);
    hide Inv, Agrees, View;
    forall q | q in flights ensures FlightInv(flights[q], Evict(m, p).pages[q], q, m.backing) {
      assert FlightInv(flights[q], m.pages[q], q, m.backing);
    }
  }

  lemma TakeFlights(m: Mapping, flights: map<nat, Flight>, p: nat, live: bool)
    requires FlightsOk(m, flights) && p in m.pages && !m.pages[p].writeback
    ensures FlightsOk(Begin(m, p), flights[p := Captured(m.pages[p], live)])
  {
    var flights' := flights[p := Captured(m.pages[p], live)];
    forall q | q in flights' ensures FlightInv(flights'[q], Begin(m, p).pages[q], q, m.backing) {
      if q != p { assert FlightInv(flights[q], m.pages[q], q, m.backing); }
    }
  }

  lemma TakeSafe(m: Mapping, flights: map<nat, Flight>, pending: set<nat>, p: nat, live: bool)
    requires Sound(m, flights, pending) && p in m.pages && m.pages[p].dirty && !m.pages[p].writeback
    ensures Sound(Begin(m, p), flights[p := Captured(m.pages[p], live)], pending) && View(Begin(m, p)) == View(m)
  {
    BeginStep(m, p);
    TakeFlights(m, flights, p, live);
  }

  lemma WriteBatchSafe(m: Mapping, flights: map<nat, Flight>, pending: set<nat>, first: nat, count: nat, written: nat, failed: bool)
    requires Sound(m, flights, pending) && IsBatch(flights, first, count) && written <= |BatchData(flights, first, count)|
    ensures var data := BatchData(flights, first, count);
            var m' := StoreBytes(m, PageStart(first), data[..written]);
            && Sound(m', Settle(flights, first, count, !failed && written == |data|), pending) && View(m') == View(m)
  {
    var d := BatchData(flights, first, count)[..written];
    BatchOnDirty(m, flights, first, count, written);
    StoreStep(m, PageStart(first), d);
    BatchFlights(m, flights, first, count, written, failed);
    StoreLength(m, pending, PageStart(first), d);
  }

  lemma StoreLength(m: Mapping, pending: set<nat>, off: nat, d: seq<byte>)
    requires LengthOk(m, pending)
    ensures LengthOk(StoreBytes(m, off, d), pending)
  {
  }

  lemma LiveOnDirty(m: Mapping, flights: map<nat, Flight>, p: nat, written: nat)
    requires Inv(m) && FlightsOk(m, flights) && p in flights && written <= flights[p].len
    ensures OnDirty(m, PageStart(p), written)
  {
    assert FlightInv(flights[p], m.pages[p], p, m.backing);
    assert PageInv(m.pages[p], p, m.size, m.backing);
  }

  lemma WriteLiveSafe(m: Mapping, flights: map<nat, Flight>, pending: set<nat>, p: nat, written: nat, ok: bool)
    requires Sound(m, flights, pending) && p in flights && flights[p].live && !flights[p].done && written <= flights[p].len
    requires ok ==> written == flights[p].len
    ensures var m' := StoreBytes(m, PageStart(p), m.pages[p].data[..written]);
            Sound(m', Settle(flights, p, 1, ok), pending) && View(m') == View(m)
  {
    var d := m.pages[p].data[..written];
    LiveOnDirty(m, flights, p, written);
    StoreStep(m, PageStart(p), d);
    LiveFlights(m, flights, p, written, ok);
    StoreLength(m, pending, PageStart(p), d);
  }

  lemma CompleteFlights(m: Mapping, flights: map<nat, Flight>, p: nat, ok: bool)
    requires FlightsOk(m, flights) && p in flights
    ensures FlightsOk(Finish(m, p, ok), flights - {p})
  {
    var m' := Finish(m, p, ok);
    forall q | q in flights - {p} ensures FlightInv(flights[q], m'.pages[q], q, m'.backing) {
      assert FlightInv(flights[q], m.pages[q], q, m.backing);
    }
  }

  lemma CompleteLength(m: Mapping, pending: set<nat>, p: nat, ok: bool)
    requires LengthOk(m, pending) && p in m.pages && m.pages[p].dirty
    requires ok && !m.pages[p].redirtied ==> Reaches(m.pages[p], p, m.backing)
    ensures LengthOk(Finish(m, p, ok), pending)
  {
  }

  lemma CompleteSafe(m: Mapping, flights: map<nat, Flight>, pending: set<nat>, p: nat)
    requires Sound(m, flights, pending) && p in flights && flights[p].done
    ensures Sound(Finish(m, p, flights[p].ok), flights - {p}, pending) && View(Finish(m, p, flights[p].ok)) == View(m)
  {
    assert PageInv(m.pages[p], p, m.size, m.backing);
    assert FlightInv(flights[p], m.pages[p], p, m.backing);
    FinishStep(m, p, flights[p].ok);
    CompleteFlights(m, flights, p, flights[p].ok);
    CompleteLength(m, pending, p, flights[p].ok);
  }

  /** With nothing dirty and no writer at work, the device holds exactly the file. */
  lemma CleanIsStored(m: Mapping, flights: map<nat, Flight>)
    requires Sound(m, flights, {}) && m.dirty == {}
    ensures m.backing == View(m) && flights == map[]
  {
    forall i: nat | i < m.size ensures At(m.backing, i) == At(View(m), i) {
      var p, k := i / PAGE_SIZE, i % PAGE_SIZE;
      assert i == Pos(p, k);
      if p in m.pages { assert Agrees(m.pages[p], p, m.backing); }
    }
    SameBytes(m.backing, View(m));
    forall p ensures p !in flights {
      if p in m.pages { assert PageInv(m.pages[p], p, m.size, m.backing); }
    }
    assert flights.Keys == {};
  }
}
