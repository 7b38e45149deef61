/**
 Write-back of a list of dirty pages: the page-by-page form, and the batched form that must equal it.
 */
module PageFlush {
  import opened Bytes
  import opened PageCache
  import opened PageWriteback
  import opened PageFile

  const MAX_BATCH: nat := 32

  // ---------------------------------------------------------------- page by page

  /** The backing file after the valid bytes of one page are stored. */
  function StorePage(backing: seq<byte>, pg: Page, p: nat): seq<byte> {
    Overlay(backing, PageStart(p), pg.data[..pg.valid])
  }

  /** Write one dirty page back and complete it. */
  function FlushOne(m: Mapping, p: nat): Mapping {
    if p in m.pages && m.pages[p].dirty
    then Finish(Begin(m, p).(backing := StorePage(m.backing, m.pages[p], p)), p, true)
    else m
  }

  function FlushAll(m: Mapping, ps: seq<nat>): Mapping {
    if ps == [] then m else FlushOne(FlushAll(m, ps[..|ps| - 1]), ps[|ps| - 1])
  }

  // ---------------------------------------------------------------- the effect of completing a set of pages

  function DonePage(pg: Page, ok: bool): Page {
    pg.(writeback := false, redirtied := false, dirty := !ok || pg.maps > 0)
  }

  /** The mapping once the pages of `S` went to the device with one outcome. */
  ghost function Settled(m: Mapping, S: set<nat>, backing: seq<byte>, ok: bool): Mapping {
    var dirty' := if ok then set p | p in m.dirty && (p in S && p in m.pages ==> m.pages[p].maps > 0) else m.dirty;
    m.(pages := map p | p in m.pages :: if p in S then DonePage(m.pages[p], ok) else m.pages[p],
       dirty := dirty', retained := dirty' != {}, backing := backing)
  }

  /** All of `S` is dirty. */
  ghost predicate AllDirty(m: Mapping, S: set<nat>) {
    forall p | p in S :: p in m.pages && m.pages[p].dirty
  }

  lemma SettledPage(pg: Page, p: nat, size: nat, backing: seq<byte>, ok: bool)
    requires PageInv(pg, p, size, backing) && pg.dirty && !pg.writeback
    requires ok ==> Agrees(pg, p, backing)
    ensures PageInv(DonePage(pg, ok), p, size, backing)
  {
  }

  /** Completing dirty pages changes no byte of the file; on success they must be on the device. */
  lemma SettledSafe(m: Mapping, S: set<nat>, off: nat, d: seq<byte>, ok: bool)
    requires Quiet(m) && AllDirty(m, S) && OnDirty(m, off, |d|)
    requires ok ==> forall p | p in S :: Agrees(m.pages[p], p, Overlay(m.backing, off, d)) && Reaches(m.pages[p], p, Overlay(m.backing, off, d))
    ensures Quiet(Settled(m, S, Overlay(m.backing, off, d), ok))
    ensures View(Settled(m, S, Overlay(m.backing, off, d), ok)) == View(m)
  {
    var m1 := StoreBytes(m, off, d);
    StoreStep(m, off, d);
    StoreLength(m, {}, off, d);
    var m2 := Settled(m, S, m1.backing, ok);
    forall p | p in m2.pages ensures PageInv(m2.pages[p], p, m2.size, m2.backing) && !m2.pages[p].writeback {
      assert PageInv(m1.pages[p], p, m1.size, m1.backing);
      if p in S { SettledPage(m1.pages[p], p, m1.size, m1.backing, ok); }
    }
    assert DirtyExact(m2);
    SameView(m1, m2);
    assert LengthOk(m2, {}) by { SettledLength(m1, S, ok); }
  }

  lemma SettledLength(m: Mapping, S: set<nat>, ok: bool)
    requires LengthOk(m, {})
    requires ok ==> forall p | p in S :: p in m.pages && Reaches(m.pages[p], p, m.backing)
    ensures LengthOk(Settled(m, S, m.backing, ok), {})
  {
  }

  lemma StoreOnDirty(m: Mapping, p: nat)
    requires Inv(m) && p in m.pages && m.pages[p].dirty
    ensures OnDirty(m, PageStart(p), m.pages[p].valid)
  {
    assert PageInv(m.pages[p], p, m.size, m.backing);
  }

  lemma StoredAgrees(pg: Page, p: nat, size: nat, backing: seq<byte>)
    requires PageInv(pg, p, size, backing)
    ensures Agrees(pg, p, StorePage(backing, pg, p)) && Reaches(pg, p, StorePage(backing, pg, p))
  {
    forall k: nat | k < PAGE_SIZE ensures pg.data[k] == BackingByte(StorePage(backing, pg, p), p, k) {
      OverlayAt(backing, PageStart(p), pg.data[..pg.valid], Pos(p, k));
    }
  }

  /** Taking, storing and completing one page, whatever the outcome. */
  lemma SingleIsSettled(m: Mapping, p: nat, backing: seq<byte>, ok: bool)
    requires Inv(m) && NoneInFlight(m) && p in m.pages && m.pages[p].dirty
    ensures Finish(Begin(m, p).(backing := backing), p, ok) == Settled(m, {p}, backing, ok)
  {
    var a, b := Finish(Begin(m, p).(backing := backing), p, ok), Settled(m, {p}, backing, ok);
    assert PageInv(m.pages[p], p, m.size, m.backing);
    assert p in m.dirty;
    assert a.pages == b.pages;
    assert a.dirty == b.dirty;
  }

  lemma FlushOneIsSettled(m: Mapping, p: nat)
    requires Inv(m) && NoneInFlight(m) && p in m.pages && m.pages[p].dirty
    ensures FlushOne(m, p) == Settled(m, {p}, StorePage(m.backing, m.pages[p], p), true)
  {
    SingleIsSettled(m, p, StorePage(m.backing, m.pages[p], p), true);
  }

  /** Writing one page back changes no byte of the file. */
  lemma FlushOneSafe(m: Mapping, p: nat)
    requires Quiet(m)
    ensures Quiet(FlushOne(m, p)) && View(FlushOne(m, p)) == View(m)
  {
    if p in m.pages && m.pages[p].dirty {
      assert PageInv(m.pages[p], p, m.size, m.backing);
      FlushOneIsSettled(m, p);
      StoreOnDirty(m, p);
      StoredAgrees(m.pages[p], p, m.size, m.backing);
      SettledSafe(m, {p}, PageStart(p), m.pages[p].data[..m.pages[p].valid], true);
    }
  }

  lemma {:induction false} FlushAllSafe(m: Mapping, ps: seq<nat>)
    requires Quiet(m)
    ensures Quiet(FlushAll(m, ps)) && View(FlushAll(m, ps)) == View(m)
  {
    hide FlushOne, Calm, View;
    if ps != [] {
      FlushAllSafe(m, ps[..|ps| - 1]);
      FlushOneSafe(FlushAll(m, ps[..|ps| - 1]), ps[|ps| - 1]);
    }
  }

  lemma {:induction false} FlushAllAppend(m: Mapping, ps: seq<nat>, qs: seq<nat>)
    ensures FlushAll(m, ps + qs) == FlushAll(FlushAll(m, ps), qs)
  {
    if qs == [] {
      assert ps + qs == ps;
    } else {
      assert (ps + qs)[..|ps + qs| - 1] == ps + qs[..|qs| - 1];
      FlushAllAppend(m, ps, qs[..|qs| - 1]);
    }
  }

  // ---------------------------------------------------------------- what a flush leaves dirty, and what it stores

  predicate Mapped(m: Mapping, p: nat) { p in m.pages && m.pages[p].maps > 0 }

  lemma FlushOneDirty(m: Mapping, p: nat, q: nat)
    requires Quiet(m)
    ensures q in FlushOne(m, p).dirty <==> q in m.dirty && (q == p ==> Mapped(m, q))
    ensures Mapped(FlushOne(m, p), q) <==> Mapped(m, q)
  {
    if p in m.pages && m.pages[p].dirty {
      FlushOneIsSettled(m, p);
    }
  }

  /** After a flush a page is dirty if and only if it was and is not one of the list, or is mapped: a shared
      mapping may store to it at any time. */
  lemma {:induction false} FlushAllDirty(m: Mapping, ps: seq<nat>, q: nat)
    requires Quiet(m)
    ensures q in FlushAll(m, ps).dirty <==> q in m.dirty && (q in ps ==> Mapped(m, q))
    ensures Mapped(FlushAll(m, ps), q) <==> Mapped(m, q)
  {
    hide FlushOne, Calm, Mapped;
    if ps != [] {
      var rest := ps[..|ps| - 1];
      FlushAllSafe(m, rest);
      FlushAllDirty(m, rest, q);
      FlushOneDirty(FlushAll(m, rest), ps[|ps| - 1], q);
      assert ps == rest + [ps[|ps| - 1]];
    }
  }

  /** The inode holds what the cache shows of page `q`, and the file's length if the file ends there. */
  ghost predicate Synced(m: Mapping, q: nat) {
    && (q in m.pages ==> Agrees(m.pages[q], q, m.backing))
    && (m.size > 0 && q == (m.size - 1) / PAGE_SIZE ==> m.size <= |m.backing|)
  }

  lemma CleanSynced(m: Mapping, q: nat)
    requires Quiet(m) && q !in m.dirty
    ensures Synced(m, q)
  {
    if q in m.pages {
      assert PageInv(m.pages[q], q, m.size, m.backing);
    }
  }

  lemma FlushOneSyncs(m: Mapping, p: nat, q: nat)
    requires Quiet(m)
    ensures q == p || Synced(m, q) ==> Synced(FlushOne(m, p), q)
  {
    if p in m.pages && m.pages[p].dirty {
      var pg, m' := m.pages[p], FlushOne(m, p);
      assert PageInv(pg, p, m.size, m.backing);
      StoredAgrees(pg, p, m.size, m.backing);
      StorePast(m.backing, pg, p);
      if q != p && q in m.pages && Synced(m, q) {
        forall k: nat | k < PAGE_SIZE ensures BackingByte(m'.backing, q, k) == BackingByte(m.backing, q, k) {
          OverlayAt(m.backing, PageStart(p), pg.data[..pg.valid], Pos(q, k));
        }
      }
    } else if q == p {
      CleanSynced(m, p);
    }
  }

  lemma StorePast(backing: seq<byte>, pg: Page, p: nat)
    ensures |StorePage(backing, pg, p)| >= |backing|
    ensures pg.valid > 0 ==> |StorePage(backing, pg, p)| >= Pos(p, pg.valid)
  {
  }

  lemma {:induction false} FlushAllSyncs(m: Mapping, ps: seq<nat>, q: nat)
    requires Quiet(m) && (q in ps || q !in m.dirty)
    ensures Synced(FlushAll(m, ps), q)
  {
    hide FlushOne, Calm, Synced;
    if ps == [] {
      CleanSynced(m, q);
    } else {
      var rest, p := ps[..|ps| - 1], ps[|ps| - 1];
      assert ps == rest + [p];
      FlushAllSafe(m, rest);
      FlushOneSyncs(FlushAll(m, rest), p, q);
      if q != p {
        FlushAllSyncs(m, rest, q);
      }
    }
  }

  /** Flushing every dirty page leaves the inode holding exactly the file, mapped pages included. */
  lemma SyncStores(m: Mapping, ps: seq<nat>)
    requires Quiet(m) && forall p | p in m.dirty :: p in ps
    ensures FlushAll(m, ps).backing == View(m)
  {
    FlushAllSafe(m, ps);
    var m' := FlushAll(m, ps);
    hide FlushAll;
    forall q: nat ensures Synced(m', q) {
      FlushAllSyncs(m, ps, q);
    }
    SyncedIsView(m');
  }

  lemma SyncedIsView(m: Mapping)
    requires Quiet(m) && forall q: nat :: Synced(m, q)
    ensures m.backing == View(m)
  {
    if m.size > 0 {
      assert Synced(m, (m.size - 1) / PAGE_SIZE);
    }
    forall i: nat | i < m.size ensures At(m.backing, i) == At(View(m), i) {
      var p, k := i / PAGE_SIZE, i % PAGE_SIZE;
      assert i == Pos(p, k);
      assert Synced(m, p);
    }
    SameBytes(m.backing, View(m));
  }

  // ---------------------------------------------------------------- a batch equals its pages, one by one

  /** Consecutive dirty pages, all full but the last. */
  ghost predicate IsRun(m: Mapping, first: nat, count: nat) {
    && (forall p | first <= p < first + count :: p in m.pages && m.pages[p].dirty)
    && (forall p | first <= p < first + count - 1 :: m.pages[p].valid == PAGE_SIZE)
  }

  ghost function RunSet(first: nat, count: nat): (r: set<nat>)
    ensures forall p: nat :: p in r <==> first <= p < first + count
  {
    if count == 0 then {} else RunSet(first, count - 1) + {first + count - 1}
  }

  /** The bytes a batch hands to the device. */
  ghost function RunData(m: Mapping, first: nat, count: nat): seq<byte>
    requires forall p | first <= p < first + count :: p in m.pages
  {
    if count == 0 then []
    else var last := m.pages[first + count - 1];
         RunData(m, first, count - 1) + last.data[..last.valid]
  }

  /** Flush the pages of a run in order. */
  function FlushRun(m: Mapping, first: nat, count: nat): Mapping {
    if count == 0 then m else FlushOne(FlushRun(m, first, count - 1), first + count - 1)
  }

  lemma {:induction false} RunDataLen(m: Mapping, first: nat, count: nat)
    requires forall p | first <= p < first + count :: p in m.pages && m.pages[p].valid == PAGE_SIZE
    ensures |RunData(m, first, count)| == count * PAGE_SIZE
  {
    if count > 0 { RunDataLen(m, first, count - 1); }
  }

  lemma SettleOneMore(m: Mapping, S: set<nat>, q: nat, b1: seq<byte>, b2: seq<byte>)
    requires q !in S && q in m.pages
    ensures Settled(Settled(m, S, b1, true), {q}, b2, true) == Settled(m, S + {q}, b2, true)
  {
    var a, b := Settled(Settled(m, S, b1, true), {q}, b2, true), Settled(m, S + {q}, b2, true);
    assert a.pages == b.pages;
    assert a.dirty == b.dirty;
  }

  /** The backing file once a run is stored. */
  ghost function RunStored(m: Mapping, first: nat, count: nat): seq<byte>
    requires forall p | first <= p < first + count :: p in m.pages
  {
    Overlay(m.backing, PageStart(first), RunData(m, first, count))
  }

  lemma RunStoredStep(m: Mapping, first: nat, count: nat)
    requires 0 < count && IsRun(m, first, count)
    ensures RunStored(m, first, count) ==
            StorePage(RunStored(m, first, count - 1), m.pages[first + count - 1], first + count - 1)
  {
    hide Overlay;
    var q := first + count - 1;
    RunDataLen(m, first, count - 1);
    assert PageStart(first) + |RunData(m, first, count - 1)| == PageStart(q);
    OverlayConcat(m.backing, PageStart(first), RunData(m, first, count - 1), m.pages[q].data[..m.pages[q].valid]);
  }

  lemma {:induction false} FlushRunSafe(m: Mapping, first: nat, count: nat)
    requires Quiet(m)
    ensures Quiet(FlushRun(m, first, count)) && View(FlushRun(m, first, count)) == View(m)
  {
    hide FlushOne, Calm, View;
    if count > 0 {
      FlushRunSafe(m, first, count - 1);
      FlushOneSafe(FlushRun(m, first, count - 1), first + count - 1);
    }
  }

  lemma BatchStep(m: Mapping, before: Mapping, first: nat, count: nat)
    requires Quiet(before) && 0 < count && IsRun(m, first, count)
    requires before == Settled(m, RunSet(first, count - 1), RunStored(m, first, count - 1), true)
    ensures FlushOne(before, first + count - 1) == Settled(m, RunSet(first, count), RunStored(m, first, count), true)
  {
    hide FlushOne, RunStored, Calm, Settled;
    var q := first + count - 1;
    BatchStores(m, before, first, count);
    SettleOneMore(m, RunSet(first, count - 1), q, RunStored(m, first, count - 1), RunStored(m, first, count));
  }

  lemma BatchStores(m: Mapping, before: Mapping, first: nat, count: nat)
    requires Quiet(before) && 0 < count && IsRun(m, first, count)
    requires before == Settled(m, RunSet(first, count - 1), RunStored(m, first, count - 1), true)
    ensures FlushOne(before, first + count - 1) == Settled(before, {first + count - 1}, RunStored(m, first, count), true)
  {
    hide FlushOne, RunStored, LengthOk, Inv, Settled, StorePage;
    var q := first + count - 1;
    SettledOther(m, RunSet(first, count - 1), q, RunStored(m, first, count - 1));
    RunStoredStep(m, first, count);
    FlushOneIsSettled(before, q);
  }

  lemma SettledOther(m: Mapping, S: set<nat>, q: nat, b: seq<byte>)
    requires q !in S && q in m.pages
    ensures var s := Settled(m, S, b, true); q in s.pages && s.pages[q] == m.pages[q] && s.backing == b
  {
  }

  /** A batched write-back leaves exactly what flushing its pages one after another leaves:
      the same backing file, the same page states, the same dirty set. */
  lemma {:induction false} BatchIsPageByPage(m: Mapping, first: nat, count: nat)
    requires Quiet(m) && IsRun(m, first, count)
    ensures FlushRun(m, first, count) == Settled(m, RunSet(first, count), RunStored(m, first, count), true)
  {
    if count == 0 {
      SettledNone(m);
    } else {
      hide Calm, Settled, FlushOne, RunStored, RunSet, IsRun;
      RunShorter(m, first, count);
      BatchIsPageByPage(m, first, count - 1);
      FlushRunSafe(m, first, count - 1);
      BatchStep(m, FlushRun(m, first, count - 1), first, count);
    }
  }

  lemma RunShorter(m: Mapping, first: nat, count: nat)
    requires 0 < count && IsRun(m, first, count)
    ensures IsRun(m, first, count - 1) && forall p | first <= p < first + count :: p in m.pages
  {
  }

  lemma SettledNone(m: Mapping)
    requires Inv(m)
    ensures Settled(m, {}, m.backing, true) == m
  {
    var a := Settled(m, {}, m.backing, true);
    assert a.pages == m.pages && a.dirty == m.dirty;
  }

  // ---------------------------------------------------------------- a batch on its way

  function BegunPage(pg: Page): Page {
    pg.(writeback := true, redirtied := false, pins := pg.pins + 1)
  }

  /** The first `j` of `count` pages taken from `first` are completed, the rest still in flight. */
  ghost function Underway(m: Mapping, first: nat, count: nat, j: nat, backing: seq<byte>, ok: bool): Mapping {
    var s := Settled(m, RunSet(first, j), backing, ok);
    s.(pages := UnderwayPages(m.pages, first, count, j, ok))
  }

  ghost function UnderwayPages(pages: map<nat, Page>, first: nat, count: nat, j: nat, ok: bool): map<nat, Page> {
    map p | p in pages ::
      if first <= p < first + j then DonePage(pages[p], ok)
      else if first <= p < first + count then BegunPage(pages[p]) else pages[p]
  }

  lemma UnderwayStart(m: Mapping, first: nat, backing: seq<byte>, ok: bool)
    requires Inv(m)
    ensures Underway(m, first, 0, 0, m.backing, ok) == m
  {
    var u := Underway(m, first, 0, 0, m.backing, ok);
    assert u.pages == m.pages && u.dirty == m.dirty;
  }

  /** Taking one more page. */
  lemma UnderwayTakes(m: Mapping, first: nat, count: nat, ok: bool)
    requires first + count in m.pages
    ensures Begin(Underway(m, first, count, 0, m.backing, ok), first + count) == Underway(m, first, count + 1, 0, m.backing, ok)
  {
    var a, b := Begin(Underway(m, first, count, 0, m.backing, ok), first + count), Underway(m, first, count + 1, 0, m.backing, ok);
    assert a.pages == b.pages;
  }

  lemma UnderwayOutcome(m: Mapping, first: nat, count: nat, backing: seq<byte>, ok: bool)
    requires Inv(m)
    ensures Underway(m, first, count, 0, m.backing, true).(backing := backing) == Underway(m, first, count, 0, backing, ok)
  {
    var a, b := Underway(m, first, count, 0, m.backing, true), Underway(m, first, count, 0, backing, ok);
    assert a.dirty == m.dirty && b.dirty == m.dirty;
    assert a.pages == b.pages;
  }

  lemma UnderwayDirty(m: Mapping, first: nat, j: nat, backing: seq<byte>, ok: bool)
    requires first + j in m.pages && first + j in m.dirty
    ensures Settled(m, RunSet(first, j + 1), backing, ok).dirty ==
            if !ok || m.pages[first + j].maps > 0 then Settled(m, RunSet(first, j), backing, ok).dirty
            else Settled(m, RunSet(first, j), backing, ok).dirty - {first + j}
    ensures first + j in Settled(m, RunSet(first, j), backing, ok).dirty
  {
  }

  lemma UnderwayPagesStep(pages: map<nat, Page>, first: nat, count: nat, j: nat, ok: bool)
    requires j < count && first + j in pages
    ensures UnderwayPages(pages, first, count, j + 1, ok) ==
            UnderwayPages(pages, first, count, j, ok)[first + j := DonePage(pages[first + j], ok)]
    ensures UnderwayPages(pages, first, count, j, ok)[first + j] == BegunPage(pages[first + j])
  {
    var a, b := UnderwayPages(pages, first, count, j + 1, ok),
                UnderwayPages(pages, first, count, j, ok)[first + j := DonePage(pages[first + j], ok)];
    assert a.Keys == b.Keys;
    assert forall p | p in a :: a[p] == b[p];
  }

  lemma FinishBegun(u: Mapping, p: nat, pg: Page, ok: bool)
    requires p in u.pages && u.pages[p] == BegunPage(pg) && pg.dirty && !pg.writeback && p in u.dirty
    requires u.retained == (u.dirty != {})
    ensures var dirty' := if !ok || pg.maps > 0 then u.dirty else u.dirty - {p};
            Finish(u, p, ok) == u.(pages := u.pages[p := DonePage(pg, ok)], dirty := dirty', retained := dirty' != {})
  {
    assert u.dirty + {p} == u.dirty;
  }

  /** Completing the next page. */
  lemma UnderwayCompletes(m: Mapping, first: nat, count: nat, j: nat, backing: seq<byte>, ok: bool)
    requires Inv(m) && NoneInFlight(m) && j < count && first + j in m.pages && m.pages[first + j].dirty
    ensures first + j in Underway(m, first, count, j, backing, ok).pages
    ensures Finish(Underway(m, first, count, j, backing, ok), first + j, ok) == Underway(m, first, count, j + 1, backing, ok)
  {
    assert first + j in m.dirty;
    assert !m.pages[first + j].writeback;
    hide Inv, NoneInFlight, Finish, RunSet, UnderwayPages;
    UnderwayDirty(m, first, j, backing, ok);
    UnderwayPagesStep(m.pages, first, count, j, ok);
    FinishBegun(Underway(m, first, count, j, backing, ok), first + j, m.pages[first + j], ok);
  }

  lemma UnderwayEnd(m: Mapping, first: nat, count: nat, backing: seq<byte>, ok: bool)
    ensures Underway(m, first, count, count, backing, ok) == Settled(m, RunSet(first, count), backing, ok)
  {
    assert Underway(m, first, count, count, backing, ok).pages == Settled(m, RunSet(first, count), backing, ok).pages;
  }

  lemma RunOnDirty(m: Mapping, first: nat, count: nat, n: nat)
    requires Inv(m) && 0 < count && IsRun(m, first, count) && n <= |RunData(m, first, count)|
    ensures OnDirty(m, PageStart(first), n)
  {
    var last := first + count - 1;
    RunDataLen(m, first, count - 1);
    assert PageInv(m.pages[last], last, m.size, m.backing);
    forall p: nat, k: nat | k < PAGE_SIZE && PageStart(first) <= Pos(p, k) < PageStart(first) + n
      ensures p in m.pages && m.pages[p].dirty && k < m.pages[p].valid
    {
      assert first <= p <= last;
    }
    if n > 0 && count > 1 && n <= (count - 1) * PAGE_SIZE {
      assert PageInv(m.pages[last - 1], last - 1, m.size, m.backing);
    }
  }

  /** A batch that failed or fell short loses nothing: its pages stay dirty. */
  lemma FailedBatch(m: Mapping, first: nat, count: nat, n: nat)
    requires Quiet(m) && 0 < count && IsRun(m, first, count) && n <= |RunData(m, first, count)|
    ensures var m' := Settled(m, RunSet(first, count), Overlay(m.backing, PageStart(first), RunData(m, first, count)[..n]), false);
            Quiet(m') && View(m') == View(m) && m'.dirty == m.dirty
  {
    RunOnDirty(m, first, count, n);
    SettledSafe(m, RunSet(first, count), PageStart(first), RunData(m, first, count)[..n], false);
  }

  lemma {:induction false} FlushRunIsList(m: Mapping, first: nat, ps: seq<nat>)
    requires forall i | 0 <= i < |ps| :: ps[i] == first + i
    ensures FlushRun(m, first, |ps|) == FlushAll(m, ps)
  {
    hide FlushOne;
    if ps != [] { FlushRunIsList(m, first, ps[..|ps| - 1]); }
  }
}
