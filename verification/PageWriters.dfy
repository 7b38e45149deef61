/**
 Write calls one at a time: whatever loads, reclaim and write-back come between their steps, every
 copy reaches the file, as long as reclaim leaves the page in hand alone and no copy goes to a page
 that is just being loaded.
 */
module PageWriters {
  import opened Basics
  import opened Bytes
  import opened PageCache
  import opened PageWriteback
  import opened PageSystem

  /** No call has page `p` in hand. */
  ghost predicate Unheld(s: Sys, p: nat) { forall w | w in s.writers && s.writers[w].hold.Held? :: s.writers[w].hold.p != p }

  /** A write call starts only when none is at work, reclaim and a write call never use one page at once, and no
      copy goes to a page that another caller is loading. */
  ghost predicate Ordered(s: Sys, step: Step)
    requires Enabled(s, step)
  {
    match step
    case Open(_, _, _) => s.writers == map[]
    case Mark(p) => Unheld(s, p)
    case Lookup(w) => PageOf(s.writers[w].at) !in s.evicting
    case Copy(w, _, _) => AtRest(s, s.writers[w])
    case _ => true
  }

  ghost predicate OrderedRun(s: Sys, run: seq<Step>)
    decreases |run|
  {
    run == [] || (Enabled(s, run[0]) && Ordered(s, run[0]) && OrderedRun(Apply(s, run[0]), run[1..]))
  }

  // ---------------------------------------------------------------- what one call leaves untouched

  /** Byte `i` was past the end of the file when the call began, and the call has not written it. */
  ghost predicate Unwritten(x: Writer, i: nat) { x.was <= i && !(x.start <= i < x.at) }

  /** Bytes the call has not written are zero on the inode, in the cache and in flight. */
  ghost predicate Clear(m: Mapping, flights: map<nat, Flight>, x: Writer) {
    forall p: nat, k: nat | k < PAGE_SIZE && Unwritten(x, Pos(p, k)) ::
      && BackingByte(m.backing, p, k) == 0
      && (p in m.pages ==> m.pages[p].data[k] == 0)
      && (p in flights && !flights[p].live && k < |flights[p].snap| ==> flights[p].snap[k] == 0)
  }

  ghost predicate SerialInv(s: Sys) {
    && (forall v, w | v in s.writers && w in s.writers :: v == w)
    && (forall w | w in s.writers :: (s.writers[w].hold.Held? ==> InPlace(s, s.writers[w])) && Clear(s.m, s.flights, s.writers[w]))
  }

  lemma OpenClear(m: Mapping, flights: map<nat, Flight>, pending: set<nat>, x: Writer)
    requires Sound(m, flights, pending) && x.was == m.size
    ensures Clear(m, flights, x)
  {
    forall p: nat, k: nat | k < PAGE_SIZE && Unwritten(x, Pos(p, k))
      ensures BackingByte(m.backing, p, k) == 0 && (p in m.pages ==> m.pages[p].data[k] == 0)
      ensures p in flights && !flights[p].live && k < |flights[p].snap| ==> flights[p].snap[k] == 0
    {
      if p in m.pages { assert PageInv(m.pages[p], p, m.size, m.backing); }
      if p in flights { assert FlightInv(flights[p], m.pages[p], p, m.backing); }
    }
  }

  lemma LoadClear(m: Mapping, flights: map<nat, Flight>, x: Writer, p: nat, seen: nat)
    requires Clear(m, flights, x)
    ensures Clear(Filled(m, p, seen), flights, x)
  {
  }

  /** The call's own copy: what it writes it has then written. */
  lemma CopyClear(m: Mapping, flights: map<nat, Flight>, x: Writer, p: nat, off: nat, chunk: seq<byte>, seen: nat)
    requires Clear(m, flights, x) && p in m.pages && off + |chunk| <= PAGE_SIZE && Pos(p, off) == x.at && x.start <= x.at
    requires m.pages[p].dirty ==> m.pages[p].uptodate
    ensures Clear(CopySeen(m, p, off, chunk, seen), flights, x.(at := x.at + |chunk|, hold := Idle))
  {
    CopySeenIs(m, p, off, chunk, seen);
    hide CopySeen;
    var m', x' := CopySeen(m, p, off, chunk, seen), x.(at := x.at + |chunk|, hold := Idle);
    forall q: nat, k: nat | k < PAGE_SIZE && Unwritten(x', Pos(q, k))
      ensures BackingByte(m'.backing, q, k) == 0 && (q in m'.pages ==> m'.pages[q].data[k] == 0)
      ensures q in flights && !flights[q].live && k < |flights[q].snap| ==> flights[q].snap[k] == 0
    {
      assert Unwritten(x, Pos(q, k)) && BackingByte(m.backing, q, k) == 0;
      if q == p {
        assert !(off <= k < off + |chunk|);
      }
    }
  }

  lemma FreshClear(m: Mapping, flights: map<nat, Flight>, x: Writer, p: nat)
    requires Clear(m, flights, x)
    ensures Clear(SetPage(m, p, FRESH), flights, x)
  {
  }

  lemma TakeClear(m: Mapping, flights: map<nat, Flight>, x: Writer, p: nat, live: bool)
    requires Clear(m, flights, x) && p in m.pages
    ensures Clear(Begin(m, p), flights[p := Captured(m.pages[p], live)], x)
  {
  }

  lemma BatchClear(m: Mapping, flights: map<nat, Flight>, x: Writer, first: nat, count: nat, written: nat, ok: bool)
    requires Clear(m, flights, x) && IsBatch(flights, first, count) && written <= |BatchData(flights, first, count)|
    ensures Clear(StoreBytes(m, PageStart(first), BatchData(flights, first, count)[..written]), Settle(flights, first, count, ok), x)
  {
    var data := BatchData(flights, first, count);
    var d := data[..written];
    var m', flights' := StoreBytes(m, PageStart(first), d), Settle(flights, first, count, ok);
    forall q: nat, k: nat | k < PAGE_SIZE && Unwritten(x, Pos(q, k))
      ensures BackingByte(m'.backing, q, k) == 0 && (q in m'.pages ==> m'.pages[q].data[k] == 0)
      ensures q in flights' && !flights'[q].live && k < |flights'[q].snap| ==> flights'[q].snap[k] == 0
    {
      assert BackingByte(m.backing, q, k) == 0;
      BatchByteAt(m, flights, first, count, written, q, k);
    }
  }

  /** What a batch stores at one byte is what was captured there. */
  lemma BatchByteAt(m: Mapping, flights: map<nat, Flight>, first: nat, count: nat, written: nat, q: nat, k: nat)
    requires IsBatch(flights, first, count) && written <= |BatchData(flights, first, count)| && k < PAGE_SIZE
    ensures var b := BackingByte(StoreBytes(m, PageStart(first), BatchData(flights, first, count)[..written]).backing, q, k);
            b == BackingByte(m.backing, q, k) || (q in flights && !flights[q].live && k < |flights[q].snap| && b == flights[q].snap[k])
  {
    var data := BatchData(flights, first, count);
    hide Overlay, IsBatch, BatchData;
    OverlayAt(m.backing, PageStart(first), data[..written], Pos(q, k));
    if PageStart(first) <= Pos(q, k) < PageStart(first) + written {
      BatchByteIs(flights, first, count, q, k);
    }
  }

  lemma BatchByteIs(flights: map<nat, Flight>, first: nat, count: nat, q: nat, k: nat)
    requires IsBatch(flights, first, count) && k < PAGE_SIZE
    requires PageStart(first) <= Pos(q, k) < PageStart(first) + |BatchData(flights, first, count)|
    ensures q in flights && !flights[q].live && k < |flights[q].snap|
    ensures BatchData(flights, first, count)[Pos(q, k) - PageStart(first)] == flights[q].snap[k]
  {
    hide BatchData;
    BatchByte(flights, first, count);
    assert first <= q < first + count;
    assert k < flights[q].len;
    assert Pos(q, k) - PageStart(first) == (q - first) * PAGE_SIZE + k;
  }

  lemma LiveClear(m: Mapping, flights: map<nat, Flight>, x: Writer, p: nat, written: nat, ok: bool)
    requires Clear(m, flights, x) && p in m.pages && written <= PAGE_SIZE
    ensures Clear(StoreBytes(m, PageStart(p), m.pages[p].data[..written]), Settle(flights, p, 1, ok), x)
  {
    hide Overlay;
    var d := m.pages[p].data[..written];
    var m', flights' := StoreBytes(m, PageStart(p), d), Settle(flights, p, 1, ok);
    forall q: nat, k: nat | k < PAGE_SIZE && Unwritten(x, Pos(q, k))
      ensures BackingByte(m'.backing, q, k) == 0 && (q in m'.pages ==> m'.pages[q].data[k] == 0)
      ensures q in flights' && !flights'[q].live && k < |flights'[q].snap| ==> flights'[q].snap[k] == 0
    {
      assert BackingByte(m.backing, q, k) == 0;
      OverlayAt(m.backing, PageStart(p), d, Pos(q, k));
    }
  }

  lemma FinishClear(m: Mapping, flights: map<nat, Flight>, x: Writer, p: nat, ok: bool)
    requires Clear(m, flights, x) && p in m.pages
    ensures Clear(Finish(m, p, ok), flights - {p}, x)
  {
  }

  // ---------------------------------------------------------------- every step

  /** A page that the call may fill without loading has nothing on the inode beside what the call writes. */
  lemma BlankIsEmpty(s: Sys, w: nat, at: nat, chunk: seq<byte>)
    requires SysInv(s) && SerialInv(s) && Enabled(s, Copy(w, at, chunk)) && s.writers[w].hold.p !in s.m.pages
    ensures NothingElse(s.m.backing, s.writers[w].hold.p, at % PAGE_SIZE, |chunk|)
  {
    var x := s.writers[w];
    var p := x.hold.p;
    WriterFacts(s, w);
    NextFits(x);
    assert Clear(s.m, s.flights, x);
    if PageStart(p) >= x.was {
      forall k: nat | k < PAGE_SIZE && !(at % PAGE_SIZE <= k < at % PAGE_SIZE + |chunk|) ensures BackingByte(s.m.backing, p, k) == 0 {
        assert Unwritten(x, Pos(p, k));
      }
    }
  }

  lemma SerialLands(s: Sys, step: Step)
    requires SysInv(s) && SerialInv(s) && Enabled(s, step) && Ordered(s, step)
    ensures Lands(s, step)
  {
    if step.Copy? && s.writers[step.w].hold.p !in s.m.pages {
      BlankIsEmpty(s, step.w, step.at, step.chunk);
    }
  }

  lemma CopiedClear(s: Sys, w: nat, at: nat, chunk: seq<byte>)
    requires SysInv(s) && SerialInv(s) && Enabled(s, Copy(w, at, chunk))
    ensures var x := s.writers[w];
            Clear(Apply(s, Copy(w, at, chunk)).m, s.flights, x.(at := x.at + |chunk|, hold := Idle))
  {
    var x := s.writers[w];
    var p, off := x.hold.p, at % PAGE_SIZE;
    WriterFacts(s, w);
    NextFits(x);
    hide WritersOk, LinksOk, CopySeen, Clear;
    if p in s.m.pages {
      assert PageInv(s.m.pages[p], p, s.m.size, s.m.backing);
      CopyClear(s.m, s.flights, x, p, off, chunk, x.hold.seen);
    } else {
      FreshClear(s.m, s.flights, x, p);
      CopyClear(SetPage(s.m, p, FRESH), s.flights, x, p, off, chunk, x.hold.seen);
    }
  }

  lemma CopySerial(s: Sys, w: nat, at: nat, chunk: seq<byte>)
    requires SysInv(s) && SerialInv(s) && Enabled(s, Copy(w, at, chunk))
    ensures SerialInv(Apply(s, Copy(w, at, chunk)))
  {
    hide Clear, SysInv, Copied;
    CopiedClear(s, w, at, chunk);
  }

  lemma SerialStep(s: Sys, step: Step)
    requires SysInv(s) && SerialInv(s) && Enabled(s, step) && Ordered(s, step)
    ensures SerialInv(Apply(s, step))
  {
    hide Clear, Sound, LinksOk, WritersOk, Filled, Begin, Finish, StoreBytes, Settle, BatchData, Copied, SetPage, Evict, Captured;
    match step
    case Open(w, start, len) =>
      OpenClear(s.m, s.flights, Ends(s.writers), Writer(s.m.size, start, start + len, start, false, Idle));
    case Copy(w, at, chunk) => CopySerial(s, w, at, chunk);
    case _ => StillSerial(s, step);
  }

  /** Steps that copy nothing leave every call's unwritten bytes zero. */
  lemma StillSerial(s: Sys, step: Step)
    requires SysInv(s) && SerialInv(s) && Enabled(s, step) && Ordered(s, step) && !step.Open? && !step.Copy?
    ensures SerialInv(Apply(s, step))
  {
    hide SysInv, Clear, Filled, Begin, Finish, StoreBytes, Settle, BatchData, Copied, SetPage, Evict, Captured;
    var s' := Apply(s, step);
    forall w | w in s'.writers ensures (s'.writers[w].hold.Held? ==> InPlace(s', s'.writers[w])) && Clear(s'.m, s'.flights, s'.writers[w]) {
      assert Clear(s.m, s.flights, s.writers[w]);
      StillClear(s, step, s.writers[w]);
      StillHeld(s, step, w);
      SameCall(s'.m, s'.flights, s.writers[w], s'.writers[w]);
    }
  }

  lemma SameCall(m: Mapping, flights: map<nat, Flight>, x: Writer, x': Writer)
    requires Clear(m, flights, x) && x' == x.(raised := x'.raised, hold := x'.hold)
    ensures Clear(m, flights, x')
  {
    assert forall i: nat :: Unwritten(x', i) <==> Unwritten(x, i);
  }

  lemma StillHeld(s: Sys, step: Step, w: nat)
    requires SysInv(s) && SerialInv(s) && Enabled(s, step) && Ordered(s, step) && !step.Open? && !step.Copy?
    requires w in s.writers && w in Apply(s, step).writers
    ensures var s' := Apply(s, step);
            && (s'.writers[w].hold.Held? ==> InPlace(s', s'.writers[w]))
            && s'.writers[w] == s.writers[w].(raised := s'.writers[w].raised, hold := s'.writers[w].hold)
  {
    hide Clear, Sound, LinksOk, WritersOk, Filled, Begin, Finish, StoreBytes, Settle, BatchData, Copied, SetPage, Evict, Captured;
  }

  lemma StillClear(s: Sys, step: Step, x: Writer)
    requires Clear(s.m, s.flights, x) && Enabled(s, step) && !step.Open? && !step.Copy? && !step.DropInode?
    ensures Clear(Apply(s, step).m, Apply(s, step).flights, x)
  {
    hide Clear, Filled, Begin, Finish, StoreBytes, Settle, BatchData, Captured;
    match step
    case EndLoad(p) => LoadClear(s.m, s.flights, x, p, s.loading[p]);
    case Take(p, live) => TakeClear(s.m, s.flights, x, p, live);
    case WriteBatch(first, count, written, failed) =>
      BatchClear(s.m, s.flights, x, first, count, written, !failed && written == |BatchData(s.flights, first, count)|);
    case WriteLive(p, written, failed) => LiveClear(s.m, s.flights, x, p, written, !failed && written == s.flights[p].len);
    case Complete(p) => FinishClear(s.m, s.flights, x, p, s.flights[p].ok);
    case _ => SamePagesClear(s, step, x);
  }

  lemma SamePagesClear(s: Sys, step: Step, x: Writer)
    requires Clear(s.m, s.flights, x) && Enabled(s, step)
    requires step.BeginLoad? || step.Raise? || step.Lookup? || step.Measure? || step.Meta? || step.Mark? || step.Unlink?
    ensures Clear(Apply(s, step).m, Apply(s, step).flights, x)
  {
    var m' := Apply(s, step).m;
    assert m'.backing == s.m.backing && forall p | p in m'.pages :: p in s.m.pages && m'.pages[p].data == s.m.pages[p].data;
  }

  // ---------------------------------------------------------------- whole runs

  lemma {:induction false} SerialRun(s: Sys, run: seq<Step>)
    requires SysInv(s) && SerialInv(s) && OrderedRun(s, run)
    ensures AllLand(s, run)
    decreases |run|
  {
    hide SysInv, SerialInv, Enabled, Apply, Lands, Ordered;
    if run != [] {
      SerialLands(s, run[0]);
      StepSafe(s, run[0]);
      SerialStep(s, run[0]);
      SerialRun(Apply(s, run[0]), run[1..]);
    }
  }

  /** No write is lost while write calls come one at a time, reclaim leaves the page in hand alone and no copy goes
      to a page being loaded: whatever loads, reclaim and write-back come between their steps, with any mix of
      complete, short and failed device writes, the file is what the calls wrote, and the device holds it once
      nothing is dirty. */
  lemma NoWriteIsLost(backing: seq<byte>, run: seq<Step>, t: Sys)
    requires Leads(Opened(backing), run, t) && OrderedRun(Opened(backing), run)
    ensures Holds(t, Fold(backing, run))
  {
    OpenedFacts(backing);
    assert SerialInv(Opened(backing));
    hide Leads, OrderedRun, AllLand, Opened, Holds, Fold, SysInv, SerialInv;
    SerialRun(Opened(backing), run);
    LandedIsKept(backing, run, t);
  }
}
