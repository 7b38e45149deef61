/**
 One mapping under every interleaving, at page-lock granularity.

 A run interleaves any number of write calls with loads, reclaim, changes of reference bits and map
 counts, and the phases of write-back. A write call reads the size, raises it, and then for each
 page looks the page up, waits for it to be loaded if it must, reads the size again and copies; it
 holds no lock between any two of these. Loads and reclaim come in two steps as well.
 */
module PageSystem {
  import opened Basics
  import opened Bytes
  import opened PageCache
  import opened PageWriteback

  /** The page a write call has looked up: whether it is still the one the mapping links, and the size the
      call read last. */
  datatype Hold = Idle | Held(p: nat, linked: bool, sized: bool, seen: nat)

  /** A write call over [start, end) that has copied up to `at`; `was` is the size it found on entry. */
  datatype Writer = Writer(was: nat, start: nat, end: nat, at: nat, raised: bool, hold: Hold)

  /** Linked pages that hold nothing yet are in `blank`, all others in `m.pages`. For a page that is being
      loaded `loading` has the size its loader read; `evicting` pages are marked by reclaim but not unlinked yet. */
  datatype Sys = Sys(m: Mapping, blank: set<nat>, loading: map<nat, nat>, evicting: set<nat>, flights: map<nat, Flight>, writers: map<nat, Writer>)

  datatype Step =
    | Open(w: nat, start: nat, len: nat)
    | Raise(w: nat, end: nat)
    | Lookup(w: nat)
    | Measure(w: nat)
    | Copy(w: nat, at: nat, chunk: seq<byte>)
    | BeginLoad(p: nat)
    | EndLoad(p: nat)
    | Meta(p: nat, ref: bool, maps: nat)  // touch, second chance, map and unmap
    | Mark(p: nat)
    | Unlink(p: nat)
    | Take(p: nat, live: bool)
    | WriteBatch(first: nat, count: nat, written: nat, failed: bool)
    | WriteLive(p: nat, written: nat, failed: bool)
    | Complete(p: nat)
    | DropInode

  // ---------------------------------------------------------------- writers

  /** How much a call copies next. */
  ghost function Next(x: Writer): nat { if x.at < x.end then FirstChunk(x.at, x.end - x.at) else 0 }

  /** The call loads its page first: it is not up to date, starts inside the old file and is not overwritten whole. */
  ghost predicate NeedsLoad(blank: set<nat>, x: Writer) {
    && x.hold.Held? && x.hold.linked && x.hold.p in blank
    && PageStart(x.hold.p) < x.was && (x.at % PAGE_SIZE != 0 || Next(x) < PAGE_SIZE)
  }

  ghost function LinkedPages(s: Sys): set<nat> { s.m.pages.Keys + s.blank }

  /** The ends of the calls that have raised the size. */
  ghost function Ends(writers: map<nat, Writer>): set<nat> { set w | w in writers && writers[w].raised :: writers[w].end }

  /** The call after copying `n` bytes. */
  ghost function Advance(writers: map<nat, Writer>, w: nat, n: nat): map<nat, Writer>
    requires w in writers
  {
    var x := writers[w];
    if x.at + n == x.end then writers - {w} else writers[w := x.(at := x.at + n, hold := Idle)]
  }

  /** Page `p` is no longer the one its holders have. */
  ghost function Detach(writers: map<nat, Writer>, p: nat): map<nat, Writer> {
    map w | w in writers ::
      if writers[w].hold.Held? && writers[w].hold.p == p then writers[w].(hold := writers[w].hold.(linked := false)) else writers[w]
  }

  // ---------------------------------------------------------------- steps

  ghost predicate Enabled(s: Sys, step: Step) {
    match step
    case Open(w, start, len) => w !in s.writers && len > 0
    case Raise(w, end) => w in s.writers && !s.writers[w].raised && end == s.writers[w].end
    case Lookup(w) => w in s.writers && s.writers[w].raised && s.writers[w].hold.Idle?
    case Measure(w) => w in s.writers && s.writers[w].hold.Held? && !s.writers[w].hold.sized && !NeedsLoad(s.blank, s.writers[w])
    case Copy(w, at, chunk) =>
      && w in s.writers && s.writers[w].hold.Held? && s.writers[w].hold.sized
      && at == s.writers[w].at && |chunk| == Next(s.writers[w])
    case BeginLoad(p) => p !in s.m.pages && p !in s.loading
    case EndLoad(p) => p in s.loading
    case Meta(p, ref, maps) => p in s.m.pages
    case Mark(p) => p !in s.evicting && p !in s.loading && (p in s.blank || (p in s.m.pages && Evictable(s.m.pages[p])))
    case Unlink(p) => p in s.evicting
    case Take(p, live) =>
      && p in s.m.pages && s.m.pages[p].dirty && !s.m.pages[p].writeback
      && (!live ==> s.m.pages[p].valid != 0)
    case WriteBatch(first, count, written, failed) =>
      IsBatch(s.flights, first, count) && written <= |BatchData(s.flights, first, count)|
    case WriteLive(p, written, failed) =>
      && p in s.flights && p in s.m.pages && s.flights[p].live && !s.flights[p].done
      && written <= s.flights[p].len
    case Complete(p) => p in s.flights && p in s.m.pages && s.flights[p].done
    case DropInode => !s.m.retained && s.writers == map[]
  }

  /** A copy goes to the page in hand, wherever that page is by now. */
  ghost function Copied(s: Sys, x: Writer, chunk: seq<byte>): Mapping
    requires x.hold.Held? && x.at % PAGE_SIZE + |chunk| <= PAGE_SIZE
  {
    var p, off := x.hold.p, x.at % PAGE_SIZE;
    if !x.hold.linked then s.m.(dirty := s.m.dirty + {p}, retained := true)
    else if p in s.m.pages then CopySeen(s.m, p, off, chunk, x.hold.seen)
    else CopyBlank(s.m, p, off, chunk, x.hold.seen)
  }

  lemma NextFits(x: Writer)
    ensures x.at % PAGE_SIZE + Next(x) <= PAGE_SIZE
    ensures x.at < x.end ==> 0 < Next(x) && x.at + Next(x) <= x.end && Pos(PageOf(x.at), x.at % PAGE_SIZE) == x.at
  {
  }

  ghost function Apply(s: Sys, step: Step): Sys
    requires Enabled(s, step)
  {
    match step
    case Open(w, start, len) => s.(writers := s.writers[w := Writer(s.m.size, start, start + len, start, false, Idle)])
    case Raise(w, end) => s.(m := Grown(s.m, end), writers := s.writers[w := s.writers[w].(raised := true)])
    case Lookup(w) =>
      var p := PageOf(s.writers[w].at);
      s.(blank := if p in s.m.pages then s.blank else s.blank + {p},
         writers := s.writers[w := s.writers[w].(hold := Held(p, true, false, 0))])
    case Measure(w) => s.(writers := s.writers[w := s.writers[w].(hold := s.writers[w].hold.(sized := true, seen := s.m.size))])
    case Copy(w, at, chunk) =>
      var x := s.writers[w];
      NextFits(x);
      s.(m := Copied(s, x, chunk), blank := if x.hold.linked then s.blank - {x.hold.p} else s.blank,
         writers := Advance(s.writers, w, |chunk|))
    case BeginLoad(p) => s.(blank := s.blank + {p}, loading := s.loading[p := s.m.size])
    case EndLoad(p) => s.(m := Filled(s.m, p, s.loading[p]), blank := s.blank - {p}, loading := s.loading - {p})
    case Meta(p, ref, maps) => s.(m := SetPage(s.m, p, s.m.pages[p].(ref := ref, maps := maps)))
    case Mark(p) => s.(evicting := s.evicting + {p})
    case Unlink(p) =>
      s.(m := Evict(s.m, p), blank := s.blank - {p}, loading := s.loading - {p}, evicting := s.evicting - {p}, writers := Detach(s.writers, p))
    case Take(p, live) => s.(m := Begin(s.m, p), flights := s.flights[p := Captured(s.m.pages[p], live)])
    case WriteBatch(first, count, written, failed) =>
      var data := BatchData(s.flights, first, count);
      s.(m := StoreBytes(s.m, PageStart(first), data[..written]),
         flights := Settle(s.flights, first, count, !failed && written == |data|))
    case WriteLive(p, written, failed) =>
      s.(m := StoreBytes(s.m, PageStart(p), s.m.pages[p].data[..written]),
         flights := Settle(s.flights, p, 1, !failed && written == s.flights[p].len))
    case Complete(p) => s.(m := Finish(s.m, p, s.flights[p].ok), flights := s.flights - {p})
    case DropInode => Sys(Mapping(|s.m.backing|, map[], {}, false, s.m.backing), {}, map[], {}, map[], map[])
  }

  /** What a step means for the user: only raising the size and copying change the file. */
  ghost function Meaning(v: seq<byte>, step: Step): seq<byte> {
    match step
    case Raise(w, end) => Padded(v, end)
    case Copy(w, at, chunk) => Overlay(v, at, chunk)
    case _ => v
  }

  // ---------------------------------------------------------------- invariant

  /** Where a call stands: its page is the one its next byte lies on, and the size it read covers its range. */
  ghost predicate WriterOk(x: Writer, size: nat, linked: set<nat>, blank: set<nat>) {
    && x.start <= x.at < x.end && (x.at > x.start ==> x.at % PAGE_SIZE == 0)
    && (x.raised ==> x.end <= size)
    && (x.hold.Held? ==> x.raised && x.hold.p == PageOf(x.at) && (x.hold.linked ==> x.hold.p in linked))
    && (x.hold.Held? && x.hold.sized ==> x.end <= x.hold.seen <= size && !NeedsLoad(blank, x))
  }

  /** A blank page in hand has nothing on the inode past the size its holder read. */
  ghost predicate SeenOk(x: Writer, blank: set<nat>, backing: seq<byte>) {
    x.hold.Held? && x.hold.sized && x.hold.linked && x.hold.p in blank ==>
      forall k: nat | k < PAGE_SIZE && x.hold.seen <= Pos(x.hold.p, k) :: BackingByte(backing, x.hold.p, k) == 0
  }

  ghost predicate WritersOk(s: Sys) {
    forall w | w in s.writers ::
      WriterOk(s.writers[w], s.m.size, LinkedPages(s), s.blank) && SeenOk(s.writers[w], s.blank, s.m.backing)
  }

  /** Every page with contents is loaded, blank pages have none, and pages about to go are clean. */
  ghost predicate LinksOk(m: Mapping, blank: set<nat>, evicting: set<nat>) {
    && (forall p | p in m.pages :: m.pages[p].uptodate && p !in blank)
    && (forall p | p in evicting :: p in blank || (p in m.pages && !m.pages[p].dirty))
  }

  /** A page being loaded is blank, and the inode has nothing of it past the size its loader read. */
  ghost predicate LoadOk(p: nat, seen: nat, size: nat, blank: set<nat>, backing: seq<byte>) {
    p in blank && seen <= size && forall k: nat | k < PAGE_SIZE && seen <= Pos(p, k) :: BackingByte(backing, p, k) == 0
  }

  ghost predicate LoadsOk(s: Sys) { forall p | p in s.loading :: LoadOk(p, s.loading[p], s.m.size, s.blank, s.m.backing) }

  ghost predicate SysInv(s: Sys) {
    && Sound(s.m, s.flights, Ends(s.writers))
    && LinksOk(s.m, s.blank, s.evicting)
    && LoadsOk(s)
    && WritersOk(s)
  }

  /** Loads go on while sizes grow and their pages stay blank. */
  lemma LoadsKept(s: Sys, s': Sys)
    requires LoadsOk(s) && s.m.size <= s'.m.size
    requires forall p | p in s'.loading :: p in s.loading && s'.loading[p] == s.loading[p] && p in s'.blank
    requires forall p, k: nat | p in s'.blank && k < PAGE_SIZE :: BackingByte(s'.m.backing, p, k) == BackingByte(s.m.backing, p, k)
    ensures LoadsOk(s')
  {
    forall p | p in s'.loading ensures LoadOk(p, s'.loading[p], s'.m.size, s'.blank, s'.m.backing) {
      assert LoadOk(p, s.loading[p], s.m.size, s.blank, s.m.backing);
    }
  }

  /** The same when no page stops being blank and the inode stays as it is. */
  lemma LoadsKeptBy(s: Sys, s': Sys)
    requires LoadsOk(s) && s.m.size <= s'.m.size && s'.loading == s.loading && s.blank <= s'.blank && s'.m.backing == s.m.backing
    ensures LoadsOk(s')
  {
    forall p | p in s'.loading ensures LoadOk(p, s'.loading[p], s'.m.size, s'.blank, s'.m.backing) {
      assert LoadOk(p, s.loading[p], s.m.size, s.blank, s.m.backing);
    }
  }

  /** Writers stay as they are while sizes grow, pages stay linked and nothing turns blank. */
  lemma WritersKept(s: Sys, s': Sys)
    requires WritersOk(s) && s'.writers == s.writers && s.m.size <= s'.m.size
    requires LinkedPages(s) <= LinkedPages(s') && s'.blank <= s.blank
    requires forall p, k: nat | p in s'.blank && k < PAGE_SIZE :: BackingByte(s'.m.backing, p, k) == BackingByte(s.m.backing, p, k)
    ensures WritersOk(s')
  {
    forall w | w in s'.writers
      ensures WriterOk(s'.writers[w], s'.m.size, LinkedPages(s'), s'.blank) && SeenOk(s'.writers[w], s'.blank, s'.m.backing)
    {
      assert WriterOk(s.writers[w], s.m.size, LinkedPages(s), s.blank) && SeenOk(s.writers[w], s.blank, s.m.backing);
    }
  }

  // ---------------------------------------------------------------- write calls, step by step

  lemma OpenSafe(s: Sys, w: nat, start: nat, len: nat)
    requires SysInv(s) && Enabled(s, Open(w, start, len))
    ensures SysInv(Apply(s, Open(w, start, len)))
  {
    hide Sound, LinksOk, LoadsOk;
    var s' := Apply(s, Open(w, start, len));
    LoadsKeptBy(s, s');
    assert Ends(s'.writers) == Ends(s.writers) by {
      forall e ensures e in Ends(s'.writers) <==> e in Ends(s.writers) {
        if e in Ends(s.writers) {
          var v :| v in s.writers && s.writers[v].raised && s.writers[v].end == e;
          assert v in s'.writers && s'.writers[v].raised && s'.writers[v].end == e;
        }
      }
    }
    forall v | v in s'.writers && v != w
      ensures WriterOk(s'.writers[v], s.m.size, LinkedPages(s), s.blank) && SeenOk(s'.writers[v], s.blank, s.m.backing)
    {
      assert WriterOk(s.writers[v], s.m.size, LinkedPages(s), s.blank);
    }
  }

  lemma RaisedEnds(writers: map<nat, Writer>, w: nat)
    requires w in writers
    ensures Ends(writers[w := writers[w].(raised := true)]) == Ends(writers) + {writers[w].end}
  {
    var writers' := writers[w := writers[w].(raised := true)];
    forall e ensures e in Ends(writers') <==> e in Ends(writers) + {writers[w].end} {
      if e in Ends(writers) {
        var v :| v in writers && writers[v].raised && writers[v].end == e;
        assert v in writers' && writers'[v].raised && writers'[v].end == e;
      }
      assert w in writers' && writers'[w].raised && writers'[w].end == writers[w].end;
    }
  }

  lemma RaiseSafe(s: Sys, w: nat, end: nat)
    requires SysInv(s) && Enabled(s, Raise(w, end))
    ensures SysInv(Apply(s, Raise(w, end))) && View(Apply(s, Raise(w, end)).m) == Padded(View(s.m), end)
  {
    hide Sound, View, Padded, Ends;
    var s' := Apply(s, Raise(w, end));
    GrowSafe(s.m, s.flights, Ends(s.writers), end);
    RaisedEnds(s.writers, w);
    LoadsKeptBy(s, s');
    forall v | v in s'.writers
      ensures WriterOk(s'.writers[v], s'.m.size, LinkedPages(s'), s.blank) && SeenOk(s'.writers[v], s.blank, s'.m.backing)
    {
      assert WriterOk(s.writers[v], s.m.size, LinkedPages(s), s.blank) && SeenOk(s.writers[v], s.blank, s.m.backing);
    }
  }

  /** Changing what a call holds keeps the ends. */
  lemma HeldEnds(writers: map<nat, Writer>, w: nat, hold: Hold)
    requires w in writers
    ensures Ends(writers[w := writers[w].(hold := hold)]) == Ends(writers)
  {
    var writers' := writers[w := writers[w].(hold := hold)];
    forall e ensures e in Ends(writers') <==> e in Ends(writers) {
      if e in Ends(writers) {
        var v :| v in writers && writers[v].raised && writers[v].end == e;
        assert v in writers' && writers'[v].raised && writers'[v].end == e;
      }
      if e in Ends(writers') {
        var v :| v in writers' && writers'[v].raised && writers'[v].end == e;
        assert v in writers && writers[v].raised && writers[v].end == e;
      }
    }
  }

  lemma LookupSafe(s: Sys, w: nat)
    requires SysInv(s) && Enabled(s, Lookup(w))
    ensures SysInv(Apply(s, Lookup(w)))
  {
    hide Sound, Ends;
    var s', p := Apply(s, Lookup(w)), PageOf(s.writers[w].at);
    HeldEnds(s.writers, w, Held(p, true, false, 0));
    LoadsKeptBy(s, s');
    forall v | v in s'.writers
      ensures WriterOk(s'.writers[v], s.m.size, LinkedPages(s'), s'.blank) && SeenOk(s'.writers[v], s'.blank, s.m.backing)
    {
      assert WriterOk(s.writers[v], s.m.size, LinkedPages(s), s.blank) && SeenOk(s.writers[v], s.blank, s.m.backing);
    }
  }

  lemma MeasureSafe(s: Sys, w: nat)
    requires SysInv(s) && Enabled(s, Measure(w))
    ensures SysInv(Apply(s, Measure(w)))
  {
    hide Ends, FlightsOk, LengthOk;
    var s' := Apply(s, Measure(w));
    HeldEnds(s.writers, w, s.writers[w].hold.(sized := true, seen := s.m.size));
    LoadsKeptBy(s, s');
    forall v | v in s'.writers
      ensures WriterOk(s'.writers[v], s.m.size, LinkedPages(s'), s.blank) && SeenOk(s'.writers[v], s.blank, s.m.backing)
    {
      assert WriterOk(s.writers[v], s.m.size, LinkedPages(s), s.blank) && SeenOk(s.writers[v], s.blank, s.m.backing);
    }
  }

  /** A load by a reader, by a fault or by a write call that waits for it. */
  lemma BeginLoadSafe(s: Sys, p: nat)
    requires SysInv(s) && Enabled(s, BeginLoad(p))
    ensures SysInv(Apply(s, BeginLoad(p)))
  {
    hide Ends, FlightsOk, LengthOk;
    var s' := Apply(s, BeginLoad(p));
    forall q | q in s'.loading ensures LoadOk(q, s'.loading[q], s.m.size, s'.blank, s.m.backing) {
      if q != p { assert LoadOk(q, s.loading[q], s.m.size, s.blank, s.m.backing); }
    }
    forall v | v in s'.writers
      ensures WriterOk(s'.writers[v], s.m.size, LinkedPages(s'), s'.blank) && SeenOk(s'.writers[v], s'.blank, s.m.backing)
    {
      assert WriterOk(s.writers[v], s.m.size, LinkedPages(s), s.blank) && SeenOk(s.writers[v], s.blank, s.m.backing);
    }
  }

  lemma EndLoadSafe(s: Sys, p: nat)
    requires SysInv(s) && Enabled(s, EndLoad(p))
    ensures SysInv(Apply(s, EndLoad(p))) && View(Apply(s, EndLoad(p)).m) == View(s.m)
  {
    var s' := Apply(s, EndLoad(p));
    assert LoadOk(p, s.loading[p], s.m.size, s.blank, s.m.backing);
    FillLinks(s.m, s.blank, s.evicting, p, s.loading[p]);
    hide Sound, View, LinksOk, Ends, Filled;
    FillSafe(s.m, s.flights, Ends(s.writers), p, s.loading[p]);
    LoadsKept(s, s');
    WritersKept(s, s');
  }

  lemma FillLinks(m: Mapping, blank: set<nat>, evicting: set<nat>, p: nat, seen: nat)
    requires LinksOk(m, blank, evicting) && p in blank
    ensures p !in m.pages && LinksOk(Filled(m, p, seen), blank - {p}, evicting) && Filled(m, p, seen).pages.Keys == m.pages.Keys + {p}
    ensures Filled(m, p, seen).size == m.size && Filled(m, p, seen).backing == m.backing
  {
  }

  lemma AdvanceEnds(writers: map<nat, Writer>, w: nat, n: nat, size: nat)
    requires w in writers && size in Ends(writers)
    ensures size in Ends(Advance(writers, w, n)) || (writers[w].at + n == writers[w].end == size)
  {
    var v :| v in writers && writers[v].raised && writers[v].end == size;
    var writers' := Advance(writers, w, n);
    if v in writers' {
      assert writers'[v].raised && writers'[v].end == size;
    }
  }

  /** The page boundary after a chunk that is not the last. */
  lemma NextPage(x: Writer)
    requires x.at < x.end && x.at + Next(x) < x.end
    ensures (x.at + Next(x)) % PAGE_SIZE == 0
  {
  }

  lemma AdvanceWriters(s: Sys, s': Sys, w: nat)
    requires WritersOk(s) && w in s.writers && s'.writers == Advance(s.writers, w, Next(s.writers[w]))
    requires s'.m.size == s.m.size && s'.m.backing == s.m.backing && s'.blank <= s.blank && LinkedPages(s) <= LinkedPages(s')
    ensures WritersOk(s')
  {
    forall v | v in s'.writers
      ensures WriterOk(s'.writers[v], s'.m.size, LinkedPages(s'), s'.blank) && SeenOk(s'.writers[v], s'.blank, s'.m.backing)
    {
      assert WriterOk(s.writers[v], s.m.size, LinkedPages(s), s.blank) && SeenOk(s.writers[v], s.blank, s.m.backing);
      if v == w {
        NextFits(s.writers[w]);
        if s.writers[w].at + Next(s.writers[w]) < s.writers[w].end {
          NextPage(s.writers[w]);
        }
      }
    }
  }

  /** The page in hand is still linked and not about to go. */
  ghost predicate InPlace(s: Sys, x: Writer) { x.hold.Held? && x.hold.linked && x.hold.p !in s.evicting }

  /** Nobody is loading the page in hand. */
  ghost predicate AtRest(s: Sys, x: Writer) { x.hold.Held? && x.hold.p !in s.loading }

  /** When a copy reaches the file for good: its page is in place and not being loaded, and if the page was
      never loaded, the inode holds nothing else of it. */
  ghost predicate Lands(s: Sys, step: Step)
    requires Enabled(s, step)
  {
    step.Copy? ==>
      var x := s.writers[step.w];
      InPlace(s, x) && AtRest(s, x) && (x.hold.p in s.m.pages || NothingElse(s.m.backing, x.hold.p, x.at % PAGE_SIZE, |step.chunk|))
  }

  lemma WriterFacts(s: Sys, w: nat)
    requires WritersOk(s) && w in s.writers
    ensures WriterOk(s.writers[w], s.m.size, LinkedPages(s), s.blank) && SeenOk(s.writers[w], s.blank, s.m.backing)
  {
  }

  /** What a copy into the page in hand does to a linked page: everything stays consistent, and the file is
      overlaid if and only if the page was loaded or the inode holds nothing else of it. */
  lemma LinkedCopy(s: Sys, w: nat, at: nat, chunk: seq<byte>)
    requires SysInv(s) && Enabled(s, Copy(w, at, chunk)) && s.writers[w].hold.linked
    ensures var x, m' := s.writers[w], Apply(s, Copy(w, at, chunk)).m;
            && Sound(m', s.flights, Ends(Advance(s.writers, w, |chunk|)))
            && (View(m') == Overlay(View(s.m), at, chunk)
                <==> x.hold.p in s.m.pages || NothingElse(s.m.backing, x.hold.p, x.at % PAGE_SIZE, |chunk|))
  {
    var x := s.writers[w];
    var p, off := x.hold.p, x.at % PAGE_SIZE;
    WriterFacts(s, w);
    NextFits(x);
    hide Sound, Ends, View, Overlay, CopySeen, CopyBlank, WritersOk, NothingElse;
    var ends, ends' := Ends(s.writers), Ends(Advance(s.writers, w, |chunk|));
    if s.m.size in ends {
      AdvanceEnds(s.writers, w, |chunk|, s.m.size);
    }
    if p in s.m.pages {
      CopySafe(s.m, s.flights, ends, ends', p, off, chunk, x.hold.seen);
    } else {
      BlankSafe(s.m, s.flights, ends, ends', p, off, chunk, x.hold.seen);
    }
  }

  /** A copy overlays the file if and only if it goes to a linked page that was loaded or of which the inode
      holds nothing else, or it stores bytes the file has already. */
  lemma CopyExact(s: Sys, w: nat, at: nat, chunk: seq<byte>)
    requires SysInv(s) && Enabled(s, Copy(w, at, chunk))
    ensures var x := s.writers[w];
            View(Apply(s, Copy(w, at, chunk)).m) == Overlay(View(s.m), at, chunk)
            <==> if x.hold.linked then x.hold.p in s.m.pages || NothingElse(s.m.backing, x.hold.p, x.at % PAGE_SIZE, |chunk|)
                 else Overlay(View(s.m), at, chunk) == View(s.m)
  {
    if s.writers[w].hold.linked {
      hide SysInv, View, Overlay, NothingElse;
      LinkedCopy(s, w, at, chunk);
    } else {
      var m' := Apply(s, Copy(w, at, chunk)).m;
      hide Overlay;
      SameView(s.m, m');
    }
  }

  lemma CopyLinks(s: Sys, w: nat, at: nat, chunk: seq<byte>)
    requires SysInv(s) && Enabled(s, Copy(w, at, chunk)) && InPlace(s, s.writers[w])
    ensures var s' := Apply(s, Copy(w, at, chunk));
            && LinksOk(s'.m, s'.blank, s.evicting) && LinkedPages(s) <= LinkedPages(s') && s'.blank == s.blank - {s.writers[w].hold.p}
            && s'.m.size == s.m.size && s'.m.backing == s.m.backing
  {
    hide CopySeen, CopyBlank, Sound, LinksOk;
    var x := s.writers[w];
    NextFits(x);
    WriterFacts(s, w);
    if x.hold.p in s.m.pages {
      SeenLinks(s.m, s.blank, s.evicting, x.hold.p, x.at % PAGE_SIZE, chunk, x.hold.seen);
    } else {
      BlankLinks(s.m, s.blank, s.evicting, x.hold.p, x.at % PAGE_SIZE, chunk, x.hold.seen);
    }
  }

  lemma SeenLinks(m: Mapping, blank: set<nat>, evicting: set<nat>, p: nat, off: nat, chunk: seq<byte>, seen: nat)
    requires LinksOk(m, blank, evicting) && p in m.pages && p !in evicting && off + |chunk| <= PAGE_SIZE
    ensures var m' := CopySeen(m, p, off, chunk, seen);
            LinksOk(m', blank - {p}, evicting) && m'.pages.Keys == m.pages.Keys && m'.size == m.size && m'.backing == m.backing
  {
    CopySeenIs(m, p, off, chunk, seen);
    hide CopySeen;
  }

  lemma BlankLinks(m: Mapping, blank: set<nat>, evicting: set<nat>, p: nat, off: nat, chunk: seq<byte>, seen: nat)
    requires LinksOk(m, blank, evicting) && p !in evicting && off + |chunk| <= PAGE_SIZE
    ensures var m' := CopyBlank(m, p, off, chunk, seen);
            LinksOk(m', blank - {p}, evicting) && m'.pages.Keys == m.pages.Keys + {p} && m'.size == m.size && m'.backing == m.backing
  {
    CopyBlankIs(m, p, off, chunk, seen);
    hide CopyBlank;
  }

  lemma CopiesSafe(s: Sys, w: nat, at: nat, chunk: seq<byte>)
    requires SysInv(s) && Enabled(s, Copy(w, at, chunk)) && Lands(s, Copy(w, at, chunk))
    ensures SysInv(Apply(s, Copy(w, at, chunk)))
    ensures View(Apply(s, Copy(w, at, chunk)).m) == Overlay(View(s.m), at, chunk)
  {
    LinkedCopy(s, w, at, chunk);
    CopyLinks(s, w, at, chunk);
    hide Sound, LinksOk, View, Overlay, NothingElse, Copied, Ends;
    var s' := Apply(s, Copy(w, at, chunk));
    forall p | p in s.loading ensures p in s'.blank {
      assert LoadOk(p, s.loading[p], s.m.size, s.blank, s.m.backing);
    }
    LoadsKept(s, s');
    AdvanceWriters(s, s', w);
  }

  // ---------------------------------------------------------------- reclaim and write-back, step by step

  lemma MarkSafe(s: Sys, p: nat)
    requires SysInv(s) && Enabled(s, Mark(p))
    ensures SysInv(Apply(s, Mark(p)))
  {
    hide Sound;
    LoadsKeptBy(s, Apply(s, Mark(p)));
    WritersKept(s, Apply(s, Mark(p)));
  }

  lemma DetachEnds(writers: map<nat, Writer>, p: nat)
    ensures Ends(Detach(writers, p)) == Ends(writers)
  {
    var writers' := Detach(writers, p);
    forall e ensures e in Ends(writers') <==> e in Ends(writers) {
      if e in Ends(writers) {
        var v :| v in writers && writers[v].raised && writers[v].end == e;
        assert v in writers' && writers'[v].raised && writers'[v].end == e;
      }
      if e in Ends(writers') {
        var v :| v in writers' && writers'[v].raised && writers'[v].end == e;
        assert v in writers && writers[v].raised && writers[v].end == e;
      }
    }
  }

  lemma UnlinkSafe(s: Sys, p: nat)
    requires SysInv(s) && Enabled(s, Unlink(p))
    ensures SysInv(Apply(s, Unlink(p))) && View(Apply(s, Unlink(p)).m) == View(s.m)
  {
    hide Sound, View, Ends;
    var s' := Apply(s, Unlink(p));
    DetachEnds(s.writers, p);
    if p in s.m.pages {
      EvictSafe(s.m, s.flights, Ends(s.writers), p);
    } else {
      assert s.m.pages - {p} == s.m.pages;
    }
    assert forall q | q in s.loading :: LoadOk(q, s.loading[q], s.m.size, s.blank, s.m.backing);
    LoadsKept(s, s');
    forall v | v in s'.writers
      ensures WriterOk(s'.writers[v], s'.m.size, LinkedPages(s'), s'.blank) && SeenOk(s'.writers[v], s'.blank, s'.m.backing)
    {
      assert WriterOk(s.writers[v], s.m.size, LinkedPages(s), s.blank) && SeenOk(s.writers[v], s.blank, s.m.backing);
    }
  }

  lemma MetasSafe(s: Sys, p: nat, ref: bool, maps: nat)
    requires SysInv(s) && p in s.m.pages
    ensures SysInv(Apply(s, Meta(p, ref, maps))) && View(Apply(s, Meta(p, ref, maps)).m) == View(s.m)
  {
    hide Sound, View, Ends;
    MetaSafe(s.m, s.flights, Ends(s.writers), p, ref, maps);
    LoadsKeptBy(s, Apply(s, Meta(p, ref, maps)));
    WritersKept(s, Apply(s, Meta(p, ref, maps)));
  }

  lemma TakesSafe(s: Sys, p: nat, live: bool)
    requires SysInv(s) && Enabled(s, Take(p, live))
    ensures SysInv(Apply(s, Take(p, live))) && View(Apply(s, Take(p, live)).m) == View(s.m)
  {
    hide Sound, View, Ends;
    TakeSafe(s.m, s.flights, Ends(s.writers), p, live);
    LoadsKeptBy(s, Apply(s, Take(p, live)));
    WritersKept(s, Apply(s, Take(p, live)));
  }

  /** A device write inside dirty pages leaves every page that is not cached as it was. */
  lemma StoreOutside(m: Mapping, off: nat, d: seq<byte>, p: nat, k: nat)
    requires OnDirty(m, off, |d|) && p !in m.pages && k < PAGE_SIZE
    ensures BackingByte(StoreBytes(m, off, d).backing, p, k) == BackingByte(m.backing, p, k)
  {
    OverlayAt(m.backing, off, d, Pos(p, k));
  }

  lemma StoresKeep(s: Sys, s': Sys, off: nat, d: seq<byte>)
    requires WritersOk(s) && LoadsOk(s) && LinksOk(s.m, s.blank, s.evicting) && OnDirty(s.m, off, |d|)
    requires s' == s.(m := StoreBytes(s.m, off, d), flights := s'.flights)
    ensures WritersOk(s') && LoadsOk(s') && LinksOk(s'.m, s'.blank, s'.evicting)
  {
    hide OnDirty;
    forall p, k: nat | p in s'.blank && k < PAGE_SIZE ensures BackingByte(s'.m.backing, p, k) == BackingByte(s.m.backing, p, k) {
      StoreOutside(s.m, off, d, p, k);
    }
    assert forall p | p in s.loading :: LoadOk(p, s.loading[p], s.m.size, s.blank, s.m.backing);
    LoadsKept(s, s');
    WritersKept(s, s');
  }

  lemma WriteBatchesSafe(s: Sys, first: nat, count: nat, written: nat, failed: bool)
    requires SysInv(s) && Enabled(s, WriteBatch(first, count, written, failed))
    ensures var s' := Apply(s, WriteBatch(first, count, written, failed)); SysInv(s') && View(s'.m) == View(s.m)
  {
    hide View, Ends, LinksOk, WritersOk, LoadsOk, OnDirty;
    BatchOnDirty(s.m, s.flights, first, count, written);
    WriteBatchSafe(s.m, s.flights, Ends(s.writers), first, count, written, failed);
    StoresKeep(s, Apply(s, WriteBatch(first, count, written, failed)), PageStart(first), BatchData(s.flights, first, count)[..written]);
  }

  lemma WriteLivesSafe(s: Sys, p: nat, written: nat, failed: bool)
    requires SysInv(s) && Enabled(s, WriteLive(p, written, failed))
    ensures var s' := Apply(s, WriteLive(p, written, failed)); SysInv(s') && View(s'.m) == View(s.m)
  {
    hide View, Ends, LinksOk, WritersOk, LoadsOk, OnDirty;
    LiveOnDirty(s.m, s.flights, p, written);
    WriteLiveSafe(s.m, s.flights, Ends(s.writers), p, written, !failed && written == s.flights[p].len);
    StoresKeep(s, Apply(s, WriteLive(p, written, failed)), PageStart(p), s.m.pages[p].data[..written]);
  }

  lemma CompletesSafe(s: Sys, p: nat)
    requires SysInv(s) && Enabled(s, Complete(p))
    ensures SysInv(Apply(s, Complete(p))) && View(Apply(s, Complete(p)).m) == View(s.m)
  {
    hide Sound, View, Ends, LinksOk, Finish;
    CompleteLinks(s.m, s.blank, s.evicting, p, s.flights[p].ok);
    CompleteSafe(s.m, s.flights, Ends(s.writers), p);
    LoadsKeptBy(s, Apply(s, Complete(p)));
    WritersKept(s, Apply(s, Complete(p)));
  }

  lemma CompleteLinks(m: Mapping, blank: set<nat>, evicting: set<nat>, p: nat, ok: bool)
    requires LinksOk(m, blank, evicting) && p in m.pages
    ensures LinksOk(Finish(m, p, ok), blank, evicting) && Finish(m, p, ok).pages.Keys == m.pages.Keys
    ensures Finish(m, p, ok).size == m.size && Finish(m, p, ok).backing == m.backing
  {
    var m' := Finish(m, p, ok);
    assert m'.pages == m.pages[p := m'.pages[p]] && m'.pages[p].uptodate;
  }

  lemma NoEnds()
    ensures Ends(map[]) == {}
  {
  }

  /** Dropping an inode with nothing retained and no caller loses no byte. */
  lemma DropInodeSafe(s: Sys)
    requires SysInv(s) && Enabled(s, DropInode)
    ensures SysInv(Apply(s, DropInode)) && View(Apply(s, DropInode).m) == View(s.m)
  {
    NoEnds();
    CleanIsStored(s.m, s.flights);
  }

  // ---------------------------------------------------------------- whole runs

  lemma StepSafe(s: Sys, step: Step)
    requires SysInv(s) && Enabled(s, step) && Lands(s, step)
    ensures SysInv(Apply(s, step))
    ensures View(Apply(s, step).m) == Meaning(View(s.m), step)
  {
    hide SysInv, View, Padded, Overlay, Filled, Copied, Begin, Finish, StoreBytes, BatchData, Settle, Evict;
    match step
    case Open(w, start, len) => OpenSafe(s, w, start, len);
    case Raise(w, end) => RaiseSafe(s, w, end);
    case Lookup(w) => LookupSafe(s, w);
    case Measure(w) => MeasureSafe(s, w);
    case Copy(w, at, chunk) => CopiesSafe(s, w, at, chunk);
    case BeginLoad(p) => BeginLoadSafe(s, p);
    case EndLoad(p) => EndLoadSafe(s, p);
    case Meta(p, ref, maps) => MetasSafe(s, p, ref, maps);
    case Mark(p) => MarkSafe(s, p);
    case Unlink(p) => UnlinkSafe(s, p);
    case Take(p, live) => TakesSafe(s, p, live);
    case WriteBatch(first, count, written, failed) => WriteBatchesSafe(s, first, count, written, failed);
    case WriteLive(p, written, failed) => WriteLivesSafe(s, p, written, failed);
    case Complete(p) => CompletesSafe(s, p);
    case DropInode => DropInodeSafe(s);
  }

  /** `s` reaches `t` by the steps of `run`, in order, each enabled when taken. */
  ghost predicate Leads(s: Sys, run: seq<Step>, t: Sys)
    decreases |run|
  {
    if run == [] then s == t
    else Enabled(s, run[0]) && Leads(Apply(s, run[0]), run[1..], t)
  }

  /** Every copy of the run reaches the file. */
  ghost predicate AllLand(s: Sys, run: seq<Step>)
    decreases |run|
  {
    run == [] || (Enabled(s, run[0]) && Lands(s, run[0]) && AllLand(Apply(s, run[0]), run[1..]))
  }

  /** The file the user's steps make of `v`. */
  ghost function Fold(v: seq<byte>, run: seq<Step>): seq<byte>
    decreases |run|
  {
    if run == [] then v else Fold(Meaning(v, run[0]), run[1..])
  }

  /** A freshly opened file: nothing resident, the cached size is the device's. */
  ghost function Opened(backing: seq<byte>): Sys {
    Sys(Mapping(|backing|, map[], {}, false, backing), {}, map[], {}, map[], map[])
  }

  lemma {:induction false} RunSafe(s: Sys, run: seq<Step>, t: Sys)
    requires SysInv(s) && Leads(s, run, t) && AllLand(s, run)
    ensures SysInv(t) && View(t.m) == Fold(View(s.m), run)
    decreases |run|
  {
    hide SysInv, Enabled, Apply, View, Meaning, Lands;
    if run != [] {
      StepSafe(s, run[0]);
      RunSafe(Apply(s, run[0]), run[1..], t);
    }
  }

  lemma OpenedFacts(backing: seq<byte>)
    ensures SysInv(Opened(backing)) && View(Opened(backing).m) == backing
  {
    NoEnds();
  }

  /** What a run must leave: the dirty set and the retained flag are exact, every page that is not dirty agrees
      with the device, the file is `file`, and whenever nothing is dirty and no write call is at work the
      device holds it. */
  ghost predicate Holds(t: Sys, file: seq<byte>) {
    && (forall p: nat :: p in t.m.dirty <==> p in t.m.pages && t.m.pages[p].dirty)
    && (t.m.retained <==> t.m.dirty != {})
    && (forall p | p in t.m.pages && !t.m.pages[p].dirty :: Agrees(t.m.pages[p], p, t.m.backing))
    && View(t.m) == file
    && (!t.m.retained && t.writers == map[] ==> t.m.backing == file)
  }

  /** While every copy lands no write is lost, in any interleaving and with any mix of complete, short and
      failed device writes. */
  lemma LandedIsKept(backing: seq<byte>, run: seq<Step>, t: Sys)
    requires Leads(Opened(backing), run, t) && AllLand(Opened(backing), run)
    ensures Holds(t, Fold(backing, run))
  {
    OpenedFacts(backing);
    hide Leads, AllLand, Fold, Opened, FlightsOk, LengthOk, View;
    RunSafe(Opened(backing), run, t);
    if !t.m.retained && t.writers == map[] {
      NoEnds();
      CleanIsStored(t.m, t.flights);
    }
  }
}
