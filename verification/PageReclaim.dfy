/**
 Second-chance reclaim over the global inactive queue of page-cache pages.

 Queue entries are weak references: an identifier that is no longer live is a stale entry.
 */
module PageReclaim {

  /** Where a page hangs: in its mapping, removed from a living mapping, or without a mapping. */
  datatype Link = Linked | Detached | Orphan

  /** `busy` stands for LOADING, WRITEBACK or EVICTING. */
  datatype RPage = RPage(pins: nat, maps: nat, busy: bool, ref: bool, dirty: bool, link: Link, queued: bool)

  datatype State = State(queue: seq<nat>, live: map<nat, RPage>, cached: nat, low: nat)

  datatype Outcome = Reclaimed | Deferred | Skipped | Stop

  const MAX_DEFERRED_ONLY_PASSES: nat := 4

  /** Which pages the device would accept in a write-back. */
  type Device = nat -> bool

  // ---------------------------------------------------------------- queue invariant

  ghost function Count(q: seq<nat>, id: nat): nat { multiset(q)[id] }

  /** Every live page is in the queue exactly once, and is marked so. */
  ghost predicate QueueOk(s: State) {
    forall id | id in s.live :: s.live[id].queued && Count(s.queue, id) == 1
  }

  // ---------------------------------------------------------------- one step

  /** Length of the stale prefix. */
  function StalePrefix(q: seq<nat>, live: map<nat, RPage>): (n: nat)
    ensures n <= |q| && (forall i | 0 <= i < n :: q[i] !in live) && (n < |q| ==> q[n] in live)
  {
    if q == [] || q[0] in live then 0 else 1 + StalePrefix(q[1..], live)
  }

  function Requeue(s: State, id: nat, pg: RPage): State {
    s.(queue := s.queue + [id], live := s.live[id := pg.(queued := true)])
  }

  /** What the reclaimer does with a page it has taken off the queue. */
  function Treat(s: State, id: nat, ok: Device): (State, Outcome)
    requires id in s.live
  {
    var pg := s.live[id];
    if pg.pins > 0 || pg.maps > 0 || pg.busy then (Requeue(s, id, pg), Skipped)
    else if pg.ref then (Requeue(s, id, pg.(ref := false)), Deferred)
    else if pg.dirty then
      if pg.link.Orphan? then (Requeue(s, id, pg), Deferred)
      else if ok(id) then (Requeue(s, id, pg.(dirty := false)), Deferred)
      else (Requeue(s, id, pg), Skipped)
    else if pg.link.Detached? then (Requeue(s, id, pg), Skipped)
    else (s.(live := s.live - {id}, cached := if s.cached == 0 then 0 else s.cached - 1), Reclaimed)
  }

  function ReclaimOne(s: State, ok: Device): (State, Outcome) {
    if s.cached <= s.low then (s, Stop)
    else
      var n := StalePrefix(s.queue, s.live);
      if n == |s.queue| then (s.(queue := []), Stop)
      else Treat(s.(queue := s.queue[n + 1..], live := s.live[s.queue[n] := s.live[s.queue[n]].(queued := false)]), s.queue[n], ok)
  }

  // ---------------------------------------------------------------- passes and episodes

  datatype Stats = Stats(scanned: nat, reclaimed: nat, deferred: nat, skipped: nat, stopped: bool)

  function Tally(st: Stats, o: Outcome): Stats {
    match o
    case Reclaimed => st.(scanned := st.scanned + 1, reclaimed := st.reclaimed + 1)
    case Deferred => st.(scanned := st.scanned + 1, deferred := st.deferred + 1)
    case Skipped => st.(scanned := st.scanned + 1, skipped := st.skipped + 1)
    case Stop => st.(scanned := st.scanned + 1, stopped := true)
  }

  function Pass(s: State, budget: nat, ok: Device, st: Stats): (State, Stats)
    decreases budget
  {
    if budget == 0 || st.stopped then (s, st)
    else
      var (s1, o) := ReclaimOne(s, ok);
      Pass(s1, budget - 1, ok, Tally(st, o))
  }

  const NONE: Stats := Stats(0, 0, 0, 0, false)

  lemma StepCached(s: State, ok: Device)
    ensures var (s1, o) := ReclaimOne(s, ok);
            s1.low == s.low && if o.Reclaimed? then s1.cached == s.cached - 1 else s1.cached == s.cached
  {
  }

  lemma {:induction false} PassCached(s: State, budget: nat, ok: Device, st: Stats)
    ensures var (s1, st1) := Pass(s, budget, ok, st);
            && s1.low == s.low && st.reclaimed <= st1.reclaimed && st.deferred <= st1.deferred
            && s1.cached + (st1.reclaimed - st.reclaimed) == s.cached
    decreases budget
  {
    if budget != 0 && !st.stopped {
      StepCached(s, ok);
      var (s1, o) := ReclaimOne(s, ok);
      PassCached(s1, budget - 1, ok, Tally(st, o));
    }
  }

  /** The statistics account for every page a pass looked at, once each. */
  lemma {:induction false} PassTallies(s: State, budget: nat, ok: Device)
    ensures var st := Pass(s, budget, ok, NONE).1;
            st.scanned == st.reclaimed + st.deferred + st.skipped + (if st.stopped then 1 else 0) && st.scanned <= budget
  {
    PassTalliesFrom(s, budget, ok, NONE);
  }

  lemma {:induction false} PassTalliesFrom(s: State, budget: nat, ok: Device, st: Stats)
    requires st.scanned == st.reclaimed + st.deferred + st.skipped + (if st.stopped then 1 else 0)
    ensures var st1 := Pass(s, budget, ok, st).1;
            st1.scanned == st1.reclaimed + st1.deferred + st1.skipped + (if st1.stopped then 1 else 0) && st1.scanned <= st.scanned + budget
    decreases budget
  {
    hide ReclaimOne;
    if budget != 0 && !st.stopped {
      var (s1, o) := ReclaimOne(s, ok);
      PassTalliesFrom(s1, budget - 1, ok, Tally(st, o));
    }
  }

  /** The episode: passes over the whole queue until the low watermark, no progress at all, or
      four passes in a row that only deferred. */
  function Episode(s: State, ok: Device, deferredPasses: nat): State
    requires deferredPasses < MAX_DEFERRED_ONLY_PASSES
    decreases s.cached, MAX_DEFERRED_ONLY_PASSES - deferredPasses
  {
    if s.cached <= s.low || s.queue == [] then s
    else
      PassCached(s, |s.queue|, ok, NONE);
      var (s1, st) := Pass(s, |s.queue|, ok, NONE);
      if st.reclaimed > 0 then Episode(s1, ok, 0)
      else if st.deferred == 0 then s1
      else if deferredPasses + 1 >= MAX_DEFERRED_ONLY_PASSES then s1
      else Episode(s1, ok, deferredPasses + 1)
  }

  // ---------------------------------------------------------------- the queue stays exact

  lemma CountAppend(q: seq<nat>, r: seq<nat>, id: nat)
    ensures Count(q + r, id) == Count(q, id) + Count(r, id)
  {
  }

  lemma PopCount(q: seq<nat>, n: nat, id: nat)
    requires n < |q| && forall i | 0 <= i < n :: q[i] != id
    ensures Count(q, id) == Count(q[n + 1..], id) + if q[n] == id then 1 else 0
  {
    assert q == q[..n] + [q[n]] + q[n + 1..];
  }

  /** A reclaim step keeps every live page queued exactly once. */
  lemma StepQueue(s: State, ok: Device)
    requires QueueOk(s)
    ensures QueueOk(ReclaimOne(s, ok).0)
  {
    var n := StalePrefix(s.queue, s.live);
    var s1 := ReclaimOne(s, ok).0;
    forall id | id in s1.live ensures s1.live[id].queued && Count(s1.queue, id) == 1 {
      assert Count(s.queue, id) == 1;
      if s.low < s.cached && n < |s.queue| {
        PopCount(s.queue, n, id);
        CountAppend(s.queue[n + 1..], [s.queue[n]], id);
      }
    }
  }

  // ---------------------------------------------------------------- progress

  /** A page the reclaimer can get rid of: unpinned, unmapped, idle, in place, and writable back. */
  ghost predicate Willing(pg: RPage, id: nat, ok: Device) {
    pg.pins == 0 && pg.maps == 0 && !pg.busy && pg.link.Linked? && (pg.dirty ==> ok(id))
  }

  /** How many more chances the page gets. */
  ghost function Rank(pg: RPage): nat {
    (if pg.ref then 1 else 0) + (if pg.dirty then 1 else 0)
  }

  /** Above the watermark, with a willing page `x` in the queue. */
  ghost predicate Hopeful(s: State, x: nat, ok: Device) {
    QueueOk(s) && s.low < s.cached && x in s.live && Willing(s.live[x], x, ok)
  }

  /** One step either frees a page, or leaves `x` willing with no more chances than before; if it
      was `x` itself that was looked at, with fewer. */
  lemma StepHopeful(s: State, ok: Device, x: nat, i: nat)
    requires Hopeful(s, x, ok) && i < |s.queue| && s.queue[i] == x
    ensures var (s1, o) := ReclaimOne(s, ok);
            var n := StalePrefix(s.queue, s.live);
            && !o.Stop? && n <= i
            && (!o.Reclaimed? ==> Hopeful(s1, x, ok))
            && (!o.Reclaimed? && n == i ==> o.Deferred? && Rank(s1.live[x]) < Rank(s.live[x]))
            && (!o.Reclaimed? && n < i ==> Rank(s1.live[x]) == Rank(s.live[x]) && i - n - 1 < |s1.queue| && s1.queue[i - n - 1] == x)
  {
    hide QueueOk, Count;
    StepQueue(s, ok);
    StepCached(s, ok);
    OnlyOnce(s, x, i);
    var n := StalePrefix(s.queue, s.live);
    if n < i {
      assert s.queue[n + 1..][i - n - 1] == x;
    }
  }

  lemma OnlyOnce(s: State, x: nat, i: nat)
    requires QueueOk(s) && x in s.live && i < |s.queue| && s.queue[i] == x
    ensures forall j | 0 <= j < i :: s.queue[j] != x
  {
    assert Count(s.queue, x) == 1;
    forall j | 0 <= j < i ensures s.queue[j] != x { TwiceCounts(s.queue, j, i); }
  }

  lemma TwiceCounts(q: seq<nat>, j: nat, i: nat)
    requires j < i < |q|
    ensures q[i] == q[j] ==> Count(q, q[i]) >= 2
  {
    assert q == q[..j] + [q[j]] + q[j + 1..i] + [q[i]] + q[i + 1..];
  }

  /** What a pass that frees nothing has done for `x`. */
  ghost predicate Advanced(s: State, st: Stats, r: (State, Stats), x: nat, ok: Device, strictly: bool)
    requires x in s.live
  {
    || r.1.reclaimed > st.reclaimed
    || (&& Hopeful(r.0, x, ok) && r.0.cached == s.cached && st.deferred <= r.1.deferred
        && Rank(r.0.live[x]) <= Rank(s.live[x])
        && (strictly ==> Rank(r.0.live[x]) < Rank(s.live[x]) && st.deferred < r.1.deferred))
  }

  lemma {:induction false} PassHopeful(s: State, budget: nat, ok: Device, st: Stats, x: nat, i: nat)
    requires Hopeful(s, x, ok) && i < |s.queue| && s.queue[i] == x && !st.stopped
    ensures Advanced(s, st, Pass(s, budget, ok, st), x, ok, i < budget)
    decreases budget
  {
    hide QueueOk, ReclaimOne;
    if budget != 0 {
      StepHopeful(s, ok, x, i);
      StepCached(s, ok);
      var (s1, o) := ReclaimOne(s, ok);
      var n := StalePrefix(s.queue, s.live);
      PassCached(s1, budget - 1, ok, Tally(st, o));
      if !o.Reclaimed? {
        var j := if n < i then i - n - 1 else QueuedAt(s1, x);
        PassHopeful(s1, budget - 1, ok, Tally(st, o), x, j);
      }
    }
  }

  ghost function QueuedAt(s: State, x: nat): (i: nat)
    requires QueueOk(s) && x in s.live
    ensures i < |s.queue| && s.queue[i] == x
  {
    assert Count(s.queue, x) == 1;
    assert x in s.queue;
    var i :| 0 <= i < |s.queue| && s.queue[i] == x;
    i
  }

  /** An episode that starts above the watermark with some willing page in the queue frees a page
      before it gives up. */
  lemma EpisodeFrees(s: State, ok: Device, x: nat)
    requires Hopeful(s, x, ok)
    ensures Episode(s, ok, 0).cached < s.cached
  {
    EpisodeFreesFrom(s, ok, 0, x);
  }

  lemma {:induction false} EpisodeFreesFrom(s: State, ok: Device, d: nat, x: nat)
    requires Hopeful(s, x, ok) && d + Rank(s.live[x]) < MAX_DEFERRED_ONLY_PASSES - 1
    ensures Episode(s, ok, d).cached < s.cached
    decreases Rank(s.live[x])
  {
    var i := QueuedAt(s, x);
    PassHopeful(s, |s.queue|, ok, NONE, x, i);
    PassCached(s, |s.queue|, ok, NONE);
    var (s1, st) := Pass(s, |s.queue|, ok, NONE);
    if st.reclaimed > 0 {
      EpisodeShrinks(s1, ok, 0);
    } else {
      EpisodeFreesFrom(s1, ok, d + 1, x);
    }
  }

  lemma {:induction false} EpisodeShrinks(s: State, ok: Device, d: nat)
    requires d < MAX_DEFERRED_ONLY_PASSES
    ensures Episode(s, ok, d).cached <= s.cached
    decreases s.cached, MAX_DEFERRED_ONLY_PASSES - d
  {
    if s.low < s.cached && s.queue != [] {
      PassCached(s, |s.queue|, ok, NONE);
      var (s1, st) := Pass(s, |s.queue|, ok, NONE);
      if st.reclaimed > 0 {
        EpisodeShrinks(s1, ok, 0);
      } else if d + 1 < MAX_DEFERRED_ONLY_PASSES {
        EpisodeShrinks(s1, ok, d + 1);
      }
    }
  }

  lemma {:induction false} PassQueue(s: State, budget: nat, ok: Device, st: Stats)
    requires QueueOk(s)
    ensures QueueOk(Pass(s, budget, ok, st).0)
    decreases budget
  {
    if budget != 0 && !st.stopped {
      StepQueue(s, ok);
      PassQueue(ReclaimOne(s, ok).0, budget - 1, ok, Tally(st, ReclaimOne(s, ok).1));
    }
  }

  /** A whole episode keeps every live page queued exactly once. */
  lemma {:induction false} EpisodeQueue(s: State, ok: Device, d: nat)
    requires QueueOk(s) && d < MAX_DEFERRED_ONLY_PASSES
    ensures QueueOk(Episode(s, ok, d))
    decreases s.cached, MAX_DEFERRED_ONLY_PASSES - d
  {
    if s.low < s.cached && s.queue != [] {
      PassCached(s, |s.queue|, ok, NONE);
      PassQueue(s, |s.queue|, ok, NONE);
      var (s1, st) := Pass(s, |s.queue|, ok, NONE);
      if st.reclaimed > 0 {
        EpisodeQueue(s1, ok, 0);
      } else if d + 1 < MAX_DEFERRED_ONLY_PASSES {
        EpisodeQueue(s1, ok, d + 1);
      }
    }
  }

  // ---------------------------------------------------------------- what may be freed

  /** In use: pinned, mapped into an address space, or being loaded, written back or evicted. */
  ghost predicate Guarded(pg: RPage) { pg.pins > 0 || pg.maps > 0 || pg.busy }

  /** Nobody uses the page, its second chance is spent, the inode has its bytes, and it is not being dropped already. */
  ghost predicate Freeable(pg: RPage) { !Guarded(pg) && !pg.ref && !pg.dirty && !pg.link.Detached? }

  /** The page goes to the device, which accepts it. */
  ghost predicate WrittenBack(pg: RPage, id: nat, ok: Device) {
    !Guarded(pg) && !pg.ref && pg.dirty && !pg.link.Orphan? && ok(id)
  }

  /** One step looks at the first live page of the queue and at no other. It frees that page if and only if it is
      `Freeable`, leaves it as it was if it is in use, and cleans it if and only if the device has taken its bytes. */
  lemma StepExact(s: State, ok: Device)
    requires QueueOk(s)
    ensures var (s1, o) := ReclaimOne(s, ok);
            && (o.Stop? <==> s.cached <= s.low || s.live == map[])
            && (o.Stop? ==> s1.live == s.live)
            && (!o.Stop? ==> exists id: nat, n: nat :: First(s, id, n) && Looked(s.live, s1.live, id, ok) && o == Verdict(s.live[id], id, ok))
  {
    var n := StalePrefix(s.queue, s.live);
    SomeQueued(s);
    if s.low < s.cached && n < |s.queue| {
      LookedExact(s, n, ok);
    }
  }

  lemma SomeQueued(s: State)
    requires QueueOk(s)
    ensures s.live == map[] <==> StalePrefix(s.queue, s.live) == |s.queue|
  {
    if s.live != map[] {
      var id :| id in s.live;
      var i := QueuedAt(s, id);
      assert StalePrefix(s.queue, s.live) <= i;
    }
  }

  lemma LookedExact(s: State, n: nat, ok: Device)
    requires QueueOk(s) && s.low < s.cached && n == StalePrefix(s.queue, s.live) < |s.queue|
    ensures var (s1, o) := ReclaimOne(s, ok);
            First(s, s.queue[n], n) && Looked(s.live, s1.live, s.queue[n], ok) && o == Verdict(s.live[s.queue[n]], s.queue[n], ok)
  {
    assert s.live[s.queue[n]].queued;
    hide QueueOk, StalePrefix;
  }

  /** Page `id` is the first live entry of the queue, at place `n`. */
  ghost predicate First(s: State, id: nat, n: nat) {
    n < |s.queue| && s.queue[n] == id && id in s.live && forall i | 0 <= i < n :: s.queue[i] !in s.live
  }

  /** The pages before and after the reclaimer looked at page `id`. */
  ghost predicate Looked(live: map<nat, RPage>, live': map<nat, RPage>, id: nat, ok: Device)
    requires id in live
  {
    var pg := live[id];
    && live'.Keys == (if Freeable(pg) then live.Keys - {id} else live.Keys)
    && (forall k | k in live' && k != id :: live'[k] == live[k])
    && (id in live' ==> live'[id] == pg.(ref := pg.ref && Guarded(pg), dirty := pg.dirty && !WrittenBack(pg, id, ok)))
  }

  ghost function Verdict(pg: RPage, id: nat, ok: Device): Outcome {
    if Freeable(pg) then Reclaimed
    else if !Guarded(pg) && (pg.ref || WrittenBack(pg, id, ok) || (pg.dirty && pg.link.Orphan?)) then Deferred
    else Skipped
  }

  /** The state after `n` steps. */
  ghost function Steps(s: State, n: nat, ok: Device): State
    decreases n
  {
    if n == 0 then s else Steps(ReclaimOne(s, ok).0, n - 1, ok)
  }

  lemma {:induction false} StepsJoin(s: State, a: nat, b: nat, ok: Device)
    ensures Steps(s, a + b, ok) == Steps(Steps(s, a, ok), b, ok)
    decreases a
  {
    if a != 0 { StepsJoin(ReclaimOne(s, ok).0, a - 1, b, ok); }
  }

  lemma {:induction false} StepsQueue(s: State, n: nat, ok: Device)
    requires QueueOk(s)
    ensures QueueOk(Steps(s, n, ok))
    decreases n
  {
    if n != 0 {
      StepQueue(s, ok);
      StepsQueue(ReclaimOne(s, ok).0, n - 1, ok);
    }
  }

  /** A pass is as many steps as it has scanned pages. */
  lemma {:induction false} PassIsSteps(s: State, budget: nat, ok: Device, st: Stats)
    ensures var (s1, st1) := Pass(s, budget, ok, st);
            st.scanned <= st1.scanned <= st.scanned + budget && s1 == Steps(s, st1.scanned - st.scanned, ok)
    decreases budget
  {
    hide ReclaimOne;
    if budget != 0 && !st.stopped {
      var (s1, o) := ReclaimOne(s, ok);
      PassIsSteps(s1, budget - 1, ok, Tally(st, o));
    }
  }

  /** An episode is a series of steps. */
  lemma {:induction false} EpisodeIsSteps(s: State, ok: Device, d: nat) returns (n: nat)
    requires d < MAX_DEFERRED_ONLY_PASSES
    ensures Episode(s, ok, d) == Steps(s, n, ok)
    decreases s.cached, MAX_DEFERRED_ONLY_PASSES - d
  {
    hide Pass, ReclaimOne;
    n := 0;
    if s.low < s.cached && s.queue != [] {
      PassCached(s, |s.queue|, ok, NONE);
      PassIsSteps(s, |s.queue|, ok, NONE);
      var (s1, st) := Pass(s, |s.queue|, ok, NONE);
      n := st.scanned;
      if st.reclaimed > 0 || (st.deferred > 0 && d + 1 < MAX_DEFERRED_ONLY_PASSES) {
        var more := EpisodeIsSteps(s1, ok, if st.reclaimed > 0 then 0 else d + 1);
        StepsJoin(s, n, more, ok);
        n := n + more;
      }
    }
  }

  /** What reclaim may have done to the pages: it brings none in, leaves pages in use alone, cleans a page only when
      the device took its bytes, and drops only pages that nobody uses and whose bytes the device has. */
  ghost predicate Spared(live: map<nat, RPage>, live': map<nat, RPage>, ok: Device) {
    && live'.Keys <= live.Keys
    && (forall id | id in live && id !in live' ::
          !Guarded(live[id]) && !live[id].link.Detached? && (live[id].dirty ==> live[id].link.Linked? && ok(id)))
    && (forall id | id in live' :: if Guarded(live[id]) then live'[id] == live[id] else Milder(live[id], live'[id], id, ok))
  }

  ghost predicate Milder(pg: RPage, pg': RPage, id: nat, ok: Device) {
    && pg' == pg.(ref := pg'.ref, dirty := pg'.dirty)
    && (pg'.ref ==> pg.ref) && (pg'.dirty ==> pg.dirty)
    && (pg.dirty && !pg'.dirty ==> !pg'.ref && !pg.link.Orphan? && ok(id))
  }

  lemma StepSpares(s: State, ok: Device)
    requires QueueOk(s)
    ensures Spared(s.live, ReclaimOne(s, ok).0.live, ok)
  {
    StepExact(s, ok);
    hide ReclaimOne, QueueOk;
  }

  lemma SparedSelf(live: map<nat, RPage>, ok: Device)
    ensures Spared(live, live, ok)
  {
  }

  lemma SparedTwice(a: map<nat, RPage>, b: map<nat, RPage>, c: map<nat, RPage>, ok: Device)
    requires Spared(a, b, ok) && Spared(b, c, ok)
    ensures Spared(a, c, ok)
  {
  }

  lemma {:induction false} StepsSpare(s: State, n: nat, ok: Device)
    requires QueueOk(s)
    ensures Spared(s.live, Steps(s, n, ok).live, ok)
    decreases n
  {
    hide QueueOk, Spared, ReclaimOne;
    if n == 0 {
      assert Spared(s.live, s.live, ok) by { SparedSelf(s.live, ok); }
    } else {
      StepSpares(s, ok);
      StepQueue(s, ok);
      var s1 := ReclaimOne(s, ok).0;
      StepsSpare(s1, n - 1, ok);
      SparedTwice(s.live, s1.live, Steps(s1, n - 1, ok).live, ok);
    }
  }

  /** After `k` steps page `id` is free to go, and the next step drops it and no other page. */
  ghost predicate GoesAt(s: State, k: nat, id: nat, ok: Device) {
    var t := Steps(s, k, ok);
    id in t.live && Freeable(t.live[id]) && ReclaimOne(t, ok).0.live.Keys == t.live.Keys - {id}
  }

  /** A page that a series of steps has dropped was free to go when it went. */
  lemma {:induction false} FreedInTime(s: State, n: nat, ok: Device, id: nat) returns (k: nat)
    requires QueueOk(s) && id in s.live && id !in Steps(s, n, ok).live
    ensures k < n && GoesAt(s, k, id, ok)
    decreases n
  {
    StepExact(s, ok);
    var s1 := ReclaimOne(s, ok).0;
    if id !in s1.live {
      k := 0;
    } else {
      StepQueue(s, ok);
      k := FreedInTime(s1, n - 1, ok, id);
      k := k + 1;
    }
  }

  /** A whole episode frees only pages that were unused, clean and in place when they went, and leaves every page in
      use as it was. */
  lemma EpisodeSpares(s: State, ok: Device, d: nat)
    requires QueueOk(s) && d < MAX_DEFERRED_ONLY_PASSES
    ensures Spared(s.live, Episode(s, ok, d).live, ok)
    ensures forall id | id in s.live && id !in Episode(s, ok, d).live :: exists k: nat :: GoesAt(s, k, id, ok)
  {
    hide QueueOk, Spared, ReclaimOne, GoesAt, Episode;
    var n := EpisodeIsSteps(s, ok, d);
    StepsSpare(s, n, ok);
    forall id | id in s.live && id !in Episode(s, ok, d).live ensures exists k: nat :: GoesAt(s, k, id, ok) {
      var k := FreedInTime(s, n, ok, id);
    }
  }

  /** The cached count falls by one for every page that goes. */
  lemma {:induction false} StepsCount(s: State, n: nat, ok: Device)
    requires QueueOk(s)
    ensures var t := Steps(s, n, ok); s.cached - t.cached == |s.live| - |t.live|
    decreases n
  {
    if n != 0 {
      StepExact(s, ok);
      StepCached(s, ok);
      StepQueue(s, ok);
      var s1 := ReclaimOne(s, ok).0;
      hide ReclaimOne, QueueOk;
      assert |s.live| == |s.live.Keys| && |s1.live| == |s1.live.Keys|;
      StepsCount(s1, n - 1, ok);
    }
  }

  // ---------------------------------------------------------------- the queue's other operations

  /** A new page enters the cache. */
  function AddPage(s: State, id: nat, pg: RPage): State {
    s.(queue := s.queue + [id], live := s.live[id := pg.(queued := true)], cached := s.cached + 1)
  }

  /** Pages leave the cache without passing through the reclaimer: their entries go stale. */
  function RemovePages(s: State, gone: set<nat>): State {
    var n := |s.live.Keys * gone|;
    s.(live := s.live - gone, cached := if s.cached < n then 0 else s.cached - n)
  }

  function CompactThreshold(cached: nat): nat {
    if cached * 2 + 256 < 1024 then 1024 else cached * 2 + 256
  }

  /** Keep the first entry of every live, marked page. */
  function Compact(q: seq<nat>, live: map<nat, RPage>, seen: set<nat>): seq<nat> {
    if q == [] then []
    else if q[0] in live && q[0] !in seen && live[q[0]].queued then [q[0]] + Compact(q[1..], live, seen + {q[0]})
    else if q[0] in live then Compact(q[1..], live, seen + {q[0]})
    else Compact(q[1..], live, seen)
  }

  lemma AddQueue(s: State, id: nat, pg: RPage)
    requires QueueOk(s) && id !in s.live && id !in s.queue
    ensures QueueOk(AddPage(s, id, pg))
  {
    forall k | k in s.live ensures Count(s.queue + [id], k) == 1 {
      assert Count(s.queue, k) == 1;
      CountAppend(s.queue, [id], k);
    }
    CountAppend(s.queue, [id], id);
  }

  lemma RemoveQueue(s: State, gone: set<nat>)
    requires QueueOk(s)
    ensures QueueOk(RemovePages(s, gone))
  {
  }

  /** The counter is the number of pages in the cache. */
  ghost predicate Counted(s: State) { s.cached == |s.live| }

  lemma {:induction false} StepsCounted(s: State, n: nat, ok: Device)
    requires QueueOk(s) && Counted(s)
    ensures Counted(Steps(s, n, ok))
  {
    StepsCount(s, n, ok);
  }

  /** Pages that enter or leave are counted, one by one. */
  lemma ChangesCounted(s: State, id: nat, pg: RPage, gone: set<nat>)
    requires Counted(s)
    ensures id !in s.live ==> Counted(AddPage(s, id, pg))
    ensures Counted(RemovePages(s, gone))
  {
    assert |s.live| == |s.live.Keys|;
    assert (s.live - gone).Keys == s.live.Keys - (s.live.Keys * gone);
    assert |s.live - gone| == |(s.live - gone).Keys|;
    assert s.live[id := pg.(queued := true)].Keys == s.live.Keys + {id};
    assert |s.live[id := pg.(queued := true)]| == |s.live.Keys + {id}|;
  }

  lemma {:induction false} CompactDistinct(q: seq<nat>, live: map<nat, RPage>, seen: set<nat>)
    ensures |Compact(q, live, seen)| <= |live.Keys - seen|
    ensures forall k | k in Compact(q, live, seen) :: k in live && k !in seen
  {
    if q != [] {
      var seen' := if q[0] in live then seen + {q[0]} else seen;
      CompactDistinct(q[1..], live, seen');
      if q[0] in live && q[0] !in seen {
        assert live.Keys - seen == (live.Keys - seen') + {q[0]};
      } else {
        assert live.Keys - seen == live.Keys - seen';
      }
    }
  }

  /** Compaction always makes room: what it leaves is below the size at which it is called. */
  lemma CompactRoom(s: State)
    requires Counted(s)
    ensures 2 * |Compact(s.queue, s.live, {})| < CompactThreshold(s.cached)
  {
    CompactDistinct(s.queue, s.live, {});
    assert s.live.Keys - {} == s.live.Keys && |s.live| == |s.live.Keys|;
  }

  /** A new page enters the cache, and an overgrown queue is compacted on the way. */
  function Added(s: State, id: nat, pg: RPage): State {
    var s1 := AddPage(s, id, pg);
    if |s1.queue| > CompactThreshold(s1.cached) then s1.(queue := Compact(s1.queue, s1.live, {})) else s1
  }

  /** The queue never outgrows twice the cache by more than a constant. */
  lemma AddedRoom(s: State, id: nat, pg: RPage)
    requires Counted(s) && id !in s.live
    ensures var t := Added(s, id, pg); Counted(t) && |t.queue| <= CompactThreshold(t.cached)
  {
    hide Compact, Counted;
    ChangesCounted(s, id, pg, {});
    CompactRoom(AddPage(s, id, pg));
    SameCount(AddPage(s, id, pg), Added(s, id, pg));
  }

  lemma SameCount(s: State, t: State)
    requires Counted(s) && t.cached == s.cached && t.live == s.live
    ensures Counted(t)
  {
  }

  /** Compaction drops stale entries and keeps each live page queued exactly once. */
  lemma {:induction false} CompactCount(q: seq<nat>, live: map<nat, RPage>, seen: set<nat>, id: nat)
    requires id in live && live[id].queued
    ensures Count(Compact(q, live, seen), id) == if id in q && id !in seen then 1 else 0
    ensures forall k | k in Compact(q, live, seen) :: k in live
  {
    if q != [] {
      var seen' := if q[0] in live then seen + {q[0]} else seen;
      CompactCount(q[1..], live, seen', id);
      CountAppend([q[0]], Compact(q[1..], live, seen'), id);
      assert id in q <==> id == q[0] || id in q[1..];
    }
  }

  lemma CompactQueue(s: State)
    requires QueueOk(s)
    ensures QueueOk(s.(queue := Compact(s.queue, s.live, {})))
  {
    forall id | id in s.live ensures Count(Compact(s.queue, s.live, {}), id) == 1 {
      assert Count(s.queue, id) == 1;
      assert id in s.queue;
      CompactCount(s.queue, s.live, {}, id);
    }
  }
}
