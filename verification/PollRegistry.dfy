/**
 The registry behind ppoll: a matrix of file rows and wait keys, linked both ways by bitmaps.
 Bitmaps are sets of positions below 128.
 */
module PollRegistry {

  const ROWS: nat := 128
  const KEYS: nat := 128

  datatype KeyState = Free | Active | Ready | TimedOut

  datatype Row = Row(active: bool, gen: nat, pid: nat, fd: nat, source: nat, bits: set<nat>, bitsIn: set<nat>, bitsOut: set<nat>)

  datatype Key = Key(gen: nat, state: KeyState, task: nat, pid: nat, rows: set<nat>)

  datatype Registry = Registry(rows: seq<Row>, keys: seq<Key>, nextRow: nat, nextKey: nat)

  /** One thing a caller waits for. */
  datatype Interest = Interest(fd: nat, source: nat, pollIn: bool, pollOut: bool)

  /** The events of a notification; `err` is POLLERR or POLLHUP. */
  datatype Mask = Mask(pollIn: bool, pollOut: bool, err: bool)

  datatype Handle = Handle(key: nat, gen: nat)

  // ---------------------------------------------------------------- invariant

  ghost predicate Shaped(s: Registry) {
    && |s.rows| == ROWS && |s.keys| == KEYS && s.nextRow < ROWS && s.nextKey < KEYS
    && (forall r | 0 <= r < ROWS :: forall k | k in s.rows[r].bits :: k < KEYS)
    && (forall k | 0 <= k < KEYS :: forall r | r in s.keys[k].rows :: r < ROWS)
  }

  /** Key `k` lists row `r` exactly when row `r` carries bit `k`. */
  ghost predicate Linked(s: Registry)
    requires Shaped(s)
  {
    forall k, r | 0 <= k < KEYS && 0 <= r < ROWS :: r in s.keys[k].rows <==> k in s.rows[r].bits
  }

  ghost predicate RowOk(row: Row) {
    && row.bitsIn <= row.bits && row.bitsOut <= row.bits
    && (row.active <==> row.bits != {})
  }

  /** No two active rows stand for the same file of the same process. */
  ghost predicate Unique(s: Registry) {
    forall a, b | 0 <= a < b < |s.rows| && s.rows[a].active && s.rows[b].active :: !SameFile(s.rows[a], s.rows[b].pid, s.rows[b].fd, s.rows[b].source)
  }

  predicate SameFile(row: Row, pid: nat, fd: nat, source: nat) {
    row.pid == pid && row.fd == fd && row.source == source
  }

  ghost predicate Inv(s: Registry) {
    && Shaped(s) && Linked(s) && Unique(s)
    && (forall r | 0 <= r < ROWS :: RowOk(s.rows[r]))
    && (forall k | 0 <= k < KEYS && (s.keys[k].state == Free || s.keys[k].state == TimedOut) :: s.keys[k].rows == {})
  }

  // ---------------------------------------------------------------- what a key watches

  datatype Watch = Watch(pid: nat, fd: nat, source: nat, pollIn: bool, pollOut: bool)

  function WatchOf(row: Row, k: nat): Watch { Watch(row.pid, row.fd, row.source, k in row.bitsIn, k in row.bitsOut) }

  /** The rows a key is registered on, as the key sees them. */
  ghost function View(s: Registry, k: nat): map<nat, Watch>
    requires Shaped(s) && k < KEYS
  {
    map r | r in s.keys[k].rows :: WatchOf(s.rows[r], k)
  }

  /** Key `k` is untouched. */
  ghost predicate KeySame(s: Registry, s': Registry, k: nat)
    requires Shaped(s) && Shaped(s') && k < KEYS
  {
    s'.keys[k] == s.keys[k] && View(s', k) == View(s, k)
  }

  /** A watch that a notification matches. */
  predicate Matches(w: Watch, source: nat, m: Mask) {
    w.source == source && ((m.pollIn && w.pollIn) || (m.pollOut && w.pollOut) || m.err)
  }

  ghost predicate Hit(s: Registry, k: nat, source: nat, m: Mask)
    requires Shaped(s) && k < KEYS
  {
    exists r | r in View(s, k) :: Matches(View(s, k)[r], source, m)
  }

  predicate Valid(s: Registry, h: Handle)
    requires |s.keys| == KEYS
  {
    h.key < KEYS && s.keys[h.key].state != Free && s.keys[h.key].gen == h.gen
  }

  /** A timer that still finds its wait active. */
  predicate Fires(s: Registry, h: Handle, task: nat)
    requires |s.keys| == KEYS
  {
    Valid(s, h) && s.keys[h.key].task == task && s.keys[h.key].state == Active
  }

  // ---------------------------------------------------------------- rings

  function RingAt(next: nat, off: nat): nat { (next + off) % 128 }

  lemma RingCovers(next: nat, i: nat)
    requires next < 128 && i < 128
    ensures exists off: nat | off < 128 :: RingAt(next, off) == i
  {
    var off := if i >= next then i - next else i + 128 - next;
    assert RingAt(next, off) == i;
  }

  // ---------------------------------------------------------------- attaching and clearing

  /** The watches that a list of interests asks for on one file. */
  ghost predicate AsksIn(interests: seq<Interest>, fd: nat, source: nat) {
    exists i | 0 <= i < |interests| :: interests[i].fd == fd && interests[i].source == source && interests[i].pollIn
  }

  ghost predicate AsksOut(interests: seq<Interest>, fd: nat, source: nat) {
    exists i | 0 <= i < |interests| :: interests[i].fd == fd && interests[i].source == source && interests[i].pollOut
  }

  ghost predicate Asks(interests: seq<Interest>, fd: nat, source: nat) {
    exists i | 0 <= i < |interests| :: interests[i].fd == fd && interests[i].source == source
  }

  ghost predicate WatchOk(w: Watch, pid: nat, interests: seq<Interest>) {
    && w.pid == pid && Asks(interests, w.fd, w.source)
    && (w.pollIn <==> AsksIn(interests, w.fd, w.source)) && (w.pollOut <==> AsksOut(interests, w.fd, w.source))
  }

  ghost predicate ViewFile(v: map<nat, Watch>, fd: nat, source: nat) {
    exists r | r in v :: v[r].fd == fd && v[r].source == source
  }

  /** A view that holds exactly what the interests ask for. */
  ghost predicate ViewOk(v: map<nat, Watch>, pid: nat, interests: seq<Interest>) {
    && (forall r | r in v :: WatchOk(v[r], pid, interests))
    && (forall i | 0 <= i < |interests| :: ViewFile(v, interests[i].fd, interests[i].source))
  }

  /** Key `k` watches exactly what the interests ask for. */
  ghost predicate WatchesAll(s: Registry, k: nat, pid: nat, interests: seq<Interest>)
    requires Shaped(s) && k < KEYS
  {
    ViewOk(View(s, k), pid, interests)
  }

  /** Interest `i` asks for what a notification announces. */
  ghost predicate Wanted(i: Interest, source: nat, m: Mask) {
    i.source == source && ((m.pollIn && i.pollIn) || (m.pollOut && i.pollOut) || m.err)
  }

  /** A key that watches what was asked for is hit by a notification if and only if it was asked for. */
  lemma HitExact(s: Registry, k: nat, pid: nat, interests: seq<Interest>, source: nat, m: Mask)
    requires Shaped(s) && k < KEYS && WatchesAll(s, k, pid, interests)
    ensures Hit(s, k, source, m) <==> exists i | 0 <= i < |interests| :: Wanted(interests[i], source, m)
  {
    var v := View(s, k);
    if i :| 0 <= i < |interests| && Wanted(interests[i], source, m) {
      assert ViewFile(v, interests[i].fd, interests[i].source);
      var r :| r in v && v[r].fd == interests[i].fd && v[r].source == interests[i].source;
      assert interests[i].pollIn ==> AsksIn(interests, interests[i].fd, interests[i].source);
      assert interests[i].pollOut ==> AsksOut(interests, interests[i].fd, interests[i].source);
      assert Matches(v[r], interests[i].source, m);
    }
    if Hit(s, k, source, m) {
      var r :| r in v && Matches(v[r], source, m);
      assert WatchOk(v[r], pid, interests);
    }
  }

  /** Register key `k` on row `r` for one interest. */
  function Attach(row: Row, k: nat, i: Interest): Row {
    row.(bits := row.bits + {k},
         bitsIn := if i.pollIn then row.bitsIn + {k} else row.bitsIn,
         bitsOut := if i.pollOut then row.bitsOut + {k} else row.bitsOut)
  }

  function TakenRow(row: Row, pid: nat, fd: nat, source: nat): Row {
    Row(true, (row.gen + 1) % 65536, pid, fd, source, {}, {}, {})
  }

  function Join(s: Registry, k: nat, r: nat, pid: nat, i: Interest, nextRow: nat): Registry
    requires k < |s.keys| && r < |s.rows|
  {
    var row := if s.rows[r].active then s.rows[r] else TakenRow(s.rows[r], pid, i.fd, i.source);
    s.(rows := s.rows[r := Attach(row, k, i)], keys := s.keys[k := s.keys[k].(rows := s.keys[k].rows + {r})], nextRow := nextRow)
  }

  /** The row found for an interest: an active row of that file, or a free row when there is none. */
  ghost predicate Suits(s: Registry, r: nat, pid: nat, fd: nat, source: nat)
    requires |s.rows| == ROWS
  {
    && r < ROWS
    && (if s.rows[r].active then SameFile(s.rows[r], pid, fd, source)
        else forall a | 0 <= a < ROWS && s.rows[a].active :: !SameFile(s.rows[a], pid, fd, source))
  }

  lemma JoinInv(s: Registry, k: nat, r: nat, pid: nat, i: Interest, nextRow: nat)
    requires Inv(s) && k < KEYS && s.keys[k].state == Active && Suits(s, r, pid, i.fd, i.source) && nextRow < ROWS
    ensures var s' := Join(s, k, r, pid, i, nextRow);
            Inv(s') && forall q | 0 <= q < KEYS && q != k :: KeySame(s, s', q)
  {
    var s' := Join(s, k, r, pid, i, nextRow);
    assert Shaped(s') && Linked(s') && Unique(s');
    forall q | 0 <= q < KEYS && q != k ensures KeySame(s, s', q) {
      JoinOther(s, k, r, pid, i, nextRow, q);
    }
  }

  lemma JoinOther(s: Registry, k: nat, r: nat, pid: nat, i: Interest, nextRow: nat, q: nat)
    requires Inv(s) && k < KEYS && q < KEYS && q != k && r < ROWS
    requires Shaped(Join(s, k, r, pid, i, nextRow))
    ensures KeySame(s, Join(s, k, r, pid, i, nextRow), q)
  {
    var s' := Join(s, k, r, pid, i, nextRow);
    forall x | x in s.keys[q].rows ensures WatchOf(s'.rows[x], q) == WatchOf(s.rows[x], q) {
      assert q in s.rows[x].bits;
    }
  }

  lemma JoinWatches(s: Registry, k: nat, r: nat, pid: nat, interests: seq<Interest>, i: Interest, nextRow: nat)
    requires Inv(s) && k < KEYS && s.keys[k].state == Active && Suits(s, r, pid, i.fd, i.source) && nextRow < ROWS
    requires WatchesAll(s, k, pid, interests)
    ensures var s' := Join(s, k, r, pid, i, nextRow); Shaped(s') && WatchesAll(s', k, pid, interests + [i])
  {
    hide Inv, ViewOk;
    InvShaped(s);
    var s' := Join(s, k, r, pid, i, nextRow);
    JoinInv(s, k, r, pid, i, nextRow);
    InvShaped(s');
    var v, v' := View(s, k), View(s', k);
    assert v'.Keys == v.Keys + {r};
    forall x | x in v && x != r ensures v'[x] == v[x] && !(v[x].fd == i.fd && v[x].source == i.source) {
      JoinWatchOther(s, k, r, pid, interests, i, x);
    }
    JoinWatchRow(s, k, r, pid, interests, i, nextRow);
    ViewMore(v, v', r, pid, interests, i);
  }

  lemma InvShaped(s: Registry)
    requires Inv(s)
    ensures Shaped(s)
  {
  }

  lemma ViewMore(v: map<nat, Watch>, v': map<nat, Watch>, r: nat, pid: nat, interests: seq<Interest>, i: Interest)
    requires ViewOk(v, pid, interests) && v'.Keys == v.Keys + {r}
    requires forall x | x in v && x != r :: v'[x] == v[x] && !(v[x].fd == i.fd && v[x].source == i.source)
    requires r in v ==> v[r].fd == i.fd && v[r].source == i.source
    requires v'[r] == Watch(pid, i.fd, i.source, i.pollIn || AsksIn(interests, i.fd, i.source), i.pollOut || AsksOut(interests, i.fd, i.source))
    ensures ViewOk(v', pid, interests + [i])
  {
    hide Asks, AsksIn, AsksOut;
    var all := interests + [i];
    forall x | x in v' ensures WatchOk(v'[x], pid, all) {
      AsksMore(interests, i, v'[x].fd, v'[x].source);
      if x != r {
        assert WatchOk(v[x], pid, interests);
      }
    }
    forall j | 0 <= j < |all| ensures ViewFile(v', all[j].fd, all[j].source) {
      if j < |interests| {
        assert ViewFile(v, interests[j].fd, interests[j].source);
        var x :| x in v && v[x].fd == interests[j].fd && v[x].source == interests[j].source;
        assert v'[x].fd == v[x].fd && v'[x].source == v[x].source;
      } else {
        assert r in v';
      }
    }
  }

  lemma AsksMore(interests: seq<Interest>, i: Interest, fd: nat, source: nat)
    ensures var all := interests + [i];
            && (Asks(all, fd, source) <==> Asks(interests, fd, source) || (i.fd == fd && i.source == source))
            && (AsksIn(all, fd, source) <==> AsksIn(interests, fd, source) || (i.fd == fd && i.source == source && i.pollIn))
            && (AsksOut(all, fd, source) <==> AsksOut(interests, fd, source) || (i.fd == fd && i.source == source && i.pollOut))
  {
    var all := interests + [i];
    assert all[|interests|] == i;
    assert forall j | 0 <= j < |interests| :: all[j] == interests[j];
  }

  lemma JoinWatchOther(s: Registry, k: nat, r: nat, pid: nat, interests: seq<Interest>, i: Interest, x: nat)
    requires Inv(s) && k < KEYS && Suits(s, r, pid, i.fd, i.source) && WatchesAll(s, k, pid, interests)
    requires x in View(s, k) && x != r
    ensures !(View(s, k)[x].fd == i.fd && View(s, k)[x].source == i.source)
  {
    assert WatchOk(View(s, k)[x], pid, interests);
    assert k in s.rows[x].bits && RowOk(s.rows[x]);
  }

  lemma JoinWatchRow(s: Registry, k: nat, r: nat, pid: nat, interests: seq<Interest>, i: Interest, nextRow: nat)
    requires Inv(s) && k < KEYS && s.keys[k].state == Active && Suits(s, r, pid, i.fd, i.source) && nextRow < ROWS
    requires WatchesAll(s, k, pid, interests)
    ensures var s' := Join(s, k, r, pid, i, nextRow);
            && Shaped(s') && r in View(s', k)
            && View(s', k)[r] == Watch(pid, i.fd, i.source, i.pollIn || AsksIn(interests, i.fd, i.source), i.pollOut || AsksOut(interests, i.fd, i.source))
    ensures r in View(s, k) ==> View(s, k)[r].fd == i.fd && View(s, k)[r].source == i.source
  {
    JoinInv(s, k, r, pid, i, nextRow);
    if r in View(s, k) {
      assert k in s.rows[r].bits && RowOk(s.rows[r]);
      assert WatchOk(View(s, k)[r], pid, interests);
    } else {
      assert k !in s.rows[r].bits && RowOk(s.rows[r]);
      if j :| 0 <= j < |interests| && interests[j].fd == i.fd && interests[j].source == i.source {
        assert ViewFile(View(s, k), interests[j].fd, interests[j].source);
        var x :| x in View(s, k) && View(s, k)[x].fd == i.fd && View(s, k)[x].source == i.source;
        JoinWatchOther(s, k, r, pid, interests, i, x);
      }
    }
  }

  // ---------------------------------------------------------------- clearing

  function Dropped(row: Row, k: nat): Row {
    row.(bits := row.bits - {k}, bitsIn := row.bitsIn - {k}, bitsOut := row.bitsOut - {k},
         active := row.active && row.bits - {k} != {})
  }

  /** Remove every registration of key `k` and give it a resting state. */
  function Cleared(s: Registry, k: nat, key: Key): Registry
    requires k < |s.keys| && |s.rows| == ROWS
  {
    s.(rows := seq(ROWS, r requires 0 <= r < ROWS => if r in s.keys[k].rows then Dropped(s.rows[r], k) else s.rows[r]),
       keys := s.keys[k := key.(rows := {})])
  }

  lemma ClearedInv(s: Registry, k: nat, key: Key)
    requires Inv(s) && k < KEYS
    ensures Inv(Cleared(s, k, key)) && forall q | 0 <= q < KEYS && q != k :: KeySame(s, Cleared(s, k, key), q)
  {
    var s' := Cleared(s, k, key);
    forall r | 0 <= r < ROWS ensures RowOk(s'.rows[r]) && s'.rows[r].bits == s.rows[r].bits - {k} {
      assert RowOk(s.rows[r]);
      assert r in s.keys[k].rows <==> k in s.rows[r].bits;
    }
    forall r | 0 <= r < ROWS && s'.rows[r].active ensures s.rows[r].active && s'.rows[r].pid == s.rows[r].pid {
    }
    assert Unique(s') by {
      forall a, b | 0 <= a < b < |s'.rows| && s'.rows[a].active && s'.rows[b].active
        ensures !SameFile(s'.rows[a], s'.rows[b].pid, s'.rows[b].fd, s'.rows[b].source)
      {
        assert !SameFile(s.rows[a], s.rows[b].pid, s.rows[b].fd, s.rows[b].source);
      }
    }
    assert Shaped(s') && Linked(s');
    forall q | 0 <= q < KEYS && q != k ensures KeySame(s, s', q) {
      forall x | x in s.keys[q].rows ensures WatchOf(s'.rows[x], q) == WatchOf(s.rows[x], q) {
      }
    }
  }

  // ---------------------------------------------------------------- notification

  /** Every active key of a set becomes ready. */
  function Woken(s: Registry, wake: set<nat>): Registry {
    s.(keys := seq(|s.keys|, k requires 0 <= k < |s.keys| =>
      if k in wake && s.keys[k].state == Active then s.keys[k].(state := Ready) else s.keys[k]))
  }

  lemma WokenInv(s: Registry, wake: set<nat>)
    requires Inv(s)
    ensures var s' := Woken(s, wake);
            && Inv(s')
            && forall k | 0 <= k < KEYS :: View(s', k) == View(s, k)
  {
    var s' := Woken(s, wake);
    assert Shaped(s') && Linked(s');
  }

  // ---------------------------------------------------------------- the registry object

  datatype Result = Ok(h: Handle) | NoSpace

  class Poll {
    var rows: seq<Row>
    var keys: seq<Key>
    var nextRow: nat
    var nextKey: nat

    ghost function St(): Registry
      reads this
    {
      Registry(rows, keys, nextRow, nextKey)
    }

    constructor ()
      ensures Inv(St()) && forall k | 0 <= k < KEYS :: keys[k].state == Free
    {
      rows := seq(ROWS, _ => Row(false, 0, 0, 0, 0, {}, {}, {}));
      keys := seq(KEYS, _ => Key(0, Free, 0, 0, {}));
      nextRow, nextKey := 0, 0;
    }

    /** Take the first free key of the ring from `nextKey` on; fails exactly when there is none. */
    method AllocKey(task: nat, pid: nat) returns (r: Result)
      requires Inv(St())
      modifies this
      ensures r.NoSpace? ==> St() == old(St()) && forall k | 0 <= k < KEYS :: keys[k].state != Free
      ensures r.Ok? ==>
                && Inv(St()) && r.h.key < KEYS && old(keys)[r.h.key].state == Free
                && keys[r.h.key] == Key((old(keys)[r.h.key].gen + 1) % 256, Active, task, pid, {}) && r.h.gen == keys[r.h.key].gen
                && (forall k | 0 <= k < KEYS && k != r.h.key :: KeySame(old(St()), St(), k))
                && rows == old(rows) && nextRow == old(nextRow) && nextKey == (r.h.key + 1) % KEYS
                && (exists off: nat :: off < KEYS && r.h.key == RingAt(old(nextKey), off) &&
                      forall o: nat | o < off :: old(keys)[RingAt(old(nextKey), o)].state != Free)
    {
      hide Inv;
      InvShaped(St());
      for off := 0 to KEYS
        invariant St() == old(St())
        invariant forall o: nat | o < off :: keys[RingAt(nextKey, o)].state != Free
      {
        var k := RingAt(nextKey, off);
        if keys[k].state == Free {
          AllocInv(St(), k, Key((keys[k].gen + 1) % 256, Active, task, pid, {}), (k + 1) % KEYS);
          keys := keys[k := Key((keys[k].gen + 1) % 256, Active, task, pid, {})];
          nextKey := (k + 1) % KEYS;
          return Ok(Handle(k, keys[k].gen));
        }
      }
      forall k | 0 <= k < KEYS ensures keys[k].state != Free {
        RingCovers(nextKey, k);
      }
      return NoSpace;
    }

    /** The row of a file, or else the first free row of the ring from `nextRow` on; fails exactly when neither exists. */
    method FindRow(pid: nat, fd: nat, source: nat) returns (found: bool, r: nat, next: nat)
      requires Shaped(St())
      ensures found ==> Suits(St(), r, pid, fd, source) && next < ROWS
      ensures found && !rows[r].active ==>
                && next == (r + 1) % ROWS && (forall a | 0 <= a < ROWS :: !(rows[a].active && SameFile(rows[a], pid, fd, source)))
                && exists off: nat :: off < ROWS && r == RingAt(nextRow, off) && forall o: nat | o < off :: rows[RingAt(nextRow, o)].active
      ensures !(found && !rows[r].active) ==> next == nextRow
      ensures !found ==> forall a | 0 <= a < ROWS :: rows[a].active && !SameFile(rows[a], pid, fd, source)
    {
      for a := 0 to ROWS
        invariant forall b | 0 <= b < a :: !(rows[b].active && SameFile(rows[b], pid, fd, source))
      {
        if rows[a].active && SameFile(rows[a], pid, fd, source) {
          return true, a, nextRow;
        }
      }
      for off := 0 to ROWS
        invariant forall o: nat | o < off :: rows[RingAt(nextRow, o)].active
      {
        var a := RingAt(nextRow, off);
        if !rows[a].active {
          return true, a, (a + 1) % ROWS;
        }
      }
      forall a | 0 <= a < ROWS ensures rows[a].active {
        RingCovers(nextRow, a);
      }
      return false, 0, nextRow;
    }

    /** Clear the registrations of a key and leave it in the given state. */
    method ClearKey(k: nat, key: Key)
      requires Inv(St()) && k < KEYS
      modifies this
      ensures St() == Cleared(old(St()), k, key) && Inv(St())
      ensures forall q | 0 <= q < KEYS && q != k :: KeySame(old(St()), St(), q)
    {
      hide Inv;
      ghost var s := St();
      InvShaped(s);
      var mask := keys[k].rows;
      for r := 0 to ROWS
        invariant keys == s.keys && nextRow == s.nextRow && nextKey == s.nextKey && |rows| == ROWS
        invariant forall a | 0 <= a < ROWS :: rows[a] == if a < r && a in mask then Dropped(s.rows[a], k) else s.rows[a]
      {
        if r in mask {
          var row := rows[r].(bits := rows[r].bits - {k}, bitsIn := rows[r].bitsIn - {k}, bitsOut := rows[r].bitsOut - {k});
          if row.bits == {} {
            row := row.(active := false);
          }
          rows := rows[r := row];
        }
      }
      keys := keys[k := key.(rows := {})];
      ClearedInv(s, k, key);
    }

    /** Free a key that the handle still names. */
    method Cleanup(h: Handle)
      requires Inv(St())
      modifies this
      ensures Inv(St())
      ensures !Valid(old(St()), h) ==> St() == old(St())
      ensures Valid(old(St()), h) ==> keys[h.key] == Key(h.gen, Free, 0, 0, {})
      ensures Next(old(St()), St(), Op.Cleanup(h))
      ensures forall q | 0 <= q < KEYS && q != h.key :: KeySame(old(St()), St(), q)
    {
      hide View;
      if h.key >= KEYS || keys[h.key].state == Free || keys[h.key].gen != h.gen {
        return;
      }
      ClearKey(h.key, Key(h.gen, Free, 0, 0, {}));
    }

    /** Register a wait. When the rows run out every registration made so far is rolled back. */
    method Register(pid: nat, task: nat, interests: seq<Interest>) returns (res: Result)
      requires Inv(St())
      modifies this
      ensures Inv(St())
      ensures res.Ok? ==>
                && res.h.key < KEYS && old(keys)[res.h.key].state == Free && Valid(St(), res.h)
                && keys[res.h.key].state == Active && keys[res.h.key].task == task && keys[res.h.key].pid == pid
                && WatchesAll(St(), res.h.key, pid, interests)
                && forall q | 0 <= q < KEYS && q != res.h.key :: KeySame(old(St()), St(), q)
      ensures res.NoSpace? ==> forall q | 0 <= q < KEYS ::
                && View(St(), q) == View(old(St()), q)
                && (keys[q] == old(keys)[q] || (old(keys)[q].state == Free && keys[q].state == Free))
      ensures Next(old(St()), St(), Op.Register(pid, task, interests, res))
    {
      hide Inv, View, WatchesAll;
      ghost var s := St();
      InvShaped(s);
      res := AllocKey(task, pid);
      if res.NoSpace? {
        return;
      }
      var k := res.h.key;
      InvShaped(St());
      NothingWatched(St(), k, pid);
      for i := 0 to |interests|
        invariant Inv(St()) && Shaped(St()) && keys[k].state == Active && keys[k].gen == res.h.gen
        invariant keys[k].task == task && keys[k].pid == pid
        invariant WatchesAll(St(), k, pid, interests[..i])
        invariant forall q | 0 <= q < KEYS && q != k :: KeySame(s, St(), q)
      {
        var x := interests[i];
        var found, r, next := FindRow(pid, x.fd, x.source);
        ghost var s1 := St();
        if !found {
          Cleanup(res.h);
          InvShaped(St());
          OthersTrans(s, s1, St(), k);
          FreeSees(s, k);
          FreeSees(St(), k);
          forall q | 0 <= q < KEYS ensures View(St(), q) == View(s, q) && (q != k ==> keys[q] == s.keys[q]) {
            assert q != k ==> KeySame(s, St(), q);
          }
          return NoSpace;
        }
        assert interests[..i] + [x] == interests[..i + 1];
        JoinInv(s1, k, r, pid, x, next);
        JoinWatches(s1, k, r, pid, interests[..i], x, next);
        var row := rows[r];
        if !row.active {
          row := TakenRow(row, pid, x.fd, x.source);
        }
        rows := rows[r := Attach(row, k, x)];
        keys := keys[k := keys[k].(rows := keys[k].rows + {r})];
        nextRow := next;
        InvShaped(St());
        OthersTrans(s, s1, St(), k);
      }
      assert interests[..|interests|] == interests;
    }

    /** Deliver an event: exactly the active keys it matches become ready and are woken. */
    method Notify(source: nat, m: Mask) returns (woken: seq<Handle>)
      requires Inv(St())
      modifies this
      ensures Inv(St()) && rows == old(rows)
      ensures forall k | 0 <= k < KEYS ::
                && View(St(), k) == View(old(St()), k)
                && keys[k] == if old(keys)[k].state == Active && Hit(old(St()), k, source, m) then old(keys)[k].(state := Ready) else old(keys)[k]
      ensures forall h :: h in woken <==> h.key < KEYS && old(keys)[h.key].state == Active && keys[h.key].state == Ready && keys[h.key].gen == h.gen
      ensures Next(old(St()), St(), Op.Notify(source, m))
    {
      ghost var s := St();
      var wake: set<nat> := {};
      for r := 0 to ROWS
        invariant St() == s
        invariant forall k :: k in wake <==> exists a | 0 <= a < r :: RowWakes(rows[a], k, source, m)
      {
        if rows[r].active && rows[r].source == source {
          wake := wake + (if m.pollIn then rows[r].bitsIn else {}) + (if m.pollOut then rows[r].bitsOut else {}) + (if m.err then rows[r].bits else {});
        }
      }
      forall k | 0 <= k < KEYS ensures k in wake <==> Hit(s, k, source, m) {
        RowsHit(s, k, source, m);
      }
      woken := MarkReady(wake);
      WokenInv(s, wake);
    }

    /** Wake every active key of a process. */
    method NotifySignal(pid: nat) returns (woken: seq<Handle>)
      requires Inv(St())
      modifies this
      ensures Inv(St()) && rows == old(rows)
      ensures forall k | 0 <= k < KEYS ::
                && View(St(), k) == View(old(St()), k)
                && keys[k] == if old(keys)[k].state == Active && old(keys)[k].pid == pid then old(keys)[k].(state := Ready) else old(keys)[k]
      ensures Next(old(St()), St(), Signal(pid))
    {
      ghost var s := St();
      var wake := set k: nat | k < KEYS && keys[k].pid == pid;
      woken := MarkReady(wake);
      WokenInv(s, wake);
    }

    method MarkReady(wake: set<nat>) returns (woken: seq<Handle>)
      requires |keys| == KEYS
      modifies this`keys
      ensures St() == Woken(old(St()), wake)
      ensures forall h :: h in woken <==> h.key < KEYS && h.key in wake && old(keys)[h.key].state == Active && old(keys)[h.key].gen == h.gen
    {
      woken := [];
      for k := 0 to KEYS
        invariant |keys| == KEYS
        invariant forall q | 0 <= q < KEYS :: keys[q] == if q < k && q in wake && old(keys)[q].state == Active then old(keys)[q].(state := Ready) else old(keys)[q]
        invariant forall h :: h in woken <==> h.key < k && h.key in wake && old(keys)[h.key].state == Active && old(keys)[h.key].gen == h.gen
      {
        if k in wake && keys[k].state == Active {
          keys := keys[k := keys[k].(state := Ready)];
          woken := woken + [Handle(k, keys[k].gen)];
        }
      }
    }

    /** The timer of a wait fires: an active key of that task times out and is cleared. */
    method Timeout(h: Handle, task: nat)
      requires Inv(St())
      modifies this
      ensures Inv(St())
      ensures !Fires(old(St()), h, task) ==> St() == old(St())
      ensures Fires(old(St()), h, task) ==> keys[h.key] == old(keys)[h.key].(state := TimedOut, rows := {})
      ensures Next(old(St()), St(), Op.Timeout(h, task))
      ensures forall q | 0 <= q < KEYS && q != h.key :: KeySame(old(St()), St(), q)
    {
      hide View;
      if h.key >= KEYS || keys[h.key].state == Free || keys[h.key].gen != h.gen {
        return;
      }
      if keys[h.key].task != task || keys[h.key].state != Active {
        return;
      }
      ClearKey(h.key, keys[h.key].(state := TimedOut));
    }
  }

  predicate RowWakes(row: Row, k: nat, source: nat, m: Mask) {
    row.active && row.source == source && ((m.pollIn && k in row.bitsIn) || (m.pollOut && k in row.bitsOut) || (m.err && k in row.bits))
  }

  lemma RowsHit(s: Registry, k: nat, source: nat, m: Mask)
    requires Inv(s) && k < KEYS
    ensures (exists a | 0 <= a < ROWS :: RowWakes(s.rows[a], k, source, m)) <==> Hit(s, k, source, m)
  {
    if a :| 0 <= a < ROWS && RowWakes(s.rows[a], k, source, m) {
      assert RowOk(s.rows[a]);
      assert a in View(s, k) && Matches(View(s, k)[a], source, m);
    }
    if Hit(s, k, source, m) {
      var r :| r in View(s, k) && Matches(View(s, k)[r], source, m);
      assert k in s.rows[r].bits && RowOk(s.rows[r]);
      assert RowWakes(s.rows[r], k, source, m);
    }
  }

  lemma AllocInv(s: Registry, k: nat, key: Key, next: nat)
    requires Inv(s) && k < KEYS && s.keys[k].state == Free && key.rows == {} && next < KEYS
    ensures var s' := s.(keys := s.keys[k := key], nextKey := next);
            Inv(s') && forall q | 0 <= q < KEYS && q != k :: KeySame(s, s', q)
  {
    var s' := s.(keys := s.keys[k := key], nextKey := next);
    assert Shaped(s') && Linked(s');
  }

  lemma NothingWatched(s: Registry, k: nat, pid: nat)
    requires Shaped(s) && k < KEYS && s.keys[k].rows == {}
    ensures WatchesAll(s, k, pid, [])
  {
  }

  lemma OthersTrans(s: Registry, s1: Registry, s2: Registry, k: nat)
    requires Shaped(s) && Shaped(s1) && Shaped(s2) && k < KEYS
    requires forall q | 0 <= q < KEYS && q != k :: KeySame(s, s1, q)
    requires forall q | 0 <= q < KEYS && q != k :: KeySame(s1, s2, q)
    ensures forall q | 0 <= q < KEYS && q != k :: KeySame(s, s2, q)
  {
    forall q | 0 <= q < KEYS && q != k ensures KeySame(s, s2, q) {
      assert KeySame(s, s1, q) && KeySame(s1, s2, q);
    }
  }

  /** A free key watches nothing. */
  lemma FreeSees(s: Registry, k: nat)
    requires Inv(s) && k < KEYS && s.keys[k].state == Free
    ensures View(s, k) == map[]
  {
  }

  // ---------------------------------------------------------------- runs

  /** One call on the registry, with what it returned. */
  datatype Op =
    | Register(pid: nat, task: nat, interests: seq<Interest>, res: Result)
    | Cleanup(h: Handle)
    | Notify(source: nat, m: Mask)
    | Signal(spid: nat)
    | Timeout(th: Handle, ttask: nat)

  /** What the methods promise of each call. */
  ghost predicate Next(s: Registry, s': Registry, op: Op) {
    && Inv(s) && Inv(s')
    && match op
       case Register(pid, task, interests, Ok(h)) =>
         && h.key < KEYS && s.keys[h.key].state == Free && Valid(s', h) && s'.keys[h.key].state == Active
         && s'.keys[h.key].task == task && s'.keys[h.key].pid == pid
         && WatchesAll(s', h.key, pid, interests)
         && (forall q | 0 <= q < KEYS && q != h.key :: KeySame(s, s', q))
       case Register(_, _, _, NoSpace) =>
         forall q | 0 <= q < KEYS && s.keys[q].state != Free :: KeySame(s, s', q)
       case Cleanup(h) =>
         && (!Valid(s, h) ==> s' == s)
         && (forall q | 0 <= q < KEYS && q != h.key :: KeySame(s, s', q))
       case Notify(source, m) =>
         forall k | 0 <= k < KEYS ::
           && View(s', k) == View(s, k)
           && s'.keys[k] == if s.keys[k].state == Active && Hit(s, k, source, m) then s.keys[k].(state := Ready) else s.keys[k]
       case Signal(pid) =>
         forall k | 0 <= k < KEYS ::
           && View(s', k) == View(s, k)
           && s'.keys[k] == if s.keys[k].state == Active && s.keys[k].pid == pid then s.keys[k].(state := Ready) else s.keys[k]
       case Timeout(h, task) =>
         && (!Fires(s, h, task) ==> s' == s)
         && (Fires(s, h, task) ==> s'.keys[h.key] == s.keys[h.key].(state := TimedOut, rows := {}))
         && (forall q | 0 <= q < KEYS && q != h.key :: KeySame(s, s', q))
  }

  /** A wait: who waits, and for what. */
  datatype Wait = Wait(h: Handle, pid: nat, task: nat, interests: seq<Interest>)

  /** It still waits for everything it asked for. */
  ghost predicate Armed(s: Registry, w: Wait) {
    && Shaped(s) && Valid(s, w.h) && s.keys[w.h.key].state == Active && WatchesAll(s, w.h.key, w.pid, w.interests)
    && s.keys[w.h.key].pid == w.pid && s.keys[w.h.key].task == w.task
  }

  /** It has been triggered and not cleaned up. */
  ghost predicate Fired(s: Registry, h: Handle) {
    Shaped(s) && Valid(s, h) && (s.keys[h.key].state == Ready || s.keys[h.key].state == TimedOut)
  }

  ghost predicate EndedAs(s: Registry, h: Handle, st: KeyState) { Fired(s, h) && s.keys[h.key].state == st }

  /** What ends a wait: a notification of something it asked for, a signal to its process, or its own timer. */
  ghost predicate Triggers(op: Op, w: Wait) {
    match op
    case Notify(source, m) => exists i | 0 <= i < |w.interests| :: Wanted(w.interests[i], source, m)
    case Signal(pid) => pid == w.pid
    case Timeout(h, task) => h == w.h && task == w.task
    case _ => false
  }

  ghost function Ending(op: Op): KeyState { if op.Timeout? then TimedOut else Ready }

  lemma StepKeepsWait(s: Registry, s': Registry, op: Op, w: Wait)
    requires Next(s, s', op) && op != Cleanup(w.h)
    ensures Armed(s, w) ==> if Triggers(op, w) then EndedAs(s', w.h, Ending(op)) else Armed(s', w)
    ensures forall st | EndedAs(s, w.h, st) :: EndedAs(s', w.h, st)
  {
    hide Inv, View, WatchesAll;
    InvShaped(s);
    InvShaped(s');
    if Armed(s, w) || Fired(s, w.h) {
      var k := w.h.key;
      match op
      case Register(p, t, ins, Ok(g)) =>
        assert g.key != k;
        assert KeySame(s, s', k);
        SameWatches(s, s', k, w);
      case Register(_, _, _, NoSpace) =>
        assert KeySame(s, s', k);
        SameWatches(s, s', k, w);
      case Cleanup(g) =>
        if Valid(s, g) {
          assert g.key != k;
          assert KeySame(s, s', k);
          SameWatches(s, s', k, w);
        }
      case Notify(source, m) =>
        if Armed(s, w) {
          HitExact(s, k, w.pid, w.interests, source, m);
        }
        SameWatches(s, s', k, w);
      case Signal(_) => SameWatches(s, s', k, w);
      case Timeout(g, t) =>
        if g.key != k {
          assert KeySame(s, s', k);
          SameWatches(s, s', k, w);
        }
    }
  }

  lemma SameWatches(s: Registry, s': Registry, k: nat, w: Wait)
    requires Shaped(s) && Shaped(s') && k < KEYS && View(s', k) == View(s, k)
    ensures WatchesAll(s, k, w.pid, w.interests) <==> WatchesAll(s', k, w.pid, w.interests)
  {
  }

  ghost predicate Trace(states: seq<Registry>, ops: seq<Op>) {
    |states| == |ops| + 1 && forall i | 0 <= i < |ops| :: Next(states[i], states[i + 1], ops[i])
  }

  /** Operation `i` is the first after the registration that ends the wait. */
  ghost predicate EndsAt(ops: seq<Op>, w: Wait, i: nat) {
    0 < i < |ops| && Triggers(ops[i], w) && forall j | 0 < j < i :: !Triggers(ops[j], w)
  }

  /** No wake-up is lost and none is made up: from its registration to its clean-up, a wait is triggered if and only
      if a notification of something it asked for, a signal to its process or its own timer has come, and it ends
      as the first of them says, whatever else happens to the registry. */
  lemma {:induction false} NoLostWake(states: seq<Registry>, ops: seq<Op>, w: Wait, n: nat)
    requires Trace(states, ops) && 0 < |ops| && n <= |ops| && n > 0
    requires ops[0] == Op.Register(w.pid, w.task, w.interests, Ok(w.h))
    requires forall i | 0 <= i < n :: ops[i] != Cleanup(w.h)
    ensures Armed(states[n], w) || Fired(states[n], w.h)
    ensures Fired(states[n], w.h) <==> exists i | 0 < i < n :: Triggers(ops[i], w)
    ensures forall i: nat | i < n && EndsAt(ops, w, i) :: EndedAs(states[n], w.h, Ending(ops[i]))
    decreases n
  {
    hide Next, Armed, Fired, Triggers, EndedAs;
    if n == 1 {
      Registered(states[0], states[1], ops[0], w);
    } else {
      NoLostWake(states, ops, w, n - 1);
      assert Next(states[n - 1], states[n], ops[n - 1]);
      StepKeepsWait(states[n - 1], states[n], ops[n - 1], w);
      NotBoth(states[n - 1], w);
      NotBoth(states[n], w);
      forall i: nat | i < n && EndsAt(ops, w, i) ensures EndedAs(states[n], w.h, Ending(ops[i])) {
        if i < n - 1 {
          assert EndedAs(states[n - 1], w.h, Ending(ops[i]));
        }
      }
    }
  }

  lemma NotBoth(s: Registry, w: Wait)
    ensures !(Armed(s, w) && Fired(s, w.h))
    ensures Fired(s, w.h) <==> exists st :: EndedAs(s, w.h, st)
  {
    if Fired(s, w.h) {
      assert EndedAs(s, w.h, s.keys[w.h.key].state);
    }
  }

  lemma Registered(s: Registry, s': Registry, op: Op, w: Wait)
    requires Next(s, s', op) && op == Op.Register(w.pid, w.task, w.interests, Ok(w.h))
    ensures Armed(s', w) && !Fired(s', w.h)
  {
  }
}
