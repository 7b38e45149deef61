/**
 Epoll over eventfds: persistent interests, one ready queue, edge and level delivery.
 Every operation is one atomic step.
 */
module Epoll {
  import opened Basics

  const COUNTER_MAX: nat := 0xFFFF_FFFF_FFFF_FFFE

  /** A mask of readable and writable. */
  datatype Ev = Ev(pollIn: bool, pollOut: bool)

  const NONE: Ev := Ev(false, false)

  function And(a: Ev, b: Ev): Ev { Ev(a.pollIn && b.pollIn, a.pollOut && b.pollOut) }

  datatype Fd = Fd(counter: nat, semaphore: bool)

  datatype Key = Key(fd: nat, description: nat)

  datatype Item = Item(key: Key, source: nat, ev: Ev, edge: bool, data: nat, alive: bool, queued: bool, last: Ev)

  /** `subs` lists the subscribers of each source; `next` is the first unused item number. */
  datatype State = State(store: map<nat, Item>, interests: map<Key, nat>, ready: seq<nat>, subs: map<nat, seq<nat>>, fds: map<nat, Fd>, next: nat)

  datatype Event = Event(ev: Ev, data: nat)

  // ---------------------------------------------------------------- readiness

  function PollFd(f: Fd): Ev { Ev(f.counter != 0, f.counter < COUNTER_MAX) }

  /** The requested events of an item that hold now. */
  function Ready(s: State, it: Item): Ev {
    if it.source in s.fds then And(it.ev, PollFd(s.fds[it.source])) else NONE
  }

  function Subs(s: State, source: nat): seq<nat> { if source in s.subs then s.subs[source] else [] }

  /** An edge item that watches reading only. */
  predicate EdgeIn(it: Item) { it.edge && it.ev == Ev(true, false) }

  // ---------------------------------------------------------------- invariant

  /** Live items are exactly the interests. */
  ghost predicate Interests(s: State) {
    && (forall k | k in s.interests :: s.interests[k] in s.store && s.store[s.interests[k]].key == k && s.store[s.interests[k]].alive)
    && (forall id | id in s.store && s.store[id].alive :: s.store[id].key in s.interests && s.interests[s.store[id].key] == id)
    && (forall id | id in s.store :: id < s.next)
  }

  /** No item is queued twice, and the queued flag says which items are in the queue. */
  ghost predicate Queue(s: State) {
    && Distinct(s.ready)
    && (forall id | id in s.ready :: id in s.store && s.store[id].alive && s.store[id].queued)
    && (forall id | id in s.store && s.store[id].queued :: id in s.ready)
  }

  ghost predicate Subscribed(s: State) {
    && (forall src | src in s.subs :: Distinct(s.subs[src]))
    && (forall src, id | src in s.subs && id in s.subs[src] :: id in s.store && s.store[id].alive && s.store[id].source == src)
    && (forall id | id in s.store && s.store[id].alive :: id in Subs(s, s.store[id].source) && s.store[id].source in s.fds)
  }

  /** The edge detector agrees with the counter; a ready level item is queued. */
  ghost predicate ItemOk(s: State, id: nat)
    requires id in s.store
  {
    var it := s.store[id];
    it.alive ==>
      && (EdgeIn(it) ==> it.last == Ready(s, it))
      && (!it.edge && Ready(s, it) != NONE ==> it.queued)
  }

  ghost predicate Links(s: State) { Interests(s) && Queue(s) && Subscribed(s) }

  ghost predicate Inv(s: State) {
    && Links(s)
    && (forall id | id in s.store :: ItemOk(s, id))
    && (forall f | f in s.fds :: s.fds[f].counter <= COUNTER_MAX)
  }

  // ---------------------------------------------------------------- queueing

  function SetItem(s: State, id: nat, it: Item): State { s.(store := s.store[id := it]) }

  function Enqueue(s: State, id: nat): State
    requires id in s.store
  {
    if !s.store[id].alive || s.store[id].queued then s
    else SetItem(s, id, s.store[id].(queued := true)).(ready := s.ready + [id])
  }

  /** The same items live, under the same keys and sources. */
  ghost predicate SameShape(s: State, s': State) {
    && s'.store.Keys == s.store.Keys && s'.interests == s.interests && s'.subs == s.subs && s'.fds == s.fds && s'.next == s.next
    && forall id | id in s.store :: SameItem(s.store[id], s'.store[id])
  }

  predicate SameItem(a: Item, b: Item) { b.key == a.key && b.source == a.source && b.alive == a.alive }

  /** The same interest, whatever its queue flag and detector. */
  predicate SameInterest(a: Item, b: Item) { SameItem(a, b) && b.ev == a.ev && b.edge == a.edge && b.data == a.data }

  ghost predicate SameInterests(s: State, s': State) {
    s'.store.Keys == s.store.Keys && forall id | id in s.store :: SameInterest(s.store[id], s'.store[id])
  }

  lemma ShapeInterests(s: State, s': State)
    requires Interests(s) && SameShape(s, s')
    ensures Interests(s')
  {
    forall k | k in s'.interests ensures s'.interests[k] in s'.store && s'.store[s'.interests[k]].key == k && s'.store[s'.interests[k]].alive {
      assert SameItem(s.store[s.interests[k]], s'.store[s.interests[k]]);
    }
    forall id | id in s'.store && s'.store[id].alive ensures s'.store[id].key in s'.interests && s'.interests[s'.store[id].key] == id {
      assert SameItem(s.store[id], s'.store[id]);
    }
  }

  lemma ShapeSubscribed(s: State, s': State)
    requires Subscribed(s) && SameShape(s, s')
    ensures Subscribed(s')
  {
    forall src, id | src in s'.subs && id in s'.subs[src] ensures id in s'.store && s'.store[id].alive && s'.store[id].source == src {
      assert SameItem(s.store[id], s'.store[id]);
    }
    forall id | id in s'.store && s'.store[id].alive ensures id in Subs(s', s'.store[id].source) && s'.store[id].source in s'.fds {
      assert SameItem(s.store[id], s'.store[id]);
    }
  }

  lemma ShapeLinks(s: State, s': State)
    requires Links(s) && SameShape(s, s') && Queue(s')
    ensures Links(s')
  {
    hide Interests, Subscribed, Queue, SameShape;
    ShapeInterests(s, s');
    ShapeSubscribed(s, s');
  }

  lemma EnqueueLinks(s: State, id: nat)
    requires Links(s) && id in s.store
    ensures Links(Enqueue(s, id)) && SameShape(s, Enqueue(s, id)) && s.ready <= Enqueue(s, id).ready
    ensures s.store[id].alive ==> Enqueue(s, id).store == s.store[id := s.store[id].(queued := true)]
    ensures !s.store[id].alive ==> Enqueue(s, id) == s
  {
    hide Interests, Subscribed;
    var s' := Enqueue(s, id);
    EnqueueQueue(s, id);
    assert SameShape(s, s');
    ShapeLinks(s, s');
  }

  lemma EnqueueQueue(s: State, id: nat)
    requires Queue(s) && id in s.store
    ensures Queue(Enqueue(s, id))
  {
    var s' := Enqueue(s, id);
    if s' != s {
      assert id !in s.ready;
    }
  }

  /** A new detector value does not touch the links. */
  lemma ObserveLinks(s: State, id: nat, e: Ev)
    requires Links(s) && id in s.store
    ensures Links(SetItem(s, id, s.store[id].(last := e))) && SameShape(s, SetItem(s, id, s.store[id].(last := e)))
  {
    hide Interests, Subscribed;
    var s' := SetItem(s, id, s.store[id].(last := e));
    assert SameShape(s, s') && Queue(s');
    ShapeLinks(s, s');
  }

  // ---------------------------------------------------------------- notification

  /** One subscriber hears of a change. */
  function NotifyItem(s: State, id: nat, mask: Ev): State
    requires id in s.store
  {
    var it := s.store[id];
    var now := Ready(s, it);
    if !it.alive then s
    else if it.edge then
      var s1 := SetItem(s, id, it.(last := now));
      if it.last == NONE && now != NONE then Enqueue(s1, id) else s1
    else if And(it.ev, mask) == NONE || now == NONE then s
    else Enqueue(s, id)
  }

  function NotifyAll(s: State, ids: seq<nat>, mask: Ev): (s': State)
    requires forall i | 0 <= i < |ids| :: ids[i] in s.store
    ensures s'.store.Keys == s.store.Keys
  {
    if ids == [] then s
    else NotifyItem(NotifyAll(s, ids[..|ids| - 1], mask), ids[|ids| - 1], mask)
  }

  /** The item a change leaves behind, given its own state. */
  function Notified(s: State, it: Item, mask: Ev): Item {
    var now := Ready(s, it);
    if !it.alive then it
    else if it.edge then it.(last := now, queued := it.queued || (it.last == NONE && now != NONE))
    else it.(queued := it.queued || (And(it.ev, mask) != NONE && now != NONE))
  }

  lemma NotifyItemIs(s: State, id: nat, mask: Ev)
    requires Links(s) && id in s.store
    ensures var s' := NotifyItem(s, id, mask);
            && Links(s') && s'.store == s.store[id := Notified(s, s.store[id], mask)]
            && s'.fds == s.fds && s'.subs == s.subs && s'.interests == s.interests && s'.next == s.next
            && s.ready <= s'.ready
  {
    hide Links, Enqueue;
    var it := s.store[id];
    SameUpdate(s.store, id);
    if it.alive && it.edge {
      NotifyEdge(s, id);
    } else {
      EnqueueLinks(s, id);
    }
  }

  lemma NotifyEdge(s: State, id: nat)
    requires Links(s) && id in s.store && s.store[id].alive
    ensures var it, now := s.store[id], Ready(s, s.store[id]);
            var s1 := SetItem(s, id, it.(last := now));
            && Links(s1) && SameShape(s, s1) && s1.ready == s.ready
            && Links(Enqueue(s1, id)) && SameShape(s, Enqueue(s1, id)) && s.ready <= Enqueue(s1, id).ready
            && Enqueue(s1, id).store == s.store[id := it.(last := now, queued := true)]
  {
    hide Links, Enqueue, SameShape;
    var it, now := s.store[id], Ready(s, s.store[id]);
    var s1 := SetItem(s, id, it.(last := now));
    ObserveLinks(s, id, now);
    EnqueueLinks(s1, id);
    TwiceUpdate(s.store, id, it.(last := now), it.(last := now, queued := true));
    ShapeTrans(s, s1, Enqueue(s1, id));
  }

  lemma ShapeTrans(s: State, s1: State, s2: State)
    requires SameShape(s, s1) && SameShape(s1, s2)
    ensures SameShape(s, s2)
  {
    forall id | id in s.store ensures SameItem(s.store[id], s2.store[id]) {
      assert SameItem(s.store[id], s1.store[id]) && SameItem(s1.store[id], s2.store[id]);
    }
  }

  lemma SameUpdate(m: map<nat, Item>, id: nat)
    requires id in m
    ensures m[id := m[id]] == m
  {
  }

  lemma TwiceUpdate(m: map<nat, Item>, id: nat, a: Item, b: Item)
    ensures m[id := a][id := b] == m[id := b]
  {
  }

  /** A notification updates each subscriber once and leaves every other item alone. */
  lemma {:induction false} NotifyAllIs(s: State, ids: seq<nat>, mask: Ev)
    requires Links(s) && Distinct(ids) && forall i | 0 <= i < |ids| :: ids[i] in s.store
    ensures var s' := NotifyAll(s, ids, mask);
            && Links(s') && s'.fds == s.fds && s'.subs == s.subs && s'.interests == s.interests && s'.next == s.next
            && s.ready <= s'.ready
            && forall id | id in s.store :: s'.store[id] == if id in ids then Notified(s, s.store[id], mask) else s.store[id]
  {
    hide Links, Notified;
    if ids != [] {
      var t, id := ids[..|ids| - 1], ids[|ids| - 1];
      assert ids == t + [id] && id !in t;
      NotifyAllIs(s, t, mask);
      var s1 := NotifyAll(s, t, mask);
      NotifyItemIs(s1, id, mask);
      NotifiedSame(s, s1, s.store[id], mask);
    }
  }

  lemma NotifyNone(s: State, mask: Ev)
    ensures NotifyAll(s, [], mask) == s
  {
  }

  lemma NotifyNext(s: State, ids: seq<nat>, i: nat, mask: Ev)
    requires i < |ids| && forall j | 0 <= j < |ids| :: ids[j] in s.store
    ensures NotifyAll(s, ids[..i + 1], mask) == NotifyItem(NotifyAll(s, ids[..i], mask), ids[i], mask)
  {
    hide NotifyItem;
    assert ids[..i + 1][..i] == ids[..i];
  }

  lemma NotifiedSame(s: State, s1: State, it: Item, mask: Ev)
    requires s1.fds == s.fds
    ensures Notified(s1, it, mask) == Notified(s, it, mask)
  {
  }

  // ---------------------------------------------------------------- eventfd counters

  function SetCounter(s: State, src: nat, c: nat): State
    requires src in s.fds
  {
    s.(fds := s.fds[src := s.fds[src].(counter := c)])
  }

  lemma SubsStored(s: State, src: nat)
    requires Links(s)
    ensures Distinct(Subs(s, src))
    ensures forall i | 0 <= i < |Subs(s, src)| :: Subs(s, src)[i] in s.store
    ensures forall id | id in s.store && s.store[id].alive :: id in Subs(s, src) <==> s.store[id].source == src
  {
    forall i | 0 <= i < |Subs(s, src)| ensures Subs(s, src)[i] in s.store {
      assert Subs(s, src)[i] in s.subs[src];
    }
  }

  function Notify(s: State, src: nat, mask: Ev): State
    requires Links(s)
  {
    SubsStored(s, src);
    NotifyAll(s, Subs(s, src), mask)
  }

  /** Directions that became ready. */
  function Rises(before: Fd, after: Fd): Ev {
    var a, b := PollFd(before), PollFd(after);
    Ev(b.pollIn && !a.pollIn, b.pollOut && !a.pollOut)
  }

  predicate Covered(rises: Ev, mask: Ev) { And(rises, mask) == rises }

  lemma CounterLinks(s: State, src: nat, c: nat)
    requires Links(s) && src in s.fds
    ensures Links(SetCounter(s, src, c))
  {
    FdsLinks(s, SetCounter(s, src, c));
  }

  /** Only the eventfds differ. */
  ghost predicate SameTables(s: State, s': State) { s' == s.(fds := s'.fds) && s.fds.Keys <= s'.fds.Keys }

  lemma FdsLinks(s: State, s': State)
    requires Links(s) && SameTables(s, s')
    ensures Links(s')
  {
    hide Interests, Queue, Subscribed;
    FdsInterests(s, s');
    FdsQueue(s, s');
    FdsSubscribed(s, s');
  }

  lemma FdsInterests(s: State, s': State)
    requires Interests(s) && SameTables(s, s')
    ensures Interests(s')
  {
  }

  lemma FdsQueue(s: State, s': State)
    requires Queue(s) && SameTables(s, s')
    ensures Queue(s')
  {
  }

  lemma FdsSubscribed(s: State, s': State)
    requires Subscribed(s) && SameTables(s, s')
    ensures Subscribed(s')
  {
    forall id | id in s'.store && s'.store[id].alive ensures id in Subs(s', s'.store[id].source) && s'.store[id].source in s'.fds {
      assert id in Subs(s, s.store[id].source) && s.store[id].source in s.fds.Keys;
    }
  }

  /** A changed counter with a notification of what became ready restores every item. */
  lemma NotifyRestores(s: State, src: nat, c: nat, mask: Ev)
    requires Inv(s) && src in s.fds && c <= COUNTER_MAX
    requires Covered(Rises(s.fds[src], s.fds[src].(counter := c)), mask)
    ensures Links(SetCounter(s, src, c))
    ensures var s1 := SetCounter(s, src, c);
            var s2 := Notify(s1, src, mask);
            && Inv(s2) && s2.fds == s1.fds && s2.interests == s.interests && s.ready <= s2.ready && SameInterests(s, s2)
            && forall id | id in s.store && s.store[id].alive ::
                 s2.store[id] == if s.store[id].source == src then Notified(s1, s.store[id], mask) else s.store[id]
  {
    hide Links, Notified, ItemOk;
    CounterLinks(s, src, c);
    var s1 := SetCounter(s, src, c);
    SubsStored(s1, src);
    NotifyAllIs(s1, Subs(s1, src), mask);
    var s2 := Notify(s1, src, mask);
    forall id | id in s2.store ensures ItemOk(s2, id) && SameInterest(s1.store[id], s2.store[id]) {
      NotifiedOk(s, s1, s2, src, id, mask, id in Subs(s1, src));
    }
  }

  lemma NotifiedOk(s: State, s1: State, s2: State, src: nat, id: nat, mask: Ev, heard: bool)
    requires id in s.store && id in s2.store && ItemOk(s, id) && src in s.fds && src in s1.fds
    requires s1 == SetCounter(s, src, s1.fds[src].counter) && s2.fds == s1.fds
    requires Covered(Rises(s.fds[src], s1.fds[src]), mask)
    requires s.store[id].alive ==> (heard <==> s.store[id].source == src)
    requires s2.store[id] == if heard then Notified(s1, s.store[id], mask) else s.store[id]
    ensures ItemOk(s2, id) && SameInterest(s.store[id], s2.store[id])
  {
  }

  /** A change that makes nothing ready and keeps readability needs no notification. */
  lemma QuietChange(s: State, src: nat, c: nat)
    requires Inv(s) && src in s.fds && c <= COUNTER_MAX
    requires Rises(s.fds[src], s.fds[src].(counter := c)) == NONE
    requires PollFd(s.fds[src]).pollIn == PollFd(s.fds[src].(counter := c)).pollIn
    ensures Inv(SetCounter(s, src, c))
  {
    hide Links, ItemOk;
    CounterLinks(s, src, c);
    var s' := SetCounter(s, src, c);
    forall id | id in s'.store ensures ItemOk(s', id) {
      QuietItem(s, s', src, id);
    }
  }

  lemma QuietItem(s: State, s': State, src: nat, id: nat)
    requires id in s.store && ItemOk(s, id) && src in s.fds && src in s'.fds && s' == SetCounter(s, src, s'.fds[src].counter)
    requires Rises(s.fds[src], s'.fds[src]) == NONE && PollFd(s.fds[src]).pollIn == PollFd(s'.fds[src]).pollIn
    ensures ItemOk(s', id)
  {
  }

  // ---------------------------------------------------------------- interests

  /** Evaluate a fresh interest: arm the edge detector and queue what is already ready. */
  function Arm(s: State, id: nat): State
    requires id in s.store
  {
    var it := s.store[id];
    var now := Ready(s, it);
    var s1 := if it.edge then SetItem(s, id, it.(last := now)) else s;
    if now != NONE then Enqueue(s1, id) else s1
  }

  lemma ArmInv(s: State, id: nat)
    requires Links(s) && id in s.store && s.store[id].alive && !s.store[id].queued && s.store[id].last == NONE
    requires forall q | q in s.store && q != id :: ItemOk(s, q)
    requires forall f | f in s.fds :: s.fds[f].counter <= COUNTER_MAX
    ensures var now := Ready(s, s.store[id]);
            && Inv(Arm(s, id))
            && Arm(s, id).store == s.store[id := s.store[id].(last := if s.store[id].edge then now else NONE, queued := now != NONE)]
  {
    hide Links, Enqueue, SameShape;
    var it, now := s.store[id], Ready(s, s.store[id]);
    SameUpdate(s.store, id);
    if it.edge {
      NotifyEdge(s, id);
    } else {
      EnqueueLinks(s, id);
    }
    var s' := Arm(s, id);
    ArmFds(s, id);
    assert s'.store == s.store[id := it.(last := if it.edge then now else NONE, queued := now != NONE)];
    forall q | q in s'.store ensures ItemOk(s', q) {
      if q != id {
        assert ItemOk(s, q);
      }
    }
  }

  lemma ArmFds(s: State, id: nat)
    requires id in s.store
    ensures Arm(s, id).fds == s.fds && Arm(s, id).interests == s.interests
  {
  }

  function Without(q: seq<nat>, id: nat): (r: seq<nat>)
    ensures forall x :: x in r <==> x in q && x != id
  {
    if q == [] then [] else
      var rest := Without(q[..|q| - 1], id);
      assert q == q[..|q| - 1] + [q[|q| - 1]];
      if q[|q| - 1] == id then rest else rest + [q[|q| - 1]]
  }

  lemma {:induction false} WithoutDistinct(q: seq<nat>, id: nat)
    requires Distinct(q)
    ensures Distinct(Without(q, id))
  {
    if q != [] {
      WithoutDistinct(q[..|q| - 1], id);
      var rest, last := Without(q[..|q| - 1], id), q[|q| - 1];
      assert last !in q[..|q| - 1];
    }
  }

  /** A new interest on an eventfd. */
  function Inserted(s: State, key: Key, src: nat, ev: Ev, edge: bool, data: nat): State {
    var it := Item(key, src, ev, edge, data, true, false, NONE);
    s.(store := s.store[s.next := it], interests := s.interests[key := s.next],
       subs := s.subs[src := Subs(s, src) + [s.next]], next := s.next + 1)
  }

  lemma InsertedLinks(s: State, key: Key, src: nat, ev: Ev, edge: bool, data: nat)
    requires Inv(s) && key !in s.interests && src in s.fds
    ensures var s' := Inserted(s, key, src, ev, edge, data);
            && Links(s') && s.next !in s.store && forall q | q in s'.store && q != s.next :: ItemOk(s', q)
  {
    var s', id := Inserted(s, key, src, ev, edge, data), s.next;
    assert id !in s.store;
    assert Interests(s');
    assert Queue(s');
    InsertedSubscribed(s, key, src, ev, edge, data);
    forall q | q in s'.store && q != id ensures ItemOk(s', q) {
      assert ItemOk(s, q);
    }
  }

  lemma InsertedSubscribed(s: State, key: Key, src: nat, ev: Ev, edge: bool, data: nat)
    requires Links(s) && src in s.fds && s.next !in s.store
    ensures Subscribed(Inserted(s, key, src, ev, edge, data))
  {
    hide Interests, Queue;
    var s', id := Inserted(s, key, src, ev, edge, data), s.next;
    SubsStored(s, src);
    assert id !in Subs(s, src);
    assert Distinct(s'.subs[src]);
    forall q | q in s'.store && s'.store[q].alive ensures q in Subs(s', s'.store[q].source) && s'.store[q].source in s'.fds {
      if q != id {
        assert q in Subs(s, s.store[q].source);
      }
    }
  }

  /** A changed interest starts afresh: out of the queue and with the detector at rest. */
  function Reset(s: State, id: nat, ev: Ev, edge: bool, data: nat): State
    requires id in s.store
  {
    SetItem(s, id, s.store[id].(ev := ev, edge := edge, data := data, queued := false, last := NONE)).(ready := Without(s.ready, id))
  }

  lemma ResetLinks(s: State, id: nat, ev: Ev, edge: bool, data: nat)
    requires Inv(s) && id in s.store && s.store[id].alive
    ensures var s' := Reset(s, id, ev, edge, data);
            && Links(s') && forall q | q in s'.store && q != id :: ItemOk(s', q)
  {
    hide Interests, Subscribed, Queue;
    var s' := Reset(s, id, ev, edge, data);
    ResetQueue(s, id, ev, edge, data);
    assert SameShape(s, s');
    ShapeLinks(s, s');
    forall q | q in s'.store && q != id ensures ItemOk(s', q) {
      assert ItemOk(s, q);
    }
  }

  lemma ResetQueue(s: State, id: nat, ev: Ev, edge: bool, data: nat)
    requires Queue(s) && id in s.store
    ensures Queue(Reset(s, id, ev, edge, data))
  {
    WithoutDistinct(s.ready, id);
  }

  /** A deleted interest leaves the table, the queue and the subscribers. */
  function Removed(s: State, key: Key, id: nat): State
    requires id in s.store
  {
    var src := s.store[id].source;
    SetItem(s, id, s.store[id].(alive := false, queued := false))
      .(interests := s.interests - {key}, ready := Without(s.ready, id), subs := s.subs[src := Without(Subs(s, src), id)])
  }

  lemma RemovedInv(s: State, key: Key)
    requires Inv(s) && key in s.interests
    ensures var id := s.interests[key];
            Inv(Removed(s, key, id)) && id !in Removed(s, key, id).ready
  {
    var id := s.interests[key];
    var s' := Removed(s, key, id);
    RemovedQueue(s, key, id);
    RemovedInterests(s, key);
    RemovedSubscribed(s, key, id);
    hide Interests, Queue, Subscribed;
    forall q | q in s'.store ensures ItemOk(s', q) {
      assert ItemOk(s, q);
    }
  }

  lemma RemovedQueue(s: State, key: Key, id: nat)
    requires Queue(s) && id in s.store
    ensures Queue(Removed(s, key, id)) && id !in Removed(s, key, id).ready
  {
    WithoutDistinct(s.ready, id);
  }

  lemma RemovedInterests(s: State, key: Key)
    requires Interests(s) && key in s.interests
    ensures Interests(Removed(s, key, s.interests[key]))
  {
  }

  lemma RemovedSubscribed(s: State, key: Key, id: nat)
    requires Links(s) && id in s.store && s.store[id].alive
    ensures Subscribed(Removed(s, key, id))
  {
    hide Interests, Queue;
    var s', src := Removed(s, key, id), s.store[id].source;
    SubsStored(s, src);
    WithoutDistinct(Subs(s, src), id);
    forall q, x | q in s'.subs && x in s'.subs[q] ensures x in s'.store && s'.store[x].alive && s'.store[x].source == q {
      assert x in s.subs[q] && x != id;
    }
    forall q | q in s'.store && s'.store[q].alive ensures q in Subs(s', s'.store[q].source) && s'.store[q].source in s'.fds {
      assert q in Subs(s, s.store[q].source);
    }
  }

  // ---------------------------------------------------------------- collecting

  /** The item after it is taken from the queue: delivered, or found idle and re-armed. */
  function Taken(s: State, it: Item): Item {
    if Ready(s, it) == NONE && it.edge then it.(queued := false, last := NONE) else it.(queued := false)
  }

  predicate IsReady(s: State, id: nat) { id in s.store && s.store[id].alive && Ready(s, s.store[id]) != NONE }

  /** What taking a stretch of the queue delivers. */
  function Delivered(s: State, ids: seq<nat>): seq<Event> {
    if ids == [] then []
    else
      var id := ids[|ids| - 1];
      Delivered(s, ids[..|ids| - 1]) + if IsReady(s, id) then [Event(Ready(s, s.store[id]), s.store[id].data)] else []
  }

  /** The level items of a stretch that are still ready. */
  function StillReady(s: State, ids: seq<nat>): (r: seq<nat>)
    ensures forall id :: id in r <==> id in ids && IsReady(s, id) && !s.store[id].edge
  {
    if ids == [] then []
    else
      var id := ids[|ids| - 1];
      assert ids == ids[..|ids| - 1] + [id];
      StillReady(s, ids[..|ids| - 1]) + if IsReady(s, id) && !s.store[id].edge then [id] else []
  }

  lemma {:induction false} StillDistinct(s: State, ids: seq<nat>)
    requires Distinct(ids)
    ensures Distinct(StillReady(s, ids))
  {
    if ids != [] {
      StillDistinct(s, ids[..|ids| - 1]);
      assert ids[|ids| - 1] !in ids[..|ids| - 1];
    }
  }

  /** The state after the first `p` queued items are taken. */
  function TakenStore(s: State, ids: seq<nat>): map<nat, Item> {
    map id | id in s.store :: if id in ids then Taken(s, s.store[id]) else s.store[id]
  }

  function Marked(store: map<nat, Item>, ids: seq<nat>): map<nat, Item> {
    map id | id in store :: if id in ids then store[id].(queued := true) else store[id]
  }

  lemma MarkedNone(store: map<nat, Item>)
    ensures Marked(store, []) == store
  {
  }

  lemma MarkedNext(store: map<nat, Item>, ids: seq<nat>, i: nat)
    requires i < |ids| && Distinct(ids) && ids[i] in store
    ensures ids[i] in Marked(store, ids[..i]) && Marked(store, ids[..i])[ids[i]] == store[ids[i]]
    ensures Marked(store, ids[..i + 1]) == Marked(store, ids[..i])[ids[i] := store[ids[i]].(queued := true)]
  {
    assert ids[i] !in ids[..i];
    assert ids[..i + 1] == ids[..i] + [ids[i]];
  }

  /** The state after they are taken and the level items among them are queued again. */
  function Requeued(s: State, p: nat): State
    requires p <= |s.ready|
  {
    var ids := s.ready[..p];
    var again := StillReady(s, ids);
    var store := TakenStore(s, ids);
    s.(store := Marked(store, again), ready := s.ready[p..] + again)
  }

  /** Collecting takes queued items until enough are delivered or none is left. */
  ghost predicate Enough(s: State, p: nat, max: nat) {
    && p <= |s.ready| && |Delivered(s, s.ready[..p])| <= max
    && (p == |s.ready| || |Delivered(s, s.ready[..p])| == max)
  }

  lemma CollectInv(s: State, p: nat)
    requires Inv(s) && p <= |s.ready|
    ensures Inv(Requeued(s, p))
    ensures forall id | id in s.store && EdgeIn(s.store[id]) :: Requeued(s, p).store[id].queued <==> s.store[id].queued && id !in s.ready[..p]
  {
    hide Interests, Subscribed;
    var s' := Requeued(s, p);
    RequeuedQueue(s, p);
    assert SameShape(s, s');
    ShapeLinks(s, s');
    forall id | id in s'.store ensures ItemOk(s', id) {
      assert ItemOk(s, id);
      assert id in s.ready[..p] ==> id in s.ready;
    }
  }

  lemma RequeuedQueue(s: State, p: nat)
    requires Queue(s) && p <= |s.ready|
    ensures Queue(Requeued(s, p))
  {
    hide StillReady, TakenStore;
    var ids := s.ready[..p];
    SplitDistinct(s.ready, p);
    StillDistinct(s, ids);
    StillIs(s, ids);
    ConcatDistinct(s.ready[p..], StillReady(s, ids));
    RequeuedFlags(s, p);
  }

  lemma StillIs(s: State, ids: seq<nat>)
    ensures forall id :: id in StillReady(s, ids) <==> id in ids && IsReady(s, id) && !s.store[id].edge
  {
  }

  lemma SplitDistinct(q: seq<nat>, p: nat)
    requires Distinct(q) && p <= |q|
    ensures Distinct(q[..p]) && Distinct(q[p..]) && forall x | x in q[..p] :: x !in q[p..]
  {
  }

  lemma ConcatDistinct(a: seq<nat>, b: seq<nat>)
    requires Distinct(a) && Distinct(b) && forall x | x in b :: x !in a
    ensures Distinct(a + b)
  {
    forall i, j | 0 <= i < j < |a + b| ensures (a + b)[i] != (a + b)[j] {
      if i < |a| <= j {
        assert b[j - |a|] in b;
      }
    }
  }

  lemma RequeuedFlags(s: State, p: nat)
    requires Queue(s) && p <= |s.ready|
    ensures var s' := Requeued(s, p);
            && (forall id | id in s'.ready :: id in s'.store && s'.store[id].alive && s'.store[id].queued)
            && (forall id | id in s'.store && s'.store[id].queued :: id in s'.ready)
  {
    SplitDistinct(s.ready, p);
    var s' := Requeued(s, p);
    assert s.ready == s.ready[..p] + s.ready[p..];
    forall id | id in s'.ready ensures id in s'.store && s'.store[id].alive && s'.store[id].queued {
      assert id in s.ready;
    }
  }

  /** Every delivered event belongs to a live, ready item, and every such item taken is delivered. */
  lemma {:induction false} DeliveredExact(s: State, ids: seq<nat>, e: Event)
    ensures e in Delivered(s, ids) <==> exists i | 0 <= i < |ids| :: IsReady(s, ids[i]) && e == Event(Ready(s, s.store[ids[i]]), s.store[ids[i]].data)
  {
    if ids != [] {
      var t := ids[..|ids| - 1];
      DeliveredExact(s, t, e);
      if i :| 0 <= i < |ids| && IsReady(s, ids[i]) && e == Event(Ready(s, s.store[ids[i]]), s.store[ids[i]].data) {
        assert i < |t| ==> t[i] == ids[i];
      }
      if e in Delivered(s, t) {
        var i :| 0 <= i < |t| && IsReady(s, t[i]) && e == Event(Ready(s, s.store[t[i]]), s.store[t[i]].data);
        assert ids[i] == t[i];
      }
    }
  }

  // ---------------------------------------------------------------- steps

  datatype Step =
    | Open(osrc: nat, init: nat, semaphore: bool)
    | Write(src: nat, value: nat)
    | Read(rsrc: nat)
    | Add(akey: Key, asrc: nat, aev: Ev, aedge: bool, adata: nat)
    | Mod(mkey: Key, mev: Ev, medge: bool, mdata: nat)
    | Del(dkey: Key)
    | Collect(max: nat)

  function WriteTo(s: State, src: nat, v: nat): State
    requires Inv(s) && src in s.fds
  {
    var c := s.fds[src].counter;
    if v > COUNTER_MAX || c > COUNTER_MAX - v then s
    else
      CounterLinks(s, src, c + v);
      var s1 := SetCounter(s, src, c + v);
      if c == 0 && v != 0 then Notify(s1, src, Ev(true, false)) else s1
  }

  function ReadValue(f: Fd): nat { if f.semaphore && f.counter != 0 then 1 else f.counter }

  function ReadFrom(s: State, src: nat): State
    requires Inv(s) && src in s.fds
  {
    var f := s.fds[src];
    if f.counter == 0 then s
    else
      var c := f.counter - ReadValue(f);
      CounterLinks(s, src, c);
      var s1 := SetCounter(s, src, c);
      assert Links(s1);
      if f.counter == COUNTER_MAX then
        NotifyRestores(s, src, c, Ev(false, true));
        var s2 := Notify(s1, src, Ev(false, true));
        if c == 0 then Notify(s2, src, Ev(true, false)) else s2
      else if c == 0 then Notify(s1, src, Ev(true, false)) else s1
  }

  function Takes(s: State, p: nat, max: nat): (q: nat)
    requires p <= |s.ready| && |Delivered(s, s.ready[..p])| <= max
    ensures Enough(s, q, max)
    decreases |s.ready| - p
  {
    if p == |s.ready| || |Delivered(s, s.ready[..p])| == max then p
    else
      assert s.ready[..p + 1][..p] == s.ready[..p];
      Takes(s, p + 1, max)
  }

  function Collected(s: State, max: nat): State { Requeued(s, Takes(s, 0, max)) }

  function Apply(s: State, step: Step): State
    requires Inv(s)
  {
    match step
    case Open(src, init, semaphore) => if src in s.fds || init > COUNTER_MAX then s else s.(fds := s.fds[src := Fd(init, semaphore)])
    case Write(src, v) => if src in s.fds then WriteTo(s, src, v) else s
    case Read(src) => if src in s.fds then ReadFrom(s, src) else s
    case Add(key, src, ev, edge, data) =>
      if key in s.interests || src !in s.fds then s else Arm(Inserted(s, key, src, ev, edge, data), s.next)
    case Mod(key, ev, edge, data) =>
      if key !in s.interests then s else Arm(Reset(s, s.interests[key], ev, edge, data), s.interests[key])
    case Del(key) => if key !in s.interests then s else Removed(s, key, s.interests[key])
    case Collect(max) => Collected(s, max)
  }

  /** What each step leaves of one item that it does not create, change or delete. */
  lemma WriteStep(s: State, src: nat, v: nat)
    requires Inv(s) && src in s.fds
    ensures Inv(WriteTo(s, src, v))
    ensures SameInterests(s, WriteTo(s, src, v))
    ensures forall id | id in s.store && s.store[id].alive && EdgeIn(s.store[id]) ::
              EdgeAfter(s.store[id], WriteTo(s, src, v).store[id], Rose(s, src, v) && s.store[id].source == src)
  {
    hide Inv;
    var f := s.fds[src];
    InvParts(s);
    if v > COUNTER_MAX || f.counter > COUNTER_MAX - v {
    } else if f.counter == 0 && v != 0 {
      NotifyRestores(s, src, v, Ev(true, false));
    } else {
      QuietChange(s, src, f.counter + v);
    }
  }

  /** The counter after a write, which changes nothing if the sum does not fit. */
  function Sum(c: nat, v: nat): nat { if c + v <= COUNTER_MAX then c + v else c }

  lemma WriteTables(s: State, src: nat, v: nat)
    requires Inv(s) && src in s.fds
    ensures WriteTo(s, src, v).interests == s.interests
    ensures WriteTo(s, src, v).fds == s.fds[src := s.fds[src].(counter := Sum(s.fds[src].counter, v))]
  {
    hide Inv, SameInterests, Notified, Notify, Links;
    InvParts(s);
    if s.fds[src].counter == 0 && 0 < v <= COUNTER_MAX {
      NotifyRestores(s, src, v, Ev(true, false));
    }
  }

  /** The write takes the counter from zero to non-zero. */
  predicate Rose(s: State, src: nat, v: nat)
    requires src in s.fds
  {
    s.fds[src].counter == 0 && 0 < v <= COUNTER_MAX
  }

  /** The same interest, queued if it was or if it must be. */
  predicate EdgeAfter(a: Item, b: Item, rise: bool) {
    SameInterest(a, b) && (b.queued <==> a.queued || rise)
  }

  lemma InvParts(s: State)
    requires Inv(s)
    ensures Links(s) && forall id | id in s.store :: ItemOk(s, id)
    ensures forall f | f in s.fds :: s.fds[f].counter <= COUNTER_MAX
  {
  }

  /** A read from a full counter announces room first, and then that nothing is left. */
  lemma ReadFull(s: State, src: nat, c: nat)
    requires Inv(s) && src in s.fds && s.fds[src].counter == COUNTER_MAX && c < COUNTER_MAX
    ensures Links(SetCounter(s, src, c)) && Links(Notify(SetCounter(s, src, c), src, Ev(false, true)))
    ensures var s2 := Notify(SetCounter(s, src, c), src, Ev(false, true));
            var s3 := if c == 0 then Notify(s2, src, Ev(true, false)) else s2;
            Inv(s3) && SameInterests(s, s3) && QuietEdges(s, s3) && s3.interests == s.interests && s3.fds == SetCounter(s, src, c).fds
  {
    hide Inv, Notify;
    InvParts(s);
    NotifyQuiet(s, src, c, Ev(false, true));
    var s2 := Notify(SetCounter(s, src, c), src, Ev(false, true));
    InvParts(s2);
    if c == 0 {
      assert s2.fds[src := s2.fds[src].(counter := 0)] == s2.fds;
      assert SetCounter(s2, src, 0) == s2;
      NotifyQuiet(s2, src, 0, Ev(true, false));
      QuietTrans(s, s2, Notify(s2, src, Ev(true, false)));
    }
  }

  /** No edge item is queued by a change that does not make the source readable. */
  ghost predicate QuietEdges(s: State, s': State)
    requires SameInterests(s, s')
  {
    forall id | id in s.store && s.store[id].alive && EdgeIn(s.store[id]) :: EdgeAfter(s.store[id], s'.store[id], false)
  }

  lemma QuietTrans(s: State, s1: State, s2: State)
    requires SameInterests(s, s1) && SameInterests(s1, s2) && QuietEdges(s, s1) && QuietEdges(s1, s2)
    ensures SameInterests(s, s2) && QuietEdges(s, s2)
  {
    forall id | id in s.store ensures SameInterest(s.store[id], s2.store[id]) {
      assert SameInterest(s.store[id], s1.store[id]) && SameInterest(s1.store[id], s2.store[id]);
    }
    forall id | id in s.store && s.store[id].alive && EdgeIn(s.store[id]) ensures EdgeAfter(s.store[id], s2.store[id], false) {
      assert EdgeAfter(s.store[id], s1.store[id], false) && EdgeAfter(s1.store[id], s2.store[id], false);
    }
  }

  lemma NotifyQuiet(s: State, src: nat, c: nat, mask: Ev)
    requires Inv(s) && src in s.fds && c <= COUNTER_MAX && (s.fds[src].counter == 0 ==> c == 0)
    requires Covered(Rises(s.fds[src], s.fds[src].(counter := c)), mask)
    ensures Links(SetCounter(s, src, c))
    ensures var s2 := Notify(SetCounter(s, src, c), src, mask);
            && Inv(s2) && s2.fds == SetCounter(s, src, c).fds && s2.interests == s.interests && SameInterests(s, s2) && QuietEdges(s, s2)
  {
    hide Inv, Notify;
    InvParts(s);
    NotifyRestores(s, src, c, mask);
  }

  /** The counter after a read: one less for a semaphore, else zero. */
  function Rest(f: Fd): nat { if f.semaphore && f.counter > 0 then f.counter - 1 else 0 }

  lemma ReadStep(s: State, src: nat)
    requires Inv(s) && src in s.fds
    ensures Inv(ReadFrom(s, src))
    ensures SameInterests(s, ReadFrom(s, src)) && QuietEdges(s, ReadFrom(s, src)) && ReadFrom(s, src).interests == s.interests
    ensures ReadFrom(s, src).fds == s.fds[src := s.fds[src].(counter := Rest(s.fds[src]))]
  {
    hide Inv, Notify;
    InvParts(s);
    var f := s.fds[src];
    if f.counter != 0 {
      var c := f.counter - ReadValue(f);
      if f.counter == COUNTER_MAX {
        ReadFull(s, src, c);
      } else if c == 0 {
        NotifyQuiet(s, src, c, Ev(true, false));
      } else {
        QuietChange(s, src, c);
      }
    }
  }

  lemma OpenStep(s: State, src: nat, f: Fd)
    requires Inv(s) && src !in s.fds && f.counter <= COUNTER_MAX
    ensures Inv(s.(fds := s.fds[src := f]))
  {
    hide Interests, Queue;
    var s' := s.(fds := s.fds[src := f]);
    OpenLinks(s, src, f);
    forall id | id in s'.store ensures ItemOk(s', id) {
      assert ItemOk(s, id);
    }
  }

  lemma OpenLinks(s: State, src: nat, f: Fd)
    requires Links(s)
    ensures Links(s.(fds := s.fds[src := f]))
  {
    FdsLinks(s, s.(fds := s.fds[src := f]));
  }

  /** The item stands for this interest. */
  predicate Asks(it: Item, key: Key, src: nat, ev: Ev, edge: bool, data: nat) {
    it.alive && it.key == key && it.source == src && it.ev == ev && it.edge == edge && it.data == data
  }

  lemma AddStep(s: State, key: Key, src: nat, ev: Ev, edge: bool, data: nat)
    requires Inv(s) && key !in s.interests && src in s.fds
    ensures var s' := Arm(Inserted(s, key, src, ev, edge, data), s.next);
            && Inv(s') && s.next !in s.store && s'.store.Keys == s.store.Keys + {s.next}
            && s'.store[s.next].queued == (And(ev, PollFd(s.fds[src])) != NONE)
            && Asks(s'.store[s.next], key, src, ev, edge, data) && s'.interests == s.interests[key := s.next] && s'.fds == s.fds
            && forall q | q in s.store :: s'.store[q] == s.store[q]
  {
    hide Inv, Links, ItemOk, Arm;
    InsertedLinks(s, key, src, ev, edge, data);
    InvParts(s);
    ArmInv(Inserted(s, key, src, ev, edge, data), s.next);
    ArmFds(Inserted(s, key, src, ev, edge, data), s.next);
  }

  lemma ModStep(s: State, key: Key, ev: Ev, edge: bool, data: nat)
    requires Inv(s) && key in s.interests
    ensures s.interests[key] in s.store
    ensures var id := s.interests[key];
            var s' := Arm(Reset(s, id, ev, edge, data), id);
            && Inv(s') && s'.store.Keys == s.store.Keys
            && s'.store[id].queued == (Ready(s, s.store[id].(ev := ev)) != NONE)
            && Asks(s'.store[id], key, s.store[id].source, ev, edge, data) && s'.interests == s.interests && s'.fds == s.fds
            && forall q | q in s.store && q != id :: s'.store[q] == s.store[q]
  {
    hide Links, ItemOk, Arm;
    InvParts(s);
    InterestAlive(s, key);
    var id := s.interests[key];
    ResetLinks(s, id, ev, edge, data);
    ArmInv(Reset(s, id, ev, edge, data), id);
    ArmFds(Reset(s, id, ev, edge, data), id);
  }

  lemma InterestAlive(s: State, key: Key)
    requires Links(s) && key in s.interests
    ensures s.interests[key] in s.store && s.store[s.interests[key]].alive && s.store[s.interests[key]].key == key
  {
  }

  lemma DelStep(s: State, key: Key)
    requires Inv(s) && key in s.interests
    ensures s.interests[key] in s.store
    ensures var id := s.interests[key];
            var s' := Removed(s, key, id);
            && Inv(s') && s'.store.Keys == s.store.Keys && !s'.store[id].alive
            && forall q | q in s.store && q != id :: s'.store[q] == s.store[q]
  {
    hide Inv;
    InvParts(s);
    InterestAlive(s, key);
    RemovedInv(s, key);
  }

  lemma StepInv(s: State, step: Step)
    requires Inv(s)
    ensures Inv(Apply(s, step))
  {
    hide Inv, Arm, Removed, Inserted, Reset, WriteTo, ReadFrom, Requeued;
    match step
    case Open(src, init, semaphore) => if !(src in s.fds || init > COUNTER_MAX) { OpenStep(s, src, Fd(init, semaphore)); }
    case Write(src, v) => if src in s.fds { WriteStep(s, src, v); }
    case Read(src) => if src in s.fds { ReadStep(s, src); }
    case Add(key, src, ev, edge, data) => if !(key in s.interests || src !in s.fds) { AddStep(s, key, src, ev, edge, data); }
    case Mod(key, ev, edge, data) => if key in s.interests { ModStep(s, key, ev, edge, data); }
    case Del(key) => if key in s.interests { DelStep(s, key); }
    case Collect(max) => CollectInv(s, Takes(s, 0, max));
  }

  // ---------------------------------------------------------------- runs

  const EMPTY: State := State(map[], map[], [], map[], map[], 0)

  lemma EmptyInv()
    ensures Inv(EMPTY)
  {
  }

  function Run(steps: seq<Step>): (s: State)
    ensures Inv(s)
  {
    if steps == [] then EmptyInv(); EMPTY
    else
      var s := Run(steps[..|steps| - 1]);
      StepInv(s, steps[|steps| - 1]);
      Apply(s, steps[|steps| - 1])
  }

  /** A zero-to-non-zero change, or a fresh interest in a non-zero counter, that item `id` has not been
      taken from the queue for. */
  ghost predicate Owed(steps: seq<Step>, id: nat) {
    steps != [] &&
    var t := steps[..|steps| - 1];
    var s := Run(t);
    match steps[|steps| - 1]
    case Open(_, _, _) => Owed(t, id)
    case Write(src, v) => Owed(t, id) || (src in s.fds && Rose(s, src, v) && id in s.store && s.store[id].source == src)
    case Read(_) => Owed(t, id)
    case Add(key, src, ev, _, _) => if key !in s.interests && src in s.fds && id == s.next then And(ev, PollFd(s.fds[src])) != NONE else Owed(t, id)
    case Mod(key, ev, _, _) => if key in s.interests && s.interests[key] == id && id in s.store then Ready(s, s.store[id].(ev := ev)) != NONE else Owed(t, id)
    case Del(_) => Owed(t, id)
    case Collect(max) => Owed(t, id) && id !in s.ready[..Takes(s, 0, max)]
  }

  /** Edge delivery over every run: a live edge item that watches reading is queued exactly while a change is
      owed to it, and its detector is non-zero exactly when the counter is. */
  lemma {:induction false} EdgeExact(steps: seq<Step>, id: nat)
    requires id in Run(steps).store && Run(steps).store[id].alive && EdgeIn(Run(steps).store[id])
    ensures var s := Run(steps);
            && (id in s.ready <==> Owed(steps, id))
            && s.store[id].source in s.fds
            && (s.store[id].last != NONE <==> s.fds[s.store[id].source].counter != 0)
  {
    var s := Run(steps);
    assert ItemOk(s, id);
    EdgeQueued(steps, id);
  }

  /** Over every run: no item is queued twice, only live interests are queued, and a level item that is ready is queued. */
  lemma QueueExact(steps: seq<Step>)
    ensures var s := Run(steps);
            && Distinct(s.ready)
            && (forall id | id in s.ready :: id in s.store && s.store[id].alive && s.store[id].key in s.interests && s.interests[s.store[id].key] == id)
            && (forall id | id in s.store && s.store[id].alive && !s.store[id].edge && Ready(s, s.store[id]) != NONE :: id in s.ready)
  {
    var s := Run(steps);
    forall id | id in s.store && s.store[id].alive && !s.store[id].edge && Ready(s, s.store[id]) != NONE ensures id in s.ready {
      assert ItemOk(s, id);
    }
  }

  lemma {:induction false} EdgeQueued(steps: seq<Step>, id: nat)
    requires id in Run(steps).store && Run(steps).store[id].alive && EdgeIn(Run(steps).store[id])
    ensures Run(steps).store[id].queued <==> Owed(steps, id)
  {
    hide Inv, Arm, Removed, Inserted, Reset, WriteTo, ReadFrom, Requeued, EdgeAfter;
    if steps != [] {
      var t, step := steps[..|steps| - 1], steps[|steps| - 1];
      var s := Run(t);
      var s' := Run(steps);
      assert s' == Apply(s, step);
      if Fresh(s, step, id) {
        FreshQueued(s, step, id);
      } else {
        EdgeStep(s, step, id);
        EdgeQueued(t, id);
      }
    }
  }

  /** The step creates or changes this interest. */
  predicate Fresh(s: State, step: Step, id: nat) {
    || (step.Add? && step.akey !in s.interests && step.asrc in s.fds && id == s.next)
    || (step.Mod? && step.mkey in s.interests && s.interests[step.mkey] == id && id in s.store)
  }

  lemma FreshQueued(s: State, step: Step, id: nat)
    requires Inv(s) && Fresh(s, step, id) && id in Apply(s, step).store
    ensures Apply(s, step).store[id].queued ==
            if step.Add? then And(step.aev, PollFd(s.fds[step.asrc])) != NONE else Ready(s, s.store[id].(ev := step.mev)) != NONE
  {
    hide Inv, Arm, Inserted, Reset;
    if step.Add? {
      AddStep(s, step.akey, step.asrc, step.aev, step.aedge, step.adata);
    } else {
      ModStep(s, step.mkey, step.mev, step.medge, step.mdata);
    }
  }

  /** What a step that does not renew the interest does to it. */
  lemma EdgeStep(s: State, step: Step, id: nat)
    requires Inv(s) && !Fresh(s, step, id)
    requires id in Apply(s, step).store && Apply(s, step).store[id].alive && EdgeIn(Apply(s, step).store[id])
    ensures id in s.store && s.store[id].alive && EdgeIn(s.store[id])
    ensures Apply(s, step).store[id].queued ==
            if step.Write? && step.src in s.fds && Rose(s, step.src, step.value) && s.store[id].source == step.src then true
            else s.store[id].queued && (step.Collect? ==> id !in s.ready[..Takes(s, 0, step.max)])
  {
    hide Inv, Arm, Removed, Inserted, Reset, WriteTo, ReadFrom;
    match step
    case Open(_, _, _) =>
    case Write(src, v) => if src in s.fds { WriteStep(s, src, v); }
    case Read(src) => if src in s.fds { ReadStep(s, src); }
    case Add(key, src, ev, edge, data) => if !(key in s.interests || src !in s.fds) { AddStep(s, key, src, ev, edge, data); }
    case Mod(key, ev, edge, data) => if key in s.interests { ModStep(s, key, ev, edge, data); }
    case Del(key) => if key in s.interests { DelStep(s, key); }
    case Collect(max) => CollectInv(s, Takes(s, 0, max));
  }

  // ---------------------------------------------------------------- the objects

  datatype Outcome = Done | Again | Invalid | Exists | Missing

  /** One epoll instance and the eventfds it watches. */
  class Instance {
    var store: map<nat, Item>
    var interests: map<Key, nat>
    var ready: seq<nat>
    var subs: map<nat, seq<nat>>
    var fds: map<nat, Fd>
    var next: nat

    ghost function St(): State
      reads this
    {
      State(store, interests, ready, subs, fds, next)
    }

    constructor ()
      ensures St() == EMPTY && Inv(St())
    {
      store, interests, ready, subs, fds, next := map[], map[], [], map[], map[], 0;
    }

    /** Put a live item in the queue unless it is there. */
    method EnqueueItem(id: nat)
      requires id in store
      modifies this`store, this`ready
      ensures St() == Enqueue(old(St()), id)
    {
      if !store[id].alive || store[id].queued {
        return;
      }
      store := store[id := store[id].(queued := true)];
      ready := ready + [id];
    }

    /** Deliver a notification to the subscribers of a source, in order. */
    method NotifySource(src: nat, mask: Ev)
      requires Links(St())
      modifies this`store, this`ready
      ensures St() == Notify(old(St()), src, mask)
    {
      hide Links, NotifyAll, Enqueue;
      ghost var s := St();
      SubsStored(s, src);
      NotifyNone(s, mask);
      var ids := if src in subs then subs[src] else [];
      for i := 0 to |ids|
        invariant store.Keys == s.store.Keys
        invariant St() == NotifyAll(s, ids[..i], mask)
      {
        var id := ids[i];
        NotifyNext(s, ids, i, mask);
        if store[id].alive {
          var now := if store[id].source in fds then And(store[id].ev, PollFd(fds[store[id].source])) else NONE;
          if store[id].edge {
            var before := store[id].last;
            store := store[id := store[id].(last := now)];
            if before == NONE && now != NONE {
              EnqueueItem(id);
            }
          } else if And(store[id].ev, mask) != NONE && now != NONE {
            EnqueueItem(id);
          }
        }
      }
      assert ids[..|ids|] == ids;
    }

    /** Add to an eventfd; `Again` stands for a writer that would block. */
    method WriteFd(src: nat, v: nat) returns (r: Outcome)
      requires Inv(St()) && src in fds
      modifies this`store, this`ready, this`fds
      ensures Inv(St()) && St() == Apply(old(St()), Step.Write(src, v))
      ensures r == if v > COUNTER_MAX then Invalid else if old(fds)[src].counter > COUNTER_MAX - v then Again else Done
      ensures src in fds && fds[src].counter == old(fds)[src].counter + (if r == Done then v else 0)
    {
      hide Links;
      ghost var s := St();
      WriteStep(s, src, v);
      if v > COUNTER_MAX {
        return Invalid;
      }
      var c := fds[src].counter;
      if c > COUNTER_MAX - v {
        return Again;
      }
      CounterLinks(s, src, c + v);
      fds := fds[src := fds[src].(counter := c + v)];
      if c == 0 && v != 0 {
        NotifySource(src, Ev(true, false));
      }
      return Done;
    }

    /** Take the value of an eventfd; `Again` stands for a reader that would block. */
    method ReadFd(src: nat) returns (r: Outcome, value: nat)
      requires Inv(St()) && src in fds
      modifies this`store, this`ready, this`fds
      ensures Inv(St()) && St() == Apply(old(St()), Step.Read(src))
      ensures (r == Again <==> old(fds)[src].counter == 0) && (r == Again || r == Done)
      ensures src in fds && value + fds[src].counter == old(fds)[src].counter
      ensures r == Done ==> value == if old(fds)[src].semaphore then 1 else old(fds)[src].counter
    {
      hide Links, Inv;
      ghost var s := St();
      InvParts(s);
      ReadStep(s, src);
      if fds[src].counter == 0 {
        return Again, 0;
      }
      var was := fds[src].counter;
      value := if fds[src].semaphore then 1 else was;
      var c := was - value;
      CounterLinks(s, src, c);
      fds := fds[src := fds[src].(counter := c)];
      if was == COUNTER_MAX {
        NotifyRestores(s, src, c, Ev(false, true));
        NotifySource(src, Ev(false, true));
        InvParts(St());
      }
      if c == 0 {
        NotifySource(src, Ev(true, false));
      }
      return Done, value;
    }

    method ArmItem(id: nat)
      requires id in store
      modifies this`store, this`ready
      ensures St() == Arm(old(St()), id)
    {
      var it := store[id];
      var now := if it.source in fds then And(it.ev, PollFd(fds[it.source])) else NONE;
      if it.edge {
        store := store[id := it.(last := now)];
      }
      if now != NONE {
        EnqueueItem(id);
      }
    }

    method CtlAdd(key: Key, src: nat, ev: Ev, edge: bool, data: nat) returns (r: Outcome)
      requires Inv(St()) && src in fds
      modifies this
      ensures Inv(St()) && St() == Apply(old(St()), Step.Add(key, src, ev, edge, data))
      ensures r == if key in old(interests) then Exists else Done
    {
      hide Inv, Arm;
      StepInv(St(), Step.Add(key, src, ev, edge, data));
      if key in interests {
        return Exists;
      }
      var id := next;
      store := store[id := Item(key, src, ev, edge, data, true, false, NONE)];
      interests := interests[key := id];
      subs := subs[src := (if src in subs then subs[src] else []) + [id]];
      next := next + 1;
      ArmItem(id);
      return Done;
    }

    method CtlMod(key: Key, ev: Ev, edge: bool, data: nat) returns (r: Outcome)
      requires Inv(St())
      modifies this`store, this`ready
      ensures Inv(St()) && St() == Apply(old(St()), Step.Mod(key, ev, edge, data))
      ensures r == if key in old(interests) then Done else Missing
    {
      hide Inv, Arm;
      InvParts(St());
      StepInv(St(), Step.Mod(key, ev, edge, data));
      if key !in interests {
        return Missing;
      }
      var id := interests[key];
      store := store[id := store[id].(ev := ev, edge := edge, data := data, queued := false, last := NONE)];
      ready := Without(ready, id);
      ArmItem(id);
      return Done;
    }

    method CtlDel(key: Key) returns (r: Outcome)
      requires Inv(St())
      modifies this`store, this`ready, this`interests, this`subs
      ensures Inv(St()) && St() == Apply(old(St()), Step.Del(key))
      ensures r == if key in old(interests) then Done else Missing
    {
      hide Inv;
      InvParts(St());
      StepInv(St(), Step.Del(key));
      if key !in interests {
        return Missing;
      }
      var id := interests[key];
      var src := store[id].source;
      interests := interests - {key};
      store := store[id := store[id].(alive := false, queued := false)];
      ready := Without(ready, id);
      subs := subs[src := Without(if src in subs then subs[src] else [], id)];
      return Done;
    }

    /** Hand out up to `max` events. */
    method CollectReady(max: nat) returns (output: seq<Event>)
      requires Inv(St())
      modifies this`store, this`ready
      ensures Inv(St()) && St() == Apply(old(St()), Step.Collect(max))
      ensures output == Delivered(old(St()), old(ready)[..Takes(old(St()), 0, max)])
    {
      hide Inv, Delivered, StillReady, TakenStore, Takes, Requeued, Enough;
      ghost var s := St();
      StepInv(s, Step.Collect(max));
      output := [];
      var level: seq<nat> := [];
      ghost var p := 0;
      TakeNone(s);
      while |output| < max && ready != []
        invariant p <= |s.ready| && ready == s.ready[p..] && |output| <= max
        invariant output == Delivered(s, s.ready[..p]) && level == StillReady(s, s.ready[..p])
        invariant store == TakenStore(s, s.ready[..p])
        invariant interests == s.interests && subs == s.subs && fds == s.fds && next == s.next
        invariant Takes(s, p, max) == Takes(s, 0, max)
        decreases |ready|
      {
        var id := ready[0];
        TakeOne(s, p, max);
        ready := ready[1..];
        var it := store[id];
        store := store[id := it.(queued := false)];
        var now := if it.source in fds then And(it.ev, PollFd(fds[it.source])) else NONE;
        if now == NONE {
          if it.edge {
            store := store[id := store[id].(last := NONE)];
          }
        } else {
          output := output + [Event(now, it.data)];
          if !it.edge {
            level := level + [id];
          }
        }
        p := p + 1;
        assert store == TakenStore(s, s.ready[..p]) by {
          TwiceUpdate(TakenStore(s, s.ready[..p - 1]), id, it.(queued := false), Taken(s, it));
        }
      }
      TakesEnd(s, p, max);
      RequeueLevel(s, p, level);
    }

    /** Queue the delivered level items again. */
    method RequeueLevel(ghost s: State, ghost p: nat, level: seq<nat>)
      requires Inv(s) && p <= |s.ready| && level == StillReady(s, s.ready[..p])
      requires St() == s.(store := TakenStore(s, s.ready[..p]), ready := s.ready[p..])
      modifies this`store, this`ready
      ensures St() == Requeued(s, p)
    {
      hide Inv, StillReady, TakenStore, Marked;
      LevelFacts(s, p);
      ghost var taken := store;
      MarkedNone(taken);
      for i := 0 to |level|
        invariant store == Marked(taken, level[..i])
        invariant ready == s.ready[p..] + level[..i]
      {
        var id := level[i];
        assert id in level;
        MarkedNext(taken, level, i);
        assert level[..i + 1] == level[..i] + [id];
        var it := store[id];
        if it.alive && (if it.source in fds then And(it.ev, PollFd(fds[it.source])) else NONE) != NONE {
          EnqueueItem(id);
        }
      }
      assert level[..|level|] == level;
    }
  }

  lemma TakesEnd(s: State, p: nat, max: nat)
    requires p <= |s.ready| && |Delivered(s, s.ready[..p])| <= max
    requires p == |s.ready| || |Delivered(s, s.ready[..p])| == max
    ensures Takes(s, p, max) == p
  {
  }

  lemma TakeNone(s: State)
    ensures Delivered(s, s.ready[..0]) == [] && StillReady(s, s.ready[..0]) == [] && TakenStore(s, s.ready[..0]) == s.store
  {
  }

  lemma TakeOne(s: State, p: nat, max: nat)
    requires Inv(s) && p < |s.ready| && |Delivered(s, s.ready[..p])| < max
    ensures var id := s.ready[p];
            && id in s.store && s.store[id].alive && id !in s.ready[..p]
            && Delivered(s, s.ready[..p + 1]) == Delivered(s, s.ready[..p]) + (if Ready(s, s.store[id]) != NONE then [Event(Ready(s, s.store[id]), s.store[id].data)] else [])
            && StillReady(s, s.ready[..p + 1]) == StillReady(s, s.ready[..p]) + (if Ready(s, s.store[id]) != NONE && !s.store[id].edge then [id] else [])
            && id in TakenStore(s, s.ready[..p]) && TakenStore(s, s.ready[..p])[id] == s.store[id]
            && TakenStore(s, s.ready[..p + 1]) == TakenStore(s, s.ready[..p])[id := Taken(s, s.store[id])]
    ensures |Delivered(s, s.ready[..p + 1])| <= max && Takes(s, p, max) == Takes(s, p + 1, max)
  {
    hide Inv, Delivered, StillReady, TakenStore, Takes;
    QueueFront(s, p);
    TakeLists(s, p);
    TakeStore(s, p);
    TakesNext(s, p, max);
  }

  lemma QueueFront(s: State, p: nat)
    requires Inv(s) && p < |s.ready|
    ensures s.ready[p] in s.store && s.store[s.ready[p]].alive && s.ready[p] !in s.ready[..p]
  {
    assert s.ready[p] in s.ready;
  }

  lemma TakeLists(s: State, p: nat)
    requires p < |s.ready| && s.ready[p] in s.store && s.store[s.ready[p]].alive
    ensures var id := s.ready[p];
            && Delivered(s, s.ready[..p + 1]) == Delivered(s, s.ready[..p]) + (if Ready(s, s.store[id]) != NONE then [Event(Ready(s, s.store[id]), s.store[id].data)] else [])
            && StillReady(s, s.ready[..p + 1]) == StillReady(s, s.ready[..p]) + (if Ready(s, s.store[id]) != NONE && !s.store[id].edge then [id] else [])
  {
    assert s.ready[..p + 1][..p] == s.ready[..p];
  }

  lemma TakeStore(s: State, p: nat)
    requires p < |s.ready| && s.ready[p] in s.store && s.ready[p] !in s.ready[..p]
    ensures var id := s.ready[p];
            && id in TakenStore(s, s.ready[..p]) && TakenStore(s, s.ready[..p])[id] == s.store[id]
            && TakenStore(s, s.ready[..p + 1]) == TakenStore(s, s.ready[..p])[id := Taken(s, s.store[id])]
  {
    assert s.ready[..p + 1] == s.ready[..p] + [s.ready[p]];
  }

  lemma TakesNext(s: State, p: nat, max: nat)
    requires p < |s.ready| && |Delivered(s, s.ready[..p])| < max
    ensures |Delivered(s, s.ready[..p + 1])| <= max && Takes(s, p, max) == Takes(s, p + 1, max)
  {
    assert s.ready[..p + 1][..p] == s.ready[..p];
  }

  /** The level items taken are live, ready and out of the queue. */
  lemma LevelFacts(s: State, p: nat)
    requires Inv(s) && p <= |s.ready|
    ensures Distinct(StillReady(s, s.ready[..p]))
    ensures forall id | id in StillReady(s, s.ready[..p]) ::
              var t := TakenStore(s, s.ready[..p]);
              id in t && t[id].alive && !t[id].queued && Ready(s, t[id]) != NONE
  {
    SplitDistinct(s.ready, p);
    StillDistinct(s, s.ready[..p]);
  }
}
