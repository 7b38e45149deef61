/**
 Epoll as its user sees it: which file is watched for what, with which data, and what a wait returns. The user's
 view has no items, no queue and no subscribers; the instance is proved to implement it over every run.
 */
module EpollUser {
  import opened Basics
  import opened Epoll

  datatype Wish = Wish(source: nat, ev: Ev, edge: bool, data: nat)

  datatype User = User(wishes: map<Key, Wish>, fds: map<nat, Fd>)

  /** What a call means to the user. */
  ghost function Meaning(u: User, step: Step): User {
    match step
    case Open(src, init, semaphore) =>
      if src in u.fds || init > COUNTER_MAX then u else u.(fds := u.fds[src := Fd(init, semaphore)])
    case Write(src, v) =>
      if src in u.fds && u.fds[src].counter + v <= COUNTER_MAX then u.(fds := u.fds[src := u.fds[src].(counter := u.fds[src].counter + v)])
      else u
    case Read(src) =>
      if src in u.fds && u.fds[src].counter > 0
      then u.(fds := u.fds[src := u.fds[src].(counter := if u.fds[src].semaphore then u.fds[src].counter - 1 else 0)])
      else u
    case Add(key, src, ev, edge, data) =>
      if key in u.wishes || src !in u.fds then u else u.(wishes := u.wishes[key := Wish(src, ev, edge, data)])
    case Mod(key, ev, edge, data) =>
      if key in u.wishes then u.(wishes := u.wishes[key := Wish(u.wishes[key].source, ev, edge, data)]) else u
    case Del(key) => u.(wishes := u.wishes - {key})
    case Collect(_) => u
  }

  ghost function After(steps: seq<Step>): User {
    if steps == [] then User(map[], map[]) else Meaning(After(steps[..|steps| - 1]), steps[|steps| - 1])
  }

  ghost function WishOf(it: Item): Wish { Wish(it.source, it.ev, it.edge, it.data) }

  /** What an instance holds for the user. */
  ghost function Seen(s: State): User
    requires Interests(s)
  {
    User(map key | key in s.interests :: WishOf(s.store[s.interests[key]]), s.fds)
  }

  // ---------------------------------------------------------------- calls

  /** A step that keeps the interests keeps every wish. */
  lemma SameWishes(s: State, s': State)
    requires Interests(s) && Interests(s') && s'.interests == s.interests && SameInterests(s, s')
    ensures Seen(s').wishes == Seen(s).wishes
  {
    forall key | key in s.interests ensures WishOf(s'.store[s.interests[key]]) == WishOf(s.store[s.interests[key]]) {
      assert SameInterest(s.store[s.interests[key]], s'.store[s.interests[key]]);
    }
  }

  lemma InvInterests(s: State)
    requires Inv(s)
    ensures Interests(s)
  {
  }

  lemma SeenCounters(s: State, step: Step)
    requires Inv(s) && (step.Open? || step.Write? || step.Read?)
    ensures Inv(Apply(s, step)) && Seen(Apply(s, step)) == Meaning(Seen(s), step)
  {
    hide Inv, WriteTo, ReadFrom, Interests;
    StepInv(s, step);
    InvInterests(s);
    InvInterests(Apply(s, step));
    match step
    case Open(_, _, _) =>
    case Write(src, v) =>
      if src in s.fds {
        WriteStep(s, src, v);
        WriteTables(s, src, v);
        SameWishes(s, WriteTo(s, src, v));
        assert s.fds[src := s.fds[src]] == s.fds;
      }
    case Read(src) =>
      if src in s.fds {
        ReadStep(s, src);
        SameWishes(s, ReadFrom(s, src));
        assert s.fds[src := s.fds[src]] == s.fds;
      }
  }

  /** One key gets a wish, and every other item stays. */
  lemma NewWish(s: State, s': State, key: Key, id: nat, src: nat, ev: Ev, edge: bool, data: nat)
    requires Interests(s) && Interests(s') && s'.interests == s.interests[key := id] && id in s'.store
    requires Asks(s'.store[id], key, src, ev, edge, data)
    requires forall q | q in s.store && q != id :: q in s'.store && s'.store[q] == s.store[q]
    ensures Seen(s').wishes == Seen(s).wishes[key := Wish(src, ev, edge, data)]
  {
    forall k | k in s.interests && k != key ensures s.interests[k] != id {
      assert s'.interests[k] in s'.store;
    }
  }

  lemma SeenAdd(s: State, key: Key, src: nat, ev: Ev, edge: bool, data: nat)
    requires Inv(s)
    ensures Inv(Apply(s, Add(key, src, ev, edge, data)))
    ensures Seen(Apply(s, Add(key, src, ev, edge, data))) == Meaning(Seen(s), Add(key, src, ev, edge, data))
  {
    hide Inv, Arm, Inserted, Interests, Asks;
    var s' := Apply(s, Add(key, src, ev, edge, data));
    StepInv(s, Add(key, src, ev, edge, data));
    InvInterests(s);
    InvInterests(s');
    if key !in s.interests && src in s.fds {
      AddStep(s, key, src, ev, edge, data);
      NewWish(s, s', key, s.next, src, ev, edge, data);
    }
  }

  lemma SeenMod(s: State, key: Key, ev: Ev, edge: bool, data: nat)
    requires Inv(s)
    ensures Inv(Apply(s, Mod(key, ev, edge, data)))
    ensures Seen(Apply(s, Mod(key, ev, edge, data))) == Meaning(Seen(s), Mod(key, ev, edge, data))
  {
    hide Inv, Arm, Reset, Interests, Asks;
    var s' := Apply(s, Mod(key, ev, edge, data));
    StepInv(s, Mod(key, ev, edge, data));
    InvInterests(s);
    InvInterests(s');
    if key in s.interests {
      ModStep(s, key, ev, edge, data);
      var id := s.interests[key];
      assert s'.interests == s.interests[key := id];
      NewWish(s, s', key, id, s.store[id].source, ev, edge, data);
    }
  }

  lemma SeenDel(s: State, key: Key)
    requires Inv(s)
    ensures Inv(Apply(s, Del(key))) && Seen(Apply(s, Del(key))) == Meaning(Seen(s), Del(key))
  {
    hide Inv;
    StepInv(s, Del(key));
    InvInterests(s);
    InvInterests(Apply(s, Del(key)));
    if key in s.interests {
      DelStep(s, key);
    }
  }

  lemma SeenCollect(s: State, max: nat)
    requires Inv(s)
    ensures Inv(Apply(s, Collect(max))) && Seen(Apply(s, Collect(max))) == Meaning(Seen(s), Collect(max))
  {
    hide Inv, Interests, Takes, Requeued, SameInterests;
    StepInv(s, Collect(max));
    InvInterests(s);
    InvInterests(Apply(s, Collect(max)));
    RequeuedSame(s, Takes(s, 0, max));
    SameWishes(s, Apply(s, Collect(max)));
  }

  lemma RequeuedSame(s: State, p: nat)
    requires p <= |s.ready|
    ensures SameInterests(s, Requeued(s, p)) && Requeued(s, p).interests == s.interests && Requeued(s, p).fds == s.fds
  {
    hide StillReady, Ready;
  }

  /** Every operation, on every sound instance, does to what the user sees exactly what it means. */
  lemma StepSeen(s: State, step: Step)
    requires Inv(s)
    ensures Inv(Apply(s, step)) && Seen(Apply(s, step)) == Meaning(Seen(s), step)
  {
    hide Inv, Seen, Apply, Meaning;
    match step
    case Open(_, _, _) => SeenCounters(s, step);
    case Write(_, _) => SeenCounters(s, step);
    case Read(_) => SeenCounters(s, step);
    case Add(key, src, ev, edge, data) => SeenAdd(s, key, src, ev, edge, data);
    case Mod(key, ev, edge, data) => SeenMod(s, key, ev, edge, data);
    case Del(key) => SeenDel(s, key);
    case Collect(max) => SeenCollect(s, max);
  }

  /** Over every run, the live item of a key carries the source, the events, the mode and the data of the last call
      that took effect for that key, and no other key has one. */
  lemma {:induction false} RunSeen(steps: seq<Step>)
    ensures Seen(Run(steps)) == After(steps)
  {
    hide Inv, Apply, Meaning;
    if steps != [] {
      RunSeen(steps[..|steps| - 1]);
      StepSeen(Run(steps[..|steps| - 1]), steps[|steps| - 1]);
    }
  }

  // ---------------------------------------------------------------- waiting

  /** The events of a wish that hold: the counter is not zero, or has room for one more. */
  ghost function Holding(u: User, w: Wish): Ev {
    if w.source !in u.fds then Ev(false, false)
    else Ev(w.ev.pollIn && u.fds[w.source].counter > 0, w.ev.pollOut && u.fds[w.source].counter + 1 <= COUNTER_MAX)
  }

  lemma HoldingIsReady(s: State, it: Item)
    requires Interests(s)
    ensures Ready(s, it) == Holding(Seen(s), WishOf(it))
  {
  }

  /** The keys of the items that are delivered from a stretch of the queue. */
  ghost function KeysOf(s: State, ids: seq<nat>): seq<Key> {
    if ids == [] then []
    else KeysOf(s, ids[..|ids| - 1]) + if IsReady(s, ids[|ids| - 1]) then [s.store[ids[|ids| - 1]].key] else []
  }

  lemma {:induction false} KeysExact(s: State, ids: seq<nat>, key: Key)
    requires Interests(s)
    ensures key in KeysOf(s, ids) <==> key in s.interests && s.interests[key] in ids && IsReady(s, s.interests[key])
  {
    if ids != [] {
      var t, id := ids[..|ids| - 1], ids[|ids| - 1];
      KeysExact(s, t, key);
      assert ids == t + [id];
    }
  }

  /** Each key with what the user wished for it, event for event. */
  ghost predicate Fulfils(u: User, keys: seq<Key>, output: seq<Event>) {
    && |output| == |keys| && (forall i, j | 0 <= i < j < |keys| :: keys[i] != keys[j])
    && forall i | 0 <= i < |keys| :: keys[i] in u.wishes && Holding(u, u.wishes[keys[i]]) != NONE
                                     && output[i] == Event(Holding(u, u.wishes[keys[i]]), u.wishes[keys[i]].data)
  }

  lemma {:induction false} DeliveredFulfils(s: State, ids: seq<nat>)
    requires Interests(s) && Distinct(ids)
    ensures Fulfils(Seen(s), KeysOf(s, ids), Delivered(s, ids))
  {
    hide Interests, Ready, Holding;
    if ids != [] {
      var t, id := ids[..|ids| - 1], ids[|ids| - 1];
      DeliveredFulfils(s, t);
      if IsReady(s, id) {
        var it := s.store[id];
        LiveKey(s, id);
        HoldingIsReady(s, it);
        KeysExact(s, t, it.key);
        assert id !in t;
      }
    }
  }

  lemma LiveKey(s: State, id: nat)
    requires Interests(s) && id in s.store && s.store[id].alive
    ensures s.store[id].key in s.interests && s.interests[s.store[id].key] == id
  {
  }

  /** A wait hands out, for different keys, the events that hold now with the data of the key's wish. It hands out
      no more than it may, and if it could hand out more then every key that is queued and has an event got one. */
  lemma CollectFulfils(s: State, max: nat) returns (keys: seq<Key>)
    requires Inv(s)
    ensures Interests(s)
    ensures var output := Delivered(s, s.ready[..Takes(s, 0, max)]);
            && |output| <= max && Fulfils(Seen(s), keys, output)
            && (|output| < max ==> forall key | key in s.interests && s.interests[key] in s.ready && Holding(Seen(s), Seen(s).wishes[key]) != NONE :: key in keys)
  {
    InvInterests(s);
    var p := Takes(s, 0, max);
    var ids := s.ready[..p];
    SplitDistinct(s.ready, p);
    DeliveredFulfils(s, ids);
    keys := KeysOf(s, ids);
    if |Delivered(s, ids)| < max {
      assert ids == s.ready;
      forall key | key in s.interests && s.interests[key] in s.ready && Holding(Seen(s), Seen(s).wishes[key]) != NONE ensures key in keys {
        HoldingIsReady(s, s.store[s.interests[key]]);
        KeysExact(s, ids, key);
      }
    }
  }

  /** After any run, a wait returns exactly what the user may expect from the calls alone: for different keys, the
      events that hold now with the data of the last call for that key. Unless it stops at its limit it returns
      every level wish that has an event, and every edge wish that watches reading, has an event and is owed a
      change. */
  lemma WaitExact(steps: seq<Step>, max: nat) returns (keys: seq<Key>)
    ensures var s, u := Run(steps), After(steps);
            var output := Delivered(s, s.ready[..Takes(s, 0, max)]);
            && |output| <= max && Fulfils(u, keys, output)
            && s.interests.Keys == u.wishes.Keys
            && (|output| < max ==> forall key | key in u.wishes && Holding(u, u.wishes[key]) != NONE ::
                  var w := u.wishes[key];
                  !w.edge || (w.ev == Ev(true, false) && Owed(steps, s.interests[key])) ==> key in keys)
  {
    var s, u := Run(steps), After(steps);
    RunSeen(steps);
    keys := CollectFulfils(s, max);
    forall key | key in u.wishes && Holding(u, u.wishes[key]) != NONE
      ensures var w := u.wishes[key];
              !w.edge || (w.ev == Ev(true, false) && Owed(steps, s.interests[key])) ==> s.interests[key] in s.ready
    {
      var id := s.interests[key];
      HoldingIsReady(s, s.store[id]);
      QueueExact(steps);
      if EdgeIn(s.store[id]) {
        EdgeExact(steps, id);
      }
    }
  }
}
