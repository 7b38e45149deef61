/**
 The global reclaimer as an object: its queue, its page table and its counters, updated in place.
 */
module PageReclaimer {
  import opened PageReclaim

  class Reclaimer {
    var inactive: seq<nat>
    var live: map<nat, RPage>
    var cachedPages: nat
    var lowWatermark: nat

    ghost function St(): State
      reads this
    {
      State(inactive, live, cachedPages, lowWatermark)
    }

    constructor (low: nat)
      ensures St() == State([], map[], 0, low) && QueueOk(St())
    {
      inactive, live, cachedPages, lowWatermark := [], map[], 0, low;
    }

    /** Take the first live page off the queue, dropping stale entries on the way. */
    method PopInactive() returns (found: bool, id: nat)
      modifies this`inactive, this`live
      ensures var n := StalePrefix(old(inactive), old(live));
              && found == (n < |old(inactive)|)
              && (found ==> id == old(inactive)[n] && id in live
                            && inactive == old(inactive)[n + 1..]
                            && live == old(live)[id := old(live)[id].(queued := false)])
              && (!found ==> inactive == [] && live == old(live))
    {
      id := 0;
      while inactive != []
        invariant live == old(live)
        invariant |inactive| <= |old(inactive)|
        invariant inactive == old(inactive)[|old(inactive)| - |inactive|..]
        invariant StalePrefix(old(inactive), live) == |old(inactive)| - |inactive| + StalePrefix(inactive, live)
        decreases |inactive|
      {
        var candidate := inactive[0];
        inactive := inactive[1..];
        if candidate in live {
          live := live[candidate := live[candidate].(queued := false)];
          return true, candidate;
        }
      }
      return false, 0;
    }

    method EnqueueInactive(id: nat)
      requires id in live
      modifies this`inactive, this`live
      ensures if old(live)[id].queued then inactive == old(inactive) && live == old(live)
              else inactive == old(inactive) + [id] && live == old(live)[id := old(live)[id].(queued := true)]
    {
      if live[id].queued {
        return;
      }
      live := live[id := live[id].(queued := true)];
      inactive := inactive + [id];
    }

    /** Try to advance reclaim by one page. */
    method ReclaimOnePage(device: Device) returns (o: Outcome)
      modifies this
      ensures (St(), o) == ReclaimOne(old(St()), device)
    {
      if cachedPages <= lowWatermark {
        return Stop;
      }
      var found, id := PopInactive();
      if !found {
        return Stop;
      }
      var pg := live[id];
      if pg.pins > 0 || pg.maps > 0 || pg.busy {
        EnqueueInactive(id);
        return Skipped;
      }
      if pg.ref {
        live := live[id := pg.(ref := false)];
        EnqueueInactive(id);
        assert live == ReclaimOne(old(St()), device).0.live;
        return Deferred;
      }
      if pg.dirty {
        var ok := true;
        if !pg.link.Orphan? {
          ok := device(id);
          if ok {
            live := live[id := pg.(dirty := false)];
          }
        }
        EnqueueInactive(id);
        assert live == ReclaimOne(old(St()), device).0.live;
        return if ok then Deferred else Skipped;
      }
      if pg.link.Detached? {
        EnqueueInactive(id);
        return Skipped;
      }
      live := live - {id};
      cachedPages := cachedPages - 1;
      return Reclaimed;
    }

    method RunPass(budget: nat, device: Device) returns (st: Stats)
      modifies this
      ensures (St(), st) == Pass(old(St()), budget, device, NONE)
    {
      hide ReclaimOne;
      st := NONE;
      var left := budget;
      while left > 0 && !st.stopped
        invariant Pass(St(), left, device, st) == Pass(old(St()), budget, device, NONE)
      {
        var o := ReclaimOnePage(device);
        st := Tally(st, o);
        left := left - 1;
      }
    }

    /** One reclaim episode. It terminates, keeps the queue exact, frees a page whenever some queued page is
        unpinned, unmapped and can be written back, and spares every page in use or not yet written back. */
    method ReclaimToLowWatermark(device: Device)
      requires QueueOk(St())
      modifies this
      ensures St() == Episode(old(St()), device, 0)
      ensures QueueOk(St())
      ensures (exists x :: Hopeful(old(St()), x, device)) ==> cachedPages < old(cachedPages)
      ensures Spared(old(live), live, device)
    {
      hide QueueOk, Hopeful, Pass, Spared;
      ghost var s0 := St();
      EpisodeSpares(s0, device, 0);
      EpisodeQueue(s0, device, 0);
      forall x | Hopeful(s0, x, device) ensures Episode(s0, device, 0).cached < s0.cached {
        EpisodeFrees(s0, device, x);
      }
      var deferredPasses := 0;
      while cachedPages > lowWatermark && inactive != []
        invariant deferredPasses < MAX_DEFERRED_ONLY_PASSES
        invariant Episode(St(), device, deferredPasses) == Episode(s0, device, 0)
        decreases cachedPages, MAX_DEFERRED_ONLY_PASSES - deferredPasses
      {
        PassCached(St(), |inactive|, device, NONE);
        var st := RunPass(|inactive|, device);
        if st.reclaimed > 0 {
          deferredPasses := 0;
        } else if st.deferred == 0 {
          return;
        } else {
          deferredPasses := deferredPasses + 1;
          if deferredPasses >= MAX_DEFERRED_ONLY_PASSES {
            return;
          }
        }
      }
    }

    /** Rebuild the queue without stale entries. */
    method CompactInactive()
      requires QueueOk(St())
      modifies this`inactive
      ensures inactive == Compact(old(inactive), live, {}) && QueueOk(St())
    {
      CompactQueue(St());
      var rebuilt: seq<nat> := [];
      var seen: set<nat> := {};
      var rest := inactive;
      while rest != []
        invariant rebuilt + Compact(rest, live, seen) == Compact(inactive, live, {})
        decreases |rest|
      {
        var id := rest[0];
        rest := rest[1..];
        if id in live {
          if id !in seen && live[id].queued {
            rebuilt := rebuilt + [id];
          }
          seen := seen + {id};
        }
      }
      inactive := rebuilt;
    }
  
    /** A newly created page enters the cache; an overgrown queue is compacted on the way. */
    method AddCachedPage(id: nat, pg: RPage)
      requires QueueOk(St()) && id !in live && id !in inactive && !pg.queued
      modifies this
      ensures QueueOk(St())
      ensures St() == Added(old(St()), id, pg)
    {
      AddQueue(St(), id, pg);
      ghost var s := AddPage(St(), id, pg);
      cachedPages := cachedPages + 1;
      live := live[id := pg];
      EnqueueInactive(id);
      assert live == s.live;
      if |inactive| > CompactThreshold(cachedPages) {
        CompactInactive();
      }
    }
  }
}
