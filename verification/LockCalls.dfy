/**
 Record locks from the system call to the wait queue: the ranges `fcntl` can ask for, and the callers
 that wait for a lock while others change the table.
 */
module LockCalls {
  import opened PosixLocks

  // ---------------------------------------------------------------- the system call

  type I64 = x: int | -0x8000_0000_0000_0000 <= x <= 0x7FFF_FFFF_FFFF_FFFF
  type I16 = x: int | -0x8000 <= x <= 0x7FFF

  /** The record a process hands in. */
  datatype Flock = Flock(kind: I16, whence: I16, start: I64, len: I64)

  datatype Parsed = Valid(q: Request) | Einval

  /** A lock request of `owner`; length zero means up to the end of the file, whatever it grows to. */
  function FromAbi(owner: nat, f: Flock): Parsed {
    if !(0 <= f.kind <= 2) || f.whence != 0 || f.start < 0 || f.len < 0 then Einval
    else
      var kind := if f.kind == 0 then Read else if f.kind == 1 then Write else Unlock;
      if f.len == 0 then Valid(Ask(owner, kind, f.start, Eof))
      else if f.start + f.len > U64_MAX then Einval
      else Valid(Ask(owner, kind, f.start, Until(f.start + f.len)))
  }

  const F_RDLCK := 0
  const F_WRLCK := 1
  const F_UNLCK := 2

  /** A known type, no whence but the start of the file, and no negative number. */
  ghost predicate WellFormed(f: Flock) { f.kind in {F_RDLCK, F_WRLCK, F_UNLCK} && f.whence == 0 && f.start >= 0 && f.len >= 0 }

  /** The record names byte `b`: the bytes from `start` on, `len` of them or all. */
  ghost predicate Names(f: Flock, b: nat) { f.start <= b && (f.len == 0 || b < f.start + f.len) }

  /** The type of a lock as the call knows it. */
  ghost function TypeOf(k: Kind): I16 {
    match k
    case Read => F_RDLCK
    case Write => F_WRLCK
    case Unlock => F_UNLCK
  }

  /** The conversion accepts exactly the well-formed records, and keeps their type and the bytes they name. */
  lemma FromAbiExact(owner: nat, f: Flock)
    ensures FromAbi(owner, f).Valid? <==> WellFormed(f)
    ensures FromAbi(owner, f).Valid? ==>
              var q := FromAbi(owner, f).q;
              && q.owner == owner && TypeOf(q.kind) == f.kind && Proper(q.start, q.end)
              && forall b: nat :: In(q.start, q.end, b) <==> Names(f, b)
  {
  }

  /** A process sets a lock, or closes the file and loses all of its locks. */
  datatype Call = Fcntl(owner: nat, f: Flock) | Close(owner: nat)

  function StepsOf(calls: seq<Call>): (steps: seq<Step>)
    ensures forall i | 0 <= i < |steps| :: Sound(steps[i])
  {
    if calls == [] then []
    else
      var rest := StepsOf(calls[..|calls| - 1]);
      match calls[|calls| - 1]
      case Close(o) => rest + [ReleaseOwner(o)]
      case Fcntl(o, f) => if FromAbi(o, f).Einval? then rest else rest + [SetLock(FromAbi(o, f).q)]
  }

  /** For a process and a byte, F_RDLCK or F_WRLCK while the process holds such a lock on it, else F_UNLCK. */
  type Locks = (nat, nat) -> I16

  /** Why a call is refused: another process has locked a byte it wants to read for writing, or a byte it wants to
      write in any way. */
  ghost predicate MustWait(locks: Locks, p: nat, f: Flock) {
    || (f.kind == F_RDLCK && exists o: nat, b: nat :: o != p && Names(f, b) && locks(o, b) == F_WRLCK)
    || (f.kind == F_WRLCK && exists o: nat, b: nat :: o != p && Names(f, b) && locks(o, b) != F_UNLCK)
  }

  /** What the last call of each process on each byte that took effect has left there. */
  ghost function LocksAfter(calls: seq<Call>): Locks {
    if calls == [] then (o: nat, b: nat) => F_UNLCK
    else
      var was := LocksAfter(calls[..|calls| - 1]);
      match calls[|calls| - 1]
      case Close(p) => (o: nat, b: nat) => if o == p then F_UNLCK else was(o, b)
      case Fcntl(p, f) => (o: nat, b: nat) => if o == p && WellFormed(f) && Names(f, b) && !MustWait(was, p, f) then f.kind else was(o, b)
  }

  /** What every process holds on every byte, and which calls are refused, told by the calls alone: no interval, no
      table and no conversion. */
  lemma {:induction false} HeldExact(calls: seq<Call>)
    ensures TableInv(Run(StepsOf(calls))) && AllProper(Run(StepsOf(calls)))
    ensures forall o, k, b: nat :: Holds(Run(StepsOf(calls)), o, k, b) <==> k != Unlock && LocksAfter(calls)(o, b) == TypeOf(k)
  {
    hide TableInv, AllProper, Holds, FromAbi, Applied, Released, Blocked;
    RunSafe(StepsOf(calls));
    if calls == [] {
      NothingHeld();
    } else {
      var t := calls[..|calls| - 1];
      HeldExact(t);
      LastStep(t, calls[|calls| - 1]);
      assert calls == t + [calls[|calls| - 1]];
    }
  }

  lemma NothingHeld()
    ensures forall o, k, b: nat :: !Holds([], o, k, b)
  {
  }

  lemma LastStep(t: seq<Call>, last: Call)
    requires AllProper(Run(StepsOf(t)))
    requires forall o, k, b: nat :: Holds(Run(StepsOf(t)), o, k, b) <==> k != Unlock && LocksAfter(t)(o, b) == TypeOf(k)
    ensures forall o, k, b: nat :: Holds(Run(StepsOf(t + [last])), o, k, b) <==> k != Unlock && LocksAfter(t + [last])(o, b) == TypeOf(k)
  {
    hide AllProper, Holds, FromAbi, Applied, Released, Blocked;
    var calls := t + [last];
    assert calls[..|calls| - 1] == t;
    var s := Run(StepsOf(t));
    if last.Fcntl? {
      FromAbiExact(last.owner, last.f);
      if WellFormed(last.f) {
        RefusedHere(t, last.owner, last.f);
      }
    }
    StepsMore(t, last);
    forall o, k, b: nat ensures Holds(Run(StepsOf(calls)), o, k, b) <==> k != Unlock && LocksAfter(calls)(o, b) == TypeOf(k) {
      match last
      case Close(p) => ReleasedHolds(s, p, o, k, b);
      case Fcntl(p, f) => if WellFormed(f) { AppliedHolds(s, FromAbi(p, f).q, o, k, b); }
    }
  }

  lemma StepsMore(t: seq<Call>, last: Call)
    ensures var s, s' := Run(StepsOf(t)), Run(StepsOf(t + [last]));
            && (last.Close? ==> s' == Exec(s, ReleaseOwner(last.owner)))
            && (last.Fcntl? ==> var p := FromAbi(last.owner, last.f); s' == if p.Einval? then s else Exec(s, SetLock(p.q)))
  {
    hide Exec, FromAbi;
    var calls := t + [last];
    assert calls[..|calls| - 1] == t;
    var rest := StepsOf(t);
    assert forall x: Step :: (rest + [x])[..|rest|] == rest;
  }

  lemma RefusedHere(calls: seq<Call>, p: nat, f: Flock)
    requires WellFormed(f) && FromAbi(p, f).Valid? && AllProper(Run(StepsOf(calls)))
    requires forall o, k, b: nat :: Holds(Run(StepsOf(calls)), o, k, b) <==> k != Unlock && LocksAfter(calls)(o, b) == TypeOf(k)
    ensures Blocked(Run(StepsOf(calls)), FromAbi(p, f).q) <==> MustWait(LocksAfter(calls), p, f)
  {
    hide AllProper, Holds, FromAbi, Blocked;
    var s, q := Run(StepsOf(calls)), FromAbi(p, f).q;
    FromAbiExact(p, f);
    BlockedExact(s, q);
    if f.kind == F_RDLCK && MustWait(LocksAfter(calls), p, f) {
      var o: nat, b: nat :| o != p && Names(f, b) && LocksAfter(calls)(o, b) == F_WRLCK;
      assert Holds(s, o, Write, b) && In(q.start, q.end, b);
    }
    if f.kind == F_WRLCK && MustWait(LocksAfter(calls), p, f) {
      var o: nat, b: nat :| o != p && Names(f, b) && LocksAfter(calls)(o, b) != F_UNLCK;
      LastIsType(calls, o, b);
      assert Holds(s, o, if LocksAfter(calls)(o, b) == F_WRLCK then Write else Read, b) && In(q.start, q.end, b);
    }
    if Contended(s, q) {
      var o, k, b: nat :| o != p && In(q.start, q.end, b) && Holds(s, o, k, b) && (q.kind == Read ==> k == Write);
      assert Names(f, b);
    }
  }

  lemma {:induction false} LastIsType(calls: seq<Call>, o: nat, b: nat)
    ensures LocksAfter(calls)(o, b) in {F_RDLCK, F_WRLCK, F_UNLCK}
  {
    if calls != [] {
      LastIsType(calls[..|calls| - 1], o, b);
    }
  }

  /** After any series of system calls a request to read-lock is refused if and only if another process has a write
      lock on one of its bytes, a request to write-lock if and only if another process has any lock on one, and a
      request to unlock never; by the calls, by the byte map and by the table alike. */
  lemma RefusedExact(calls: seq<Call>, owner: nat, f: Flock)
    requires WellFormed(f)
    ensures FromAbi(owner, f).Valid?
    ensures var s, q := Run(StepsOf(calls)), FromAbi(owner, f).q;
            && TableInv(s)
            && (Blocked(s, q) <==> MustWait(LocksAfter(calls), owner, f))
            && (Blocked(s, q) <==> MapContended(StepsOf(calls), q))
            && (Blocked(s, q) <==> Contended(s, q))
  {
    hide TableInv, Holds, FromAbi, AllProper;
    FromAbiExact(owner, f);
    var steps, q := StepsOf(calls), FromAbi(owner, f).q;
    HeldExact(calls);
    TableIsMap(steps);
    BlockedExact(Run(steps), q);
    RefusedHere(calls, owner, f);
  }

  /** The conversion is what keeps empty ranges out: a lock of no byte would stop a request around it. */
  lemma EmptyLockStops()
    ensures var s := Applied([], Ask(1, Write, 5, Until(5)));
            var q: Request := Ask(2, Read, 0, Until(10));
            Blocked(s, q) && !Contended(s, q)
    ensures forall owner, f :: FromAbi(owner, f) != Valid(Ask(1, Write, 5, Until(5)))
  {
    var p: Request, q: Request := Ask(1, Write, 5, Until(5)), Ask(2, Read, 0, Until(10));
    var s := Applied([], p);
    var r := Record(1, Write, 5, Until(5));
    assert Trim([], p) == [];
    assert [] + [r] == [r];
    assert SortRecords([r]) == [r] by { assert [r][..0] == []; }
    assert Merged([r]) == [r] by { assert [r][..0] == []; }
    assert Stops(s[0], q);
    BlockedExact(s, q);
  }

  // ---------------------------------------------------------------- waiting

  /** A caller that wants to wait: refused but not yet queued, queued but still looking, or asleep. */
  datatype Phase = Refused(q: Request) | Queued(q: Request) | Asleep(q: Request)

  /** The table, the callers that wait, and the wake-ups still to come: a call that changed the table wakes
      the queue only after it has let go of the table. */
  datatype Sys = Sys(table: seq<Record>, waiters: map<nat, Phase>, owed: nat)

  datatype Event =
    | Attempt(task: nat, q: Request, wait: bool)
    | Enqueue(task: nat)
    | Recheck(task: nat)
    | WakeAll
    | Release(owner: nat)
    | Signal(task: nat)

  function Called(w: Sys, step: Step): Sys {
    Sys(Exec(w.table, step), w.waiters, if Wakes(w.table, step) then w.owed + 1 else w.owed)
  }

  /** One event; one that does not apply changes nothing. */
  function Apply(w: Sys, e: Event): Sys {
    match e
    case Attempt(t, q, wait) =>
      if t in w.waiters then w
      else if !Blocked(w.table, q) then Called(w, SetLock(q))
      else if wait then w.(waiters := w.waiters[t := Refused(q)])
      else w
    case Enqueue(t) =>
      if t in w.waiters && w.waiters[t].Refused? then w.(waiters := w.waiters[t := Queued(w.waiters[t].q)]) else w
    case Recheck(t) =>
      if t !in w.waiters || !w.waiters[t].Queued? then w
      else if Blocked(w.table, w.waiters[t].q) then w.(waiters := w.waiters[t := Asleep(w.waiters[t].q)])
      else w.(waiters := w.waiters - {t})
    case WakeAll =>
      if w.owed == 0 then w
      else w.(waiters := map t | t in w.waiters && w.waiters[t].Refused? :: w.waiters[t], owed := w.owed - 1)
    case Release(o) => Called(w, ReleaseOwner(o))
    case Signal(t) => w.(waiters := w.waiters - {t})
  }

  /** The state after a series of events, from an unlocked file nobody waits for. */
  function After(events: seq<Event>): Sys {
    if events == [] then Sys([], map[], 0) else Apply(After(events[..|events| - 1]), events[|events| - 1])
  }

  /** Who sleeps is stopped by the table, or a wake-up is on its way. */
  ghost predicate NobodyForgotten(w: Sys) {
    forall t | t in w.waiters && w.waiters[t].Asleep? :: Blocked(w.table, w.waiters[t].q) || w.owed > 0
  }

  lemma CalledKeeps(w: Sys, step: Step)
    requires TableInv(w.table) && NobodyForgotten(w)
    ensures TableInv(Called(w, step).table) && NobodyForgotten(Called(w, step))
  {
    hide TableInv, Applied, Released;
    ExecInv(w.table, step);
    if !Wakes(w.table, step) {
      QuietCall(w.table, step);
    }
  }

  lemma EventKeeps(w: Sys, e: Event)
    requires TableInv(w.table) && NobodyForgotten(w)
    ensures TableInv(Apply(w, e).table) && NobodyForgotten(Apply(w, e))
  {
    hide TableInv, Exec, Wakes;
    match e
    case Attempt(t, q, wait) => CalledKeeps(w, SetLock(q));
    case Release(o) => CalledKeeps(w, ReleaseOwner(o));
    case _ =>
  }

  /** No wake-up is lost: after any interleaving of attempts, waits, releases, signals and wake-ups, a caller
      that sleeps although its request could be granted has a wake-up on its way, and once none is owed
      every sleeper is stopped by a lock in the table. */
  lemma {:induction false} NoLostWake(events: seq<Event>)
    ensures TableInv(After(events).table) && NobodyForgotten(After(events))
  {
    if events != [] {
      NoLostWake(events[..|events| - 1]);
      EventKeeps(After(events[..|events| - 1]), events[|events| - 1]);
    } else {
      RunSafe([]);
    }
  }

  /** A wake-up that is owed leaves nobody asleep. */
  lemma WakeFrees(w: Sys)
    requires w.owed > 0
    ensures forall t | t in w.waiters && !w.waiters[t].Refused? :: t !in Apply(w, WakeAll).waiters
    ensures Apply(w, WakeAll).table == w.table
  {
  }

  lemma AfterMore(events: seq<Event>, e: Event)
    ensures After(events + [e]) == Apply(After(events), e)
  {
    assert (events + [e])[..|events|] == events;
  }

  ghost function LockOf(o: nat): Request { Ask(o, Write, 0, Eof) }

  ghost function Held(o: nat): seq<Record> { [Record(o, Write, 0, Eof)] }

  lemma OneLock()
    ensures Applied([], LockOf(1)) == Held(1) && Released(Held(1), 1) == []
  {
    var p, r := LockOf(1), Record(1, Write, 0, Eof);
    assert Trim([], p) == [];
    assert [] + [r] == [r];
    assert SortRecords([r]) == [r] by { assert [r][..0] == []; }
    assert Merged([r]) == [r] by { assert [r][..0] == []; }
    assert Released([r], 1) == [] by { assert [r][..0] == []; }
  }

  lemma LockAndRelease()
    ensures Apply(Sys([], map[], 0), Attempt(1, LockOf(1), false)) == Sys(Held(1), map[], 1)
    ensures Apply(Sys(Held(1), map[], 0), Attempt(2, LockOf(2), true)) == Sys(Held(1), map[2 := Refused(LockOf(2))], 0)
    ensures Apply(Sys(Held(1), map[2 := Refused(LockOf(2))], 0), Release(1)) == Sys([], map[2 := Refused(LockOf(2))], 1)
  {
    OneLock();
    hide Applied, Released;
    assert Stops(Held(1)[0], LockOf(2)) && Held(1)[0].owner == 1;
  }

  /** Looking again after queueing is needed: a release and its wake-up may both come after a request was
      refused and before its caller is queued, and then nothing but the second look lets it go on. */
  lemma RecheckNeeded() returns (events: seq<Event>)
    ensures After(events) == Sys([], map[2 := Queued(LockOf(2))], 0) && !Blocked([], LockOf(2))
    ensures Apply(After(events), Recheck(2)) == Sys([], map[], 0)
  {
    LockAndRelease();
    hide Exec, Wakes, After, Held, LockOf;
    var waiting := map[2 := Refused(LockOf(2))];
    AfterMore([], Attempt(1, LockOf(1), false));
    NoEvents();
    events := [] + [Attempt(1, LockOf(1), false)];
    AfterMore(events, WakeAll);
    events := events + [WakeAll];
    assert After(events) == Sys(Held(1), map[], 0);
    AfterMore(events, Attempt(2, LockOf(2), true));
    events := events + [Attempt(2, LockOf(2), true)];
    AfterMore(events, Release(1));
    events := events + [Release(1)];
    assert After(events) == Sys([], waiting, 1);
    AfterMore(events, WakeAll);
    events := events + [WakeAll];
    assert After(events) == Sys([], waiting, 0);
    AfterMore(events, Enqueue(2));
    events := events + [Enqueue(2)];
    assert After(events).waiters == map[2 := Queued(LockOf(2))];
    assert After(events).waiters - {2} == map[];
  }

  lemma NoEvents()
    ensures After([]) == Sys([], map[], 0)
  {
  }
}
