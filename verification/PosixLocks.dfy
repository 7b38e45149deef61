/**
 POSIX advisory record locks on one file: a table of byte intervals that is split and merged,
 proved to implement a map from owners and bytes to lock kinds.
 */
module PosixLocks {

  const U64_MAX: nat := 0xFFFF_FFFF_FFFF_FFFF

  datatype Kind = Read | Write | Unlock

  /** An exclusive end; `Eof` is past every byte. */
  datatype End = Eof | Until(at: nat)

  datatype Record = Record(owner: nat, kind: Kind, start: nat, end: End)

  datatype Ask = Ask(owner: nat, kind: Kind, start: nat, end: End)

  /** What a caller asks for: the end is the start plus a length. */
  type Request = q: Ask | q.end.Until? ==> q.start <= q.end.at witness Ask(0, Read, 0, Eof)

  predicate Before(e: End, b: nat) { e.Until? && e.at <= b }

  predicate In(start: nat, end: End, b: nat) { start <= b && !Before(end, b) }

  predicate Proper(start: nat, end: End) { !Before(end, start) }

  // ---------------------------------------------------------------- source tests

  predicate Overlaps(s1: nat, e1: End, s2: nat, e2: End) {
    !Before(e1, s2) && !Before(e2, s1)
  }

  predicate Conflicts(held: Kind, asked: Kind) { held == Write || asked == Write }

  function MaxEnd(a: End, b: End): End {
    if a.Eof? || b.Eof? then Eof else if a.at < b.at then b else a
  }

  /** The overlap test is exact on non-empty ranges, and never misses a common byte. */
  lemma OverlapsExact(s1: nat, e1: End, s2: nat, e2: End)
    ensures (exists b: nat :: In(s1, e1, b) && In(s2, e2, b)) ==> Overlaps(s1, e1, s2, e2)
    ensures Proper(s1, e1) && Proper(s2, e2) && Overlaps(s1, e1, s2, e2) ==> exists b: nat :: In(s1, e1, b) && In(s2, e2, b)
  {
    var b := if s1 < s2 then s2 else s1;
    if Proper(s1, e1) && Proper(s2, e2) && Overlaps(s1, e1, s2, e2) {
      assert In(s1, e1, b) && In(s2, e2, b);
    }
  }

  // ---------------------------------------------------------------- the byte map

  function One(r: Record, o: nat, k: Kind, b: nat): nat {
    if r.owner == o && r.kind == k && In(r.start, r.end, b) then 1 else 0
  }

  /** How many records give owner `o` a lock of kind `k` on byte `b`. */
  function Count(s: seq<Record>, o: nat, k: Kind, b: nat): nat {
    if s == [] then 0 else Count(s[..|s| - 1], o, k, b) + One(s[|s| - 1], o, k, b)
  }

  /** Owner `o` holds a lock of kind `k` on byte `b`. */
  predicate Holds(s: seq<Record>, o: nat, k: Kind, b: nat) { Count(s, o, k, b) > 0 }

  lemma CountPush(s: seq<Record>, r: Record, o: nat, k: Kind, b: nat)
    ensures Count(s + [r], o, k, b) == Count(s, o, k, b) + One(r, o, k, b)
  {
    assert (s + [r])[..|s|] == s;
  }

  lemma {:induction false} CountConcat(s: seq<Record>, t: seq<Record>, o: nat, k: Kind, b: nat)
    ensures Count(s + t, o, k, b) == Count(s, o, k, b) + Count(t, o, k, b)
  {
    if t == [] {
      assert s + t == s;
    } else {
      CountConcat(s, t[..|t| - 1], o, k, b);
      assert (s + t)[..|s + t| - 1] == s + t[..|t| - 1];
    }
  }

  lemma {:induction false} CountWitness(s: seq<Record>, o: nat, k: Kind, b: nat)
    ensures Holds(s, o, k, b) <==> exists i | 0 <= i < |s| :: One(s[i], o, k, b) == 1
  {
    if s != [] {
      var t := s[..|s| - 1];
      CountWitness(t, o, k, b);
      if Holds(t, o, k, b) {
        var i :| 0 <= i < |t| && One(t[i], o, k, b) == 1;
        assert One(s[i], o, k, b) == 1;
      }
      if i :| 0 <= i < |s| && One(s[i], o, k, b) == 1 {
        assert i < |t| ==> One(t[i], o, k, b) == 1;
      }
    }
  }

  // ---------------------------------------------------------------- trimming

  function Maybe(keep: bool, r: Record): seq<Record> { if keep then [r] else [] }

  lemma MaybeCount(keep: bool, r: Record, o: nat, k: Kind, b: nat)
    ensures Count(Maybe(keep, r), o, k, b) == if keep then One(r, o, k, b) else 0
  {
  }

  predicate KeepsTail(r: Record, q: Request) {
    q.end.Until? && (r.end.Eof? || q.end.at < r.end.at)
  }

  function Tail(r: Record, q: Request): Record { if q.end.Until? then r.(start := q.end.at) else r }

  /** What is left of a record after a request takes its bytes. */
  function Pieces(r: Record, q: Request): seq<Record> {
    if r.owner != q.owner || !Overlaps(r.start, r.end, q.start, q.end) then Maybe(true, r)
    else Maybe(r.start < q.start, r.(end := Until(q.start))) + Maybe(KeepsTail(r, q), Tail(r, q))
  }

  lemma PiecesCount(r: Record, q: Request, o: nat, k: Kind, b: nat)
    ensures Count(Pieces(r, q), o, k, b) == if o == q.owner && In(q.start, q.end, b) then 0 else One(r, o, k, b)
  {
    hide Count, Maybe;
    MaybeCount(true, r, o, k, b);
    var left, right := r.(end := Until(q.start)), Tail(r, q);
    CountConcat(Maybe(r.start < q.start, left), Maybe(KeepsTail(r, q), right), o, k, b);
    MaybeCount(r.start < q.start, left, o, k, b);
    MaybeCount(KeepsTail(r, q), right, o, k, b);
  }

  function Trim(s: seq<Record>, q: Request): seq<Record> {
    if s == [] then [] else Trim(s[..|s| - 1], q) + Pieces(s[|s| - 1], q)
  }

  /** Trimming takes exactly the requester's bytes of the range. */
  lemma {:induction false} TrimCount(s: seq<Record>, q: Request, o: nat, k: Kind, b: nat)
    ensures Count(Trim(s, q), o, k, b) == if o == q.owner && In(q.start, q.end, b) then 0 else Count(s, o, k, b)
  {
    if s != [] {
      TrimCount(s[..|s| - 1], q, o, k, b);
      PiecesCount(s[|s| - 1], q, o, k, b);
      CountConcat(Trim(s[..|s| - 1], q), Pieces(s[|s| - 1], q), o, k, b);
    }
  }

  // ---------------------------------------------------------------- sorting

  function Rank(k: Kind): nat {
    match k case Read => 0 case Write => 1 case Unlock => 2
  }

  predicate NotAfter(a: Record, b: Record) {
    || a.start < b.start
    || (a.start == b.start && (a.owner < b.owner || (a.owner == b.owner && Rank(a.kind) <= Rank(b.kind))))
  }

  ghost predicate Sorted(s: seq<Record>) {
    forall i, j | 0 <= i < j < |s| :: NotAfter(s[i], s[j])
  }

  /** Stable insertion from the right. */
  function Insert(s: seq<Record>, r: Record): (t: seq<Record>)
    ensures |t| == |s| + 1
    ensures forall x :: x in t <==> x in s || x == r
  {
    if s == [] || NotAfter(s[|s| - 1], r) then s + [r]
    else
      var t := Insert(s[..|s| - 1], r) + [s[|s| - 1]];
      assert s == s[..|s| - 1] + [s[|s| - 1]];
      t
  }

  function SortRecords(s: seq<Record>): (t: seq<Record>)
    ensures forall x :: x in t <==> x in s
  {
    if s == [] then []
    else
      assert s == s[..|s| - 1] + [s[|s| - 1]];
      Insert(SortRecords(s[..|s| - 1]), s[|s| - 1])
  }

  lemma {:induction false} InsertSorted(s: seq<Record>, r: Record)
    requires Sorted(s)
    ensures Sorted(Insert(s, r))
  {
    if s == [] || NotAfter(s[|s| - 1], r) {
    } else {
      var t := s[..|s| - 1];
      InsertSorted(t, r);
      var u := Insert(t, r);
      forall i | 0 <= i < |u| ensures NotAfter(u[i], s[|s| - 1]) {
        assert u[i] in u;
        if u[i] in t {
          var j :| 0 <= j < |t| && t[j] == u[i];
        }
      }
    }
  }

  lemma {:induction false} InsertCount(s: seq<Record>, r: Record, o: nat, k: Kind, b: nat)
    ensures Count(Insert(s, r), o, k, b) == Count(s, o, k, b) + One(r, o, k, b)
  {
    if s == [] || NotAfter(s[|s| - 1], r) {
      CountPush(s, r, o, k, b);
    } else {
      InsertCount(s[..|s| - 1], r, o, k, b);
      CountPush(Insert(s[..|s| - 1], r), s[|s| - 1], o, k, b);
    }
  }

  lemma {:induction false} SortLaw(s: seq<Record>)
    ensures Sorted(SortRecords(s))
    ensures forall o, k, b :: Count(SortRecords(s), o, k, b) == Count(s, o, k, b)
  {
    if s != [] {
      SortLaw(s[..|s| - 1]);
      InsertSorted(SortRecords(s[..|s| - 1]), s[|s| - 1]);
      forall o, k, b ensures Count(SortRecords(s), o, k, b) == Count(s, o, k, b) {
        InsertCount(SortRecords(s[..|s| - 1]), s[|s| - 1], o, k, b);
      }
    }
  }

  // ---------------------------------------------------------------- merging

  predicate Joins(last: Record, r: Record) {
    && last.owner == r.owner && last.kind == r.kind
    && (last.end.Eof? || r.start <= last.end.at)
  }

  function MergeInto(m: seq<Record>, r: Record): (t: seq<Record>)
    ensures t != []
  {
    if m != [] && Joins(m[|m| - 1], r) then m[..|m| - 1] + [m[|m| - 1].(end := MaxEnd(m[|m| - 1].end, r.end))]
    else m + [r]
  }

  function Merged(s: seq<Record>): seq<Record> {
    if s == [] then [] else MergeInto(Merged(s[..|s| - 1]), s[|s| - 1])
  }

  /** Joining keeps every byte's lock; a byte counted once stays counted once. */
  lemma MergeIntoCount(m: seq<Record>, r: Record, o: nat, k: Kind, b: nat)
    requires m != [] ==> m[|m| - 1].start <= r.start
    ensures var c, c' := Count(m, o, k, b) + One(r, o, k, b), Count(MergeInto(m, r), o, k, b);
            c' <= c && (c' > 0 <==> c > 0)
  {
    if m != [] && Joins(m[|m| - 1], r) {
      var last := m[|m| - 1];
      CountPush(m[..|m| - 1], last.(end := MaxEnd(last.end, r.end)), o, k, b);
    } else {
      CountPush(m, r, o, k, b);
    }
  }

  lemma {:induction false} MergedLaw(s: seq<Record>)
    requires Sorted(s)
    ensures Sorted(Merged(s))
    ensures s != [] ==> Merged(s) != [] && SameKey(Merged(s)[|Merged(s)| - 1], s[|s| - 1])
    ensures forall o, k, b :: Count(Merged(s), o, k, b) <= Count(s, o, k, b) && (Holds(Merged(s), o, k, b) <==> Holds(s, o, k, b))
  {
    if s != [] {
      var t, r := s[..|s| - 1], s[|s| - 1];
      MergedLaw(t);
      var m := Merged(t);
      assert t != [] ==> NotAfter(t[|t| - 1], r);
      assert t != [] ==> NotAfter(m[|m| - 1], r);
      forall o, k, b
        ensures Count(Merged(s), o, k, b) <= Count(s, o, k, b) && (Holds(Merged(s), o, k, b) <==> Holds(s, o, k, b))
      {
        MergeIntoCount(m, r, o, k, b);
      }
    }
  }

  /** Merging leaves a gap of at least one byte between neighbours of one owner and kind. */
  lemma {:induction false} MergedApart(s: seq<Record>, i: nat)
    requires i + 1 < |Merged(s)|
    ensures var a, b := Merged(s)[i], Merged(s)[i + 1];
            a.owner == b.owner && a.kind == b.kind ==> a.end.Until? && a.end.at < b.start
  {
    var t, m := s[..|s| - 1], Merged(s[..|s| - 1]);
    if i + 1 < |m| {
      MergedApart(t, i);
    }
  }

  predicate SameKey(a: Record, b: Record) { a.owner == b.owner && a.kind == b.kind && a.start <= b.start }

  // ---------------------------------------------------------------- the table

  /** At most one record gives an owner a lock on a byte. */
  ghost predicate Single(s: seq<Record>) {
    forall o, b: nat :: Count(s, o, Read, b) + Count(s, o, Write, b) + Count(s, o, Unlock, b) <= 1
  }

  /** No byte is write-locked by one owner while another owner holds any lock on it. */
  ghost predicate Safe(s: seq<Record>) {
    forall o1, o2, k, b: nat | o1 != o2 && Holds(s, o1, Write, b) :: !Holds(s, o2, k, b)
  }

  ghost predicate TableInv(s: seq<Record>) { Sorted(s) && Single(s) && Safe(s) }

  /** Every record covers a byte. */
  ghost predicate AllProper(s: seq<Record>) {
    forall i | 0 <= i < |s| :: Proper(s[i].start, s[i].end) && s[i].kind != Unlock
  }

  function Applied(s: seq<Record>, q: Request): seq<Record> {
    var t := Trim(s, q);
    Merged(SortRecords(if q.kind == Unlock then t else t + [Record(q.owner, q.kind, q.start, q.end)]))
  }

  /** The lock `q` gives its owner on byte `b`. */
  predicate Grants(q: Request, o: nat, b: nat) { o == q.owner && In(q.start, q.end, b) }

  /** Applying a request changes exactly the caller's bytes of the range. */
  lemma AppliedHolds(s: seq<Record>, q: Request, o: nat, k: Kind, b: nat)
    ensures Holds(Applied(s, q), o, k, b) <==> if Grants(q, o, b) then k == q.kind != Unlock else Holds(s, o, k, b)
  {
    hide Count, Merged, SortRecords, Trim, Sorted;
    AppliedCount(s, q, o, k, b);
  }

  lemma AppliedCount(s: seq<Record>, q: Request, o: nat, k: Kind, b: nat)
    ensures var c, c' := (if Grants(q, o, b) then (if k == q.kind != Unlock then 1 else 0) else Count(s, o, k, b)), Count(Applied(s, q), o, k, b);
            c' <= c && (c' > 0 <==> c > 0)
    ensures Sorted(Applied(s, q))
  {
    hide Count, Merged, SortRecords, Trim, Sorted;
    var t, r := Trim(s, q), Record(q.owner, q.kind, q.start, q.end);
    TrimCount(s, q, o, k, b);
    CountPush(t, r, o, k, b);
    var u := if q.kind == Unlock then t else t + [r];
    SortLaw(u);
    MergedLaw(SortRecords(u));
    assert Count(SortRecords(u), o, k, b) == Count(u, o, k, b);
    assert Holds(Merged(SortRecords(u)), o, k, b) <==> Holds(SortRecords(u), o, k, b);
  }

  /** Another owner stands in the way: with a write lock on a byte that is asked for reading, or with any lock
      on a byte that is asked for writing. */
  ghost predicate Contended(s: seq<Record>, q: Request) {
    match q.kind
    case Read => exists o, b: nat :: o != q.owner && In(q.start, q.end, b) && Holds(s, o, Write, b)
    case Write => exists o, k, b: nat :: o != q.owner && In(q.start, q.end, b) && Holds(s, o, k, b)
    case Unlock => false
  }

  lemma AppliedInv(s: seq<Record>, q: Request)
    requires TableInv(s) && !Contended(s, q)
    ensures TableInv(Applied(s, q))
  {
    hide Count, Applied, Sorted;
    var t := Applied(s, q);
    AppliedCount(s, q, 0, Read, 0);
    forall o, b: nat ensures Count(t, o, Read, b) + Count(t, o, Write, b) + Count(t, o, Unlock, b) <= 1 {
      AppliedCount(s, q, o, Read, b);
      AppliedCount(s, q, o, Write, b);
      AppliedCount(s, q, o, Unlock, b);
    }
    forall o1, o2, k, b: nat | o1 != o2 && Holds(t, o1, Write, b) ensures !Holds(t, o2, k, b) {
      AppliedHolds(s, q, o1, Write, b);
      AppliedHolds(s, q, o2, k, b);
    }
  }

  /** A record that stops a request. */
  predicate Stops(r: Record, q: Request) {
    r.owner != q.owner && Conflicts(r.kind, q.kind) && Overlaps(r.start, r.end, q.start, q.end)
  }

  predicate Blocked(s: seq<Record>, q: Request) {
    q.kind != Unlock && exists i | 0 <= i < |s| :: Stops(s[i], q)
  }

  /** A conflict is real exactly when the request covers a byte and some record that stops it does. */
  lemma BlockedExact(s: seq<Record>, q: Request)
    ensures Contended(s, q) <==>
              q.kind != Unlock && Proper(q.start, q.end) && exists i | 0 <= i < |s| :: Stops(s[i], q) && Proper(s[i].start, s[i].end)
    ensures Contended(s, q) ==> Blocked(s, q)
    ensures AllProper(s) && Proper(q.start, q.end) ==> (Blocked(s, q) <==> Contended(s, q))
  {
    hide Holds;
    if Contended(s, q) {
      StoppedBy(s, q);
    }
    if q.kind != Unlock && Proper(q.start, q.end) {
      if i :| 0 <= i < |s| && Stops(s[i], q) && Proper(s[i].start, s[i].end) {
        StopIsReal(s, q, i);
      }
    }
  }

  lemma StoppedBy(s: seq<Record>, q: Request)
    requires Contended(s, q)
    ensures exists i | 0 <= i < |s| :: Stops(s[i], q) && Proper(s[i].start, s[i].end)
  {
    var o, k, b: nat :| o != q.owner && In(q.start, q.end, b) && Holds(s, o, k, b) && (q.kind == Read ==> k == Write);
    CountWitness(s, o, k, b);
    var i :| 0 <= i < |s| && One(s[i], o, k, b) == 1;
    assert Stops(s[i], q);
  }

  lemma StopIsReal(s: seq<Record>, q: Request, i: nat)
    requires i < |s| && Stops(s[i], q) && Proper(s[i].start, s[i].end) && q.kind != Unlock && Proper(q.start, q.end)
    ensures Contended(s, q)
  {
    hide Holds;
    OverlapsExact(s[i].start, s[i].end, q.start, q.end);
    var b: nat :| In(s[i].start, s[i].end, b) && In(q.start, q.end, b);
    assert One(s[i], s[i].owner, s[i].kind, b) == 1;
    CountWitness(s, s[i].owner, s[i].kind, b);
    assert Holds(s, s[i].owner, s[i].kind, b);
  }

  // ---------------------------------------------------------------- release

  function Released(s: seq<Record>, o: nat): seq<Record> {
    if s == [] then []
    else Released(s[..|s| - 1], o) + Maybe(s[|s| - 1].owner != o, s[|s| - 1])
  }

  lemma {:induction false} ReleasedCount(s: seq<Record>, p: nat, o: nat, k: Kind, b: nat)
    ensures Count(Released(s, p), o, k, b) == if o == p then 0 else Count(s, o, k, b)
  {
    if s != [] {
      var r := s[|s| - 1];
      ReleasedCount(s[..|s| - 1], p, o, k, b);
      CountConcat(Released(s[..|s| - 1], p), Maybe(r.owner != p, r), o, k, b);
      MaybeCount(r.owner != p, r, o, k, b);
    }
  }

  lemma {:induction false} ReleasedSorted(s: seq<Record>, p: nat)
    requires Sorted(s)
    ensures Sorted(Released(s, p)) && forall x | x in Released(s, p) :: x in s
  {
    if s != [] {
      var t, r := Released(s[..|s| - 1], p), s[|s| - 1];
      ReleasedSorted(s[..|s| - 1], p);
      forall i | 0 <= i < |t| ensures NotAfter(t[i], r) {
        assert t[i] in s[..|s| - 1];
      }
    }
  }

  lemma ReleasedInv(s: seq<Record>, p: nat)
    requires TableInv(s)
    ensures TableInv(Released(s, p))
  {
    hide Count, Sorted;
    ReleasedSorted(s, p);
    var t := Released(s, p);
    forall o, k, b: nat ensures Count(t, o, k, b) <= Count(s, o, k, b) {
      ReleasedCount(s, p, o, k, b);
    }
    assert Single(t) by {
      forall o, b: nat ensures Count(t, o, Read, b) + Count(t, o, Write, b) + Count(t, o, Unlock, b) <= 1 {
        assert Count(s, o, Read, b) + Count(s, o, Write, b) + Count(s, o, Unlock, b) <= 1;
      }
    }
    assert Safe(t) by {
      forall o1, o2, k, b: nat | o1 != o2 && Holds(t, o1, Write, b) ensures !Holds(t, o2, k, b) {
        assert Holds(s, o1, Write, b);
        assert !Holds(s, o2, k, b);
      }
    }
  }

  // ---------------------------------------------------------------- non-empty records

  lemma {:induction false} TrimProper(s: seq<Record>, q: Request)
    requires AllProper(s)
    ensures AllProper(Trim(s, q))
  {
    if s != [] {
      TrimProper(s[..|s| - 1], q);
    }
  }

  lemma {:induction false} MergedProper(s: seq<Record>)
    requires AllProper(s)
    ensures AllProper(Merged(s))
  {
    if s != [] {
      MergedProper(s[..|s| - 1]);
    }
  }

  lemma AppliedProper(s: seq<Record>, q: Request)
    requires AllProper(s) && (q.kind == Unlock || Proper(q.start, q.end))
    ensures AllProper(Applied(s, q))
  {
    hide Trim, SortRecords, Merged;
    TrimProper(s, q);
    var t := Trim(s, q);
    var u := if q.kind == Unlock then t else t + [Record(q.owner, q.kind, q.start, q.end)];
    var v := SortRecords(u);
    forall i | 0 <= i < |v| ensures Proper(v[i].start, v[i].end) && v[i].kind != Unlock {
      assert v[i] in u;
    }
    MergedProper(v);
  }

  lemma {:induction false} ReleasedProper(s: seq<Record>, p: nat)
    requires AllProper(s)
    ensures AllProper(Released(s, p))
  {
    if s != [] {
      ReleasedProper(s[..|s| - 1], p);
    }
  }

  // ---------------------------------------------------------------- runs

  datatype Step = SetLock(q: Request) | ReleaseOwner(owner: nat)

  /** One call: a blocked request changes nothing. */
  function Exec(s: seq<Record>, step: Step): seq<Record> {
    match step
    case SetLock(q) => if Blocked(s, q) then s else Applied(s, q)
    case ReleaseOwner(o) => Released(s, o)
  }

  /** Whether a call reports a change, on which all waiters are woken. */
  predicate Wakes(s: seq<Record>, step: Step) {
    match step
    case SetLock(q) => !Blocked(s, q) && Applied(s, q) != s
    case ReleaseOwner(o) => exists i | 0 <= i < |s| :: s[i].owner == o
  }

  /** A call that reports no change stops the same requests afterwards. */
  lemma QuietCall(s: seq<Record>, step: Step)
    requires !Wakes(s, step)
    ensures Exec(s, step) == s
  {
    if step.ReleaseOwner? {
      ReleasedNothing(s, step.owner);
    }
  }

  function Run(steps: seq<Step>): seq<Record> {
    if steps == [] then [] else Exec(Run(steps[..|steps| - 1]), steps[|steps| - 1])
  }

  predicate Sound(step: Step) { step.SetLock? && step.q.kind != Unlock ==> Proper(step.q.start, step.q.end) }

  lemma ExecInv(s: seq<Record>, step: Step)
    requires TableInv(s)
    ensures TableInv(Exec(s, step))
    ensures AllProper(s) && Sound(step) ==> AllProper(Exec(s, step))
  {
    hide TableInv, AllProper, Applied, Released;
    match step
    case SetLock(q) =>
      if !Blocked(s, q) {
        BlockedExact(s, q);
        AppliedInv(s, q);
        if AllProper(s) && Sound(step) {
          AppliedProper(s, q);
        }
      }
    case ReleaseOwner(o) =>
      ReleasedInv(s, o);
      if AllProper(s) {
        ReleasedProper(s, o);
      }
  }

  /** Over every run no byte is write-locked by one owner while another holds it, an owner has at most
      one lock on a byte, and while every lock request is non-empty so is every record. */
  lemma {:induction false} RunSafe(steps: seq<Step>)
    ensures TableInv(Run(steps))
    ensures (forall i | 0 <= i < |steps| :: Sound(steps[i])) ==> AllProper(Run(steps))
  {
    if steps != [] {
      var t := steps[..|steps| - 1];
      RunSafe(t);
      ExecInv(Run(t), steps[|steps| - 1]);
      assert (forall i | 0 <= i < |steps| :: Sound(steps[i])) ==> forall i | 0 <= i < |t| :: Sound(t[i]);
    }
  }

  /** The lock map itself, with no intervals: the kind an owner holds on a byte after a run. */
  ghost predicate MapHolds(steps: seq<Step>, o: nat, k: Kind, b: nat)
    decreases |steps|, 0
  {
    steps != [] &&
    var t := steps[..|steps| - 1];
    match steps[|steps| - 1]
    case SetLock(q) => if Grants(q, o, b) && !MapContended(t, q) then k == q.kind != Unlock else MapHolds(t, o, k, b)
    case ReleaseOwner(p) => o != p && MapHolds(t, o, k, b)
  }

  ghost predicate MapContended(steps: seq<Step>, q: Request)
    decreases |steps|, 1
  {
    match q.kind
    case Read => exists o, b: nat :: o != q.owner && In(q.start, q.end, b) && MapHolds(steps, o, Write, b)
    case Write => exists o, k, b: nat :: o != q.owner && In(q.start, q.end, b) && MapHolds(steps, o, k, b)
    case Unlock => false
  }

  /** The interval table implements the per-byte map over every run of non-empty requests. */
  lemma {:induction false} TableIsMap(steps: seq<Step>)
    requires forall i | 0 <= i < |steps| :: Sound(steps[i])
    ensures forall o, k, b: nat :: Holds(Run(steps), o, k, b) <==> MapHolds(steps, o, k, b)
  {
    if steps != [] {
      var t, last := steps[..|steps| - 1], steps[|steps| - 1];
      assert forall i | 0 <= i < |t| :: t[i] == steps[i];
      TableIsMap(t);
      RunSafe(t);
      StepIsMap(steps, t, last);
    }
  }

  /** Readers never exclude each other: after any run that left no write lock, every request for reading is granted. */
  lemma ReadersShare(steps: seq<Step>, q: Request)
    requires (forall i | 0 <= i < |steps| :: Sound(steps[i])) && q.kind == Read && Proper(q.start, q.end)
    requires forall o, b: nat | o != q.owner && In(q.start, q.end, b) :: !MapHolds(steps, o, Write, b)
    ensures Exec(Run(steps), SetLock(q)) == Applied(Run(steps), q)
  {
    hide Holds, Applied;
    TableIsMap(steps);
    RunSafe(steps);
    BlockedExact(Run(steps), q);
  }

  lemma StepIsMap(steps: seq<Step>, t: seq<Step>, last: Step)
    requires steps == t + [last] && Sound(last) && AllProper(Run(t))
    requires forall o, k, b: nat :: Holds(Run(t), o, k, b) <==> MapHolds(t, o, k, b)
    ensures forall o, k, b: nat :: Holds(Run(steps), o, k, b) <==> MapHolds(steps, o, k, b)
  {
    hide Holds, Applied, Released, AllProper;
    assert steps[..|steps| - 1] == t;
    var s := Run(t);
    if last.SetLock? {
      var q := last.q;
      BlockedExact(s, q);
      assert Blocked(s, q) <==> MapContended(t, q);
    }
    forall o, k, b: nat ensures Holds(Run(steps), o, k, b) <==> MapHolds(steps, o, k, b) {
      assert Holds(s, o, k, b) <==> MapHolds(t, o, k, b);
      match last
      case SetLock(q) => AppliedHolds(s, q, o, k, b);
      case ReleaseOwner(p) => ReleasedHolds(s, p, o, k, b);
    }
  }

  lemma ReleasedHolds(s: seq<Record>, p: nat, o: nat, k: Kind, b: nat)
    ensures Holds(Released(s, p), o, k, b) <==> o != p && Holds(s, o, k, b)
  {
    ReleasedCount(s, p, o, k, b);
  }

  // ---------------------------------------------------------------- the object

  datatype Conflict = Conflict(owner: nat, kind: Kind, start: nat, len: End)

  datatype Found = Clear | Held(c: Conflict)

  /** What one attempt to set a lock ends in. */
  datatype Outcome = Done(wake: bool) | Again | Interrupted | Sleep | Invalid

  /** The end of a request from its start and optional length, in 64 bits. */
  function EndOf(start: nat, len: End): (e: End)
    ensures e.Until? ==> start <= e.at
  {
    if len.Eof? then Eof else Until(start + len.at)
  }

  class LockState {
    var entries: seq<Record>

    constructor ()
      ensures entries == [] && TableInv(entries) && AllProper(entries)
    {
      entries := [];
    }

    static method SortAndMerge(records: seq<Record>) returns (merged: seq<Record>)
      ensures merged == Merged(SortRecords(records))
    {
      var sorted := SortRecords(records);
      merged := [];
      for i := 0 to |sorted|
        invariant merged == Merged(sorted[..i])
      {
        var record := sorted[i];
        assert sorted[..i + 1][..i] == sorted[..i];
        if merged != [] && Joins(merged[|merged| - 1], record) {
          var last := merged[|merged| - 1];
          merged := merged[|merged| - 1 := last.(end := MaxEnd(last.end, record.end))];
        } else {
          merged := merged + [record];
        }
      }
      assert sorted[..|sorted|] == sorted;
    }

    /** The conflicting lock with the lowest start, if any. */
    method FindConflict(q: Request) returns (found: Found)
      requires Sorted(entries)
      ensures found.Held? <==> Blocked(entries, q)
      ensures found.Held? ==> exists i | 0 <= i < |entries| ::
                && Stops(entries[i], q) && Describes(found.c, entries[i]) && found.c.owner != q.owner
                && (q.kind == Read ==> found.c.kind == Write)
                && forall j | 0 <= j < |entries| && Stops(entries[j], q) :: entries[i].start <= entries[j].start
    {
      if q.kind == Unlock {
        return Clear;
      }
      for i := 0 to |entries|
        invariant forall j | 0 <= j < i :: !Stops(entries[j], q)
      {
        var r := entries[i];
        if Stops(r, q) {
          found := Held(Conflict(r.owner, r.kind, r.start, if r.end.Eof? then Eof else Until(if r.end.at < r.start then 0 else r.end.at - r.start)));
          assert Describes(found.c, entries[i]);
          return;
        }
      }
      return Clear;
    }

    method Apply(q: Request) returns (changed: bool)
      modifies this
      ensures entries == Applied(old(entries), q)
      ensures changed <==> entries != old(entries)
    {
      var original := entries;
      var updated: seq<Record> := [];
      for i := 0 to |entries|
        invariant entries == original && updated == Trim(entries[..i], q)
      {
        var record := entries[i];
        assert entries[..i + 1][..i] == entries[..i];
        if record.owner != q.owner || !Overlaps(record.start, record.end, q.start, q.end) {
          updated := updated + [record];
        } else {
          ghost var before := updated;
          if record.start < q.start {
            updated := updated + [record.(end := Until(q.start))];
          }
          if q.end.Until? && (record.end.Eof? || q.end.at < record.end.at) {
            updated := updated + [record.(start := q.end.at)];
          }
          assert updated == before + Pieces(record, q);
        }
      }
      assert entries[..|entries|] == entries;
      if q.kind != Unlock {
        updated := updated + [Record(q.owner, q.kind, q.start, q.end)];
      }
      updated := SortAndMerge(updated);
      changed := updated != original;
      entries := updated;
    }

    method ReleaseAll(owner: nat) returns (changed: bool)
      modifies this
      ensures entries == Released(old(entries), owner)
      ensures changed <==> Wakes(old(entries), ReleaseOwner(owner))
    {
      var kept: seq<Record> := [];
      changed := false;
      for i := 0 to |entries|
        invariant entries == old(entries) && kept == Released(entries[..i], owner)
        invariant changed <==> exists j | 0 <= j < i :: entries[j].owner == owner
      {
        assert entries[..i + 1][..i] == entries[..i];
        if entries[i].owner != owner {
          kept := kept + [entries[i]];
        } else {
          changed := true;
        }
      }
      assert entries[..|entries|] == entries;
      entries := kept;
    }

    /** One attempt to set a lock; `Sleep` is the state of a caller that waits and will try again. */
    method TrySet(owner: nat, kind: Kind, start: nat, len: End, wait: bool, signal: bool) returns (r: Outcome)
      requires TableInv(entries) && start <= U64_MAX
      modifies this
      ensures TableInv(entries)
      ensures r == Invalid <==> len.Until? && start + len.at > U64_MAX
      ensures var q: Request := Ask(owner, kind, start, EndOf(start, len));
              && (r.Done? <==> r != Invalid && !Blocked(old(entries), q))
              && entries == (if r.Done? then Exec(old(entries), SetLock(q)) else old(entries))
      ensures r.Done? ==> (r.wake <==> Wakes(old(entries), SetLock(Ask(owner, kind, start, EndOf(start, len)))))
      ensures r.Again? ==> !wait
      ensures r.Interrupted? ==> wait && signal
      ensures r.Sleep? ==> wait && !signal
    {
      if len.Until? && start + len.at > U64_MAX {
        return Invalid;
      }
      var q: Request := Ask(owner, kind, start, EndOf(start, len));
      var found := FindConflict(q);
      if found.Clear? {
        BlockedExact(entries, q);
        AppliedInv(entries, q);
        var changed := Apply(q);
        return Done(changed);
      }
      if !wait {
        return Again;
      }
      return if signal then Interrupted else Sleep;
    }
  }

  predicate Describes(c: Conflict, r: Record) {
    && c.owner == r.owner && c.kind == r.kind && c.start == r.start
    && (c.len.Eof? <==> r.end.Eof?)
    && (r.end.Until? && r.start <= r.end.at ==> EndOf(c.start, c.len) == r.end)
  }

  lemma {:induction false} ReleasedNothing(s: seq<Record>, p: nat)
    requires forall i | 0 <= i < |s| :: s[i].owner != p
    ensures Released(s, p) == s
  {
    if s != [] {
      ReleasedNothing(s[..|s| - 1], p);
    }
  }
}
