/**
 Usable memory: a region minus the reserved ranges, kept in a fixed array of fragments.
 */
module BootRegions {
  import opened Basics

  const MAX_RESERVED: nat := 16

  /** The addresses from `start` up to `end`. */
  datatype Region = Region(start: nat, end: nat)

  predicate IsEmpty(r: Region) { r.start >= r.end }

  predicate In(r: Region, a: nat) { r.start <= a < r.end }

  // ---------------------------------------------------------------- subtraction

  function Keep(r: Region): seq<Region> { if IsEmpty(r) then [] else [r] }

  /** What is left of a fragment. */
  function Subtract(f: Region, r: Region): seq<Region> {
    var lo, hi := Max(f.start, r.start), Min(f.end, r.end);
    if lo >= hi then Keep(f) else Keep(Region(f.start, lo)) + Keep(Region(hi, f.end))
  }

  function SubtractAll(fs: seq<Region>, r: Region): seq<Region> {
    if fs == [] then [] else SubtractAll(fs[..|fs| - 1], r) + Subtract(fs[|fs| - 1], r)
  }

  function Usable(region: Region, reserved: seq<Region>): seq<Region> {
    if reserved == [] then [region] else SubtractAll(Usable(region, reserved[..|reserved| - 1]), reserved[|reserved| - 1])
  }

  ghost predicate Covers(fs: seq<Region>, a: nat) { exists i | 0 <= i < |fs| :: In(fs[i], a) }

  /** Fragments in address order, apart from each other and not empty. */
  ghost predicate Apart(fs: seq<Region>) {
    && (forall i | 0 <= i < |fs| :: !IsEmpty(fs[i]))
    && (forall i, j | 0 <= i < j < |fs| :: fs[i].end <= fs[j].start)
  }

  lemma CoversConcat(a: seq<Region>, b: seq<Region>, x: nat)
    ensures Covers(a + b, x) <==> Covers(a, x) || Covers(b, x)
  {
    if i :| 0 <= i < |a| && In(a[i], x) {
      assert In((a + b)[i], x);
    }
    if i :| 0 <= i < |b| && In(b[i], x) {
      assert In((a + b)[|a| + i], x);
    }
    if i :| 0 <= i < |a + b| && In((a + b)[i], x) {
      assert if i < |a| then In(a[i], x) else In(b[i - |a|], x);
    }
  }

  lemma KeepCovers(r: Region, x: nat)
    ensures Covers(Keep(r), x) <==> In(r, x)
  {
    if In(r, x) {
      assert In(Keep(r)[0], x);
    }
  }

  lemma SubtractCovers(f: Region, r: Region, x: nat)
    ensures Covers(Subtract(f, r), x) <==> In(f, x) && !In(r, x)
  {
    var lo, hi := Max(f.start, r.start), Min(f.end, r.end);
    KeepCovers(f, x);
    KeepCovers(Region(f.start, lo), x);
    KeepCovers(Region(hi, f.end), x);
    CoversConcat(Keep(Region(f.start, lo)), Keep(Region(hi, f.end)), x);
  }

  lemma {:induction false} SubtractAllCovers(fs: seq<Region>, r: Region, x: nat)
    ensures Covers(SubtractAll(fs, r), x) <==> Covers(fs, x) && !In(r, x)
  {
    if fs != [] {
      var t, f := fs[..|fs| - 1], fs[|fs| - 1];
      SubtractAllCovers(t, r, x);
      SubtractCovers(f, r, x);
      CoversConcat(SubtractAll(t, r), Subtract(f, r), x);
      CoversConcat(t, [f], x);
      assert fs == t + [f];
      assert Covers([f], x) <==> In(f, x) by {
        assert In(f, x) ==> In([f][0], x);
      }
    }
  }

  /** The fragments cover exactly the region without the reserved ranges. */
  lemma {:induction false} UsableCovers(region: Region, reserved: seq<Region>, x: nat)
    ensures Covers(Usable(region, reserved), x) <==> In(region, x) && forall i | 0 <= i < |reserved| :: !In(reserved[i], x)
  {
    if reserved == [] {
      assert In(region, x) ==> In([region][0], x);
    } else {
      var t := reserved[..|reserved| - 1];
      UsableCovers(region, t, x);
      SubtractAllCovers(Usable(region, t), reserved[|reserved| - 1], x);
      assert forall i | 0 <= i < |t| :: t[i] == reserved[i];
    }
  }

  // ---------------------------------------------------------------- order and number

  /** The pieces of a fragment stay inside it, apart and in order. */
  lemma SubtractApart(f: Region, r: Region)
    ensures Apart(Subtract(f, r))
    ensures forall i | 0 <= i < |Subtract(f, r)| :: f.start <= Subtract(f, r)[i].start && Subtract(f, r)[i].end <= f.end
    ensures |Subtract(f, r)| <= if f.start < r.start < r.end < f.end then 2 else 1
  {
  }

  lemma {:induction false} SubtractAllApart(fs: seq<Region>, r: Region)
    requires Apart(fs)
    ensures Apart(SubtractAll(fs, r))
    ensures forall i | 0 <= i < |SubtractAll(fs, r)| :: fs != [] && SubtractAll(fs, r)[i].end <= fs[|fs| - 1].end
    ensures |SubtractAll(fs, r)| <= |fs| + 1
    ensures (forall i | 0 <= i < |fs| :: fs[i].end <= r.start) ==> |SubtractAll(fs, r)| <= |fs|
  {
    if fs != [] {
      var t, f := fs[..|fs| - 1], fs[|fs| - 1];
      SubtractAllApart(t, r);
      SubtractApart(f, r);
      var a, b := SubtractAll(t, r), Subtract(f, r);
      assert forall i | 0 <= i < |t| :: t[i].end <= f.start;
      assert forall i | 0 <= i < |a| :: a[i].end <= f.start;
    }
  }

  /** Usable fragments are apart, and one more than the reserved ranges at most. */
  lemma {:induction false} UsableApart(region: Region, reserved: seq<Region>)
    requires !IsEmpty(region)
    ensures Apart(Usable(region, reserved)) && |Usable(region, reserved)| <= |reserved| + 1
  {
    if reserved != [] {
      UsableApart(region, reserved[..|reserved| - 1]);
      SubtractAllApart(Usable(region, reserved[..|reserved| - 1]), reserved[|reserved| - 1]);
    }
  }

  // ---------------------------------------------------------------- the fixed array

  /** Append a fragment unless it is empty or the array is full. */
  method PushRegion(r: Region, out: array<Region>, count: nat) returns (n: nat)
    requires count <= out.Length
    modifies out
    ensures count <= n <= out.Length
    ensures out[..n] == old(out[..count]) + if |old(out[..count])| < out.Length then Keep(r) else []
  {
    if IsEmpty(r) || count >= out.Length {
      return count;
    }
    out[count] := r;
    return count + 1;
  }

  method SubtractRegion(f: Region, r: Region, out: array<Region>, count: nat) returns (n: nat)
    requires count <= out.Length
    modifies out
    ensures count <= n <= out.Length
    ensures count + |Subtract(f, r)| <= out.Length ==> out[..n] == old(out[..count]) + Subtract(f, r)
  {
    var lo, hi := Max(f.start, r.start), Min(f.end, r.end);
    if lo >= hi {
      n := PushRegion(f, out, count);
      return;
    }
    n := PushRegion(Region(f.start, lo), out, count);
    ghost var first := out[..n];
    n := PushRegion(Region(hi, f.end), out, n);
  }

  /** Subtract one reserved range from every fragment, into a new array. */
  method SubtractStep(fragments: array<Region>, count: nat, r: Region) returns (next: array<Region>, n: nat)
    requires fragments.Length == MAX_RESERVED + 1 && count <= fragments.Length
    requires |SubtractAll(fragments[..count], r)| <= MAX_RESERVED + 1
    ensures fresh(next) && next.Length == MAX_RESERVED + 1 && n <= next.Length
    ensures next[..n] == SubtractAll(fragments[..count], r)
  {
    hide Subtract;
    next := new Region[MAX_RESERVED + 1](_ => Region(0, 0));
    n := 0;
    ghost var fs := fragments[..count];
    assert next[..0] == [];
    for i := 0 to count
      invariant n <= next.Length && next[..n] == SubtractAll(fs[..i], r)
    {
      assert fs[..i + 1][..i] == fs[..i];
      SubtractAllPrefix(fs, r, i + 1);
      n := SubtractRegion(fragments[i], r, next, n);
    }
    assert fs[..|fs|] == fs;
  }

  method CollectNonEmpty(fragments: array<Region>, count: nat) returns (frags: seq<Region>)
    requires count <= fragments.Length
    ensures frags == NonEmpty(fragments[..count])
  {
    frags := [];
    ghost var all := fragments[..count];
    for i := 0 to count
      invariant frags == NonEmpty(all[..i])
    {
      assert all[..i + 1][..i] == all[..i];
      if !IsEmpty(fragments[i]) {
        frags := frags + [fragments[i]];
      }
    }
    assert all[..|all|] == all;
  }

  /** The usable fragments of one region; the array never overflows. */
  method UsableFragments(region: Region, reserved: seq<Region>) returns (frags: seq<Region>)
    requires |reserved| <= MAX_RESERVED
    ensures Apart(frags)
    ensures forall a: nat :: Covers(frags, a) <==> In(region, a) && forall i | 0 <= i < |reserved| :: !In(reserved[i], a)
    ensures !IsEmpty(region) ==> frags == Usable(region, reserved)
  {
    hide SubtractAll, Apart, Covers;
    var fragments := new Region[MAX_RESERVED + 1](_ => Region(0, 0));
    fragments[0] := region;
    var count: nat := 1;
    assert fragments[..1] == [region];
    for k := 0 to |reserved|
      invariant fresh(fragments) && fragments.Length == MAX_RESERVED + 1 && count <= fragments.Length
      invariant fragments[..count] == Usable(region, reserved[..k])
    {
      assert reserved[..k + 1][..k] == reserved[..k];
      FragmentsFit(region, reserved, k);
      fragments, count := SubtractStep(fragments, count, reserved[k]);
    }
    assert reserved[..|reserved|] == reserved;
    frags := CollectNonEmpty(fragments, count);
    UsableFinal(region, reserved);
  }

  function NonEmpty(fs: seq<Region>): seq<Region> {
    if fs == [] then [] else NonEmpty(fs[..|fs| - 1]) + Keep(fs[|fs| - 1])
  }

  lemma {:induction false} NonEmptySame(fs: seq<Region>)
    requires forall i | 0 <= i < |fs| :: !IsEmpty(fs[i])
    ensures NonEmpty(fs) == fs
  {
    if fs != [] {
      NonEmptySame(fs[..|fs| - 1]);
    }
  }

  lemma {:induction false} SubtractAllPrefix(fs: seq<Region>, r: Region, i: nat)
    requires i <= |fs|
    ensures SubtractAll(fs[..i], r) <= SubtractAll(fs, r)
  {
    if i < |fs| {
      SubtractAllPrefix(fs[..|fs| - 1], r, i);
      assert fs[..|fs| - 1][..i] == fs[..i];
    } else {
      assert fs[..i] == fs;
    }
  }

  /** Nothing is left of an empty region. */
  lemma {:induction false} UsableEmpty(region: Region, reserved: seq<Region>)
    requires IsEmpty(region)
    ensures Usable(region, reserved) == if reserved == [] then [region] else []
  {
    if reserved != [] {
      var r := reserved[|reserved| - 1];
      UsableEmpty(region, reserved[..|reserved| - 1]);
      assert [region][..0] == [];
      assert SubtractAll([region], r) == SubtractAll([], r) + Subtract(region, r);
    }
  }

  /** There is always room for the fragments of the next step. */
  lemma FragmentsFit(region: Region, reserved: seq<Region>, k: nat)
    requires k < |reserved|
    ensures |SubtractAll(Usable(region, reserved[..k]), reserved[k])| <= k + 2
  {
    var t := reserved[..k + 1];
    assert t[..k] == reserved[..k] && t[k] == reserved[k];
    if IsEmpty(region) {
      UsableEmpty(region, t);
    } else {
      UsableApart(region, t);
    }
  }

  lemma UsableFinal(region: Region, reserved: seq<Region>)
    ensures var fs := NonEmpty(Usable(region, reserved));
            && Apart(fs)
            && (forall a: nat :: Covers(fs, a) <==> In(region, a) && forall i | 0 <= i < |reserved| :: !In(reserved[i], a))
            && (!IsEmpty(region) ==> fs == Usable(region, reserved))
  {
    var fs := Usable(region, reserved);
    if IsEmpty(region) {
      UsableEmpty(region, reserved);
      assert [region][..0] == [];
      assert NonEmpty(fs) == [];
    } else {
      UsableApart(region, reserved);
      NonEmptySame(fs);
      forall a: nat ensures Covers(fs, a) <==> In(region, a) && forall i | 0 <= i < |reserved| :: !In(reserved[i], a) {
        UsableCovers(region, reserved, a);
      }
    }
  }
}
