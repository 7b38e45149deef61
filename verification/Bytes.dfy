/**
 Byte strings with a zero-padded reading, shared by the file and block layers.
 */
module Bytes {

  newtype byte = b: int | 0 <= b < 256

  /** The byte at position `i`; every position past the end reads as zero. */
  function At(s: seq<byte>, i: nat): byte {
    if i < |s| then s[i] else 0
  }

  function Zeros(n: nat): (z: seq<byte>)
    ensures |z| == n && forall i | 0 <= i < n :: z[i] == 0
  {
    seq(n, _ => 0)
  }

  /** The file extended with zeros to a length of at least `end`. */
  function Padded(v: seq<byte>, end: nat): seq<byte> {
    if |v| < end then v + Zeros(end - |v|) else v
  }

  /** The file that results from writing `d` at `off`: a gap before `off` is zero-filled,
      and an empty write changes nothing. */
  function Overlay(s: seq<byte>, off: nat, d: seq<byte>): (r: seq<byte>)
    ensures d == [] ==> r == s
    ensures d != [] ==> |r| == if |s| < off + |d| then off + |d| else |s|
  {
    if d == [] then s
    else
      var n := if |s| < off + |d| then off + |d| else |s|;
      seq(n, i requires 0 <= i < n => if off <= i < off + |d| then d[i - off] else At(s, i))
  }

  lemma OverlayAt(s: seq<byte>, off: nat, d: seq<byte>, i: nat)
    ensures At(Overlay(s, off, d), i) == if off <= i < off + |d| then d[i - off] else At(s, i)
  {
  }

  /** Files of equal length are equal when they agree at every position. */
  lemma SameBytes(a: seq<byte>, b: seq<byte>)
    requires |a| == |b|
    requires forall i: nat | i < |a| :: At(a, i) == At(b, i)
    ensures a == b
  {
    forall i | 0 <= i < |a| ensures a[i] == b[i] {
      assert At(a, i) == At(b, i);
    }
  }

  /** Two adjacent writes are one longer write. */
  lemma OverlayConcat(s: seq<byte>, off: nat, d: seq<byte>, e: seq<byte>)
    ensures Overlay(Overlay(s, off, d), off + |d|, e) == Overlay(s, off, d + e)
  {
    hide Overlay;
    var a, b := Overlay(Overlay(s, off, d), off + |d|, e), Overlay(s, off, d + e);
    forall i: nat ensures At(a, i) == At(b, i) {
      OverlayAt(Overlay(s, off, d), off + |d|, e, i);
      OverlayAt(s, off, d, i);
      OverlayAt(s, off, d + e, i);
    }
    assert |a| == |b| by {
      assert e == [] ==> d + e == d;
    }
    SameBytes(a, b);
  }

  /** Zeros that a write would fill in anyway do not show. */
  lemma PaddedOverlay(f: seq<byte>, off: nat, d: seq<byte>)
    requires d != []
    ensures Overlay(Padded(f, off + |d|), off, d) == Overlay(f, off, d) == Overlay(Padded(f, off), off, d)
  {
  }

  /** Byte `k` of a number, the lowest being byte 0. */
  ghost function ByteOf(v: nat, k: nat): nat { if k == 0 then v % 256 else ByteOf(v / 256, k - 1) }
}
