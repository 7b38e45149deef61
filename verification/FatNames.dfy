/**
 FAT32 directory names: long-name entries and 8.3 short names. Names are UTF-16 code units.
 */
module FatNames {
  import opened Bytes

  type Unit = u: nat | u < 0x1_0000

  datatype Option<T> = None | Some(value: T)

  // ---------------------------------------------------------------- characters

  /** White space as `trim` sees it. */
  predicate IsSpace(u: Unit) {
    9 <= u <= 13 || u == 0x20 || u == 0x85 || u == 0xA0 || u == 0x1680 || 0x2000 <= u <= 0x200A ||
    u == 0x2028 || u == 0x2029 || u == 0x202F || u == 0x205F || u == 0x3000
  }

  predicate IsControl(u: Unit) { u < 0x20 || 0x7F <= u < 0xA0 }

  /** The characters a long name may not hold: " * / : < > ? \ | */
  predicate IsForbidden(u: Unit) {
    u == 0x22 || u == 0x2A || u == 0x2F || u == 0x3A || u == 0x3C || u == 0x3E || u == 0x3F || u == 0x5C || u == 0x7C
  }

  /** The same characters, listed. */
  lemma ForbiddenListed(u: Unit)
    requires u < 0x80
    ensures IsForbidden(u) <==> u as char in "\"*/:<>?\\|"
  {
    assert "\"*/:<>?\\|" == ['\"', '*', '/', ':', '<', '>', '?', '\\', '|'];
  }

  function TrimStart(s: seq<Unit>): (t: seq<Unit>)
    ensures |t| <= |s| && t == s[|s| - |t|..] && (forall i | 0 <= i < |s| - |t| :: IsSpace(s[i])) && (t != [] ==> !IsSpace(t[0]))
  {
    if s != [] && IsSpace(s[0]) then TrimStart(s[1..]) else s
  }

  function TrimEnd(s: seq<Unit>): (t: seq<Unit>)
    ensures t <= s && (forall i | |t| <= i < |s| :: IsSpace(s[i])) && (t != [] ==> !IsSpace(t[|t| - 1]))
  {
    if s != [] && IsSpace(s[|s| - 1]) then TrimEnd(s[..|s| - 1]) else s
  }

  function Trim(s: seq<Unit>): seq<Unit> { TrimEnd(TrimStart(s)) }

  /** Bytes of a unit in UTF-8; each half of a surrogate pair counts two. */
  function Utf8Size(u: Unit): nat {
    if u < 0x80 then 1 else if u < 0x800 || 0xD800 <= u < 0xE000 then 2 else 3
  }

  function Utf8Len(s: seq<Unit>): (n: nat)
    ensures |s| <= n
  {
    if s == [] then 0 else Utf8Len(s[..|s| - 1]) + Utf8Size(s[|s| - 1])
  }

  const DOT: Unit := 0x2E

  /** The names a long-name entry accepts. */
  predicate ValidName(name: seq<Unit>) {
    var t := Trim(name);
    && t != [] && t != [DOT] && t != [DOT, DOT] && Utf8Len(t) <= 255
    && t[|t| - 1] != DOT
    && forall i | 0 <= i < |t| :: !IsControl(t[i]) && !IsForbidden(t[i])
  }

  /** An accepted name holds no zero unit. */
  lemma NoZero(name: seq<Unit>)
    requires ValidName(name)
    ensures 0 !in name
  {
    ZeroStays(name);
  }

  /** Trimming removes spaces only. */
  lemma ZeroStays(s: seq<Unit>)
    ensures 0 in s ==> 0 in Trim(s)
  {
    if i :| 0 <= i < |s| && s[i] == 0 {
      var a := TrimStart(s);
      assert a[i - (|s| - |a|)] == 0;
      var j :| 0 <= j < |a| && a[j] == 0;
      assert TrimEnd(a)[j] == 0;
    }
  }

  // ---------------------------------------------------------------- checksum

  /** The checksum of a short name, in eight bits. */
  function Checksum(sfn: seq<byte>): (c: nat)
    ensures c < 256
  {
    if sfn == [] then 0
    else
      var sum := Checksum(sfn[..|sfn| - 1]);
      (sum % 2 * 128 + sum / 2 + sfn[|sfn| - 1] as nat) % 256
  }

  /** Eight bits as a number, the lowest first. */
  ghost function Octet(b: seq<nat>): nat
    requires |b| == 8
  {
    b[0] + 2 * b[1] + 4 * b[2] + 8 * b[3] + 16 * b[4] + 32 * b[5] + 64 * b[6] + 128 * b[7]
  }

  ghost function Turned(x: nat): nat { x % 2 * 128 + x / 2 }

  /** The sum is turned right by one bit: every bit moves down and the lowest becomes the highest. */
  lemma TurnsRight(b: seq<nat>)
    requires |b| == 8 && forall i | 0 <= i < 8 :: b[i] < 2
    ensures Turned(Octet(b)) == Octet(b[1..] + [b[0]])
  {
    assert b[0] < 2;
  }

  lemma TurnBack(x: nat, y: nat)
    requires x < 256 && y < 256 && Turned(x) == Turned(y)
    ensures x == y
  {
  }

  /** Each character is added, in eight bits, to the turned sum of those before it. */
  lemma ChecksumStep(sfn: seq<byte>, b: byte)
    ensures Checksum(sfn + [b]) == (Turned(Checksum(sfn)) + b as nat) % 256
  {
    assert (sfn + [b])[..|sfn|] == sfn;
  }

  /** A short name in which one character was changed has another checksum. */
  lemma {:induction false} OneChangeShows(front: seq<byte>, a: byte, b: byte, rest: seq<byte>)
    requires a != b
    ensures Checksum(front + [a] + rest) != Checksum(front + [b] + rest)
  {
    hide Checksum, Turned;
    if rest == [] {
      assert front + [a] + rest == front + [a] && front + [b] + rest == front + [b];
      ChecksumStep(front, a);
      ChecksumStep(front, b);
    } else {
      var t, c := rest[..|rest| - 1], rest[|rest| - 1];
      OneChangeShows(front, a, b, t);
      assert front + [a] + rest == front + [a] + t + [c] && front + [b] + rest == front + [b] + t + [c];
      ChecksumStep(front + [a] + t, c);
      ChecksumStep(front + [b] + t, c);
      ChecksumBelow(front + [a] + t);
      ChecksumBelow(front + [b] + t);
      if Turned(Checksum(front + [a] + t)) == Turned(Checksum(front + [b] + t)) {
        TurnBack(Checksum(front + [a] + t), Checksum(front + [b] + t));
      }
    }
  }

  lemma ChecksumBelow(sfn: seq<byte>)
    ensures Checksum(sfn) < 256 && Turned(Checksum(sfn)) < 256
  {
  }

  method LfnChecksum(sfn: seq<byte>) returns (sum: nat)
    ensures sum == Checksum(sfn)
  {
    sum := 0;
    for i := 0 to |sfn|
      invariant sum == Checksum(sfn[..i])
    {
      assert sfn[..i + 1][..i] == sfn[..i];
      sum := (sum % 2 * 128 + sum / 2 + sfn[i] as nat) % 256;
    }
    assert sfn[..|sfn|] == sfn;
  }

  // ---------------------------------------------------------------- entries

  const FILL: Unit := 0xFFFF
  const ATTR_LFN: nat := 0x0F

  function Lo(u: Unit): byte { (u % 256) as byte }

  function Hi(u: Unit): byte { (u / 256) as byte }

  function Pair(lo: byte, hi: byte): Unit { lo as nat + 256 * hi as nat }

  lemma PairSplit(u: Unit)
    ensures Pair(Lo(u), Hi(u)) == u
  {
  }

  type Raw = r: seq<byte> | |r| == 32 witness Zeros(32)

  type Chunk = c: seq<Unit> | |c| == 13 witness seq(13, _ => 0)

  /** One part of a long name. */
  datatype Part = Part(order: nat, last: bool, sum: nat, units: Chunk)

  function OrderByte(order: nat, last: bool): byte
    requires order < 0x20
  {
    (order + if last then 0x40 else 0) as byte
  }

  /** A part whose order and checksum fit their fields. */
  predicate Storable(p: Part) { 0 < p.order < 0x20 && p.sum < 256 }

  /** Units as little-endian bytes. */
  function Wide(c: seq<Unit>): (b: seq<byte>)
    ensures |b| == 2 * |c| && forall i | 0 <= i < |c| :: b[2 * i] == Lo(c[i]) && b[2 * i + 1] == Hi(c[i])
  {
    seq(2 * |c|, j requires 0 <= j < 2 * |c| => if j % 2 == 0 then Lo(c[j / 2]) else Hi(c[j / 2]))
  }

  function Narrow(b: seq<byte>): (c: seq<Unit>)
    ensures |c| == |b| / 2 && forall i | 0 <= i < |c| :: c[i] == Pair(b[2 * i], b[2 * i + 1])
  {
    seq(|b| / 2, i requires 0 <= i < |b| / 2 => Pair(b[2 * i], b[2 * i + 1]))
  }

  lemma NarrowWide(c: seq<Unit>)
    ensures Narrow(Wide(c)) == c
  {
    forall i | 0 <= i < |c| ensures Narrow(Wide(c))[i] == c[i] {
      PairSplit(c[i]);
    }
  }

  /** The 32 bytes of one part: 5, 6 and 2 units around the fixed fields. */
  function EntryOf(p: Part): (r: Raw)
    requires Storable(p)
  {
    [OrderByte(p.order, p.last)] + Wide(p.units[..5]) + [ATTR_LFN as byte, 0, p.sum as byte] +
    Wide(p.units[5..11]) + [0, 0] + Wide(p.units[11..])
  }

  function UnitsOf(raw: Raw): Chunk {
    Narrow(raw[1..11]) + Narrow(raw[14..26]) + Narrow(raw[28..])
  }

  function Parsed(raw: Raw): Option<Part> {
    if raw[11] as nat != ATTR_LFN || raw[12] != 0 || raw[26] != 0 || raw[27] != 0 then None
    else
      var ord := raw[0] as nat;
      if ord % 0x20 == 0 then None
      else Some(Part(ord % 0x20, ord / 0x40 % 2 == 1, raw[13] as nat, UnitsOf(raw)))
  }

  /** An entry parses back to its part. */
  lemma ParseEntry(p: Part)
    requires Storable(p)
    ensures Parsed(EntryOf(p)) == Some(p)
  {
    hide Wide, Narrow, Lo, Hi;
    var raw, u := EntryOf(p), p.units;
    assert raw[1..11] == Wide(u[..5]) && raw[14..26] == Wide(u[5..11]) && raw[28..] == Wide(u[11..]);
    NarrowWide(u[..5]);
    NarrowWide(u[5..11]);
    NarrowWide(u[11..]);
    assert UnitsOf(raw) == u;
  }

  /** Where unit `j` of a part lies in its entry. */
  ghost function UnitAt(j: nat): nat { if j < 5 then 1 + 2 * j else if j < 11 then 14 + 2 * (j - 5) else 28 + 2 * (j - 11) }

  /** The format of an entry: every field at its place, units with the low byte first. */
  lemma EntryBytes(p: Part, j: nat)
    requires Storable(p) && j < 13
    ensures var r := EntryOf(p);
            && r[0] as nat == p.order + (if p.last then 0x40 else 0) && r[11] == 0x0F && r[13] as nat == p.sum
            && r[12] == r[26] == r[27] == 0
            && UnitAt(j) + 1 < 32 && r[UnitAt(j)] as nat + 256 * r[UnitAt(j) + 1] as nat == p.units[j]
  {
    hide Wide, Lo, Hi;
    var r, u := EntryOf(p), p.units;
    var a, b, c := Wide(u[..5]), Wide(u[5..11]), Wide(u[11..]);
    assert r[1..11] == a && r[14..26] == b && r[28..] == c;
    PairSplit(u[j]);
    if j < 5 {
      assert r[UnitAt(j)] == a[2 * j] && r[UnitAt(j) + 1] == a[2 * j + 1];
      WideAt(u[..5], j);
    } else if j < 11 {
      assert r[UnitAt(j)] == b[2 * (j - 5)] && r[UnitAt(j) + 1] == b[2 * (j - 5) + 1];
      WideAt(u[5..11], j - 5);
    } else {
      assert r[UnitAt(j)] == c[2 * (j - 11)] && r[UnitAt(j) + 1] == c[2 * (j - 11) + 1];
      WideAt(u[11..], j - 11);
    }
  }

  lemma WideAt(c: seq<Unit>, i: nat)
    requires i < |c|
    ensures Wide(c)[2 * i] as nat + 256 * Wide(c)[2 * i + 1] as nat == c[i]
  {
    PairSplit(c[i]);
  }

  /** What parses is an entry of the format: building the part again gives the same bytes, but for two bits of the
      order byte that are ignored. */
  lemma ParsedIsEntry(raw: Raw)
    requires Parsed(raw).Some?
    ensures var p := Parsed(raw).value; Storable(p) && EntryOf(p) == raw[0 := OrderByte(p.order, p.last)]
  {
    hide Wide, Narrow, Lo, Hi, Pair;
    var p := Parsed(raw).value;
    var u := p.units;
    assert u[..5] == Narrow(raw[1..11]) && u[5..11] == Narrow(raw[14..26]) && u[11..] == Narrow(raw[28..]);
    WideNarrow(raw[1..11]);
    WideNarrow(raw[14..26]);
    WideNarrow(raw[28..]);
    assert raw[1..] == raw[1..11] + [raw[11], raw[12], raw[13]] + raw[14..26] + [raw[26], raw[27]] + raw[28..];
    assert raw[0 := OrderByte(p.order, p.last)] == [OrderByte(p.order, p.last)] + raw[1..];
  }

  lemma WideNarrow(b: seq<byte>)
    requires |b| % 2 == 0
    ensures Wide(Narrow(b)) == b
  {
    hide Lo, Hi, Pair, Wide, Narrow;
    var c := Narrow(b);
    forall j | 0 <= j < |b| ensures Wide(c)[j] == b[j] {
      var i := j / 2;
      PairBack(b[2 * i], b[2 * i + 1]);
      assert Wide(c)[2 * i] == Lo(c[i]) && Wide(c)[2 * i + 1] == Hi(c[i]);
    }
  }

  lemma PairBack(lo: byte, hi: byte)
    ensures Lo(Pair(lo, hi)) == lo && Hi(Pair(lo, hi)) == hi
  {
  }

  // ---------------------------------------------------------------- building

  function FillCount(n: nat): (k: nat)
    ensures k < 13 && (n + k) % 13 == 0
  {
    (13 - n % 13) % 13
  }

  function Fills(k: nat): (f: seq<Unit>)
    ensures |f| == k && forall i | 0 <= i < k :: f[i] == FILL
  {
    seq(k, _ => FILL)
  }

  /** The name with its terminator, filled to whole parts. */
  function Filled(name: seq<Unit>): (u: seq<Unit>)
    ensures |u| % 13 == 0 && |name| < |u| <= |name| + 13
  {
    name + [0] + Fills(FillCount(|name| + 1))
  }

  function PartAt(u: seq<Unit>, sum: nat, i: nat): Part
    requires 13 * (i + 1) <= |u|
  {
    Part(i + 1, 13 * (i + 1) == |u|, sum, u[13 * i..13 * (i + 1)])
  }

  /** The parts in disk order, the last one first: parts `n` down to 1. */
  function PartsDown(u: seq<Unit>, sum: nat, n: nat): seq<Part>
    requires 13 * n <= |u|
  {
    if n == 0 then [] else [PartAt(u, sum, n - 1)] + PartsDown(u, sum, n - 1)
  }

  predicate AllStorable(ps: seq<Part>) { forall i | 0 <= i < |ps| :: Storable(ps[i]) }

  function Entries(ps: seq<Part>): (r: seq<Raw>)
    requires AllStorable(ps)
    ensures |r| == |ps| && forall i | 0 <= i < |ps| :: r[i] == EntryOf(ps[i])
  {
    if ps == [] then [] else Entries(ps[..|ps| - 1]) + [EntryOf(ps[|ps| - 1])]
  }

  lemma {:induction false} PartsDownAt(u: seq<Unit>, sum: nat, n: nat)
    requires 13 * n <= |u|
    ensures |PartsDown(u, sum, n)| == n
    ensures forall i | 0 <= i < n :: PartsDown(u, sum, n)[i] == PartAt(u, sum, n - 1 - i)
  {
    if n > 0 {
      PartsDownAt(u, sum, n - 1);
    }
  }

  /** A long name on disk: no more entries than its units and a terminator need, the last one first, numbered from
      1, each with the checksum; every unit at its place, then the terminator and fillers of all ones. */
  lemma NameOnDisk(name: seq<Unit>, sum: nat, n: nat, i: nat, j: nat)
    requires sum < 256 && |Filled(name)| == 13 * n && n < 0x20 && i < n && j < 13
    ensures 13 * (n - 1) <= |name| < 13 * n
    ensures var ps := PartsDown(Filled(name), sum, n);
            && |ps| == n && AllStorable(ps)
            && var r, k := Entries(ps)[n - 1 - i], 13 * i + j;
               && r[0] as nat == i + 1 + (if i == n - 1 then 0x40 else 0) && r[11] == 0x0F && r[13] as nat == sum
               && UnitAt(j) + 1 < 32
               && r[UnitAt(j)] as nat + 256 * r[UnitAt(j) + 1] as nat == if k < |name| then name[k] else if k == |name| then 0 else 0xFFFF
  {
    var u := Filled(name);
    hide Filled, EntryOf, UnitAt;
    PartsDownAt(u, sum, n);
    var ps := PartsDown(u, sum, n);
    hide PartsDown;
    assert AllStorable(ps);
    var p := ps[n - 1 - i];
    EntryBytes(p, j);
    assert p.units[j] == u[13 * i + j];
    FilledAt(name, 13 * i + j);
  }

  lemma FilledAt(name: seq<Unit>, k: nat)
    requires k < |Filled(name)|
    ensures Filled(name)[k] == if k < |name| then name[k] else if k == |name| then 0 else 0xFFFF
    ensures |name| < |Filled(name)| <= |name| + 13
  {
  }

  /** Append the terminator and the fillers. */
  method PadUnits(name: seq<Unit>) returns (units: seq<Unit>)
    ensures units == Filled(name)
  {
    units := name + [0];
    ghost var k := 0;
    FillStops(|name| + 1, 0);
    while |units| % 13 != 0
      invariant k <= FillCount(|name| + 1) && units == name + [0] + Fills(k)
      invariant |units| % 13 == 0 <==> k == FillCount(|name| + 1)
      decreases FillCount(|name| + 1) - k
    {
      assert Fills(k + 1) == Fills(k) + [FILL];
      units, k := units + [FILL], k + 1;
      FillStops(|name| + 1, k);
    }
  }

  /** Build the entries of a long name, in disk order. */
  method BuildLfnEntries(name: seq<Unit>, sfn: seq<byte>) returns (out: Option<seq<Raw>>)
    ensures out.Some? <==> ValidName(name) && |Filled(name)| / 13 < 0x20
    ensures out.Some? ==>
              var ps := PartsDown(Filled(name), Checksum(sfn), |Filled(name)| / 13);
              AllStorable(ps) && out.value == Entries(ps)
  {
    hide ValidName, Filled, PartsDown, EntryOf, Checksum;
    if !ValidName(name) {
      return None;
    }
    var units := PadUnits(name);
    var n := |units| / 13;
    if n == 0 || n > 0x1F {
      return None;
    }
    var sum := LfnChecksum(sfn);
    PartsDownAt(units, sum, n);
    ghost var ps := PartsDown(units, sum, n);
    var raws: seq<Raw> := [];
    var i := n;
    while i > 0
      invariant 0 <= i <= n && |raws| == n - i && AllStorable(ps)
      invariant forall j | 0 <= j < |raws| :: raws[j] == EntryOf(ps[j])
    {
      i := i - 1;
      var part := Part(i + 1, i + 1 == n, sum, units[13 * i..13 * (i + 1)]);
      assert part == ps[n - 1 - i];
      raws := raws + [EntryOf(part)];
    }
    assert raws == Entries(ps);
    return Some(raws);
  }

  lemma FillStops(n: nat, k: nat)
    requires k <= FillCount(n)
    ensures (n + k) % 13 == 0 <==> k == FillCount(n)
  {
  }

  // ---------------------------------------------------------------- parsing and assembling

  /** Parse one raw entry. */
  method ParseLfnPart(raw: Raw) returns (part: Option<Part>)
    ensures part == Parsed(raw)
  {
    if raw[11] as nat != ATTR_LFN || raw[12] != 0 || raw[26] != 0 || raw[27] != 0 {
      return None;
    }
    var ord := raw[0] as nat;
    if ord % 0x20 == 0 {
      return None;
    }
    var name1 := ReadUnits(raw, 1, 5);
    var name2 := ReadUnits(raw, 14, 6);
    var name3 := ReadUnits(raw, 28, 2);
    assert raw[28..32] == raw[28..];
    return Some(Part(ord % 0x20, ord / 0x40 % 2 == 1, raw[13] as nat, name1 + name2 + name3));
  }

  method ReadUnits(raw: Raw, at: nat, n: nat) returns (units: seq<Unit>)
    requires at + 2 * n <= 32
    ensures units == Narrow(raw[at..at + 2 * n])
  {
    units := [];
    for i := 0 to n
      invariant |units| == i && forall j | 0 <= j < i :: units[j] == Pair(raw[at + 2 * j], raw[at + 2 * j + 1])
    {
      units := units + [Pair(raw[at + 2 * i], raw[at + 2 * i + 1])];
    }
  }

  /** Units before the terminator, without fillers. */
  function Strip(u: seq<Unit>): seq<Unit> {
    if u == [] || u[0] == 0 then [] else (if u[0] == FILL then [] else [u[0]]) + Strip(u[1..])
  }

  function Find(ps: seq<Part>, order: nat): Option<Part> {
    if ps == [] then None else if ps[|ps| - 1].order == order then Some(ps[|ps| - 1]) else Find(ps[..|ps| - 1], order)
  }

  /** The units of the parts with orders 1 to `n`, in order. */
  function UnitsUpTo(ps: seq<Part>, n: nat): seq<Unit> {
    if n == 0 then [] else UnitsUpTo(ps, n - 1) + match Find(ps, n) case Some(p) => p.units case None => []
  }

  /** Parts that make one name: the right checksum, orders 1 to n once each, the last flag on part n alone. */
  ghost predicate WellFormed(ps: seq<Part>, sum: nat) {
    && ps != []
    && (forall i | 0 <= i < |ps| :: ps[i].sum == sum && 1 <= ps[i].order <= |ps|)
    && (forall i, j | 0 <= i < j < |ps| :: ps[i].order != ps[j].order)
    && (forall i | 0 <= i < |ps| :: ps[i].last <==> ps[i].order == |ps|)
  }

  lemma {:induction false} FindIs(ps: seq<Part>, i: nat)
    requires i < |ps| && forall a, b | 0 <= a < b < |ps| :: ps[a].order != ps[b].order
    ensures Find(ps, ps[i].order) == Some(ps[i])
  {
    if i < |ps| - 1 {
      FindIs(ps[..|ps| - 1], i);
    }
  }

  lemma FullSet(s: set<nat>, n: nat)
    requires (forall x | x in s :: x < n) && |s| == n
    ensures forall x: nat | x < n :: x in s
  {
    if n > 0 {
      if n - 1 in s {
        FullSet(s - {n - 1}, n - 1);
      } else {
        SmallSet(s, n - 1);
      }
    }
  }

  lemma SmallSet(s: set<nat>, n: nat)
    requires forall x | x in s :: x < n
    ensures |s| <= n
  {
    if n == 0 {
      assert s == {};
    } else {
      SmallSet(s - {n - 1}, n - 1);
      assert |s| <= |s - {n - 1}| + 1;
    }
  }

  ghost predicate Numbered(ps: seq<Part>) {
    && (forall i | 0 <= i < |ps| :: 1 <= ps[i].order <= |ps|)
    && (forall i, j | 0 <= i < j < |ps| :: ps[i].order != ps[j].order)
  }

  ghost function Places(ps: seq<Part>, k: nat): set<nat>
    requires Numbered(ps) && k <= |ps|
  {
    set i | 0 <= i < k :: ps[i].order - 1
  }

  lemma {:induction false} PlacesSize(ps: seq<Part>, k: nat)
    requires Numbered(ps) && k <= |ps|
    ensures |Places(ps, k)| == k
  {
    if k > 0 {
      PlacesSize(ps, k - 1);
      assert Places(ps, k) == Places(ps, k - 1) + {ps[k - 1].order - 1};
      assert ps[k - 1].order - 1 !in Places(ps, k - 1);
    }
  }

  /** Numbers 1 to n, used once each by n parts, are all used. */
  lemma HasOrder(ps: seq<Part>, o: nat)
    requires Numbered(ps) && 1 <= o <= |ps|
    ensures exists j | 0 <= j < |ps| :: ps[j].order == o
  {
    PlacesSize(ps, |ps|);
    FullSet(Places(ps, |ps|), |ps|);
    assert o - 1 in Places(ps, |ps|);
  }

  lemma OneLast(ps: seq<Part>, sum: nat, at: nat)
    requires Numbered(ps) && at < |ps| && ps[at].last && ps[at].order == |ps|
    requires forall j | 0 <= j < |ps| :: ps[j].sum == sum
    requires forall j | 0 <= j < |ps| && ps[j].last && j != at :: ps[j].order == 0
    ensures WellFormed(ps, sum)
  {
  }

  lemma {:induction false} FindSome(ps: seq<Part>, o: nat)
    ensures Find(ps, o).None? ==> forall j | 0 <= j < |ps| :: ps[j].order != o
    ensures Find(ps, o).Some? ==> exists j | 0 <= j < |ps| :: ps[j].order == o
  {
    if ps != [] {
      var t := ps[..|ps| - 1];
      FindSome(t, o);
      if j :| 0 <= j < |t| && t[j].order == o {
        assert ps[j].order == o;
      }
    }
  }

  /** Place every part by its order. */
  method TableOf(ps: seq<Part>, n: nat) returns (table: Option<seq<Option<Part>>>)
    requires n == |ps|
    ensures table.Some? <==> Numbered(ps)
    ensures table.Some? ==> |table.value| == n && forall x | 0 <= x < n :: table.value[x] == Find(ps, x + 1)
  {
    var slots: seq<Option<Part>> := seq(n, _ => None);
    for i := 0 to |ps|
      invariant |slots| == n && forall x | 0 <= x < n :: slots[x] == Find(ps[..i], x + 1)
      invariant forall j | 0 <= j < i :: 1 <= ps[j].order <= n
      invariant forall j, k | 0 <= j < k < i :: ps[j].order != ps[k].order
    {
      var p := ps[i];
      if p.order == 0 || p.order > n {
        return None;
      }
      FindSome(ps[..i], p.order);
      if slots[p.order - 1].Some? {
        var j :| 0 <= j < i && ps[..i][j].order == p.order;
        assert ps[j].order == ps[i].order;
        return None;
      }
      forall j | 0 <= j < i ensures ps[j].order != p.order {
        assert ps[..i][j] == ps[j];
      }
      slots := slots[p.order - 1 := Some(p)];
      assert ps[..i + 1][..i] == ps[..i];
    }
    assert ps[..|ps|] == ps;
    return Some(slots);
  }

  method StripUnits(u: seq<Unit>) returns (out: seq<Unit>)
    ensures out == Strip(u)
  {
    out := [];
    for i := 0 to |u|
      invariant out + Strip(u[i..]) == Strip(u)
    {
      if u[i] == 0 {
        return;
      }
      if u[i] != FILL {
        out := out + [u[i]];
      }
    }
  }

  /** Put the parts of a long name together; they may come in any order. */
  method AssembleLfn(ps: seq<Part>, sfn: seq<byte>) returns (out: Option<seq<Unit>>)
    ensures out.Some? <==> WellFormed(ps, Checksum(sfn))
    ensures out.Some? ==> out.value == Strip(UnitsUpTo(ps, |ps|))
  {
    hide Checksum;
    if ps == [] {
      return None;
    }
    var sum := LfnChecksum(sfn);
    var lastOrder := 0;
    ghost var at := 0;
    for i := 0 to |ps|
      invariant forall j | 0 <= j < i :: ps[j].sum == sum
      invariant lastOrder == 0 ==> forall j | 0 <= j < i && ps[j].last :: ps[j].order == 0
      invariant lastOrder != 0 ==> at < i && ps[at].last && ps[at].order == lastOrder && forall j | 0 <= j < i && ps[j].last && j != at :: ps[j].order == 0
    {
      if ps[i].sum != sum {
        return None;
      }
      if ps[i].last {
        if lastOrder != 0 {
          return None;
        }
        lastOrder, at := ps[i].order, i;
      }
    }
    if lastOrder == 0 || |ps| != lastOrder {
      if lastOrder == 0 && WellFormed(ps, sum) {
        HasOrder(ps, |ps|);
      }
      return None;
    }
    var table := TableOf(ps, lastOrder);
    if table.None? {
      return None;
    }
    OneLast(ps, sum, at);
    forall i | 0 <= i < lastOrder ensures table.value[i].Some? && Find(ps, i + 1) == table.value[i] {
      HasOrder(ps, i + 1);
      FindSome(ps, i + 1);
    }
    var units: seq<Unit> := [];
    for i := 0 to lastOrder
      invariant units == UnitsUpTo(ps, i)
    {
      units := units + table.value[i].value.units;
    }
    var stripped := StripUnits(units);
    return Some(stripped);
  }

  // ---------------------------------------------------------------- the round trip

  function Kept(name: seq<Unit>): seq<Unit> {
    if name == [] then [] else (if name[0] == FILL then [] else [name[0]]) + Kept(name[1..])
  }

  lemma {:induction false} KeptSame(name: seq<Unit>)
    ensures |Kept(name)| <= |name| && (Kept(name) == name <==> FILL !in name)
  {
    if name != [] {
      KeptSame(name[1..]);
    }
  }

  lemma {:induction false} StripStops(name: seq<Unit>, rest: seq<Unit>)
    requires 0 !in name
    ensures Strip(name + [0] + rest) == Kept(name)
  {
    if name == [] {
      assert ([] + [0] + rest)[0] == 0;
    } else {
      StripStops(name[1..], rest);
      assert (name + [0] + rest)[1..] == name[1..] + [0] + rest;
    }
  }

  lemma {:induction false} UnitsJoin(u: seq<Unit>, sum: nat, n: nat, m: nat)
    requires 13 * n == |u| && m <= n
    ensures UnitsUpTo(PartsDown(u, sum, n), m) == u[..13 * m]
  {
    if m > 0 {
      UnitsJoin(u, sum, n, m - 1);
      PartsDownAt(u, sum, n);
      var ps := PartsDown(u, sum, n);
      FindIs(ps, n - m);
      assert Find(ps, m) == Some(PartAt(u, sum, m - 1));
      assert u[..13 * m] == u[..13 * (m - 1)] + u[13 * (m - 1)..13 * m];
    }
  }

  /** Storing an accepted name and reading its entries gives the name without its filler units, and so the name
      itself exactly when it has none. */
  lemma LongNameRoundTrip(name: seq<Unit>, sfn: seq<byte>)
    requires ValidName(name) && |Filled(name)| / 13 < 0x20
    ensures var ps := PartsDown(Filled(name), Checksum(sfn), |Filled(name)| / 13);
            && AllStorable(ps)
            && (forall i | 0 <= i < |ps| :: Parsed(Entries(ps)[i]) == Some(ps[i]))
            && WellFormed(ps, Checksum(sfn))
            && Strip(UnitsUpTo(ps, |ps|)) == Kept(name) && (Kept(name) == name <==> FILL !in name)
  {
    hide ValidName, Checksum, EntryOf, Parsed, Filled;
    var u := Filled(name);
    var n, sum := |u| / 13, Checksum(sfn);
    PartsDownAt(u, sum, n);
    var ps := PartsDown(u, sum, n);
    forall i | 0 <= i < |ps| ensures Parsed(Entries(ps)[i]) == Some(ps[i]) {
      ParseEntry(ps[i]);
    }
    UnitsJoin(u, sum, n, n);
    assert u[..13 * n] == u;
    NoZero(name);
    PaddedIs(name);
    StripStops(name, Fills(FillCount(|name| + 1)));
    KeptSame(name);
  }

  lemma {:induction false} Utf8Bound(s: seq<Unit>)
    ensures Utf8Len(s) <= 3 * |s|
  {
    if s != [] {
      Utf8Bound(s[..|s| - 1]);
    }
  }

  const FILLED_NAME: seq<Unit> := [0x61, FILL, 0x62]

  lemma FilledNameValid()
    ensures ValidName(FILLED_NAME)
  {
    hide Trim, Utf8Len;
    NothingTrimmed(FILLED_NAME);
    Utf8Bound(FILLED_NAME);
  }

  lemma NothingTrimmed(s: seq<Unit>)
    requires s != [] && !IsSpace(s[0]) && !IsSpace(s[|s| - 1])
    ensures Trim(s) == s
  {
  }

  lemma FilledNameKept()
    ensures Kept(FILLED_NAME) == [0x61, 0x62]
  {
    assert FILLED_NAME[1..] == [FILL, 0x62];
    assert [FILL, 0x62][1..] == [0x62];
    assert [0x62][1..] == [];
    assert Kept([0x62]) == [0x62] + [];
    assert Kept([FILL, 0x62]) == [] + [0x62];
  }

  /** A name of three units that comes back as two. */
  lemma FillerIsLost(sfn: seq<byte>)
    ensures var ps := PartsDown(Filled(FILLED_NAME), Checksum(sfn), |Filled(FILLED_NAME)| / 13);
            ValidName(FILLED_NAME) && Strip(UnitsUpTo(ps, |ps|)) == [0x61, 0x62]
  {
    FilledNameValid();
    hide ValidName, Checksum, Filled, PartsDown, UnitsUpTo, Strip;
    LongNameRoundTrip(FILLED_NAME, sfn);
    FilledNameKept();
  }

  lemma PaddedIs(name: seq<Unit>)
    ensures Filled(name) == name + [0] + Fills(FillCount(|name| + 1))
  {
  }
}
