/**
 FAT32 short names: the 8.3 form with its case flags, and numbered aliases of long names.
 */
module FatShortNames {
  import opened FatNames

  // ---------------------------------------------------------------- letters

  predicate IsLower(u: Unit) { 0x61 <= u <= 0x7A }

  predicate IsUpper(u: Unit) { 0x41 <= u <= 0x5A }

  predicate IsDigit(u: Unit) { 0x30 <= u <= 0x39 }

  function Upper(u: Unit): Unit { if IsLower(u) then u - 32 else u }

  function Lower(u: Unit): Unit { if IsUpper(u) then u + 32 else u }

  /** Letters, digits and _ - $ ~ ! */
  predicate IsShort(u: Unit) {
    IsLower(u) || IsUpper(u) || IsDigit(u) || u == 0x5F || u == 0x2D || u == 0x24 || u == 0x7E || u == 0x21
  }

  const SPACE: Unit := 0x20

  /** The characters of short names, listed. */
  ghost const LOWERS: string := "abcdefghijklmnopqrstuvwxyz"
  ghost const UPPERS: string := "ABCDEFGHIJKLMNOPQRSTUVWXYZ"
  ghost const DIGITS: string := "0123456789"
  ghost const SIGNS: string := "_-$~!"

  lemma {:induction false} ListedUpTo(s: string, lo: Unit, n: nat)
    requires n <= |s| && lo + |s| < 0x80 && forall i | 0 <= i < |s| :: s[i] as int == lo + i
    ensures forall c: char :: c in s[..n] <==> lo <= c as int < lo + n
  {
    if n > 0 {
      ListedUpTo(s, lo, n - 1);
      assert s[..n] == s[..n - 1] + [s[n - 1]];
    }
  }

  /** Short names hold letters, digits and five signs; a letter and its other case stand at the same place. */
  lemma ShortListed(u: Unit)
    requires u < 0x80
    ensures IsLower(u) <==> u as char in LOWERS
    ensures IsUpper(u) <==> u as char in UPPERS
    ensures IsDigit(u) <==> u as char in DIGITS
    ensures IsShort(u) <==> u as char in LOWERS + UPPERS + DIGITS + SIGNS
    ensures forall i | 0 <= i < 26 :: Upper(LOWERS[i] as int) == UPPERS[i] as int && Lower(UPPERS[i] as int) == LOWERS[i] as int
  {
    ListedUpTo(LOWERS, 0x61, 26);
    ListedUpTo(UPPERS, 0x41, 26);
    ListedUpTo(DIGITS, 0x30, 10);
    assert LOWERS[..26] == LOWERS && UPPERS[..26] == UPPERS && DIGITS[..10] == DIGITS;
    assert SIGNS == ['_', '-', '$', '~', '!'];
  }

  function Uppers(s: seq<Unit>): (r: seq<Unit>)
    ensures |r| == |s| && forall i | 0 <= i < |s| :: r[i] == Upper(s[i])
  {
    seq(|s|, i requires 0 <= i < |s| => Upper(s[i]))
  }

  function Lowers(s: seq<Unit>): (r: seq<Unit>)
    ensures |r| == |s| && forall i | 0 <= i < |s| :: r[i] == Lower(s[i])
  {
    seq(|s|, i requires 0 <= i < |s| => Lower(s[i]))
  }

  predicate HasLower(s: seq<Unit>) { exists i | 0 <= i < |s| :: IsLower(s[i]) }

  predicate HasUpper(s: seq<Unit>) { exists i | 0 <= i < |s| :: IsUpper(s[i]) }

  /** A component the 8.3 form can hold: short characters in one case. */
  predicate Fits(s: seq<Unit>) { (forall i | 0 <= i < |s| :: IsShort(s[i])) && !(HasLower(s) && HasUpper(s)) }

  // ---------------------------------------------------------------- encoding

  function Spaces(n: nat): (s: seq<Unit>)
    ensures |s| == n && forall i | 0 <= i < n :: s[i] == SPACE
  {
    seq(n, _ => SPACE)
  }

  /** An 8.3 name: eleven characters and a lower-case flag for each component. */
  datatype Sfn = Sfn(raw: seq<Unit>, lowerBase: bool, lowerExt: bool)

  function Field(s: seq<Unit>, n: nat): (r: seq<Unit>)
    requires |s| <= n
    ensures |r| == n
  {
    Uppers(s) + Spaces(n - |s|)
  }

  function FirstDot(s: seq<Unit>): (i: nat)
    ensures i <= |s| && (i < |s| ==> s[i] == DOT) && forall j | 0 <= j < i :: s[j] != DOT
  {
    if s == [] || s[0] == DOT then 0 else 1 + FirstDot(s[1..])
  }

  function Base(t: seq<Unit>): seq<Unit> { t[..FirstDot(t)] }

  function Ext(t: seq<Unit>): seq<Unit> { if FirstDot(t) < |t| then t[FirstDot(t) + 1..] else [] }

  /** The names that have an 8.3 form. */
  predicate IsSfn(t: seq<Unit>) {
    && 0 < |Base(t)| <= 8 && |Ext(t)| <= 3 && Fits(Base(t)) && Fits(Ext(t))
  }

  /** Check one component and write it in capitals. */
  method EncodeComponent(src: seq<Unit>, n: nat) returns (r: Option<(seq<Unit>, bool)>)
    requires |src| <= n
    ensures r.Some? <==> Fits(src)
    ensures r.Some? ==> r.value.0 == Field(src, n) && r.value.1 == HasLower(src)
  {
    var dst := Spaces(n);
    var sawLower, sawUpper := false, false;
    for i := 0 to |src|
      invariant |dst| == n && forall j | 0 <= j < n :: dst[j] == if j < i then Upper(src[j]) else SPACE
      invariant forall j | 0 <= j < i :: IsShort(src[j])
      invariant sawLower <==> exists j | 0 <= j < i :: IsLower(src[j])
      invariant sawUpper <==> exists j | 0 <= j < i :: IsUpper(src[j])
    {
      if !IsShort(src[i]) {
        return None;
      }
      if IsLower(src[i]) {
        sawLower := true;
      }
      if IsUpper(src[i]) {
        sawUpper := true;
      }
      dst := dst[i := Upper(src[i])];
    }
    if sawLower && sawUpper {
      return None;
    }
    assert dst == Field(src, n);
    return Some((dst, sawLower));
  }

  /** The 8.3 form of a name, if it has one. */
  method SfnFromStr(name: seq<Unit>) returns (r: Option<Sfn>)
    ensures r.Some? <==> IsSfn(Trim(name))
    ensures r.Some? ==> IsSfn(Trim(name)) && r.value == SfnOf(Trim(name))
  {
    hide Trim;
    var t := Trim(name);
    if t == [] || t == [DOT] || t == [DOT, DOT] {
      assert FirstDot(t) == 0;
      return None;
    }
    var d := FirstDot(t);
    var base := t[..d];
    var ext := if d < |t| then t[d + 1..] else [];
    if DOT in ext {
      DotDoesNotFit(ext);
      return None;
    }
    if base == [] || |base| > 8 || |ext| > 3 {
      return None;
    }
    var b := EncodeComponent(base, 8);
    if b.None? {
      return None;
    }
    var e := EncodeComponent(ext, 3);
    if e.None? {
      return None;
    }
    return Some(Sfn(b.value.0 + e.value.0, b.value.1, e.value.1));
  }

  function SfnOf(t: seq<Unit>): Sfn
    requires IsSfn(t)
  {
    Sfn(Field(Base(t), 8) + Field(Ext(t), 3), HasLower(Base(t)), HasLower(Ext(t)))
  }

  lemma DotDoesNotFit(s: seq<Unit>)
    requires DOT in s
    ensures !Fits(s)
  {
    var i :| 0 <= i < |s| && s[i] == DOT;
    assert !IsShort(s[i]);
  }

  // ---------------------------------------------------------------- printing

  function UpToSpace(s: seq<Unit>): seq<Unit> {
    if s == [] || s[0] == SPACE then [] else [s[0]] + UpToSpace(s[1..])
  }

  function Cased(s: seq<Unit>, lower: bool): seq<Unit> { if lower then Lowers(s) else s }

  function Printed(f: Sfn): seq<Unit>
    requires |f.raw| == 11
  {
    var base, ext := Cased(UpToSpace(f.raw[..8]), f.lowerBase), Cased(UpToSpace(f.raw[8..]), f.lowerExt);
    if ext == [] then base else base + [DOT] + ext
  }

  lemma {:induction false} UpToSpaceIs(s: seq<Unit>, k: nat)
    requires SPACE !in s
    ensures UpToSpace(s + Spaces(k)) == s
  {
    if s == [] {
      assert k > 0 ==> (s + Spaces(k))[0] == SPACE;
    } else {
      UpToSpaceIs(s[1..], k);
      assert (s + Spaces(k))[1..] == s[1..] + Spaces(k);
    }
  }

  /** A component that fits prints back in its own case. */
  lemma ComponentBack(s: seq<Unit>, n: nat)
    requires Fits(s) && |s| <= n
    ensures Cased(UpToSpace(Field(s, n)), HasLower(s)) == s
  {
    forall i | 0 <= i < |s| ensures Uppers(s)[i] != SPACE && (if HasLower(s) then Lower(Upper(s[i])) else Upper(s[i])) == s[i] {
      assert IsShort(s[i]);
      assert IsUpper(s[i]) ==> HasUpper(s);
      assert IsLower(s[i]) ==> HasLower(s);
    }
    UpToSpaceIs(Uppers(s), n - |s|);
    assert Cased(Uppers(s), HasLower(s)) == s;
  }

  /** A short name prints back as the trimmed name, except that a trailing dot is lost. */
  lemma ShortNameRoundTrip(t: seq<Unit>)
    requires IsSfn(t)
    ensures Printed(SfnOf(t)) == if t[|t| - 1] == DOT then t[..|t| - 1] else t
    ensures Printed(SfnOf(t)) == t <==> t[|t| - 1] != DOT
  {
    hide Fits, Field, UpToSpace, Cased;
    ComponentBack(Base(t), 8);
    ComponentBack(Ext(t), 3);
    var f := SfnOf(t);
    FieldSize(Base(t), 8);
    assert f.raw[..8] == Field(Base(t), 8) && f.raw[8..] == Field(Ext(t), 3);
    SplitAtDot(t);
  }

  lemma FieldSize(s: seq<Unit>, n: nat)
    requires |s| <= n
    ensures |Field(s, n)| == n
  {
  }

  /** A short name is its base, alone or with a dot and its extension. */
  lemma SplitAtDot(t: seq<Unit>)
    requires IsSfn(t)
    ensures t[|t| - 1] == DOT ==> t[..|t| - 1] == Base(t) && Ext(t) == []
    ensures t[|t| - 1] != DOT ==> t == if Ext(t) == [] then Base(t) else Base(t) + [DOT] + Ext(t)
  {
    hide Fits;
    if t[|t| - 1] == DOT && Ext(t) != [] {
      assert Ext(t)[|Ext(t)| - 1] == DOT;
      DotDoesNotFit(Ext(t));
    }
  }

  // ---------------------------------------------------------------- aliases

  function Decimal(n: nat): (d: seq<Unit>)
    ensures d != [] && forall i | 0 <= i < |d| :: IsDigit(d[i])
  {
    if n < 10 then [0x30 + n] else Decimal(n / 10) + [0x30 + n % 10]
  }

  function Value(d: seq<Unit>): int {
    if d == [] then 0 else 10 * Value(d[..|d| - 1]) + (d[|d| - 1] as int) - 0x30
  }

  lemma {:induction false} DecimalValue(n: nat)
    ensures Value(Decimal(n)) == n
  {
    if n >= 10 {
      DecimalValue(n / 10);
      assert Decimal(n)[..|Decimal(n)| - 1] == Decimal(n / 10);
    }
  }

  function Power10(k: nat): (r: nat) ensures r >= 1 { if k == 0 then 1 else 10 * Power10(k - 1) }

  lemma {:induction false} DecimalSize(n: nat, k: nat)
    requires k > 0
    ensures |Decimal(n)| <= k <==> n < Power10(k)
    decreases k
  {
    if n >= 10 {
      var p := Power10(k - 1);
      assert n / 10 < p <==> n < 10 * p;
      if k > 1 {
        DecimalSize(n / 10, k - 1);
      }
    }
  }

  function Sanitized(u: Unit): Unit {
    if IsLower(u) || IsUpper(u) || IsDigit(u) then Upper(u)
    else if IsShort(u) then u else 0x5F
  }

  /** Up to `n` characters of a base name, without dots. */
  function Prefix(s: seq<Unit>, n: nat): (r: seq<Unit>)
    ensures |r| <= n && forall i | 0 <= i < |r| :: IsShort(r[i]) && !IsLower(r[i])
  {
    if s == [] || n == 0 then []
    else if s[0] == DOT then Prefix(s[1..], n)
    else [Sanitized(s[0])] + Prefix(s[1..], n - 1)
  }

  const FILE: seq<Unit> := [0x46, 0x49, 0x4C, 0x45]

  const TILDE: Unit := 0x7E

  function PrefixLen(d: nat): nat { if d >= 7 then 0 else if 7 - d < 6 then 7 - d else 6 }

  function Cut(s: seq<Unit>, n: nat): (r: seq<Unit>)
    ensures r <= s && |r| <= n && (|s| <= n ==> r == s)
  {
    if |s| <= n then s else s[..n]
  }

  function AliasPrefix(base: seq<Unit>, n: nat): (r: seq<Unit>)
    ensures |r| <= n
  {
    if Prefix(base, n) == [] then Cut(FILE, n) else Prefix(base, n)
  }

  /** The base of alias number `n`: a prefix, a tilde and the number. */
  function AliasBase(base: seq<Unit>, n: nat): seq<Unit> {
    Cut(AliasPrefix(base, PrefixLen(|Decimal(n)|)) + [TILDE] + Decimal(n), 8)
  }

  function LastDot(s: seq<Unit>): (i: nat)
    ensures i <= |s| && (i < |s| ==> s[i] == DOT) && forall j | i < j < |s| :: s[j] != DOT
  {
    if s == [] then 0
    else if s[|s| - 1] == DOT then |s| - 1
    else
      var i := LastDot(s[..|s| - 1]);
      if i == |s| - 1 then |s| else i
  }

  /** The name splits at its last dot when both sides are non-empty. */
  predicate HasExt(t: seq<Unit>) { 0 < LastDot(t) < |t| - 1 }

  function AliasOf(t: seq<Unit>, n: nat): (r: seq<Unit>)
    ensures |r| == 11
  {
    var base := AliasBase(if HasExt(t) then t[..LastDot(t)] else t, n);
    var ext := if HasExt(t) then Prefix3(t[LastDot(t) + 1..]) else [];
    base + Spaces(8 - |base|) + ext + Spaces(3 - |ext|)
  }

  function Prefix3(s: seq<Unit>): (r: seq<Unit>)
    ensures |r| <= 3
  {
    var c := Cut(s, 3);
    seq(|c|, i requires 0 <= i < |c| => Sanitized(c[i]))
  }

  /** Where two equal strings "prefix ~ digits spaces" agree, so do the digits. */
  lemma SameNumber(p: seq<Unit>, d: seq<Unit>, i: nat, q: seq<Unit>, e: seq<Unit>, j: nat)
    requires p + [TILDE] + d + Spaces(i) == q + [TILDE] + e + Spaces(j)
    requires (forall x | 0 <= x < |d| :: IsDigit(d[x])) && (forall x | 0 <= x < |e| :: IsDigit(e[x]))
    ensures d == e
  {
    LastTilde(p, d, i);
    LastTilde(q, e, j);
    var s := p + [TILDE] + d + Spaces(i);
    assert |p| == |q|;
    assert d == s[|p| + 1..][..|d|] && e == s[|p| + 1..][..|e|];
    FirstSpace(d, i);
    FirstSpace(e, j);
    assert d + Spaces(i) == s[|p| + 1..] && e + Spaces(j) == s[|p| + 1..];
  }

  /** The last tilde marks the number. */
  lemma LastTilde(p: seq<Unit>, d: seq<Unit>, i: nat)
    requires forall x | 0 <= x < |d| :: IsDigit(d[x])
    ensures var s := p + [TILDE] + d + Spaces(i);
            s[|p|] == TILDE && forall x | |p| < x < |s| :: s[x] != TILDE
  {
  }

  /** The number ends at the first space. */
  lemma FirstSpace(d: seq<Unit>, i: nat)
    requires forall x | 0 <= x < |d| :: IsDigit(d[x])
    ensures UpToSpace(d + Spaces(i)) == d
  {
    UpToSpaceIs(d, i);
  }

  /** The digits of a number that an alias keeps. */
  function Kept(n: nat): (d: seq<Unit>)
    ensures forall i | 0 <= i < |d| :: IsDigit(d[i])
  {
    Cut(Decimal(n), 7)
  }

  /** Two aliases of one name are equal if and only if their numbers agree in the digits that are kept. */
  lemma AliasesEqual(t: seq<Unit>, n: nat, m: nat)
    ensures AliasOf(t, n) == AliasOf(t, m) <==> Kept(n) == Kept(m)
  {
    hide Prefix, Kept, AliasBase;
    var base := if HasExt(t) then t[..LastDot(t)] else t;
    var p, i := AliasShape(base, n);
    var q, j := AliasShape(base, m);
    if AliasOf(t, n) == AliasOf(t, m) {
      AliasFront(t, n);
      AliasFront(t, m);
      SameNumber(p, Kept(n), i, q, Kept(m), j);
    }
    if Kept(n) == Kept(m) {
      AliasOfKept(base, n, m);
    }
  }

  lemma AliasOfKept(base: seq<Unit>, n: nat, m: nat)
    requires Kept(n) == Kept(m)
    ensures AliasBase(base, n) == AliasBase(base, m)
  {
    hide Prefix, Decimal;
    AliasBaseIs(base, n);
    AliasBaseIs(base, m);
    assert PrefixLen(|Decimal(n)|) == PrefixLen(|Kept(n)|) && PrefixLen(|Decimal(m)|) == PrefixLen(|Kept(m)|);
  }

  /** What is cut off an alias is the end of its number. */
  lemma AliasBaseIs(base: seq<Unit>, n: nat)
    ensures AliasBase(base, n) == AliasPrefix(base, PrefixLen(|Decimal(n)|)) + [TILDE] + Kept(n)
    ensures |AliasBase(base, n)| <= 8
  {
    hide Prefix, Decimal;
    var d := Decimal(n);
    var q := AliasPrefix(base, PrefixLen(|d|));
    if |d| > 7 {
      assert q == [] && q + [TILDE] + d == [TILDE] + d;
      assert ([TILDE] + d)[..8] == [TILDE] + d[..7];
      assert q + [TILDE] + Kept(n) == [TILDE] + Kept(n);
    }
  }

  /** Numbers of up to seven digits give distinct aliases of one name. */
  lemma AliasesDistinct(t: seq<Unit>, n: nat, m: nat)
    requires n < 10000000 && m < 10000000 && n != m
    ensures AliasOf(t, n) != AliasOf(t, m)
  {
    hide Decimal, AliasOf;
    AliasesEqual(t, n, m);
    SevenDigits(n);
    SevenDigits(m);
    DecimalValue(n);
    DecimalValue(m);
  }

  lemma AliasFront(t: seq<Unit>, n: nat)
    ensures var base := AliasBase(if HasExt(t) then t[..LastDot(t)] else t, n);
            |base| <= 8 && AliasOf(t, n)[..8] == base + Spaces(8 - |base|)
  {
    hide AliasBase, Prefix3, LastDot;
    AliasFits(if HasExt(t) then t[..LastDot(t)] else t, n);
  }

  lemma AliasFits(base: seq<Unit>, n: nat)
    ensures |AliasBase(base, n)| <= 8
  {
  }

  lemma AliasShape(base: seq<Unit>, n: nat) returns (p: seq<Unit>, i: nat)
    ensures var b := AliasBase(base, n);
            |b| <= 8 && i == 8 - |b| && b + Spaces(i) == p + [TILDE] + Kept(n) + Spaces(i)
  {
    hide Decimal, Prefix, AliasBase, Kept;
    AliasBaseIs(base, n);
    p := AliasPrefix(base, PrefixLen(|Decimal(n)|));
    i := 8 - |AliasBase(base, n)|;
  }

  lemma SevenDigits(n: nat)
    requires n < 10000000
    ensures 0 < |Decimal(n)| <= 7
  {
    DecimalSize(n, 7);
    assert Power10(7) == 10000000 by {
      assert Power10(1) == 10 && Power10(2) == 100 && Power10(3) == 1000 && Power10(4) == 10000;
    }
  }

  /** An eighth digit is cut off, so numbers that differ only there share their aliases. */
  lemma EightDigitsCollide(t: seq<Unit>, n: nat, m: nat)
    requires n / 10 == m / 10 >= 1000000
    ensures AliasOf(t, n) == AliasOf(t, m)
  {
    DecimalSize(n / 10, 6);
    assert Power10(6) == 1000000 by {
      assert Power10(1) == 10 && Power10(2) == 100 && Power10(3) == 1000 && Power10(4) == 10000;
    }
    assert Decimal(n) == Decimal(n / 10) + [0x30 + n % 10] && Decimal(m) == Decimal(n / 10) + [0x30 + m % 10];
    hide Decimal, AliasOf;
    assert Decimal(n)[..7] == Decimal(n / 10)[..7] == Decimal(m)[..7];
    AliasesEqual(t, n, m);
  }

  /** A character in an alias: its capital if short names may hold it, an underscore otherwise. */
  lemma SanitizedExact(u: Unit)
    ensures IsShort(Sanitized(u)) && !IsLower(Sanitized(u))
    ensures if IsShort(u) then Lower(Sanitized(u)) == Lower(u) else Sanitized(u) == 0x5F
  {
  }

  /** All characters of a base name but its dots, as an alias writes them. */
  ghost function Capitals(s: seq<Unit>): (r: seq<Unit>)
    ensures |r| <= |s|
  {
    if s == [] then [] else (if s[0] == DOT then [] else [Sanitized(s[0])]) + Capitals(s[1..])
  }

  lemma {:induction false} PrefixIs(s: seq<Unit>, n: nat)
    ensures Prefix(s, n) == Cut(Capitals(s), n)
  {
    if s != [] && n != 0 {
      PrefixIs(s[1..], if s[0] == DOT then n else n - 1);
    }
  }

  /** The first eight characters: of the base name as much as fits before the tilde and the number, but at most six
      characters; "FILE" stands for a base name of dots. */
  lemma AliasFrontExact(base: seq<Unit>, n: nat) returns (p: seq<Unit>)
    ensures AliasBase(base, n) == p + [TILDE] + Kept(n) && |p| <= 6 && |p| + 1 + |Kept(n)| <= 8
    ensures var all := if Capitals(base) == [] then FILE else Capitals(base);
            p <= all && (p == all || |p| == 6 || |p| + 1 + |Kept(n)| == 8)
  {
    hide Prefix, Decimal, Capitals;
    var k := PrefixLen(|Decimal(n)|);
    AliasBaseIs(base, n);
    PrefixIs(base, k);
    p := AliasPrefix(base, k);
  }

  /** The alias of a name with an extension: the extension is what follows the last dot, cut after three characters. */
  lemma AliasWithExt(base: seq<Unit>, ext: seq<Unit>, n: nat)
    requires base != [] && ext != [] && DOT !in ext
    ensures var r, b := AliasOf(base + [DOT] + ext, n), AliasBase(base, n);
            && |b| <= 8 && r[..8] == b + Spaces(8 - |b|)
            && forall i | 0 <= i < 3 :: r[8 + i] == if i < |ext| then Sanitized(ext[i]) else SPACE
  {
    var t := base + [DOT] + ext;
    LastDotAt(base, ext);
    hide LastDot, AliasBase;
    assert t[..|base|] == base && t[|base| + 1..] == ext;
    AliasFront(t, n);
    AliasFits(base, n);
  }

  lemma {:induction false} LastDotAt(base: seq<Unit>, ext: seq<Unit>)
    requires DOT !in ext
    ensures LastDot(base + [DOT] + ext) == |base|
  {
    if ext != [] {
      LastDotAt(base, ext[..|ext| - 1]);
      assert (base + [DOT] + ext)[..|base| + |ext|] == base + [DOT] + ext[..|ext| - 1];
      assert ext[|ext| - 1] in ext;
    }
  }

  /** The alias of a name without one: no dot inside, or a dot at the end. */
  lemma AliasWithout(t: seq<Unit>, n: nat)
    requires t != [] && (t[|t| - 1] == DOT || forall i | 1 <= i < |t| :: t[i] != DOT)
    ensures var r, b := AliasOf(t, n), AliasBase(t, n);
            |b| <= 8 && r == b + Spaces(8 - |b|) + Spaces(3)
  {
    hide LastDot, AliasBase;
    assert !HasExt(t);
    AliasFits(t, n);
  }

  /** Every alias is a short name in capitals: printed and read again it comes back. */
  lemma AliasIsShortName(t: seq<Unit>, n: nat)
    ensures var f := Sfn(AliasOf(t, n), false, false);
            IsSfn(Printed(f)) && SfnOf(Printed(f)) == f
  {
    hide LastDot, AliasBase, Prefix3;
    var base := if HasExt(t) then t[..LastDot(t)] else t;
    var b, e := AliasBase(base, n), if HasExt(t) then Prefix3(t[LastDot(t) + 1..]) else [];
    AliasFits(base, n);
    BaseIsShort(base, n);
    ExtIsShort(if HasExt(t) then t[LastDot(t) + 1..] else []);
    var r := AliasOf(t, n);
    assert r[..8] == b + Spaces(8 - |b|) && r[8..] == e + Spaces(3 - |e|);
    ShortNameBack(b, e);
  }

  ghost predicate AllCapital(s: seq<Unit>) { forall i | 0 <= i < |s| :: IsShort(s[i]) && !IsLower(s[i]) }

  lemma BaseIsShort(base: seq<Unit>, n: nat)
    ensures AllCapital(AliasBase(base, n)) && AliasBase(base, n) != []
  {
    hide Prefix, Decimal;
    AliasBaseIs(base, n);
  }

  lemma ExtIsShort(s: seq<Unit>)
    ensures AllCapital(Prefix3(s)) && |Prefix3(s)| <= 3 && (s == [] ==> Prefix3(s) == [])
  {
  }

  lemma ShortNameBack(b: seq<Unit>, e: seq<Unit>)
    requires AllCapital(b) && AllCapital(e) && 0 < |b| <= 8 && |e| <= 3
    ensures var f := Sfn(b + Spaces(8 - |b|) + (e + Spaces(3 - |e|)), false, false);
            IsSfn(Printed(f)) && SfnOf(Printed(f)) == f
  {
    var f := Sfn(b + Spaces(8 - |b|) + (e + Spaces(3 - |e|)), false, false);
    assert f.raw[..8] == b + Spaces(8 - |b|) && f.raw[8..] == e + Spaces(3 - |e|);
    CapitalField(b, 8);
    CapitalField(e, 3);
    var t := if e == [] then b else b + [DOT] + e;
    assert Printed(f) == t;
    hide UpToSpace, Field;
    DotAfter(b, e);
    assert Base(t) == b && Ext(t) == e;
  }

  lemma CapitalField(s: seq<Unit>, n: nat)
    requires AllCapital(s) && |s| <= n
    ensures UpToSpace(s + Spaces(n - |s|)) == s && Field(s, n) == s + Spaces(n - |s|) && Fits(s) && !HasLower(s) && DOT !in s
  {
    UpToSpaceIs(s, n - |s|);
    assert Uppers(s) == s;
  }

  lemma {:induction false} DotAfter(b: seq<Unit>, e: seq<Unit>)
    requires DOT !in b
    ensures FirstDot(b + [DOT] + e) == |b| == FirstDot(b)
  {
    if b != [] {
      DotAfter(b[1..], e);
      assert (b + [DOT] + e)[1..] == b[1..] + [DOT] + e;
    }
  }

  function Reversed(s: seq<Unit>): (r: seq<Unit>)
    ensures |r| == |s| && forall i | 0 <= i < |s| :: r[i] == s[|s| - 1 - i]
  {
    seq(|s|, i requires 0 <= i < |s| => s[|s| - 1 - i])
  }

  method Digits(n: nat) returns (d: nat)
    ensures d == |Decimal(n)|
  {
    d := 1;
    var m := n;
    while m >= 10
      invariant d + |Decimal(m)| == |Decimal(n)| + 1
    {
      m, d := m / 10, d + 1;
    }
  }

  lemma ReversedPush(s: seq<Unit>, u: Unit)
    ensures Reversed(s + [u]) == [u] + Reversed(s)
  {
  }

  function Digit(m: nat): Unit { 0x30 + m % 10 }

  /** The decimal form of a number, or nothing for zero. */
  function Front(m: nat): seq<Unit> { if m == 0 then [] else Decimal(m) }

  lemma FrontStep(m: nat, rest: seq<Unit>)
    requires m > 0
    ensures Front(m) + rest == Front(m / 10) + ([Digit(m)] + rest)
  {
    assert Front(m) == Front(m / 10) + [Digit(m)];
  }

  method DecimalDigits(n: nat) returns (out: seq<Unit>)
    requires n > 0
    ensures out == Decimal(n)
  {
    hide Reversed, Front;
    var tmp: seq<Unit> := [];
    var m := n;
    assert Front(n) + Reversed([]) == Decimal(n) by { FrontStarts(n); }
    while m > 0
      invariant Front(m) + Reversed(tmp) == Decimal(n)
    {
      FrontStep(m, Reversed(tmp));
      ReversedPush(tmp, Digit(m));
      tmp := tmp + [Digit(m)];
      m := m / 10;
    }
    out := ReverseUnits(tmp);
    FrontEnds(out);
  }

  lemma FrontStarts(n: nat)
    requires n > 0
    ensures Front(n) + Reversed([]) == Decimal(n)
  {
  }

  lemma FrontEnds(s: seq<Unit>)
    ensures Front(0) + s == s
  {
  }

  method ReverseUnits(s: seq<Unit>) returns (out: seq<Unit>)
    ensures out == Reversed(s)
  {
    out := [];
    var i := |s|;
    while i > 0
      invariant 0 <= i <= |s| && out == Reversed(s)[..|s| - i]
    {
      i := i - 1;
      out := out + [s[i]];
    }
  }

  method TakePrefix(s: seq<Unit>, n: nat) returns (p: seq<Unit>)
    ensures p == Prefix(s, n)
  {
    p := [];
    var i := 0;
    while i < |s| && |p| < n
      invariant 0 <= i <= |s| && |p| <= n && p + Prefix(s[i..], n - |p|) == Prefix(s, n)
    {
      if s[i] != DOT {
        p := p + [Sanitized(s[i])];
      }
      i := i + 1;
    }
  }

  /** The numbered 8.3 alias of a long name. */
  method SfnAliasFromLfn(name: seq<Unit>, n: nat) returns (r: Option<seq<Unit>>)
    ensures r == if n == 0 || Trim(name) == [] then None else Some(AliasOf(Trim(name), n))
  {
    hide Trim, Decimal, Prefix;
    if n == 0 {
      return None;
    }
    var t := Trim(name);
    if t == [] {
      return None;
    }
    var dot := LastDot(t);
    var base, ext := t, [];
    if 0 < dot < |t| - 1 {
      base, ext := t[..dot], t[dot + 1..];
    }
    var e: seq<Unit> := [];
    var i := 0;
    while i < |ext| && |e| < 3
      invariant i <= |ext| && |e| == i <= 3 && forall j | 0 <= j < i :: e[j] == Sanitized(ext[j])
    {
      e, i := e + [Sanitized(ext[i])], i + 1;
    }
    assert ext != [] ==> e == Prefix3(ext);
    var d := Digits(n);
    var len := PrefixLen(d);
    var prefix := TakePrefix(base, len);
    if prefix == [] {
      prefix := Cut(FILE, len);
    }
    var number := DecimalDigits(n);
    var b := Cut(prefix + [TILDE] + number, 8);
    return Some(b + Spaces(8 - |b|) + e + Spaces(3 - |e|));
  }
}
