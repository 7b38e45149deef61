/**
 Concrete runs of the page cache: a redirtied page, a write lost to another write call, and a write lost
 to reclaim.
 */
module PageRaces {
  import opened Basics
  import opened Bytes
  import opened PageCache
  import opened PageWriteback
  import opened PageSystem

  // ---------------------------------------------------------------- runs built step by step

  lemma {:induction false} LeadsMore(s: Sys, run: seq<Step>, t: Sys, step: Step)
    requires Leads(s, run, t) && Enabled(t, step)
    ensures Leads(s, run + [step], Apply(t, step))
    decreases |run|
  {
    hide Enabled, Apply;
    if run == [] {
      assert run + [step] == [step] && [step][1..] == [];
    } else {
      LeadsMore(Apply(s, run[0]), run[1..], t, step);
      assert (run + [step])[1..] == run[1..] + [step] && (run + [step])[0] == run[0];
    }
  }

  lemma {:induction false} FoldMore(v: seq<byte>, run: seq<Step>, step: Step)
    ensures Fold(v, run + [step]) == Meaning(Fold(v, run), step)
    decreases |run|
  {
    hide Meaning;
    if run == [] {
      assert run + [step] == [step] && [step][1..] == [];
      assert Fold(Meaning(v, step), []) == Meaning(v, step);
    } else {
      FoldMore(Meaning(v, run[0]), run[1..], step);
      assert (run + [step])[1..] == run[1..] + [step] && (run + [step])[0] == run[0];
    }
  }

  /** `run` leads from an open file holding `backing` to `t`, and the user's steps make `file` of it. */
  ghost predicate Reached(backing: seq<byte>, run: seq<Step>, t: Sys, file: seq<byte>) {
    Leads(Opened(backing), run, t) && Fold(backing, run) == file
  }

  lemma Start(backing: seq<byte>)
    ensures Reached(backing, [], Opened(backing), backing)
  {
  }

  lemma Then(backing: seq<byte>, run: seq<Step>, t: Sys, file: seq<byte>, step: Step, t': Sys, file': seq<byte>)
    requires Reached(backing, run, t, file) && Enabled(t, step) && Apply(t, step) == t' && Meaning(file, step) == file'
    ensures Reached(backing, run + [step], t', file')
  {
    hide Enabled, Apply, Meaning, Leads, Fold;
    LeadsMore(Opened(backing), run, t, step);
    FoldMore(backing, run, step);
  }

  // ---------------------------------------------------------------- a two-byte file

  ghost function Frame2(x: byte, y: byte): Frame { Zeros(PAGE_SIZE)[0 := x][1 := y] }

  /** The file's page is resident and holds `x` and `y`. */
  ghost function Two(x: byte, y: byte, dirty: bool, wb: bool, again: bool, ref: bool, backing: seq<byte>,
                     evicting: set<nat>, flights: map<nat, Flight>, writers: map<nat, Writer>): Sys {
    var pg := Page(Frame2(x, y), 2, true, dirty, wb, again, if wb then 1 else 0, 0, ref);
    Sys(Mapping(2, map[0 := pg], if dirty then {0} else {}, dirty, backing), {}, map[], evicting, flights, writers)
  }

  /** Nothing of it is resident but perhaps a blank page. */
  ghost function None(size: nat, backing: seq<byte>, blank: set<nat>, writers: map<nat, Writer>): Sys {
    Sys(Mapping(size, map[], {}, false, backing), blank, map[], {}, map[], writers)
  }

  /** The same while the blank page is being loaded. */
  ghost function Reading(backing: seq<byte>, writers: map<nat, Writer>): Sys {
    None(2, backing, {0}, writers).(loading := map[0 := 2])
  }

  /** A call over the first `len` bytes that found `was` bytes. */
  ghost function Call(was: nat, len: nat, raised: bool, hold: Hold): Writer { Writer(was, 0, len, 0, raised, hold) }

  ghost function Hand(linked: bool): Hold { Held(0, linked, false, 0) }

  ghost function Sized(linked: bool): Hold { Held(0, linked, true, 2) }

  lemma NextIs(was: nat, len: nat, raised: bool, hold: Hold)
    requires 0 < len <= 2
    ensures Next(Call(was, len, raised, hold)) == len
  {
  }

  ghost function Shot(x: byte, y: byte, done: bool): map<nat, Flight> { map[0 := Flight(false, [x, y], 2, done, done)] }

  lemma Took(x: byte, y: byte, again: bool, backing: seq<byte>, writers: map<nat, Writer>)
    ensures var s := Two(x, y, true, false, again, true, backing, {}, map[], writers);
            && Enabled(s, Take(0, false))
            && Apply(s, Take(0, false)) == Two(x, y, true, true, false, true, backing, {}, Shot(x, y, false), writers)
  {
    assert Frame2(x, y)[..2] == [x, y];
  }

  lemma Stored(x: byte, y: byte, u: byte, v: byte, again: bool, backing: seq<byte>, writers: map<nat, Writer>)
    requires |backing| <= 2
    ensures var s := Two(x, y, true, true, again, true, backing, {}, Shot(u, v, false), writers);
            && Enabled(s, WriteBatch(0, 1, 2, false))
            && Apply(s, WriteBatch(0, 1, 2, false)) == Two(x, y, true, true, again, true, [u, v], {}, Shot(u, v, true), writers)
  {
    assert BatchData(Shot(u, v, false), 0, 1) == [] + [u, v] == [u, v];
    assert [u, v][..2] == [u, v];
    assert Overlay(backing, 0, [u, v]) == [u, v];
  }

  lemma Done(x: byte, y: byte, u: byte, v: byte, again: bool, writers: map<nat, Writer>)
    ensures var s := Two(x, y, true, true, again, true, [u, v], {}, Shot(u, v, true), writers);
            && Enabled(s, Complete(0))
            && Apply(s, Complete(0)) == Two(x, y, again, false, again, true, [u, v], {}, map[], writers)
  {
    hide Frame2;
  }

  /** Take, store and complete a page that nobody touches meanwhile. */
  lemma Flushed(x: byte, y: byte, again: bool, backing0: seq<byte>, backing: seq<byte>, writers: map<nat, Writer>,
                run0: seq<Step>, file: seq<byte>) returns (run: seq<Step>)
    requires |backing| <= 2 && Reached(backing0, run0, Two(x, y, true, false, again, true, backing, {}, map[], writers), file)
    ensures Reached(backing0, run, Two(x, y, false, false, false, true, [x, y], {}, map[], writers), file)
  {
    Took(x, y, again, backing, writers);
    Stored(x, y, x, y, false, backing, writers);
    Done(x, y, x, y, false, writers);
    var s1 := Two(x, y, true, false, again, true, backing, {}, map[], writers);
    var s2 := Two(x, y, true, true, false, true, backing, {}, Shot(x, y, false), writers);
    var s3 := Two(x, y, true, true, false, true, [x, y], {}, Shot(x, y, true), writers);
    hide Enabled, Apply, Reached, Two, Shot;
    Then(backing0, run0, s1, file, Take(0, false), s2, file);
    Then(backing0, run0 + [Take(0, false)], s2, file, WriteBatch(0, 1, 2, false), s3, file);
    run := run0 + [Take(0, false)] + [WriteBatch(0, 1, 2, false)];
    Then(backing0, run, s3, file, Complete(0), Two(x, y, false, false, false, true, [x, y], {}, map[], writers), file);
    run := run + [Complete(0)];
  }

  // ---------------------------------------------------------------- steps of a write call

  lemma BlankCopied(was: nat, len: nat, backing: seq<byte>, chunk: seq<byte>, writers: map<nat, Writer>)
    requires 0 < len == |chunk| <= 2 && 1 in writers && writers[1] == Call(was, len, true, Sized(true))
    ensures var s := None(2, backing, {0}, writers);
            && Enabled(s, Copy(1, 0, chunk))
            && Apply(s, Copy(1, 0, chunk)) ==
               Two(chunk[0], if len == 2 then chunk[1] else 0, true, false, false, true, backing, {}, map[], writers - {1})
  {
    NextIs(was, len, true, Sized(true));
    var y: byte := if len == 2 then chunk[1] else 0;
    assert Splice(Zeros(PAGE_SIZE), 0, chunk) == Frame2(chunk[0], y);
    CopyBlankIs(Mapping(2, map[], {}, false, backing), 0, 0, chunk, 2);
    hide Splice, CopyBlank, Frame2;
  }

  lemma LoadedCopied(x: byte, y: byte, wb: bool, w: nat, was: nat, backing: seq<byte>, flights: map<nat, Flight>, u: byte, v: byte, writers: map<nat, Writer>)
    requires w in writers && writers[w] == Call(was, 2, true, Sized(true))
    ensures var s := Two(x, y, wb, wb, false, true, backing, {}, flights, writers);
            && Enabled(s, Copy(w, 0, [u, v]))
            && Apply(s, Copy(w, 0, [u, v])) == Two(u, v, true, wb, wb, true, backing, {}, flights, writers - {w})
  {
    NextIs(was, 2, true, Sized(true));
    assert Splice(Frame2(x, y), 0, [u, v]) == Frame2(u, v);
    var s := Two(x, y, wb, wb, false, true, backing, {}, flights, writers);
    CopySeenIs(s.m, 0, 0, [u, v], 2);
    hide Splice, CopySeen, Frame2;
  }

  lemma Again(writers: map<nat, Writer>, w: nat, x: Writer, y: Writer)
    ensures writers[w := x][w := y] == writers[w := y]
  {
  }

  /** The steps of a call up to its copy, when nothing is resident: the page becomes blank and linked. */
  lemma BlankSteps(size: nat, backing: seq<byte>, w: nat, was: nat, len: nat, writers: map<nat, Writer>)
    requires 0 < len <= 2 && |backing| <= size <= 2 && w !in writers
    ensures var s := None(size, backing, {}, writers);
            Enabled(s, Open(w, 0, len)) && Apply(s, Open(w, 0, len)) == None(size, backing, {}, writers[w := Call(size, len, false, Idle)])
    ensures var s := None(size, backing, {}, writers[w := Call(was, len, false, Idle)]);
            && Enabled(s, Raise(w, len))
            && Apply(s, Raise(w, len)) == None(Max(size, len), backing, {}, writers[w := Call(was, len, true, Idle)])
    ensures var s := None(2, backing, {}, writers[w := Call(was, len, true, Idle)]);
            Enabled(s, Lookup(w)) && Apply(s, Lookup(w)) == None(2, backing, {0}, writers[w := Call(was, len, true, Hand(true))])
  {
    Again(writers, w, Call(was, len, false, Idle), Call(was, len, true, Idle));
    Again(writers, w, Call(was, len, true, Idle), Call(was, len, true, Hand(true)));
    assert {} + {0} == {0};
  }

  /** A call that found the file empty does not load. */
  lemma BlankMeasured(backing: seq<byte>, w: nat, len: nat, writers: map<nat, Writer>)
    requires 0 < len <= 2 && w !in writers
    ensures var s := None(2, backing, {0}, writers[w := Call(0, len, true, Hand(true))]);
            Enabled(s, Measure(w)) && Apply(s, Measure(w)) == None(2, backing, {0}, writers[w := Call(0, len, true, Sized(true))])
  {
    Again(writers, w, Call(0, len, true, Hand(true)), Call(0, len, true, Sized(true)));
  }

  /** A load of the page, begun and ended. */
  lemma PageLoaded(x: byte, y: byte, backing: seq<byte>, blank: set<nat>, writers: map<nat, Writer>)
    requires blank <= {0} && (backing == [x, y] || (backing == [] && x == 0 && y == 0))
    ensures Enabled(None(2, backing, blank, writers), BeginLoad(0)) && Apply(None(2, backing, blank, writers), BeginLoad(0)) == Reading(backing, writers)
    ensures Enabled(Reading(backing, writers), EndLoad(0))
    ensures Apply(Reading(backing, writers), EndLoad(0)) == Two(x, y, false, false, false, true, backing, {}, map[], writers)
  {
    assert blank + {0} == {0} && {0} - {0} == {};
    assert FillData(Zeros(PAGE_SIZE), 0, |backing|, backing) == Frame2(x, y);
    hide Frame2, FillData;
    var m: map<nat, nat> := map[0 := 2];
    assert m - {0} == map[];
  }

  /** The steps of a call up to its copy, when the page is resident. */
  lemma LoadedSteps(x: byte, y: byte, dirty: bool, wb: bool, ref: bool, backing: seq<byte>, flights: map<nat, Flight>, w: nat, was: nat,
                    writers: map<nat, Writer>)
    requires w !in writers
    ensures var s := Two(x, y, dirty, wb, false, ref, backing, {}, flights, writers);
            && Enabled(s, Open(w, 0, 2))
            && Apply(s, Open(w, 0, 2)) == Two(x, y, dirty, wb, false, ref, backing, {}, flights, writers[w := Call(2, 2, false, Idle)])
    ensures var s := Two(x, y, dirty, wb, false, ref, backing, {}, flights, writers[w := Call(was, 2, false, Idle)]);
            && Enabled(s, Raise(w, 2))
            && Apply(s, Raise(w, 2)) == Two(x, y, dirty, wb, false, ref, backing, {}, flights, writers[w := Call(was, 2, true, Idle)])
    ensures var s := Two(x, y, dirty, wb, false, ref, backing, {}, flights, writers[w := Call(was, 2, true, Idle)]);
            && Enabled(s, Lookup(w))
            && Apply(s, Lookup(w)) == Two(x, y, dirty, wb, false, ref, backing, {}, flights, writers[w := Call(was, 2, true, Hand(true))])
    ensures var s := Two(x, y, dirty, wb, false, ref, backing, {}, flights, writers[w := Call(was, 2, true, Hand(true))]);
            && Enabled(s, Measure(w))
            && Apply(s, Measure(w)) == Two(x, y, dirty, wb, false, ref, backing, {}, flights, writers[w := Call(was, 2, true, Sized(true))])
  {
    hide Frame2;
    Again(writers, w, Call(was, 2, false, Idle), Call(was, 2, true, Idle));
    Again(writers, w, Call(was, 2, true, Idle), Call(was, 2, true, Hand(true)));
    Again(writers, w, Call(was, 2, true, Hand(true)), Call(was, 2, true, Sized(true)));
  }

  lemma Files(a: byte, b: byte, c: byte)
    ensures Padded([], 1) == [0] && Padded([], 2) == [0, 0] && Padded([0], 2) == [0, 0] && Padded([a, b], 2) == [a, b]
    ensures Overlay([0, 0], 0, [a, b]) == [a, b] && Overlay([a, b], 0, [c]) == [c, b]
  {
    assert [] + Zeros(1) == [0] && [] + Zeros(2) == [0, 0] && [0] + Zeros(1) == [0, 0];
  }

  lemma Rewritten(a: byte, b: byte, c: byte, d: byte)
    ensures Overlay([a, b], 0, [c, d]) == [c, d]
  {
  }

  // ---------------------------------------------------------------- a page redirtied under write-back

  /** The first call of an empty file, up to its copy. */
  lemma FirstCall(a: byte, b: byte) returns (run: seq<Step>)
    ensures Reached([], run, Two(a, b, true, false, false, true, [], {}, map[], map[]), [a, b])
  {
    Start([]);
    Files(a, b, 0);
    BlankSteps(0, [], 1, 0, 2, map[]);
    BlankMeasured([], 1, 2, map[]);
    var sized := map[1 := Call(0, 2, true, Sized(true))];
    BlankCopied(0, 2, [], [a, b], sized);
    assert sized - {1} == map[];
    assert Opened([]) == None(0, [], {}, map[]);
    var m: map<nat, Writer> := map[];
    hide Enabled, Apply, Reached, Padded, Overlay, Two, None, Call;
    run := [];
    Then([], run, None(0, [], {}, m), [], Open(1, 0, 2), None(0, [], {}, m[1 := Call(0, 2, false, Idle)]), []);
    run := run + [Open(1, 0, 2)];
    Then([], run, None(0, [], {}, m[1 := Call(0, 2, false, Idle)]), [], Raise(1, 2), None(2, [], {}, m[1 := Call(0, 2, true, Idle)]), [0, 0]);
    run := run + [Raise(1, 2)];
    Then([], run, None(2, [], {}, m[1 := Call(0, 2, true, Idle)]), [0, 0], Lookup(1), None(2, [], {0}, m[1 := Call(0, 2, true, Hand(true))]), [0, 0]);
    run := run + [Lookup(1)];
    Then([], run, None(2, [], {0}, m[1 := Call(0, 2, true, Hand(true))]), [0, 0], Measure(1), None(2, [], {0}, m[1 := Call(0, 2, true, Sized(true))]), [0, 0]);
    run := run + [Measure(1)];
    assert m[1 := Call(0, 2, true, Sized(true))] == sized;
    Then([], run, None(2, [], {0}, sized), [0, 0], Copy(1, 0, [a, b]), Two(a, b, true, false, false, true, [], {}, map[], map[]), [a, b]);
    run := run + [Copy(1, 0, [a, b])];
  }

  /** A second call while the page is being written. */
  lemma SecondCall(a: byte, b: byte, c: byte, d: byte, run0: seq<Step>) returns (run: seq<Step>)
    requires Reached([], run0, Two(a, b, true, true, false, true, [], {}, Shot(a, b, false), map[]), [a, b])
    ensures Reached([], run, Two(c, d, true, true, true, true, [], {}, Shot(a, b, false), map[]), [c, d])
  {
    Files(a, b, 0);
    Rewritten(a, b, c, d);
    var m: map<nat, Writer> := map[];
    LoadedSteps(a, b, true, true, true, [], Shot(a, b, false), 2, 2, m);
    var sized := map[2 := Call(2, 2, true, Sized(true))];
    LoadedCopied(a, b, true, 2, 2, [], Shot(a, b, false), c, d, sized);
    assert sized - {2} == map[] && m[2 := Call(2, 2, true, Sized(true))] == sized;
    var s0 := Two(a, b, true, true, false, true, [], {}, Shot(a, b, false), m);
    var s1 := Two(a, b, true, true, false, true, [], {}, Shot(a, b, false), m[2 := Call(2, 2, false, Idle)]);
    var s2 := Two(a, b, true, true, false, true, [], {}, Shot(a, b, false), m[2 := Call(2, 2, true, Idle)]);
    var s3 := Two(a, b, true, true, false, true, [], {}, Shot(a, b, false), m[2 := Call(2, 2, true, Hand(true))]);
    var s4 := Two(a, b, true, true, false, true, [], {}, Shot(a, b, false), sized);
    hide Enabled, Apply, Reached, Padded, Overlay, Two, Call, Shot;
    Then([], run0, s0, [a, b], Open(2, 0, 2), s1, [a, b]);
    run := run0 + [Open(2, 0, 2)];
    Then([], run, s1, [a, b], Raise(2, 2), s2, [a, b]);
    run := run + [Raise(2, 2)];
    Then([], run, s2, [a, b], Lookup(2), s3, [a, b]);
    run := run + [Lookup(2)];
    Then([], run, s3, [a, b], Measure(2), s4, [a, b]);
    run := run + [Measure(2)];
    Then([], run, s4, [a, b], Copy(2, 0, [c, d]), Two(c, d, true, true, true, true, [], {}, Shot(a, b, false), map[]), [c, d]);
    run := run + [Copy(2, 0, [c, d])];
  }

  /** Bytes stored while their page is being written: the device then has the old bytes, and the completed page
      is dirty again. */
  lemma RedirtyRun(a: byte, b: byte, c: byte, d: byte) returns (run: seq<Step>, t: Sys)
    ensures Reached([], run, t, [c, d])
    ensures t.m.backing == [a, b] && t.m.dirty == {0} && t.flights == map[] && t.writers == map[]
  {
    run := FirstCall(a, b);
    Took(a, b, false, [], map[]);
    var s1 := Two(a, b, true, true, false, true, [], {}, Shot(a, b, false), map[]);
    Then([], run, Two(a, b, true, false, false, true, [], {}, map[], map[]), [a, b], Take(0, false), s1, [a, b]);
    run := run + [Take(0, false)];
    run := SecondCall(a, b, c, d, run);
    Stored(c, d, a, b, true, [], map[]);
    Done(c, d, a, b, true, map[]);
    t := Two(c, d, true, false, true, true, [a, b], {}, map[], map[]);
    var s2 := Two(c, d, true, true, true, true, [a, b], {}, Shot(a, b, true), map[]);
    hide Enabled, Apply, Reached;
    Then([], run, Two(c, d, true, true, true, true, [], {}, Shot(a, b, false), map[]), [c, d], WriteBatch(0, 1, 2, false), s2, [c, d]);
    run := run + [WriteBatch(0, 1, 2, false)];
    Then([], run, s2, [c, d], Complete(0), t, [c, d]);
    run := run + [Complete(0)];
  }

  // ---------------------------------------------------------------- a write lost to another call

  /** Reclaim of the clean page: second chance, mark, unlink. */
  lemma Reclaimed(x: byte, y: byte, backing0: seq<byte>, writers: map<nat, Writer>, writers': map<nat, Writer>, run0: seq<Step>, file: seq<byte>)
    returns (run: seq<Step>)
    requires Reached(backing0, run0, Two(x, y, false, false, false, true, [x, y], {}, map[], writers), file)
    requires Detach(writers, 0) == writers'
    ensures Reached(backing0, run, None(2, [x, y], {}, writers'), file)
  {
    var s0 := Two(x, y, false, false, false, true, [x, y], {}, map[], writers);
    var s1 := Two(x, y, false, false, false, false, [x, y], {}, map[], writers);
    var s2 := Two(x, y, false, false, false, false, [x, y], {0}, map[], writers);
    assert Enabled(s0, Meta(0, false, 0)) && Apply(s0, Meta(0, false, 0)) == s1;
    assert Enabled(s1, Mark(0)) && Apply(s1, Mark(0)) == s2 by { assert {} + {0} == {0}; }
    assert Enabled(s2, Unlink(0)) && Apply(s2, Unlink(0)) == None(2, [x, y], {}, writers') by { assert s2.m.pages - {0} == map[]; }
    hide Enabled, Apply, Reached, Two, None, Detach;
    Then(backing0, run0, s0, file, Meta(0, false, 0), s1, file);
    run := run0 + [Meta(0, false, 0)];
    Then(backing0, run, s1, file, Mark(0), s2, file);
    run := run + [Mark(0)];
    Then(backing0, run, s2, file, Unlink(0), None(2, [x, y], {}, writers'), file);
    run := run + [Unlink(0)];
  }

  ghost function First(raised: bool, hold: Hold): map<nat, Writer> { map[1 := Call(0, 1, raised, hold)] }

  /** A call on an empty file raises the size to one byte. */
  lemma FirstOpens() returns (run: seq<Step>)
    ensures Reached([], run, None(1, [], {}, First(true, Idle)), [0])
  {
    hide Enabled, Apply, Reached, Padded, None, First;
    Start([]);
    Files(0, 0, 0);
    FirstFacts();
    Then([], [], Opened([]), [], Open(1, 0, 1), None(0, [], {}, First(false, Idle)), []);
    run := [] + [Open(1, 0, 1)];
    Then([], run, None(0, [], {}, First(false, Idle)), [], Raise(1, 1), None(1, [], {}, First(true, Idle)), [0]);
    run := run + [Raise(1, 1)];
  }

  lemma FirstFacts()
    ensures Enabled(Opened([]), Open(1, 0, 1)) && Apply(Opened([]), Open(1, 0, 1)) == None(0, [], {}, First(false, Idle))
    ensures var s := None(0, [], {}, First(false, Idle)); Enabled(s, Raise(1, 1)) && Apply(s, Raise(1, 1)) == None(1, [], {}, First(true, Idle))
  {
    assert First(false, Idle)[1 := Call(0, 1, true, Idle)] == First(true, Idle);
  }

  /** A second call finds that byte, raises the size to two and has the page loaded. */
  lemma BothOpen() returns (run: seq<Step>)
    ensures Reached([], run, Two(0, 0, false, false, false, true, [], {}, map[], First(true, Idle)[2 := Call(1, 2, true, Hand(true))]), [0, 0])
  {
    run := FirstOpens();
    Files(0, 0, 0);
    BlankSteps(1, [], 2, 1, 2, First(true, Idle));
    var f := First(true, Idle);
    PageLoaded(0, 0, [], {0}, f[2 := Call(1, 2, true, Hand(true))]);
    hide Enabled, Apply, Reached, Padded, Overlay, Two, None, Reading, Call, First;
    Then([], run, None(1, [], {}, f), [0], Open(2, 0, 2), None(1, [], {}, f[2 := Call(1, 2, false, Idle)]), [0]);
    run := run + [Open(2, 0, 2)];
    Then([], run, None(1, [], {}, f[2 := Call(1, 2, false, Idle)]), [0], Raise(2, 2), None(2, [], {}, f[2 := Call(1, 2, true, Idle)]), [0, 0]);
    run := run + [Raise(2, 2)];
    Then([], run, None(2, [], {}, f[2 := Call(1, 2, true, Idle)]), [0, 0], Lookup(2), None(2, [], {0}, f[2 := Call(1, 2, true, Hand(true))]), [0, 0]);
    run := run + [Lookup(2)];
    var h := f[2 := Call(1, 2, true, Hand(true))];
    Then([], run, None(2, [], {0}, h), [0, 0], BeginLoad(0), Reading([], h), [0, 0]);
    run := run + [BeginLoad(0)];
    Then([], run, Reading([], h), [0, 0], EndLoad(0), Two(0, 0, false, false, false, true, [], {}, map[], h), [0, 0]);
    run := run + [EndLoad(0)];
  }

  /** The second call stores its bytes. */
  lemma SecondStores(a: byte, b: byte) returns (run: seq<Step>)
    ensures Reached([], run, Two(a, b, true, false, false, true, [], {}, map[], First(true, Idle)), [a, b])
  {
    run := BothOpen();
    Files(a, b, 0);
    var f := First(true, Idle);
    LoadedSteps(0, 0, false, false, true, [], map[], 2, 1, f);
    var sized := f[2 := Call(1, 2, true, Sized(true))];
    LoadedCopied(0, 0, false, 2, 1, [], map[], a, b, sized);
    assert sized - {2} == f;
    var s0 := Two(0, 0, false, false, false, true, [], {}, map[], f[2 := Call(1, 2, true, Hand(true))]);
    var s1 := Two(0, 0, false, false, false, true, [], {}, map[], sized);
    hide Enabled, Apply, Reached, Padded, Overlay, Two, Call, First;
    Then([], run, s0, [0, 0], Measure(2), s1, [0, 0]);
    run := run + [Measure(2)];
    Then([], run, s1, [0, 0], Copy(2, 0, [a, b]), Two(a, b, true, false, false, true, [], {}, map[], f), [a, b]);
    run := run + [Copy(2, 0, [a, b])];
  }

  /** The first call goes on with a fresh page and does not load it. */
  lemma FirstStores(a: byte, b: byte, c: byte, run0: seq<Step>) returns (run: seq<Step>)
    requires Reached([], run0, None(2, [a, b], {}, First(true, Idle)), [a, b])
    ensures Reached([], run, Two(c, 0, true, false, false, true, [a, b], {}, map[], map[]), [c, b])
  {
    Files(a, b, c);
    var m: map<nat, Writer> := map[];
    BlankSteps(2, [a, b], 1, 0, 1, m);
    BlankMeasured([a, b], 1, 1, m);
    var f, h, z := First(true, Idle), First(true, Hand(true)), First(true, Sized(true));
    assert m[1 := Call(0, 1, true, Idle)] == f && m[1 := Call(0, 1, true, Hand(true))] == h && m[1 := Call(0, 1, true, Sized(true))] == z;
    BlankCopied(0, 1, [a, b], [c], z);
    assert z - {1} == map[];
    hide Enabled, Apply, Reached, Overlay, Two, None, Call, First;
    Then([], run0, None(2, [a, b], {}, f), [a, b], Lookup(1), None(2, [a, b], {0}, h), [a, b]);
    run := run0 + [Lookup(1)];
    Then([], run, None(2, [a, b], {0}, h), [a, b], Measure(1), None(2, [a, b], {0}, z), [a, b]);
    run := run + [Measure(1)];
    Then([], run, None(2, [a, b], {0}, z), [a, b], Copy(1, 0, [c]), Two(c, 0, true, false, false, true, [a, b], {}, map[], map[]), [c, b]);
    run := run + [Copy(1, 0, [c])];
  }

  /** Two overlapping write calls: one found the file empty, so after the other's bytes were stored, written back
      and reclaimed it copies into a fresh page without loading. The calls wrote `c` over `a, b`; the device
      ends up with `c` and a zero, clean and idle. */
  lemma OverlapLoses(a: byte, b: byte, c: byte) returns (run: seq<Step>, t: Sys)
    ensures Reached([], run, t, [c, b])
    ensures t.m.backing == [c, 0] && !t.m.retained && t.m.dirty == {} && t.flights == map[] && t.writers == map[]
  {
    run := SecondStores(a, b);
    var f := First(true, Idle);
    run := Flushed(a, b, false, [], [], f, run, [a, b]);
    assert Detach(f, 0) == f;
    run := Reclaimed(a, b, [], f, f, run, [a, b]);
    run := FirstStores(a, b, c, run);
    run := Flushed(c, 0, false, [], [a, b], map[], run, [c, b]);
    t := Two(c, 0, false, false, false, true, [c, 0], {}, map[], map[]);
  }

  // ---------------------------------------------------------------- a write lost to reclaim

  /** One write call whose page is reclaimed between its lookup and its copy: the bytes go to a page that is no
      longer linked, and the dirty set names a page that is not there. */
  lemma ReclaimLoses(a: byte, b: byte, c: byte, d: byte) returns (run: seq<Step>, t: Sys)
    ensures Reached([a, b], run, t, [c, d])
    ensures View(t.m) == [a, b] && 0 in t.m.dirty && 0 !in t.m.pages && t.writers == map[]
  {
    run := LookedUp(a, b);
    var m: map<nat, Writer> := map[];
    var h, u, z := m[1 := Call(2, 2, true, Hand(true))], m[1 := Call(2, 2, true, Hand(false))], m[1 := Call(2, 2, true, Sized(false))];
    assert Detach(h, 0) == u;
    run := Reclaimed(a, b, [a, b], h, u, run, [a, b]);
    var s1, s2 := None(2, [a, b], {}, u), None(2, [a, b], {}, z);
    assert Enabled(s1, Measure(1)) && Apply(s1, Measure(1)) == s2 by {
      Again(m, 1, Call(2, 2, true, Hand(false)), Call(2, 2, true, Sized(false)));
    }
    t := Sys(Mapping(2, map[], {0}, true, [a, b]), {}, map[], {}, map[], map[]);
    NextIs(2, 2, true, Sized(false));
    assert Enabled(s2, Copy(1, 0, [c, d])) && Apply(s2, Copy(1, 0, [c, d])) == t by {
      assert z - {1} == map[] && {} + {0} == {0};
    }
    Rewritten(a, b, c, d);
    assert View(t.m) == [a, b];
    hide Enabled, Apply, Reached, Overlay, None, Call, View;
    Then([a, b], run, s1, [a, b], Measure(1), s2, [a, b]);
    run := run + [Measure(1)];
    Then([a, b], run, s2, [a, b], Copy(1, 0, [c, d]), t, [c, d]);
    run := run + [Copy(1, 0, [c, d])];
  }

  /** A loaded two-byte file and a call that has looked its page up. */
  lemma LookedUp(a: byte, b: byte) returns (run: seq<Step>)
    ensures Reached([a, b], run, Two(a, b, false, false, false, true, [a, b], {}, map[], map[1 := Call(2, 2, true, Hand(true))]), [a, b])
  {
    Start([a, b]);
    Files(a, b, 0);
    var m: map<nat, Writer> := map[];
    var s0 := None(2, [a, b], {}, m);
    var s1 := Two(a, b, false, false, false, true, [a, b], {}, map[], m);
    PageLoaded(a, b, [a, b], {}, m);
    LoadedSteps(a, b, false, false, true, [a, b], map[], 1, 2, m);
    var s2 := Two(a, b, false, false, false, true, [a, b], {}, map[], m[1 := Call(2, 2, false, Idle)]);
    var s3 := Two(a, b, false, false, false, true, [a, b], {}, map[], m[1 := Call(2, 2, true, Idle)]);
    var s4 := Two(a, b, false, false, false, true, [a, b], {}, map[], m[1 := Call(2, 2, true, Hand(true))]);
    assert Opened([a, b]) == s0;
    assert m[1 := Call(2, 2, true, Hand(true))] == map[1 := Call(2, 2, true, Hand(true))];
    hide Enabled, Apply, Reached, Padded, Two, None, Reading, Call;
    Then([a, b], [], s0, [a, b], BeginLoad(0), Reading([a, b], m), [a, b]);
    run := [] + [BeginLoad(0)];
    Then([a, b], run, Reading([a, b], m), [a, b], EndLoad(0), s1, [a, b]);
    run := run + [EndLoad(0)];
    Then([a, b], run, s1, [a, b], Open(1, 0, 2), s2, [a, b]);
    run := run + [Open(1, 0, 2)];
    Then([a, b], run, s2, [a, b], Raise(1, 2), s3, [a, b]);
    run := run + [Raise(1, 2)];
    Then([a, b], run, s3, [a, b], Lookup(1), s4, [a, b]);
    run := run + [Lookup(1)];
  }

  // ---------------------------------------------------------------- a write lost to a load

  /** A file of one page, being loaded, and a call that overwrites all of it. */
  ghost function Whole(b: Frame, writers: map<nat, Writer>): Sys {
    Sys(Mapping(PAGE_SIZE, map[], {}, false, b), {0}, map[0 := PAGE_SIZE], {}, map[], writers)
  }

  ghost function Over(raised: bool, hold: Hold): map<nat, Writer> { map[1 := Writer(PAGE_SIZE, 0, PAGE_SIZE, 0, raised, hold)] }

  ghost function WholePage(d: Frame): Page { Page(d, PAGE_SIZE, true, true, false, false, 0, 0, true) }

  /** The copied page while its load goes on, and after it. */
  ghost function Copying(b: Frame, d: Frame, loading: map<nat, nat>): Sys {
    Sys(Mapping(PAGE_SIZE, map[0 := WholePage(d)], {0}, true, b), {}, loading, {}, map[], map[])
  }

  lemma WholeSteps(b: Frame)
    ensures var none: map<nat, Writer> := map[];
            && Enabled(Opened(b), BeginLoad(0)) && Apply(Opened(b), BeginLoad(0)) == Whole(b, none)
            && Enabled(Whole(b, none), Open(1, 0, PAGE_SIZE)) && Apply(Whole(b, none), Open(1, 0, PAGE_SIZE)) == Whole(b, Over(false, Idle))
    ensures Enabled(Whole(b, Over(false, Idle)), Raise(1, PAGE_SIZE))
    ensures Apply(Whole(b, Over(false, Idle)), Raise(1, PAGE_SIZE)) == Whole(b, Over(true, Idle))
    ensures Enabled(Whole(b, Over(true, Idle)), Lookup(1))
    ensures Apply(Whole(b, Over(true, Idle)), Lookup(1)) == Whole(b, Over(true, Held(0, true, false, 0)))
  {
    assert {} + {0} == {0} && {0} + {0} == {0};
    assert Over(false, Idle)[1 := Over(true, Idle)[1]] == Over(true, Idle);
    assert Over(true, Idle)[1 := Over(true, Held(0, true, false, 0))[1]] == Over(true, Held(0, true, false, 0));
  }

  /** A page that is overwritten whole is not waited for. */
  lemma WholeMeasured(b: Frame)
    ensures var s := Whole(b, Over(true, Held(0, true, false, 0)));
            Enabled(s, Measure(1)) && Apply(s, Measure(1)) == Whole(b, Over(true, Held(0, true, true, PAGE_SIZE)))
  {
    assert Next(Over(true, Held(0, true, false, 0))[1]) == PAGE_SIZE;
    assert Over(true, Held(0, true, false, 0))[1 := Over(true, Held(0, true, true, PAGE_SIZE))[1]] == Over(true, Held(0, true, true, PAGE_SIZE));
  }

  lemma WholeCopied(b: Frame, c: Frame)
    ensures var s := Whole(b, Over(true, Held(0, true, true, PAGE_SIZE)));
            Enabled(s, Copy(1, 0, c)) && Apply(s, Copy(1, 0, c)) == Copying(b, c, map[0 := PAGE_SIZE])
  {
    var s := Whole(b, Over(true, Held(0, true, true, PAGE_SIZE)));
    assert Next(s.writers[1]) == PAGE_SIZE;
    assert Splice(Zeros(PAGE_SIZE), 0, c) == c;
    CopyBlankIs(s.m, 0, 0, c, PAGE_SIZE);
    hide Splice, CopyBlank;
    assert s.writers - {1} == map[] && {0} - {0} == {};
  }

  lemma WholeLoaded(b: Frame, c: Frame)
    ensures var s := Copying(b, c, map[0 := PAGE_SIZE]);
            Enabled(s, EndLoad(0)) && Apply(s, EndLoad(0)) == Copying(b, b, map[])
  {
    var s := Copying(b, c, map[0 := PAGE_SIZE]);
    assert FillData(c, 0, PAGE_SIZE, b) == b;
    hide FillData;
    assert s.loading - {0} == map[] && {} - {0} == {};
  }

  /** A whole-page write does not wait for a load of its page; the load then stores the inode's old bytes over
      what was copied. */
  lemma LoadLoses(b: Frame, c: Frame) returns (run: seq<Step>, t: Sys)
    ensures Reached(b, run, t, c) && View(t.m) == b && t.writers == map[] && t.loading == map[]
  {
    Start(b);
    WholeSteps(b);
    WholeMeasured(b);
    WholeCopied(b, c);
    WholeLoaded(b, c);
    WholeFiles(b, c);
    t := Copying(b, b, map[]);
    var none: map<nat, Writer> := map[];
    hide Enabled, Apply, Reached, Padded, Overlay, View, Whole, Over, Opened;
    Then(b, [], Opened(b), b, BeginLoad(0), Whole(b, none), b);
    run := [] + [BeginLoad(0)];
    Then(b, run, Whole(b, none), b, Open(1, 0, PAGE_SIZE), Whole(b, Over(false, Idle)), b);
    run := run + [Open(1, 0, PAGE_SIZE)];
    Then(b, run, Whole(b, Over(false, Idle)), b, Raise(1, PAGE_SIZE), Whole(b, Over(true, Idle)), b);
    run := run + [Raise(1, PAGE_SIZE)];
    Then(b, run, Whole(b, Over(true, Idle)), b, Lookup(1), Whole(b, Over(true, Held(0, true, false, 0))), b);
    run := run + [Lookup(1)];
    Then(b, run, Whole(b, Over(true, Held(0, true, false, 0))), b, Measure(1), Whole(b, Over(true, Held(0, true, true, PAGE_SIZE))), b);
    run := run + [Measure(1)];
    Then(b, run, Whole(b, Over(true, Held(0, true, true, PAGE_SIZE))), b, Copy(1, 0, c), Copying(b, c, map[0 := PAGE_SIZE]), c);
    run := run + [Copy(1, 0, c)];
    Then(b, run, Copying(b, c, map[0 := PAGE_SIZE]), c, EndLoad(0), t, c);
    run := run + [EndLoad(0)];
  }

  lemma WholeFiles(b: Frame, c: Frame)
    ensures Padded(b, PAGE_SIZE) == b && Overlay(b, 0, c) == c && View(Copying(b, b, map[]).m) == b
  {
  }
}
