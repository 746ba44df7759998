/** What a client of the pull parser sees of a GHW file: each time with the values at that time. */
module GhwTrace {
  import opened Bytes
  import opened Leb128
  import opened GhwLeb
  import opened GhwStream
  import opened GhwFormat

  datatype Seen = Seen(time: int, vals: seq<Value>)

  /** What there is to see after each call, until a call returns a negative number. */
  function Trace(f: File, st: State, sm: Sm): (r: seq<Seen>)
    requires |f.kinds| == |st.vals| && st.pos <= |f.s|
    decreases |f.s| - st.pos
  {
    var r := SmStep(f, st, sm);
    if r.SmWild? || r.code < 0 then [] else [Seen(r.st.snapTime, r.st.vals)] + Trace(f, r.st, r.sm)
  }

  /** What the sections tell. */
  function StepsTold(time: int, vals: seq<Value>, steps: seq<Step>): (r: seq<Seen>)
    decreases |steps|
  {
    if steps == [] then []
    else
      var now, news := Wrapped(time + steps[0].diff, TWO64), Changed(vals, steps[0].changes);
      [Seen(now, news)] + StepsTold(now, news, steps[1..])
  }

  function SectionTold(kinds: seq<Kind>, vals: seq<Value>, sec: Section): (r: seq<Seen>)
    requires |vals| == |kinds| && Proper(kinds, sec)
  {
    match sec
    case Snap(time, news) => [Seen(TimeRead(time), Updated(kinds, vals, news, 0))]
    case Cyc(time, changes, steps) =>
      [Seen(TimeRead(time), Changed(vals, changes))] + StepsTold(TimeRead(time), Changed(vals, changes), steps)
    case Dir(_, _) => []
    case Tail(_) => []
  }

  function FileTold(kinds: seq<Kind>, vals: seq<Value>, secs: seq<Section>): (r: seq<Seen>)
    requires |vals| == |kinds| && AllProper(kinds, secs)
    decreases |secs|
  {
    if secs == [] then []
    else SectionTold(kinds, vals, secs[0]) + FileTold(kinds, ValuesAfter(kinds, vals, secs[0]), secs[1..])
  }

  // ---- one call ----

  lemma {:induction false} HdrStep(f: File, st: State, sm: Sm, code: int, next: State)
    requires |f.kinds| == |st.vals| && st.pos <= |f.s| && !sm.InCycle?
    requires SmHdr(f, st) == Ret(code, next)
    ensures code == RES_SNAPSHOT ==> SmStep(f, st, sm) == SmRet(code, next, Sect)
    ensures code == RES_CYCLE ==> SmStep(f, st, sm) == SmRet(code, next, InCycle)
    ensures code == RES_OTHER ==>
              |next.vals| == |f.kinds| && next.pos <= |f.s|
              && SmStep(f, st, sm) == SmStep(f, next, sm)
    ensures code == RES_EOF ==> SmStep(f, st, sm).SmRet? && SmStep(f, st, sm).code < 0
  {
  }

  /** The same step has the same sequel. */
  lemma {:induction false} TraceSame(f: File, st: State, sm: Sm, st2: State, sm2: Sm)
    requires |f.kinds| == |st.vals| == |st2.vals| && st.pos <= |f.s| && st2.pos <= |f.s|
    requires SmStep(f, st, sm) == SmStep(f, st2, sm2)
    ensures Trace(f, st, sm) == Trace(f, st2, sm2)
  {
  }

  lemma {:induction false} TraceSees(f: File, st: State, sm: Sm, code: int, next: State, sm2: Sm)
    requires |f.kinds| == |st.vals| == |next.vals| && st.pos <= |f.s| && next.pos <= |f.s| && code >= 0
    requires SmStep(f, st, sm) == SmRet(code, next, sm2)
    ensures Trace(f, st, sm) == [Seen(next.snapTime, next.vals)] + Trace(f, next, sm2)
  {
  }

  // ---- a cycle ----

  lemma {:induction false} InCycleStep(f: File, st: State, st1: State, st2: State)
    requires |f.kinds| == |st.vals| == |st1.vals| == |st2.vals| && st.pos <= |f.s|
    requires CycleNext(f, st) == Ret(1, st1) && CycleCont(f, st1, 0) == Ret(OK, st2)
    ensures SmStep(f, st, InCycle) == SmRet(RES_CYCLE, st2, InCycle)
  {
  }

  lemma {:induction false} InCycleEnd(f: File, st: State, st1: State, st2: State)
    requires |f.kinds| == |st.vals| == |st1.vals| == |st2.vals| && st.pos <= |f.s| && st2.pos <= |f.s|
    requires CycleNext(f, st) == Ret(0, st1) && Expect(f, st1, ECY) == Ret(OK, st2)
    ensures SmStep(f, st, InCycle) == SmStep(f, st2, Sect)
  {
  }

  /** Every step of a cycle is seen, and then what comes after the cycle. */
  lemma {:induction false} StepsSeen(f: File, st: State, steps: seq<Step>, end: nat, after: seq<Seen>)
    requires |st.vals| == |f.kinds| < TWO32 && StepsFit(f.kinds, steps) && st.pos <= |f.s|
    requires At(f.s, st.pos, StepsBytes(f.kinds, steps)) && end == st.pos + |StepsBytes(f.kinds, steps)| <= |f.s|
    requires after == Trace(f, State(end, Clocked(st.snapTime, steps), Stepped(st.vals, steps)), Sect)
    ensures Trace(f, st, InCycle) == StepsTold(st.snapTime, st.vals, steps) + after
    decreases |steps|, 0
  {
    if steps == [] {
      NoStepSeen(f, st, end);
      assert [] + after == after;
    } else {
      var now, news, told := FirstTold(st.snapTime, st.vals, steps);
      StepIsAt(f, st.pos, steps, end);
      StepSeenOn(f, st, steps[0].diff, steps[0].changes, steps[1..], end, now, news, told, after);
    }
  }

  lemma {:induction false} FirstTold(time: int, vals: seq<Value>, steps: seq<Step>)
      returns (now: int, news: seq<Value>, told: seq<Seen>)
    requires steps != []
    ensures now == Wrapped(time + steps[0].diff, TWO64) && news == Changed(vals, steps[0].changes)
    ensures told == StepsTold(now, news, steps[1..]) && StepsTold(time, vals, steps) == [Seen(now, news)] + told
    ensures Clocked(time, steps) == Clocked(now, steps[1..]) && Stepped(vals, steps) == Stepped(news, steps[1..])
  {
    now, news := Wrapped(time + steps[0].diff, TWO64), Changed(vals, steps[0].changes);
    told := StepsTold(now, news, steps[1..]);
  }

  lemma {:induction false} NoStepSeen(f: File, st: State, end: nat)
    requires |st.vals| == |f.kinds| && st.pos <= |f.s|
    requires At(f.s, st.pos, SVarint(-1) + ECY) && end == st.pos + |SVarint(-1)| + 4
    ensures end <= |f.s| && Trace(f, st, InCycle) == Trace(f, st.(pos := end), Sect)
  {
    CycleEnds(f, st, SVarint(-1), end);
    InCycleEnd(f, st, st.(pos := end - 4), st.(pos := end));
    TraceSame(f, st, InCycle, st.(pos := end), Sect);
  }

  lemma {:induction false} SeenFirst(a: Seen, b: seq<Seen>, c: seq<Seen>)
    ensures [a] + (b + c) == ([a] + b) + c
  {
  }

  lemma {:induction false} StepSeenOn(f: File, st: State, diff: int, changes: seq<Change>, more: seq<Step>,
                                      end: nat, now: int, news: seq<Value>, told: seq<Seen>, after: seq<Seen>)
    requires |st.vals| == |f.kinds| < TWO32 && st.pos <= |f.s| && StepAt(f, st.pos, diff, changes, more, end)
             && end <= |f.s|
    requires now == Wrapped(st.snapTime + diff, TWO64) && news == Changed(st.vals, changes)
    requires told == StepsTold(now, news, more)
    requires after == Trace(f, State(end, Clocked(now, more), Stepped(news, more)), Sect)
    ensures Trace(f, st, InCycle) == ([Seen(now, news)] + told) + after
    decreases |more|, 1
  {
    var st1, st2 := OneStepReads(f, st, diff, changes, ChangesBytes(f.kinds, 0, changes), StepsBytes(f.kinds, more),
                                 end);
    InCycleStep(f, st, st1, st2);
    TraceSees(f, st, InCycle, RES_CYCLE, st2, InCycle);
    StepsSeen(f, st2, more, end, after);
    SeenFirst(Seen(now, news), told, after);
  }

  // ---- a section ----

  lemma {:induction false} SnapSeen(f: File, st: State, sm: Sm, time: int, vals: seq<Value>, next: State)
    requires |st.vals| == |f.kinds| && FitAll(f.kinds, vals) && Int64(time) && st.pos <= |f.s| && !sm.InCycle?
    requires At(f.s, st.pos, SNP + SnapshotBytes(f.kinds, f.be, time, vals))
    requires next == State(st.pos + 4 + |SnapshotBytes(f.kinds, f.be, time, vals)|, TimeRead(time),
                           Updated(f.kinds, st.vals, vals, 0))
    ensures next.pos <= |f.s|
    ensures Trace(f, st, sm) == [Seen(next.snapTime, next.vals)] + Trace(f, next, Sect)
  {
    HeaderIs(f.s, st.pos, SNP, SnapshotBytes(f.kinds, f.be, time, vals));
    SnapshotReads(f, st.(pos := st.pos + 4), time, vals, next.pos);
    assert SmHdr(f, st) == Ret(RES_SNAPSHOT, next);
    HdrStep(f, st, sm, RES_SNAPSHOT, next);
    TraceSees(f, st, sm, RES_SNAPSHOT, next, Sect);
  }

  lemma {:induction false} CycSeen(f: File, st: State, sm: Sm, time: int, changes: seq<Change>, steps: seq<Step>,
                                   end: nat, after: seq<Seen>)
    requires |st.vals| == |f.kinds| < TWO32 && Int64(time) && Rising(f.kinds, 0, changes) && StepsFit(f.kinds, steps)
    requires st.pos <= |f.s| && !sm.InCycle? && At(f.s, st.pos, CYC + CycleBytes(f.kinds, f.be, time, changes, steps))
    requires end == st.pos + 4 + |CycleBytes(f.kinds, f.be, time, changes, steps)| <= |f.s|
    requires after == Trace(f, State(end, Clocked(TimeRead(time), steps), Stepped(Changed(st.vals, changes), steps)),
                            Sect)
    ensures Trace(f, st, sm)
            == ([Seen(TimeRead(time), Changed(st.vals, changes))]
                + StepsTold(TimeRead(time), Changed(st.vals, changes), steps)) + after
  {
    var changed, rest := ChangesBytes(f.kinds, 0, changes), StepsBytes(f.kinds, steps);
    var in_ := st.(pos := st.pos + 4);
    var st1 := State(st.pos + 12, TimeRead(time), st.vals);
    var st2 := State(end - |rest|, st1.snapTime, Changed(st.vals, changes));
    HeaderIs(f.s, st.pos, CYC, CycleBytes(f.kinds, f.be, time, changes, steps));
    AtSplit(f.s, in_.pos, TimeBytes(time, f.be), changed + rest);
    StartReads(f, in_, time, st1);
    CycleFirst(f, in_, changes, changed, rest, st1, st2);
    CycHdr(f, st, in_, st1, st2);
    HdrStep(f, st, sm, RES_CYCLE, st2);
    TraceSees(f, st, sm, RES_CYCLE, st2, InCycle);
    StepsSeen(f, st2, steps, end, after);
    SeenFirst(Seen(st2.snapTime, st2.vals), StepsTold(st2.snapTime, st2.vals, steps), after);
  }

  lemma {:induction false} CycHdr(f: File, st: State, in_: State, st1: State, st2: State)
    requires |f.kinds| == |st.vals| == |st1.vals| == |st2.vals| && st.pos + 4 <= |f.s| && in_ == st.(pos := st.pos + 4)
    requires f.s[st.pos..st.pos + 4] == CYC && CycleStart(f, in_) == Ret(OK, st1)
             && CycleCont(f, st1, 0) == Ret(OK, st2)
    ensures SmHdr(f, st) == Ret(RES_CYCLE, st2)
  {
  }

  lemma {:induction false} OtherSeen(f: File, st: State, sm: Sm, sec: Section, end: nat)
    requires |st.vals| == |f.kinds| < TWO32 && Proper(f.kinds, sec) && (sec.Dir? || sec.Tail?) && !sm.InCycle?
    requires st.pos <= |f.s| && At(f.s, st.pos, SectionBytes(f.kinds, f.be, sec))
    requires end == st.pos + |SectionBytes(f.kinds, f.be, sec)|
    ensures end <= |f.s| && Trace(f, st, sm) == Trace(f, st.(pos := end), sm)
  {
    match sec {
      case Dir(order, entries) =>
        HeaderIs(f.s, st.pos, DIR, DirectoryBytes(f.be, order, entries));
        DirectoryReads(f, st.(pos := st.pos + 4), order, entries);
      case Tail(bytes) =>
        HeaderIs(f.s, st.pos, TAI, bytes);
      case Snap(_, _) =>
      case Cyc(_, _, _) =>
    }
    assert SmHdr(f, st) == Ret(RES_OTHER, st.(pos := end));
    HdrStep(f, st, sm, RES_OTHER, st.(pos := end));
    TraceSame(f, st, sm, st.(pos := end), sm);
  }

  // ---- the file ----

  /** Everything the sections tell is seen, in order, and nothing else. */
  lemma {:induction false} FileSeen(f: File, st: State, sm: Sm, secs: seq<Section>)
    requires |st.vals| == |f.kinds| < TWO32 && AllProper(f.kinds, secs) && st.pos <= |f.s| && !sm.InCycle?
    requires At(f.s, st.pos, FileBytes(f.kinds, f.be, secs)) && st.pos + |FileBytes(f.kinds, f.be, secs)| == |f.s|
    ensures Trace(f, st, sm) == FileTold(f.kinds, st.vals, secs)
    decreases |secs|, 0
  {
    if secs == [] {
      HdrStep(f, st, sm, RES_EOF, Ended(f, st));
    } else {
      FileSeenOn(f, st, sm, secs[0], secs[1..], SectionBytes(f.kinds, f.be, secs[0]),
                 FileBytes(f.kinds, f.be, secs[1..]));
    }
  }

  lemma {:induction false} FileSeenOn(f: File, st: State, sm: Sm, sec: Section, more: seq<Section>, first: seq<byte>,
                                      rest: seq<byte>)
    requires |st.vals| == |f.kinds| < TWO32 && Proper(f.kinds, sec) && AllProper(f.kinds, more) && st.pos <= |f.s|
    requires first == SectionBytes(f.kinds, f.be, sec) && rest == FileBytes(f.kinds, f.be, more) && !sm.InCycle?
    requires At(f.s, st.pos, first + rest) && st.pos + |first| + |rest| == |f.s|
    ensures Trace(f, st, sm)
            == SectionTold(f.kinds, st.vals, sec) + FileTold(f.kinds, ValuesAfter(f.kinds, st.vals, sec), more)
    decreases |more|, 1
  {
    var next := State(st.pos + |first|, TimeAfter(st.snapTime, sec), ValuesAfter(f.kinds, st.vals, sec));
    AtSplit(f.s, st.pos, first, rest);
    FileSeen(f, next, if sec.Dir? || sec.Tail? then sm else Sect, more);
    match sec
    case Snap(time, vals) =>
      SnapSeen(f, st, sm, time, vals, next);
    case Cyc(time, changes, steps) =>
      CycSeen(f, st, sm, time, changes, steps, next.pos, Trace(f, next, Sect));
    case Dir(_, _) =>
      OtherSeen(f, st, sm, sec, next.pos);
      assert [] + FileTold(f.kinds, st.vals, more) == FileTold(f.kinds, st.vals, more);
    case Tail(_) =>
      OtherSeen(f, st, sm, sec, next.pos);
      assert [] + FileTold(f.kinds, st.vals, more) == FileTold(f.kinds, st.vals, more);
  }

  /** The main loop of ghwdump: what it shows before the end of the file. */
  method Watch(h: Handler) returns (seen: seq<Seen>, code: int)
    requires h.Valid() && Dump(h.f, h.St()) != Wild
    modifies h
    ensures h.Valid() && seen == old(Trace(h.f, h.St(), Init)) && Ret(code, h.St()) == AsPulled(old(Dump(h.f, h.St())))
  {
    PullIsDump(h.f, h.St(), Init);
    var sm := Init;
    seen := [];
    while true
      invariant h.Valid() && Pull(h.f, h.St(), sm) == old(Pull(h.f, h.St(), Init))
      invariant seen + Trace(h.f, h.St(), sm) == old(Trace(h.f, h.St(), Init))
      decreases |h.f.s| - h.pos
    {
      ghost var st, rest := h.St(), Trace(h.f, h.St(), sm);
      code, sm := h.ReadSm(sm);
      if code < 0 {
        assert rest == [];
        return;
      }
      SeenNext(seen, Seen(h.snapTime, h.vals), Trace(h.f, h.St(), sm));
      seen := seen + [Seen(h.snapTime, h.vals)];
    }
  }

  lemma {:induction false} SeenNext(a: seq<Seen>, b: Seen, c: seq<Seen>)
    ensures a + ([b] + c) == (a + [b]) + c
  {
  }
}
