/** GHW files in the making: what is in a file so far, a cycle section at its end that is still open
    included, and what it tells a reader. */
module GhwStory {
  import opened Bytes
  import opened Leb128
  import opened GhwLeb
  import opened GhwStream
  import opened GhwFormat
  import opened GhwTrace

  // ---- values ----

  /** How the simulator holds a value. */
  datatype Mode = ModeB1 | ModeE8 | ModeE32 | ModeI32 | ModeI64 | ModeF64

  function ModeOf(b: Basic): Mode {
    match b
    case B2 => ModeB1
    case E8 => ModeE8
    case E32 => ModeE32
    case I32 => ModeI32
    case P32 => ModeI32
    case I64 => ModeI64
    case P64 => ModeI64
    case F64 => ModeF64
  }

  predicate Holds(mode: Mode, v: Value) {
    match mode
    case ModeB1 => v.Small?
    case ModeE8 => v.Small?
    case ModeE32 => v.Number? && 0 <= v.v < TWO32
    case ModeI32 => v.Number? && -0x8000_0000 <= v.v < 0x8000_0000
    case ModeI64 => v.Number? && Int64(v.v)
    case ModeF64 => v.Real? && |v.bytes| == 8
  }

  /** The reader takes the values of these types; on others it aborts. */
  predicate Readable(b: Basic) {
    !b.E32? && !b.I64?
  }

  lemma {:induction false} AbortsIff(f: File, st: State, i: nat, b: Basic)
    requires i < |f.kinds| == |st.vals| && f.kinds[i] == Typed(b) && Has(f, st, 8) && f.s[st.pos] < 128
    ensures SignalValue(f, st, i) == Wild <==> !Readable(b)
  {
  }

  /** The type a reader gives a signal fits the values the writer puts out for it. */
  lemma {:induction false} ModeFits(b: Basic, v: Value)
    ensures Readable(b) && Holds(ModeOf(b), v) ==> Fits(Typed(b), v)
  {
  }

  /** The reader's types: signal 0 does not exist, and those from `|basics| + 1` on are not in the file. */
  function KindsOf(basics: seq<Basic>, spare: nat): (kinds: seq<Kind>)
    ensures |kinds| == 1 + |basics| + spare && kinds[0].NoType?
    ensures forall i :: 0 <= i < |basics| ==> kinds[i + 1] == Typed(basics[i])
    ensures forall i :: 1 + |basics| <= i < |kinds| ==> kinds[i].NoType?
  {
    [NoType] + seq(|basics|, i requires 0 <= i < |basics| => Typed(basics[i])) + seq(spare, _ => NoType)
  }

  /** What the reader should have: nothing for the signals that are not there. */
  function Shown(vals: seq<Value>, spare: nat): (r: seq<Value>)
    ensures |r| == 1 + |vals| + spare
  {
    [Unset] + vals + seq(spare, _ => Unset)
  }

  lemma {:induction false} ShownIs(vals: seq<Value>, spare: nat, i: nat)
    requires i < 1 + |vals| + spare
    ensures Shown(vals, spare)[i] == if 0 < i <= |vals| then vals[i - 1] else Unset
  {
  }

  ghost predicate AllHold(basics: seq<Basic>, vals: seq<Value>) {
    |vals| == |basics|
    && forall i {:trigger vals[i]} :: 0 <= i < |basics| ==> Readable(basics[i]) && Holds(ModeOf(basics[i]), vals[i])
  }

  // ---- what is put out ----

  /** The signals from `i` on that have an event, with their values. */
  function EventsFrom(vals: seq<Value>, events: seq<bool>, i: nat): (changes: seq<Change>)
    requires |events| == |vals| && i <= |vals|
    decreases |vals| - i
  {
    if i == |vals| then []
    else if events[i] then [Change(i + 1, vals[i])] + EventsFrom(vals, events, i + 1)
    else EventsFrom(vals, events, i + 1)
  }

  lemma {:induction false} KindUsed(basics: seq<Basic>, spare: nat, vals: seq<Value>, i: nat)
    requires AllHold(basics, vals) && i < |basics|
    ensures KindsOf(basics, spare)[i + 1] == Typed(basics[i])
    ensures !KindsOf(basics, spare)[i + 1].NoType? && Fits(KindsOf(basics, spare)[i + 1], vals[i])
  {
    assert Holds(ModeOf(basics[i]), vals[i]);
    ModeFits(basics[i], vals[i]);
  }

  lemma {:induction false} AllUsed(basics: seq<Basic>, spare: nat, vals: seq<Value>, i: nat, j: nat)
    requires i <= j <= |basics| && AllHold(basics, vals)
    ensures UsedBetween(KindsOf(basics, spare), i, j) == j - i
  {
    if i < j {
      AllUsed(basics, spare, vals, i, j - 1);
      KindUsed(basics, spare, vals, j - 1);
    }
  }

  lemma {:induction false} EventsRise(basics: seq<Basic>, spare: nat, vals: seq<Value>, events: seq<bool>, i: nat,
                                      last: nat)
    requires AllHold(basics, vals) && |events| == |vals| && last <= i <= |vals|
    ensures Rising(KindsOf(basics, spare), last, EventsFrom(vals, events, i))
    decreases |vals| - i
  {
    if i < |vals| {
      EventsRise(basics, spare, vals, events, i + 1, if events[i] then i + 1 else last);
      if events[i] {
        KindUsed(basics, spare, vals, i);
        assert EventsFrom(vals, events, i)[1..] == EventsFrom(vals, events, i + 1);
      }
    }
  }

  /** The values that have an event are the only ones that differ from those in the file. */
  ghost predicate Marked(known: seq<Value>, vals: seq<Value>, events: seq<bool>) {
    |known| == |vals| == |events| && forall i :: 0 <= i < |vals| && !events[i] ==> vals[i] == known[i]
  }

  lemma {:induction false} EventsChange(known: seq<Value>, vals: seq<Value>, events: seq<bool>, spare: nat, i: nat)
    requires Marked(known, vals, events) && i <= |vals| && forall k :: 0 <= k < i ==> known[k] == vals[k]
    ensures Changed(Shown(known, spare), EventsFrom(vals, events, i)) == Shown(vals, spare)
    decreases |vals| - i
  {
    if i == |vals| {
      assert known == vals;
    } else {
      var next := known[i := vals[i]];
      EventsChange(next, vals, events, spare, i + 1);
      if events[i] {
        assert EventsFrom(vals, events, i)[1..] == EventsFrom(vals, events, i + 1);
        assert Shown(known, spare)[i + 1 := vals[i]] == Shown(next, spare);
      } else {
        assert next == known;
      }
    }
  }

  /** The steps of a cycle section that is not closed yet. */
  function OpenSteps(kinds: seq<Kind>, steps: seq<Step>): (bytes: seq<byte>)
    requires StepsFit(kinds, steps)
  {
    if steps == [] then []
    else
      var last := steps[|steps| - 1];
      OpenSteps(kinds, steps[..|steps| - 1]) + (SVarint(last.diff) + ChangesBytes(kinds, 0, last.changes))
  }

  lemma {:induction false} OpenThen(kinds: seq<Kind>, steps: seq<Step>, step: Step)
    requires StepsFit(kinds, steps) && Int64(step.diff) && step.diff != -1 && Rising(kinds, 0, step.changes)
    ensures StepsFit(kinds, steps + [step])
    ensures OpenSteps(kinds, steps + [step])
            == OpenSteps(kinds, steps) + (SVarint(step.diff) + ChangesBytes(kinds, 0, step.changes))
  {
    assert (steps + [step])[..|steps|] == steps;
  }

  lemma {:induction false} StepsFirst(kinds: seq<Kind>, first: Step, more: seq<Step>, steps: seq<Step>)
    requires Int64(first.diff) && first.diff != -1 && Rising(kinds, 0, first.changes)
    requires StepsFit(kinds, more) && steps == [first] + more
    ensures StepsFit(kinds, steps)
    ensures StepsBytes(kinds, steps)
            == SVarint(first.diff) + (ChangesBytes(kinds, 0, first.changes) + StepsBytes(kinds, more))
  {
    assert steps[1..] == more;
  }

  lemma {:induction false} StepsClosed(kinds: seq<Kind>, steps: seq<Step>, more: seq<Step>, all: seq<Step>)
    requires StepsFit(kinds, steps) && StepsFit(kinds, more) && all == steps + more
    ensures StepsFit(kinds, all) && OpenSteps(kinds, steps) + StepsBytes(kinds, more) == StepsBytes(kinds, all)
    decreases |steps|
  {
    if steps == [] {
      assert all == more;
    } else {
      var n := |steps| - 1;
      assert all == steps[..n] + ([steps[n]] + more);
      StepsFirst(kinds, steps[n], more, [steps[n]] + more);
      StepsClosed(kinds, steps[..n], [steps[n]] + more, all);
      Regroup(OpenSteps(kinds, steps[..n]), SVarint(steps[n].diff), ChangesBytes(kinds, 0, steps[n].changes),
              StepsBytes(kinds, more));
    }
  }

  lemma {:induction false} Regroup(a: seq<byte>, b: seq<byte>, c: seq<byte>, d: seq<byte>)
    ensures a + (b + c) + d == a + (b + (c + d))
  {
  }

  /** The cycle section that is being written, if there is one. */
  datatype Open = None | Some(time: int, changes: seq<Change>, steps: seq<Step>)

  ghost predicate OpenFits(kinds: seq<Kind>, o: Open) {
    o.Some? ==> Int64(o.time) && Rising(kinds, 0, o.changes) && StepsFit(kinds, o.steps)
  }

  function OpenBytes(kinds: seq<Kind>, be: bool, o: Open): (bytes: seq<byte>)
    requires OpenFits(kinds, o)
  {
    match o
    case None => []
    case Some(time, changes, steps) =>
      CYC + (TimeBytes(time, be) + (ChangesBytes(kinds, 0, changes) + OpenSteps(kinds, steps)))
  }

  /** The section once it is closed. */
  lemma {:induction false} OpenCloses(kinds: seq<Kind>, be: bool, o: Open)
    requires OpenFits(kinds, o) && o.Some?
    ensures OpenBytes(kinds, be, o) + (SVarint(-1) + ECY) == SectionBytes(kinds, be, Cyc(o.time, o.changes, o.steps))
  {
    var end := SVarint(-1) + ECY;
    StepsClosed(kinds, o.steps, [], o.steps);
    Regroups(CYC, TimeBytes(o.time, be), ChangesBytes(kinds, 0, o.changes), OpenSteps(kinds, o.steps), end);
  }

  lemma {:induction false} Regroups(a: seq<byte>, b: seq<byte>, c: seq<byte>, d: seq<byte>, e: seq<byte>)
    ensures a + (b + (c + d)) + e == a + (b + (c + (d + e)))
  {
  }

  lemma {:induction false} ProperThen(kinds: seq<Kind>, secs: seq<Section>, sec: Section)
    requires AllProper(kinds, secs) && Proper(kinds, sec)
    ensures AllProper(kinds, secs + [sec])
  {
  }

  lemma {:induction false} FileThen(kinds: seq<Kind>, be: bool, secs: seq<Section>, sec: Section, all: seq<Section>)
    requires AllProper(kinds, secs) && Proper(kinds, sec) && all == secs + [sec] && AllProper(kinds, all)
    ensures FileBytes(kinds, be, all) == FileBytes(kinds, be, secs) + SectionBytes(kinds, be, sec)
    decreases |secs|
  {
    if secs == [] {
      FileOfOne(kinds, be, sec);
    } else {
      FileThen(kinds, be, secs[1..], sec, all[1..]);
      FileOfMore(kinds, be, secs[0], secs[1..], all[1..], secs, all);
      Moved(SectionBytes(kinds, be, secs[0]), FileBytes(kinds, be, secs[1..]), SectionBytes(kinds, be, sec));
    }
  }

  lemma {:induction false} FileOfOne(kinds: seq<Kind>, be: bool, sec: Section)
    requires Proper(kinds, sec)
    ensures [] + [sec] == [sec] && AllProper(kinds, [sec])
    ensures FileBytes(kinds, be, [sec]) == FileBytes(kinds, be, []) + SectionBytes(kinds, be, sec)
  {
    assert [sec][1..] == [];
    assert SectionBytes(kinds, be, sec) + [] == [] + SectionBytes(kinds, be, sec);
  }

  lemma {:induction false} FileOfMore(kinds: seq<Kind>, be: bool, first: Section, some: seq<Section>,
                                      more: seq<Section>, a: seq<Section>, b: seq<Section>)
    requires Proper(kinds, first) && AllProper(kinds, some) && AllProper(kinds, more)
    requires a == [first] + some && b == [first] + more
    ensures AllProper(kinds, a) && AllProper(kinds, b)
    ensures FileBytes(kinds, be, a) == SectionBytes(kinds, be, first) + FileBytes(kinds, be, some)
    ensures FileBytes(kinds, be, b) == SectionBytes(kinds, be, first) + FileBytes(kinds, be, more)
  {
    assert a[1..] == some && b[1..] == more;
  }

  lemma {:induction false} ValuesThen(kinds: seq<Kind>, vals: seq<Value>, time: int, secs: seq<Section>, sec: Section)
    requires |vals| == |kinds| && AllProper(kinds, secs) && Proper(kinds, sec)
    ensures AllProper(kinds, secs + [sec])
    ensures FileValues(kinds, vals, secs + [sec]) == ValuesAfter(kinds, FileValues(kinds, vals, secs), sec)
    ensures FileTime(time, secs + [sec]) == TimeAfter(FileTime(time, secs), sec)
    decreases |secs|
  {
    if secs == [] {
      assert [] + [sec] == [sec] && [sec][1..] == [];
    } else {
      ValuesThen(kinds, ValuesAfter(kinds, vals, secs[0]), TimeAfter(time, secs[0]), secs[1..], sec);
      assert (secs + [sec])[1..] == secs[1..] + [sec];
    }
  }

  // ---- the bytes of a step ----

  /** A byte, a number in LEB128, or eight bytes. */
  function ModeBytes(mode: Mode, v: Value): (bytes: seq<byte>)
    requires Holds(mode, v)
  {
    if mode.ModeE32? then Varint(v.v) else ValueBytes(v)
  }

  lemma {:induction false} SpareUnused(basics: seq<Basic>, spare: nat, vals: seq<Value>, i: nat)
    requires |vals| == |basics| < i <= 1 + |basics| + spare
    ensures UsedBytes(KindsOf(basics, spare), Shown(vals, spare), i) == []
    decreases 1 + |basics| + spare - i
  {
    if i < 1 + |basics| + spare {
      SpareUnused(basics, spare, vals, i + 1);
    }
  }

  lemma {:induction false} NextUsed(basics: seq<Basic>, spare: nat, vals: seq<Value>, i: nat)
    requires AllHold(basics, vals) && i < |basics|
    ensures UsedBytes(KindsOf(basics, spare), Shown(vals, spare), i + 1)
            == ModeBytes(ModeOf(basics[i]), vals[i]) + UsedBytes(KindsOf(basics, spare), Shown(vals, spare), i + 2)
  {
    ModeFits(basics[i], vals[i]);
    assert KindsOf(basics, spare)[i + 1] == Typed(basics[i]) && Shown(vals, spare)[i + 1] == vals[i];
  }

  lemma {:induction false} FirstUnused(basics: seq<Basic>, spare: nat, vals: seq<Value>)
    requires |vals| == |basics|
    ensures UsedBytes(KindsOf(basics, spare), Shown(vals, spare), 0)
            == UsedBytes(KindsOf(basics, spare), Shown(vals, spare), 1)
  {
    assert [] + UsedBytes(KindsOf(basics, spare), Shown(vals, spare), 1)
           == UsedBytes(KindsOf(basics, spare), Shown(vals, spare), 1);
  }

  /** One signal of a step. */
  lemma {:induction false} EventBytes(basics: seq<Basic>, spare: nat, vals: seq<Value>, events: seq<bool>, i: nat,
                                      last: nat)
    requires AllHold(basics, vals) && |events| == |vals| && last <= i < |vals|
    requires Rising(KindsOf(basics, spare), last, EventsFrom(vals, events, i))
    ensures events[i] ==>
              Rising(KindsOf(basics, spare), i + 1, EventsFrom(vals, events, i + 1))
              && ChangesBytes(KindsOf(basics, spare), last, EventsFrom(vals, events, i))
                 == Varint(i + 1 - last) + (ModeBytes(ModeOf(basics[i]), vals[i])
                                            + ChangesBytes(KindsOf(basics, spare), i + 1,
                                                           EventsFrom(vals, events, i + 1)))
    ensures !events[i] ==> EventsFrom(vals, events, i) == EventsFrom(vals, events, i + 1)
  {
    if events[i] {
      AllUsed(basics, spare, vals, last, i + 1);
      ModeFits(basics[i], vals[i]);
      assert EventsFrom(vals, events, i)[1..] == EventsFrom(vals, events, i + 1);
    }
  }

  lemma {:induction false} Moves(a: seq<byte>, b: seq<byte>, c: seq<byte>, d: seq<byte>)
    ensures a + (b + (c + d)) == ((a + b) + c) + d
  {
  }

  lemma {:induction false} Moved(a: seq<byte>, b: seq<byte>, c: seq<byte>)
    ensures a + (b + c) == (a + b) + c
  {
  }

  /** What a file says so far: the finished sections and the open one; the values and the time a reader
      has after it, and all that it has seen. */
  datatype Told = Told(done: seq<Section>, open: Open, known: seq<Value>, shown: int, story: seq<Seen>)

  ghost predicate Filed(kinds: seq<Kind>, be: bool, spare: nat, head: seq<byte>, out: seq<byte>, t: Told, now: int) {
    AllProper(kinds, t.done) && OpenFits(kinds, t.open)
    && out == head + (FileBytes(kinds, be, t.done) + OpenBytes(kinds, be, t.open)) && Tells(kinds, spare, t, now)
  }

  ghost predicate Tells(kinds: seq<Kind>, spare: nat, t: Told, now: int)
    requires AllProper(kinds, t.done) && OpenFits(kinds, t.open)
  {
    |kinds| == 1 + |t.known| + spare
    && var none := seq(|kinds|, _ => Unset);
    var vals, seen := FileValues(kinds, none, t.done), FileTold(kinds, none, t.done);
    match t.open
    case None => vals == Shown(t.known, spare) && FileTime(0, t.done) == t.shown && seen == t.story
    case Some(first, changes, steps) =>
      StepsTell(Changed(vals, changes), TimeRead(first), steps, Shown(t.known, spare), t.shown, seen, t.story)
      && -0x8000_0000 <= t.shown <= now && Int64(now)
  }

  /** What a cycle section tells with its first values and time and these steps. */
  ghost predicate StepsTell(base: seq<Value>, first: int, steps: seq<Step>, vals: seq<Value>, shown: int,
                            seen: seq<Seen>, story: seq<Seen>)
  {
    Stepped(base, steps) == vals && Clocked(first, steps) == shown
    && seen + ([Seen(first, base)] + StepsTold(first, base, steps)) == story
  }

  // ---- one more step ----

  lemma {:induction false} SteppedThen(vals: seq<Value>, time: int, steps: seq<Step>, step: Step)
    ensures Stepped(vals, steps + [step]) == Changed(Stepped(vals, steps), step.changes)
    ensures Clocked(time, steps + [step]) == Wrapped(Clocked(time, steps) + step.diff, TWO64)
    ensures StepsTold(time, vals, steps + [step])
            == StepsTold(time, vals, steps)
               + [Seen(Clocked(time, steps + [step]), Stepped(vals, steps + [step]))]
    decreases |steps|
  {
    if steps == [] {
      assert [] + [step] == [step] && [step][1..] == [];
    } else {
      var now, news := Wrapped(time + steps[0].diff, TWO64), Changed(vals, steps[0].changes);
      SteppedThen(news, now, steps[1..], step);
      assert (steps + [step])[1..] == steps[1..] + [step];
      SeenFirst(Seen(now, news), StepsTold(now, news, steps[1..]),
                [Seen(Clocked(now, steps[1..] + [step]), Stepped(news, steps[1..] + [step]))]);
    }
  }

  lemma {:induction false} StoryGrows(seen: seq<Seen>, first: Seen, some: seq<Seen>, next: Seen)
    ensures seen + ([first] + (some + [next])) == (seen + ([first] + some)) + [next]
  {
  }

  lemma {:induction false} StepTold(base: seq<Value>, first: int, steps: seq<Step>, known: seq<Value>, vals: seq<Value>,
                                    events: seq<bool>, spare: nat, shown: int, seen: seq<Seen>, story: seq<Seen>,
                                    now: nat, later: nat, step: Step, more: seq<Step>, shown2: int, story2: seq<Seen>)
    requires Marked(known, vals, events) && now <= later && Int64(later) && more == steps + [step]
    requires step == Step(later - now, EventsFrom(vals, events, 0)) && -0x8000_0000 <= shown <= now
    requires StepsTell(base, first, steps, Shown(known, spare), shown, seen, story)
    requires shown2 == shown + (later - now) && story2 == story + [Seen(shown2, Shown(vals, spare))]
    ensures StepsTell(base, first, more, Shown(vals, spare), shown2, seen, story2)
  {
    EventsChange(known, vals, events, spare, 0);
    SteppedThen(base, first, steps, step);
    WrappedStays(shown2, TWO64);
    StoryGrows(seen, Seen(first, base), StepsTold(first, base, steps), Seen(shown2, Shown(vals, spare)));
  }

  /** The time a reader has after a step at `now`, or after the first time of a section. */
  function ShownAt(t: Told, was: int, now: int): int {
    if t.open.None? then TimeRead(now) else t.shown + (now - was)
  }

  function OpenAt(o: Open, was: int, now: int, changes: seq<Change>): Open {
    match o
    case None => Some(now, changes, [])
    case Some(time, first, steps) => Some(time, first, steps + [Step(now - was, changes)])
  }

  /** What is told with one more step. */
  function ToldAt(t: Told, was: int, now: int, vals: seq<Value>, changes: seq<Change>, spare: nat): Told {
    Told(t.done, OpenAt(t.open, was, now, changes), vals, ShownAt(t, was, now),
         t.story + [Seen(ShownAt(t, was, now), Shown(vals, spare))])
  }

  lemma {:induction false} ShownRange(t: nat)
    requires Int64(t)
    ensures -0x8000_0000 <= TimeRead(t) <= t
  {
  }

  lemma {:induction false} CycleBegins(basics: seq<Basic>, spare: nat, t: Told, vals: seq<Value>,
                                       events: seq<bool>, was: int, now: nat, t2: Told)
    requires AllHold(basics, vals) && Marked(t.known, vals, events) && Int64(now) && t.open.None?
    requires AllProper(KindsOf(basics, spare), t.done) && Tells(KindsOf(basics, spare), spare, t, was)
    requires t2 == ToldAt(t, was, now, vals, EventsFrom(vals, events, 0), spare)
    ensures OpenFits(KindsOf(basics, spare), t2.open) && Tells(KindsOf(basics, spare), spare, t2, now)
  {
    EventsRise(basics, spare, vals, events, 0, 0);
    EventsChange(t.known, vals, events, spare, 0);
    ShownRange(now);
  }

  lemma {:induction false} CycleGoes(basics: seq<Basic>, spare: nat, t: Told, vals: seq<Value>, events: seq<bool>,
                                     was: nat, now: nat, t2: Told)
    requires AllHold(basics, vals) && Marked(t.known, vals, events) && Int64(now) && t.open.Some? && was <= now
    requires AllProper(KindsOf(basics, spare), t.done) && OpenFits(KindsOf(basics, spare), t.open)
    requires Tells(KindsOf(basics, spare), spare, t, was)
    requires Rising(KindsOf(basics, spare), 0, EventsFrom(vals, events, 0))
    requires t2 == ToldAt(t, was, now, vals, EventsFrom(vals, events, 0), spare)
    ensures OpenFits(KindsOf(basics, spare), t2.open) && Tells(KindsOf(basics, spare), spare, t2, now)
  {
    OpenThen(KindsOf(basics, spare), t.open.steps, Step(now - was, EventsFrom(vals, events, 0)));
    TellsNext(KindsOf(basics, spare), t, vals, events, spare, was, now, Step(now - was, EventsFrom(vals, events, 0)),
              t2);
  }

  lemma {:induction false} TellsNext(kinds: seq<Kind>, t: Told, vals: seq<Value>, events: seq<bool>, spare: nat,
                                     was: nat, now: nat, step: Step, t2: Told)
    requires Marked(t.known, vals, events) && Int64(now) && t.open.Some? && was <= now && AllProper(kinds, t.done)
    requires OpenFits(kinds, t.open) && OpenFits(kinds, t2.open) && Tells(kinds, spare, t, was)
    requires step == Step(now - was, EventsFrom(vals, events, 0)) && t2.done == t.done && t2.known == vals
    requires t2.open == Some(t.open.time, t.open.changes, t.open.steps + [step]) && t2.shown == t.shown + (now - was)
    requires t2.story == t.story + [Seen(t2.shown, Shown(vals, spare))]
    ensures Tells(kinds, spare, t2, now)
  {
    var none := seq(|kinds|, _ => Unset);
    StepTold(Changed(FileValues(kinds, none, t.done), t.open.changes), TimeRead(t.open.time), t.open.steps, t.known,
             vals, events, spare, t.shown, FileTold(kinds, none, t.done), t.story, was, now, step, t2.open.steps,
             t2.shown, t2.story);
  }

  /** What a step starts with. */
  function StepHead(inCyc: bool, be: bool, was: int, now: int): (bytes: seq<byte>) {
    if inCyc then SVarint(now - was) else CYC + TimeBytes(now, be)
  }

  /** One more step, written where the file ends. */
  lemma {:induction false} FiledStep(basics: seq<Basic>, be: bool, spare: nat, head: seq<byte>, out: seq<byte>,
                                     t: Told, vals: seq<Value>, events: seq<bool>, was: nat, now: nat, out2: seq<byte>,
                                     t2: Told)
    requires AllHold(basics, vals) && Marked(t.known, vals, events) && Int64(now) && (t.open.Some? ==> was <= now)
    requires Filed(KindsOf(basics, spare), be, spare, head, out, t, was)
    requires Rising(KindsOf(basics, spare), 0, EventsFrom(vals, events, 0))
    requires out2 == out + StepHead(t.open.Some?, be, was, now)
                     + ChangesBytes(KindsOf(basics, spare), 0, EventsFrom(vals, events, 0))
    requires t2 == ToldAt(t, was, now, vals, EventsFrom(vals, events, 0), spare)
    ensures Filed(KindsOf(basics, spare), be, spare, head, out2, t2, now)
  {
    var kinds, changes := KindsOf(basics, spare), EventsFrom(vals, events, 0);
    if t.open.None? {
      Moved(out, CYC, TimeBytes(now, be));
      OpenFirst(kinds, be, now, changes, out, head, FileBytes(kinds, be, t.done));
      CycleBegins(basics, spare, t, vals, events, was, now, t2);
    } else {
      OpenNext(kinds, be, t.open, Step(now - was, changes), out, head, FileBytes(kinds, be, t.done));
      CycleGoes(basics, spare, t, vals, events, was, now, t2);
    }
  }

  /** The bytes of a new cycle section. */
  lemma {:induction false} OpenFirst(kinds: seq<Kind>, be: bool, now: int, changes: seq<Change>, out: seq<byte>,
                                     head: seq<byte>, file: seq<byte>)
    requires Rising(kinds, 0, changes) && Int64(now) && out == head + (file + [])
    ensures OpenFits(kinds, Some(now, changes, []))
    ensures out + CYC + TimeBytes(now, be) + ChangesBytes(kinds, 0, changes)
            == head + (file + OpenBytes(kinds, be, Some(now, changes, [])))
  {
    assert ChangesBytes(kinds, 0, changes) + [] == ChangesBytes(kinds, 0, changes);
    JoinsFirst(head, file, CYC, TimeBytes(now, be), ChangesBytes(kinds, 0, changes));
  }

  lemma {:induction false} JoinsFirst(head: seq<byte>, file: seq<byte>, a: seq<byte>, b: seq<byte>, c: seq<byte>)
    ensures head + (file + []) + a + b + c == head + (file + (a + (b + c)))
  {
  }

  /** The bytes of one more step. */
  lemma {:induction false} OpenNext(kinds: seq<Kind>, be: bool, o: Open, step: Step, out: seq<byte>, head: seq<byte>,
                                    file: seq<byte>)
    requires OpenFits(kinds, o) && o.Some? && Int64(step.diff) && step.diff != -1 && Rising(kinds, 0, step.changes)
    requires out == head + (file + OpenBytes(kinds, be, o))
    ensures OpenFits(kinds, o.(steps := o.steps + [step]))
    ensures out + SVarint(step.diff) + ChangesBytes(kinds, 0, step.changes)
            == head + (file + OpenBytes(kinds, be, o.(steps := o.steps + [step])))
  {
    OpenThen(kinds, o.steps, step);
    JoinsNext(head, file, CYC, TimeBytes(o.time, be), ChangesBytes(kinds, 0, o.changes), OpenSteps(kinds, o.steps),
              SVarint(step.diff), ChangesBytes(kinds, 0, step.changes));
  }

  lemma {:induction false} JoinsNext(head: seq<byte>, file: seq<byte>, a: seq<byte>, b: seq<byte>, c: seq<byte>,
                                     d: seq<byte>, e: seq<byte>, f: seq<byte>)
    ensures head + (file + (a + (b + (c + d)))) + e + f == head + (file + (a + (b + (c + (d + (e + f))))))
  {
  }

  // ---- finished sections ----

  lemma {:induction false} ToldThen(kinds: seq<Kind>, vals: seq<Value>, secs: seq<Section>, sec: Section)
    requires |vals| == |kinds| && AllProper(kinds, secs) && Proper(kinds, sec)
    ensures AllProper(kinds, secs + [sec])
    ensures FileTold(kinds, vals, secs + [sec])
            == FileTold(kinds, vals, secs) + SectionTold(kinds, FileValues(kinds, vals, secs), sec)
    decreases |secs|
  {
    if secs == [] {
      assert [] + [sec] == [sec] && [sec][1..] == [];
      assert SectionTold(kinds, vals, sec) + [] == [] + SectionTold(kinds, vals, sec);
    } else {
      ToldThen(kinds, ValuesAfter(kinds, vals, secs[0]), secs[1..], sec);
      assert (secs + [sec])[1..] == secs[1..] + [sec];
      SeenMoved(SectionTold(kinds, vals, secs[0]), FileTold(kinds, ValuesAfter(kinds, vals, secs[0]), secs[1..]),
                SectionTold(kinds, FileValues(kinds, vals, secs), sec));
    }
  }

  lemma {:induction false} SeenMoved(a: seq<Seen>, b: seq<Seen>, c: seq<Seen>)
    ensures a + (b + c) == (a + b) + c
  {
  }

  /** The first snapshot. */
  lemma {:induction false} FiledSnapshot(basics: seq<Basic>, be: bool, spare: nat, head: seq<byte>, vals: seq<Value>,
                                         now: int, was: int, out: seq<byte>, t: Told)
    requires AllHold(basics, vals) && Int64(now)
    requires t == Told([Snap(now, Shown(vals, spare))], None, vals, TimeRead(now),
                       [Seen(TimeRead(now), Shown(vals, spare))])
    requires Proper(KindsOf(basics, spare), t.done[0])
    requires out == head + SectionBytes(KindsOf(basics, spare), be, t.done[0])
    ensures Filed(KindsOf(basics, spare), be, spare, head, out, t, was)
  {
    var kinds := KindsOf(basics, spare);
    var none := seq(|kinds|, _ => Unset);
    Alone(kinds, be, none, 0, t.done[0]);
    UnusedShown(basics, spare, vals);
    SnapshotShows(kinds, none, Shown(vals, spare));
    assert SectionBytes(kinds, be, t.done[0]) + [] == SectionBytes(kinds, be, t.done[0]);
  }

  lemma {:induction false} UnusedShown(basics: seq<Basic>, spare: nat, vals: seq<Value>)
    requires AllHold(basics, vals)
    ensures forall k :: 0 <= k < 1 + |basics| + spare && KindsOf(basics, spare)[k].NoType? ==>
                          Shown(vals, spare)[k] == Unset
  {
    forall k | 0 <= k < 1 + |basics| + spare
      ensures KindsOf(basics, spare)[k].NoType? ==> Shown(vals, spare)[k] == Unset
    {
      if 0 < k <= |basics| {
        KindUsed(basics, spare, vals, k - 1);
      }
    }
  }

  /** A snapshot leaves the signals that are not there alone. */
  lemma {:induction false} SnapshotShows(kinds: seq<Kind>, none: seq<Value>, shown: seq<Value>)
    requires |none| == |kinds| == |shown|
    requires forall k :: 0 <= k < |kinds| && kinds[k].NoType? ==> none[k] == shown[k]
    ensures Updated(kinds, none, shown, 0) == shown
  {
  }

  /** A file of one section. */
  lemma {:induction false} Alone(kinds: seq<Kind>, be: bool, vals: seq<Value>, time: int, sec: Section)
    requires |vals| == |kinds| && Proper(kinds, sec)
    ensures AllProper(kinds, [sec]) && FileBytes(kinds, be, [sec]) == SectionBytes(kinds, be, sec)
    ensures FileValues(kinds, vals, [sec]) == ValuesAfter(kinds, vals, sec)
    ensures FileTime(time, [sec]) == TimeAfter(time, sec)
            && FileTold(kinds, vals, [sec]) == SectionTold(kinds, vals, sec)
  {
    assert [sec][1..] == [];
    assert SectionBytes(kinds, be, sec) + [] == SectionBytes(kinds, be, sec);
    assert SectionTold(kinds, vals, sec) + [] == SectionTold(kinds, vals, sec);
  }

  /** The open section is finished. */
  lemma {:induction false} FiledClosed(kinds: seq<Kind>, be: bool, spare: nat, head: seq<byte>, out: seq<byte>, t: Told,
                                       now: int, sec: Section, out2: seq<byte>, t2: Told)
    requires Filed(kinds, be, spare, head, out, t, now) && t.open.Some?
    requires sec == Cyc(t.open.time, t.open.changes, t.open.steps) && out2 == out + SVarint(-1) + ECY
    requires t2 == t.(done := t.done + [sec], open := None)
    ensures Filed(kinds, be, spare, head, out2, t2, now)
  {
    var none, file := seq(|kinds|, _ => Unset), FileBytes(kinds, be, t.done);
    OpenCloses(kinds, be, t.open);
    ProperThen(kinds, t.done, sec);
    FileThen(kinds, be, t.done, sec, t2.done);
    ValuesThen(kinds, none, 0, t.done, sec);
    ToldThen(kinds, none, t.done, sec);
    Closes(head, file, OpenBytes(kinds, be, t.open), SVarint(-1), ECY);
  }

  lemma {:induction false} Closes(head: seq<byte>, file: seq<byte>, open: seq<byte>, a: seq<byte>, b: seq<byte>)
    ensures head + (file + open) + a + b == head + ((file + (open + (a + b))) + [])
  {
  }

  /** One of the sections at the end. */
  lemma {:induction false} FiledLast(kinds: seq<Kind>, be: bool, spare: nat, head: seq<byte>, out: seq<byte>, t: Told,
                                     now: int, sec: Section, out2: seq<byte>, t2: Told)
    requires Filed(kinds, be, spare, head, out, t, now) && t.open.None? && (sec.Dir? || sec.Tail?)
    requires Proper(kinds, sec) && out2 == out + SectionBytes(kinds, be, sec) && t2 == t.(done := t.done + [sec])
    ensures Filed(kinds, be, spare, head, out2, t2, now)
  {
    var none, file := seq(|kinds|, _ => Unset), FileBytes(kinds, be, t.done);
    ProperThen(kinds, t.done, sec);
    FileThen(kinds, be, t.done, sec, t2.done);
    ValuesThen(kinds, none, 0, t.done, sec);
    ToldThen(kinds, none, t.done, sec);
    assert t.story + [] == t.story;
    Ends(head, file, SectionBytes(kinds, be, sec));
  }

  lemma {:induction false} Ends(head: seq<byte>, file: seq<byte>, a: seq<byte>)
    ensures head + (file + []) + a == head + ((file + a) + [])
  {
  }

  /** What a finished file tells is what reading it gives. */
  lemma {:induction false} FiledReads(f: File, spare: nat, head: seq<byte>, t: Told, now: int)
    requires |f.kinds| < TWO32 && Filed(f.kinds, f.be, spare, head, f.s, t, now) && t.open.None?
    ensures head <= f.s
    ensures Dump(f, State(|head|, 0, seq(|f.kinds|, _ => Unset)))
            == Ret(OK, State(|f.s|, t.shown, Shown(t.known, spare)))
    ensures Trace(f, State(|head|, 0, seq(|f.kinds|, _ => Unset)), Init) == t.story
  {
    var st, file := State(|head|, 0, seq(|f.kinds|, _ => Unset)), FileBytes(f.kinds, f.be, t.done);
    assert file + [] == file;
    DumpReads(f, st, t.done);
    FileSeen(f, st, Init, t.done);
  }

  lemma {:induction false} AllFit(basics: seq<Basic>, spare: nat, vals: seq<Value>)
    requires AllHold(basics, vals)
    ensures FitAll(KindsOf(basics, spare), Shown(vals, spare))
  {
    var kinds := KindsOf(basics, spare);
    forall i | 0 <= i < |kinds| && !kinds[i].NoType?
      ensures Fits(kinds[i], Shown(vals, spare)[i])
    {
      assert kinds[i] == Typed(basics[i - 1]) && Shown(vals, spare)[i] == vals[i - 1];
      ModeFits(basics[i - 1], vals[i - 1]);
    }
  }

  lemma {:induction false} SnapshotJoins(start: seq<byte>, a: seq<byte>, b: seq<byte>, c: seq<byte>, d: seq<byte>,
                                         e: seq<byte>)
    ensures start + a + b + c + d + e == start + (a + (b + (c + (d + e))))
  {
  }
}
