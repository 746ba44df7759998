/** What the value sections of a GHW file look like, given what they say, and that a dump reads exactly
    that out of them. */
module GhwFormat {
  import opened Bytes
  import opened Leb128
  import opened GhwLeb
  import opened GhwStream

  // ---- values ----

  /** The values a signal of this kind can have. */
  predicate Fits(kind: Kind, v: Value) {
    match kind
    case Typed(B2) | Typed(E8) => v.Small?
    case Typed(I32) | Typed(P32) => v.Number? && -0x8000_0000 <= v.v < 0x8000_0000
    case Typed(P64) => v.Number? && -0x8000_0000_0000_0000 <= v.v < 0x8000_0000_0000_0000
    case Typed(F64) => v.Real? && |v.bytes| == 8
    case NoType => false
    case Typed(_) => false
  }

  /** A byte as it is, a number in LEB128, a floating-point number as it is in memory. */
  function ValueBytes(v: Value): (bytes: seq<byte>) {
    match v
    case Unset => []
    case Small(b) => [b]
    case Number(n) => SVarint(n)
    case Real(bytes) => bytes
  }

  lemma {:induction false} ValueReads(f: File, st: State, i: nat, v: Value, end: nat)
    requires i < |f.kinds| == |st.vals| && Fits(f.kinds[i], v) && At(f.s, st.pos, ValueBytes(v))
    requires end == st.pos + |ValueBytes(v)|
    ensures SignalValue(f, st, i) == Ret(OK, State(end, st.snapTime, st.vals[i := v]))
  {
    match v
    case Small(b) => AtPlace(f.s, st.pos, [b], 0);
    case Number(n) =>
      if f.kinds[i].basic.P64? {
        Signed64RoundTrip(f.s, st.pos, n);
      } else {
        Signed32RoundTrip(f.s, st.pos, n);
      }
    case Real(bytes) => assert f.s[st.pos..st.pos + 8] == bytes;
  }

  // ---- snapshots ----

  /** Values for all signals that are used. */
  ghost predicate FitAll(kinds: seq<Kind>, vals: seq<Value>) {
    |vals| == |kinds|
    && forall i {:trigger kinds[i]} :: 0 <= i < |kinds| && !kinds[i].NoType? ==> Fits(kinds[i], vals[i])
  }

  function UsedBytes(kinds: seq<Kind>, vals: seq<Value>, i: nat): (bytes: seq<byte>)
    requires |vals| == |kinds| && i <= |kinds|
    decreases |kinds| - i
  {
    if i == |kinds| then []
    else (if kinds[i].NoType? then [] else ValueBytes(vals[i])) + UsedBytes(kinds, vals, i + 1)
  }

  /** The signals from `i` on that are used get new values. */
  function Updated(kinds: seq<Kind>, old_: seq<Value>, vals: seq<Value>, i: nat): (r: seq<Value>)
    requires |old_| == |vals| == |kinds|
    ensures |r| == |kinds|
    ensures forall k :: 0 <= k < |kinds| ==> r[k] == if k >= i && !kinds[k].NoType? then vals[k] else old_[k]
  {
    seq(|kinds|, k requires 0 <= k < |kinds| => if k >= i && !kinds[k].NoType? then vals[k] else old_[k])
  }

  lemma {:induction false} UpdatedUnused(kinds: seq<Kind>, old_: seq<Value>, vals: seq<Value>, i: nat)
    requires |old_| == |vals| == |kinds| && i < |kinds| && kinds[i].NoType?
    ensures Updated(kinds, old_, vals, i) == Updated(kinds, old_, vals, i + 1)
    ensures UsedBytes(kinds, vals, i) == UsedBytes(kinds, vals, i + 1)
  {
    assert [] + UsedBytes(kinds, vals, i + 1) == UsedBytes(kinds, vals, i + 1);
  }

  lemma {:induction false} UpdatedUsed(kinds: seq<Kind>, old_: seq<Value>, vals: seq<Value>, i: nat)
    requires |old_| == |vals| == |kinds| && i < |kinds| && !kinds[i].NoType?
    ensures Updated(kinds, old_, vals, i) == Updated(kinds, old_[i := vals[i]], vals, i + 1)
  {
  }

  lemma {:induction false} UpdatedNone(kinds: seq<Kind>, old_: seq<Value>, vals: seq<Value>)
    requires |old_| == |vals| == |kinds|
    ensures Updated(kinds, old_, vals, |kinds|) == old_
  {
  }

  lemma {:induction false} UsedReads(f: File, st: State, vals: seq<Value>, i: nat, end: nat, got: seq<Value>)
    requires |st.vals| == |f.kinds| && FitAll(f.kinds, vals) && i <= |f.kinds|
             && got == Updated(f.kinds, st.vals, vals, i)
    requires At(f.s, st.pos, UsedBytes(f.kinds, vals, i)) && end == st.pos + |UsedBytes(f.kinds, vals, i)|
    ensures AllValues(f, st, i) == Ret(OK, State(end, st.snapTime, got))
    decreases |f.kinds| - i, 0
  {
    if i == |f.kinds| {
      UpdatedNone(f.kinds, st.vals, vals);
    } else if f.kinds[i].NoType? {
      UpdatedUnused(f.kinds, st.vals, vals, i);
      UsedReads(f, st, vals, i + 1, end, got);
    } else {
      UpdatedUsed(f.kinds, st.vals, vals, i);
      var value := ValueBytes(vals[i]);
      UsedReadsOn(f, st, vals, i, value, UsedBytes(f.kinds, vals, i + 1),
                  State(st.pos + |value|, st.snapTime, st.vals[i := vals[i]]), end, got);
    }
  }

  lemma {:induction false} UsedReadsOn(f: File, st: State, vals: seq<Value>, i: nat, value: seq<byte>, rest: seq<byte>,
                                       st1: State, end: nat, got: seq<Value>)
    requires |st.vals| == |f.kinds| && FitAll(f.kinds, vals) && i < |f.kinds| && !f.kinds[i].NoType?
    requires value == ValueBytes(vals[i]) && rest == UsedBytes(f.kinds, vals, i + 1) && At(f.s, st.pos, value + rest)
    requires st1 == State(st.pos + |value|, st.snapTime, st.vals[i := vals[i]]) && end == st1.pos + |rest|
    requires got == Updated(f.kinds, st1.vals, vals, i + 1)
    ensures AllValues(f, st, i) == Ret(OK, State(end, st.snapTime, got))
    decreases |f.kinds| - i - 1, 1
  {
    AtSplit(f.s, st.pos, value, rest);
    ValueReads(f, st, i, vals[i], st1.pos);
    AllValuesStep(f, st, i, st1);
    UsedReads(f, st1, vals, i + 1, end, got);
  }

  lemma {:induction false} AllValuesStep(f: File, st: State, i: nat, st1: State)
    requires |f.kinds| == |st.vals| == |st1.vals| && i < |f.kinds| && !f.kinds[i].NoType?
    requires SignalValue(f, st, i) == Ret(OK, st1)
    ensures AllValues(f, st, i) == AllValues(f, st1, i + 1)
  {
  }

  predicate Int64(t: int) {
    -0x8000_0000_0000_0000 <= t < 0x8000_0000_0000_0000
  }

  function TimeBytes(t: int, be: bool): (bytes: seq<byte>)
    ensures |bytes| == 8
  {
    WordBytes(t % TWO64, 8, be)
  }

  function SnapshotBytes(kinds: seq<Kind>, be: bool, time: int, vals: seq<Value>): (bytes: seq<byte>)
    requires |vals| == |kinds|
  {
    [0, 0, 0, 0] + (TimeBytes(time, be) + (UsedBytes(kinds, vals, 0) + ESN))
  }

  lemma {:induction false} TagReads(f: File, st: State, tag: seq<byte>)
    requires |tag| == 4 && At(f.s, st.pos, tag)
    ensures Expect(f, st, tag) == Ret(OK, st.(pos := st.pos + 4))
  {
    assert f.s[st.pos..st.pos + 4] == tag;
  }

  /** A snapshot gives every used signal its value. */
  lemma {:induction false} SnapshotReads(f: File, st: State, time: int, vals: seq<Value>, end: nat)
    requires |st.vals| == |f.kinds| && FitAll(f.kinds, vals) && Int64(time)
    requires At(f.s, st.pos, SnapshotBytes(f.kinds, f.be, time, vals))
    requires end == st.pos + |SnapshotBytes(f.kinds, f.be, time, vals)|
    ensures Snapshot(f, st) == Ret(OK, State(end, TimeRead(time), Updated(f.kinds, st.vals, vals, 0)))
  {
    var used := UsedBytes(f.kinds, vals, 0);
    AtSplit(f.s, st.pos, [0, 0, 0, 0], TimeBytes(time, f.be) + (used + ESN));
    AtSplit(f.s, st.pos + 4, TimeBytes(time, f.be), used + ESN);
    AtSplit(f.s, st.pos + 12, used, ESN);
    assert f.s[st.pos..st.pos + 4] == [0, 0, 0, 0];
    TimeReads(f.s, st.pos + 4, f.be, time);
    var st1 := State(st.pos + 12, TimeRead(time), st.vals);
    var st2 := State(end - 4, TimeRead(time), Updated(f.kinds, st.vals, vals, 0));
    UsedReads(f, st1, vals, 0, st2.pos, st2.vals);
    TagReads(f, st2, ESN);
    SnapshotStep(f, st, st1, st2);
  }

  lemma {:induction false} SnapshotStep(f: File, st: State, st1: State, st2: State)
    requires |f.kinds| == |st.vals| == |st1.vals| == |st2.vals| && Has(f, st, 12)
    requires f.s[st.pos..st.pos + 4] == [0, 0, 0, 0]
    requires st1 == State(st.pos + 12, GetI64(f.s, st.pos + 4, f.be), st.vals) && AllValues(f, st1, 0) == Ret(OK, st2)
    ensures Snapshot(f, st) == Expect(f, st2, ESN)
  {
  }

  // ---- cycles ----

  /** How many used signals there are after `i` up to `j`. */
  function UsedBetween(kinds: seq<Kind>, i: nat, j: nat): (n: nat)
    requires i <= j < |kinds|
    ensures n <= j - i && (i < j && !kinds[j].NoType? ==> n > 0)
  {
    if i == j then 0 else UsedBetween(kinds, i, j - 1) + if kinds[j].NoType? then 0 else 1
  }

  lemma {:induction false} UsedFirst(kinds: seq<Kind>, i: nat, j: nat)
    requires i < j < |kinds|
    ensures UsedBetween(kinds, i, j) == (if kinds[i + 1].NoType? then 0 else 1) + UsedBetween(kinds, i + 1, j)
  {
    if i + 1 < j {
      UsedFirst(kinds, i, j - 1);
    }
  }

  /** The distance leads to the signal. */
  lemma {:induction false} SeekFinds(kinds: seq<Kind>, i: nat, j: nat)
    requires i <= j < |kinds| && (i < j ==> !kinds[j].NoType?)
    ensures Seek(kinds, i, UsedBetween(kinds, i, j)) == Signal(j)
    decreases j - i
  {
    if i < j {
      UsedFirst(kinds, i, j);
      SeekFinds(kinds, i + 1, j);
    }
  }

  datatype Change = Change(i: nat, value: Value)

  /** Changes in the order of their signals, after `last`. */
  ghost predicate Rising(kinds: seq<Kind>, last: nat, changes: seq<Change>)
    decreases |changes|
  {
    changes == []
    || (last < changes[0].i < |kinds| && Fits(kinds[changes[0].i], changes[0].value)
        && Rising(kinds, changes[0].i, changes[1..]))
  }

  /** Each change with its distance from the last, then a zero. */
  function ChangesBytes(kinds: seq<Kind>, last: nat, changes: seq<Change>): (bytes: seq<byte>)
    requires Rising(kinds, last, changes)
    decreases |changes|
  {
    if changes == [] then [0]
    else
      var c := changes[0];
      Varint(UsedBetween(kinds, last, c.i)) + (ValueBytes(c.value) + ChangesBytes(kinds, c.i, changes[1..]))
  }

  function Changed(vals: seq<Value>, changes: seq<Change>): (r: seq<Value>)
    ensures |r| == |vals|
    decreases |changes|
  {
    if changes == [] then vals
    else Changed(if changes[0].i < |vals| then vals[changes[0].i := changes[0].value] else vals, changes[1..])
  }

  lemma {:induction false} NumberReads(s: seq<byte>, at: nat, v: nat, next: nat)
    requires v < TWO32 && At(s, at, Varint(v)) && next == at + |Varint(v)|
    ensures Unsigned(s, at) == Got(v, next)
  {
    UnsignedRoundTrip(s, at, v);
  }

  /** One step of a cycle changes exactly the signals it says. */
  lemma {:induction false} ChangesRead(f: File, st: State, last: nat, changes: seq<Change>, end: nat)
    requires |st.vals| == |f.kinds| < TWO32 && Rising(f.kinds, last, changes)
    requires At(f.s, st.pos, ChangesBytes(f.kinds, last, changes))
             && end == st.pos + |ChangesBytes(f.kinds, last, changes)|
    ensures CycleCont(f, st, last) == Ret(OK, State(end, st.snapTime, Changed(st.vals, changes)))
    decreases |changes|, 0
  {
    if changes == [] {
      NumberReads(f.s, st.pos, 0, end);
    } else {
      var c := changes[0];
      ChangeReadsOn(f, st, last, c, changes[1..], UsedBetween(f.kinds, last, c.i), ValueBytes(c.value),
                    ChangesBytes(f.kinds, c.i, changes[1..]), st.vals[c.i := c.value], end);
    }
  }

  lemma {:induction false} ChangeReadsOn(f: File, st: State, last: nat, c: Change, more: seq<Change>, d: nat,
                                         value: seq<byte>, rest: seq<byte>, news: seq<Value>, end: nat)
    requires |st.vals| == |f.kinds| < TWO32 && last < c.i < |f.kinds| && Fits(f.kinds[c.i], c.value)
    requires Rising(f.kinds, c.i, more) && d == UsedBetween(f.kinds, last, c.i) && value == ValueBytes(c.value)
    requires rest == ChangesBytes(f.kinds, c.i, more) && news == st.vals[c.i := c.value]
    requires At(f.s, st.pos, Varint(d) + (value + rest)) && end == st.pos + |Varint(d)| + |value| + |rest|
    ensures CycleCont(f, st, last) == Ret(OK, State(end, st.snapTime, Changed(news, more)))
    decreases |more|, 1
  {
    var pos1, pos2 := st.pos + |Varint(d)|, st.pos + |Varint(d)| + |value|;
    AtSplit(f.s, st.pos, Varint(d), value + rest);
    AtSplit(f.s, pos1, value, rest);
    NumberReads(f.s, st.pos, d, pos1);
    SeekFinds(f.kinds, last, c.i);
    ValueReads(f, State(pos1, st.snapTime, st.vals), c.i, c.value, pos2);
    ChangesRead(f, State(pos2, st.snapTime, news), c.i, more, end);
  }

  /** The time from the last step to this one, and what changes. */
  datatype Step = Step(diff: int, changes: seq<Change>)

  /** A step of -1 would end the cycle. */
  ghost predicate StepsFit(kinds: seq<Kind>, steps: seq<Step>) {
    forall k :: 0 <= k < |steps| ==> Int64(steps[k].diff) && steps[k].diff != -1 && Rising(kinds, 0, steps[k].changes)
  }

  function StepsBytes(kinds: seq<Kind>, steps: seq<Step>): (bytes: seq<byte>)
    requires StepsFit(kinds, steps)
  {
    if steps == [] then SVarint(-1) + ECY
    else SVarint(steps[0].diff) + (ChangesBytes(kinds, 0, steps[0].changes) + StepsBytes(kinds, steps[1..]))
  }

  function Stepped(vals: seq<Value>, steps: seq<Step>): (r: seq<Value>)
    ensures |r| == |vals|
    decreases |steps|
  {
    if steps == [] then vals else Stepped(Changed(vals, steps[0].changes), steps[1..])
  }

  /** The time after these steps, in 64 bits. */
  function Clocked(time: int, steps: seq<Step>): int
    decreases |steps|
  {
    if steps == [] then time else Clocked(Wrapped(time + steps[0].diff, TWO64), steps[1..])
  }

  /** A step stands at `pos`, and others follow it up to `end`. */
  ghost predicate StepAt(f: File, pos: nat, diff: int, changes: seq<Change>, more: seq<Step>, end: nat) {
    Int64(diff) && diff != -1 && Rising(f.kinds, 0, changes) && StepsFit(f.kinds, more)
    && At(f.s, pos, SVarint(diff) + (ChangesBytes(f.kinds, 0, changes) + StepsBytes(f.kinds, more)))
    && end == pos + |SVarint(diff)| + |ChangesBytes(f.kinds, 0, changes)| + |StepsBytes(f.kinds, more)|
  }

  lemma {:induction false} StepIsAt(f: File, pos: nat, steps: seq<Step>, end: nat)
    requires StepsFit(f.kinds, steps) && steps != []
    requires At(f.s, pos, StepsBytes(f.kinds, steps)) && end == pos + |StepsBytes(f.kinds, steps)|
    ensures StepAt(f, pos, steps[0].diff, steps[0].changes, steps[1..], end)
  {
  }

  lemma {:induction false} StepsRead(f: File, st: State, steps: seq<Step>, end: nat)
    requires |st.vals| == |f.kinds| < TWO32 && StepsFit(f.kinds, steps) && st.pos <= |f.s|
    requires At(f.s, st.pos, StepsBytes(f.kinds, steps)) && end == st.pos + |StepsBytes(f.kinds, steps)|
    ensures end <= |f.s|
    ensures CycleRest(f, st) == Ret(OK, State(end, Clocked(st.snapTime, steps), Stepped(st.vals, steps)))
    decreases |steps|, 0
  {
    if steps == [] {
      CycleEnds(f, st, SVarint(-1), end);
    } else {
      StepIsAt(f, st.pos, steps, end);
      StepsMean(st.snapTime, st.vals, steps, Clocked(st.snapTime, steps), Stepped(st.vals, steps));
      StepReadsOn(f, st, steps[0].diff, steps[0].changes, steps[1..], end, Clocked(st.snapTime, steps),
                  Stepped(st.vals, steps));
    }
  }

  lemma {:induction false} StepsMean(time: int, vals: seq<Value>, steps: seq<Step>, time2: int, vals2: seq<Value>)
    requires steps != [] && time2 == Clocked(time, steps) && vals2 == Stepped(vals, steps)
    ensures time2 == Clocked(Wrapped(time + steps[0].diff, TWO64), steps[1..])
    ensures vals2 == Stepped(Changed(vals, steps[0].changes), steps[1..])
  {
  }

  lemma {:induction false} CycleEnds(f: File, st: State, minus: seq<byte>, end: nat)
    requires |st.vals| == |f.kinds| && st.pos <= |f.s| && minus == SVarint(-1)
    requires At(f.s, st.pos, minus + ECY) && end == st.pos + |minus| + 4
    ensures end <= |f.s| && CycleRest(f, st) == Ret(OK, State(end, st.snapTime, st.vals))
    ensures CycleNext(f, st) == Ret(0, st.(pos := end - 4))
    ensures Expect(f, st.(pos := end - 4), ECY) == Ret(OK, st.(pos := end))
  {
    AtSplit(f.s, st.pos, minus, ECY);
    Signed64RoundTrip(f.s, st.pos, -1);
    TagReads(f, st.(pos := st.pos + |minus|), ECY);
  }

  lemma {:induction false} StepReadsOn(f: File, st: State, diff: int, changes: seq<Change>, more: seq<Step>, end: nat,
                                       time2: int, vals2: seq<Value>)
    requires |st.vals| == |f.kinds| < TWO32 && st.pos <= |f.s| && StepAt(f, st.pos, diff, changes, more, end)
    requires time2 == Clocked(Wrapped(st.snapTime + diff, TWO64), more)
             && vals2 == Stepped(Changed(st.vals, changes), more)
    ensures end <= |f.s| && CycleRest(f, st) == Ret(OK, State(end, time2, vals2))
    decreases |more|, 1
  {
    var st2 := StepReads(f, st, diff, changes, ChangesBytes(f.kinds, 0, changes), StepsBytes(f.kinds, more), end);
    StepsRead(f, st2, more, end);
  }

  lemma {:induction false} StepReads(f: File, st: State, diff: int, changes: seq<Change>, changed: seq<byte>,
                                     rest: seq<byte>, end: nat)
      returns (st2: State)
    requires |st.vals| == |f.kinds| < TWO32 && st.pos <= |f.s| && Int64(diff) && diff != -1
    requires Rising(f.kinds, 0, changes) && changed == ChangesBytes(f.kinds, 0, changes)
    requires At(f.s, st.pos, SVarint(diff) + (changed + rest)) && end == st.pos + |SVarint(diff)| + |changed| + |rest|
    ensures st2.snapTime == Wrapped(st.snapTime + diff, TWO64) && st2.vals == Changed(st.vals, changes)
    ensures end <= |f.s| && end == st2.pos + |rest| && At(f.s, st2.pos, rest) && CycleRest(f, st) == CycleRest(f, st2)
  {
    var st1;
    st1, st2 := OneStepReads(f, st, diff, changes, changed, rest, end);
    CycleRestStep(f, st, st1, st2);
  }

  /** The step to the next time, and what changes there. */
  lemma {:induction false} OneStepReads(f: File, st: State, diff: int, changes: seq<Change>, changed: seq<byte>,
                                        rest: seq<byte>, end: nat)
      returns (st1: State, st2: State)
    requires |st.vals| == |f.kinds| < TWO32 && st.pos <= |f.s| && Int64(diff) && diff != -1
    requires Rising(f.kinds, 0, changes) && changed == ChangesBytes(f.kinds, 0, changes)
    requires At(f.s, st.pos, SVarint(diff) + (changed + rest)) && end == st.pos + |SVarint(diff)| + |changed| + |rest|
    ensures st2.snapTime == Wrapped(st.snapTime + diff, TWO64) && st2.vals == Changed(st.vals, changes)
    ensures |st1.vals| == |st.vals| && CycleNext(f, st) == Ret(1, st1) && CycleCont(f, st1, 0) == Ret(OK, st2)
    ensures end <= |f.s| && end == st2.pos + |rest| && At(f.s, st2.pos, rest)
  {
    var pos1, pos2 := st.pos + |SVarint(diff)|, st.pos + |SVarint(diff)| + |changed|;
    AtSplit(f.s, st.pos, SVarint(diff), changed + rest);
    AtSplit(f.s, pos1, changed, rest);
    st1 := State(pos1, Wrapped(st.snapTime + diff, TWO64), st.vals);
    st2 := State(pos2, st1.snapTime, Changed(st.vals, changes));
    NextReads(f, st, diff, st1.snapTime, pos1);
    ChangesRead(f, st1, 0, changes, pos2);
  }

  lemma {:induction false} CycleRestStep(f: File, st: State, st1: State, st2: State)
    requires |f.kinds| == |st.vals| == |st1.vals| == |st2.vals| && st.pos <= |f.s| && st2.pos <= |f.s|
    requires CycleNext(f, st) == Ret(1, st1) && CycleCont(f, st1, 0) == Ret(OK, st2)
    ensures CycleRest(f, st) == CycleRest(f, st2)
  {
  }

  lemma {:induction false} NextReads(f: File, st: State, diff: int, time: int, next: nat)
    requires Int64(diff) && diff != -1 && At(f.s, st.pos, SVarint(diff)) && next == st.pos + |SVarint(diff)|
    requires time == Wrapped(st.snapTime + diff, TWO64)
    ensures CycleNext(f, st) == Ret(1, State(next, time, st.vals))
  {
    Signed64RoundTrip(f.s, st.pos, diff);
  }

  function CycleBytes(kinds: seq<Kind>, be: bool, time: int, changes: seq<Change>, steps: seq<Step>): (bytes: seq<byte>)
    requires Rising(kinds, 0, changes) && StepsFit(kinds, steps)
  {
    TimeBytes(time, be) + (ChangesBytes(kinds, 0, changes) + StepsBytes(kinds, steps))
  }

  lemma {:induction false} CycleReads(f: File, st: State, time: int, changes: seq<Change>, steps: seq<Step>, end: nat)
    requires |st.vals| == |f.kinds| < TWO32 && Int64(time) && Rising(f.kinds, 0, changes) && StepsFit(f.kinds, steps)
    requires st.pos <= |f.s| && At(f.s, st.pos, CycleBytes(f.kinds, f.be, time, changes, steps))
    requires end == st.pos + |CycleBytes(f.kinds, f.be, time, changes, steps)|
    ensures Cycle(f, st)
            == Ret(OK, State(end, Clocked(TimeRead(time), steps), Stepped(Changed(st.vals, changes), steps)))
  {
    var changed, rest := ChangesBytes(f.kinds, 0, changes), StepsBytes(f.kinds, steps);
    var st1 := State(st.pos + 8, TimeRead(time), st.vals);
    var st2 := State(end - |rest|, st1.snapTime, Changed(st.vals, changes));
    AtSplit(f.s, st.pos, TimeBytes(time, f.be), changed + rest);
    StartReads(f, st, time, st1);
    CycleFirst(f, st, changes, changed, rest, st1, st2);
    StepsRead(f, st2, steps, end);
  }

  lemma {:induction false} CycleFirst(f: File, st: State, changes: seq<Change>, changed: seq<byte>, rest: seq<byte>,
                                      st1: State, st2: State)
    requires |st.vals| == |f.kinds| == |st1.vals| < TWO32 && Rising(f.kinds, 0, changes) && st.pos <= |f.s|
    requires changed == ChangesBytes(f.kinds, 0, changes) && At(f.s, st1.pos, changed + rest)
    requires CycleStart(f, st) == Ret(OK, st1)
             && st2 == State(st1.pos + |changed|, st1.snapTime, Changed(st1.vals, changes))
    ensures st2.pos + |rest| <= |f.s| && At(f.s, st2.pos, rest) && Cycle(f, st) == CycleRest(f, st2)
    ensures CycleCont(f, st1, 0) == Ret(OK, st2)
  {
    AtSplit(f.s, st1.pos, changed, rest);
    ChangesRead(f, st1, 0, changes, st2.pos);
    CycleStep(f, st, st1, st2);
  }

  lemma {:induction false} StartReads(f: File, st: State, time: int, st1: State)
    requires Int64(time) && At(f.s, st.pos, TimeBytes(time, f.be)) && st1 == State(st.pos + 8, TimeRead(time), st.vals)
    ensures CycleStart(f, st) == Ret(OK, st1)
  {
    TimeReads(f.s, st.pos, f.be, time);
  }

  lemma {:induction false} CycleStep(f: File, st: State, st1: State, st2: State)
    requires |f.kinds| == |st.vals| == |st1.vals| == |st2.vals| && st.pos <= |f.s| && st2.pos <= |f.s|
    requires CycleStart(f, st) == Ret(OK, st1) && CycleCont(f, st1, 0) == Ret(OK, st2)
    ensures Cycle(f, st) == CycleRest(f, st2)
  {
  }

  // ---- whole files ----

  /** The sections a dump reads. The reader skips the entries of a directory and all of a tailer. */
  datatype Section =
    | Snap(time: int, vals: seq<Value>)
    | Cyc(time: int, changes: seq<Change>, steps: seq<Step>)
    | Dir(order: seq<byte>, entries: seq<seq<byte>>)
    | Tail(bytes: seq<byte>)

  ghost predicate Proper(kinds: seq<Kind>, sec: Section) {
    match sec
    case Snap(time, vals) => Int64(time) && FitAll(kinds, vals)
    case Cyc(time, changes, steps) => Int64(time) && Rising(kinds, 0, changes) && StepsFit(kinds, steps)
    case Dir(order, entries) =>
      |order| == 4 && |entries| < 0x8000_0000 && forall k :: 0 <= k < |entries| ==> |entries[k]| == 8
    case Tail(bytes) => |bytes| == 8
  }

  function Concat(entries: seq<seq<byte>>): (bytes: seq<byte>) {
    if entries == [] then [] else Concat(entries[..|entries| - 1]) + entries[|entries| - 1]
  }

  lemma {:induction false} ConcatSize(entries: seq<seq<byte>>)
    requires forall k :: 0 <= k < |entries| ==> |entries[k]| == 8
    ensures |Concat(entries)| == 8 * |entries|
  {
    if entries != [] {
      ConcatSize(entries[..|entries| - 1]);
    }
  }

  function DirectoryBytes(be: bool, order: seq<byte>, entries: seq<seq<byte>>): (bytes: seq<byte>) {
    order + (WordBytes(|entries|, 4, be) + (Concat(entries) + EOD))
  }

  lemma {:induction false} DirectoryReads(f: File, st: State, order: seq<byte>, entries: seq<seq<byte>>)
    requires |order| == 4 && |entries| < 0x8000_0000 && forall k :: 0 <= k < |entries| ==> |entries[k]| == 8
    requires At(f.s, st.pos, DirectoryBytes(f.be, order, entries))
    ensures Directory(f, st) == Ret(OK, st.(pos := st.pos + |DirectoryBytes(f.be, order, entries)|))
  {
    ConcatSize(entries);
    AtSplit(f.s, st.pos, order, WordBytes(|entries|, 4, f.be) + (Concat(entries) + EOD));
    AtSplit(f.s, st.pos + 4, WordBytes(|entries|, 4, f.be), Concat(entries) + EOD);
    AtSplit(f.s, st.pos + 8, Concat(entries), EOD);
    CountReads(f.s, st.pos + 4, f.be, |entries|);
    TagReads(f, st.(pos := st.pos + 8 + 8 * |entries|), EOD);
  }

  function SectionBytes(kinds: seq<Kind>, be: bool, sec: Section): (bytes: seq<byte>)
    requires Proper(kinds, sec)
  {
    match sec
    case Snap(time, vals) => SNP + SnapshotBytes(kinds, be, time, vals)
    case Cyc(time, changes, steps) => CYC + CycleBytes(kinds, be, time, changes, steps)
    case Dir(order, entries) => DIR + DirectoryBytes(be, order, entries)
    case Tail(bytes) => TAI + bytes
  }

  ghost predicate AllProper(kinds: seq<Kind>, secs: seq<Section>) {
    forall k :: 0 <= k < |secs| ==> Proper(kinds, secs[k])
  }

  function FileBytes(kinds: seq<Kind>, be: bool, secs: seq<Section>): (bytes: seq<byte>)
    requires AllProper(kinds, secs)
  {
    if secs == [] then [] else SectionBytes(kinds, be, secs[0]) + FileBytes(kinds, be, secs[1..])
  }

  /** What a section says: the time and the values after it. */
  function ValuesAfter(kinds: seq<Kind>, vals: seq<Value>, sec: Section): (r: seq<Value>)
    requires |vals| == |kinds| && Proper(kinds, sec)
    ensures |r| == |kinds|
  {
    match sec
    case Snap(_, news) => Updated(kinds, vals, news, 0)
    case Cyc(_, changes, steps) => Stepped(Changed(vals, changes), steps)
    case Dir(_, _) => vals
    case Tail(_) => vals
  }

  function TimeAfter(time: int, sec: Section): int {
    match sec
    case Snap(t, _) => TimeRead(t)
    case Cyc(t, _, steps) => Clocked(TimeRead(t), steps)
    case Dir(_, _) => time
    case Tail(_) => time
  }

  function FileValues(kinds: seq<Kind>, vals: seq<Value>, secs: seq<Section>): (r: seq<Value>)
    requires |vals| == |kinds| && AllProper(kinds, secs)
    ensures |r| == |kinds|
    decreases |secs|
  {
    if secs == [] then vals else FileValues(kinds, ValuesAfter(kinds, vals, secs[0]), secs[1..])
  }

  function FileTime(time: int, secs: seq<Section>): int
    decreases |secs|
  {
    if secs == [] then time else FileTime(TimeAfter(time, secs[0]), secs[1..])
  }

  /** What a dump does with one section. */
  function OneSection(f: File, st: State): (r: Reply)
    requires |f.kinds| == |st.vals| && st.pos + 4 <= |f.s|
  {
    var hdr, in_ := f.s[st.pos..st.pos + 4], st.(pos := st.pos + 4);
    if hdr == SNP then Snapshot(f, in_)
    else if hdr == CYC then Cycle(f, in_)
    else if hdr == DIR then Directory(f, in_)
    else if hdr == TAI then Tailer(f, in_)
    else Ret(ERROR, in_)
  }

  lemma {:induction false} HeaderIs(s: seq<byte>, at: nat, tag: seq<byte>, rest: seq<byte>)
    requires |tag| == 4 && At(s, at, tag + rest)
    ensures at + 4 <= |s| && s[at..at + 4] == tag && At(s, at + 4, rest)
  {
    AtSplit(s, at, tag, rest);
  }

  lemma {:induction false} SectionReads(f: File, st: State, sec: Section, end: nat)
    requires |st.vals| == |f.kinds| < TWO32 && Proper(f.kinds, sec) && st.pos <= |f.s|
    requires At(f.s, st.pos, SectionBytes(f.kinds, f.be, sec)) && end == st.pos + |SectionBytes(f.kinds, f.be, sec)|
    ensures st.pos + 4 <= |f.s|
    ensures OneSection(f, st)
            == Ret(OK, State(end, TimeAfter(st.snapTime, sec), ValuesAfter(f.kinds, st.vals, sec)))
  {
    var in_ := st.(pos := st.pos + 4);
    match sec
    case Snap(time, vals) =>
      HeaderIs(f.s, st.pos, SNP, SnapshotBytes(f.kinds, f.be, time, vals));
      SnapshotReads(f, in_, time, vals, end);
    case Cyc(time, changes, steps) =>
      HeaderIs(f.s, st.pos, CYC, CycleBytes(f.kinds, f.be, time, changes, steps));
      CycleReads(f, in_, time, changes, steps, end);
    case Dir(order, entries) =>
      HeaderIs(f.s, st.pos, DIR, DirectoryBytes(f.be, order, entries));
      DirectoryReads(f, in_, order, entries);
    case Tail(bytes) =>
      HeaderIs(f.s, st.pos, TAI, bytes);
  }

  /** A dump of any sections succeeds at the end of the file, with the values and the time they say. */
  lemma {:induction false} DumpReads(f: File, st: State, secs: seq<Section>)
    requires |st.vals| == |f.kinds| < TWO32 && AllProper(f.kinds, secs) && st.pos <= |f.s|
    requires At(f.s, st.pos, FileBytes(f.kinds, f.be, secs)) && st.pos + |FileBytes(f.kinds, f.be, secs)| == |f.s|
    ensures Dump(f, st) == Ret(OK, State(|f.s|, FileTime(st.snapTime, secs), FileValues(f.kinds, st.vals, secs)))
    decreases |secs|, 0
  {
    if secs != [] {
      DumpReadsOn(f, st, secs[0], secs[1..], SectionBytes(f.kinds, f.be, secs[0]), FileBytes(f.kinds, f.be, secs[1..]));
    }
  }

  lemma {:induction false} DumpReadsOn(f: File, st: State, sec: Section, more: seq<Section>, first: seq<byte>,
                                       rest: seq<byte>)
    requires |st.vals| == |f.kinds| < TWO32 && Proper(f.kinds, sec) && AllProper(f.kinds, more) && st.pos <= |f.s|
    requires first == SectionBytes(f.kinds, f.be, sec) && rest == FileBytes(f.kinds, f.be, more)
    requires At(f.s, st.pos, first + rest) && st.pos + |first| + |rest| == |f.s|
    ensures Dump(f, st) == Ret(OK, State(|f.s|, FileTime(TimeAfter(st.snapTime, sec), more),
                                         FileValues(f.kinds, ValuesAfter(f.kinds, st.vals, sec), more)))
    decreases |more|, 1
  {
    var next := State(st.pos + |first|, TimeAfter(st.snapTime, sec), ValuesAfter(f.kinds, st.vals, sec));
    AtSplit(f.s, st.pos, first, rest);
    SectionReads(f, st, sec, next.pos);
    assert Dump(f, st) == Dump(f, next);
    DumpReads(f, next, more);
  }

  // ---- what is refused ----

  /** Four bytes end where the reader is. */
  predicate EndsWith(f: File, st: State, tag: seq<byte>) {
    4 <= st.pos <= |f.s| && f.s[st.pos - 4..st.pos] == tag
  }

  lemma {:induction false} CycleMarked(f: File, st: State)
    requires |f.kinds| == |st.vals| && st.pos <= |f.s|
    ensures CycleRest(f, st).Ret? && CycleRest(f, st).code == OK ==> EndsWith(f, CycleRest(f, st).st, ECY)
    decreases |f.s| - st.pos
  {
    var n := CycleNext(f, st);
    if n.Ret? && n.code == 1 {
      var r := CycleCont(f, n.st, 0);
      if r.Ret? && r.code == OK {
        CycleMarked(f, r.st);
      }
    }
  }

  /** A section is accepted only with its end mark, and a snapshot only with four zero bytes first. */
  lemma {:induction false} SnapshotChecks(f: File, st: State)
    requires |f.kinds| == |st.vals|
    ensures var r := Snapshot(f, st);
            r.Ret? && r.code == OK ==> EndsWith(f, r.st, [69, 83, 78, 0]) && f.s[st.pos..st.pos + 4] == [0, 0, 0, 0]
  {
  }

  lemma {:induction false} CycleChecks(f: File, st: State)
    requires |f.kinds| == |st.vals| && st.pos <= |f.s|
    ensures var r := Cycle(f, st); r.Ret? && r.code == OK ==> EndsWith(f, r.st, [69, 67, 89, 0])
  {
    var b := CycleStart(f, st);
    if b.code == OK {
      var r := CycleCont(f, b.st, 0);
      if r.Ret? && r.code == OK {
        CycleMarked(f, r.st);
      }
    }
  }

  lemma {:induction false} DirectoryChecks(f: File, st: State)
    ensures var r := Directory(f, st); r.code == OK ==> EndsWith(f, r.st, [69, 79, 68, 0])
  {
  }

  /** A dump goes on from a section to the next only if it knows the section and that was read without
      an error; it ends well only where less than a header is left. */
  lemma {:induction false} DumpChecks(f: File, st: State)
    requires |f.kinds| == |st.vals| && st.pos <= |f.s|
    ensures st.pos + 4 > |f.s| ==> Dump(f, st) == Ret(OK, st.(pos := |f.s|))
    ensures st.pos + 4 <= |f.s| ==>
              (var r := OneSection(f, st); Dump(f, st) == if r.Ret? && r.code == OK then Dump(f, r.st) else r)
    ensures st.pos + 4 <= |f.s|
            && f.s[st.pos..st.pos + 4] !in {[83, 78, 80, 0], [67, 89, 67, 0], [68, 73, 82, 0], [84, 65, 73, 0]} ==>
              Dump(f, st) == Ret(ERROR, st.(pos := st.pos + 4))
  {
  }
}
