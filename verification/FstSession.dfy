/** Whole runs of the writer, over any number of sections: every change is delivered from a section
    that was flushed, or is still in the writer. */
module FstSession {
  import opened Bytes
  import opened FstVarint
  import opened Leb128
  import opened FstRecord
  import opened FstIndex
  import opened FstTables
  import opened FstSection
  import opened FstTimes
  import opened FstWriter
  import opened FstMerge
  import opened FstRoundTrip

  /** A simulator writes, changes the time, or asks for a flush. */
  datatype Call = Do(op: Op) | Flush

  function OpsOf(calls: seq<Call>): (ops: seq<Op>) {
    if calls == [] then [] else (if calls[0].Do? then [calls[0].op] else []) + OpsOf(calls[1..])
  }

  lemma {:induction false} FirstOp(calls: seq<Call>)
    requires calls != []
    ensures calls[0].Do? ==>
              OpsOf(calls) != [] && OpsOf(calls)[0] == calls[0].op
              && OpsOf(calls)[1..] == OpsOf(calls[1..])
    ensures calls[0].Flush? ==> OpsOf(calls) == OpsOf(calls[1..])
  {
  }

  // ---- what a run needs ----

  /** As much of the writer's state as decides what the next call needs, and the tables of the traversal
      that reads its sections. */
  datatype Pen = Pen(chains: seq<Chain>, idx: nat, size: nat, pending: bool, tables: Tables)

  predicate Due(breakSize: nat, pen: Pen) {
    pen.size >= breakSize || pen.pending
  }

  function PenWith(lens: seq<nat>, pen: Pen, h: nat, value: seq<byte>): Pen
    requires h < |lens| == |pen.chains|
  {
    pen.(chains := pen.chains[h := Grown(pen.chains[h], pen.idx, value)],
         size := pen.size + RecordSize(lens[h], pen.idx - Total(pen.chains[h]), |value|))
  }

  /** A section of these chains can be shared, and read back with the tables the section before has left. */
  ghost predicate Readable(c: Codec, lens: seq<nat>, pen: Pen) {
    AllStorable(lens, pen.chains) && Recoverable(c, lens, pen.chains) && Ready(c, lens, pen.chains, pen.tables)
  }

  ghost function PenFlushed(c: Codec, lens: seq<nat>, pen: Pen): Pen {
    Pen(Nils(|lens|), 1, 1, false, if Readable(c, lens, pen) then TablesLeft(c, lens, pen.chains, pen.tables)
        else pen.tables)
  }

  ghost function PenAfter(c: Codec, lens: seq<nat>, breakSize: nat, pen: Pen, call: Call): Pen {
    match call
    case Flush => pen.(pending := pen.pending || pen.idx > 1)
    case Do(Time(_)) => if Due(breakSize, pen) then PenFlushed(c, lens, pen) else pen.(idx := pen.idx + 1)
    case Do(Value(h, value)) => if h < |lens| == |pen.chains| && lens[h] > 0 then PenWith(lens, pen, h, value) else pen
    case Do(Text(h, value)) => if h < |lens| == |pen.chains| && lens[h] == 0 then PenWith(lens, pen, h, value) else pen
  }

  /** The side conditions of one call: room for its change, and for a time change that finds a flush
      due, a section that is not empty and can be read back. */
  ghost predicate Allowed(c: Codec, lens: seq<nat>, breakSize: nat, pen: Pen, call: Call) {
    match call
    case Flush => true
    case Do(Time(time)) => time < TWO64 && (Due(breakSize, pen) ==> Readable(c, lens, pen))
    case Do(_) => pen.idx + 1 < TWO28 && pen.size < TWO31
  }

  ghost predicate Smooth(c: Codec, lens: seq<nat>, breakSize: nat, pen: Pen, calls: seq<Call>)
    decreases |calls|
  {
    calls == []
    || (Allowed(c, lens, breakSize, pen, calls[0])
        && Smooth(c, lens, breakSize, PenAfter(c, lens, breakSize, pen, calls[0]), calls[1..]))
  }

  lemma {:induction false} SmoothNext(c: Codec, lens: seq<nat>, breakSize: nat, pen: Pen, calls: seq<Call>, pen2: Pen)
    requires calls != [] && Smooth(c, lens, breakSize, pen, calls)
             && pen2 == PenAfter(c, lens, breakSize, pen, calls[0])
    ensures Allowed(c, lens, breakSize, pen, calls[0]) && Smooth(c, lens, breakSize, pen2, calls[1..])
  {
  }

  ghost function PenOf(w: Writer, t: Tables): Pen
    reads w
  {
    Pen(w.chains, w.tchnIdx, |w.vchg|, w.flushPending, t)
  }

  /** The writer is inside a section and these calls can follow. */
  ghost predicate Going(w: Writer, calls: seq<Call>, t: Tables)
    reads w
  {
    && Live(w) && w.curtime < TWO64 && |w.chains| == |w.lens|
    && Proper(w.lens, OpsOf(calls), w.curtime) && Smooth(w.c, w.lens, w.breakSize, PenOf(w, t), calls)
  }

  // ---- what a run promises ----

  /** The values after these calls. */
  function ValuesAfter(lens: seq<nat>, values: seq<seq<byte>>, ops: seq<Op>): seq<seq<byte>>
    decreases |ops|
  {
    if ops == [] then values
    else ValuesAfter(lens, ValuesNext(lens, values, ops[0]), ops[1..])
  }

  function ValuesNext(lens: seq<nat>, values: seq<seq<byte>>, op: Op): seq<seq<byte>> {
    if op.Value? && op.handle < |lens| == |values| && lens[op.handle] > 0 then values[op.handle := op.value] else values
  }

  lemma {:induction false} ValuesStep(lens: seq<nat>, values: seq<seq<byte>>, ops: seq<Op>, values2: seq<seq<byte>>)
    requires ops != [] && values2 == ValuesNext(lens, values, ops[0])
    ensures ValuesAfter(lens, values2, ops[1..]) == ValuesAfter(lens, values, ops)
  {
  }

  /** What each handle has been delivered, followed by the rest of its story. */
  function Sofar(out: seq<Delivery>, stories: seq<seq<Change>>): (r: seq<seq<Change>>)
    ensures |r| == |stories| && forall h :: 0 <= h < |stories| ==> r[h] == For(out, h) + stories[h]
  {
    seq(|stories|, h requires 0 <= h < |stories| => For(out, h) + stories[h])
  }

  lemma {:induction false} ForJoin(out: seq<Delivery>, more: seq<Delivery>, h: nat)
    ensures For(out + more, h) == For(out, h) + For(more, h)
    decreases |more|
  {
    if more == [] {
      assert out + more == out;
    } else {
      var most, d := more[..|more| - 1], more[|more| - 1];
      ForJoin(out, most, h);
      ForSnoc(out + most, d, h);
      ForSnoc(most, d, h);
      assert out + more == (out + most) + [d] && most + [d] == more;
    }
  }

  lemma {:induction false} SofarNone(stories: seq<seq<Change>>)
    ensures Sofar([], stories) == stories
  {
    assert forall h :: 0 <= h < |stories| ==> [] + stories[h] == stories[h];
  }

  lemma {:induction false} SofarJoin(out: seq<Delivery>, more: seq<Delivery>, stories: seq<seq<Change>>)
    ensures Sofar(out + more, stories) == Sofar(out, Sofar(more, stories))
  {
    forall h | 0 <= h < |stories|
      ensures For(out + more, h) + stories[h] == For(out, h) + (For(more, h) + stories[h])
    {
      ForJoin(out, more, h);
    }
  }

  /** The stories after a call that flushes nothing. */
  function StoriesNext(lens: seq<nat>, stories: seq<seq<Change>>, now: nat, op: Op): (r: seq<seq<Change>>)
    requires |stories| == |lens| && (!op.Time? ==> op.handle < |lens|)
    requires op.Value? && lens[op.handle] > 0 ==> |op.value| == lens[op.handle]
    ensures |r| == |lens|
  {
    match op
    case Value(h, value) => if lens[h] > 0 then stories[h := stories[h] + [(now, Delivered(lens[h], value))]]
        else stories
    case Text(h, value) => if lens[h] == 0 then stories[h := stories[h] + [(now, value)]] else stories
    case Time(_) => stories
  }

  /** Such a call is one less to come true. */
  lemma {:induction false} StoryTold(lens: seq<nat>, stories: seq<seq<Change>>, ops: seq<Op>, now: nat,
                                     stories2: seq<seq<Change>>, now2: nat)
    requires |stories| == |lens| && Proper(lens, ops, now) && ops != []
    requires stories2 == StoriesNext(lens, stories, now, ops[0]) && now2 == if ops[0].Time? then ops[0].time else now
    ensures Proper(lens, ops[1..], now2)
    ensures Sofar([], Foretold(lens, stories2, ops[1..], now2)) == Foretold(lens, stories, ops, now)
  {
    SofarNone(Foretold(lens, stories2, ops[1..], now2));
    match ops[0]
    case Value(h, value) =>
      if lens[h] > 0 {
        ForetoldChange(lens, stories, ops, now, h, (now, Delivered(lens[h], value)));
      } else {
        ForetoldOther(lens, stories, ops, now);
      }
    case Text(h, value) =>
      if lens[h] == 0 {
        ForetoldChange(lens, stories, ops, now, h, (now, value));
      } else {
        ForetoldOther(lens, stories, ops, now);
      }
    case Time(_) => ForetoldOther(lens, stories, ops, now);
  }

  /** A section read back: what it delivers is what the writer held. */
  lemma {:induction false} SofarFlushed(lens: seq<nat>, more: seq<Delivery>, told: seq<seq<Change>>,
                                        empty: seq<seq<Change>>, ops: seq<Op>, now: nat)
    requires |told| == |empty| == |lens| && Proper(lens, ops, now) && ops != [] && ops[0].Time?
    requires forall h :: 0 <= h < |lens| ==> For(more, h) == told[h] && empty[h] == []
    ensures Proper(lens, ops[1..], ops[0].time)
    ensures Sofar(more, Foretold(lens, empty, ops[1..], ops[0].time)) == Foretold(lens, told, ops, now)
  {
    forall h | 0 <= h < |lens|
      ensures For(more, h) + ([] + Log(lens, ops[1..], ops[0].time, h)) == told[h] + Log(lens, ops, now, h)
    {
      assert [] + Log(lens, ops[1..], ops[0].time, h) == Log(lens, ops[1..], ops[0].time, h);
    }
  }

  lemma {:induction false} ByTimeJoin(out: seq<Delivery>, more: seq<Delivery>, from: nat, mid: nat, upto: nat)
    requires ByTime(out) && ByTime(more) && Between(out, from, mid) && Between(more, mid, upto) && from <= mid <= upto
    ensures ByTime(out + more) && Between(out + more, from, upto)
  {
  }

  // ---- one call ----

  /** `more` is what this call delivers; the rest is still to come true. */
  twostate predicate Goes(w: Writer, calls: seq<Call>, more: seq<Delivery>, t: Tables, t2: Tables)
    requires calls != [] && old(Going(w, calls, t))
    reads w
  {
    Going(w, calls[1..], t2)
    && Sofar(more, Foretold(w.lens, Told(w), OpsOf(calls[1..]), w.curtime))
       == old(Foretold(w.lens, Told(w), OpsOf(calls), w.curtime))
    && ValuesAfter(w.lens, w.Values(), OpsOf(calls[1..])) == old(ValuesAfter(w.lens, w.Values(), OpsOf(calls)))
    && ByTime(more) && Between(more, old(w.begin), w.begin) && old(w.begin) <= w.begin
  }

  method DoValue(w: Writer, calls: seq<Call>, ghost t: Tables)
    requires calls != [] && Going(w, calls, t) && calls[0].Do? && calls[0].op.Value?
    modifies w
    ensures Goes(w, calls, [], t, t)
  {
    FirstOp(calls);
    ghost var pen, values, told, ops := PenOf(w, t), w.Values(), Told(w), OpsOf(calls);
    WriteValue(w, calls[0].op.handle, calls[0].op.value);
    SmoothNext(w.c, w.lens, w.breakSize, pen, calls, PenOf(w, t));
    ValuesStep(w.lens, values, ops, w.Values());
    StoryTold(w.lens, told, ops, w.curtime, Told(w), w.curtime);
  }

  method DoText(w: Writer, calls: seq<Call>, ghost t: Tables)
    requires calls != [] && Going(w, calls, t) && calls[0].Do? && calls[0].op.Text?
    modifies w
    ensures Goes(w, calls, [], t, t)
  {
    FirstOp(calls);
    ghost var pen, values, told, ops := PenOf(w, t), w.Values(), Told(w), OpsOf(calls);
    WriteText(w, calls[0].op.handle, calls[0].op.value);
    SmoothNext(w.c, w.lens, w.breakSize, pen, calls, PenOf(w, t));
    ValuesStep(w.lens, values, ops, w.Values());
    StoryTold(w.lens, told, ops, w.curtime, Told(w), w.curtime);
  }

  method DoTime(w: Writer, calls: seq<Call>, ghost t: Tables)
    requires calls != [] && Going(w, calls, t) && calls[0].Do? && calls[0].op.Time? && !w.FlushDue()
    modifies w
    ensures Goes(w, calls, [], t, t)
  {
    FirstOp(calls);
    InStepTelling(w);
    ghost var pen, values, told, ops, now := PenOf(w, t), w.Values(), Told(w), OpsOf(calls), w.curtime;
    WriteTime(w, calls[0].op.time);
    SmoothNext(w.c, w.lens, w.breakSize, pen, calls, PenOf(w, t));
    ValuesStep(w.lens, values, ops, w.Values());
    StoryTold(w.lens, told, ops, now, Told(w), w.curtime);
  }

  /** What a due flush can rely on. */
  lemma {:induction false} FlushReady(w: Writer, calls: seq<Call>, t: Tables)
    requires calls != [] && Going(w, calls, t) && calls[0].Do? && calls[0].op.Time? && w.FlushDue()
    ensures |w.vchg| > 1 && w.Small() && w.curtime <= calls[0].op.time < TWO64
    ensures AllStorable(w.lens, w.chains) && Recoverable(w.c, w.lens, w.chains) && Ready(w.c, w.lens, w.chains, t)
  {
    FirstOp(calls);
    assert Allowed(w.c, w.lens, w.breakSize, PenOf(w, t), calls[0]);
    SomethingToFlush(w);
  }

  /** The rest of the calls can follow the flush. */
  lemma {:induction false} FlushSmooth(c: Codec, lens: seq<nat>, breakSize: nat, pen: Pen, calls: seq<Call>, t: Tables,
                                       pen2: Pen)
    requires calls != [] && calls[0].Do? && calls[0].op.Time? && Due(breakSize, pen)
             && Smooth(c, lens, breakSize, pen, calls)
    requires Readable(c, lens, pen) && t == TablesLeft(c, lens, pen.chains, pen.tables)
             && pen2 == Pen(Nils(|lens|), 1, 1, false, t)
    ensures Smooth(c, lens, breakSize, pen2, calls[1..])
  {
    SmoothNext(c, lens, breakSize, pen, calls, pen2);
  }

  /** The flush that was due happens, and what the writer held is read back. */
  method ReadDue(w: Writer, calls: seq<Call>, packtype: byte, trailer: seq<byte>,
                 pidx0: nat, chainTable: array<nat>, chainLengths: array<int>)
      returns (more: seq<Delivery>, pidx: nat)
    requires calls != [] && Going(w, calls, Tables(chainTable[..], chainLengths[..], pidx0)) && |trailer| >= 5
    requires calls[0].Do? && calls[0].op.Time? && w.FlushDue()
    modifies w, chainTable, chainLengths
    ensures Live(w) && w.Values() == old(w.Values()) && w.curtime == calls[0].op.time < TWO64
    ensures Smooth(w.c, w.lens, w.breakSize, PenOf(w, Tables(chainTable[..], chainLengths[..], pidx)), calls[1..])
    ensures w.chains == Nils(|w.lens|) && old(w.begin) <= old(w.curtime) == w.begin
    ensures ByTime(more) && Between(more, old(w.begin), w.begin)
    ensures forall h :: 0 <= h < |w.lens| ==> For(more, h) == old(Told(w))[h]
  {
    ghost var t := Tables(chainTable[..], chainLengths[..], pidx0);
    ghost var pen := PenOf(w, t);
    FlushReady(w, calls, t);
    assert Due(w.breakSize, pen) && Readable(w.c, w.lens, pen);
    var begin, end;
    more, pidx, begin, end := FlushAndRead(w, calls[0].op.time, packtype, trailer, pidx0, chainTable, chainLengths);
    ghost var t2 := Tables(chainTable[..], chainLengths[..], pidx);
    FlushSmooth(w.c, w.lens, w.breakSize, pen, calls, t2, PenOf(w, t2));
  }

  method DoTimeAndFlush(w: Writer, calls: seq<Call>, packtype: byte, trailer: seq<byte>,
                        pidx0: nat, chainTable: array<nat>, chainLengths: array<int>)
      returns (more: seq<Delivery>, pidx: nat)
    requires calls != [] && Going(w, calls, Tables(chainTable[..], chainLengths[..], pidx0)) && |trailer| >= 5
    requires calls[0].Do? && calls[0].op.Time? && w.FlushDue()
    modifies w, chainTable, chainLengths
    ensures Goes(w, calls, more, old(Tables(chainTable[..], chainLengths[..], pidx0)),
                 Tables(chainTable[..], chainLengths[..], pidx))
  {
    FirstOp(calls);
    ghost var told, ops, now, values := Told(w), OpsOf(calls), w.curtime, w.Values();
    more, pidx := ReadDue(w, calls, packtype, trailer, pidx0, chainTable, chainLengths);
    NothingHeld(w);
    SofarFlushed(w.lens, more, told, Told(w), ops, now);
    ValuesStep(w.lens, values, ops, w.Values());
  }

  lemma {:induction false} NothingHeld(w: Writer)
    requires Live(w) && w.chains == Nils(|w.lens|)
    ensures forall h :: 0 <= h < |w.lens| ==> Told(w)[h] == []
  {
    InStepTelling(w);
    forall h | 0 <= h < |w.lens|
      ensures Told(w)[h] == []
    {
      assert Told(w)[h] == Story(w.lens[h], Nil, w.times);
    }
  }

  method AskFlush(w: Writer, calls: seq<Call>, ghost t: Tables)
    requires calls != [] && Going(w, calls, t) && calls[0].Flush?
    modifies w
    ensures Goes(w, calls, [], t, t)
  {
    FirstOp(calls);
    ghost var pen := PenOf(w, t);
    w.FlushContext();
    SmoothNext(w.c, w.lens, w.breakSize, pen, calls, PenOf(w, t));
    SofarNone(Foretold(w.lens, Told(w), OpsOf(calls[1..]), w.curtime));
  }

  method Make(w: Writer, calls: seq<Call>, packtype: byte, trailer: seq<byte>, pidx0: nat, chainTable: array<nat>,
              chainLengths: array<int>)
      returns (more: seq<Delivery>, pidx: nat)
    requires calls != [] && Going(w, calls, Tables(chainTable[..], chainLengths[..], pidx0)) && |trailer| >= 5
    modifies w, chainTable, chainLengths
    ensures Goes(w, calls, more, old(Tables(chainTable[..], chainLengths[..], pidx0)),
                 Tables(chainTable[..], chainLengths[..], pidx))
  {
    more, pidx := [], pidx0;
    ghost var t := Tables(chainTable[..], chainLengths[..], pidx0);
    match calls[0]
    case Flush => AskFlush(w, calls, t);
    case Do(Value(_, _)) => DoValue(w, calls, t);
    case Do(Text(_, _)) => DoText(w, calls, t);
    case Do(Time(_)) =>
      if |w.vchg| >= w.breakSize || w.flushPending {
        more, pidx := DoTimeAndFlush(w, calls, packtype, trailer, pidx0, chainTable, chainLengths);
      } else {
        DoTime(w, calls, t);
      }
  }

  // ---- whole runs ----

  /** Whatever the calls, and wherever the section boundaries fall: what one traversal of the sections
      delivers, in order of time, and what the writer still holds, is what was written, each change once
      and in order. */
  method Session(w: Writer, calls: seq<Call>, packtype: byte, trailer: seq<byte>) returns (out: seq<Delivery>)
    requires Going(w, calls, Fresh(|w.lens|)) && |trailer| >= 5
    modifies w
    ensures Live(w) && w.Values() == ValuesAfter(w.lens, old(w.Values()), OpsOf(calls))
    ensures ByTime(out) && Between(out, old(w.begin), w.begin)
    ensures forall h :: 0 <= h < |w.lens| ==>
              For(out, h) + Told(w)[h] == old(Told(w))[h] + Log(w.lens, OpsOf(calls), old(w.curtime), h)
    ensures forall h :: 0 <= h < |w.lens| ==>
              Returned(w.lens[h], AsWritten(w.lens, OpsOf(calls), old(w.curtime), h),
                       (For(out, h) + Told(w)[h])[|old(Told(w))[h]|..])
  {
    out := [];
    var left, pidx := calls, 0;
    var chainTable, chainLengths := NewTables(|w.lens|);
    ghost var goal := Foretold(w.lens, Told(w), OpsOf(calls), w.curtime);
    SofarNone(goal);
    while left != []
      invariant Going(w, left, Tables(chainTable[..], chainLengths[..], pidx))
      invariant Sofar(out, Foretold(w.lens, Told(w), OpsOf(left), w.curtime)) == goal
      invariant ValuesAfter(w.lens, w.Values(), OpsOf(left)) == ValuesAfter(w.lens, old(w.Values()), OpsOf(calls))
      invariant ByTime(out) && Between(out, old(w.begin), w.begin) && old(w.begin) <= w.begin
    {
      ghost var mid := w.begin;
      var more;
      more, pidx := Make(w, left, packtype, trailer, pidx, chainTable, chainLengths);
      left := left[1..];
      SofarJoin(out, more, Foretold(w.lens, Told(w), OpsOf(left), w.curtime));
      ByTimeJoin(out, more, old(w.begin), mid, w.begin);
      out := out + more;
    }
    ForetoldNone(w.lens, Told(w), w.curtime);
    assert Sofar(out, Told(w)) == goal;
    SinceReturned(w.lens, old(Told(w)), OpsOf(calls), old(w.curtime), goal);
  }

  /** What comes after the stories there were at the start is what was written since. */
  lemma {:induction false} SinceReturned(lens: seq<nat>, told: seq<seq<Change>>, ops: seq<Op>, now: nat,
                                         goal: seq<seq<Change>>)
    requires |told| == |lens| && Proper(lens, ops, now) && goal == Foretold(lens, told, ops, now)
    ensures forall h :: 0 <= h < |lens| ==>
              |told[h]| <= |goal[h]| && Returned(lens[h], AsWritten(lens, ops, now, h), goal[h][|told[h]|..])
  {
    LogsReturn(lens, ops, now);
    forall h | 0 <= h < |lens|
      ensures |told[h]| <= |goal[h]| && goal[h][|told[h]|..] == Log(lens, ops, now, h)
    {
      assert goal[h] == told[h] + Log(lens, ops, now, h);
    }
  }

  // ---- from the creation of the writer on ----

  /** Calls that come before the first time change. */
  ghost predicate Early(lens: seq<nat>, calls: seq<Call>) {
    forall call :: call in calls && call.Do? ==>
      !call.op.Time? && call.op.handle < |lens| && |call.op.value| < TWO32
      && (call.op.Value? && lens[call.op.handle] > 0 ==> |call.op.value| == lens[call.op.handle])
  }

  /** Before the first time change, fixed-length values go into the frame, and the writer takes note that
      there has been a call. */
  method MakeEarly(w: Writer, calls: seq<Call>)
    requires w.Valid() && w.isInitialTime && Early(w.lens, calls) && |w.vchg| + Weight(OpsOf(calls)) < TWO31
    requires w.mapped == w.vcEmitted
    modifies w
    ensures w.Valid() && w.isInitialTime && w.flushPending == old(w.flushPending)
    ensures w.vcEmitted == (old(w.vcEmitted) || OpsOf(calls) != [])
    ensures w.Values() == ValuesAfter(w.lens, old(w.Values()), OpsOf(calls))
  {
    var left := calls;
    while left != []
      invariant w.Valid() && w.isInitialTime && Early(w.lens, left) && |w.vchg| + Weight(OpsOf(left)) < TWO31
      invariant w.mapped == w.vcEmitted && w.flushPending == old(w.flushPending)
      invariant (w.vcEmitted || OpsOf(left) != []) == (old(w.vcEmitted) || OpsOf(calls) != [])
      invariant ValuesAfter(w.lens, w.Values(), OpsOf(left)) == ValuesAfter(w.lens, old(w.Values()), OpsOf(calls))
    {
      FirstOp(left);
      MakeEarlyCall(w, left[0]);
      left := left[1..];
    }
  }

  method MakeEarlyCall(w: Writer, call: Call)
    requires w.Valid() && w.isInitialTime && Early(w.lens, [call]) && |w.vchg| < TWO31 && w.mapped == w.vcEmitted
    modifies w
    ensures w.Valid() && w.isInitialTime && w.mapped == w.vcEmitted && w.flushPending == old(w.flushPending)
    ensures w.vcEmitted == (old(w.vcEmitted) || call.Do?)
    ensures |w.vchg| <= |old(w.vchg)| + if call.Do? then |call.op.value| + 14 else 0
    ensures w.Values() == if call.Do? then ValuesNext(w.lens, old(w.Values()), call.op) else old(w.Values())
  {
    assert call in [call];
    match call
    case Flush => w.FlushContext();
    case Do(Value(h, value)) => w.EmitValueChange(h, value);
    case Do(Text(h, value)) => w.EmitVariableLengthValueChange(h, value);
  }

  /** A new writer, the calls before the first time change, and that. */
  method Open(c: Codec, hash: seq<byte> -> nat, hashmask: nat, lens: seq<nat>, breakSize: nat, initial: seq<seq<byte>>,
              early: seq<Call>, tim: nat)
      returns (w: Writer)
    requires |lens| < TWO31 && breakSize > 1 && Sized(lens, initial) && Early(lens, early)
             && Weight(OpsOf(early)) < TWO31
    ensures fresh(w) && Live(w) && w.c == c && w.lens == lens && w.breakSize == breakSize && !w.flushPending
    ensures w.Values() == ValuesAfter(lens, initial, OpsOf(early))
    ensures w.Held() == Opened(w.Values(), if OpsOf(early) != [] then 0 else tim, tim)
    ensures w.frame == w.Values() && w.begin == if OpsOf(early) != [] then 0 else tim
  {
    w := new Writer(c, hash, hashmask, lens, breakSize, initial);
    MakeEarly(w, early);
    var section := w.EmitTimeChange(tim);
  }

  lemma {:induction false} OpenGoing(w: Writer, calls: seq<Call>, begin: nat, tim: nat)
    requires Live(w) && !w.flushPending && |w.Values()| == |w.lens| && w.Held() == Opened(w.Values(), begin, tim)
    requires tim < TWO64 && Proper(w.lens, OpsOf(calls), tim)
    requires Smooth(w.c, w.lens, w.breakSize, Pen(Nils(|w.lens|), 0, 1, false, Fresh(|w.lens|)), calls)
    ensures Going(w, calls, Fresh(|w.lens|)) && w.curtime == tim && w.chains == Nils(|w.lens|)
  {
    assert PenOf(w, Fresh(|w.lens|)) == Pen(Nils(|w.lens|), 0, 1, false, Fresh(|w.lens|));
  }

  /** A run from the creation of the writer on: the calls before the first time change set the values the
      first section starts from, and a traversal delivers what was written from then on. */
  method WholeSession(c: Codec, hash: seq<byte> -> nat, hashmask: nat, lens: seq<nat>, breakSize: nat,
                      initial: seq<seq<byte>>,
                      early: seq<Call>, tim: nat, calls: seq<Call>, packtype: byte, trailer: seq<byte>)
      returns (w: Writer, out: seq<Delivery>)
    requires |lens| < TWO31 && breakSize > 1 && Sized(lens, initial) && |trailer| >= 5
    requires Early(lens, early) && Weight(OpsOf(early)) < TWO31
    requires tim < TWO64 && Proper(lens, OpsOf(calls), tim)
    requires Smooth(c, lens, breakSize, Pen(Nils(|lens|), 0, 1, false, Fresh(|lens|)), calls)
    ensures Live(w) && w.lens == lens && ByTime(out)
    ensures w.Values() == ValuesAfter(lens, ValuesAfter(lens, initial, OpsOf(early)), OpsOf(calls))
    ensures forall h :: 0 <= h < |lens| ==> For(out, h) + Told(w)[h] == Log(lens, OpsOf(calls), tim, h)
    ensures forall h :: 0 <= h < |lens| ==>
              Returned(lens[h], AsWritten(lens, OpsOf(calls), tim, h), For(out, h) + Told(w)[h])
  {
    LogsReturn(lens, OpsOf(calls), tim);
    w := Open(c, hash, hashmask, lens, breakSize, initial, early, tim);
    OpenGoing(w, calls, if OpsOf(early) != [] then 0 else tim, tim);
    NothingHeld(w);
    ghost var told := Told(w);
    out := Session(w, calls, packtype, trailer);
    LogAlone(lens, told, OpsOf(calls), tim);
  }

  lemma {:induction false} LogAlone(lens: seq<nat>, told: seq<seq<Change>>, ops: seq<Op>, now: nat)
    requires |told| == |lens| && Proper(lens, ops, now) && forall h :: 0 <= h < |lens| ==> told[h] == []
    ensures forall h :: 0 <= h < |lens| ==> told[h] + Log(lens, ops, now, h) == Log(lens, ops, now, h)
  {
    forall h | 0 <= h < |lens|
      ensures told[h] + Log(lens, ops, now, h) == Log(lens, ops, now, h)
    {
      assert [] + Log(lens, ops, now, h) == Log(lens, ops, now, h);
    }
  }
}
