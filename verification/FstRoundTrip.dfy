/** What one section is for: every change that was written comes back, at its time and in order. */
module FstRoundTrip {
  import opened Bytes
  import opened FstVarint
  import opened Leb128
  import opened FstRecord
  import opened FstIndex
  import opened FstLayout
  import opened FstTables
  import opened FstSection
  import opened FstTimes
  import opened FstWriter
  import opened FstMerge

  // ---- changes and their times ----

  ghost predicate Timed(changes: seq<Change>, table: seq<nat>) {
    forall k :: 0 <= k < |changes| ==> changes[k].0 < |table|
  }

  /** Time steps become times. */
  function Stamp(changes: seq<Change>, table: seq<nat>): (r: seq<Change>)
    requires Timed(changes, table)
    ensures |r| == |changes| && forall k :: 0 <= k < |changes| ==> r[k] == (table[changes[k].0], changes[k].1)
  {
    seq(|changes|, k requires 0 <= k < |changes| => (table[changes[k].0], changes[k].1))
  }

  /** All changes of a handle, with their times. */
  function Story(len: nat, chain: Chain, times: Times): (r: seq<Change>)
    requires Storable(len, chain) && Total(chain) < Ticks(times)
  {
    StepsTimed(len, chain, times);
    Stamp(History(len, chain), TimeTable(times))
  }

  lemma {:induction false} StepsTimed(len: nat, chain: Chain, times: Times)
    requires Storable(len, chain) && Total(chain) < Ticks(times)
    ensures Timed(History(len, chain), TimeTable(times))
  {
    forall k | 0 <= k < |History(len, chain)|
      ensures History(len, chain)[k].0 < |TimeTable(times)|
    {
      HistoryTimes(len, chain, k);
    }
  }

  /** A change at the last time step comes last, with the latest time. */
  lemma {:induction false} StoryGrows(len: nat, chain: Chain, times: Times, idx: nat, value: seq<byte>)
    requires Storable(len, chain) && Total(chain) <= idx && Ticks(times) == idx + 1
    requires StorableChange(len, idx - Total(chain), value)
    ensures Storable(len, Grown(chain, idx, value)) && Total(Grown(chain, idx, value)) == idx
    ensures Story(len, Grown(chain, idx, value), times)
            == Story(len, chain, times) + [(Latest(times), Delivered(len, value))]
  {
    var history := History(len, chain);
    assert History(len, Grown(chain, idx, value)) == history + [(idx, Delivered(len, value))];
    StepsTimed(len, chain, times);
    assert TimeTable(times)[idx] == Latest(times);
  }

  /** Time passing changes no story. */
  lemma {:induction false} StoryStays(len: nat, chain: Chain, times: Times, time: nat)
    requires Storable(len, chain) && Total(chain) < Ticks(times)
    ensures Story(len, chain, Tick(times, time)) == Story(len, chain, times)
  {
    StepsTimed(len, chain, times);
  }

  // ---- what a program writes ----

  datatype Op = Value(handle: nat, value: seq<byte>) | Text(handle: nat, value: seq<byte>) | Time(time: nat)

  /** Calls as a simulator makes them: existing handles, values of the declared size, no step back in
      time. */
  ghost predicate Proper(lens: seq<nat>, ops: seq<Op>, now: nat) {
    ops == [] ||
    match ops[0]
    case Value(h, value) => h < |lens| && |value| < TWO32 && (lens[h] > 0 ==> |value| == lens[h])
         && Proper(lens, ops[1..], now)
    case Text(h, value) => h < |lens| && |value| < TWO32 && Proper(lens, ops[1..], now)
    case Time(time) => now <= time && Proper(lens, ops[1..], time)
  }

  /** The changes one handle should get from these calls. */
  function Log(lens: seq<nat>, ops: seq<Op>, now: nat, h: nat): (r: seq<Change>)
    requires h < |lens| && Proper(lens, ops, now)
  {
    if ops == [] then []
    else
      match ops[0]
      case Value(g, value) =>
        (if g == h && lens[h] > 0 then [(now, Delivered(lens[h], value))] else []) + Log(lens, ops[1..], now, h)
      case Text(g, value) =>
        (if g == h && lens[h] == 0 then [(now, value)] else []) + Log(lens, ops[1..], now, h)
      case Time(time) => Log(lens, ops[1..], time, h)
  }

  /** What is written for one handle, and when: a handle of fixed length takes values, one of variable
      length takes texts. */
  function AsWritten(lens: seq<nat>, ops: seq<Op>, now: nat, h: nat): (r: seq<Change>)
    requires h < |lens|
  {
    if ops == [] then []
    else
      var later := if ops[0].Time? then ops[0].time else now;
      var kept := !ops[0].Time? && ops[0].handle == h && (ops[0].Value? <==> lens[h] > 0);
      (if kept then [(now, ops[0].value)] else []) + AsWritten(lens, ops[1..], later, h)
  }

  /** Every change that was written came back, at its time and in order, with its value. */
  ghost predicate Returned(len: nat, written: seq<Change>, got: seq<Change>) {
    |got| == |written|
    && forall k :: 0 <= k < |got| ==> got[k].0 == written[k].0 && ComesBack(len, written[k].1, got[k].1)
  }

  /** A log that is delivered returns what was written. */
  lemma {:induction false} LogReturns(lens: seq<nat>, ops: seq<Op>, now: nat, h: nat)
    requires h < |lens| && Proper(lens, ops, now)
    ensures Returned(lens[h], AsWritten(lens, ops, now, h), Log(lens, ops, now, h))
  {
    if ops != [] {
      LogReturns(lens, ops[1..], if ops[0].Time? then ops[0].time else now, h);
      if ops[0].Value? && ops[0].handle == h {
        DeliveredBack(lens[h], ops[0].value);
      }
    }
  }

  lemma {:induction false} LogsReturn(lens: seq<nat>, ops: seq<Op>, now: nat)
    requires Proper(lens, ops, now)
    ensures forall h :: 0 <= h < |lens| ==> Returned(lens[h], AsWritten(lens, ops, now, h), Log(lens, ops, now, h))
  {
    forall h | 0 <= h < |lens|
      ensures Returned(lens[h], AsWritten(lens, ops, now, h), Log(lens, ops, now, h))
    {
      LogReturns(lens, ops, now, h);
    }
  }

  /** Room these calls may take in the change buffer. */
  function Weight(ops: seq<Op>): nat {
    if ops == [] then 0
    else (if ops[0].Time? then 0 else |ops[0].value| + 14) + Weight(ops[1..])
  }

  /** In step, every story is defined. */
  ghost predicate Telling(lens: seq<nat>, chains: seq<Chain>, times: Times) {
    AllStorable(lens, chains) && forall h :: 0 <= h < |lens| ==> Total(chains[h]) < Ticks(times)
  }

  function Stories(lens: seq<nat>, chains: seq<Chain>, times: Times): (r: seq<seq<Change>>)
    requires Telling(lens, chains, times)
    ensures |r| == |lens| && forall h :: 0 <= h < |lens| ==> r[h] == Story(lens[h], chains[h], times)
  {
    seq(|lens|, h requires 0 <= h < |lens| => Story(lens[h], chains[h], times))
  }

  lemma {:induction false} StoriesGrow(lens: seq<nat>, chains: seq<Chain>, times: Times, idx: nat, h: nat,
                                       value: seq<byte>)
    requires Telling(lens, chains, times) && h < |lens| && Ticks(times) == idx + 1 < TWO28
    requires |value| < TWO32 && (lens[h] > 0 ==> |value| == lens[h])
    ensures Telling(lens, chains[h := Grown(chains[h], idx, value)], times)
    ensures Stories(lens, chains[h := Grown(chains[h], idx, value)], times)
            == Stories(lens, chains, times)[h := Stories(lens, chains, times)[h]
                                            + [(Latest(times), Delivered(lens[h], value))]]
  {
    StoryGrows(lens[h], chains[h], times, idx, value);
  }

  lemma {:induction false} StoriesStay(lens: seq<nat>, chains: seq<Chain>, times: Times, time: nat)
    requires Telling(lens, chains, times)
    ensures Telling(lens, chains, Tick(times, time))
            && Stories(lens, chains, Tick(times, time)) == Stories(lens, chains, times)
  {
    forall h | 0 <= h < |lens|
      ensures Story(lens[h], chains[h], Tick(times, time)) == Story(lens[h], chains[h], times)
    {
      StoryStays(lens[h], chains[h], times, time);
    }
  }

  // ---- writing ----

  /** The writer is inside a section. */
  ghost predicate Live(w: Writer)
    reads w
  {
    w.Valid() && w.InStep() && !w.isInitialTime && w.Begun()
  }

  lemma {:induction false} InStepTelling(w: Writer)
    requires Live(w)
    ensures Telling(w.lens, w.chains, w.times) && Ticks(w.times) == w.tchnIdx + 1
  {
    RowsStorable(w.vchg, w.lens, w.offs, w.last, w.tchnIdx, w.chains);
    forall h | 0 <= h < |w.lens|
      ensures Total(w.chains[h]) < Ticks(w.times)
    {
      NotLater(w.vchg, w.lens, w.offs, w.last, w.tchnIdx, w.chains, h);
    }
  }

  /** What the writer holds, as changes with their times. */
  ghost function Told(w: Writer): (r: seq<seq<Change>>)
    requires Live(w)
    reads w
    ensures |r| == |w.lens|
  {
    InStepTelling(w);
    Stories(w.lens, w.chains, w.times)
  }

  /** The stories once these calls are made. */
  function Foretold(lens: seq<nat>, stories: seq<seq<Change>>, ops: seq<Op>, now: nat): (r: seq<seq<Change>>)
    requires |stories| == |lens| && Proper(lens, ops, now)
    ensures |r| == |lens| && forall h :: 0 <= h < |lens| ==> r[h] == stories[h] + Log(lens, ops, now, h)
  {
    seq(|lens|, h requires 0 <= h < |lens| => stories[h] + Log(lens, ops, now, h))
  }

  /** A value call comes true by adding its change to its handle's story. */
  lemma {:induction false} ForetoldChange(lens: seq<nat>, stories: seq<seq<Change>>, ops: seq<Op>, now: nat, h: nat,
                                          change: Change)
    requires |stories| == |lens| && Proper(lens, ops, now) && ops != [] && h < |lens|
    requires match ops[0]
             case Value(g, value) => g == h && lens[h] > 0 && change == (now, Delivered(lens[h], value))
             case Text(g, value) => g == h && lens[h] == 0 && change == (now, value)
             case Time(_) => false
    ensures Proper(lens, ops[1..], now)
    ensures Foretold(lens, stories[h := stories[h] + [change]], ops[1..], now) == Foretold(lens, stories, ops, now)
  {
    var stories2 := stories[h := stories[h] + [change]];
    forall g | 0 <= g < |lens|
      ensures stories2[g] + Log(lens, ops[1..], now, g) == stories[g] + Log(lens, ops, now, g)
    {
      if g == h {
        assert stories[h] + ([change] + Log(lens, ops[1..], now, h))
               == (stories[h] + [change]) + Log(lens, ops[1..], now, h);
      } else {
        assert [] + Log(lens, ops[1..], now, g) == Log(lens, ops[1..], now, g);
      }
    }
  }

  /** The calls that write nothing. */
  lemma {:induction false} ForetoldOther(lens: seq<nat>, stories: seq<seq<Change>>, ops: seq<Op>, now: nat)
    requires |stories| == |lens| && Proper(lens, ops, now) && ops != []
    requires ops[0].Time? || (ops[0].Value? && lens[ops[0].handle] == 0) || (ops[0].Text? && lens[ops[0].handle] > 0)
    ensures var later := if ops[0].Time? then ops[0].time else now;
            Proper(lens, ops[1..], later) && Foretold(lens, stories, ops[1..], later)
                == Foretold(lens, stories, ops, now)
  {
    var later := if ops[0].Time? then ops[0].time else now;
    forall g | 0 <= g < |lens|
      ensures stories[g] + Log(lens, ops[1..], later, g) == stories[g] + Log(lens, ops, now, g)
    {
      assert [] + Log(lens, ops[1..], later, g) == Log(lens, ops[1..], later, g);
    }
  }

  lemma {:induction false} ForetoldNone(lens: seq<nat>, stories: seq<seq<Change>>, now: nat)
    requires |stories| == |lens|
    ensures Foretold(lens, stories, [], now) == stories
  {
    forall h | 0 <= h < |lens|
      ensures stories[h] + Log(lens, [], now, h) == stories[h]
    {
      assert stories[h] + [] == stories[h];
    }
  }

  /** Handles named by calls exist. */
  ghost predicate Named(lens: seq<nat>, ops: seq<Op>) {
    forall op :: op in ops && !op.Time? ==> op.handle < |lens|
  }

  /** The chains after one call. */
  function ChainsNext(lens: seq<nat>, chains: seq<Chain>, idx: nat, op: Op): (r: seq<Chain>)
    requires |chains| == |lens| && (op.Time? || op.handle < |lens|)
    ensures |r| == |lens|
  {
    if op.Time? || (op.Value? <==> lens[op.handle] == 0) then chains
    else chains[op.handle := Grown(chains[op.handle], idx, op.value)]
  }

  /** The chains after these calls. */
  ghost function ChainsAfter(lens: seq<nat>, chains: seq<Chain>, idx: nat, ops: seq<Op>): (r: seq<Chain>)
    requires |chains| == |lens| && Named(lens, ops)
    ensures |r| == |lens|
    decreases |ops|
  {
    if ops == [] then chains
    else ChainsAfter(lens, ChainsNext(lens, chains, idx, ops[0]), idx + if ops[0].Time? then 1 else 0, ops[1..])
  }

  /** It has room for this many calls and bytes, and no flush is due. */
  ghost predicate Inside(w: Writer, calls: nat, bytes: nat)
    reads w
  {
    Live(w) && !w.flushPending && w.tchnIdx + calls < TWO28 - 1 && |w.vchg| + bytes < TWO31
        && |w.vchg| + bytes < w.breakSize
  }

  method WriteValue(w: Writer, h: nat, value: seq<byte>)
    requires Live(w) && w.tchnIdx + 1 < TWO28 && |w.vchg| < TWO31
    requires h < |w.lens| && |value| < TWO32 && (w.lens[h] > 0 ==> |value| == w.lens[h])
    modifies w`vcEmitted, w`mapped, w`vchg, w`offs, w`last, w`chains, w`curval
    ensures Live(w) && w.chains == if w.lens[h] > 0 then old(w.chains)[h := Grown(old(w.chains)[h], w.tchnIdx, value)]
            else old(w.chains)
    ensures |w.vchg| == |old(w.vchg)| + if w.lens[h] > 0
            then RecordSize(w.lens[h], w.tchnIdx - Total(old(w.chains)[h]), |value|) else 0
    ensures |w.vchg| <= |old(w.vchg)| + |value| + 14
            && w.Values() == if w.lens[h] > 0 then old(w.Values())[h := value] else old(w.Values())
    ensures Told(w) == if w.lens[h] > 0
            then old(Told(w))[h := old(Told(w))[h] + [(w.curtime, Delivered(w.lens[h], value))]] else old(Told(w))
  {
    InStepTelling(w);
    if w.lens[h] > 0 {
      StoriesGrow(w.lens, w.chains, w.times, w.tchnIdx, h, value);
    }
    w.EmitValueChange(h, value);
  }

  method WriteText(w: Writer, h: nat, value: seq<byte>)
    requires Live(w) && w.tchnIdx + 1 < TWO28 && |w.vchg| < TWO31 && h < |w.lens| && |value| < TWO32
    modifies w`vcEmitted, w`mapped, w`vchg, w`offs, w`last, w`chains
    ensures Live(w) && w.chains == if w.lens[h] == 0 then old(w.chains)[h := Grown(old(w.chains)[h], w.tchnIdx, value)]
            else old(w.chains)
    ensures |w.vchg| == |old(w.vchg)| + if w.lens[h] == 0
            then RecordSize(0, w.tchnIdx - Total(old(w.chains)[h]), |value|) else 0
    ensures |w.vchg| <= |old(w.vchg)| + |value| + 14 && w.Values() == old(w.Values())
    ensures Told(w) == if w.lens[h] == 0 then old(Told(w))[h := old(Told(w))[h] + [(w.curtime, value)]]
            else old(Told(w))
  {
    InStepTelling(w);
    if w.lens[h] == 0 {
      StoriesGrow(w.lens, w.chains, w.times, w.tchnIdx, h, value);
    }
    w.EmitVariableLengthValueChange(h, value);
  }

  method WriteTime(w: Writer, time: nat)
    requires Live(w) && !w.FlushDue() && w.curtime <= time
    modifies w
    ensures Live(w) && w.curtime == time && Told(w) == old(Told(w)) && w.chains == old(w.chains)
            && w.tchnIdx == old(w.tchnIdx) + 1
    ensures w.vchg == old(w.vchg) && w.flushPending == old(w.flushPending) && w.Values() == old(w.Values())
    ensures w.times == Tick(old(w.times), time) && w.frame == old(w.frame) && w.begin == old(w.begin)
  {
    InStepTelling(w);
    StoriesStay(w.lens, w.chains, w.times, Latest(w.times) + (time - w.curtime));
    var section := w.EmitTimeChange(time);
  }

  /** The time after these calls, and how often it changes. */
  function Clock(now: nat, ops: seq<Op>): nat
    decreases |ops|
  {
    if ops == [] then now else Clock(if ops[0].Time? then ops[0].time else now, ops[1..])
  }

  function TimeCalls(ops: seq<Op>): nat {
    if ops == [] then 0 else (if ops[0].Time? then 1 else 0) + TimeCalls(ops[1..])
  }

  /** What is left to do after one call. */
  lemma {:induction false} NextCall(lens: seq<nat>, chains: seq<Chain>, idx: nat, ops: seq<Op>, now: nat,
                                    chains2: seq<Chain>, idx2: nat, now2: nat)
    requires ops != [] && |chains| == |lens| && Named(lens, ops)
    requires chains2 == ChainsNext(lens, chains, idx, ops[0])
    requires if ops[0].Time? then idx2 == idx + 1 && now2 == ops[0].time else idx2 == idx && now2 == now
    ensures Named(lens, ops[1..]) && ChainsAfter(lens, chains2, idx2, ops[1..]) == ChainsAfter(lens, chains, idx, ops)
    ensures Clock(now2, ops[1..]) == Clock(now, ops) && idx2 + TimeCalls(ops[1..]) == idx + TimeCalls(ops)
  {
  }

  /** What one call does: the rest of the calls is still to come true. */
  twostate predicate Goes(w: Writer, ops: seq<Op>)
    requires ops != [] && old(Inside(w, |ops|, Weight(ops)) && Proper(w.lens, ops, w.curtime) && Named(w.lens, ops))
    reads w
  {
    Inside(w, |ops[1..]|, Weight(ops[1..])) && Proper(w.lens, ops[1..], w.curtime) && Named(w.lens, ops[1..])
    && w.frame == old(w.frame) && w.begin == old(w.begin)
    && Foretold(w.lens, Told(w), ops[1..], w.curtime) == old(Foretold(w.lens, Told(w), ops, w.curtime))
    && ChainsAfter(w.lens, w.chains, w.tchnIdx, ops[1..]) == old(ChainsAfter(w.lens, w.chains, w.tchnIdx, ops))
    && Clock(w.curtime, ops[1..]) == Clock(old(w.curtime), ops)
    && w.tchnIdx + TimeCalls(ops[1..]) == old(w.tchnIdx) + TimeCalls(ops)
  }

  method WriteOfValue(w: Writer, ops: seq<Op>)
    requires ops != [] && Inside(w, |ops|, Weight(ops)) && Proper(w.lens, ops, w.curtime) && Named(w.lens, ops)
             && ops[0].Value?
    modifies w
    ensures Goes(w, ops)
  {
    var h, value := ops[0].handle, ops[0].value;
    if w.lens[h] > 0 {
      ForetoldChange(w.lens, Told(w), ops, w.curtime, h, (w.curtime, Delivered(w.lens[h], value)));
    } else {
      ForetoldOther(w.lens, Told(w), ops, w.curtime);
    }
    ghost var chains, idx, now := w.chains, w.tchnIdx, w.curtime;
    WriteValue(w, h, value);
    NextCall(w.lens, chains, idx, ops, now, w.chains, w.tchnIdx, w.curtime);
  }

  method WriteOfText(w: Writer, ops: seq<Op>)
    requires ops != [] && Inside(w, |ops|, Weight(ops)) && Proper(w.lens, ops, w.curtime) && Named(w.lens, ops)
             && ops[0].Text?
    modifies w
    ensures Goes(w, ops)
  {
    var h, value := ops[0].handle, ops[0].value;
    if w.lens[h] == 0 {
      ForetoldChange(w.lens, Told(w), ops, w.curtime, h, (w.curtime, value));
    } else {
      ForetoldOther(w.lens, Told(w), ops, w.curtime);
    }
    ghost var chains, idx, now := w.chains, w.tchnIdx, w.curtime;
    WriteText(w, h, value);
    NextCall(w.lens, chains, idx, ops, now, w.chains, w.tchnIdx, w.curtime);
  }

  method WriteOfTime(w: Writer, ops: seq<Op>)
    requires ops != [] && Inside(w, |ops|, Weight(ops)) && Proper(w.lens, ops, w.curtime) && Named(w.lens, ops)
             && ops[0].Time?
    modifies w
    ensures Goes(w, ops)
  {
    ForetoldOther(w.lens, Told(w), ops, w.curtime);
    ghost var chains, idx, now := w.chains, w.tchnIdx, w.curtime;
    WriteTime(w, ops[0].time);
    NextCall(w.lens, chains, idx, ops, now, w.chains, w.tchnIdx, w.curtime);
  }

  /** One call. */
  method Write(w: Writer, ops: seq<Op>)
    requires ops != [] && Inside(w, |ops|, Weight(ops)) && Proper(w.lens, ops, w.curtime) && Named(w.lens, ops)
    modifies w
    ensures Goes(w, ops)
  {
    match ops[0]
    case Value(_, _) => WriteOfValue(w, ops);
    case Text(_, _) => WriteOfText(w, ops);
    case Time(_) => WriteOfTime(w, ops);
  }

  /** Any run of calls inside a section: every handle's story goes on with what was written for it. */
  method WriteAll(w: Writer, ops: seq<Op>)
    requires Inside(w, |ops|, Weight(ops)) && Proper(w.lens, ops, w.curtime) && Named(w.lens, ops)
    modifies w
    ensures Inside(w, 0, 0) && Told(w) == old(Foretold(w.lens, Told(w), ops, w.curtime))
    ensures w.chains == old(ChainsAfter(w.lens, w.chains, w.tchnIdx, ops))
    ensures w.curtime == Clock(old(w.curtime), ops) && w.tchnIdx == old(w.tchnIdx) + TimeCalls(ops)
    ensures w.frame == old(w.frame) && w.begin == old(w.begin)
  {
    var left := ops;
    while left != []
      invariant w.frame == old(w.frame) && w.begin == old(w.begin)
      invariant Inside(w, |left|, Weight(left)) && Proper(w.lens, left, w.curtime) && Named(w.lens, left)
      invariant Foretold(w.lens, Told(w), left, w.curtime) == old(Foretold(w.lens, Told(w), ops, w.curtime))
      invariant ChainsAfter(w.lens, w.chains, w.tchnIdx, left) == old(ChainsAfter(w.lens, w.chains, w.tchnIdx, ops))
      invariant Clock(w.curtime, left) == Clock(old(w.curtime), ops)
                && w.tchnIdx + TimeCalls(left) == old(w.tchnIdx) + TimeCalls(ops)
    {
      Write(w, left);
      left := left[1..];
    }
    ForetoldNone(w.lens, Told(w), w.curtime);
  }

  // ---- reading ----

  /** A value change as the reader's callback gets it. */
  datatype Delivery = Delivery(time: nat, handle: nat, value: seq<byte>)

  function DeliveryOf(e: Event, table: seq<nat>): Delivery
    requires e.step < |table|
  {
    Delivery(table[e.step], e.handle, e.value)
  }

  function Deliveries(out: seq<Event>, table: seq<nat>): (r: seq<Delivery>)
    requires forall k :: 0 <= k < |out| ==> out[k].step < |table|
    ensures |r| == |out| && forall k :: 0 <= k < |out| ==> r[k] == DeliveryOf(out[k], table)
  {
    seq(|out|, k requires 0 <= k < |out| => DeliveryOf(out[k], table))
  }

  /** What one handle gets. */
  function For(out: seq<Delivery>, h: nat): (changes: seq<Change>) {
    if out == [] then []
    else
      var d := out[|out| - 1];
      For(out[..|out| - 1], h) + if d.handle == h then [(d.time, d.value)] else []
  }

  lemma {:induction false} ForSnoc(out: seq<Delivery>, d: Delivery, h: nat)
    ensures For(out + [d], h) == For(out, h) + if d.handle == h then [(d.time, d.value)] else []
  {
    assert (out + [d])[..|out|] == out;
  }

  lemma {:induction false} StampSnoc(changes: seq<Change>, c: Change, table: seq<nat>)
    requires Timed(changes, table) && c.0 < |table|
    ensures Timed(changes + [c], table) && Stamp(changes + [c], table) == Stamp(changes, table) + [(table[c.0], c.1)]
  {
  }

  /** Stamping the events of a handle is stamping its changes. */
  lemma {:induction false} ForStamped(out: seq<Event>, table: seq<nat>, h: nat)
    requires forall k :: 0 <= k < |out| ==> out[k].step < |table|
    ensures Timed(Of(out, h), table) && For(Deliveries(out, table), h) == Stamp(Of(out, h), table)
  {
    if out != [] {
      var before, e := out[..|out| - 1], out[|out| - 1];
      ForStamped(before, table, h);
      ForSnoc(Deliveries(before, table), DeliveryOf(e, table), h);
      assert Deliveries(out, table) == Deliveries(before, table) + [DeliveryOf(e, table)];
      StampSnoc(Of(before, h), (e.step, e.value), table);
    }
  }

  ghost predicate ByTime(out: seq<Delivery>) {
    forall j, k :: 0 <= j < k < |out| ==> out[j].time <= out[k].time
  }

  ghost predicate Between(out: seq<Delivery>, from: nat, upto: nat) {
    forall k :: 0 <= k < |out| ==> from <= out[k].time <= upto
  }

  lemma {:induction false} DeliveriesBetween(out: seq<Event>, times: Times, begin: nat, end: nat)
    requires Spans(times, begin, end) && forall k :: 0 <= k < |out| ==> out[k].step < Ticks(times)
    ensures Between(Deliveries(out, TimeTable(times)), begin, end)
  {
  }

  lemma {:induction false} DeliveriesByTime(out: seq<Event>, times: Times)
    requires InOrder(out) && Rising(times) && forall k :: 0 <= k < |out| ==> out[k].step < Ticks(times)
    ensures ByTime(Deliveries(out, TimeTable(times)))
  {
    forall j, k | 0 <= j < k < |out|
      ensures Deliveries(out, TimeTable(times))[j].time <= Deliveries(out, TimeTable(times))[k].time
    {
      TableRises(times, out[j].step, out[k].step);
    }
  }

  /** The changes of the chosen handles before `n`. */
  function Chosen(lens: seq<nat>, chains: seq<Chain>, wanted: seq<bool>, n: nat): (todo: seq<seq<Change>>)
    requires AllStorable(lens, chains) && |wanted| == |lens|
    ensures |todo| == |lens|
    ensures forall h :: 0 <= h < |lens| ==> todo[h] == if h < n && wanted[h] then History(lens[h], chains[h]) else []
  {
    seq(|lens|, h requires 0 <= h < |lens| => if h < n && wanted[h] then History(lens[h], chains[h]) else [])
  }

  lemma {:induction false} ChosenNext(lens: seq<nat>, chains: seq<Chain>, wanted: seq<bool>, i: nat)
    requires AllStorable(lens, chains) && |wanted| == |lens| && i < |lens|
    ensures Chosen(lens, chains, wanted, i + 1)
            == if wanted[i] then Chosen(lens, chains, wanted, i)[i := History(lens[i], chains[i])]
                else Chosen(lens, chains, wanted, i)
    ensures chains[i].Nil? ==> Chosen(lens, chains, wanted, i + 1) == Chosen(lens, chains, wanted, i)
  {
  }

  /** Every handle with a chain has its own payload, and no other handle has any. */
  ghost predicate OwnPayloads(lens: seq<nat>, chains: seq<Chain>, loaded: seq<Loaded>)
    requires AllStorable(lens, chains)
  {
    |loaded| == |lens|
    && forall h :: 0 <= h < |lens| ==>
                     loaded[h] == if chains[h].Nil? then Missing else Found(Payload(lens[h], chains[h]))
  }

  /** Puts the wanted handles into the scheduler. */
  method Schedule(lens: seq<nat>, loaded: seq<Loaded>, wanted: seq<bool>, nitems: nat, ghost chains: seq<Chain>)
      returns (t: Traversal)
    requires AllStorable(lens, chains) && |loaded| == |wanted| == |lens|
    requires forall h :: 0 <= h < |lens| ==> Total(chains[h]) < nitems
    requires OwnPayloads(lens, chains, loaded)
    ensures fresh(t) && t.Valid(0) && |t.tcHead| == nitems && t.todo == Chosen(lens, chains, wanted, |lens|)
  {
    t := new Traversal(lens, nitems);
    for i := 0 to |lens|
      invariant fresh(t) && t.lens == lens && t.Valid(0) && |t.tcHead| == nitems
                && t.todo == Chosen(lens, chains, wanted, i)
    {
      ChosenNext(lens, chains, wanted, i);
      if loaded[i].Found? && wanted[i] {
        t.Load(i, loaded[i].mem, chains[i]);
      }
    }
  }

  /** Sharing chunks is safe and everything has its size. */
  ghost predicate Recoverable(c: Codec, lens: seq<nat>, chains: seq<Chain>)
    requires AllStorable(lens, chains)
  {
    Faithful(c) && Injective(c) && |lens| < TWO31 && 1 + DataSize(c, lens, chains) < TWO31
    && Unmixed(c, PayloadsOf(lens, chains)) && (forall h :: 0 <= h < |lens| ==> |Payload(lens[h], chains[h])| < TWO32)
    && exists h :: 0 <= h < |lens| && chains[h].Link?
  }

  /** The chunks of a section. */
  function DataOf(c: Codec, lens: seq<nat>, chains: seq<Chain>): (data: seq<byte>)
    requires AllStorable(lens, chains)
    ensures |data| == DataSize(c, lens, chains)
  {
    var slots := Slots(c, PayloadsOf(lens, chains));
    Data(slots, |slots|)
  }

  /** The traversal's tables lead no handle of this section astray. */
  ghost predicate Ready(c: Codec, lens: seq<nat>, chains: seq<Chain>, t: Tables)
    requires AllStorable(lens, chains)
  {
    Fits(t, |lens|) && !Misled(IndexOf(c, PayloadsOf(lens, chains)), t)
  }

  /** The tables after this section. */
  ghost function TablesLeft(c: Codec, lens: seq<nat>, chains: seq<Chain>, t: Tables): Tables
    requires AllStorable(lens, chains) && Fits(t, |lens|)
  {
    After(IndexOf(c, PayloadsOf(lens, chains)), t, 1 + DataSize(c, lens, chains))
  }

  lemma {:induction false} LoadedOwn(c: Codec, lens: seq<nat>, chains: seq<Chain>, ps: seq<seq<byte>>,
                                     loaded: seq<Loaded>)
    requires AllStorable(lens, chains) && Recoverable(c, lens, chains) && ps == PayloadsOf(lens, chains)
    requires |loaded| == |ps| && forall k :: 0 <= k < |ps| ==> loaded[k] == LoadedFor(c, ps, k)
    ensures OwnPayloads(lens, chains, loaded)
  {
    SharingSafe(c, ps);
    forall h | 0 <= h < |lens|
      ensures loaded[h] == if chains[h].Nil? then Missing else Found(Payload(lens[h], chains[h]))
    {
      PayloadPresent(lens[h], chains[h]);
    }
  }

  lemma {:induction false} SomePayload(lens: seq<nat>, chains: seq<Chain>, ps: seq<seq<byte>>)
    requires AllStorable(lens, chains) && ps == PayloadsOf(lens, chains)
             && exists h :: 0 <= h < |lens| && chains[h].Link?
    ensures exists k :: 0 <= k < |ps| && ps[k] != []
  {
    var h :| 0 <= h < |lens| && chains[h].Link?;
    PayloadPresent(lens[h], chains[h]);
    assert ps[h] != [];
  }

  /** Section and tables meet what loading asks for. */
  lemma {:induction false} Loadable(c: Codec, lens: seq<nat>, chains: seq<Chain>, ps: seq<seq<byte>>, section: Section,
                                    packtype: byte, trailer: seq<byte>, vc: seq<byte>)
    requires AllStorable(lens, chains) && Recoverable(c, lens, chains) && ps == PayloadsOf(lens, chains)
    requires section.data == DataOf(c, lens, chains)
             && section.index == EncodeIndex(IndexOf(c, PayloadsOf(lens, chains)))
    requires vc == [packtype] + (section.data + (section.index + trailer)) && |trailer| >= 5
    ensures Holds(c, ps, vc, 1 + |section.data|, |section.index|, packtype, trailer)
    ensures |ps| == |lens| && 1 + |section.data| == 1 + DataSize(c, lens, chains)
  {
    SomePayload(lens, chains, ps);
  }

  /** Every handle with a chain gets its own payload, in a traversal that may have read sections before. */
  method LoadPayloads(c: Codec, section: Section, lens: seq<nat>, packtype: byte, trailer: seq<byte>,
                      pidx0: nat, chainTable: array<nat>, chainLengths: array<int>, ghost chains: seq<Chain>)
      returns (loaded: seq<Loaded>, pidx: nat)
    requires AllStorable(lens, chains) && Recoverable(c, lens, chains) && |trailer| >= 5
    requires section.data == DataOf(c, lens, chains)
             && section.index == EncodeIndex(IndexOf(c, PayloadsOf(lens, chains)))
    requires Ready(c, lens, chains, Tables(chainTable[..], chainLengths[..], pidx0))
    modifies chainTable, chainLengths
    ensures OwnPayloads(lens, chains, loaded)
    ensures Tables(chainTable[..], chainLengths[..], pidx)
            == TablesLeft(c, lens, chains, old(Tables(chainTable[..], chainLengths[..], pidx0)))
    ensures Fits(Tables(chainTable[..], chainLengths[..], pidx), |lens|)
  {
    ghost var ps := PayloadsOf(lens, chains);
    var vc := [packtype] + (section.data + (section.index + trailer));
    Loadable(c, lens, chains, ps, section, packtype, trailer, vc);
    loaded, pidx := LoadSection(c, vc, 1 + |section.data|, |section.index|, |lens|, pidx0, chainTable, chainLengths,
                                ps, packtype, trailer);
    LoadedOwn(c, lens, chains, ps, loaded);
  }

  /** Reads a section: the wanted handles get all their changes, each with its time and each once, in
      the order they were written, and all of them come by time. */
  method ReadSection(c: Codec, section: Section, lens: seq<nat>, packtype: byte, trailer: seq<byte>, wanted: seq<bool>,
                     pidx0: nat, chainTable: array<nat>, chainLengths: array<int>, ghost chains: seq<Chain>,
                         ghost times: Times)
      returns (table: seq<nat>, events: seq<Event>, pidx: nat)
    requires AllStorable(lens, chains) && Rising(times) && Latest(times) < TWO64 && Telling(lens, chains, times)
    requires section == SectionOf(c, lens, chains, times, section.frame, section.begin, section.end)
    requires Recoverable(c, lens, chains) && |wanted| == |lens| && |trailer| >= 5
    requires Ready(c, lens, chains, Tables(chainTable[..], chainLengths[..], pidx0))
    modifies chainTable, chainLengths
    ensures table == TimeTable(times) && forall k :: 0 <= k < |events| ==>
              events[k].step < |table| && events[k].handle < |lens|
    ensures InOrder(events)
    ensures forall h :: 0 <= h < |lens| ==> Of(events, h) == if wanted[h] then History(lens[h], chains[h]) else []
    ensures Tables(chainTable[..], chainLengths[..], pidx)
            == TablesLeft(c, lens, chains, old(Tables(chainTable[..], chainLengths[..], pidx0)))
    ensures Fits(Tables(chainTable[..], chainLengths[..], pidx), |lens|)
  {
    var loaded;
    loaded, pidx := LoadPayloads(c, section, lens, packtype, trailer, pidx0, chainTable, chainLengths, chains);
    table := LoadTimes(section.tchn, section.count, times);
    events := Traverse(lens, loaded, wanted, section.count, chains);
  }

  /** Delivers the changes of the wanted handles. */
  method Traverse(lens: seq<nat>, loaded: seq<Loaded>, wanted: seq<bool>, nitems: nat, ghost chains: seq<Chain>)
      returns (events: seq<Event>)
    requires AllStorable(lens, chains) && |loaded| == |wanted| == |lens|
    requires forall h :: 0 <= h < |lens| ==> Total(chains[h]) < nitems
    requires OwnPayloads(lens, chains, loaded)
    ensures InOrder(events) && forall k :: 0 <= k < |events| ==> events[k].step < nitems && events[k].handle < |lens|
    ensures forall h :: 0 <= h < |lens| ==> Of(events, h) == if wanted[h] then History(lens[h], chains[h]) else []
  {
    var t := Schedule(lens, loaded, wanted, nitems, chains);
    events := t.Run();
  }

  // ---- the whole way ----

  /** What a handle is delivered, when it is delivered what it was told. */
  lemma {:induction false} DeliversStory(events: seq<Event>, len: nat, chain: Chain, times: Times, h: nat)
    requires Storable(len, chain) && Total(chain) < Ticks(times) && Of(events, h) == History(len, chain)
    requires forall k :: 0 <= k < |events| ==> events[k].step < Ticks(times)
    ensures For(Deliveries(events, TimeTable(times)), h) == Story(len, chain, times)
  {
    ForStamped(events, TimeTable(times), h);
  }

  /** Turns events into deliveries: looks up the times. */
  method Deliver(events: seq<Event>, table: seq<nat>) returns (out: seq<Delivery>)
    requires forall k :: 0 <= k < |events| ==> events[k].step < |table|
    ensures out == Deliveries(events, table)
  {
    out := [];
    for k := 0 to |events|
      invariant out == Deliveries(events, table)[..k]
    {
      out := out + [Delivery(table[events[k].step], events[k].handle, events[k].value)];
    }
  }

  /** Flushes what the writer holds and reads it back, in a traversal that may have read sections before. */
  method FlushAndRead(w: Writer, tim: nat, packtype: byte, trailer: seq<byte>, pidx0: nat, chainTable: array<nat>,
                      chainLengths: array<int>)
      returns (out: seq<Delivery>, pidx: nat, begin: nat, end: nat)
    requires Live(w) && w.FlushDue() && |w.vchg| > 1 && w.curtime <= tim && w.curtime < TWO64
    requires w.Small() && |trailer| >= 5
    requires AllStorable(w.lens, w.chains) && Recoverable(w.c, w.lens, w.chains)
    requires Ready(w.c, w.lens, w.chains, Tables(chainTable[..], chainLengths[..], pidx0))
    modifies w, chainTable, chainLengths
    ensures Live(w) && w.Values() == w.frame == old(w.Values()) && w.curtime == tim && !w.flushPending
    ensures w.chains == Nils(|w.lens|) && w.times == Tick(Tick(Start, old(w.curtime)), tim)
            && w.tchnIdx == |w.vchg| == 1
    ensures begin == old(w.begin) <= end == old(w.curtime) == w.begin && ByTime(out) && Between(out, begin, end)
    ensures forall h :: 0 <= h < |w.lens| ==> For(out, h) == old(Told(w))[h]
    ensures Tables(chainTable[..], chainLengths[..], pidx)
            == TablesLeft(w.c, w.lens, old(w.chains), old(Tables(chainTable[..], chainLengths[..], pidx0)))
    ensures Fits(Tables(chainTable[..], chainLengths[..], pidx), |w.lens|)
  {
    InStepTelling(w);
    ghost var chains, times := w.chains, w.times;
    var section := w.EmitTimeChange(tim);
    begin, end := section.section.begin, section.section.end;
    var wanted := seq(|w.lens|, _ => true);
    var table, events;
    table, events, pidx := ReadSection(w.c, section.section, w.lens, packtype, trailer, wanted, pidx0, chainTable,
                                       chainLengths, chains, times);
    out := Deliver(events, table);
    DeliveriesByTime(events, times);
    DeliveriesBetween(events, times, begin, end);
    forall h | 0 <= h < |w.lens|
      ensures For(out, h) == old(Told(w))[h]
    {
      DeliversStory(events, w.lens[h], chains[h], times, h);
    }
  }

  lemma {:induction false} NothingTold(w: Writer, ops: seq<Op>)
    requires Live(w) && w.chains == Nils(|w.lens|) && Proper(w.lens, ops, w.curtime)
    ensures forall h :: 0 <= h < |w.lens| ==>
              Foretold(w.lens, Told(w), ops, w.curtime)[h] == Log(w.lens, ops, w.curtime, h)
  {
    forall h | 0 <= h < |w.lens|
      ensures Foretold(w.lens, Told(w), ops, w.curtime)[h] == Log(w.lens, ops, w.curtime, h)
    {
      InStepTelling(w);
      assert Told(w)[h] == Story(w.lens[h], Nil, w.times) == [];
      assert [] + Log(w.lens, ops, w.curtime, h) == Log(w.lens, ops, w.curtime, h);
    }
  }

  lemma {:induction false} SomethingToFlush(w: Writer)
    requires w.Valid() && exists h :: 0 <= h < |w.lens| && w.chains[h].Link?
    ensures |w.vchg| > 1
  {
    var h :| 0 <= h < |w.lens| && w.chains[h].Link?;
    assert Row(w.vchg, w.lens[h], w.offs[h], w.last[h], w.tchnIdx, w.chains[h]);
  }

  /** The chunks of what these calls write can be read back. */
  ghost predicate RecoverableAfter(c: Codec, lens: seq<nat>, idx: nat, ops: seq<Op>)
    requires Named(lens, ops)
  {
    var chains := ChainsAfter(lens, Nils(|lens|), idx, ops);
    AllStorable(lens, chains) && Recoverable(c, lens, chains)
  }

  /** A section begins, these calls fit into it, and a flush can follow them at `tim`. */
  ghost predicate OneSection(w: Writer, ops: seq<Op>, tim: nat)
    reads w
  {
    Inside(w, |ops|, Weight(ops)) && Proper(w.lens, ops, w.curtime) && Named(w.lens, ops)
    && w.chains == Nils(|w.lens|) && RecoverableAfter(w.c, w.lens, w.tchnIdx, ops)
    && Clock(w.curtime, ops) <= tim < TWO64 && w.tchnIdx + TimeCalls(ops) > 1
  }

  /** The section round trip: any run of value and time changes in one section, then a flush, then a
      traversal, gives every handle exactly what was written for it. */
  method SectionRoundTrip(w: Writer, ops: seq<Op>, tim: nat, packtype: byte, trailer: seq<byte>)
      returns (out: seq<Delivery>)
    requires OneSection(w, ops, tim) && |trailer| >= 5
    modifies w
    ensures ByTime(out) && Live(w) && w.frame == w.Values()
    ensures forall h :: 0 <= h < |w.lens| ==> For(out, h) == Log(w.lens, ops, old(w.curtime), h)
    ensures forall h :: 0 <= h < |w.lens| ==>
              Returned(w.lens[h], AsWritten(w.lens, ops, old(w.curtime), h), For(out, h))
  {
    LogsReturn(w.lens, ops, w.curtime);
    NothingTold(w, ops);
    WriteAll(w, ops);
    w.FlushContext();
    SomethingToFlush(w);
    var chainTable, chainLengths := NewTables(|w.lens|);
    FreshRight(IndexOf(w.c, PayloadsOf(w.lens, w.chains)));
    var pidx, begin, end;
    out, pidx, begin, end := FlushAndRead(w, tim, packtype, trailer, 0, chainTable, chainLengths);
  }
}
