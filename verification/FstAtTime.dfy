/** The value of a handle at a time, with a cursor that remembers where the last lookup ended. */
module FstAtTime {
  import opened Bytes
  import opened FstVarint
  import opened Leb128
  import opened FstRecord
  import opened FstTimes
  import opened FstMerge

  // ---- lookups in a list of change times ----

  ghost predicate Sorted(ts: seq<nat>) {
    forall j, k :: 0 <= j < k < |ts| ==> ts[j] <= ts[k]
  }

  /** How far a scan gets that starts at `from` and stops at the first change after `tim`. */
  function Reach(ts: seq<nat>, from: nat, tim: nat): (n: nat)
    requires from <= |ts|
    ensures from <= n <= |ts| && (n < |ts| ==> ts[n] > tim)
    ensures forall k :: from <= k < n ==> ts[k] <= tim
    decreases |ts| - from
  {
    if from < |ts| && ts[from] <= tim then Reach(ts, from + 1, tim) else from
  }

  /** The last change at or before `tim`, or the frame. */
  datatype Answer = FromFrame | FromChange(k: nat)

  ghost predicate Right(ts: seq<nat>, tim: nat, a: Answer) {
    match a
    case FromFrame => forall k :: 0 <= k < |ts| ==> ts[k] > tim
    case FromChange(k) => k < |ts| && ts[k] <= tim && forall j :: k < j < |ts| ==> ts[j] > tim
  }

  /** The position of the cursor: a change, and the time from which on it may be used. */
  datatype Cursor = Cursor(valid: bool, time: nat, k: nat)

  predicate Resumes(c: Cursor, tim: nat) {
    c.valid && tim >= c.time
  }

  function StartOf(c: Cursor, tim: nat): nat {
    if Resumes(c, tim) then c.k else 0
  }

  function AnswerOf(ts: seq<nat>, c: Cursor, tim: nat): Answer
    requires c.valid ==> c.k < |ts|
  {
    var n := Reach(ts, StartOf(c, tim), tim);
    if n > StartOf(c, tim) then FromChange(n - 1) else FromFrame
  }

  /** A lookup that cannot resume moves the cursor's time back, and its place only when it finds a
      change. */
  function Moved(ts: seq<nat>, c: Cursor, tim: nat, beg: nat): Cursor
    requires c.valid ==> c.k < |ts|
  {
    match AnswerOf(ts, c, tim)
    case FromChange(k) => Cursor(true, tim, k)
    case FromFrame => if c.valid && !Resumes(c, tim) then Cursor(true, beg, c.k) else c
  }

  /** The cursor stands at a change that is not after its time. */
  ghost predicate Fresh(ts: seq<nat>, c: Cursor) {
    c.valid ==> c.k < |ts| && ts[c.k] <= c.time
  }

  /** There is exactly one right answer. */
  lemma {:induction false} RightUnique(ts: seq<nat>, tim: nat, a: Answer, b: Answer)
    requires Right(ts, tim, a) && Right(ts, tim, b)
    ensures a == b
  {
    if a.FromChange? && b.FromChange? {
      assert ts[a.k] <= tim && ts[b.k] <= tim;
    }
  }

  lemma {:induction false} SortedSuffix(ts: seq<nat>, n: nat, tim: nat)
    requires Sorted(ts) && n <= |ts| && (n < |ts| ==> ts[n] > tim)
    ensures forall j :: n <= j < |ts| ==> ts[j] > tim
  {
  }

  /** A lookup is right exactly if it does not resume at a change that lies after the time while an
      earlier one does not. */
  lemma {:induction false} RightIff(ts: seq<nat>, c: Cursor, tim: nat)
    requires Sorted(ts) && (c.valid ==> c.k < |ts|)
    ensures Right(ts, tim, AnswerOf(ts, c, tim)) <==> !Resumes(c, tim) || ts[c.k] <= tim || ts[0] > tim
  {
    var from := StartOf(c, tim);
    SortedSuffix(ts, Reach(ts, from, tim), tim);
    if Resumes(c, tim) && ts[c.k] > tim {
      assert AnswerOf(ts, c, tim) == FromFrame;
      if ts[0] > tim {
        SortedSuffix(ts, 0, tim);
      }
    }
  }

  /** From a fresh cursor the answer is right, and only a backward lookup that finds nothing leaves a
      cursor that is not fresh. */
  lemma {:induction false} FreshLookup(ts: seq<nat>, c: Cursor, tim: nat, beg: nat)
    requires Sorted(ts) && Fresh(ts, c) && beg <= tim
    ensures Right(ts, tim, AnswerOf(ts, c, tim))
    ensures Fresh(ts, Moved(ts, c, tim, beg)) <==> !(c.valid && tim < c.time && ts[0] > tim)
  {
    RightIff(ts, c, tim);
    if c.valid && tim < c.time && ts[0] > tim {
      SortedSuffix(ts, 0, tim);
    }
  }

  // ---- runs of lookups ----

  /** No lookup of this run goes back in time to before the first change. */
  ghost predicate Forward(ts: seq<nat>, c: Cursor, beg: nat, queries: seq<nat>)
    requires c.valid ==> c.k < |ts|
    decreases |queries|
  {
    queries == [] ||
    (!(c.valid && queries[0] < c.time && ts[0] > queries[0])
     && Forward(ts, Moved(ts, c, queries[0], beg), beg, queries[1..]))
  }

  function Answers(ts: seq<nat>, c: Cursor, beg: nat, queries: seq<nat>): (r: seq<Answer>)
    requires c.valid ==> c.k < |ts|
    ensures |r| == |queries|
    decreases |queries|
  {
    if queries == [] then []
    else [AnswerOf(ts, c, queries[0])] + Answers(ts, Moved(ts, c, queries[0], beg), beg, queries[1..])
  }

  /** Over every such run, resuming from the cursor gives the answers of scanning from the start. */
  lemma {:induction false} RunRight(ts: seq<nat>, c: Cursor, beg: nat, queries: seq<nat>, i: nat)
    requires Sorted(ts) && Fresh(ts, c) && Forward(ts, c, beg, queries) && i < |queries|
    requires forall j :: 0 <= j < |queries| ==> beg <= queries[j]
    ensures Right(ts, queries[i], Answers(ts, c, beg, queries)[i])
    decreases |queries|
  {
    FreshLookup(ts, c, queries[0], beg);
    if i > 0 {
      RunRight(ts, Moved(ts, c, queries[0], beg), beg, queries[1..], i - 1);
    }
  }

  /** A run that the cursor gets wrong: changes at 5 and 10, lookups at 10, 3 and 7. */
  lemma {:induction false} StaleRun()
    ensures Answers([5, 10], Cursor(false, 0, 0), 0, [10, 3, 7]) == [FromChange(1), FromFrame, FromFrame]
    ensures Right([5, 10], 7, FromChange(0)) && !Right([5, 10], 7, FromFrame)
  {
    var ts := [5, 10];
    var c1 := Cursor(true, 10, 1);
    assert Reach(ts, 2, 10) == 2 && Reach(ts, 1, 10) == 2 && Reach(ts, 0, 10) == 2;
    assert Moved(ts, Cursor(false, 0, 0), 10, 0) == c1;
    var c2 := Cursor(true, 0, 1);
    assert Reach(ts, 0, 3) == 0;
    assert Moved(ts, c1, 3, 0) == c2;
    assert Reach(ts, 1, 7) == 1;
    assert [10, 3, 7][1..] == [3, 7] && [3, 7][1..] == [7] && [7][1..] == [];
    assert Answers(ts, c2, 0, [7]) == [FromFrame];
    assert Answers(ts, c1, 0, [3, 7]) == [FromFrame, FromFrame];
    assert ts[0] <= 7;
  }

  // ---- runs that change from handle to handle ----

  datatype Query = Query(tim: nat, h: nat)

  datatype Reply = Null | Value(value: seq<byte>)

  /** The one cursor there is: that of the handle looked up last. */
  datatype Focus = Nobody | On(h: nat, c: Cursor)

  function CursorIn(focus: Focus, h: nat): Cursor {
    if focus.On? && focus.h == h then focus.c else Cursor(false, 0, 0)
  }

  ghost predicate FocusFresh(tss: seq<seq<nat>>, focus: Focus) {
    focus.On? ==> focus.h < |tss| && focus.c.valid && Fresh(tss[focus.h], focus.c)
  }

  /** A lookup takes the cursor to its handle, or loses it; one for a handle without changes leaves it. */
  function FocusAfter(tss: seq<seq<nat>>, focus: Focus, q: Query, beg: nat): Focus
    requires q.h < |tss| && (CursorIn(focus, q.h).valid ==> CursorIn(focus, q.h).k < |tss[q.h]|)
  {
    if tss[q.h] == [] then focus
    else
      var c := Moved(tss[q.h], CursorIn(focus, q.h), q.tim, beg);
      if c.valid then On(q.h, c) else Nobody
  }

  /** Handles that do not exist or have variable length get no answer. */
  predicate Refused(lens: seq<nat>, q: Query) {
    q.h >= |lens| || lens[q.h] == 0
  }

  /** A backward lookup on the cursor's handle that finds no change. */
  ghost predicate Spoils(tss: seq<seq<nat>>, focus: Focus, q: Query)
    requires q.h < |tss| && FocusFresh(tss, focus)
  {
    var c := CursorIn(focus, q.h);
    c.valid && q.tim < c.time && tss[q.h][0] > q.tim
  }

  /** No lookup of this run does that. */
  ghost predicate Ahead(lens: seq<nat>, tss: seq<seq<nat>>, focus: Focus, beg: nat, queries: seq<Query>)
    requires |tss| == |lens| && FocusFresh(tss, focus) && forall h :: 0 <= h < |tss| ==> Sorted(tss[h])
    decreases |queries|
  {
    queries == [] ||
    if Refused(lens, queries[0]) then Ahead(lens, tss, focus, beg, queries[1..])
    else
      beg <= queries[0].tim && !Spoils(tss, focus, queries[0])
      && (FocusStays(tss, focus, queries[0], beg);
          Ahead(lens, tss, FocusAfter(tss, focus, queries[0], beg), beg, queries[1..]))
  }

  /** The answer is that of a scan from the start, and the cursor stays fresh. */
  lemma {:induction false} FocusStays(tss: seq<seq<nat>>, focus: Focus, q: Query, beg: nat)
    requires FocusFresh(tss, focus) && q.h < |tss| && Sorted(tss[q.h]) && beg <= q.tim
    ensures AnswerOf(tss[q.h], CursorIn(focus, q.h), q.tim) == AnswerOf(tss[q.h], Cursor(false, 0, 0), q.tim)
    ensures FocusFresh(tss, FocusAfter(tss, focus, q, beg)) <==> !Spoils(tss, focus, q)
  {
    var ts, c := tss[q.h], CursorIn(focus, q.h);
    FreshLookup(ts, c, q.tim, beg);
    FreshLookup(ts, Cursor(false, 0, 0), q.tim, beg);
    RightUnique(ts, q.tim, AnswerOf(ts, c, q.tim), AnswerOf(ts, Cursor(false, 0, 0), q.tim));
  }

  // ---- lookups in a payload ----

  /** When the changes of a handle happen. */
  function TimesOf(changes: seq<Change>, table: seq<nat>): (ts: seq<nat>)
    requires forall k :: 0 <= k < |changes| ==> changes[k].0 < |table|
    ensures |ts| == |changes| && forall k :: 0 <= k < |changes| ==> ts[k] == table[changes[k].0]
  {
    seq(|changes|, k requires 0 <= k < |changes| => table[changes[k].0])
  }

  /** At `at`, `tidx` being the time step before, the payload holds the changes from `k` on. */
  ghost predicate Place(len: nat, mem: seq<byte>, changes: seq<Change>, at: nat, tidx: nat, k: nat) {
    at <= |mem| && k <= |changes| && Left(len, mem, at, |mem| - at, tidx, changes[k..])
  }

  lemma {:induction false} PlaceStep(len: nat, mem: seq<byte>, changes: seq<Change>, at: nat, tidx: nat, k: nat)
    requires Place(len, mem, changes, at, tidx, k)
    ensures at < |mem| <==> k < |changes|
    ensures at < |mem| ==>
              Readable(len, mem, at) && var rec := ReadRecord(len, mem, at);
              changes[k] == (tidx + rec.delta, rec.value) && Place(len, mem, changes, rec.next, tidx + rec.delta, k + 1)
  {
    LeftStep(len, mem, at, |mem| - at, tidx, changes[k..]);
    if at < |mem| {
      assert changes[k..][1..] == changes[k + 1..];
    }
  }

  /** What the scan learns from one record. */
  lemma {:induction false} ScanStep(len: nat, mem: seq<byte>, table: seq<nat>, tim: nat, changes: seq<Change>,
                                    ts: seq<nat>, at: nat, tidx: nat, k: nat)
    requires Place(len, mem, changes, at, tidx, k) && forall k :: 0 <= k < |changes| ==> changes[k].0 < |table|
    requires ts == TimesOf(changes, table)
    ensures at >= |mem| ==> Reach(ts, k, tim) == k
    ensures at < |mem| ==>
              k < |ts| && Readable(len, mem, at) && var rec := ReadRecord(len, mem, at);
              tidx + rec.delta < |table|
              && if table[tidx + rec.delta] <= tim
                 then Place(len, mem, changes, rec.next, tidx + rec.delta, k + 1)
                      && Reach(ts, k, tim) == Reach(ts, k + 1, tim)
                 else Reach(ts, k, tim) == k
  {
    PlaceStep(len, mem, changes, at, tidx, k);
  }

  /** `iprev` is where the change before the `n`th is, if it is not before the `k0`th. */
  ghost predicate Found(len: nat, mem: seq<byte>, changes: seq<Change>, k0: nat, n: nat, iprev: nat, ptidx: nat) {
    if n == k0 then iprev == |mem| else n > k0 && iprev < |mem| && Place(len, mem, changes, iprev, ptidx, n - 1)
  }

  /** One step of the scan, past the record at `at` unless it is after `tim`. */
  method ScanRecord(len: nat, mem: seq<byte>, table: seq<nat>, tim: nat, at: nat, tidx: nat, ghost changes: seq<Change>,
                    ghost n: nat, ghost ts: seq<nat>)
      returns (within: bool, next: nat, tidx2: nat)
    requires at < |mem| && Place(len, mem, changes, at, tidx, n)
             && forall k :: 0 <= k < |changes| ==> changes[k].0 < |table|
    requires ts == TimesOf(changes, table)
    ensures n < |ts| && if within then at < next && Place(len, mem, changes, next, tidx2, n + 1)
            && Reach(ts, n, tim) == Reach(ts, n + 1, tim)
                        else Reach(ts, n, tim) == n
  {
    ScanStep(len, mem, table, tim, changes, ts, at, tidx, n);
    var tdelta := PeekDelta(mem, at, len);
    within, next, tidx2 := table[tidx + tdelta] <= tim, at, tidx;
    if within {
      var value, skiplen := TakeValue(mem, at, len);
      tidx2, next := tidx + tdelta, at + skiplen;
    }
  }

  /** Scans from `at0` on: where the last change not after `tim` is, if there is one. */
  method Scan(len: nat, mem: seq<byte>, table: seq<nat>, tim: nat, at0: nat, tidx0: nat, ghost changes: seq<Change>,
              ghost k0: nat)
      returns (iprev: nat, ptidx: nat)
    requires Place(len, mem, changes, at0, tidx0, k0) && forall k :: 0 <= k < |changes| ==> changes[k].0 < |table|
    ensures Found(len, mem, changes, k0, Reach(TimesOf(changes, table), k0, tim), iprev, ptidx)
  {
    ghost var ts := TimesOf(changes, table);
    ghost var goal, n: nat := Reach(ts, k0, tim), k0;
    var i, tidx: nat := at0, tidx0;
    iprev, ptidx := |mem|, 0;
    while i < |mem|
      invariant n <= |changes| && Place(len, mem, changes, i, tidx, n) && Reach(ts, n, tim) == goal
      invariant Found(len, mem, changes, k0, n, iprev, ptidx)
      decreases |mem| - i
    {
      var within, next, tidx2 := ScanRecord(len, mem, table, tim, i, tidx, changes, n, ts);
      if !within {
        return;
      }
      iprev, ptidx := i, tidx;
      i, tidx, n := next, tidx2, n + 1;
    }
    PlaceStep(len, mem, changes, i, tidx, n);
  }

  // ---- what the writer stores can be looked up ----

  lemma {:induction false} HistoryRises(len: nat, chain: Chain, j: nat, k: nat)
    requires Storable(len, chain) && j <= k < |History(len, chain)|
    ensures History(len, chain)[j].0 <= History(len, chain)[k].0
  {
    if k < |History(len, chain.older)| {
      HistoryRises(len, chain.older, j, k);
    } else {
      HistoryTimes(len, chain, j);
    }
  }

  /** A stored chain is found from the start of its payload, and its times are sorted. */
  lemma {:induction false} StoredLookup(len: nat, chain: Chain, times: Times)
    requires Storable(len, chain) && Rising(times) && Total(chain) < Ticks(times)
    ensures Place(len, Payload(len, chain), History(len, chain), 0, 0, 0)
    ensures forall k :: 0 <= k < |History(len, chain)| ==> History(len, chain)[k].0 < |TimeTable(times)|
    ensures Sorted(TimesOf(History(len, chain), TimeTable(times)))
  {
    var mem, history, table := Payload(len, chain), History(len, chain), TimeTable(times);
    PayloadRoundTrip(len, mem, 0, chain, |mem|);
    assert history[0..] == history;
    forall k | 0 <= k < |history|
      ensures history[k].0 < |table|
    {
      HistoryTimes(len, chain, k);
    }
    forall j, k | 0 <= j < k < |history|
      ensures TimesOf(history, table)[j] <= TimesOf(history, table)[k]
    {
      HistoryRises(len, chain, j, k);
      TableRises(times, history[j].0, history[k].0);
    }
  }

  /** The lookups of a loaded section. A handle without changes has no payload. */
  class Lookups {
    const lens: seq<nat>
    const table: seq<nat>
    const begTim: nat
    const frame: seq<seq<byte>>
    const payloads: seq<seq<byte>>
    /** What the payloads hold. */
    ghost const stories: seq<seq<Change>>
    var held: bool
    var facidx: nat
    var mem: seq<byte>
    var posValid: bool
    var posTime: nat
    var posIdx: nat
    var posTidx: nat
    ghost var posK: nat

    ghost predicate Sound(h: nat) {
      h < |lens| && |payloads| == |stories| == |frame| == |lens| && Place(lens[h], payloads[h], stories[h], 0, 0, 0)
      && forall k :: 0 <= k < |stories[h]| ==> stories[h][k].0 < |table|
    }

    ghost predicate Valid()
      reads this
    {
      |payloads| == |stories| == |frame| == |lens| && (forall h :: 0 <= h < |lens| ==> Sound(h))
      && (held ==> facidx < |lens| && Sound(facidx) && mem == payloads[facidx])
      && (posValid ==>
            held && posK < |stories[facidx]|
            && Place(lens[facidx], mem, stories[facidx], posIdx, posTidx, posK))
    }

    ghost function FocusOf(): Focus
      reads this
    {
      if held && posValid then On(facidx, Cursor(true, posTime, posK)) else Nobody
    }

    /** When every handle changes. */
    ghost function AllTimes(): (tss: seq<seq<nat>>)
      requires forall h :: 0 <= h < |lens| ==> Sound(h)
      ensures |tss| == |lens| && forall h :: 0 <= h < |lens| ==> tss[h] == Times(h)
    {
      seq(|lens|, h requires 0 <= h < |lens| => Times(h))
    }

    ghost predicate AllSorted()
      requires forall h :: 0 <= h < |lens| ==> Sound(h)
    {
      forall h :: 0 <= h < |lens| ==> Sorted(AllTimes()[h])
    }

    /** The value that goes with an answer. */
    ghost function ValueOf(h: nat, a: Answer): seq<byte>
      requires Sound(h) && (a.FromChange? ==> a.k < |stories[h]|)
    {
      if a.FromChange? then stories[h][a.k].1 else frame[h]
    }

    /** The cursor, if it is this handle's. */
    ghost function CursorOf(h: nat): Cursor
      reads this
    {
      if held && facidx == h && posValid then Cursor(true, posTime, posK) else Cursor(false, 0, 0)
    }

    ghost function Times(h: nat): seq<nat>
      requires Sound(h)
    {
      TimesOf(stories[h], table)
    }

    constructor (lens: seq<nat>, table: seq<nat>, begTim: nat, frame: seq<seq<byte>>, payloads: seq<seq<byte>>,
                 ghost stories: seq<seq<Change>>)
      requires |payloads| == |stories| == |frame| == |lens|
      requires forall h :: 0 <= h < |lens| ==> Place(lens[h], payloads[h], stories[h], 0, 0, 0)
      requires forall h, k :: 0 <= h < |lens| && 0 <= k < |stories[h]| ==> stories[h][k].0 < |table|
      ensures Valid() && FocusOf() == Nobody && this.stories == stories && this.frame == frame && this.begTim == begTim
              && this.lens == lens && this.table == table
    {
      this.lens, this.table, this.begTim, this.frame, this.payloads, this.stories := lens, table, begTim, frame,
          payloads, stories;
      held, facidx, mem, posValid, posTime, posIdx, posTidx, posK := false, 0, [], false, 0, 0, 0, 0;
    }

    /** Another handle's payload takes the place of the last one's, and with it goes the cursor. */
    method Hold(h: nat)
      requires Valid() && h < |lens|
      modifies this
      ensures Valid() && held && facidx == h && CursorOf(h) == old(CursorOf(h)) && posValid == CursorOf(h).valid
    {
      if h != facidx && held {
        held, posValid := false, false;
      }
      if !held {
        mem, held, facidx := payloads[h], true, h;
      }
    }

    /** Where the scan starts. */
    method Seek(tim: nat, h: nat) returns (i: nat, tidx: nat, ghost k: nat)
      requires Valid() && held && facidx == h
      modifies this`posTime
      ensures Valid() && Place(lens[h], mem, stories[h], i, tidx, k) && k == StartOf(old(CursorOf(h)), tim)
      ensures CursorOf(h) == var c := old(CursorOf(h));
                             if c.valid && !Resumes(c, tim) then Cursor(true, begTim, c.k) else c
    {
      if posValid && tim >= posTime {
        i, tidx, k := posIdx, posTidx, posK;
      } else {
        i, tidx, k := 0, 0, 0;
        posTime := begTim;
      }
    }

    /** Reads the change the scan ended at, and leaves the cursor there. */
    method Take(tim: nat, h: nat, iprev: nat, ptidx: nat, ghost k: nat) returns (value: seq<byte>)
      requires Valid() && held && facidx == h && iprev < |mem| && Place(lens[h], mem, stories[h], iprev, ptidx, k)
      modifies this`posTidx, this`posIdx, this`posTime, this`posValid, this`posK
      ensures Valid() && CursorOf(h) == Cursor(true, tim, k) && k < |stories[h]| && value == stories[h][k].1
    {
      PlaceStep(lens[h], mem, stories[h], iprev, ptidx, k);
      posTidx, posIdx, posTime, posValid, posK := ptidx, iprev, tim, true, k;
      var skiplen;
      value, skiplen := TakeValue(mem, iprev, lens[h]);
    }

    /** A lookup in the payload that is held. */
    method Search(tim: nat, h: nat) returns (value: seq<byte>, ghost a: Answer)
      requires Valid() && held && facidx == h
      modifies this`posTidx, this`posIdx, this`posTime, this`posValid, this`posK
      ensures Valid() && (old(CursorOf(h)).valid ==> old(CursorOf(h)).k < |stories[h]|)
      ensures a == AnswerOf(Times(h), old(CursorOf(h)), tim)
              && CursorOf(h) == Moved(Times(h), old(CursorOf(h)), tim, begTim)
      ensures match a
              case FromFrame => value == frame[h]
              case FromChange(k) => k < |stories[h]| && value == stories[h][k].1
    {
      var i, tidx, iprev, ptidx;
      ghost var k;
      i, tidx, k := Seek(tim, h);
      ghost var n := Reach(Times(h), k, tim);
      iprev, ptidx := Scan(lens[h], mem, table, tim, i, tidx, stories[h], k);
      if iprev != |mem| {
        a := FromChange(n - 1);
        value := Take(tim, h, iprev, ptidx, n - 1);
      } else {
        a, value := FromFrame, frame[h];
      }
    }

    /** A lookup within a loaded section. */
    method ValueAt(tim: nat, h: nat) returns (value: seq<byte>, ghost a: Answer)
      requires Valid() && h < |lens|
      modifies this
      ensures Valid() && Sound(h) && (old(CursorOf(h)).valid ==> old(CursorOf(h)).k < |stories[h]|)
      ensures payloads[h] == [] ==> a == FromFrame && FocusOf() == old(FocusOf())
      ensures payloads[h] != [] ==>
                a == AnswerOf(Times(h), old(CursorOf(h)), tim)
                && CursorOf(h) == Moved(Times(h), old(CursorOf(h)), tim, begTim)
      ensures payloads[h] != [] ==> held && facidx == h
      ensures match a
              case FromFrame => value == frame[h]
              case FromChange(k) => k < |stories[h]| && value == stories[h][k].1
    {
      a := FromFrame;
      if payloads[h] == [] {
        return frame[h], a;
      }
      Hold(h);
      value, a := Search(tim, h);
    }

    /** A handle without a payload has no changes. */
    lemma {:induction false} NoStory(h: nat)
      requires Sound(h)
      ensures payloads[h] == [] <==> stories[h] == []
    {
      PlaceStep(lens[h], payloads[h], stories[h], 0, 0, 0);
    }

    /** What a scan from the start gives. */
    ghost function Scanned(q: Query): (r: Reply)
      requires forall h :: 0 <= h < |lens| ==> Sound(h)
    {
      if Refused(lens, q) then Null else Value(ValueOf(q.h, AnswerOf(Times(q.h), Cursor(false, 0, 0), q.tim)))
    }

    /** fstReaderGetValueFromHandleAtTime, for a time in the loaded section. */
    method Lookup(q: Query) returns (r: Reply)
      requires Valid() && AllSorted() && FocusFresh(AllTimes(), FocusOf()) && (Refused(lens, q) || begTim <= q.tim)
      modifies this
      ensures Valid() && FocusOf() == if Refused(lens, q) then old(FocusOf())
              else FocusAfter(AllTimes(), old(FocusOf()), q, begTim)
      ensures r == Scanned(q) && (r == Null <==> q.h >= |lens| || lens[q.h] == 0)
    {
      if q.h >= |lens| || lens[q.h] == 0 {
        return Null;
      }
      NoStory(q.h);
      FocusStays(AllTimes(), FocusOf(), q, begTim);
      ghost var a;
      var value;
      value, a := ValueAt(q.tim, q.h);
      r := Value(value);
    }

    /** Any run of lookups for any handles, none of them backward to before the first change of the
        cursor's handle, gives the answers of scanning from the start each time. */
    method Run(queries: seq<Query>) returns (replies: seq<Reply>)
      requires Valid() && AllSorted() && FocusFresh(AllTimes(), FocusOf())
               && Ahead(lens, AllTimes(), FocusOf(), begTim, queries)
      modifies this
      ensures Valid() && |replies| == |queries| && forall i :: 0 <= i < |queries| ==> replies[i] == Scanned(queries[i])
      ensures forall i :: 0 <= i < |queries| ==>
                (replies[i] == Null <==> queries[i].h >= |lens| || lens[queries[i].h] == 0)
    {
      replies := [];
      for i := 0 to |queries|
        invariant Valid() && FocusFresh(AllTimes(), FocusOf())
                  && Ahead(lens, AllTimes(), FocusOf(), begTim, queries[i..])
        invariant |replies| == i && forall j :: 0 <= j < i ==> replies[j] == Scanned(queries[j])
      {
        var q := queries[i];
        assert queries[i..][0] == q && queries[i..][1..] == queries[i + 1..];
        if !Refused(lens, q) {
          FocusStays(AllTimes(), FocusOf(), q, begTim);
        }
        var r := Lookup(q);
        replies := replies + [r];
      }
    }

    /** A scan from the start finds the last change not after the time, or none. */
    lemma {:induction false} ScannedRight(q: Query)
      requires !Refused(lens, q) && (forall h :: 0 <= h < |lens| ==> Sound(h)) && AllSorted() && begTim <= q.tim
      ensures Right(Times(q.h), q.tim, AnswerOf(Times(q.h), Cursor(false, 0, 0), q.tim))
    {
      assert Sorted(AllTimes()[q.h]);
      FreshLookup(Times(q.h), Cursor(false, 0, 0), q.tim, begTim);
    }
  }
}
