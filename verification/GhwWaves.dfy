/** The writer of GHW files: a snapshot, then one cycle section that every simulation cycle adds a step
    to, then the directory. */
module GhwWaves {
  import opened Bytes
  import opened Leb128
  import opened GhwLeb
  import opened GhwStream
  import opened GhwFormat
  import opened GhwTrace
  import opened GhwStory

  class Waves {
    const be: bool
    /** The base types of the signals to be dumped. */
    const basics: seq<Basic>
    /** How many more signals the reader has room for. */
    const spare: nat
    var out: seq<byte>
    var sections: seq<(seq<byte>, nat)>
    var waveTime: int
    var inCyc: bool
    var vals: seq<Value>
    var events: seq<bool>
    /** The bytes before, and what the file says after them. */
    ghost const head: seq<byte>
    ghost var told: Told

    ghost predicate Valid()
      reads this
    {
      Ready() && inCyc == told.open.Some? && waveTime >= 0 && |told.known| == |vals|
      && Filed(Kinds(), be, spare, head, out, told, waveTime)
    }

    ghost predicate Ready()
      reads this`vals, this`events
    {
      AllHold(basics, vals) && |events| == |vals| && 1 + |basics| + spare < TWO32
    }

    /** The names of the sections have four bytes. */
    ghost predicate Named()
      reads this`sections
    {
      forall k :: 0 <= k < |sections| ==> |sections[k].0| == 4
    }

    function Kinds(): seq<Kind> {
      KindsOf(basics, spare)
    }

    /** After Wave_Start: the headers are written. */
    constructor (be: bool, basics: seq<Basic>, spare: nat, head: seq<byte>, sections: seq<(seq<byte>, nat)>,
                 initial: seq<Value>)
      requires AllHold(basics, initial) && 1 + |basics| + spare < TWO32
      requires forall k :: 0 <= k < |sections| ==> |sections[k].0| == 4
      ensures this.be == be && this.basics == basics && this.spare == spare && this.sections == sections
      ensures Ready() && Named() && vals == initial && out == this.head == head && !inCyc && waveTime == 0
    {
      this.be, this.basics, this.spare, out, this.sections := be, basics, spare, head, sections;
      waveTime, inCyc, vals, events := 0, false, initial, seq(|initial|, _ => false);
      this.head, told := head, Told([], None, initial, 0, []);
    }

    /** Wave_Section: the directory will have its name and its place. */
    method WaveSection(name: seq<byte>)
      modifies this`out, this`sections
      ensures out == old(out) + name && sections == old(sections) + [(name, |old(out)|)]
    {
      sections, out := sections + [(name, |out|)], out + name;
    }

    /** Write_Value. */
    method WriteValue(mode: Mode, v: Value)
      requires Holds(mode, v)
      modifies this`out
      ensures out == old(out) + ModeBytes(mode, v)
    {
      var bytes;
      match mode {
        case ModeB1 => bytes := [v.b];
        case ModeE8 => bytes := [v.b];
        case ModeE32 => bytes := PutVarint(v.v);
        case ModeI32 => bytes := PutSVarint(v.v);
        case ModeI64 => bytes := PutSVarint(v.v);
        case ModeF64 => bytes := v.bytes;
      }
      out := out + bytes;
    }

    /** The values of all signals. */
    method WriteValues()
      requires Ready()
      modifies this`out
      ensures out == old(out) + UsedBytes(Kinds(), Shown(vals, spare), 0)
    {
      ghost var all := out + UsedBytes(Kinds(), Shown(vals, spare), 0);
      FirstUnused(basics, spare, vals);
      for i := 0 to |vals|
        invariant out + UsedBytes(Kinds(), Shown(vals, spare), i + 1) == all
      {
        WriteNext(i);
      }
      SpareUnused(basics, spare, vals, |vals| + 1);
      assert out + [] == out;
    }

    method WriteNext(i: nat)
      requires Ready() && i < |vals|
      modifies this`out
      ensures out + UsedBytes(Kinds(), Shown(vals, spare), i + 2)
              == old(out) + UsedBytes(Kinds(), Shown(vals, spare), i + 1)
    {
      NextUsed(basics, spare, vals, i);
      Moved(out, ModeBytes(ModeOf(basics[i]), vals[i]), UsedBytes(Kinds(), Shown(vals, spare), i + 2));
      WriteValue(ModeOf(basics[i]), vals[i]);
    }

    /** Write_Snapshot, once, before the first cycle. */
    method WriteSnapshot(now: int)
      requires Ready() && Int64(now) && out == head && !inCyc && waveTime >= 0
      modifies this`out, this`sections, this`told
      ensures Valid() && told.known == vals && told.shown == TimeRead(now)
      ensures told.story == [Seen(TimeRead(now), Shown(vals, spare))]
      ensures sections == old(sections) + [(SNP, |old(out)|)]
    {
      AllFit(basics, spare, vals);
      ghost var used := UsedBytes(Kinds(), Shown(vals, spare), 0);
      WaveSection(SNP);
      out := out + [0, 0, 0, 0] + WordBytes(now % TWO64, 8, be);
      WriteValues();
      out := out + ESN;
      SnapshotJoins(head, SNP, [0, 0, 0, 0], TimeBytes(now, be), used, ESN);
      told := Told([Snap(now, Shown(vals, spare))], None, vals, TimeRead(now),
                   [Seen(TimeRead(now), Shown(vals, spare))]);
      FiledSnapshot(basics, be, spare, head, vals, now, waveTime, out, told);
    }

    /** The signals with events, each with its distance from the last, and a zero. */
    method WriteEvents()
      requires Ready()
      modifies this`out, this`events
      ensures Ready() && Rising(Kinds(), 0, EventsFrom(vals, old(events), 0)) && events == seq(|vals|, _ => false)
      ensures out == old(out) + ChangesBytes(Kinds(), 0, EventsFrom(vals, old(events), 0))
    {
      ghost var was := events;
      EventsRise(basics, spare, vals, was, 0, 0);
      var last := 0;
      for i := 0 to |vals|
        invariant last <= i && |events| == |vals| && (forall k :: 0 <= k < |vals| ==> events[k] == (k >= i && was[k]))
        invariant Rising(Kinds(), last, EventsFrom(vals, was, i))
        invariant out + ChangesBytes(Kinds(), last, EventsFrom(vals, was, i))
                  == old(out) + ChangesBytes(Kinds(), 0, EventsFrom(vals, was, 0))
      {
        EventBytes(basics, spare, vals, was, i, last);
        if events[i] {
          WriteEvent(i, last, was);
          last := i + 1;
        }
      }
      out := out + [0];
    }

    /** One signal with an event. */
    method WriteEvent(i: nat, last: nat, ghost was: seq<bool>)
      requires Ready() && last <= i < |vals| && |was| == |vals| && was[i]
      requires Rising(Kinds(), last, EventsFrom(vals, was, i)) && Rising(Kinds(), i + 1, EventsFrom(vals, was, i + 1))
      modifies this`out, this`events
      ensures events == old(events)[i := false]
      ensures out + ChangesBytes(Kinds(), i + 1, EventsFrom(vals, was, i + 1))
              == old(out) + ChangesBytes(Kinds(), last, EventsFrom(vals, was, i))
    {
      EventBytes(basics, spare, vals, was, i, last);
      Moves(out, Varint(i + 1 - last), ModeBytes(ModeOf(basics[i]), vals[i]),
            ChangesBytes(Kinds(), i + 1, EventsFrom(vals, was, i + 1)));
      var distance := PutVarint(i + 1 - last);
      out := out + distance;
      WriteValue(ModeOf(basics[i]), vals[i]);
      events := events[i := false];
    }

    /** A new cycle section with the time, or the time since the last step. */
    method StartStep(now: nat)
      requires Int64(now)
      modifies this`out, this`sections, this`waveTime, this`inCyc
      ensures out == old(out) + StepHead(old(inCyc), be, old(waveTime), now) && inCyc && waveTime == now
      ensures sections == if old(inCyc) then old(sections) else old(sections) + [(CYC, |old(out)|)]
    {
      if !inCyc {
        Moved(out, CYC, TimeBytes(now, be));
        WaveSection(CYC);
        out := out + WordBytes(now % TWO64, 8, be);
        inCyc := true;
      } else {
        var diff := PutSVarint(now - waveTime);
        out := out + diff;
      }
      waveTime := now;
    }

    /** Wave_Cycle: a new cycle section, or a step of the one there is, and the signals that had events. */
    method WaveCycle(now: nat)
      requires Valid() && Marked(told.known, vals, events) && Int64(now) && (inCyc ==> waveTime <= now)
      modifies this`out, this`sections, this`waveTime, this`inCyc, this`events, this`told
      ensures Valid() && inCyc && waveTime == now && told.known == vals
      ensures told.shown == if old(inCyc) then old(told.shown) + (now - old(waveTime)) else TimeRead(now)
      ensures told.story == old(told.story) + [Seen(told.shown, Shown(vals, spare))]
      ensures sections == if old(inCyc) then old(sections) else old(sections) + [(CYC, |old(out)|)]
    {
      ghost var before, marked, was := out, events, waveTime;
      StartStep(now);
      WriteEvents();
      ghost var next := ToldAt(told, was, now, vals, EventsFrom(vals, marked, 0), spare);
      FiledStep(basics, be, spare, head, before, told, vals, marked, was, now, out, next);
      told := next;
    }

    /** Wave_Close_Cyc. */
    method WaveCloseCyc()
      requires Valid() && inCyc
      modifies this`out, this`inCyc, this`told
      ensures Valid() && !inCyc && told == old(told).(done := told.done, open := None)
    {
      ghost var before := out;
      var end := PutSVarint(-1);
      out, inCyc := out + end + ECY, false;
      ghost var sec := Cyc(told.open.time, told.open.changes, told.open.steps);
      ghost var next := told.(done := told.done + [sec], open := None);
      FiledClosed(Kinds(), be, spare, head, before, told, waveTime, sec, out, next);
      told := next;
    }

    /** Wave_Write_Size_Order: the byte order, the sizes of words and offsets, and a zero. */
    method WriteSizeOrder()
      modifies this`out
      ensures out == old(out) + SizeOrder(be)
    {
      out := out + [if be then 2 else 1] + [4] + [1] + [0];
    }

    /** The name and the place of every section. */
    method WriteEntries()
      modifies this`out
      ensures out == old(out) + Concat(EntriesOf(sections, be))
    {
      ghost var entries := EntriesOf(sections, be);
      assert old(out) + Concat(entries[..0]) == old(out);
      for i := 0 to |sections|
        invariant out == old(out) + Concat(entries[..i])
      {
        Moved(old(out), Concat(entries[..i]), entries[i]);
        out := out + (sections[i].0 + WordBytes(sections[i].1 % TWO32, 4, be));
        assert entries[..i + 1][..i] == entries[..i];
      }
      assert entries[..|sections|] == entries;
    }

    /** The directory, with an entry of its own. */
    method WriteDir()
      requires Valid() && Named() && !inCyc && |sections| + 1 < 0x8000_0000
      modifies this`out, this`sections, this`told
      ensures Valid() && told == old(told).(done := told.done)
      ensures Named() && sections == old(sections) + [(DIR, |old(out)|)]
    {
      ghost var before := out;
      WaveSection(DIR);
      WriteSizeOrder();
      out := out + WordBytes(|sections|, 4, be);
      WriteEntries();
      out := out + EOD;
      ghost var sec := Dir(SizeOrder(be), EntriesOf(sections, be));
      DirIs(Kinds(), be, sections, before, sec);
      FiledLast(Kinds(), be, spare, head, before, told, waveTime, sec, out, told.(done := told.done + [sec]));
      told := told.(done := told.done + [sec]);
    }

    /** Where the directory is. */
    method WriteTail(pos: nat)
      requires Valid() && Named() && !inCyc
      modifies this`out, this`sections, this`told
      ensures Valid() && told == old(told).(done := told.done)
      ensures sections == old(sections) + [(TAI, |old(out)|)] && |out| == |old(out)| + 12
    {
      ghost var before := out;
      WaveSection(TAI);
      WriteSizeOrder();
      out := out + WordBytes(pos % TWO32, 4, be);
      ghost var sec := Tail(SizeOrder(be) + WordBytes(pos % TWO32, 4, be));
      JoinsThree(before, TAI, SizeOrder(be), WordBytes(pos % TWO32, 4, be));
      FiledLast(Kinds(), be, spare, head, before, told, waveTime, sec, out, told.(done := told.done + [sec]));
      told := told.(done := told.done + [sec]);
    }

    /** Wave_Write_Directory: where every section is, and then where the directory is. */
    method WriteDirectory()
      requires Valid() && Named() && !inCyc && |sections| + 1 < 0x8000_0000
      modifies this`out, this`sections, this`told
      ensures Valid() && told == old(told).(done := told.done)
      ensures sections == old(sections) + [(DIR, |old(out)|), (TAI, |out| - 12)]
    {
      var pos := |out|;
      WriteDir();
      WriteTail(pos);
    }

    /** Wave_End. */
    method WaveEnd()
      requires Valid() && Named() && |sections| + 1 < 0x8000_0000
      modifies this`out, this`inCyc, this`sections, this`told
      ensures Valid() && !inCyc && told == old(told).(done := told.done, open := None)
    {
      if inCyc {
        WaveCloseCyc();
      }
      WriteDirectory();
    }
  }

  function SizeOrder(be: bool): (bytes: seq<byte>)
    ensures |bytes| == 4
  {
    [if be then 2 else 1, 4, 1, 0]
  }

  function EntriesOf(sections: seq<(seq<byte>, nat)>, be: bool): (entries: seq<seq<byte>>)
    ensures |entries| == |sections|
    ensures forall k :: 0 <= k < |sections| ==> entries[k] == sections[k].0 + WordBytes(sections[k].1 % TWO32, 4, be)
  {
    seq(|sections|, k requires 0 <= k < |sections| => sections[k].0 + WordBytes(sections[k].1 % TWO32, 4, be))
  }

  lemma {:induction false} DirIs(kinds: seq<Kind>, be: bool, sections: seq<(seq<byte>, nat)>, start: seq<byte>,
                                 sec: Section)
    requires (forall k :: 0 <= k < |sections| ==> |sections[k].0| == 4) && |sections| < 0x8000_0000
    requires sec == Dir(SizeOrder(be), EntriesOf(sections, be))
    ensures Proper(kinds, sec)
    ensures start + DIR + SizeOrder(be) + WordBytes(|sections|, 4, be) + Concat(EntriesOf(sections, be)) + EOD
            == start + SectionBytes(kinds, be, sec)
  {
    Joins(start, DIR, SizeOrder(be), WordBytes(|sections|, 4, be), Concat(sec.entries), EOD);
  }

  lemma {:induction false} Joins(start: seq<byte>, a: seq<byte>, b: seq<byte>, c: seq<byte>, d: seq<byte>, e: seq<byte>)
    ensures start + a + b + c + d + e == start + (a + (b + (c + (d + e))))
  {
  }

  lemma {:induction false} JoinsThree(start: seq<byte>, a: seq<byte>, b: seq<byte>, c: seq<byte>)
    ensures start + a + b + c == start + (a + (b + c))
  {
  }

  // ---- a whole simulation ----

  /** A simulation cycle: the time, the values at that time and the signals that had events. */
  datatype Moment = Moment(time: int, vals: seq<Value>, events: seq<bool>)

  function ValsAt(initial: seq<Value>, moments: seq<Moment>, k: nat): seq<Value>
    requires k <= |moments|
  {
    if k == 0 then initial else moments[k - 1].vals
  }

  /** Time goes forward from zero, and what changes has an event. */
  ghost predicate Follows(basics: seq<Basic>, initial: seq<Value>, moments: seq<Moment>, k: nat)
    requires k < |moments|
  {
    var m := moments[k];
    AllHold(basics, m.vals) && Marked(ValsAt(initial, moments, k), m.vals, m.events) && Int64(m.time)
    && 0 <= (if k == 0 then 0 else moments[k - 1].time) <= m.time
  }

  ghost predicate Simulated(basics: seq<Basic>, initial: seq<Value>, moments: seq<Moment>) {
    forall k :: 0 <= k < |moments| ==> Follows(basics, initial, moments, k)
  }

  /** The time a reader has at a moment. */
  function TimeSeen(moments: seq<Moment>, k: nat): int
    requires k < |moments|
  {
    TimeRead(moments[0].time) + (moments[k].time - moments[0].time)
  }

  /** The initial values and those at every moment, each with its time. */
  ghost predicate AllSeen(seen: seq<Seen>, start: int, initial: seq<Value>, moments: seq<Moment>, spare: nat) {
    |seen| == 1 + |moments| && seen[0] == Seen(TimeRead(start), Shown(initial, spare))
    && forall k {:trigger moments[k]} :: 0 <= k < |moments| ==>
                  seen[1 + k] == Seen(TimeSeen(moments, k), Shown(moments[k].vals, spare))
  }

  /** Those of the first `n`. */
  function Expected(start: int, initial: seq<Value>, moments: seq<Moment>, spare: nat, n: nat): (r: seq<Seen>)
    requires n <= |moments|
  {
    if n == 0 then [Seen(TimeRead(start), Shown(initial, spare))]
    else Expected(start, initial, moments, spare, n - 1)
         + [Seen(TimeSeen(moments, n - 1), Shown(moments[n - 1].vals, spare))]
  }

  lemma {:induction false} ExpectedIs(start: int, initial: seq<Value>, moments: seq<Moment>, spare: nat, n: nat)
    requires n <= |moments|
    ensures AllSeen(Expected(start, initial, moments, spare, n), start, initial, moments[..n], spare)
  {
    if n > 0 {
      ExpectedIs(start, initial, moments, spare, n - 1);
      assert moments[..n][..n - 1] == moments[..n - 1];
      ghost var some := Expected(start, initial, moments, spare, n - 1);
      forall k | 0 <= k < n
        ensures Expected(start, initial, moments, spare, n)[1 + k]
                == Seen(TimeSeen(moments[..n], k), Shown(moments[..n][k].vals, spare))
      {
        if k < n - 1 {
          assert moments[..n - 1][k] == moments[..n][k];
        }
      }
    }
  }

  /** The file tells the first `k` moments. */
  ghost predicate Reached(told: Told, waveTime: int, inCyc: bool, vals: seq<Value>, start: int, initial: seq<Value>,
                          moments: seq<Moment>, spare: nat, k: nat)
    requires k <= |moments|
  {
    told.story == Expected(start, initial, moments, spare, k) && told.known == vals == ValsAt(initial, moments, k)
    && inCyc == (k > 0) && told.shown == (if k == 0 then TimeRead(start) else TimeSeen(moments, k - 1))
    && (k > 0 ==> waveTime == moments[k - 1].time)
  }

  lemma {:induction false} ReachedNext(t: Told, was: int, vals: seq<Value>, start: int, initial: seq<Value>,
                                       moments: seq<Moment>, spare: nat, k: nat, t2: Told)
    requires k < |moments| && Reached(t, was, k > 0, vals, start, initial, moments, spare, k)
    requires t2.known == moments[k].vals
    requires t2.shown == if k > 0 then t.shown + (moments[k].time - was) else TimeRead(moments[k].time)
    requires t2.story == t.story + [Seen(t2.shown, Shown(moments[k].vals, spare))]
    ensures Reached(t2, moments[k].time, true, moments[k].vals, start, initial, moments, spare, k + 1)
  {
  }

  /** One simulation cycle and its dump. */
  method DoMoment(w: Waves, ghost start: int, ghost initial: seq<Value>, moments: seq<Moment>, k: nat)
    requires w.Valid() && w.Named() && k < |moments| && Follows(w.basics, initial, moments, k)
    requires Reached(w.told, w.waveTime, w.inCyc, w.vals, start, initial, moments, w.spare, k)
    modifies w
    ensures w.Valid() && w.Named() && |w.sections| == |old(w.sections)| + if k == 0 then 1 else 0
    ensures Reached(w.told, w.waveTime, w.inCyc, w.vals, start, initial, moments, w.spare, k + 1)
  {
    ghost var t, was, vals := w.told, w.waveTime, w.vals;
    w.vals, w.events := moments[k].vals, moments[k].events;
    w.WaveCycle(moments[k].time);
    ReachedNext(t, was, vals, start, initial, moments, w.spare, k, w.told);
  }

  method DoMoments(w: Waves, ghost start: int, ghost initial: seq<Value>, moments: seq<Moment>)
    requires w.Valid() && w.Named() && Simulated(w.basics, initial, moments)
    requires Reached(w.told, w.waveTime, w.inCyc, w.vals, start, initial, moments, w.spare, 0)
    modifies w
    ensures w.Valid() && w.Named() && |w.sections| <= |old(w.sections)| + 1
    ensures Reached(w.told, w.waveTime, w.inCyc, w.vals, start, initial, moments, w.spare, |moments|)
  {
    for k := 0 to |moments|
      invariant w.Valid() && w.Named() && |w.sections| == |old(w.sections)| + if k == 0 then 0 else 1
      invariant Reached(w.told, w.waveTime, w.inCyc, w.vals, start, initial, moments, w.spare, k)
    {
      DoMoment(w, start, initial, moments, k);
    }
  }

  /** The simulation dumps every cycle. */
  method Simulate(w: Waves, start: int, moments: seq<Moment>)
    requires w.Ready() && w.Named() && w.out == w.head && !w.inCyc && w.waveTime >= 0 && |w.sections| + 3 < 0x8000_0000
    requires Int64(start) && Simulated(w.basics, w.vals, moments)
    modifies w
    ensures w.Valid() && !w.inCyc && w.told.story == Expected(start, old(w.vals), moments, w.spare, |moments|)
    ensures w.told.known == ValsAt(old(w.vals), moments, |moments|)
    ensures w.told.shown == if moments == [] then TimeRead(start) else TimeSeen(moments, |moments| - 1)
  {
    ghost var initial := w.vals;
    w.WriteSnapshot(start);
    DoMoments(w, start, initial, moments);
    w.WaveEnd();
  }

  /** The times seen are those of the simulation exactly if bit 31 of the first one is clear. */
  lemma {:induction false} TimesRight(seen: seq<Seen>, start: int, initial: seq<Value>, moments: seq<Moment>,
                                      basics: seq<Basic>, spare: nat)
    requires AllSeen(seen, start, initial, moments, spare) && Simulated(basics, initial, moments)
    ensures moments != [] ==>
              ((forall k {:trigger moments[k]} :: 0 <= k < |moments| ==> seen[1 + k].time == moments[k].time)
               <==> moments[0].time % TWO32 < 0x8000_0000)
  {
    if moments != [] {
      assert Follows(basics, initial, moments, 0);
      assert seen[1 + 0] == Seen(TimeSeen(moments, 0), Shown(moments[0].vals, spare));
    }
  }

  /** A dump of a simulation and a reader of it: the reader sees the initial values and those at every
      moment, in order and each at its time, and nothing else before the end of the file. */
  method DumpAndWatch(w: Waves, start: int, moments: seq<Moment>) returns (seen: seq<Seen>, code: int, h: Handler)
    requires w.Ready() && w.Named() && w.out == w.head && !w.inCyc && w.waveTime >= 0 && |w.sections| + 3 < 0x8000_0000
    requires Int64(start) && Simulated(w.basics, w.vals, moments)
    modifies w
    ensures code == RES_EOF && AllSeen(seen, start, old(w.vals), moments, w.spare)
    ensures moments != [] ==>
              ((forall k {:trigger moments[k]} :: 0 <= k < |moments| ==> seen[1 + k].time == moments[k].time)
               <==> moments[0].time % TWO32 < 0x8000_0000)
    ensures h.pos == |w.out| && h.vals == Shown(ValsAt(old(w.vals), moments, |moments|), w.spare)
    ensures fresh(h) && h.f == File(w.out, w.be, KindsOf(w.basics, w.spare))
  {
    ghost var initial := w.vals;
    var at := |w.out|;
    Simulate(w, start, moments);
    ExpectedIs(start, initial, moments, w.spare, |moments|);
    assert moments[..|moments|] == moments;
    FiledReads(File(w.out, w.be, w.Kinds()), w.spare, w.head, w.told, w.waveTime);
    h := new Handler(File(w.out, w.be, w.Kinds()), at);
    seen, code := Watch(h);
    TimesRight(seen, start, initial, moments, w.basics, w.spare);
  }

  /** The same file, read at once. */
  method DumpAndRead(w: Waves, start: int, moments: seq<Moment>) returns (code: int, h: Handler)
    requires w.Ready() && w.Named() && w.out == w.head && !w.inCyc && w.waveTime >= 0 && |w.sections| + 3 < 0x8000_0000
    requires Int64(start) && Simulated(w.basics, w.vals, moments)
    modifies w
    ensures code == OK && h.pos == |w.out| && h.vals == Shown(ValsAt(old(w.vals), moments, |moments|), w.spare)
    ensures h.snapTime == if moments == [] then TimeRead(start) else TimeSeen(moments, |moments| - 1)
  {
    var at := |w.out|;
    Simulate(w, start, moments);
    FiledReads(File(w.out, w.be, w.Kinds()), w.spare, w.head, w.told, w.waveTime);
    h := new Handler(File(w.out, w.be, w.Kinds()), at);
    code := h.ReadDump();
  }
}
