/** The time list of a section: the steps the writer encodes, and the table the reader makes of it. */
module FstTimes {
  import opened Bytes
  import opened FstVarint
  import opened Leb128

  /** Times since zero, each stored as the step from the one before. */
  datatype Times = Start | Tick(before: Times, time: nat)

  function Latest(times: Times): nat {
    if times.Start? then 0 else times.time
  }

  function Ticks(times: Times): nat {
    if times.Start? then 0 else Ticks(times.before) + 1
  }

  /** Times never decrease. */
  ghost predicate Rising(times: Times) {
    times.Start? || (Latest(times.before) <= times.time && Rising(times.before))
  }

  function EncodeTimes(times: Times): (bytes: seq<byte>)
    requires Rising(times)
  {
    match times
    case Start => []
    case Tick(before, time) => EncodeTimes(before) + Varint(time - Latest(before))
  }

  /** The absolute times, oldest first. */
  function TimeTable(times: Times): (table: seq<nat>)
    ensures |table| == Ticks(times)
  {
    if times.Start? then [] else TimeTable(times.before) + [times.time]
  }

  /** The list as it was after its first `k` times. */
  function Cut(times: Times, k: nat): (r: Times)
    requires k <= Ticks(times)
    ensures Ticks(r) == k
  {
    if k == Ticks(times) then times else Cut(times.before, k)
  }

  lemma {:induction false} CutRising(times: Times, k: nat)
    requires k <= Ticks(times) && Rising(times)
    ensures Rising(Cut(times, k)) && Latest(Cut(times, k)) <= Latest(times)
  {
    if k < Ticks(times) {
      CutRising(times.before, k);
    }
  }

  /** Where the `k`th step stands, and what it leads to. */
  lemma {:induction false} TickAt(times: Times, mem: seq<byte>, k: nat)
    requires Rising(times) && k < Ticks(times) && At(mem, 0, EncodeTimes(times))
    ensures Rising(Cut(times, k)) && Cut(times, k + 1) == Tick(Cut(times, k), TimeTable(times)[k])
    ensures Latest(Cut(times, k)) <= TimeTable(times)[k] <= Latest(times)
    ensures At(mem, |EncodeTimes(Cut(times, k))|, Varint(TimeTable(times)[k] - Latest(Cut(times, k))))
  {
    AtSplit(mem, 0, EncodeTimes(times.before), Varint(times.time - Latest(times.before)));
    if k + 1 < Ticks(times) {
      TickAt(times.before, mem, k);
    } else {
      assert Cut(times, k) == times.before;
    }
  }

  ghost predicate CutAt(times: Times, k: nat, tpnt: nat, tpval: nat) {
    k <= Ticks(times) && Rising(Cut(times, k)) && tpnt == |EncodeTimes(Cut(times, k))| && tpval == Latest(Cut(times, k))
  }

  /** Reads one step. */
  lemma {:induction false} TickReads(times: Times, mem: seq<byte>, k: nat, tpnt: nat, tpval: nat, step: int)
    requires Rising(times) && k < Ticks(times) && At(mem, 0, EncodeTimes(times)) && Latest(times) < TWO64
    requires CutAt(times, k, tpnt, tpval) && step == TimeTable(times)[k] - tpval
    ensures 0 <= step < TWO64 && Terminated(mem, tpnt) && ReadVarint(mem, tpnt) == (step, tpnt + |Varint(step)|)
    ensures CutAt(times, k + 1, tpnt + |Varint(step)|, tpval + step)
  {
    TickAt(times, mem, k);
    VarintRoundTrip(mem, tpnt, step);
  }

  /** The next time: the last one and the step at `tpnt0`. */
  method AddStep(ucdata: seq<byte>, tpnt0: nat, tpval0: nat, ghost times: Times, ghost ti: nat)
      returns (tpnt: nat, tpval: nat)
    requires Rising(times) && Latest(times) < TWO64 && At(ucdata, 0, EncodeTimes(times))
    requires ti < Ticks(times) && CutAt(times, ti, tpnt0, tpval0)
    ensures CutAt(times, ti + 1, tpnt, tpval) && tpval == TimeTable(times)[ti]
  {
    ghost var step := TimeTable(times)[ti] as int - tpval0;
    TickReads(times, ucdata, ti, tpnt0, tpval0, step);
    var val, skiplen := GetVarint64(ucdata, tpnt0);
    tpnt, tpval := tpnt0 + skiplen, tpval0 + val;
  }

  /** The reader adds up the steps. */
  method LoadTimes(ucdata: seq<byte>, nitems: nat, ghost times: Times) returns (table: seq<nat>)
    requires Rising(times) && Latest(times) < TWO64 && ucdata == EncodeTimes(times) && nitems == Ticks(times)
    ensures table == TimeTable(times)
  {
    AtEnds(ucdata, []);
    assert ucdata + [] == ucdata;
    table := [];
    var tpnt: nat, tpval: nat := 0, 0;
    for ti := 0 to nitems
      invariant CutAt(times, ti, tpnt, tpval) && table == TimeTable(times)[..ti]
    {
      tpnt, tpval := AddStep(ucdata, tpnt, tpval, times, ti);
      table := table + [tpval];
    }
  }

  lemma {:induction false} TableRises(times: Times, j: nat, k: nat)
    requires Rising(times) && j <= k < Ticks(times)
    ensures TimeTable(times)[j] <= TimeTable(times)[k] <= Latest(times)
  {
    if k + 1 < Ticks(times) {
      TableRises(times.before, j, k);
    } else if j < k {
      TableRises(times.before, j, k - 1);
    }
  }

  /** The oldest time. */
  function First(times: Times): nat {
    if times.Start? then 0 else if times.before.Start? then times.time else First(times.before)
  }

  /** All times of a list whose oldest is not before `begin`, and whose latest is `end`, are between these. */
  lemma {:induction false} TableSpans(times: Times, begin: nat, end: nat)
    requires Rising(times) && begin <= First(times) && Latest(times) == end
    ensures forall k :: 0 <= k < |TimeTable(times)| ==> begin <= TimeTable(times)[k] <= end
  {
    forall k | 0 <= k < |TimeTable(times)|
      ensures begin <= TimeTable(times)[k] <= end
    {
      FirstRises(times, k);
    }
  }

  lemma {:induction false} FirstRises(times: Times, k: nat)
    requires Rising(times) && k < Ticks(times)
    ensures First(times) <= TimeTable(times)[k] <= Latest(times)
  {
    if k + 1 < Ticks(times) {
      FirstRises(times.before, k);
    } else if k > 0 {
      FirstRises(times.before, k - 1);
    }
  }
}
