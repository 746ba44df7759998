/** The index of a section: where each handle's chain starts, as one stream of zero runs, offset
    steps and aliases. */
module FstIndex {
  import opened Bytes
  import opened FstVarint
  import opened Leb128

  const TWO31 := 0x8000_0000

  /** A handle without changes, one whose data starts at `offset`, or one that shares the data of an
      earlier handle. */
  datatype Entry = Absent | Chunk(offset: nat) | Alias(target: nat)

  function Word(e: Entry): int {
    match e
    case Absent => 0
    case Chunk(offset) => offset
    case Alias(target) => TWO32 - (target + 1)
  }

  /** Offsets rise from `from`, and aliases name an earlier chunk. */
  ghost predicate WellFormed(es: seq<Entry>, i: nat, from: nat)
    requires i <= |es|
    decreases |es| - i
  {
    i == |es| ||
    match es[i]
    case Absent => WellFormed(es, i + 1, from)
    case Chunk(offset) => from < offset < TWO31 && WellFormed(es, i + 1, offset)
    case Alias(target) => target < i && es[target].Chunk? && WellFormed(es, i + 1, from)
  }

  /** `ends[i]` is where the chunks of the handles before `i` end. */
  ghost predicate Laid(es: seq<Entry>, ends: seq<nat>) {
    |ends| == |es| + 1 && ends[0] > 0 && (forall i :: 0 <= i <= |es| ==> ends[i] < TWO31)
    && forall i {:trigger es[i]} :: 0 <= i < |es| ==>
         (match es[i]
          case Absent => ends[i + 1] == ends[i]
          case Chunk(offset) => offset == ends[i] < ends[i + 1]
          case Alias(target) => ends[i + 1] == ends[i] && target < i && es[target].Chunk?)
  }

  lemma {:induction false} LaidWellFormed(es: seq<Entry>, ends: seq<nat>, i: nat, from: nat)
    requires Laid(es, ends) && i <= |es| && from < ends[i]
    ensures WellFormed(es, i, from)
    decreases |es| - i
  {
    if i < |es| {
      LaidWellFormed(es, ends, i + 1, if es[i].Chunk? then es[i].offset else from);
    }
  }

  // ---- the stream ----

  function Zeros(zeros: nat): seq<byte> {
    if zeros == 0 then [] else Varint(2 * zeros)
  }

  /** The stream for the handles from `i` on, with `zeros` absent ones pending. */
  function EncodeFrom(es: seq<Entry>, i: nat, zeros: nat, prevpos: nat, prevAlias: nat): (bytes: seq<byte>)
    requires i <= |es|
    decreases |es| - i
  {
    if i == |es| then Zeros(zeros)
    else if es[i].Absent? then EncodeFrom(es, i + 1, zeros + 1, prevpos, prevAlias)
    else Zeros(zeros) + (Step(es[i], prevpos, prevAlias) + AfterStep(es, i, prevpos, prevAlias))
  }

  function AfterStep(es: seq<Entry>, i: nat, prevpos: nat, prevAlias: nat): (bytes: seq<byte>)
    requires i < |es| && !es[i].Absent?
    decreases |es| - i, 0
  {
    if es[i].Chunk? then EncodeFrom(es, i + 1, 0, es[i].offset, prevAlias)
    else EncodeFrom(es, i + 1, 0, prevpos, es[i].target + 1)
  }

  /** A present handle: the step from the last offset, or minus the handle it shares data with, or
      zero for the same one as last time. The low bit is one. */
  function Step(e: Entry, prevpos: nat, prevAlias: nat): (bytes: seq<byte>)
    requires !e.Absent?
  {
    if e.Chunk? then SVarint(2 * (e.offset - prevpos) + 1)
    else SVarint(1 - 2 * if e.target + 1 == prevAlias then 0 else e.target + 1)
  }

  function EncodeIndex(es: seq<Entry>): (bytes: seq<byte>) {
    EncodeFrom(es, 0, 0, 0, 0)
  }

  // ---- the writer ----

  /** A present handle's step, from its table word. */
  method PutStep(word: nat, prevpos: nat, prevAlias: nat, ghost e: Entry)
      returns (bytes: seq<byte>, pos: nat, alias: nat)
    requires !e.Absent? && word == Word(e)
    requires e.Chunk? ==> prevpos < e.offset < TWO31
    requires e.Alias? ==> e.target < TWO31 - 1
    requires prevAlias == 0 || TWO31 < prevAlias < TWO32
    ensures bytes == Step(e, prevpos, if prevAlias == 0 then 0 else TWO32 - prevAlias)
    ensures e.Chunk? ==> pos == e.offset && alias == prevAlias
    ensures e.Alias? ==> pos == prevpos && alias == TWO32 - (e.target + 1)
  {
    pos, alias := prevpos, prevAlias;
    if word >= TWO31 {
      if word != prevAlias {
        alias := word;
        bytes := PutSVarint(2 * (word - TWO32) + 1);
      } else {
        bytes := PutSVarint(1);
      }
    } else {
      bytes := PutSVarint(2 * (word - prevpos) + 1);
      pos := word;
    }
  }

  function AliasOf(word: nat): nat
    requires word <= TWO32
  {
    if word == 0 then 0 else TWO32 - word
  }

  /** Emits the index of a table of words. */
  method PutIndex(words: seq<int>, ghost es: seq<Entry>) returns (f: seq<byte>)
    requires |words| == |es| < TWO31 && WellFormed(es, 0, 0)
    requires forall i :: 0 <= i < |es| ==> words[i] == Word(es[i])
    ensures f == EncodeIndex(es)
  {
    f := [];
    var zerocnt, prevpos, prevAlias: nat := 0, 0, 0;
    ghost var target: nat := 0;
    var i := 0;
    while i < |words|
      invariant i <= |words| && WellFormed(es, i, prevpos) && (prevAlias == 0 || TWO31 < prevAlias < TWO32)
      invariant target == AliasOf(prevAlias)
      invariant f + EncodeFrom(es, i, zerocnt, prevpos, target) == EncodeIndex(es)
    {
      if words[i] != 0 {
        ghost var f0, zeros, rest := f, Zeros(zerocnt), AfterStep(es, i, prevpos, target);
        if zerocnt != 0 {
          var run := PutVarint(2 * zerocnt);
          f := f + run;
          zerocnt := 0;
        }
        ghost var f1 := f;
        var step;
        step, prevpos, prevAlias := PutStep(words[i], prevpos, prevAlias, es[i]);
        f, target := f + step, if es[i].Chunk? then target else es[i].target + 1;
        Appends(f0, zeros, step, rest, f1, f);
      } else {
        zerocnt := zerocnt + 1;
      }
      i := i + 1;
    }
    if zerocnt != 0 {
      var run := PutVarint(2 * zerocnt);
      f := f + run;
    }
  }

  lemma {:induction false} Appends(f0: seq<byte>, zeros: seq<byte>, step: seq<byte>, rest: seq<byte>, f1: seq<byte>,
                                   f2: seq<byte>)
    requires f1 == f0 + zeros || (zeros == [] && f1 == f0)
    requires f2 == f1 + step
    ensures f2 + rest == f0 + (zeros + (step + rest))
  {
  }

  // ---- the reader ----

  lemma {:induction false} FirstByte(v: int)
    ensures SVarint(2 * v + 1)[0] % 2 == 1
    ensures v >= 0 ==> Varint(2 * v)[0] % 2 == 0
  {
  }

  lemma {:induction false} ZerosFirst(es: seq<Entry>, i: nat, zeros: nat, prevpos: nat, prevAlias: nat)
    requires i <= |es| && (i < |es| ==> !es[i].Absent?)
    ensures EncodeFrom(es, i, zeros, prevpos, prevAlias) == Zeros(zeros) + EncodeFrom(es, i, 0, prevpos, prevAlias)
  {
    if i < |es| {
      var rest := Step(es[i], prevpos, prevAlias) + AfterStep(es, i, prevpos, prevAlias);
      assert EncodeFrom(es, i, 0, prevpos, prevAlias) == rest;
    }
  }

  /** The next present handle after a run of absent ones; `run` counts the pending ones too. */
  lemma {:induction false} AbsentRun(es: seq<Entry>, i: nat, zeros: nat, prevpos: nat, prevAlias: nat)
      returns (j: nat, run: nat)
    requires i <= |es|
    ensures i <= j <= |es| && (forall k :: i <= k < j ==> es[k].Absent?) && (j < |es| ==> !es[j].Absent?)
    ensures run == zeros + (j - i)
    ensures EncodeFrom(es, i, zeros, prevpos, prevAlias) == Zeros(run) + EncodeFrom(es, j, 0, prevpos, prevAlias)
    decreases |es| - i
  {
    if i < |es| && es[i].Absent? {
      j, run := AbsentRun(es, i + 1, zeros + 1, prevpos, prevAlias);
    } else {
      j, run := i, zeros;
      ZerosFirst(es, i, zeros, prevpos, prevAlias);
    }
  }

  /** A step, then the rest of the stream. */
  lemma {:induction false} ReadsStepThen(mem: seq<byte>, pnt: nat, whole: seq<byte>, v: int, rest: seq<byte>, next: nat)
    requires At(mem, pnt, whole) && whole == SVarint(2 * v + 1) + rest && next == pnt + |SVarint(2 * v + 1)|
    requires -TWO31 <= v < TWO31
    ensures |whole| == next - pnt + |rest|
    ensures Terminated(mem, pnt) && ReadSVarint(mem, pnt).0 == 2 * v + 1 && ReadSVarint(mem, pnt).1 == next
            && pnt < next <= pnt + 9
    ensures mem[pnt] % 2 == 1 && At(mem, next, rest)
  {
    AtSplit(mem, pnt, SVarint(2 * v + 1), rest);
    SVarintRoundTrip(mem, pnt, 2 * v + 1);
    AtPlace(mem, pnt, SVarint(2 * v + 1), 0);
    FirstByte(v);
    SVarintShort(2 * v + 1);
  }

  /** A run, then the rest of the stream. */
  lemma {:induction false} ReadsRunThen(mem: seq<byte>, pnt: nat, whole: seq<byte>, run: nat, rest: seq<byte>,
                                        next: nat)
    requires At(mem, pnt, whole) && whole == Varint(2 * run) + rest && next == pnt + |Varint(2 * run)|
    ensures Terminated(mem, pnt) && ReadVarint(mem, pnt) == (2 * run, next)
    ensures mem[pnt] % 2 == 0 && At(mem, next, rest)
  {
    AtSplit(mem, pnt, Varint(2 * run), rest);
    VarintRoundTrip(mem, pnt, 2 * run);
    AtPlace(mem, pnt, Varint(2 * run), 0);
    FirstByte(run);
  }

  lemma {:induction false} AbsentWellFormed(es: seq<Entry>, i: nat, j: nat, prevpos: nat)
    requires i <= j <= |es| && (forall k :: i <= k < j ==> es[k].Absent?) && WellFormed(es, i, prevpos)
    ensures WellFormed(es, j, prevpos)
    decreases j - i
  {
    if i < j {
      AbsentWellFormed(es, i + 1, j, prevpos);
    }
  }

  /** What the step of a present handle encodes. */
  function StepValue(e: Entry, prevpos: nat, prevAlias: nat): int
    requires !e.Absent?
  {
    if e.Chunk? then e.offset - prevpos else if e.target + 1 == prevAlias then 0 else -(e.target + 1)
  }

  /** `mem[pnt..end]` is the stream for the handles from `idx` on. */
  ghost predicate Pending(mem: seq<byte>, pnt: nat, end: nat, es: seq<Entry>, idx: nat, prevpos: nat, prevAlias: nat) {
    idx <= |es| && WellFormed(es, idx, prevpos)
    && At(mem, pnt, EncodeFrom(es, idx, 0, prevpos, prevAlias))
    && end == pnt + |EncodeFrom(es, idx, 0, prevpos, prevAlias)|
  }

  lemma {:induction false} PresentFirst(es: seq<Entry>, i: nat, prevpos: nat, prevAlias: nat, step: seq<byte>,
                                        rest: seq<byte>)
    requires i < |es| && !es[i].Absent?
    requires step == Step(es[i], prevpos, prevAlias) && rest == AfterStep(es, i, prevpos, prevAlias)
    ensures EncodeFrom(es, i, 0, prevpos, prevAlias) == step + rest
  {
    assert [] + (step + rest) == step + rest;
  }

  /** The stream goes on after a step. */
  lemma {:induction false} PendingAfter(mem: seq<byte>, pnt: nat, end: nat, es: seq<Entry>, idx: nat, prevpos: nat,
                                        prevAlias: nat)
    requires idx < |es| && !es[idx].Absent? && WellFormed(es, idx, prevpos)
    requires At(mem, pnt, AfterStep(es, idx, prevpos, prevAlias))
             && end == pnt + |AfterStep(es, idx, prevpos, prevAlias)|
    ensures es[idx].Chunk? ==> Pending(mem, pnt, end, es, idx + 1, es[idx].offset, prevAlias)
    ensures es[idx].Alias? ==> Pending(mem, pnt, end, es, idx + 1, prevpos, es[idx].target + 1)
  {
  }

  lemma {:induction false} StepReads(mem: seq<byte>, pnt: nat, end: nat, es: seq<Entry>, idx: nat, prevpos: nat,
                                     prevAlias: nat, v: int, next: nat)
    requires Pending(mem, pnt, end, es, idx, prevpos, prevAlias) && idx < |es| < TWO31 && !es[idx].Absent?
    requires v == StepValue(es[idx], prevpos, prevAlias) && next == pnt + |SVarint(2 * v + 1)|
    ensures Terminated(mem, pnt) && ReadSVarint(mem, pnt).0 == 2 * v + 1 && ReadSVarint(mem, pnt).1 == next
            && pnt < next <= pnt + 9 && mem[pnt] % 2 == 1
    ensures At(mem, next, AfterStep(es, idx, prevpos, prevAlias))
            && end == next + |AfterStep(es, idx, prevpos, prevAlias)|
  {
    var rest := AfterStep(es, idx, prevpos, prevAlias);
    PresentFirst(es, idx, prevpos, prevAlias, SVarint(2 * v + 1), rest);
    ReadsStepThen(mem, pnt, EncodeFrom(es, idx, 0, prevpos, prevAlias), v, rest, next);
  }

  lemma {:induction false} RunReads(mem: seq<byte>, pnt: nat, end: nat, es: seq<Entry>, idx: nat, prevpos: nat,
                                    prevAlias: nat)
      returns (j: nat, run: nat, next: nat)
    requires Pending(mem, pnt, end, es, idx, prevpos, prevAlias) && idx < |es| < TWO31 && es[idx].Absent?
    ensures j == idx + run && run > 0 && (forall k :: idx <= k < j ==> k < |es| && es[k].Absent?)
    ensures Terminated(mem, pnt) && mem[pnt] % 2 == 0
    ensures ReadVarint(mem, pnt).0 == 2 * run && ReadVarint(mem, pnt).1 == next
    ensures Pending(mem, next, end, es, j, prevpos, prevAlias)
  {
    j, run := AbsentRun(es, idx, 0, prevpos, prevAlias);
    AbsentWellFormed(es, idx, j, prevpos);
    next := pnt + |Varint(2 * run)|;
    ReadsRunThen(mem, pnt, EncodeFrom(es, idx, 0, prevpos, prevAlias), run, EncodeFrom(es, j, 0, prevpos, prevAlias),
                 next);
  }

  /** The low bit tells a run from a step. */
  lemma {:induction false} LowBit(mem: seq<byte>, pnt: nat, end: nat, es: seq<Entry>, idx: nat, prevpos: nat,
                                  prevAlias: nat)
    requires Pending(mem, pnt, end, es, idx, prevpos, prevAlias) && |es| < TWO31
    ensures pnt == end ==> idx == |es|
    ensures pnt != end ==> idx < |es| && pnt < |mem| && (mem[pnt] % 2 == 0 <==> es[idx].Absent?)
  {
    if idx == |es| {
    } else if es[idx].Absent? {
      var j, run, next := RunReads(mem, pnt, end, es, idx, prevpos, prevAlias);
    } else {
      var v := StepValue(es[idx], prevpos, prevAlias);
      StepReads(mem, pnt, end, es, idx, prevpos, prevAlias, v, pnt + |SVarint(2 * v + 1)|);
    }
  }

  /** Reads a run of absent handles. */
  method ReadRun(mem: seq<byte>, pnt: nat, ghost end: nat, ghost es: seq<Entry>, ghost idx: nat, ghost prevpos: nat,
                 ghost prevAlias: nat)
      returns (loopcnt: nat, npnt: nat)
    requires Pending(mem, pnt, end, es, idx, prevpos, prevAlias) && idx < |es| < TWO31 && es[idx].Absent?
    ensures loopcnt > 0 && (forall k :: idx <= k < idx + loopcnt ==> k < |es| && es[k].Absent?)
    ensures Pending(mem, npnt, end, es, idx + loopcnt, prevpos, prevAlias)
  {
    ghost var j, run, next := RunReads(mem, pnt, end, es, idx, prevpos, prevAlias);
    var val, skiplen := GetVarint32(mem, pnt);
    assert val == 2 * run by { assert run <= |es|; }
    loopcnt, npnt := val / 2, pnt + skiplen;
  }

  /** Reads the signed step of a present handle. */
  method ReadStep(mem: seq<byte>, pnt: nat, ghost end: nat, ghost es: seq<Entry>, ghost idx: nat, ghost prevpos: nat,
                  ghost prevAlias: nat)
      returns (shval: int, next: nat)
    requires Pending(mem, pnt, end, es, idx, prevpos, prevAlias) && idx < |es| < TWO31 && !es[idx].Absent?
    ensures shval == StepValue(es[idx], prevpos, prevAlias)
    ensures es[idx].Chunk? ==> Pending(mem, next, end, es, idx + 1, es[idx].offset, prevAlias)
    ensures es[idx].Alias? ==> Pending(mem, next, end, es, idx + 1, prevpos, es[idx].target + 1)
  {
    ghost var v := StepValue(es[idx], prevpos, prevAlias);
    StepReads(mem, pnt, end, es, idx, prevpos, prevAlias, v, pnt + |SVarint(2 * v + 1)|);
    PendingAfter(mem, pnt + |SVarint(2 * v + 1)|, end, es, idx, prevpos, prevAlias);
    WrappedStays(2 * v + 1, TWO64);
    var rc, skiplen := GetSVarint64(mem, pnt);
    shval, next := rc / 2, pnt + skiplen;
  }
}
