/** The sections of a GHW file that hold signal values, read all at once or one step at a time. */
module GhwStream {
  import opened Bytes
  import opened Leb128
  import opened GhwLeb

  /** Basic types, as their tags in the file tell them apart. */
  datatype Basic = B2 | E8 | E32 | I32 | I64 | F64 | P32 | P64

  /** The base type of a signal, none if the signal is not used. */
  datatype Kind = NoType | Typed(basic: Basic)

  datatype Value = Unset | Small(b: byte) | Number(v: int) | Real(bytes: seq<byte>)

  /** What reading changes: the stream position, the time and the signal values. */
  datatype State = State(pos: nat, snapTime: int, vals: seq<Value>)

  /** A return value with the state left behind, or an abort or access outside the signal table. */
  datatype Reply = Ret(code: int, st: State) | Wild

  const RES_EOF := -2
  const RES_SNAPSHOT := 1
  const RES_CYCLE := 2
  const RES_OTHER := 3

  const SNP: seq<byte> := [83, 78, 80, 0]
  const ESN: seq<byte> := [69, 83, 78, 0]
  const CYC: seq<byte> := [67, 89, 67, 0]
  const ECY: seq<byte> := [69, 67, 89, 0]
  const DIR: seq<byte> := [68, 73, 82, 0]
  const EOD: seq<byte> := [69, 79, 68, 0]
  const TAI: seq<byte> := [84, 65, 73, 0]

  /** The open file: its bytes, its byte order and the types of its signals. */
  datatype File = File(s: seq<byte>, be: bool, kinds: seq<Kind>)

  /** A short read leaves the stream at its end. */
  function Ended(f: File, st: State): State {
    st.(pos := |f.s|)
  }

  predicate Has(f: File, st: State, n: nat) {
    st.pos + n <= |f.s|
  }

  /** Four bytes that must be these. */
  function Expect(f: File, st: State, tag: seq<byte>): (r: Reply) {
    if !Has(f, st, 4) then Ret(ERROR, Ended(f, st))
    else Ret(if f.s[st.pos..st.pos + 4] == tag then OK else ERROR, st.(pos := st.pos + 4))
  }

  function WithNumber(f: File, st: State, i: nat, n: GhwLeb.Number): Reply
    requires i < |st.vals|
  {
    match n
    case Got(v, next) => Ret(OK, st.(pos := next, vals := st.vals[i := Number(v)]))
    case Short => Ret(ERROR, Ended(f, st))
    case Overlong => Wild
  }

  /** The value of signal `i`; one of a type that is not listed here aborts. */
  function SignalValue(f: File, st: State, i: nat): (r: Reply)
    requires i < |f.kinds| == |st.vals|
    ensures r.Ret? ==>
              |r.st.vals| == |st.vals| && (st.pos <= |f.s| ==> st.pos <= r.st.pos <= |f.s|)
              && -1 <= r.code <= 0
  {
    match f.kinds[i]
    case Typed(B2) | Typed(E8) =>
      if Has(f, st, 1) then Ret(OK, st.(pos := st.pos + 1, vals := st.vals[i := Small(f.s[st.pos])]))
          else Ret(ERROR, Ended(f, st))
    case Typed(I32) | Typed(P32) => WithNumber(f, st, i, Signed32(f.s, st.pos))
    case Typed(P64) => WithNumber(f, st, i, Signed64(f.s, st.pos))
    case Typed(F64) =>
      if Has(f, st, 8) then Ret(OK, st.(pos := st.pos + 8, vals := st.vals[i := Real(f.s[st.pos..st.pos + 8])]))
          else Ret(ERROR, Ended(f, st))
    case NoType => Wild
    case Typed(_) => Wild
  }

  /** The values of all signals from `i` on. */
  function AllValues(f: File, st: State, i: nat): (r: Reply)
    requires |f.kinds| == |st.vals| && i <= |f.kinds|
    ensures r.Ret? ==>
              |r.st.vals| == |st.vals| && (st.pos <= |f.s| ==> st.pos <= r.st.pos <= |f.s|)
              && -1 <= r.code <= 0
    decreases |f.kinds| - i
  {
    if i == |f.kinds| then Ret(OK, st)
    else if f.kinds[i].NoType? then AllValues(f, st, i + 1)
    else
      var r := SignalValue(f, st, i);
      if r.Wild? || r.code < 0 then r else AllValues(f, r.st, i + 1)
  }

  function Snapshot(f: File, st: State): (r: Reply)
    requires |f.kinds| == |st.vals|
    ensures r.Ret? ==>
              |r.st.vals| == |st.vals| && (st.pos <= |f.s| ==> st.pos <= r.st.pos <= |f.s|)
              && -1 <= r.code <= 0
  {
    if !Has(f, st, 12) then Ret(ERROR, Ended(f, st))
    else if f.s[st.pos..st.pos + 4] != [0, 0, 0, 0] then Ret(ERROR, st.(pos := st.pos + 12))
    else
      var r := AllValues(f, st.(pos := st.pos + 12, snapTime := GetI64(f.s, st.pos + 4, f.be)), 0);
      if r.Wild? || r.code < 0 then r else Expect(f, r.st, ESN)
  }

  function CycleStart(f: File, st: State): (r: Reply) {
    if !Has(f, st, 8) then Ret(ERROR, Ended(f, st))
    else Ret(OK, st.(pos := st.pos + 8, snapTime := GetI64(f.s, st.pos, f.be)))
  }

  datatype Index = Signal(i: nat) | Outside

  /** The `d`th used signal after `i`. */
  function Seek(kinds: seq<Kind>, i: nat, d: nat): (r: Index)
    ensures r.Signal? && d > 0 ==> i < r.i < |kinds| && !kinds[r.i].NoType?
    decreases |kinds| - i
  {
    if d == 0 then Signal(i)
    else if i + 1 >= |kinds| then Outside
    else Seek(kinds, i + 1, if kinds[i + 1].NoType? then d else d - 1)
  }

  /** The signals that change in one step, each given by its distance from the last. */
  function CycleCont(f: File, st: State, i: nat): (r: Reply)
    requires |f.kinds| == |st.vals|
    ensures r.Ret? ==>
              |r.st.vals| == |st.vals| && (st.pos <= |f.s| ==> st.pos <= r.st.pos <= |f.s|)
              && -1 <= r.code <= 0
    decreases |f.s| - st.pos
  {
    UnsignedForward(f.s, st.pos);
    match Unsigned(f.s, st.pos)
    case Short => Ret(ERROR, Ended(f, st))
    case Overlong => Wild
    case Got(d, next) =>
      if d == 0 then Ret(OK, st.(pos := next))
      else
        match Seek(f.kinds, i, d)
        case Outside => Wild
        case Signal(j) =>
          var r := SignalValue(f, st.(pos := next), j);
          if r.Wild? || r.code < 0 then r else CycleCont(f, r.st, j)
  }

  /** The step to the next time, 1 if there is one. */
  function CycleNext(f: File, st: State): (r: Reply)
    ensures r.Ret? ==> r.st.vals == st.vals && -1 <= r.code <= 1 && (st.pos <= |f.s| ==> st.pos <= r.st.pos <= |f.s|)
    ensures r.Ret? && r.code >= 0 ==> st.pos < r.st.pos
  {
    match Signed64(f.s, st.pos)
    case Short => Ret(ERROR, Ended(f, st))
    case Overlong => Wild
    case Got(d, next) =>
      if d == -1 then Ret(0, st.(pos := next))
          else Ret(1, st.(pos := next, snapTime := Wrapped(st.snapTime + d, TWO64)))
  }

  /** The steps after the first one of a cycle, and its end. */
  function CycleRest(f: File, st: State): (r: Reply)
    requires |f.kinds| == |st.vals| && st.pos <= |f.s|
    ensures r.Ret? ==> |r.st.vals| == |st.vals| && st.pos <= r.st.pos <= |f.s| && -1 <= r.code <= 0
    decreases |f.s| - st.pos
  {
    var n := CycleNext(f, st);
    if n.Wild? || n.code < 0 then n
    else if n.code == 0 then Expect(f, n.st, ECY)
    else
      var r := CycleCont(f, n.st, 0);
      if r.Wild? || r.code < 0 then r else CycleRest(f, r.st)
  }

  /** ghw_read_cycle. */
  function Cycle(f: File, st: State): (r: Reply)
    requires |f.kinds| == |st.vals| && st.pos <= |f.s|
    ensures r.Ret? ==> |r.st.vals| == |st.vals| && st.pos <= r.st.pos <= |f.s| && -1 <= r.code <= 0
  {
    var b := CycleStart(f, st);
    if b.code < 0 then b
    else
      var r := CycleCont(f, b.st, 0);
      if r.Wild? || r.code < 0 then r else CycleRest(f, r.st)
  }

  /** The directory's entries are skipped; a negative count is none. */
  function Directory(f: File, st: State): (r: Reply)
    ensures r.Ret? && -1 <= r.code <= 0 && r.st.vals == st.vals && (st.pos <= |f.s| ==> st.pos <= r.st.pos <= |f.s|)
  {
    if !Has(f, st, 8) then Ret(ERROR, Ended(f, st))
    else
      var n := GetI32(f.s, st.pos + 4, f.be);
      var count := if n < 0 then 0 else n;
      if !Has(f, st, 8 + 8 * count) then Ret(ERROR, Ended(f, st))
      else Expect(f, st.(pos := st.pos + 8 + 8 * count), EOD)
  }

  function Tailer(f: File, st: State): (r: Reply) {
    if !Has(f, st, 8) then Ret(ERROR, Ended(f, st)) else Ret(OK, st.(pos := st.pos + 8))
  }

  /** ghw_read_dump: section after section to the end of the file. */
  function Dump(f: File, st: State): (r: Reply)
    requires |f.kinds| == |st.vals| && st.pos <= |f.s|
    ensures r.Ret? ==> |r.st.vals| == |st.vals| && -1 <= r.code <= 0
    decreases |f.s| - st.pos
  {
    if !Has(f, st, 4) then Ret(OK, Ended(f, st))
    else
      var hdr, in_ := f.s[st.pos..st.pos + 4], st.(pos := st.pos + 4);
      var r := if hdr == SNP then Snapshot(f, in_)
               else if hdr == CYC then Cycle(f, in_)
               else if hdr == DIR then Directory(f, in_)
               else if hdr == TAI then Tailer(f, in_)
               else Ret(ERROR, in_);
      if r.Wild? || r.code != 0 then r else Dump(f, r.st)
  }

  // ---- one step at a time ----

  datatype Sm = Init | Sect | InCycle

  datatype SmReply = SmRet(code: int, st: State, sm: Sm) | SmWild

  /** ghw_read_sm_hdr. */
  function SmHdr(f: File, st: State): (r: Reply)
    requires |f.kinds| == |st.vals| && st.pos <= |f.s|
    ensures r.Ret? ==> |r.st.vals| == |st.vals| && st.pos <= r.st.pos <= |f.s|
    ensures r.Ret? && r.code >= 0 ==> st.pos < r.st.pos
    ensures r.Ret? ==> r.code in {RES_EOF, ERROR, RES_SNAPSHOT, RES_CYCLE, RES_OTHER}
  {
    if !Has(f, st, 4) then Ret(RES_EOF, Ended(f, st))
    else
      var hdr, in_ := f.s[st.pos..st.pos + 4], st.(pos := st.pos + 4);
      if hdr == SNP then
        var r := Snapshot(f, in_);
        if r.Wild? || r.code < 0 then r else Ret(RES_SNAPSHOT, r.st)
      else if hdr == CYC then
        var b := CycleStart(f, in_);
        if b.code < 0 then b
        else
          var r := CycleCont(f, b.st, 0);
          if r.Wild? || r.code < 0 then r else Ret(RES_CYCLE, r.st)
      else if hdr == DIR || hdr == TAI then
        var r := if hdr == DIR then Directory(f, in_) else Tailer(f, in_);
        if r.code != 0 then r else Ret(RES_OTHER, r.st)
      else Ret(ERROR, in_)
  }

  /** ghw_read_sm: goes on until there is something to report. */
  function SmStep(f: File, st: State, sm: Sm): (r: SmReply)
    requires |f.kinds| == |st.vals| && st.pos <= |f.s|
    ensures r.SmRet? ==> |r.st.vals| == |st.vals| && st.pos <= r.st.pos <= |f.s|
    ensures r.SmRet? && r.code >= 0 ==> st.pos < r.st.pos
    decreases |f.s| - st.pos, sm
  {
    if sm.InCycle? then
      var n := CycleNext(f, st);
      if n.Wild? then SmWild
      else if n.code < 0 then SmRet(n.code, n.st, sm)
      else if n.code == 1 then
        var r := CycleCont(f, n.st, 0);
        if r.Wild? then SmWild else SmRet(if r.code < 0 then r.code else RES_CYCLE, r.st, sm)
      else
        var e := Expect(f, n.st, ECY);
        if e.code < 0 then SmRet(e.code, e.st, sm) else SmStep(f, e.st, Sect)
    else
      var r := SmHdr(f, st);
      if r.Wild? then SmWild
      else if r.code == RES_OTHER then SmStep(f, r.st, sm)
      else if r.code == RES_SNAPSHOT then SmRet(r.code, r.st, Sect)
      else if r.code == RES_CYCLE then SmRet(r.code, r.st, InCycle)
      else SmRet(r.code, r.st, sm)
  }

  /** Calling it until it returns a negative number. */
  function Pull(f: File, st: State, sm: Sm): (r: Reply)
    requires |f.kinds| == |st.vals| && st.pos <= |f.s|
    decreases |f.s| - st.pos
  {
    var r := SmStep(f, st, sm);
    if r.SmWild? then Wild
    else if r.code < 0 then Ret(r.code, r.st)
    else Pull(f, r.st, r.sm)
  }

  /** What the pull parser should end with, given what the batch parser returns. */
  function AsPulled(r: Reply): Reply {
    if r.Ret? && r.code == OK then Ret(RES_EOF, r.st) else r
  }

  /** From inside a cycle. */
  function CycleThenDump(f: File, st: State): (r: Reply)
    requires |f.kinds| == |st.vals| && st.pos <= |f.s|
  {
    var r := CycleRest(f, st);
    if r.Wild? || r.code != 0 then r else Dump(f, r.st)
  }

  /** A section that the pull parser begins is the one a dump reads. */
  lemma {:induction false} HdrIsSection(f: File, st: State)
    requires |f.kinds| == |st.vals| && st.pos <= |f.s|
    ensures match SmHdr(f, st)
            case Wild => Dump(f, st) == Wild
            case Ret(code, next) =>
              Dump(f, st) == if code == RES_EOF then Ret(OK, next)
                             else if code == RES_CYCLE then CycleThenDump(f, next)
                             else if code == ERROR then Ret(ERROR, next)
                             else Dump(f, next)
  {
  }

  /** Pulling to the end leaves the same values, the same time and the same position as one dump, and
      ends in eof exactly when the dump succeeds. */
  lemma {:induction false} PullIsDump(f: File, st: State, sm: Sm)
    requires |f.kinds| == |st.vals| && st.pos <= |f.s| && !sm.InCycle?
    ensures Pull(f, st, sm) == AsPulled(Dump(f, st))
    decreases |f.s| - st.pos, 0
  {
    HdrIsSection(f, st);
    var r := SmHdr(f, st);
    if r.Ret? && r.code == RES_SNAPSHOT {
      PullIsDump(f, r.st, Sect);
    } else if r.Ret? && r.code == RES_CYCLE {
      PullIsCycle(f, r.st);
    } else if r.Ret? && r.code == RES_OTHER {
      PullIsDump(f, r.st, sm);
    }
  }

  lemma {:induction false} PullIsCycle(f: File, st: State)
    requires |f.kinds| == |st.vals| && st.pos <= |f.s|
    ensures Pull(f, st, InCycle) == AsPulled(CycleThenDump(f, st))
    decreases |f.s| - st.pos, 1
  {
    var n := CycleNext(f, st);
    if n.Ret? && n.code == 1 {
      var r := CycleCont(f, n.st, 0);
      if r.Ret? && r.code == 0 {
        PullIsCycle(f, r.st);
      }
    } else if n.Ret? && n.code == 0 {
      var e := Expect(f, n.st, ECY);
      if e.code == 0 {
        PullIsDump(f, e.st, Sect);
      }
    }
  }

  // ---- the reader ----

  class Handler {
    const f: File
    var pos: nat
    var snapTime: int
    var vals: seq<Value>

    /** The header sections end at `pos`. */
    constructor (f: File, pos: nat)
      requires pos <= |f.s|
      ensures this.f == f && Valid() && St() == State(pos, 0, seq(|f.kinds|, _ => Unset))
    {
      this.f, this.pos, snapTime, vals := f, pos, 0, seq(|f.kinds|, _ => Unset);
    }

    ghost predicate Valid()
      reads this
    {
      pos <= |f.s| && |vals| == |f.kinds|
    }

    function St(): State
      reads this
    {
      State(pos, snapTime, vals)
    }

    /** Reads four bytes and compares them. */
    method Match(tag: seq<byte>) returns (code: int)
      requires Valid()
      modifies this`pos
      ensures Valid() && Ret(code, St()) == Expect(f, old(St()), tag)
    {
      if pos + 4 > |f.s| {
        pos := |f.s|;
        return ERROR;
      }
      pos := pos + 4;
      code := if f.s[pos - 4..pos] == tag then OK else ERROR;
    }

    /** ghw_read_signal_value. */
    method ReadSignalValue(i: nat) returns (code: int)
      requires Valid() && i < |vals| && SignalValue(f, St(), i) != Wild
      modifies this`pos, this`vals
      ensures Valid() && Ret(code, St()) == SignalValue(f, old(St()), i)
    {
      var kind := f.kinds[i].basic;
      if kind.B2? || kind.E8? {
        if pos == |f.s| {
          return ERROR;
        }
        vals := vals[i := Small(f.s[pos])];
        pos := pos + 1;
        return OK;
      } else if kind.F64? {
        if pos + 8 > |f.s| {
          pos := |f.s|;
          return ERROR;
        }
        vals := vals[i := Real(f.s[pos..pos + 8])];
        pos := pos + 8;
        return OK;
      }
      var v;
      code, v, pos := ReadSleb128(f.s, pos, if kind.P64? then 10 else 5, if kind.P64? then TWO64 else TWO32);
      if code == OK {
        vals := vals[i := Number(v)];
      }
    }

    /** ghw_read_snapshot. */
    method ReadSnapshot() returns (code: int)
      requires Valid() && Snapshot(f, St()) != Wild
      modifies this
      ensures Valid() && Ret(code, St()) == Snapshot(f, old(St()))
    {
      if pos + 12 > |f.s| {
        pos := |f.s|;
        return ERROR;
      }
      var hdr := pos;
      pos := pos + 12;
      if f.s[hdr..hdr + 4] != [0, 0, 0, 0] {
        return ERROR;
      }
      snapTime := GetI64(f.s, hdr + 4, f.be);
      ghost var all := AllValues(f, St(), 0);
      for i := 0 to |vals|
        invariant Valid() && AllValues(f, St(), i) == all
      {
        if !f.kinds[i].NoType? {
          code := ReadSignalValue(i);
          if code < 0 {
            return;
          }
        }
      }
      code := Match(ESN);
    }

    /** ghw_read_cycle_start. */
    method ReadCycleStart() returns (code: int)
      requires Valid()
      modifies this`pos, this`snapTime
      ensures Valid() && Ret(code, St()) == CycleStart(f, old(St()))
    {
      if pos + 8 > |f.s| {
        pos := |f.s|;
        return ERROR;
      }
      snapTime := GetI64(f.s, pos, f.be);
      pos := pos + 8;
      code := OK;
    }

    /** The next used signals, `d` of them further. */
    method FindSignal(i0: nat, d0: nat) returns (i: nat)
      requires d0 > 0 && Seek(f.kinds, i0, d0).Signal?
      ensures Seek(f.kinds, i0, d0) == Signal(i)
    {
      i := i0;
      var d := d0;
      while d > 0
        invariant Seek(f.kinds, i, d) == Seek(f.kinds, i0, d0)
        decreases |f.kinds| - i, d
      {
        i := i + 1;
        if !f.kinds[i].NoType? {
          d := d - 1;
        }
      }
    }

    /** ghw_read_cycle_cont. */
    method ReadCycleCont() returns (code: int)
      requires Valid() && CycleCont(f, St(), 0) != Wild
      modifies this`pos, this`vals
      ensures Valid() && Ret(code, St()) == CycleCont(f, old(St()), 0)
    {
      var i := 0;
      while true
        invariant Valid() && snapTime == old(snapTime) && CycleCont(f, St(), i) == old(CycleCont(f, St(), 0))
        decreases |f.s| - pos
      {
        UnsignedForward(f.s, pos);
        var d;
        code, d, pos := ReadUleb128(f.s, pos);
        if code < 0 || d == 0 {
          return;
        }
        i := FindSignal(i, d);
        code := ReadSignalValue(i);
        if code < 0 {
          return;
        }
      }
    }

    /** ghw_read_cycle_next. */
    method ReadCycleNext() returns (code: int)
      requires Valid() && CycleNext(f, St()) != Wild
      modifies this`pos, this`snapTime
      ensures Valid() && Ret(code, St()) == CycleNext(f, old(St()))
    {
      var d;
      code, d, pos := ReadSleb128(f.s, pos, 10, TWO64);
      if code < 0 {
        return;
      }
      if d == -1 {
        return 0;
      }
      snapTime := Wrapped(snapTime + d, TWO64);
      return 1;
    }

    /** ghw_read_cycle. */
    method ReadCycle() returns (code: int)
      requires Valid() && Cycle(f, St()) != Wild
      modifies this
      ensures Valid() && Ret(code, St()) == Cycle(f, old(St()))
    {
      ghost var all := Cycle(f, St());
      code := ReadCycleStart();
      if code < 0 {
        return;
      }
      while true
        invariant Valid() && all == (var r := CycleCont(f, St(), 0); if r.Wild? || r.code < 0 then r
                                     else CycleRest(f, r.st))
        decreases |f.s| - pos
      {
        code := ReadCycleCont();
        if code < 0 {
          return;
        }
        code := ReadCycleNext();
        if code < 0 {
          return;
        }
        if code == 0 {
          break;
        }
      }
      code := Match(ECY);
    }

    /** ghw_read_directory. */
    method ReadDirectory() returns (code: int)
      requires Valid()
      modifies this`pos
      ensures Valid() && Ret(code, St()) == Directory(f, old(St()))
    {
      if pos + 8 > |f.s| {
        pos := |f.s|;
        return ERROR;
      }
      var entries := GetI32(f.s, pos + 4, f.be);
      pos := pos + 8;
      var i := 0;
      while i < entries
        invariant Valid() && 0 <= i && (i <= entries || i == 0) && pos == old(pos) + 8 + 8 * i
      {
        if pos + 8 > |f.s| {
          pos := |f.s|;
          return ERROR;
        }
        pos := pos + 8;
        i := i + 1;
      }
      code := Match(EOD);
    }

    /** ghw_read_tailer. */
    method ReadTailer() returns (code: int)
      requires Valid()
      modifies this`pos
      ensures Valid() && Ret(code, St()) == Tailer(f, old(St()))
    {
      if pos + 8 > |f.s| {
        pos := |f.s|;
        return ERROR;
      }
      pos := pos + 8;
      code := OK;
    }

    /** ghw_read_dump. */
    method ReadDump() returns (code: int)
      requires Valid() && Dump(f, St()) != Wild
      modifies this
      ensures Valid() && Ret(code, St()) == Dump(f, old(St()))
    {
      while true
        invariant Valid() && Dump(f, St()) == old(Dump(f, St()))
        decreases |f.s| - pos
      {
        if pos + 4 > |f.s| {
          pos := |f.s|;
          return OK;
        }
        var hdr := f.s[pos..pos + 4];
        pos := pos + 4;
        if hdr == SNP {
          code := ReadSnapshot();
        } else if hdr == CYC {
          code := ReadCycle();
        } else if hdr == DIR {
          code := ReadDirectory();
        } else if hdr == TAI {
          code := ReadTailer();
        } else {
          return ERROR;
        }
        if code != 0 {
          return;
        }
      }
    }

    /** ghw_read_sm_hdr. */
    method ReadSmHdr() returns (code: int)
      requires Valid() && SmHdr(f, St()) != Wild
      modifies this
      ensures Valid() && Ret(code, St()) == SmHdr(f, old(St()))
    {
      if pos + 4 > |f.s| {
        pos := |f.s|;
        return RES_EOF;
      }
      var hdr := f.s[pos..pos + 4];
      pos := pos + 4;
      if hdr == SNP {
        code := ReadSnapshot();
        return if code < 0 then code else RES_SNAPSHOT;
      } else if hdr == CYC {
        code := ReadCycleStart();
        if code < 0 {
          return;
        }
        code := ReadCycleCont();
        return if code < 0 then code else RES_CYCLE;
      } else if hdr == DIR {
        code := ReadDirectory();
      } else if hdr == TAI {
        code := ReadTailer();
      } else {
        return ERROR;
      }
      if code == 0 {
        code := RES_OTHER;
      }
    }

    /** ghw_read_sm. */
    method ReadSm(sm0: Sm) returns (code: int, sm: Sm)
      requires Valid() && SmStep(f, St(), sm0) != SmWild
      modifies this
      ensures Valid() && SmRet(code, St(), sm) == SmStep(f, old(St()), sm0)
    {
      sm := sm0;
      while true
        invariant Valid() && SmStep(f, St(), sm) == old(SmStep(f, St(), sm0))
        decreases |f.s| - pos
      {
        if sm.InCycle? {
          code := ReadCycleNext();
          if code < 0 {
            return;
          }
          if code == 1 {
            code := ReadCycleCont();
            return if code < 0 then code else RES_CYCLE, sm;
          }
          code := Match(ECY);
          if code < 0 {
            return;
          }
          sm := Sect;
        } else {
          code := ReadSmHdr();
          if code == RES_SNAPSHOT {
            return code, Sect;
          } else if code == RES_CYCLE {
            return code, InCycle;
          } else if code != RES_OTHER {
            return;
          }
        }
      }
    }

    /** The loop of a client of the pull parser. It ends as one dump would have. */
    method PullAll() returns (code: int)
      requires Valid() && Dump(f, St()) != Wild
      modifies this
      ensures Valid() && Ret(code, St()) == AsPulled(Dump(f, old(St())))
      ensures code == RES_EOF <==> old(Dump(f, St())).code == OK
    {
      PullIsDump(f, St(), Init);
      var sm := Init;
      while true
        invariant Valid() && Pull(f, St(), sm) == old(Pull(f, St(), Init))
        decreases |f.s| - pos
      {
        code, sm := ReadSm(sm);
        if code < 0 {
          return;
        }
      }
    }
  }
}
