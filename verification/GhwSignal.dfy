/** Composite signals: how the types of a GHW file lay a signal out over basic ones, and the
    recursive reader that fills in their numbers. */
module GhwSignal {
  import opened Bytes
  import opened Leb128
  import opened GhwLeb
  import opened GhwStream

  /** Arrays are unbounded until a subtype gives their lengths; records know how many scalars they
      hold, or -1. */
  datatype Type =
    | Scalar(kind: Basic)
    | SubScalar(base: Basic)
    | Array(el: Type, dims: nat)
    | SubArray(el: Type, lens: seq<int>, nbrScalars: int)
    | Record(els: seq<Type>, nbrScalars: int)
    | SubRecord(els: seq<Type>, nbrScalars: int)

  /** get_nbr_elements: -1 for unbounded types. */
  function NbrElements(t: Type): int {
    match t
    case Scalar(_) => 1
    case SubScalar(_) => 1
    case Array(_, _) => -1
    case SubArray(_, _, n) => n
    case Record(_, n) => n
    case SubRecord(_, n) => n
  }

  function Product(lens: seq<int>): int {
    if lens == [] then 1 else Product(lens[..|lens| - 1]) * lens[|lens| - 1]
  }

  function Els(t: Type): seq<Type> {
    if t.Record? || t.SubRecord? then t.els else []
  }

  /** The scalars of the first `n` elements; -1 as soon as one is unbounded. */
  function Total(els: seq<Type>, n: nat): int
    requires n <= |els|
  {
    if n == 0 then 0
    else if Total(els, n - 1) == -1 || NbrElements(els[n - 1]) == -1 then -1
    else Total(els, n - 1) + NbrElements(els[n - 1])
  }

  /** The counts are right, and no length is negative. */
  ghost predicate WellFormed(t: Type) {
    match t
    case Scalar(_) => true
    case SubScalar(_) => true
    case Array(el, _) => WellFormed(el)
    case SubArray(el, lens, n) =>
      WellFormed(el) && NbrElements(el) >= 0 && (forall k :: 0 <= k < |lens| ==> lens[k] >= 0)
          && n == NbrElements(el) * Product(lens)
    case Record(els, n) => (forall k :: 0 <= k < |els| ==> WellFormed(els[k])) && n == Total(els, |els|)
    case SubRecord(els, n) =>
      (forall k :: 0 <= k < |els| ==> WellFormed(els[k]) && NbrElements(els[k]) >= 0) && n == Total(els, |els|)
  }

  /** Kinds of scalars a signal may be made of; the reader aborts on others. */
  ghost predicate Supported(t: Type) {
    match t
    case Scalar(kind) => kind.B2? || kind.E8? || kind.E32?
    case SubScalar(_) => true
    case Array(_, _) => false
    case SubArray(el, _, _) => Supported(el)
    case Record(els, _) => forall k :: 0 <= k < |els| ==> Supported(els[k])
    case SubRecord(els, _) => forall k :: 0 <= k < |els| ==> Supported(els[k])
  }

  // ---- the layout ----

  function Times(s: seq<Basic>, n: nat): seq<Basic> {
    if n == 0 then [] else Times(s, n - 1) + s
  }

  lemma {:induction false} TimesSize(s: seq<Basic>, n: nat)
    ensures |Times(s, n)| == |s| * n
  {
    if n > 0 {
      TimesSize(s, n - 1);
    }
  }

  lemma {:induction false} TimesPrefix(s: seq<Basic>, j: nat, n: nat)
    requires j <= n
    ensures Times(s, j) <= Times(s, n)
    ensures |Times(s, j)| < |Times(s, n)| ==> j < n
    decreases n - j
  {
    if j < n {
      TimesPrefix(s, j + 1, n);
      assert Times(s, j) <= Times(s, j + 1);
    }
  }

  /** How many elements an array subtype has. */
  function Count(t: Type): nat
    requires t.SubArray?
  {
    if Product(t.lens) < 0 then 0 else Product(t.lens)
  }

  /** The basic types of the scalars of a bounded type, in order. */
  function Leaves(t: Type): (r: seq<Basic>)
    decreases t, |Els(t)| + 1
  {
    match t
    case Scalar(kind) => [kind]
    case SubScalar(base) => [base]
    case Array(_, _) => []
    case SubArray(el, _, _) => Times(Leaves(el), Count(t))
    case Record(els, _) => LeavesOf(t, |els|)
    case SubRecord(els, _) => LeavesOf(t, |els|)
  }

  function LeavesOf(t: Type, n: nat): (r: seq<Basic>)
    requires n <= |Els(t)|
    decreases t, n
  {
    if n == 0 then [] else LeavesOf(t, n - 1) + Leaves(Els(t)[n - 1])
  }

  lemma {:induction false} ProductNonNegative(lens: seq<int>)
    requires forall k :: 0 <= k < |lens| ==> lens[k] >= 0
    ensures Product(lens) >= 0
  {
    if lens != [] {
      ProductNonNegative(lens[..|lens| - 1]);
    }
  }

  /** A well-formed type is bounded or counts -1, and a bounded one has as many leaves as it says. */
  lemma {:induction false} Counts(t: Type)
    requires WellFormed(t)
    ensures NbrElements(t) >= -1
    ensures NbrElements(t) >= 0 ==> |Leaves(t)| == NbrElements(t)
    decreases t, |Els(t)| + 1
  {
    match t
    case Scalar(_) =>
    case SubScalar(_) =>
    case Array(_, _) =>
    case SubArray(el, lens, _) =>
      Counts(el);
      ProductNonNegative(lens);
      TimesSize(Leaves(el), Product(lens));
    case Record(els, _) =>
      CountsOf(t, |els|);
    case SubRecord(els, _) =>
      CountsOf(t, |els|);
  }

  lemma {:induction false} CountsOf(t: Type, n: nat)
    requires WellFormed(t) && n <= |Els(t)|
    ensures Total(Els(t), n) >= -1 && (Total(Els(t), n) >= 0 ==> |LeavesOf(t, n)| == Total(Els(t), n))
    ensures Total(Els(t), |Els(t)|) >= 0 ==> Total(Els(t), n) >= 0
    decreases t, n
  {
    if n > 0 {
      CountsOf(t, n - 1);
      Counts(Els(t)[n - 1]);
    }
    TotalBounded(Els(t), n, |Els(t)|);
  }

  lemma {:induction false} TotalBounded(els: seq<Type>, n: nat, m: nat)
    requires n <= m <= |els|
    ensures Total(els, n) == -1 ==> Total(els, m) == -1
  {
    if n < m {
      TotalBounded(els, n, m - 1);
    }
  }

  // ---- signal numbers in the stream ----

  /** `n` signal numbers, each valid, and the position after them. */
  datatype Run = Run(ids: seq<nat>, next: nat) | Refused | Undefined

  function IdsAt(s: seq<byte>, at: nat, n: nat, nbrSigs: nat): (r: Run)
    ensures r.Run? ==> |r.ids| == n && forall k :: 0 <= k < n ==> 0 < r.ids[k] < nbrSigs
    decreases n
  {
    if n == 0 then Run([], at)
    else
      match Unsigned(s, at)
      case Short => Refused
      case Overlong => Undefined
      case Got(id, next) =>
        if id <= 0 || id >= nbrSigs then Refused
        else
          match IdsAt(s, next, n - 1, nbrSigs)
          case Run(ids, end) => Run([id] + ids, end)
          case Refused => Refused
          case Undefined => Undefined
  }

  function Joined(first: Run, s: seq<byte>, m: nat, nbrSigs: nat): Run {
    match first
    case Run(ids, next) =>
      (match IdsAt(s, next, m, nbrSigs)
       case Run(more, end) => Run(ids + more, end)
       case Refused => Refused
       case Undefined => Undefined)
    case Refused => Refused
    case Undefined => Undefined
  }

  lemma {:induction false} IdsSplit(s: seq<byte>, at: nat, n: nat, m: nat, total: nat, nbrSigs: nat)
    requires total == n + m
    ensures IdsAt(s, at, total, nbrSigs) == Joined(IdsAt(s, at, n, nbrSigs), s, m, nbrSigs)
    decreases n
  {
    if n == 0 {
      match IdsAt(s, at, m, nbrSigs)
      case Run(ids, _) => assert [] + ids == ids;
      case Refused =>
      case Undefined =>
    } else {
      match Unsigned(s, at)
      case Got(id, next) =>
        IdsSplit(s, next, n - 1, m, total - 1, nbrSigs);
        if IdsAt(s, next, n - 1, nbrSigs).Run? {
          Associates([id], IdsAt(s, next, n - 1, nbrSigs).ids,
                     IdsAt(s, IdsAt(s, next, n - 1, nbrSigs).next, m, nbrSigs));
        }
      case Short =>
      case Overlong =>
    }
  }

  lemma {:induction false} Associates(a: seq<nat>, b: seq<nat>, c: Run)
    ensures c.Run? ==> a + (b + c.ids) == (a + b) + c.ids
  {
  }

  // ---- filling in a signal ----

  /** The part of `to` from `at` on is `ids`, the rest is as in `from`. */
  ghost predicate Filled(from: seq<nat>, to: seq<nat>, at: nat, ids: seq<nat>) {
    |to| == |from| && at + |ids| <= |from|
    && forall k :: 0 <= k < |to| ==> to[k] == if at <= k < at + |ids| then ids[k - at] else from[k]
  }

  /** Every signal gets the type of its first use. */
  function Assigned(types: seq<Kind>, ids: seq<nat>, leaves: seq<Basic>): (r: seq<Kind>)
    requires |ids| == |leaves| && forall k :: 0 <= k < |ids| ==> ids[k] < |types|
    ensures |r| == |types|
    decreases |ids|
  {
    if ids == [] then types else Assigned(Used(types, ids[0], leaves[0]), ids[1..], leaves[1..])
  }

  function Used(types: seq<Kind>, id: nat, leaf: Basic): (r: seq<Kind>)
    requires id < |types|
    ensures |r| == |types|
  {
    if types[id].NoType? then types[id := Typed(leaf)] else types
  }

  lemma {:induction false} AssignedThen(types: seq<Kind>, ids: seq<nat>, leaves: seq<Basic>, ids2: seq<nat>,
                                        leaves2: seq<Basic>)
    requires |ids| == |leaves| && |ids2| == |leaves2|
    requires (forall k :: 0 <= k < |ids| ==> ids[k] < |types|) && forall k :: 0 <= k < |ids2| ==> ids2[k] < |types|
    ensures Assigned(types, ids + ids2, leaves + leaves2) == Assigned(Assigned(types, ids, leaves), ids2, leaves2)
    decreases |ids|
  {
    if ids == [] {
      assert ids + ids2 == ids2 && leaves + leaves2 == leaves2;
    } else {
      assert (ids + ids2)[1..] == ids[1..] + ids2 && (leaves + leaves2)[1..] == leaves[1..] + leaves2;
      AssignedThen(Used(types, ids[0], leaves[0]), ids[1..], leaves[1..], ids2, leaves2);
    }
  }

  /** A signal that has a type keeps it; another gets the type of its first use, if it is used. */
  lemma {:induction false} FirstUse(types: seq<Kind>, ids: seq<nat>, leaves: seq<Basic>, id: nat, k: nat)
    requires |ids| == |leaves| && (forall j :: 0 <= j < |ids| ==> ids[j] < |types|) && id < |types| && k <= |ids|
    requires (forall j :: 0 <= j < k ==> ids[j] != id) && (k < |ids| ==> ids[k] == id)
    ensures Assigned(types, ids, leaves)[id]
            == if types[id].NoType? && k < |ids| then Typed(leaves[k]) else types[id]
    decreases |ids|
  {
    if k > 0 {
      FirstUse(Used(types, ids[0], leaves[0]), ids[1..], leaves[1..], id, k - 1);
    } else if ids != [] {
      Kept(Used(types, id, leaves[0]), ids[1..], leaves[1..], id);
    }
  }

  lemma {:induction false} Kept(types: seq<Kind>, ids: seq<nat>, leaves: seq<Basic>, id: nat)
    requires |ids| == |leaves| && (forall j :: 0 <= j < |ids| ==> ids[j] < |types|) && id < |types|
             && !types[id].NoType?
    ensures Assigned(types, ids, leaves)[id] == types[id]
    decreases |ids|
  {
    if ids != [] {
      Kept(Used(types, ids[0], leaves[0]), ids[1..], leaves[1..], id);
    }
  }

  /** What a reader of signals changes: the position, the caller's numbers, the types of the basic
      signals, and a log of the slots written. */
  datatype State = State(pos: nat, sigs: seq<nat>, types: seq<Kind>, log: seq<nat>)

  function Slots(at: nat, n: nat): (r: seq<nat>)
    ensures |r| == n
  {
    seq(n, k requires 0 <= k < n => at + k)
  }

  /** The numbers for `leaves` were read into the slots from `at` on, each slot once and in order. */
  ghost predicate Took(s: seq<byte>, a: State, b: State, at: nat, leaves: seq<Basic>) {
    var run := IdsAt(s, a.pos, |leaves|, |a.types|);
    run.Run? && b.pos == run.next && Filled(a.sigs, b.sigs, at, run.ids)
    && b.types == Assigned(a.types, run.ids, leaves)
    && b.log == a.log + Slots(at, |leaves|)
  }

  /** They were not: the rest of the slots is untouched. */
  ghost predicate Failed(s: seq<byte>, a: State, b: State, at: nat, n: nat) {
    IdsAt(s, a.pos, n, |a.types|).Refused? && |b.sigs| == |a.sigs| && |b.types| == |a.types|
    && forall k :: 0 <= k < |a.sigs| && !(at <= k < at + n) ==> b.sigs[k] == a.sigs[k]
  }

  lemma {:induction false} FilledThen(a: seq<nat>, b: seq<nat>, c: seq<nat>, at: nat, ids: seq<nat>, at2: nat,
                                      ids2: seq<nat>, both: seq<nat>)
    requires Filled(a, b, at, ids) && Filled(b, c, at2, ids2) && at2 == at + |ids| && both == ids + ids2
    ensures Filled(a, c, at, both)
  {
  }

  lemma {:induction false} SlotsThen(at: nat, n: nat, m: nat)
    ensures Slots(at, n) + Slots(at + n, m) == Slots(at, n + m)
  {
  }

  lemma {:induction false} LogThen(a: seq<nat>, b: seq<nat>, c: seq<nat>, x: seq<nat>, y: seq<nat>, xy: seq<nat>)
    requires b == a + x && c == b + y && xy == x + y
    ensures c == a + xy
  {
  }

  lemma {:induction false} TookNothing(s: seq<byte>, a: State, at: nat)
    requires at <= |a.sigs|
    ensures Took(s, a, a, at, [])
  {
    assert a.log + Slots(at, 0) == a.log;
  }

  /** Two parts, one after the other. */
  lemma {:induction false} TookThen(s: seq<byte>, a: State, b: State, c: State, at: nat, at2: nat, leaves: seq<Basic>,
                                    leaves2: seq<Basic>, both: seq<Basic>)
    requires both == leaves + leaves2 && at2 == at + |leaves| && Took(s, a, b, at, leaves)
             && Took(s, b, c, at2, leaves2)
    ensures Took(s, a, c, at, both)
  {
    var ids, ids2 := IdsAt(s, a.pos, |leaves|, |a.types|).ids, IdsAt(s, b.pos, |leaves2|, |b.types|).ids;
    IdsSplit(s, a.pos, |leaves|, |leaves2|, |both|, |a.types|);
    FilledThen(a.sigs, b.sigs, c.sigs, at, ids, at2, ids2, ids + ids2);
    AssignedThen(a.types, ids, leaves, ids2, leaves2);
    SlotsThen(at, |leaves|, |leaves2|);
    LogThen(a.log, b.log, c.log, Slots(at, |leaves|), Slots(at2, |leaves2|), Slots(at, |both|));
  }

  /** A failure in a later part is a failure of the whole. */
  lemma {:induction false} FailedThen(s: seq<byte>, a: State, b: State, c: State, at: nat, leaves: seq<Basic>, m: nat,
                                      total: nat)
    requires Took(s, a, b, at, leaves) && Failed(s, b, c, at + |leaves|, m) && |leaves| + m <= total
    ensures Failed(s, a, c, at, total)
  {
    var part := |leaves| + m;
    IdsSplit(s, a.pos, |leaves|, m, part, |a.types|);
    IdsSplit(s, a.pos, part, total - part, total, |a.types|);
  }

  /** The rest is defined if the whole is. */
  lemma {:induction false} DefinedThen(s: seq<byte>, a: State, b: State, at: nat, leaves: seq<Basic>, m: nat,
                                       total: nat)
    requires Took(s, a, b, at, leaves) && |leaves| + m <= total && !IdsAt(s, a.pos, total, |a.types|).Undefined?
    ensures !IdsAt(s, b.pos, m, |b.types|).Undefined?
  {
    var part := |leaves| + m;
    IdsSplit(s, a.pos, |leaves|, m, part, |a.types|);
    IdsSplit(s, a.pos, part, total - part, total, |a.types|);
  }

  // ---- the reader ----

  class Reader {
    const s: seq<byte>
    var pos: nat
    var sigs: seq<nat>
    var types: seq<Kind>
    ghost var log: seq<nat>

    constructor (s: seq<byte>, pos: nat, nbrSigs: nat, slots: nat)
      requires pos <= |s|
      ensures this.s == s && this.pos == pos && |sigs| == slots && log == []
      ensures |types| == nbrSigs && forall i :: 0 <= i < nbrSigs ==> types[i].NoType?
    {
      this.s, this.pos := s, pos;
      sigs, types, log := seq(slots, _ => 0), seq(nbrSigs, _ => NoType), [];
    }

    ghost function St(): State
      reads this
    {
      State.State(pos, sigs, types, log)
    }

    /** One signal number into slot `at`. */
    method ReadOne(at: nat, leaf: Basic) returns (ok: bool)
      requires pos <= |s| && at < |sigs| && !IdsAt(s, pos, 1, |types|).Undefined?
      modifies this
      ensures pos <= |s| && if ok then Took(s, old(St()), St(), at, [leaf]) else Failed(s, old(St()), St(), at, 1)
    {
      var code, sigEl, next := ReadUleb128(s, pos);
      ghost var was := pos;
      pos := next;
      if code < 0 {
        return false;
      }
      sigs := sigs[at := sigEl];
      log := log + [at];
      if sigEl == 0 || sigEl >= |types| {
        return false;
      }
      assert IdsAt(s, was, 1, |types|) == Run([sigEl], next);
      assert Slots(at, 1) == [at];
      types := Used(types, sigEl, leaf);
      return true;
    }

    /** ghw_read_signal: a bounded type's slots are filled from `at` on, each once, in the order of
        the stream, with exactly as many numbers as it has scalars; or reading fails because there
        are not as many valid numbers. */
    method ReadSignal(at: nat, t: Type) returns (ok: bool)
      requires pos <= |s| && WellFormed(t) && Supported(t) && 0 <= NbrElements(t) <= |sigs| - at
      requires !IdsAt(s, pos, NbrElements(t), |types|).Undefined?
      modifies this
      ensures pos <= |s| && |types| == old(|types|) && |sigs| == old(|sigs|)
      ensures if ok then Took(s, old(St()), St(), at, Leaves(t)) else Failed(s, old(St()), St(), at, NbrElements(t))
      decreases t, 2
    {
      match t
      case Scalar(kind) => ok := ReadOne(at, kind);
      case SubScalar(base) => ok := ReadOne(at, base);
      case SubArray(_, _, _) => ok := ReadArray(at, t);
      case Record(_, _) => ok := ReadRecord(at, t);
      case SubRecord(_, _) => ok := ReadRecord(at, t);
    }

    /** One part of a composite signal, after the part from `start` on that has been read. */
    method ReadPart(at: nat, off: nat, t: Type, ghost start: State, ghost done: seq<Basic>, ghost total: nat)
        returns (ok: bool)
      requires pos <= |s| && WellFormed(t) && Supported(t) && 0 <= NbrElements(t) <= |sigs| - (at + off)
      requires off == |done| && Took(s, start, St(), at, done) && off + NbrElements(t) <= total
      requires !IdsAt(s, start.pos, total, |start.types|).Undefined?
      modifies this
      ensures pos <= |s| && |types| == old(|types|) && |sigs| == old(|sigs|)
      ensures if ok then Took(s, start, St(), at, done + Leaves(t)) else Failed(s, start, St(), at, total)
      decreases t, 3
    {
      ghost var before := St();
      DefinedThen(s, start, before, at, done, NbrElements(t), total);
      ok := ReadSignal(at + off, t);
      if ok {
        TookThen(s, start, before, St(), at, at + off, done, Leaves(t), done + Leaves(t));
      } else {
        FailedThen(s, start, before, St(), at, done, NbrElements(t), total);
      }
    }

    /** Element after element. */
    method ReadArray(at: nat, t: Type) returns (ok: bool)
      requires t.SubArray? && pos <= |s| && WellFormed(t) && Supported(t) && 0 <= NbrElements(t) <= |sigs| - at
      requires !IdsAt(s, pos, NbrElements(t), |types|).Undefined?
      modifies this
      ensures pos <= |s| && |types| == old(|types|) && |sigs| == old(|sigs|)
      ensures if ok then Took(s, old(St()), St(), at, Leaves(t)) else Failed(s, old(St()), St(), at, NbrElements(t))
      decreases t, 1
    {
      var len, stride, i := t.nbrScalars, NbrElements(t.el), 0;
      ghost var leaves, count: nat, j: nat, start := Leaves(t.el), Count(t), 0, St();
      ArrayLeaves(t);
      TookNothing(s, start, at);
      while i < len
        invariant j <= count && i == |Times(leaves, j)| && pos <= |s| && |sigs| == old(|sigs|)
                  && |types| == old(|types|)
        invariant Took(s, start, St(), at, Times(leaves, j))
        decreases count - j
      {
        NextElement(leaves, j, count, i, len);
        ok := ReadPart(at, i, t.el, start, Times(leaves, j), len);
        if !ok {
          return;
        }
        i, j := i + stride, j + 1;
      }
      AllElements(leaves, j, count, len);
      return true;
    }

    /** Field after field. */
    method ReadRecord(at: nat, t: Type) returns (ok: bool)
      requires (t.Record? || t.SubRecord?) && pos <= |s| && WellFormed(t) && Supported(t)
               && 0 <= NbrElements(t) <= |sigs| - at
      requires !IdsAt(s, pos, NbrElements(t), |types|).Undefined?
      modifies this
      ensures pos <= |s| && |types| == old(|types|) && |sigs| == old(|sigs|)
      ensures if ok then Took(s, old(St()), St(), at, Leaves(t)) else Failed(s, old(St()), St(), at, NbrElements(t))
      decreases t, 1
    {
      var off := 0;
      ghost var start := St();
      TookNothing(s, start, at);
      for i := 0 to |t.els|
        invariant pos <= |s| && off == |LeavesOf(t, i)| && |sigs| == old(|sigs|) && |types| == old(|types|)
        invariant Took(s, start, St(), at, LeavesOf(t, i))
      {
        NextField(t, i);
        ok := ReadPart(at, off, t.els[i], start, LeavesOf(t, i), NbrElements(t));
        if !ok {
          return;
        }
        off := off + NbrElements(t.els[i]);
      }
      return true;
    }
  }

  lemma {:induction false} ArrayLeaves(t: Type)
    requires t.SubArray? && WellFormed(t)
    ensures |Leaves(t.el)| == NbrElements(t.el) && |Times(Leaves(t.el), Count(t))| == t.nbrScalars
  {
    Counts(t.el);
    ProductNonNegative(t.lens);
    TimesSize(Leaves(t.el), Count(t));
  }

  lemma {:induction false} NextElement(leaves: seq<Basic>, j: nat, count: nat, i: nat, len: int)
    requires j <= count && i == |Times(leaves, j)| && len == |Times(leaves, count)| && i < len
    ensures j < count && i + |leaves| <= len && |Times(leaves, j + 1)| == i + |leaves|
  {
    TimesPrefix(leaves, j, count);
    TimesPrefix(leaves, j + 1, count);
  }

  lemma {:induction false} AllElements(leaves: seq<Basic>, j: nat, count: nat, len: int)
    requires j <= count && len == |Times(leaves, count)| && |Times(leaves, j)| >= len
    ensures Times(leaves, j) == Times(leaves, count)
  {
    TimesPrefix(leaves, j, count);
  }

  lemma {:induction false} NextField(t: Type, i: nat)
    requires (t.Record? || t.SubRecord?) && WellFormed(t) && NbrElements(t) >= 0 && i < |t.els|
    ensures WellFormed(t.els[i]) && NbrElements(t.els[i]) >= 0 && |Leaves(t.els[i])| == NbrElements(t.els[i])
    ensures |LeavesOf(t, i)| + NbrElements(t.els[i]) == |LeavesOf(t, i + 1)| <= NbrElements(t)
  {
    Counts(t.els[i]);
    CountsOf(t, i);
    CountsOf(t, i + 1);
    LeavesGrow(t, i + 1, |t.els|);
    CountsOf(t, |t.els|);
  }

  lemma {:induction false} LeavesGrow(t: Type, n: nat, m: nat)
    requires n <= m <= |Els(t)|
    ensures |LeavesOf(t, n)| <= |LeavesOf(t, m)|
  {
    if n < m {
      LeavesGrow(t, n, m - 1);
    }
  }

  // ---- types with their bounds read from the file ----

  datatype Range = Range(kind: Basic, down: bool, left: int, right: int)

  datatype RangeRun = GotRange(r: Range, next: nat) | NoRange

  const TAG_B2 := 22
  const TAG_E8 := 23
  const TAG_I32 := 25

  /** ghw_read_range, for the kinds whose length the reader can tell; the top bit of the tag is the
      direction. Bounds that take too many bytes are refused here. */
  function RangeAt(s: seq<byte>, at: nat): (r: RangeRun)
    ensures r.GotRange? ==> at < r.next <= |s|
  {
    if at >= |s| then NoRange
    else
      var t, down := s[at] as nat % 128, s[at] >= 128;
      if t == TAG_B2 || t == TAG_E8 then
        if at + 3 > |s| then NoRange
        else GotRange(Range(if t == TAG_B2 then B2 else E8, down, s[at + 1] as int, s[at + 2] as int), at + 3)
      else if t == TAG_I32 then
        match Signed32(s, at + 1)
        case Got(left, next) =>
          (match Signed32(s, next)
           case Got(right, end) => GotRange(Range(I32, down, left, right), end)
           case Short => NoRange
           case Overlong => NoRange)
        case Short => NoRange
        case Overlong => NoRange
      else NoRange
  }

  /** ghw_get_range_length: negative for a null range that is more than one short. */
  function RangeLength(r: Range): int {
    if r.down then r.left - r.right + 1 else r.right - r.left + 1
  }

  datatype Read = Some(t: Type) | None

  /** No null range has a negative length. */
  ghost predicate NonNegative(t: Type) {
    match t
    case Scalar(_) => true
    case SubScalar(_) => true
    case Array(_, _) => true
    case SubArray(_, lens, _) => forall k :: 0 <= k < |lens| ==> lens[k] >= 0
    case Record(_, _) => true
    case SubRecord(els, _) => forall k :: 0 <= k < |els| ==> NonNegative(els[k])
  }

  datatype Ranges = Ranges(rngs: seq<Range>, next: nat) | NoRanges

  /** `n` ranges, one after the other. */
  function RangesAt(s: seq<byte>, at: nat, n: nat): (r: Ranges)
    ensures r.Ranges? ==> |r.rngs| == n && (at <= |s| ==> at <= r.next <= |s|)
  {
    if n == 0 then Ranges([], at)
    else
      match RangesAt(s, at, n - 1)
      case NoRanges => NoRanges
      case Ranges(rngs, next) =>
        match RangeAt(s, next)
        case NoRange => NoRanges
        case GotRange(r, end) => Ranges(rngs + [r], end)
  }

  function Lengths(rngs: seq<Range>): (lens: seq<int>)
    ensures |lens| == |rngs| && forall k :: 0 <= k < |rngs| ==> lens[k] == RangeLength(rngs[k])
  {
    seq(|rngs|, k requires 0 <= k < |rngs| => RangeLength(rngs[k]))
  }

  lemma {:induction false} RangesStop(s: seq<byte>, at: nat, j: nat, n: nat)
    requires j <= n && RangesAt(s, at, j).NoRanges?
    ensures RangesAt(s, at, n).NoRanges?
  {
    if j < n {
      RangesStop(s, at, j, n - 1);
    }
  }

  /** ghw_read_array_subtype: an array with the lengths of the ranges of all its dimensions. */
  method ReadArraySubtype(s: seq<byte>, pos0: nat, base: Type) returns (sa: Read, pos: nat)
    requires base.Array? && WellFormed(base) && NbrElements(base.el) >= 0 && pos0 <= |s|
    ensures match RangesAt(s, pos0, base.dims)
            case NoRanges => sa.None? && pos0 <= pos <= |s|
            case Ranges(rngs, next) =>
              pos == next
              && sa == Some(SubArray(base.el, Lengths(rngs), NbrElements(base.el) * Product(Lengths(rngs))))
    ensures sa.Some? && NonNegative(sa.t) ==> WellFormed(sa.t)
  {
    var nbrScalars, rngs := NbrElements(base.el), [];
    pos := pos0;
    for j := 0 to base.dims
      invariant pos0 <= pos <= |s| && RangesAt(s, pos0, j) == Ranges(rngs, pos)
      invariant nbrScalars == NbrElements(base.el) * Product(Lengths(rngs))
    {
      match RangeAt(s, pos)
      case NoRange =>
        RangesStop(s, pos0, j + 1, base.dims);
        return None, pos;
      case GotRange(r, next) =>
        LengthsNext(NbrElements(base.el), rngs, r);
        rngs := rngs + [r];
        nbrScalars := nbrScalars * RangeLength(r);
        pos := next;
    }
    sa := Some(SubArray(base.el, Lengths(rngs), nbrScalars));
  }

  lemma {:induction false} LengthsNext(n: int, rngs: seq<Range>, r: Range)
    ensures n * Product(Lengths(rngs + [r])) == n * Product(Lengths(rngs)) * RangeLength(r)
  {
    assert Lengths(rngs + [r]) == Lengths(rngs) + [RangeLength(r)];
    ProductNext(n, Lengths(rngs), RangeLength(r));
  }

  lemma {:induction false} ProductNext(n: int, lens: seq<int>, len: int)
    ensures n * Product(lens + [len]) == n * Product(lens) * len
  {
    assert (lens + [len])[..|lens|] == lens;
    assert n * (Product(lens) * len) == n * Product(lens) * len;
  }

  /** Unbounded elements that the reader can give bounds to. */
  ghost predicate Constrainable(t: Type) {
    match t
    case Array(el, _) => NbrElements(el) >= 0
    case Record(els, _) => forall k :: 0 <= k < |els| ==> NbrElements(els[k]) >= 0 || Constrainable(els[k])
    case Scalar(_) => false
    case SubScalar(_) => false
    case SubArray(_, _, _) => false
    case SubRecord(_, _) => false
  }

  function SumOf(els: seq<Type>): int {
    if els == [] then 0 else SumOf(els[..|els| - 1]) + NbrElements(els[|els| - 1])
  }

  lemma {:induction false} SumIsTotal(els: seq<Type>, n: nat)
    requires n <= |els| && forall k :: 0 <= k < |els| ==> NbrElements(els[k]) >= 0
    ensures Total(els, n) == SumOf(els[..n]) >= 0
  {
    if n > 0 {
      assert els[..n][..n - 1] == els[..n - 1];
      SumIsTotal(els, n - 1);
    }
  }

  /** What becomes of an element: a bounded one stays, another gets its bounds. */
  ghost predicate Fixed(el: Type, base: Type) {
    (NbrElements(base) >= 0 ==> el == base)
    && (NbrElements(base) < 0 ==> el.SubArray? || el.SubRecord?)
    && (NonNegative(el) || el == base ==> WellFormed(el) && NbrElements(el) >= 0)
  }

  /** The elements read so far. */
  ghost predicate Bounded(els: seq<Type>, base: seq<Type>) {
    |els| <= |base| && forall k :: 0 <= k < |els| ==> Fixed(els[k], base[k])
  }

  /** Elements the record had already are not asked for their lengths again. */
  ghost predicate NewNonNegative(els: seq<Type>, base: seq<Type>) {
    |els| == |base| && forall k :: 0 <= k < |els| ==> els[k] == base[k] || NonNegative(els[k])
  }

  lemma {:induction false} BoundedNext(els: seq<Type>, base: seq<Type>, el: Type)
    requires Bounded(els, base) && |els| < |base| && Fixed(el, base[|els|])
    ensures Bounded(els + [el], base) && SumOf(els + [el]) == SumOf(els) + NbrElements(el)
  {
    assert (els + [el])[..|els|] == els;
  }

  lemma {:induction false} BoundedAll(els: seq<Type>, base: seq<Type>)
    requires Bounded(els, base) && NewNonNegative(els, base)
    ensures WellFormed(SubRecord(els, SumOf(els))) && SumOf(els) >= 0
  {
    forall k | 0 <= k < |els|
      ensures WellFormed(els[k]) && NbrElements(els[k]) >= 0
    {
      assert Fixed(els[k], base[k]);
    }
    SumIsTotal(els, |els|);
    assert els[..|els|] == els;
  }

  datatype Bound = Bound(t: Type, next: nat) | Unread

  datatype Elements = Elements(els: seq<Type>, next: nat) | NoElements

  /** A bounded type needs nothing from the stream; an unbounded array takes its ranges, an unbounded
      record the bounds of its elements. */
  function ElementAt(s: seq<byte>, at: nat, t: Type): Bound
    decreases t, |Els(t)| + 1
  {
    if NbrElements(t) >= 0 then Bound(t, at)
    else
      match t
      case Array(el, dims) =>
        (match RangesAt(s, at, dims)
         case NoRanges => Unread
         case Ranges(rngs, next) => Bound(SubArray(el, Lengths(rngs), NbrElements(el) * Product(Lengths(rngs))), next))
      case Record(els, _) =>
        (match ElementsAt(s, at, t, |els|)
         case NoElements => Unread
         case Elements(els, next) => Bound(SubRecord(els, SumOf(els)), next))
      case Scalar(_) => Unread
      case SubScalar(_) => Unread
      case SubArray(_, _, _) => Unread
      case SubRecord(_, _) => Unread
  }

  function ElementsAt(s: seq<byte>, at: nat, t: Type, n: nat): (r: Elements)
    requires n <= |Els(t)|
    ensures r.Elements? ==> |r.els| == n
    decreases t, n
  {
    if n == 0 then Elements([], at)
    else
      match ElementsAt(s, at, t, n - 1)
      case NoElements => NoElements
      case Elements(els, next) =>
        match ElementAt(s, next, Els(t)[n - 1])
        case Unread => NoElements
        case Bound(el, end) => Elements(els + [el], end)
  }

  lemma {:induction false} ElementsStop(s: seq<byte>, at: nat, t: Type, j: nat, n: nat)
    requires j <= n <= |Els(t)| && ElementsAt(s, at, t, j).NoElements?
    ensures ElementsAt(s, at, t, n).NoElements?
  {
    if j < n {
      ElementsStop(s, at, t, j, n - 1);
    }
  }

  /** What was read is what the stream holds. */
  ghost predicate IsRead(el: Read, pos: nat, b: Bound) {
    match b
    case Unread => el.None?
    case Bound(t, next) => el == Some(t) && pos == next
  }

  lemma {:induction false} ArrayFixed(el: Type, base: Type)
    requires base.Array? && el.SubArray? && (NonNegative(el) ==> WellFormed(el))
    ensures Fixed(el, base)
  {
    if NonNegative(el) {
      ProductNonNegative(el.lens);
      Counts(el);
    }
  }

  lemma {:induction false} RecordFixed(el: Type, base: Type)
    requires base.Record? && NbrElements(base) < 0 && el.SubRecord? && |el.els| == |base.els|
    requires NewNonNegative(el.els, base.els) ==> WellFormed(el) && NbrElements(el) >= 0
    ensures Fixed(el, base)
  {
  }

  /** An element of an unbounded record. */
  method ReadElement(s: seq<byte>, pos0: nat, btype: Type) returns (el: Read, pos: nat)
    requires WellFormed(btype) && (NbrElements(btype) >= 0 || Constrainable(btype)) && pos0 <= |s|
    ensures pos0 <= pos <= |s| && (el.Some? ==> Fixed(el.t, btype)) && IsRead(el, pos, ElementAt(s, pos0, btype))
    decreases btype, 1
  {
    el, pos := Some(btype), pos0;
    if NbrElements(btype) < 0 {
      UnboundedKinds(btype);
      if btype.Array? {
        el, pos := ReadArraySubtype(s, pos0, btype);
        if el.Some? {
          ArrayFixed(el.t, btype);
        }
      } else {
        el, pos := ReadRecordSubtype(s, pos0, btype);
        if el.Some? {
          RecordFixed(el.t, btype);
        }
      }
    }
  }

  /** ghw_read_record_subtype: a bounded record keeps its elements; of an unbounded one, every
      unbounded element gets a subtype of its own, in the order of the stream. */
  method ReadRecordSubtype(s: seq<byte>, pos0: nat, base: Type) returns (sr: Read, pos: nat)
    requires base.Record? && WellFormed(base) && Constrainable(base) && pos0 <= |s|
    ensures pos0 <= pos <= |s|
    ensures if base.nbrScalars >= 0 then sr == Some(SubRecord(base.els, base.nbrScalars)) && pos == pos0
            else IsRead(sr, pos, ElementAt(s, pos0, base))
    ensures sr.Some? ==> sr.t.SubRecord? && |sr.t.els| == |base.els|
    ensures sr.Some? && NewNonNegative(sr.t.els, base.els) ==> WellFormed(sr.t) && NbrElements(sr.t) >= 0
    decreases base, 0
  {
    pos := pos0;
    if base.nbrScalars >= 0 {
      BoundedRecord(base);
      return Some(SubRecord(base.els, base.nbrScalars)), pos;
    }
    var els, nbrScalars := [], 0;
    for j := 0 to |base.els|
      invariant pos0 <= pos <= |s| && ElementsAt(s, pos0, base, j) == Elements(els, pos)
      invariant |els| == j && nbrScalars == SumOf(els) && Bounded(els, base.els)
    {
      var el;
      el, pos := ReadElement(s, pos, base.els[j]);
      if el.None? {
        ElementsStop(s, pos0, base, j + 1, |base.els|);
        return None, pos;
      }
      BoundedNext(els, base.els, el.t);
      els, nbrScalars := els + [el.t], nbrScalars + NbrElements(el.t);
    }
    sr := Some(SubRecord(els, nbrScalars));
    if NewNonNegative(els, base.els) {
      BoundedAll(els, base.els);
    }
  }

  lemma {:induction false} UnboundedKinds(t: Type)
    requires WellFormed(t) && NbrElements(t) < 0
    ensures t.Array? || t.Record?
  {
    Counts(t);
    if t.SubArray? {
      ProductNonNegative(t.lens);
    } else if t.SubRecord? {
      SumIsTotal(t.els, |t.els|);
    }
  }

  lemma {:induction false} BoundedRecord(t: Type)
    requires t.Record? && WellFormed(t) && t.nbrScalars >= 0
    ensures WellFormed(SubRecord(t.els, t.nbrScalars))
  {
    forall k | 0 <= k < |t.els|
      ensures NbrElements(t.els[k]) >= 0
    {
      TotalBounded(t.els, k + 1, |t.els|);
      Counts(t.els[k]);
    }
  }
}
