/** The bounds of arrays in a GHW file: what the writer puts out for a range, the ranges of an array and
    the bounds of a record, and that the reader gets exactly these bounds back. */
module GhwBounds {
  import opened Bytes
  import opened Leb128
  import opened GhwLeb
  import opened GhwStream
  import opened GhwSignal

  // ---- lengths ----

  /** The indices of a range, in its direction. */
  function Indices(down: bool, left: int, right: int): (r: seq<int>)
    decreases if down then left - right else right - left
  {
    if (if down then left < right else left > right) then []
    else [left] + Indices(down, if down then left - 1 else left + 1, right)
  }

  /** A range has as many indices as its length says, and none if that is negative. */
  lemma {:induction false} LengthIs(r: Range)
    ensures |Indices(r.down, r.left, r.right)| == if RangeLength(r) < 0 then 0 else RangeLength(r)
    decreases if r.down then r.left - r.right else r.right - r.left
  {
    if r.down && r.left >= r.right {
      LengthIs(r.(left := r.left - 1));
    } else if !r.down && r.left <= r.right {
      LengthIs(r.(left := r.left + 1));
    }
  }

  /** And these are the numbers between its bounds. */
  lemma {:induction false} IndicesAre(down: bool, left: int, right: int, i: int)
    ensures i in Indices(down, left, right) <==> if down then right <= i <= left else left <= i <= right
    decreases if down then left - right else right - left
  {
    if (if down then left >= right else left <= right) {
      IndicesAre(down, if down then left - 1 else left + 1, right, i);
    }
  }

  // ---- ranges ----

  /** The bounds that the writer has for these kinds of ranges. */
  predicate RangeFits(r: Range) {
    match r.kind
    case B2 | E8 => 0 <= r.left < 256 && 0 <= r.right < 256
    case I32 => -0x8000_0000 <= r.left < 0x8000_0000 && -0x8000_0000 <= r.right < 0x8000_0000
    case _ => false
  }

  /** Write_Range: the kind with the direction in the top bit, then both bounds. */
  method WriteRange(r: Range) returns (bytes: seq<byte>)
    requires RangeFits(r)
    ensures bytes == RangeBytes(r)
  {
    var k: byte := if r.kind.B2? then 22 else if r.kind.E8? then 23 else 25;
    bytes := [if r.down then k + 128 else k];
    if r.kind.I32? {
      var left := PutSVarint(r.left);
      var right := PutSVarint(r.right);
      bytes := bytes + left + right;
    } else {
      bytes := bytes + [r.left as byte] + [r.right as byte];
    }
  }

  function RangeBytes(r: Range): (bytes: seq<byte>)
    requires RangeFits(r)
  {
    var tag := (if r.kind.B2? then TAG_B2 else if r.kind.E8? then TAG_E8 else TAG_I32) + if r.down then 128 else 0;
    [tag as byte] + if r.kind.I32? then SVarint(r.left) + SVarint(r.right) else [r.left as byte, r.right as byte]
  }

  lemma {:induction false} RangeReads(s: seq<byte>, at: nat, r: Range, next: nat)
    requires RangeFits(r) && At(s, at, RangeBytes(r)) && next == at + |RangeBytes(r)|
    ensures RangeAt(s, at) == GotRange(r, next)
  {
    AtPlace(s, at, RangeBytes(r), 0);
    if r.kind.I32? {
      AtSplit(s, at, [RangeBytes(r)[0]], SVarint(r.left) + SVarint(r.right));
      BoundsRead(s, at + 1, r.left, r.right);
    } else {
      AtPlace(s, at, RangeBytes(r), 1);
      AtPlace(s, at, RangeBytes(r), 2);
    }
  }

  lemma {:induction false} BoundsRead(s: seq<byte>, at: nat, left: int, right: int)
    requires -0x8000_0000 <= left < 0x8000_0000 && -0x8000_0000 <= right < 0x8000_0000
    requires At(s, at, SVarint(left) + SVarint(right))
    ensures Signed32(s, at) == Got(left, at + |SVarint(left)|)
    ensures Signed32(s, at + |SVarint(left)|) == Got(right, at + |SVarint(left)| + |SVarint(right)|)
  {
    AtSplit(s, at, SVarint(left), SVarint(right));
    Signed32RoundTrip(s, at, left);
    Signed32RoundTrip(s, at + |SVarint(left)|, right);
  }

  ghost predicate AllRangesFit(rngs: seq<Range>) {
    forall k :: 0 <= k < |rngs| ==> RangeFits(rngs[k])
  }

  function RangesBytes(rngs: seq<Range>): (bytes: seq<byte>)
    requires AllRangesFit(rngs)
  {
    if rngs == [] then [] else RangesBytes(rngs[..|rngs| - 1]) + RangeBytes(rngs[|rngs| - 1])
  }

  /** Write_Array_Bounds: dimension after dimension. */
  method WriteArrayBounds(rngs: seq<Range>) returns (bytes: seq<byte>)
    requires AllRangesFit(rngs)
    ensures bytes == RangesBytes(rngs)
  {
    bytes := [];
    assert rngs[..0] == [];
    for k := 0 to |rngs|
      invariant AllRangesFit(rngs[..k]) && bytes == RangesBytes(rngs[..k])
    {
      assert rngs[..k + 1][..k] == rngs[..k];
      var range := WriteRange(rngs[k]);
      bytes := bytes + range;
    }
    assert rngs[..|rngs|] == rngs;
  }

  lemma {:induction false} RangesRead(s: seq<byte>, at: nat, rngs: seq<Range>, next: nat)
    requires AllRangesFit(rngs) && At(s, at, RangesBytes(rngs)) && next == at + |RangesBytes(rngs)|
    ensures RangesAt(s, at, |rngs|) == Ranges(rngs, next)
    decreases |rngs|
  {
    if rngs != [] {
      var some, r := LastRange(rngs);
      var mid := at + |RangesBytes(some)|;
      AtSplit(s, at, RangesBytes(some), RangeBytes(r));
      RangesRead(s, at, some, mid);
      RangeReads(s, mid, r, next);
      RangesStep(s, at, |some|, some, mid, r, next, rngs);
    }
  }

  lemma {:induction false} LastRange(rngs: seq<Range>) returns (some: seq<Range>, last: Range)
    requires AllRangesFit(rngs) && rngs != []
    ensures AllRangesFit(some) && RangeFits(last) && rngs == some + [last] && |some| == |rngs| - 1
    ensures RangesBytes(rngs) == RangesBytes(some) + RangeBytes(last)
  {
    some, last := rngs[..|rngs| - 1], rngs[|rngs| - 1];
  }

  lemma {:induction false} RangesStep(s: seq<byte>, at: nat, n: nat, some: seq<Range>, mid: nat, r: Range, next: nat,
                                      all: seq<Range>)
    requires RangesAt(s, at, n) == Ranges(some, mid) && RangeAt(s, mid) == GotRange(r, next) && all == some + [r]
    ensures RangesAt(s, at, n + 1) == Ranges(all, next)
  {
  }

  // ---- elements ----

  /** Bounds for a type: none if it needs none, the ranges of an array, or those of the elements. */
  datatype Limits = Nothing | OfArray(rngs: seq<Range>) | OfRecord(els: seq<Limits>)

  /** The bounds fit the type. */
  ghost predicate LimitsFit(t: Type, l: Limits)
    decreases l
  {
    match l
    case Nothing => NbrElements(t) >= 0
    case OfArray(rngs) => t.Array? && |rngs| == t.dims && AllRangesFit(rngs)
    case OfRecord(els) =>
      t.Record? && NbrElements(t) < 0 && |els| == |t.els|
      && forall k :: 0 <= k < |els| ==> LimitsFit(t.els[k], els[k])
  }

  /** Write_Record_Bounds: arrays have their ranges, records those of their elements, others nothing. */
  function LimitsBytes(t: Type, l: Limits): (bytes: seq<byte>)
    requires LimitsFit(t, l)
    decreases l, 0
  {
    match l
    case Nothing => []
    case OfArray(rngs) => RangesBytes(rngs)
    case OfRecord(els) => ElementsBytes(t, l, |els|)
  }

  function ElementsBytes(t: Type, l: Limits, n: nat): (bytes: seq<byte>)
    requires LimitsFit(t, l) && l.OfRecord? && n <= |l.els|
    decreases l, 0, n
  {
    if n == 0 then [] else ElementsBytes(t, l, n - 1) + LimitsBytes(t.els[n - 1], l.els[n - 1])
  }

  method WriteRecordBounds(t: Type, l: Limits) returns (bytes: seq<byte>)
    requires LimitsFit(t, l) && l.OfRecord?
    ensures bytes == LimitsBytes(t, l)
    decreases l
  {
    bytes := [];
    for k := 0 to |t.els|
      invariant bytes == ElementsBytes(t, l, k)
    {
      var element := [];
      match l.els[k] {
        case OfArray(rngs) => element := WriteArrayBounds(rngs);
        case OfRecord(_) => element := WriteRecordBounds(t.els[k], l.els[k]);
        case Nothing =>
      }
      bytes := bytes + element;
    }
  }

  /** The type with its bounds. */
  function Limited(t: Type, l: Limits): Type
    requires LimitsFit(t, l)
    decreases l, 0
  {
    match l
    case Nothing => t
    case OfArray(rngs) => SubArray(t.el, Lengths(rngs), NbrElements(t.el) * Product(Lengths(rngs)))
    case OfRecord(els) => SubRecord(LimitedEls(t, l, |els|), SumOf(LimitedEls(t, l, |els|)))
  }

  function LimitedEls(t: Type, l: Limits, n: nat): (els: seq<Type>)
    requires LimitsFit(t, l) && l.OfRecord? && n <= |l.els|
    ensures |els| == n
    decreases l, 0, n
  {
    if n == 0 then [] else LimitedEls(t, l, n - 1) + [Limited(t.els[n - 1], l.els[n - 1])]
  }

  /** The reader gives every element the bounds that were written for it. */
  lemma {:induction false} ElementReads(s: seq<byte>, at: nat, t: Type, l: Limits, next: nat)
    requires LimitsFit(t, l) && At(s, at, LimitsBytes(t, l)) && next == at + |LimitsBytes(t, l)|
    ensures ElementAt(s, at, t) == Bound(Limited(t, l), next)
    decreases l, 0
  {
    match l
    case Nothing =>
    case OfArray(rngs) => RangesRead(s, at, rngs, next);
    case OfRecord(els) => ElementsRead(s, at, t, l, |els|, next);
  }

  lemma {:induction false} ElementsRead(s: seq<byte>, at: nat, t: Type, l: Limits, n: nat, next: nat)
    requires LimitsFit(t, l) && l.OfRecord? && n <= |l.els|
    requires At(s, at, ElementsBytes(t, l, n)) && next == at + |ElementsBytes(t, l, n)|
    ensures ElementsAt(s, at, t, n) == Elements(LimitedEls(t, l, n), next)
    decreases l, 0, n
  {
    if n > 0 {
      var some, last := ElementsBytes(t, l, n - 1), LimitsBytes(t.els[n - 1], l.els[n - 1]);
      AtSplit(s, at, some, last);
      ElementsRead(s, at, t, l, n - 1, at + |some|);
      ElementReads(s, at + |some|, t.els[n - 1], l.els[n - 1], next);
      ElementsStep(s, at, t, n, LimitedEls(t, l, n - 1), at + |some|, Limited(t.els[n - 1], l.els[n - 1]), next);
    }
  }

  lemma {:induction false} ElementsStep(s: seq<byte>, at: nat, t: Type, n: nat, some: seq<Type>, mid: nat, el: Type,
                                        next: nat)
    requires 0 < n <= |Els(t)| && ElementsAt(s, at, t, n - 1) == Elements(some, mid)
    requires ElementAt(s, mid, Els(t)[n - 1]) == Bound(el, next)
    ensures ElementsAt(s, at, t, n) == Elements(some + [el], next)
  {
  }

  // ---- how many elements an array has ----

  /** Every index of the first with every index of the second. */
  function Cross(a: seq<seq<int>>, b: seq<int>): (r: seq<seq<int>>) {
    if a == [] then []
    else seq(|b|, k requires 0 <= k < |b| => a[0] + [b[k]]) + Cross(a[1..], b)
  }

  /** The index tuples of an array. */
  function Tuples(rngs: seq<Range>): (r: seq<seq<int>>) {
    if rngs == [] then [[]]
    else
      var last := rngs[|rngs| - 1];
      Cross(Tuples(rngs[..|rngs| - 1]), Indices(last.down, last.left, last.right))
  }

  lemma {:induction false} CrossSize(a: seq<seq<int>>, b: seq<int>)
    ensures |Cross(a, b)| == |a| * |b|
  {
    if a != [] {
      CrossSize(a[1..], b);
    }
  }

  /** An array has an element for every tuple of indices, if none of its ranges has a negative length. */
  lemma {:induction false} ProductIs(rngs: seq<Range>)
    requires forall k :: 0 <= k < |rngs| ==> RangeLength(rngs[k]) >= 0
    ensures Product(Lengths(rngs)) == |Tuples(rngs)|
  {
    if rngs != [] {
      var n := |rngs| - 1;
      ProductIs(rngs[..n]);
      LengthIs(rngs[n]);
      assert Lengths(rngs)[..n] == Lengths(rngs[..n]);
      CrossSize(Tuples(rngs[..n]), Indices(rngs[n].down, rngs[n].left, rngs[n].right));
    }
  }

  /** So an array subtype has the scalars of its element type once for each tuple. */
  lemma {:induction false} ArrayCounts(t: Type, rngs: seq<Range>)
    requires t.SubArray? && t.lens == Lengths(rngs) && forall k :: 0 <= k < |rngs| ==> RangeLength(rngs[k]) >= 0
    ensures |Leaves(t)| == |Leaves(t.el)| * |Tuples(rngs)|
  {
    ProductIs(rngs);
    TimesSize(Leaves(t.el), |Tuples(rngs)|);
  }
}
