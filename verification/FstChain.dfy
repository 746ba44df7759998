/** The change buffer: back-linked records, and the walk that re-encodes a chain from right to left. */
module FstChain {
  import opened Bytes
  import opened FstVarint
  import opened Leb128
  import opened FstRecord

  // ---- buffer records ----

  /** A 32-bit word, the low byte first. */
  function Le32(v: nat): (bytes: seq<byte>)
    ensures |bytes| == 4
  {
    [Low8(v), Low8(High8(v)), Low8(High8(High8(v))), Low8(High8(High8(High8(v))))]
  }

  function ReadLe32(mem: seq<byte>, at: nat): (v: nat)
    requires at + 4 <= |mem|
  {
    mem[at] as nat + 0x100 * mem[at + 1] as nat + 0x1_0000 * mem[at + 2] as nat + 0x100_0000 * mem[at + 3] as nat
  }

  lemma {:induction false} Le32RoundTrip(mem: seq<byte>, at: nat, v: nat)
    requires v < TWO32 && At(mem, at, Le32(v))
    ensures ReadLe32(mem, at) == v
  {
    AtPlace(mem, at, Le32(v), 0);
    AtPlace(mem, at, Le32(v), 1);
    AtPlace(mem, at, Le32(v), 2);
    AtPlace(mem, at, Le32(v), 3);
    var top := High8(High8(High8(v)));
    assert v == Low8(v) as nat + 256 * (Low8(High8(v)) as nat + 256 * (Low8(High8(High8(v))) as nat + 256 * top));
  }

  /** What follows the link of a buffer record. */
  function ChangeBytes(len: nat, delta: nat, value: seq<byte>): (bytes: seq<byte>) {
    if len == 0 then Varint(delta) + (Varint(|value|) + value) else Varint(delta) + value
  }

  /** The records that start at `offs` and link to ever lower offsets hold `chain`; none reaches
      beyond the record that links to it. Offset 0 is the null link. */
  ghost predicate Represents(vchg: seq<byte>, offs: nat, bound: nat, len: nat, chain: Chain) {
    match chain
    case Nil => offs == 0
    case Link(older, delta, value) =>
      && 0 < offs && offs + 4 + |ChangeBytes(len, delta, value)| <= bound <= |vchg|
      && At(vchg, offs + 4, ChangeBytes(len, delta, value))
      && ReadLe32(vchg, offs) < offs
      && Represents(vchg, ReadLe32(vchg, offs), offs, len, older)
  }

  /** Appending to the buffer keeps every chain. */
  lemma {:induction false} RepresentsExtended(vchg: seq<byte>, more: seq<byte>, offs: nat, bound: nat, len: nat,
                                              chain: Chain)
    requires Represents(vchg, offs, bound, len, chain)
    ensures Represents(vchg + more, offs, bound, len, chain)
  {
    match chain
    case Nil =>
    case Link(older, delta, value) =>
      AtLonger(vchg, more, offs + 4, ChangeBytes(len, delta, value));
      RepresentsExtended(vchg, more, ReadLe32(vchg, offs), offs, len, older);
  }

  lemma {:induction false} AtLonger(s: seq<byte>, more: seq<byte>, at: nat, piece: seq<byte>)
    requires At(s, at, piece)
    ensures At(s + more, at, piece)
  {
    assert (s + more)[at..at + |piece|] == s[at..at + |piece|];
  }

  lemma {:induction false} RepresentsWider(vchg: seq<byte>, offs: nat, bound: nat, wider: nat, len: nat, chain: Chain)
    requires Represents(vchg, offs, bound, len, chain) && bound <= wider <= |vchg|
    ensures Represents(vchg, offs, wider, len, chain)
  {
  }

  /** A new record that links to the chain's start makes the chain one change longer. */
  lemma {:induction false} RepresentsLinked(vchg: seq<byte>, offs: nat, len: nat, chain: Chain, delta: nat,
                                            value: seq<byte>, rec: seq<byte>)
    requires Represents(vchg, offs, |vchg|, len, chain) && offs < |vchg| < TWO32
    requires rec == Le32(offs) + ChangeBytes(len, delta, value)
    ensures Represents(vchg + rec, |vchg|, |vchg| + |rec|, len, Link(chain, delta, value))
  {
    LinkReads(vchg, offs, ChangeBytes(len, delta, value), rec);
    RepresentsExtended(vchg, rec, offs, |vchg|, len, chain);
  }

  lemma {:induction false} LinkReads(vchg: seq<byte>, offs: nat, change: seq<byte>, rec: seq<byte>)
    requires offs < TWO32 && rec == Le32(offs) + change
    ensures ReadLe32(vchg + rec, |vchg|) == offs && At(vchg + rec, |vchg| + 4, change)
  {
    AtEnds(vchg, rec);
    AtSplit(vchg + rec, |vchg|, Le32(offs), change);
    Le32RoundTrip(vchg + rec, |vchg|, offs);
  }

  // ---- re-encoding ----

  lemma {:induction false} RecordFits(len: nat, delta: nat, value: seq<byte>)
    requires StorableChange(len, delta, value)
    ensures |EncodeRecord(len, delta, value)| <= 1 + |ChangeBytes(len, delta, value)|
  {
    if len == 1 {
      VarintScaled(delta, EncodeBit(delta, value[0]));
    } else {
      VarintScaled(delta, 2 * delta);
      VarintScaled(delta, 2 * delta + 1);
    }
  }

  method PutLeft(dest: array<byte>, pnt0: nat, data: seq<byte>) returns (pnt: nat)
    requires |data| <= pnt0 <= dest.Length
    modifies dest
    ensures pnt == pnt0 - |data| && dest[pnt..] == data + old(dest[pnt0..])
  {
    pnt := pnt0 - |data|;
    forall k | pnt <= k < pnt0 {
      dest[k] := data[k - pnt];
    }
    assert dest[pnt..pnt0] == data;
    JoinSlice(dest, pnt, pnt0);
  }

  /** The fall-through switch: the bits of group `g`, at most eight of them. */
  method PackGroup(value: seq<byte>, g: nat) returns (acc: nat)
    requires g < PackedSize(|value|)
    ensures acc < 256 && acc as byte == Packed(value)[g]
  {
    var s := 8 * g;
    var count := if s + 8 <= |value| then 8 else |value| - s;
    acc := 0;
    if count >= 8 { acc := acc + value[s + 7] as nat % 2; }
    if count >= 7 { acc := acc + 2 * (value[s + 6] as nat % 2); }
    if count >= 6 { acc := acc + 4 * (value[s + 5] as nat % 2); }
    if count >= 5 { acc := acc + 8 * (value[s + 4] as nat % 2); }
    if count >= 4 { acc := acc + 16 * (value[s + 3] as nat % 2); }
    if count >= 3 { acc := acc + 32 * (value[s + 2] as nat % 2); }
    if count >= 2 { acc := acc + 64 * (value[s + 1] as nat % 2); }
    acc := acc + 128 * (value[s] as nat % 2);
    assert acc == PackByte(value, s) as nat;
  }

  /** Packs a vector from its last, perhaps partial, group of eight to its first. */
  method PackLeft(dest: array<byte>, pnt0: nat, value: seq<byte>) returns (pnt: nat)
    requires 1 <= |value| && PackedSize(|value|) <= pnt0 <= dest.Length
    modifies dest
    ensures pnt == pnt0 - PackedSize(|value|) && dest[pnt..] == Packed(value) + old(dest[pnt0..])
  {
    ghost var packed, tail := Packed(value), dest[pnt0..];
    var g: nat := PackedSize(|value|);
    pnt := pnt0;
    while g > 0
      invariant g <= |packed| && pnt == pnt0 - (|packed| - g)
      invariant dest[pnt..] == packed[g..] + tail
    {
      g := g - 1;
      var acc := PackGroup(value, g);
      pnt := PutLeft(dest, pnt, [acc as byte]);
      TailStep(packed, g);
    }
  }

  lemma {:induction false} TailStep(s: seq<byte>, g: nat)
    requires g < |s|
    ensures s[g..] == [s[g]] + s[g + 1..]
  {
  }

  method IsBinary(value: seq<byte>) returns (binary: bool)
    ensures binary == Binary(value)
  {
    for idx := 0 to |value|
      invariant forall i :: 0 <= i < idx ==> value[i] == ZERO || value[i] == ONE
    {
      if value[idx] != ZERO && value[idx] != ONE {
        return false;
      }
    }
    return true;
  }

  method PutVectorLeft(dest: array<byte>, pnt0: nat, delta: nat, value: seq<byte>) returns (pnt: nat)
    requires |value| >= 2 && |EncodeRecord(|value|, delta, value)| <= pnt0 <= dest.Length
    modifies dest
    ensures pnt == pnt0 - |EncodeRecord(|value|, delta, value)|
    ensures dest[pnt..] == EncodeRecord(|value|, delta, value) + old(dest[pnt0..])
  {
    ghost var tail := dest[pnt0..];
    var binary := IsBinary(value);
    if binary {
      pnt := PackLeft(dest, pnt0, value);
      pnt := CopyVarintToLeft(dest, pnt, 2 * delta);
      MovesOver(Varint(2 * delta) + Packed(value), Varint(2 * delta), Packed(value), tail, Packed(value) + tail);
    } else {
      pnt := PutLeft(dest, pnt0, value);
      pnt := CopyVarintToLeft(dest, pnt, 2 * delta + 1);
      MovesOver(Varint(2 * delta + 1) + value, Varint(2 * delta + 1), value, tail, value + tail);
    }
  }

  method PutVariableLeft(dest: array<byte>, pnt0: nat, delta: nat, value: seq<byte>) returns (pnt: nat)
    requires |EncodeRecord(0, delta, value)| <= pnt0 <= dest.Length
    modifies dest
    ensures pnt == pnt0 - |EncodeRecord(0, delta, value)|
    ensures dest[pnt..] == EncodeRecord(0, delta, value) + old(dest[pnt0..])
  {
    ghost var tail, sized := dest[pnt0..], Varint(|value|) + value;
    pnt := PutLeft(dest, pnt0, value);
    pnt := CopyVarintToLeft(dest, pnt, |value|);
    pnt := CopyVarintToLeft(dest, pnt, 2 * delta);
    MovesOver(sized, Varint(|value|), value, tail, value + tail);
    MovesOver(Varint(2 * delta) + sized, Varint(2 * delta), sized, tail, sized + tail);
  }

  /** One re-encoded record, ending just before `pnt0`. */
  method PutRecordLeft(dest: array<byte>, pnt0: nat, len: nat, delta: nat, value: seq<byte>) returns (pnt: nat)
    requires StorableChange(len, delta, value)
    requires |EncodeRecord(len, delta, value)| <= pnt0 <= dest.Length
    modifies dest
    ensures pnt == pnt0 - |EncodeRecord(len, delta, value)|
    ensures dest[pnt..] == EncodeRecord(len, delta, value) + old(dest[pnt0..])
  {
    if len == 1 {
      pnt := CopyVarintToLeft(dest, pnt0, EncodeBit(delta, value[0]));
    } else if len == 0 {
      pnt := PutVariableLeft(dest, pnt0, delta, value);
    } else {
      pnt := PutVectorLeft(dest, pnt0, delta, value);
    }
  }

  lemma {:induction false} MovesOver(ab: seq<byte>, a: seq<byte>, b: seq<byte>, c: seq<byte>, bc: seq<byte>)
    requires ab == a + b && bc == b + c
    ensures ab + c == a + bc
  {
  }

  /** Reads the change behind a link. */
  method ReadChange(vchg: seq<byte>, at: nat, len: nat, ghost delta0: nat, ghost value0: seq<byte>)
      returns (delta: nat, value: seq<byte>)
    requires StorableChange(len, delta0, value0) && At(vchg, at, ChangeBytes(len, delta0, value0))
    ensures delta == delta0 && value == value0
  {
    ReadsChange(vchg, at, len, delta0, value0);
    var skip;
    delta, skip := GetVarint32(vchg, at);
    if len == 0 {
      var size, skip2 := GetVarint32(vchg, at + skip);
      value := vchg[at + skip + skip2..at + skip + skip2 + size];
    } else {
      value := vchg[at + skip..at + skip + len];
    }
  }

  lemma {:induction false} ReadsChange(vchg: seq<byte>, at: nat, len: nat, delta: nat, value: seq<byte>)
    requires StorableChange(len, delta, value) && At(vchg, at, ChangeBytes(len, delta, value))
    ensures Terminated(vchg, at) && ReadVarint32(vchg, at).0 == delta
    ensures var next := ReadVarint(vchg, at).1;
            if len == 0 then
              Terminated(vchg, next) && ReadVarint32(vchg, next).0 == |value|
                  && At(vchg, ReadVarint(vchg, next).1, value)
            else At(vchg, next, value)
  {
    var next := at + |Varint(delta)|;
    if len == 0 {
      AtSplit(vchg, at, Varint(delta), Varint(|value|) + value);
      AtSplit(vchg, next, Varint(|value|), value);
      ReadsVarint32(vchg, next, |value|, next + |Varint(|value|)|);
    } else {
      AtSplit(vchg, at, Varint(delta), value);
    }
    ReadsVarint32(vchg, at, delta, next);
  }

  /** What the newest record of a chain offers to the walk. */
  lemma {:induction false} Unlinks(vchg: seq<byte>, offs: nat, bound: nat, len: nat, chain: Chain)
    requires Represents(vchg, offs, bound, len, chain) && offs != 0 && Storable(len, chain)
    ensures chain.Link? && StorableChange(len, chain.delta, chain.value)
    ensures offs + 4 <= |vchg| && At(vchg, offs + 4, ChangeBytes(len, chain.delta, chain.value))
    ensures ReadLe32(vchg, offs) < offs && Represents(vchg, ReadLe32(vchg, offs), offs, len, chain.older)
    ensures offs + |EncodeRecord(len, chain.delta, chain.value)| <= bound
  {
    RecordFits(len, chain.delta, chain.value);
  }

  /** Reads a linked record. */
  method Follow(vchg: seq<byte>, offs: nat, ghost bound: nat, len: nat, ghost chain: Chain)
      returns (next: nat, delta: nat, value: seq<byte>)
    requires Represents(vchg, offs, bound, len, chain) && offs != 0 && Storable(len, chain)
    ensures chain.Link? && delta == chain.delta && value == chain.value && StorableChange(len, delta, value)
    ensures next < offs && Represents(vchg, next, offs, len, chain.older)
    ensures offs + |EncodeRecord(len, delta, value)| <= bound
  {
    Unlinks(vchg, offs, bound, len, chain);
    next := ReadLe32(vchg, offs);
    delta, value := ReadChange(vchg, offs + 4, len, chain.delta, chain.value);
  }

  /** `tail` is what the chain's payload holds after that of `rest`. */
  ghost predicate Walked(len: nat, chain: Chain, rest: Chain, tail: seq<byte>) {
    Storable(len, chain) && Storable(len, rest) && Payload(len, chain) == Payload(len, rest) + tail
  }

  lemma {:induction false} WalkStart(len: nat, chain: Chain, tail: seq<byte>)
    requires Storable(len, chain) && tail == []
    ensures Walked(len, chain, chain, tail)
  {
    assert Payload(len, chain) + tail == Payload(len, chain);
  }

  lemma {:induction false} WalkEnd(len: nat, chain: Chain, tail: seq<byte>)
    requires Walked(len, chain, Nil, tail)
    ensures tail == Payload(len, chain)
  {
  }

  lemma {:induction false} WalkStep(len: nat, chain: Chain, rest: Chain, tail: seq<byte>, more: seq<byte>)
    requires Walked(len, chain, rest, tail) && rest.Link?
    requires StorableChange(len, rest.delta, rest.value) && more == EncodeRecord(len, rest.delta, rest.value) + tail
    ensures Walked(len, chain, rest.older, more)
  {
    MovesOver(Payload(len, rest), Payload(len, rest.older), EncodeRecord(len, rest.delta, rest.value), tail, more);
  }

  /** The newest record not yet re-encoded joins those that are. */
  method EncodeNewest(vchg: seq<byte>, offs: nat, ghost bound: nat, len: nat, scratch: array<byte>, pnt0: nat,
                      ghost chain: Chain, ghost rest: Chain, ghost tail0: seq<byte>)
      returns (pnt: nat, next: nat, ghost tail: seq<byte>)
    requires offs != 0 && Represents(vchg, offs, bound, len, rest) && bound <= pnt0 <= scratch.Length
    requires Walked(len, chain, rest, tail0) && tail0 == scratch[pnt0..]
    modifies scratch
    ensures rest.Link? && next < offs && Represents(vchg, next, offs, len, rest.older)
    ensures offs <= pnt <= scratch.Length && Walked(len, chain, rest.older, tail) && tail == scratch[pnt..]
  {
    var delta, value;
    next, delta, value := Follow(vchg, offs, bound, len, rest);
    pnt := PutRecordLeft(scratch, pnt0, len, delta, value);
    tail := scratch[pnt..];
    WalkStep(len, chain, rest, tail0, tail);
  }

  /** Walks a chain from its newest record back and builds its payload from right to left, in a
      scratch buffer no larger than the change buffer. */
  method EncodeChain(vchg: seq<byte>, offs0: nat, len: nat, scratch: array<byte>, ghost chain: Chain) returns (pnt: nat)
    requires scratch.Length == |vchg| && Represents(vchg, offs0, |vchg|, len, chain) && Storable(len, chain)
    modifies scratch
    ensures pnt <= scratch.Length && scratch[pnt..] == Payload(len, chain)
  {
    var offs: nat := offs0;
    ghost var rest, bound: nat, tail := chain, |vchg|, [];
    pnt := scratch.Length;
    WalkStart(len, chain, tail);
    while offs != 0
      invariant bound <= pnt <= scratch.Length && Represents(vchg, offs, bound, len, rest)
      invariant Walked(len, chain, rest, tail) && tail == scratch[pnt..]
      decreases offs
    {
      ghost var linked := offs;
      pnt, offs, tail := EncodeNewest(vchg, offs, bound, len, scratch, pnt, chain, rest, tail);
      rest, bound := rest.older, linked;
    }
    WalkEnd(len, chain, tail);
  }
}
