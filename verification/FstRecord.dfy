/** One value change: how a section stores it, and how a reader gets it back. A signal's length is
    0 for variable-length values, 1 for single bits, and otherwise the number of characters. */
module FstRecord {
  import opened Bytes
  import opened FstVarint
  import opened Leb128

  /** A handle's changes in a section, the newest outermost; each delta counts time steps since the
      change before it. */
  datatype Chain = Nil | Link(older: Chain, delta: nat, value: seq<byte>)

  function Total(chain: Chain): nat {
    match chain
    case Nil => 0
    case Link(older, delta, _) => Total(older) + delta
  }

  /** What the writer's callers promise: values of the declared length, and sizes and deltas that
      leave room for the bits packed beside them. */
  predicate Storable(len: nat, chain: Chain) {
    match chain
    case Nil => true
    case Link(older, delta, value) => Storable(len, older) && StorableChange(len, delta, value)
  }

  predicate StorableChange(len: nat, delta: nat, value: seq<byte>) {
    delta < 0x1000_0000 && |value| < TWO32 && (len > 0 ==> |value| == len)
  }

  // ---- single bits ----

  const ZERO: byte := 48
  const ONE: byte := 49
  const RCV_STR: seq<byte> := [120, 122, 104, 117, 119, 108, 45, 63] // "xzhuwl-?"

  /** The escape code of a value other than 0 and 1; everything unknown is '-'. */
  function RcvCode(val: byte): (code: nat)
    ensures code < 7
  {
    if val == 120 || val == 88 then 0
    else if val == 122 || val == 90 then 1
    else if val == 104 || val == 72 then 2
    else if val == 117 || val == 85 then 3
    else if val == 119 || val == 87 then 4
    else if val == 108 || val == 76 then 5
    else 6
  }

  function EncodeBit(delta: nat, val: byte): nat {
    if val == ZERO || val == ONE then 2 * (val as nat % 2) + 4 * delta
    else 1 + 2 * RcvCode(val) + 16 * delta
  }

  function DecodeBit(vli: nat): (r: (nat, byte)) {
    if vli % 2 == 0 then (vli / 4, if vli / 2 % 2 == 1 then ONE else ZERO)
    else (vli / 16, RCV_STR[vli / 2 % 8])
  }

  /** A single bit comes back as one of these: as it was, or a letter as the small one, or as '-'. */
  const BITS := "01xzhuwl-"
  const CAPITALS := "XZHUWL"

  function Normal(val: byte): byte {
    if val as char in BITS then val else if val as char in CAPITALS then val + 32 else '-' as byte
  }

  /** One of "01xzhuwl-" is read back unchanged, one of "XZHUWL" as the small letter, everything else
      as '-'; and so is the time step. */
  lemma {:induction false} BitRoundTrip(delta: nat, val: byte)
    ensures DecodeBit(EncodeBit(delta, val)).0 == delta
    ensures var c := DecodeBit(EncodeBit(delta, val)).1 as char;
            c == if val as char in "01xzhuwl-" then val as char
                 else if val as char in "XZHUWL" then (val + 32) as char
                 else '-'
  {
    var vli := EncodeBit(delta, val);
    if val == ZERO || val == ONE {
      BinaryBits(vli, delta, val as nat % 2);
    } else {
      CodedBits(vli, delta, RcvCode(val));
    }
  }

  /** The codes of the format: 0 and 1 with two bits for the step to follow, the others with four. */
  lemma {:induction false} BitCodes(delta: nat)
    ensures EncodeBit(delta, '0' as byte) == 4 * delta && EncodeBit(delta, '1' as byte) == 4 * delta + 2
    ensures EncodeBit(delta, 'x' as byte) == EncodeBit(delta, 'X' as byte) == 16 * delta + 1
    ensures EncodeBit(delta, 'z' as byte) == EncodeBit(delta, 'Z' as byte) == 16 * delta + 3
    ensures EncodeBit(delta, 'h' as byte) == EncodeBit(delta, 'H' as byte) == 16 * delta + 5
    ensures EncodeBit(delta, 'u' as byte) == EncodeBit(delta, 'U' as byte) == 16 * delta + 7
    ensures EncodeBit(delta, 'w' as byte) == EncodeBit(delta, 'W' as byte) == 16 * delta + 9
    ensures EncodeBit(delta, 'l' as byte) == EncodeBit(delta, 'L' as byte) == 16 * delta + 11
    ensures EncodeBit(delta, '-' as byte) == 16 * delta + 13
  {
  }

  lemma {:induction false} BinaryBits(vli: nat, delta: nat, bit: nat)
    requires vli == 2 * bit + 4 * delta && bit <= 1
    ensures vli % 2 == 0 && vli / 4 == delta && vli / 2 % 2 == bit
  {
    Halves(vli, bit + 2 * delta, 0);
    Halves(bit + 2 * delta, delta, bit);
  }

  lemma {:induction false} CodedBits(vli: nat, delta: nat, code: nat)
    requires vli == 1 + 2 * code + 16 * delta && code < 8
    ensures vli % 2 == 1 && vli / 16 == delta && vli / 2 % 8 == code
  {
    Halves(vli, code + 8 * delta, 1);
  }

  // ---- vectors ----

  predicate Binary(value: seq<byte>) {
    forall i :: 0 <= i < |value| ==> value[i] == ZERO || value[i] == ONE
  }

  function BitOf(value: seq<byte>, i: nat): (b: nat)
    ensures b <= 1
  {
    if i < |value| then value[i] as nat % 2 else 0
  }

  /** Eight characters from `s` on, the first in the top bit. */
  function PackByte(value: seq<byte>, s: nat): byte {
    (128 * BitOf(value, s) + 64 * BitOf(value, s + 1) + 32 * BitOf(value, s + 2) + 16 * BitOf(value, s + 3)
     + 8 * BitOf(value, s + 4) + 4 * BitOf(value, s + 5) + 2 * BitOf(value, s + 6) + BitOf(value, s + 7)) as byte
  }

  function PackedSize(len: nat): nat {
    (len + 7) / 8
  }

  function Packed(value: seq<byte>): (bytes: seq<byte>)
    ensures |bytes| == PackedSize(|value|)
  {
    seq(PackedSize(|value|), (g: nat) => PackByte(value, 8 * g))
  }

  /** `b >> (7 - t) & 1` as a character. */
  function BitChar(b: byte, t: nat): (c: byte)
    requires t < 8
  {
    var n := b as nat;
    var bit := match t
               case 0 => n / 128
               case 1 => n / 64
               case 2 => n / 32
               case 3 => n / 16
               case 4 => n / 8
               case 5 => n / 4
               case 6 => n / 2
               case 7 => n;
    if bit % 2 == 1 then ONE else ZERO
  }

  function Unpacked(mem: seq<byte>, at: nat, len: nat): (value: seq<byte>)
    requires at + PackedSize(len) <= |mem|
    ensures |value| == len
  {
    seq(len, j requires 0 <= j < len => BitChar(mem[at + j / 8], j % 8))
  }

  lemma {:induction false} BitsOfByte(b: nat, b0: nat, b1: nat, b2: nat, b3: nat, b4: nat, b5: nat, b6: nat, b7: nat)
    requires b0 <= 1 && b1 <= 1 && b2 <= 1 && b3 <= 1 && b4 <= 1 && b5 <= 1 && b6 <= 1 && b7 <= 1
    requires b == 128 * b0 + 64 * b1 + 32 * b2 + 16 * b3 + 8 * b4 + 4 * b5 + 2 * b6 + b7
    ensures b / 128 % 2 == b0 && b / 64 % 2 == b1 && b / 32 % 2 == b2 && b / 16 % 2 == b3
    ensures b / 8 % 2 == b4 && b / 4 % 2 == b5 && b / 2 % 2 == b6 && b % 2 == b7
  {
    var c6 := 64 * b0 + 32 * b1 + 16 * b2 + 8 * b3 + 4 * b4 + 2 * b5 + b6;
    var c5 := 32 * b0 + 16 * b1 + 8 * b2 + 4 * b3 + 2 * b4 + b5;
    var c4 := 16 * b0 + 8 * b1 + 4 * b2 + 2 * b3 + b4;
    var c3 := 8 * b0 + 4 * b1 + 2 * b2 + b3;
    Halves(b, c6, b7);
    Halves(c6, c5, b6);
    Halves(c5, c4, b5);
    Halves(c4, c3, b4);
    Halves(c3, 4 * b0 + 2 * b1 + b2, b3);
    Halves(4 * b0 + 2 * b1 + b2, 2 * b0 + b1, b2);
    Halves(2 * b0 + b1, b0, b1);
    Halvings(b);
  }

  lemma {:induction false} Halvings(b: nat)
    ensures b / 4 == b / 2 / 2 && b / 8 == b / 4 / 2 && b / 16 == b / 8 / 2
    ensures b / 32 == b / 16 / 2 && b / 64 == b / 32 / 2 && b / 128 == b / 64 / 2
  {
  }

  lemma {:induction false} Halves(v: nat, h: nat, b: nat)
    requires v == 2 * h + b && b <= 1
    ensures v / 2 == h && v % 2 == b
  {
  }

  lemma {:induction false} PackByteBit(value: seq<byte>, s: nat, t: nat)
    requires t < 8
    ensures BitChar(PackByte(value, s), t) == if BitOf(value, s + t) == 1 then ONE else ZERO
  {
    BitsOfByte(PackByte(value, s) as nat, BitOf(value, s), BitOf(value, s + 1), BitOf(value, s + 2),
               BitOf(value, s + 3), BitOf(value, s + 4), BitOf(value, s + 5), BitOf(value, s + 6), BitOf(value, s + 7));
  }

  lemma {:induction false} PackedBit(mem: seq<byte>, at: nat, value: seq<byte>, g: nat, t: nat)
    requires Binary(value) && At(mem, at, Packed(value))
    requires t < 8 && 8 * g + t < |value|
    ensures BitChar(mem[at + g], t) == value[8 * g + t]
  {
    AtPlace(mem, at, Packed(value), g);
    PackByteBit(value, 8 * g, t);
  }

  lemma {:induction false} PackRoundTrip(mem: seq<byte>, at: nat, value: seq<byte>)
    requires Binary(value) && At(mem, at, Packed(value))
    ensures Unpacked(mem, at, |value|) == value
  {
    forall j | 0 <= j < |value|
      ensures Unpacked(mem, at, |value|)[j] == value[j]
    {
      PackedBit(mem, at, value, j / 8, j % 8);
    }
  }

  // ---- records ----

  function EncodeRecord(len: nat, delta: nat, value: seq<byte>): (bytes: seq<byte>)
    requires len > 0 ==> |value| == len
  {
    if len == 1 then Varint(EncodeBit(delta, value[0]))
    else if len == 0 then Varint(2 * delta) + (Varint(|value|) + value)
    else if Binary(value) then Varint(2 * delta) + Packed(value)
    else Varint(2 * delta + 1) + value
  }

  function Delivered(len: nat, value: seq<byte>): seq<byte>
    requires len > 0 ==> |value| == len
  {
    if len == 1 then [Normal(value[0])] else value
  }

  /** How `got` should relate to the value that was written. */
  predicate ComesBack(len: nat, value: seq<byte>, got: seq<byte>) {
    if len == 1 then
      |value| == |got| == 1
      && (value[0] as char in "01xzhuwl-" ==> got == value)
      && (value[0] as char in "XZHUWL" ==> got[0] == value[0] + 32)
      && (value[0] as char !in "01xzhuwl-" && value[0] as char !in "XZHUWL" ==> got[0] as char == '-')
    else got == value
  }

  lemma {:induction false} DeliveredBack(len: nat, value: seq<byte>)
    requires len > 0 ==> |value| == len
    ensures ComesBack(len, value, Delivered(len, value))
  {
  }

  function ReadVarint32(mem: seq<byte>, at: nat): (r: (nat, nat))
    requires Terminated(mem, at)
  {
    (ReadVarint(mem, at).0 % TWO32, ReadVarint(mem, at).1)
  }

  datatype Record = Record(delta: nat, value: seq<byte>, next: nat)

  /** The record at `at` lies within `mem`; the low bit of a variable-length record is reserved. */
  predicate Readable(len: nat, mem: seq<byte>, at: nat) {
    Terminated(mem, at) &&
    var (vli, next) := ReadVarint32(mem, at);
    if len == 1 then true
    else if len == 0 then vli % 2 == 0 && Terminated(mem, next)
        && var (n, data) := ReadVarint32(mem, next); data + n <= |mem|
    else next + (if vli % 2 == 0 then PackedSize(len) else len) <= |mem|
  }

  function ReadRecord(len: nat, mem: seq<byte>, at: nat): (r: Record)
    requires Readable(len, mem, at)
    ensures at < r.next <= |mem|
  {
    var (vli, next) := ReadVarint32(mem, at);
    if len == 1 then Record(DecodeBit(vli).0, [DecodeBit(vli).1], next)
    else if len == 0 then
      var (n, data) := ReadVarint32(mem, next);
      Record(vli / 2, mem[data..data + n], data + n)
    else if vli % 2 == 0 then Record(vli / 2, Unpacked(mem, next, len), next + PackedSize(len))
    else Record(vli / 2, mem[next..next + len], next + len)
  }

  lemma {:induction false} ReadsVarint32(mem: seq<byte>, at: nat, v: nat, next: nat)
    requires At(mem, at, Varint(v)) && v < TWO32 && next == at + |Varint(v)|
    ensures Terminated(mem, at) && ReadVarint32(mem, at) == (v, next)
  {
    VarintRoundTrip(mem, at, v);
  }

  lemma {:induction false} BitRecordRoundTrip(mem: seq<byte>, at: nat, delta: nat, value: seq<byte>, next: nat)
    requires StorableChange(1, delta, value)
    requires At(mem, at, EncodeRecord(1, delta, value)) && next == at + |EncodeRecord(1, delta, value)|
    ensures Readable(1, mem, at) && ReadRecord(1, mem, at) == Record(delta, Delivered(1, value), next)
  {
    ReadsVarint32(mem, at, EncodeBit(delta, value[0]), next);
    BitRoundTrip(delta, value[0]);
  }

  lemma {:induction false} VariableRecordRoundTrip(mem: seq<byte>, at: nat, delta: nat, value: seq<byte>, next: nat)
    requires StorableChange(0, delta, value)
    requires At(mem, at, EncodeRecord(0, delta, value)) && next == at + |EncodeRecord(0, delta, value)|
    ensures Readable(0, mem, at) && ReadRecord(0, mem, at) == Record(delta, value, next)
  {
    var at1 := at + |Varint(2 * delta)|;
    var at2 := at1 + |Varint(|value|)|;
    AtSplit(mem, at, Varint(2 * delta), Varint(|value|) + value);
    AtSplit(mem, at1, Varint(|value|), value);
    ReadsVarint32(mem, at, 2 * delta, at1);
    ReadsVarint32(mem, at1, |value|, at2);
  }

  lemma {:induction false} VectorRecordRoundTrip(len: nat, mem: seq<byte>, at: nat, delta: nat, value: seq<byte>,
                                                 next: nat)
    requires len >= 2 && StorableChange(len, delta, value)
    requires At(mem, at, EncodeRecord(len, delta, value)) && next == at + |EncodeRecord(len, delta, value)|
    ensures Readable(len, mem, at) && ReadRecord(len, mem, at) == Record(delta, value, next)
  {
    if Binary(value) {
      var at1 := at + |Varint(2 * delta)|;
      AtSplit(mem, at, Varint(2 * delta), Packed(value));
      ReadsVarint32(mem, at, 2 * delta, at1);
      PackRoundTrip(mem, at1, value);
    } else {
      var at1 := at + |Varint(2 * delta + 1)|;
      AtSplit(mem, at, Varint(2 * delta + 1), value);
      ReadsVarint32(mem, at, 2 * delta + 1, at1);
    }
  }

  /** A stored change is read back as it was, single bits normalised, whatever follows it. */
  lemma {:induction false} RecordRoundTrip(len: nat, mem: seq<byte>, at: nat, delta: nat, value: seq<byte>, next: nat)
    requires StorableChange(len, delta, value)
    requires At(mem, at, EncodeRecord(len, delta, value)) && next == at + |EncodeRecord(len, delta, value)|
    ensures Readable(len, mem, at) && ReadRecord(len, mem, at) == Record(delta, Delivered(len, value), next)
  {
    if len == 1 {
      BitRecordRoundTrip(mem, at, delta, value, next);
    } else if len == 0 {
      VariableRecordRoundTrip(mem, at, delta, value, next);
    } else {
      VectorRecordRoundTrip(len, mem, at, delta, value, next);
    }
  }

  // ---- whole chains ----

  /** A handle's data in a section: its records, oldest first. */
  function Payload(len: nat, chain: Chain): (bytes: seq<byte>)
    requires Storable(len, chain)
  {
    match chain
    case Nil => []
    case Link(older, delta, value) => Payload(len, older) + EncodeRecord(len, delta, value)
  }

  /** `mem[at..end]` is a whole number of records. */
  predicate Stream(len: nat, mem: seq<byte>, at: nat, end: nat)
    requires end <= |mem|
    decreases |mem| - at
  {
    at == end ||
    (at < end && Readable(len, mem, at) && ReadRecord(len, mem, at).next <= end
     && Stream(len, mem, ReadRecord(len, mem, at).next, end))
  }

  /** What a reader delivers from `mem[at..end]`: time indices, counted from `base`, and values. */
  function Timeline(len: nat, mem: seq<byte>, at: nat, end: nat, base: nat): (r: seq<(nat, seq<byte>)>)
    requires end <= |mem| && Stream(len, mem, at, end)
    decreases |mem| - at
  {
    if at == end then []
    else
      var rec := ReadRecord(len, mem, at);
      [(base + rec.delta, rec.value)] + Timeline(len, mem, rec.next, end, base + rec.delta)
  }

  /** What was written: the time index and the value of every change, oldest first. */
  function History(len: nat, chain: Chain): (r: seq<(nat, seq<byte>)>)
    requires Storable(len, chain)
  {
    match chain
    case Nil => []
    case Link(older, _, value) => History(len, older) + [(Total(chain), Delivered(len, value))]
  }

  lemma {:induction false} TimelineStep(len: nat, mem: seq<byte>, at: nat, end: nat, base: nat, rec: Record, then_: nat)
    requires then_ == base + rec.delta
    requires at < end <= |mem| && Readable(len, mem, at) && ReadRecord(len, mem, at) == rec
    requires rec.next <= end && Stream(len, mem, rec.next, end)
    ensures Stream(len, mem, at, end)
    ensures Timeline(len, mem, at, end, base)
            == [(then_, rec.value)] + Timeline(len, mem, rec.next, end, then_)
  {
  }

  /** A record, and what follows it. */
  lemma {:induction false} RecordFirst(len: nat, mem: seq<byte>, mid: nat, delta: nat, value: seq<byte>, at: nat,
                                       end: nat, base: nat, total: nat)
    requires StorableChange(len, delta, value) && At(mem, mid, EncodeRecord(len, delta, value)) && total == base + delta
    requires at == mid + |EncodeRecord(len, delta, value)| <= end <= |mem| && Stream(len, mem, at, end)
    ensures mid <= end && Stream(len, mem, mid, end)
    ensures Timeline(len, mem, mid, end, base) == [(total, Delivered(len, value))] + Timeline(len, mem, at, end, total)
  {
    RecordRoundTrip(len, mem, mid, delta, value, at);
    TimelineStep(len, mem, mid, end, base, Record(delta, Delivered(len, value), at), total);
  }

  /** A record after a payload, and what follows it. */
  lemma {:induction false} NewestReads(len: nat, mem: seq<byte>, start: nat, payload: seq<byte>, delta: nat,
                                       value: seq<byte>, base: nat, total: nat, mid: nat, at: nat, end: nat)
    requires StorableChange(len, delta, value) && At(mem, start, payload + EncodeRecord(len, delta, value))
    requires mid == start + |payload| && at == mid + |EncodeRecord(len, delta, value)| && total == base + delta
    requires at <= end <= |mem| && Stream(len, mem, at, end)
    ensures At(mem, start, payload) && mid <= end && Stream(len, mem, mid, end)
    ensures Timeline(len, mem, mid, end, base) == [(total, Delivered(len, value))] + Timeline(len, mem, at, end, total)
  {
    AtSplit(mem, start, payload, EncodeRecord(len, delta, value));
    RecordFirst(len, mem, mid, delta, value, at, end, base, total);
  }

  /** What one more change adds to a stored chain. */
  lemma {:induction false} LinkParts(len: nat, chain: Chain)
    requires Storable(len, chain) && chain.Link?
    ensures Storable(len, chain.older) && StorableChange(len, chain.delta, chain.value)
    ensures Total(chain) == Total(chain.older) + chain.delta
    ensures Payload(len, chain) == Payload(len, chain.older) + EncodeRecord(len, chain.delta, chain.value)
    ensures History(len, chain) == History(len, chain.older) + [(Total(chain), Delivered(len, chain.value))]
  {
  }

  /** A stored chain reads as its history, followed by whatever comes after it. */
  lemma {:induction false} PayloadReads(len: nat, mem: seq<byte>, start: nat, chain: Chain, at: nat, end: nat)
    requires Storable(len, chain) && At(mem, start, Payload(len, chain)) && at == start + |Payload(len, chain)|
    requires at <= end <= |mem| && Stream(len, mem, at, end)
    ensures Stream(len, mem, start, end)
    ensures Timeline(len, mem, start, end, 0) == History(len, chain) + Timeline(len, mem, at, end, Total(chain))
    decreases chain, 0
  {
    if chain.Link? {
      LinkParts(len, chain);
      PayloadReadsOn(len, mem, start, chain.older, chain.delta, chain.value, Payload(len, chain.older),
                     History(len, chain.older), Total(chain), at, end);
    }
  }

  lemma {:induction false} PayloadReadsOn(len: nat, mem: seq<byte>, start: nat, older: Chain, delta: nat,
                                          value: seq<byte>,
                                          payload: seq<byte>, history: seq<(nat, seq<byte>)>, total: nat, at: nat,
                                              end: nat)
    requires Storable(len, older) && StorableChange(len, delta, value) && payload == Payload(len, older)
    requires history == History(len, older) && total == Total(older) + delta
    requires At(mem, start, payload + EncodeRecord(len, delta, value))
    requires at == start + |payload| + |EncodeRecord(len, delta, value)| <= end <= |mem| && Stream(len, mem, at, end)
    ensures Stream(len, mem, start, end)
    ensures Timeline(len, mem, start, end, 0)
            == (history + [(total, Delivered(len, value))]) + Timeline(len, mem, at, end, total)
    decreases older, 1
  {
    var mid := start + |payload|;
    NewestReads(len, mem, start, payload, delta, value, Total(older), total, mid, at, end);
    PayloadReads(len, mem, start, older, mid, end);
    Prepends(Timeline(len, mem, start, end, 0), history, (total, Delivered(len, value)),
             Timeline(len, mem, at, end, total), Timeline(len, mem, mid, end, Total(older)));
  }

  lemma {:induction false} Prepends<T>(whole: seq<T>, before: seq<T>, x: T, rest: seq<T>, more: seq<T>)
    requires whole == before + more && more == [x] + rest
    ensures whole == (before + [x]) + rest
  {
  }

  /** Reading a whole payload gives the whole history. */
  lemma {:induction false} PayloadRoundTrip(len: nat, mem: seq<byte>, start: nat, chain: Chain, end: nat)
    requires Storable(len, chain) && At(mem, start, Payload(len, chain)) && end == start + |Payload(len, chain)|
    ensures Stream(len, mem, start, end) && Timeline(len, mem, start, end, 0) == History(len, chain)
  {
    PayloadReads(len, mem, start, chain, end, end);
  }

  // ---- reading does not look further ----

  lemma {:induction false} VarintLonger(mem: seq<byte>, more: seq<byte>, at: nat)
    requires Terminated(mem, at)
    ensures Terminated(mem + more, at) && ReadVarint(mem + more, at) == ReadVarint(mem, at)
    decreases |mem| - at
  {
    if mem[at] >= 128 {
      VarintLonger(mem, more, at + 1);
    }
  }

  lemma {:induction false} RecordLonger(len: nat, mem: seq<byte>, more: seq<byte>, at: nat)
    requires Readable(len, mem, at)
    ensures Readable(len, mem + more, at) && ReadRecord(len, mem + more, at) == ReadRecord(len, mem, at)
  {
    VarintLonger(mem, more, at);
    var (vli, next) := ReadVarint32(mem, at);
    if len == 1 {
    } else if len == 0 {
      VarintLonger(mem, more, next);
      var (n, data) := ReadVarint32(mem, next);
      assert (mem + more)[data..data + n] == mem[data..data + n];
    } else if vli % 2 == 0 {
      assert Unpacked(mem + more, next, len) == Unpacked(mem, next, len);
    } else {
      assert (mem + more)[next..next + len] == mem[next..next + len];
    }
  }

  /** Two readings go on alike after the same record. */
  lemma {:induction false} TimelineAlike(len: nat, mem: seq<byte>, long: seq<byte>, at: nat, end: nat, base: nat,
                                         rec: Record, then_: nat)
    requires at < end <= |mem| <= |long| && rec.next <= end && Readable(len, mem, at) && Readable(len, long, at)
    requires ReadRecord(len, mem, at) == rec == ReadRecord(len, long, at) && then_ == base + rec.delta
    requires Stream(len, mem, rec.next, end) && Stream(len, long, rec.next, end)
    requires Timeline(len, long, rec.next, end, then_) == Timeline(len, mem, rec.next, end, then_)
    ensures Stream(len, long, at, end) && Stream(len, mem, at, end)
    ensures Timeline(len, long, at, end, base) == Timeline(len, mem, at, end, base)
  {
    TimelineStep(len, mem, at, end, base, rec, then_);
    TimelineStep(len, long, at, end, base, rec, then_);
  }

  lemma {:induction false} TimelineLonger(len: nat, mem: seq<byte>, more: seq<byte>, at: nat, end: nat, base: nat)
    requires end <= |mem| && Stream(len, mem, at, end)
    ensures Stream(len, mem + more, at, end)
            && Timeline(len, mem + more, at, end, base) == Timeline(len, mem, at, end, base)
    decreases |mem| - at
  {
    if at != end {
      RecordLonger(len, mem, more, at);
      var rec := ReadRecord(len, mem, at);
      TimelineLonger(len, mem, more, rec.next, end, base + rec.delta);
      TimelineAlike(len, mem, mem + more, at, end, base, rec, base + rec.delta);
    }
  }

  lemma {:induction false} HistoryTimes(len: nat, chain: Chain, k: nat)
    requires Storable(len, chain) && k < |History(len, chain)|
    ensures History(len, chain)[k].0 <= Total(chain)
  {
    if k < |History(len, chain.older)| {
      HistoryTimes(len, chain.older, k);
    }
  }
}
