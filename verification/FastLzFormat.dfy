/** The FastLZ format, levels 1 and 2: operations, their meaning, their encoding, and sizes. */
module FastLzFormat {
  import opened Bytes

  const MAX_COPY := 32
  const MAX_LEN := 264

  type Level = l: nat | 1 <= l <= 2 witness 1

  /** MAX_DISTANCE of each level: the first distance that has no short form. */
  function MaxDistance(level: Level): nat {
    if level == 1 then 8192 else 8191
  }

  const MAX_FARDISTANCE := 65535 + 8191 - 1

  /** A run of literals, or a copy of `length` bytes from `distance` bytes back. */
  datatype Op = Literals(bytes: seq<byte>) | Match(distance: nat, length: nat)

  datatype Ops = Start | Then(before: Ops, op: Op)

  function Size(op: Op): nat {
    match op
    case Literals(bytes) => |bytes|
    case Match(_, length) => length
  }

  function Written(ops: Ops): nat {
    match ops
    case Start => 0
    case Then(before, op) => Written(before) + Size(op)
  }

  /** What can be written down at a level: at level 1 a length of at most MAX_LEN; at level 2 a far
      match only from five bytes on. */
  predicate LegalOp(level: Level, written: nat, op: Op) {
    match op
    case Literals(bytes) => 1 <= |bytes| <= MAX_COPY
    case Match(distance, length) =>
      && 1 <= distance <= written && 3 <= length
      && (if level == 1 then distance < MaxDistance(1) && length <= MAX_LEN
          else distance < MAX_FARDISTANCE && (distance > MaxDistance(2) ==> 5 <= length))
  }

  /** The first operation is a literal run: its control byte carries the level. */
  predicate Legal(level: Level, ops: Ops) {
    match ops
    case Start => true
    case Then(before, op) =>
      Legal(level, before) && LegalOp(level, Written(before), op) && (before.Start? ==> op.Literals?)
  }

  function Expand(level: Level, ops: Ops): (out: seq<byte>)
    requires Legal(level, ops)
    ensures |out| == Written(ops)
  {
    match ops
    case Start => []
    case Then(before, Literals(bytes)) => Expand(level, before) + bytes
    case Then(before, Match(distance, length)) => CopyBack(Expand(level, before), distance, length)
  }

  // ---- encoding ----

  /** Control byte with a length code (0 for literals) and five more bits. */
  function Control(code: nat, low: nat): byte
    requires code <= 7 && low < 32
  {
    (32 * code + low) as byte
  }

  /** The length of a match counts from 1 for three bytes; the distance from 0 for one. */
  function LengthPart(level: Level, len: nat, low: nat): (bytes: seq<byte>)
    requires 1 <= len && low < 32 && (level == 1 ==> len <= MAX_LEN - 2)
  {
    if len < 7 then [Control(len, low)]
    else if level == 1 then [Control(7, low), (len - 7) as byte]
    else [Control(7, low)] + Extension(len - 7)
  }

  function NearBytes(distance: nat): (bytes: seq<byte>)
    requires 1 <= distance
  {
    [Low8(distance - 1)]
  }

  function FarBytes(distance: nat): (bytes: seq<byte>)
    requires 8191 < distance < MAX_FARDISTANCE
  {
    [255, High8(distance - 1 - 8191) as byte, Low8(distance - 1 - 8191)]
  }

  function EncodeMatch(level: Level, distance: nat, length: nat): (bytes: seq<byte>)
    requires LegalOp(level, distance, Match(distance, length))
  {
    if distance - 1 < MaxDistance(level)
    then LengthPart(level, length - 2, High8(distance - 1)) + NearBytes(distance)
    else LengthPart(level, length - 2, 31) + FarBytes(distance)
  }

  function EncodeLiterals(bytes: seq<byte>, marker: nat): (r: seq<byte>)
    requires 1 <= |bytes| <= MAX_COPY && marker <= 32
  {
    [(marker + |bytes| - 1) as byte] + bytes
  }

  function EncodeOp(level: Level, written: nat, op: Op, marker: nat): (r: seq<byte>)
    requires LegalOp(level, written, op) && marker <= 32
  {
    match op
    case Literals(bytes) => EncodeLiterals(bytes, marker)
    case Match(distance, length) => EncodeMatch(level, distance, length)
  }

  /** The stream; `marker` is added to the first control byte. */
  function EncodeAll(level: Level, ops: Ops, marker: nat): (r: seq<byte>)
    requires Legal(level, ops) && marker <= 32
  {
    match ops
    case Start => []
    case Then(before, op) =>
      EncodeAll(level, before, marker)
      + EncodeOp(level, Written(before), op, if before.Start? then marker else 0)
  }

  function Marker(level: Level): nat {
    32 * (level - 1)
  }

  // ---- sizes ----

  /** Each match pays for its own encoding and for the next control byte. */
  lemma {:induction false} MatchSize(level: Level, distance: nat, length: nat)
    requires LegalOp(level, distance, Match(distance, length))
    ensures |EncodeMatch(level, distance, length)| < length
  {
    if length >= 9 {
      ExtensionSize(length - 9);
    }
  }

  /** A literal run shorter than MAX_COPY, whose control byte is not yet paid for. */
  predicate EndsShort(ops: Ops) {
    ops.Then? && ops.op.Literals? && |ops.op.bytes| < MAX_COPY
  }

  /** Only full literal runs are followed by literals. */
  predicate Tight(ops: Ops) {
    match ops
    case Start => true
    case Then(before, op) => Tight(before) && (op.Literals? ==> !EndsShort(before))
  }

  lemma {:induction false} SizeBound(level: Level, ops: Ops, marker: nat)
    requires Legal(level, ops) && Tight(ops) && marker <= 32
    ensures |EncodeAll(level, ops, marker)|
            <= Written(ops) + Written(ops) / 32 + if EndsShort(ops) then 1 else 0
  {
    match ops
    case Start =>
    case Then(before, op) =>
      SizeBound(level, before, marker);
      if op.Match? {
        MatchSize(level, op.distance, op.length);
      }
  }

  /** Worst case: one byte for every 32 begun. This implies the documented rule (5% larger and at
      least 66 bytes) and the buffer of twice the length plus two that FST reserves. */
  lemma {:induction false} WorstCase(level: Level, ops: Ops)
    requires Legal(level, ops) && Tight(ops)
    ensures var n := Written(ops);
            && |EncodeAll(level, ops, Marker(level))| <= n + (n + 31) / 32
            && (forall room: nat :: 66 <= room && 105 * n <= 100 * room ==> n + 1 + n / 32 <= room)
            && n + 1 + n / 32 <= 2 * n + 2
  {
    if EndsShort(ops) {
      SizeBound(level, ops.before, Marker(level));
    } else {
      SizeBound(level, ops, Marker(level));
    }
  }
}
