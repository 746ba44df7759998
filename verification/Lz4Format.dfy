/** The LZ4 block format: sequences, their meaning, their encoding, and the size bound. */
module Lz4Format {
  import opened Bytes

  const MINMATCH := 4
  const LASTLITERALS := 5
  const MFLIMIT := 12
  const ML_MASK := 15
  const RUN_MASK := 15
  const MAX_DISTANCE := 65535
  const LZ4_MAX_INPUT_SIZE := 0x7E000000

  function CompressBound(inputSize: nat): nat {
    inputSize + inputSize / 255 + 16
  }

  /** Literals followed by a back reference. */
  datatype Sequence = Sequence(literals: seq<byte>, offset: nat, matchLength: nat)

  /** The sequences of a block, the last one outermost. */
  datatype Sequences = Start | Then(before: Sequences, s: Sequence)

  /** How many bytes a list of sequences stands for. */
  function Written(ss: Sequences): nat
  {
    match ss
    case Start => 0
    case Then(before, s) => Written(before) + |s.literals| + s.matchLength
  }

  /** Every offset is a two-byte number that reaches back into what is already written. */
  predicate Legal(ss: Sequences)
  {
    match ss
    case Start => true
    case Then(before, s) => Legal(before) && LegalNext(Written(before), s)
  }

  predicate LegalNext(written: nat, s: Sequence)
  {
    && 1 <= s.offset <= MAX_DISTANCE
    && s.offset <= written + |s.literals|
    && MINMATCH <= s.matchLength
  }

  /** The bytes a list of sequences stands for. */
  function Expand(ss: Sequences): (out: seq<byte>)
    requires Legal(ss)
    ensures |out| == Written(ss)
  {
    match ss
    case Start => []
    case Then(before, s) => CopyBack(Expand(before) + s.literals, s.offset, s.matchLength)
  }

  /** The end-of-block conditions, for a block that stands for `total` bytes: no match starts in
      the last MFLIMIT bytes, and the last LASTLITERALS bytes are literals. */
  predicate EndConditions(ss: Sequences, total: nat)
  {
    match ss
    case Start => true
    case Then(before, s) =>
      && EndConditions(before, total)
      && Written(before) + |s.literals| + MFLIMIT <= total
      && Written(ss) + LASTLITERALS <= total
  }

  // ---- encoding ----

  function LengthBytes(length: nat): seq<byte>
  {
    if length < RUN_MASK then [] else Extension(length - RUN_MASK)
  }

  function Nibble(length: nat): (n: nat)
    ensures n <= 15
  {
    if length < RUN_MASK then length else RUN_MASK
  }

  function Token(s: Sequence): (token: byte)
    requires MINMATCH <= s.matchLength
    ensures High4(token as int) == Nibble(|s.literals|) && Low4(token as int) == Nibble(s.matchLength - MINMATCH)
  {
    (16 * Nibble(|s.literals|) + Nibble(s.matchLength - MINMATCH)) as byte
  }

  /** A token with its literal length bytes and literals. */
  function LiteralPart(token: byte, literals: seq<byte>): (bytes: seq<byte>)
  {
    [token] + LengthBytes(|literals|) + literals
  }

  /** An offset, low byte first, with its match length bytes. */
  function MatchPart(offset: nat, matchLength: nat): (bytes: seq<byte>)
    requires offset <= MAX_DISTANCE && MINMATCH <= matchLength
  {
    [Low8(offset), High8(offset) as byte] + LengthBytes(matchLength - MINMATCH)
  }

  function EncodeSequence(s: Sequence): (bytes: seq<byte>)
    requires s.offset <= MAX_DISTANCE && MINMATCH <= s.matchLength
  {
    LiteralPart(Token(s), s.literals) + MatchPart(s.offset, s.matchLength)
  }

  function EncodeAll(ss: Sequences): (bytes: seq<byte>)
    requires Legal(ss)
  {
    match ss
    case Start => []
    case Then(before, s) => EncodeAll(before) + EncodeSequence(s)
  }

  function EncodeLast(last: seq<byte>): (bytes: seq<byte>)
  {
    LiteralPart((16 * Nibble(|last|)) as byte, last)
  }

  /** A whole block. */
  function EncodeBlock(ss: Sequences, last: seq<byte>): (bytes: seq<byte>)
    requires Legal(ss)
  {
    EncodeAll(ss) + EncodeLast(last)
  }

  // ---- sizes ----

  lemma {:induction false} LengthBytesSize(length: nat)
    ensures |LengthBytes(length)| == if length < RUN_MASK then 0 else (length - RUN_MASK) / 255 + 1
  {
    if length >= RUN_MASK {
      ExtensionSize(length - RUN_MASK);
    }
  }

  lemma {:induction false} SequenceSize(s: Sequence, before: nat)
    requires s.offset <= MAX_DISTANCE && MINMATCH <= s.matchLength
    ensures var after := before + |s.literals| + s.matchLength;
            before + before / 255 + |EncodeSequence(s)| <= after + after / 255
  {
    LengthBytesSize(|s.literals|);
    LengthBytesSize(s.matchLength - MINMATCH);
  }

  /** A list of sequences never encodes to more than the bytes it stands for plus one in 255. */
  lemma {:induction false} EncodeAllBound(ss: Sequences)
    requires Legal(ss)
    ensures |EncodeAll(ss)| <= Written(ss) + Written(ss) / 255
  {
    match ss
    case Start =>
    case Then(before, s) =>
      EncodeAllBound(before);
      SequenceSize(s, Written(before));
  }

  /** Worst case: a block never exceeds CompressBound of what it stands for. */
  lemma {:induction false} BlockBound(ss: Sequences, last: seq<byte>)
    requires Legal(ss)
    ensures |EncodeBlock(ss, last)| <= CompressBound(|Expand(ss) + last|)
  {
    EncodeAllBound(ss);
    LengthBytesSize(|last|);
  }
}
