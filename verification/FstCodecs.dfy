/** The two compressors a section may use besides zlib meet what a section asks of its codec. */
module FstCodecs {
  import opened Bytes
  import Lz4Format
  import Lz4Decode
  import FastLzFormat
  import FastLzDecode
  import opened FstSection

  // ---- LZ4 ----

  /** `y` is a block for `x` that keeps the end-of-block conditions. */
  ghost predicate Lz4Block(x: seq<byte>, y: seq<byte>) {
    exists ss: Lz4Format.Sequences, last: seq<byte> :: Lz4Block1(x, y, ss, last)
  }

  ghost predicate Lz4Block1(x: seq<byte>, y: seq<byte>, ss: Lz4Format.Sequences, last: seq<byte>) {
    Lz4Format.Legal(ss) && Lz4Format.EndConditions(ss, |x|) && Lz4Format.Expand(ss) + last == x
    && y == Lz4Format.EncodeBlock(ss, last)
  }

  /** LZ4_decompress_safe_partial with target and capacity `n`; nothing on an error. */
  function Lz4Unpack(y: seq<byte>, n: nat): seq<byte> {
    if Lz4Decode.TokenReadable(y, 0) then
      match Lz4Decode.DecodeBlock(y, n, true, n)
      case Done(out) => out
      case Corrupt(_) => []
      case ZeroOffset => []
    else []
  }

  /** LZ4_decompress_safe. */
  function Lz4Full(y: seq<byte>, capacity: nat): seq<byte> {
    if Lz4Decode.TokenReadable(y, 0) then
      match Lz4Decode.DecodeBlock(y, capacity, false, capacity)
      case Done(out) => out
      case Corrupt(_) => []
      case ZeroOffset => []
    else []
  }

  ghost predicate IsLz4(c: Codec) {
    (forall x :: |x| > 32 ==> Lz4Block(x, c.pack(x))) && forall y, n :: c.unpack(y, n) == Lz4Unpack(y, n)
  }

  lemma {:induction false} Lz4Unpacks(x: seq<byte>, y: seq<byte>, tail: seq<byte>)
    requires Lz4Block(x, y) && x != []
    ensures Lz4Unpack(y + tail, |x|) == x
  {
    var ss, last :| Lz4Block1(x, y, ss, last);
    assert |x| == |Lz4Format.Expand(ss)| + |last|;
    Lz4Decode.RoundTripWithTail(ss, last, |x|, tail);
  }

  lemma {:induction false} Lz4Fully(x: seq<byte>, y: seq<byte>, capacity: nat)
    requires Lz4Block(x, y) && 0 < |x| <= capacity
    ensures Lz4Full(y, capacity) == x
  {
    var ss, last :| Lz4Block1(x, y, ss, last);
    assert |x| == |Lz4Format.Expand(ss)| + |last|;
    Lz4Decode.RoundTrip(ss, last, |x|, capacity, false);
  }

  lemma {:induction false} Lz4Partly(c: Codec)
    requires IsLz4(c)
    ensures Faithful(c)
  {
    forall x: seq<byte>, tail: seq<byte> | |x| > 32
      ensures c.unpack(c.pack(x) + tail, |x|) == x
    {
      Lz4Unpacks(x, c.pack(x), tail);
    }
  }

  /** Every payload can be had back from its packed form without knowing its size. */
  ghost predicate Lz4Whole(c: Codec) {
    forall x: seq<byte>, capacity: nat :: 32 < |x| <= capacity ==> Lz4Full(c.pack(x), capacity) == x
  }

  lemma {:induction false} Lz4Wholly(c: Codec)
    requires IsLz4(c)
    ensures Lz4Whole(c)
  {
    forall x: seq<byte>, capacity: nat | 32 < |x| <= capacity
      ensures Lz4Full(c.pack(x), capacity) == x
    {
      Lz4Fully(x, c.pack(x), capacity);
    }
  }

  lemma {:induction false} Lz4Apart(c: Codec)
    requires Lz4Whole(c)
    ensures Injective(c)
  {
    forall x: seq<byte>, y: seq<byte> | |x| > 32 && |y| > 32 && c.pack(x) == c.pack(y)
      ensures x == y
    {
      assert Lz4Full(c.pack(x), |x| + |y|) == x;
      assert Lz4Full(c.pack(y), |x| + |y|) == y;
    }
  }

  /** LZ4 as the section's codec. */
  lemma {:induction false} Lz4Suits(c: Codec)
    requires IsLz4(c)
    ensures Faithful(c) && Injective(c)
  {
    Lz4Partly(c);
    Lz4Wholly(c);
    Lz4Apart(c);
  }

  // ---- FastLZ ----

  ghost predicate FastLzStream(x: seq<byte>, y: seq<byte>) {
    exists level: FastLzFormat.Level, ops: FastLzFormat.Ops :: FastLzStream1(x, y, level, ops)
  }

  ghost predicate FastLzStream1(x: seq<byte>, y: seq<byte>, level: FastLzFormat.Level, ops: FastLzFormat.Ops) {
    FastLzFormat.Legal(level, ops) && ops.Then? && FastLzFormat.Expand(level, ops) == x
    && y == FastLzFormat.EncodeAll(level, ops, FastLzFormat.Marker(level))
  }

  /** What fastlz_decompress leaves in a buffer of `n` bytes; its return value is ignored. */
  function FastLzUnpack(y: seq<byte>, n: nat): seq<byte> {
    if y == [] then [] else FastLzDecode.Decode(y, n).out
  }

  ghost predicate IsFastLz(c: Codec) {
    (forall x :: |x| > 32 ==> FastLzStream(x, c.pack(x))) && forall y, n :: c.unpack(y, n) == FastLzUnpack(y, n)
  }

  lemma {:induction false} FastLzUnpacks(x: seq<byte>, y: seq<byte>, tail: seq<byte>)
    requires FastLzStream(x, y)
    ensures FastLzUnpack(y + tail, |x|) == x
  {
    var level, ops :| FastLzStream1(x, y, level, ops);
    FastLzDecode.RoundTripWithTail(level, ops, tail);
  }

  lemma {:induction false} FastLzFully(x: seq<byte>, y: seq<byte>, maxout: nat)
    requires FastLzStream(x, y) && |x| <= maxout
    ensures FastLzUnpack(y, maxout) == x
  {
    var level, ops :| FastLzStream1(x, y, level, ops);
    FastLzDecode.RoundTrip(level, ops, maxout);
  }

  lemma {:induction false} FastLzPartly(c: Codec)
    requires IsFastLz(c)
    ensures Faithful(c)
  {
    forall x: seq<byte>, tail: seq<byte> | |x| > 32
      ensures c.unpack(c.pack(x) + tail, |x|) == x
    {
      FastLzUnpacks(x, c.pack(x), tail);
    }
  }

  /** Every payload can be had back from its packed form without knowing its size. */
  ghost predicate FastLzWhole(c: Codec) {
    forall x: seq<byte>, capacity: nat :: 32 < |x| <= capacity ==> FastLzUnpack(c.pack(x), capacity) == x
  }

  lemma {:induction false} FastLzWholly(c: Codec)
    requires IsFastLz(c)
    ensures FastLzWhole(c)
  {
    forall x: seq<byte>, capacity: nat | 32 < |x| <= capacity
      ensures FastLzUnpack(c.pack(x), capacity) == x
    {
      FastLzFully(x, c.pack(x), capacity);
    }
  }

  lemma {:induction false} FastLzApart(c: Codec)
    requires FastLzWhole(c)
    ensures Injective(c)
  {
    forall x: seq<byte>, y: seq<byte> | |x| > 32 && |y| > 32 && c.pack(x) == c.pack(y)
      ensures x == y
    {
      assert FastLzUnpack(c.pack(x), |x| + |y|) == x;
      assert FastLzUnpack(c.pack(y), |x| + |y|) == y;
    }
  }

  /** FastLZ as the section's codec. */
  lemma {:induction false} FastLzSuits(c: Codec)
    requires IsFastLz(c)
    ensures Faithful(c) && Injective(c)
  {
    FastLzPartly(c);
    FastLzWholly(c);
    FastLzApart(c);
  }
}
