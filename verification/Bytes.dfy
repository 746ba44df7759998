/** Bytes and the byte-by-byte back-reference copy shared by the LZ4 and FastLZ codecs. */
module Bytes {
  newtype byte = b: int | 0 <= b < 256

  /** `v >> 4`, and below it `v >> 8`: quotients by counting, so that proofs about byte layouts
      stay linear. */
  function High4(v: nat): (h: nat)
    ensures 16 * h <= v < 16 * h + 16
  {
    if v < 16 then 0 else 1 + High4(v - 16)
  }

  function Low4(v: nat): (l: nat)
    ensures l < 16 && v == 16 * High4(v) + l
  {
    v - 16 * High4(v)
  }

  function High8(v: nat): (h: nat)
    ensures 256 * h <= v < 256 * h + 256
  {
    if v < 256 then 0 else 1 + High8(v - 256)
  }

  function Low8(v: nat): (l: byte)
    ensures v == 256 * High8(v) + l as int
  {
    (v - 256 * High8(v)) as byte
  }

  /** Appends `count` bytes to `out`, each equal to the byte `distance` places before it. */
  function CopyBack(out: seq<byte>, distance: nat, count: nat): (r: seq<byte>)
    requires 1 <= distance <= |out|
    ensures |r| == |out| + count
  {
    if count == 0 then out
    else
      var r := CopyBack(out, distance, count - 1);
      r + [r[|r| - distance]]
  }

  /** Every byte of `s` in `[from..to)` equals the one `distance` places before it. */
  ghost predicate Periodic(s: seq<byte>, from: int, to: int, distance: int)
    requires 1 <= distance <= from
    requires to <= |s|
  {
    forall k :: from <= k < to ==> s[k] == s[k - distance]
  }

  /** The back-reference copy is the only periodic extension of its prefix. */
  lemma {:induction false} CopyBackUnique(t: seq<byte>, from: nat, to: nat, distance: nat)
    requires 1 <= distance <= from <= to <= |t|
    requires Periodic(t, from, to, distance)
    ensures t[..to] == CopyBack(t[..from], distance, to - from)
  {
    if to > from {
      CopyBackUnique(t, from, to - 1, distance);
      assert t[..to] == t[..to - 1] + [t[to - 1]];
    }
  }

  /** Conversely, every byte the copy appends repeats the byte `distance` places before it. */
  lemma {:induction false} CopyBackPeriodic(out: seq<byte>, distance: nat, count: nat)
    requires 1 <= distance <= |out|
    ensures Periodic(CopyBack(out, distance, count), |out|, |out| + count, distance)
  {
    if count > 0 {
      CopyBackPeriodic(out, distance, count - 1);
    }
  }

  /** Copying in two steps is copying once. */
  lemma {:induction false} CopyBackSplit(out: seq<byte>, distance: nat, first: nat, second: nat)
    requires 1 <= distance <= |out|
    ensures CopyBack(CopyBack(out, distance, first), distance, second) == CopyBack(out, distance, first + second)
  {
    if second > 0 {
      CopyBackSplit(out, distance, first, second - 1);
    }
  }

  /** `piece` stands at position `at` of `s`. */
  ghost predicate At(s: seq<byte>, at: nat, piece: seq<byte>)
  {
    at + |piece| <= |s| && forall k {:trigger piece[k]} :: 0 <= k < |piece| ==> s[at + k] == piece[k]
  }

  lemma {:induction false} AtPlace(s: seq<byte>, at: nat, piece: seq<byte>, k: nat)
    requires At(s, at, piece) && k < |piece|
    ensures s[at + k] == piece[k]
  {
  }

  lemma {:induction false} AtSplit(s: seq<byte>, at: nat, a: seq<byte>, b: seq<byte>)
    requires At(s, at, a + b)
    ensures At(s, at, a) && At(s, at + |a|, b)
  {
    forall k | 0 <= k < |a|
      ensures s[at + k] == a[k]
    {
      assert (a + b)[k] == a[k];
    }
    forall k | 0 <= k < |b|
      ensures s[at + |a| + k] == b[k]
    {
      assert (a + b)[|a| + k] == b[k];
    }
  }

  lemma {:induction false} AtEnds(s: seq<byte>, piece: seq<byte>)
    ensures At(s + piece, 0, s) && At(s + piece, |s|, piece)
  {
  }

  /** The bytes of a long length: 255 for every 255, then the rest. */
  function Extension(v: nat): (bytes: seq<byte>)
  {
    if v < 255 then [v as byte] else [255] + Extension(v - 255)
  }

  lemma {:induction false} ExtensionSize(v: nat)
    ensures |Extension(v)| == v / 255 + 1
  {
    if v >= 255 {
      ExtensionSize(v - 255);
    }
  }

  /** Every cell of a hash table holds a position before `limit`. */
  ghost predicate Earlier(table: seq<nat>, limit: nat) {
    forall h :: 0 <= h < |table| ==> table[h] < limit
  }

  /** The bytes `from..upto` repeat those `distance` places before. */
  ghost predicate Repeats(s: seq<byte>, from: int, upto: int, distance: int) {
    1 <= distance <= from && upto <= |s| && Periodic(s, from, upto, distance)
  }
}
