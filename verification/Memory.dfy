/** Writing into an output buffer: memcpy, LZ4_wildCopy and length bytes. */
module Memory {
  import opened Bytes

  method Copy(dest: array<byte>, d: nat, src: seq<byte>, s: nat, count: nat)
    requires d + count <= dest.Length && s + count <= |src|
    modifies dest
    ensures dest[..d + count] == old(dest[..d]) + src[s..s + count]
  {
    forall k | d <= k < d + count {
      dest[k] := src[k - d + s];
    }
  }

  lemma {:induction false} SliceSnoc(s: seq<byte>, a: nat, b: nat)
    requires a <= b < |s|
    ensures s[a..b + 1] == s[a..b] + [s[b]]
  {
  }

  lemma {:induction false} SliceJoin(s: seq<byte>, a: nat, b: nat, c: nat)
    requires a <= b <= c <= |s|
    ensures s[a..c] == s[a..b] + s[b..c]
  {
  }

  lemma {:induction false} TakeJoin(a: seq<byte>, src: seq<byte>, s: nat, from: nat, count: nat)
    requires s + count <= from <= |src|
    ensures (a + src[s..from])[..|a| + count] == a + src[s..s + count]
  {
  }

  /** Copies eight bytes at a time, up to eight bytes past `e`. */
  method WildCopy(dest: array<byte>, d: nat, src: seq<byte>, s: nat, e: nat)
    requires d <= e && e + 8 <= dest.Length && s + (e - d) + 8 <= |src|
    modifies dest
    ensures dest[..e] == old(dest[..d]) + src[s..s + (e - d)]
  {
    var to, from := d, s;
    while true
      invariant d <= to < e + 8 && from == s + (to - d)
      invariant to > d ==> to < e
      invariant dest[..to] == old(dest[..d]) + src[s..from]
      decreases e + 8 - to
    {
      Copy(dest, to, src, from, 8);
      SliceJoin(src, s, from, from + 8);
      to, from := to + 8, from + 8;
      if to >= e { break; }
    }
    assert dest[..e] == dest[..to][..e];
    TakeJoin(old(dest[..d]), src, s, from, e - d);
  }

  /** The bytes of a long length: 255 for every 255, then the rest. */
  method PutExtension(dest: array<byte>, op0: nat, v: nat) returns (op: nat)
    requires op0 + |Extension(v)| <= dest.Length
    modifies dest
    ensures op == op0 + |Extension(v)| && dest[..op] == old(dest[..op0]) + Extension(v)
  {
    op := op0;
    var len := v;
    while len >= 255
      invariant op <= dest.Length && op0 + |Extension(v)| == op + |Extension(len)|
      invariant dest[..op] + Extension(len) == old(dest[..op0]) + Extension(v)
      decreases len
    {
      dest[op] := 255;
      assert dest[..op + 1] + Extension(len - 255) == dest[..op] + Extension(len);
      op, len := op + 1, len - 255;
    }
    dest[op] := len as byte;
    op := op + 1;
  }
}
