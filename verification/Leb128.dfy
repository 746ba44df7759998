/** Variable-length integers: seven bits a byte, low bits first, unsigned and signed. GHW files have
    them as LEB128 (section 7.6 of DWARF version 4), FST files as their varints. */
module Leb128 {
  import opened Bytes

  const TWO32 := 0x1_0000_0000
  const TWO64 := 0x1_0000_0000_0000_0000

  // ---- unsigned ----

  function Varint(v: nat): (bytes: seq<byte>)
    ensures 1 <= |bytes|
  {
    if v < 128 then [v as byte] else [(v % 128 + 128) as byte] + Varint(v / 128)
  }

  /** A varint that ends within `mem` starts at `at`. */
  predicate Terminated(mem: seq<byte>, at: nat)
    decreases |mem| - at
  {
    at < |mem| && (mem[at] < 128 || Terminated(mem, at + 1))
  }

  /** Its value, whatever its size, and the position after it. */
  function ReadVarint(mem: seq<byte>, at: nat): (r: (nat, nat))
    requires Terminated(mem, at)
    ensures at < r.1 <= |mem|
    decreases |mem| - at
  {
    if mem[at] < 128 then (mem[at] as nat, at + 1)
    else
      var (high, next) := ReadVarint(mem, at + 1);
      (mem[at] as nat - 128 + 128 * high, next)
  }

  /** Whatever follows it, a written varint is read back. */
  lemma {:induction false} VarintRoundTrip(mem: seq<byte>, at: nat, v: nat)
    requires At(mem, at, Varint(v))
    ensures Terminated(mem, at) && ReadVarint(mem, at) == (v, at + |Varint(v)|)
    decreases v
  {
    AtPlace(mem, at, Varint(v), 0);
    if v >= 128 {
      AtSplit(mem, at, [(v % 128 + 128) as byte], Varint(v / 128));
      VarintRoundTrip(mem, at + 1, v / 128);
    }
  }

  /** 32-bit values take at most five bytes. */
  lemma {:induction false} VarintShort(v: nat)
    requires v < TWO32
    ensures |Varint(v)| <= 5
  {
    var a := v / 128;
    var b := a / 128;
    var c := b / 128;
    assert |Varint(c / 128)| == 1;
    assert |Varint(c)| <= 2;
    assert |Varint(b)| <= 3;
    assert |Varint(a)| <= 4;
  }

  // ---- signed ----

  function SVarint(v: int): (bytes: seq<byte>)
    ensures 1 <= |bytes|
    decreases if v < 0 then -v else v
  {
    if -64 <= v < 64 then [(v % 128) as byte] else [(v % 128 + 128) as byte] + SVarint(v / 128)
  }

  function ReadSVarint(mem: seq<byte>, at: nat): (r: (int, nat))
    requires Terminated(mem, at)
    ensures at < r.1 <= |mem|
    decreases |mem| - at
  {
    if mem[at] < 128 then (mem[at] as int - if mem[at] >= 64 then 128 else 0, at + 1)
    else
      var (high, next) := ReadSVarint(mem, at + 1);
      (mem[at] as int - 128 + 128 * high, next)
  }

  lemma {:induction false} SVarintRoundTrip(mem: seq<byte>, at: nat, v: int)
    requires At(mem, at, SVarint(v))
    ensures Terminated(mem, at) && ReadSVarint(mem, at) == (v, at + |SVarint(v)|)
    decreases if v < 0 then -v else v
  {
    AtPlace(mem, at, SVarint(v), 0);
    if !(-64 <= v < 64) {
      AtSplit(mem, at, [(v % 128 + 128) as byte], SVarint(v / 128));
      SVarintRoundTrip(mem, at + 1, v / 128);
    }
  }

  /** Values below 2^34 in size, as all index values are, take at most five bytes. */
  lemma {:induction false} SVarintShort(v: int)
    requires -0x4_0000_0000 <= v < 0x4_0000_0000
    ensures |SVarint(v)| <= 5
  {
    var a := v / 128;
    var b := a / 128;
    var c := b / 128;
    var d := c / 128;
    assert |SVarint(d)| == 1;
    assert |SVarint(c)| <= 2;
    assert |SVarint(b)| <= 3;
    assert |SVarint(a)| <= 4;
  }

  lemma {:induction false} Gathers(one: int, low: int, high: int)
    ensures one * (low + 128 * high) == one * low + one * 128 * high
  {
  }

  // ---- writing ----

  /** fstWriterVarint and the loops like it, Wave_Put_ULEB128 among them. */
  method PutVarint(v0: nat) returns (bytes: seq<byte>)
    ensures bytes == Varint(v0)
  {
    var v := v0;
    bytes := [];
    while v / 128 != 0
      invariant bytes + Varint(v) == Varint(v0)
      decreases v
    {
      bytes, v := bytes + [(v % 128 + 128) as byte], v / 128;
    }
    bytes := bytes + [v as byte];
  }

  lemma {:induction false} SVarintStep(v: int, next: int, low: int)
    requires next == v / 128 && low == v % 128
    ensures if (next == 0 && low < 64) || (next == -1 && low >= 64) then SVarint(v) == [low as byte]
            else SVarint(v) == [(low + 128) as byte] + SVarint(next)
                 && if v < 0 then v < next <= -1 else 0 <= next < v
  {
  }

  /** fstWriterSVarint, Wave_Put_SLEB128 and Wave_Put_LSLEB128: an arithmetic shift a byte, until only
      copies of the sign are left. */
  method PutSVarint(v0: int) returns (bytes: seq<byte>)
    ensures bytes == SVarint(v0)
  {
    var v := v0;
    bytes := [];
    while true
      invariant bytes + SVarint(v) == SVarint(v0)
      decreases if v < 0 then -v else v
    {
      var low := v % 128;
      SVarintStep(v, v / 128, low);
      v := v / 128;
      if (v == 0 && low < 64) || (v == -1 && low >= 64) {
        bytes := bytes + [low as byte];
        return;
      }
      bytes := bytes + [(low + 128) as byte];
    }
  }

  // ---- machine words ----

  /** `x` in two's complement, `m` being the number of values. */
  function Wrapped(x: int, m: nat): (r: int)
    requires m > 0
    ensures 2 * r < m <= 2 * r + 2 * m
  {
    if 2 * (x % m) < m then x % m else x % m - m
  }

  lemma {:induction false} WrappedStays(x: int, m: nat)
    requires 0 < m <= 2 * x + 2 * m && 2 * x < m
    ensures Wrapped(x, m) == x
  {
    if x < 0 {
      Multiples(x, 1, m);
      assert (x + m) % m == x + m;
    }
  }

  lemma {:induction false} Multiples(x: int, k: int, m: nat)
    requires m > 0
    ensures (x + k * m) % m == x % m
  {
    var q := x / m;
    assert x + k * m == (q + k) * m + x % m;
    Remains((q + k) * m + x % m, q + k, x % m, m);
  }

  lemma {:induction false} Remains(x: int, q: int, r: nat, m: nat)
    requires r < m && x == q * m + r
    ensures x % m == r
  {
    var d := x / m - q;
    AtLeast(d, m);
    assert d * m == r - x % m;
  }

  lemma {:induction false} AtLeast(d: int, m: nat)
    ensures d >= 1 ==> d * m >= m
    ensures d <= -1 ==> d * m <= -(m as int)
  {
  }

  /** A sum may be wrapped as it goes. */
  lemma {:induction false} WrappedSum(x: int, y: int, m: nat)
    requires m > 0
    ensures Wrapped(Wrapped(x, m) + y, m) == Wrapped(x + y, m)
  {
    var k := if 2 * (x % m) < m then -(x / m) else -(x / m) - 1;
    assert Wrapped(x, m) == x + k * m;
    Multiples(x + y, k, m);
    assert Wrapped(x, m) + y == x + y + k * m;
  }
}
