/** The integers of GHW files: LEB128 (section 7.6 of DWARF version 4) and fixed-size words. */
module GhwLeb {
  import opened Bytes
  import opened Leb128

  /** A number and the position after it; the stream ends within it; or it takes more bytes than the
      reader's variable has room for, so that its shifts are undefined. */
  datatype Number = Got(value: int, next: nat) | Short | Overlong

  function Unsigned(s: seq<byte>, at: nat): Number {
    if !Terminated(s, at) then Short
    else if ReadVarint(s, at).1 > at + 5 then Overlong
    else Got(ReadVarint(s, at).0 % TWO32, ReadVarint(s, at).1)
  }

  function Signed(s: seq<byte>, at: nat, size: nat, m: nat): (r: Number)
    requires m > 0
    ensures r.Got? ==> at < r.next <= |s|
  {
    if !Terminated(s, at) then Short
    else if ReadSVarint(s, at).1 > at + size then Overlong
    else Got(Wrapped(ReadSVarint(s, at).0, m), ReadSVarint(s, at).1)
  }

  function Signed32(s: seq<byte>, at: nat): Number {
    Signed(s, at, 5, TWO32)
  }

  function Signed64(s: seq<byte>, at: nat): Number {
    Signed(s, at, 10, TWO64)
  }

  lemma {:induction false} UnsignedForward(s: seq<byte>, at: nat)
    ensures Unsigned(s, at).Got? ==> at < Unsigned(s, at).next <= |s|
  {
  }

  /** Every 32-bit number is read back as it was encoded. */
  lemma {:induction false} UnsignedRoundTrip(s: seq<byte>, at: nat, v: nat)
    requires v < TWO32 && At(s, at, Varint(v))
    ensures Unsigned(s, at) == Got(v, at + |Varint(v)|)
  {
    VarintRoundTrip(s, at, v);
    VarintShort(v);
  }

  lemma {:induction false} Signed32RoundTrip(s: seq<byte>, at: nat, v: int)
    requires -0x8000_0000 <= v < 0x8000_0000 && At(s, at, SVarint(v))
    ensures Signed32(s, at) == Got(v, at + |SVarint(v)|)
  {
    SVarintRoundTrip(s, at, v);
    SVarintShort(v);
  }

  lemma {:induction false} SVarintSize(v: int, p: nat, n: nat)
    requires n > 0 && p == Power128(n) && -(p as int) <= 2 * v < p
    ensures |SVarint(v)| <= n
    decreases n
  {
    if !(-64 <= v < 64) {
      SVarintSize(v / 128, Power128(n - 1), n - 1);
    }
  }

  function Power128(n: nat): (p: nat)
    ensures p >= 1
  {
    if n == 0 then 1 else 128 * Power128(n - 1)
  }

  lemma {:induction false} Signed64RoundTrip(s: seq<byte>, at: nat, v: int)
    requires -0x8000_0000_0000_0000 <= v < 0x8000_0000_0000_0000 && At(s, at, SVarint(v))
    ensures Signed64(s, at) == Got(v, at + |SVarint(v)|)
  {
    SVarintRoundTrip(s, at, v);
    assert Power128(2) == 0x4000;
    assert Power128(4) == 0x4000 * 0x4000;
    assert Power128(6) == 0x4000 * 0x4000 * 0x4000;
    assert Power128(8) == 0x4000 * 0x4000 * 0x4000 * 0x4000;
    assert Power128(10) == 0x4000 * 0x4000 * 0x4000 * 0x4000 * 0x4000;
    SVarintSize(v, Power128(10), 10);
  }

  // ---- the readers ----

  const OK := 0
  const ERROR := -1

  lemma {:induction false} NotTerminated(s: seq<byte>, at: nat)
    requires at < |s| && s[at] >= 128
    ensures Terminated(s, at) <==> Terminated(s, at + 1)
    ensures Terminated(s, at) ==>
              ReadVarint(s, at)
              == (s[at] as nat - 128 + 128 * ReadVarint(s, at + 1).0, ReadVarint(s, at + 1).1)
    ensures Terminated(s, at) ==>
              ReadSVarint(s, at)
              == (s[at] as int - 128 + 128 * ReadSVarint(s, at + 1).0, ReadSVarint(s, at + 1).1)
  {
  }

  /** ghw_read_uleb128: seven bits a byte, the low ones first. At the end of the stream it fails. */
  method ReadUleb128(s: seq<byte>, at: nat) returns (code: int, res: nat, pos: nat)
    requires at <= |s| && !Unsigned(s, at).Overlong?
    ensures code == if Unsigned(s, at).Got? then OK else ERROR
    ensures if code == OK then Unsigned(s, at) == Got(res, pos) else pos == |s|
  {
    var r, one := 0, 1;
    pos := at;
    while true
      invariant at <= pos <= |s| && (Terminated(s, at) <==> Terminated(s, pos))
      invariant Terminated(s, at) ==>
                  r + one * ReadVarint(s, pos).0 == ReadVarint(s, at).0
                  && ReadVarint(s, pos).1 == ReadVarint(s, at).1
      decreases |s| - pos
    {
      if pos == |s| {
        return ERROR, 0, pos;
      }
      var v := s[pos] as nat;
      pos := pos + 1;
      if v < 128 {
        return OK, (r + one * v) % TWO32, pos;
      }
      NotTerminated(s, pos - 1);
      if Terminated(s, pos) {
        Gathers(one, v - 128, ReadVarint(s, pos).0);
      }
      r := r + one * (v - 128);
      one := one * 128;
    }
  }

  /** ghw_read_sleb128 and ghw_read_lsleb128: the last byte carries the sign. */
  method ReadSleb128(s: seq<byte>, at: nat, size: nat, m: nat) returns (code: int, res: int, pos: nat)
    requires at <= |s| && m > 0 && !Signed(s, at, size, m).Overlong?
    ensures code == if Signed(s, at, size, m).Got? then OK else ERROR
    ensures if code == OK then Signed(s, at, size, m) == Got(res, pos) else pos == |s|
  {
    var r, one := 0, 1;
    pos := at;
    while true
      invariant at <= pos <= |s| && (Terminated(s, at) <==> Terminated(s, pos))
      invariant Terminated(s, at) ==>
                  r + one * ReadSVarint(s, pos).0 == ReadSVarint(s, at).0
                  && ReadSVarint(s, pos).1 == ReadSVarint(s, at).1
      decreases |s| - pos
    {
      if pos == |s| {
        return ERROR, 0, pos;
      }
      var v := s[pos] as int;
      pos := pos + 1;
      if v < 128 {
        if v >= 64 {
          Gathers(one, v, -1);
          r := r - one * 128;
        }
        return OK, Wrapped(r + one * v, m), pos;
      }
      NotTerminated(s, pos - 1);
      if Terminated(s, pos) {
        Gathers(one, v - 128, ReadSVarint(s, pos).0);
      }
      r := r + one * (v - 128);
      one := one * 128;
    }
  }

  // ---- words ----

  /** Four bytes as an unsigned word, most significant first when `be`. */
  function Word(b: seq<byte>, at: nat, be: bool): (w: nat)
    requires at + 4 <= |b|
    ensures w < TWO32
  {
    if be then 0x100_0000 * b[at] as nat + 0x1_0000 * b[at + 1] as nat + 0x100 * b[at + 2] as nat + b[at + 3] as nat
    else 0x100_0000 * b[at + 3] as nat + 0x1_0000 * b[at + 2] as nat + 0x100 * b[at + 1] as nat + b[at] as nat
  }

  /** Bytes as a number, the most significant one first or last. */
  function Big(b: seq<byte>): (v: nat) {
    if b == [] then 0 else 256 * Big(b[..|b| - 1]) + b[|b| - 1] as nat
  }

  function Little(b: seq<byte>): (v: nat) {
    if b == [] then 0 else b[0] as nat + 256 * Little(b[1..])
  }

  /** `n` bytes of a number. */
  function WordBytes(v: nat, n: nat, be: bool): (b: seq<byte>)
    ensures |b| == n
  {
    if n == 0 then []
    else if be then WordBytes(v / 256, n - 1, true) + [(v % 256) as byte]
    else [(v % 256) as byte] + WordBytes(v / 256, n - 1, false)
  }

  function Power256(n: nat): (p: nat)
    ensures p >= 1
  {
    if n == 0 then 1 else 256 * Power256(n - 1)
  }

  lemma {:induction false} WordBytesRead(v: nat, n: nat, be: bool, p: nat)
    requires p == Power256(n) && v < p
    ensures (if be then Big(WordBytes(v, n, be)) else Little(WordBytes(v, n, be))) == v
  {
    if n > 0 {
      WordBytesRead(v / 256, n - 1, be, Power256(n - 1));
      var b := WordBytes(v, n, be);
      if be {
        assert b[..n - 1] == WordBytes(v / 256, n - 1, true);
      } else {
        assert b[1..] == WordBytes(v / 256, n - 1, false);
      }
    }
  }

  /** A word is its four bytes in the order of the file. */
  lemma {:induction false} WordIs(b: seq<byte>, at: nat, be: bool, four: seq<byte>)
    requires at + 4 <= |b| && four == b[at..at + 4]
    ensures Word(b, at, be) == if be then Big(four) else Little(four)
  {
    var three, two, one := if be then four[..3] else four[1..], if be then four[..2] else four[2..],
                           if be then four[..1] else four[3..];
    if be {
      assert three[..2] == two && two[..1] == one && one[..0] == [];
      assert Big(one) == four[0] as nat && Big(two) == 256 * Big(one) + four[1] as nat;
      assert Big(three) == 256 * Big(two) + four[2] as nat;
    } else {
      assert three[1..] == two && two[1..] == one && one[1..] == [];
      assert Little(one) == four[3] as nat && Little(two) == four[2] as nat + 256 * Little(one);
      assert Little(three) == four[1] as nat + 256 * Little(two);
    }
  }

  lemma {:induction false} BigSplit(b: seq<byte>, n: nat)
    requires n <= |b|
    ensures Big(b) == Power256(|b| - n) * Big(b[..n]) + Big(b[n..])
    decreases |b| - n
  {
    if n == |b| {
      assert b[..n] == b;
    } else {
      var less := b[..|b| - 1];
      BigSplit(less, n);
      assert less[..n] == b[..n] && b[n..][..|b| - n - 1] == less[n..];
      Distributes(Power256(|less| - n), Big(b[..n]), Big(less[n..]));
    }
  }

  lemma {:induction false} LittleSplit(b: seq<byte>, n: nat)
    requires n <= |b|
    ensures Little(b) == Little(b[..n]) + Power256(n) * Little(b[n..])
    decreases n
  {
    if n > 0 {
      LittleSplit(b[1..], n - 1);
      assert b[1..][..n - 1] == b[..n][1..] && b[1..][n - 1..] == b[n..];
      Distributes(Power256(n - 1), Little(b[n..]), Little(b[..n][1..]));
    } else {
      assert b[0..] == b;
    }
  }

  lemma {:induction false} Distributes(p: nat, x: nat, y: nat)
    ensures 256 * (p * x + y) == (256 * p) * x + 256 * y
  {
  }

  /** The two halves are eight bytes in the order of the file. */
  lemma {:induction false} HalvesAre(b: seq<byte>, at: nat, be: bool, eight: seq<byte>)
    requires at + 8 <= |b| && eight == b[at..at + 8]
    ensures TWO32 * HighHalf(b, at, be) + LowHalf(b, at, be) == if be then Big(eight) else Little(eight)
  {
    var left, right := eight[..4], eight[4..];
    assert left == b[at..at + 4] && right == b[at + 4..at + 4 + 4];
    assert Power256(2) == 0x1_0000 && Power256(4) == TWO32;
    WordIs(b, at, be, left);
    WordIs(b, at + 4, be, right);
    if be {
      BigSplit(eight, 4);
    } else {
      LittleSplit(eight, 4);
    }
  }

  function GetI32(b: seq<byte>, at: nat, be: bool): (r: int)
    requires at + 4 <= |b|
  {
    Wrapped(Word(b, at, be), TWO32)
  }

  function HighHalf(b: seq<byte>, at: nat, be: bool): (w: nat)
    requires at + 8 <= |b|
    ensures w < TWO32
  {
    if be then Word(b, at, true) else Word(b, at + 4, false)
  }

  function LowHalf(b: seq<byte>, at: nat, be: bool): (w: nat)
    requires at + 8 <= |b|
    ensures w < TWO32
  {
    if be then Word(b, at + 4, true) else Word(b, at, false)
  }

  /** Eight bytes: the two halves as signed 32-bit numbers, the high one shifted, and then a bitwise
      or in 64 bits, which a negative low half turns into itself alone. */
  function GetI64(b: seq<byte>, at: nat, be: bool): (r: int)
    requires at + 8 <= |b|
  {
    var l := Wrapped(LowHalf(b, at, be), TWO32);
    if l < 0 then l else TWO32 * Wrapped(HighHalf(b, at, be), TWO32) + l
  }

  /** What the eight bytes stand for. */
  function Stored64(b: seq<byte>, at: nat, be: bool): (r: int)
    requires at + 8 <= |b|
  {
    Wrapped(TWO32 * HighHalf(b, at, be) + LowHalf(b, at, be), TWO64)
  }

  /** ghw_get_i64 returns the stored number exactly if the low half's top bit is clear or the high
      half is all ones. */
  lemma {:induction false} GetI64Iff(b: seq<byte>, at: nat, be: bool)
    requires at + 8 <= |b|
    ensures GetI64(b, at, be) == Stored64(b, at, be)
            <==> LowHalf(b, at, be) < 0x8000_0000 || HighHalf(b, at, be) == 0xFFFF_FFFF
  {
    var h, l := HighHalf(b, at, be), LowHalf(b, at, be);
    WrapsOnce(h, TWO32);
    WrapsOnce(l, TWO32);
    WrapsOnce(TWO32 * h + l, TWO64);
  }

  /** So a time from 2^31 on, but below 2^32, is read as a negative one. */
  lemma {:induction false} GetI64Negative(b: seq<byte>, at: nat, be: bool)
    requires at + 8 <= |b| && HighHalf(b, at, be) == 0 && LowHalf(b, at, be) >= 0x8000_0000
    ensures Stored64(b, at, be) == LowHalf(b, at, be) && GetI64(b, at, be) == LowHalf(b, at, be) - TWO32 < 0
  {
    WrapsOnce(LowHalf(b, at, be), TWO32);
    WrapsOnce(LowHalf(b, at, be), TWO64);
  }

  /** What a time that was written is read as. */
  function TimeRead(t: int): int {
    if t % TWO32 < 0x8000_0000 || -TWO32 <= t < 0 then t else t % TWO32 - TWO32
  }

  /** Reading the eight bytes of a time. */
  lemma {:induction false} TimeReads(b: seq<byte>, at: nat, be: bool, t: int)
    requires -0x8000_0000_0000_0000 <= t < 0x8000_0000_0000_0000 && At(b, at, WordBytes(t % TWO64, 8, be))
    ensures GetI64(b, at, be) == TimeRead(t)
  {
    var v, eight := t % TWO64, b[at..at + 8];
    assert Power256(2) == 0x1_0000 && Power256(4) == TWO32 && Power256(6) == TWO32 * 0x1_0000;
    assert Power256(8) == TWO64;
    WordBytesRead(v, 8, be, TWO64);
    assert eight == WordBytes(v, 8, be);
    HalvesAre(b, at, be, eight);
    HalvesOf(t, v, HighHalf(b, at, be), LowHalf(b, at, be));
  }

  lemma {:induction false} HalvesOf(t: int, v: nat, high: nat, low: nat)
    requires -0x8000_0000_0000_0000 <= t < 0x8000_0000_0000_0000 && v == t % TWO64
    requires v == TWO32 * high + low && high < TWO32 && low < TWO32
    ensures (if Wrapped(low, TWO32) < 0 then Wrapped(low, TWO32)
             else TWO32 * Wrapped(high, TWO32) + Wrapped(low, TWO32)) == TimeRead(t)
  {
    WrapsOnce(low, TWO32);
    WrapsOnce(high, TWO32);
    assert v == if t < 0 then t + TWO64 else t;
    Remains(t, if t < 0 then high - TWO32 else high, low, TWO32);
  }

  /** Four bytes of a count. */
  lemma {:induction false} CountReads(b: seq<byte>, at: nat, be: bool, n: nat)
    requires n < 0x8000_0000 && At(b, at, WordBytes(n, 4, be))
    ensures GetI32(b, at, be) == n
  {
    var four := b[at..at + 4];
    assert Power256(2) == 0x1_0000 && Power256(4) == TWO32;
    WordBytesRead(n, 4, be, TWO32);
    assert four == WordBytes(n, 4, be);
    WordIs(b, at, be, four);
    WrapsOnce(n, TWO32);
  }

  lemma {:induction false} GetI64Wrong()
    ensures var b := [0, 0, 0, 0, 0x80, 0, 0, 0];
            GetI64(b, 0, true) == -0x8000_0000 && Stored64(b, 0, true) == 0x8000_0000
  {
    GetI64Negative([0, 0, 0, 0, 0x80, 0, 0, 0], 0, true);
  }

  lemma {:induction false} WrapsOnce(x: nat, m: nat)
    requires x < m
    ensures Wrapped(x, m) == if 2 * x < m then x else x - m
  {
  }
}
