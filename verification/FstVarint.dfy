/** The variable-length integers of FST files, as the file's routines read and write them. */
module FstVarint {
  import opened Bytes
  import opened Leb128

  // ---- unsigned ----

  lemma {:induction false} VarintLonger(v: nat, w: nat)
    requires v <= w
    ensures |Varint(v)| <= |Varint(w)|
  {
    if v >= 128 {
      VarintLonger(v / 128, w / 128);
    }
  }

  /** Multiplying by at most 128 makes a varint at most one byte longer. */
  lemma {:induction false} VarintScaled(v: nat, w: nat)
    requires w < 128 * v + 128
    ensures |Varint(w)| <= |Varint(v)| + 1
  {
    if w >= 128 {
      VarintLonger(w / 128, v);
    }
  }

  /** fstCopyVarint32ToLeft: finds the length first, then fills in from left to right. */
  method CopyVarintToLeft(dest: array<byte>, end: nat, v0: nat) returns (pnt: nat)
    requires |Varint(v0)| <= end <= dest.Length
    modifies dest
    ensures pnt == end - |Varint(v0)| && dest[pnt..] == Varint(v0) + old(dest[end..])
  {
    var cnt := VarintLength(v0);
    pnt := end - cnt;
    var spnt, v: nat := pnt, v0;
    for i := 0 to cnt - 1
      invariant spnt == pnt + i && |Varint(v)| == cnt - i
      invariant dest[pnt..spnt] + Varint(v) == Varint(v0) && dest[end..] == old(dest[end..])
    {
      dest[spnt] := (v % 128 + 128) as byte;
      SnocSlice(dest, pnt, spnt);
      spnt, v := spnt + 1, v / 128;
    }
    dest[spnt] := v as byte;
    SnocSlice(dest, pnt, spnt);
    JoinSlice(dest, pnt, end);
  }

  lemma {:induction false} JoinSlice(dest: array<byte>, a: nat, b: nat)
    requires a <= b <= dest.Length
    ensures dest[a..] == dest[a..b] + dest[b..]
  {
  }

  lemma {:induction false} SnocSlice(dest: array<byte>, a: nat, b: nat)
    requires a <= b < dest.Length
    ensures dest[a..b + 1] == dest[a..b] + [dest[b]]
  {
  }

  /** The length of a varint, before it is written. */
  method VarintLength(v: nat) returns (cnt: nat)
    ensures cnt == |Varint(v)|
  {
    var nxt: nat := v / 128;
    cnt := 1;
    while nxt != 0
      invariant if nxt == 0 then cnt == |Varint(v)| else cnt + |Varint(nxt)| == |Varint(v)|
      decreases nxt
    {
      nxt, cnt := nxt / 128, cnt + 1;
    }
  }

  lemma {:induction false} Wraps32(high: nat, low: nat)
    requires low < 128
    ensures (high % TWO32 * 128) % TWO32 + low == (128 * high + low) % TWO32
  {
    var q := high / TWO32;
    assert 128 * high + low == 128 * (high % TWO32) + low + TWO32 * (128 * q);
  }

  lemma {:induction false} Wraps64(high: nat, low: nat)
    requires low < 128
    ensures (high % TWO64 * 128) % TWO64 + low == (128 * high + low) % TWO64
  {
    var q := high / TWO64;
    assert 128 * high + low == 128 * (high % TWO64) + low + TWO64 * (128 * q);
  }

  /** fstGetVarint32: finds the last byte, then gathers seven bits at a time backwards, in 32 bits. */
  method GetVarint32(mem: seq<byte>, at: nat) returns (rc: nat, skiplen: nat)
    requires Terminated(mem, at)
    ensures rc == ReadVarint(mem, at).0 % TWO32 && at + skiplen == ReadVarint(mem, at).1
  {
    var m := at;
    while mem[m] >= 128
      invariant at <= m && Terminated(mem, m) && ReadVarint(mem, m).1 == ReadVarint(mem, at).1
      invariant forall k :: at <= k < m ==> mem[k] >= 128
      decreases |mem| - m
    {
      m := m + 1;
    }
    skiplen := m - at + 1;
    rc := mem[m] as nat;
    while m != at
      invariant at <= m && Terminated(mem, m) && rc == ReadVarint(mem, m).0 % TWO32
      invariant forall k :: at <= k < m ==> mem[k] >= 128
      decreases m
    {
      Wraps32(ReadVarint(mem, m).0, mem[m - 1] as nat - 128);
      m := m - 1;
      rc := (rc * 128) % TWO32 + (mem[m] as nat - 128);
    }
  }

  /** fstGetVarint64: the same in 64 bits. */
  method GetVarint64(mem: seq<byte>, at: nat) returns (rc: nat, skiplen: nat)
    requires Terminated(mem, at)
    ensures rc == ReadVarint(mem, at).0 % TWO64 && at + skiplen == ReadVarint(mem, at).1
  {
    var m := at;
    while mem[m] >= 128
      invariant at <= m && Terminated(mem, m) && ReadVarint(mem, m).1 == ReadVarint(mem, at).1
      invariant forall k :: at <= k < m ==> mem[k] >= 128
      decreases |mem| - m
    {
      m := m + 1;
    }
    skiplen := m - at + 1;
    rc := mem[m] as nat;
    while m != at
      invariant at <= m && Terminated(mem, m) && rc == ReadVarint(mem, m).0 % TWO64
      invariant forall k :: at <= k < m ==> mem[k] >= 128
      decreases m
    {
      m := m - 1;
      Wraps64(ReadVarint(mem, m + 1).0, mem[m] as nat - 128);
      rc := rc * 128 % TWO64 + (mem[m] as nat - 128);
    }
  }

  // ---- signed ----

  function Pow128(n: nat): (p: nat)
  {
    if n == 0 then 1 else 128 * Pow128(n - 1)
  }

  lemma {:induction false} TenBytes()
    ensures Pow128(10) == 64 * TWO64
  {
    assert Pow128(2) == 0x4000 && Pow128(4) == 0x4000 * 0x4000 && Pow128(6) == 0x4000 * 0x4000 * 0x4000;
    assert Pow128(8) == 0x4000 * 0x4000 * 0x4000 * 0x4000;
  }

  /** The sign of the last byte does not reach the word once the shift has passed it. */
  lemma {:induction false} SignLost(full: int, one: nat, bytes: nat)
    requires one == Pow128(bytes) && 7 * bytes >= 64 && bytes <= 10
    ensures Wrapped(full - one, TWO64) == Wrapped(full, TWO64)
  {
    TenBytes();
    Multiples(full, -64, TWO64);
  }

  /** What has been gathered before `m`: `byt` is the last byte, `full` the number without the wraps. */
  ghost predicate Taken(mem: seq<byte>, at: nat, m: nat, byt: nat, full: int, one: nat, rc: int)
    requires Terminated(mem, at)
  {
    && at <= m && one == Pow128(m - at) && rc == Wrapped(full, TWO64)
    && if byt >= 128
       then Terminated(mem, m) && full + one * ReadSVarint(mem, m).0 == ReadSVarint(mem, at).0
            && ReadSVarint(mem, m).1 == ReadSVarint(mem, at).1
       else full - (if byt >= 64 then one else 0) == ReadSVarint(mem, at).0 && m == ReadSVarint(mem, at).1
  }

  lemma {:induction false} TakenNext(mem: seq<byte>, at: nat, m: nat, last: nat, full: int, one: nat, rc: int,
                                     byt: nat, term: nat, full2: int, one2: nat, rc2: int)
    requires Terminated(mem, at) && Taken(mem, at, m, last, full, one, rc) && last >= 128
    requires byt == mem[m] as nat && term == one * (byt % 128)
    requires full2 == full + term && one2 == one * 128 && rc2 == Wrapped(rc + term, TWO64)
    ensures Taken(mem, at, m + 1, byt, full2, one2, rc2)
  {
    WrappedSum(full, term, TWO64);
    GatheredNext(one, byt, term, full, ReadSVarint(mem, m).0, if byt >= 128 then ReadSVarint(mem, m + 1).0 else 0);
  }

  lemma {:induction false} GatheredNext(one: nat, byt: nat, term: nat, full: int, here: int, after: int)
    requires byt < 256 && term == one * (byt % 128)
    requires here == byt - (if byt >= 64 then 128 else 0) + if byt >= 128 then 128 * after else 0
    ensures byt >= 128 ==> full + term + one * 128 * after == full + one * here
    ensures byt < 128 ==> full + term - (if byt >= 64 then one * 128 else 0) == full + one * here
  {
    if byt >= 128 {
      Gathers(one, byt - 128, after);
    } else if byt >= 64 {
      Gathers(one, byt, -1);
    }
  }

  lemma {:induction false} TakenAll(mem: seq<byte>, at: nat, m: nat, byt: nat, full: int, one: nat, rc: int)
    requires Terminated(mem, at) && Taken(mem, at, m, byt, full, one, rc) && byt < 128 && m <= at + 10
    ensures Wrapped(ReadSVarint(mem, at).0, TWO64)
            == if 7 * (m - at) < 64 && byt >= 64 then Wrapped(rc - one, TWO64) else rc
    ensures m == ReadSVarint(mem, at).1
  {
    WrappedSum(full, -(one as int), TWO64);
    if byt >= 64 && 7 * (m - at) >= 64 {
      SignLost(full, one, m - at);
    }
  }

  /** One more byte of the number. */
  method TakeByte(mem: seq<byte>, ghost at: nat, m: nat, ghost last: nat, ghost full: int, one: nat, rc: int)
      returns (byt: nat, ghost full2: int, one2: nat, rc2: int)
    requires Terminated(mem, at) && Taken(mem, at, m, last, full, one, rc) && last >= 128
    ensures m < |mem| && byt == mem[m] as nat && one2 == 128 * one && Taken(mem, at, m + 1, byt, full2, one2, rc2)
  {
    byt := mem[m] as nat;
    var term := one * (byt % 128);
    full2, one2, rc2 := full + term, one * 128, Wrapped(rc + term, TWO64);
    TakenNext(mem, at, m, last, full, one, rc, byt, term, full2, one2, rc2);
  }

  /** fstGetSVarint64, in 64 bits; after ten bytes the shifts are no longer defined. */
  method GetSVarint64(mem: seq<byte>, at: nat) returns (rc: int, skiplen: nat)
    requires Terminated(mem, at) && ReadSVarint(mem, at).1 <= at + 10
    ensures rc == Wrapped(ReadSVarint(mem, at).0, TWO64) && at + skiplen == ReadSVarint(mem, at).1
  {
    var m, shift, one, byt := at, 0, 1, 128;
    ghost var full := 0;
    rc := 0;
    while byt >= 128
      invariant shift == 7 * (m - at) && Taken(mem, at, m, byt, full, one, rc)
      decreases if byt >= 128 then |mem| - m + 1 else 0
    {
      byt, full, one, rc := TakeByte(mem, at, m, byt, full, one, rc);
      m, shift := m + 1, shift + 7;
    }
    TakenAll(mem, at, m, byt, full, one, rc);
    if shift < 64 && byt >= 64 {
      rc := Wrapped(rc - one, TWO64);
    }
    skiplen := m - at;
  }
}
