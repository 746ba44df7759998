/** LZ4_decompress_generic (no dictionary, end on input size): the fast copies compute what the
    byte-by-byte decoder does, on every readable input. */
module Lz4Decompress {
  import opened Bytes
  import opened Lz4Format
  import opened Lz4Decode
  import opened Memory

  const DEC32TABLE: seq<nat> := [4, 1, 2, 1, 4, 4, 4, 4]
  const DEC64TABLE: seq<int> := [0, 0, 0, -1, 0, 1, 2, 3]

  // ---- the overlapping copy ----

  predicate Multiple(d: nat, offset: nat)
    requires 1 <= offset
  {
    d == 0 || (d >= offset && Multiple(d - offset, offset))
  }

  /** Stepping back by any multiple of the period reads the same byte. */
  lemma {:induction false} PeriodChain(s: seq<byte>, base: nat, j: nat, offset: nat, d: nat)
    requires 1 <= offset <= base && j < |s| && base + d <= j + offset
    requires Multiple(d, offset) && Periodic(s, base, j + 1, offset)
    ensures d <= j && s[j] == s[j - d]
    decreases d
  {
    if d > 0 {
      PeriodChain(s, base, j - offset, offset, d - offset);
    }
  }

  /** The fast copy refines the simple one: once the bytes up to `mid` have period `offset`,
      copying from a distance that is a multiple of `offset` keeps that period. */
  lemma {:induction false} PeriodRefines(s: seq<byte>, base: nat, mid: nat, end: nat, offset: nat, distance: nat)
    requires 1 <= offset <= base <= mid <= end <= |s|
    requires 1 <= distance <= offset + (mid - base) && Multiple(distance, offset)
    requires Periodic(s, base, mid, offset) && Periodic(s, mid, end, distance)
    ensures Periodic(s, base, end, offset)
    decreases end
  {
    if end > mid {
      PeriodRefines(s, base, mid, end - 1, offset, distance);
      if distance > offset {
        PeriodChain(s, base, end - 1 - offset, offset, distance - offset);
      }
    }
  }

  lemma {:induction false} PeriodicPrefix(s: seq<byte>, t: seq<byte>, from: nat, upto: nat, distance: nat)
    requires 1 <= distance <= from <= upto <= |s| && upto <= |t| && s[..upto] == t[..upto]
    requires Periodic(s, from, upto, distance)
    ensures Periodic(t, from, upto, distance)
  {
    forall k | from <= k < upto
      ensures t[k] == t[k - distance]
    {
      assert s[..upto][k] == t[..upto][k] && s[..upto][k - distance] == t[..upto][k - distance];
    }
  }

  /** The tables of the prologue turn the distance into a multiple of the offset, after four bytes
      and again, then at least 8, after eight bytes. */
  lemma {:induction false} TableDistances(offset: nat)
    requires 1 <= offset < 8
    ensures var four := offset + 4 - DEC32TABLE[offset];
            4 <= four <= offset + 4 && Multiple(four, offset)
    ensures var eight := offset + 8 - DEC32TABLE[offset] + DEC64TABLE[offset];
            8 <= eight <= offset + 8 && Multiple(eight, offset)
  {
    if offset == 1 { assert Multiple(4, 1); assert Multiple(8, 1); }
    else if offset == 2 { assert Multiple(4, 2); assert Multiple(8, 2); }
    else if offset == 3 { assert Multiple(6, 3); assert Multiple(9, 3); }
  }

  method CopyFour(dest: array<byte>, op: nat, match_: nat)
    requires match_ <= op && op + 4 <= dest.Length
    modifies dest
    ensures dest[..op] == old(dest[..op])
    ensures match_ < op ==> Periodic(dest[..], op, op + 4, op - match_)
  {
    dest[op] := dest[match_];
    dest[op + 1] := dest[match_ + 1];
    dest[op + 2] := dest[match_ + 2];
    dest[op + 3] := dest[match_ + 3];
  }

  method CopyBlock(dest: array<byte>, op: nat, match_: nat, count: nat)
    requires match_ <= op && op + count <= dest.Length
    modifies dest
    ensures dest[..op] == old(dest[..op])
    ensures match_ + count <= op && match_ < op ==> Periodic(dest[..], op, op + count, op - match_)
  {
    forall k | op <= k < op + count {
      dest[k] := dest[k - (op - match_)];
    }
  }

  /** The first eight bytes of a match; returns how far behind the rest must be copied from. */
  method Prologue(dest: array<byte>, op: nat, offset: nat) returns (distance: nat)
    requires offset <= op && op + 8 <= dest.Length
    modifies dest
    ensures dest[..op] == old(dest[..op])
    ensures distance <= op + 8
    ensures 1 <= offset ==> Periodic(dest[..], op, op + 8, offset)
    ensures 1 <= offset ==> 8 <= distance <= offset + 8 && Multiple(distance, offset)
  {
    if offset < 8 {
      CopyFour(dest, op, op - offset);
      ghost var four := dest[..op + 4];
      var match_ := op - offset + DEC32TABLE[offset];
      CopyBlock(dest, op + 4, match_, 4);
      distance := op + 8 - match_ + DEC64TABLE[offset];
      if offset > 0 {
        PeriodicPrefix(four, dest[..], op, op + 4, offset);
        TableDistances(offset);
        PeriodRefines(dest[..], op, op + 4, op + 8, offset, op + 4 - match_);
      }
    } else {
      CopyBlock(dest, op, op - offset, 8);
      distance := offset;
      assert Multiple(0, offset);
    }
  }

  /** Copies eight bytes at a time within the output, from `distance` bytes before. */
  method WildCopyBack(dest: array<byte>, start: nat, distance: nat, e: nat)
    requires distance <= start && (if e > start then e + 7 else start + 8) <= dest.Length
    modifies dest
    ensures dest[..start] == old(dest[..start])
    ensures 8 <= distance && e > start ==> Periodic(dest[..], start, e, distance)
  {
    var end := start;
    while true
      invariant start <= end && (end > start ==> end < e)
      invariant dest[..start] == old(dest[..start])
      invariant 8 <= distance ==> Periodic(dest[..], start, end, distance)
      decreases e + 8 - end
    {
      forall k | end <= k < end + 8 {
        dest[k] := dest[k - distance];
      }
      end := end + 8;
      if end >= e { break; }
    }
  }

  /** The tail of a match near the end of the buffer: eight bytes at a time while eight are left
      free, then one at a time. */
  method CopyNearEnd(dest: array<byte>, op0: nat, distance: nat, cpy: nat)
    requires op0 <= dest.Length && distance <= op0 && cpy + LASTLITERALS <= dest.Length
    modifies dest
    ensures dest[..op0] == old(dest[..op0])
    ensures 8 <= distance && op0 <= cpy ==> Periodic(dest[..], op0, cpy, distance)
  {
    var op := op0;
    if op < dest.Length - 8 {
      WildCopyBack(dest, op, distance, dest.Length - 8);
      op := dest.Length - 8;
    }
    while op < cpy
      invariant op0 <= op
      invariant dest[..op0] == old(dest[..op0])
      invariant 8 <= distance && op0 <= cpy ==> op <= cpy || op == dest.Length - 8
      invariant 8 <= distance ==> Periodic(dest[..], op0, if op <= dest.Length then op else dest.Length, distance)
    {
      dest[op] := dest[op - distance];
      op := op + 1;
    }
  }

  /** Copies a match of `length` bytes from `offset` bytes before `op`. */
  method CopyMatch(dest: array<byte>, op: nat, offset: nat, length: nat)
    requires offset <= op && MINMATCH <= length
    requires op + MFLIMIT <= dest.Length && op + length + LASTLITERALS <= dest.Length
    modifies dest
    ensures dest[..op] == old(dest[..op])
    ensures 1 <= offset ==> dest[..op + length] == CopyBack(old(dest[..op]), offset, length)
  {
    ghost var before := dest[..op];
    var cpy := op + length;
    var distance := Prologue(dest, op, offset);
    ghost var eight := dest[..op + 8];
    if cpy > dest.Length - MFLIMIT {
      CopyNearEnd(dest, op + 8, distance, cpy);
    } else {
      WildCopyBack(dest, op + 8, distance, cpy);
    }
    assert dest[..op] == dest[..op + 8][..op] == eight[..op] == before;
    if 1 <= offset {
      PeriodicPrefix(eight, dest[..], op, op + 8, offset);
      if op + 8 <= cpy {
        PeriodRefines(dest[..], op, op + 8, cpy, offset, distance);
      }
      CopyBackUnique(dest[..], op, cpy, offset);
      assert dest[..][..op] == dest[..op] && dest[..][..cpy] == dest[..cpy];
    }
  }

  // ---- reading ----

  method ReadLiteralLength(src: seq<byte>, start: nat) returns (length: nat, ip: nat)
    requires TokenReadable(src, start)
    ensures (length, ip) == LiteralHead(src, start)
  {
    ip := start + 1;
    length := High4(src[start] as int);
    if length == RUN_MASK {
      var s: byte := 255;
      while true
        invariant ip < |src| && LiteralLength(src, ip, length) == LiteralHead(src, start)
        decreases |src| - ip
      {
        s := src[ip];
        ip := ip + 1;
        length := length + s as int;
        if !(ip < |src| - RUN_MASK && s == 255) { break; }
      }
    }
  }

  method ReadMatchLength(src: seq<byte>, token: byte, start: nat) returns (r: MatchLen)
    ensures r == MatchHead(src, token, start)
  {
    var ip: nat, length: nat := start, Low4(token as int);
    if length == ML_MASK {
      while true
        invariant start <= ip && MatchLengthBytes(src, ip, length) == MatchHead(src, token, start)
        decreases |src| - ip
      {
        if ip > |src| - LASTLITERALS { return Stuck(ip); }
        var s := src[ip];
        ip := ip + 1;
        length := length + s as int;
        if s != 255 { break; }
      }
    }
    return MatchLen(length, ip);
  }

  /** `r` and the start of the buffer are what a finished decoding returns. */
  ghost predicate Returned(outcome: Outcome, r: int, contents: seq<byte>) {
    match outcome
    case Done(out) => r == |out| <= |contents| && contents[..r] == out
    case Corrupt(at) => r == 0 - at - 1
    case ZeroOffset => true
  }

  /** Literal length and literals of one turn. */
  method LiteralTurn(src: seq<byte>, dest: array<byte>, ip0: nat, op0: nat, oexit: int, partially: bool)
      returns (stopped: bool, r: int, ip: nat, op: nat)
    requires TokenReadable(src, ip0) && op0 <= dest.Length && oexit <= dest.Length - MFLIMIT
    modifies dest
    ensures match LiteralStep(src, ip0, old(dest[..op0]), dest.Length, oexit, partially)
            case Stop(outcome) => stopped && Returned(outcome, r, dest[..])
            case Continue(next, out) => !stopped && ip == next && op == |out| <= dest.Length && dest[..op] == out
  {
    var length;
    length, ip := ReadLiteralLength(src, ip0);
    stopped, r, op := false, 0, op0 + length;
    if op > (if partially then oexit else dest.Length - MFLIMIT) || ip + length > |src| - (2 + 1 + LASTLITERALS) {
      stopped := true;
      if op > dest.Length || (if partially then ip + length > |src| else ip + length != |src|) {
        r := 0 - ip - 1;
      } else {
        Copy(dest, op0, src, ip, length);
        r := op;
      }
    } else {
      WildCopy(dest, op0, src, ip, op);
      ip := ip + length;
    }
  }

  /** Offset, match length and match of one turn. A zero offset copies what was in the buffer
      before, but stays inside it. */
  method MatchTurn(src: seq<byte>, dest: array<byte>, token: byte, ip0: nat, op0: nat)
      returns (stopped: bool, r: int, ip: nat, op: nat)
    requires ip0 + 2 + 1 + LASTLITERALS <= |src| && op0 + MFLIMIT <= dest.Length
    modifies dest
    ensures !stopped ==> ip0 < ip && TokenReadable(src, ip) && op <= dest.Length
    ensures match MatchStep(src, token, ip0, old(dest[..op0]), dest.Length)
            case Stop(outcome) => outcome == ZeroOffset || (stopped && Returned(outcome, r, dest[..]))
            case Continue(next, out) => !stopped && ip == next && op == |out| && dest[..op] == out
  {
    stopped, r, ip, op := true, 0, ip0, op0;
    var offset := Little16(src, ip0);
    if offset > op0 {
      r := 0 - (ip0 + 2) - 1;
      return;
    }
    var m := ReadMatchLength(src, token, ip0 + 2);
    match m {
      case Stuck(at) => r := 0 - at - 1;
      case MatchLen(ml, next) =>
        if op0 + ml + MINMATCH > dest.Length - LASTLITERALS {
          r := 0 - next - 1;
        } else {
          CopyMatch(dest, op0, offset, ml + MINMATCH);
          stopped, ip, op := false, next, op0 + ml + MINMATCH;
        }
    }
  }

  /** The loop writes into `dest` what the decoder's function returns; after a zero offset, which
      the format forbids, only the bounds are kept. */
  method Decompress(src: seq<byte>, dest: array<byte>, partially: bool, target: nat) returns (r: int)
    requires TokenReadable(src, 0)
    modifies dest
    ensures Returned(DecodeBlock(src, dest.Length, partially, target), r, dest[..])
  {
    if dest.Length == 0 {
      return if |src| == 1 && src[0] == 0 then 0 else -1;
    }
    var oexit := ExitPoint(dest.Length, target);
    ghost var outcome := DecodeBlock(src, dest.Length, partially, target);
    ghost var lost := false;
    var ip: nat, op: nat := 0, 0;
    while true
      invariant op <= dest.Length && TokenReadable(src, ip)
      invariant lost ==> outcome == ZeroOffset
      invariant !lost ==> DecodeFrom(src, ip, dest[..op], dest.Length, oexit, partially) == outcome
      decreases |src| - ip
    {
      var token, stopped := src[ip], false;
      ghost var out := dest[..op];
      ghost var step := Step(src, ip, out, dest.Length, oexit, partially);
      assert !lost && step.Stop? ==> step.outcome == outcome;
      stopped, r, ip, op := LiteralTurn(src, dest, ip, op, oexit, partially);
      if stopped {
        return;
      }
      stopped, r, ip, op := MatchTurn(src, dest, token, ip, op);
      if stopped {
        return;
      }
      lost := lost || step.Stop?;
    }
  }
}
