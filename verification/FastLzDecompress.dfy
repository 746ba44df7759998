/** FASTLZ_DECOMPRESSOR with bounds checks: run and two-byte copies compute what the byte-by-byte
    decoder does. */
module FastLzDecompress {
  import opened Bytes
  import opened Memory
  import opened FastLzFormat
  import opened FastLzDecode

  // ---- copies ----

  /** A run: the byte before `op`, again and again. */
  method CopyRun(dest: array<byte>, op: nat, len: nat)
    requires 1 <= op && op + len + 3 <= dest.Length
    modifies dest
    ensures dest[..op + len + 3] == CopyBack(old(dest[..op]), 1, len + 3)
  {
    ghost var before := dest[..op];
    var b := dest[op - 1];
    dest[op], dest[op + 1], dest[op + 2] := b, b, b;
    for k := 0 to len
      invariant dest[..op] == before
      invariant forall i :: op <= i < op + 3 + k ==> dest[i] == b
    {
      dest[op + 3 + k] := b;
    }
    CopyBackUnique(dest[..], op, op + len + 3, 1);
    assert dest[..][..op] == before && dest[..][..op + len + 3] == dest[..op + len + 3];
  }

  method CopyByte(dest: array<byte>, op: nat, at: nat, distance: nat)
    requires 1 <= distance <= op <= at < dest.Length && Periodic(dest[..], op, at, distance)
    modifies dest
    ensures dest[..op] == old(dest[..op]) && Periodic(dest[..], op, at + 1, distance)
  {
    ghost var before := dest[..];
    dest[at] := dest[at - distance];
    assert forall k :: 0 <= k < at ==> dest[..][k] == before[k];
  }

  /** Two bytes read together and written together. */
  method CopyWord(dest: array<byte>, op: nat, at: nat, distance: nat)
    requires 2 <= distance <= op <= at && at + 2 <= dest.Length && Periodic(dest[..], op, at, distance)
    modifies dest
    ensures dest[..op] == old(dest[..op]) && Periodic(dest[..], op, at + 2, distance)
  {
    ghost var before := dest[..];
    dest[at], dest[at + 1] := dest[at - distance], dest[at + 1 - distance];
    assert forall k :: 0 <= k < at ==> dest[..][k] == before[k];
  }

  /** Three bytes, one more if the rest is odd, then words: four at a time, and what is left. */
  method CopyReference(dest: array<byte>, op: nat, distance: nat, len: nat)
    requires 2 <= distance <= op && op + len + 3 <= dest.Length
    modifies dest
    ensures dest[..op + len + 3] == CopyBack(old(dest[..op]), distance, len + 3)
  {
    ghost var before := dest[..op];
    CopyByte(dest, op, op, distance);
    CopyByte(dest, op, op + 1, distance);
    CopyByte(dest, op, op + 2, distance);
    var at: nat, rest: nat := op + 3, len;
    if rest % 2 == 1 {
      CopyByte(dest, op, at, distance);
      at, rest := at + 1, rest - 1;
    }
    rest := rest / 2;
    while rest > 4
      invariant op <= at && at + 2 * rest == op + len + 3
      invariant dest[..op] == before && Periodic(dest[..], op, at, distance)
    {
      CopyWord(dest, op, at, distance);
      CopyWord(dest, op, at + 2, distance);
      CopyWord(dest, op, at + 4, distance);
      CopyWord(dest, op, at + 6, distance);
      at, rest := at + 8, rest - 4;
    }
    while rest > 0
      invariant op <= at && at + 2 * rest == op + len + 3
      invariant dest[..op] == before && Periodic(dest[..], op, at, distance)
    {
      CopyWord(dest, op, at, distance);
      at, rest := at + 2, rest - 1;
    }
    CopyBackUnique(dest[..], op, at, distance);
    assert dest[..][..op] == before && dest[..][..at] == dest[..at];
  }

  // ---- reading ----

  method GetLength(level: Level, src: seq<byte>, ip0: nat, code: nat) returns (len: nat, ip: nat)
    requires 1 <= code && ReadLength(level, src, ip0, code).Number?
    ensures ReadLength(level, src, ip0, code) == Number(len, ip)
  {
    len, ip := code - 1, ip0;
    if code >= 7 {
      len := 6;
      if level == 1 {
        len, ip := len + src[ip] as nat, ip + 1;
      } else {
        while true
          invariant ReadExtension(src, ip, len) == ReadLength(level, src, ip0, code)
          decreases |src| - ip
        {
          var c := src[ip];
          len, ip := len + c as nat, ip + 1;
          if c != 255 { break; }
        }
      }
    }
  }

  method GetDistance(level: Level, src: seq<byte>, ip0: nat, low: nat) returns (distance: nat, ip: nat)
    requires ReadDistance(level, src, ip0, low).Number?
    ensures ReadDistance(level, src, ip0, low) == Number(distance, ip)
  {
    var code := src[ip0] as nat;
    distance, ip := 256 * low + code + 1, ip0 + 1;
    if level == 2 && code == 255 && low == 31 {
      distance := 256 * src[ip] as nat + src[ip + 1] as nat + MaxDistance(2) + 1;
      ip := ip + 2;
    }
  }

  // ---- turns ----

  /** What a turn leaves behind: rejected, or the new position with the output extended. */
  ghost predicate Made(p: Progress, ok: bool, ip: nat, op: nat, contents: seq<byte>) {
    match p
    case Stop(outcome) => outcome.Rejected? && !ok && outcome.out <= contents
    case Continue(next, out) => ok && ip == next && op == |out| <= |contents| && contents[..op] == out
  }

  method DoMatch(level: Level, src: seq<byte>, ip0: nat, ctrl: nat, dest: array<byte>, op0: nat, maxout: nat)
      returns (ok: bool, ip: nat, op: nat)
    requires 32 <= ctrl && op0 <= maxout <= dest.Length
    requires MatchTurn(level, src, ip0, ctrl, dest[..op0], maxout) != Stop(Overread(dest[..op0]))
    modifies dest
    ensures Made(MatchTurn(level, src, ip0, ctrl, old(dest[..op0]), maxout), ok, ip, op, dest[..])
  {
    var len, distance;
    len, ip := GetLength(level, src, ip0, High5(ctrl));
    distance, ip := GetDistance(level, src, ip, Low5(ctrl));
    ok, op := false, op0;
    if op0 + len + 3 > maxout || distance > op0 {
      return;
    }
    ok, op := true, op0 + len + 3;
    if distance == 1 {
      CopyRun(dest, op0, len);
    } else {
      CopyReference(dest, op0, distance, len);
    }
  }

  method DoLiterals(src: seq<byte>, ip0: nat, ctrl: nat, dest: array<byte>, op0: nat, maxout: nat)
      returns (ok: bool, ip: nat, op: nat)
    requires op0 <= maxout <= dest.Length
    modifies dest
    ensures Made(LiteralTurn(src, ip0, ctrl, old(dest[..op0]), maxout), ok, ip, op, dest[..])
  {
    ok, ip, op := false, ip0, op0;
    var count := ctrl + 1;
    if op + count > maxout || ip + count > |src| {
      return;
    }
    Copy(dest, op, src, ip, count);
    ok, ip, op := true, ip + count, op + count;
  }

  /** The return value and the output of a finished decoding. */
  ghost predicate Returned(outcome: Outcome, r: nat, contents: seq<byte>) {
    match outcome
    case Done(out) => r == |out| <= |contents| && contents[..r] == out
    case Rejected(out) => r == 0 && out <= contents
    case Overread(_) => false
  }

  /** Decompresses one level; the input must hold every byte its operations announce. */
  method DecompressLevel(level: Level, src: seq<byte>, dest: array<byte>, maxout: nat) returns (r: nat)
    requires src != [] && maxout <= dest.Length && !DecodeLevel(level, src, maxout).Overread?
    modifies dest
    ensures Returned(DecodeLevel(level, src, maxout), r, dest[..])
  {
    ghost var outcome := DecodeLevel(level, src, maxout);
    var ip: nat, ctrl, op: nat := 1, Low5(src[0] as nat), 0;
    while true
      invariant op <= maxout && DecodeFrom(level, src, ip, ctrl, dest[..op], maxout) == outcome
      decreases |src| - ip
    {
      var ok;
      ghost var turn := Turn(level, src, ip, ctrl, dest[..op], maxout);
      if ctrl >= 32 {
        ok, ip, op := DoMatch(level, src, ip, ctrl, dest, op, maxout);
      } else {
        ok, ip, op := DoLiterals(src, ip, ctrl, dest, op, maxout);
      }
      if !ok {
        return 0;
      }
      if ip >= |src| {
        return op;
      }
      ctrl, ip := src[ip] as nat, ip + 1;
    }
  }

  /** fastlz_decompress: the level is in the first byte; 0 for a level it does not know. */
  method Decompress(src: seq<byte>, dest: array<byte>, maxout: nat) returns (r: nat)
    requires src != [] && maxout <= dest.Length && !Decode(src, maxout).Overread?
    modifies dest
    ensures Returned(Decode(src, maxout), r, dest[..])
  {
    var level := High5(src[0] as nat) + 1;
    if level == 1 || level == 2 {
      r := DecompressLevel(level, src, dest, maxout);
    } else {
      r := 0;
    }
  }
}
