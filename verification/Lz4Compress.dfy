/** LZ4_compress_generic without dictionary and without output limit: whatever positions the hash
    table yields, the block it writes stands for the input and keeps the end-of-block conditions. */
module Lz4Compress {
  import opened Bytes
  import opened Lz4Format
  import opened Memory
  import Lz4Decode

  const LZ4_64KLIMIT := 65536 + (MFLIMIT - 1)
  const LZ4_MINLENGTH := MFLIMIT + 1
  const SKIP_STEPS := 64 // 1 << LZ4_skipTrigger

  datatype TableType = ByU32 | ByU16

  /** What a table cell keeps of a position. */
  function Stored(tableType: TableType, position: nat): nat {
    if tableType.ByU16? then position % 0x1_0000 else position % 0x1_0000_0000
  }

  /** The `length` bytes at `match_` and at `ip` are equal, and `ip` is later, within reach. */
  ghost predicate Matches(s: seq<byte>, match_: int, ip: int, length: int) {
    0 <= match_ && ip - match_ <= MAX_DISTANCE && Repeats(s, ip, ip + length, ip - match_)
  }

  // ---- comparing ----

  /** The bytes from `b` on equal those from the earlier `a` on. */
  predicate Same(src: seq<byte>, a: nat, b: nat, width: nat)
    requires a <= b && b + width <= |src|
  {
    forall k :: b <= k < b + width ==> src[k] == src[k - (b - a)]
  }

  /** How many of the eight bytes agree before the first that differs. */
  method NbCommonBytes(src: seq<byte>, a: nat, b: nat) returns (r: nat)
    requires a <= b && b + 8 <= |src| && !Same(src, a, b, 8)
    ensures r < 8 && Same(src, a, b, r) && src[a + r] != src[b + r]
  {
    r := 0;
    while src[a + r] == src[b + r]
      invariant r < 8 && Same(src, a, b, r)
      decreases 8 - r
    {
      assert Same(src, a, b, r + 1);
      r := r + 1;
    }
  }

  /** The length of the common run of bytes before `limit`, found eight at a time, then four, two
      and one. */
  method Count(src: seq<byte>, start: nat, match_: nat, limit: nat) returns (r: nat)
    requires match_ < start <= limit <= |src|
    ensures start + r <= limit && Same(src, match_, start, r)
    ensures start + r == limit || src[start + r] != src[match_ + r]
  {
    r := 0;
    while start + r < limit - 7
      invariant start + r <= limit && Same(src, match_, start, r)
    {
      if Same(src, match_ + r, start + r, 8) {
        r := r + 8;
      } else {
        var c := NbCommonBytes(src, match_ + r, start + r);
        r := r + c;
        return;
      }
    }
    var tail := CountTail(src, start + r, match_ + r, limit);
    r := r + tail;
  }

  method CountTail(src: seq<byte>, start: nat, match_: nat, limit: nat) returns (r: nat)
    requires match_ < start <= limit <= |src| && limit - start < 8
    ensures start + r <= limit && Same(src, match_, start, r)
    ensures start + r == limit || src[start + r] != src[match_ + r]
  {
    r := 0;
    if start + r < limit - 3 && Same(src, match_ + r, start + r, 4) { r := r + 4; }
    if start + r < limit - 1 && Same(src, match_ + r, start + r, 2) { r := r + 2; }
    if start + r < limit && src[match_ + r] == src[start + r] { r := r + 1; }
  }

  // ---- the hash table ----

  method PutPosition(table: array<nat>, h: nat, tableType: TableType, p: nat, ghost limit: nat)
    requires h < table.Length && Earlier(table[..], limit) && p < limit
    modifies table
    ensures Earlier(table[..], limit)
  {
    table[h] := Stored(tableType, p);
  }

  /** The search loop: probes positions further and further apart until a cell of the table names
      an earlier one with the same four bytes. The cell is any function of the position. */
  method FindMatch(src: seq<byte>, table: array<nat>, slot: nat -> nat, tableType: TableType, start: nat,
                   mflimit: nat, acceleration: nat)
      returns (found: bool, ip: nat, match_: nat)
    requires forall p :: slot(p) < table.Length
    requires 1 <= start && 1 <= acceleration && mflimit + MFLIMIT == |src|
    requires tableType.ByU16? ==> |src| < LZ4_64KLIMIT
    requires Earlier(table[..], start)
    modifies table
    ensures found ==> start <= ip < mflimit && Matches(src, match_, ip, MINMATCH) && Earlier(table[..], ip + 1)
  {
    ip, match_ := start, 0;
    var forwardIp, step, searchMatchNb := start, 1, acceleration * SKIP_STEPS;
    var forwardH := slot(start);
    while true
      invariant start <= forwardIp && 1 <= step && SKIP_STEPS <= searchMatchNb
      invariant forwardH == slot(forwardIp) && Earlier(table[..], forwardIp)
      decreases mflimit - forwardIp
    {
      var h := forwardH;
      ip := forwardIp;
      forwardIp := forwardIp + step;
      step, searchMatchNb := searchMatchNb / SKIP_STEPS, searchMatchNb + 1;
      if forwardIp > mflimit {
        return false, ip, match_;
      }
      match_ := table[h];
      forwardH := slot(forwardIp);
      PutPosition(table, h, tableType, ip, ip + 1);
      if (tableType.ByU16? || match_ + MAX_DISTANCE >= ip) && Same(src, match_, ip, MINMATCH) {
        return true, ip, match_;
      }
    }
  }

  /** Extends a match backwards over bytes that would have been literals. */
  method CatchUp(src: seq<byte>, anchor: nat, ip0: nat, match0: nat) returns (ip: nat, match_: nat)
    requires anchor <= ip0 && Matches(src, match0, ip0, MINMATCH)
    ensures anchor <= ip <= ip0 && Matches(src, match_, ip, MINMATCH + ip0 - ip)
  {
    ip, match_ := ip0, match0;
    while ip > anchor && match_ > 0 && src[ip - 1] == src[match_ - 1]
      invariant anchor <= ip <= ip0 && Matches(src, match_, ip, MINMATCH + ip0 - ip)
    {
      ip, match_ := ip - 1, match_ - 1;
    }
  }

  // ---- writing ----

  /** The match length is written two 255s at a time. */
  method PutMatchExtension(dest: array<byte>, op0: nat, v: nat) returns (op: nat)
    requires op0 + |Extension(v)| <= dest.Length
    modifies dest
    ensures op == op0 + |Extension(v)| && dest[..op] == old(dest[..op0]) + Extension(v)
  {
    op := op0;
    var matchLength := v;
    while matchLength >= 510
      invariant op <= dest.Length && op0 + |Extension(v)| == op + |Extension(matchLength)|
      invariant dest[..op] + Extension(matchLength) == old(dest[..op0]) + Extension(v)
      decreases matchLength
    {
      dest[op] := 255;
      dest[op + 1] := 255;
      assert dest[..op + 2] + Extension(matchLength - 510) == dest[..op] + Extension(matchLength);
      op, matchLength := op + 2, matchLength - 510;
    }
    if matchLength >= 255 {
      dest[op] := 255;
      assert dest[..op + 1] + Extension(matchLength - 255) == dest[..op] + Extension(matchLength);
      op, matchLength := op + 1, matchLength - 255;
    }
    dest[op] := matchLength as byte;
    op := op + 1;
  }

  /** A token with the literal length in its high half, and the length bytes. */
  method PutLiteralLength(dest: array<byte>, op0: nat, litLength: nat) returns (op: nat)
    requires op0 + 1 + |LengthBytes(litLength)| <= dest.Length
    modifies dest
    ensures op == op0 + 1 + |LengthBytes(litLength)|
    ensures dest[..op] == old(dest[..op0]) + [(16 * Nibble(litLength)) as byte] + LengthBytes(litLength)
  {
    if litLength >= RUN_MASK {
      dest[op0] := 16 * RUN_MASK as byte;
      op := PutExtension(dest, op0 + 1, litLength - RUN_MASK);
    } else {
      dest[op0] := (16 * litLength) as byte;
      op := op0 + 1;
    }
  }

  method PutLiterals(dest: array<byte>, op0: nat, src: seq<byte>, anchor: nat, ip: nat) returns (op: nat)
    requires anchor <= ip && ip + 8 <= |src|
    requires op0 + 1 + |LengthBytes(ip - anchor)| + (ip - anchor) + 8 <= dest.Length
    modifies dest
    ensures var part := LiteralPart((16 * Nibble(ip - anchor)) as byte, src[anchor..ip]);
            op == op0 + |part| && dest[..op] == old(dest[..op0]) + part
  {
    ghost var literals := src[anchor..ip];
    ghost var head := [(16 * Nibble(|literals|)) as byte] + LengthBytes(|literals|);
    op := PutLiteralLength(dest, op0, ip - anchor);
    assert dest[..op] == old(dest[..op0]) + head;
    WildCopy(dest, op, src, anchor, op + (ip - anchor));
    op := op + (ip - anchor);
    assert dest[..op] == old(dest[..op0]) + (head + literals);
  }

  method PutLastLiterals(dest: array<byte>, op0: nat, src: seq<byte>, anchor: nat) returns (op: nat)
    requires anchor <= |src| && op0 + |EncodeLast(src[anchor..])| <= dest.Length
    modifies dest
    ensures op == op0 + |EncodeLast(src[anchor..])|
    ensures dest[..op] == old(dest[..op0]) + EncodeLast(src[anchor..])
  {
    var lastRun := |src| - anchor;
    op := PutLiteralLength(dest, op0, lastRun);
    Copy(dest, op, src, anchor, lastRun);
    assert src[anchor..] == src[anchor..anchor + lastRun];
    op := op + lastRun;
  }

  /** The offset, then the match length: its low part is added into the token written earlier. */
  method PutOffset(dest: array<byte>, op0: nat, offset: nat) returns (op: nat)
    requires offset <= MAX_DISTANCE && op0 + 2 <= dest.Length
    modifies dest
    ensures op == op0 + 2 && dest[..op] == old(dest[..op0]) + [Low8(offset), High8(offset) as byte]
  {
    dest[op0] := Low8(offset);
    dest[op0 + 1] := High8(offset) as byte;
    op := op0 + 2;
  }

  method PutMatchLength(dest: array<byte>, token: nat, op0: nat, ml: nat) returns (op: nat)
    requires token < op0 && op0 + |LengthBytes(ml)| <= dest.Length
    requires dest[token] as int + Nibble(ml) < 256
    modifies dest
    ensures op == op0 + |LengthBytes(ml)|
    ensures dest[..op] == old(dest[..op0][token := (dest[token] as int + Nibble(ml)) as byte]) + LengthBytes(ml)
  {
    if ml >= ML_MASK {
      dest[token] := dest[token] + 15;
      op := PutMatchExtension(dest, op0, ml - ML_MASK);
    } else {
      dest[token] := dest[token] + ml as byte;
      op := op0;
    }
  }

  // ---- one block ----

  /** `out` encodes the sequences `ss`, which stand for the first `ip` bytes of the input. */
  ghost predicate Consumed(src: seq<byte>, out: seq<byte>, ss: Sequences, ip: nat) {
    && Legal(ss) && EndConditions(ss, |src|) && ip + LASTLITERALS <= |src|
    && Expand(ss) == src[..ip] && out == EncodeAll(ss)
  }

  /** Between literals and back reference: `out` ends with a literal part whose token, at `token`,
      still lacks the match length, and a match is known at `ip`. */
  ghost predicate Pending(src: seq<byte>, out: seq<byte>, ss: Sequences, literals: seq<byte>, token: nat, ip: nat,
                          match_: nat)
  {
    && Legal(ss) && EndConditions(ss, |src|) && ip + MFLIMIT <= |src|
    && Expand(ss) + literals == src[..ip]
    && token == |EncodeAll(ss)|
    && out == EncodeAll(ss) + LiteralPart((16 * Nibble(|literals|)) as byte, literals)
    && Matches(src, match_, ip, MINMATCH)
  }

  lemma {:induction false} ConsumedRoom(src: seq<byte>, out: seq<byte>, ss: Sequences, ip: nat, next: nat)
    requires Consumed(src, out, ss, ip) && ip <= next && next + MFLIMIT <= |src|
    ensures |out| + 1 + |LengthBytes(next - ip)| + (next - ip) + 8 <= CompressBound(|src|)
  {
    EncodeAllBound(ss);
    LengthBytesSize(next - ip);
  }

  lemma {:induction false} PendingRoom(src: seq<byte>, out: seq<byte>, ss: Sequences, literals: seq<byte>, token: nat,
                                       ip: nat, match_: nat)
    requires Pending(src, out, ss, literals, token, ip, match_)
    ensures |out| + 2 <= CompressBound(|src|) && token < |out| && out[token] == (16 * Nibble(|literals|)) as byte
  {
    assert |Expand(ss) + literals| == ip;
    EncodeAllBound(ss);
    LengthBytesSize(|literals|);
  }

  lemma {:induction false} LastRoom(src: seq<byte>, out: seq<byte>, ss: Sequences, ip: nat)
    requires Legal(ss) && Written(ss) == ip <= |src| && out == EncodeAll(ss)
    ensures |out| + |EncodeLast(src[ip..])| <= CompressBound(|src|)
  {
    EncodeAllBound(ss);
    LengthBytesSize(|src| - ip);
  }

  /** A verified match is a back reference that expands to the input it covers. */
  lemma {:induction false} MatchExpands(src: seq<byte>, match_: int, ip: nat, length: nat)
    requires Matches(src, match_, ip, length)
    ensures CopyBack(src[..ip], ip - match_, length) == src[..ip + length]
  {
    CopyBackUnique(src, ip, ip + length, ip - match_);
  }

  lemma {:induction false} MatchLegal(src: seq<byte>, ss: Sequences, literals: seq<byte>, ip: nat, match_: nat,
                                      length: nat)
    requires Legal(ss) && EndConditions(ss, |src|) && ip + MFLIMIT <= |src|
    requires Expand(ss) + literals == src[..ip]
    requires MINMATCH <= length && ip + length + LASTLITERALS <= |src| && Matches(src, match_, ip, length)
    ensures var ss' := Then(ss, Sequence(literals, ip - match_, length));
            Legal(ss') && EndConditions(ss', |src|) && Expand(ss') == src[..ip + length]
  {
    assert Written(ss) + |literals| == ip by {
      assert |Expand(ss) + literals| == ip;
    }
    MatchExpands(src, match_, ip, length);
  }

  lemma {:induction false} Patched<T>(before: seq<T>, x: T, y: T, a: seq<T>, b: seq<T>, c: seq<T>, d: seq<T>)
    ensures (before + ([x] + a + b) + c)[|before| := y] + d == before + (([y] + a + b) + (c + d))
  {
    var whole := (before + ([x] + a + b) + c)[|before| := y];
    assert whole[..|before|] == before && whole[|before| + 1..] == a + b + c;
    assert whole == before + [y] + (a + b + c);
  }

  /** How far a match reaches beyond its first four bytes. */
  method Measure(src: seq<byte>, match_: nat, ip: nat, ghost known: nat) returns (ml: nat)
    requires Matches(src, match_, ip, MINMATCH + known) && ip + known + MFLIMIT <= |src|
    ensures known <= ml && ip + MINMATCH + ml + LASTLITERALS <= |src|
    ensures Matches(src, match_, ip, MINMATCH + ml)
  {
    ml := Count(src, ip + MINMATCH, match_ + MINMATCH, |src| - LASTLITERALS);
  }

  /** The bytes after a literal part, once offset and match length are in. */
  ghost function Completed(out: seq<byte>, token: nat, offset: nat, ml: nat): seq<byte>
    requires token < |out| && offset <= MAX_DISTANCE && out[token] as int + Nibble(ml) < 256
  {
    (out + [Low8(offset), High8(offset) as byte])[token := (out[token] as int + Nibble(ml)) as byte] + LengthBytes(ml)
  }

  /** Completing the token and appending offset and length bytes gives the encoded sequence. */
  lemma {:induction false} CompletesSequence(before: seq<byte>, s: Sequence, out: seq<byte>, token: nat, ml: nat)
    requires 1 <= s.offset <= MAX_DISTANCE && MINMATCH + ml == s.matchLength && token == |before|
    requires out == before + LiteralPart((16 * Nibble(|s.literals|)) as byte, s.literals)
    ensures token < |out| && out[token] as int + Nibble(ml) < 256
    ensures Completed(out, token, s.offset, ml) == before + EncodeSequence(s)
  {
    var part := (16 * Nibble(|s.literals|)) as byte;
    Patched(before, part, Token(s), LengthBytes(|s.literals|), s.literals, [Low8(s.offset), High8(s.offset) as byte],
            LengthBytes(ml));
  }

  /** Offset and match length turn a pending literal part into an encoded sequence, with room. */
  lemma {:induction false} PendingDone(src: seq<byte>, out: seq<byte>, ss: Sequences, literals: seq<byte>, token: nat,
                                       ip: nat, match_: nat, ml: nat, s: Sequence)
    requires Pending(src, out, ss, literals, token, ip, match_)
    requires Matches(src, match_, ip, MINMATCH + ml) && ip + MINMATCH + ml + LASTLITERALS <= |src|
    requires s == Sequence(literals, ip - match_, MINMATCH + ml)
    ensures token < |out| && out[token] as int + Nibble(ml) < 256
    ensures Consumed(src, Completed(out, token, ip - match_, ml), Then(ss, s), ip + MINMATCH + ml)
    ensures |out| + 2 + |LengthBytes(ml)| <= CompressBound(|src|)
  {
    PendingRoom(src, out, ss, literals, token, ip, match_);
    MatchLegal(src, ss, literals, ip, match_, MINMATCH + ml);
    CompletesSequence(EncodeAll(ss), s, out, token, ml);
    ConsumedFits(src, Completed(out, token, ip - match_, ml), Then(ss, s), ip + MINMATCH + ml);
  }

  lemma {:induction false} ConsumedFits(src: seq<byte>, out: seq<byte>, ss: Sequences, ip: nat)
    requires Consumed(src, out, ss, ip)
    ensures |out| <= CompressBound(|src|)
  {
    EncodeAllBound(ss);
  }

  /** Offset and match length of one sequence; the literals are already written. */
  method EncodeMatch(dest: array<byte>, src: seq<byte>, token: nat, op0: nat, ip0: nat, match_: nat,
                     ghost ss0: Sequences, ghost literals: seq<byte>, ghost known: nat)
      returns (op: nat, ip: nat, ghost ss: Sequences)
    requires Matches(src, match_, ip0, MINMATCH + known) && ip0 + known + MFLIMIT <= |src|
    requires op0 <= dest.Length && dest.Length >= CompressBound(|src|)
    requires Pending(src, dest[..op0], ss0, literals, token, ip0, match_)
    modifies dest
    ensures op <= dest.Length && ip0 + known + MINMATCH <= ip && Consumed(src, dest[..op], ss, ip)
  {
    ghost var out := dest[..op0];
    PendingRoom(src, out, ss0, literals, token, ip0, match_);
    forall m: nat | ip0 + MINMATCH + m + LASTLITERALS <= |src| && Matches(src, match_, ip0, MINMATCH + m)
      ensures op0 + 2 + |LengthBytes(m)| <= dest.Length
    {
      PendingDone(src, out, ss0, literals, token, ip0, match_, m, Sequence(literals, ip0 - match_, MINMATCH + m));
    }
    var ml;
    op, ml := PutMatch(dest, src, token, op0, ip0, match_, known);
    ip := ip0 + MINMATCH + ml;
    ghost var s := Sequence(literals, ip0 - match_, MINMATCH + ml);
    ss := Then(ss0, s);
    PendingDone(src, out, ss0, literals, token, ip0, match_, ml, s);
  }

  method PutMatch(dest: array<byte>, src: seq<byte>, token: nat, op0: nat, ip: nat, match_: nat, ghost known: nat)
      returns (op: nat, ml: nat)
    requires Matches(src, match_, ip, MINMATCH + known) && ip + known + MFLIMIT <= |src|
    requires token < op0 && op0 + 2 <= dest.Length && dest[token] as int + ML_MASK < 256
    requires forall m: nat :: ip + MINMATCH + m + LASTLITERALS <= |src| && Matches(src, match_, ip, MINMATCH + m)
                              ==> op0 + 2 + |LengthBytes(m)| <= dest.Length
    modifies dest
    ensures known <= ml && ip + MINMATCH + ml + LASTLITERALS <= |src|
    ensures Matches(src, match_, ip, MINMATCH + ml)
    ensures op <= dest.Length && dest[..op] == Completed(old(dest[..op0]), token, ip - match_, ml)
  {
    op := PutOffset(dest, op0, ip - match_);
    assert dest[..op][token] == old(dest[..op0])[token];
    ml := Measure(src, match_, ip, known);
    op := PutMatchLength(dest, token, op, ml);
  }

  /** Files the positions around a match end and tests whether the next match starts there. */
  method ProbeNext(src: seq<byte>, table: array<nat>, slot: nat -> nat, tableType: TableType, ip: nat)
      returns (hit: bool, match_: nat)
    requires forall p :: slot(p) < table.Length
    requires 2 <= ip && ip + MFLIMIT <= |src| && Earlier(table[..], ip)
    modifies table
    ensures Earlier(table[..], ip + 1)
    ensures hit ==> Matches(src, match_, ip, MINMATCH)
  {
    PutPosition(table, slot(ip - 2), tableType, ip - 2, ip);
    match_ := table[slot(ip)];
    PutPosition(table, slot(ip), tableType, ip, ip + 1);
    hit := match_ + MAX_DISTANCE >= ip && Same(src, match_, ip, MINMATCH);
  }

  lemma {:induction false} PendingNext(src: seq<byte>, out: seq<byte>, ss: Sequences, ip: nat, match_: nat)
    requires Consumed(src, out, ss, ip) && ip + MFLIMIT <= |src| && Matches(src, match_, ip, MINMATCH)
    ensures Pending(src, out + [0], ss, [], |out|, ip, match_)
  {
    assert LiteralPart(0, []) == [0];
    assert Expand(ss) + [] == Expand(ss);
  }

  /** The `_next_match` loop: encodes the pending match and every match that follows it at once. */
  method EncodeMatches(dest: array<byte>, src: seq<byte>, table: array<nat>, slot: nat -> nat, tableType: TableType,
                       token0: nat, op0: nat, ip0: nat, match0: nat, ghost ss0: Sequences, ghost literals0: seq<byte>,
                       ghost known0: nat)
      returns (op: nat, ip: nat, more: bool, ghost ss: Sequences)
    requires forall p :: slot(p) < table.Length
    requires op0 <= dest.Length && dest.Length >= CompressBound(|src|)
    requires Pending(src, dest[..op0], ss0, literals0, token0, ip0, match0)
    requires Matches(src, match0, ip0, MINMATCH + known0) && ip0 + known0 + MFLIMIT <= |src|
    requires Earlier(table[..], ip0 + known0 + 1)
    modifies dest, table
    ensures op <= dest.Length && ip0 + known0 < ip && Consumed(src, dest[..op], ss, ip)
    ensures more ==> ip <= |src| - MFLIMIT && Earlier(table[..], ip + 1)
  {
    var token: nat, match_: nat := token0, match0;
    ghost var literals, known := literals0, known0;
    op, ip, ss := op0, ip0, ss0;
    while true
      invariant ip0 + known0 <= ip + known && op <= dest.Length && Earlier(table[..], ip + known + 1)
      invariant Matches(src, match_, ip, MINMATCH + known) && ip + known + MFLIMIT <= |src|
      invariant Pending(src, dest[..op], ss, literals, token, ip, match_)
      decreases |src| - ip
    {
      op, ip, ss := EncodeMatch(dest, src, token, op, ip, match_, ss, literals, known);
      if ip > |src| - MFLIMIT {
        return op, ip, false, ss;
      }
      var hit;
      hit, match_ := ProbeNext(src, table, slot, tableType, ip);
      if !hit {
        return op, ip, true, ss;
      }
      ConsumedRoom(src, dest[..op], ss, ip, ip);
      PendingNext(src, dest[..op], ss, ip, match_);
      token, literals, known := op, [], 0;
      dest[op] := 0;
      op := op + 1;
      assert dest[..op] == dest[..op - 1] + [0];
    }
  }

  lemma {:induction false} PrefixGrows(src: seq<byte>, out: seq<byte>, from: nat, to: nat)
    requires from <= to <= |src| && out == src[..from]
    ensures out + src[from..to] == src[..to]
  {
  }

  /** Encodes the literals up to a match found at `start`, that match, and those right behind it. */
  method EncodeFound(dest: array<byte>, src: seq<byte>, table: array<nat>, slot: nat -> nat, tableType: TableType,
                     op0: nat, anchor0: nat, start: nat, match0: nat, ghost ss0: Sequences)
      returns (op: nat, anchor: nat, more: bool, ghost ss: Sequences)
    requires forall p :: slot(p) < table.Length
    requires op0 <= dest.Length && dest.Length >= CompressBound(|src|)
    requires Consumed(src, dest[..op0], ss0, anchor0)
    requires anchor0 <= start && start + MFLIMIT <= |src| && Matches(src, match0, start, MINMATCH)
    requires Earlier(table[..], start + 1)
    modifies dest, table
    ensures op <= dest.Length && start < anchor && Consumed(src, dest[..op], ss, anchor)
    ensures more ==> anchor <= |src| - MFLIMIT && Earlier(table[..], anchor + 1)
  {
    var ip, match_ := CatchUp(src, anchor0, start, match0);
    ConsumedRoom(src, dest[..op0], ss0, anchor0, ip);
    op := PutLiterals(dest, op0, src, anchor0, ip);
    PrefixGrows(src, Expand(ss0), anchor0, ip);
    op, anchor, more, ss :=
      EncodeMatches(dest, src, table, slot, tableType, op0, op, ip, match_, ss0, src[anchor0..ip], start - ip);
  }

  /** The main loop over an input long enough to hold a match. */
  method EncodeSequences(dest: array<byte>, src: seq<byte>, table: array<nat>, slot: nat -> nat, tableType: TableType,
                         acceleration: nat)
      returns (op: nat, anchor: nat, ghost ss: Sequences)
    requires forall p :: slot(p) < table.Length
    requires LZ4_MINLENGTH <= |src| && dest.Length >= CompressBound(|src|) && 1 <= acceleration
    requires tableType.ByU16? ==> |src| < LZ4_64KLIMIT
    requires Earlier(table[..], 1)
    modifies dest, table
    ensures op <= dest.Length && Consumed(src, dest[..op], ss, anchor)
  {
    op, anchor, ss := 0, 0, Start;
    PutPosition(table, slot(0), tableType, 0, 1);
    var ip, more := 1, true;
    while more
      invariant op <= dest.Length && Consumed(src, dest[..op], ss, anchor)
      invariant more ==> anchor <= ip && 1 <= ip <= |src| - MFLIMIT + 1 && Earlier(table[..], ip)
      decreases more, |src| - ip
    {
      var found, start, match_ := FindMatch(src, table, slot, tableType, ip, |src| - MFLIMIT, acceleration);
      if !found {
        return;
      }
      op, anchor, more, ss := EncodeFound(dest, src, table, slot, tableType, op, anchor, start, match_, ss);
      ip := anchor + 1;
    }
  }

  /** Inputs the compressor turns down. */
  predicate Refused(inputSize: nat, tableType: TableType) {
    inputSize > LZ4_MAX_INPUT_SIZE || (tableType.ByU16? && inputSize >= LZ4_64KLIMIT)
  }

  /** Compresses `src` into `dest`. The block that results is legal (so every offset is in
      1..65535), fits the advertised bound even with the bytes the eight-byte copies spill, and
      decodes back to `src`, fully and partially. */
  method Compress(dest: array<byte>, src: seq<byte>, table: array<nat>, slot: nat -> nat, tableType: TableType,
                  acceleration: nat)
      returns (r: nat, ghost ss: Sequences, ghost last: seq<byte>)
    requires forall p :: slot(p) < table.Length
    requires dest.Length >= CompressBound(|src|) && 1 <= acceleration
    requires Earlier(table[..], 1)
    modifies dest, table
    ensures Refused(|src|, tableType) ==> r == 0
    ensures !Refused(|src|, tableType) ==>
              && 1 <= r <= CompressBound(|src|)
              && Legal(ss) && EndConditions(ss, |src|) && Expand(ss) + last == src
              && dest[..r] == EncodeBlock(ss, last)
              && Lz4Decode.TokenReadable(dest[..r], 0)
              && forall partially :: Lz4Decode.DecodeBlock(dest[..r], |src|, partially, |src|) == Lz4Decode.Done(src)
  {
    r, ss, last := 0, Start, [];
    if Refused(|src|, tableType) {
      return;
    }
    var anchor := 0;
    if |src| >= LZ4_MINLENGTH {
      r, anchor, ss := EncodeSequences(dest, src, table, slot, tableType, acceleration);
    }
    LastRoom(src, dest[..r], ss, anchor);
    r := PutLastLiterals(dest, r, src, anchor);
    last := src[anchor..];
    BlockDecodes(src, dest[..r], ss, last);
  }

  lemma {:induction false} BlockDecodes(src: seq<byte>, out: seq<byte>, ss: Sequences, last: seq<byte>)
    requires Legal(ss) && EndConditions(ss, |src|) && Expand(ss) + last == src && out == EncodeBlock(ss, last)
    ensures 1 <= |out| <= CompressBound(|src|)
    ensures Lz4Decode.TokenReadable(out, 0)
    ensures forall partially :: Lz4Decode.DecodeBlock(out, |src|, partially, |src|) == Lz4Decode.Done(src)
  {
    BlockBound(ss, last);
    assert |src| == Written(ss) + |last| by {
      assert |Expand(ss) + last| == |src|;
    }
    Lz4Decode.RoundTrip(ss, last, |src|, |src|, true);
    Lz4Decode.RoundTrip(ss, last, |src|, |src|, false);
  }
}
