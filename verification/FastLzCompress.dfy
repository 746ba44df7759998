/** FASTLZ_COMPRESSOR at both levels: literal runs with back-patched counts, whatever earlier
    positions the hash table yields. */
module FastLzCompress {
  import opened Bytes
  import opened FastLzFormat
  import opened Memory
  import FastLzDecode

  /** What an encoder may write to for `n` bytes of input. */
  predicate Roomy(n: nat, room: nat) {
    n + 1 + n / 32 <= room
  }

  /** Finished operations stand for the input before `ip - copy`, and are followed by a control byte
      that still says MAX_COPY and by `copy` literals. */
  ghost predicate Open(level: Level, src: seq<byte>, out: seq<byte>, done: Ops, copy: nat, ip: nat) {
    && Legal(level, done) && Tight(done) && !EndsShort(done)
    && copy < MAX_COPY && Written(done) + copy == ip <= |src|
    && (done.Start? ==> 1 <= copy)
    && Expand(level, done) == src[..ip - copy]
    && out == EncodeAll(level, done, 0) + [31] + src[ip - copy..ip]
  }

  /** Finished operations only. */
  ghost predicate Closed(level: Level, src: seq<byte>, out: seq<byte>, done: Ops, ip: nat) {
    && Legal(level, done) && Tight(done) && done.Then? && Written(done) == ip <= |src|
    && Expand(level, done) == src[..ip] && out == EncodeAll(level, done, 0)
  }

  lemma {:induction false} OpenRoom(level: Level, src: seq<byte>, out: seq<byte>, done: Ops, copy: nat, ip: nat)
    requires Open(level, src, out, done, copy, ip)
    ensures |out| <= ip + ip / 32 + 1
  {
    SizeBound(level, done, 0);
  }

  lemma {:induction false} ClosedRoom(level: Level, src: seq<byte>, out: seq<byte>, done: Ops, ip: nat)
    requires Closed(level, src, out, done, ip) && !EndsShort(done)
    ensures |out| <= ip + ip / 32
  {
    SizeBound(level, done, 0);
  }

  // ---- literals ----

  /** The operations after a run is closed. */
  ghost function WithRun(done: Ops, literals: seq<byte>): Ops {
    if literals == [] then done else Then(done, Literals(literals))
  }

  lemma {:induction false} EmptyRunCloses(level: Level, src: seq<byte>, out: seq<byte>, done: Ops, ip: nat)
    requires Open(level, src, out, done, 0, ip)
    ensures Closed(level, src, out[..|out| - 1], done, ip)
  {
    assert out[..|out| - 1] == EncodeAll(level, done, 0);
  }

  lemma {:induction false} RunCloses(level: Level, src: seq<byte>, out: seq<byte>, done: Ops, copy: nat, ip: nat,
                                     run: seq<byte>, patched: seq<byte>)
    requires Open(level, src, out, done, copy, ip) && copy > 0 && run == src[ip - copy..ip]
    requires patched == out[|out| - copy - 1 := (copy - 1) as byte]
    ensures Closed(level, src, patched, Then(done, Literals(run)), ip)
  {
    PatchesRun(EncodeAll(level, done, 0), run, 31, (copy - 1) as byte);
    assert src[..ip - copy] + run == src[..ip];
  }

  lemma {:induction false} PatchesRun(head: seq<byte>, run: seq<byte>, old_: byte, count: byte)
    ensures (head + [old_] + run)[|head| := count] == head + ([count] + run)
  {
  }

  lemma {:induction false} LiteralOpens(level: Level, src: seq<byte>, out: seq<byte>, done: Ops, copy: nat, ip: nat)
    requires Open(level, src, out, done, copy, ip) && ip < |src| && copy + 1 < MAX_COPY
    ensures Open(level, src, out + [src[ip]], done, copy + 1, ip + 1)
  {
    SliceSnoc(src, ip - copy, ip);
  }

  lemma {:induction false} RunFills(level: Level, src: seq<byte>, out: seq<byte>, done: Ops, copy: nat, ip: nat,
                                    run: seq<byte>)
    requires Open(level, src, out, done, copy, ip) && ip < |src| && copy + 1 == MAX_COPY
             && run == src[ip - copy..ip + 1]
    ensures Closed(level, src, out + [src[ip]], Then(done, Literals(run)), ip + 1)
  {
    SliceSnoc(src, ip - copy, ip);
    RunAppends(EncodeAll(level, done, 0), src[ip - copy..ip], src[ip], run);
    FullRunCloses(level, src, done, ip - copy, ip + 1, run);
  }

  lemma {:induction false} FullRunCloses(level: Level, src: seq<byte>, done: Ops, start: nat, ip: nat, run: seq<byte>)
    requires Legal(level, done) && Tight(done) && !EndsShort(done)
    requires ip == start + MAX_COPY <= |src| && Expand(level, done) == src[..start] && run == src[start..ip]
    ensures Closed(level, src, EncodeAll(level, done, 0) + EncodeLiterals(run, 0), Then(done, Literals(run)), ip)
  {
    assert src[..start] + run == src[..ip];
  }

  lemma {:induction false} RunAppends(head: seq<byte>, run: seq<byte>, b: byte, longer: seq<byte>)
    requires longer == run + [b] && |longer| == MAX_COPY
    ensures (head + [31] + run) + [b] == head + EncodeLiterals(longer, 0)
  {
  }

  lemma {:induction false} OpensAfter(level: Level, src: seq<byte>, out: seq<byte>, done: Ops, ip: nat)
    requires Closed(level, src, out, done, ip) && !EndsShort(done)
    ensures Open(level, src, out + [31], done, 0, ip)
  {
    assert src[ip..ip] == [];
  }

  method Put(dest: array<byte>, op0: nat, b: byte) returns (op: nat)
    requires op0 < dest.Length
    modifies dest
    ensures op == op0 + 1 && dest[..op] == old(dest[..op0]) + [b]
  {
    dest[op0] := b;
    op := op0 + 1;
  }

  /** Opens the next run with a control byte that counts to the maximum. */
  method OpenRun(level: Level, dest: array<byte>, src: seq<byte>, op0: nat, ip: nat, ghost done: Ops) returns (op: nat)
    requires op0 <= dest.Length && Roomy(|src|, dest.Length)
    requires Closed(level, src, dest[..op0], done, ip) && !EndsShort(done)
    modifies dest
    ensures op <= dest.Length && Open(level, src, dest[..op], done, 0, ip)
  {
    ghost var out := dest[..op0];
    ClosedRoom(level, src, out, done, ip);
    OpensAfter(level, src, out, done, ip);
    op := Put(dest, op0, MAX_COPY as byte - 1);
  }

  /** Copies one literal; a run that reaches MAX_COPY is finished and the next one opened. */
  method PutLiteral(level: Level, dest: array<byte>, src: seq<byte>, op0: nat, copy0: nat, ip: nat, ghost done0: Ops)
      returns (op: nat, copy: nat, ghost done: Ops)
    requires op0 <= dest.Length && Roomy(|src|, dest.Length) && ip < |src|
    requires Open(level, src, dest[..op0], done0, copy0, ip)
    modifies dest
    ensures op <= dest.Length && Open(level, src, dest[..op], done, copy, ip + 1)
  {
    ghost var out := dest[..op0];
    OpenRoom(level, src, out, done0, copy0, ip);
    op, copy, done := op0, copy0, done0;
    op := Put(dest, op, src[ip]);
    copy := copy + 1;
    if copy == MAX_COPY {
      RunFills(level, src, out, done0, copy0, ip, src[ip - copy0..ip + 1]);
      done := Then(done0, Literals(src[ip - copy0..ip + 1]));
      op := OpenRun(level, dest, src, op, ip + 1, done);
      copy := 0;
    } else {
      LiteralOpens(level, src, out, done0, copy0, ip);
    }
  }

  /** Patches the count into the control byte of the open run, or drops an empty run. */
  method CloseRun(level: Level, dest: array<byte>, src: seq<byte>, op0: nat, copy: nat, ip: nat, ghost done0: Ops)
      returns (op: nat, ghost done: Ops)
    requires op0 <= dest.Length && Open(level, src, dest[..op0], done0, copy, ip)
    modifies dest
    ensures op <= op0 && Closed(level, src, dest[..op], done, ip)
    ensures done == WithRun(done0, src[ip - copy..ip])
  {
    ghost var out := dest[..op0];
    op, done := op0, WithRun(done0, src[ip - copy..ip]);
    if copy > 0 {
      dest[op - copy - 1] := (copy - 1) as byte;
      assert dest[..op] == out[op - copy - 1 := (copy - 1) as byte];
      RunCloses(level, src, out, done0, copy, ip, src[ip - copy..ip], dest[..op]);
    } else {
      op := op - 1;
      assert dest[..op] == out[..op];
      EmptyRunCloses(level, src, out, done0, ip);
    }
  }

  // ---- matches ----

  /** What the match finder guarantees: reach, and five bytes for a far match. */
  predicate Encodable(level: Level, written: nat, distance: nat, length: nat) {
    && 1 <= distance <= written && 3 <= length
    && (if level == 1 then distance < MaxDistance(1)
        else distance < MAX_FARDISTANCE && (distance > MaxDistance(2) ==> 5 <= length))
  }

  lemma {:induction false} OpCloses(level: Level, src: seq<byte>, out: seq<byte>, done: Ops, ip: nat, op: Op, to: nat)
    requires Closed(level, src, out, done, ip) && op.Match? && LegalOp(level, ip, op)
    requires to == ip + op.length <= |src| && src[..to] == CopyBack(src[..ip], op.distance, op.length)
    ensures Closed(level, src, out + EncodeMatch(level, op.distance, op.length), Then(done, op), to)
  {
  }

  lemma {:induction false} MatchCloses(level: Level, src: seq<byte>, out: seq<byte>, done: Ops, ip: nat, distance: nat,
                                       length: nat)
    requires Closed(level, src, out, done, ip) && Repeats(src, ip, ip + length, distance)
    requires LegalOp(level, ip, Match(distance, length))
    ensures Closed(level, src, out + EncodeMatch(level, distance, length), Then(done, Match(distance, length)),
                   ip + length)
  {
    CopyBackUnique(src, ip, ip + length, distance);
    OpCloses(level, src, out, done, ip, Match(distance, length), ip + length);
  }

  lemma {:induction false} MatchRoom(level: Level, src: seq<byte>, out: seq<byte>, done: Ops, ip: nat, distance: nat,
                                     length: nat)
    requires Closed(level, src, out, done, ip) && Repeats(src, ip, ip + length, distance)
    requires LegalOp(level, ip, Match(distance, length))
    ensures |out| + |EncodeMatch(level, distance, length)| <= ip + length + (ip + length) / 32
  {
    MatchCloses(level, src, out, done, ip, distance, length);
    SizeBound(level, Then(done, Match(distance, length)), 0);
  }

  method PutLength(level: Level, dest: array<byte>, op0: nat, len: nat, low: nat) returns (op: nat)
    requires 1 <= len && low < 32 && (level == 1 ==> len <= MAX_LEN - 2)
    requires op0 + |LengthPart(level, len, low)| <= dest.Length
    modifies dest
    ensures op == op0 + |LengthPart(level, len, low)|
    ensures dest[..op] == old(dest[..op0]) + LengthPart(level, len, low)
  {
    if len < 7 {
      dest[op0] := Control(len, low);
      op := op0 + 1;
    } else {
      dest[op0] := Control(7, low);
      if level == 1 {
        dest[op0 + 1] := (len - 7) as byte;
        op := op0 + 2;
      } else {
        op := PutExtension(dest, op0 + 1, len - 7);
        assert dest[..op] == old(dest[..op0]) + ([Control(7, low)] + Extension(len - 7));
      }
    }
  }

  /** One match code, near or far. */
  method PutMatch(level: Level, dest: array<byte>, op0: nat, distance: nat, length: nat) returns (op: nat)
    requires LegalOp(level, distance, Match(distance, length))
    requires op0 + |EncodeMatch(level, distance, length)| <= dest.Length
    modifies dest
    ensures op == op0 + |EncodeMatch(level, distance, length)|
    ensures dest[..op] == old(dest[..op0]) + EncodeMatch(level, distance, length)
  {
    var biased := distance - 1;
    if biased < MaxDistance(level) {
      op := PutLength(level, dest, op0, length - 2, High8(biased));
      op := Put(dest, op, Low8(biased));
    } else {
      op := PutLength(level, dest, op0, length - 2, 31);
      op := PutFar(dest, op, distance);
    }
  }

  /** The escape for a far match: the rest of the distance, high byte first. */
  method PutFar(dest: array<byte>, op0: nat, distance: nat) returns (op: nat)
    requires MaxDistance(2) < distance < MAX_FARDISTANCE && op0 + |FarBytes(distance)| <= dest.Length
    modifies dest
    ensures op == op0 + |FarBytes(distance)| && dest[..op] == old(dest[..op0]) + FarBytes(distance)
  {
    var biased := distance - 1 - MaxDistance(2);
    op := Put(dest, op0, 255);
    op := Put(dest, op, High8(biased) as byte);
    op := Put(dest, op, Low8(biased));
  }

  /** A whole match, at level 1 in as many pieces as it takes. */
  method PutMatches(level: Level, dest: array<byte>, src: seq<byte>, op0: nat, ip0: nat, distance: nat, length0: nat,
                    ghost done0: Ops)
      returns (op: nat, ghost done: Ops)
    requires op0 <= dest.Length && Roomy(|src|, dest.Length)
    requires Closed(level, src, dest[..op0], done0, ip0)
    requires Repeats(src, ip0, ip0 + length0, distance) && Encodable(level, ip0, distance, length0)
    modifies dest
    ensures op <= dest.Length && Closed(level, src, dest[..op], done, ip0 + length0) && !EndsShort(done)
  {
    var length, ip := length0, ip0;
    op, done := op0, done0;
    while level == 1 && length > MAX_LEN
      invariant op <= dest.Length && ip + length == ip0 + length0 && ip0 <= ip && 3 <= length
      invariant level == 2 ==> length == length0
      invariant Closed(level, src, dest[..op], done, ip)
      decreases length
    {
      ghost var out := dest[..op];
      MatchCloses(level, src, out, done, ip, distance, MAX_LEN - 2);
      MatchRoom(level, src, out, done, ip, distance, MAX_LEN - 2);
      op := PutMatch(level, dest, op, distance, MAX_LEN - 2);
      done := Then(done, Match(distance, MAX_LEN - 2));
      length, ip := length - (MAX_LEN - 2), ip + (MAX_LEN - 2);
    }
    ghost var out := dest[..op];
    MatchCloses(level, src, out, done, ip, distance, length);
    MatchRoom(level, src, out, done, ip, distance, length);
    op := PutMatch(level, dest, op, distance, length);
    done := Then(done, Match(distance, length));
  }

  // ---- finding matches ----

  /** A match of at least `len` bytes at `ip`: a run, or whatever earlier position the table cell of
      `ip` names, if the bytes there agree and it is not too far. */
  method FindMatch(level: Level, src: seq<byte>, table: array<nat>, slot: nat -> nat, ip: nat)
      returns (found: bool, distance: nat, len: nat)
    requires forall p :: slot(p) < table.Length
    requires 1 <= ip && ip + 12 < |src| && Earlier(table[..], ip)
    modifies table
    ensures Earlier(table[..], ip + 1)
    ensures found ==> 3 <= len <= 5 && Encodable(level, ip, distance, len) && Repeats(src, ip, ip + len, distance)
  {
    len := 3;
    if level == 2 && src[ip] == src[ip - 1] && src[ip - 1] == src[ip + 1] && src[ip] == src[ip + 2] {
      return true, 1, len;
    }
    var ref := table[slot(ip)];
    distance := ip - ref;
    table[slot(ip)] := ip;
    if distance == 0 || distance >= (if level == 1 then MaxDistance(1) else MAX_FARDISTANCE)
       || src[ref] != src[ip] || src[ref + 1] != src[ip + 1] || src[ref + 2] != src[ip + 2] {
      return false, distance, len;
    }
    if level == 2 && distance >= MaxDistance(2) {
      if src[ref + 3] != src[ip + 3] || src[ref + 4] != src[ip + 4] {
        return false, distance, len;
      }
      len := 5;
    }
    return true, distance, len;
  }

  /** Advances past the match, one byte beyond the last byte known to belong to it. */
  method ExtendRun(src: seq<byte>, ip0: nat, bound: nat) returns (ip: nat)
    requires 1 <= ip0 < bound <= |src|
    ensures ip0 < ip <= bound && Repeats(src, ip0, ip - 1, 1)
  {
    ip := ip0;
    var x := src[ip0 - 1];
    while ip < bound
      invariant ip0 <= ip <= bound
      invariant forall k :: ip0 - 1 <= k < ip - 1 ==> src[k] == x
    {
      if src[ip - 1] != x { break; }
      ip := ip + 1;
    }
  }

  method ExtendMatch(src: seq<byte>, ip0: nat, distance: nat, bound: nat) returns (ip: nat)
    requires 1 <= distance <= ip0 && ip0 + 8 <= |src| && bound <= |src|
    ensures ip0 < ip <= |src| && Repeats(src, ip0, ip - 1, distance)
  {
    ip := ip0;
    while ip < ip0 + 8
      invariant ip0 <= ip <= ip0 + 8 && Repeats(src, ip0, ip, distance)
    {
      ip := ip + 1;
      if src[ip - 1] != src[ip - 1 - distance] { return; }
    }
    while ip < bound
      invariant ip0 + 8 <= ip <= |src| && Repeats(src, ip0, ip, distance)
    {
      ip := ip + 1;
      if src[ip - 1] != src[ip - 1 - distance] { return; }
    }
  }

  // ---- one block ----

  /** Encodes a match found at `ip0`, with the open run before it and an empty run after it. */
  method EncodeFound(level: Level, dest: array<byte>, src: seq<byte>, op0: nat, copy: nat, ip0: nat,
                     distance: nat, len: nat, ghost done0: Ops)
      returns (op: nat, ip: nat, ghost done: Ops)
    requires op0 <= dest.Length && Roomy(|src|, dest.Length) && ip0 + 12 < |src|
    requires Open(level, src, dest[..op0], done0, copy, ip0)
    requires 3 <= len <= 5 && Encodable(level, ip0, distance, len) && Repeats(src, ip0, ip0 + len, distance)
    modifies dest
    ensures op <= dest.Length && ip0 + 3 <= ip && Open(level, src, dest[..op], done, 0, ip)
  {
    ip := ip0 + len;
    if distance == 1 {
      ip := ExtendRun(src, ip, |src| - 2);
    } else {
      ip := ExtendMatch(src, ip, distance, |src| - 2);
    }
    op, done := CloseRun(level, dest, src, op0, copy, ip0, done0);
    ip := ip - 1;
    op, done := PutMatches(level, dest, src, op, ip0, distance, ip - ip0, done);
    op := OpenRun(level, dest, src, op, ip, done);
  }

  /** The main loop: everything but the last bytes, which are copied as literals. */
  method EncodeMain(level: Level, dest: array<byte>, src: seq<byte>, table: array<nat>, slot: nat -> nat)
      returns (op: nat, copy: nat, ip: nat, ghost done: Ops)
    requires forall p :: slot(p) < table.Length
    requires 4 <= |src| && Roomy(|src|, dest.Length)
    modifies dest, table
    ensures op <= dest.Length && Open(level, src, dest[..op], done, copy, ip)
  {
    forall h | 0 <= h < table.Length {
      table[h] := 0;
    }
    dest[0] := MAX_COPY as byte - 1;
    dest[1] := src[0];
    dest[2] := src[1];
    op, copy, ip, done := 3, 2, 2, Start;
    assert dest[..op] == [] + [31] + src[0..2];
    while ip + 12 < |src|
      invariant 2 <= ip && op <= dest.Length && Earlier(table[..], ip)
      invariant Open(level, src, dest[..op], done, copy, ip)
    {
      var found, distance, len := FindMatch(level, src, table, slot, ip);
      if found {
        op, ip, done := EncodeFound(level, dest, src, op, copy, ip, distance, len, done);
        copy := 0;
        table[slot(ip - 2)] := ip - 2;
        table[slot(ip - 1)] := ip - 1;
      } else {
        op, copy, done := PutLiteral(level, dest, src, op, copy, ip, done);
        ip := ip + 1;
      }
    }
  }

  /** Adding the marker to the first byte of the stream is encoding with the marker. */
  lemma {:induction false} Marks(level: Level, ops: Ops)
    requires Legal(level, ops) && ops.Then?
    ensures var out := EncodeAll(level, ops, 0);
            |out| > 0 && out[0] < 32 && EncodeAll(level, ops, Marker(level)) == Marked(out, Marker(level))
  {
    var before, op := ops.before, ops.op;
    if before.Start? {
      MarksFirst(op.bytes, Marker(level));
      assert forall m | m <= 32 :: EncodeAll(level, ops, m) == EncodeLiterals(op.bytes, m);
    } else {
      Marks(level, before);
      MarksJoin(EncodeAll(level, before, 0), EncodeOp(level, Written(before), op, 0), Marker(level));
    }
  }

  function Marked(out: seq<byte>, marker: nat): seq<byte>
    requires |out| > 0 && out[0] < 32 && marker <= 32
  {
    out[0 := out[0] + marker as byte]
  }

  lemma {:induction false} MarksFirst(bytes: seq<byte>, marker: nat)
    requires 1 <= |bytes| <= MAX_COPY && marker <= 32
    ensures EncodeLiterals(bytes, marker) == Marked(EncodeLiterals(bytes, 0), marker)
  {
  }

  lemma {:induction false} MarksJoin(out: seq<byte>, more: seq<byte>, marker: nat)
    requires |out| > 0 && out[0] < 32 && marker <= 32
    ensures Marked(out, marker) + more == Marked(out + more, marker)
  {
  }

  /** The level that names an input: too short an input is written as level 1. */
  function Effective(level: Level, n: nat): Level {
    if n < 4 then 1 else level
  }

  /** The stream `out` stands for `src` as `ops`, decodes back to it in any buffer that can hold it,
      and is at most one byte in 32 longer. */
  ghost predicate Compressed(level: Level, src: seq<byte>, out: seq<byte>, ops: Ops) {
    && Legal(level, ops) && ops.Then? && Expand(level, ops) == src
    && out == EncodeAll(level, ops, Marker(level)) && 1 <= |out| <= |src| + (|src| + 31) / 32
    && forall maxout :: |src| <= maxout ==> FastLzDecode.Decode(out, maxout) == FastLzDecode.Done(src)
  }

  method CompressShort(dest: array<byte>, src: seq<byte>) returns (r: nat, ghost ops: Ops)
    requires 1 <= |src| < 4 && Roomy(|src|, dest.Length)
    modifies dest
    ensures r <= dest.Length && Compressed(1, src, dest[..r], ops)
  {
    dest[0] := (|src| - 1) as byte;
    Copy(dest, 1, src, 0, |src|);
    r, ops := |src| + 1, Then(Start, Literals(src));
    assert dest[..r] == EncodeLiterals(src, 0) == EncodeAll(1, ops, 0);
    Decodes(1, src, dest[..r], ops);
  }

  method CompressLong(level: Level, dest: array<byte>, src: seq<byte>, table: array<nat>, slot: nat -> nat)
      returns (r: nat, ghost ops: Ops)
    requires forall p :: slot(p) < table.Length
    requires 4 <= |src| && Roomy(|src|, dest.Length)
    modifies dest, table
    ensures r <= dest.Length && Closed(level, src, dest[..r], ops, |src|)
  {
    var copy, ip;
    r, copy, ip, ops := EncodeMain(level, dest, src, table, slot);
    while ip < |src|
      invariant r <= dest.Length && Open(level, src, dest[..r], ops, copy, ip)
      decreases |src| - ip
    {
      r, copy, ops := PutLiteral(level, dest, src, r, copy, ip, ops);
      ip := ip + 1;
    }
    r, ops := CloseRun(level, dest, src, r, copy, ip, ops);
  }

  /** Marks the level in the first byte. */
  method MarkLevel(level: Level, dest: array<byte>, src: seq<byte>, r: nat, ghost ops: Ops)
    requires r <= dest.Length && Closed(level, src, dest[..r], ops, |src|)
    modifies dest
    ensures Compressed(level, src, dest[..r], ops)
  {
    ghost var out := dest[..r];
    Marks(level, ops);
    dest[0] := dest[0] + Marker(level) as byte;
    assert dest[..r] == Marked(out, Marker(level));
    assert src[..|src|] == src;
    Decodes(level, src, dest[..r], ops);
  }

  /** FASTLZ_COMPRESSOR, for every input, level and hash function. */
  method CompressLevel(level: Level, dest: array<byte>, src: seq<byte>, table: array<nat>, slot: nat -> nat)
      returns (r: nat, ghost ops: Ops)
    requires forall p :: slot(p) < table.Length
    requires Roomy(|src|, dest.Length)
    modifies dest, table
    ensures r <= dest.Length
    ensures src == [] ==> r == 0
    ensures src != [] ==> Compressed(Effective(level, |src|), src, dest[..r], ops)
  {
    r, ops := 0, Start;
    if src == [] {
      return;
    }
    if |src| < 4 {
      r, ops := CompressShort(dest, src);
    } else {
      r, ops := CompressLong(level, dest, src, table, slot);
      MarkLevel(level, dest, src, r, ops);
    }
  }

  /** fastlz_compress: level 1 for short inputs, level 2 for the rest. */
  method Compress(dest: array<byte>, src: seq<byte>, table: array<nat>, slot: nat -> nat)
      returns (r: nat, ghost ops: Ops)
    requires forall p :: slot(p) < table.Length
    requires Roomy(|src|, dest.Length)
    modifies dest, table
    ensures r <= dest.Length
    ensures src == [] ==> r == 0
    ensures src != [] ==> Compressed(if |src| < 65536 then 1 else 2, src, dest[..r], ops)
  {
    r, ops := CompressLevel(if |src| < 65536 then 1 else 2, dest, src, table, slot);
  }

  lemma {:induction false} Decodes(level: Level, src: seq<byte>, out: seq<byte>, ops: Ops)
    requires Legal(level, ops) && Tight(ops) && ops.Then? && Expand(level, ops) == src
    requires out == EncodeAll(level, ops, Marker(level))
    ensures 1 <= |out| <= |src| + (|src| + 31) / 32
    ensures forall maxout :: |src| <= maxout ==> FastLzDecode.Decode(out, maxout) == FastLzDecode.Done(src)
  {
    WorstCase(level, ops);
    FastLzDecode.RoundTrip(level, ops, |src|);
    forall maxout | |src| <= maxout
      ensures FastLzDecode.Decode(out, maxout) == FastLzDecode.Done(src)
    {
      FastLzDecode.RoundTrip(level, ops, maxout);
    }
  }
}
