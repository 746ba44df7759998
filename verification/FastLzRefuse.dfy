/** What the FastLZ decoder does with a stream that does not fit the buffer or is cut short. */
module FastLzRefuse {
  import opened Bytes
  import opened FastLzFormat
  import opened FastLzDecode

  /** The operation after `pos` bytes stops the decoding. */
  lemma {:induction false} ResumeStops(level: Level, src: seq<byte>, pos: nat, out: seq<byte>, maxout: nat,
                                       outcome: Outcome)
    requires pos < |src| && Turn(level, src, pos + 1, src[pos] as nat, out, maxout) == Stop(outcome)
    ensures Resume(level, src, pos, out, maxout) == outcome
  {
  }

  // ---- streams that do not fit ----

  lemma {:induction false} OpTooLong(level: Level, src: seq<byte>, at: nat, out: seq<byte>, op: Op, maxout: nat)
    requires LegalOp(level, |out|, op) && At(src, at, EncodeOp(level, |out|, op, 0)) && |out| + Size(op) > maxout
    ensures at < |src| && Turn(level, src, at + 1, src[at] as nat, out, maxout) == Stop(Rejected(out))
  {
    match op
    case Literals(bytes) =>
      AtPlace(src, at, EncodeLiterals(bytes, 0), 0);
    case Match(distance, length) =>
      var ip1 := ReadsMatch(level, src, at, distance, length, at + |EncodeMatch(level, distance, length)|);
  }

  /** A stream that stands for more than the buffer holds is rejected. */
  lemma {:induction false} TooLong(level: Level, src: seq<byte>, ops: Ops, maxout: nat)
    requires Legal(level, ops) && ops.Then? && Written(ops) > maxout && At(src, 0, EncodeAll(level, ops, Marker(level)))
    ensures src != [] && Decode(src, maxout).Rejected?
  {
    var before, op := ops.before, ops.op;
    if before.Start? {
      FirstIs(level, src, op.bytes, ops);
    } else {
      var head := EncodeAll(level, before, Marker(level));
      AtSplit(src, 0, head, EncodeOp(level, Written(before), op, 0));
      if Written(before) > maxout {
        TooLong(level, src, before, maxout);
      } else {
        TooLongAfter(level, src, before, op, |head|, maxout, Expand(level, before));
      }
    }
  }

  lemma {:induction false} TooLongAfter(level: Level, src: seq<byte>, before: Ops, op: Op, at: nat, maxout: nat,
                                        out: seq<byte>)
    requires Legal(level, Then(before, op)) && before.Then? && out == Expand(level, before)
    requires |out| <= maxout < |out| + Size(op) && At(src, 0, EncodeAll(level, before, Marker(level)))
    requires at == |EncodeAll(level, before, Marker(level))| && At(src, at, EncodeOp(level, |out|, op, 0))
    ensures src != [] && Decode(src, maxout).Rejected?
  {
    TakesPrefix(level, src, before, maxout, at);
    OpTooLong(level, src, at, out, op, maxout);
    ResumeStops(level, src, at, out, maxout, Rejected(out));
  }

  lemma {:induction false} FirstIs(level: Level, src: seq<byte>, bytes: seq<byte>, ops: Ops)
    requires ops == Then(Start, Literals(bytes)) && Legal(level, ops) && src != []
    requires EncodeAll(level, ops, Marker(level))[0] == src[0]
    ensures High5(src[0] as nat) + 1 == level && Low5(src[0] as nat) == |bytes| - 1
    ensures |EncodeAll(level, ops, Marker(level))| == 1 + |bytes|
  {
    assert EncodeAll(level, ops, Marker(level)) == EncodeLiterals(bytes, Marker(level));
    ReadsControl(level - 1, |bytes| - 1);
  }

  // ---- streams cut short ----

  lemma {:induction false} CutParts(src: seq<byte>, at: nat, a: seq<byte>, b: seq<byte>)
    requires at <= |src| < at + |a| + |b| && src[at..] == (a + b)[..|src| - at]
    ensures |src| < at + |a| ==> src[at..] == a[..|src| - at]
    ensures |src| >= at + |a| ==> At(src, at, a) && src[at + |a|..] == b[..|src| - at - |a|]
  {
    if |src| >= at + |a| {
      assert src[at..][..|a|] == a;
      forall k | 0 <= k < |src| - at - |a|
        ensures src[at + |a|..][k] == b[k]
      {
        assert src[at..][|a| + k] == (a + b)[|a| + k];
      }
    }
  }

  lemma {:induction false} CutExtension(src: seq<byte>, ip: nat, v: nat, acc: nat)
    requires ip <= |src| < ip + |Extension(v)| && src[ip..] == Extension(v)[..|src| - ip]
    ensures ReadExtension(src, ip, acc).Missing?
    decreases v
  {
    if ip < |src| {
      assert src[ip] == Extension(v)[0];
      if v >= 255 {
        assert src[ip + 1..] == Extension(v - 255)[..|src| - (ip + 1)];
        CutExtension(src, ip + 1, v - 255, acc + 255);
      }
    }
  }

  /** The length of a match is cut. */
  lemma {:induction false} CutLength(level: Level, src: seq<byte>, at: nat, len: nat, low: nat)
    requires 1 <= len && low < 32 && (level == 1 ==> len <= MAX_LEN - 2)
    requires at < |src| < at + |LengthPart(level, len, low)| && src[at..] == LengthPart(level, len, low)[..|src| - at]
    ensures 32 <= src[at] as nat && ReadLength(level, src, at + 1, High5(src[at] as nat)).Missing?
  {
    assert src[at] == LengthPart(level, len, low)[0];
    ReadsControl(7, low);
    if level == 2 {
      CutParts(src, at, [Control(7, low)], Extension(len - 7));
      CutExtension(src, at + 1, len - 7, 6);
    }
  }

  /** The distance is. */
  lemma {:induction false} CutDistance(level: Level, src: seq<byte>, ip: nat, distance: nat, near: bool)
    requires 1 <= distance && near == (distance - 1 < MaxDistance(level))
    requires !near ==> level == 2 && distance < MAX_FARDISTANCE
    requires var bytes := if near then NearBytes(distance) else FarBytes(distance);
             ip <= |src| < ip + |bytes| && src[ip..] == bytes[..|src| - ip]
    ensures ReadDistance(level, src, ip, if near then High8(distance - 1) else 31).Missing?
  {
    if !near && ip < |src| {
      assert src[ip] == FarBytes(distance)[0];
    }
  }

  lemma {:induction false} CutMatch(level: Level, src: seq<byte>, at: nat, distance: nat, length: nat, out: seq<byte>,
                                    maxout: nat)
    requires LegalOp(level, |out|, Match(distance, length))
    requires at < |src| < at + |EncodeMatch(level, distance, length)|
    requires src[at..] == EncodeMatch(level, distance, length)[..|src| - at]
    ensures Turn(level, src, at + 1, src[at] as nat, out, maxout) == Stop(Overread(out))
  {
    if distance - 1 < MaxDistance(level) {
      CutBoth(level, src, at, length - 2, High8(distance - 1), distance, true,
              LengthPart(level, length - 2, High8(distance - 1)), NearBytes(distance), out, maxout);
    } else {
      CutBoth(level, src, at, length - 2, 31, distance, false, LengthPart(level, length - 2, 31), FarBytes(distance),
              out, maxout);
    }
  }

  lemma {:induction false} CutBoth(level: Level, src: seq<byte>, at: nat, len: nat, low: nat, distance: nat, near: bool,
                                   part: seq<byte>, bytes: seq<byte>, out: seq<byte>, maxout: nat)
    requires 1 <= len && (level == 1 ==> len <= MAX_LEN - 2) && 1 <= distance
             && near == (distance - 1 < MaxDistance(level))
    requires low < 32 && (near ==> low == High8(distance - 1) && bytes == NearBytes(distance))
    requires !near ==> level == 2 && distance < MAX_FARDISTANCE && low == 31 && bytes == FarBytes(distance)
    requires part == LengthPart(level, len, low) && at < |src| < at + |part| + |bytes|
    requires src[at..] == (part + bytes)[..|src| - at]
    ensures Turn(level, src, at + 1, src[at] as nat, out, maxout) == Stop(Overread(out))
  {
    CutParts(src, at, part, bytes);
    if |src| < at + |part| {
      CutLength(level, src, at, len, low);
      OverreadTurn(level, src, at + 1, src[at] as nat, out, maxout, Missing, low);
    } else {
      var ip1 := at + |part|;
      ReadsLength(level, src, at, len, low, ip1);
      CutDistance(level, src, ip1, distance, near);
      OverreadTurn(level, src, at + 1, src[at] as nat, out, maxout, Number(len - 1, ip1), low);
    }
  }

  lemma {:induction false} OverreadTurn(level: Level, src: seq<byte>, ip: nat, ctrl: nat, out: seq<byte>, maxout: nat,
                                        len: Number, low: nat)
    requires 32 <= ctrl && ReadLength(level, src, ip, High5(ctrl)) == len
    requires len.Number? ==> Low5(ctrl) == low && ReadDistance(level, src, len.next, low).Missing?
    ensures Turn(level, src, ip, ctrl, out, maxout) == Stop(Overread(out))
  {
  }

  lemma {:induction false} CutOp(level: Level, src: seq<byte>, at: nat, out: seq<byte>, op: Op, maxout: nat)
    requires LegalOp(level, |out|, op) && |out| + Size(op) <= maxout
    requires at < |src| < at + |EncodeOp(level, |out|, op, 0)|
             && src[at..] == EncodeOp(level, |out|, op, 0)[..|src| - at]
    ensures Turn(level, src, at + 1, src[at] as nat, out, maxout)
            == Stop(if op.Literals? then Rejected(out) else Overread(out))
  {
    match op
    case Literals(bytes) => assert src[at] == EncodeLiterals(bytes, 0)[0];
    case Match(distance, length) => CutMatch(level, src, at, distance, length, out, maxout);
  }

  /** A stream cut inside a literal run is rejected; one cut inside a match makes the decoder read past
      the end of its input. One cut between two operations is a stream, and is decoded. */
  lemma {:induction false} CutShort(level: Level, before: Ops, op: Op, p: nat, maxout: nat)
    requires Legal(level, Then(before, op)) && Written(Then(before, op)) <= maxout
    requires |EncodeAll(level, before, Marker(level))| < p < |EncodeAll(level, Then(before, op), Marker(level))|
    ensures Decode(EncodeAll(level, Then(before, op), Marker(level))[..p], maxout)
            == if op.Literals? then Rejected(Expand(level, before)) else Overread(Expand(level, before))
  {
    var head, all := EncodeAll(level, before, Marker(level)), EncodeAll(level, Then(before, op), Marker(level));
    var src := all[..p];
    if before.Start? {
      FirstIs(level, src, op.bytes, Then(before, op));
    } else {
      CutParts(src, 0, head, EncodeOp(level, Written(before), op, 0));
      CutAfter(level, src, before, op, |head|, maxout, Expand(level, before));
    }
  }

  lemma {:induction false} CutAfter(level: Level, src: seq<byte>, before: Ops, op: Op, at: nat, maxout: nat,
                                    out: seq<byte>)
    requires Legal(level, Then(before, op)) && before.Then? && Written(before) + Size(op) <= maxout
    requires at == |EncodeAll(level, before, Marker(level))| && At(src, 0, EncodeAll(level, before, Marker(level)))
    requires out == Expand(level, before)
    requires var code := EncodeOp(level, |out|, op, 0); at < |src| < at + |code| && src[at..] == code[..|src| - at]
    ensures src != [] && Decode(src, maxout) == if op.Literals? then Rejected(out) else Overread(out)
  {
    TakesPrefix(level, src, before, maxout, at);
    CutOp(level, src, at, out, op, maxout);
    ResumeStops(level, src, at, out, maxout, if op.Literals? then Rejected(out) else Overread(out));
  }
}
