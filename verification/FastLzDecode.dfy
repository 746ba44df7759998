/** What the FastLZ decoder computes, branch for branch, and the round trip with the format. */
module FastLzDecode {
  import opened Bytes
  import opened FastLzFormat

  /** `Rejected` is the return value 0; `Overread` is an operation that asks for bytes past the end
      of the input, which the decoder does not check. In all cases `out` is what has been written. */
  datatype Outcome = Done(out: seq<byte>) | Rejected(out: seq<byte>) | Overread(out: seq<byte>)

  datatype Progress = Stop(outcome: Outcome) | Continue(ip: nat, out: seq<byte>)

  /** `v >> 5`, by counting. */
  function High5(v: nat): (h: nat)
    ensures 32 * h <= v < 32 * h + 32
  {
    if v < 32 then 0 else 1 + High5(v - 32)
  }

  function Low5(v: nat): (l: nat)
    ensures l < 32 && v == 32 * High5(v) + l
  {
    v - 32 * High5(v)
  }

  datatype Number = Number(value: nat, next: nat) | Missing

  function ReadByte(src: seq<byte>, ip: nat): (r: Number) {
    if ip < |src| then Number(src[ip] as nat, ip + 1) else Missing
  }

  function ReadExtension(src: seq<byte>, ip: nat, len: nat): (r: Number)
    ensures r.Number? ==> ip < r.next <= |src|
    decreases |src| - ip
  {
    if ip >= |src| then Missing
    else if src[ip] == 255 then ReadExtension(src, ip + 1, len + 255)
    else Number(len + src[ip] as nat, ip + 1)
  }

  /** The match length, less three, that follows a control byte with length code `code`. */
  function ReadLength(level: Level, src: seq<byte>, ip: nat, code: nat): (r: Number)
    requires 1 <= code
    ensures r.Number? ==> ip <= r.next
  {
    if code < 7 then Number(code - 1, ip)
    else if level == 2 then ReadExtension(src, ip, 6)
    else match ReadByte(src, ip)
         case Number(v, next) => Number(6 + v, next)
         case Missing => Missing
  }

  /** The distance: five bits of the control byte and a byte, or the far form of level 2. */
  function ReadDistance(level: Level, src: seq<byte>, ip: nat, low: nat): (r: Number)
    ensures r.Number? ==> ip < r.next && 1 <= r.value
  {
    match ReadByte(src, ip)
    case Missing => Missing
    case Number(code, next) =>
      if level == 2 && code == 255 && low == 31 then
        if next + 2 > |src| then Missing
        else Number(256 * src[next] as nat + src[next + 1] as nat + MaxDistance(2) + 1, next + 2)
      else Number(256 * low + code + 1, next)
  }

  function CopyTurn(out: seq<byte>, distance: nat, len: nat, next: nat, maxout: nat): (r: Progress)
    requires 1 <= distance
    ensures r.Continue? ==> r.ip == next
  {
    if |out| + len + 3 > maxout then Stop(Rejected(out))
    else if distance > |out| then Stop(Rejected(out))
    else Continue(next, CopyBack(out, distance, len + 3))
  }

  function MatchTurn(level: Level, src: seq<byte>, ip: nat, ctrl: nat, out: seq<byte>, maxout: nat): (r: Progress)
    requires 32 <= ctrl
    ensures r.Continue? ==> ip < r.ip
  {
    match ReadLength(level, src, ip, High5(ctrl))
    case Missing => Stop(Overread(out))
    case Number(len, ip1) =>
      match ReadDistance(level, src, ip1, Low5(ctrl))
      case Missing => Stop(Overread(out))
      case Number(distance, ip2) => CopyTurn(out, distance, len, ip2, maxout)
  }

  function LiteralTurn(src: seq<byte>, ip: nat, ctrl: nat, out: seq<byte>, maxout: nat): (r: Progress)
    ensures r.Continue? ==> ip < r.ip
  {
    if |out| + ctrl + 1 > maxout || ip + ctrl + 1 > |src| then Stop(Rejected(out))
    else Continue(ip + ctrl + 1, out + src[ip..ip + ctrl + 1])
  }

  function Turn(level: Level, src: seq<byte>, ip: nat, ctrl: nat, out: seq<byte>, maxout: nat): (r: Progress)
    ensures r.Continue? ==> ip < r.ip
  {
    if 32 <= ctrl then MatchTurn(level, src, ip, ctrl, out, maxout)
    else LiteralTurn(src, ip, ctrl, out, maxout)
  }

  /** The main loop: `ctrl` is the control byte just before `ip`. */
  function DecodeFrom(level: Level, src: seq<byte>, ip: nat, ctrl: nat, out: seq<byte>, maxout: nat): (r: Outcome)
    decreases |src| - ip
  {
    match Turn(level, src, ip, ctrl, out, maxout)
    case Stop(outcome) => outcome
    case Continue(next, more) =>
      if next < |src| then DecodeFrom(level, src, next + 1, src[next] as nat, more, maxout) else Done(more)
  }

  /** The first control byte keeps its low five bits; the rest of it names the level. */
  function DecodeLevel(level: Level, src: seq<byte>, maxout: nat): (r: Outcome)
    requires src != []
  {
    DecodeFrom(level, src, 1, Low5(src[0] as nat), [], maxout)
  }

  function Decode(src: seq<byte>, maxout: nat): (r: Outcome)
    requires src != []
  {
    var level := High5(src[0] as nat) + 1;
    if level == 1 || level == 2 then DecodeLevel(level, src, maxout) else Rejected([])
  }

  // ---- the round trip ----

  lemma {:induction false} ReadsExtension(src: seq<byte>, ip: nat, v: nat, acc: nat)
    requires At(src, ip, Extension(v))
    ensures ReadExtension(src, ip, acc) == Number(acc + v, ip + |Extension(v)|)
    decreases v
  {
    AtPlace(src, ip, Extension(v), 0);
    if v >= 255 {
      AtSplit(src, ip, [255], Extension(v - 255));
      ReadsExtension(src, ip + 1, v - 255, acc + 255);
    }
  }

  /** A control byte, split as the decoder splits it. */
  lemma {:induction false} ReadsControl(code: nat, low: nat)
    requires code <= 7 && low < 32
    ensures High5(Control(code, low) as nat) == code && Low5(Control(code, low) as nat) == low
  {
  }

  lemma {:induction false} ReadsLength(level: Level, src: seq<byte>, at: nat, len: nat, low: nat, next: nat)
    requires 1 <= len && low < 32 && (level == 1 ==> len <= MAX_LEN - 2)
    requires At(src, at, LengthPart(level, len, low)) && next == at + |LengthPart(level, len, low)|
    ensures at < |src| && 32 <= src[at] as nat && Low5(src[at] as nat) == low
    ensures ReadLength(level, src, at + 1, High5(src[at] as nat)) == Number(len - 1, next)
  {
    var part := LengthPart(level, len, low);
    AtPlace(src, at, part, 0);
    ReadsControl(if len < 7 then len else 7, low);
    if len >= 7 && level == 1 {
      AtPlace(src, at, part, 1);
    } else if len >= 7 {
      AtSplit(src, at, [Control(7, low)], Extension(len - 7));
      ReadsExtension(src, at + 1, len - 7, 6);
    }
  }

  lemma {:induction false} ReadsNear(level: Level, src: seq<byte>, ip: nat, distance: nat, next: nat)
    requires next == ip + 1
    requires 1 <= distance && distance - 1 < MaxDistance(level)
    requires At(src, ip, NearBytes(distance))
    ensures ReadDistance(level, src, ip, High8(distance - 1)) == Number(distance, next)
  {
    AtPlace(src, ip, NearBytes(distance), 0);
  }

  lemma {:induction false} ReadsFar(src: seq<byte>, ip: nat, distance: nat, next: nat)
    requires next == ip + 3
    requires 8191 < distance < MAX_FARDISTANCE
    requires At(src, ip, FarBytes(distance))
    ensures ReadDistance(2, src, ip, 31) == Number(distance, next)
  {
    AtPlace(src, ip, FarBytes(distance), 0);
    AtPlace(src, ip, FarBytes(distance), 1);
    AtPlace(src, ip, FarBytes(distance), 2);
  }

  /** Length part and distance bytes, one after the other. */
  lemma {:induction false} ReadsBoth(level: Level, src: seq<byte>, at: nat, len: nat, low: nat,
                                     distanceBytes: seq<byte>, ip1: nat)
    requires 1 <= len && low < 32 && (level == 1 ==> len <= MAX_LEN - 2)
    requires At(src, at, LengthPart(level, len, low) + distanceBytes) && ip1 == at + |LengthPart(level, len, low)|
    ensures at < |src| && 32 <= src[at] as nat && Low5(src[at] as nat) == low
    ensures ReadLength(level, src, at + 1, High5(src[at] as nat)) == Number(len - 1, ip1)
    ensures At(src, ip1, distanceBytes)
  {
    AtSplit(src, at, LengthPart(level, len, low), distanceBytes);
    ReadsLength(level, src, at, len, low, ip1);
  }

  /** An encoded match is read back: both its length and its distance. */
  lemma {:induction false} ReadsMatch(level: Level, src: seq<byte>, at: nat, distance: nat, length: nat, next: nat)
      returns (ip1: nat)
    requires LegalOp(level, distance, Match(distance, length))
    requires At(src, at, EncodeMatch(level, distance, length))
    requires next == at + |EncodeMatch(level, distance, length)|
    ensures at < |src| && 32 <= src[at] as nat
    ensures ReadLength(level, src, at + 1, High5(src[at] as nat)) == Number(length - 3, ip1)
    ensures ReadDistance(level, src, ip1, Low5(src[at] as nat)) == Number(distance, next)
  {
    var near := distance - 1 < MaxDistance(level);
    var low := if near then High8(distance - 1) else 31;
    var distanceBytes := if near then NearBytes(distance) else FarBytes(distance);
    ip1 := at + |LengthPart(level, length - 2, low)|;
    ReadsBoth(level, src, at, length - 2, low, distanceBytes, ip1);
    if near {
      ReadsNear(level, src, ip1, distance, next);
    } else {
      ReadsFar(src, ip1, distance, next);
    }
  }

  lemma {:induction false} TakesMatch(level: Level, src: seq<byte>, at: nat, out: seq<byte>, distance: nat, length: nat,
                                      maxout: nat, next: nat, more: seq<byte>)
    requires LegalOp(level, |out|, Match(distance, length))
    requires At(src, at, EncodeMatch(level, distance, length))
    requires next == at + |EncodeMatch(level, distance, length)|
    requires more == CopyBack(out, distance, length) && |more| <= maxout
    ensures at < |src| && Turn(level, src, at + 1, src[at] as nat, out, maxout) == Continue(next, more)
  {
    var ip1 := ReadsMatch(level, src, at, distance, length, next);
    MatchTurnIs(level, src, at + 1, src[at] as nat, out, length - 3, ip1, distance, maxout, next, more);
  }

  lemma {:induction false} MatchTurnIs(level: Level, src: seq<byte>, ip: nat, ctrl: nat, out: seq<byte>, len: nat,
                                       ip1: nat, distance: nat, maxout: nat, next: nat, more: seq<byte>)
    requires 32 <= ctrl && ReadLength(level, src, ip, High5(ctrl)) == Number(len, ip1)
    requires ReadDistance(level, src, ip1, Low5(ctrl)) == Number(distance, next)
    requires distance <= |out| && more == CopyBack(out, distance, len + 3) && |more| <= maxout
    ensures Turn(level, src, ip, ctrl, out, maxout) == Continue(next, more)
  {
  }

  lemma {:induction false} TakesLiterals(level: Level, src: seq<byte>, ip: nat, ctrl: nat, out: seq<byte>,
                                         bytes: seq<byte>, maxout: nat, next: nat, more: seq<byte>)
    requires 1 <= |bytes| <= MAX_COPY && ctrl == |bytes| - 1
    requires At(src, ip, bytes) && next == ip + |bytes|
    requires more == out + bytes && |more| <= maxout
    ensures Turn(level, src, ip, ctrl, out, maxout) == Continue(next, more)
  {
  }

  /** One encoded operation takes the decoder over exactly that operation. */
  lemma {:induction false} TakesOp(level: Level, src: seq<byte>, at: nat, out: seq<byte>, op: Op, maxout: nat,
                                   next: nat, more: seq<byte>)
    requires LegalOp(level, |out|, op)
    requires At(src, at, EncodeOp(level, |out|, op, 0)) && next == at + |EncodeOp(level, |out|, op, 0)|
    requires |more| <= maxout
    requires more == match op case Literals(bytes) => out + bytes
                              case Match(distance, length) => CopyBack(out, distance, length)
    ensures at < |src| && Turn(level, src, at + 1, src[at] as nat, out, maxout) == Continue(next, more)
  {
    match op
    case Literals(bytes) =>
      AtPlace(src, at, EncodeLiterals(bytes, 0), 0);
      AtSplit(src, at, [(|bytes| - 1) as byte], bytes);
      TakesLiterals(level, src, at + 1, |bytes| - 1, out, bytes, maxout, next, more);
    case Match(distance, length) =>
      TakesMatch(level, src, at, out, distance, length, maxout, next, more);
  }

  /** Where the loop goes on after `pos` bytes of input. */
  function Resume(level: Level, src: seq<byte>, pos: nat, out: seq<byte>, maxout: nat): (r: Outcome) {
    if pos < |src| then DecodeFrom(level, src, pos + 1, src[pos] as nat, out, maxout) else Done(out)
  }

  lemma {:induction false} TakesFirst(level: Level, src: seq<byte>, bytes: seq<byte>, maxout: nat)
    requires 1 <= |bytes| <= MAX_COPY && |bytes| <= maxout
    requires At(src, 0, EncodeLiterals(bytes, Marker(level)))
    ensures src != [] && DecodeLevel(level, src, maxout) == Resume(level, src, 1 + |bytes|, bytes, maxout)
    ensures High5(src[0] as nat) + 1 == level
  {
    AtPlace(src, 0, EncodeLiterals(bytes, Marker(level)), 0);
    AtSplit(src, 0, [(Marker(level) + |bytes| - 1) as byte], bytes);
    assert High5(src[0] as nat) == level - 1 && Low5(src[0] as nat) == |bytes| - 1;
    TakesLiterals(level, src, 1, |bytes| - 1, [], bytes, maxout, 1 + |bytes|, bytes);
  }

  lemma {:induction false} ResumesOver(level: Level, src: seq<byte>, pos: nat, out: seq<byte>, written: nat, op: Op,
                                       maxout: nat, code: seq<byte>, next: nat, more: seq<byte>)
    requires written == |out| && LegalOp(level, written, op) && code == EncodeOp(level, written, op, 0)
    requires At(src, pos, code) && next == pos + |code|
    requires |more| <= maxout
    requires more == match op case Literals(bytes) => out + bytes
                              case Match(distance, length) => CopyBack(out, distance, length)
    ensures Resume(level, src, pos, out, maxout) == Resume(level, src, next, more, maxout)
  {
    TakesOp(level, src, pos, out, op, maxout, next, more);
  }

  /** Decoding reaches the end `pos` of any encoded prefix with that prefix expanded. */
  lemma {:induction false} TakesPrefix(level: Level, src: seq<byte>, ops: Ops, maxout: nat, pos: nat)
    requires Legal(level, ops) && ops.Then? && Written(ops) <= maxout
    requires At(src, 0, EncodeAll(level, ops, Marker(level))) && pos == |EncodeAll(level, ops, Marker(level))|
    ensures src != [] && High5(src[0] as nat) + 1 == level
    ensures DecodeLevel(level, src, maxout) == Resume(level, src, pos, Expand(level, ops), maxout)
  {
    var before, op := ops.before, ops.op;
    if before.Start? {
      TakesStart(level, src, op.bytes, maxout, ops, pos);
    } else {
      var head := EncodeAll(level, before, Marker(level));
      var code := EncodeOp(level, Written(before), op, 0);
      AtSplit(src, 0, head, code);
      TakesPrefix(level, src, before, maxout, |head|);
      ResumesOver(level, src, |head|, Expand(level, before), Written(before), op, maxout, code, pos,
                  Expand(level, ops));
    }
  }

  lemma {:induction false} TakesStart(level: Level, src: seq<byte>, bytes: seq<byte>, maxout: nat, ops: Ops, pos: nat)
    requires ops == Then(Start, Literals(bytes)) && Legal(level, ops) && |bytes| <= maxout
    requires At(src, 0, EncodeAll(level, ops, Marker(level))) && pos == |EncodeAll(level, ops, Marker(level))|
    ensures src != [] && High5(src[0] as nat) + 1 == level
    ensures DecodeLevel(level, src, maxout) == Resume(level, src, pos, Expand(level, ops), maxout)
  {
    assert EncodeAll(level, ops, Marker(level)) == EncodeLiterals(bytes, Marker(level));
    assert Expand(level, ops) == bytes;
    assert pos == 1 + |bytes|;
    TakesFirst(level, src, bytes, maxout);
  }

  /** Round trip: every legal stream decodes to what it stands for, into any buffer long enough. */
  lemma {:induction false} RoundTrip(level: Level, ops: Ops, maxout: nat)
    requires Legal(level, ops) && ops.Then? && Written(ops) <= maxout
    ensures EncodeAll(level, ops, Marker(level)) != []
    ensures Decode(EncodeAll(level, ops, Marker(level)), maxout) == Done(Expand(level, ops))
  {
    var src := EncodeAll(level, ops, Marker(level));
    AtEnds(src, []);
    assert src + [] == src;
    TakesPrefix(level, src, ops, maxout, |src|);
  }

  /** A full output ends the decoding, whatever the input goes on with. */
  lemma {:induction false} FullStops(level: Level, src: seq<byte>, pos: nat, out: seq<byte>)
    requires pos <= |src|
    ensures Resume(level, src, pos, out, |out|).out == out
  {
  }

  /** Bytes after a stream do not spoil the output, only the return value. */
  lemma {:induction false} RoundTripWithTail(level: Level, ops: Ops, tail: seq<byte>)
    requires Legal(level, ops) && ops.Then?
    ensures EncodeAll(level, ops, Marker(level)) + tail != []
    ensures Decode(EncodeAll(level, ops, Marker(level)) + tail, Written(ops)).out == Expand(level, ops)
  {
    var bytes := EncodeAll(level, ops, Marker(level));
    AtEnds(bytes, tail);
    TakesPrefix(level, bytes + tail, ops, Written(ops), |bytes|);
    FullStops(level, bytes + tail, |bytes|, Expand(level, ops));
  }
}
