/** What the LZ4 decoder computes, branch for branch, and the round trip with the block format. */
module Lz4Decode {
  import opened Bytes
  import opened Lz4Format

  /** `Corrupt(at)` is the error return `-at - 1`; an offset of zero, which the block format
      forbids, makes the decoder copy bytes it never wrote. */
  datatype Outcome = Done(out: seq<byte>) | Corrupt(at: nat) | ZeroOffset

  datatype MatchLen = MatchLen(length: nat, next: nat) | Stuck(at: nat)

  /** The extra bytes of a literal length; reading stops early 15 bytes before the end. */
  function LiteralLength(src: seq<byte>, ip: nat, length: nat): (r: (nat, nat))
    requires ip < |src|
    ensures length <= r.0 && ip < r.1 <= |src|
    decreases |src| - ip
  {
    if ip + 1 < |src| - RUN_MASK && src[ip] == 255 then LiteralLength(src, ip + 1, length + 255)
    else (length + src[ip] as int, ip + 1)
  }

  /** The extra bytes of a match length; it is an error to meet the last literals here. */
  function MatchLengthBytes(src: seq<byte>, ip: nat, length: nat): (r: MatchLen)
    ensures r.MatchLen? ==> ip < r.next <= |src| - LASTLITERALS + 1 && length <= r.length
    decreases |src| - ip
  {
    if ip > |src| - LASTLITERALS then Stuck(ip)
    else if src[ip] == 255 then MatchLengthBytes(src, ip + 1, length + 255)
    else MatchLen(length + src[ip] as int, ip + 1)
  }

  function Little16(src: seq<byte>, ip: nat): nat
    requires ip + 2 <= |src|
  {
    src[ip] as int + 256 * src[ip + 1] as int
  }

  /** A token can be read at `ip`, and so can the length byte it announces. */
  predicate TokenReadable(src: seq<byte>, ip: nat)
  {
    ip < |src| && (High4(src[ip] as int) == RUN_MASK ==> ip + 1 < |src|)
  }

  function LiteralHead(src: seq<byte>, ip: nat): (r: (nat, nat))
    requires TokenReadable(src, ip)
    ensures ip < r.1 <= |src|
  {
    if High4(src[ip] as int) == RUN_MASK then LiteralLength(src, ip + 1, RUN_MASK) else (High4(src[ip] as int), ip + 1)
  }

  function MatchHead(src: seq<byte>, token: byte, ip: nat): (r: MatchLen)
    ensures r.MatchLen? ==> ip <= r.next
  {
    if Low4(token as int) == ML_MASK then MatchLengthBytes(src, ip, ML_MASK) else MatchLen(Low4(token as int), ip)
  }

  datatype Progress = Stop(outcome: Outcome) | Continue(ip: nat, out: seq<byte>)

  /** The literals of one turn of the main loop: stop there, or go on after them. */
  function LiteralStep(src: seq<byte>, ip: nat, out: seq<byte>, oend: nat, oexit: int, partially: bool): (r: Progress)
    requires TokenReadable(src, ip)
    ensures r.Continue? ==> ip < r.ip <= |src| - (2 + 1 + LASTLITERALS)
    ensures r.Continue? && oexit <= oend - MFLIMIT ==> |r.out| <= oend - MFLIMIT
  {
    var (length, ip1) := LiteralHead(src, ip);
    var cpy := |out| + length;
    if cpy > (if partially then oexit else oend - MFLIMIT) || ip1 + length > |src| - (2 + 1 + LASTLITERALS) then
      Stop(if cpy > oend || (if partially then ip1 + length > |src| else ip1 + length != |src|) then Corrupt(ip1)
           else Done(out + src[ip1..ip1 + length]))
    else
      Continue(ip1 + length, out + src[ip1..ip1 + length])
  }

  /** The back reference of one turn: `ip` is just after the literals, `out` ends with them. */
  function MatchStep(src: seq<byte>, token: byte, ip: nat, out: seq<byte>, oend: nat): (r: Progress)
    requires ip + 2 + 1 + LASTLITERALS <= |src|
    ensures r.Continue? ==> ip < r.ip && TokenReadable(src, r.ip)
  {
    var offset := Little16(src, ip);
    if offset > |out| then Stop(Corrupt(ip + 2))
    else
      match MatchHead(src, token, ip + 2)
      case Stuck(at) => Stop(Corrupt(at))
      case MatchLen(ml, next) =>
        if |out| + ml + MINMATCH > oend - LASTLITERALS then Stop(Corrupt(next))
        else if offset == 0 then Stop(ZeroOffset)
        else Continue(next, CopyBack(out, offset, ml + MINMATCH))
  }

  function Step(src: seq<byte>, ip: nat, out: seq<byte>, oend: nat, oexit: int, partially: bool): (r: Progress)
    requires TokenReadable(src, ip)
    ensures r.Continue? ==> ip < r.ip && TokenReadable(src, r.ip)
  {
    var l := LiteralStep(src, ip, out, oend, oexit, partially);
    if l.Stop? then l else MatchStep(src, src[ip], l.ip, l.out, oend)
  }

  /** The main loop from input position `ip` with `out` already written, into a buffer of `oend`
      bytes; partial decoding stops after the first literals that pass `oexit`. */
  function DecodeFrom(src: seq<byte>, ip: nat, out: seq<byte>, oend: nat, oexit: int, partially: bool): (r: Outcome)
    requires TokenReadable(src, ip)
    decreases |src| - ip
  {
    match Step(src, ip, out, oend, oexit, partially)
    case Stop(outcome) => outcome
    case Continue(next, more) => DecodeFrom(src, next, more, oend, oexit, partially)
  }

  function ExitPoint(capacity: nat, target: nat): (oexit: int)
  {
    if target > capacity - MFLIMIT then capacity - MFLIMIT else target
  }

  /** LZ4_decompress_safe, and LZ4_decompress_safe_partial when `partially`. */
  function DecodeBlock(src: seq<byte>, capacity: nat, partially: bool, target: nat): (r: Outcome)
    requires TokenReadable(src, 0)
  {
    if capacity == 0 then (if src == [0] then Done([]) else Corrupt(0))
    else DecodeFrom(src, 0, [], capacity, ExitPoint(capacity, target), partially)
  }

  // ---- the round trip ----

  lemma {:induction false} ReadsLiteralExtension(src: seq<byte>, ip: nat, v: nat, acc: nat)
    requires At(src, ip, Extension(v))
    requires RUN_MASK <= acc && ip + |Extension(v)| + acc + v <= |src|
    ensures LiteralLength(src, ip, acc) == (acc + v, ip + |Extension(v)|)
    decreases v
  {
    AtPlace(src, ip, Extension(v), 0);
    if v >= 255 {
      AtSplit(src, ip, [255], Extension(v - 255));
      ReadsLiteralExtension(src, ip + 1, v - 255, acc + 255);
    }
  }

  lemma {:induction false} ReadsMatchExtension(src: seq<byte>, ip: nat, v: nat, acc: nat)
    requires At(src, ip, Extension(v))
    requires ip + |Extension(v)| + LASTLITERALS <= |src|
    ensures MatchLengthBytes(src, ip, acc) == MatchLen(acc + v, ip + |Extension(v)|)
    decreases v
  {
    AtPlace(src, ip, Extension(v), 0);
    if v >= 255 {
      AtSplit(src, ip, [255], Extension(v - 255));
      ReadsMatchExtension(src, ip + 1, v - 255, acc + 255);
    }
  }

  /** A literal run written as token, length bytes and literals is read back. */
  lemma {:induction false} ReadsLiterals(src: seq<byte>, ip: nat, token: byte, literals: seq<byte>)
    requires High4(token as int) == Nibble(|literals|)
    requires At(src, ip, LiteralPart(token, literals))
    ensures TokenReadable(src, ip) && src[ip] == token
    ensures var (length, ip1) := LiteralHead(src, ip);
            && length == |literals| && ip1 == ip + 1 + |LengthBytes(|literals|)|
            && At(src, ip1, literals)
  {
    var bytes := LengthBytes(|literals|);
    AtSplit(src, ip, [token] + bytes, literals);
    AtSplit(src, ip, [token], bytes);
    AtPlace(src, ip, [token], 0);
    if |literals| >= RUN_MASK {
      ReadsLiteralExtension(src, ip + 1, |literals| - RUN_MASK, RUN_MASK);
    }
  }

  lemma {:induction false} PassesLiterals(src: seq<byte>, ip: nat, out: seq<byte>, token: byte, literals: seq<byte>,
                                          oend: nat, partially: bool)
    requires High4(token as int) == Nibble(|literals|)
    requires At(src, ip, LiteralPart(token, literals))
    requires ip + |LiteralPart(token, literals)| + 2 + 1 + LASTLITERALS <= |src|
    requires |out| + |literals| + MFLIMIT <= oend
    ensures TokenReadable(src, ip) && src[ip] == token
    ensures LiteralStep(src, ip, out, oend, oend - MFLIMIT, partially)
            == Continue(ip + |LiteralPart(token, literals)|, out + literals)
  {
    ReadsLiterals(src, ip, token, literals);
  }

  lemma {:induction false} ReadsMatchLength(src: seq<byte>, ip: nat, token: byte, ml: nat)
    requires Low4(token as int) == Nibble(ml)
    requires At(src, ip, LengthBytes(ml)) && ip + |LengthBytes(ml)| + LASTLITERALS <= |src|
    ensures MatchHead(src, token, ip) == MatchLen(ml, ip + |LengthBytes(ml)|)
  {
    if ml >= ML_MASK {
      ReadsMatchExtension(src, ip, ml - ML_MASK, ML_MASK);
    }
  }

  lemma {:induction false} ReadsOffset(src: seq<byte>, ip: nat, offset: nat, rest: seq<byte>)
    requires offset <= MAX_DISTANCE
    requires At(src, ip, [Low8(offset), High8(offset) as byte] + rest)
    ensures Little16(src, ip) == offset && At(src, ip + 2, rest)
  {
    var low := [Low8(offset), High8(offset) as byte];
    AtSplit(src, ip, low, rest);
    AtPlace(src, ip, low, 0);
    AtPlace(src, ip, low, 1);
  }

  lemma {:induction false} ReadsMatchPart(src: seq<byte>, ip: nat, token: byte, offset: nat, matchLength: nat)
    requires offset <= MAX_DISTANCE && MINMATCH <= matchLength
    requires Low4(token as int) == Nibble(matchLength - MINMATCH)
    requires At(src, ip, MatchPart(offset, matchLength))
    requires ip + |MatchPart(offset, matchLength)| + LASTLITERALS <= |src|
    ensures Little16(src, ip) == offset
    ensures MatchHead(src, token, ip + 2)
            == MatchLen(matchLength - MINMATCH, ip + |MatchPart(offset, matchLength)|)
  {
    ReadsOffset(src, ip, offset, LengthBytes(matchLength - MINMATCH));
    ReadsMatchLength(src, ip + 2, token, matchLength - MINMATCH);
  }

  /** The back reference of an encoded sequence is read back and copied. */
  lemma {:induction false} CopiesMatch(src: seq<byte>, ip: nat, token: byte, out: seq<byte>, offset: nat,
                                       matchLength: nat, oend: nat, next: nat)
    requires ip + 2 + 1 + LASTLITERALS <= |src|
    requires Little16(src, ip) == offset && 1 <= offset <= |out| && MINMATCH <= matchLength
    requires MatchHead(src, token, ip + 2) == MatchLen(matchLength - MINMATCH, next)
    requires |out| + matchLength + LASTLITERALS <= oend
    ensures MatchStep(src, token, ip, out, oend) == Continue(next, CopyBack(out, offset, matchLength))
  {
  }

  /** One encoded sequence moves the decoder over exactly that sequence. */
  lemma {:induction false} ReadsSequence(src: seq<byte>, ip: nat, out: seq<byte>, s: Sequence, oend: nat,
                                         partially: bool,
                      next: nat, more: seq<byte>)
    requires LegalNext(|out|, s)
    requires At(src, ip, EncodeSequence(s))
    requires next == ip + |EncodeSequence(s)| && next + 1 + LASTLITERALS <= |src|
    requires |out| + |s.literals| + MFLIMIT <= oend
    requires |out| + |s.literals| + s.matchLength + LASTLITERALS <= oend
    requires more == CopyBack(out + s.literals, s.offset, s.matchLength)
    ensures TokenReadable(src, ip)
    ensures Step(src, ip, out, oend, oend - MFLIMIT, partially) == Continue(next, more)
  {
    var ip1 := ip + |LiteralPart(Token(s), s.literals)|;
    var lit := out + s.literals;
    AtSplit(src, ip, LiteralPart(Token(s), s.literals), MatchPart(s.offset, s.matchLength));
    PassesLiterals(src, ip, out, Token(s), s.literals, oend, partially);
    assert LiteralStep(src, ip, out, oend, oend - MFLIMIT, partially) == Continue(ip1, lit);
    ReadsMatchPart(src, ip1, Token(s), s.offset, s.matchLength);
    CopiesMatch(src, ip1, Token(s), lit, s.offset, s.matchLength, oend, next);
  }

  /** Decoding a block reaches the position after any encoded prefix, with that prefix expanded. */
  lemma {:induction false} ReadsPrefix(src: seq<byte>, ss: Sequences, oend: nat, partially: bool)
    requires Legal(ss) && EndConditions(ss, oend)
    requires At(src, 0, EncodeAll(ss)) && |EncodeAll(ss)| + 1 + LASTLITERALS <= |src|
    requires TokenReadable(src, |EncodeAll(ss)|)
    ensures TokenReadable(src, 0)
    ensures DecodeFrom(src, 0, [], oend, oend - MFLIMIT, partially)
            == DecodeFrom(src, |EncodeAll(ss)|, Expand(ss), oend, oend - MFLIMIT, partially)
  {
    match ss
    case Start =>
    case Then(before, s) =>
      AtSplit(src, 0, EncodeAll(before), EncodeSequence(s));
      ReadsSequence(src, |EncodeAll(before)|, Expand(before), s, oend, partially, |EncodeAll(ss)|, Expand(ss));
      ReadsPrefix(src, before, oend, partially);
  }

  /** The last literals: a full decoding wants the input to end with them, a partial one wants the
      output to be full with them. */
  lemma {:induction false} ReadsLast(src: seq<byte>, ip: nat, out: seq<byte>, last: seq<byte>, oend: nat,
                                     partially: bool)
    requires At(src, ip, EncodeLast(last)) && oend >= |out| + |last|
    requires if partially then oend == |out| + |last| else ip + |EncodeLast(last)| == |src|
    ensures TokenReadable(src, ip)
    ensures DecodeFrom(src, ip, out, oend, oend - MFLIMIT, partially) == Done(out + last)
  {
    ReadsLiterals(src, ip, (16 * Nibble(|last|)) as byte, last);
  }

  lemma {:induction false} MoreRoom(ss: Sequences, n: nat, oend: nat)
    requires EndConditions(ss, n) && n <= oend
    ensures EndConditions(ss, oend)
  {
    if ss.Then? {
      MoreRoom(ss.before, n, oend);
    }
  }

  lemma {:induction false} ReadsBlock(src: seq<byte>, ss: Sequences, last: seq<byte>, n: nat, oend: nat,
                                      partially: bool)
    requires Legal(ss) && n == Written(ss) + |last| <= oend && EndConditions(ss, n)
    requires At(src, 0, EncodeAll(ss)) && At(src, |EncodeAll(ss)|, EncodeLast(last))
    requires if partially then oend == n else |src| == |EncodeAll(ss)| + |EncodeLast(last)|
    ensures TokenReadable(src, 0)
    ensures DecodeFrom(src, 0, [], oend, oend - MFLIMIT, partially) == Done(Expand(ss) + last)
  {
    ReadsLast(src, |EncodeAll(ss)|, Expand(ss), last, oend, partially);
    if ss.Then? {
      MoreRoom(ss, n, oend);
      ReadsPrefix(src, ss, oend, partially);
    }
  }

  /** Round trip: a block that keeps the end-of-block conditions decodes to what it stands for,
      both fully, into any buffer that is long enough, and partially with target and capacity equal to
      that length. */
  lemma {:induction false} RoundTrip(ss: Sequences, last: seq<byte>, n: nat, capacity: nat, partially: bool)
    requires Legal(ss) && n == Written(ss) + |last| <= capacity && EndConditions(ss, n) && (partially ==> capacity == n)
    ensures TokenReadable(EncodeBlock(ss, last), 0)
    ensures DecodeBlock(EncodeBlock(ss, last), capacity, partially, capacity) == Done(Expand(ss) + last)
  {
    var head, tail := EncodeAll(ss), EncodeLast(last);
    AtEnds(head, tail);
    ReadsBlock(head + tail, ss, last, n, capacity, partially);
    if capacity == 0 {
      EmptyBlock(ss, last);
    } else {
      DecodesNonEmpty(head + tail, capacity, partially);
    }
  }

  lemma {:induction false} DecodesNonEmpty(src: seq<byte>, capacity: nat, partially: bool)
    requires TokenReadable(src, 0) && capacity > 0
    ensures DecodeBlock(src, capacity, partially, capacity)
            == DecodeFrom(src, 0, [], capacity, capacity - MFLIMIT, partially)
  {
  }

  lemma {:induction false} EmptyBlock(ss: Sequences, last: seq<byte>)
    requires Legal(ss) && Written(ss) + |last| == 0
    ensures ss == Start && last == [] && EncodeBlock(ss, last) == [0]
  {
  }

  /** Partial decoding does not look at bytes that follow the block. */
  lemma {:induction false} RoundTripWithTail(ss: Sequences, last: seq<byte>, n: nat, tail: seq<byte>)
    requires Legal(ss) && 0 < n == Written(ss) + |last| && EndConditions(ss, n)
    ensures TokenReadable(EncodeBlock(ss, last) + tail, 0)
    ensures DecodeBlock(EncodeBlock(ss, last) + tail, n, true, n) == Done(Expand(ss) + last)
  {
    var block := EncodeBlock(ss, last);
    AtEnds(block, tail);
    AtSplit(block + tail, 0, EncodeAll(ss), EncodeLast(last));
    ReadsBlock(block + tail, ss, last, n, n, true);
  }
}
