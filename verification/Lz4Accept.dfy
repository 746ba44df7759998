/** What the LZ4 decoder accepts: only sequences followed by a literal run that ends with the input, and
    only if they fit the buffer; and how much of a block partial decoding returns. */
module Lz4Accept {
  import opened Bytes
  import opened Lz4Format
  import opened Lz4Decode

  // ---- what was read is an encoding ----

  lemma {:induction false} LiteralLengthIs(src: seq<byte>, ip: nat, acc: nat)
    requires ip < |src|
    requires var r := LiteralLength(src, ip, acc); r.1 + r.0 <= |src| && RUN_MASK <= acc
    ensures src[ip..LiteralLength(src, ip, acc).1] == Extension(LiteralLength(src, ip, acc).0 - acc)
    decreases |src| - ip
  {
    if src[ip] == 255 {
      LiteralLengthIs(src, ip + 1, acc + 255);
      var end := LiteralLength(src, ip, acc).1;
      assert src[ip..end] == [255] + src[ip + 1..end];
    }
  }

  lemma {:induction false} MatchLengthIs(src: seq<byte>, ip: nat, acc: nat)
    requires MatchLengthBytes(src, ip, acc).MatchLen?
    ensures var r := MatchLengthBytes(src, ip, acc); src[ip..r.next] == Extension(r.length - acc)
    decreases |src| - ip
  {
    if src[ip] == 255 {
      MatchLengthIs(src, ip + 1, acc + 255);
      var end := MatchLengthBytes(src, ip, acc).next;
      assert src[ip..end] == [255] + src[ip + 1..end];
    }
  }

  /** A literal run inside the input is one that was written. */
  lemma {:induction false} LiteralsAre(src: seq<byte>, ip: nat, length: nat, ip1: nat)
    requires TokenReadable(src, ip) && LiteralHead(src, ip) == (length, ip1) && ip1 + length <= |src|
    ensures High4(src[ip] as int) == Nibble(length)
    ensures src[ip..ip1 + length] == LiteralPart(src[ip], src[ip1..ip1 + length])
  {
    if High4(src[ip] as int) == RUN_MASK {
      LiteralLengthIs(src, ip + 1, RUN_MASK);
    }
    assert src[ip..ip1] == [src[ip]] + LengthBytes(length);
    assert src[ip..ip1 + length] == src[ip..ip1] + src[ip1..ip1 + length];
  }

  lemma {:induction false} MatchIs(src: seq<byte>, token: byte, ip: nat, ml: nat, next: nat)
    requires ip + 2 <= |src| && MatchHead(src, token, ip + 2) == MatchLen(ml, next)
    ensures next <= |src| && Low4(token as int) == Nibble(ml)
    ensures src[ip..next] == MatchPart(Little16(src, ip), ml + MINMATCH)
  {
    if Low4(token as int) == ML_MASK {
      MatchLengthIs(src, ip + 2, ML_MASK);
    }
    var offset := Little16(src, ip);
    assert [Low8(offset), High8(offset) as byte] == src[ip..ip + 2];
    assert src[ip..next] == src[ip..ip + 2] + src[ip + 2..next];
  }

  /** One turn that goes on has read one legal sequence. */
  lemma {:induction false} TurnIs(src: seq<byte>, ip: nat, out: seq<byte>, oend: nat, oexit: int, next: nat,
                                  more: seq<byte>)
      returns (s: Sequence)
    requires TokenReadable(src, ip) && Step(src, ip, out, oend, oexit, false) == Continue(next, more)
    ensures LegalNext(|out|, s) && ip < next <= |src| && src[ip..next] == EncodeSequence(s)
    ensures more == CopyBack(out + s.literals, s.offset, s.matchLength)
    ensures |out| + |s.literals| + MFLIMIT <= oend && |more| + LASTLITERALS <= oend
  {
    var (length, ip1) := LiteralHead(src, ip);
    var mid := ip1 + length;
    var literals := TurnParts(src, ip, out, oend, oexit, next, more, length, ip1);
    LiteralsAre(src, ip, length, ip1);
    s := MatchedIs(src, src[ip], mid, out + literals, oend, next, more, literals);
    SliceJoins(src, ip, mid, next);
  }

  lemma {:induction false} SliceJoins(s: seq<byte>, a: nat, b: nat, c: nat)
    requires a <= b <= c <= |s|
    ensures s[a..c] == s[a..b] + s[b..c]
  {
  }

  lemma {:induction false} TurnParts(src: seq<byte>, ip: nat, out: seq<byte>, oend: nat, oexit: int, next: nat,
                                     more: seq<byte>, length: nat, ip1: nat)
      returns (literals: seq<byte>)
    requires TokenReadable(src, ip) && Step(src, ip, out, oend, oexit, false) == Continue(next, more)
    requires LiteralHead(src, ip) == (length, ip1)
    ensures ip < ip1 && ip1 + length + 2 + 1 + LASTLITERALS <= |src| && literals == src[ip1..ip1 + length]
    ensures |out| + |literals| + MFLIMIT <= oend
    ensures MatchStep(src, src[ip], ip1 + length, out + literals, oend) == Continue(next, more)
  {
    literals := src[ip1..ip1 + length];
  }

  lemma {:induction false} MatchedIs(src: seq<byte>, token: byte, ip: nat, out: seq<byte>, oend: nat, next: nat,
                                     more: seq<byte>, literals: seq<byte>)
      returns (s: Sequence)
    requires ip + 2 + 1 + LASTLITERALS <= |src| && MatchStep(src, token, ip, out, oend) == Continue(next, more)
    requires High4(token as int) == Nibble(|literals|)
    ensures s.literals == literals && 1 <= s.offset <= |out| && s.offset <= MAX_DISTANCE && MINMATCH <= s.matchLength
    ensures ip < next <= |src| && Token(s) == token && src[ip..next] == MatchPart(s.offset, s.matchLength)
    ensures more == CopyBack(out, s.offset, s.matchLength) && |more| + LASTLITERALS <= oend
  {
    var ml := MatchHead(src, token, ip + 2).length;
    MatchIs(src, token, ip, ml, next);
    s := Sequence(literals, Little16(src, ip), ml + MINMATCH);
  }

  /** A full decoding that succeeds has read sequences and a last literal run that ends with the input,
      and returns what they stand for, which fits the buffer. */
  lemma {:induction false} AcceptedFrom(src: seq<byte>, ip: nat, ss: Sequences, oend: nat, oexit: int)
      returns (all: Sequences, token: byte, last: seq<byte>)
    requires Legal(ss) && ip == |EncodeAll(ss)| && TokenReadable(src, ip) && src[..ip] == EncodeAll(ss)
    requires DecodeFrom(src, ip, Expand(ss), oend, oexit, false).Done?
    ensures Legal(all) && High4(token as int) == Nibble(|last|) && src == EncodeAll(all) + LiteralPart(token, last)
    ensures DecodeFrom(src, ip, Expand(ss), oend, oexit, false).out == Expand(all) + last
    ensures Written(all) + |last| <= oend
    decreases |src| - ip
  {
    match Step(src, ip, Expand(ss), oend, oexit, false)
    case Stop(outcome) =>
      all := ss;
      token, last := LastIs(src, ip, Expand(ss), oend, oexit);
      SliceJoins(src, 0, ip, |src|);
    case Continue(next, more) =>
      var s := TurnIs(src, ip, Expand(ss), oend, oexit, next, more);
      SliceJoins(src, 0, ip, next);
      all, token, last := AcceptedFrom(src, next, Then(ss, s), oend, oexit);
  }

  lemma {:induction false} LastIs(src: seq<byte>, ip: nat, out: seq<byte>, oend: nat, oexit: int)
      returns (token: byte, last: seq<byte>)
    requires TokenReadable(src, ip)
    requires var r := Step(src, ip, out, oend, oexit, false); r.Stop? && r.outcome.Done?
    ensures High4(token as int) == Nibble(|last|) && src[ip..|src|] == LiteralPart(token, last)
    ensures Step(src, ip, out, oend, oexit, false).outcome.out == out + last && |out| + |last| <= oend
  {
    var (length, ip1) := LiteralHead(src, ip);
    StopsAtEnd(src, ip, out, oend, oexit, length, ip1);
    LiteralsAre(src, ip, length, ip1);
    token, last := src[ip], src[ip1..ip1 + length];
  }

  lemma {:induction false} StopsAtEnd(src: seq<byte>, ip: nat, out: seq<byte>, oend: nat, oexit: int, length: nat,
                                      ip1: nat)
    requires TokenReadable(src, ip) && LiteralHead(src, ip) == (length, ip1)
    requires var r := Step(src, ip, out, oend, oexit, false); r.Stop? && r.outcome.Done?
    ensures ip1 + length == |src| && |out| + length <= oend
    ensures Step(src, ip, out, oend, oexit, false).outcome.out == out + src[ip1..ip1 + length]
  {
  }

  lemma {:induction false} Accepted(src: seq<byte>, capacity: nat, target: nat)
      returns (all: Sequences, token: byte, last: seq<byte>)
    requires TokenReadable(src, 0) && DecodeBlock(src, capacity, false, target).Done?
    ensures Legal(all) && High4(token as int) == Nibble(|last|) && src == EncodeAll(all) + LiteralPart(token, last)
    ensures DecodeBlock(src, capacity, false, target).out == Expand(all) + last && Written(all) + |last| <= capacity
  {
    if capacity == 0 {
      all, token, last := Start, 0, [];
    } else {
      all, token, last := AcceptedFrom(src, 0, Start, capacity, ExitPoint(capacity, target));
    }
  }

  // ---- blocks that do not fit ----

  /** What is not an error in a small buffer comes out the same in a larger one. */
  lemma {:induction false} MoreRoomFrom(src: seq<byte>, ip: nat, out: seq<byte>, oend: nat, oexit: int, oend2: nat,
                                        oexit2: int)
    requires TokenReadable(src, ip) && oend <= oend2
    requires !DecodeFrom(src, ip, out, oend, oexit, false).Corrupt?
    ensures DecodeFrom(src, ip, out, oend2, oexit2, false) == DecodeFrom(src, ip, out, oend, oexit, false)
    decreases |src| - ip
  {
    var step := Step(src, ip, out, oend, oexit, false);
    assert step == Step(src, ip, out, oend2, oexit2, false);
    if step.Continue? {
      MoreRoomFrom(src, step.ip, step.out, oend, oexit, oend2, oexit2);
    }
  }

  /** A block longer than the buffer is refused. */
  lemma {:induction false} TooLong(ss: Sequences, last: seq<byte>, n: nat, capacity: nat, target: nat)
    requires Legal(ss) && capacity < n == Written(ss) + |last| && EndConditions(ss, n)
    ensures TokenReadable(EncodeBlock(ss, last), 0)
            && DecodeBlock(EncodeBlock(ss, last), capacity, false, target).Corrupt?
  {
    var src := EncodeBlock(ss, last);
    RoundTrip(ss, last, n, n, false);
    if !DecodeBlock(src, capacity, false, target).Corrupt? {
      if capacity > 0 {
        MoreRoomFrom(src, 0, [], capacity, ExitPoint(capacity, target), n, ExitPoint(n, n));
      }
      var all, token, more := Accepted(src, capacity, target);
      assert false;
    }
  }

  // ---- partial decoding ----

  /** A sequence is passed, or decoding stops after its literals if they go past `oexit`. */
  lemma {:induction false} PartialTurn(src: seq<byte>, ip: nat, out: seq<byte>, s: Sequence, oend: nat, oexit: int,
                                       next: nat, more: seq<byte>)
    requires LegalNext(|out|, s) && At(src, ip, EncodeSequence(s))
    requires next == ip + |EncodeSequence(s)| && next + 1 + LASTLITERALS <= |src| && oexit <= oend - MFLIMIT
    requires |out| + |s.literals| + MFLIMIT <= oend && |out| + |s.literals| + s.matchLength + LASTLITERALS <= oend
    requires more == CopyBack(out + s.literals, s.offset, s.matchLength)
    ensures TokenReadable(src, ip)
    ensures Step(src, ip, out, oend, oexit, true)
            == if |out| + |s.literals| <= oexit then Continue(next, more) else Stop(Done(out + s.literals))
  {
    ReadsSequence(src, ip, out, s, oend, true, next, more);
    AtSplit(src, ip, LiteralPart(Token(s), s.literals), MatchPart(s.offset, s.matchLength));
    ReadsLiterals(src, ip, Token(s), s.literals);
    var (length, ip1) := LiteralHead(src, ip);
    assert src[ip1..ip1 + length] == s.literals;
    PartialStep(src, ip, out, oend, oexit, length, ip1);
  }

  /** The two bounds differ only in when decoding stops. */
  lemma {:induction false} PartialStep(src: seq<byte>, ip: nat, out: seq<byte>, oend: nat, oexit: int, length: nat,
                                       ip1: nat)
    requires TokenReadable(src, ip) && LiteralHead(src, ip) == (length, ip1) && oexit <= oend - MFLIMIT
    requires |out| + length + MFLIMIT <= oend && ip1 + length + 2 + 1 + LASTLITERALS <= |src|
    ensures Step(src, ip, out, oend, oexit, true)
            == if |out| + length <= oexit then Step(src, ip, out, oend, oend - MFLIMIT, true)
               else Stop(Done(out + src[ip1..ip1 + length]))
  {
  }

  lemma {:induction false} CopyBackKeeps(out: seq<byte>, distance: nat, count: nat, k: nat)
    requires 1 <= distance <= |out| && k <= |out|
    ensures CopyBack(out, distance, count)[..k] == out[..k]
  {
    if count > 0 {
      CopyBackKeeps(out, distance, count - 1, k);
    }
  }

  lemma {:induction false} PartialFrom(src: seq<byte>, ss: Sequences, oend: nat, oexit: int)
      returns (stopped: bool, k: nat)
    requires Legal(ss) && EndConditions(ss, oend) && oexit <= oend - MFLIMIT
    requires At(src, 0, EncodeAll(ss)) && |EncodeAll(ss)| + 1 + LASTLITERALS <= |src|
    requires TokenReadable(src, |EncodeAll(ss)|)
    ensures TokenReadable(src, 0)
    ensures stopped ==> oexit < k <= Written(ss) && DecodeFrom(src, 0, [], oend, oexit, true) == Done(Expand(ss)[..k])
    ensures !stopped ==> DecodeFrom(src, 0, [], oend, oexit, true)
                         == DecodeFrom(src, |EncodeAll(ss)|, Expand(ss), oend, oexit, true)
  {
    match ss
    case Start => stopped, k := false, 0;
    case Then(before, s) =>
      var at, out := |EncodeAll(before)|, Expand(before);
      AtSplit(src, 0, EncodeAll(before), EncodeSequence(s));
      PartialTurn(src, at, out, s, oend, oexit, |EncodeAll(ss)|, Expand(ss));
      stopped, k := PartialFrom(src, before, oend, oexit);
      var lit := out + s.literals;
      CopyBackKeeps(lit, s.offset, s.matchLength, if stopped then k else |lit|);
      if stopped {
        assert lit[..k] == out[..k];
      } else if |out| + |s.literals| > oexit {
        stopped, k := true, |lit|;
        assert lit[..k] == lit;
      }
  }

  /** Partial decoding of a block returns its first bytes: all of them, or more than asked for. */
  lemma {:induction false} PartialPrefix(ss: Sequences, last: seq<byte>, n: nat, capacity: nat, target: nat)
      returns (k: nat)
    requires Legal(ss) && n == Written(ss) + |last| <= capacity && EndConditions(ss, n) && capacity > 0
    ensures TokenReadable(EncodeBlock(ss, last), 0) && k <= n
    ensures DecodeBlock(EncodeBlock(ss, last), capacity, true, target) == Done((Expand(ss) + last)[..k])
    ensures k == n || k > target || k > capacity - MFLIMIT
  {
    var src, oexit := EncodeBlock(ss, last), ExitPoint(capacity, target);
    AtEnds(EncodeAll(ss), EncodeLast(last));
    PartialLast(src, |EncodeAll(ss)|, Expand(ss), last, capacity, oexit);
    var stopped := false;
    k := n;
    if ss.Then? {
      var k1;
      MoreRoom(ss, n, capacity);
      stopped, k1 := PartialFrom(src, ss, capacity, oexit);
      if stopped {
        k := k1;
        assert (Expand(ss) + last)[..k] == Expand(ss)[..k];
      }
    }
    assert (Expand(ss) + last)[..n] == Expand(ss) + last;
  }

  lemma {:induction false} PartialLast(src: seq<byte>, ip: nat, out: seq<byte>, last: seq<byte>, oend: nat, oexit: int)
    requires At(src, ip, EncodeLast(last)) && ip + |EncodeLast(last)| == |src| && |out| + |last| <= oend
    ensures TokenReadable(src, ip) && DecodeFrom(src, ip, out, oend, oexit, true) == Done(out + last)
  {
    ReadsLiterals(src, ip, (16 * Nibble(|last|)) as byte, last);
  }
}
