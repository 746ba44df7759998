/** The reader's scheduler: one bucket of handles for every time step, each handle in the bucket of
    its next change. Links are handle numbers plus one; 0 ends a bucket. */
module FstMerge {
  import opened Bytes
  import opened FstVarint
  import opened Leb128
  import opened FstRecord

  /** A change: the time step and the value. */
  type Change = (nat, seq<byte>)

  function Ptr(b: seq<nat>, k: nat): nat {
    if k < |b| then b[k] + 1 else 0
  }

  /** `b` lists the handles linked from `head` on, each once. */
  ghost predicate Linked(scatter: seq<nat>, head: nat, b: seq<nat>) {
    head == Ptr(b, 0)
    && (forall k :: 0 <= k < |b| ==> b[k] < |scatter|)
    && (forall k {:trigger scatter[b[k]]} :: 0 <= k < |b| ==> scatter[b[k]] == Ptr(b, k + 1))
    && forall j, k :: 0 <= j < k < |b| ==> b[j] != b[k]
  }

  ghost predicate AllLinked(scatter: seq<nat>, tcHead: seq<nat>, bs: seq<seq<nat>>) {
    |tcHead| == |bs| && forall j :: 0 <= j < |bs| ==> Linked(scatter, tcHead[j], bs[j])
  }

  /** Handle `h` is due at step `j`. */
  ghost predicate Due(todo: seq<seq<Change>>, h: nat, j: nat) {
    h < |todo| && todo[h] != [] && todo[h][0].0 == j
  }

  /** Every handle with changes left, except `held`, is in the bucket of the next one, and no
      bucket holds anything else. */
  ghost predicate Placed(todo: seq<seq<Change>>, bs: seq<seq<nat>>, held: int) {
    (forall j, h {:trigger h in bs[j]} :: 0 <= j < |bs| && h in bs[j] ==> Due(todo, h, j) && h != held)
    && forall h :: 0 <= h < |todo| && todo[h] != [] && h != held ==> todo[h][0].0 < |bs| && h in bs[todo[h][0].0]
  }

  lemma {:induction false} StillLinked(scatter: seq<nat>, scatter2: seq<nat>, head: nat, b: seq<nat>)
    requires Linked(scatter, head, b) && |scatter2| == |scatter|
    requires forall k :: 0 <= k < |b| ==> scatter2[b[k]] == scatter[b[k]]
    ensures Linked(scatter2, head, b)
  {
  }

  /** The first handle of bucket `i` is due there. */
  lemma {:induction false} FirstDue(scatter: seq<nat>, tcHead: seq<nat>, bs: seq<seq<nat>>, todo: seq<seq<Change>>,
                                    i: nat, h: nat)
    requires AllLinked(scatter, tcHead, bs) && Placed(todo, bs, -1) && i < |bs| && tcHead[i] == h + 1
    ensures bs[i] != [] && bs[i][0] == h < |scatter| && h !in bs[i][1..] && Due(todo, h, i)
    ensures forall j :: 0 <= j < |bs| && j != i ==> h !in bs[j]
  {
    assert Linked(scatter, tcHead[i], bs[i]);
    assert h in bs[i];
  }

  /** Taking it out. */
  lemma {:induction false} PopLinked(scatter: seq<nat>, tcHead: seq<nat>, bs: seq<seq<nat>>, i: nat, h: nat,
                                     rest: seq<nat>)
    requires AllLinked(scatter, tcHead, bs) && i < |bs| && bs[i] == [h] + rest
    requires forall j :: 0 <= j < |bs| && j != i ==> h !in bs[j]
    ensures h < |scatter| && AllLinked(scatter[h := 0], tcHead[i := scatter[h]], bs[i := rest])
  {
    assert Linked(scatter, tcHead[i], bs[i]);
    var b := bs[i];
    assert b[0] == h && forall k :: 0 <= k < |rest| ==> rest[k] == b[k + 1];
    var scatter2 := scatter[h := 0];
    forall k | 0 <= k < |rest|
      ensures scatter2[rest[k]] == Ptr(rest, k + 1)
    {
      assert scatter[b[k + 1]] == Ptr(b, k + 2);
    }
    assert scatter[b[0]] == Ptr(b, 1);
    forall j | 0 <= j < |bs| && j != i
      ensures Linked(scatter2, tcHead[j], bs[j])
    {
      StillLinked(scatter, scatter2, tcHead[j], bs[j]);
    }
  }

  lemma {:induction false} PopPlaced(bs: seq<seq<nat>>, todo: seq<seq<Change>>, i: nat, h: nat, rest: seq<nat>)
    requires Placed(todo, bs, -1) && i < |bs| && bs[i] == [h] + rest && h !in rest
    requires forall j :: 0 <= j < |bs| && j != i ==> h !in bs[j]
    ensures Placed(todo, bs[i := rest], h)
  {
    assert forall g :: g in rest ==> g in bs[i];
    forall g | 0 <= g < |todo| && todo[g] != [] && g != h
      ensures todo[g][0].0 < |bs| && g in bs[i := rest][todo[g][0].0]
    {
      assert g in bs[todo[g][0].0];
    }
  }

  /** Putting the held handle into the bucket of its next change. */
  lemma {:induction false} PushLinked(scatter: seq<nat>, tcHead: seq<nat>, bs: seq<seq<nat>>, j: nat, h: nat)
    requires AllLinked(scatter, tcHead, bs) && j < |bs| && h < |scatter| && forall l :: 0 <= l < |bs| ==> h !in bs[l]
    ensures AllLinked(scatter[h := tcHead[j]], tcHead[j := h + 1], bs[j := [h] + bs[j]])
  {
    var scatter2, b := scatter[h := tcHead[j]], [h] + bs[j];
    assert Linked(scatter, tcHead[j], bs[j]);
    forall k | 0 <= k < |b|
      ensures scatter2[b[k]] == Ptr(b, k + 1)
    {
      if k > 0 {
        assert b[k] == bs[j][k - 1] && b[k] in bs[j];
        assert scatter[bs[j][k - 1]] == Ptr(bs[j], k);
      }
    }
    forall l | 0 <= l < |bs| && l != j
      ensures Linked(scatter2, tcHead[l], bs[l])
    {
      StillLinked(scatter, scatter2, tcHead[l], bs[l]);
    }
  }

  lemma {:induction false} PushPlaced(bs: seq<seq<nat>>, todo: seq<seq<Change>>, j: nat, h: nat)
    requires Placed(todo, bs, h) && j < |bs| && Due(todo, h, j)
    ensures forall l :: 0 <= l < |bs| ==> h !in bs[l]
    ensures Placed(todo, bs[j := [h] + bs[j]], -1)
  {
    var b := [h] + bs[j];
    forall g | 0 <= g < |todo| && todo[g] != []
      ensures todo[g][0].0 < |bs| && g in bs[j := b][todo[g][0].0]
    {
      if g == h {
        assert b[0] == h;
      } else {
        assert g in bs[todo[g][0].0];
      }
    }
  }

  lemma {:induction false} Once(b: seq<nat>, h: nat)
    requires h in b && forall j, k :: 0 <= j < k < |b| ==> b[j] != b[k]
    ensures multiset(b)[h] == 1
  {
    var k :| 0 <= k < |b| && b[k] == h;
    assert b == b[..k] + [h] + b[k + 1..];
    assert h !in b[..k] && h !in b[k + 1..];
  }

  // ---- reading records ----

  /** The time step of the record at `at`. */
  method PeekDelta(mem: seq<byte>, at: nat, len: nat) returns (tdelta: nat)
    requires Readable(len, mem, at)
    ensures tdelta == ReadRecord(len, mem, at).delta
  {
    var vli, skiplen := GetVarint32(mem, at);
    if len == 1 {
      tdelta := if vli % 2 == 1 then vli / 16 else vli / 4;
    } else {
      tdelta := vli / 2;
    }
  }

  /** The value of the record at `at`, and its size. */
  method TakeValue(mem: seq<byte>, at: nat, len: nat) returns (value: seq<byte>, skiplen: nat)
    requires Readable(len, mem, at)
    ensures value == ReadRecord(len, mem, at).value && at + skiplen == ReadRecord(len, mem, at).next
  {
    var vli;
    vli, skiplen := GetVarint32(mem, at);
    if len == 1 {
      value := [if vli % 2 == 0 then (if vli / 2 % 2 == 1 then ONE else ZERO) else RCV_STR[vli / 2 % 8]];
    } else if len == 0 {
      var size, skiplen2 := GetVarint32(mem, at + skiplen);
      skiplen := skiplen + skiplen2;
      value := mem[at + skiplen..at + skiplen + size];
      skiplen := skiplen + size;
    } else if vli % 2 == 0 {
      value := Unpacked(mem, at + skiplen, len);
      skiplen := skiplen + PackedSize(len);
    } else {
      value := mem[at + skiplen..at + skiplen + len];
      skiplen := skiplen + len;
    }
  }

  /** The `remaining` bytes from `at` on hold the changes `todo`, `base` being the time step of the one
      before. */
  ghost predicate Left(len: nat, mem: seq<byte>, at: nat, remaining: nat, base: nat, todo: seq<Change>) {
    at + remaining <= |mem| && Stream(len, mem, at, at + remaining)
    && Timeline(len, mem, at, at + remaining, base) == todo
  }

  lemma {:induction false} LeftStep(len: nat, mem: seq<byte>, at: nat, remaining: nat, base: nat, todo: seq<Change>)
    requires Left(len, mem, at, remaining, base, todo)
    ensures todo == [] <==> remaining == 0
    ensures remaining > 0 ==>
              Readable(len, mem, at) && var rec := ReadRecord(len, mem, at);
              rec.next <= at + remaining && todo[0] == (base + rec.delta, rec.value)
              && Left(len, mem, rec.next, remaining - (rec.next - at), base + rec.delta, todo[1..])
  {
  }

  lemma {:induction false} DueReadable(len: nat, mem: seq<byte>, at: nat, remaining: nat, base: nat, todo: seq<Change>)
    requires Left(len, mem, at, remaining, base, todo) && todo != []
    ensures Readable(len, mem, at)
  {
  }

  lemma {:induction false} Shrinks(len: nat, mem: seq<byte>, at: nat, remaining: nat, base: nat, todo: seq<Change>,
                                   skiplen: nat)
    requires Left(len, mem, at, remaining, base, todo) && todo != []
    requires Readable(len, mem, at) && at + skiplen == ReadRecord(len, mem, at).next
    ensures skiplen <= remaining && todo[0].1 == ReadRecord(len, mem, at).value
  {
  }

  // ---- deliveries ----

  datatype Event = Event(step: nat, handle: nat, value: seq<byte>)

  /** The changes delivered for one handle. */
  function Of(out: seq<Event>, h: nat): (changes: seq<Change>) {
    if out == [] then []
    else
      var e := out[|out| - 1];
      Of(out[..|out| - 1], h) + if e.handle == h then [(e.step, e.value)] else []
  }

  lemma {:induction false} OfSnoc(out: seq<Event>, e: Event, h: nat)
    ensures Of(out + [e], h) == Of(out, h) + if e.handle == h then [(e.step, e.value)] else []
  {
    assert (out + [e])[..|out|] == out;
  }

  ghost predicate InOrder(out: seq<Event>) {
    forall j, k :: 0 <= j < k < |out| ==> out[j].step <= out[k].step
  }

  ghost predicate InOrderBelow(out: seq<Event>, i: nat) {
    InOrder(out) && forall k :: 0 <= k < |out| ==> out[k].step < i
  }

  /** `out` and what is left make up all the changes. */
  ghost predicate Accounted(out: seq<Event>, todo: seq<seq<Change>>, all: seq<seq<Change>>) {
    |todo| == |all| && (forall k :: 0 <= k < |out| ==> out[k].handle < |all|)
    && forall h :: 0 <= h < |all| ==> Of(out, h) + todo[h] == all[h]
  }

  lemma {:induction false} AccountedNext(out: seq<Event>, todo: seq<seq<Change>>, all: seq<seq<Change>>, e: Event,
                                         todo2: seq<seq<Change>>)
    requires Accounted(out, todo, all) && e.handle < |todo| && todo[e.handle] != []
    requires todo[e.handle][0] == (e.step, e.value) && todo2 == todo[e.handle := todo[e.handle][1..]]
    ensures Accounted(out + [e], todo2, all)
  {
    forall h | 0 <= h < |all|
      ensures Of(out + [e], h) + todo2[h] == all[h]
    {
      OfSnoc(out, e, h);
      if h == e.handle {
        assert todo[h] == [todo[h][0]] + todo[h][1..];
      }
    }
  }

  lemma {:induction false} AllAccounted(out: seq<Event>, todo: seq<seq<Change>>, all: seq<seq<Change>>)
    requires Accounted(out, todo, all) && forall h :: 0 <= h < |todo| ==> todo[h] == []
    ensures forall h :: 0 <= h < |all| ==> Of(out, h) == all[h]
  {
    forall h | 0 <= h < |all|
      ensures Of(out, h) == all[h]
    {
      assert Of(out, h) + [] == Of(out, h);
    }
  }

  function SumOf(s: seq<nat>, n: nat): nat
    requires n <= |s|
  {
    if n == 0 then 0 else SumOf(s, n - 1) + s[n - 1]
  }

  function Sum(s: seq<nat>): nat {
    SumOf(s, |s|)
  }

  lemma {:induction false} SumDrops(s: seq<nat>, t: seq<nat>, h: nat, n: nat)
    requires h < |s| && |t| == |s| && t[h] < s[h] && n <= |s| && forall k :: 0 <= k < |s| && k != h ==> t[k] == s[k]
    ensures if h < n then SumOf(t, n) < SumOf(s, n) else SumOf(t, n) == SumOf(s, n)
  {
    if n > 0 {
      SumDrops(s, t, h, n - 1);
    }
  }

  // ---- the traversal ----

  ghost predicate NotBefore(todo: seq<seq<Change>>, i: nat) {
    forall h :: 0 <= h < |todo| && todo[h] != [] ==> i <= todo[h][0].0
  }

  ghost predicate Within(todo: seq<seq<Change>>, m: nat) {
    forall h, k :: 0 <= h < |todo| && 0 <= k < |todo[h]| ==> todo[h][k].0 < m
  }

  lemma {:induction false} Nothing(changes: seq<Change>, m: nat)
    requires changes != [] ==> m <= changes[0].0
    requires forall k :: 0 <= k < |changes| ==> changes[k].0 < m
    ensures changes == []
  {
  }

  /** Every handle's unread bytes hold its changes. */
  ghost predicate Streams(lens: seq<nat>, mem: seq<byte>, headptr: seq<nat>, remaining: seq<nat>, base: seq<nat>,
                          todo: seq<seq<Change>>)
  {
    |headptr| == |remaining| == |base| == |todo| == |lens|
    && forall h :: 0 <= h < |todo| ==> Left(lens[h], mem, headptr[h], remaining[h], base[h], todo[h])
  }

  /** Reading past one record. */
  lemma {:induction false} StreamsStep(lens: seq<nat>, mem: seq<byte>, headptr: seq<nat>, remaining: seq<nat>,
                                       base: seq<nat>, todo: seq<seq<Change>>,
                                       h: nat, skiplen: nat, headptr2: seq<nat>, remaining2: seq<nat>, base2: seq<nat>,
                                           todo2: seq<seq<Change>>)
    requires Streams(lens, mem, headptr, remaining, base, todo) && h < |todo| && todo[h] != []
    requires Readable(lens[h], mem, headptr[h]) && headptr[h] + skiplen == ReadRecord(lens[h], mem, headptr[h]).next
    requires headptr2 == headptr[h := headptr[h] + skiplen] && |remaining2| == |remaining|
             && remaining2[h] == remaining[h] - skiplen
    requires forall g :: 0 <= g < |remaining| && g != h ==> remaining2[g] == remaining[g]
    requires base2 == base[h := todo[h][0].0] && todo2 == todo[h := todo[h][1..]]
    ensures todo[h][0].1 == ReadRecord(lens[h], mem, headptr[h]).value && 0 < skiplen <= remaining[h]
    ensures Streams(lens, mem, headptr2, remaining2, base2, todo2)
  {
    LeftStep(lens[h], mem, headptr[h], remaining[h], base[h], todo[h]);
  }

  /** What the held handle has left does not matter to the buckets. */
  lemma {:induction false} HeldPlaced(todo: seq<seq<Change>>, bs: seq<seq<nat>>, h: nat, changes: seq<Change>)
    requires Placed(todo, bs, h) && h < |todo|
    ensures Placed(todo[h := changes], bs, h)
    ensures changes == [] ==> Placed(todo[h := changes], bs, -1)
  {
    var todo2 := todo[h := changes];
    forall j, g | 0 <= j < |bs| && g in bs[j]
      ensures Due(todo2, g, j) && g != h
    {
      assert Due(todo, g, j);
    }
  }

  lemma {:induction false} NothingHeld(todo: seq<seq<Change>>, bs: seq<seq<nat>>, h: nat)
    requires Placed(todo, bs, h) && h < |todo| && todo[h] == []
    ensures Placed(todo, bs, -1)
  {
    assert todo[h := []] == todo;
    HeldPlaced(todo, bs, h, []);
  }

  /** Taking a change does not take its handle back in time. */
  lemma {:induction false} TakenAhead(todo: seq<seq<Change>>, i: nat, m: nat, h: nat)
    requires NotBefore(todo, i) && Within(todo, m) && h < |todo| && todo[h] != [] && todo[h][0].0 == i
    requires |todo[h]| > 1 ==> todo[h][1].0 >= i
    ensures NotBefore(todo[h := todo[h][1..]], i) && Within(todo[h := todo[h][1..]], m)
  {
    var todo2: seq<seq<Change>> := todo[h := todo[h][1..]];
    forall g: nat, k: nat | g < |todo2| && k < |todo2[g]|
      ensures todo2[g][k].0 < m
    {
      if g == h {
        assert todo2[g][k] == todo[g][k + 1];
      } else {
        assert todo2[g][k] == todo[g][k];
      }
    }
  }

  lemma {:induction false} LeftLonger(len: nat, mem: seq<byte>, more: seq<byte>, at: nat, remaining: nat, base: nat,
                                      todo: seq<Change>)
    requires Left(len, mem, at, remaining, base, todo)
    ensures Left(len, mem + more, at, remaining, base, todo)
  {
    TimelineLonger(len, mem, more, at, at + remaining, base);
  }

  lemma {:induction false} LeftAll(len: nat, mem: seq<byte>, mu: seq<byte>, chain: Chain)
    requires Storable(len, chain) && mu == Payload(len, chain)
    ensures Left(len, mem + mu, |mem|, |mu|, 0, History(len, chain))
  {
    AtEnds(mem, mu);
    PayloadRoundTrip(len, mem + mu, |mem|, chain, |mem| + |mu|);
  }

  lemma {:induction false} NewStream(lens: seq<nat>, mem: seq<byte>, headptr: seq<nat>, remaining: seq<nat>,
                                     base: seq<nat>, todo: seq<seq<Change>>, h: nat, mu: seq<byte>, chain: Chain)
    requires Streams(lens, mem, headptr, remaining, base, todo) && h < |todo|
    requires Storable(lens[h], chain) && mu == Payload(lens[h], chain)
    ensures Streams(lens, mem + mu, headptr[h := |mem|], remaining[h := |mu|], base[h := 0],
                    todo[h := History(lens[h], chain)])
  {
    LeftAll(lens[h], mem, mu, chain);
    forall g | 0 <= g < |todo|
      ensures Left(lens[g], mem + mu, headptr[g], remaining[g], base[g], todo[g])
    {
      LeftLonger(lens[g], mem, mu, headptr[g], remaining[g], base[g], todo[g]);
    }
  }

  lemma {:induction false} NewAhead(todo: seq<seq<Change>>, h: nat, len: nat, chain: Chain, m: nat)
    requires NotBefore(todo, 0) && Within(todo, m) && h < |todo| && Storable(len, chain) && Total(chain) < m
    ensures NotBefore(todo[h := History(len, chain)], 0) && Within(todo[h := History(len, chain)], m)
  {
    forall k | 0 <= k < |History(len, chain)|
      ensures History(len, chain)[k].0 < m
    {
      HistoryTimes(len, chain, k);
    }
  }

  /** A handle without changes is in no bucket. */
  lemma {:induction false} AbsentPlaced(todo: seq<seq<Change>>, bs: seq<seq<nat>>, h: nat)
    requires Placed(todo, bs, -1) && h < |todo| && todo[h] == []
    ensures Placed(todo, bs, h)
  {
    forall j, g | 0 <= j < |bs| && g in bs[j]
      ensures Due(todo, g, j) && g != h
    {
      assert Due(todo, g, j);
    }
  }

  class Traversal {
    const lens: seq<nat>
    var mem: seq<byte>
    var headptr: seq<nat>
    var remaining: seq<nat>
    var scatter: seq<nat>
    var tcHead: seq<nat>
    /** The buckets as lists, the changes left, and the time steps of those delivered last. */
    ghost var buckets: seq<seq<nat>>
    ghost var todo: seq<seq<Change>>
    ghost var base: seq<nat>

    /** Every handle with changes left is in the bucket of the next one, except `held`. */
    ghost predicate Queued(held: int)
      reads this`scatter, this`tcHead, this`buckets, this`todo
    {
      |scatter| == |todo| && AllLinked(scatter, tcHead, buckets) && Placed(todo, buckets, held)
    }

    /** At time step `i`. */
    ghost predicate Valid(i: nat)
      reads this
    {
      Queued(-1) && Streams(lens, mem, headptr, remaining, base, todo) && NotBefore(todo, i) && Within(todo, |tcHead|)
    }

    constructor (lens: seq<nat>, nitems: nat)
      ensures Valid(0) && this.lens == lens && |tcHead| == nitems && todo == seq(|lens|, _ => [])
    {
      this.lens := lens;
      mem := [];
      headptr, remaining, base := seq(|lens|, _ => 0), seq(|lens|, _ => 0), seq(|lens|, _ => 0);
      scatter, tcHead := seq(|lens|, _ => 0), seq(nitems, _ => 0);
      buckets, todo := seq(nitems, _ => []), seq(|lens|, _ => []);
    }

    /** Adds a handle's data to the buffer and puts the handle into its first bucket. */
    method Load(idx: nat, mu: seq<byte>, ghost chain: Chain)
      requires Valid(0) && idx < |todo| && todo[idx] == []
      requires Storable(lens[idx], chain) && chain.Link? && Total(chain) < |tcHead| && mu == Payload(lens[idx], chain)
      modifies this
      ensures Valid(0) && |tcHead| == |old(tcHead)| && todo == old(todo)[idx := History(lens[idx], chain)]
    {
      NewStream(lens, mem, headptr, remaining, base, todo, idx, mu, chain);
      NewAhead(todo, idx, lens[idx], chain, |tcHead|);
      AbsentPlaced(todo, buckets, idx);
      HeldPlaced(todo, buckets, idx, History(lens[idx], chain));
      headptr := headptr[idx := |mem|];
      remaining := remaining[idx := |mu|];
      base := base[idx := 0];
      mem := mem + mu;
      todo := todo[idx := History(lens[idx], chain)];
      Relink(0, idx);
    }

    /** A handle with bytes left is in exactly one bucket, once, and not in one that has passed. */
    lemma {:induction false} InOneBucket(i: nat, h: nat)
      requires Valid(i) && h < |todo| && remaining[h] > 0
      ensures todo[h] != [] && i <= todo[h][0].0 < |tcHead|
      ensures forall j :: 0 <= j < |buckets| ==> (h in buckets[j] <==> j == todo[h][0].0)
      ensures multiset(buckets[todo[h][0].0])[h] == 1
    {
      LeftStep(lens[h], mem, headptr[h], remaining[h], base[h], todo[h]);
      var b := buckets[todo[h][0].0];
      assert Linked(scatter, tcHead[todo[h][0].0], b);
      Once(b, h);
    }

    /** Takes the first handle out of bucket `i`. */
    method Unlink(i: nat) returns (idx: nat)
      requires Queued(-1) && i < |tcHead| && tcHead[i] != 0
      modifies this`tcHead, this`scatter, this`buckets
      ensures Queued(idx) && Due(todo, idx, i) && |tcHead| == |old(tcHead)|
    {
      idx := tcHead[i] - 1;
      FirstDue(scatter, tcHead, buckets, todo, i, idx);
      ghost var rest := buckets[i][1..];
      assert buckets[i] == [idx] + rest;
      PopLinked(scatter, tcHead, buckets, i, idx, rest);
      PopPlaced(buckets, todo, i, idx, rest);
      tcHead := tcHead[i := scatter[idx]];
      scatter := scatter[idx := 0];
      buckets := buckets[i := rest];
    }

    /** Reads the first change of a handle that is due. */
    method Consume(i: nat, idx: nat) returns (value: seq<byte>)
      requires Streams(lens, mem, headptr, remaining, base, todo) && Due(todo, idx, i)
      modifies this`headptr, this`remaining, this`base, this`todo
      ensures Streams(lens, mem, headptr, remaining, base, todo) && base == old(base)[idx := i]
      ensures old(todo)[idx][0] == (i, value) && todo == old(todo)[idx := old(todo)[idx][1..]]
      ensures Sum(remaining) < Sum(old(remaining))
    {
      DueReadable(lens[idx], mem, headptr[idx], remaining[idx], base[idx], todo[idx]);
      var skiplen;
      value, skiplen := TakeValue(mem, headptr[idx], lens[idx]);
      Shrinks(lens[idx], mem, headptr[idx], remaining[idx], base[idx], todo[idx], skiplen);
      ghost var headptr0, remaining0, base0, todo0 := headptr, remaining, base, todo;
      headptr := headptr[idx := headptr[idx] + skiplen];
      remaining := remaining[idx := remaining[idx] - skiplen];
      base := base[idx := i];
      todo := todo[idx := todo[idx][1..]];
      StreamsStep(lens, mem, headptr0, remaining0, base0, todo0, idx, skiplen, headptr, remaining, base, todo);
      SumDrops(remaining0, remaining, idx, |remaining0|);
    }

    /** Puts a handle at the front of a bucket. */
    method Push(j: nat, idx: nat)
      requires Queued(idx) && j < |tcHead| && Due(todo, idx, j)
      modifies this`tcHead, this`scatter, this`buckets
      ensures Queued(-1) && |tcHead| == |old(tcHead)|
    {
      PushPlaced(buckets, todo, j, idx);
      PushLinked(scatter, tcHead, buckets, j, idx);
      scatter := scatter[idx := tcHead[j]];
      tcHead := tcHead[j := idx + 1];
      buckets := buckets[j := [idx] + buckets[j]];
    }

    /** Puts a handle into the bucket of its next change, if it has one. */
    method Relink(i: nat, idx: nat)
      requires Queued(idx) && Streams(lens, mem, headptr, remaining, base, todo) && idx < |todo| && base[idx] == i
      requires Within(todo, |tcHead|)
      modifies this`tcHead, this`scatter, this`buckets
      ensures Queued(-1) && |tcHead| == |old(tcHead)|
    {
      LeftStep(lens[idx], mem, headptr[idx], remaining[idx], base[idx], todo[idx]);
      if remaining[idx] != 0 {
        var tdelta := PeekDelta(mem, headptr[idx], lens[idx]);
        Push(i + tdelta, idx);
      } else {
        NothingHeld(todo, buckets, idx);
      }
    }

    /** Delivers the first change of the current bucket and moves its handle to the bucket of the
        next one. */
    method TakeNext(i: nat) returns (idx: nat, value: seq<byte>)
      requires Valid(i) && i < |tcHead| && tcHead[i] != 0
      modifies this
      ensures Valid(i) && |tcHead| == |old(tcHead)|
      ensures idx < |todo| && old(todo)[idx] != [] && old(todo)[idx][0] == (i, value)
      ensures todo == old(todo)[idx := old(todo)[idx][1..]] && Sum(remaining) < Sum(old(remaining))
    {
      idx := Unlink(i);
      ghost var before := todo;
      value := Consume(i, idx);
      HeldPlaced(before, buckets, idx, todo[idx]);
      LeftStep(lens[idx], mem, headptr[idx], remaining[idx], base[idx], todo[idx]);
      TakenAhead(before, i, |tcHead|, idx);
      Relink(i, idx);
    }

    /** Delivers all changes of step `i`. */
    method Drain(i: nat, out0: seq<Event>, ghost all: seq<seq<Change>>) returns (out: seq<Event>)
      requires Valid(i) && i < |tcHead| && Accounted(out0, todo, all) && InOrderBelow(out0, i)
      modifies this
      ensures Valid(i + 1) && |tcHead| == |old(tcHead)| && Accounted(out, todo, all) && InOrderBelow(out, i + 1)
    {
      out := out0;
      while tcHead[i] != 0
        invariant |tcHead| == |old(tcHead)| && Valid(i) && Accounted(out, todo, all) && InOrderBelow(out, i + 1)
        decreases Sum(remaining)
      {
        ghost var before := todo;
        var idx, value := TakeNext(i);
        AccountedNext(out, before, all, Event(i, idx, value), todo);
        out := out + [Event(i, idx, value)];
      }
      EmptyBucket(i);
    }

    /** Walks the time steps: delivers every change of every handle, each handle's in its order and
        all of them by time, and reads every byte. */
    method Run() returns (out: seq<Event>)
      requires Valid(0)
      modifies this
      ensures InOrder(out) && forall k :: 0 <= k < |out| ==> out[k].step < |old(tcHead)| && out[k].handle < |old(todo)|
      ensures forall h :: 0 <= h < |old(todo)| ==> Of(out, h) == old(todo)[h]
      ensures |remaining| == |old(remaining)| && forall h :: 0 <= h < |remaining| ==> remaining[h] == 0
    {
      out := [];
      ghost var all, m := todo, |tcHead|;
      for i := 0 to |tcHead|
        invariant |tcHead| == m && Valid(i) && Accounted(out, todo, all) && InOrderBelow(out, i)
      {
        out := Drain(i, out, all);
      }
      AllDone(m);
      AllAccounted(out, todo, all);
    }

    /** Once its bucket is empty, the step is over. */
    lemma {:induction false} EmptyBucket(i: nat)
      requires Valid(i) && i < |tcHead| && tcHead[i] == 0
      ensures Valid(i + 1)
    {
      assert Linked(scatter, tcHead[i], buckets[i]);
      forall h | 0 <= h < |todo| && todo[h] != []
        ensures i + 1 <= todo[h][0].0
      {
        assert h in buckets[todo[h][0].0];
      }
    }

    lemma {:induction false} AllDone(m: nat)
      requires Valid(m) && m == |tcHead|
      ensures forall h :: 0 <= h < |todo| ==> todo[h] == [] && remaining[h] == 0
    {
      forall h | 0 <= h < |todo|
        ensures todo[h] == [] && remaining[h] == 0
      {
        Nothing(todo[h], m);
        LeftStep(lens[h], mem, headptr[h], remaining[h], base[h], todo[h]);
      }
    }
  }
}
