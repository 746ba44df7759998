/** The writer: value and time changes collect in memory; a flush turns them into a section. */
module FstWriter {
  import opened Bytes
  import opened FstVarint
  import opened Leb128
  import opened FstRecord
  import opened FstChain
  import opened FstIndex
  import opened FstJenkins
  import opened FstLayout
  import opened FstSection
  import opened FstTimes

  const TWO28 := 0x1000_0000

  // ---- chains in the change buffer ----

  /** A handle's row: its newest record, and the time index of that. */
  ghost predicate Row(vchg: seq<byte>, len: nat, offs: nat, last: nat, tchnIdx: nat, chain: Chain) {
    Represents(vchg, offs, |vchg|, len, chain) && Storable(len, chain) && Total(chain) == last <= tchnIdx
  }

  lemma {:induction false} RowStays(vchg: seq<byte>, more: seq<byte>, len: nat, offs: nat, last: nat, tchnIdx: nat,
                                    later: nat, chain: Chain)
    requires Row(vchg, len, offs, last, tchnIdx, chain) && tchnIdx <= later
    ensures Row(vchg + more, len, offs, last, later, chain)
  {
    RepresentsExtended(vchg, more, offs, |vchg|, len, chain);
    RepresentsWider(vchg + more, offs, |vchg|, |vchg + more|, len, chain);
  }

  lemma {:induction false} RowGrows(vchg: seq<byte>, len: nat, offs: nat, last: nat, tchnIdx: nat, chain: Chain,
                                    value: seq<byte>, rec: seq<byte>)
    requires Row(vchg, len, offs, last, tchnIdx, chain) && offs < |vchg| < TWO31
             && StorableChange(len, tchnIdx - last, value)
    requires rec == Le32(offs) + ChangeBytes(len, tchnIdx - last, value)
    ensures Row(vchg + rec, len, |vchg|, tchnIdx, tchnIdx, Link(chain, tchnIdx - last, value))
  {
    RepresentsLinked(vchg, offs, len, chain, tchnIdx - last, value, rec);
  }

  lemma {:induction false} OffsetInside(vchg: seq<byte>, len: nat, offs: nat, chain: Chain)
    requires Represents(vchg, offs, |vchg|, len, chain) && |vchg| > 0
    ensures offs < |vchg|
    ensures offs == 0 <==> chain.Nil?
  {
  }

  ghost predicate Rows(vchg: seq<byte>, lens: seq<nat>, offs: seq<nat>, last: seq<nat>, tchnIdx: nat,
                       chains: seq<Chain>)
  {
    |offs| == |last| == |chains| == |lens|
    && forall h {:trigger Row(vchg, lens[h], offs[h], last[h], tchnIdx, chains[h])} ::
         0 <= h < |lens| ==> Row(vchg, lens[h], offs[h], last[h], tchnIdx, chains[h])
  }

  lemma {:induction false} RowsLater(vchg: seq<byte>, lens: seq<nat>, offs: seq<nat>, last: seq<nat>, tchnIdx: nat,
                                     later: nat, chains: seq<Chain>)
    requires Rows(vchg, lens, offs, last, tchnIdx, chains) && tchnIdx <= later
    ensures Rows(vchg, lens, offs, last, later, chains)
  {
    forall h | 0 <= h < |lens|
      ensures Row(vchg, lens[h], offs[h], last[h], later, chains[h])
    {
      assert Row(vchg, lens[h], offs[h], last[h], tchnIdx, chains[h]);
    }
  }

  lemma {:induction false} RowsGrow(vchg: seq<byte>, lens: seq<nat>, offs: seq<nat>, last: seq<nat>, tchnIdx: nat,
                                    chains: seq<Chain>,
                                    h: nat, value: seq<byte>, rec: seq<byte>, delta: nat, chains2: seq<Chain>)
    requires Rows(vchg, lens, offs, last, tchnIdx, chains) && h < |lens| && 0 < |vchg| < TWO31
    requires delta == tchnIdx - last[h] && StorableChange(lens[h], delta, value)
    requires rec == Le32(offs[h]) + ChangeBytes(lens[h], delta, value)
             && chains2 == chains[h := Link(chains[h], delta, value)]
    ensures Rows(vchg + rec, lens, offs[h := |vchg|], last[h := tchnIdx], tchnIdx, chains2)
  {
    forall g | 0 <= g < |lens|
      ensures g != h ==> Row(vchg + rec, lens[g], offs[g], last[g], tchnIdx, chains[g])
      ensures g == h ==> Row(vchg + rec, lens[h], |vchg|, tchnIdx, tchnIdx, Link(chains[h], delta, value))
    {
      assert Row(vchg, lens[g], offs[g], last[g], tchnIdx, chains[g]);
      if g == h {
        OffsetInside(vchg, lens[h], offs[h], chains[h]);
        RowGrows(vchg, lens[h], offs[h], last[h], tchnIdx, chains[h], value, rec);
      } else {
        RowStays(vchg, rec, lens[g], offs[g], last[g], tchnIdx, tchnIdx, chains[g]);
      }
    }
  }

  /** The chain with a change at time index `idx`. */
  function Grown(chain: Chain, idx: nat, value: seq<byte>): Chain {
    Link(chain, if Total(chain) <= idx then idx - Total(chain) else 0, value)
  }

  function VarintSize(v: nat): nat {
    if v < 128 then 1 else 1 + VarintSize(v / 128)
  }

  lemma {:induction false} VarintSizes(v: nat)
    ensures |Varint(v)| == VarintSize(v)
  {
    if v >= 128 {
      VarintSizes(v / 128);
    }
  }

  /** What a change of `size` bytes takes in the change buffer. */
  function RecordSize(len: nat, delta: int, size: nat): nat {
    4 + (if delta < 0 then 0 else VarintSize(delta)) + (if len == 0 then VarintSize(size) else 0) + size
  }

  // ---- flushing ----

  ghost predicate AllStorable(lens: seq<nat>, chains: seq<Chain>) {
    |chains| == |lens| && forall h :: 0 <= h < |lens| ==> Storable(lens[h], chains[h])
  }

  function PayloadsOf(lens: seq<nat>, chains: seq<Chain>): (ps: seq<seq<byte>>)
    requires AllStorable(lens, chains)
    ensures |ps| == |lens| && forall h :: 0 <= h < |lens| ==> ps[h] == Payload(lens[h], chains[h])
  {
    seq(|lens|, h requires 0 <= h < |lens| => Payload(lens[h], chains[h]))
  }

  lemma {:induction false} PayloadPresent(len: nat, chain: Chain)
    requires Storable(len, chain)
    ensures Payload(len, chain) == [] <==> chain.Nil?
  {
  }

  /** A handle's value once all its changes have happened. */
  function LastValue(len: nat, chain: Chain, value: seq<byte>): seq<byte> {
    if len > 0 && chain.Link? then chain.value else value
  }

  /** One handle: re-encodes its chain, finds its newest value, and adds its chunk. */
  method FlushHandle(c: Codec, vchg: seq<byte>, len: nat, offs: nat, value: seq<byte>, i: nat, fpos0: nat,
                     scratch: array<byte>, table: Table, ghost chain: Chain, ghost ps: seq<seq<byte>>)
      returns (f: seq<byte>, word: int, fpos: nat, last: seq<byte>)
    requires scratch.Length == |vchg| > 0 && Represents(vchg, offs, |vchg|, len, chain) && Storable(len, chain)
    requires table.Valid() && i < |ps| && ps[i] == Payload(len, chain) && Interned(c, ps, i, table.Marks())
    modifies scratch, table
    ensures table.Valid() && Interned(c, ps, i + 1, table.Marks())
    ensures f == Piece(SlotOf(c, ps, i)) && fpos == fpos0 + |f| && word == WordOf(SlotOf(c, ps, i), fpos0)
    ensures last == LastValue(len, chain, value)
  {
    f, word, fpos, last := [], 0, fpos0, value;
    PayloadPresent(len, chain);
    OffsetInside(vchg, len, offs, chain);
    if offs != 0 {
      if len != 0 {
        var next, delta;
        next, delta, last := Follow(vchg, offs, |vchg|, len, chain);
      }
      var pnt := EncodeChain(vchg, offs, len, scratch, chain);
      f, word, fpos := PutChunk(c, table, scratch[pnt..], i, fpos0, ps);
    } else {
      ghost var marks := table.Marks();
      InternedNext(c, ps, i, marks, marks);
    }
  }

  /** A handle's table word: its offset, or minus the number of the handle it shares with. */
  function WordOf(slot: Slot, fpos: nat): int {
    match slot
    case None => 0
    case Own(_) => fpos
    case Same(target) => TWO32 - (target + 1)
  }

  /** The words so far are those of the index entries. */
  ghost predicate WordsFor(slots: seq<Slot>, words: seq<int>, n: nat) {
    n <= |slots| && |words| == n && forall k :: 0 <= k < n ==> words[k] == Word(EntryOf(slots, k))
  }

  lemma {:induction false} WordNext(slots: seq<Slot>, words: seq<int>, i: nat, f: seq<byte>, piece: seq<byte>,
                                    word: int, fpos: nat)
    requires i < |slots| && WordsFor(slots, words, i) && f == Data(slots, i) && fpos == 1 + |f|
    requires piece == Piece(slots[i]) && word == WordOf(slots[i], fpos)
    ensures WordsFor(slots, words + [word], i + 1) && f + piece == Data(slots, i + 1)
  {
  }

  /** The first `n` values of the next section's frame. */
  ghost predicate FrameFor(lens: seq<nat>, chains: seq<Chain>, curval: seq<seq<byte>>, frame: seq<seq<byte>>, n: nat) {
    |chains| == |curval| == |lens| && n <= |lens| && |frame| == n
    && forall h {:trigger frame[h]} :: 0 <= h < n ==> frame[h] == LastValue(lens[h], chains[h], curval[h])
  }

  lemma {:induction false} FrameNext(lens: seq<nat>, chains: seq<Chain>, curval: seq<seq<byte>>, frame: seq<seq<byte>>,
                                     i: nat, value: seq<byte>)
    requires i < |lens| && FrameFor(lens, chains, curval, frame, i) && value == LastValue(lens[i], chains[i], curval[i])
    ensures FrameFor(lens, chains, curval, frame + [value], i + 1)
  {
  }

  /** The chunks of all handles, their table words, and every handle's last value. */
  method FlushHandles(c: Codec, hash: seq<byte> -> nat, hashmask: nat, vchg: seq<byte>, lens: seq<nat>, offs: seq<nat>,
                      curval: seq<seq<byte>>,
                      ghost last: seq<nat>, ghost tchnIdx: nat, ghost chains: seq<Chain>, ghost ps: seq<seq<byte>>,
                          ghost slots: seq<Slot>)
      returns (f: seq<byte>, words: seq<int>, frame: seq<seq<byte>>)
    requires Rows(vchg, lens, offs, last, tchnIdx, chains) && |curval| == |lens| && |vchg| > 0
    requires AllStorable(lens, chains) && ps == PayloadsOf(lens, chains) && slots == Slots(c, ps)
    ensures f == Data(slots, |slots|) && WordsFor(slots, words, |slots|)
    ensures FrameFor(lens, chains, curval, frame, |lens|)
  {
    var scratch := new byte[|vchg|];
    var table := new Table(hash, hashmask);
    var fpos := 1;
    f, words, frame := [], [], [];
    assert Interned(c, ps, 0, table.Marks());
    for i := 0 to |lens|
      invariant scratch.Length == |vchg| && table.Valid() && Interned(c, ps, i, table.Marks())
      invariant f == Data(slots, i) && fpos == 1 + |f| && WordsFor(slots, words, i)
      invariant FrameFor(lens, chains, curval, frame, i)
    {
      assert Row(vchg, lens[i], offs[i], last[i], tchnIdx, chains[i]);
      var piece, word, next, value := FlushHandle(c, vchg, lens[i], offs[i], curval[i], i, fpos, scratch, table,
                                                  chains[i], ps);
      WordNext(slots, words, i, f, piece, word, fpos);
      FrameNext(lens, chains, curval, frame, i, value);
      f, words, frame, fpos := f + piece, words + [word], frame + [value], next;
    }
  }

  lemma {:induction false} RowsStorable(vchg: seq<byte>, lens: seq<nat>, offs: seq<nat>, last: seq<nat>, tchnIdx: nat,
                                        chains: seq<Chain>)
    requires Rows(vchg, lens, offs, last, tchnIdx, chains)
    ensures AllStorable(lens, chains)
  {
    forall h | 0 <= h < |lens|
      ensures Storable(lens[h], chains[h])
    {
      assert Row(vchg, lens[h], offs[h], last[h], tchnIdx, chains[h]);
    }
  }

  /** A finished section. Its frame and its begin time were written with its header, before its
      changes came in. */
  datatype Section = Section(frame: seq<seq<byte>>, begin: nat, end: nat, data: seq<byte>, index: seq<byte>,
                             tchn: seq<byte>, count: nat)

  /** The section for these chains and times. */
  function SectionOf(c: Codec, lens: seq<nat>, chains: seq<Chain>, times: Times, frame: seq<seq<byte>>, begin: nat,
                     end: nat): Section
    requires AllStorable(lens, chains) && Rising(times)
  {
    var slots := Slots(c, PayloadsOf(lens, chains));
    Section(frame, begin, end, Data(slots, |slots|), EncodeIndex(Entries(slots)), EncodeTimes(times), Ticks(times))
  }

  function DataSize(c: Codec, lens: seq<nat>, chains: seq<Chain>): nat
    requires AllStorable(lens, chains)
  {
    var slots := Slots(c, PayloadsOf(lens, chains));
    |Data(slots, |slots|)|
  }

  function Nils(n: nat): (chains: seq<Chain>)
    ensures |chains| == n && forall h :: 0 <= h < n ==> chains[h] == Nil
  {
    seq(n, _ => Nil)
  }

  /** Every handle's value, whether it is still in the change buffer or not. */
  function ValuesOf(lens: seq<nat>, chains: seq<Chain>, curval: seq<seq<byte>>): (values: seq<seq<byte>>)
    requires |chains| == |curval| == |lens|
    ensures FrameFor(lens, chains, curval, values, |lens|)
  {
    seq(|lens|, h requires 0 <= h < |lens| => LastValue(lens[h], chains[h], curval[h]))
  }

  lemma {:induction false} ValuesOfNils(lens: seq<nat>, curval: seq<seq<byte>>)
    requires |curval| == |lens|
    ensures ValuesOf(lens, Nils(|lens|), curval) == curval
  {
  }

  lemma {:induction false} ValuesOfNext(lens: seq<nat>, chains: seq<Chain>, curval: seq<seq<byte>>, h: nat, delta: nat,
                                        value: seq<byte>)
    requires |chains| == |curval| == |lens| && h < |lens|
    ensures ValuesOf(lens, chains[h := Link(chains[h], delta, value)], curval)
            == if lens[h] > 0 then ValuesOf(lens, chains, curval)[h := value] else ValuesOf(lens, chains, curval)
  {
  }

  lemma {:induction false} ValuesOfInitial(lens: seq<nat>, chains: seq<Chain>, curval: seq<seq<byte>>, h: nat,
                                           value: seq<byte>)
    requires |chains| == |curval| == |lens| && h < |lens| && lens[h] > 0 && chains[h].Nil?
    ensures ValuesOf(lens, chains, curval[h := value]) == ValuesOf(lens, chains, curval)[h := value]
  {
  }

  /** The link, the time step and the value of a buffer record. */
  method BuildRecord(offs: nat, len: nat, delta: nat, val: seq<byte>) returns (rec: seq<byte>)
    ensures rec == Le32(offs) + ChangeBytes(len, delta, val) && |rec| == RecordSize(len, delta, |val|)
    ensures delta < TWO32 && |val| < TWO32 ==> |rec| <= |val| + 14
  {
    if delta < TWO32 && |val| < TWO32 {
      VarintShort(delta);
      VarintShort(|val|);
    }
    VarintSizes(delta);
    VarintSizes(|val|);
    var step := PutVarint(delta);
    var rest := val;
    if len == 0 {
      var size := PutVarint(|val|);
      rest := size + val;
    }
    rec := Le32(offs) + (step + rest);
  }

  /** The time list and what it encodes. */
  ghost predicate Ticking(times: Times, tchn: seq<byte>, tchnCnt: nat) {
    Rising(times) && tchn == EncodeTimes(times) && tchnCnt == Ticks(times)
  }

  /** Before the first time change only variable-length values are in the buffer. */
  ghost predicate Untimed(lens: seq<nat>, chains: seq<Chain>) {
    |chains| == |lens| && forall h {:trigger chains[h]} :: 0 <= h < |lens| && lens[h] > 0 ==> chains[h].Nil?
  }

  lemma {:induction false} UntimedNext(lens: seq<nat>, chains: seq<Chain>, h: nat, delta: nat, val: seq<byte>)
    requires h < |lens| == |chains|
    ensures Untimed(lens, chains) && lens[h] == 0 ==> Untimed(lens, chains[h := Link(chains[h], delta, val)])
  {
  }

  ghost predicate Sized(lens: seq<nat>, curval: seq<seq<byte>>) {
    |curval| == |lens| && forall h {:trigger curval[h]} :: 0 <= h < |lens| ==> |curval[h]| == lens[h]
  }

  lemma {:induction false} NotLater(vchg: seq<byte>, lens: seq<nat>, offs: seq<nat>, last: seq<nat>, tchnIdx: nat,
                                    chains: seq<Chain>, h: nat)
    requires Rows(vchg, lens, offs, last, tchnIdx, chains) && h < |lens|
    ensures Total(chains[h]) == last[h] <= tchnIdx
  {
    assert Row(vchg, lens[h], offs[h], last[h], tchnIdx, chains[h]);
  }

  lemma {:induction false} RecordLinked(vchg: seq<byte>, lens: seq<nat>, offs: seq<nat>, last: seq<nat>, tchnIdx: nat,
                                        chains: seq<Chain>, curval: seq<seq<byte>>, h: nat, val: seq<byte>,
                                        rec: seq<byte>, chains2: seq<Chain>)
    requires Rows(vchg, lens, offs, last, tchnIdx, chains) && h < |lens| && |curval| == |lens|
    requires 0 < |vchg| < TWO31 && last[h] <= tchnIdx < TWO28
    requires (lens[h] > 0 ==> |val| == lens[h]) && |val| < TWO32
    requires rec == Le32(offs[h]) + ChangeBytes(lens[h], tchnIdx - last[h], val)
             && chains2 == chains[h := Grown(chains[h], tchnIdx, val)]
    ensures Rows(vchg + rec, lens, offs[h := |vchg|], last[h := tchnIdx], tchnIdx, chains2)
    ensures ValuesOf(lens, chains2, curval) == if lens[h] > 0 then ValuesOf(lens, chains, curval)[h := val]
            else ValuesOf(lens, chains, curval)
    ensures Untimed(lens, chains) && lens[h] == 0 ==> Untimed(lens, chains2)
  {
    NotLater(vchg, lens, offs, last, tchnIdx, chains, h);
    var delta := tchnIdx - last[h];
    RowsGrow(vchg, lens, offs, last, tchnIdx, chains, h, val, rec, delta, chains2);
    ValuesOfNext(lens, chains, curval, h, delta, val);
    UntimedNext(lens, chains, h, delta, val);
  }

  /** The first record of an empty buffer lies at the offset that stands for none: it is in no chain. */
  lemma {:induction false} RecordAdrift(lens: seq<nat>, offs: seq<nat>, last: seq<nat>, chains: seq<Chain>, h: nat,
                                        rec: seq<byte>)
    requires Rows([], lens, offs, last, 0, chains) && h < |lens|
    ensures Rows([] + rec, lens, offs[h := 0], last[h := 0], 0, chains)
  {
    forall g | 0 <= g < |lens|
      ensures offs[g] == last[g] == 0 && Row([] + rec, lens[g], 0, 0, 0, chains[g])
    {
      assert Row([], lens[g], offs[g], last[g], 0, chains[g]);
      RowStays([], rec, lens[g], offs[g], last[g], 0, 0, chains[g]);
    }
  }

  /** The chains after a record; the buffer can be empty only before the first time change. */
  function Recorded(vchg: seq<byte>, chains: seq<Chain>, h: nat, idx: nat, val: seq<byte>): (r: seq<Chain>)
    requires h < |chains|
    ensures |r| == |chains|
  {
    if vchg == [] then chains else chains[h := Grown(chains[h], idx, val)]
  }

  /** What a new record does to the tables. */
  lemma {:induction false} RecordKeeps(vchg: seq<byte>, lens: seq<nat>, offs: seq<nat>, last: seq<nat>, tchnIdx: nat,
                                       chains: seq<Chain>, curval: seq<seq<byte>>, h: nat, val: seq<byte>,
                                       rec: seq<byte>, chains2: seq<Chain>)
    requires Rows(vchg, lens, offs, last, tchnIdx, chains) && h < |lens| && |curval| == |lens|
    requires |vchg| < TWO31 && last[h] <= tchnIdx < TWO28 && (vchg == [] ==> tchnIdx == 0 && lens[h] == 0)
    requires (lens[h] > 0 ==> |val| == lens[h]) && |val| < TWO32
    requires rec == Le32(offs[h]) + ChangeBytes(lens[h], tchnIdx - last[h], val)
             && chains2 == Recorded(vchg, chains, h, tchnIdx, val)
    ensures Rows(vchg + rec, lens, offs[h := |vchg|], last[h := tchnIdx], tchnIdx, chains2)
    ensures ValuesOf(lens, chains2, curval) == if lens[h] > 0 then ValuesOf(lens, chains, curval)[h := val]
            else ValuesOf(lens, chains, curval)
    ensures Untimed(lens, chains) && lens[h] == 0 ==> Untimed(lens, chains2)
  {
    if vchg == [] {
      RecordAdrift(lens, offs, last, chains, h, rec);
    } else {
      RecordLinked(vchg, lens, offs, last, tchnIdx, chains, curval, h, val, rec, chains2);
    }
  }

  lemma {:induction false} UntimedValues(lens: seq<nat>, chains: seq<Chain>, curval: seq<seq<byte>>)
    requires Untimed(lens, chains) && |curval| == |lens|
    ensures ValuesOf(lens, chains, curval) == curval
  {
  }

  lemma {:induction false} RowsOfNils(lens: seq<nat>, zeros: seq<nat>)
    requires |zeros| == |lens| && forall h :: 0 <= h < |lens| ==> zeros[h] == 0
    ensures Rows([33], lens, zeros, zeros, 0, Nils(|lens|)) && Ticking(Start, [], 0)
  {
  }

  /** As much of the writer's state as a flush and a time change touch: what the section holds that is
      being filled, and its header. */
  datatype Page = Page(chains: seq<Chain>, times: Times, idx: nat, cnt: nat, size: nat, frame: seq<seq<byte>>,
                       begin: nat, now: nat)

  /** A section that begins `now` with these values. */
  function Blank(values: seq<seq<byte>>, now: nat): Page {
    Page(Nils(|values|), Start, 0, 0, 1, values, now, now)
  }

  /** The time list gets the current time, then the next one; the time index counts only the latter. */
  function Turned(p: Page, tim: nat): Page {
    var latest := Latest(p.times);
    p.(times := Tick(Tick(p.times, latest + p.now), latest + tim), idx := p.idx + 1, cnt := p.cnt + 2, now := tim)
  }

  /** The time list and the time index go on together. */
  function Ticked(p: Page, tim: nat): Page
    requires p.now <= tim
  {
    p.(times := Tick(p.times, Latest(p.times) + (tim - p.now)), idx := p.idx + 1, cnt := p.cnt + 1, now := tim)
  }

  /** The first section begins with these values, and its first time is `tim`. */
  function Opened(values: seq<seq<byte>>, begin: nat, tim: nat): Page {
    Page(Nils(|values|), Tick(Start, tim), 0, 1, 1, values, begin, tim)
  }

  /** The time index names the last entry of the time list, and that is the current time. */
  ghost predicate Synced(p: Page) {
    p.cnt == p.idx + 1 && Latest(p.times) == p.now
  }

  lemma {:induction false} TurnedSynced(p: Page, tim: nat)
    ensures Synced(Turned(p, tim)) <==> p.cnt == p.idx && Latest(p.times) == 0
  {
  }

  /** A section begins not after its first time. */
  ghost predicate Dated(p: Page) {
    p.begin <= p.now && p.times.Tick? && p.begin <= First(p.times)
  }

  lemma {:induction false} TurnedDated(p: Page, tim: nat)
    requires p.now <= tim
    ensures Dated(p) || (p.times.Start? && p.begin == p.now) ==> Dated(Turned(p, tim))
  {
    var latest := Latest(p.times);
    assert First(Tick(p.times, latest + p.now)) == if p.times.Tick? then First(p.times) else p.now;
  }

  /** All times of the list lie within the section. */
  ghost predicate Spans(times: Times, begin: nat, end: nat) {
    forall k :: 0 <= k < |TimeTable(times)| ==> begin <= TimeTable(times)[k] <= end
  }

  lemma {:induction false} HeldSpans(p: Page)
    ensures Dated(p) && Synced(p) && Rising(p.times) ==> Spans(p.times, p.begin, p.now)
  {
    if Dated(p) && Synced(p) && Rising(p.times) {
      TableSpans(p.times, p.begin, p.now);
    }
  }

  class Writer {
    const c: Codec
    const hash: seq<byte> -> nat
    const hashmask: nat
    const lens: seq<nat>
    const breakSize: nat
    var offs: seq<nat>
    var last: seq<nat>
    var vchg: seq<byte>
    var curval: seq<seq<byte>>
    var tchn: seq<byte>
    var tchnCnt: nat
    var tchnIdx: nat
    var curtime: nat
    var firsttime: nat
    var isInitialTime: bool
    var vcEmitted: bool
    var mapped: bool
    var flushPending: bool
    /** The header of the section that is being filled. */
    var frame: seq<seq<byte>>
    var begin: nat
    /** The changes and the times in it. */
    ghost var chains: seq<Chain>
    ghost var times: Times

    ghost predicate Valid()
      reads this`vchg, this`offs, this`last, this`chains, this`tchnIdx, this`tchnCnt, this`tchn, this`times,
            this`curval, this`isInitialTime, this`curtime
    {
      && Rows(vchg, lens, offs, last, tchnIdx, chains) && |lens| < TWO31 && breakSize > 1
      && Sized(lens, curval) && Ticking(times, tchn, tchnCnt)
      && if isInitialTime then times.Start? && tchnIdx == 0 && curtime == 0 && Untimed(lens, chains) else |vchg| > 0
    }

    /** The time index names the last entry of the time list, and that is the current time. */
    ghost predicate InStep()
      reads this`isInitialTime, this`tchnCnt, this`tchnIdx, this`times, this`curtime
    {
      !isInitialTime ==> tchnCnt == tchnIdx + 1 && Latest(times) == curtime
    }

    ghost function Held(): Page
      reads this`chains, this`times, this`tchnIdx, this`tchnCnt, this`vchg, this`frame, this`begin, this`curtime
    {
      Page(chains, times, tchnIdx, tchnCnt, |vchg|, frame, begin, curtime)
    }

    ghost function Values(): seq<seq<byte>>
      requires Valid()
      reads this`vchg, this`offs, this`last, this`chains, this`tchnIdx, this`tchnCnt, this`tchn, this`times,
            this`curval, this`isInitialTime, this`curtime
    {
      ValuesOf(lens, chains, curval)
    }

    /** The section so far, as a flush would write it. */
    ghost function Pending(): Section
      requires Valid()
      reads this`vchg, this`offs, this`last, this`chains, this`tchnIdx, this`tchnCnt, this`tchn, this`times,
            this`curval, this`isInitialTime, this`curtime, this`frame, this`begin
    {
      RowsStorable(vchg, lens, offs, last, tchnIdx, chains);
      SectionOf(c, lens, chains, times, frame, begin, curtime)
    }

    /** Its offsets stay below 2^31. */
    ghost predicate Small()
      requires Valid()
      reads this`vchg, this`offs, this`last, this`chains, this`tchnIdx, this`tchnCnt, this`tchn, this`times,
            this`curval, this`isInitialTime, this`curtime
    {
      RowsStorable(vchg, lens, offs, last, tchnIdx, chains);
      1 + DataSize(c, lens, chains) < TWO31
    }

    constructor (c: Codec, hash: seq<byte> -> nat, hashmask: nat, lens: seq<nat>, breakSize: nat,
                 initial: seq<seq<byte>>)
      requires |lens| < TWO31 && breakSize > 1 && Sized(lens, initial)
      ensures Valid() && InStep() && isInitialTime && Values() == initial && this.lens == lens && this.c == c
      ensures this.hash == hash && this.hashmask == hashmask && this.breakSize == breakSize
      ensures !vcEmitted && !mapped && !flushPending && chains == Nils(|lens|) && vchg == []
    {
      this.c, this.hash, this.hashmask, this.lens, this.breakSize := c, hash, hashmask, lens, breakSize;
      offs, last, chains := seq(|lens|, _ => 0), seq(|lens|, _ => 0), Nils(|lens|);
      vchg, curval := [], initial;
      tchn, tchnCnt, tchnIdx, curtime, firsttime, times := [], 0, 0, 0, 0, Start;
      isInitialTime, vcEmitted, mapped, flushPending := true, false, false, false;
      frame, begin := [], 0;
      new;
      ValuesOfNils(lens, curval);
    }

    /** Appends a record to the change buffer and links it to its handle, if there is anything in the
        buffer already. */
    method Record(h: nat, val: seq<byte>)
      requires Valid() && h < |lens| && (lens[h] > 0 ==> |val| == lens[h]) && |val| < TWO32
      requires tchnIdx < TWO28 && |vchg| < TWO31 && (isInitialTime ==> lens[h] == 0)
      modifies this`vchg, this`offs, this`last, this`chains
      ensures Valid() && chains == Recorded(old(vchg), old(chains), h, tchnIdx, val)
      ensures |vchg| == |old(vchg)| + RecordSize(lens[h], tchnIdx - Total(old(chains)[h]), |val|)
      ensures |vchg| <= |old(vchg)| + |val| + 14
      ensures Values() == if lens[h] > 0 then old(Values())[h := val] else old(Values())
    {
      NotLater(vchg, lens, offs, last, tchnIdx, chains, h);
      var rec := BuildRecord(offs[h], lens[h], tchnIdx - last[h], val);
      ghost var chains2 := Recorded(vchg, chains, h, tchnIdx, val);
      RecordKeeps(vchg, lens, offs, last, tchnIdx, chains, curval, h, val, rec, chains2);
      offs, last, vchg, chains := offs[h := |vchg|], last[h := tchnIdx], vchg + rec, chains2;
    }

    /** The first call that needs the tables creates them. */
    method Map()
      modifies this`vcEmitted, this`mapped
      ensures mapped && vcEmitted == (old(vcEmitted) || !old(mapped))
    {
      if !mapped {
        vcEmitted, mapped := true, true;
      }
    }

    /** fstWriterEmitValueChange: before the first time change the value goes straight into the frame. */
    method EmitValueChange(h: nat, val: seq<byte>)
      requires Valid() && h < |lens| && (lens[h] > 0 ==> |val| == lens[h]) && |val| < TWO32
      requires tchnIdx < TWO28 && |vchg| < TWO31
      modifies this`vcEmitted, this`mapped, this`vchg, this`offs, this`last, this`chains, this`curval
      ensures Valid() && mapped && vcEmitted == (old(vcEmitted) || !old(mapped)) && |vchg| <= |old(vchg)| + |val| + 14
      ensures |vchg| == |old(vchg)| + if lens[h] == 0 || isInitialTime then 0
              else RecordSize(lens[h], tchnIdx - Total(old(chains)[h]), |val|)
      ensures Values() == if lens[h] > 0 then old(Values())[h := val] else old(Values())
      ensures chains == if lens[h] == 0 || isInitialTime then old(chains)
              else old(chains)[h := Grown(old(chains)[h], tchnIdx, val)]
      ensures lens[h] == 0 || !isInitialTime ==> curval == old(curval)
    {
      Map();
      if lens[h] != 0 {
        if !isInitialTime {
          Record(h, val);
        } else {
          ValuesOfInitial(lens, chains, curval, h, val);
          curval := curval[h := val];
        }
      }
    }

    /** fstWriterEmitVariableLengthValueChange: there is no frame for these, and no initial time. The buffer
        is empty until the first time change, and the first record of an empty buffer is in no chain. */
    method EmitVariableLengthValueChange(h: nat, val: seq<byte>)
      requires Valid() && h < |lens| && |val| < TWO32 && tchnIdx < TWO28 && |vchg| < TWO31
      modifies this`vcEmitted, this`mapped, this`vchg, this`offs, this`last, this`chains
      ensures Valid() && mapped && vcEmitted == (old(vcEmitted) || !old(mapped)) && |vchg| <= |old(vchg)| + |val| + 14
      ensures |vchg| == |old(vchg)| + if lens[h] > 0 then 0
              else RecordSize(lens[h], tchnIdx - Total(old(chains)[h]), |val|)
      ensures Values() == old(Values())
      ensures chains == if lens[h] > 0 then old(chains) else Recorded(old(vchg), old(chains), h, tchnIdx, val)
    {
      Map();
      if lens[h] == 0 {
        Record(h, val);
      }
    }

    /** fstWriterFlushContext: the flush happens at the next time change. */
    method FlushContext()
      requires Valid()
      modifies this`flushPending
      ensures Valid() && flushPending == (old(flushPending) || tchnIdx > 1)
    {
      if tchnIdx > 1 {
        flushPending := true;
      }
    }

    /** Appends a step to the time list. */
    method PutTime(step: nat)
      requires Valid() && !isInitialTime
      modifies this`tchn, this`tchnCnt, this`times
      ensures Valid() && Values() == old(Values())
      ensures Held() == old(Held()).(times := Tick(old(times), Latest(old(times)) + step), cnt := old(tchnCnt) + 1)
    {
      var bytes := PutVarint(step);
      times := Tick(times, Latest(times) + step);
      tchn, tchnCnt := tchn + bytes, tchnCnt + 1;
    }

    /** The tables start over, and the next section begins with these values as its frame. */
    method Restart(values: seq<seq<byte>>, start: nat)
      requires !isInitialTime && Sized(lens, values) && |lens| < TWO31 && breakSize > 1
      modifies this`vchg, this`offs, this`last, this`chains, this`tchnIdx, this`tchnCnt, this`tchn, this`times,
               this`curval, this`frame, this`begin
      ensures Valid() && Values() == values && Held() == Blank(values, curtime).(begin := start)
    {
      var zeros := seq(|lens|, _ => 0);
      RowsOfNils(lens, zeros);
      ValuesOfNils(lens, values);
      vchg, offs, last, chains := [33], zeros, zeros, Nils(|lens|);
      tchn, tchnCnt, tchnIdx, times := [], 0, 0, Start;
      curval, frame, begin := values, values, start;
    }

    /** fstWriterFlushContextPrivate: without any change it does nothing at all, otherwise it writes
        the section and begins the next one with the last values as its frame. */
    method FlushContextPrivate() returns (section: Option)
      requires Valid() && Small() && !isInitialTime
      modifies this`vchg, this`offs, this`last, this`chains, this`tchnIdx, this`tchnCnt, this`tchn, this`times,
               this`curval, this`frame, this`begin
      ensures Valid() && Values() == old(Values())
      ensures section == if |old(vchg)| <= 1 then NoSection else Written(old(Pending()))
      ensures Held() == if |old(vchg)| <= 1 then old(Held()) else Blank(old(Values()), curtime)
      ensures |old(vchg)| > 1 ==> section.section.begin == old(begin) && section.section.end == curtime == begin
                                  && section.section.frame == old(frame) && frame == old(Values())
    {
      if |vchg| <= 1 {
        return NoSection;
      }
      RowsStorable(vchg, lens, offs, last, tchnIdx, chains);
      ghost var ps := PayloadsOf(lens, chains);
      ghost var slots := Slots(c, ps);
      var data, words, values := FlushHandles(c, hash, hashmask, vchg, lens, offs, curval, last, tchnIdx, chains, ps,
                                              slots);
      SlotsIndexed(c, ps, slots, words);
      var index := PutIndex(words, Entries(slots));
      section := Written(Section(frame, begin, curtime, data, index, tchn, tchnCnt));
      SizedFrame(vchg, lens, offs, last, tchnIdx, chains, curval, values);
      FrameValues(lens, chains, curval, values);
      Restart(values, curtime);
    }

    /** The first section begins; the values recorded before it are its frame. */
    method Begin(start: nat)
      requires Valid() && isInitialTime
      modifies this`vchg, this`offs, this`last, this`chains, this`tchnIdx, this`tchnCnt, this`tchn, this`times,
               this`curval, this`frame, this`begin, this`isInitialTime
      ensures Valid() && !isInitialTime && Values() == old(Values()) == old(curval)
      ensures Held() == Blank(old(curval), curtime).(begin := start)
    {
      UntimedValues(lens, chains, curval);
      isInitialTime := false;
      Restart(curval, start);
    }

    /** The first time change: variable-length changes made before it are dropped, and the first section
        begins. */
    method FirstTime(tim: nat)
      requires Valid() && isInitialTime
      modifies this`vchg, this`offs, this`last, this`chains, this`tchnIdx, this`tchnCnt, this`tchn, this`times,
               this`curval, this`frame, this`begin, this`isInitialTime, this`mapped, this`firsttime, this`curtime
      ensures Valid() && Values() == old(Values()) == old(curval) && !isInitialTime && mapped
      ensures firsttime == (if old(vcEmitted) then 0 else tim) && Held() == Opened(old(curval), firsttime, tim)
    {
      mapped, firsttime := true, if vcEmitted then 0 else tim;
      Begin(firsttime);
      PutTime(tim);
      curtime := tim;
    }

    /** A time change without a flush. */
    method NextTime(tim: nat)
      requires Valid() && !isInitialTime && curtime <= tim
      modifies this`tchnIdx, this`tchn, this`tchnCnt, this`times, this`curtime
      ensures Valid() && Values() == old(Values()) && Held() == Ticked(old(Held()), tim)
      ensures old(Dated(Held())) ==> Dated(Held())
    {
      RowsLater(vchg, lens, offs, last, tchnIdx, tchnIdx + 1, chains);
      tchnIdx := tchnIdx + 1;
      PutTime(tim - curtime);
      curtime := tim;
    }

    /** The time of the flush, then the next one. */
    method Resume(tim: nat)
      requires Valid() && !isInitialTime && curtime <= tim
      modifies this`tchnIdx, this`tchn, this`tchnCnt, this`times, this`curtime
      ensures Valid() && Values() == old(Values()) && Held() == Turned(old(Held()), tim)
    {
      PutTime(curtime);
      NextTime(tim);
    }

    /** A time change that finds a flush due. */
    method FlushTime(tim: nat) returns (section: Option)
      requires Valid() && !isInitialTime && Small() && curtime <= tim
      modifies this`vchg, this`offs, this`last, this`chains, this`tchnIdx, this`tchnCnt, this`tchn, this`times,
               this`curval, this`frame, this`begin, this`curtime
      ensures Valid() && Values() == old(Values())
      ensures section == if |old(vchg)| <= 1 then NoSection else Written(old(Pending()))
      ensures Held() == Turned(if |old(vchg)| <= 1 then old(Held()) else Blank(old(Values()), old(curtime)), tim)
      ensures old(Synced(Held())) ==> (Synced(Held()) <==> |old(vchg)| > 1)
      ensures old(Dated(Held())) ==> Dated(Held())
      ensures old(Dated(Held())) && old(Synced(Held())) ==> Spans(old(times), old(begin), old(curtime))
    {
      HeldSpans(Held());
      TurnedDated(if |vchg| <= 1 then Held() else Blank(Values(), curtime), tim);
      TurnedSynced(if |vchg| <= 1 then Held() else Blank(Values(), curtime), tim);
      section := FlushContextPrivate();
      Resume(tim);
    }

    /** The section that is being filled began not after its first time. */
    ghost predicate Begun()
      reads this`isInitialTime, this`chains, this`times, this`tchnIdx, this`tchnCnt, this`vchg, this`frame, this`begin,
            this`curtime
    {
      !isInitialTime ==> Dated(Held())
    }

    ghost predicate FlushDue()
      reads this`vchg, this`flushPending
    {
      |vchg| >= breakSize || flushPending
    }

    /** fstWriterEmitTimeChange. A flush that is due leaves the time index and the time list in step
        exactly when there is something to flush. */
    method EmitTimeChange(tim: nat) returns (section: Option)
      requires Valid() && curtime <= tim && (!isInitialTime && FlushDue() ==> Small())
      modifies this
      ensures Valid() && Values() == old(Values()) && !isInitialTime
      ensures section == if !old(isInitialTime) && old(FlushDue()) && |old(vchg)| > 1 then Written(old(Pending()))
              else NoSection
      ensures section.Written? <==>
                !old(isInitialTime) && (|old(vchg)| >= breakSize || old(flushPending)) && |old(vchg)| > 1
      ensures Held() == if old(isInitialTime) then Opened(old(Values()), if old(vcEmitted) then 0 else tim, tim)
                        else if !old(FlushDue()) then Ticked(old(Held()), tim)
                        else Turned(if |old(vchg)| <= 1 then old(Held()) else Blank(old(Values()), old(curtime)), tim)
      ensures old(InStep()) ==> (InStep() <==> old(isInitialTime) || !old(FlushDue()) || |old(vchg)| > 1)
      ensures flushPending == (old(flushPending) && old(isInitialTime))
              && (!old(isInitialTime) && !old(FlushDue()) ==> vchg == old(vchg))
      ensures if old(isInitialTime)
              then begin == (if old(vcEmitted) then 0 else tim) && frame == old(Values()) && times == Tick(Start, tim)
              else if section.Written?
              then section.section.begin == old(begin) && section.section.end == old(curtime) == begin
                   && section.section.frame == old(frame) && frame == old(Values())
                   && times == Tick(Tick(Start, old(curtime)), tim)
              else begin == old(begin) && frame == old(frame) && chains == old(chains)
      ensures curtime == tim && (old(Begun()) ==> Begun())
      ensures section.Written? && old(InStep()) && old(Begun()) ==>
                Spans(old(times), section.section.begin, section.section.end)
    {
      section := NoSection;
      if isInitialTime {
        FirstTime(tim);
      } else if |vchg| >= breakSize || flushPending {
        flushPending := false;
        section := FlushTime(tim);
      } else {
        NextTime(tim);
      }
    }
  }

  datatype Option = NoSection | Written(section: Section)

  lemma {:induction false} NilsNoData(c: Codec, lens: seq<nat>, ps: seq<seq<byte>>, n: nat)
    requires AllStorable(lens, Nils(|lens|)) && ps == PayloadsOf(lens, Nils(|lens|)) && n <= |lens|
    ensures Data(Slots(c, ps), n) == []
  {
    if n > 0 {
      NilsNoData(c, lens, ps, n - 1);
      PayloadPresent(lens[n - 1], Nil);
    }
  }

  lemma {:induction false} NilsSmall(w: Writer)
    requires w.Valid() && w.chains == Nils(|w.lens|)
    ensures w.Small()
  {
    RowsStorable(w.vchg, w.lens, w.offs, w.last, w.tchnIdx, w.chains);
    NilsNoData(w.c, w.lens, PayloadsOf(w.lens, w.chains), |w.lens|);
  }

  /** A new writer and three time changes. */
  method ThreeTimes(c: Codec, hash: seq<byte> -> nat, hashmask: nat, lens: seq<nat>, breakSize: nat,
                    initial: seq<seq<byte>>, tim0: nat, tim1: nat, tim2: nat)
      returns (w: Writer)
    requires |lens| < TWO31 && breakSize > 1 && Sized(lens, initial) && tim0 <= tim1 <= tim2
    ensures fresh(w) && w.Valid() && w.InStep() && !w.isInitialTime && !w.flushPending && w.chains == Nils(|w.lens|)
    ensures |w.vchg| == 1 && w.tchnIdx == 2 && w.tchnCnt == 3 && w.curtime == tim2
  {
    w := new Writer(c, hash, hashmask, lens, breakSize, initial);
    var section := w.EmitTimeChange(tim0);
    section := w.EmitTimeChange(tim1);
    section := w.EmitTimeChange(tim2);
  }

  /** A flush that is asked for when nothing has changed leaves any writer out of step: the time list has
      one entry more than the time index knows of. */
  method EmptyFlush(c: Codec, hash: seq<byte> -> nat, hashmask: nat, lens: seq<nat>, breakSize: nat,
                    initial: seq<seq<byte>>, tim0: nat, tim1: nat, tim2: nat, tim3: nat)
      returns (w: Writer)
    requires |lens| < TWO31 && breakSize > 1 && Sized(lens, initial) && tim0 <= tim1 <= tim2 <= tim3
    ensures w.Valid() && !w.isInitialTime && !w.InStep() && w.tchnIdx == 3 && w.tchnCnt == 5
  {
    w := ThreeTimes(c, hash, hashmask, lens, breakSize, initial, tim0, tim1, tim2);
    w.FlushContext();
    NilsSmall(w);
    var section := w.EmitTimeChange(tim3);
  }

  lemma {:induction false} SlotsIndexed(c: Codec, ps: seq<seq<byte>>, slots: seq<Slot>, words: seq<int>)
    requires slots == Slots(c, ps) && 1 + |Data(slots, |slots|)| < TWO31 && WordsFor(slots, words, |slots|)
    ensures WellFormed(Entries(slots), 0, 0) && |words| == |Entries(slots)|
    ensures forall i :: 0 <= i < |Entries(slots)| ==> words[i] == Word(Entries(slots)[i])
  {
    SlotsSound(c, ps);
    EntriesLaid(slots, Entries(slots), Ends(slots));
    LaidWellFormed(Entries(slots), Ends(slots), 0, 0);
  }

  lemma {:induction false} LastSized(len: nat, chain: Chain, value: seq<byte>)
    requires Storable(len, chain) && |value| == len
    ensures |LastValue(len, chain, value)| == len
  {
  }

  lemma {:induction false} SizedFrame(vchg: seq<byte>, lens: seq<nat>, offs: seq<nat>, last: seq<nat>, tchnIdx: nat,
                                      chains: seq<Chain>, curval: seq<seq<byte>>, values: seq<seq<byte>>)
    requires Rows(vchg, lens, offs, last, tchnIdx, chains) && Sized(lens, curval)
             && FrameFor(lens, chains, curval, values, |lens|)
    ensures Sized(lens, values)
  {
    forall h | 0 <= h < |lens|
      ensures |values[h]| == lens[h]
    {
      assert Row(vchg, lens[h], offs[h], last[h], tchnIdx, chains[h]);
      LastSized(lens[h], chains[h], curval[h]);
    }
  }

  lemma {:induction false} FrameValues(lens: seq<nat>, chains: seq<Chain>, curval: seq<seq<byte>>,
                                       values: seq<seq<byte>>)
    requires |chains| == |curval| == |lens| && FrameFor(lens, chains, curval, values, |lens|)
    ensures values == ValuesOf(lens, chains, curval)
  {
  }
}
