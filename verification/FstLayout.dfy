/** Where a section keeps the data of its handles: the chunks one after the other behind the pack
    type, then the index that leads every handle to its chunk. */
module FstLayout {
  import opened Bytes
  import opened FstVarint
  import opened Leb128
  import opened FstIndex
  import opened FstTables

  /** No data, a chunk of its own, or that of an earlier handle. */
  datatype Slot = None | Own(chunk: seq<byte>) | Same(target: nat)

  ghost predicate Sound(slots: seq<Slot>) {
    forall i {:trigger slots[i]} :: 0 <= i < |slots| ==>
      (slots[i].Own? ==> slots[i].chunk != [])
      && (slots[i].Same? ==> slots[i].target < i && slots[slots[i].target].Own?)
  }

  /** What a handle adds to the chunks. */
  function Piece(slot: Slot): seq<byte> {
    if slot.Own? then slot.chunk else []
  }

  /** The chunks of the first `n` handles. */
  function Data(slots: seq<Slot>, n: nat): (bytes: seq<byte>)
    requires n <= |slots|
  {
    if n == 0 then [] else Data(slots, n - 1) + Piece(slots[n - 1])
  }

  /** Offsets count from the pack type. */
  function EntryOf(slots: seq<Slot>, i: nat): (e: Entry)
    requires i < |slots|
  {
    match slots[i]
    case None => Absent
    case Own(_) => Chunk(1 + |Data(slots, i)|)
    case Same(target) => Alias(target)
  }

  function Entries(slots: seq<Slot>): (es: seq<Entry>)
    ensures |es| == |slots| && forall i :: 0 <= i < |slots| ==> es[i] == EntryOf(slots, i)
  {
    seq(|slots|, i requires 0 <= i < |slots| => EntryOf(slots, i))
  }

  function Ends(slots: seq<Slot>): (ends: seq<nat>)
    ensures |ends| == |slots| + 1 && forall i :: 0 <= i <= |slots| ==> ends[i] == 1 + |Data(slots, i)|
  {
    seq(|slots| + 1, i requires 0 <= i < |slots| + 1 => 1 + |Data(slots, i)|)
  }

  /** `vc`: the pack type, the chunks, their index and what follows it in the file. */
  function Body(slots: seq<Slot>, packtype: byte, trailer: seq<byte>): (vc: seq<byte>) {
    [packtype] + (Data(slots, |slots|) + (EncodeIndex(Entries(slots)) + trailer))
  }

  lemma {:induction false} DataGrows(slots: seq<Slot>, m: nat, n: nat)
    requires m <= n <= |slots|
    ensures |Data(slots, m)| <= |Data(slots, n)|
  {
    if m < n {
      DataGrows(slots, m, n - 1);
    }
  }

  lemma {:induction false} EntriesLaid(slots: seq<Slot>, es: seq<Entry>, ends: seq<nat>)
    requires Sound(slots) && es == Entries(slots) && ends == Ends(slots) && 1 + |Data(slots, |slots|)| < TWO31
    ensures Laid(es, ends)
  {
    forall i | 0 <= i <= |slots|
      ensures ends[i] < TWO31
    {
      DataGrows(slots, i, |slots|);
    }
    forall i | 0 <= i < |slots|
      ensures match es[i]
              case Absent => ends[i + 1] == ends[i]
              case Chunk(offset) => offset == ends[i] < ends[i + 1]
              case Alias(target) => ends[i + 1] == ends[i] && target < i && es[target].Chunk?
    {
      assert es[i] == EntryOf(slots, i);
      assert ends[i + 1] == ends[i] + |Piece(slots[i])|;
      if slots[i].Same? {
        assert es[slots[i].target] == EntryOf(slots, slots[i].target);
      }
    }
  }

  /** Where a chunk stands among the others. */
  lemma {:induction false} PieceAt(slots: seq<Slot>, mem: seq<byte>, at: nat, i: nat, n: nat)
    requires i < n <= |slots| && At(mem, at, Data(slots, n))
    ensures At(mem, at + |Data(slots, i)|, Piece(slots[i]))
    decreases n
  {
    AtSplit(mem, at, Data(slots, n - 1), Piece(slots[n - 1]));
    if i < n - 1 {
      PieceAt(slots, mem, at, i, n - 1);
    }
  }

  lemma {:induction false} BodyParts(slots: seq<Slot>, packtype: byte, trailer: seq<byte>, vc: seq<byte>, total: nat)
    requires vc == Body(slots, packtype, trailer) && total == 1 + |Data(slots, |slots|)|
    ensures At(vc, 1, Data(slots, |slots|)) && At(vc, total, EncodeIndex(Entries(slots)))
    ensures |vc| == total + |EncodeIndex(Entries(slots))| + |trailer|
  {
    BodySplit(vc, packtype, Data(slots, |slots|), EncodeIndex(Entries(slots)), trailer);
  }

  lemma {:induction false} BodySplit(vc: seq<byte>, packtype: byte, data: seq<byte>, index: seq<byte>,
                                     trailer: seq<byte>)
    requires vc == [packtype] + (data + (index + trailer))
    ensures At(vc, 1, data) && At(vc, 1 + |data|, index)
  {
    AtEnds([packtype], data + (index + trailer));
    AtSplit(vc, 1, data, index + trailer);
    AtSplit(vc, 1 + |data|, index, trailer);
  }

  /** The chunk a handle uses. */
  function ChunkFor(slots: seq<Slot>, k: nat): (chunk: seq<byte>)
    requires Sound(slots) && k < |slots| && !slots[k].None?
  {
    if slots[k].Own? then slots[k].chunk else slots[slots[k].target].chunk
  }

  /** What the reader's tables say of a handle. */
  ghost predicate Tabled(slots: seq<Slot>, vc: seq<byte>, k: nat, table: nat, length: int)
    requires Sound(slots) && k < |slots|
  {
    if slots[k].None? then table == 0
    else table != 0 && length == |ChunkFor(slots, k)| && table + length + 5 <= |vc| && At(vc, table, ChunkFor(slots, k))
  }

  lemma {:induction false} OwnTabled(slots: seq<Slot>, vc: seq<byte>, k: nat, ends: seq<nat>)
    requires Sound(slots) && k < |slots| && slots[k].Own? && ends == Ends(slots)
    requires At(vc, 1, Data(slots, |slots|)) && ends[|slots|] + 5 <= |vc|
    ensures ends[k + 1] - ends[k] == |slots[k].chunk| && ends[k + 1] <= ends[|slots|] && At(vc, ends[k], slots[k].chunk)
  {
    DataGrows(slots, k + 1, |slots|);
    PieceAt(slots, vc, 1, k, |slots|);
  }

  lemma {:induction false} LocatedTabled(slots: seq<Slot>, vc: seq<byte>, k: nat, es: seq<Entry>, ends: seq<nat>,
                                         table: nat, length: int, total: nat)
    requires Sound(slots) && k < |slots| && es == Entries(slots) && ends == Ends(slots) && Laid(es, ends)
             && total == ends[|slots|]
    requires Located(es, k, table, length, total) && At(vc, 1, Data(slots, |slots|)) && total + 5 <= |vc|
    ensures Tabled(slots, vc, k, table, length)
  {
    assert es[k] == EntryOf(slots, k);
    if !slots[k].None? {
      var t := if slots[k].Own? then k else slots[k].target;
      assert es[t] == EntryOf(slots, t);
      LocatedAs(es, ends, k, t, table, length, total);
      OwnTabled(slots, vc, t, ends);
    }
  }

  /** Reads the index of a section into tables that lead no absent handle astray. */
  method LoadTables(vc: seq<byte>, indxpos: nat, chainClen: nat, pidx0: nat, table: array<nat>, lengths: array<int>,
                    ghost slots: seq<Slot>, ghost packtype: byte, ghost trailer: seq<byte>)
      returns (pidx: nat)
    requires Sound(slots) && vc == Body(slots, packtype, trailer) && |trailer| >= 5
    requires |slots| < TWO31 && indxpos == 1 + |Data(slots, |slots|)| < TWO31
    requires chainClen == |EncodeIndex(Entries(slots))| && exists k :: 0 <= k < |slots| && slots[k].Own?
    requires Fits(Tables(table[..], lengths[..], pidx0), |slots|)
             && !Misled(Entries(slots), Tables(table[..], lengths[..], pidx0))
    modifies table, lengths
    ensures Tables(table[..], lengths[..], pidx)
            == After(Entries(slots), old(Tables(table[..], lengths[..], pidx0)), indxpos)
    ensures Fits(Tables(table[..], lengths[..], pidx), |slots|)
    ensures forall k :: 0 <= k < |slots| ==> Tabled(slots, vc, k, table[k], lengths[k])
  {
    ghost var es, ends, was := Entries(slots), Ends(slots), Tables(table[..], lengths[..], pidx0);
    BodyParts(slots, packtype, trailer, vc, indxpos);
    EntriesLaid(slots, es, ends);
    LaidWellFormed(es, ends, 0, 0);
    ghost var k0 :| 0 <= k0 < |slots| && slots[k0].Own?;
    assert es[k0].Chunk?;
    pidx := LoadIndex(vc, indxpos, indxpos + chainClen, indxpos, pidx0, table, lengths, es);
    ghost var t := Tables(table[..], lengths[..], pidx);
    RightIff(es, was, indxpos);
    forall k | 0 <= k < |slots|
      ensures Tabled(slots, vc, k, t.table[k], t.lengths[k])
    {
      LocatedTabled(slots, vc, k, es, ends, t.table[k], t.lengths[k], indxpos);
    }
  }
}
