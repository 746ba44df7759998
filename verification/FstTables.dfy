/** The reader's tables, which lead every handle to its chunk. A traversal of a file keeps them from one
    section to the next, and clears only the offsets of absent handles. */
module FstTables {
  import opened Bytes
  import opened FstVarint
  import opened Leb128
  import opened FstIndex

  /** `chain_table`, `chain_table_lengths` and `pidx`, as one section leaves them for the next. */
  datatype Tables = Tables(table: seq<nat>, lengths: seq<int>, pidx: nat)

  /** Tables for `n` handles and the end of the last chunk. */
  ghost predicate Fits(t: Tables, n: nat) {
    |t.table| == |t.lengths| == n + 1 && t.pidx <= n
  }

  /** New tables. */
  function Fresh(n: nat): (t: Tables)
    ensures Fits(t, n) && t.pidx == 0 && forall k :: 0 <= k <= n ==> t.table[k] == 0 && t.lengths[k] == 0
  {
    Tables(seq(n + 1, _ => 0), seq(n + 1, _ => 0), 0)
  }

  // ---- chunks ----

  /** The end of a chunk is the next chunk's start, or the start of the index itself. */
  function End(es: seq<Entry>, i: nat, total: nat): (end: nat)
    requires i <= |es|
    decreases |es| - i
  {
    if i == |es| then total else if es[i].Chunk? then es[i].offset else End(es, i + 1, total)
  }

  lemma {:induction false} LaidEnd(es: seq<Entry>, ends: seq<nat>, k: nat, total: nat)
    requires Laid(es, ends) && k <= |es| && total == ends[|es|]
    ensures End(es, k, total) == ends[k]
    decreases |es| - k
  {
    if k < |es| {
      LaidEnd(es, ends, k + 1, total);
    }
  }

  lemma {:induction false} EndSkips(es: seq<Entry>, i: nat, j: nat, total: nat)
    requires i <= j <= |es| && forall k :: i <= k < j ==> !es[k].Chunk?
    ensures End(es, i, total) == End(es, j, total)
    decreases j - i
  {
    if i < j {
      EndSkips(es, i + 1, j, total);
    }
  }

  /** The first chunk from `i` on. */
  function FirstChunk(es: seq<Entry>, i: nat): (f: nat)
    requires i <= |es|
    ensures i <= f <= |es| && (f < |es| ==> es[f].Chunk?)
    ensures forall k :: i <= k < f ==> !es[k].Chunk?
    decreases |es| - i
  {
    if i == |es| || es[i].Chunk? then i else FirstChunk(es, i + 1)
  }

  /** The last chunk before `n`, or `p`. */
  function LastOf(es: seq<Entry>, n: nat, p: nat): (l: nat)
    requires n <= |es|
  {
    if n == 0 then p else if es[n - 1].Chunk? then n - 1 else LastOf(es, n - 1, p)
  }

  lemma {:induction false} ChunkTarget(es: seq<Entry>, i: nat, from: nat, k: nat)
    requires i <= k < |es| && WellFormed(es, i, from)
    ensures es[k].Alias? ==> es[k].target < k && es[es[k].target].Chunk?
    decreases k - i
  {
    if i < k {
      ChunkTarget(es, i + 1, if es[i].Chunk? then es[i].offset else from, k);
    }
  }

  // ---- what the tables become ----

  /** The length an absent handle is left with: the one it had, unless it was the last chunk of the
      section before, which the first chunk of this section is thought to end. */
  function Stale(es: seq<Entry>, was: Tables, k: nat): int
    requires Fits(was, |es|) && k <= |es|
  {
    var f := FirstChunk(es, 0);
    if k == was.pidx && 0 < f < |es| then es[f].offset - (if k < f then 0 else was.table[k]) else was.lengths[k]
  }

  /** The same when the loop has come to `idx`. */
  function Kept(es: seq<Entry>, was: Tables, idx: nat, k: nat): int
    requires Fits(was, |es|) && k <= |es|
  {
    if FirstChunk(es, 0) < idx then Stale(es, was, k) else was.lengths[k]
  }

  /** Offset and length of handle `k` in the end. A negative length is taken for an alias. */
  function Entered(es: seq<Entry>, was: Tables, total: nat, k: nat): (nat, int)
    requires Fits(was, |es|) && k < |es|
  {
    match es[k]
    case Chunk(offset) => (offset, End(es, k + 1, total) - offset)
    case Alias(target) => if target < k then Entered(es, was, total, target) else (0, -(target + 1))
    case Absent =>
      var v := Stale(es, was, k);
      if v < 0 && -v - 1 < k then Entered(es, was, total, -v - 1) else (0, v)
  }

  /** What a section leaves for the next. */
  function After(es: seq<Entry>, was: Tables, total: nat): (t: Tables)
    requires Fits(was, |es|)
    ensures |t.table| == |t.lengths| == |es| + 1
  {
    Tables(seq(|es|, k requires 0 <= k < |es| => Entered(es, was, total, k).0) + [total],
           seq(|es|, k requires 0 <= k < |es| => Entered(es, was, total, k).1) + [Stale(es, was, |es|)],
           LastOf(es, |es|, was.pidx))
  }

  lemma {:induction false} AfterAt(es: seq<Entry>, was: Tables, total: nat, t: Tables)
    requires Fits(was, |es|) && t == After(es, was, total)
    ensures t.table[|es|] == total && t.lengths[|es|] == Stale(es, was, |es|)
    ensures forall k :: 0 <= k < |es| ==> (t.table[k], t.lengths[k]) == Entered(es, was, total, k)
  {
  }

  // ---- when that is right ----

  /** Handle `k`'s chunk, and its size; an alias has those of the handle it names. */
  ghost predicate Located(es: seq<Entry>, k: nat, table: nat, length: int, total: nat)
    requires k < |es|
  {
    match es[k]
    case Absent => table == 0
    case Chunk(offset) => table == offset && length == End(es, k + 1, total) - offset
    case Alias(target) =>
      target < k && es[target].Chunk? && table == es[target].offset && length == End(es, target + 1, total) - table
  }

  /** An absent handle whose stale length names an earlier handle that is present. */
  ghost predicate Strays(es: seq<Entry>, was: Tables, h: nat)
    requires Fits(was, |es|) && h < |es|
  {
    var v := Stale(es, was, h);
    es[h].Absent? && v < 0 && -v - 1 < h && !es[-v - 1].Absent?
  }

  ghost predicate Misled(es: seq<Entry>, was: Tables)
    requires Fits(was, |es|)
  {
    exists h :: 0 <= h < |es| && Strays(es, was, h)
  }

  lemma {:induction false} OffsetPositive(es: seq<Entry>, i: nat, from: nat, k: nat)
    requires i <= k < |es| && WellFormed(es, i, from) && es[k].Chunk?
    ensures es[k].offset > 0
    decreases k - i
  {
    if i < k {
      OffsetPositive(es, i + 1, if es[i].Chunk? then es[i].offset else from, k);
    }
  }

  lemma {:induction false} PresentEntered(es: seq<Entry>, was: Tables, total: nat, k: nat)
    requires Fits(was, |es|) && k < |es| && WellFormed(es, 0, 0) && !es[k].Absent?
    ensures Located(es, k, Entered(es, was, total, k).0, Entered(es, was, total, k).1, total)
            && Entered(es, was, total, k).0 > 0
  {
    ChunkTarget(es, 0, 0, k);
    OffsetPositive(es, 0, 0, if es[k].Alias? then es[k].target else k);
  }

  lemma {:induction false} AbsentEntered(es: seq<Entry>, was: Tables, total: nat, k: nat)
    requires Fits(was, |es|) && k < |es| && WellFormed(es, 0, 0) && es[k].Absent? && !Misled(es, was)
    ensures Entered(es, was, total, k).0 == 0
  {
    var v := Stale(es, was, k);
    assert !Strays(es, was, k);
    if v < 0 && -v - 1 < k {
      AbsentEntered(es, was, total, -v - 1);
    }
  }

  ghost predicate AllLocated(es: seq<Entry>, t: Tables, total: nat)
    requires Fits(t, |es|)
  {
    forall k :: 0 <= k < |es| ==> Located(es, k, t.table[k], t.lengths[k], total)
  }

  lemma {:induction false} AfterFits(es: seq<Entry>, was: Tables, total: nat, n: nat)
    requires Fits(was, |es|) && n <= |es|
    ensures LastOf(es, n, was.pidx) <= |es|
  {
    if n > 0 && !es[n - 1].Chunk? {
      AfterFits(es, was, total, n - 1);
    }
  }

  /** Decoding a section into tables that the one before has left is right exactly if no absent handle
      has been left with a length that names an earlier, present one. */
  lemma {:induction false} RightIff(es: seq<Entry>, was: Tables, total: nat)
    requires Fits(was, |es|) && WellFormed(es, 0, 0)
    ensures Fits(After(es, was, total), |es|)
    ensures AllLocated(es, After(es, was, total), total) <==> !Misled(es, was)
  {
    AfterFits(es, was, total, |es|);
    var t := After(es, was, total);
    AfterAt(es, was, total, t);
    if Misled(es, was) {
      var h :| 0 <= h < |es| && Strays(es, was, h);
      PresentEntered(es, was, total, -Stale(es, was, h) - 1);
      assert !Located(es, h, t.table[h], t.lengths[h], total);
    } else {
      forall k | 0 <= k < |es|
        ensures Located(es, k, t.table[k], t.lengths[k], total)
      {
        if es[k].Absent? {
          AbsentEntered(es, was, total, k);
        } else {
          PresentEntered(es, was, total, k);
        }
      }
    }
  }

  /** No length is taken for an alias. */
  ghost predicate Calm(t: Tables) {
    forall k :: 0 <= k < |t.lengths| ==> t.lengths[k] >= 0
  }

  /** With such tables it comes down to one handle: the last chunk of the section before. It goes astray
      exactly if it is absent now and the first chunk of this section belongs to an earlier handle and
      starts so far before its old offset that the difference names an earlier handle with data. */
  lemma {:induction false} MisledIff(es: seq<Entry>, was: Tables)
    requires Fits(was, |es|) && Calm(was)
    ensures var f, p := FirstChunk(es, 0), was.pidx;
            Misled(es, was) <==> 0 < f < p < |es| && es[p].Absent? && var back := was.table[p] - es[f].offset;
                                 0 < back <= p && !es[back - 1].Absent?
  {
    var f, p := FirstChunk(es, 0), was.pidx;
    if 0 < f < p < |es| && es[p].Absent? {
      assert Stale(es, was, p) == es[f].offset - was.table[p];
      if Strays(es, was, p) {
        assert Misled(es, was);
      }
    }
    forall h | 0 <= h < |es| && Strays(es, was, h)
      ensures h == p && 0 < f < p
    {
    }
  }

  /** New tables never mislead. */
  lemma {:induction false} FreshRight(es: seq<Entry>)
    ensures !Misled(es, Fresh(|es|))
  {
    forall h | 0 <= h < |es|
      ensures !Strays(es, Fresh(|es|), h)
    {
    }
  }

  /** Three handles. The first section has data for handles 0 and 2, the second only for handle 1: its
      first chunk is thought to end the chunk of handle 2, whose length becomes 1 - 3, and handle 2 is
      given the chunk of handle 1. */
  lemma {:induction false} StrayHandle()
    ensures var first, second := [Chunk(1), Absent, Chunk(3)], [Absent, Chunk(1), Absent];
            var was := After(first, Fresh(3), 5);
            WellFormed(first, 0, 0) && WellFormed(second, 0, 0) && Fits(was, 3) && Misled(second, was)
            && second[2].Absent? && Entered(second, was, 3, 2) == (1, 2) == Entered(second, was, 3, 1)
  {
    var first, second := [Chunk(1), Absent, Chunk(3)], [Absent, Chunk(1), Absent];
    var was := After(first, Fresh(3), 5);
    assert Entered(first, Fresh(3), 5, 2) == (3, 2);
    assert FirstChunk(second, 0) == 1 && Stale(second, was, 2) == -2;
    assert End(second, 2, 3) == 3;
    assert Strays(second, was, 2);
  }

  // ---- the reader ----

  /** The tables a traversal starts with. */
  method NewTables(n: nat) returns (table: array<nat>, lengths: array<int>)
    ensures fresh(table) && fresh(lengths) && Tables(table[..], lengths[..], 0) == Fresh(n)
  {
    table, lengths := new nat[n + 1](_ => 0), new int[n + 1](_ => 0);
    assert table[..] == Fresh(n).table && lengths[..] == Fresh(n).lengths;
  }

  /** What the loop knows of handle `k` when it has decoded it; `last` is the last chunk so far. */
  ghost predicate Knows(es: seq<Entry>, k: nat, last: int, table: nat, length: int, total: nat, kept: int)
    requires k < |es|
  {
    match es[k]
    case Absent => table == 0 && length == kept
    case Chunk(offset) => table == offset && (k < last ==> length == End(es, k + 1, total) - offset)
    case Alias(target) => table == 0 && length == -(target + 1)
  }

  /** `last` is the last chunk before `idx`, or -1. */
  ghost predicate LastChunk(es: seq<Entry>, idx: nat, last: int, pval: nat)
    requires idx <= |es|
  {
    -1 <= last < idx && (forall k :: last < k < idx ==> !es[k].Chunk?)
    && if last < 0 then pval == 0 && forall k :: 0 <= k < idx ==> es[k].Absent?
       else es[last].Chunk? && es[last].offset == pval
  }

  ghost predicate Decoded(table: seq<nat>, lengths: seq<int>, es: seq<Entry>, idx: nat, last: int, total: nat,
                          was: Tables)
  {
    idx <= |es| && |table| == |lengths| == |es| + 1 && Fits(was, |es|)
    && (forall k :: idx <= k <= |es| ==> table[k] == was.table[k] && lengths[k] == Kept(es, was, idx, k))
    && forall k :: 0 <= k < idx ==> Knows(es, k, last, table[k], lengths[k], total, Kept(es, was, idx, k))
  }

  /** What the loop keeps does not change unless the first chunk comes. */
  lemma {:induction false} KeptNext(es: seq<Entry>, was: Tables, idx: nat, k: nat)
    requires Fits(was, |es|) && idx < |es| && k <= |es| && !es[idx].Chunk?
    ensures Kept(es, was, idx + 1, k) == Kept(es, was, idx, k)
  {
  }

  lemma {:induction false} KeptLater(es: seq<Entry>, was: Tables, idx: nat, last: nat, k: nat)
    requires Fits(was, |es|) && last < idx < |es| && k <= |es| && es[last].Chunk?
    ensures Kept(es, was, idx + 1, k) == Kept(es, was, idx, k)
  {
  }

  /** The first chunk is taken to end the last one of the section before. */
  lemma {:induction false} KeptFirst(es: seq<Entry>, was: Tables, idx: nat, offset: nat, k: nat)
    requires Fits(was, |es|) && idx < |es| && k <= |es| && es[idx] == Chunk(offset)
    requires forall j :: 0 <= j < idx ==> es[j].Absent?
    ensures Kept(es, was, idx, k) == was.lengths[k]
    ensures Kept(es, was, idx + 1, k)
            == if k == was.pidx && 0 < idx then offset - (if k < idx then 0 else was.table[k]) else was.lengths[k]
  {
    assert FirstChunk(es, 0) == idx;
  }

  /** A first chunk. */
  lemma {:induction false} LoadFirst(table: seq<nat>, lengths: seq<int>, es: seq<Entry>, idx: nat, offset: nat,
                                     total: nat, was: Tables, table2: seq<nat>, lengths2: seq<int>)
    requires idx < |es| && es[idx] == Chunk(offset)
    requires Decoded(table, lengths, es, idx, -1, total, was) && LastChunk(es, idx, -1, 0)
    requires table2 == table[idx := offset]
    requires lengths2 == if idx != 0 then lengths[was.pidx := offset - table2[was.pidx]] else lengths
    ensures Decoded(table2, lengths2, es, idx + 1, idx, total, was) && LastChunk(es, idx + 1, idx, offset)
  {
    forall k | 0 <= k <= |es|
      ensures if k < idx + 1 then Knows(es, k, idx, table2[k], lengths2[k], total, Kept(es, was, idx + 1, k))
              else table2[k] == was.table[k] && lengths2[k] == Kept(es, was, idx + 1, k)
    {
      KeptFirst(es, was, idx, offset, k);
      if k < idx {
        assert Knows(es, k, -1, table[k], lengths[k], total, Kept(es, was, idx, k));
      }
    }
  }

  /** A later chunk ends the one before it. */
  lemma {:induction false} LoadLater(table: seq<nat>, lengths: seq<int>, es: seq<Entry>, idx: nat, last: nat, pval: nat,
                                     offset: nat, total: nat, was: Tables, table2: seq<nat>, lengths2: seq<int>)
    requires last < idx < |es| && es[idx] == Chunk(offset) && pval < offset
    requires Decoded(table, lengths, es, idx, last, total, was) && LastChunk(es, idx, last, pval)
    requires table2 == table[idx := offset] && lengths2 == lengths[last := offset - table2[last]]
    ensures Decoded(table2, lengths2, es, idx + 1, idx, total, was) && LastChunk(es, idx + 1, idx, offset)
  {
    EndSkips(es, last + 1, idx, total);
    assert End(es, last + 1, total) == offset;
    assert Knows(es, last, last, table[last], lengths[last], total, Kept(es, was, idx, last));
    forall k | 0 <= k <= |es|
      ensures if k < idx + 1 then Knows(es, k, idx, table2[k], lengths2[k], total, Kept(es, was, idx + 1, k))
              else table2[k] == was.table[k] && lengths2[k] == Kept(es, was, idx + 1, k)
    {
      KeptLater(es, was, idx, last, k);
      if k < idx {
        assert Knows(es, k, last, table[k], lengths[k], total, Kept(es, was, idx, k));
      }
    }
  }

  lemma {:induction false} LoadAlias(table: seq<nat>, lengths: seq<int>, es: seq<Entry>, idx: nat, last: int, pval: nat,
                                     target: nat, total: nat, was: Tables, lengths2: seq<int>)
    requires idx < |es| && es[idx] == Alias(target) && target < idx && es[target].Chunk?
    requires Decoded(table, lengths, es, idx, last, total, was) && LastChunk(es, idx, last, pval)
    requires lengths2 == lengths[idx := -(target + 1)]
    ensures Decoded(table[idx := 0], lengths2, es, idx + 1, last, total, was) && LastChunk(es, idx + 1, last, pval)
  {
    forall k | 0 <= k <= |es|
      ensures if k < idx + 1 then Knows(es, k, last, table[idx := 0][k], lengths2[k], total, Kept(es, was, idx + 1, k))
              else table[k] == was.table[k] && lengths2[k] == Kept(es, was, idx + 1, k)
    {
      KeptNext(es, was, idx, k);
      if k < idx {
        assert Knows(es, k, last, table[k], lengths[k], total, Kept(es, was, idx, k));
      }
    }
  }

  lemma {:induction false} LoadAbsent(table: seq<nat>, lengths: seq<int>, es: seq<Entry>, idx: nat, last: int,
                                      pval: nat, total: nat, was: Tables)
    requires idx < |es| && es[idx].Absent?
    requires Decoded(table, lengths, es, idx, last, total, was) && LastChunk(es, idx, last, pval)
    ensures Decoded(table[idx := 0], lengths, es, idx + 1, last, total, was) && LastChunk(es, idx + 1, last, pval)
  {
    forall k | 0 <= k <= |es|
      ensures if k < idx + 1 then Knows(es, k, last, table[idx := 0][k], lengths[k], total, Kept(es, was, idx + 1, k))
              else table[k] == was.table[k] && lengths[k] == Kept(es, was, idx + 1, k)
    {
      KeptNext(es, was, idx, k);
      if k < idx {
        assert Knows(es, k, last, table[k], lengths[k], total, Kept(es, was, idx, k));
      }
    }
  }

  /** Enters a chunk in the tables; `last0` is the last chunk before it. */
  method EnterChunk(pval: nat, idx: nat, pidx: nat, table: array<nat>, lengths: array<int>,
                    ghost es: seq<Entry>, ghost last0: int, ghost pval0: nat, ghost total: nat, ghost was: Tables)
    requires idx < |es| < TWO31 && es[idx] == Chunk(pval) && pval0 < pval
    requires Decoded(table[..], lengths[..], es, idx, last0, total, was) && LastChunk(es, idx, last0, pval0)
    requires pidx == if last0 < 0 then was.pidx else last0
    modifies table, lengths
    ensures Decoded(table[..], lengths[..], es, idx + 1, idx, total, was) && LastChunk(es, idx + 1, idx, pval)
  {
    ghost var table0, lengths0 := table[..], lengths[..];
    table[idx] := pval;
    if idx != 0 {
      lengths[pidx] := pval - table[pidx];
    }
    if last0 < 0 {
      LoadFirst(table0, lengths0, es, idx, pval, total, was, table[..], lengths[..]);
    } else {
      LoadLater(table0, lengths0, es, idx, last0, pval0, pval, total, was, table[..], lengths[..]);
    }
  }

  /** Enters an alias. */
  method EnterAlias(alias: int, idx: nat, table: array<nat>, lengths: array<int>,
                    ghost es: seq<Entry>, ghost last: int, ghost pval: nat, ghost total: nat, ghost was: Tables)
    requires idx < |es| && es[idx].Alias? && alias == -(es[idx].target + 1) && es[idx].target < idx
             && es[es[idx].target].Chunk?
    requires Decoded(table[..], lengths[..], es, idx, last, total, was) && LastChunk(es, idx, last, pval)
    modifies table, lengths
    ensures Decoded(table[..], lengths[..], es, idx + 1, last, total, was) && LastChunk(es, idx + 1, last, pval)
  {
    ghost var table0, lengths0 := table[..], lengths[..];
    table[idx] := 0;
    lengths[idx] := alias;
    LoadAlias(table0, lengths0, es, idx, last, pval, es[idx].target, total, was, lengths[..]);
  }

  /** Enters a step in the tables; `last` is the last chunk so far. */
  method Enter(shval: int, idx: nat, pval0: nat, pidx0: nat, prevAlias0: int, table: array<nat>, lengths: array<int>,
               ghost es: seq<Entry>, ghost last0: int, ghost alias0: nat, ghost total: nat, ghost was: Tables)
      returns (pval: nat, pidx: nat, prevAlias: int, ghost last: int, ghost alias: nat)
    requires idx < |es| < TWO31 && !es[idx].Absent? && WellFormed(es, idx, pval0) && prevAlias0 + alias0 == 0
    requires shval == StepValue(es[idx], pval0, alias0)
    requires Decoded(table[..], lengths[..], es, idx, last0, total, was) && LastChunk(es, idx, last0, pval0)
    requires pidx0 == if last0 < 0 then was.pidx else last0
    modifies table, lengths
    ensures prevAlias + alias == 0
    ensures if es[idx].Chunk? then pval == es[idx].offset && alias == alias0
            else pval == pval0 && alias == es[idx].target + 1
    ensures Decoded(table[..], lengths[..], es, idx + 1, last, total, was) && LastChunk(es, idx + 1, last, pval)
    ensures pidx == if last < 0 then was.pidx else last
  {
    pval, pidx, prevAlias, last, alias := pval0, pidx0, prevAlias0, last0, if es[idx].Chunk? then alias0
        else es[idx].target + 1;
    if shval > 0 {
      pval := pval0 + shval;
      EnterChunk(pval, idx, pidx, table, lengths, es, last0, pval0, total, was);
      pidx, last := idx, idx;
    } else {
      if shval < 0 {
        prevAlias := shval;
      }
      EnterAlias(prevAlias, idx, table, lengths, es, last0, pval0, total, was);
    }
  }

  method LoadRun(idx0: nat, loopcnt: nat, table: array<nat>, lengths: array<int>,
                 ghost es: seq<Entry>, ghost last: int, ghost pval: nat, ghost total: nat, ghost was: Tables)
      returns (idx: nat)
    requires idx0 + loopcnt <= |es| && forall k :: idx0 <= k < idx0 + loopcnt ==> es[k].Absent?
    requires Decoded(table[..], lengths[..], es, idx0, last, total, was) && LastChunk(es, idx0, last, pval)
    modifies table
    ensures idx == idx0 + loopcnt
    ensures Decoded(table[..], lengths[..], es, idx, last, total, was) && LastChunk(es, idx, last, pval)
  {
    idx := idx0;
    for i := 0 to loopcnt
      invariant idx == idx0 + i && Decoded(table[..], lengths[..], es, idx, last, total, was)
                && LastChunk(es, idx, last, pval)
    {
      LoadAbsent(table[..], lengths[..], es, idx, last, pval, total, was);
      table[idx] := 0;
      idx := idx + 1;
    }
  }

  /** Every handle's entries before aliases are resolved. */
  ghost predicate AllKnown(table: seq<nat>, lengths: seq<int>, es: seq<Entry>, total: nat, was: Tables) {
    |table| == |lengths| == |es| + 1 && Fits(was, |es|) && table[|es|] == total && lengths[|es|] == Stale(es, was, |es|)
    && forall k :: 0 <= k < |es| ==> Knows(es, k, |es|, table[k], lengths[k], total, Stale(es, was, k))
  }

  /** The handles before `i` are resolved, the others not. */
  ghost predicate Resolved(table: seq<nat>, lengths: seq<int>, es: seq<Entry>, i: nat, total: nat, was: Tables) {
    i <= |es| && |table| == |lengths| == |es| + 1 && Fits(was, |es|) && table[|es|] == total
    && lengths[|es|] == Stale(es, was, |es|)
    && (forall k :: 0 <= k < i ==> (table[k], lengths[k]) == Entered(es, was, total, k))
    && forall k :: i <= k < |es| ==> Knows(es, k, |es|, table[k], lengths[k], total, Stale(es, was, k))
  }

  lemma {:induction false} ResolveNext(table: seq<nat>, lengths: seq<int>, es: seq<Entry>, i: nat, total: nat,
                                       was: Tables, table2: seq<nat>, lengths2: seq<int>)
    requires Resolved(table, lengths, es, i, total, was) && i < |es| && WellFormed(es, 0, 0)
    requires var m := -lengths[i] - 1;
             if lengths[i] < 0 && table[i] == 0 && m < i then table2 == table[i := table[m]]
                 && lengths2 == lengths[i := lengths[m]]
             else table2 == table && lengths2 == lengths
    ensures Resolved(table2, lengths2, es, i + 1, total, was)
  {
    assert Knows(es, i, |es|, table[i], lengths[i], total, Stale(es, was, i));
    ChunkTarget(es, 0, 0, i);
    if es[i].Chunk? {
      OffsetPositive(es, 0, 0, i);
    }
  }

  /** Resolves aliases, in order, to the chunks they name. */
  method Resolve(idx: nat, table: array<nat>, lengths: array<int>, ghost es: seq<Entry>, ghost total: nat,
                 ghost was: Tables)
    requires idx == |es| && WellFormed(es, 0, 0) && AllKnown(table[..], lengths[..], es, total, was)
    modifies table, lengths
    ensures Resolved(table[..], lengths[..], es, |es|, total, was)
  {
    var i := 0;
    while i < idx
      invariant i <= idx && Resolved(table[..], lengths[..], es, i, total, was)
    {
      ghost var table0, lengths0 := table[..], lengths[..];
      if lengths[i] < 0 && table[i] == 0 {
        var v32 := -lengths[i] - 1;
        if v32 < i {
          table[i] := table[v32];
          lengths[i] := lengths[v32];
        }
      }
      ResolveNext(table0, lengths0, es, i, total, was, table[..], lengths[..]);
      i := i + 1;
    }
  }

  /** The last chunk ends where the index starts. */
  lemma {:induction false} LoadEnd(table: seq<nat>, lengths: seq<int>, es: seq<Entry>, last: nat, pval: nat, total: nat,
                                   was: Tables, table2: seq<nat>, lengths2: seq<int>)
    requires Decoded(table, lengths, es, |es|, last, total, was) && LastChunk(es, |es|, last, pval)
    requires table2 == table[|es| := total] && lengths2 == lengths[last := total - table2[last]]
    ensures AllKnown(table2, lengths2, es, total, was)
  {
    EndSkips(es, last + 1, |es|, total);
    assert FirstChunk(es, 0) <= last;
    forall k | 0 <= k < |es|
      ensures Knows(es, k, |es|, table2[k], lengths2[k], total, Stale(es, was, k))
    {
      assert Knows(es, k, last, table[k], lengths[k], total, Kept(es, was, |es|, k));
    }
  }

  method Finish(idx: nat, pidx: nat, total: nat, table: array<nat>, lengths: array<int>, ghost es: seq<Entry>,
                ghost pval: nat, ghost was: Tables)
    requires Decoded(table[..], lengths[..], es, |es|, pidx, total, was) && LastChunk(es, |es|, pidx, pval)
             && idx == |es|
    modifies table, lengths
    ensures AllKnown(table[..], lengths[..], es, total, was)
  {
    ghost var table0, lengths0 := table[..], lengths[..];
    table[idx] := total;
    lengths[pidx] := total as int - table[pidx];
    LoadEnd(table0, lengths0, es, pidx, pval, total, was, table[..], lengths[..]);
  }

  /** Decodes the stream into the tables; `pidx` is the last chunk. */
  method LoadEntries(mem: seq<byte>, pnt0: nat, end: nat, pidx0: nat, table: array<nat>, lengths: array<int>,
                     ghost es: seq<Entry>, ghost total: nat, ghost was: Tables)
      returns (idx: nat, pidx: nat, ghost last: int, ghost pval: nat)
    requires |es| < TWO31 && Pending(mem, pnt0, end, es, 0, 0, 0)
    requires Decoded(table[..], lengths[..], es, 0, -1, total, was) && pidx0 == was.pidx
    modifies table, lengths
    ensures idx == |es| && Decoded(table[..], lengths[..], es, |es|, last, total, was)
            && LastChunk(es, |es|, last, pval)
    ensures pidx == if last < 0 then was.pidx else last
  {
    var pnt, at: nat, prevAlias: int := pnt0, 0, 0;
    ghost var alias: nat := 0;
    idx, pidx, last, pval := 0, pidx0, -1, 0;
    while pnt != end
      invariant prevAlias + alias == 0 && pval == at && Pending(mem, pnt, end, es, idx, at, alias)
      invariant Decoded(table[..], lengths[..], es, idx, last, total, was) && LastChunk(es, idx, last, pval)
      invariant pidx == if last < 0 then was.pidx else last
      decreases |es| - idx
    {
      LowBit(mem, pnt, end, es, idx, at, alias);
      if mem[pnt] % 2 == 0 {
        var loopcnt;
        loopcnt, pnt := ReadRun(mem, pnt, end, es, idx, at, alias);
        idx := LoadRun(idx, loopcnt, table, lengths, es, last, at, total, was);
      } else {
        var shval;
        shval, pnt := ReadStep(mem, pnt, end, es, idx, at, alias);
        at, pidx, prevAlias, last, alias :=
            Enter(shval, idx, at, pidx, prevAlias, table, lengths, es, last, alias, total, was);
        idx, pval := idx + 1, at;
      }
    }
    LowBit(mem, pnt, end, es, idx, at, alias);
  }

  lemma {:induction false} LastIs(es: seq<Entry>, n: nat, last: nat, pval: nat, p: nat)
    requires n <= |es| && LastChunk(es, n, last, pval)
    ensures LastOf(es, n, p) == last
  {
    if last + 1 < n {
      LastIs(es, n - 1, last, pval, p);
    }
  }

  /** Decodes the index of a section into tables that are new or were left by the section before.
      `total` is the position of the index, counted like the offsets. */
  method LoadIndex(mem: seq<byte>, pnt: nat, end: nat, total: nat, pidx0: nat, table: array<nat>, lengths: array<int>,
                   ghost es: seq<Entry>)
      returns (pidx: nat)
    requires |es| < TWO31 && WellFormed(es, 0, 0) && exists k :: 0 <= k < |es| && es[k].Chunk?
    requires At(mem, pnt, EncodeIndex(es)) && end == pnt + |EncodeIndex(es)|
    requires Fits(Tables(table[..], lengths[..], pidx0), |es|)
    modifies table, lengths
    ensures Tables(table[..], lengths[..], pidx) == After(es, old(Tables(table[..], lengths[..], pidx0)), total)
  {
    ghost var was := Tables(table[..], lengths[..], pidx0);
    var idx;
    ghost var last, pval;
    idx, pidx, last, pval := LoadEntries(mem, pnt, end, pidx0, table, lengths, es, total, was);
    LastIs(es, |es|, last, pval, pidx0);
    Finish(idx, pidx, total, table, lengths, es, pval, was);
    Resolve(idx, table, lengths, es, total, was);
    ResolvedAll(table[..], lengths[..], pidx, es, total, was);
  }

  lemma {:induction false} ResolvedAll(table: seq<nat>, lengths: seq<int>, pidx: nat, es: seq<Entry>, total: nat,
                                       was: Tables)
    requires Resolved(table, lengths, es, |es|, total, was) && pidx == LastOf(es, |es|, was.pidx)
    ensures Tables(table, lengths, pidx) == After(es, was, total)
  {
    var t := After(es, was, total);
    AfterAt(es, was, total, t);
    forall k | 0 <= k < |es|
      ensures table[k] == t.table[k] && lengths[k] == t.lengths[k]
    {
      assert (table[k], lengths[k]) == Entered(es, was, total, k);
    }
    assert table == t.table && lengths == t.lengths;
  }

  /** A present handle's entries are those of the chunk it uses. */
  lemma {:induction false} LocatedAs(es: seq<Entry>, ends: seq<nat>, k: nat, t: nat, table: nat, length: int,
                                     total: nat)
    requires Laid(es, ends) && k < |es| && t < |es| && total == ends[|es|] && Located(es, k, table, length, total)
    requires es[t].Chunk? && (k == t || es[k] == Alias(t))
    ensures 0 < table == ends[t] && length == ends[t + 1] - ends[t]
  {
    LaidEnd(es, ends, t + 1, total);
    LaidPositive(ends, es, t);
  }

  lemma {:induction false} LaidPositive(ends: seq<nat>, es: seq<Entry>, k: nat)
    requires Laid(es, ends) && k <= |es|
    ensures ends[k] > 0
  {
    if k > 0 {
      LaidPositive(ends, es, k - 1);
      var e := es[k - 1];
    }
  }
}
