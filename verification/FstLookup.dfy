/** Looking up in a section what was written: the value of a handle at a time is the last one written
    for it up to then. */
module FstLookup {
  import opened Bytes
  import opened Leb128
  import opened FstRecord
  import opened FstIndex
  import opened FstTables
  import opened FstSection
  import opened FstTimes
  import opened FstWriter
  import opened FstMerge
  import opened FstRoundTrip
  import At = FstAtTime

  /** The last of these changes that is not after `tim`, or the value before them. */
  function LastAt(story: seq<Change>, tim: nat, before: seq<byte>): (value: seq<byte>) {
    if story == [] then before
    else
      var last := story[|story| - 1];
      if last.0 <= tim then last.1 else LastAt(story[..|story| - 1], tim, before)
  }

  function Moments(story: seq<Change>): (ts: seq<nat>)
    ensures |ts| == |story| && forall k :: 0 <= k < |story| ==> ts[k] == story[k].0
  {
    seq(|story|, k requires 0 <= k < |story| => story[k].0)
  }

  function AllMoments(stories: seq<seq<Change>>): (tss: seq<seq<nat>>)
    ensures |tss| == |stories| && forall h :: 0 <= h < |stories| ==> tss[h] == Moments(stories[h])
  {
    seq(|stories|, h requires 0 <= h < |stories| => Moments(stories[h]))
  }

  /** The right answer is the last change in this sense. */
  lemma {:induction false} RightIsLast(story: seq<Change>, tim: nat, before: seq<byte>, a: At.Answer)
    requires At.Right(Moments(story), tim, a)
    ensures LastAt(story, tim, before) == match a case FromFrame => before case FromChange(k) => story[k].1
  {
    if story != [] {
      var ts, n := Moments(story), |story| - 1;
      assert ts[n] == story[n].0;
      if story[n].0 > tim {
        var less := story[..n];
        assert forall k :: 0 <= k < n ==> Moments(less)[k] == ts[k];
        RightIsLast(less, tim, before, a);
      }
    }
  }

  // ---- a section ----

  /** The reply to a query, given what every handle was told and the values before that. */
  function ReplyOf(lens: seq<nat>, stories: seq<seq<Change>>, frame: seq<seq<byte>>, q: At.Query): At.Reply
    requires |stories| == |frame| == |lens|
  {
    if At.Refused(lens, q) then At.Null else At.Value(LastAt(stories[q.h], q.tim, frame[q.h]))
  }

  function Histories(lens: seq<nat>, chains: seq<Chain>): (r: seq<seq<Change>>)
    requires AllStorable(lens, chains)
    ensures |r| == |lens| && forall h :: 0 <= h < |lens| ==> r[h] == History(lens[h], chains[h])
  {
    seq(|lens|, h requires 0 <= h < |lens| => History(lens[h], chains[h]))
  }

  lemma {:induction false} StoryMoments(len: nat, chain: Chain, times: Times)
    requires Storable(len, chain) && Rising(times) && Total(chain) < Ticks(times)
    ensures var history, table := History(len, chain), TimeTable(times);
            (forall k :: 0 <= k < |history| ==> history[k].0 < |table|)
            && At.TimesOf(history, table) == Moments(Story(len, chain, times))
            && At.Sorted(Moments(Story(len, chain, times)))
  {
    At.StoredLookup(len, chain, times);
    StepsTimed(len, chain, times);
  }

  /** All handles' changes come in the order of their times. */
  lemma {:induction false} StoriesSorted(lens: seq<nat>, chains: seq<Chain>, times: Times)
    requires Telling(lens, chains, times) && Rising(times)
    ensures forall h :: 0 <= h < |lens| ==> At.Sorted(AllMoments(Stories(lens, chains, times))[h])
  {
    forall h | 0 <= h < |lens|
      ensures At.Sorted(AllMoments(Stories(lens, chains, times))[h])
    {
      StoryMoments(lens[h], chains[h], times);
    }
  }

  /** The lookups do not go back to before the first change of the handle looked up last. */
  ghost predicate Forward(lens: seq<nat>, chains: seq<Chain>, times: Times, begin: nat, queries: seq<At.Query>)
    requires Telling(lens, chains, times) && Rising(times)
  {
    StoriesSorted(lens, chains, times);
    At.Ahead(lens, AllMoments(Stories(lens, chains, times)), At.Nobody, begin, queries)
  }

  function PayloadIn(loaded: Loaded): seq<byte> {
    if loaded.Found? then loaded.mem else []
  }

  /** The payloads of a section as the lookups want them. */
  lemma {:induction false} PayloadsSound(lens: seq<nat>, chains: seq<Chain>, times: Times, payloads: seq<seq<byte>>)
    requires Telling(lens, chains, times) && Rising(times) && |payloads| == |lens|
    requires forall h :: 0 <= h < |lens| ==> payloads[h] == Payload(lens[h], chains[h])
    ensures forall h :: 0 <= h < |lens| ==> At.Place(lens[h], payloads[h], Histories(lens, chains)[h], 0, 0, 0)
    ensures forall h, k :: 0 <= h < |lens| && 0 <= k < |Histories(lens, chains)[h]| ==>
              Histories(lens, chains)[h][k].0 < |TimeTable(times)|
  {
    forall h | 0 <= h < |lens|
      ensures At.Place(lens[h], payloads[h], Histories(lens, chains)[h], 0, 0, 0)
      ensures forall k :: 0 <= k < |Histories(lens, chains)[h]| ==> Histories(lens, chains)[h][k].0 < |TimeTable(times)|
    {
      At.StoredLookup(lens[h], chains[h], times);
    }
  }

  /** The lookups hold a section's histories and times. */
  ghost predicate Opens(l: At.Lookups, lens: seq<nat>, chains: seq<Chain>, times: Times)
    requires Telling(lens, chains, times)
    reads l
  {
    l.Valid() && l.lens == lens && l.stories == Histories(lens, chains) && l.table == TimeTable(times)
  }

  /** When a handle changes is when its story says. */
  lemma {:induction false} TimesAgree(l: At.Lookups, lens: seq<nat>, chains: seq<Chain>, times: Times)
    requires Telling(lens, chains, times) && Rising(times) && Opens(l, lens, chains, times)
    ensures l.AllTimes() == AllMoments(Stories(lens, chains, times)) && l.AllSorted()
  {
    forall h | 0 <= h < |lens|
      ensures l.AllTimes()[h] == AllMoments(Stories(lens, chains, times))[h] && At.Sorted(l.AllTimes()[h])
    {
      StoryMoments(lens[h], chains[h], times);
      assert l.AllTimes()[h] == l.Times(h) == At.TimesOf(History(lens[h], chains[h]), TimeTable(times));
    }
  }

  /** What a scan from the start finds is the last change told. */
  lemma {:induction false} ScannedTold(l: At.Lookups, lens: seq<nat>, chains: seq<Chain>, times: Times, q: At.Query)
    requires Telling(lens, chains, times) && Rising(times) && Opens(l, lens, chains, times)
             && (At.Refused(lens, q) || l.begTim <= q.tim)
    ensures l.Scanned(q) == ReplyOf(lens, Stories(lens, chains, times), l.frame, q)
  {
    TimesAgree(l, lens, chains, times);
    if !At.Refused(lens, q) {
      l.ScannedRight(q);
      StoryMoments(lens[q.h], chains[q.h], times);
      var a := At.AnswerOf(l.Times(q.h), At.Cursor(false, 0, 0), q.tim);
      assert l.Times(q.h) == Moments(Story(lens[q.h], chains[q.h], times));
      RightIsLast(Story(lens[q.h], chains[q.h], times), q.tim, l.frame[q.h], a);
    }
  }

  /** No query of such a run is before the section. */
  lemma {:induction false} AheadBegins(lens: seq<nat>, tss: seq<seq<nat>>, focus: At.Focus, beg: nat,
                                       queries: seq<At.Query>, i: nat)
    requires |tss| == |lens| && At.FocusFresh(tss, focus) && (forall h :: 0 <= h < |tss| ==> At.Sorted(tss[h]))
    requires At.Ahead(lens, tss, focus, beg, queries) && i < |queries|
    ensures At.Refused(lens, queries[i]) || beg <= queries[i].tim
    decreases i
  {
    if i > 0 {
      if At.Refused(lens, queries[0]) {
        AheadBegins(lens, tss, focus, beg, queries[1..], i - 1);
      } else {
        At.FocusStays(tss, focus, queries[0], beg);
        AheadBegins(lens, tss, At.FocusAfter(tss, focus, queries[0], beg), beg, queries[1..], i - 1);
      }
    }
  }

  /** The payloads of a section, loaded into new tables. */
  method LoadForLookups(c: Codec, section: Section, lens: seq<nat>, packtype: byte, trailer: seq<byte>,
                        ghost chains: seq<Chain>)
      returns (payloads: seq<seq<byte>>)
    requires AllStorable(lens, chains) && Recoverable(c, lens, chains) && |trailer| >= 5
    requires section.data == DataOf(c, lens, chains)
             && section.index == EncodeIndex(IndexOf(c, PayloadsOf(lens, chains)))
    ensures |payloads| == |lens| && forall h :: 0 <= h < |lens| ==> payloads[h] == Payload(lens[h], chains[h])
  {
    var chainTable, chainLengths := NewTables(|lens|);
    FreshRight(IndexOf(c, PayloadsOf(lens, chains)));
    var loaded, pidx := LoadPayloads(c, section, lens, packtype, trailer, 0, chainTable, chainLengths, chains);
    payloads := seq(|lens|, h requires 0 <= h < |lens| => PayloadIn(loaded[h]));
    forall h | 0 <= h < |lens|
      ensures payloads[h] == Payload(lens[h], chains[h])
    {
      PayloadPresent(lens[h], chains[h]);
    }
  }

  /** Loads a section for lookups. */
  method OpenSection(c: Codec, section: Section, lens: seq<nat>, packtype: byte, trailer: seq<byte>,
                     ghost chains: seq<Chain>, ghost times: Times)
      returns (l: At.Lookups)
    requires AllStorable(lens, chains) && Rising(times) && Latest(times) < TWO64 && Telling(lens, chains, times)
    requires section == SectionOf(c, lens, chains, times, section.frame, section.begin, section.end)
    requires Recoverable(c, lens, chains) && |section.frame| == |lens| && |trailer| >= 5
    ensures fresh(l) && Opens(l, lens, chains, times) && l.FocusOf() == At.Nobody
    ensures l.begTim == section.begin && l.frame == section.frame
  {
    var payloads := LoadForLookups(c, section, lens, packtype, trailer, chains);
    var table := LoadTimes(section.tchn, section.count, times);
    PayloadsSound(lens, chains, times, payloads);
    l := new At.Lookups(lens, table, section.begin, section.frame, payloads, Histories(lens, chains));
  }

  /** Loads a section and looks things up in it: every reply is the last change that the handle was told
      up to that time, or the frame's value. */
  method LookIn(c: Codec, section: Section, lens: seq<nat>, packtype: byte, trailer: seq<byte>, queries: seq<At.Query>,
                ghost chains: seq<Chain>, ghost times: Times)
      returns (replies: seq<At.Reply>)
    requires AllStorable(lens, chains) && Rising(times) && Latest(times) < TWO64 && Telling(lens, chains, times)
    requires section == SectionOf(c, lens, chains, times, section.frame, section.begin, section.end)
    requires Recoverable(c, lens, chains) && |section.frame| == |lens| && |trailer| >= 5
    requires Forward(lens, chains, times, section.begin, queries)
    ensures |replies| == |queries|
    ensures forall i :: 0 <= i < |queries| ==>
              replies[i] == ReplyOf(lens, Stories(lens, chains, times), section.frame, queries[i])
              && (replies[i] == At.Null <==> queries[i].h >= |lens| || lens[queries[i].h] == 0)
  {
    var l := OpenSection(c, section, lens, packtype, trailer, chains, times);
    TimesAgree(l, lens, chains, times);
    forall i | 0 <= i < |queries|
      ensures l.Scanned(queries[i]) == ReplyOf(lens, Stories(lens, chains, times), section.frame, queries[i])
    {
      AheadBegins(lens, l.AllTimes(), At.Nobody, section.begin, queries, i);
      ScannedTold(l, lens, chains, times, queries[i]);
    }
    replies := l.Run(queries);
  }

  // ---- the whole way ----

  /** What these calls tell every handle. */
  function Logs(lens: seq<nat>, ops: seq<Op>, now: nat): (r: seq<seq<Change>>)
    requires Proper(lens, ops, now)
    ensures |r| == |lens| && forall h :: 0 <= h < |lens| ==> r[h] == Log(lens, ops, now, h)
  {
    seq(|lens|, h requires 0 <= h < |lens| => Log(lens, ops, now, h))
  }

  /** A log goes on in time. */
  lemma {:induction false} LogRises(lens: seq<nat>, ops: seq<Op>, now: nat, h: nat)
    requires Proper(lens, ops, now) && h < |lens|
    ensures At.Sorted(Moments(Log(lens, ops, now, h)))
    ensures forall k :: 0 <= k < |Log(lens, ops, now, h)| ==> now <= Log(lens, ops, now, h)[k].0
  {
    if ops != [] {
      LogRises(lens, ops[1..], if ops[0].Time? then ops[0].time else now, h);
    }
  }

  ghost predicate ForwardIn(lens: seq<nat>, ops: seq<Op>, now: nat, begin: nat, queries: seq<At.Query>)
    requires Proper(lens, ops, now)
  {
    LogsSorted(lens, ops, now);
    At.Ahead(lens, AllMoments(Logs(lens, ops, now)), At.Nobody, begin, queries)
  }

  lemma {:induction false} LogsSorted(lens: seq<nat>, ops: seq<Op>, now: nat)
    requires Proper(lens, ops, now)
    ensures forall h :: 0 <= h < |lens| ==> At.Sorted(AllMoments(Logs(lens, ops, now))[h])
  {
    forall h | 0 <= h < |lens|
      ensures At.Sorted(AllMoments(Logs(lens, ops, now))[h])
    {
      LogRises(lens, ops, now, h);
    }
  }

  /** Something was written by then. */
  predicate Since(written: seq<Change>, tim: nat) {
    exists k :: 0 <= k < |written| && written[k].0 <= tim
  }

  /** The reply is the last value written by then, or the one before. */
  ghost predicate LooksBack(len: nat, written: seq<Change>, tim: nat, before: seq<byte>, reply: At.Reply) {
    reply.Value?
    && if Since(written, tim) then ComesBack(len, LastAt(written, tim, before), reply.value) else reply.value == before
  }

  lemma {:induction false} LastReturned(len: nat, written: seq<Change>, got: seq<Change>, tim: nat, before: seq<byte>)
    requires Returned(len, written, got)
    ensures LooksBack(len, written, tim, before, At.Value(LastAt(got, tim, before)))
  {
    if written != [] {
      var n := |written| - 1;
      assert got[n].0 == written[n].0 && ComesBack(len, written[n].1, got[n].1);
      if written[n].0 > tim {
        LastReturned(len, written[..n], got[..n], tim, before);
        if Since(written, tim) {
          var k :| 0 <= k < |written| && written[k].0 <= tim;
          assert written[..n][k].0 <= tim;
        } else {
          assert forall k :: 0 <= k < n ==> written[..n][k] == written[k];
        }
      }
    }
  }

  /** Writes a section and flushes it. */
  method WriteSection(w: Writer, ops: seq<Op>, tim: nat)
      returns (section: Section, ghost chains: seq<Chain>, ghost times: Times)
    requires OneSection(w, ops, tim) && w.frame == w.Values()
    modifies w
    ensures Live(w) && AllStorable(w.lens, chains) && Rising(times) && Latest(times) < TWO64
            && Telling(w.lens, chains, times)
    ensures section == SectionOf(w.c, w.lens, chains, times, old(w.Values()), old(w.begin), section.end)
    ensures Recoverable(w.c, w.lens, chains) && Stories(w.lens, chains, times) == Logs(w.lens, ops, old(w.curtime))
  {
    NothingTold(w, ops);
    WriteAll(w, ops);
    w.FlushContext();
    SomethingToFlush(w);
    InStepTelling(w);
    chains, times := w.chains, w.times;
    assert Stories(w.lens, chains, times) == Logs(w.lens, ops, old(w.curtime));
    var written := w.EmitTimeChange(tim);
    section := written.section;
  }

  /** Looking back at the log is looking back at what was written. */
  lemma {:induction false} RepliesLookBack(lens: seq<nat>, ops: seq<Op>, now: nat, values: seq<seq<byte>>,
                                           queries: seq<At.Query>, replies: seq<At.Reply>)
    requires Proper(lens, ops, now) && |values| == |lens| && |replies| == |queries|
    requires forall i :: 0 <= i < |queries| ==> replies[i] == ReplyOf(lens, Logs(lens, ops, now), values, queries[i])
    ensures forall i :: 0 <= i < |queries| && queries[i].h < |lens| && lens[queries[i].h] > 0 ==>
              LooksBack(lens[queries[i].h], AsWritten(lens, ops, now, queries[i].h), queries[i].tim,
                        values[queries[i].h], replies[i])
  {
    forall i | 0 <= i < |queries| && queries[i].h < |lens| && lens[queries[i].h] > 0
      ensures LooksBack(lens[queries[i].h], AsWritten(lens, ops, now, queries[i].h), queries[i].tim,
                        values[queries[i].h], replies[i])
    {
      var h, tim := queries[i].h, queries[i].tim;
      LogReturns(lens, ops, now, h);
      LastReturned(lens[h], AsWritten(lens, ops, now, h), Log(lens, ops, now, h), tim, values[h]);
    }
  }

  /** A section is written, flushed, loaded and looked up in: every reply is the last value written for
      the handle up to that time, or the one it had when the section began. */
  method LookupRoundTrip(w: Writer, ops: seq<Op>, tim: nat, packtype: byte, trailer: seq<byte>, queries: seq<At.Query>)
      returns (replies: seq<At.Reply>)
    requires OneSection(w, ops, tim) && w.frame == w.Values() && |trailer| >= 5
    requires ForwardIn(w.lens, ops, w.curtime, w.begin, queries)
    modifies w
    ensures Live(w) && |replies| == |queries|
    ensures forall i :: 0 <= i < |queries| ==>
              (replies[i] == At.Null <==> queries[i].h >= |w.lens| || w.lens[queries[i].h] == 0)
    ensures forall i :: 0 <= i < |queries| && queries[i].h < |w.lens| && w.lens[queries[i].h] > 0 ==>
              replies[i] == At.Value(LastAt(Log(w.lens, ops, old(w.curtime), queries[i].h), queries[i].tim,
                                            old(w.Values())[queries[i].h]))
    ensures forall i :: 0 <= i < |queries| && queries[i].h < |w.lens| && w.lens[queries[i].h] > 0 ==>
              LooksBack(w.lens[queries[i].h], AsWritten(w.lens, ops, old(w.curtime), queries[i].h), queries[i].tim,
                        old(w.Values())[queries[i].h], replies[i])
  {
    ghost var values := w.Values();
    var section;
    ghost var chains, times;
    section, chains, times := WriteSection(w, ops, tim);
    replies := LookIn(w.c, section, w.lens, packtype, trailer, queries, chains, times);
    RepliesLookBack(w.lens, ops, old(w.curtime), values, queries, replies);
  }
}
