/** A GHW file from the simulator to the reader: the signals of the hierarchy get numbers, the simulation
    is dumped, and the reader finds at each time and for each declared signal the values it had. */
module GhwDump {
  import opened Bytes
  import opened Leb128
  import opened GhwLeb
  import opened GhwStream
  import opened GhwFormat
  import opened GhwTrace
  import opened GhwStory
  import opened GhwNumbers
  import opened GhwWaves
  import GhwSignal

  /** A simulation cycle: the time, and the values and events of all basic signals. */
  datatype Cycle = Cycle(time: int, state: seq<Value>, events: seq<bool>)

  /** Those of the dumped signals. */
  function Picked<T>(table: seq<nat>, xs: seq<T>): (r: seq<T>)
    requires AllBelow(table, |xs|)
    ensures |r| == |table| && forall n :: 0 <= n < |table| ==> r[n] == xs[table[n]]
  {
    seq(|table|, n requires 0 <= n < |table| => xs[table[n]])
  }

  function StateAt(initial: seq<Value>, cycles: seq<Cycle>, k: nat): seq<Value>
    requires k <= |cycles|
  {
    if k == 0 then initial else cycles[k - 1].state
  }

  /** The dumped signals have values of their types, which the reader can take. */
  ghost predicate StateFits(base: seq<Basic>, table: seq<nat>, state: seq<Value>) {
    |state| == |base|
    && forall s :: 0 <= s < |base| && s in table ==> Readable(base[s]) && Holds(ModeOf(base[s]), state[s])
  }

  ghost predicate CycleFits(base: seq<Basic>, table: seq<nat>, initial: seq<Value>, cycles: seq<Cycle>, k: nat)
    requires k < |cycles|
  {
    var c := cycles[k];
    StateFits(base, table, c.state) && Marked(StateAt(initial, cycles, k), c.state, c.events) && Int64(c.time)
    && 0 <= (if k == 0 then 0 else cycles[k - 1].time) <= c.time
  }

  ghost predicate CyclesFit(base: seq<Basic>, table: seq<nat>, initial: seq<Value>, cycles: seq<Cycle>) {
    StateFits(base, table, initial) && forall k :: 0 <= k < |cycles| ==> CycleFits(base, table, initial, cycles, k)
  }

  function MomentOf(table: seq<nat>, c: Cycle): Moment
    requires AllBelow(table, |c.state|) && |c.events| == |c.state|
  {
    Moment(c.time, Picked(table, c.state), Picked(table, c.events))
  }

  ghost predicate SameSize(cycles: seq<Cycle>, n: nat) {
    forall k :: 0 <= k < |cycles| ==> |cycles[k].state| == |cycles[k].events| == n
  }

  function MomentsOf(table: seq<nat>, cycles: seq<Cycle>, n: nat): (moments: seq<Moment>)
    requires AllBelow(table, n) && SameSize(cycles, n)
    ensures |moments| == |cycles| && forall k :: 0 <= k < |cycles| ==> moments[k] == MomentOf(table, cycles[k])
  {
    seq(|cycles|, k requires 0 <= k < |cycles| => MomentOf(table, cycles[k]))
  }

  lemma {:induction false} PickedHold(base: seq<Basic>, table: seq<nat>, state: seq<Value>)
    requires AllBelow(table, |base|) && StateFits(base, table, state)
    ensures AllHold(BasesOf(base, table), Picked(table, state))
  {
    forall n | 0 <= n < |table|
      ensures Readable(base[table[n]]) && Holds(ModeOf(base[table[n]]), state[table[n]])
    {
      assert table[n] in table;
    }
  }

  lemma {:induction false} Sizes(base: seq<Basic>, table: seq<nat>, initial: seq<Value>, cycles: seq<Cycle>)
    requires CyclesFit(base, table, initial, cycles)
    ensures SameSize(cycles, |base|)
  {
    forall k | 0 <= k < |cycles|
      ensures |cycles[k].state| == |cycles[k].events| == |base|
    {
      assert CycleFits(base, table, initial, cycles, k);
    }
  }

  /** The dumped part of a simulation is one. */
  lemma {:induction false} PickedSimulated(base: seq<Basic>, table: seq<nat>, initial: seq<Value>,
                                           cycles: seq<Cycle>)
    requires AllBelow(table, |base|) && CyclesFit(base, table, initial, cycles) && SameSize(cycles, |base|)
    ensures AllHold(BasesOf(base, table), Picked(table, initial))
    ensures Simulated(BasesOf(base, table), Picked(table, initial), MomentsOf(table, cycles, |base|))
  {
    PickedHold(base, table, initial);
    forall k | 0 <= k < |cycles|
      ensures Follows(BasesOf(base, table), Picked(table, initial), MomentsOf(table, cycles, |base|), k)
    {
      assert CycleFits(base, table, initial, cycles, k);
      if k > 0 {
        assert CycleFits(base, table, initial, cycles, k - 1);
      }
      PickedHold(base, table, cycles[k].state);
    }
  }

  /** The values that a reader has at one time, looked up with the numbers it has for a declared signal. */
  ghost predicate Finds(vals: seq<Value>, ids: seq<nat>, state: seq<Value>, sigs: seq<nat>) {
    |ids| == |sigs| + 1
    && forall j :: 0 <= j < |sigs| ==> ids[j] < |vals| && sigs[j] < |state| && vals[ids[j]] == state[sigs[j]]
  }

  lemma {:induction false} LeadsFinds(ids: seq<nat>, table: seq<nat>, sigs: seq<nat>, state: seq<Value>, spare: nat)
    requires Leads(ids, table, sigs) && AllBelow(table, |state|)
    ensures Finds(Shown(Picked(table, state), spare), ids, state, sigs)
  {
    forall j | 0 <= j < |sigs|
      ensures ids[j] < 1 + |table| + spare && sigs[j] < |state|
      ensures Shown(Picked(table, state), spare)[ids[j]] == state[sigs[j]]
    {
      ShownIs(Picked(table, state), spare, ids[j]);
      assert Picked(table, state)[ids[j] - 1] == state[table[ids[j] - 1]];
    }
  }

  /** What is seen of all declared signals. */
  ghost predicate AllFound(seen: seq<Seen>, got: seq<seq<nat>>, decls: seq<Decl>, initial: seq<Value>,
                           cycles: seq<Cycle>) {
    |seen| == 1 + |cycles| && |got| == |decls|
    && (forall i :: 0 <= i < |decls| ==> Finds(seen[0].vals, got[i], initial, decls[i].sigs))
    && forall i, k :: 0 <= i < |decls| && 0 <= k < |cycles| ==>
                        Finds(seen[1 + k].vals, got[i], cycles[k].state, decls[i].sigs)
  }

  lemma {:induction false} SeenFound(seen: seq<Seen>, start: int, got: seq<seq<nat>>, decls: seq<Decl>, table: seq<nat>,
                                     initial: seq<Value>, cycles: seq<Cycle>, n: nat, spare: nat)
    requires AllBelow(table, n) && SameSize(cycles, n) && |initial| == n && |got| == |decls|
             && AllLead(got, table, decls)
    requires AllSeen(seen, start, Picked(table, initial), MomentsOf(table, cycles, n), spare)
    ensures AllFound(seen, got, decls, initial, cycles)
    ensures seen[0].time == TimeRead(start)
    ensures forall k :: 0 <= k < |cycles| ==>
                          seen[1 + k].time == TimeRead(cycles[0].time) + (cycles[k].time - cycles[0].time)
  {
    var moments := MomentsOf(table, cycles, n);
    forall k | 0 <= k < |cycles|
      ensures seen[1 + k].vals == Shown(Picked(table, cycles[k].state), spare)
      ensures seen[1 + k].time == TimeRead(cycles[0].time) + (cycles[k].time - cycles[0].time)
    {
      assert moments[k] == MomentOf(table, cycles[k]) && moments[0] == MomentOf(table, cycles[0]);
    }
    forall i | 0 <= i < |decls|
      ensures Finds(seen[0].vals, got[i], initial, decls[i].sigs)
    {
      LeadsFinds(got[i], table, decls[i].sigs, initial, spare);
    }
    forall i, k | 0 <= i < |decls| && 0 <= k < |cycles|
      ensures Finds(seen[1 + k].vals, got[i], cycles[k].state, decls[i].sigs)
    {
      LeadsFinds(got[i], table, decls[i].sigs, cycles[k].state, spare);
    }
  }

  /** A file is written: the numbers of the declared signals after `front`, the simulation after `back`. */
  method WriteFile(be: bool, decls: seq<Decl>, base: seq<Basic>, start: int, initial: seq<Value>, cycles: seq<Cycle>,
                   front: seq<byte>, back: seq<byte>, sections: seq<(seq<byte>, nat)>)
      returns (w: Waves, ghost table: seq<nat>, at: nat)
    requires AllDeclFit(decls, base) && |base| + 1 < TWO32 && Int64(start) && |sections| + 3 < 0x8000_0000
    requires forall k :: 0 <= k < |sections| ==> |sections[k].0| == 4
    requires CyclesFit(base, OrderAfter([], decls), initial, cycles)
    ensures fresh(w) && w.Valid() && !w.inCyc && w.be == be && table == OrderAfter([], decls) && Distinct(table, |base|)
    ensures w.head == front + DeclsBytes([], decls) + back && at == |w.head| && w.Kinds() == TypesOf(base, table)
    ensures SameSize(cycles, |base|)
            && AllSeen(w.told.story, start, Picked(table, initial), MomentsOf(table, cycles, |base|), w.spare)
  {
    var n := new Numbering(front, |base|);
    WriteDecls(n, decls, base);
    var dumped := n.DumpTable();
    table, at := dumped, |n.out + back|;
    Room(table, |base|);
    Sizes(base, table, initial, cycles);
    PickedSimulated(base, table, initial, cycles);
    w := new Waves(be, BasesOf(base, dumped), |base| - |dumped|, n.out + back, sections, Picked(dumped, initial));
    var moments := MomentsOf(dumped, cycles, |base|);
    Simulate(w, start, moments);
    ExpectedIs(start, Picked(table, initial), moments, w.spare, |moments|);
    assert moments[..|moments|] == moments;
  }

  /** The file is read: first the hierarchy, then the simulation with the types from there. */
  method ReadFile(s: seq<byte>, be: bool, decls: seq<Decl>, hieAt: nat, at: nat, nbrSigs: nat, ghost base: seq<Basic>,
                  ghost front: seq<byte>, ghost back: seq<byte>, ghost spare: nat, ghost told: Told, ghost now: int)
      returns (ok: bool, got: seq<seq<nat>>, code: int, seen: seq<Seen>)
    requires AllDeclFit(decls, base) && nbrSigs == |base| + 1 < TWO32 && hieAt == |front|
    requires Distinct(OrderAfter([], decls), |base|) && at == |front + DeclsBytes([], decls) + back| && told.open.None?
    requires Filed(TypesOf(base, OrderAfter([], decls)), be, spare, front + DeclsBytes([], decls) + back, s, told, now)
    requires front + DeclsBytes([], decls) + back <= s
    ensures ok && code == RES_EOF && seen == told.story && |got| == |decls|
            && AllLead(got, OrderAfter([], decls), decls)
  {
    var types;
    ok, got, types := ReadHierarchy(s, decls, hieAt, nbrSigs, base, front, back);
    seen, code := WatchFile(File(s, be, types), at, spare, front + DeclsBytes([], decls) + back, told, now);
  }

  method ReadHierarchy(s: seq<byte>, decls: seq<Decl>, at: nat, nbrSigs: nat, ghost base: seq<Basic>,
                       ghost front: seq<byte>, ghost back: seq<byte>)
      returns (ok: bool, got: seq<seq<nat>>, types: seq<Kind>)
    requires AllDeclFit(decls, base) && nbrSigs == |base| + 1 < TWO32 && at == |front|
    requires front + DeclsBytes([], decls) + back <= s
    ensures ok && |got| == |decls| && Distinct(OrderAfter([], decls), |base|)
    ensures AllLead(got, OrderAfter([], decls), decls) && types == TypesOf(base, OrderAfter([], decls))
  {
    HierarchyAt(s, front, DeclsBytes([], decls), back);
    NoTypes(base);
    var r := new GhwSignal.Reader(s, at, nbrSigs, 0);
    assert r.types == TypesOf(base, []);
    ok, got := ReadDecls(r, decls, base);
    types := r.types;
  }

  method WatchFile(f: File, at: nat, ghost spare: nat, ghost head: seq<byte>, ghost told: Told, ghost now: int)
      returns (seen: seq<Seen>, code: int)
    requires |f.kinds| < TWO32 && Filed(f.kinds, f.be, spare, head, f.s, told, now) && told.open.None? && at == |head|
    ensures code == RES_EOF && seen == told.story
  {
    FiledReads(f, spare, head, told, now);
    var h := new Handler(f, at);
    seen, code := Watch(h);
  }

  lemma {:induction false} NoTypes(base: seq<Basic>)
    ensures |TypesOf(base, [])| == |base| + 1 && forall i :: 0 <= i < |base| + 1 ==> TypesOf(base, [])[i].NoType?
  {
  }

  lemma {:induction false} HierarchyAt(out: seq<byte>, front: seq<byte>, decls: seq<byte>, back: seq<byte>)
    requires front + decls + back <= out
    ensures |front| <= |out| && At(out, |front|, decls)
  {
  }

  /** Both. Every declared signal has at each time the values it had in the simulation. */
  method DumpDesign(be: bool, decls: seq<Decl>, base: seq<Basic>, start: int, initial: seq<Value>,
                    cycles: seq<Cycle>, front: seq<byte>, back: seq<byte>, sections: seq<(seq<byte>, nat)>)
      returns (ok: bool, got: seq<seq<nat>>, code: int, seen: seq<Seen>)
    requires AllDeclFit(decls, base) && |base| + 1 < TWO32 && Int64(start) && |sections| + 3 < 0x8000_0000
    requires forall k :: 0 <= k < |sections| ==> |sections[k].0| == 4
    requires CyclesFit(base, OrderAfter([], decls), initial, cycles)
    ensures ok && code == RES_EOF && AllFound(seen, got, decls, initial, cycles)
    ensures seen[0].time == TimeRead(start)
    ensures forall k :: 0 <= k < |cycles| ==>
                          seen[1 + k].time == TimeRead(cycles[0].time) + (cycles[k].time - cycles[0].time)
  {
    var w, table, at := WriteFile(be, decls, base, start, initial, cycles, front, back, sections);
    ok, got, code, seen := ReadFile(w.out, be, decls, |front|, at, |base| + 1, base, front, back, w.spare, w.told,
                                    w.waveTime);
    SeenFound(seen, start, got, decls, table, initial, cycles, |base|, w.spare);
  }
}
