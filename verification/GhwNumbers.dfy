/** Signal numbers: how the writer of a GHW file numbers the basic signals of the declared ones, and that
    the reader gets these numbers and the types of the basic signals back. */
module GhwNumbers {
  import opened Bytes
  import opened Leb128
  import opened GhwLeb
  import opened GhwSignal
  import opened GhwStory
  import opened GhwStream

  // ---- numbers in the stream ----

  /** Numbers that a reader with `nbrSigs - 1` signals accepts. */
  ghost predicate Proper(ids: seq<nat>, nbrSigs: nat) {
    forall k :: 0 <= k < |ids| ==> 0 < ids[k] < nbrSigs && ids[k] < TWO32
  }

  function NumbersBytes(ids: seq<nat>): (bytes: seq<byte>) {
    if ids == [] then [] else Varint(ids[0]) + NumbersBytes(ids[1..])
  }

  /** Every number from 1 up to the number of signals is accepted and read as it was written. */
  lemma {:induction false} NumbersRead(s: seq<byte>, at: nat, ids: seq<nat>, nbrSigs: nat, end: nat)
    requires Proper(ids, nbrSigs) && At(s, at, NumbersBytes(ids)) && end == at + |NumbersBytes(ids)|
    ensures IdsAt(s, at, |ids|, nbrSigs) == Run(ids, end)
    decreases |ids|
  {
    if ids != [] {
      var first, rest := Varint(ids[0]), NumbersBytes(ids[1..]);
      AtSplit(s, at, first, rest);
      UnsignedRoundTrip(s, at, ids[0]);
      NumbersRead(s, at + |first|, ids[1..], nbrSigs, end);
      assert [ids[0]] + ids[1..] == ids;
    }
  }

  /** After `k` accepted numbers the stream ends, or the next number is 0 or too large. */
  ghost predicate StopsAt(s: seq<byte>, at: nat, k: nat, nbrSigs: nat) {
    var run := IdsAt(s, at, k, nbrSigs);
    run.Run?
    && match Unsigned(s, run.next)
       case Short => true
       case Overlong => false
       case Got(id, _) => id == 0 || id >= nbrSigs
  }

  /** Numbers are refused for no other reason. */
  lemma {:induction false} RefusedIff(s: seq<byte>, at: nat, n: nat, nbrSigs: nat)
    ensures IdsAt(s, at, n, nbrSigs).Refused? <==> exists k :: 0 <= k < n && StopsAt(s, at, k, nbrSigs)
  {
    if IdsAt(s, at, n, nbrSigs).Refused? {
      var k := WhereRefused(s, at, n, nbrSigs);
      assert StopsAt(s, at, k, nbrSigs);
    } else {
      forall k | 0 <= k < n
        ensures !StopsAt(s, at, k, nbrSigs)
      {
        if StopsAt(s, at, k, nbrSigs) {
          StopsRefused(s, at, k, n, nbrSigs);
        }
      }
    }
  }

  lemma {:induction false} OneNumber(s: seq<byte>, at: nat, nbrSigs: nat)
    ensures IdsAt(s, at, 1, nbrSigs).Refused? <==> StopsAt(s, at, 0, nbrSigs)
  {
  }

  lemma {:induction false} StopsRefused(s: seq<byte>, at: nat, k: nat, n: nat, nbrSigs: nat)
    requires k < n && StopsAt(s, at, k, nbrSigs)
    ensures IdsAt(s, at, n, nbrSigs).Refused?
  {
    OneNumber(s, IdsAt(s, at, k, nbrSigs).next, nbrSigs);
    IdsSplit(s, at, k, 1, k + 1, nbrSigs);
    IdsSplit(s, at, k + 1, n - k - 1, n, nbrSigs);
  }

  lemma {:induction false} WhereRefused(s: seq<byte>, at: nat, n: nat, nbrSigs: nat) returns (k: nat)
    requires IdsAt(s, at, n, nbrSigs).Refused?
    ensures k < n && StopsAt(s, at, k, nbrSigs)
    decreases n
  {
    k := n - 1;
    IdsSplit(s, at, k, 1, n, nbrSigs);
    if IdsAt(s, at, k, nbrSigs).Refused? {
      k := WhereRefused(s, at, k, nbrSigs);
    } else {
      OneNumber(s, IdsAt(s, at, k, nbrSigs).next, nbrSigs);
    }
  }

  /** The signal case of ghw_read_hie: the numbers of a declared signal, and a zero after them. */
  method ReadDeclared(r: Reader, t: Type, ghost ids: seq<nat>) returns (ok: bool)
    requires r.pos <= |r.s| && WellFormed(t) && Supported(t)
    requires NbrElements(t) >= 0 ==> !IdsAt(r.s, r.pos, NbrElements(t), |r.types|).Undefined?
    modifies r
    ensures r.pos <= |r.s| && |r.types| == |old(r.types)|
    ensures !ok <==> NbrElements(t) < 0 || exists k :: 0 <= k < NbrElements(t) && StopsAt(r.s, old(r.pos), k, |r.types|)
    ensures |ids| == NbrElements(t) && Proper(ids, |old(r.types)|) && At(r.s, old(r.pos), NumbersBytes(ids)) ==>
              ok && r.sigs == ids + [0] && r.pos == old(r.pos) + |NumbersBytes(ids)|
              && |Leaves(t)| == |ids| && r.types == Assigned(old(r.types), ids, Leaves(t))
  {
    var nbrEl := NbrElements(t);
    if nbrEl < 0 {
      return false;
    }
    r.sigs := seq(nbrEl + 1, _ => 0);
    ghost var was := r.St();
    Counts(t);
    RefusedIff(r.s, r.pos, nbrEl, |r.types|);
    if |ids| == nbrEl && Proper(ids, |r.types|) && At(r.s, r.pos, NumbersBytes(ids)) {
      NumbersRead(r.s, r.pos, ids, |r.types|, r.pos + |NumbersBytes(ids)|);
    }
    ok := r.ReadSignal(0, t);
    if ok && |ids| == nbrEl && Proper(ids, |was.types|) && At(r.s, was.pos, NumbersBytes(ids)) {
      assert r.sigs == ids + [0];
    }
  }

  // ---- numbering ----

  ghost predicate AllBelow(sigs: seq<nat>, total: nat) {
    forall k :: 0 <= k < |sigs| ==> sigs[k] < total
  }

  ghost predicate Distinct(order: seq<nat>, total: nat) {
    AllBelow(order, total) && forall j, k :: 0 <= j < k < |order| ==> order[j] != order[k]
  }

  /** There are no more numbers than signals. */
  lemma {:induction false} Room(order: seq<nat>, total: nat)
    requires Distinct(order, total)
    ensures |order| <= total
    decreases total
  {
    if order != [] {
      assert order[0] < total;
      if i :| 0 <= i < |order| && order[i] == total - 1 {
        Room(order[..i] + order[i + 1..], total - 1);
      } else {
        Room(order, total - 1);
      }
    }
  }

  /** The number of a signal among those in `order`, 0 if it has none. */
  function NumberOf(order: seq<nat>, sig: nat): (n: nat)
    ensures if sig in order then 0 < n <= |order| && order[n - 1] == sig else n == 0
  {
    if order == [] then 0
    else if order[|order| - 1] == sig then |order|
    else NumberOf(order[..|order| - 1], sig)
  }

  /** The order with one signal, and with several, numbered in turn. */
  function WithOne(order: seq<nat>, sig: nat): seq<nat> {
    if sig in order then order else order + [sig]
  }

  function WithAll(order: seq<nat>, sigs: seq<nat>): (r: seq<nat>)
    ensures order <= r
  {
    if sigs == [] then order else WithOne(WithAll(order, sigs[..|sigs| - 1]), sigs[|sigs| - 1])
  }

  /** The numbers put out for them. */
  function Numbers(order: seq<nat>, sigs: seq<nat>): (ids: seq<nat>)
    ensures |ids| == |sigs|
  {
    if sigs == [] then []
    else Numbers(order, sigs[..|sigs| - 1]) + [NumberOf(WithAll(order, sigs), sigs[|sigs| - 1])]
  }

  lemma {:induction false} WithOneDistinct(order: seq<nat>, sig: nat, total: nat)
    requires Distinct(order, total) && sig < total
    ensures Distinct(WithOne(order, sig), total)
  {
  }

  lemma {:induction false} WithAllDistinct(order: seq<nat>, sigs: seq<nat>, total: nat)
    requires Distinct(order, total) && AllBelow(sigs, total)
    ensures Distinct(WithAll(order, sigs), total)
  {
    if sigs != [] {
      var n := |sigs| - 1;
      WithAllDistinct(order, sigs[..n], total);
      WithOneDistinct(WithAll(order, sigs[..n]), sigs[n], total);
    }
  }

  /** Exactly the signals that have been numbered have numbers. */
  lemma {:induction false} WithAllHolds(order: seq<nat>, sigs: seq<nat>, sig: nat)
    ensures sig in WithAll(order, sigs) <==> sig in order || sig in sigs
  {
    if sigs != [] {
      var n := |sigs| - 1;
      WithAllHolds(order, sigs[..n], sig);
      assert sigs == sigs[..n] + [sigs[n]];
    }
  }

  /** A number leads back to its signal, now and when there are more of them. */
  lemma {:induction false} NumbersLead(order: seq<nat>, sigs: seq<nat>, total: nat, later: seq<nat>, k: nat)
    requires Distinct(order, total) && AllBelow(sigs, total) && k < |sigs|
    requires WithAll(order, sigs) <= later
    ensures 0 < Numbers(order, sigs)[k] <= |later| && later[Numbers(order, sigs)[k] - 1] == sigs[k]
    decreases |sigs|
  {
    var n := |sigs| - 1;
    if k == n {
      WithAllHolds(order, sigs, sigs[n]);
    } else {
      NumbersLead(order, sigs[..n], total, later, k);
    }
  }

  lemma {:induction false} NumbersProper(order: seq<nat>, sigs: seq<nat>, total: nat)
    requires Distinct(order, total) && AllBelow(sigs, total) && total + 1 < TWO32
    ensures Proper(Numbers(order, sigs), total + 1)
  {
    var later := WithAll(order, sigs);
    WithAllDistinct(order, sigs, total);
    Room(later, total);
    forall k | 0 <= k < |sigs|
      ensures 0 < Numbers(order, sigs)[k] < total + 1
    {
      NumbersLead(order, sigs, total, later, k);
    }
  }

  // ---- types ----

  function BasesOf(base: seq<Basic>, order: seq<nat>): (r: seq<Basic>)
    requires AllBelow(order, |base|)
    ensures |r| == |order|
  {
    seq(|order|, k requires 0 <= k < |order| => base[order[k]])
  }

  /** The types a reader has when these signals have numbers. */
  function TypesOf(base: seq<Basic>, order: seq<nat>): (r: seq<Kind>)
    requires Distinct(order, |base|)
    ensures |r| == |base| + 1
  {
    Room(order, |base|);
    KindsOf(BasesOf(base, order), |base| - |order|)
  }

  lemma {:induction false} TypeUsed(base: seq<Basic>, order: seq<nat>, sig: nat)
    requires Distinct(order, |base|) && sig < |base|
    ensures Distinct(WithOne(order, sig), |base|) && NumberOf(WithOne(order, sig), sig) <= |base|
    ensures Used(TypesOf(base, order), NumberOf(WithOne(order, sig), sig), base[sig])
            == TypesOf(base, WithOne(order, sig))
  {
    WithOneDistinct(order, sig, |base|);
    Room(WithOne(order, sig), |base|);
    if sig !in order {
      TypeNew(base, order, sig, BasesOf(base, order), |base| - |order|);
    } else {
      var n := NumberOf(order, sig);
      assert BasesOf(base, order)[n - 1] == base[sig];
      assert TypesOf(base, order)[n] == Typed(base[sig]);
    }
  }

  lemma {:induction false} TypeNew(base: seq<Basic>, order: seq<nat>, sig: nat, bases: seq<Basic>, spare: nat)
    requires Distinct(order, |base|) && sig < |base| && sig !in order && Distinct(order + [sig], |base|) && spare > 0
    requires bases == BasesOf(base, order) && spare == |base| - |order|
    ensures NumberOf(order + [sig], sig) == |order| + 1
    ensures BasesOf(base, order + [sig]) == bases + [base[sig]]
    ensures Used(KindsOf(bases, spare), |order| + 1, base[sig]) == KindsOf(bases + [base[sig]], spare - 1)
  {
    assert (order + [sig])[|order|] == sig;
    assert KindsOf(bases, spare)[|order| + 1].NoType?;
  }

  /** Reading the numbers of more signals gives them their types. */
  lemma {:induction false} TypesAssigned(base: seq<Basic>, order: seq<nat>, sigs: seq<nat>)
    requires Distinct(order, |base|) && AllBelow(sigs, |base|) && |base| + 1 < TWO32
    ensures Distinct(WithAll(order, sigs), |base|) && Proper(Numbers(order, sigs), |base| + 1)
    ensures Assigned(TypesOf(base, order), Numbers(order, sigs), BasesOf(base, sigs))
            == TypesOf(base, WithAll(order, sigs))
    decreases |sigs|
  {
    WithAllDistinct(order, sigs, |base|);
    NumbersProper(order, sigs, |base|);
    if sigs != [] {
      var n := |sigs| - 1;
      TypesAssigned(base, order, sigs[..n]);
      BasesLast(base, sigs, n);
      TypesStep(base, TypesOf(base, order), WithAll(order, sigs[..n]), sigs[n], Numbers(order, sigs[..n]),
                BasesOf(base, sigs[..n]));
    }
  }

  lemma {:induction false} BasesLast(base: seq<Basic>, sigs: seq<nat>, n: nat)
    requires AllBelow(sigs, |base|) && |sigs| == n + 1
    ensures BasesOf(base, sigs) == BasesOf(base, sigs[..n]) + [base[sigs[n]]]
  {
  }

  lemma {:induction false} TypesStep(base: seq<Basic>, types: seq<Kind>, order: seq<nat>, sig: nat, ids: seq<nat>,
                                     leaves: seq<Basic>)
    requires Distinct(order, |base|) && sig < |base| && |types| == |base| + 1 && |ids| == |leaves|
    requires (forall k :: 0 <= k < |ids| ==> ids[k] < |types|) && Assigned(types, ids, leaves) == TypesOf(base, order)
    ensures Distinct(WithOne(order, sig), |base|) && NumberOf(WithOne(order, sig), sig) < |types|
    ensures Assigned(types, ids + [NumberOf(WithOne(order, sig), sig)], leaves + [base[sig]])
            == TypesOf(base, WithOne(order, sig))
  {
    TypeUsed(base, order, sig);
    AssignedLast(types, ids, leaves, NumberOf(WithOne(order, sig), sig), base[sig]);
  }

  lemma {:induction false} AssignedLast(types: seq<Kind>, ids: seq<nat>, leaves: seq<Basic>, id: nat, leaf: Basic)
    requires |ids| == |leaves| && id < |types| && forall k :: 0 <= k < |ids| ==> ids[k] < |types|
    ensures Assigned(types, ids + [id], leaves + [leaf]) == Used(Assigned(types, ids, leaves), id, leaf)
  {
    AssignedThen(types, ids, leaves, [id], [leaf]);
    assert [id][1..] == [] && [leaf][1..] == [];
  }

  // ---- the writer ----

  class Numbering {
    var out: seq<byte>
    /** The number of every signal of the simulator, 0 for none. */
    var alink: seq<nat>
    var nbrDumped: nat
    /** The signals that have numbers, by number. */
    ghost var order: seq<nat>

    ghost predicate Valid()
      reads this
    {
      Distinct(order, |alink|) && nbrDumped == |order|
      && forall sig :: 0 <= sig < |alink| ==> alink[sig] == NumberOf(order, sig)
    }

    constructor (out: seq<byte>, total: nat)
      ensures Valid() && |alink| == total && order == [] && this.out == out
    {
      this.out, alink, nbrDumped, order := out, seq(total, _ => 0), 0, [];
    }

    /** Write_Signal_Number: a signal without a number gets the next one. */
    method WriteSignalNumber(sig: nat)
      requires Valid() && sig < |alink|
      modifies this
      ensures Valid() && |alink| == |old(alink)| && order == WithOne(old(order), sig)
      ensures out == old(out) + Varint(NumberOf(order, sig))
    {
      if alink[sig] == 0 {
        nbrDumped := nbrDumped + 1;
        alink := alink[sig := nbrDumped];
        order := order + [sig];
        assert order[..|order| - 1] == old(order);
      }
      var number := PutVarint(alink[sig]);
      out := out + number;
    }

    /** Write_Signal_Numbers: scalar after scalar. */
    method WriteSignalNumbers(sigs: seq<nat>)
      requires Valid() && AllBelow(sigs, |alink|)
      modifies this
      ensures Valid() && |alink| == |old(alink)| && order == WithAll(old(order), sigs)
      ensures out == old(out) + NumbersBytes(Numbers(old(order), sigs))
    {
      ghost var was := order;
      assert sigs[..0] == [];
      for k := 0 to |sigs|
        invariant Valid() && |alink| == |old(alink)| && order == WithAll(was, sigs[..k])
        invariant out == old(out) + NumbersBytes(Numbers(was, sigs[..k]))
      {
        ghost var before := out;
        WriteSignalNumber(sigs[k]);
        NumbersNext(was, sigs, k);
        Moved(old(out), NumbersBytes(Numbers(was, sigs[..k])), Varint(NumberOf(order, sigs[k])));
      }
      assert sigs[..|sigs|] == sigs;
    }

    /** The table of dumped signals, made in Write_Hierarchy: the signals by number. */
    method DumpTable() returns (table: seq<nat>)
      requires Valid()
      ensures table == order
    {
      table := seq(nbrDumped, _ => 0);
      for sig := 0 to |alink|
        invariant |table| == nbrDumped && forall n :: 0 <= n < |order| && order[n] < sig ==> table[n] == order[n]
      {
        var n := alink[sig];
        if n != 0 {
          table := table[n - 1 := sig];
        }
      }
    }
  }

  lemma {:induction false} NumbersThen(ids: seq<nat>, id: nat)
    ensures NumbersBytes(ids + [id]) == NumbersBytes(ids) + Varint(id)
    decreases |ids|
  {
    if ids == [] {
      assert [] + [id] == [id] && [id][1..] == [];
      assert Varint(id) + [] == [] + Varint(id);
    } else {
      NumbersThen(ids[1..], id);
      assert (ids + [id])[1..] == ids[1..] + [id];
      Moved(Varint(ids[0]), NumbersBytes(ids[1..]), Varint(id));
    }
  }

  lemma {:induction false} NumbersNext(order: seq<nat>, sigs: seq<nat>, k: nat)
    requires k < |sigs|
    ensures WithAll(order, sigs[..k + 1]) == WithOne(WithAll(order, sigs[..k]), sigs[k])
    ensures NumbersBytes(Numbers(order, sigs[..k + 1]))
            == NumbersBytes(Numbers(order, sigs[..k])) + Varint(NumberOf(WithAll(order, sigs[..k + 1]), sigs[k]))
  {
    assert sigs[..k + 1][..k] == sigs[..k];
    NumbersThen(Numbers(order, sigs[..k]), NumberOf(WithAll(order, sigs[..k + 1]), sigs[k]));
  }

  // ---- all declared signals ----

  /** A declared signal: what the hierarchy says of it before the numbers, its type, and the basic signals
      of its scalars. */
  datatype Decl = Decl(front: seq<byte>, t: Type, sigs: seq<nat>)

  /** The basic signals have the types of the scalars. */
  ghost predicate DeclFits(d: Decl, base: seq<Basic>) {
    WellFormed(d.t) && Supported(d.t) && NbrElements(d.t) == |d.sigs| && AllBelow(d.sigs, |base|)
    && Leaves(d.t) == BasesOf(base, d.sigs)
  }

  ghost predicate AllDeclFit(decls: seq<Decl>, base: seq<Basic>) {
    forall i :: 0 <= i < |decls| ==> DeclFits(decls[i], base)
  }

  /** The order of the numbers after these. */
  function OrderAfter(order: seq<nat>, decls: seq<Decl>): (r: seq<nat>)
    ensures order <= r
    decreases |decls|
  {
    if decls == [] then order else OrderAfter(WithAll(order, decls[0].sigs), decls[1..])
  }

  function DeclsBytes(order: seq<nat>, decls: seq<Decl>): (bytes: seq<byte>)
    decreases |decls|
  {
    if decls == [] then []
    else
      decls[0].front
      + (NumbersBytes(Numbers(order, decls[0].sigs)) + DeclsBytes(WithAll(order, decls[0].sigs), decls[1..]))
  }

  lemma {:induction false} OrderHolds(order: seq<nat>, decls: seq<Decl>, sig: nat)
    ensures sig in OrderAfter(order, decls) <==> sig in order || exists d :: d in decls && sig in d.sigs
    decreases |decls|
  {
    if decls != [] {
      WithAllHolds(order, decls[0].sigs, sig);
      OrderHolds(WithAll(order, decls[0].sigs), decls[1..], sig);
      assert decls == [decls[0]] + decls[1..];
    }
  }

  lemma {:induction false} FromHere(order: seq<nat>, decls: seq<Decl>, k: nat)
    requires k < |decls|
    ensures OrderAfter(order, decls[k..]) == OrderAfter(WithAll(order, decls[k].sigs), decls[k + 1..])
    ensures DeclsBytes(order, decls[k..])
            == decls[k].front
               + (NumbersBytes(Numbers(order, decls[k].sigs))
                  + DeclsBytes(WithAll(order, decls[k].sigs), decls[k + 1..]))
  {
    assert decls[k..][1..] == decls[k + 1..];
  }

  lemma {:induction false} Placed(out: seq<byte>, a: seq<byte>, b: seq<byte>, c: seq<byte>)
    ensures out + (a + (b + c)) == ((out + a) + b) + c
  {
  }

  /** The signals of the hierarchy, one after the other. */
  method WriteDecls(w: Numbering, decls: seq<Decl>, ghost base: seq<Basic>)
    requires w.Valid() && |w.alink| == |base| && AllDeclFit(decls, base)
    modifies w
    ensures w.Valid() && |w.alink| == |base| && w.order == OrderAfter(old(w.order), decls)
    ensures w.out == old(w.out) + DeclsBytes(old(w.order), decls)
  {
    ghost var all, last := w.out + DeclsBytes(w.order, decls), OrderAfter(w.order, decls);
    assert decls[0..] == decls;
    for k := 0 to |decls|
      invariant w.Valid() && |w.alink| == |base|
      invariant w.out + DeclsBytes(w.order, decls[k..]) == all && OrderAfter(w.order, decls[k..]) == last
    {
      assert DeclFits(decls[k], base);
      FromHere(w.order, decls, k);
      Placed(w.out, decls[k].front, NumbersBytes(Numbers(w.order, decls[k].sigs)),
             DeclsBytes(WithAll(w.order, decls[k].sigs), decls[k + 1..]));
      w.out := w.out + decls[k].front;
      w.WriteSignalNumbers(decls[k].sigs);
    }
    assert decls[|decls|..] == [] && w.out + [] == w.out;
  }

  /** One of them is read: the numbers, and a zero. */
  method ReadDecl(r: Reader, d: Decl, ghost ids: seq<nat>, ghost rest: seq<byte>) returns (ok: bool)
    requires WellFormed(d.t) && Supported(d.t) && NbrElements(d.t) == |ids| && Proper(ids, |r.types|) && r.pos <= |r.s|
    requires At(r.s, r.pos, d.front + (NumbersBytes(ids) + rest))
    modifies r
    ensures ok && r.pos <= |r.s| && At(r.s, r.pos, rest) && r.sigs == ids + [0]
    ensures |Leaves(d.t)| == |ids| && r.types == Assigned(old(r.types), ids, Leaves(d.t))
  {
    ghost var start, end := DeclAt(r.s, r.pos, d.front, ids, rest, |r.types|);
    r.pos := r.pos + |d.front|;
    ok := ReadDeclared(r, d.t, ids);
  }

  lemma {:induction false} DeclAt(s: seq<byte>, pos: nat, front: seq<byte>, ids: seq<nat>, rest: seq<byte>,
                                  nbrSigs: nat)
      returns (start: nat, end: nat)
    requires At(s, pos, front + (NumbersBytes(ids) + rest)) && Proper(ids, nbrSigs)
    ensures start == pos + |front| && end == start + |NumbersBytes(ids)| && end <= |s|
    ensures At(s, start, NumbersBytes(ids)) && At(s, end, rest) && IdsAt(s, start, |ids|, nbrSigs) == Run(ids, end)
  {
    start, end := pos + |front|, pos + |front| + |NumbersBytes(ids)|;
    AtSplit(s, pos, front, NumbersBytes(ids) + rest);
    AtSplit(s, start, NumbersBytes(ids), rest);
    NumbersRead(s, start, ids, nbrSigs, end);
  }

  /** Every number of a declared signal is that of its basic signal. */
  ghost predicate Leads(ids: seq<nat>, order: seq<nat>, sigs: seq<nat>) {
    |ids| == |sigs| + 1 && ids[|sigs|] == 0
    && forall j :: 0 <= j < |sigs| ==> 0 < ids[j] <= |order| && order[ids[j] - 1] == sigs[j]
  }

  lemma {:induction false} LeadsAll(order: seq<nat>, sigs: seq<nat>, total: nat, later: seq<nat>)
    requires Distinct(order, total) && AllBelow(sigs, total) && WithAll(order, sigs) <= later
    ensures Leads(Numbers(order, sigs) + [0], later, sigs)
  {
    forall j | 0 <= j < |sigs|
      ensures 0 < Numbers(order, sigs)[j] <= |later| && later[Numbers(order, sigs)[j] - 1] == sigs[j]
    {
      NumbersLead(order, sigs, total, later, j);
    }
  }

  lemma {:induction false} DeclNext(d: Decl, base: seq<Basic>, order: seq<nat>, last: seq<nat>, ids: seq<nat>,
                                    types: seq<Kind>)
    requires DeclFits(d, base) && Distinct(order, |base|) && |base| + 1 < TWO32 && WithAll(order, d.sigs) <= last
    requires ids == Numbers(order, d.sigs) && types == TypesOf(base, order)
    ensures WellFormed(d.t) && Supported(d.t) && NbrElements(d.t) == |ids| == |Leaves(d.t)| && Proper(ids, |types|)
    ensures Distinct(WithAll(order, d.sigs), |base|) && Leads(ids + [0], last, d.sigs)
    ensures Assigned(types, ids, Leaves(d.t)) == TypesOf(base, WithAll(order, d.sigs))
  {
    TypesAssigned(base, order, d.sigs);
    LeadsAll(order, d.sigs, |base|, last);
  }

  /** What has been read leads to its signals. */
  ghost predicate AllLead(got: seq<seq<nat>>, last: seq<nat>, decls: seq<Decl>) {
    |got| <= |decls| && forall i :: 0 <= i < |got| ==> Leads(got[i], last, decls[i].sigs)
  }

  /** All of them are read: every number leads to the signal it was given to, and every basic signal that
      has a number gets its type. */
  method ReadDecls(r: Reader, decls: seq<Decl>, ghost base: seq<Basic>) returns (ok: bool, got: seq<seq<nat>>)
    requires AllDeclFit(decls, base) && |base| + 1 < TWO32 && r.pos <= |r.s|
    requires r.types == TypesOf(base, []) && At(r.s, r.pos, DeclsBytes([], decls))
    modifies r
    ensures ok && |got| == |decls| && Distinct(OrderAfter([], decls), |base|)
    ensures AllLead(got, OrderAfter([], decls), decls) && r.types == TypesOf(base, OrderAfter([], decls))
  {
    got, ok := [], true;
    ghost var order: seq<nat>, last := [], OrderAfter([], decls);
    assert decls[0..] == decls;
    for k := 0 to |decls|
      invariant ok && |got| == k && r.pos <= |r.s| && Distinct(order, |base|) && OrderAfter(order, decls[k..]) == last
      invariant At(r.s, r.pos, DeclsBytes(order, decls[k..])) && r.types == TypesOf(base, order)
      invariant AllLead(got, last, decls)
    {
      FromHere(order, decls, k);
      ghost var ids := Numbers(order, decls[k].sigs);
      DeclNext(decls[k], base, order, last, ids, r.types);
      ok := ReadDecl(r, decls[k], ids, DeclsBytes(WithAll(order, decls[k].sigs), decls[k + 1..]));
      got, order := got + [r.sigs], WithAll(order, decls[k].sigs);
    }
    assert decls[|decls|..] == [];
  }
}
