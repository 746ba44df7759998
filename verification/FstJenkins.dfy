/** The hash table that finds equal chains: colliding keys in linked lists, a key that is found again
    moving to the front of its list. Nodes live in one store and are named by their address in it,
    0 being the null address. */
module FstJenkins {
  import opened Bytes

  /** One key of a list; `payload` is what the slot handed out for it holds. */
  datatype Node = Node(mem: seq<byte>, fullhash: nat, next: nat, payload: nat)

  function Ptr(b: seq<nat>, k: nat): nat {
    if k < |b| then b[k] else 0
  }

  /** `b` lists the nodes from `head` on: linked in order, each once, ending in null. */
  ghost predicate Linked(nodes: seq<Node>, head: nat, b: seq<nat>) {
    head == Ptr(b, 0)
    && (forall k :: 0 <= k < |b| ==> 0 < b[k] < |nodes|)
    && (forall k {:trigger nodes[b[k]]} :: 0 <= k < |b| ==> nodes[b[k]].next == Ptr(b, k + 1))
    && forall j, k :: 0 <= j < k < |b| ==> b[j] != b[k]
  }

  /** The list with its element `k` moved to the front. */
  ghost function Fronted(b: seq<nat>, k: nat): (r: seq<nat>)
    requires k < |b|
    ensures |r| == |b| && multiset(r) == multiset(b)
    ensures r[0] == b[k] && (forall j :: 0 <= j < k ==> r[j + 1] == b[j]) && forall j :: k < j < |b| ==> r[j] == b[j]
  {
    assert b == b[..k] + ([b[k]] + b[k + 1..]);
    [b[k]] + b[..k] + b[k + 1..]
  }

  /** Where the element `j` of the new list was. */
  function Place(j: nat, k: nat): nat {
    if j == 0 then k else if j <= k then j - 1 else j
  }

  lemma {:induction false} FrontedAt(b: seq<nat>, k: nat, j: nat)
    requires k < |b| && j < |b|
    ensures Fronted(b, k)[j] == b[Place(j, k)]
  {
    if 0 < j <= k {
      assert Fronted(b, k)[j - 1 + 1] == b[j - 1];
    }
  }

  /** The two pointer writes that take a node out of its list and put it before the head. */
  function Relinked(nodes: seq<Node>, pchain: nat, chain: nat, head: nat): (r: seq<Node>)
    requires pchain < |nodes| && chain < |nodes| && pchain != chain
    ensures |r| == |nodes| && r[pchain].next == nodes[chain].next && r[chain].next == head
    ensures forall p :: 0 <= p < |nodes| ==> r[p] == nodes[p].(next := r[p].next)
    ensures forall p :: 0 <= p < |nodes| && p != pchain && p != chain ==> r[p] == nodes[p]
  {
    nodes[pchain := nodes[pchain].(next := nodes[chain].next)][chain := nodes[chain].(next := head)]
  }

  lemma {:induction false} FrontedDistinct(b: seq<nat>, k: nat)
    requires k < |b| && forall i, j :: 0 <= i < j < |b| ==> b[i] != b[j]
    ensures forall i, j :: 0 <= i < j < |b| ==> Fronted(b, k)[i] != Fronted(b, k)[j]
  {
    forall i, j | 0 <= i < j < |b|
      ensures Fronted(b, k)[i] != Fronted(b, k)[j]
    {
      FrontedAt(b, k, i);
      FrontedAt(b, k, j);
      Apart(b, Place(i, k), Place(j, k));
    }
  }

  lemma {:induction false} Apart(b: seq<nat>, p: nat, q: nat)
    requires p < |b| && q < |b| && p != q && forall i, j :: 0 <= i < j < |b| ==> b[i] != b[j]
    ensures b[p] != b[q]
  {
    if p < q {
    } else {
      assert b[q] != b[p];
    }
  }

  /** The link of the element `j` of the new list. */
  lemma {:induction false} FrontedNext(nodes: seq<Node>, head: nat, b: seq<nat>, k: nat, nodes2: seq<Node>, r: seq<nat>,
                                       j: nat)
    requires Linked(nodes, head, b) && 1 <= k < |b| && j < |b|
    requires nodes2 == Relinked(nodes, b[k - 1], b[k], head) && r == Fronted(b, k)
    ensures 0 < r[j] < |nodes2| && nodes2[r[j]].next == Ptr(r, j + 1)
  {
    FrontedAt(b, k, j);
    var p := Place(j, k);
    assert nodes[b[p]].next == Ptr(b, p + 1) && nodes[b[k]].next == Ptr(b, k + 1);
    if j + 1 < |r| {
      FrontedAt(b, k, j + 1);
    }
  }

  /** Relinking the element `k` of a list moves it to the front. */
  lemma {:induction false} FrontLinked(nodes: seq<Node>, head: nat, b: seq<nat>, k: nat)
    requires Linked(nodes, head, b) && 1 <= k < |b|
    ensures Linked(Relinked(nodes, b[k - 1], b[k], head), b[k], Fronted(b, k))
  {
    var r, nodes2 := Fronted(b, k), Relinked(nodes, b[k - 1], b[k], head);
    forall j | 0 <= j < |r|
      ensures 0 < r[j] < |nodes2| && nodes2[r[j]].next == Ptr(r, j + 1)
    {
      FrontedNext(nodes, head, b, k, nodes2, r, j);
    }
    FrontedDistinct(b, k);
  }

  /** A list none of whose nodes changed is still a list. */
  lemma {:induction false} StillLinked(nodes: seq<Node>, nodes2: seq<Node>, head: nat, b: seq<nat>)
    requires Linked(nodes, head, b) && |nodes| <= |nodes2|
    requires forall k :: 0 <= k < |b| ==> nodes2[b[k]].next == nodes[b[k]].next
    ensures Linked(nodes2, head, b)
  {
  }

  lemma {:induction false} ConsLinked(nodes: seq<Node>, n: Node, head: nat, b: seq<nat>)
    requires Linked(nodes, head, b) && n.next == head && |nodes| > 0
    ensures Linked(nodes + [n], |nodes|, [|nodes|] + b)
  {
    var r, nodes2 := [|nodes|] + b, nodes + [n];
    forall j | 0 <= j < |r|
      ensures nodes2[r[j]].next == Ptr(r, j + 1)
    {
      if j > 0 {
        assert nodes[b[j - 1]].next == Ptr(b, j);
      }
    }
  }

  /** The lists hold the slots of all keys, each where its hash leads. */
  ghost predicate Indexed(hash: seq<byte> -> nat, nodes: seq<Node>, slots: map<seq<byte>, nat>, bs: seq<seq<nat>>) {
    |bs| > 0
    && (forall key :: key in slots ==>
          slots[key] < |nodes| && nodes[slots[key]].mem == key
          && nodes[slots[key]].fullhash == hash(key)
          && slots[key] in bs[hash(key) % |bs|])
    && forall h :: 0 <= h < |bs| ==> Holds(nodes, slots, h, |bs|, bs[h])
  }

  /** The node is for this key. */
  predicate ForKey(node: Node, hf: nat, mem: seq<byte>) {
    node.fullhash == hf && node.mem == mem
  }

  lemma {:induction false} Listed(hash: seq<byte> -> nat, nodes: seq<Node>, slots: map<seq<byte>, nat>,
                                  bs: seq<seq<nat>>, mem: seq<byte>, h: nat, p: nat)
    requires Indexed(hash, nodes, slots, bs) && h < |bs| && p in bs[h] && p < |nodes| && nodes[p].mem == mem
    ensures mem in slots && slots[mem] == p
  {
    assert Holds(nodes, slots, h, |bs|, bs[h]);
  }

  lemma {:induction false} Unlisted(hash: seq<byte> -> nat, nodes: seq<Node>, slots: map<seq<byte>, nat>,
                                    bs: seq<seq<nat>>, mem: seq<byte>, h: nat)
    requires Indexed(hash, nodes, slots, bs) && h == hash(mem) % |bs|
    requires forall j :: 0 <= j < |bs[h]| ==> bs[h][j] < |nodes| && !ForKey(nodes[bs[h][j]], hash(mem), mem)
    ensures mem !in slots
  {
  }

  /** The nodes of list `h` are slots whose hash leads there. */
  ghost predicate Holds(nodes: seq<Node>, slots: map<seq<byte>, nat>, h: nat, size: nat, b: seq<nat>)
    requires size > 0
  {
    (forall p :: p in b ==> p < |nodes|)
    && forall p {:trigger nodes[p]} :: p in b
         ==> nodes[p].mem in slots && slots[nodes[p].mem] == p && nodes[p].fullhash % size == h
  }

  ghost predicate AllLinked(nodes: seq<Node>, ar: seq<nat>, bs: seq<seq<nat>>) {
    |ar| == |bs| && forall h :: 0 <= h < |bs| ==> Linked(nodes, ar[h], bs[h])
  }

  lemma {:induction false} HoldsFronted(nodes: seq<Node>, slots: map<seq<byte>, nat>, h: nat, size: nat, b: seq<nat>,
                                        b2: seq<nat>, nodes2: seq<Node>)
    requires size > 0 && Holds(nodes, slots, h, size, b) && multiset(b2) == multiset(b)
    requires |nodes2| == |nodes| && forall p :: 0 <= p < |nodes| ==> nodes2[p] == nodes[p].(next := nodes2[p].next)
    ensures Holds(nodes2, slots, h, size, b2)
  {
    forall p | p in b2
      ensures p in b
    {
      assert p in multiset(b2);
    }
  }

  lemma {:induction false} IndexedFronted(hash: seq<byte> -> nat, nodes: seq<Node>, slots: map<seq<byte>, nat>,
                                          bs: seq<seq<nat>>, h: nat, k: nat, nodes2: seq<Node>, bs2: seq<seq<nat>>)
    requires Indexed(hash, nodes, slots, bs) && h < |bs| && k < |bs[h]| && bs2 == bs[h := Fronted(bs[h], k)]
    requires |nodes2| == |nodes| && forall p :: 0 <= p < |nodes| ==> nodes2[p] == nodes[p].(next := nodes2[p].next)
    ensures Indexed(hash, nodes2, slots, bs2)
    ensures forall g :: 0 <= g < |bs| ==> multiset(bs2[g]) == multiset(bs[g])
  {
    forall g | 0 <= g < |bs|
      ensures Holds(nodes2, slots, g, |bs|, bs2[g])
    {
      HoldsFronted(nodes, slots, g, |bs|, bs[g], bs2[g], nodes2);
    }
    forall key | key in slots
      ensures slots[key] in bs2[hash(key) % |bs|]
    {
      assert slots[key] in multiset(bs[hash(key) % |bs|]);
    }
  }

  lemma {:induction false} LinkedFronted(hash: seq<byte> -> nat, nodes: seq<Node>, slots: map<seq<byte>, nat>,
                                         ar: seq<nat>, bs: seq<seq<nat>>, h: nat, k: nat)
    requires Indexed(hash, nodes, slots, bs) && AllLinked(nodes, ar, bs) && h < |bs| && 1 <= k < |bs[h]|
    ensures AllLinked(Relinked(nodes, bs[h][k - 1], bs[h][k], ar[h]), ar[h := bs[h][k]], bs[h := Fronted(bs[h], k)])
  {
    var nodes2 := Relinked(nodes, bs[h][k - 1], bs[h][k], ar[h]);
    assert Holds(nodes, slots, h, |bs|, bs[h]);
    assert bs[h][k - 1] in bs[h] && bs[h][k] in bs[h];
    FrontLinked(nodes, ar[h], bs[h], k);
    forall g | 0 <= g < |bs| && g != h
      ensures Linked(nodes2, ar[g], bs[g])
    {
      assert Holds(nodes, slots, g, |bs|, bs[g]);
      assert forall j :: 0 <= j < |bs[g]| ==> bs[g][j] in bs[g];
      StillLinked(nodes, nodes2, ar[g], bs[g]);
    }
  }

  /** A key with a slot of its own leaves the lists of the others as they were. */
  lemma {:induction false} HoldsStill(nodes: seq<Node>, slots: map<seq<byte>, nat>, g: nat, size: nat, b: seq<nat>,
                                      n: Node)
    requires size > 0 && Holds(nodes, slots, g, size, b) && n.mem !in slots
    ensures Holds(nodes + [n], slots[n.mem := |nodes|], g, size, b)
  {
    forall p | p in b
      ensures p < |nodes| && nodes[p].mem in slots && slots[nodes[p].mem] == p && nodes[p].fullhash % size == g
    {
      var q := nodes[p];
    }
  }

  lemma {:induction false} HoldsAdded(nodes: seq<Node>, slots: map<seq<byte>, nat>, h: nat, size: nat, b: seq<nat>,
                                      n: Node)
    requires size > 0 && Holds(nodes, slots, h, size, b) && n.mem !in slots && n.fullhash % size == h
    ensures Holds(nodes + [n], slots[n.mem := |nodes|], h, size, [|nodes|] + b)
  {
    HoldsStill(nodes, slots, h, size, b, n);
    var nodes2, slots2 := nodes + [n], slots[n.mem := |nodes|];
    forall p | p in [|nodes|] + b
      ensures p < |nodes2| && nodes2[p].mem in slots2 && slots2[nodes2[p].mem] == p && nodes2[p].fullhash % size == h
    {
      var q := nodes2[p];
    }
  }

  lemma {:induction false} IndexedAdded(hash: seq<byte> -> nat, nodes: seq<Node>, slots: map<seq<byte>, nat>,
                                        bs: seq<seq<nat>>,
                                        h: nat, n: Node, nodes2: seq<Node>, slots2: map<seq<byte>, nat>,
                                            bs2: seq<seq<nat>>)
    requires Indexed(hash, nodes, slots, bs) && n.mem !in slots && n.fullhash == hash(n.mem) && h == n.fullhash % |bs|
    requires nodes2 == nodes + [n] && slots2 == slots[n.mem := |nodes|] && bs2 == bs[h := [|nodes|] + bs[h]]
    ensures Indexed(hash, nodes2, slots2, bs2)
  {
    forall g | 0 <= g < |bs|
      ensures Holds(nodes2, slots2, g, |bs|, bs2[g])
    {
      if g == h {
        HoldsAdded(nodes, slots, h, |bs|, bs[h], n);
      } else {
        HoldsStill(nodes, slots, g, |bs|, bs[g], n);
      }
    }
    forall key | key in slots2
      ensures slots2[key] in bs2[hash(key) % |bs|]
    {
      if key == n.mem {
        assert bs2[h][0] == |nodes|;
      } else {
        var g := hash(key) % |bs|;
        assert slots[key] in bs[g];
        if g == h {
          assert slots[key] in [|nodes|] + bs[h];
        }
      }
    }
  }

  lemma {:induction false} LinkedAdded(nodes: seq<Node>, ar: seq<nat>, bs: seq<seq<nat>>, h: nat, n: Node)
    requires AllLinked(nodes, ar, bs) && h < |bs| && n.next == ar[h] && |nodes| > 0
    ensures AllLinked(nodes + [n], ar[h := |nodes|], bs[h := [|nodes|] + bs[h]])
  {
    ConsLinked(nodes, n, ar[h], bs[h]);
    forall g | 0 <= g < |bs| && g != h
      ensures Linked(nodes + [n], ar[g], bs[g])
    {
      StillLinked(nodes, nodes + [n], ar[g], bs[g]);
    }
  }

  /** What the slots of all keys hold. */
  ghost function MarksOf(nodes: seq<Node>, slots: map<seq<byte>, nat>): (m: map<seq<byte>, nat>)
    requires forall key :: key in slots ==> slots[key] < |nodes|
  {
    map key | key in slots :: nodes[slots[key]].payload
  }

  lemma {:induction false} MarksAdded(nodes: seq<Node>, slots: map<seq<byte>, nat>, n: Node)
    requires forall key :: key in slots ==> slots[key] < |nodes|
    requires n.mem !in slots
    ensures MarksOf(nodes + [n], slots[n.mem := |nodes|]) == MarksOf(nodes, slots)[n.mem := n.payload]
  {
  }

  lemma {:induction false} MarksSame(nodes: seq<Node>, nodes2: seq<Node>, slots: map<seq<byte>, nat>)
    requires forall key :: key in slots ==> slots[key] < |nodes|
    requires |nodes2| == |nodes| && forall p :: 0 <= p < |nodes| ==> nodes2[p].payload == nodes[p].payload
    ensures MarksOf(nodes2, slots) == MarksOf(nodes, slots)
  {
  }

  lemma {:induction false} MarkLinked(nodes: seq<Node>, ar: seq<nat>, bs: seq<seq<nat>>, slot: nat, mark: nat,
                                      nodes2: seq<Node>)
    requires AllLinked(nodes, ar, bs) && slot < |nodes| && nodes2 == nodes[slot := nodes[slot].(payload := mark)]
    ensures AllLinked(nodes2, ar, bs)
  {
    forall h | 0 <= h < |bs|
      ensures Linked(nodes2, ar[h], bs[h])
    {
      assert Linked(nodes, ar[h], bs[h]);
      StillLinked(nodes, nodes2, ar[h], bs[h]);
    }
  }

  lemma {:induction false} MarkHolds(nodes: seq<Node>, slots: map<seq<byte>, nat>, h: nat, size: nat, b: seq<nat>,
                                     slot: nat, mark: nat, nodes2: seq<Node>)
    requires size > 0 && Holds(nodes, slots, h, size, b) && slot < |nodes|
             && nodes2 == nodes[slot := nodes[slot].(payload := mark)]
    ensures Holds(nodes2, slots, h, size, b)
  {
  }

  lemma {:induction false} MarkIndexed(hash: seq<byte> -> nat, nodes: seq<Node>, slots: map<seq<byte>, nat>,
                                       bs: seq<seq<nat>>, slot: nat, mark: nat, nodes2: seq<Node>)
    requires Indexed(hash, nodes, slots, bs) && slot < |nodes| && nodes2 == nodes[slot := nodes[slot].(payload := mark)]
    ensures Indexed(hash, nodes2, slots, bs)
  {
    forall h | 0 <= h < |bs|
      ensures Holds(nodes2, slots, h, |bs|, bs[h])
    {
      MarkHolds(nodes, slots, h, |bs|, bs[h], slot, mark, nodes2);
    }
  }

  lemma {:induction false} MarkMarks(nodes: seq<Node>, slots: map<seq<byte>, nat>, key: seq<byte>, mark: nat,
                                     nodes2: seq<Node>)
    requires forall k :: k in slots ==> slots[k] < |nodes| && nodes[slots[k]].mem == k
    requires key in slots && nodes2 == nodes[slots[key] := nodes[slots[key]].(payload := mark)]
    ensures MarksOf(nodes2, slots) == MarksOf(nodes, slots)[key := mark]
  {
  }

  /** Writing a payload changes neither the lists nor where the keys are. */
  lemma {:induction false} MarkKeeps(hash: seq<byte> -> nat, nodes: seq<Node>, slots: map<seq<byte>, nat>, ar: seq<nat>,
                                     bs: seq<seq<nat>>, slot: nat, mark: nat, nodes2: seq<Node>)
    requires Indexed(hash, nodes, slots, bs) && AllLinked(nodes, ar, bs)
    requires slot < |nodes| && nodes[slot].mem in slots && slots[nodes[slot].mem] == slot
    requires nodes2 == nodes[slot := nodes[slot].(payload := mark)]
    ensures Indexed(hash, nodes2, slots, bs) && AllLinked(nodes2, ar, bs)
    ensures MarksOf(nodes2, slots) == MarksOf(nodes, slots)[nodes[slot].mem := mark]
  {
    MarkLinked(nodes, ar, bs, slot, mark, nodes2);
    MarkIndexed(hash, nodes, slots, bs, slot, mark, nodes2);
    MarkMarks(nodes, slots, nodes[slot].mem, mark, nodes2);
  }

  /** Looks along one list. */
  method Search(nodes: seq<Node>, head: nat, hf: nat, mem: seq<byte>, ghost b: seq<nat>)
      returns (pchain: nat, chain: nat, ghost k: nat)
    requires Linked(nodes, head, b)
    ensures k <= |b| && chain == Ptr(b, k) && (chain == 0 <==> k == |b|)
    ensures chain == 0 ==> forall j :: 0 <= j < |b| ==> !ForKey(nodes[b[j]], hf, mem)
    ensures chain != 0 ==> ForKey(nodes[chain], hf, mem) && pchain == b[if k == 0 then 0 else k - 1]
  {
    pchain, chain, k := head, head, 0;
    while chain != 0
      invariant k <= |b| && chain == Ptr(b, k) && pchain == Ptr(b, if k == 0 then 0 else k - 1)
      invariant forall j :: 0 <= j < k ==> !ForKey(nodes[b[j]], hf, mem)
      decreases |b| - k
    {
      if nodes[chain].fullhash == hf && nodes[chain].mem == mem {
        return;
      }
      pchain, chain, k := chain, nodes[chain].next, k + 1;
    }
  }

  class Table {
    const hash: seq<byte> -> nat
    var ar: seq<nat>
    var nodes: seq<Node>
    /** The lists, and the slot of every key. */
    ghost var buckets: seq<seq<nat>>
    ghost var slots: map<seq<byte>, nat>

    ghost predicate Valid()
      reads this
    {
      |nodes| > 0 && AllLinked(nodes, ar, buckets) && Indexed(hash, nodes, slots, buckets)
    }

    /** The table as a map. */
    ghost function Marks(): (m: map<seq<byte>, nat>)
      requires Valid()
      reads this
    {
      MarksOf(nodes, slots)
    }

    constructor (hash: seq<byte> -> nat, hashmask: nat)
      ensures Valid() && slots == map[] && this.hash == hash
    {
      this.hash := hash;
      ar := seq(hashmask + 1, _ => 0);
      nodes := [Node([], 0, 0, 0)];
      buckets := seq(hashmask + 1, _ => []);
      slots := map[];
    }

    /** Looks along the list of a hash for the node that holds `mem`, and the one before it. */
    method Find(h: nat, hf: nat, mem: seq<byte>) returns (pchain: nat, chain: nat, ghost k: nat)
      requires Valid() && hf == hash(mem) && h == hf % |ar|
      ensures h < |buckets| && k <= |buckets[h]| && chain == Ptr(buckets[h], k)
      ensures chain == 0 <==> mem !in slots
      ensures chain != 0 ==>
                k < |buckets[h]| && slots[mem] == chain
                && pchain == buckets[h][if k == 0 then 0 else k - 1]
    {
      assert Linked(nodes, ar[h], buckets[h]);
      pchain, chain, k := Search(nodes, ar[h], hf, mem, buckets[h]);
      if chain != 0 {
        Listed(hash, nodes, slots, buckets, mem, h, chain);
      } else {
        Unlisted(hash, nodes, slots, buckets, mem, h);
      }
    }

    /** JenkinsIns: the slot of `mem`, a new one if it has none yet. */
    method Insert(mem: seq<byte>) returns (slot: nat)
      requires Valid()
      modifies this
      ensures Valid() && mem in slots && slots[mem] == slot
      ensures mem in old(slots) ==> slots == old(slots) && Marks() == old(Marks()) && |buckets| == |old(buckets)|
                                    && forall h :: 0 <= h < |buckets| ==>
                                         multiset(buckets[h]) == multiset(old(buckets)[h])
      ensures mem !in old(slots) ==>
                slot == |old(nodes)| && slots == old(slots)[mem := slot]
                && Marks() == old(Marks())[mem := 0]
    {
      var hf := hash(mem);
      var h := hf % |ar|;
      var pchain, chain;
      ghost var k;
      pchain, chain, k := Find(h, hf, mem);
      if chain != 0 {
        if pchain != chain {
          MoveToFront(h, k, pchain, chain);
        }
        return chain;
      }
      slot := Add(h, hf, mem);
    }

    /** A hit that is not the first of its list becomes the first. */
    method MoveToFront(h: nat, ghost k: nat, pchain: nat, chain: nat)
      requires Valid() && h < |buckets| && 1 <= k < |buckets[h]| && chain == buckets[h][k]
               && pchain == buckets[h][k - 1]
      modifies this`ar, this`nodes, this`buckets
      ensures Valid() && Marks() == old(Marks()) && |buckets| == |old(buckets)|
      ensures forall h :: 0 <= h < |buckets| ==> multiset(buckets[h]) == multiset(old(buckets)[h])
    {
      LinkedFronted(hash, nodes, slots, ar, buckets, h, k);
      assert Linked(nodes, ar[h], buckets[h]);
      ghost var nodes0, buckets0 := nodes, buckets;
      nodes := Relinked(nodes, pchain, chain, ar[h]);
      ar := ar[h := chain];
      buckets := buckets[h := Fronted(buckets[h], k)];
      IndexedFronted(hash, nodes0, slots, buckets0, h, k, nodes, buckets);
      MarksSame(nodes0, nodes, slots);
    }

    /** A new node at the front of its list. */
    method Add(h: nat, hf: nat, mem: seq<byte>) returns (slot: nat)
      requires Valid() && mem !in slots && hf == hash(mem) && h == hf % |ar|
      modifies this
      ensures Valid() && slot == |old(nodes)| && slots == old(slots)[mem := slot] && Marks() == old(Marks())[mem := 0]
    {
      var n := Node(mem, hf, ar[h], 0);
      slot := |nodes|;
      LinkedAdded(nodes, ar, buckets, h, n);
      MarksAdded(nodes, slots, n);
      IndexedAdded(hash, nodes, slots, buckets, h, n, nodes + [n], slots[mem := slot],
                   buckets[h := [slot] + buckets[h]]);
      nodes := nodes + [n];
      ar := ar[h := slot];
      slots := slots[mem := slot];
      buckets := buckets[h := [slot] + buckets[h]];
    }

    /** Leaves a mark in a slot. */
    method Mark(slot: nat, mark: nat)
      requires Valid() && slot < |nodes| && nodes[slot].mem in slots && slots[nodes[slot].mem] == slot
      modifies this`nodes
      ensures Valid() && Marks() == old(Marks())[old(nodes[slot].mem) := mark]
    {
      ghost var nodes0 := nodes;
      nodes := nodes[slot := nodes[slot].(payload := mark)];
      MarkKeeps(hash, nodes0, slots, ar, buckets, slot, mark, nodes);
    }

    /** What a section does with a slot: the mark left there before, or 0 and leaves a mark. */
    method Intern(mem: seq<byte>, mark: nat) returns (prev: nat)
      requires Valid() && mark > 0 && forall key :: key in Marks() ==> Marks()[key] > 0
      modifies this
      ensures Valid()
      ensures mem in old(Marks()) ==> prev == old(Marks())[mem] && Marks() == old(Marks())
      ensures mem !in old(Marks()) ==> prev == 0 && Marks() == old(Marks())[mem := mark]
    {
      var slot := Insert(mem);
      prev := nodes[slot].payload;
      assert prev == Marks()[mem];
      if prev == 0 {
        Mark(slot, mark);
      }
    }
  }
}
