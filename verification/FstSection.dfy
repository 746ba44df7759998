/** The value data of a section: one chunk for every distinct payload, packed when that pays. */
module FstSection {
  import opened Bytes
  import opened FstVarint
  import opened Leb128
  import opened FstIndex
  import opened FstJenkins
  import opened FstLayout
  import opened FstTables

  /** A compressor and its inverse; zlib output is used even when it is longer. */
  datatype Codec = Codec(pack: seq<byte> -> seq<byte>, unpack: (seq<byte>, nat) -> seq<byte>, always: bool)

  /** Unpacking needs only the size, and does not mind bytes that follow. */
  ghost predicate Faithful(c: Codec) {
    forall x: seq<byte>, tail: seq<byte> :: |x| > 32 ==> c.unpack(c.pack(x) + tail, |x|) == x
  }

  /** Different payloads are packed differently. */
  ghost predicate Injective(c: Codec) {
    forall x: seq<byte>, y: seq<byte> :: |x| > 32 && |y| > 32 && c.pack(x) == c.pack(y) ==> x == y
  }

  predicate Packs(c: Codec, x: seq<byte>) {
    |x| > 32 && (c.always || |c.pack(x)| < |x|)
  }

  /** What the hash table looks at: it does not know which of the two it is. */
  function Key(c: Codec, x: seq<byte>): seq<byte> {
    if Packs(c, x) then c.pack(x) else x
  }

  function ChunkOf(c: Codec, x: seq<byte>): (bytes: seq<byte>)
    ensures |bytes| > 0
  {
    if Packs(c, x) then Varint(|x|) + c.pack(x) else Varint(0) + x
  }

  // ---- which chunk a handle uses ----

  predicate Uses(c: Codec, ps: seq<seq<byte>>, j: nat, key: seq<byte>)
    requires j < |ps|
  {
    ps[j] != [] && Key(c, ps[j]) == key
  }

  /** The first handle before `i` with this key, or `i`. */
  function FirstWith(c: Codec, ps: seq<seq<byte>>, key: seq<byte>, i: nat): (j: nat)
    requires i <= |ps|
    ensures j <= i && (j < i ==> Uses(c, ps, j, key))
    ensures forall k :: 0 <= k < j ==> !Uses(c, ps, k, key)
  {
    if i == 0 then 0
    else
      var j := FirstWith(c, ps, key, i - 1);
      if j < i - 1 then j else if Uses(c, ps, i - 1, key) then i - 1 else i
  }

  /** The handle whose chunk holds handle `i`'s data. */
  function Home(c: Codec, ps: seq<seq<byte>>, i: nat): (j: nat)
    requires i < |ps|
    ensures j <= i
  {
    FirstWith(c, ps, Key(c, ps[i]), i)
  }

  /** Where handle `i`'s data is kept. */
  function SlotOf(c: Codec, ps: seq<seq<byte>>, i: nat): Slot
    requires i < |ps|
  {
    if ps[i] == [] then None else if Home(c, ps, i) == i then Own(ChunkOf(c, ps[i])) else Same(Home(c, ps, i))
  }

  function Slots(c: Codec, ps: seq<seq<byte>>): (slots: seq<Slot>)
    ensures |slots| == |ps| && forall i :: 0 <= i < |ps| ==> slots[i] == SlotOf(c, ps, i)
  {
    seq(|ps|, i requires 0 <= i < |ps| => SlotOf(c, ps, i))
  }

  /** A handle's home has a chunk of its own. */
  lemma {:induction false} HomeIsFresh(c: Codec, ps: seq<seq<byte>>, i: nat)
    requires i < |ps| && ps[i] != []
    ensures Key(c, ps[Home(c, ps, i)]) == Key(c, ps[i]) && ps[Home(c, ps, i)] != []
            && Home(c, ps, Home(c, ps, i)) == Home(c, ps, i)
  {
    var t := Home(c, ps, i);
    assert Uses(c, ps, t, Key(c, ps[i])) by {
      assert t == i ==> Uses(c, ps, i, Key(c, ps[i]));
    }
    assert Key(c, ps[t]) == Key(c, ps[i]);
  }

  lemma {:induction false} SlotsSound(c: Codec, ps: seq<seq<byte>>)
    ensures Sound(Slots(c, ps))
  {
    var slots := Slots(c, ps);
    forall i | 0 <= i < |ps|
      ensures slots[i].Own? ==> slots[i].chunk != []
      ensures slots[i].Same? ==> slots[i].target < i && slots[slots[i].target].Own?
    {
      assert slots[i] == SlotOf(c, ps, i);
      if ps[i] != [] {
        HomeIsFresh(c, ps, i);
        assert slots[Home(c, ps, i)] == SlotOf(c, ps, Home(c, ps, i));
      }
    }
  }

  /** A present handle's chunk is its home's payload. */
  lemma {:induction false} ChunkForHome(c: Codec, ps: seq<seq<byte>>, slots: seq<Slot>, i: nat)
    requires i < |ps| && slots == Slots(c, ps) && Sound(slots)
    ensures slots[i].None? <==> ps[i] == []
    ensures ps[i] != [] ==> ChunkFor(slots, i) == ChunkOf(c, ps[Home(c, ps, i)])
  {
    assert slots[i] == SlotOf(c, ps, i);
    if ps[i] != [] {
      HomeIsFresh(c, ps, i);
      assert slots[Home(c, ps, i)] == SlotOf(c, ps, Home(c, ps, i));
    }
  }

  // ---- reading a chunk ----

  lemma {:induction false} PackedReads(c: Codec, vc: seq<byte>, offset: nat, x: seq<byte>, next: nat, length: nat)
    requires Faithful(c) && Packs(c, x) && |x| < TWO32 && At(vc, offset, ChunkOf(c, x)) && length == |ChunkOf(c, x)|
    requires offset + length + 5 <= |vc| && next == offset + |Varint(|x|)|
    ensures Terminated(vc, offset) && ReadVarint(vc, offset) == (|x|, next) && next + length <= |vc|
    ensures c.unpack(vc[next..next + length], |x|) == x
  {
    AtSplit(vc, offset, Varint(|x|), c.pack(x));
    VarintRoundTrip(vc, offset, |x|);
    VarintShort(|x|);
    var end := next + |c.pack(x)|;
    assert vc[next..next + length] == c.pack(x) + vc[end..next + length];
  }

  lemma {:induction false} RawReads(c: Codec, vc: seq<byte>, offset: nat, x: seq<byte>, length: nat)
    requires !Packs(c, x) && At(vc, offset, ChunkOf(c, x)) && length == |ChunkOf(c, x)|
    ensures Terminated(vc, offset) && ReadVarint(vc, offset) == (0, offset + 1) && length == 1 + |x|
    ensures vc[offset + 1..offset + length] == x
  {
    AtSplit(vc, offset, Varint(0), x);
    VarintRoundTrip(vc, offset, 0);
  }

  lemma {:induction false} ChunkReads(c: Codec, vc: seq<byte>, offset: nat, x: seq<byte>, length: nat)
    requires Faithful(c) && |x| < TWO32 && At(vc, offset, ChunkOf(c, x)) && length == |ChunkOf(c, x)|
    requires offset + length + 5 <= |vc|
    ensures Terminated(vc, offset)
    ensures var (val, next) := ReadVarint(vc, offset);
            val < TWO32 && next <= offset + length && next + length <= |vc|
            && x == if val != 0 then c.unpack(vc[next..next + length], val) else vc[next..offset + length]
  {
    if Packs(c, x) {
      PackedReads(c, vc, offset, x, offset + |Varint(|x|)|, length);
    } else {
      RawReads(c, vc, offset, x, length);
    }
  }

  /** Takes a chunk apart. As in the source, it reads `length` bytes after the size, so that a packed
      chunk comes with some bytes of the next. */
  method ReadChunk(c: Codec, vc: seq<byte>, offset: nat, length: nat, ghost x: seq<byte>) returns (mu: seq<byte>)
    requires Faithful(c) && |x| < TWO32 && At(vc, offset, ChunkOf(c, x)) && length == |ChunkOf(c, x)|
    requires offset + length + 5 <= |vc|
    ensures mu == x
  {
    ChunkReads(c, vc, offset, x, length);
    var val, skiplen := GetVarint32(vc, offset);
    if val != 0 {
      mu := c.unpack(vc[offset + skiplen..offset + skiplen + length], val);
    } else {
      mu := vc[offset + skiplen..offset + length];
    }
  }

  // ---- sharing chunks ----

  /** A handle reads back its own payload exactly when its home was packed if it was. */
  lemma {:induction false} HomeHolds(c: Codec, ps: seq<seq<byte>>, i: nat)
    requires Injective(c) && i < |ps| && ps[i] != []
    ensures ps[Home(c, ps, i)] == ps[i] <==> (Packs(c, ps[Home(c, ps, i)]) <==> Packs(c, ps[i]))
  {
    HomeIsFresh(c, ps, i);
    var x, y := ps[Home(c, ps, i)], ps[i];
    if Packs(c, x) && Packs(c, y) {
      assert c.pack(x) == c.pack(y);
    }
  }

  /** No payload that is stored as it is looks like the packed form of another. */
  ghost predicate Unmixed(c: Codec, ps: seq<seq<byte>>) {
    forall i, j :: 0 <= i < |ps| && 0 <= j < |ps| && ps[i] != [] && ps[j] != [] && Key(c, ps[i]) == Key(c, ps[j])
                   ==> (Packs(c, ps[i]) <==> Packs(c, ps[j]))
  }

  lemma {:induction false} SameHome(c: Codec, ps: seq<seq<byte>>, i: nat, j: nat)
    requires i <= j < |ps| && ps[i] != [] && ps[j] != [] && Key(c, ps[i]) == Key(c, ps[j])
    ensures Home(c, ps, i) == Home(c, ps, j)
  {
    var key := Key(c, ps[i]);
    assert Uses(c, ps, i, key);
    HomeIsFresh(c, ps, i);
    HomeIsFresh(c, ps, j);
    assert Uses(c, ps, Home(c, ps, i), key) && Uses(c, ps, Home(c, ps, j), key);
  }

  /** Sharing chunks by key loses nothing exactly when raw and packed keys never meet. */
  lemma {:induction false} SharingSafe(c: Codec, ps: seq<seq<byte>>)
    requires Injective(c)
    ensures Unmixed(c, ps) <==> forall i :: 0 <= i < |ps| && ps[i] != [] ==> ps[Home(c, ps, i)] == ps[i]
  {
    if Unmixed(c, ps) {
      forall i | 0 <= i < |ps| && ps[i] != []
        ensures ps[Home(c, ps, i)] == ps[i]
      {
        HomeIsFresh(c, ps, i);
        HomeHolds(c, ps, i);
      }
    }
    if forall i :: 0 <= i < |ps| && ps[i] != [] ==> ps[Home(c, ps, i)] == ps[i] {
      forall i, j | 0 <= i < |ps| && 0 <= j < |ps| && ps[i] != [] && ps[j] != [] && Key(c, ps[i]) == Key(c, ps[j])
        ensures Packs(c, ps[i]) <==> Packs(c, ps[j])
      {
        if i <= j {
          SameHome(c, ps, i, j);
        } else {
          SameHome(c, ps, j, i);
        }
      }
    }
  }

  // ---- when that goes wrong ----

  /** The payload of a bit that is set to 0 thirty-three times at one time. */
  function Zeros(): (x: seq<byte>)
    ensures |x| == 33 && forall k :: 0 <= k < 33 ==> x[k] == 0
  {
    seq(33, _ => 0)
  }

  /** A compressor that knows only that payload: one byte stands for it, and another comes before all else. */
  function PackZeros(x: seq<byte>): seq<byte> {
    if x == Zeros() then [6] else [7] + x
  }

  function UnpackZeros(bytes: seq<byte>, n: nat): seq<byte> {
    if bytes != [] && bytes[0] == 6 then Zeros() else if |bytes| > n then bytes[1..n + 1] else []
  }

  /** The payload [6], a bit that becomes 1 one step later, is stored as it is. It looks like the packed
      form of the other, and its handle gets the data of the other's. */
  lemma {:induction false} SharingLoses()
    ensures var c, ps := Codec(PackZeros, UnpackZeros, false), [Zeros(), [6]];
            Faithful(c) && Injective(c) && !Unmixed(c, ps) && LoadedFor(c, ps, 1) == Found(ps[0]) && ps[0] != ps[1]
  {
    var c, ps := Codec(PackZeros, UnpackZeros, false), [Zeros(), [6]];
    forall x: seq<byte>, tail: seq<byte> | |x| > 32
      ensures c.unpack(c.pack(x) + tail, |x|) == x
    {
      if x != Zeros() {
        assert ([7] + x + tail)[1..|x| + 1] == x;
      }
    }
    forall x: seq<byte>, y: seq<byte> | |x| > 32 && |y| > 32 && c.pack(x) == c.pack(y)
      ensures x == y
    {
      assert x != Zeros() ==> c.pack(x)[1..] == x;
      assert y != Zeros() ==> c.pack(y)[1..] == y;
    }
    assert Key(c, ps[0]) == [6] == Key(c, ps[1]) && Packs(c, ps[0]) && !Packs(c, ps[1]);
    assert Uses(c, ps, 0, [6]);
    assert FirstWith(c, ps, [6], 1) == 0;
  }

  // ---- writing a chunk ----

  /** The table knows the first handle of every key so far. */
  ghost predicate Interned(c: Codec, ps: seq<seq<byte>>, i: nat, marks: map<seq<byte>, nat>)
    requires i <= |ps|
  {
    (forall key :: key in marks ==> FirstWith(c, ps, key, i) < i && marks[key] == FirstWith(c, ps, key, i) + 1)
    && forall k :: 0 <= k < i && ps[k] != [] ==> Key(c, ps[k]) in marks
  }

  lemma {:induction false} InternedNext(c: Codec, ps: seq<seq<byte>>, i: nat, marks: map<seq<byte>, nat>,
                                        marks2: map<seq<byte>, nat>)
    requires i < |ps| && Interned(c, ps, i, marks)
    requires marks2 == if ps[i] == [] || Key(c, ps[i]) in marks then marks else marks[Key(c, ps[i]) := i + 1]
    ensures Interned(c, ps, i + 1, marks2)
  {
    forall key | key in marks2
      ensures FirstWith(c, ps, key, i + 1) < i + 1 && marks2[key] == FirstWith(c, ps, key, i + 1) + 1
    {
      if key !in marks {
        assert Uses(c, ps, i, key);
      }
    }
  }

  lemma {:induction false} InternedHome(c: Codec, ps: seq<seq<byte>>, i: nat, marks: map<seq<byte>, nat>)
    requires i < |ps| && ps[i] != [] && Interned(c, ps, i, marks)
    ensures Key(c, ps[i]) in marks ==> SlotOf(c, ps, i) == Same(marks[Key(c, ps[i])] - 1)
    ensures Key(c, ps[i]) !in marks ==> SlotOf(c, ps, i) == Own(ChunkOf(c, ps[i]))
  {
    var j := Home(c, ps, i);
    assert j < i ==> Uses(c, ps, j, Key(c, ps[i]));
  }

  /** Packs a payload if that pays; the size of a raw one is given as 0. */
  method Choose(c: Codec, x: seq<byte>) returns (dmem: seq<byte>, size: nat)
    ensures dmem == Key(c, x) && ChunkOf(c, x) == Varint(size) + dmem
  {
    dmem, size := x, 0;
    if |x| > 32 {
      var packed := c.pack(x);
      if c.always || |packed| < |x| {
        dmem, size := packed, |x|;
      }
    }
  }

  /** One handle's payload: a new chunk, or the handle that has it already. `before` is the data of
      the handles before it. */
  method PutChunk(c: Codec, table: Table, x: seq<byte>, i: nat, fpos0: nat, ghost ps: seq<seq<byte>>)
      returns (f: seq<byte>, word: int, fpos: nat)
    requires table.Valid() && i < |ps| && x == ps[i] != [] && Interned(c, ps, i, table.Marks())
    modifies table
    ensures table.Valid() && Interned(c, ps, i + 1, table.Marks())
    ensures f == Piece(SlotOf(c, ps, i)) && fpos == fpos0 + |f|
    ensures match SlotOf(c, ps, i)
            case None => false
            case Own(_) => word == fpos0
            case Same(target) => word == TWO32 - (target + 1)
  {
    ghost var marks := table.Marks();
    InternedHome(c, ps, i, marks);
    var dmem, size := Choose(c, x);
    var pvi := table.Intern(dmem, i + 1);
    f := [];
    if pvi != 0 {
      word := TWO32 - pvi;
    } else {
      word := fpos0;
      var head := PutVarint(size);
      f := head + dmem;
    }
    fpos := fpos0 + |f|;
    InternedNext(c, ps, i, marks, table.Marks());
  }

  // ---- reading a section ----

  /** What the reader finds for a handle. */
  datatype Loaded = Missing | Found(mem: seq<byte>)

  /** A handle without data stays without; any other gets the data of its home. */
  function LoadedFor(c: Codec, ps: seq<seq<byte>>, k: nat): Loaded
    requires k < |ps|
  {
    if ps[k] == [] then Missing else Found(ps[Home(c, ps, k)])
  }

  /** Loads one handle's data. */
  method LoadChunk(c: Codec, vc: seq<byte>, i: nat, table: nat, length: int, ghost ps: seq<seq<byte>>,
                   ghost slots: seq<Slot>)
      returns (r: Loaded)
    requires Faithful(c) && i < |ps| && slots == Slots(c, ps) && Sound(slots) && Tabled(slots, vc, i, table, length)
    requires |ps[Home(c, ps, i)]| < TWO32
    ensures r == LoadedFor(c, ps, i)
  {
    ChunkForHome(c, ps, slots, i);
    if table == 0 {
      return Missing;
    }
    var mem := ReadChunk(c, vc, table, length, ps[Home(c, ps, i)]);
    return Found(mem);
  }

  method LoadChunks(c: Codec, vc: seq<byte>, table: array<nat>, lengths: array<int>, maxhandle: nat,
                    ghost ps: seq<seq<byte>>, ghost slots: seq<Slot>)
      returns (loaded: seq<Loaded>)
    requires Faithful(c) && maxhandle == |ps| && slots == Slots(c, ps) && Sound(slots)
    requires table.Length == lengths.Length == |ps| + 1
    requires forall k :: 0 <= k < |ps| ==> Tabled(slots, vc, k, table[k], lengths[k])
    requires forall k :: 0 <= k < |ps| ==> |ps[k]| < TWO32
    ensures |loaded| == |ps| && forall k :: 0 <= k < |ps| ==> loaded[k] == LoadedFor(c, ps, k)
  {
    loaded := [];
    for i := 0 to maxhandle
      invariant i == |loaded| && forall k :: 0 <= k < i ==> loaded[k] == LoadedFor(c, ps, k)
    {
      var r := LoadChunk(c, vc, i, table[i], lengths[i], ps, slots);
      loaded := loaded + [r];
    }
  }

  /** The index of a section with these payloads. */
  function IndexOf(c: Codec, ps: seq<seq<byte>>): (es: seq<Entry>)
    ensures |es| == |ps|
  {
    Entries(Slots(c, ps))
  }

  /** `vc` holds these payloads, some of them not empty, and their index, which is at `indxpos`. */
  ghost predicate Holds(c: Codec, ps: seq<seq<byte>>, vc: seq<byte>, indxpos: nat, chainClen: nat, packtype: byte,
                        trailer: seq<byte>)
  {
    vc == Body(Slots(c, ps), packtype, trailer) && |trailer| >= 5 && |ps| < TWO31
    && indxpos == 1 + |Data(Slots(c, ps), |ps|)| < TWO31 && chainClen == |EncodeIndex(IndexOf(c, ps))|
    && (forall k :: 0 <= k < |ps| ==> |ps[k]| < TWO32) && exists k :: 0 <= k < |ps| && ps[k] != []
  }

  /** Loads every handle's data: that of its home, whatever `vc` holds after the index. `pidx` and the
      tables go on from the section before. */
  method LoadSection(c: Codec, vc: seq<byte>, indxpos: nat, chainClen: nat, maxhandle: nat,
                     pidx0: nat, table: array<nat>, lengths: array<int>,
                     ghost ps: seq<seq<byte>>, ghost packtype: byte, ghost trailer: seq<byte>)
      returns (loaded: seq<Loaded>, pidx: nat)
    requires Faithful(c) && maxhandle == |ps| && Holds(c, ps, vc, indxpos, chainClen, packtype, trailer)
    requires Fits(Tables(table[..], lengths[..], pidx0), |ps|)
             && !Misled(IndexOf(c, ps), Tables(table[..], lengths[..], pidx0))
    modifies table, lengths
    ensures Tables(table[..], lengths[..], pidx)
            == After(IndexOf(c, ps), old(Tables(table[..], lengths[..], pidx0)), indxpos)
    ensures Fits(Tables(table[..], lengths[..], pidx), |ps|)
    ensures |loaded| == |ps| && forall k :: 0 <= k < |ps| ==> loaded[k] == LoadedFor(c, ps, k)
  {
    ghost var slots := Slots(c, ps);
    SlotsSound(c, ps);
    SomeOwn(c, ps, slots);
    pidx := LoadTables(vc, indxpos, chainClen, pidx0, table, lengths, slots, packtype, trailer);
    loaded := LoadChunks(c, vc, table, lengths, maxhandle, ps, slots);
  }

  lemma {:induction false} SomeOwn(c: Codec, ps: seq<seq<byte>>, slots: seq<Slot>)
    requires slots == Slots(c, ps) && exists k :: 0 <= k < |ps| && ps[k] != []
    ensures exists k :: 0 <= k < |slots| && slots[k].Own?
  {
    var k :| 0 <= k < |ps| && ps[k] != [];
    HomeIsFresh(c, ps, k);
    assert slots[Home(c, ps, k)] == SlotOf(c, ps, Home(c, ps, k));
  }
}
