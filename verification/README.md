# Waveform storage and numeric vectors of GHDL, modelled in Dafny

This project models parts of GHDL and proves what they are for. Each file names its part in its
first line; modules are layered, and the main results are at the end of each layer.

**FST value sections** (`src/grt/fst/fstapi.c`). The writer collects value changes as back-linked
records in one change buffer. A flush walks every handle's chain from its newest record back, re-encodes
it from right to left, packs it, lets handles with equal data share a chunk, and writes an index. The
reader undoes this and re-interleaves the handles by time with a bucket scheduler; a second reader
answers "value of handle h at time t" with a cursor that remembers where the last lookup ended.

- `FstVarint`, `FstRecord`, `FstChain`: integers, single records, the change buffer and the walk.
- `FstIndex`, `FstTables`, `FstLayout`, `FstJenkins`, `FstSection`: the index, the tables it is decoded
  into, where chunks lie, the hash table, chunks and aliases. The compressor is a pair of functions here;
  `FstCodecs` shows that any pair whose packing half writes legal LZ4 blocks or FastLZ streams has the
  properties asked of it.
- `FstTimes`, `FstWriter`: the time list, and the writer as a class over the fields of its context.
- `FstMerge`: the scheduler as a class over `tc_head`, `scatterptr`, `headptr` and
  `length_remaining`. `FstAtTime`: the lookups.
- `FstRoundTrip`, `FstSession`, `FstLookup`: one section from the calls to the delivered changes, then
  whole runs over any number of sections, read by one traversal (`FstSession.Session`, and
  `FstSession.WholeSession` from the creation of the writer on), and one section from the calls to the
  lookups (`FstLookup.LookupRoundTrip`).

**LZ4 block codec** (`src/grt/fst/lz4.c`): `Lz4Format` (sequences, their meaning, their encoding, the
size bound), `Lz4Decode` (the decoder as a function, and the round trip), `Lz4Accept` (the converse: what
the decoder accepts, and how much partial decoding returns), `Lz4Compress` and `Lz4Decompress` (the loops
over arrays). It follows the LZ4 Block Format Description.

**FastLZ codec** (`src/grt/fst/fastlz.c`), levels 1 and 2, in the same parts: `FastLzFormat`,
`FastLzDecode`, `FastLzRefuse` (streams that do not fit or are cut), `FastLzCompress`,
`FastLzDecompress`. `Bytes` and `Memory` hold what both codecs share: the byte-by-byte back-reference copy,
and copies into an output buffer.

`Leb128` has the variable-length integers that FST and GHW files share.

**Vector arithmetic** (`libraries/openieee/build_numeric.py`): the VHDL bodies the templates emit for the
`bit` variant, index 0 being the least significant bit. `Bits` has the unsigned and signed values and the
full adder; `NumericAdd`, `NumericMul`, `NumericDiv` the operations. They correspond to the functions A.15
to A.16 and A.21 to A.38 of IEEE Std 1076.3-1997.

**GHW files** (`src/grt/ghwlib.c`, and the parts of `src/grt/grt-waves.adb` that write what it reads):

- `GhwLeb`, `GhwStream`, `GhwSignal`: the reader. LEB128 (section 7.6 of DWARF version 4) and fixed-size
  words; the batch parser and the pull parser as functions on the stream, the theorem that they agree, and
  a class whose methods compute them; type trees, the recursive signal reader, and the readers of array
  and record subtypes.
- `GhwFormat`, `GhwTrace`, `GhwBounds`: the bytes of value sections and of bounds, given what they say, and
  that the reader gets exactly that out of them, for a dump, for each call of the pull parser, and for
  subtypes.
- `GhwStory`, `GhwWaves`, `GhwNumbers`, `GhwDump`: the writer. What an unfinished file tells; the writer of
  snapshots, cycles and directories as a class; the numbers of signals; and all of it together, from the
  simulator's values to those a reader looks up (`GhwDump.DumpDesign`).

`dafny verify dfyconfig.toml` checks all of it.

## Conventions

Loops over arrays are methods proved against functions; what the source promises is proved about those
functions. Where a method's state would be an object graph, the class keeps the source's fields and its
invariant is a predicate on their values. Numbers are unbounded where the source's machine words cannot
wrap; where they can, the wrap is written out (`GetVarint32`, `Wrapped`, `SWrap`, `Stored`).

The code and what it is for part in these places, each with its exact condition:

- A flush that is due and finds an empty change buffer returns early, but the caller appends to the time
  list anyway. The time index and the time list stay in step if and only if this does not happen
  (`FstWriter.Writer.EmitTimeChange`); `FstWriter.EmptyFlush` is such a run.
- A traversal keeps the tables of chunk offsets and lengths, and the number of the last chunk, from one
  section to the next. The first chunk of a section is taken to end that last chunk, and the length this
  gives can be negative and be taken for an alias. Every handle is led to its own chunk if and only if no
  absent handle is left with a length that names an earlier, present one (`FstTables.RightIff`; after a
  section without such lengths, `FstTables.MisledIff` says it of one handle). `FstTables.StrayHandle` is
  a file for which it goes wrong. `FstSession.Allowed` asks for it of every section that is read.
- One untagged hash table holds raw and packed payloads. Sharing is right if and only if no raw payload
  equals another handle's packed one (`FstSection.SharingSafe`); `FstSection.SharingLoses` has two that are.
- In a lookup, a backward query that finds no change moves the cursor's time but not its place. A lookup
  is right if and only if it does not resume at a change that is too late although an earlier one is not
  (`FstAtTime.RightIff`); `FstAtTime.StaleRun` is a run that goes wrong.
- `ghw_get_i64` combines the two halves with the low one sign-extended. It is right if and only if the
  low half's top bit is clear or the high half is all ones (`GhwLeb.GetI64Iff`); `GhwLeb.GetI64Wrong` is a
  time it reads as negative. The times of all cycles of a file are right if and only if bit 31 of the
  first one is clear (`GhwWaves.DumpAndWatch`).
- The GHW writer dumps signals of enumerations with more than 256 literals and of 64-bit integer types; the
  reader aborts on a value if and only if it has such a type (`GhwStory.AbortsIff`).
- The FastLZ decoder rejects a stream that is cut inside a literal run, but reads past the end of one that
  is cut inside a match (`FastLzRefuse.CutShort`).
- Signed "/" wraps if and only if the most negative number is divided by -1 (`NumericDiv.SDivExact`).
- Variable-length changes made before the first time change are dropped by it (`FstWriter.Writer.FirstTime`),
  and the first of them is in no chain even before (`FstWriter.RecordAdrift`).
- The section reader passes the unpacker as many bytes as the whole chunk has, starting after the size, so
  that it also gets the first bytes of the next chunk. LZ4's partial decoding and FastLZ's output do not
  depend on them (`Lz4Decode.RoundTripWithTail`, `FastLzDecode.RoundTripWithTail`).

Side conditions the code needs are hypotheses: times never decrease and are below 2^64; section offsets
are below 2^31, time steps and time indices below 2^28 (`FstRecord.StorableChange`, `FstWriter.Writer.Small`,
`FstSession.Allowed`); a flush takes effect only in a section that holds a change; a GHW simulation marks
every signal that changes with an event, and its time never decreases (`GhwDump.CyclesFit`).

## Model

| member | source | states |
|---|---|---|
| `FstSession.WholeSession` | src/grt/fst/fstapi.c:2729-2942 | a run from the creation of the writer on: fixed-length values set before the first time change are what the first section starts from, variable-length ones before it are dropped, and from then on the same as for Session, all side conditions being about the calls alone; what comes back is stated in characters, as for SectionRoundTrip |
| `FstSession.Session` | src/grt/fst/fstapi.c:4661-5610 | for any run of value changes, variable-length changes, time changes and flush requests that keeps the side conditions, over any number of sections: what one traversal, which keeps its tables from section to section, delivers for a handle, followed by what the writer still holds for it, is exactly what was written for it, each change once, in order and at its time, with its value back as SectionRoundTrip says; deliveries of all sections together are ordered by time and lie between the begin of the first section and that of the next one; the values kept are the last ones written |
| `FstSession.ReadDue` | src/grt/fst/fstapi.c:2923-2942 | a flush that is due writes the section held; reading it with the tables the section before has left delivers exactly what the writer held, and the rest of the run can go on with the tables this one leaves |
| `FstSession.DoTimeAndFlush` | src/grt/fst/fstapi.c:2923-2942 | one time change with a flush due: the section written is read back and delivers exactly what the writer held, and the rest of the run goes on from an empty section |
| `FstSession.FlushReady` | src/grt/fst/fstapi.c:1267-1268 | the side conditions of a run give a due flush what it relies on: a buffer that is not empty, offsets below 2^31, and tables that lead no handle astray |
| `FstRoundTrip.SectionRoundTrip` | src/grt/fst/fstapi.c:1283-1424 | section round trip: any run of calls in one section, a flush and a traversal give every handle exactly what was written for it, at the times it was written, ordered by time over all handles: values of more than one character and texts unchanged, a single character of "01xzhuwl-" unchanged, one of "XZHUWL" as its small letter, any other as "-"; the next frame holds the last values |
| `FstRoundTrip.LogReturns` | src/grt/fst/fstapi.c:1315-1328 | what a log of deliveries holds for a handle is what was written for it, in these terms, change for change |
| `FstRoundTrip.WriteAll` | src/grt/fst/fstapi.c:2729-2942 | any run of calls without a flush adds to every handle exactly the changes written for it, at the times they were written |
| `FstRoundTrip.FlushAndRead` | src/grt/fst/fstapi.c:2923-2942 | a flush followed by a traversal of all handles delivers exactly what the writer held, between the old begin time and the time of the flush, which is the begin time of the next section, and leaves an empty section whose frame is the last values |
| `FstRoundTrip.ReadSection` | src/grt/fst/fstapi.c:5060-5604 | a section, read with any choice of handles into tables that are new or were left by the section before, gives the time table and, in order of time, the complete histories of the chosen handles and nothing of the others |
| `FstRoundTrip.StoryGrows` | src/grt/fst/fstapi.c:2833-2840 | a change at the newest time step is appended to its handle's story with the current time |
| `FstRoundTrip.StoryStays` | src/grt/fst/fstapi.c:2935-2940 | a time change alters no story |
| `FstRoundTrip.ForStamped` | src/grt/fst/fstapi.c:5304-5330 | looking up the times of the events of a handle gives its changes with their times |
| `FstWriter.Writer.constructor` | src/grt/fst/fstapi.c:1106-1163 | a new writer is valid, in step, before its first time, with an empty buffer and empty chains |
| `FstWriter.Writer.Record` | src/grt/fst/fstapi.c:2833-2840 | a record is linked to the one before it of its handle; the chains of all handles stay intact and the handle's deltas add up to the current time index |
| `FstWriter.BuildRecord` | src/grt/fst/fstapi.c:815-875 | a buffer record is the link, the time step as a varint, and the value, preceded by its size when the length is variable; and how many bytes that takes |
| `FstWriter.Writer.EmitValueChange` | src/grt/fst/fstapi.c:2729-2840 | a fixed-length change extends its handle's chain by exactly that change, or, before the first time change, goes into the frame; the value of the handle, and of no other, is then the new one |
| `FstWriter.Writer.EmitVariableLengthValueChange` | src/grt/fst/fstapi.c:2847-2887 | a variable-length change extends its chain, except that before the first time change the very first record lies at the offset that stands for none and is in no chain; a handle of fixed length is left alone |
| `FstWriter.Writer.EmitTimeChange` | src/grt/fst/fstapi.c:2890-2942 | a section is written if and only if it is not the first time change, the buffer has reached its limit or a flush was requested, and there is something in it; that section begins at the old begin time and ends at the time before this call, where the next one begins, and all times of its table lie between; the writer stays in step (count = index + 1, deltas add up to the current time) exactly unless a flush was due and there was nothing to flush; what the frame, the time list and the chains are in each of the cases |
| `FstWriter.Writer.FlushContextPrivate` | src/grt/fst/fstapi.c:1267-1753 | an empty buffer is left alone; otherwise the section is the one for the chains, times and frame held, its begin time is the one held and its end time the current time, and the next one begins at that time with the last values, no chains and no times |
| `FstWriter.Writer.FlushTime` | src/grt/fst/fstapi.c:2923-2942 | a due flush keeps the time index and the time list in step if and only if there was a change to flush; all times of the section lie between its begin and its end |
| `FstWriter.EmptyFlush` | src/grt/fst/fstapi.c:2925-2940 | any new writer that gets three time changes, a flush request and one more time change, but no value, is out of step |
| `FstWriter.Writer.FlushContext` | src/grt/fst/fstapi.c:1842-1852 | a flush request is kept only once the time index has passed 1 |
| `FstWriter.Writer.FirstTime` | src/grt/fst/fstapi.c:2895-2922 | the first time change drops buffered variable-length changes, takes the values so far as the frame, and begins at 0 if anything was emitted before |
| `FstWriter.FlushHandle` | src/grt/fst/fstapi.c:1283-1570 | one handle: its payload is the re-encoded chain, its chunk and table word are those of the first handle with the same key, and its last value is the newest record's |
| `FstWriter.FlushHandles` | src/grt/fst/fstapi.c:1283-1570 | all handles: the data are the chunks of the distinct payloads, the table words name them, the frame is every last value |
| `FstWriter.RowsGrow` | src/grt/fst/fstapi.c:826-840 | appending a linked record keeps every handle's row and makes one chain longer |
| `FstWriter.SlotsIndexed` | src/grt/fst/fstapi.c:1584-1625 | the table words left by the flush are those of a well-formed index |
| `FstWriter.RecordKeeps` | src/grt/fst/fstapi.c:2833-2840 | what a new record does to chains and values |
| `FstWriter.RecordAdrift` | src/grt/fst/fstapi.c:2869-2884 | the first record of an empty buffer leaves every chain as it is |
| `FstChain.RepresentsLinked` | src/grt/fst/fstapi.c:826-839 | a record appended with a link to the chain's start makes the chain one change longer; offsets along a chain strictly decrease |
| `FstChain.RepresentsExtended` | src/grt/fst/fstapi.c:826-839 | appending to the buffer keeps every chain |
| `FstChain.Follow` | src/grt/fst/fstapi.c:1306-1313 | following a link gives the newest change and a smaller offset that starts the rest of the chain |
| `FstChain.EncodeNewest` | src/grt/fst/fstapi.c:1366-1423 | one step of the backward walk adds the record to the left of those already re-encoded, inside the scratch buffer |
| `FstChain.EncodeChain` | src/grt/fst/fstapi.c:1289-1424 | walking a chain back and filling from right to left gives its payload, oldest record first, in a scratch buffer as long as the change buffer |
| `FstChain.PutRecordLeft` | src/grt/fst/fstapi.c:1315-1330 | a re-encoded record of any kind ends exactly where the later ones begin |
| `FstChain.PackLeft` | src/grt/fst/fstapi.c:1396-1412 | the fall-through packing writes a vector as bytes, first character in the top bit |
| `FstChain.RecordFits` | src/grt/fst/fstapi.c:1271-1295 | a re-encoded record is no longer than its buffer record |
| `FstRecord.BitRoundTrip` | src/grt/fst/fstapi.c:1315-1328 | a single bit and its time step: one of "01xzhuwl-" is read back unchanged, one of "XZHUWL" as the small letter, everything else as "-" |
| `FstRecord.PackRoundTrip` | src/grt/fst/fstapi.c:1396-1412 | a packed binary vector is unpacked to itself |
| `FstRecord.RecordRoundTrip` | src/grt/fst/fstapi.c:5304-5590 | a stored change of a 1-bit, multi-bit or variable-length handle is read back as it was, whatever follows it |
| `FstRecord.PayloadRoundTrip` | src/grt/fst/fstapi.c:5304-5604 | reading a payload gives the history of its chain: every time index and value, oldest first |
| `FstRecord.PayloadReads` | src/grt/fst/fstapi.c:5304-5604 | a payload reads as its history followed by whatever stands behind it |
| `FstRecord.TimelineLonger` | src/grt/fst/fstapi.c:5227-5240 | reading a payload does not depend on the bytes after it |
| `Leb128.VarintRoundTrip` | src/grt/fst/fstapi.c:487-525 | a varint of any value is read back, whatever follows it |
| `Leb128.SVarintRoundTrip` | src/grt/fst/fstapi.c:636-687 | a signed varint of any value is read back |
| `Leb128.PutVarint` | src/grt/fst/fstapi.c:487-500 | writes the varint of a value |
| `FstVarint.CopyVarintToLeft` | src/grt/fst/fstapi.c:459-485 | writes a varint so that it ends where it should, without touching what follows |
| `FstVarint.GetVarint32` | src/grt/fst/fstapi.c:397-419 | finds the last byte, gathers backwards, and keeps the low 32 bits |
| `FstVarint.GetVarint64` | src/grt/fst/fstapi.c:502-525 | the same in 64 bits |
| `Leb128.PutSVarint` | src/grt/fst/fstapi.c:663-687 | shifts arithmetically until only copies of the sign are left |
| `FstVarint.GetSVarint64` | src/grt/fst/fstapi.c:636-661 | gathers upwards in 64 bits and extends the sign unless the shift has passed the word: every encoding for which the shifts are defined is read modulo 2^64 |
| `Leb128.SVarintShort` | src/grt/fst/fstapi.c:1605-1615 | every step an index can hold takes at most five bytes |
| `FstJenkins.Table.Insert` | src/grt/fst/fstapi.c:6421-6460 | the table refines a map: equal byte strings get the slot they had, others a new one; lists keep their nodes |
| `FstJenkins.Table.Find` | src/grt/fst/fstapi.c:6434-6451 | the search finds a key if and only if it has a slot, and the node before it |
| `FstJenkins.Table.MoveToFront` | src/grt/fst/fstapi.c:6440-6445 | moving a hit to the front keeps every list's nodes and every slot |
| `FstJenkins.Table.Intern` | src/grt/fst/fstapi.c:1450-1459 | what a flush does with a slot: the handle left there before, or zero and the new one |
| `FstJenkins.FrontLinked` | src/grt/fst/fstapi.c:6440-6445 | the two pointer writes turn a linked list into the same list with one element in front; it stays acyclic |
| `FstJenkins.IndexedFronted` | src/grt/fst/fstapi.c:6440-6445 | every slot stays in the list its hash leads to |
| `FstJenkins.IndexedAdded` | src/grt/fst/fstapi.c:6453-6459 | a new node joins the list its hash leads to and leaves the others |
| `FstSection.SharingSafe` | src/grt/fst/fstapi.c:1450-1547 | sharing chunks by key gives every handle its own payload back if and only if no raw payload equals the packed form of another handle's |
| `FstSection.SharingLoses` | src/grt/fst/fstapi.c:1450-1547 | a compressor and two payloads that are mixed up: the second handle gets the data of the first |
| `FstSection.HomeHolds` | src/grt/fst/fstapi.c:1450-1547 | a handle reads its own payload exactly when it was packed if and only if the handle it shares with was |
| `FstSection.SlotsSound` | src/grt/fst/fstapi.c:1450-1563 | every alias names an earlier handle that has a chunk |
| `FstSection.PutChunk` | src/grt/fst/fstapi.c:1426-1563 | one payload: a chunk for a new key, otherwise minus the number of the first handle with that key |
| `FstSection.ReadChunk` | src/grt/fst/fstapi.c:5198-5240 | a chunk gives its payload back although the reader hands the unpacker bytes of the next one |
| `FstSection.LoadSection` | src/grt/fst/fstapi.c:5060-5264 | into tables the section before has left: every handle loads the payload of the handle its chunk belongs to, absent handles stay absent |
| `FstCodecs.Lz4Suits` | src/grt/fst/fstapi.c:5216-5224 | any compressor that writes legal LZ4 blocks, read by partial decoding, meets what a section asks: it does not mind trailing bytes, and is injective |
| `FstCodecs.FastLzSuits` | src/grt/fst/fstapi.c:5216-5224 | the same for FastLZ, whose return value the reader ignores |
| `FstIndex.PutIndex` | src/grt/fst/fstapi.c:1584-1664 | the writer's loop emits the index of the table: zero runs, offset steps, aliases and repeated aliases |
| `FstTables.LoadIndex` | src/grt/fst/fstapi.c:5060-5173 | decoding an emitted index into any tables, with any last chunk of the section before, gives exactly the tables that `After` describes |
| `FstTables.RightIff` | src/grt/fst/fstapi.c:5091-5172 | these lead every handle to its chunk, aliases to that of the handle they name, and absent handles to none, if and only if no absent handle has been left with a length that names an earlier, present one |
| `FstTables.MisledIff` | src/grt/fst/fstapi.c:5093-5114 | with no negative length left over it comes down to one handle: the last chunk of the section before is absent now, and the first chunk of this one belongs to an earlier handle and starts so far before the old offset that the difference names an earlier handle with data |
| `FstTables.FreshRight` | src/grt/fst/fstapi.c:5909-5910 | new tables lead no handle astray |
| `FstTables.StrayHandle` | src/grt/fst/fstapi.c:5093-5172 | a file of two sections and three handles in which the third handle, which does not change, is given the chunk of the second |
| `FstTables.LoadEntries` | src/grt/fst/fstapi.c:5078-5120 | the decoding loop consumes exactly the stream and knows of each handle what it encodes |
| `FstTables.Resolve` | src/grt/fst/fstapi.c:5160-5172 | negative lengths resolve in order to the entries of the handles they name |
| `FstIndex.AbsentRun` | src/grt/fst/fstapi.c:5945-5954 | a run of absent handles is encoded as its length |
| `FstLayout.LoadTables` | src/grt/fst/fstapi.c:5060-5173 | in a whole section the tables lead every handle to the bytes of its chunk, unless those of the section before lead one astray |
| `FstLayout.EntriesLaid` | src/grt/fst/fstapi.c:1458-1562 | offsets rise by the sizes of the chunks before them |
| `FstTimes.LoadTimes` | src/grt/fst/fstapi.c:4780-4829 | the reader's time table holds the times the writer encoded as steps |
| `FstTimes.TableRises` | src/grt/fst/fstapi.c:4822-4829 | times that never decrease give a sorted table |
| `FstTimes.TableSpans` | src/grt/fst/fstapi.c:1709-1713 | and every time of it lies between the first and the latest one |
| `FstMerge.Traversal.InOneBucket` | src/grt/fst/fstapi.c:5248-5262 | a handle with bytes left sits in exactly one bucket, once: that of its next change, never behind the current step |
| `FstMerge.Traversal.Load` | src/grt/fst/fstapi.c:5227-5262 | a loaded handle enters the bucket of its first change |
| `FstMerge.Traversal.TakeNext` | src/grt/fst/fstapi.c:5304-5358 | one turn delivers the next change of the handle in front, keeps all handles in their buckets, and lowers the total of remaining bytes |
| `FstMerge.Traversal.Relink` | src/grt/fst/fstapi.c:5349-5358 | a handle with bytes left goes to the bucket of its next change |
| `FstMerge.Traversal.Drain` | src/grt/fst/fstapi.c:5304-5604 | the inner loop ends, and delivers every change of its step |
| `FstMerge.Traversal.Run` | src/grt/fst/fstapi.c:5268-5604 | the whole traversal ends, delivers every change of every handle in non-decreasing time and each handle's in its order, and reads every byte |
| `FstMerge.PushLinked` | src/grt/fst/fstapi.c:5356-5357 | putting a handle in front of a bucket keeps all buckets linked lists |
| `FstMerge.PopLinked` | src/grt/fst/fstapi.c:5346-5347 | taking the first handle out of a bucket does too |
| `FstMerge.AccountedNext` | src/grt/fst/fstapi.c:5304-5330 | what was delivered and what is left make up everything, after every delivery |
| `FstAtTime.Lookups.Run` | src/grt/fst/fstapi.c:6019-6279 | any run of lookups, for any handles in any order, none of them backward on the cursor's handle to before its first change, gives the answers of scanning from the start each time, and no answer exactly for handles that do not exist or have length 0 |
| `FstAtTime.Lookups.Lookup` | src/grt/fst/fstapi.c:5707-5710 | one lookup: no answer if and only if the handle does not exist or has length 0, otherwise that of a scan from the start, and where the cursor is then |
| `FstAtTime.Lookups.ScannedRight` | src/grt/fst/fstapi.c:6019-6279 | a scan from the start finds the last change at or before the time, or none |
| `FstAtTime.Lookups.ValueAt` | src/grt/fst/fstapi.c:6019-6279 | the value returned and the cursor left behind, whatever the cursor was |
| `FstAtTime.RightIff` | src/grt/fst/fstapi.c:6103-6113 | a lookup is right if and only if it does not resume at a change that lies after the time although an earlier one does not |
| `FstAtTime.FreshLookup` | src/grt/fst/fstapi.c:6103-6113 | from a fresh cursor the answer is right, and the cursor stays fresh if and only if the lookup was not a backward one that found nothing |
| `FstAtTime.FocusStays` | src/grt/fst/fstapi.c:6033-6042 | the same across handles: a lookup for another handle drops the cursor |
| `FstAtTime.RunRight` | src/grt/fst/fstapi.c:6103-6113 | for one handle: over every such run each answer is the right one |
| `FstAtTime.StaleRun` | src/grt/fst/fstapi.c:6112-6112 | a run the cursor gets wrong: changes at 5 and 10, lookups at 10, 3 and 7 |
| `FstAtTime.Scan` | src/grt/fst/fstapi.c:6115-6191 | the scan ends at the last change not after the time, and says where its record is |
| `FstAtTime.StoredLookup` | src/grt/fst/fstapi.c:6019-6279 | what the writer stores can be looked up: the payload is found from its start and its times are sorted |
| `FstLookup.LookupRoundTrip` | src/grt/fst/fstapi.c:5697-6279 | from the writer to the lookup: after any run of calls in one section and a flush, a lookup in the loaded section gives no answer if and only if the handle does not exist or has length 0, and otherwise the last value written for it at or before the time (a single character as SectionRoundTrip says), or the one it had when the section began, for any run of lookups that does not go back to before the first change of the cursor's handle |
| `FstLookup.LookIn` | src/grt/fst/fstapi.c:5880-6279 | a loaded section answers such a run from the stories of its chains: null exactly for handles that do not exist or have length 0 |
| `FstLookup.ScannedTold` | src/grt/fst/fstapi.c:6115-6191 | what a scan from the start finds is the last change of the story not after the time |
| `FstLookup.RightIsLast` | src/grt/fst/fstapi.c:6115-6191 | the right answer in the list of times is the last change of the story |
| `Lz4Compress.Compress` | src/grt/fst/lz4.c:435-654 | for every input, table type, acceleration and choice of table cells: the block is legal (offsets 1 to 65535, also with 16-bit cells), keeps the end-of-block conditions, is no longer than the bound, and decodes fully and partially to the input; larger inputs are refused with 0 |
| `Lz4Compress.EncodeSequences` | src/grt/fst/lz4.c:488-629 | the main loop: what has been written always stands for the input before the anchor |
| `Lz4Compress.EncodeMatches` | src/grt/fst/lz4.c:556-625 | matches that follow one another at once are encoded in turn, the hash table only holding earlier positions |
| `Lz4Compress.FindMatch` | src/grt/fst/lz4.c:497-531 | whatever the cells hold, a match found has four equal bytes and is within reach |
| `Lz4Compress.CatchUp` | src/grt/fst/lz4.c:533-534 | extending a match backwards keeps it a match and stays behind the anchor |
| `Lz4Compress.Count` | src/grt/fst/lz4.c:315-331 | the length of the longest common run before the limit |
| `Lz4Compress.NbCommonBytes` | src/grt/fst/lz4.c:248-313 | how many of eight bytes agree before the first difference |
| `Lz4Compress.PutLiterals` | src/grt/fst/lz4.c:536-554 | token, length bytes and literals, the eight-byte copies staying inside the bound |
| `Lz4Compress.PendingDone` | src/grt/fst/lz4.c:556-596 | offset and match length complete a sequence that stands for the input up to the match end, with room to spare |
| `Lz4Compress.MatchLegal` | src/grt/fst/lz4.c:556-605 | a verified match gives a legal sequence that keeps the end-of-block conditions |
| `Lz4Format.BlockBound` | src/grt/fst/lz4.h:106 | worst case: no legal block is longer than n + n/255 + 16 |
| `Lz4Format.EncodeAllBound` | src/grt/fst/lz4.h:106 | sequences take at most n + n/255 bytes |
| `Lz4Decode.RoundTrip` | src/grt/fst/lz4.c:1110-1295 | every legal block that keeps the end-of-block conditions, the empty one included, decodes to what it stands for: fully into any buffer long enough, partially with target and capacity equal to its length |
| `Lz4Decode.RoundTripWithTail` | src/grt/fst/lz4.c:1293-1296 | partial decoding does not look at bytes after the block |
| `Lz4Decode.ReadsPrefix` | src/grt/fst/lz4.c:1149-1274 | decoding gets over every prefix of sequences with the output they stand for |
| `Lz4Accept.Accepted` | src/grt/fst/lz4.c:1154-1281 | the converse of the round trip: whatever full decoding accepts is the encoding of legal sequences followed by a literal run that ends with the input, and the output is what these stand for and fits the buffer; so a block that is cut is refused unless what is left ends with a literal run |
| `Lz4Accept.TooLong` | src/grt/fst/lz4.c:1173-1186 | a legal block that stands for more bytes than the buffer has is refused |
| `Lz4Accept.MoreRoomFrom` | src/grt/fst/lz4.c:1173-1274 | what is not refused in a small buffer comes out the same in a larger one |
| `Lz4Accept.PartialPrefix` | src/grt/fst/lz4.c:1293-1296 | partial decoding of a legal block returns its first bytes: all of them, or more than the target asks for, or more than the capacity less twelve |
| `Lz4Decompress.Decompress` | src/grt/fst/lz4.c:1110-1295 | the table-driven decoder writes and returns what the byte-by-byte one does, errors included; after a zero offset it stays in bounds |
| `Lz4Decompress.CopyMatch` | src/grt/fst/lz4.c:1246-1273 | for every offset from 1 and length from 4 the prologue, the eight-byte copies and the tail give the byte-by-byte copy |
| `Lz4Decompress.TableDistances` | src/grt/fst/lz4.c:1136-1137 | the tables turn the distance into a multiple of the offset, and after eight bytes into one that is at least 8 |
| `Lz4Decompress.PeriodRefines` | src/grt/fst/lz4.c:1246-1273 | copying from a multiple of the period keeps the period |
| `Lz4Decompress.Prologue` | src/grt/fst/lz4.c:1248-1258 | the first eight bytes repeat with the offset |
| `Lz4Decompress.WildCopyBack` | src/grt/fst/lz4.c:207-213 | overlapping eight-byte copies from at least eight bytes back repeat with that distance |
| `Lz4Decompress.CopyNearEnd` | src/grt/fst/lz4.c:1260-1270 | the tail near the end of the buffer does too, and stays inside |
| `Lz4Decompress.LiteralTurn` | src/grt/fst/lz4.c:1156-1192 | literal length and literals of one turn, as the function has them |
| `Lz4Decompress.MatchTurn` | src/grt/fst/lz4.c:1194-1273 | offset, match length and match of one turn, as the function has them |
| `Memory.WildCopy` | src/grt/fst/lz4.c:207-213 | eight bytes at a time copies what a plain copy does |
| `Bytes.CopyBackUnique` | src/grt/fst/lz4.c:1246-1273 | the byte-by-byte copy is the only extension in which every byte repeats the one at the distance |
| `Bytes.CopyBackPeriodic` | src/grt/fst/lz4.c:1246-1273 | and it is one |
| `FastLzCompress.CompressLevel` | src/grt/fst/fastlz.c:162-414 | for every input, level and choice of table cells: the stream is legal, decodes to the input in every buffer that can hold it, and is at most one byte in 32 longer |
| `FastLzCompress.Compress` | src/grt/fst/fastlz.c:126-134 | the same, with the level chosen by the length |
| `FastLzCompress.EncodeMain` | src/grt/fst/fastlz.c:201-387 | the main loop: finished operations, then the open run, whose control byte still counts to the maximum |
| `FastLzCompress.EncodeFound` | src/grt/fst/fastlz.c:254-376 | a match closes the open run, is encoded, and opens the next |
| `FastLzCompress.CloseRun` | src/grt/fst/fastlz.c:287-293 | the back-patch always hits the control byte of the current run, or drops it if the run is empty |
| `FastLzCompress.PutLiteral` | src/grt/fst/fastlz.c:378-386 | one literal; a full run is finished and the next one opened |
| `FastLzCompress.PutMatches` | src/grt/fst/fastlz.c:298-365 | a match of any length is encoded, at level 1 split into pieces |
| `FastLzCompress.FindMatch` | src/grt/fst/fastlz.c:207-255 | whatever the cells hold, a match found agrees on its first bytes, five of them when it is far |
| `FastLzCompress.ExtendMatch` | src/grt/fst/fastlz.c:270-285 | the bytes up to one before the end it stops at repeat with the distance |
| `FastLzCompress.Marks` | src/grt/fst/fastlz.c:408-411 | setting the marker bit gives the encoding that carries the level |
| `FastLzFormat.WorstCase` | src/grt/fst/fastlz.h:54-55 | worst case: n + ceil(n/32) bytes; this implies 5% and 66 bytes, and twice the length plus two |
| `FastLzFormat.SizeBound` | src/grt/fst/fastlz.c:287-374 | amortised: each match pays for itself and the next control byte |
| `FastLzFormat.MatchSize` | src/grt/fst/fastlz.c:298-365 | a match is encoded in fewer bytes than it stands for |
| `FastLzDecode.RoundTrip` | src/grt/fst/fastlz.c:416-545 | every legal stream decodes to what it stands for into any buffer long enough |
| `FastLzDecode.RoundTripWithTail` | src/grt/fst/fastlz.c:461-472 | bytes after a stream may spoil the return value but not the output |
| `FastLzDecode.ReadsMatch` | src/grt/fst/fastlz.c:436-459 | lengths and distances are read back, the far escape (31, 255) included |
| `FastLzDecode.TakesPrefix` | src/grt/fst/fastlz.c:425-542 | decoding gets over every prefix of operations with the output they stand for |
| `FastLzRefuse.TooLong` | src/grt/fst/fastlz.c:461-472 | a stream that stands for more bytes than the buffer has is rejected, whatever follows it |
| `FastLzRefuse.CutShort` | src/grt/fst/fastlz.c:425-545 | a stream cut inside a literal run is rejected with the output before it; one cut inside a match makes the decoder read past the end of its input |
| `FastLzDecompress.DecompressLevel` | src/grt/fst/fastlz.c:416-545 | the run and two-byte copies write and return what the byte-by-byte decoder does |
| `FastLzDecompress.Decompress` | src/grt/fst/fastlz.c:136-148 | the same, with the level read from the first byte, and 0 for an unknown one |
| `FastLzDecompress.CopyReference` | src/grt/fst/fastlz.c:490-517 | three bytes, an odd one, then words: the byte-by-byte copy, for overlapping distances from 2 on |
| `FastLzDecompress.CopyRun` | src/grt/fst/fastlz.c:474-483 | a run is the byte-by-byte copy from distance 1 |
| `NumericAdd.VecVecBinary` | libraries/openieee/build_numeric.py:117-157 | "+" and "-" of vectors of any lengths, unsigned or signed: the sum or difference modulo 2^n, n being the longer length; null for null vectors |
| `NumericAdd.ExtractExtendBit` | libraries/openieee/build_numeric.py:103-115 | the bit of an operand, extended by zeros or its sign |
| `NumericAdd.RippleStep` | libraries/openieee/build_numeric.py:150-153 | one place of the ripple adder keeps: sum so far plus carry |
| `NumericAdd.Negate` | libraries/openieee/build_numeric.py:693-725 | negation modulo 2^n; of a negative number, the most negative included, the result read as unsigned is its magnitude |
| `NumericAdd.Abs` | libraries/openieee/build_numeric.py:711-723 | the magnitude, read as unsigned |
| `NumericMul.MulUnsigned` | libraries/openieee/build_numeric.py:593-665 | exactly the product, in as many bits as both operands have |
| `NumericMul.MulSigned` | libraries/openieee/build_numeric.py:593-665 | exactly the integer product for all widths and operands, length 1 and both most negative included |
| `NumericMul.AddShifted` | libraries/openieee/build_numeric.py:612-637 | one turn adds 2^i times the sign-extended operand, modulo the length of the result |
| `NumericMul.SubtractShifted` | libraries/openieee/build_numeric.py:647-661 | the last step subtracts 2^(n-1) times the operand |
| `NumericMul.PropagateCarry` | libraries/openieee/build_numeric.py:622-628 | the carry is added in full although the loop stops early |
| `NumericMul.PartialNext` | libraries/openieee/build_numeric.py:605-644 | the partial product, bit by bit |
| `NumericMul.ProductInside` | libraries/openieee/build_numeric.py:599-599 | the product of any two signed numbers fits the result |
| `NumericDiv.Divmod` | libraries/openieee/build_numeric.py:780-816 | restoring division for every width: num = quot * dem + remain and remain < dem; all ones for a division by zero |
| `NumericDiv.Trial` | libraries/openieee/build_numeric.py:792-813 | one turn keeps the register below the divisor and gives the next quotient bit |
| `NumericDiv.TrialSubtraction` | libraries/openieee/build_numeric.py:803-812 | carry or extra top bit say exactly whether the divisor fits |
| `NumericDiv.UDiv` | libraries/openieee/build_numeric.py:818-852 | unsigned "/" |
| `NumericDiv.URem` | libraries/openieee/build_numeric.py:818-852 | unsigned "rem" and "mod" |
| `NumericDiv.SDiv` | libraries/openieee/build_numeric.py:891-938 | signed "/" truncates toward zero, modulo 2^n |
| `NumericDiv.SDivExact` | libraries/openieee/build_numeric.py:932-938 | and is exact if and only if it is not the most negative number over -1 |
| `NumericDiv.SRem` | libraries/openieee/build_numeric.py:939-946 | "rem" has the sign of the dividend, exactly |
| `NumericDiv.SMod` | libraries/openieee/build_numeric.py:947-967 | "mod" is what rounding down leaves, with the sign of the divisor, exactly |
| `NumericDiv.FloorModIs` | libraries/openieee/build_numeric.py:947-967 | how rounding down relates to the remainder of the magnitudes |
| `GhwDump.DumpDesign` | src/grt/grt-waves.adb:834-1739 | the whole way: declared signals of any types get numbers, a simulation is dumped as a snapshot and a step per cycle, the hierarchy is read back and then the file by the loop of ghwdump; that loop ends at the end of the file, sees exactly the start and every cycle in order, and the numbers it has for a declared signal lead at each of them to the values the basic signals of that declared signal had; each cycle is seen at the time at which the first one is read plus what has passed since |
| `GhwWaves.DumpAndWatch` | src/grt/grt-waves.adb:1612-1739 | a dump of any simulation, in either byte order, and a reader of it: the initial values and those of every cycle are seen in order, nothing else is, and the times are the right ones if and only if bit 31 of the first is clear |
| `GhwWaves.DumpAndRead` | src/grt/ghwlib.c:1832-1874 | the same file read at once: it succeeds at the end of the file and leaves the values and the time of the last cycle |
| `GhwWaves.Simulate` | src/grt/grt-waves.adb:1634-1739 | what the file tells after a snapshot, any number of cycles and the end |
| `GhwWaves.Waves.WaveCycle` | src/grt/grt-waves.adb:1698-1726 | a cycle opens a section or adds a step to the open one; what the file tells is then longer by this time and these values |
| `GhwWaves.Waves.WriteEvents` | src/grt/grt-waves.adb:1715-1725 | the signals with events, each with its distance from the last, and a zero; the events are cleared |
| `GhwWaves.Waves.WriteSnapshot` | src/grt/grt-waves.adb:1612-1625 | the file tells the initial values |
| `GhwWaves.Waves.WriteValue` | src/grt/grt-waves.adb:209-225 | a byte, a number in LEB128, or eight bytes |
| `GhwWaves.Waves.WaveCloseCyc` | src/grt/grt-waves.adb:1690-1696 | closing the section alters nothing of what the file tells |
| `GhwWaves.Waves.WriteDirectory` | src/grt/grt-waves.adb:280-297 | nor do the directory, which lists every section with its place, and what follows it |
| `GhwWaves.Waves.WaveEnd` | src/grt/grt-waves.adb:1729-1739 | a file that ends is one of finished sections |
| `GhwStory.FiledStep` | src/grt/grt-waves.adb:1704-1726 | a step written where the file ends adds one time with its values to what the file tells |
| `GhwStory.FiledReads` | src/grt/ghwlib.c:1700-1874 | a finished file is read as what it tells: values, time, and every time and value seen on the way |
| `GhwStory.EventsChange` | src/grt/grt-waves.adb:1715-1725 | the changes of the signals with events make up the new values, if no other signal has changed |
| `GhwStory.AbortsIff` | src/grt/ghwlib.c:937-991 | the reader aborts on a value if and only if it is of one of two types |
| `GhwStory.ShownIs` | src/grt/ghwlib.c:1145-1148 | signal n of the reader is the n-th dumped one, and the others have no value |
| `GhwNumbers.ReadDecls` | src/grt/ghwlib.c:1105-1137 | the signals of a hierarchy: every number leads back to the signal it was given to, and the types the reader ends with are those of the dumped signals, by number, and none for the others |
| `GhwNumbers.ReadDeclared` | src/grt/ghwlib.c:1105-1137 | one declared signal: reading fails if and only if it is unbounded, or after some accepted numbers the stream ends or the next number is 0 or too large; for numbers from 1 on that are not too large it succeeds with exactly these and a zero after them |
| `GhwNumbers.NumbersRead` | src/grt/ghwlib.c:868-881 | every sequence of numbers from 1 up to the number of signals is accepted and read as it was written |
| `GhwNumbers.RefusedIff` | src/grt/ghwlib.c:874-879 | numbers are refused if and only if after some accepted ones the stream ends or the next one is 0 or too large |
| `GhwNumbers.Numbering.WriteSignalNumber` | src/grt/grt-waves.adb:834-865 | a signal without a number gets the next one; the number is put out |
| `GhwNumbers.Numbering.WriteSignalNumbers` | src/grt/grt-waves.adb:871-881 | scalar after scalar |
| `GhwNumbers.Numbering.DumpTable` | src/grt/grt-waves.adb:1588-1603 | the table of dumped signals has every numbered signal at its number |
| `GhwNumbers.NumbersLead` | src/grt/grt-waves.adb:851-861 | a number leads to its signal, also when more signals have got theirs |
| `GhwNumbers.TypesAssigned` | src/grt/ghwlib.c:880-881 | reading the numbers of some signals gives these the types of their scalars and leaves the types of the others |
| `GhwNumbers.OrderHolds` | src/grt/grt-waves.adb:851-858 | exactly the basic signals of the declared ones have numbers |
| `GhwFormat.DumpReads` | src/grt/ghwlib.c:1832-1874 | for every list of snapshots, cycles, directories and tailers, given by times, values and changes: a dump of their bytes succeeds at the end of the file with exactly the values and the time they say |
| `GhwFormat.SnapshotReads` | src/grt/ghwlib.c:1386-1420 | the bytes of a snapshot give every used signal its value, and nothing else changes |
| `GhwFormat.CycleReads` | src/grt/ghwlib.c:1802-1830 | the bytes of a cycle make exactly its changes, step after step |
| `GhwFormat.ChangesRead` | src/grt/ghwlib.c:1436-1474 | the changes of a step, each with its distance from the last among the used signals, are made |
| `GhwFormat.SeekFinds` | src/grt/ghwlib.c:1457-1463 | the number of used signals from one to another leads there |
| `GhwFormat.DirectoryReads` | src/grt/ghwlib.c:1649-1682 | a directory with any entries is skipped |
| `GhwFormat.SnapshotChecks` | src/grt/ghwlib.c:1386-1420 | a snapshot is accepted only with four zero bytes and the mark ESN |
| `GhwFormat.CycleChecks` | src/grt/ghwlib.c:1490-1501 | a cycle is accepted only with the mark ECY |
| `GhwFormat.DirectoryChecks` | src/grt/ghwlib.c:1676-1681 | a directory is accepted only with the mark EOD |
| `GhwFormat.DumpChecks` | src/grt/ghwlib.c:1840-1873 | a dump goes on only after a section it knows and has read without an error, and refuses any other header |
| `GhwTrace.FileSeen` | src/grt/ghwlib.c:1751-1800 | a client of the pull parser sees exactly the times and values the sections tell, in order |
| `GhwTrace.StepsSeen` | src/grt/ghwlib.c:1751-1800 | every step of a cycle is seen, and then what comes after the cycle |
| `GhwTrace.Watch` | src/grt/ghwdump.c:283-309 | the main loop of ghwdump shows that, and ends as one dump would |
| `GhwStream.PullIsDump` | src/grt/ghwlib.c:1700-1874 | for any bytes: pulling until the end leaves the signal values, the time and the position one dump leaves, and ends in eof exactly when the dump returns 0 |
| `GhwStream.PullIsCycle` | src/grt/ghwlib.c:1751-1830 | the same from inside a cycle |
| `GhwStream.Handler.PullAll` | src/grt/ghwlib.c:1751-1800 | a client's loop around the pull parser ends as one dump would, whatever the bytes |
| `GhwStream.Handler.ReadSm` | src/grt/ghwlib.c:1751-1800 | one call of the pull parser |
| `GhwStream.Handler.ReadDump` | src/grt/ghwlib.c:1832-1874 | the batch parser, section after section, errors included, is the function DumpReads and DumpChecks are about |
| `GhwStream.Handler.ReadCycle` | src/grt/ghwlib.c:1802-1830 | a cycle: start, first step, further steps, end |
| `GhwStream.Handler.ReadSnapshot` | src/grt/ghwlib.c:1386-1420 | a snapshot: time, then the value of every used signal |
| `GhwStream.Handler.ReadCycleCont` | src/grt/ghwlib.c:1436-1474 | the signals that change, each found by its distance among the used ones |
| `GhwStream.Handler.FindSignal` | src/grt/ghwlib.c:1457-1463 | the search for the next used signal |
| `GhwStream.Handler.ReadDirectory` | src/grt/ghwlib.c:1649-1682 | the directory is skipped, its end mark checked |
| `GhwLeb.UnsignedRoundTrip` | src/grt/ghwlib.c:167-185 | every 32-bit number is read back from its LEB128 form |
| `GhwLeb.Signed32RoundTrip` | src/grt/ghwlib.c:187-209 | every signed 32-bit number is |
| `GhwLeb.Signed64RoundTrip` | src/grt/ghwlib.c:211-234 | every signed 64-bit number is |
| `GhwLeb.ReadUleb128` | src/grt/ghwlib.c:167-185 | value and position, or failure at the end of the stream |
| `GhwLeb.ReadSleb128` | src/grt/ghwlib.c:187-234 | value and position, the last byte carrying the sign |
| `GhwLeb.WordIs` | src/grt/ghwlib.c:128-135 | four bytes are the sum of the bytes times powers of 256, in the order of the file |
| `GhwLeb.HalvesAre` | src/grt/ghwlib.c:137-153 | and the two halves together that of eight |
| `GhwLeb.TimeReads` | src/grt/ghwlib.c:137-153 | what every 64-bit time that was written is read as, in either byte order |
| `GhwLeb.GetI64Iff` | src/grt/ghwlib.c:137-153 | the 64-bit time is right if and only if the low half's top bit is clear or the high half is all ones |
| `GhwLeb.GetI64Negative` | src/grt/ghwlib.c:137-153 | so every time from 2^31 to 2^32 - 1 is read as a negative one |
| `GhwSignal.Reader.ReadSignal` | src/grt/ghwlib.c:863-934 | for every well-formed bounded type tree: the slots are filled from the first on, each exactly once, in the order of the stream, consuming exactly as many numbers as get_nbr_elements says; or reading fails, which RefusedIff says when, and other slots are untouched |
| `GhwSignal.Reader.ReadArray` | src/grt/ghwlib.c:882-894 | element after element |
| `GhwSignal.Reader.ReadRecord` | src/grt/ghwlib.c:895-927 | field after field |
| `GhwSignal.FirstUse` | src/grt/ghwlib.c:880-881 | a signal that has a type keeps it, another gets the type of the scalar it is first used for, and one that is not used gets none |
| `GhwSignal.Counts` | src/grt/ghwlib.c:454-482 | a well-formed bounded type has exactly as many scalars as get_nbr_elements says, and an unbounded one counts -1 |
| `GhwSignal.ReadArraySubtype` | src/grt/ghwlib.c:511-531 | an array subtype has the lengths of the ranges in the stream, in order, and is well-formed unless a length is negative |
| `GhwSignal.ReadRecordSubtype` | src/grt/ghwlib.c:533-592 | bounded elements stay, every other gets the bounds the stream holds for it, in order; the result is well-formed and bounded unless a length is negative |
| `GhwSignal.IdsSplit` | src/grt/ghwlib.c:869-881 | the numbers of a composite are those of its parts, one after the other |
| `GhwBounds.LengthIs` | src/grt/ghwlib.c:483-509 | the length of a range is the number of its indices, and negative only if it has none |
| `GhwBounds.IndicesAre` | src/grt/ghwlib.c:483-509 | which are the numbers between its bounds, in either direction |
| `GhwBounds.ArrayCounts` | src/grt/ghwlib.c:511-531 | an array subtype has the scalars of its element type once for every tuple of indices |
| `GhwBounds.RangeReads` | src/grt/grt-waves.adb:1238-1276 | a range is read back as it was written: kind, direction and both bounds |
| `GhwBounds.RangesRead` | src/grt/grt-waves.adb:1278-1289 | the ranges of an array are, dimension after dimension |
| `GhwBounds.ElementReads` | src/grt/grt-waves.adb:1291-1309 | the bounds written for the unbounded elements of a record, nested ones included, are given to exactly these by the reader |
| `GhwBounds.WriteRange` | src/grt/grt-waves.adb:1238-1276 | the bytes of a range |
| `GhwBounds.WriteArrayBounds` | src/grt/grt-waves.adb:1278-1289 | the bytes of the ranges of an array |
| `GhwBounds.WriteRecordBounds` | src/grt/grt-waves.adb:1291-1309 | the bytes of the bounds of a record |

## Left out

- zlib, stdio, memory mapping, temporary files and repacking on close: byte sequences and a pair of functions stand for them. The frame and the time list are compressed by zlib in the file; the model has them uncompressed.
- File headers, the hierarchy, geometry and blackout blocks, VCD text output, real-number formatting and the dump-size limit of FST files.
- The parallel writer, which `src/grt/fst/config.h` does not enable.
- FstAtTime.Lookups.Lookup: the choice of the section a time lies in, and reloading when a lookup leaves the loaded section; the time is not before the start of the loaded one.
- Handles created after a section began (`frame_maxhandle`, `vc_maxhandle` smaller than the number of handles).
- The older section types without repeated aliases.
- FstSession.Session: the sections are read as soon as they are written, in one traversal; the frame values that a traversal delivers before its first section, when that begins earlier than its first change, and time limits set on the reader.
- FST_REMOVE_DUPLICATE_VC, which is a build option.
- FstWriter.FlushHandle: the table word and the last value are results instead of being written over the offset in `valpos_mem` and into `curval_mem`; values are kept per handle instead of at byte positions of one buffer.
- FstJenkins.Table.Insert: nodes are named by addresses in one store instead of pointers, and the bucket is the hash modulo the number of buckets, which is the mask for the powers of two the writer uses.
- FstMerge.Traversal.Run: the arrays of the scheduler are sequences that its methods reassign, so that aliasing of arrays is not captured; the choice of callbacks is not modelled.
- FstVarint.GetSVarint64: asks for at most ten bytes; with more the source shifts past the width of the variable, which C leaves undefined.
- FstTables.LoadIndex: asks for at least one chunk, as every section that is written has one.
- FstSection.ReadChunk: asks for five bytes after the chunk, which the index length that follows every index provides.
- Lz4Compress.Compress: output limits, dictionaries, streaming, pointer-sized table cells and the obsolete entry points. The hash is any function of the position, the table starts empty, and the buffer has the advertised bound.
- Lz4Decompress.Decompress: asks that the first token and its length byte can be read, since the decoder reads them unchecked. A zero offset, which the format forbids, copies bytes that were never written; only bounds are proved for it.
- FastLzCompress.CompressLevel: the hash is any function of the position; after a match that ends near the end of the input it is taken of bytes past the end.
- FastLzDecompress.DecompressLevel: asks that no operation announces input past the end, which the decoder reads unchecked.
- NumericDiv.Divmod: the report on a division by zero; the remainder is not stated for it.
- Vectors of `std_logic`: meta-value warnings and the tables of `build_1164.py`; comparisons, shifts, conversions and operations with an integer operand.
- The full adder of the emitted bodies is declared in a file that is not part of this model; it is taken as xor and majority.
- GHW strings, type sections and known types, the names and scopes of the hierarchy, printing, decompression by other programs, and the numeric value of f64 signals, which are kept as bytes.
- GhwDump.DumpDesign: what the file holds before the numbers, between those of two signals, and between the hierarchy and the snapshot is any bytes, which the reader is told to skip; the walk over a declared signal's scalars is the list of their basic signals.
- GhwWaves.Waves.WriteDirectory: the places of sections are written modulo 2^32; what the conversion does with a place from 2^31 on is not modelled. There is at most one snapshot, and the stream never fails.
- GhwStream.Handler.PullAll: asks that the stream does not make the reader abort or leave its signal table, and that numbers fit their variables; these states are one result, `Wild`, of the functions.
- GhwSignal.Reader.ReadSignal: null ranges with a negative length, arrays whose elements are unbounded, 32-bit overflow of the scalar counts, and numbers of more than five bytes.
- GhwSignal.ReadArraySubtype: a range that cannot be read ends the reading; the source goes on through a null pointer.
- GhwBounds.WriteRange: ranges of physical, 64-bit and floating-point types, whose length the reader cannot tell.
