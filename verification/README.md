# Verified model of the kyanos event pipeline

Kyanos rebuilds application messages from kernel, system-call and TLS events. This
project models the parts where that can go wrong and proves what they keep, for all
inputs and over whole runs.

| file | what it models |
|---|---|
| `Words.dfy` | bytes, 32- and 64-bit words with their wrap-around, optional values |
| `Reassembly.dfy` | the reassembly buffer as a value: chunks, timestamp index, the step each operation takes |
| `ReassemblyMerge.dfy` | one merge: coverage, bytes kept, when chunks stay separated, uniqueness of the separated list |
| `ReassemblyEviction.dfy` | front eviction: exactly how much goes, when its arithmetic wraps, when its clean-up is safe |
| `ReassemblyRuns.dfy` | prefix removal and whole runs: soundness, refinement, order |
| `ReassemblyAdd.dfy` | what each branch of Add does to the bytes and the index, and RemovePrefix to the index |
| `ReassemblyFailures.dfy` | runs with a contained segment, after which order and eviction go wrong |
| `ReassemblyOrder.dfy` | independence of arrival order; the size of the timestamp index |
| `TimestampIndex.dfy` | floor lookup and ascending scans of the timestamp index |
| `StreamBuffer.dfy` | the `Buffer` and `StreamBuffer` objects, proved to take those steps in place |
| `ParseLoop.dfy` | the parse loop over two `StreamBuffer` objects, with an abstract parser and clock |
| `RingBuffer.dfy` | the circular array, proved to be a bounded sequence |
| `RingTable.dfy` | several rings in one map that share no object |
| `KernIndex.dfy` | the per-step event index: insertion, watermark discard, range queries, runs |
| `KernIndexTimes.dfy` | when an interface time is the minimum ever reported |
| `KernIndexEvents.dfy` | what stored events hold, and that a report is found by later queries |
| `KernEventStream.dfy` | the stream object over ring objects, proved to keep that index |
| `Numbering.dfy` | the BPF maps and counters that number bytes, updated by the probes |
| `NumberingSystem.dfy` | the machine around the probes: sockets, calls, segments, clean-up |
| `NumberingTally.dfy` | what every run of that machine keeps: counters, names of calls, where entries come from |
| `NumberingRuns.dfy` | numbering agreement over runs, and exactly which steps keep it |
| `NumberingFailures.dfy` | runs that end with a connection numbered wrong |
| `SyscallEvents.dfy` | events of vectored calls and of whole runs of calls |
| `TlsNesting.dfy` | system calls nested in SSL calls |
| `TlsEvents.dfy` | SSL event lists and the kernel range covering several events |
| `TlsRuns.dfy` | runs of SSL calls: their events come in order, so a message has a hull |
| `Matching.dfy` | request/response matching by timestamp |
| `Sampling.dfy` | running top-k sampling |
| `Percentile.dfy` | the bucketed percentile estimate |
| `ConnReuse.dfy` | connection history of a reused descriptor |

`dafny verify dfyconfig.toml` checks everything.

## How to read it

Objects that change in place are classes. Each method's contract equates the new state
with a function of the old one, and the laws are lemmas about those functions: over every
list, every segment and every run of operations. Main results:

- `ReassemblyOrder.OrderIndependence`, `ReassemblyRuns.AddRefines`: for segments that do not
  end inside a chunk or past the next one, the buffer is a position-to-byte map, whatever the
  order of arrival. `ReassemblyRuns.ReassemblySound`, `ReassemblyRuns.AddCovers`: for any
  segments, what is stored is what was sent, and nothing is lost but by eviction.
- `NumberingRuns.NumberingAgreement`, `NumberingRuns.SameByteSameNumber`: a byte has one
  number, whether seen in a system call or in a TCP segment, across wrap-around;
  `NumberingRuns.RunExact`: exactly the runs in which that is so.
- `TlsNesting.NestingExact`, `TlsRuns.EventsInOrder`, `TlsRuns.MessageHull`: which kernel bytes
  an SSL message covers.
- `KernIndexProofs.RunGood`, `KernIndexTimes.EverReported`,
  `KernIndexEvents.QueryFinds`, `KernIndexProofs.DiscardQueryExact`,
  `KernEventStreams.KernEventStream.AddKernEvent`: the event index, on ring objects, what a
  query finds and what a discard can change.
- `Matching.MatchingExact`, `Sampling.FoldIsTop`, `Percentile.EstimateAccurate`,
  `ConnReuse.RunHistory`, `ConnReuse.LookupLatest`, `ParseLoop.Connection.ParseStreamBuffer`.

### The numbering machine

A run interleaves sockets being opened by the kernel, `connect` and `accept`, the peer's SYN,
data calls, segments entering a device, `close`, the destruction of sockets and user-space
clean-up, on any number of descriptors; both ends of a connection may be on the host. Sockets
and segments have addresses: a probe takes its key from the socket, a segment from its own
header. The
proof remembers, for every entry of `sock_xmit_map`, the byte of the present stream it was
made from, or that it survives from an earlier socket, and for every connection the bytes
moved before it was traced. The guards of a run speak of nothing else: what a step writes or
leaves in place was made from the byte where each connection that uses it starts counting
(`Placed`), and neither an entry that `connect` or `accept` leaves in place nor a segment that
makes one comes from an earlier socket (`NoSurvivor`).
That the entries then hold the right numbers is proved, not assumed. Counters and names of
calls are right in every run, guarded or not (`NumberingRuns.RunSane`).

## What the code does not do

Where a natural claim is false of the code, the model follows the code and the exact
condition is proved:

- Chunks stay disjoint after a merge if and only if the segment does not end inside its
  left neighbour or past the end of its right one (`ReassemblyMerge.MergeSeparated`).
- Chunks can lose their order by left boundary (`ReassemblyFailures.OrderLostWithoutAdmissibility`).
  Removing a prefix keeps it if and only if the chunk it cuts does not then start after the
  next one (`ReassemblyRuns.RemovedSorted`); over runs this is the only way to lose it
  (`ReassemblyRuns.RunSorted`).
- On chunks out of order the eviction loop's unsigned difference can wrap, chunks are dropped
  although everything fits, and the clean-up drops the index entry of the chunk that is left
  (`ReassemblyFailures.EvictionWrapRun`). It wraps if and only if a chunk starts past the end of
  the last one and the span fits from none before it (`ReassemblyEviction.EvictionWrapExact`); the
  clean-up is safe if and only if the last chunk dropped starts no later than any that stays
  (`ReassemblyEviction.EvictionCleanup`). What is left fits the capacity in any case
  (`ReassemblyRuns.AddBounded`).
- The timestamp index is meant to be bounded (agent/buffer/stream_buffer.go:15-16), but the
  branch that starts a new list stores without cleaning: the bound is kept by an Add exactly
  when that branch does not meet a full index (`ReassemblyOrder.IndexBound`), and over runs
  there is no bound (`ReassemblyOrder.IndexUnbounded`).
- A device event's interface time is not always the minimum ever reported. One discard forgets
  an earlier time if and only if the watermark is above the event and not above every event
  (`KernIndexTimes.DiscardForgetsTimes`); over a run everything reported counts if and only if
  no discard dropped the position and no report of it met a full ring
  (`KernIndexTimes.EverReported`).
- A watermark above every stored event discards nothing, because the ring refuses an index
  equal to its size (`KernIndexProofs.DiscardExact`).
- `tcp_destroy_sock` removes the entry of the sending direction only, `close` removes none, and a
  non-blocking `connect` reads a zero `copied_seq` and overwrites nothing. So a socket connecting
  between endpoints used before takes the old connection's reverse entry for its own, and what
  it reads is numbered right if and only if the peer happens to choose the number in it
  (`NumberingFailures.SurvivorRun`, `NumberingRuns.SynAckExact`, `NumberingRuns.StartExact`).
- An entry that user space removed while the connection lives is made again from whatever
  segment enters a device next, and is right if and only if that segment starts at the first
  byte counted (`NumberingFailures.RecreatedRun`, `NumberingRuns.DevInExact`).
- Both ends of one connection share their entries: opening or discovering the second end keeps
  the first right if and only if the entries rewritten take the same byte for the first
  (`NumberingRuns.SharedEntries`).
- The mismatch flag of nested system calls is never read, so bytes moved on another descriptor
  or in the other direction shift the reported range (`TlsNesting.NestingExact`).
- Dropping a stuck head makes progress only if the head holds a byte
  (`ParseLoop.RemoveHeadProgress`); the parse loop relies on chunks never being empty.

## Model

| member | source | states |
|---|---|---|
| `Words.SignedDistance` | agent/buffer/stream_buffer.go:174-185 | comparing positions through a signed conversion of their unsigned difference gives the true difference, in either order |
| `ReassemblyMerge.FusedByte` | agent/buffer/stream_buffer.go:284-312 | extent of a fused chunk, and for every position which of the neighbours or the segment its byte comes from |
| `ReassemblyMerge.MergeCovers` | agent/buffer/stream_buffer.go:192-220 | for any list and segment, a merge covers exactly the old positions plus the segment's |
| `ReassemblyMerge.MergeSorted` | agent/buffer/stream_buffer.go:192-220 | every merge keeps chunks ordered by left boundary, overlaps included |
| `ReassemblyMerge.MergeSeparated` | agent/buffer/stream_buffer.go:192-220 | separation survives a merge if and only if the segment is admissible |
| `ReassemblyMerge.MergeByte` | agent/buffer/stream_buffer.go:192-220 | first write wins: each position keeps its byte, and takes the segment's where it had none |
| `ReassemblyMerge.SeparatedUnique` | agent/buffer/stream_buffer.go:192-220 | a separated list is determined by its position-to-byte view: it is the maximal runs of that view |
| `ReassemblyRuns.RouteByDistance` | agent/buffer/stream_buffer.go:167-190 | which branch Add takes, in true distances to the first and last stored position |
| `ReassemblyEviction.EvictedExact` | agent/buffer/stream_buffer.go:102-107 | on chunks in any order, exactly the chunks before the first one from which the span fits are evicted |
| `ReassemblyEviction.EvictionBound` | agent/buffer/stream_buffer.go:102-107 | what eviction leaves, on chunks in any order, spans no more than the capacity without unsigned wrap |
| `ReassemblyEviction.EvictionWrapExact` | agent/buffer/stream_buffer.go:102-107 | some subtraction of the loop wraps if and only if a chunk starts past the end of the last one and the span fits from no chunk before it |
| `ReassemblyEviction.SortedNeverWraps` | agent/buffer/stream_buffer.go:102-107 | on ordered chunks no subtraction of the loop wraps |
| `ReassemblyEviction.EvictionCleanup` | agent/buffer/stream_buffer.go:108-126 | whatever the index holds, the entries dropped with evicted chunks lie strictly below every remaining chunk if and only if the last chunk dropped starts no later than any that stays |
| `ReassemblyRuns.AddBounded` | agent/buffer/stream_buffer.go:221-222 | after every merge-path Add, on chunks in any order, the stored span fits the capacity or nothing is stored |
| `ReassemblyRuns.AddRefines` | agent/buffer/stream_buffer.go:192-222 | an admissible merge-path Add keeps chunks separated and makes the byte map the segment's overridden by the old one, less what was evicted |
| `ReassemblyRuns.AddCovers` | agent/buffer/stream_buffer.go:192-222 | on the merge path covered positions become the old ones plus the segment, less evicted chunks, whatever overlaps |
| `ReassemblyRuns.AddedKeeps` | agent/buffer/stream_buffer.go:157-228 | every Add keeps order, range and non-emptiness |
| `ReassemblyAdd.AddRestarts` | agent/buffer/stream_buffer.go:174-190 | a new position 2^31 - 1 or more before the end, or 2^20 or more past it, leaves exactly the segment's bytes and its one index entry |
| `ReassemblyAdd.AddDrops` | agent/buffer/stream_buffer.go:158-184 | a position already indexed, or 2^20 or more before the start, changes neither bytes nor index |
| `ReassemblyAdd.AddFirst` | agent/buffer/stream_buffer.go:163-173 | the first segment is stored as it is, beside what the index still holds |
| `ReassemblyAdd.AddStores` | agent/buffer/stream_buffer.go:157-228 | every position of a segment that is neither refused nor too old is stored afterwards, unless evicted |
| `ReassemblyAdd.RunStores` | agent/buffer/stream_buffer.go:157-228 | so it is after every run, for every capacity |
| `ReassemblyAdd.SpanIsHull` | agent/buffer/stream_buffer.go:49-63 | on separated chunks the first and last position are those of the stored bytes |
| `ReassemblyAdd.AddIndex` | agent/buffer/stream_buffer.go:221-225 | which entries a merge-path Add leaves in the index, with which times |
| `ReassemblyAdd.CleanOldExact` | agent/buffer/stream_buffer.go:130-147 | past 100000 entries exactly the lower half goes, the rest keeps its times |
| `ReassemblyAdd.RemovedIndex` | agent/buffer/stream_buffer.go:71-101 | RemovePrefix keeps exactly the entries below the start of no chunk that goes as a whole |
| `ReassemblyRuns.RemovedDrops` | agent/buffer/stream_buffer.go:71-86 | RemovePrefix(n) drops exactly the first n stored bytes |
| `ReassemblyRuns.RemovedKeeps` | agent/buffer/stream_buffer.go:71-86 | RemovePrefix keeps range, non-emptiness and separation, and keeps the order by left boundary if and only if the chunk it cuts stays before the next one |
| `ReassemblyRuns.CutIndexSums` | agent/buffer/stream_buffer.go:71-86 | the chunk that is cut, in prefix sums of the stored lengths |
| `ReassemblyRuns.RemovedSorted` | agent/buffer/stream_buffer.go:71-86 | order by left boundary survives RemovePrefix(n) if and only if the chunk byte n lies in, once cut, does not start after the next one |
| `ReassemblyRuns.RunSorted` | agent/buffer/stream_buffer.go:67-86 | in every run, whatever overlaps, chunks are always ordered if and only if every removal meets that condition |
| `ReassemblyRuns.ReassemblySound` | agent/buffer/stream_buffer.go:67-86 | in every run of Add, RemovePrefix and Clear every chunk stays a slice of the byte stream the segments came from |
| `ReassemblyRuns.RunSeparated` | agent/buffer/stream_buffer.go:157-228 | runs whose merges are admissible keep chunks non-empty, ordered and separated |
| `ReassemblyFailures.OrderLostWithoutAdmissibility` | agent/buffer/stream_buffer.go:71-86 | a three-step run with a contained segment leaves chunks out of order |
| `ReassemblyFailures.EvictionWrapRun` | agent/buffer/stream_buffer.go:102-126 | one more segment after it: the eviction wraps, drops chunks that fit, and cleans the entry of the chunk that is left |
| `ReassemblyOrder.OrderIndependence` | agent/buffer/stream_buffer.go:157-228 | disjoint segments in one window give the same chunks in every arrival order: the maximal runs of their union |
| `ReassemblyOrder.IndexBound` | agent/buffer/stream_buffer.go:130-147 | Add keeps the index within its limit if and only if it does not start a new list on a full index |
| `ReassemblyOrder.IndexUnbounded` | agent/buffer/stream_buffer.go:93-101 | for every n a run leaves n index entries with no byte stored |
| `TimestampIndex.Floor` | agent/buffer/stream_buffer.go:149-155 | the greatest key not above the target, or none |
| `TimestampIndex.KeysBelow` | agent/buffer/stream_buffer.go:112-122 | the ascending scan collects exactly the keys below the target |
| `TimestampIndex.FirstKeys` | agent/buffer/stream_buffer.go:135-143 | the ascending scan collects exactly the n smallest keys |
| `StreamBuffers.Buffer.FuseAsLeft` | agent/buffer/stream_buffer.go:284-296 | in-place fuse to the right, panic branch unreachable when CanFuseAsLeft holds |
| `StreamBuffers.Buffer.FuseAsRight` | agent/buffer/stream_buffer.go:298-312 | in-place fuse to the left, panic branch unreachable when CanFuseAsRight holds |
| `StreamBuffers.Buffer.RemovePrefix` | agent/buffer/stream_buffer.go:314-323 | drops a proper prefix, does nothing for the whole length |
| `StreamBuffers.StreamBuffer.constructor` | agent/buffer/stream_buffer.go:24-35 | starts empty |
| `StreamBuffers.StreamBuffer.Clear` | agent/buffer/stream_buffer.go:67-70 | empties chunks and index |
| `StreamBuffers.StreamBuffer.FindTimestampBySeq` | agent/buffer/stream_buffer.go:149-155 | the timestamp at the floor of the position, or not found |
| `StreamBuffers.StreamBuffer.CleanTimestampMapBySeqNoMoreThan` | agent/buffer/stream_buffer.go:112-126 | removes exactly the entries below the target |
| `StreamBuffers.StreamBuffer.CleanOldTimestamps` | agent/buffer/stream_buffer.go:130-147 | past the limit, removes exactly the lower half of the entries |
| `StreamBuffers.StreamBuffer.ShrinkHeadBuffer` | agent/buffer/stream_buffer.go:93-101 | drops the head chunk and the entries below it, or does nothing on an empty buffer |
| `StreamBuffers.StreamBuffer.RemovePrefix` | agent/buffer/stream_buffer.go:71-86 | the in-place loop leaves the state that lacks exactly the first bytes |
| `StreamBuffers.StreamBuffer.RemoveHead` | agent/buffer/stream_buffer.go:87-89 | removes as many bytes as the head holds |
| `StreamBuffers.StreamBuffer.ShrinkBufferUntilSizeBelowCapacity` | agent/buffer/stream_buffer.go:102-111 | drops exactly the chunks eviction must drop and cleans the index below the last of them |
| `StreamBuffers.StreamBuffer.FindLeftBufferBySeq` | agent/buffer/stream_buffer.go:234-243 | the last buffer before the first one starting after the position |
| `StreamBuffers.StreamBuffer.FindRightBufferBySeq` | agent/buffer/stream_buffer.go:245-253 | the first buffer starting after the position |
| `StreamBuffers.StreamBuffer.MergeIn` | agent/buffer/stream_buffer.go:192-220 | the case split over both neighbours computes the merge; the branch without neighbours is unreachable |
| `StreamBuffers.StreamBuffer.AddOnMergePath` | agent/buffer/stream_buffer.go:192-225 | merge, timestamp, eviction and clean-up in order |
| `StreamBuffers.StreamBuffer.Add` | agent/buffer/stream_buffer.go:157-228 | the whole new state on every branch; only the segment after a large gap; and false exactly for a position already indexed |
| `ParseLoop.RemoveHeadProgress` | agent/buffer/stream_buffer.go:87-89 | removing the head makes progress if and only if it holds a byte |
| `ParseLoop.Connection.ProgressIsStucked` | agent/conn/conntrack.go:714-728 | stuck exactly if the clock of the direction had been started and the head is overdue or has no timestamp |
| `ParseLoop.Connection.CheckProgress` | agent/conn/conntrack.go:729-743 | drops exactly the head chunk, exactly if the clock had been started and the head is overdue or has no timestamp |
| `ParseLoop.OverdueExact` | agent/conn/conntrack.go:714-743 | overdue is a head whose indexed time is more than the allowed whole milliseconds ago, or unknown |
| `ParseLoop.EnqueueByStream` | agent/conn/conntrack.go:625-632 | every stream's queue grows by exactly its own messages, in order |
| `ParseLoop.Connection.OnSuccess` | agent/conn/conntrack.go:605-635 | a parse that reveals the role forgets all data and sets the role; otherwise the bytes read go and the messages of the expected kind are queued |
| `ParseLoop.Connection.OnInvalid` | agent/conn/conntrack.go:636-671 | how many bytes go and whether the loop stops: to the next boundary; else nothing if not stuck; else all but the latest event of the head; else the whole head if still stuck |
| `ParseLoop.Connection.ParseOnce` | agent/conn/conntrack.go:602-688 | one turn, settled by the parser's answer for what is stored: role, bytes removed, messages queued, stopping and clock, for each of the four parse states |
| `ParseLoop.Connection.ParseAll` | agent/conn/conntrack.go:601-689 | the loop terminates for every clock; its turns parse what the turns before left, their messages are queued in order, and it ends with a role discovery, a turn that stops, or an empty buffer |
| `ParseLoop.TurnsText` | agent/conn/conntrack.go:601-689 | after the turns exactly the sum of their bytes is gone from the front of the text |
| `ParseLoop.Connection.ParseStreamBuffer` | agent/conn/conntrack.go:579-697 | on the two buffer objects: what precedes the first boundary goes, the turns of the loop take it from there, the other direction is untouched, and the progress time is set exactly if the buffer is empty or starts elsewhere |
| `RingBuffers.SlotIsMod` | common/ringbuffer.go:85-103 | the modular cell computation stays inside the array |
| `RingBuffers.RingBuffer.constructor` | common/ringbuffer.go:19-24 | starts empty |
| `RingBuffers.RingBuffer.Write` | common/ringbuffer.go:27-37 | appends, or reports full and changes nothing |
| `RingBuffers.RingBuffer.Read` | common/ringbuffer.go:40-49 | pops the front, or reports empty and changes nothing |
| `RingBuffers.RingBuffer.Peek` | common/ringbuffer.go:73-78 | the front, or empty |
| `RingBuffers.RingBuffer.ReadIndex` | common/ringbuffer.go:81-87 | the element at an index, or out of range |
| `RingBuffers.RingBuffer.Insert` | common/ringbuffer.go:90-113 | inserts at an index through the shifting loop, or reports the error and changes nothing |
| `RingBuffers.RingBuffer.BinarySearch` | common/ringbuffer.go:117-136 | on ordered contents, the match or the unique insertion point |
| `RingBuffers.RingBuffer.Clear` | common/ringbuffer.go:144-149 | empties the ring |
| `RingBuffers.RingBuffer.DiscardBeforeIndex` | common/ringbuffer.go:166-181 | drops exactly the elements before the index; an index at or past the size changes nothing |
| `KernIndexProofs.InsertedSorted` | agent/conn/kern_event_handler.go:94-150 | insertion keeps positions strictly increasing, lengths positive and the count bounded |
| `KernIndexProofs.RunGood` | agent/conn/kern_event_handler.go:90-153 | in every run of reports and marks the index invariant holds and watermarks never go back |
| `KernIndexProofs.NoteLeast` | agent/conn/kern_event_handler.go:319-330 | noting a time keeps the minimum per interface |
| `KernIndexProofs.RunLeastTimes` | agent/conn/kern_event_handler.go:132-144 | in every run a stored device event keeps per interface the least time reported since it was last inserted |
| `KernIndexTimes.DiscardForgetsTimes` | agent/conn/kern_event_handler.go:263-280 | an earlier time survives the discard before a report if and only if the watermark does not reach the event or lies above every event |
| `KernIndexTimes.EverReported` | agent/conn/kern_event_handler.go:90-153 | over every run, the log a stored event keeps the minimum of is that of all reports of its position if and only if no discard dropped it and no report of it was refused |
| `KernIndexTimes.LeastEver` | agent/conn/kern_event_handler.go:319-330 | in such a run every interface time kept is the minimum ever reported |
| `KernIndexEvents.RunAsReported` | agent/conn/kern_event_handler.go:94-150 | in every run each stored event has the position, length, time, delta and step of the report that inserted it, whatever is reported later |
| `KernIndexEvents.QueryFinds` | agent/conn/kern_event_handler.go:90-211 | after the first report of a position every overlapping query finds an event with its position, length and time, for as long as no discard drops it |
| `KernIndexEvents.FilterExact` | agent/conn/kern_event_handler.go:187-211 | a query returns exactly the stored events that overlap the range |
| `KernIndexEvents.OverlapsShares` | agent/conn/kern_event_handler.go:199-204 | overlap is a shared position |
| `KernIndexEvents.AcceptedExact` | agent/conn/kern_event_handler.go:103-150 | what the answer means: a new position stored, a device time taken over, or a stored event that started later |
| `KernIndexEvents.MarkCutsOneSide` | agent/conn/kern_event_handler.go:213-218 | a mark of one direction cuts only the rings of that direction, at the higher of its marks |
| `KernIndexEvents.AboveMarkStays` | agent/conn/kern_event_handler.go:263-280 | an event not below the mark of its direction is not dropped |
| `KernIndexProofs.DiscardExact` | agent/conn/kern_event_handler.go:263-280 | a discard keeps everything at or above the watermark, and the rest exactly when nothing is at or above it |
| `KernIndexProofs.DiscardQueryExact` | agent/conn/kern_event_handler.go:263-280 | a query answers as before the discard if and only if no dropped event overlaps its range |
| `KernIndexProofs.DiscardKeepsQueries` | agent/conn/kern_event_handler.go:263-280 | if no event straddles the watermark, every query from it on answers as before |
| `KernIndexProofs.MatchesIsOverlap` | agent/conn/kern_event_handler.go:199-204 | on positive lengths the three-way test is overlap |
| `KernIndexProofs.MatchesEmptyRange` | agent/conn/kern_event_handler.go:199-204 | on an empty range the test also takes an event that ends at the position |
| `KernEventStreams.Search` | agent/conn/kern_event_handler.go:100-102 | the ring's binary search finds the lower bound of a position |
| `KernEventStreams.DiscardRing` | agent/conn/kern_event_handler.go:271-278 | one ring is cut at the watermark |
| `KernEventStreams.Revisit` | agent/conn/kern_event_handler.go:106-144 | a report of a stored position changes at most the interface time |
| `KernEventStreams.AddToRing` | agent/conn/kern_event_handler.go:99-150 | a report changes the ring as the index says; an accepted new one is stored with its position, length, time, delta and step |
| `KernEventStreams.FindInRing` | agent/conn/kern_event_handler.go:187-211 | the early-exit scan returns exactly, in order, the events overlapping the range |
| `KernEventStreams.KernEventStream.MarkNeedDiscardSeq` | agent/conn/kern_event_handler.go:213-219 | a watermark only rises |
| `KernEventStreams.DiscardEventsBySeq` | agent/conn/kern_event_handler.go:263-280 | the ring objects of one direction are cut at the watermark, the others are untouched |
| `RingTables.EnsureRing` | agent/conn/kern_event_handler.go:95-97 | a step gets a fresh ring on its first event, and the other rings stay as they are |
| `KernEventStreams.KernEventStream.DiscardEventsIfNeeded` | agent/conn/kern_event_handler.go:239-246 | the rings of both directions are cut at their watermarks, zero meaning none |
| `KernEventStreams.KernEventStream.AddKernEvent` | agent/conn/kern_event_handler.go:90-153 | what all ring objects hold afterwards, the answer, and that an accepted new report is stored as it was made |
| `KernEventStreams.KernEventStream.FindEventsBySeqAndLen` | agent/conn/kern_event_handler.go:187-211 | exactly, in order, the events of the step that overlap the range, none for an unknown step |
| `Numbering.Tracer.SubmitNewConn` | bpf/pktlatency.bpf.c:1002-1015 | zero counters and both entries one below the kernel's numbers, unless those read zero |
| `Numbering.Tracer.CreateConnInfoInDataSyscall` | bpf/pktlatency.bpf.c:1103-1122 | both entries, discounting the bytes of the call in progress |
| `Numbering.Tracer.ProcessSyscallData` | bpf/pktlatency.bpf.c:1236-1325 | the number reported for a call and the counting of its bytes |
| `Numbering.Tracer.ProcessSyscallClose` | bpf/pktlatency.bpf.c:1019-1035 | the counters go, the entries stay |
| `Numbering.Tracer.TcpDestroySock` | bpf/pktlatency.bpf.c:703-711 | only the entry of the sending direction goes |
| `Numbering.Tracer.OnClose` | agent/conn/conntrack.go:315-333 | user space drops the entries of both directions |
| `Numbering.Tracer.ParseSkb` | bpf/pktlatency.bpf.c:474-506 | the key is that of the segment's header; relative number of a segment; DEV_IN creates a missing entry and never overwrites one |
| `NumberingTally.CallNamed` | bpf/pktlatency.bpf.c:1206 | the kernel's next number less the number the next call reports is the number just before the first byte counted, across both word sizes |
| `NumberingTally.SocketEntry` | bpf/pktlatency.bpf.c:489-506 | after every step an open socket's entry was written for its own stream as the number before the byte named, or is as before, or is gone |
| `NumberingTally.SaneStep` | bpf/pktlatency.bpf.c:948-1325 | every step keeps counters, names of calls and the origin of entries right, whatever the guards |
| `NumberingTally.DiscoveryWrites` | bpf/pktlatency.bpf.c:1108-1121 | entries made in the middle of a stream are the numbers just before the next bytes, the call in progress discounted |
| `NumberingRuns.AgreesExact` | bpf/pktlatency.bpf.c:1276-1280 | entry + 1 + bytes counted is the kernel's next number modulo 2^32 if and only if the entry is the number just before the first byte counted |
| `NumberingRuns.StartExact` | bpf/pktlatency.bpf.c:1002-1015 | a direction of a connection just opened or discovered, connecting sockets included, is numbered right if and only if an entry left in place was made from its next byte, or survives by luck |
| `NumberingRuns.SegmentFindsEntry` | bpf/pktlatency.bpf.c:309-312 | a segment between the two addresses, in either direction, finds under the key of its header the entry the connection's own probe wrote |
| `NumberingRuns.SynAckExact` | bpf/pktlatency.bpf.c:1050-1062 | when a connecting socket takes the peer's SYN, what it reads is numbered right if and only if no entry survives under its reversed key, or by luck, and none was made from later data |
| `NumberingRuns.DevInExact` | bpf/pktlatency.bpf.c:489-506 | a segment keeps a direction right if and only if its entry exists or the segment starts at the first byte counted |
| `NumberingRuns.StepExact` | bpf/pktlatency.bpf.c:948-1325 | a step keeps every live connection right if and only if what it writes or leaves in place was made from the right byte, or survives by luck |
| `NumberingRuns.RunExact` | bpf/pktlatency.bpf.c:948-1325 | exactly the runs in which no connection is ever numbered wrong |
| `NumberingRuns.NumberingAgreement` | bpf/pktlatency.bpf.c:1004-1014 | in every run whose steps write and leave entries made from the right byte, and none from an earlier socket, a live connection's entry + 1 + bytes counted is the kernel's next number modulo 2^32 |
| `NumberingRuns.SameByteSameNumber` | bpf/pktlatency.bpf.c:210-213 | in every such run, a segment between the connection's addresses carrying a byte of a counted call is reported under the number the call gave that byte, also when sent again |
| `NumberingRuns.SharedEntries` | bpf/pktlatency.bpf.c:1002-1122 | opening or discovering the other end of a traced connection keeps a direction right if and only if its entry is left alone or takes the same byte for the first |
| `NumberingFailures.SurvivorRun` | bpf/pktlatency.bpf.c:703-711 | a run of accept, close, destroy, connect and SYN after which reads are numbered right if and only if the peer chose the number that survives |
| `NumberingFailures.RecreatedRun` | agent/conn/conntrack.go:315-333 | a run of accept, user-space clean-up and one segment that ends right if and only if the segment starts at the first byte counted |
| `SyscallEvents.VecEventsTile` | bpf/data_common.h:251-267 | for any iovec lengths the events cut the whole call into consecutive non-empty pieces, at most four |
| `SyscallEvents.VecEventsExact` | bpf/data_common.h:251-267 | each of the first three iovecs has an event for exactly the bytes of the call that lie in it, with its data; whatever lies past them has one event without data |
| `SyscallEvents.ReportPieces` | bpf/data_common.h:252-263 | the loop emits one event per non-empty piece and tracks the 32-bit position and the bytes covered |
| `SyscallEvents.ReportVecs` | bpf/data_common.h:251-267 | loop and rest together emit exactly those events for any loop limit |
| `SyscallEvents.ReportSyscallEvtVecs` | bpf/data_common.h:251-267 | with the limit of three iovecs |
| `SyscallEvents.TilesPartition` | bpf/data_common.h:251-267 | every position of a call lies in exactly one of its events |
| `SyscallEvents.RunTiles` | bpf/pktlatency.bpf.c:1206-1232 | over a run of data calls of any length, vectored or not, the events of a direction tile everything it moved, modulo 2^32, if each call is reported |
| `SyscallEvents.RunIncreasing` | bpf/pktlatency.bpf.c:1206-1232 | over a run of data calls of fewer than 2^32 bytes all reported ranges of a direction are disjoint and increasing, reported in full or not |
| `TlsNesting.SslTracer.SyscallExit` | bpf/pktlatency.bpf.c:1351-1363 | sums the lengths, adopts a first descriptor, and counts the bytes, making the connection known if need be |
| `TlsNesting.SslTracer.SslReturn` | bpf/openssl.h:197-216 | the range reported, if any, and the end of the record |
| `TlsNesting.SslTracer.SslCall` | bpf/openssl.h:171-216 | entry, nested calls and return together: the descriptor it works on, when a range is reported, and that it is the bytes moved on the call's own connection and direction if and only if nothing was moved elsewhere |
| `TlsNesting.NestingExact` | bpf/data_common.h:337-340 | for the descriptor shown or the one adopted from the first nested call, the reported range is that of the bytes moved on the call's own connection and direction if and only if nothing was moved elsewhere |
| `TlsNesting.NestingUnion` | bpf/data_common.h:337-340 | then the nested calls' own ranges tile the reported one |
| `TlsNesting.NestingTooLong` | bpf/data_common.h:340 | nested calls of 2^31 bytes or more leave no range |
| `TlsNesting.MismatchExact` | bpf/pktlatency.bpf.c:1353-1357 | the mismatch flag is raised exactly when a nested call was on another descriptor |
| `TlsEvents.BinarySearch` | agent/conn/kern_event_handler.go:57-59 | the lower bound and whether the position is present |
| `TlsEvents.SslEventList.AddSslEvent` | agent/conn/kern_event_handler.go:41-85 | discard, sorted insertion without duplicates, and trimming to the latest events |
| `TlsEvents.SslEventList.FindSslEventsBySeqAndLen` | agent/conn/kern_event_handler.go:155-185 | the early-exit scan returns exactly the events positioned in the range |
| `TlsEvents.SslEventList.DiscardSslEventsIfNeeded` | agent/conn/kern_event_handler.go:227-262 | everything below the watermark goes |
| `TlsEvents.SslEventList.MarkNeedDiscardSslSeq` | agent/conn/kern_event_handler.go:220-226 | the watermark only rises |
| `TlsEvents.InsertedSorted` | agent/conn/kern_event_handler.go:57-79 | the list stays strictly increasing and bounded |
| `TlsEvents.InsertedExact` | agent/conn/kern_event_handler.go:57-79 | a known position changes nothing; with room the new event joins; without room exactly the one with the least position goes |
| `TlsEvents.DiscardExact` | agent/conn/kern_event_handler.go:247-262 | exactly the events at or above the watermark stay |
| `TlsEvents.WithinExact` | agent/conn/kern_event_handler.go:155-185 | a query returns exactly the events positioned in the range |
| `TlsEvents.GetKernSeqAndLen` | agent/analysis/stat.go:67-93 | from the first located event's start to the last one's end, or zero |
| `TlsEvents.KernHull` | agent/analysis/stat.go:67-93 | on ordered events that range is the smallest one containing all of theirs |
| `TlsRuns.EventIs` | bpf/data_common.h:337-340 | one well-nested call's event: the SSL counter's position, the bytes returned, and the kernel range from the counter before to the counter after |
| `TlsRuns.EventsInOrder` | bpf/data_common.h:337-340 | over every run of SSL calls below 2^32 bytes whose nested calls stay on the connection and direction, its events increase by position and each kernel range ends before the next starts |
| `TlsRuns.MessageHull` | agent/analysis/stat.go:67-93 | after every such run, for the events of any message, first start to last end is the smallest range containing all of theirs |
| `Matching.MatchByTimestamp` | agent/protocol/common.go:7-37 | the two-queue loop computes the merge, drains the responses, and does nothing if either queue is empty |
| `Matching.MatchingExact` | agent/protocol/common.go:14-36 | on time-sorted queues each response gets the last request at or after the previous response and strictly before it, and exactly the requests not earlier than the last response stay |
| `Matching.LastInIs` | agent/protocol/common.go:14-36 | the request a response gets is in the span, and no later one of the queue is |
| `Matching.MatchedEarlier` | agent/protocol/common.go:14-36 | on any queues every record's request is earlier than its response |
| `Matching.RequestsOnce` | agent/protocol/common.go:14-36 | no request is used twice, or both used and left |
| `Matching.ResponsesOnce` | agent/protocol/common.go:14-36 | no response is used twice |
| `Sampling.AddToSamples` | agent/analysis/analysis.go:96-113 | insertion, early return and trimming, on records and on their metrics |
| `Sampling.SampledRecords` | agent/analysis/analysis.go:96-113 | kept records and the at most one dropped are the old samples and the new one |
| `Sampling.KeptIsTop` | agent/analysis/analysis.go:96-113 | one more value keeps the top k |
| `Sampling.FoldIsTop` | agent/analysis/analysis.go:76-82 | for any limit, zero included, and any values the samples are sorted and hold the min(k, n) largest |
| `Sampling.TopUnique` | agent/analysis/analysis.go:96-113 | the k largest values are unique as a sorted list |
| `Percentile.FindBucket` | agent/analysis/percentile.go:36-44 | the one bucket whose boundaries enclose the value |
| `Percentile.OneBucket` | agent/analysis/percentile.go:36-44 | a value has only one bucket |
| `Percentile.PercentileCalculator.AddValue` | agent/analysis/percentile.go:25-33 | the cumulative counts match the values added, in every bucket and in total |
| `Percentile.PercentileCalculator.CalculatePercentile` | agent/analysis/percentile.go:47-75 | the result lies in the bucket of the exact order statistic; zero without data or above the scale; no division by zero |
| `Percentile.OrderStatistic` | agent/analysis/percentile.go:53-54 | every rank from 1 to n has a value |
| `Percentile.EstimateAccurate` | agent/analysis/percentile.go:47-75 | the estimate shares the bucket of the exact ceil(line * n)-th smallest value, and is within a factor of two of it in (1, 4096] |
| `Percentile.EstimateLinear` | agent/analysis/percentile.go:65-70 | inside a bucket equal steps in rank are equal steps in value, and its last rank gives its upper boundary |
| `Percentile.EstimateTop` | agent/analysis/percentile.go:60-63 | above the scale the answer is twice its top |
| `Percentile.TargetIsCeil` | agent/analysis/percentile.go:54 | the target is the least whole number not below line * n |
| `Percentile.PercentileMonotone` | agent/analysis/percentile.go:47-75 | two answers on the same data never fall as the line rises |
| `Percentile.EstimateMonotone` | agent/analysis/percentile.go:56-72 | a higher target never gives a lower estimate |
| `Percentile.TargetMonotone` | agent/analysis/percentile.go:54 | a higher line never gives a lower target |
| `ConnReuse.ThroughLastClosed` | agent/conn/conntrack.go:175-187 | the one point of a history with a closed connection just before it and none after |
| `ConnReuse.DropThroughLastClosed` | agent/conn/conntrack.go:175-189 | the backward scan computes that suffix |
| `ConnReuse.ConnManager.AddConnection4` | agent/conn/conntrack.go:166-221 | the new entry of the descriptor; a replaced connection is the last of the history; no other descriptor is touched |
| `ConnReuse.ReplacementExact` | agent/conn/conntrack.go:169-205 | the replaced connection becomes the last of the history and hands its waiting events on; an earlier one stays exactly when neither it nor a later one is closed |
| `ConnReuse.OtherArrivals` | agent/conn/conntrack.go:206-219 | the same address changes nothing, a first connection has no history |
| `ConnReuse.RunHistory` | agent/conn/conntrack.go:166-221 | over every run the history is the part of the log of all connections just before the current one, what is missing ends with a closed connection, and no waiting event is lost |
| `ConnReuse.ConnManager.LookupConnection4ByTimestamp` | agent/conn/conntrack.go:236-254 | the backward scan computes the lookup |
| `ConnReuse.RunOrdered` | agent/conn/conntrack.go:166-221 | in every run with increasing start times the history is ordered, earlier than the current connection, and flat |
| `ConnReuse.LookupLatest` | agent/conn/conntrack.go:236-254 | after every such run the lookup gives the current connection if it started strictly before, else the latest-started retained one whose lifetime contains the time, else none |
| `ConnReuse.LookupAnswers` | agent/conn/conntrack.go:236-254 | a time within the lifetime of a retained connection, not after the current start, is answered |
| `ConnReuse.LookupAlive` | agent/conn/conntrack.go:286-297 | an answer from the history was alive at that time |
| `ConnReuse.LookupReplaced` | agent/conn/conntrack.go:236-254 | the connection just replaced answers for the times of its life |

## Left out

- Words: positions of the reassembly buffer stay below 2^63; its callers pass 32-bit sequence numbers, so no 64-bit sum wraps.
- StreamBuffers.StreamBuffer.Add: byte slices are values, so a Go `append` that writes into a caller's backing array is not modelled.
- KernEventStreams.Revisit: an event's attribute map is a value of the stored event, so copies returned by earlier queries do not see later times.
- RingBuffers.RingBuffer.constructor: a ring of size zero is excluded, and so is a stream with rings of size zero; the source divides by zero on the first write.
- ParseLoop.Connection.ParseStreamBuffer: the parser is any pair of functions of what is stored that consumes between one byte and everything stored, and the clock is any function.
- NumberingRuns.NumberingAgreement: one descriptor per socket, and two open sockets never have the same key.
- Numbering.Tracer.SubmitNewConn: address filters, protocol inference and the key-to-connection map are one boolean, whether the connection is traced.
- Numbering.Tracer.ProcessSyscallData: calls are counted in full; sendmmsg and recvmmsg, which count only their first message, are not modelled, nor are two calls of one direction in flight at once.
- TlsNesting.SslTracer.SslReturn: the protocol and trace-state tests before the report are one boolean; other threads moving bytes on the same connection during the call are not modelled.
- Percentile.PercentileCalculator.CalculatePercentile: floats are reals, and a line of zero or less, which can divide zero by zero, is not asked for.
- ConnReuse.ConnManager.AddConnection4: connections are values; the shared socket-key map and the counters of added and closed connections are not modelled.
- Sampling.AddToSamples: metrics are reals, so not-a-number is not modelled.
- The remaining counters and maps of the aggregator, the classifiers, rendering, the command line, container metadata, BPF loading and event readers, packet-header parsing, NAT translation, protocol inference and the concrete protocol parsers: they would only add easy members or need foreign code.
- Locks and goroutines: every method is one atomic step.
