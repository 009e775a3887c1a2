# Protocol8 engine: a verified model

Protocol8 is a telemetry engine. Every thread has writers that serialize log and span records into fixed-size buffers
from a shared pool; one worker collects the buffers into timestamped batches and feeds a sink; descriptors travel ahead
of the data in a service stream. This project models that engine in Dafny and proves what its parts promise together:

- what a decoder gets when it joins a writer's buffers, wherever buffer ends, pulls and rolled-back records fell;
- what every interleaving of producers, exiting threads, registrations and the worker keeps: order, wholeness, the
  timestamp promise of batches, exact drop accounting, descriptors before data;
- what the buffer pool keeps: arrival order, no lost wake-up, safe teardown, one place per buffer, the budget;
- the rank of all locks, the span stack, the format parser and the service stream.

## Layout

| file | what |
|---|---|
| `Bytes.dfy`, `Utf8.dfy` | little-endian integers; cutting a string on a UTF-8 boundary |
| `Wire.dfy` | log and trace records, their encoding and the stream decoder; which attributes are sent |
| `Fragments.dfy` | buffer views, the rule by which bytes go on in the next buffer, the shape of a writer's buffers |
| `TlsWriter.dfy` | raw buffer headers; the writer class with its byte arrays, fragmenting writes and rollback |
| `FormatParser.dfy` | the printf-style format parser |
| `Service.dfy`, `ServiceBuffers.dfy` | service entries and their decoder; the class that packs them into buffers |
| `Spans.dfy` | open-span stack and span identifiers: the class, and all threads together |
| `WriterRegistry.dfy` | the doubly linked list of live writers |
| `Collection.dfy` | the collection protocol as a state machine |
| `WriterRuns.dfy` | whole runs of one writer object |
| `Refinement.dfy` | the writer class takes the steps the protocol gives a writer |
| `CollectionOrder.dfy`, `CollectionTime.dfy`, `CollectionDrops.dfy`, `CollectionDescs.dfy`, `CollectionDecode.dfy` | what every run of it keeps |
| `SinkBytes.dfy` | from the bytes of the service buffers to what a decoder must know |
| `BufferPool.dfy` | the pool class with its linked queue of waiters, proved against `PoolSpec` |
| `PoolProtocol.dfy`, `PoolOwnership.dfy` | threads around the pool, interleaved; where every buffer is |
| `Budget.dfy` | the memory budget under concurrent reservations |
| `Locks.dfy` | the lock paths of every entry point, their order, and why a parked producer never blocks the worker |

## Conventions of the model

- The host is 64-bit and little-endian and not Windows: fixed arguments take 8 bytes, a long double 16.
- `cp8_log` and `cp8_trc` are one class here, `TlsWriter`: both drive the same inherited buffer state. A writer is given
  the packet type; a log writer calls `SendLog`, a trace writer `WriteBegin` and `WriteEnd`.
- The buffer size is any multiple of 8 from 88 to 65535 (8192 in the code).
- A recycled buffer is a new array with arbitrary contents. Which acquisitions succeed is left open in the writer;
  the pool decides it in its own model.
- Fields of a record header that the code stores early and again later are stored once in `FirstHead` and patched at the
  end; what lies in the structure's two spare bytes and in the padding is arbitrary, as in the code.
- The attribute registry only grows, may be ahead of the writer's cache, and does not change during one send.
- Clocks are monotonic. Counters of buffers, waiters and drops do not wrap; buffer numbers, batch numbers, identifiers,
  the round-robin cursor and the budget are modular where the code's are.
- Locks and atomics are sequentially consistent. A send is one step of the collection protocol because the writer's lock
  is held from the clock read to the commit; the wait for the first buffer comes before that and is open to the worker.
- Looking up the core and adding a reference to it is one step; the core is deleted when all writers have let go.
- Hashes stand for what they are computed from.
- A decoder knows the attribute types from the registry: the code may drop attribute entries of the service stream. What
  it must know of logs and spans it reads from the stream.
- Code and documentation disagree in one place this model touches: log arguments may overflow the 16-bit size fields.
  The model follows the code; `BoundedStream` says exactly when the result can be decoded, in terms of the arguments a
  caller passes, and `LongestLogIsLost` shows a log that cannot. Trace records always fit.

## Model

| member | source | states |
|---|---|---|
| `Utf8.CutUtf8` | engine/p8_core.hpp:50-57 | the loop stops at the greatest position not above the limit that is no continuation byte |
| `Utf8.PrefixBoundary` | engine/p8_core.hpp:48-57 | a proper prefix of well-formed UTF-8 is well-formed exactly when it does not end before a continuation byte |
| `Utf8.CutIsLongest` | engine/p8_core.hpp:48-57 | the cut of well-formed UTF-8 (sections 3 and 4 of RFC 3629) is its longest well-formed prefix within the limit |
| `Wire.ArgsRoundTrip` | engine/p8_log.cpp:483-577 | serialized arguments decode to themselves when read with their kinds |
| `Wire.SentArg` | engine/p8_log.cpp:483-575 | a string argument is sent whole up to 65535 bytes, else its first 65535; any other argument is sent as it is |
| `Wire.AttrsRoundTrip` | engine/p8_tls_writer.cpp:170-263 | serialized attributes decode to themselves, whatever follows them |
| `Wire.SizeField` | engine/p8_log.cpp:592-600 | the stored record size is the padded size modulo 2^16 |
| `Wire.RecordRoundTrip` | api/p8_protocol.h:222-288 | a record that fits says its own length and decodes to itself, whatever its padding holds |
| `Wire.RecordSound` | api/p8_protocol.h:222-288 | no decoded record is longer than the bytes it was decoded from |
| `Wire.StreamRoundTrip` | engine/p8_log.cpp:483-600 | records one after the other decode to exactly those records if and only if each of them fits the 16-bit size |
| `Wire.LongestLogIsLost` | engine/p8_log.cpp:577-600 | a log with one 65535-byte string is accepted and cannot be decoded |
| `Wire.HeadPatched` | engine/p8_trc.cpp:203-235 | the header completed at the end is the header written at once |
| `Wire.Plan` | engine/p8_tls_writer.cpp:170-263 | the attributes sent are at most 255, of registered types, and never take a record past 65528 bytes |
| `Wire.PlanIsCallers` | engine/p8_tls_writer.cpp:178-226 | the attributes sent are the caller's at strictly increasing places: same identifier, same number, the whole string or as much of it as the room left takes (its longest well-formed prefix); one is passed over only if it is unregistered, 255 are there, or fewer than 6 (text) or 12 (number) bytes are left of 65528 |
| `Wire.LogFits` | engine/p8_tls_writer.hpp:10-11 | a log fits exactly when its structure and arguments do: attributes never push it over |
| `Wire.TraceFits` | engine/p8_tls_writer.hpp:10-11 | a span record always fits |
| `Wire.PlanBounded` | engine/p8_tls_writer.cpp:170-263 | the attributes a writer chooses never take a record over the limit, and a log already over it gets none |
| `Wire.BoundedStream` | engine/p8_log.cpp:483-600 | a writer's records decode to exactly themselves if and only if every log has 40 + argument bytes within 65528; span records always do |
| `Wire.PrefixDecodes` | engine/p8_log.cpp:483-600 | how far a stream with an oversize log can be read: the first n records decode if and only if none of them is one |
| `Fragments.JoinExtend` | engine/p8_tls_writer.cpp:77-110 | the joined payload grows by exactly the bytes written, wherever the buffers end |
| `Fragments.ExtendExtend` | engine/p8_tls_writer.hpp:111-127 | two pieces leave the buffers that one write of both would leave |
| `Fragments.ExtendPatch` | engine/p8_log.cpp:577-600 | overwriting bytes of an earlier buffer after a write gives what the write gives after overwriting |
| `Fragments.CompleteHeader` | engine/p8_log.cpp:592-600 | a header completed after its record was written leaves the buffers of a record written complete |
| `Fragments.ShapeCommit` | engine/p8_log.cpp:592-616 | one more record keeps: FRAGMENT exactly on buffers followed by one that starts mid-record, those full; each record 8-aligned with its fixed header in one buffer |
| `Fragments.CommitBlock` | engine/p8_log.cpp:592-616 | ... and the joined payload stays the records one after the other |
| `Fragments.BuffersAligned` | engine/p8_log.cpp:592-593 | every buffer starts at a multiple of 8 of the joined payload |
| `Fragments.PadFits` | engine/p8_trc.cpp:226-237 | the padding of a record fits the buffer its last byte went to |
| `RawBuffers.SealRotates` | engine/p8_tls_writer.cpp:42-74 | sealing a full buffer and taking a fresh one is one rotation of the views; both headers read as packet type, thread, writer and the next number in turn |
| `RawBuffers.StampedReads` | api/p8_protocol.h:196-205 | bytes 0, 4, 8 and 12 of a buffer of a writer read as packet type, thread, writer and the count of buffers taken before it modulo 2^32 |
| `RawBuffers.CutBack` | engine/p8_log.cpp:632-648 | cutting a buffer where a record began restores its flag and size and keeps its earlier payload |
| `TlsWriter.TlsWriter.constructor` | engine/p8_tls_writer.cpp:11-24 | a new writer has its configuration and buffer source, no buffer, an empty attribute cache, no drops, and has sent nothing |
| `TlsWriter.TlsWriter.RotateFragmentBuffer` | engine/p8_tls_writer.cpp:42-74 | the views are rotated, or the full buffer is parked and there is no current one; bytes of before the record are untouched |
| `TlsWriter.TlsWriter.CopyFragmented` | engine/p8_tls_writer.cpp:77-110 | the buffers are extended by exactly the bytes given, or the copy fails with no current buffer |
| `TlsWriter.TlsWriter.WritePiece` | engine/p8_tls_writer.hpp:111-127 | a piece that fits and one that does not extend the buffers alike |
| `TlsWriter.TlsWriter.SerializeAttrs` | engine/p8_tls_writer.cpp:170-263 | the loop writes exactly the planned attributes and reports their count and bytes |
| `TlsWriter.TlsWriter.SyncAttrCache` | engine/p8_core.cpp:739-756 | the cache equals the registry afterwards |
| `TlsWriter.TlsWriter.FitAttr` | engine/p8_tls_writer.cpp:178-226 | what of an attribute fits the room left is the plan's choice, which `Wire.PlanIsCallers` says is the caller's |
| `TlsWriter.TlsWriter.WriteArgs` | engine/p8_log.cpp:483-575 | the buffers are extended by the arguments, strings cut to 65535 bytes, and their size is reported |
| `TlsWriter.TlsWriter.Pull` | engine/p8_tls_writer.cpp:139-156 | every held buffer goes out in order, each with its own number in its header bytes; what a reader of all buffers sees does not change, and nothing is held after |
| `TlsWriter.TlsWriter.CorePush` | engine/p8_tls_writer.cpp:113-136 | the same on exit, as one chain |
| `TlsWriter.TlsWriter.EnsureBuffer` | engine/p8_trc.cpp:106-142 | a current buffer with room for the record, kept exactly if it has the room needed, else fresh, with the worker free to pull meanwhile; it fails exactly when a buffer was asked for and there was none, and then the views are unchanged |
| `TlsWriter.TlsWriter.Discard` | engine/p8_log.cpp:620-648 | the buffers taken only for the record are given back, and the first one is as it was, with its number, flag and size |
| `TlsWriter.TlsWriter.PatchFirst` | engine/p8_log.cpp:592-600 | completing the header changes exactly those bytes, whether its buffer is current or parked |
| `TlsWriter.TlsWriter.WriteRecord` | engine/p8_log.cpp:460-652 | a record goes in whole, encoding exactly its arguments and planned attributes, or, exactly when a buffer was asked for and there was none, leaves the buffers of before it |
| `TlsWriter.TlsWriter.SendLog` | engine/p8_log.cpp:355-652 | success appends one record to what a decoder sees; a send fails exactly if its level is too low, its descriptor is unknown or a buffer was asked for and there was none, and then changes nothing a decoder sees and counts one drop, unless the level was too low |
| `TlsWriter.TlsWriter.WriteBegin` | engine/p8_trc.cpp:145-270 | the same for the begin of a span: it fails exactly without a descriptor or without a buffer |
| `TlsWriter.TlsWriter.WriteEnd` | engine/p8_trc.cpp:273-293 | the same for the end of a span: it fails exactly without a buffer |
| `TlsWriter.TlsWriter.DecodesToSent` | engine/p8_tls_writer.cpp:42-110 | joining all buffers a writer ever took, delivered, parked and current, decodes to exactly the records it sent, in order, if and only if every log has 40 + argument bytes within 65528; for a trace writer always |
| `TlsWriter.TlsWriter.DecodesPrefix` | engine/p8_tls_writer.cpp:42-110 | the first n records of a writer decode if and only if none of them is an oversize log |
| `WriterRuns.RunCalls` | engine/p8_log.cpp:355-652 | every run of sends, span ends, attribute registrations, pulls and exits on a new writer: it sent the records of the calls that succeeded, in call order, counted the others, refused calls that may succeed exactly as often as a buffer was asked for and there was none, and its buffers decode to exactly what it sent under the same condition |
| `WriterRuns.Perform` | engine/p8_trc.cpp:145-293 | one call sends its record or counts one drop of its kind, and keeps the writer ready for the next |
| `Refinement.NewWriter` | engine/p8_tls_writer.cpp:11-24 | a new object shows the writer that a registration adds to the collection protocol |
| `Refinement.LogSend` | engine/p8_log.cpp:355-652 | a call of the writer object is exactly one send or one drop of the collection protocol, after at most one pull by the worker; with a known descriptor it is a drop only without a buffer |
| `Refinement.SpanBegin` | engine/p8_trc.cpp:145-270 | the same for the begin of a span |
| `Refinement.SpanEnd` | engine/p8_trc.cpp:273-293 | the same for the end of a span |
| `Refinement.WorkerPull` | engine/p8_tls_writer.cpp:139-156 | the call is the worker's PullOne: the batch gains exactly the buffers of the arrays handed over, with their payload, flag, writer and number |
| `Refinement.ExitPush` | engine/p8_tls_writer.cpp:113-136 | the call is the Push of a leaving writer: the ready queue gains exactly the buffers of the chain |
| `Refinement.HeldCarries` | engine/p8_tls_writer.cpp:59-72 | the arrays a writer holds are the buffers the protocol's writer holds, and their header bytes read as packet type, thread, writer and the place of the buffer |
| `CollectionOrder.SendKeepsWriter` | engine/p8_log.cpp:420-618 | a send keeps a writer's buffers shaped and every record filed in the buffer it starts in |
| `CollectionOrder.StepKeeps` | engine/p8_core.cpp:487-570 | every step of every thread keeps the buffers of each writer in order and whole |
| `CollectionOrder.SinkInOrder` | engine/p8_core.cpp:1197-1237 | over all batches a writer's buffers are its first ones, numbered 0, 1, 2, ... without gap or swap |
| `CollectionOrder.SinkWhole` | engine/p8_tls_writer.cpp:113-156 | in every batch the fragments of a record follow each other; batches are numbered modulo 65536 |
| `CollectionOrder.CutIsClean` | engine/p8_tls_writer.cpp:139-156 | a cut behind a buffer without FRAGMENT is a cut between records |
| `CollectionOrder.SinkDecodes` | engine/p8_core.cpp:1220-1302 | at every moment what the sink has of a writer decodes to its first records, whole and in order, if and only if every log among them has arguments within the limit; spans always |
| `CollectionTime.SendSince` | engine/p8_log.cpp:463-470 | what a writer holds gets no older by a send |
| `CollectionTime.OutsideHoldsNothing` | engine/p8_tls_writer.cpp:27-39 | in every run a writer outside the registry holds nothing, so the worker's round misses no buffer |
| `CollectionTime.BatchPromise` | engine/p8_core.cpp:1220-1302 | packet timestamps never decrease, and every record in a batch after a packet is at or after that packet's timestamp |
| `CollectionTime.BatchPromiseAhead` | api/p8_protocol.h:187-195 | the same for every record that has not reached the sink yet |
| `CollectionTime.PacketStamp` | engine/p8_core.cpp:1220-1302 | in every run each packet at the sink was written by a flush with all the worker had collected, and its timestamp is the clock at the wake-up of that cycle less the margin, or 0 while the clock has not passed the margin |
| `CollectionTime.FlushDecides` | engine/p8_core.cpp:1278-1302 | in every run a flush writes a packet exactly when the batch has data or the stamp is the tail interval (last packet with data) or the idle interval (without) after the last packet; the worker stops exactly after the cycle it was woken up for to stop |
| `CollectionDrops.DropsConserved` | engine/p8_core.cpp:1240-1264 | drops in totals, in the poll, in leaving threads' hands and in counters always add up to the records not sent |
| `CollectionDrops.PollEmpties` | engine/p8_core.cpp:1240-1264 | in every run, when the polled drops are added to the totals, each writer registered when the poll began has at most the drops in its counter that came since |
| `CollectionDrops.EveryRecordAccounted` | engine/p8_core.cpp:463-579 | after the worker's last cycle each record that was tried is at the sink exactly once or in the totals exactly once |
| `CollectionDescs.ServeKeeps` | engine/p8_core.cpp:1674-1785 | every step of a resolver keeps: published means written, nothing written twice, strings before their descriptor |
| `CollectionDescs.DescriptorBeforeData` | engine/p8_core.cpp:523-566 | every record at the sink, and every record about to be flushed, has its descriptor at the sink already |
| `CollectionDescs.StreamWellFormed` | engine/p8_core.cpp:1610-1785 | the service stream at the sink names no descriptor and no string twice, and span descriptors come behind their strings |
| `CollectionDescs.PublishedStays` | engine/p8_core.cpp:1729-1732 | in every run a descriptor that was published is known, with its argument kinds, from then on |
| `CollectionDecode.SinkExplainsItself` | engine/p8_core.cpp:523-566 | at every moment the argument kinds in the service stream at the sink are enough to decode every record there: exactly the first records of each writer, if and only if the arguments of every log fit, spans always |
| `CollectionDecode.KindsFound` | engine/p8_core.cpp:1447-1510 | a descriptor in the stream is what a decoder finds under its hash |
| `SinkBytes.SinkBytesDecode` | engine/p8_core.cpp:523-566 | at every moment the bytes of the service buffers and of a writer's data buffers at the sink are enough: walking and decoding the first gives the kinds with which the second decode to exactly its first records, under the same condition |
| `SinkBytes.StreamReads` | engine/p8_core.cpp:1382-1671 | service buffers, read one after the other, give exactly the entries written into them |
| `SinkBytes.FormatKinds` | engine/p8_core.cpp:1704-1716 | the descriptor of a format says exactly the kinds of its arguments |
| `SinkBytes.WriteEntryStep` | engine/p8_core.cpp:1402-1671 | an entry appended to the service list is the resolver's step of the collection protocol |
| `SinkBytes.DrainStep` | engine/p8_core.cpp:526-531 | draining the service list is the worker's step |
| `WriterRegistry.Registry.Register` | engine/p8_core.cpp:606-618 | the writer gets the next number, unlike all others while the numbers have not wrapped, and is linked in front |
| `WriterRegistry.Registry.Unregister` | engine/p8_core.cpp:621-639 | exactly that writer is unlinked, the others keep their order; while the numbers have not wrapped this is the removal the collection protocol uses |
| `WriterRegistry.Registry.Visit` | engine/p8_core.cpp:1208-1213 | the walk visits every writer once, newest first |
| `WriterRegistry.UnlinkIsWithout` | engine/p8_core.cpp:621-639 | unlinking is the removal the collection protocol uses |
| `PoolSpec.RecycleAllFifo` | engine/p8_buffer_pool.cpp:268-295 | recycled buffers go to the waiters in arrival order; only what is left over becomes free, and then nobody waits |
| `BufferPool.BufferPool.Init` | engine/p8_buffer_pool.cpp:48-83 | exactly the buffers obtained before the first refusal are added |
| `BufferPool.BufferPool.AcquireNoLock` | engine/p8_buffer_pool.cpp:91-116 | the oldest free buffer, else a new one, else none |
| `BufferPool.BufferPool.EnterWait` | engine/p8_buffer_pool.cpp:135-168 | a buffer, a refusal after shutdown, or a place at the end of the queue with the next shard |
| `BufferPool.BufferPool.TryHandoff` | engine/p8_buffer_pool.cpp:194-215 | the oldest waiter gets the buffer and its own shard is returned; links, ends and count stay in step |
| `BufferPool.BufferPool.RecycleOne` | engine/p8_buffer_pool.cpp:247-265 | one buffer goes to the oldest waiter or to the free list; null is ignored |
| `BufferPool.BufferPool.RecycleBatch` | engine/p8_buffer_pool.cpp:268-295 | a batch is the same as its buffers one by one |
| `BufferPool.BufferPool.StopWaiters` | engine/p8_buffer_pool.cpp:218-244 | every waiter is marked done without a buffer, the queue is empty and nobody parks again |
| `PoolProtocol.StepKeepsWaiters` | engine/p8_buffer_pool.cpp:135-295 | every step keeps queue, nodes, notifications owed, in-flight count and arrival order in step |
| `PoolProtocol.HandoffThreads` | engine/p8_buffer_pool.cpp:194-262 | a hand-off marks one waiter done and leaves its shard to be notified |
| `PoolOwnership.MoveKeeps` | engine/p8_core.cpp:1126-1237 | moving buffers between hands, writers, queues and batch loses and copies none |
| `PoolOwnership.OnePlace` | engine/p8_buffer_pool.cpp:91-295 | in every reachable state each allocated buffer is in exactly one place |
| `PoolOwnership.NoLostWakeup` | engine/p8_buffer_pool.cpp:164-191 | a waiter marked done is awake, or its shard is still to be notified; while the mutex is free it can go on |
| `PoolOwnership.FifoHandOff` | engine/p8_buffer_pool.cpp:141-215 | the k-th hand-off went to the k-th arrival, and while somebody waits a later caller gets no recycled buffer |
| `PoolOwnership.SafeTeardown` | engine/p8_buffer_pool.cpp:17-45 | after stopping the queue stays empty; the in-flight count is the waiters not yet gone; past the barrier there are none |
| `Budget.BudgetSafe` | engine/p8_memory_budget.cpp:10-35 | the counter equals all pools' bytes plus reservations in progress, stays under the cap, and no step wraps |
| `Budget.AttemptExact` | engine/p8_memory_budget.cpp:10-29 | in every run a reservation is refused exactly when its bytes would pass the cap at the value the thread read last, made exactly when they fit and the counter still has that value, and tried again otherwise |
| `Budget.ClearKeeps` | engine/p8_buffer_pool.cpp:36-45 | the bytes a destroyed pool gives back are its exact product |
| `Locks.CodeFits` | engine/p8_core.cpp:1343-1408 | on every path of every entry point a lock is taken above all held ones, the last taken is given back first, and the wait for a buffer comes with at most a descriptor mutex below the pool's |
| `Locks.ReturnsClean` | engine/p8_core.cpp:1674-1785 | every path ends with all locks given back |
| `Locks.TakesGoUp` | engine/p8_core.hpp:318-341 | in every run a thread that reaches for a lock holds only locks of lower rank |
| `Locks.ParkedHoldsLittle` | engine/p8_log.cpp:400-440 | in every run a thread parked for a buffer holds nothing but possibly one descriptor mutex, and it is never the worker |
| `Locks.NoDeadlock` | engine/p8_core.hpp:318-341 | no chain of waiting threads visits a thread twice |
| `Locks.WorkerNeverBlocked` | engine/p8_core.cpp:1683-1720 | in every run no thread the worker waits for, directly or through others, is parked for a buffer |
| `Locks.SomeoneRuns` | engine/p8_trc.cpp:116-121 | at the end of a longest chain from the worker there is a thread that can go on |
| `FormatParser.FindPrefix` | engine/p8_log.cpp:55-69 | the first entry of the table that matches, or none |
| `FormatParser.FirstIsLongest` | engine/p8_log.cpp:37-52 | the order of the table makes the first match the longest |
| `FormatParser.TakeTurn` | engine/p8_log.cpp:86-340 | one turn of the loop is one step of the parser's state machine, look-ahead included |
| `FormatParser.ParseFormat` | engine/p8_log.cpp:72-346 | for every format and limit the array gets the first arguments of the unlimited parse and nothing else |
| `FormatParser.IntegerConversion` | engine/p8_log.cpp:132-207 | for every flags, prefix and integer letter: the code and size of the argument, and an INT32 for each asterisk before it |
| `FormatParser.StringConversion` | engine/p8_log.cpp:209-248 | the same for s and S, with the size telling whether a width was given; I64 and I32 say so always, as their last digit is taken for one |
| `FormatParser.RealConversion` | engine/p8_log.cpp:262-289 | the same for floating point, a long double of 16 bytes with L |
| `FormatParser.OtherConversion` | engine/p8_log.cpp:250-328 | the same for characters and pointers |
| `FormatParser.PercentEnds` | engine/p8_log.cpp:329-333 | a second percent sign ends a conversion and takes no argument of its own |
| `FormatParser.TextTakesNothing` | engine/p8_log.cpp:86-98 | text outside conversions takes no argument |
| `FormatParser.ParseJoins` | engine/p8_log.cpp:72-346 | when a format ends outside a conversion, what follows it is parsed as on its own |
| `FormatParser.JoinsExactlyWhenOutside` | engine/p8_log.cpp:72-346 | ... and that condition is exact |
| `FormatParser.ParsedAreKnown` | engine/p8_log.cpp:483-575 | every argument the parser finds is one that send serializes |
| `FormatParser.ParsedArgsRoundTrip` | engine/p8_log.cpp:483-577 | arguments passed as the format asks decode to themselves with the parsed descriptor |
| `ServiceWire.EntryRoundTrip` | engine/p8_core.cpp:1411-1671 | every service entry decodes to its fields, strings cut to 1024 bytes and arguments to 32 |
| `ServiceWire.SentFields` | engine/p8_core.cpp:1411-1671 | what goes into the stream is the caller's entry field by field: each string whole up to 1024 bytes, else its longest well-formed prefix, and the first 32 arguments |
| `ServiceWire.WalkVisits` | engine/p8_core.cpp:1382-1408 | walking by the size field visits exactly the entries written, in order |
| `ServiceBuffers.CutStr` | engine/p8_core.cpp:1332-1340 | the service string limit, on a UTF-8 boundary |
| `ServiceBuffers.ServiceBuffers.MakeRoom` | engine/p8_core.cpp:1343-1400 | a last buffer with room, the same one if it had the room; it fails exactly for an entry no buffer can hold, or when a buffer was asked for and there was none, which counts one drop; entries written by others meanwhile stay |
| `ServiceBuffers.ServiceBuffers.Append` | engine/p8_core.cpp:1402-1407 | one whole entry behind the others |
| `ServiceBuffers.ServiceBuffers.Serialize` | engine/p8_core.cpp:1411-1671 | the entry with its strings cut is last in the stream, behind whatever others wrote meanwhile, or the stream has no trace of it, exactly when it is larger than a buffer or there was none; with room in the last buffer it always goes in |
| `ServiceBuffers.ServiceBuffers.Drain` | engine/p8_core.cpp:526-531 | every buffer taken holds whole entries and nothing else, and reads as exactly those entries, in order, 8-aligned |
| `ServiceBuffers.ServiceBuffers.WalksExactly` | engine/p8_core.cpp:1382-1671 | whatever was registered and drained before, in every service buffer the walk visits exactly its entries, each a multiple of 8 long and within the bytes used, and each decodes to what was sent |
| `Spans.SpanWriter.NewId` | engine/p8_trc.cpp:181-190 | the next identifier of the block, or the first of a new one |
| `Spans.SpanWriter.Begin` | engine/p8_trc.cpp:16-33 | the parent is the innermost open span; only a span that was written is opened; a failed one still uses up its identifier |
| `Spans.SpanWriter.End` | engine/p8_trc.cpp:55-68 | an async or invalid span leaves the stack alone |
| `Spans.SpanWriter.PopSpan` | engine/p8_trc.cpp:71-103 | the loops cut the stack below the span, or leave it alone when the span is not on it |
| `Spans.PopCloses` | engine/p8_trc.cpp:71-103 | popping closes exactly the span and everything opened inside it |
| `Spans.SpanTree` | engine/p8_trc.cpp:16-103 | in every run the stack is increasing, equals the set of open spans, and the parent on record of each open span is the next one further out, or none |
| `Spans.ParentWasInnermost` | engine/p8_trc.cpp:23-30 | in every run the parent on record of a sync span is the span that was the innermost unclosed one of its thread when it began, or 0 |
| `Spans.EndClosesExactly` | engine/p8_trc.cpp:55-103 | in every run an end closes the span and those inside it on its own thread, and nothing else anywhere |
| `Spans.IdsDistinct` | engine/p8_core.cpp:1788-1791 | in every run with the counter below 2^63 all span identifiers are different |
| `Spans.IdsNotZero` | engine/p8_core.hpp:332-333 | ... and none is 0 |
| `Spans.AsyncTells` | engine/p8_trc.cpp:181-190 | in every run a written begin returns one identifier, with bit 63 set exactly for an async span and otherwise the next of the block or of a new one; without a buffer the identifier is used up all the same |
| `Spans.SyncBegin` | engine/p8_trc.cpp:16-33 | a begin call is one Begin step of all threads' machine, with the parent it writes |
| `Spans.AsyncBegin` | engine/p8_trc.cpp:36-52 | an async begin is one Begin step that opens nothing |
| `Spans.EndSpan` | engine/p8_trc.cpp:55-103 | an end call is one End step |

## Left out

- Sinks: the sink is two append-only sequences, service and data; files, write chunks and the hello header are I/O.
- Configuration, size strings, shared-memory publication of the core, byte swapping on big-endian hosts: plumbing.
- Metric samples (`cp8_mtk::emit`): fixed 24-byte records that never fragment, an easy special case of a span end.
- The memory-pressure percentage, the wake debounce and `mu_outstanding_buffers`: hints that carry no invariant.
- Attribute, module and metric registries by name: only the entries they write and the order of their locks are here.
- Verbosity changes: the threshold is an argument of `SendLog`.
- The comment that an empty packet is later than every record sent: the margin does not force it, only the timestamp promise is proved.
- Weak memory: every atomic access is a step in one global order.
- Descriptor and wait paths that only print to the error stream: the messages are not modelled.
- Test-only capture paths and profiling macros.
- `Collection.Act`: the three drop counters of a writer are taken and added as one step, log and span counts apart.
- `BufferPool.BufferPool.EnterWait`: ends where the thread starts to wait; the wait, the wake-up and the in-flight count are in `PoolProtocol`.
- `PoolProtocol.Outside`: a writer's moves of buffers are steps of their own, not tied to the bytes in them.
- Spin-lock and mutex implementations, the event and the thread start: mutual exclusion and a wake or stop signal.
