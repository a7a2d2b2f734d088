# Models and proofs for the concurrency library and its dedup sample

This project models the hardest parts of the C++ concurrency library (`include/`, `src/`) and of
its large C sample, the deduplicating compressor (`samples/dedup/`), and proves what they promise.
`dafny verify dfyconfig.toml` verifies everything.

## What is modelled

Concurrency protocols are transition systems. One step is one atomic access (lock-free queue,
counters) or one stretch of code executed while a mutex is held (buffer queue, barrier, pipeline
queues, dedup stages). Every theorem about them speaks of all runs of any number of threads. Where
the code updates an object, a class with the same fields and branches is proved equal to the
functions the transition system is made of, or to the function whose properties are then proved.

| file | what it is about |
|---|---|
| LockFreeBufferQueue.dfy, LockFreeOutcome.dfy, Ticket.dfy | the bounded multi-producer multi-consumer ring: linearizability, slot states, calls that overlap no other; how the result of every call is decided, in at most six accesses |
| BufferQueue.dfy | the queue with two condition variables: no lost wakeup, first in first out, what every call does before and after close |
| FlexBarrier.dfy, PipelineInstance.dfy | the reusable barrier with drops, and how a pipeline waits for its threads |
| Stages.dfy, Pipeline.dfy, PipelineParallel.dfy | chains of function segments over bounded queues, fused sources, parallel replicas |
| WeakDuplex.dfy, StrongDuplex.dfy, StrongDuplexOutcome.dfy | polling a distributed counter while counting goes on; where counts go when they are drained by exchanges |
| Gf2.dfy, Gf2Polynomials.dfy, PolyWords.dfy, Rabin.dfy | the table-driven rolling hash as arithmetic over GF(2), with any window table, as remainders of polynomials; the segment search |
| Segments.dfy, FileSegments.dfy, Chunking.dfy | segment ends, on sequences and on the bytes of a file; the carry-over of what cannot be cut yet |
| DedupRecords.dfy, DedupCodec.dfy, DedupDecoding.dfy | the file format, the decoder, the round trip; which inputs the decoder accepts, and as what |
| SerialEncoder.dfy | the serial encoder from the file to the output |
| Fragmenting.dfy, DedupParallel.dfy, ParallelEncoder.dfy | the parallel encoder from the file to the output |
| BinHeap.dfy, SearchTree.dfy, ReorderOrder.dfy, Reorder.dfy | the heap, the tree, and the reorder stage as a sort of any arrival order |
| DedupNetwork.dfy, DedupNetworkPaths.dfy, DedupQueue.dfy | shutdown of the five stages, the way of every chunk through them, their queues |
| Hashtable.dfy | the chained hash table: shadowing, rehashing |
| Mbuffer.dfy | reference-counted buffers that are split, cloned, resized and freed |
| Sha1Spec.dfy, Sha1Block.dfy, Sha1Unrolled.dfy, Sha1Stream.dfy, WordArithmetic.dfy, Sha1.dfy, Sha1Abc.dfy | the SHA-1 block functions and the streaming interface against FIPS 180-4 |
| Bytes.dfy, FiniteSets.dfy, MapSums.dfy, Sequences.dfy, Wrappers.dfy | bytes and fixed-width integers, sizes of sets, sums over maps, joined sequences, optional values |

## Assumptions

- Atomics are sequentially consistent, and a compare-exchange fails only when the values differ.
- The 64-bit head and tail of the lock-free queue do not wrap.
- Copying an element does not throw, and allocation succeeds.
- A thread asleep on a condition variable may wake at any time; `notify_one` wakes some sleeper.
- The barrier's completion function never returns 0, and at least one participant remains.
- The digest is injective on the chunks that occur, compression succeeds on them, and with enough
  room decompression inverts it. `size_t` has 64 bits, `int` 32, and its sums wrap around.

## Where the code does not meet what it is for

**Some files cannot be restored.** The decoder uncompresses a gzip or bzip2 chunk into a buffer of
10,000,000 bytes that it never enlarges, and sizes pass through variables of type `int` on the way
into the file and back (`xwrite`, `xread`, `read_chunk`, `uncompress_chunk`).
`DedupCodec.RoundTrip` gives the exact condition: decoding returns the original bytes if and only
if every chunk is shorter than 2^31 bytes, has at most 10,000,000 bytes unless it is stored
uncompressed, and has a compressed size that is positive as an `int`; for any other input the
decoder stops with an error. The search for a segment end sets no upper limit to a chunk:
`Rabin.QuietSeg` gives, for every length, data in which no segment ends.
`SerialEncoder.TenMegabyteFile` is a file of 10,000,001 such bytes that is written in the default
mode and cannot be read back. Without compression it is the writer that fails, exactly for the
chunks that could not be read (`DedupCodec.UncompressedWritten`, `SerialEncoder.TwoGigabyteFile`).
From 2^31 up to 2^32 bytes a buffer looks negative to the search and is not cut, and one of exactly 2^32
bytes looks empty, on which the encoder's assertion fails (`Chunking.FourGigabyteBuffer`,
`Chunking.DecideByLength`). The
documentation mentions none of these limits.

**Some counts are returned twice.** Every count is to be extracted by one and only one exchange
(`include/counter.h:172-176`). But the destructor of a broker of a strong duplex counter loads its
value, adds it to the prime, and only then takes the lock to be erased
(`include/counter.h:568-573`), so an exchange in between drains the same value again. The weak
counter adds under the lock. `StrongDuplex.CountedTwice` is a run with 5 counted and 10 returned.
`StrongDuplex.AllReturned` gives the exact ledger of every run, and `StrongDuplex.ReturnedOnce` the
condition, for counts that are never negative: every count leaves exactly once if and only if no
exchange drains a value other than 0 from a broker between that load and its erasure. A caller who
keeps the destructors of brokers apart from exchanges is safe (`StrongDuplex.ExclusiveReturnedOnce`).

## Model

| member | source | states |
|---|---|---|
| LockFreeBufferQueue.NextInv | include/lock_free_buffer_queue.h:211-326 | every atomic access of every thread keeps head <= tail <= head + cardinality, the meaning of every slot, and what each thread has learnt so far |
| LockFreeBufferQueue.AccessEffect | include/lock_free_buffer_queue.h:211-326 | an operation takes effect at one access: a push at its tail exchange, a pop at its head exchange with the oldest value, "full" and "empty" at the second load, when they are true |
| LockFreeBufferQueue.Refines | include/lock_free_buffer_queue.h:211-326 | every access is a stutter or the atomic effect of its operation on a bounded queue |
| LockFreeBufferQueue.Linearizable | include/lock_free_buffer_queue.h:211-326 | for any number of threads, every run has an atomic run of the same threads on a bounded queue of the same capacity, with the same calls and the same results in the same order |
| LockFreeBufferQueue.ReachableThread | include/lock_free_buffer_queue.h:188-208 | the failed exchanges of clear_value and set_state cannot happen, the k-th pop returns the k-th logged value, no slot is ever found invalid |
| LockFreeBufferQueue.QuiescentSlots | include/lock_free_buffer_queue.h:188-326 | between operations exactly the slots of [head, tail) are valid and hold the queued values, all others wait |
| LockFreeBufferQueue.PushAlone | include/lock_free_buffer_queue.h:277-326 | a push that overlaps nothing reports full exactly when the ring is full, else appends; never busy |
| LockFreeBufferQueue.PopAlone | include/lock_free_buffer_queue.h:211-264 | a pop that overlaps nothing reports empty exactly when the ring is empty, else removes the oldest value; never busy |
| LockFreeBufferQueue.QuiescentCalm | include/lock_free_buffer_queue.h:211-326 | in every run the ring between operations is in the state from which those two start |
| LockFreeBufferQueue.PushInRun | include/lock_free_buffer_queue.h:277-326 | in any run, a push that overlaps no other operation returns full and changes nothing, or appends, decided by the contents |
| LockFreeBufferQueue.PopInRun | include/lock_free_buffer_queue.h:211-264 | in any run, a pop that overlaps no other operation returns empty and changes nothing, or the oldest value |
| LockFreeOutcome.WaitFree | include/lock_free_buffer_queue.h:211-326 | whatever the others do and wherever they have stopped, a call has its result after at most six accesses of its own, and until then its next access is possible |
| LockFreeOutcome.PushDecided | include/lock_free_buffer_queue.h:277-326 | in any run and in terms of the ring at the push's own accesses: full exactly if the head found is the tail found less the cardinality; busy exactly if then the slot is not waiting, or then the tail has moved; else it has appended its value, stored it and made the slot valid |
| LockFreeOutcome.PopDecided | include/lock_free_buffer_queue.h:211-264 | likewise: empty exactly if the tail found is the head found; busy exactly if then the slot is not valid, or then the head has moved; else it returns what is in the slot and makes it waiting |
| LockFreeBufferQueue.LockFreeBufferQueue.constructor | include/lock_free_buffer_queue.h:97-112 | the new queue is empty, every slot waiting |
| LockFreeBufferQueue.LockFreeBufferQueue.NonblockingPush | include/lock_free_buffer_queue.h:277-326 | on the fields: status and contents after a push by the only user |
| LockFreeBufferQueue.LockFreeBufferQueue.NonblockingPop | include/lock_free_buffer_queue.h:211-264 | on the fields: status, value and contents after a pop by the only user |
| BufferQueue.TakeInv | include/buffer_queue.h:88-99 | a pop and its notify_one keep the balance of sleepers, woken threads and free slots |
| BufferQueue.PutInv | include/buffer_queue.h:101-116 | a push and its notify_one keep the balance of sleepers, woken threads and elements |
| BufferQueue.TurnInv | include/buffer_queue.h:255-277 | a turn of either wait loop keeps it, whether the thread proceeds, sleeps or finds the queue closed |
| BufferQueue.NextInv | include/buffer_queue.h:187-364 | so does every step: waits, tries, close and spurious wakeups |
| BufferQueue.NoLostWakeup | include/buffer_queue.h:255-364 | in every run a sleeping consumer means at least as many woken consumers as elements, dually for producers; both kinds never sleep with nobody woken; after close nobody sleeps; values leave in order |
| BufferQueue.PopTurnDecided | include/buffer_queue.h:255-277 | in any run, a turn of wait_pop takes the oldest value; with none left it returns if close has been called before, and else sleeps |
| BufferQueue.PushTurnDecided | include/buffer_queue.h:340-364 | in any run, a turn of wait_push returns without its value if close has been called before; else it puts it in, or sleeps when the queue is full |
| BufferQueue.OtherStepDecided | include/buffer_queue.h:187-305 | tries take and put values exactly when they can, no other step touches any |
| BufferQueue.CountersDecided | include/buffer_queue.h:88-116 | in any run, the counters of waiting threads grow when a thread falls asleep and shrink, while there are any, when a value is put in or taken |
| BufferQueue.AfterClose | include/buffer_queue.h:187-193 | after close, in any run: nobody sleeps, nothing is put in, every thread in a call can take its turn, and that turn is its last |
| BufferQueue.Ring.Close | include/buffer_queue.h:187-193 | on the fields: closed, everybody woken, contents unchanged; the turns and tries below then return |
| BufferQueue.Ring.constructor | include/buffer_queue.h:136-148 | an empty ring with one spare cell |
| BufferQueue.Ring.PopFrom | include/buffer_queue.h:88-99 | on the ring: index, waiting counter and notify_one of a pop are the critical section of the transition system |
| BufferQueue.Ring.PushAt | include/buffer_queue.h:101-125 | on the ring: copy, index, waiting counter and notify_one of a push are the critical section of the transition system |
| BufferQueue.Ring.TryPopCommon | include/buffer_queue.h:210-220 | oldest value and status, decided by the contents; whether notify_one is called |
| BufferQueue.Ring.TryPushCommon | include/buffer_queue.h:296-305 | closed, full or appended, decided by the contents; whether notify_one is called |
| BufferQueue.Ring.WaitPopTurn | include/buffer_queue.h:255-277 | a turn of the wait loop on the ring: value, closed, or asleep and counted as waiting |
| BufferQueue.Ring.WaitPushTurn | include/buffer_queue.h:340-364 | a turn of the wait loop on the ring: appended, closed, or asleep and counted as waiting |
| FlexBarrier.NextInv | src/flex_barrier.cc:45-94 | every step keeps: num_to_leave_ is the number of threads released and not gone, all of them awake; while it is 0 the generation is incomplete |
| FlexBarrier.StepGenerations | src/flex_barrier.cc:45-94 | the completion runs once per generation when arrivals and drops make up its participants, before anybody leaves; nobody is counted for the next before all have left |
| FlexBarrier.StepCounts | src/flex_barrier.cc:79-94 | a positive result of the completion is the number of participants of the next generation, otherwise those who have not dropped out stay |
| FlexBarrier.NoLostWakeup | src/flex_barrier.cc:45-82 | a thread sleeps on either condition variable only while its condition is false |
| FlexBarrier.ReleasedLeave | src/flex_barrier.cc:56-63 | every released thread can leave, and each departure lowers num_to_leave_ by one |
| FlexBarrier.Reachable | src/flex_barrier.cc:45-94 | the same over whole runs, with the generation of everyone inside |
| FlexBarrier.OncePerGeneration | src/flex_barrier.cc:45-94 | over whole runs: between one call of the completion and the next everybody of the completed generation has left, and the next call comes when arrivals and drops make up as many participants as the previous call decided |
| FlexBarrier.ArrivalDecided | src/flex_barrier.cc:45-63 | in any run, an arriving thread waits while a released one is still inside; else the last of its generation completes it and goes on, any other waits inside |
| FlexBarrier.DropDecided | src/flex_barrier.cc:65-77 | likewise for a thread that drops out: it never waits inside, completes the generation exactly if it was the last missing, and is gone |
| FlexBarrier.ReadyDecided | src/flex_barrier.cc:52-63 | a thread inside leaves when its generation has been completed, and else waits on |
| FlexBarrier.StepPossible | src/flex_barrier.cc:45-77 | a thread inside a call that is not asleep can always take its next stretch |
| FlexBarrier.FlexBarrier.ResetCount | src/flex_barrier.cc:83-94 | on the fields: the count of the next generation |
| FlexBarrier.FlexBarrier.LeaveBarrier | src/flex_barrier.cc:57-62 | on the fields: the last to leave starts the next generation and notifies |
| FlexBarrier.FlexBarrier.ArriveAndWait | src/flex_barrier.cc:45-63 | on the fields: wait, or complete the generation and leave |
| FlexBarrier.FlexBarrier.ArriveAndDrop | src/flex_barrier.cc:65-77 | on the fields: one participant fewer, completing the generation if it was the last missing |
| PipelineInstance.NextInv | include/pipeline.h:90-120 | while workers meet and the waiter waits: the first completion comes with the last worker, later generations have one participant |
| PipelineInstance.WaitAfterWorkers | include/pipeline.h:90-120 | wait returns only after every worker has left the barrier; end_ is counted down exactly once |
| PipelineInstance.WaiterDecided | include/pipeline.h:90-94 | in any run, the waiting thread's turn at the barrier ends wait() exactly if every worker has left |
| PipelineInstance.Progress | include/pipeline.h:90-120 | until wait() has returned some step is possible |
| Stages.FusedSame | include/pipeline.h:429-433 | an identity stage in front of a chain changes nothing it computes |
| Pipeline.StepTotal | include/pipeline.h:168-204 | every pop, push, close, feed or delivery keeps "delivered, then owed, in order", and brings the end exactly one step nearer |
| Pipeline.StepClosing | include/pipeline.h:181-183 | a queue is closed exactly when its worker is done and everything before it is used up; no push meets a closed queue |
| Pipeline.NeverStuck | include/pipeline.h:168-300 | until the output is closed and drained some step is enabled, whatever the capacities |
| Pipeline.Deterministic | include/pipeline.h:168-413 | for any chain and schedule: delivered values are a prefix of the composed flat-map, no run exceeds the measure, a run that stops has delivered everything and closed the output; no queue ever holds more than its capacity |
| Pipeline.FusionSame | include/pipeline.h:413-440 | a queue source fused into the first function delivers the same values as one copying through its own queue |
| PipelineParallel.StepInv | include/pipeline.h:588-638 | every step of the fan, of a chain inside a replica or of the collector keeps: each replica has delivered or still owes what its chain computes for its share of the input, and the collector has taken the replicas' results in turn |
| PipelineParallel.StepMeasure | include/pipeline.h:588-638 | every step brings the end exactly one step nearer, whichever replica takes which value |
| PipelineParallel.NeverStuck | include/pipeline.h:623-633 | draining the replicas' queues one after another never deadlocks, for n >= 1 and any capacities, although the chains of later replicas block behind their full queues |
| PipelineParallel.SameResults | include/pipeline.h:588-638 | whoever takes which value, the results are a permutation of those of one chain |
| PipelineParallel.PartitionedOutput | include/pipeline.h:588-638 | for any chain, schedule and capacities: no run exceeds the measure; a run that stops has closed and drained the output after exactly that many steps; the output is then, replica after replica, the chain applied to an order-preserving share of the input; no queue ever holds more than its capacity |
| WeakDuplex.NextInv | include/counter.h:672-693 | brokers coming and going keep the total; what a load would return stays between the total at its start and the total now |
| WeakDuplex.LoadBetween | include/counter.h:681-693 | with non-negative increments a load lies between the true totals when it took the lock and when it finished |
| WeakDuplex.LoadIs | include/counter.h:681-693 | what a load returns exactly: each broker's value at its poll and the prime's at the end; every broker is polled once, none comes or goes meanwhile, and the lock is given back |
| WeakDuplex.LoadGoesOn | include/counter.h:664-693 | a load can always go on, and counting never waits; while there is no load one can start and brokers can come and go |
| WeakDuplex.CounterHolds | include/counter.h:664-693 | in any run, the prime and each broker hold what has been counted there, the prime also what erased brokers held; a broker starts at 0 |
| StrongDuplex.NextTotal | include/counter.h:497-605 | the exact ledger of every access: counts in the prime, in brokers, in buffers of the prime, of brokers or of other buffers, on their way and returned change by what is counted, and by what an exchange drains from a broker its destructor has loaded |
| StrongDuplex.AllReturned | include/counter.h:497-605 | in every run, once everything has been taken out, what was returned is what was counted plus what was drained from brokers already loaded |
| StrongDuplex.ReturnedOnce | include/counter.h:568-601 | every count leaves exactly once if and only if no exchange drains a broker between the load and the erasure of its destructor |
| StrongDuplex.ExclusiveReturnedOnce | include/counter.h:568-601 | what a caller can arrange: when no broker's destructor overlaps the draining of an exchange, every count, of either sign, leaves exactly once |
| StrongDuplex.CountedTwice | include/counter.h:568-573 | a run in which 5 is counted and 10 returned |
| StrongDuplexOutcome.ExchangeIs | include/counter.h:589-601 | in any run, an exchange drains every broker there is exactly once, to 0, while none comes or goes, leaves the prime at its argument, and returns what it drained and what the prime held |
| StrongDuplexOutcome.PushIs | include/counter.h:497-505 | the push of a buffer, in any run, empties it and adds what it held to what it was made for |
| StrongDuplexOutcome.DestructorIs | include/counter.h:568-573 | a destructor adds to the prime what its broker held when it was loaded, and then the broker is gone |
| StrongDuplexOutcome.CounterHolds | include/counter.h:497-605 | in any run, the prime, a broker or a buffer holds what it held and what has been added to it since, by counts, pushes and destructors, until it is emptied or goes |
| StrongDuplexOutcome.ComesAndGoes | include/counter.h:497-573 | brokers and buffers start at 0, a buffer pushes to what it was made for, and only an empty buffer goes |
| StrongDuplexOutcome.GoesOn | include/counter.h:553-601 | nothing waits but for the lock, and who has it can always go on to give it back |
| Gf2.TimesLinear | samples/dedup/rabin.c:24-35 | reduction is linear under exclusive or |
| Gf2.HashCons | samples/dedup/rabin.c:80-85 | the leading byte of a hashed string contributes its own multiple of a power of X |
| Gf2.Slide | samples/dedup/rabin.c:88-95 | cancelling the oldest byte and shifting in a new one hashes the window moved by one |
| Gf2.WindowHash | samples/dedup/rabin.c:72-100 | with tables for NWINDOW bytes the running value is the remainder of exactly the last NWINDOW bytes |
| Gf2.RollIs | samples/dedup/rabin.c:72-100 | with any window table the running value is the hash of all bytes so far plus, 8 winlen places up, that of the bytes that have left the window; with the 0 that the encoders pass, 8 places up |
| Gf2Polynomials.TimesCongruent | samples/dedup/rabin.c:24-35 | with polynomials as sets of exponents: reduction multiplies by a power of X modulo X^32 + irrpoly |
| Gf2Polynomials.HashIsRemainder | samples/dedup/rabin.c:80-85 | the hash of a byte string is its remainder modulo that polynomial |
| PolyWords.PLawful | samples/dedup/rabin.c:24-35 | 32-bit words with the code's shift, top bit and polynomial form the arithmetic that the hash needs |
| Rabin.TableStep | samples/dedup/rabin.c:82-84 | one table look-up multiplies by X^8 modulo the polynomial |
| Rabin.Fpreduce | samples/dedup/rabin.c:24-35 | the loop multiplies by X^32 modulo the polynomial |
| Rabin.Fpmkredtab | samples/dedup/rabin.c:37-43 | entry b of the table is b shifted by s, times X^32 |
| Rabin.Fpwinreduce | samples/dedup/rabin.c:45-54 | a window entry is its byte times X^(8 (winlen - 1)), and the byte itself when winlen is at most 1 |
| Rabin.Fpmkwinredtab | samples/dedup/rabin.c:56-62 | so is every entry of the window table |
| Rabin.Rabininit | samples/dedup/rabin.c:64-70 | both tables are what rabinseg relies on, every entry its byte times a power of X that is stated outright; with winlen at most 1, as in the encoders, the window table is the identity |
| Rabin.MatchIs | samples/dedup/rabin.c:72-100 | when a segment may end, with any window table, in terms of the bytes: after at least 32, when the low twelve bits of the two hashes of Gf2.RollIs cancel out |
| Rabin.MatchIsLocal | samples/dedup/rabin.c:86-98 | whether a segment may end is decided by the last NWINDOW bytes alone |
| Rabin.Rabinseg | samples/dedup/rabin.c:72-100 | for any int n: the first position of at least NWINDOW at which the masked hash is 0, or n |
| Rabin.EncoderChunks | samples/dedup/encoder.c:764-766 | with the encoder's own tables too, the chunks of either encoder concatenate to the input |
| Rabin.QuietSeg | samples/dedup/rabin.c:72-100 | for every length there is data in which no segment ends |
| FileSegments.NextEnd | samples/dedup/encoder.c:1103-1120 | a stage's test of its buffer, with the size and the offset as ints, computes Decide |
| FileSegments.QuietFilePieces | samples/dedup/encoder.c:887-949 | such a file is a single piece |
| Segments.FirstExtends | samples/dedup/rabin.c:72-100 | a segment end found inside a block does not depend on what follows |
| Segments.FirstGrows | samples/dedup/rabin.c:72-100 | where no end was found, none appears when more data follows |
| Chunking.CoarseCuts | samples/dedup/encoder.c:1103-1154 | a piece of non-empty data, coarse or fine, is not empty, is decided by what it contains, and only grows with more data |
| Chunking.PiecesConcat | samples/dedup/encoder.c:775-950 | the one-shot pieces are non-empty and concatenate to the input |
| Chunking.ReadBlock | samples/dedup/encoder.c:807-838 | short reads are retried until the buffer is full or the input ends |
| Chunking.DecideIs | samples/dedup/encoder.c:889-949 | below 2^31 bytes the test of a stage is the one-shot cut |
| Chunking.FourGigabyteBuffer | samples/dedup/encoder.c:889-897 | on a buffer of 2^32 bytes the assertion fails |
| Chunking.DecideByLength | samples/dedup/encoder.c:875-940 | what the stages do with a buffer of any length, longer than 2^31 or 2^32 included |
| Chunking.RunningPass | samples/dedup/encoder.c:887-949 | a pass of the splitting loops loses nothing, and cuts where the one-shot pieces end as long as lengths fit an int |
| Chunking.RunningRead | samples/dedup/encoder.c:776-838 | a block read behind what was carried over leaves a buffer below 2^31 bytes when no one-shot piece comes within a block of that |
| Chunking.CutUpConcat | samples/dedup/encoder.c:776-949 | a run of a stage, as a function of its input and block size, loses nothing: the pieces it cuts off and what a failing assertion leaves are the input |
| Chunking.CutUpPieces | samples/dedup/encoder.c:776-949 | when no one-shot piece comes within a block of 2^31 bytes, that run cuts the input into its one-shot pieces |
| Chunking.TwoLevels | samples/dedup/encoder.c:662-722 | coarse pieces refined one by one and put in order are the input |
| Fragmenting.SplitCoarse | samples/dedup/encoder.c:1101-1154 | the coarse pieces of one buffer, searched with the tables: nothing lost, numbered without a gap, what is carried over has the next number |
| Fragmenting.Fragment | samples/dedup/encoder.c:1010-1155 | for any file and block size: the coarse pieces are the file, numbered 0, 1, 2, ..., and where the one-shot pieces end when these stay a block below 2^31; in every case they are those of CutUp, and the run fails exactly when CutUp does |
| Fragmenting.FragmentRefine | samples/dedup/encoder.c:662-722 | the chunks of one coarse piece are the piece, numbered from 0, exactly the last one marked, and where the one-shot pieces end below 2^31; in every case they are those of CutUp |
| DedupRecords.LeRoundTrip | samples/dedup/encoder.c:215-217 | a length survives its bytes in the file |
| DedupRecords.LeDigit | samples/dedup/encoder.c:214-216 | the length field is little-endian: its i-th byte is the digit of 256^i |
| DedupRecords.ReadWrite | samples/dedup/decoder.c:60-98 | reading a record undoes writing it exactly when its size is positive after conversion to int; otherwise the reader fails |
| DedupCodec.Decode | samples/dedup/decoder.c:213-250 | the read loop, errors included, computes DecodeFrom of the file, of which DedupDecoding.DecodeOutcome says what it is |
| DedupDecoding.DecodeOutcome | samples/dedup/decoder.c:60-250 | for any input: the decoder writes x if and only if the input is a sequence of well-formed records whose chunks can be restored and whose fingerprints are those of earlier data records, and x is what they stand for; it stops with an error if and only if the first record at which this fails does so for that reason |
| DedupCodec.AcceptRecord | samples/dedup/decoder.c:104-249 | the record of a chunk is accepted, restoring the chunk and the cache, exactly when the chunk is shorter than 2^31 and fits the output buffer of its decompression |
| DedupCodec.DecodeRecords | samples/dedup/decoder.c:213-250 | decoding records written after any prefix continues with exactly the blocks, or fails at the first that does not fit |
| DedupCodec.RoundTrip | samples/dedup/decoder.c:104-250 | decoding inverts encoding if and only if every chunk's sizes survive the conversions to int and it fits the output buffer; otherwise the decoder stops |
| DedupCodec.UncompressedWritten | samples/dedup/encoder.c:209-222 | without compression the writer refuses exactly the chunks that could not be read back |
| DedupCodec.OneDataRecord | samples/dedup/encoder.c:286-297 | each digest has one data record, at its first block, before every fingerprint record for it |
| SerialEncoder.SerialEncoder.constructor | samples/dedup/encoder.c:750-766 | an empty table and an empty output |
| SerialEncoder.SerialEncoder.SubDeduplicate | samples/dedup/encoder.c:473-510 | a chunk is a duplicate exactly when its digest is in the table, where it is afterwards |
| SerialEncoder.SerialEncoder.WriteFile | samples/dedup/encoder.c:209-222 | the record is written, and then the writer fails exactly when the size is negative as an int |
| SerialEncoder.SerialEncoder.Process | samples/dedup/encoder.c:914-936 | after each chunk table and output are those of all chunks so far |
| SerialEncoder.SplitBuffer | samples/dedup/encoder.c:887-949 | what is processed and what is carried over are the buffer; what is carried over cannot be cut |
| SerialEncoder.SerialIntegratedPipeline | samples/dedup/encoder.c:750-950 | for any file, block size and tables: the run ends, and its output is that of chunks that make up the file, exactly the one-shot pieces when none comes within a block of 2^31 bytes; then it decodes to the file if and only if all pieces fit; it stops early exactly at the first chunk that cannot be written, or at a buffer on which the assertion fails; and, for pieces of any size, the chunks are those of CutUp |
| SerialEncoder.SerialRoundTrip | samples/dedup/encoder.c:750-950 | what a finished run has written decodes to the file if and only if all its chunks fit; what a failed write has left is rejected |
| SerialEncoder.ShortRoundTrip | samples/dedup/encoder.c:750-950 | when no one-shot piece comes within a block of 2^31 bytes, the output decodes to the file if and only if all these pieces fit |
| SerialEncoder.TenMegabyteFile | samples/dedup/decoder.c:119-155 | a file of 10,000,001 bytes that is encoded in the default mode and cannot be decoded |
| SerialEncoder.TwoGigabyteFile | samples/dedup/encoder.c:209-222 | a file of 2^31 bytes that is one chunk, whose writing fails without compression |
| DedupParallel.DedupInv | samples/dedup/encoder.c:473-510 | whoever wins the race for a digest, the table, the duplicates and what has been written stay consistent |
| DedupParallel.WriteRecordIs | samples/dedup/encoder.c:260-282 | the record written for the next chunk is the serial encoder's, whichever chunk holds the data |
| DedupParallel.StepInv | samples/dedup/encoder.c:260-510 | every critical section keeps the invariant |
| DedupParallel.OutputIsSerial | samples/dedup/encoder.c:260-282 | under every schedule, at every moment the output is the serial output for the chunks written so far; the writer has exited exactly if the last of them, and none before, has a compressed size that is negative as an int |
| DedupParallel.MeasureStep | samples/dedup/encoder.c:260-510 | every step lowers the measure by one |
| DedupParallel.Progress | samples/dedup/encoder.c:260-282 | until everything is written, or a write has failed, some step is enabled, the wait for compressed data included |
| DedupParallel.ParallelRoundTrip | samples/dedup/encoder.c:260-510 | every run ends, and then the output decodes to the original bytes if and only if all chunks fit |
| ParallelEncoder.ParallelFileRoundTrip | samples/dedup/encoder.c:209-722 | however the file was fragmented and whatever the schedule, the output at the end decodes to the file if and only if all chunks fit |
| ParallelEncoder.ReorderOrdersWrites | samples/dedup/encoder.c:1244-1297 | the stage Reorder decides the order of the writes: for any arrivals the writer can go on exactly while it is behind what the stage has put out, writes the next chunk put out, and has written the records of a prefix of these chunks |
| BinHeap.InsertedIs | samples/dedup/binheap.c:47-72 | insertion keeps heap order and adds exactly the element |
| BinHeap.MinDeletedIs | samples/dedup/binheap.c:74-101 | deletion keeps heap order and removes exactly the root, a minimum |
| BinHeap.PriorityQueue.Initialize | samples/dedup/binheap.c:18-41 | an empty heap |
| BinHeap.PriorityQueue.Insert | samples/dedup/binheap.c:47-72 | on the array, percolating up is Inserted, and the capacity doubles exactly when the array is full |
| BinHeap.PriorityQueue.FindMin | samples/dedup/binheap.c:103-110 | a minimum, or nothing exactly when the heap is empty |
| BinHeap.PriorityQueue.DeleteMin | samples/dedup/binheap.c:74-101 | on the array: percolating down is MinDeleted, and the result is a minimum |
| SearchTree.FindIs | samples/dedup/tree.c:28-39 | find is the look-up of the map the tree stands for |
| SearchTree.FindMinIs | samples/dedup/tree.c:41-52 | the position found holds the least key, and none is found exactly for the empty map |
| SearchTree.InsertIs | samples/dedup/tree.c:63-85 | insertion adds the key unless present and keeps the order |
| SearchTree.DeleteIs | samples/dedup/tree.c:87-128 | deletion removes exactly the key and keeps the order, two children included |
| ReorderOrder.BeforeInc | samples/dedup/dedupdef.h:127-137 | stepping the sequence number extends the ordered prefix by exactly the next chunk |
| ReorderOrder.PlaceAt | samples/dedup/dedupdef.h:127-137 | the chunk with a sequence number stands at its place in the whole order |
| ReorderOrder.FirstMissing | samples/dedup/encoder.c:1244-1297 | the next number of the stage stands at the first place at which nothing has arrived |
| Reorder.CacheArrive | samples/dedup/encoder.c:1250-1264 | an early chunk goes into the heap of its row, made if missing; the cache is what has arrived and is not out |
| Reorder.NextCached | samples/dedup/encoder.c:1277-1280 | the next chunk is cached exactly when it is the least of the least row |
| Reorder.CacheRemove | samples/dedup/encoder.c:1280-1288 | taking it out leaves exactly what lies above it |
| Reorder.Stage.constructor | samples/dedup/encoder.c:1192-1222 | nothing has arrived, nothing is out |
| Reorder.Stage.WriteChunk | samples/dedup/encoder.c:1269-1275 | writing extends the ordered prefix and steps to the next number, across rows by the known row sizes |
| Reorder.Stage.TakeNext | samples/dedup/encoder.c:1277-1296 | the next chunk is taken from the cache if and only if it has arrived |
| Reorder.Stage.CacheChunk | samples/dedup/encoder.c:1251-1262 | tree and heap after caching a chunk |
| Reorder.Stage.Accept | samples/dedup/encoder.c:1244-1297 | after every arrival the output is the ordered prefix up to the first missing chunk |
| Reorder.Stage.WriteOut | samples/dedup/encoder.c:1266-1296 | the inner loop writes the chunk in hand and all that follow it |
| Reorder.Stage.Flush | samples/dedup/encoder.c:1299-1328 | the last loop ends normally exactly when nothing is cached beyond a gap |
| Reorder.Reorder | samples/dedup/encoder.c:1192-1336 | for any order of arrival: the output is everything below the first missing chunk, in order; a mismatch exit exactly when a chunk is missing below one that arrived, an L2 mismatch exactly when one of its row has; if all arrive, the output is everything |
| Reorder.FragmentsReorder | samples/dedup/encoder.c:662-722 | the numbers given by the two fragmenting stages are the ones reordering needs, and the reordered data is the input file, of any size |
| DedupNetwork.ProducerCount | samples/dedup/encoder.c:1371-1396 | a queue's producer count is the number of threads with tid / 4 equal to its index, and is positive |
| DedupNetwork.EnqueueSafe | samples/dedup/queue.c:83-92 | no thread puts a chunk into a terminated queue, duplicates sent past the compress stage included |
| DedupNetwork.NextInv | samples/dedup/encoder.c:396-606 | every step of every stage keeps the termination counts and what finished threads rely on |
| DedupNetwork.OverStays | samples/dedup/queue.c:37-111 | a reorder queue that is terminated and empty stays so |
| DedupNetwork.NextScan | samples/dedup/encoder.c:1224-1233 | the queues that have returned -1 in a row, each at its own moment, are still terminated and empty |
| DedupNetwork.AllWritten | samples/dedup/encoder.c:1224-1237 | once the scan has broken out of Reorder's loop, every chunk has reached it |
| DedupNetwork.Shutdown | samples/dedup/encoder.c:396-606 | over whole runs: no enqueue on a terminated queue, and every chunk has reached Reorder when it breaks |
| DedupNetwork.StepShrinks | samples/dedup/encoder.c:396-606 | every step of a stage or of the scan lowers the measure |
| DedupNetwork.Progress | samples/dedup/encoder.c:396-606 | until Reorder has left its loop some step is possible |
| DedupNetwork.ShutdownComes | samples/dedup/encoder.c:396-606 | every run ends, within the measure, and when no step is left Reorder has left its loop with every chunk |
| DedupNetworkPaths.ProcessedOnce | samples/dedup/encoder.c:396-606 | over whole runs: a chunk that has reached Reorder has been refined, deduplicated and fetched exactly once, and compressed once or, exactly if it is a duplicate, never |
| DedupQueue.RingBuffer.Remove | samples/dedup/queue.h:71-83 | oldest element, or nothing when empty |
| DedupQueue.RingBuffer.Insert | samples/dedup/queue.h:87-93 | appended, or refused exactly when full |
| DedupQueue.Transfer | samples/dedup/queue.c:67-75 | the batch loop moves as many elements as limit, supply and room allow, in order |
| DedupQueue.Queue.Terminate | samples/dedup/queue.c:37-47 | one more producer has terminated; the consumers are woken exactly by the last |
| DedupQueue.Queue.Dequeue | samples/dedup/queue.c:49-81 | -1 exactly when empty and terminated, a wait exactly when empty and not, else a batch of the oldest elements; producers are signalled when something moved |
| DedupQueue.Queue.Enqueue | samples/dedup/queue.c:83-111 | a failed assertion on a terminated queue, a wait exactly when full, else a batch is appended, of at least one element; consumers are signalled when something moved |
| Hashtable.SearchIs | samples/dedup/hashtable.c:227-242 | the first match in the bucket of the hash is the newest value of the key |
| Hashtable.Hashtable.Search | samples/dedup/hashtable.c:227-242 | the newest value, or nothing |
| Hashtable.Hashtable.SizeIndex | samples/dedup/hashtable.c:68-80 | the first prime above the requested size; nothing above 2^30 |
| Hashtable.Hashtable.Grow | samples/dedup/hashtable.c:133-180 | the next size, if there is one: the values of every key in reverse order; else nothing changes |
| Hashtable.Hashtable.Insert | samples/dedup/hashtable.c:193-223 | with or without dynamic expansion: the table grows first exactly when the load limit is exceeded and a size is left; one more value in front of those of the key, which it shadows; no other key changes but for the reversal, and without it no bucket but the one under the key's lock |
| Hashtable.Hashtable.Remove | samples/dedup/hashtable.c:253-284 | the newest value goes, is returned and no longer counted, older ones reappear; no other key and no bucket but the one under the key's lock changes |
| Hashtable.Hashtable.Expand | samples/dedup/hashtable.c:133-157 | rehashing keeps the values of every key, in reverse order |
| Mbuffer.CreateInv | samples/dedup/mbuffer.c:99-124 | a new view shows its own allocation |
| Mbuffer.CloneInv | samples/dedup/mbuffer.c:127-158 | a clone shows the same bytes and is counted |
| Mbuffer.SplitInv | samples/dedup/mbuffer.c:268-299 | the two views after a split show the original bytes, one after the other |
| Mbuffer.FreeInv | samples/dedup/mbuffer.c:187-216 | the allocation is released exactly with its last view, and no other view notices |
| Mbuffer.ReallocInv | samples/dedup/mbuffer.c:220-264 | resizing succeeds only for the sole, original view, which keeps the bytes that fit, so no other view notices |
| Mbuffer.Reachable | samples/dedup/mbuffer.c:99-299 | over any sequence of operations the counter is the number of live views, each inside its live allocation, which is live exactly as long as a view of it is |
| Mbuffer.Memory.MbufferCreate | samples/dedup/mbuffer.c:99-124 | on the fields: a new allocation, control block and view |
| Mbuffer.Memory.MbufferClone | samples/dedup/mbuffer.c:127-158 | on the fields: one more view, counted |
| Mbuffer.Memory.MbufferSplit | samples/dedup/mbuffer.c:268-299 | on the fields: two views of one control block |
| Mbuffer.Memory.MbufferFree | samples/dedup/mbuffer.c:187-216 | on the fields: one view fewer, the allocation gone with the last |
| Mbuffer.Memory.MbufferRealloc | samples/dedup/mbuffer.c:220-264 | on the fields: resized with the bytes that fit, or refused because shared or not the original |
| Mbuffer.SplitTiles | samples/dedup/mbuffer.c:268-299 | pieces split off again and again tile the original bytes in order |
| Sha1Spec.PaddedLength | samples/dedup/openssl/md32_common.h:347-373 | the padded message is the least whole number of blocks with room for the length |
| Sha1Block.SmallStep | samples/dedup/openssl/sha_locl.h:372-399 | in the rounds a macro is for, its own function and constant make both loop bodies perform one round of section 6.1.2 of FIPS 180-4 and keep the 16-word window |
| Sha1Block.CompressSmall | samples/dedup/openssl/sha_locl.h:402-443 | the loop version computes the 80 rounds |
| Sha1Unrolled.RowsFollowPattern | samples/dedup/openssl/sha_locl.h:262-350 | the eighty macro calls rotate registers and schedule slots in one pattern |
| Sha1Unrolled.Execute | samples/dedup/openssl/sha_locl.h:164-214 | one macro call on the registers and schedule variables, these being registers or words of an array |
| Sha1Unrolled.ExecuteStep | samples/dedup/openssl/sha_locl.h:164-214 | one macro call performs one round and keeps the window |
| Sha1Unrolled.CompressUnrolled | samples/dedup/openssl/sha_locl.h:217-367 | the unrolled version computes the same 80 rounds from its sixteen words, with and without MD32_XARRAY |
| Sha1.MachineLawful | samples/dedup/openssl/sha_locl.h:157-160 | registers wider than 32 bits, masked only at the end, carry the words of sections 2.2.2 and 4.1.1 of FIPS 180-4 |
| Sha1.MachineImplements | samples/dedup/openssl/sha_locl.h:120-172 | the functions, constants, initial value and byte order of the code, each its own data, are those of the standard |
| Sha1Abc.AbcDigest | samples/dedup/sha.c:6-12 | the SHA-1 of "abc" is the published one, which ties the standard's side of these proofs to a value |
| Sha1.Digest | samples/dedup/sha.c:6-12 | the digest is the SHA-1 of the data, with every block function |
| Sha1Stream.FoldAppend | samples/dedup/openssl/md32_common.h:299-331 | absorbing blocks piece by piece is absorbing them at once |
| Sha1Stream.BlockDataOrder | samples/dedup/openssl/sha_locl.h:402-443 | the loop over blocks, with every block function |
| Sha1Stream.CountAdvances | samples/dedup/openssl/md32_common.h:291-297 | the truncating shift, the carry test and the high word add the bit length modulo 2^64 |
| Sha1Stream.Context.constructor | samples/dedup/openssl/sha_locl.h:128-144 | the initial hash value, nothing counted or buffered |
| Sha1Stream.Context.Update | samples/dedup/openssl/md32_common.h:282-338 | hash value, buffer and counter after more data are those of the whole message so far |
| Sha1Stream.Context.Final | samples/dedup/openssl/md32_common.h:347-383 | the digest is that of the message padded as in section 5.1.1 of FIPS 180-4, and the buffer is left empty and zeroed |
| Sha1Stream.DigestByTail | samples/dedup/openssl/md32_common.h:347-373 | the one or two blocks absorbed at the end are the tail of the padded message |
| Sha1Stream.DigestOfPieces | samples/dedup/openssl/md32_common.h:282-383 | any split into updates gives the digest of the whole message |

## Left out

- LockFreeBufferQueue: throwing copies, is_empty and is_full (unspecified order of two loads), and the retry loops of try_push, try_pop, wait_push and wait_pop.
- BufferQueue: throwing copies and the closing catch blocks, value_pop, and the busy result of the nonblocking calls.
- FlexBarrier: the case that all threads drop, a completion that returns 0, and src/barrier.cc.
- Pipeline: functions that take the whole input queue, producers and consumers other than queues, failures of the thread pool.
- PipelineParallel: a replica is a chain of function segments, not one with further parallel segments inside.
- WeakDuplex: counter arrays and bumpers of atomicity none.
- StrongDuplex: load, and construction of a broker other than with the value 0.
- Rabin.Rabinseg: its two loops and their bodies are separate methods.
- Chunking: the memory behind the buffers is that of Mbuffer.dfy, and a sum of an offset and a jump that overflows an int, which C leaves undefined, wraps around.
- DedupCodec: the file header, gzip and bzip2 themselves (bzip2 takes a source length of 32 bits), I/O errors, statistics.
- DedupParallel: the queues between the stages are reduced to "has got there", and no claim is made about bounded queues while Reorder waits for a compression.
- Reorder: the tree holds heaps by value, so that the change of a heap through its position is TreePut; chunks_per_anchor is an unbounded map where the code doubles an array once.
- SearchTree: the cached minimum position, which is never set, TreeFindMax and TreeMakeEmpty; nodes are values.
- DedupNetwork: a dequeued coarse piece is the set of its fine chunks, threads may enqueue at any time rather than only when a send buffer is full or being emptied, and queues have no capacity, so that no enqueue waits.
- DedupQueue: an operation is one stretch under the mutex; the threads asleep on the condition variables are not modelled.
- Hashtable: chains are sequences rather than linked nodes, the load limit of a size is any function (the code multiplies by a float), the realloc branch of hashtable_expand, and the bit operations that scramble a hash.
- Mbuffer: mbuffer_copy (a create with the bytes of the original), failing allocation, the lock array; an operation is one step, as its critical section makes it.
- Sha1Unrolled: of the two branches that load a block only the byte-wise one is modelled (Sha1Stream.LoadBlock).
- Not modelled at all: map_reduce, mutable_thread, latches, serial_executor, the thread pool, priority_queue, stream_mutex, shared queue ends, dynarray, source, the blackscholes sample, archive.
