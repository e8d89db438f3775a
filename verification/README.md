# kbuf in Dafny

kbuf is a Linux character driver that passes messages through three rings: a
mutex-protected slot ring with sleeping readers and writers, a lock-free
single-producer single-consumer (SPSC) slot ring, and a byte ring that user
space maps and drives itself. Around them sit runtime reconfiguration (RESIZE,
SMODE, RESET) and devices that are created, destroyed and exported while open.
This project models that behaviour and proves what it is meant to guarantee.

## How it is modelled

* **Sequential device.** `Device` is one `struct kbuf_dev` as a value and what each
  locked section, or each lock-free call run by itself, does to it. `Queueing`,
  `Accounting` and `Agreement` prove what that means. `KbufDev` is the same structure as
  a class whose methods update the fields in place, each proved against `Device`.
  `SlotMemory` is the allocation of slots, with allocations that may fail.
* **SPSC at single-step granularity.** `Spsc` gives each side a program counter over
  the driver's loads and stores. Index loads may be stale but never go backwards; slot
  stores are ordered only by the release store that publishes them (`WeakMemory`).
  Byte copies take one step per byte, in any order, and may fault half way and leave
  anything behind. `SpscDevice` joins this ring to the device value: any SPSC device is a
  state of the ring, and the ring's stores laid over the slots give the device back.
  `SoloCalls` shows a call that runs alone to be the sequential one, and `WholeLife` follows
  a device through sequential and concurrent phases.
* **The mapped ring.** `MagicMap` is the page translation of the double mapping and the
  flat copy through it; `MappedRing` is `libkbuf.h` one call at a time, in place;
  `MapStream` is its writer and reader running concurrently, with the memory model of
  `Spsc`.
* **Blocking mode.** `Blocking` interleaves any number of readers, writers and ioctls
  around the mutex and the two wait queues, with signals. A locked section is one step.
  Wait conditions are evaluated without the lock, so each of their loads may return any
  value from the history not older than what the caller is ordered after. `BlockingTheorems` says
  what every run guarantees.
* **Reconfiguration races.** `Reconfig` and `ClampRace` isolate two checks that the
  driver makes earlier than it uses them.
* **Lifetimes.** `Lifetime` interleaves create, open, close, destroy, export and
  dma-buf release; `DynDevices` is that code in place, down to the release function that
  the last reference drop runs; `ModuleInit` is module load and unload. `ResizeMemory`
  follows slot memory through overlapping RESIZE calls.
* **Observation.** `Observer` is a third party reading the depth of a running SPSC ring.

Unbounded integers stand for the source's `unsigned int` and `u64` only where they are
reduced: every index and counter update goes through `Words.Next32`, `Add64` or the
matching subtraction, and `&` is the bitwise operation, not `%`. `copy_from_user` and
`copy_to_user` are parameters (`Copy`): a whole copy, or a fault that may have left
anything in the part of the destination it was given. Signals, failed allocations and
scheduling are nondeterministic steps or out-parameters.

## What the callers owe

* SPSC mode is claimed for one producer and one consumer (src/kbuf_ring.c:125).
* `Blocking.Contract` holds the rest. An SMODE that takes effect does so while no I/O
  is in progress, as src/kbuf_ioctl.c:133-137 demands, and not while a RESIZE that SPSC
  mode could not bear is between its mode test and its swap. A RESIZE that takes effect
  leaves buffers large enough for what waiting writers have already clamped. The last
  two are not demanded by the source; `Reconfig.RaceBreaksMasking` and
  `ClampRace.ShrinkUnderWriter` are runs without them, and `Reconfig.SwapExact` and
  `ClampRace.ClampExact` say exactly when the code is right.

## Where the code does less than it seems

The code is followed in each case.

* src/kbuf_ring.c:126 says the free-running indices never wrap to zero. They are 32 bits
  wide and do; `Words.WrapFaithful32` is why this is harmless.
* RESET sets the high-water mark to `dev->count` (src/kbuf_ioctl.c:65), which is the depth
  only in blocking mode. `Accounting.ResetPeakExact` gives the exact condition.
* docs/DESIGN.md:188-189 says `kbuf_occupancy` reports the depth correctly in either mode.
  In SPSC mode it is two loads, in an order C leaves open. `Observer` gives the exact
  condition for each order, and runs in which the result is no depth of the ring.
* Open, close, RESIZE and export name the device through `dev->dev`
  (src/kbuf_main.c:85, src/kbuf_main.c:93, src/kbuf_ioctl.c:119, src/kbuf_dmabuf.c:179),
  which a destroy releases while files are still open. `Lifetime.NodeAliveExact` says when
  it is still there.
* docs/DESIGN.md:127 has open recover the device from its embedded cdev; the code, and a
  later section of the same document, look it up by minor (src/kbuf_main.c:60-87), and so
  does the model.

## Model

| member | source | states |
|---|---|---|
| `Words.PowerOf2Exact` | src/kbuf_ioctl.c:142 | the bit test `is_power_of_2` accepts exactly the powers of two |
| `Words.MaskIsMod` | src/kbuf_ring.c:152 | masking with n - 1 is reduction modulo n, for every power of two n |
| `Words.WordArithmetic` | src/kbuf_ring.c:144 | the one carry or borrow of a 32-bit increment or subtraction is reduction modulo 2^32 |
| `Words.WrapFaithful32` | src/kbuf_internal.h:62-70 | empty test, full test, depth and both slot choices from wrapped 32-bit indices are those of unbounded counters, through any number of wraps |
| `Words.WrapFaithful64` | include/libkbuf.h:69-71 | the same for the mapped ring's 64-bit head and tail |
| `Fifo.TracesAreInOrder` | docs/DESIGN.md:194-198 | any trace the bounded queue accepts delivers the i-th message as a prefix of the i-th one put in and keeps the rest, at most the capacity |
| `WeakMemory.ReadIsDetermined` | src/kbuf_ring.c:129-130 | a load returns the newest store and nothing else once that store is published to the reader |
| `WeakMemory.MayReadExact` | src/kbuf_ring.c:129-130 | the values a load may return are exactly those of the stores to its location not overtaken by one the reader is ordered after, or any value if it is ordered after none |
| `Spsc.LengthIsDetermined` | src/kbuf_ring.c:153 | in every reachable state the length loaded is exactly the published length, whatever order the stores became visible in |
| `Spsc.ByteIsDetermined` | src/kbuf_ring.c:155 | no torn read: each byte of the copy is exactly the published byte |
| `Spsc.StepInv` | src/kbuf_ring.c:135-189 | every load, store, copy step, fault, sleep, wake and signal of either side keeps the ring invariant |
| `Spsc.JunkStoreStep` | src/kbuf_ring.c:175-176 | whatever bytes a faulted copy leaves in its slot, in any order, the ring invariant holds and no published slot changes |
| `Spsc.StepRefines` | src/kbuf_ring.c:149-189 | only the two release stores touch the abstract queue, and they are its enqueue and dequeue |
| `Spsc.SpscIsFifo` | src/kbuf_ring.c:123-189 | in every interleaving, from any state of the ring, the i-th message consumed is the asked-for prefix of the i-th queued or produced, none lost, doubled, reordered or torn, and at most num_buffers are queued |
| `Spsc.CallsAreHonoured` | src/kbuf_main.c:204-211 | over a whole run the messages published are, in order, the buffers of the write calls that published, cut to buffer_size, and each delivery goes to a read call that asked for that much |
| `Spsc.NonblockHonoured` | src/kbuf_main.c:142-147 | over a whole run, a read or write call made with O_NONBLOCK is never on its way to sleep or asleep |
| `Spsc.WriterDecides` | src/kbuf_main.c:213-218 | at any point of any run, a write call that loads cons_idx copies its own clamped message if that leaves room; otherwise it returns at once if its caller passed O_NONBLOCK and waits if not, and inside the wait it goes back to the test or to sleep in the same way |
| `Spsc.ReaderDecides` | src/kbuf_main.c:142-147 | the same for a read call and the prod_idx it loads |
| `Spsc.WaitersRetest` | src/kbuf_main.c:146-147 | being woken ends no wait: a call leaves wait_event only by a load of its own that found room, or a message, or by a signal |
| `Spsc.LoadsNeverGoBack` | src/kbuf_internal.h:62-70 | over a whole run the values one side loads from the index of the other never decrease and never exceed what has been published |
| `Spsc.FailedCallsEnd` | src/kbuf_ring.c:155-176 | over a whole run, a signal or a copy fault ends the call it hits: the reader is between calls, the writer too or still scribbling on its unpublished slot |
| `Spsc.SlotOwnership` | src/kbuf_ring.c:141-189 | the slot being filled is neither the slot being drained nor any published one |
| `Spsc.SlotStable` | src/kbuf_ring.c:149-189 | from its publishing store until cons_idx passes it a slot keeps its length and bytes, however many steps both sides take |
| `Spsc.NoLostWakeup` | src/kbuf_main.c:137-156 | a parked consumer faces an empty ring or a producer on its way to wake_up, and dually; both are never parked |
| `Spsc.SomeoneCanMove` | src/kbuf_main.c:204-227 | with both sides inside a call one of them can take a step that is neither a signal nor a fault |
| `Spsc.CountersBalance` | src/kbuf_ring.c:161-187 | between calls, counted from any starting values, produced minus consumed messages is the depth, the byte counters are the bytes of the messages published and handed out modulo 2^64, and the high-water mark lies between depth and num_buffers |
| `Spsc.PeakIsMax` | src/kbuf_ring.c:184-186 | at every moment of every concurrent run the high-water mark is exactly the largest of where it stood and the distances from prod_idx to the cons_idx loaded after each publishing store |
| `Spsc.PeakMoves` | src/kbuf_ring.c:184-186 | each of those distances is at least the depth then, at most num_buffers, and the depth itself when the load is not stale; no other step moves the mark |
| `SpscDevice.ResumeInv` | src/kbuf_ring.c:123-189 | any well-formed SPSC device, wherever its indices stand and whatever it holds, is a state of the concurrent ring with the same queue |
| `SpscDevice.SwitchStarts` | src/kbuf_ioctl.c:147-153 | after an SMODE to SPSC that takes effect it is the ring's initial state |
| `SpscDevice.RingIsDevice` | src/kbuf_ring.c:123-189 | from any well-formed SPSC device, at every moment of every concurrent run, the stores made so far laid over its slots are a well-formed SPSC device whose queue is the ring's |
| `SoloCalls.WriteAlone` | src/kbuf_ring.c:169-189 | a write call that runs alone on any SPSC device, step by step, ends with the queue, counters and high-water mark of the sequential write of its clamped buffer, and gives up exactly where that gets EAGAIN |
| `SoloCalls.ReadAlone` | src/kbuf_ring.c:149-166 | a read call that runs alone and loads the current prod_idx ends with the queue, counters, mark and delivered bytes of the sequential read |
| `SoloCalls.StaleGivesUp` | src/kbuf_main.c:142-144 | the current prod_idx is needed: whatever is queued, an O_NONBLOCK read that loads the older value gives up |
| `WholeLife.LifeIsFifo` | src/kbuf_ring.c:64-196 | a device is one FIFO for its whole life: sequences of calls in either mode and concurrent SPSC phases in any order, on empty and filled rings, with any resizes, resets and switches between |
| `WholeLife.RingConserves` | src/kbuf_ring.c:161-187 | at every moment of a concurrent run the counters, with what the calls in progress have yet to count, balance messages and bytes modulo 2^64 |
| `WholeLife.LifeConserves` | src/kbuf_ring.c:78-189 | from a new device, messages and bytes balance modulo 2^64 over any sequence of sequential and concurrent phases, across every RESET, RESIZE and SMODE |
| `WholeLife.PhasePeak` | src/kbuf_ring.c:184-186 | a concurrent phase in the life of a device leaves its mode and geometry, and as high-water mark the largest of the old one and the distances the phase saw |
| `Observer.ProdThenCons` | src/kbuf_ring.c:191-196 | prod_idx loaded first: the result is the depth at the second load if and only if prod_idx reads the same there, the depth at the first if and only if cons_idx does, at any distance; while the loads are less than one 32-bit lap apart it otherwise understates both depths and, past the loaded prod_idx, exceeds num_buffers |
| `Observer.ConsThenProd` | src/kbuf_ring.c:191-196 | cons_idx loaded first: the same two conditions exchanged, at any distance; within one 32-bit lap it otherwise overstates both depths |
| `Observer.ReportsWrapped` | src/kbuf_ring.c:194 | a run in which an empty ring is reported 2^32 - 1 deep |
| `Observer.ReportsTooMany` | src/kbuf_ring.c:194 | a run in which a one-slot ring is reported two deep |
| `Observer.ReportsNoDepth` | src/kbuf_ring.c:194 | a run in which zero is reported though the ring was not empty at any moment between the loads |
| `Device.FreshIsValid` | src/kbuf_main.c:334-337 | a new device is well formed and empty |
| `Device.Positions` | src/kbuf_ring.c:64-72 | in both modes the write slot is the read slot plus the depth modulo num_buffers, and the empty and full tests are depth 0 and depth num_buffers |
| `Device.FreeSlot` | src/kbuf_ring.c:104-108 | changing the slot just past the queue leaves the queue alone, and including it appends its content |
| `Device.DropFront` | src/kbuf_ring.c:80-89 | moving the read slot on drops exactly the oldest message |
| `Queueing.ProduceAppends` | src/kbuf_ring.c:102-121 | a produce, in either mode, appends exactly its message behind everything queued |
| `Queueing.SpscProduce` | src/kbuf_ring.c:169-189 | the lock-free produce keeps the device well formed and adds one to the wrapped depth |
| `Queueing.FaultIsInvisible` | src/kbuf_ring.c:106-107 | a faulted copy leaves queue, indices, counters and high-water mark as they were |
| `Queueing.ConsumeDrops` | src/kbuf_ring.c:78-95 | a consume removes the oldest message and hands out its asked-for prefix |
| `Queueing.SpscConsume` | src/kbuf_ring.c:149-166 | the lock-free consume keeps the device well formed, moves the read slot on and takes one off the wrapped depth |
| `Queueing.ResizeKeeps` | src/kbuf_ioctl.c:95-113 | RESIZE, refused or done, changes nothing queued |
| `Queueing.SetModeKeeps` | src/kbuf_ioctl.c:132-154 | SMODE, refused or done, changes nothing queued and keeps the device well formed |
| `Queueing.SwitchExact` | src/kbuf_ioctl.c:132-154 | in both directions a switch that reports success leaves the device empty in the requested mode with slots, geometry, counters and mark as they were; any other outcome leaves it equal |
| `Queueing.ResizeExact` | src/kbuf_ioctl.c:95-113 | a RESIZE that reports success leaves the requested geometry over the new zero-length slots, the mode and counters as they were and the mark at 0; any other outcome leaves the device equal |
| `Queueing.SnapshotExact` | src/kbuf_ioctl.c:38-49 | GSTATS reports the counters, the geometry, the number of messages queued and the high-water mark, and changes nothing |
| `Queueing.ApplyIsFifo` | src/kbuf_ioctl.c:56-156 | every operation in either mode with every outcome keeps the device well formed and is the queue operation its outcome reports |
| `Queueing.Outcomes` | src/kbuf_main.c:100-235 | exactly when each call succeeds, gets EAGAIN, EFAULT or EBUSY, in terms of the queue |
| `Queueing.RunIsFifo` | src/kbuf_ring.c:64-196 | over any run of operations in both modes, with any resizes, resets and switches between, the device is a FIFO |
| `Accounting.CountersConserve` | src/kbuf_ring.c:89-119 | over any run on a new device, messages and bytes produced plus those queued at the last RESET equal those consumed plus dropped by short reads plus queued now, modulo 2^64 |
| `Accounting.PeakIsDeepest` | src/kbuf_ring.c:114-116 | the high-water mark is the deepest the queue has been since the last RESET or RESIZE, and at most num_buffers, in every run that does not RESET a filled SPSC ring |
| `Accounting.ReportedExact` | src/kbuf_ioctl.c:33-54 | after any run on a new device the counters GSTATS reports balance with the depth it reports, and the peak it reports is the deepest the queue has been, in every run that does not RESET a filled SPSC ring |
| `Accounting.ResetPeakExact` | src/kbuf_ioctl.c:56-68 | RESET leaves the high-water mark at the current depth if and only if the device is in blocking mode or empty |
| `Accounting.ResetPeakFails` | src/kbuf_ioctl.c:65 | from a new device, a switch to SPSC, one write and RESET leave one message queued and the high-water mark at 0 |
| `Agreement.TwinStep` | src/kbuf_ring.c:78-189 | one non-blocking call on corresponding blocking and SPSC devices gives the same result and corresponding devices again |
| `Agreement.FastAgreesWithSimple` | src/kbuf_ring.c:64-196 | for any list of non-blocking reads and writes both modes give the same results, bytes, slots, counters and peak, with read_pos, write_pos and count the masked and subtracted indices |
| `Agreement.SwitchedIsTwin` | src/kbuf_ioctl.c:147-153 | the switch of an empty power-of-two device to SPSC takes effect, and the two devices correspond index for index if and only if read_pos was 0 |
| `Agreement.IoServes` | src/kbuf_ring.c:78-189 | in either mode a read or write does exactly what a bounded queue with counters and a high-water mark does, whatever the indices and slots |
| `Agreement.SameViewAgrees` | src/kbuf_ring.c:64-196 | any two devices with equal queue, geometry, counters and peak, in any modes and at any indices, answer any list of non-blocking calls alike and stay equal in all of these |
| `Agreement.SwitchKeepsView` | src/kbuf_ioctl.c:123-156 | SMODE, taken or refused, leaves queue, geometry, counters and peak as they were, wherever read_pos stood |
| `KbufDev.KbufDev.constructor` | src/kbuf_main.c:331-345 | a new device over allocated slots is the fresh device and owns exactly that memory |
| `KbufDev.KbufDev.RingConsume` | src/kbuf_ring.c:78-95 | in place: EFAULT and nothing changed, or the consume operation; on a well-formed device the oldest message leaves the queue and its asked-for prefix is returned |
| `KbufDev.KbufDev.RingProduce` | src/kbuf_ring.c:102-121 | in place: EFAULT with the queue unchanged, or the produce operation; on a well-formed device with room the message is appended |
| `KbufDev.KbufDev.SpscConsume` | src/kbuf_ring.c:149-166 | the same in lock-free form, over the masked cons_idx |
| `KbufDev.KbufDev.SpscProduce` | src/kbuf_ring.c:169-189 | the same in lock-free form, over the masked prod_idx |
| `KbufDev.KbufDev.WriteNonblock` | src/kbuf_main.c:168-237 | write with O_NONBLOCK clamps, tests and produces as the write operation does, in the mode the device is in |
| `KbufDev.KbufDev.ReadNonblock` | src/kbuf_main.c:100-166 | read with O_NONBLOCK tests and consumes as the read operation does |
| `KbufDev.KbufDev.Poll` | src/kbuf_main.c:247-270 | readable and writable exactly when the queue is non-empty and not full, and exactly when a read or write would not get EAGAIN |
| `KbufDev.KbufDev.IocReset` | src/kbuf_ioctl.c:56-68 | in place, the RESET operation; the queue is unchanged |
| `KbufDev.KbufDev.IocGetStats` | src/kbuf_ioctl.c:33-54 | EFAULT, or the counters, the geometry, the number of messages queued and the high-water mark |
| `KbufDev.KbufDev.IocSmode` | src/kbuf_ioctl.c:123-156 | succeeds exactly for argument 0, or 1 with a power-of-two slot count, on an empty device, and the device is then empty in the mode the argument names; EFAULT, EINVAL and EBUSY leave it equal |
| `KbufDev.KbufDev.IocResize` | src/kbuf_ioctl.c:70-121 | exactly when each of EFAULT, EINVAL, ENOMEM, EBUSY and success is returned; success leaves the requested geometry, anything else an equal device; on every path the device owns exactly its num_buffers buffers and array and all other memory is as it was |
| `SlotMemory.AllocSlots` | src/kbuf_ring.c:32-51 | all blocks, distinct and new, or, exactly when some allocation fails, none left allocated |
| `SlotMemory.FreeSlots` | src/kbuf_ring.c:53-62 | frees each block of the array once and nothing else; a null array is allowed |
| `ResizeMemory.StepInv` | src/kbuf_ioctl.c:91-116 | however RESIZE calls overlap, the device and each call in flight own live, distinct and disjoint arrays, so each free is of live memory and happens once |
| `ResizeMemory.CommitExact` | src/kbuf_ioctl.c:95-116 | on an empty device the locked part is the RESIZE operation with the geometry the call checked, installs the array the call allocated and leaves the call the old one to free; on a filled device nothing moves and the call frees its own |
| `ResizeMemory.SpelledOut` | src/kbuf_ioctl.c:56-156 | on a well-formed device every other step of such a run is the operation of the device |
| `ResizeMemory.CallsGoOn` | src/kbuf_ring.c:149-189 | on every device such runs reach, also one left in SPSC mode with a slot count that is no power of two, a write that finds room and a read that finds a message are steps of the run |
| `ResizeMemory.MemoryConserved` | src/kbuf_ioctl.c:91-116 | at every moment of every such run, reads, writes, RESET and SMODE included, the live memory is what was live elsewhere, the device's array and num_buffers buffers, and one array per call in flight; with none in flight nothing more |
| `MagicMap.Phys` | src/kbuf_mmap.c:60-82 | data byte v of the mapping is physical byte v mod capacity, through the page translation, for any page size that divides the ring |
| `MagicMap.PageMapExact` | src/kbuf_mmap.c:60-82 | region page 0 and no other is the control page, and data page i is behind exactly two region pages, one in each copy |
| `MagicMap.ControlApart` | src/kbuf_mmap.c:67-68 | head and tail are on the control page and no byte a copy touches is |
| `MagicMap.AcceptsExact` | src/kbuf_mmap.c:88-104 | the mappings accepted are exactly those that start on the control page and hold it and every data page twice |
| `MagicMap.FlatCopyFits` | src/kbuf_mmap.c:88-104 | a copy of up to the capacity from any ring offset stays inside the accepted mapping and touches as many distinct bytes as it copies |
| `MagicMap.FlatWrite` | include/libkbuf.h:78-79 | the flat memcpy through the double mapping has the effect of the two-piece copy |
| `MagicMap.FlatRead` | include/libkbuf.h:96-97 | the flat memcpy out returns what the two-piece copy returns |
| `MagicMap.SplitWriteAt` | include/libkbuf.h:78-79 | the two-piece copy puts source byte i at offset + i modulo capacity and leaves every other byte |
| `MagicMap.WriteAppends` | include/libkbuf.h:78-80 | a write just past the unread bytes appends to them and disturbs none |
| `MagicMap.ScatterList` | src/kbuf_dmabuf.c:79-86 | the dma-buf page list gives every ring byte the page and offset that both copies of the user mapping give it |
| `MappedRing.Ring.Reset` | include/libkbuf.h:60-64 | the ring is empty |
| `MappedRing.Ring.Write` | include/libkbuf.h:67-82 | accepts as much as fits and appends exactly that to the unread bytes, across index wrap |
| `MappedRing.Ring.Read` | include/libkbuf.h:85-100 | returns the oldest unread bytes, up to the number asked for, and drops exactly those |
| `MapStream.ByteIsDetermined` | include/libkbuf.h:87-97 | every byte loaded concurrently with the writer is exactly the published one |
| `MapStream.StepInv` | include/libkbuf.h:67-100 | every load, byte copy and store of either side keeps the stream invariant |
| `MapStream.StreamIntegrity` | include/libkbuf.h:67-100 | in every interleaving what has been read is, byte for byte, as much of what the write calls accepted as the read calls returned, the rest is in the ring, and head - tail is its length and at most the capacity |
| `MapStream.CallsAreHonoured` | include/libkbuf.h:67-100 | over a whole run what is published and what is handed out is exactly what the arguments of the calls and the indices they loaded say, call by call |
| `MapStream.TakesAllItCan` | include/libkbuf.h:69-99 | each call moves exactly the smaller of what its caller passed or asked for and what the index it loaded allows |
| `Blocking.RunInv` | src/kbuf_main.c:100-202 | every run by callers that keep the contract keeps mutual exclusion, the device invariant, the views of sleepers and the debts of wakers |
| `BlockingTheorems.HistoryIsRun` | src/kbuf_main.c:100-202 | the device at any moment is what the logged locked sections, in order, make of the initial one |
| `BlockingTheorems.BlockingIsFifo` | src/kbuf_ring.c:64-121 | with any number of readers and writers, across RESIZE, RESET and SMODE, the i-th successful read returns a prefix of the i-th successful write and the rest is queued |
| `BlockingTheorems.Linearizable` | src/kbuf_main.c:100-202 | each returned call performed exactly its own operation once, between invocation and return, with the reported outcome; an interrupted one performed none; calls that do not overlap keep their order |
| `BlockingTheorems.EveryCallReturnsOnce` | src/kbuf_main.c:100-202 | in every run each call made is either in progress or has returned, and none is both |
| `BlockingTheorems.DatedByTheLog` | src/kbuf_main.c:100-202 | invocation and return are dated by the number of locked sections before them, and neither a call nor its result changes afterwards |
| `BlockingTheorems.CountersConserved` | src/kbuf_ring.c:89-119 | at every moment of every concurrent run that keeps the contract, messages and bytes balance modulo 2^64 as the log of locked sections accounts for them |
| `BlockingTheorems.PeakInRuns` | src/kbuf_ring.c:114-116 | at every moment of every such run the high-water mark is the deepest the queue has been since the last RESET or RESIZE |
| `BlockingTheorems.NonblockHonoured` | src/kbuf_main.c:109-112 | O_NONBLOCK calls never sleep, and only they get EAGAIN |
| `BlockingTheorems.SleepsJustified` | src/kbuf_main.c:108-122 | in every run that keeps the contract a reader goes to sleep only on an empty ring and a writer only on a full one |
| `BlockingTheorems.ReaderServed` | src/kbuf_main.c:108-128 | a reader that holds the lock with a message queued takes the oldest and goes on to wake writers, or faults; with none it sleeps, or gets EAGAIN if nonblocking |
| `BlockingTheorems.WriterServed` | src/kbuf_main.c:180-200 | a writer that holds the lock with room appends its message and goes on to wake readers, or faults; with none it sleeps, or gets EAGAIN if nonblocking |
| `BlockingTheorems.WaiterDecides` | src/kbuf_main.c:116-119 | in the wait loop a caller asks for the lock again exactly if the depth and num_buffers it loaded, of whatever moments, show a message, or a ring that is not full, and otherwise queues up or goes to sleep |
| `BlockingTheorems.WaitersRetest` | src/kbuf_main.c:116-119 | being woken ends no wait: a caller leaves it only by a test of its own that found the condition met, still with the same call, or by a signal |
| `BlockingTheorems.NoLostWakeup` | src/kbuf_main.c:108-128 | a parked reader faces an empty ring or a writer between its produce and its wake_up; a parked writer a full ring or a reader or RESIZE about to wake it |
| `BlockingTheorems.NeverBothStuck` | src/kbuf_main.c:180-200 | a reader and a writer are never both parked without a wake_up on its way |
| `BlockingTheorems.AlwaysLegal` | src/kbuf_main.c:173-195 | whoever holds the lock can carry out its section: the clamped message fits and RESIZE's mode test is still right |
| `BlockingTheorems.DeadlockFree` | src/kbuf_main.c:100-202 | a run that keeps the contract can go on without a signal, unless all calls are readers parked on an empty ring or all are writers parked on a full one, or a caller has brought SMODE or RESIZE to the lock against the contract |
| `Reconfig.SlotEachExact` | src/kbuf_ring.c:127-128 | in SPSC mode the messages a ring has room for are masked to slots of their own if and only if the slot count is a power of two |
| `Reconfig.SwapExact` | src/kbuf_ioctl.c:103-113 | the swap leaves a well-formed device if and only if the device is then in blocking mode or the new slot count is a power of two; in SPSC mode, if and only if every message it has room for gets its own slot |
| `Reconfig.ModeAlwaysSafe` | src/kbuf_ioctl.c:78-154 | geometry stays in bounds and SPSC mode has a power-of-two slot count in every run in which no switch to SPSC overtakes a RESIZE that it would break |
| `Reconfig.StepsAreOps` | src/kbuf_ioctl.c:95-154 | on a well-formed device each step of such a run is the operation of the device it stands for, and what the reader is handed is what its reads return |
| `Reconfig.PendingExact` | src/kbuf_ioctl.c:83-113 | over a whole run a RESIZE is between its mode test and its swap exactly from the one to the other, with the geometry it tested |
| `Reconfig.RaceBreaksMasking` | src/kbuf_ioctl.c:83-113 | a run in which one does: three slots in SPSC mode, then two writes and two reads, of which the first message is lost and the second delivered twice |
| `ClampRace.ClampExact` | src/kbuf_main.c:176-194 | at the lock the clamped message fits if and only if the caller's buffer fits or buffer_size is not below its value at the clamp |
| `ClampRace.SlotsWithinBuffers` | src/kbuf_main.c:173-195 | in every run that keeps the contract each slot's length is at most buffer_size, which is its buffer's size |
| `ClampRace.ShrinkUnderWriter` | src/kbuf_main.c:176-195 | a run in which a sleeping writer wakes to buffers smaller than its clamped message |
| `Lifetime.StepInv` | src/kbuf_ctl.c:38-178 | every step of create, its failures, open, close, destroy, export, dma-buf release and freeing keeps reference counts, ownership, minors and list consistent |
| `Lifetime.ReferenceAccounting` | src/kbuf_ctl.c:38-64 | at every point of every run the kref of a created device is its registered reference plus open files plus live dma-bufs, a listed device still has its registered reference, and release has run at most once and only without references |
| `Lifetime.HoldersExact` | src/kbuf_ctl.c:50-64 | at every point of every run the files and dma-bufs that hold a device, and whether it is listed, are exactly what the opens, closes, exports, releases, creates and destroys so far say |
| `Lifetime.NoUseAfterFree` | src/kbuf_main.c:60-97 | whoever holds a file or dma-buf of a device, or finds it on the list, finds its structure, slots and mapped buffers allocated |
| `Lifetime.HoldersCanDrop` | src/kbuf_main.c:94-95 | whoever holds a file, a dma-buf or the registered reference finds the count above zero and can drop it |
| `Lifetime.ReleaseExactlyAtLast` | src/kbuf_ctl.c:38-47 | release starts at exactly the step that takes the last reference away, with the ring still allocated |
| `Lifetime.MinorReuse` | src/kbuf_ctl.c:66-157 | a minor is handed out again only when whoever had it has no node, cdev, ring memory, file or dma-buf left, on failed creates too |
| `Lifetime.MinorsDistinct` | src/kbuf_ctl.c:71-73 | devices reachable through a node, a cdev, a file or a dma-buf have distinct minors below 64 |
| `Lifetime.OpenFindsOwner` | src/kbuf_main.c:71-81 | each number of the reserved region belongs to exactly the static or dynamic device that opening it looks up |
| `Lifetime.StaticAndDynamic` | src/kbuf_main.c:312-317 | in every reachable state static and dynamic devices in use have different numbers, all in the reserved region |
| `Lifetime.NodeAliveExact` | src/kbuf_main.c:93 | at every point of every run the struct device is alive for the holder of a file or dma-buf if and only if device_destroy has not run for that device; outside the moment between unlinking and that call, if and only if the device is still listed |
| `Lifetime.HeldWithoutNode` | src/kbuf_dmabuf.c:179 | a run in which a file of a destroyed device can still be closed and exported after its struct device is gone |
| `Lifetime.UnwindingEnds` | src/kbuf_ctl.c:135-145 | the error path of create and the release function each give back one thing per step and end with nothing |
| `DynDevices.DynDevices.DynGet` | src/kbuf_ctl.c:50-64 | in place: no such device and nothing changed, or the open step on the device with that minor |
| `DynDevices.DynDevices.LowestFree` | src/kbuf_ctl.c:71 | the lowest free minor below 64, or none exactly when all are taken |
| `DynDevices.DynDevices.DynCreate` | src/kbuf_ctl.c:66-146 | in place: succeeds exactly when a minor is free and nothing fails, with the lowest free minor, last on the list, with everything allocated and one reference; on any failure list and minors are as they were and nothing of the device is left; no other device is touched |
| `DynDevices.GiveBack` | src/kbuf_ctl.c:135-145 | the error labels, entered at any of them, end with nothing owned |
| `DynDevices.DynDevices.Export` | src/kbuf_dmabuf.c:169-196 | in place: one more dma-buf and one more reference, or, if wrapping fails, the device as it was |
| `DynDevices.DynDevices.FinishRelease` | src/kbuf_ctl.c:38-47 | in place: the release function runs to its end and leaves nothing allocated and the minor free, or is not called for and changes nothing |
| `DynDevices.DynDevices.Close` | src/kbuf_main.c:89-97 | in place: drops the file's reference; frees the device and its minor exactly if it was the last, and leaves it in service otherwise |
| `DynDevices.DynDevices.BufPut` | src/kbuf_dmabuf.c:148-155 | in place: the same for the reference of a dma-buf |
| `DynDevices.DynDevices.Teardown` | src/kbuf_ctl.c:152-157 | in place: the three teardown steps in order, then the release function if that was the last reference |
| `DynDevices.TeardownEnds` | src/kbuf_ctl.c:152-157 | what is left: nothing, and the minor free, if nobody held the device; otherwise a device without node, cdev or registered reference whose memory its holders keep; every other device untouched |
| `DynDevices.DynDevices.DynDestroy` | src/kbuf_ctl.c:159-178 | in place: ENOENT and nothing changed, or the device with that minor off the list and torn down, freed with its minor exactly when nobody holds it, and no other device touched |
| `DynDevices.DynDevices.Drain` | src/kbuf_ctl.c:228-238 | the drain ends with an empty list, every device that was listed torn down and, unless held, freed with its minor, and no other device touched |
| `DynDevices.DynDevices.DrainAll` | src/kbuf_ctl.c:221-241 | with no file, dma-buf or call left, it ends with nothing of any dynamic device allocated and every minor free |
| `ModuleInit.MmapAlloc` | src/kbuf_mmap.c:26-46 | both mapped buffers, or neither when either fails |
| `ModuleInit.CreateDevice` | src/kbuf_main.c:331-383 | a whole static device, or nothing of it, wherever its creation fails |
| `ModuleInit.TeardownDevices` | src/kbuf_main.c:285-297 | exactly the resources of the first n devices are released, each once |
| `ModuleInit.Init` | src/kbuf_main.c:299-411 | loads with all devices, and with every optional entry that did not fail, if and only if ndevices is in range and nothing needed failed; otherwise nothing stays acquired |
| `ModuleInit.Exit` | src/kbuf_main.c:413-424 | a loaded module releases everything, each once: the static devices, the registrations, and whatever dynamic devices were left, with their memory and minors |

## Left out

- struct cdev, struct device, class and VFS internals: the kernel's; assumed are only that a mapping keeps its file open, that release runs once per file, and that open files, dma-bufs and the control node keep the module loaded.
- A mode switch or RESIZE concurrent with SPSC I/O: outside the driver's stated contract (src/kbuf_ioctl.c:133-137).
- RESET and GSTATS concurrent with SPSC I/O: their counter accesses race by design; `Device` covers them between calls.
- read_sleeps and write_sleeps in SPSC mode: statistics that no other state depends on; in blocking mode they are part of the device.
- Reordering of one side's own loads: they are taken in program order, and a release store comes after every load and store before it.
- A signal during the locked section, and mutex fairness: a locked section is one step, and nothing is claimed about how long a caller waits.
- KBUF_IOCIMPORT, DMA mapping, scatter-gather allocation failures and the importer self-test (src/kbuf_dmabuf.c:206-279): foreign calls; the page list and the reference balance are modelled.
- Failure of put_user after a device was created or exported (src/kbuf_ctl.c:184-190, src/kbuf_ioctl.c:158-173): it is a destroy or a close, both of which are steps of `Lifetime`.
- kbuf_map_open and kbuf_map_close (include/libkbuf.h:35-57): wrappers of mmap and munmap.
- src/kbuf_proc.c, src/kbuf_debugfs.c, src/kbuf_trace.h, logging and ioctl number decoding: formatting and observation.
- include/kbufpp.hpp: thin move-only wrappers.
- bench/, scripts/, verif/ and tests/: harnesses.
- Cache-line placement and performance.
