# Verified models of the Linux driver lessons

Dafny models of the drivers in `KERNELSPACE/` whose correctness is not obvious from reading one
function: two ring buffers shared by kernel modules, DMA transfers, event and timer protocols, intrusive
lists, a register cache, and the smaller drivers around them. `dafny verify dfyconfig.toml` checks
everything.

## What is modelled, and how

Protocols whose difficulty is interleaving are **step machines** over values: a state, a `Choice` of the
scheduler, and a `Step` that performs at most one access to shared memory. A *run* is any sequence of states
in which each follows from the one before by some choice; theorems are about every state of every run.
Code that runs alone, or under a lock, is **imperative**: classes with the source's fields, updated in place
by methods with the source's branches and loops.

| modules | source | form |
|---|---|---|
| `DriverBasics` | optional values, bytes and error numbers | types and constants |
| `BoundedFifo`, `RingLayout` | what both rings implement, and their memory layout | functions |
| `LocklessRing` | 27c, one producer and one consumer | step machine: `PushStep`, `PopStep` |
| `LockedRing` | 27d, any number of producers and consumers | step machine: `PushStep`, `PopStep` |
| `RingBuffer` | 27c and 27d, one call at a time | class over a two-dimensional array |
| `ButtonThread` | 18, thread, interrupt handler and remover | step machine: `ThreadStep`, `IsrStep`, `RemoveStep` |
| `PeriodicTimer` | 13, callback and exit | step machine: `Step` |
| `DmaBus` | buffers, mappings, DMA engine and completion | functions |
| `DmaCharDriver` | 21a, driver, engine, callback, timeout | step machine: `Drive1` |
| `DmaCharDevice` | 21a as its code reads | classes over two arrays, shadowed by `DmaCharDriver` |
| `DmaSelfTest` | 21b, load, unload, engine, callback, timeout | step machine: `DriveSetup`, `DriveTransfer`, `DriveFinish` |
| `KernelList` | the circular list 23 and 27f use | classes on the heap |
| `StudentText` | text printed by the tool of 23 and by its driver, and the parser | functions |
| `StudentList` | 23, the driver | class |
| `CallbackRegistry` | 27f | class, and a run of its calls on values |
| `RegisterCache` | 26g | class, and a step machine across power losses |
| `Debounce` | 15 | class |
| `Broadcast` | 25b | class |
| `CharDevice` | 5, 20 and the reads of 21a | classes, and any interleaving of files and devices on values |

Assumptions, all of them visible in the modules:

- Memory is sequentially consistent, and no signal interrupts a wait.
- Where C leaves the order of two loads open (`ring->head != ring->tail`), the head is loaded first; in each
  pop the other index belongs to the thread itself.
- `wait_event` tests its condition, and only then queues the thread, tests again, and sleeps;
  `wake_up` makes every queued waiter runnable; `kthread_stop` sets the request, wakes the thread and joins.
- A pending timer expires at any time but not while its callback runs; one attempt of `del_timer_sync`
  unlinks it unless the callback is running.
- The DMA engine copies bytes in any order, may fail or stall anywhere, runs its callback once after its last
  write, and is stopped for good by `dmaengine_terminate_sync`.
- The register cache does what `regcache_ex.md` says of it: writes go to the cache and, unless the map is
  cache-only, to the chip; a sync of a dirty map rewrites every cached register.
- `strscpy` copies up to 63 characters and a terminator; `sscanf`, `snprintf` and `scnprintf` follow
  their contracts. Characters are bytes, one `char` each.

## What the proofs found

- The unlocked emptiness test of 27d (`Threadsafe_ring_buffer_Module-A.c:65-69`) is right exactly if there is at most
  one consumer, or no producer (`LockedRing.FifoExactlyWithOneConsumer`). With two consumers, whatever message is
  pushed, a run pops it and then a message nobody pushed (`TwoConsumersPopAnUnfilledSlot`).
- A name typed into the tool of 23 comes back from the driver unless it holds the byte 0xA0: userspace does
  not take it for a blank, the kernel does. `StudentText.CommandParsesBack` is the exact condition. That byte
  occurs in the UTF-8 form of some letters.
- A register of 26g that was neither accessed before the first power loss nor ever written shows the loss, unless
  it powers up with the value it had; `RegisterCache.ReadsSeeNoPowerLoss` is the exact condition,
  `LateContactShowsTheLoss` an instance.
- The read of 26g that is to verify the write of the power register (`regcache_ex.c:170-179`) is answered from
  the cache: it cannot fail and says nothing about the chip.
- Registering a callback of 27f that is already registered and unregistering it again removes the oldest
  registration; the order of calls survives exactly when `OthersComeFirst` holds.
- Two branches are dead: the early break of the listing loop (`Kernel_linked_list.c:106-107`) and the MISMATCH
  report of 21b (`dma_mem2mem.c:172-173`).

## Model

| member | source | states |
|---|---|---|
| LocklessRing.RefinesBoundedFifo | KERNELSPACE/27c.Shared_ring_buffer_bw_modules/Shared_ring_buffer_Module-A.c:30-62 | In every state of every run, for any ring size n >= 2, the operations that took effect are a legal history of a FIFO of capacity n - 1: refused as full only when full, as empty only when empty, popped from the front; what was accepted is what was popped followed by what the occupied slots hold |
| LocklessRing.WriterAndReaderNeverMeet | KERNELSPACE/27c.Shared_ring_buffer_bw_modules/Shared_ring_buffer_Module-A.c:39-59 | The slot being written is never the slot being read |
| LocklessRing.PushesAnswerTheirMessages | KERNELSPACE/27c.Shared_ring_buffer_bw_modules/Shared_ring_buffer_Module-A.c:30-46 | The i-th push returns either no space or acceptance of the i-th message asked for, cut to 63 characters |
| LocklessRing.PushesAreTheCalls | KERNELSPACE/27c.Shared_ring_buffer_bw_modules/Shared_ring_buffer_Module-A.c:30-30 | Under any schedule the messages asked for are those of the calls made while no push was under way, in order and unchanged |
| LocklessRing.PushIsAnswered | KERNELSPACE/27c.Shared_ring_buffer_bw_modules/Shared_ring_buffer_Module-A.c:30-46 | From any state of any run in which no push is under way: 69 producer steps after a call with a message, however the consumer interleaves, the call has returned a result for that message, and acceptance of it if there was room at the call |
| LocklessRing.PopIsAnswered | KERNELSPACE/27c.Shared_ring_buffer_bw_modules/Shared_ring_buffer_Module-A.c:49-62 | Likewise 70 consumer steps after a call a pop has returned, and with the oldest message if there was one at the call |
| LocklessRing.EachCallTakesEffectOnceInside | KERNELSPACE/27c.Shared_ring_buffer_bw_modules/Shared_ring_buffer_Module-A.c:30-62 | The history only grows and, whenever a thread is between calls, holds exactly what its finished calls returned: every call takes effect once, between its invocation and its return |
| LocklessRing.PushIsWaitFree | KERNELSPACE/27c.Shared_ring_buffer_bw_modules/Shared_ring_buffer_Module-A.c:30-46 | From wherever a push stands, 69 steps of the producer finish it, whatever the consumer does meanwhile |
| LocklessRing.PopIsWaitFree | KERNELSPACE/27c.Shared_ring_buffer_bw_modules/Shared_ring_buffer_Module-A.c:49-62 | 70 steps of the consumer finish a pop, whatever the producer does meanwhile |
| BoundedFifo.NothingLostRepeatedOrReordered | KERNELSPACE/27c.Shared_ring_buffer_bw_modules/Shared_ring_buffer_Module-A.c:30-62 | Any legal history of the bounded FIFO: accepted messages equal popped messages followed by what is left, and no more than the capacity is ever left |
| BoundedFifo.LegalExactly | KERNELSPACE/27c.Shared_ring_buffer_bw_modules/Shared_ring_buffer_Module-A.c:30-62 | A history is legal if and only if every event of it is, judged without a queue: an acceptance leaves at most the capacity unpopped, a refusal finds exactly that many, a pop returns the oldest message not popped yet, and an empty ring has none |
| BoundedFifo.PoppingTooOftenIsIllegal | KERNELSPACE/27d.Threadsafe_ring_buffer_bw_modules/Threadsafe_ring_buffer_Module-A.c:61-81 | Two pops after one accepted message are no history of a FIFO, whatever they pop |
| RingLayout.FullAndEmptyTests | KERNELSPACE/27c.Shared_ring_buffer_bw_modules/Shared_ring_buffer_Module-A.c:34-51 | The index tests decide exactly whether the queue is full and whether it is empty |
| RingLayout.Publish | KERNELSPACE/27c.Shared_ring_buffer_bw_modules/Shared_ring_buffer_Module-A.c:39-43 | Advancing the head over a written slot appends its message |
| RingLayout.Retire | KERNELSPACE/27c.Shared_ring_buffer_bw_modules/Shared_ring_buffer_Module-A.c:54-59 | Advancing the tail drops the oldest message, which is the one in the tail slot |
| RingLayout.SpareSlotIsFree | KERNELSPACE/27c.Shared_ring_buffer_bw_modules/Shared_ring_buffer_Module-A.c:39-41 | Writing anything into the head slot disturbs no queued message |
| RingLayout.CopyStep | KERNELSPACE/27c.Shared_ring_buffer_bw_modules/Shared_ring_buffer_Module-A.c:54-56 | A reader copying a slot meets the terminator exactly when it has the whole message |
| RingLayout.Cut | KERNELSPACE/27c.Shared_ring_buffer_bw_modules/Shared_ring_buffer_Module-A.c:39-41 | What strscpy keeps: the whole message, or its first 63 characters |
| RingBuffer.Ring.Push | KERNELSPACE/27c.Shared_ring_buffer_bw_modules/Shared_ring_buffer_Module-A.c:30-46 | In place: appends the cut message, or answers -ENOSPC and changes nothing, exactly when n - 1 are queued |
| RingBuffer.Ring.Pop | KERNELSPACE/27c.Shared_ring_buffer_bw_modules/Shared_ring_buffer_Module-A.c:49-62 | In place: removes and returns the oldest message, or answers -ENOENT exactly when empty |
| RingBuffer.Ring.Take | KERNELSPACE/27d.Threadsafe_ring_buffer_bw_modules/Threadsafe_ring_buffer_Module-A.c:69-80 | After the wait of the locked ring: removes and returns the oldest message |
| RingBuffer.Ring.CopyIn | KERNELSPACE/27d.Threadsafe_ring_buffer_bw_modules/Threadsafe_ring_buffer_Module-A.c:48-50 | The slot holds the cut message; every other slot is untouched |
| RingBuffer.Ring.CopyOut | KERNELSPACE/27d.Threadsafe_ring_buffer_bw_modules/Threadsafe_ring_buffer_Module-A.c:71-73 | Returns the message the slot holds |
| RingBuffer.Ring.constructor | KERNELSPACE/27c.Shared_ring_buffer_bw_modules/Shared_ring_buffer_Module-A.c:65-77 | A zeroed ring is an empty queue |
| LockedRing.RefinesBoundedFifo | KERNELSPACE/27d.Threadsafe_ring_buffer_bw_modules/Threadsafe_ring_buffer_Module-A.c:32-81 | As for 27c, with any number of producers and one consumer interleaved at every access, lock and unlocked test included; the order is that of the head updates |
| LockedRing.TestedItemIsStillThere | KERNELSPACE/27d.Threadsafe_ring_buffer_bw_modules/Threadsafe_ring_buffer_Module-A.c:65-73 | From the moment the unlocked test passes until the consumer has taken its message the ring is not empty |
| LockedRing.OneThreadPastTheLock | KERNELSPACE/27d.Threadsafe_ring_buffer_bw_modules/Threadsafe_ring_buffer_Module-A.c:37-54 | While a producer is past the lock nobody else is |
| LockedRing.NoLostWakeup | KERNELSPACE/27d.Threadsafe_ring_buffer_bw_modules/Threadsafe_ring_buffer_Module-A.c:52-67 | If the consumer is asleep although the ring is not empty, some producer has published and still has its wake-up call to make |
| LockedRing.PushesAnswerTheirMessages | KERNELSPACE/27d.Threadsafe_ring_buffer_bw_modules/Threadsafe_ring_buffer_Module-A.c:32-59 | The j-th push of a producer returns for the j-th message it was asked to push |
| LockedRing.PushesAreTheCalls | KERNELSPACE/27d.Threadsafe_ring_buffer_bw_modules/Threadsafe_ring_buffer_Module-A.c:32-32 | Under any schedule the messages a producer was asked to push are those of its calls, in order and unchanged |
| LockedRing.EachCallTakesEffectOnceInside | KERNELSPACE/27d.Threadsafe_ring_buffer_bw_modules/Threadsafe_ring_buffer_Module-A.c:32-81 | The history only grows and, whenever a thread is between calls, its part of it is exactly what its calls have returned: every call takes effect once, between its invocation and its return |
| LockedRing.ConsumerDelivers | KERNELSPACE/27d.Threadsafe_ring_buffer_bw_modules/Threadsafe_ring_buffer_Module-A.c:61-81 | From any state of any run in which the consumer is inside a call and the ring not empty, under any interleaving with the producers, 75 steps at which the consumer is not blocked deliver the oldest message, even from sleep: it is what the consumer takes next |
| LockedRing.BlockedByAProducer | KERNELSPACE/27d.Threadsafe_ring_buffer_bw_modules/Threadsafe_ring_buffer_Module-A.c:52-69 | With a message in the ring the consumer is blocked only while a producer is past the lock or owes a wake-up |
| LockedRing.ConsumerSleeps | KERNELSPACE/27d.Threadsafe_ring_buffer_bw_modules/Threadsafe_ring_buffer_Module-A.c:65-67 | The wait does not spin: from any state of any run in which the consumer is inside a call on an empty ring, six of its steps put it to sleep until it is woken |
| LockedRing.ProducerFinishes | KERNELSPACE/27d.Threadsafe_ring_buffer_bw_modules/Threadsafe_ring_buffer_Module-A.c:37-58 | From wherever a producer stands past the lock, 71 of its own steps finish its call, wake-up included, whatever all the others do |
| LockedRing.FifoExactlyWithOneConsumer | KERNELSPACE/27d.Threadsafe_ring_buffer_bw_modules/Threadsafe_ring_buffer_Module-A.c:32-81 | For every ring size and every number of producers and consumers: the ring is a FIFO in every run if and only if there is at most one consumer or no producer |
| LockedRing.TakesWithoutLooking | KERNELSPACE/27d.Threadsafe_ring_buffer_bw_modules/Threadsafe_ring_buffer_Module-A.c:69-80 | A consumer past the test, whatever the tail slot holds and whether or not the ring is empty, pops that slot's text and advances the tail |
| LockedRing.TwoConsumersPopAnUnfilledSlot | KERNELSPACE/27d.Threadsafe_ring_buffer_bw_modules/Threadsafe_ring_buffer_Module-A.c:65-80 | For every ring size, at least one producer, at least two consumers and any message there is a run that accepts that message only and pops it and then the text of a slot never filled |
| ButtonThread.NoLostWakeup | KERNELSPACE/18.Kthread_IRQ/kthread_IRQ.c:57-89 | If the thread is asleep although the flag is up or stop is requested, the handler or the remover still has its wake-up call to make |
| ButtonThread.EveryInterruptIsServedOrRecorded | KERNELSPACE/18.Kthread_IRQ/kthread_IRQ.c:57-91 | Every interrupt, also one before the thread starts or during processing, has a pass that began after it, or is recorded in the flag, or was just taken from it by a thread whose next step begins the pass |
| ButtonThread.EveryInterruptIsServedSoon | KERNELSPACE/18.Kthread_IRQ/kthread_IRQ.c:57-91 | Once its handler has returned, and unless the driver is being removed, eight steps of the thread, however interleaved and wherever it was, bring a pass that began after the interrupt |
| ButtonThread.EveryPressIsServed | KERNELSPACE/18.Kthread_IRQ/kthread_IRQ.c:57-91 | Whenever the interrupt is raised, in any run and however the two steps of the handler interleave with everything but a removal, eight thread steps after the handler a pass has begun that counts this interrupt |
| ButtonThread.InterruptsAreHandlerRuns | KERNELSPACE/18.Kthread_IRQ/kthread_IRQ.c:81-91 | Under any schedule the interrupts counted are exactly the runs of the handler past the setting of the flag |
| ButtonThread.ThreadSleeps | KERNELSPACE/18.Kthread_IRQ/kthread_IRQ.c:59-64 | The wait does not spin: with the flag down and no request to stop, eight steps of the thread put it to sleep until it is woken |
| ButtonThread.PassesNeverExceedInterrupts | KERNELSPACE/18.Kthread_IRQ/kthread_IRQ.c:67-71 | Passes, plus one if the flag is up, never exceed interrupts |
| ButtonThread.EveryStepHelps | KERNELSPACE/18.Kthread_IRQ/kthread_IRQ.c:57-74 | Once stop has been requested and the wake-up made, every step of the thread brings it closer to its exit and no other step takes it further away |
| ButtonThread.StopIsPrompt | KERNELSPACE/18.Kthread_IRQ/kthread_IRQ.c:155-162 | From any reachable state, asleep or processing, six steps of the thread bring it to its exit and the join returns |
| ButtonThread.RemovalSucceeds | KERNELSPACE/18.Kthread_IRQ/kthread_IRQ.c:155-165 | Whenever the driver is removed, however the steps of the removal interleave with interrupts and thread: six thread steps after the wake-up the thread has exited and the join returns |
| ButtonThread.StepKeepsInv | KERNELSPACE/18.Kthread_IRQ/kthread_IRQ.c:51-92 | Every step of thread, handler and remover keeps the wake-up and the flag invariants |
| PeriodicTimer.AtMostOneLateRearm | KERNELSPACE/13.kernel_Timer/kernel_timer_periodic.c:19-27 | From any moment after exit has been called, at most one re-arm and one expiry happen; before that the timer is never both idle and unarmed |
| PeriodicTimer.LateCountsAreExact | KERNELSPACE/13.kernel_Timer/kernel_timer_periodic.c:41-47 | Once exit has been called the expiries and re-arms counted as late are all there are |
| PeriodicTimer.EveryExpiryRearms | KERNELSPACE/13.kernel_Timer/kernel_timer_periodic.c:19-27 | Until exit is called, four turns of the callback after an expiry, however interleaved, the timer has been re-armed and, unless it expired again, is pending with the callback returned |
| PeriodicTimer.SilentAfterExit | KERNELSPACE/13.kernel_Timer/kernel_timer_periodic.c:41-50 | Once exit has returned the timer is neither pending nor running, and no later step changes anything |
| PeriodicTimer.DeleteTerminates | KERNELSPACE/13.kernel_Timer/kernel_timer_periodic.c:44-47 | Under any schedule the callback takes at most five more steps once the flag is up, its returns counted as steps; after the fifth, or whenever it is not running, an attempt to delete succeeds |
| PeriodicTimer.ExitReturns | KERNELSPACE/13.kernel_Timer/kernel_timer_periodic.c:41-50 | Whenever exit is called, under any schedule: once the callback has taken its at most five steps, or is not running, the delete returns and the timer is neither pending nor running |
| PeriodicTimer.EveryStepHelps | KERNELSPACE/13.kernel_Timer/kernel_timer_periodic.c:19-47 | The steps the callback has left never increase and each of its steps uses one up |
| DmaBus.EngineKeepsFlight | KERNELSPACE/21a.DMAengine_mem2mem/dma_mem2mem.c:62-66 | Whatever the engine does during a transfer, nothing is signalled before its callback, a completed transfer has copied every byte, and only this transfer's completion can be waiting |
| DmaBus.IssueStartsFlight | KERNELSPACE/21a.DMAengine_mem2mem/dma_mem2mem.c:103-114 | With both buffers mapped and the completion re-armed, issuing starts such a transfer |
| DmaBus.WaitSucceeds | KERNELSPACE/21a.DMAengine_mem2mem/dma_mem2mem.c:117-125 | A wait that succeeds consumes this transfer's own completion, finds the engine at rest and, if the status is complete, the bytes copied |
| DmaCharDriver.BuffersChangeHandsCleanly | KERNELSPACE/21a.DMAengine_mem2mem/dma_mem2mem.c:69-136 | In every interleaving and for every choice of failing calls: the engine touches the buffers only while both are mapped, the CPU only while unmapped, every mapping is undone once, after the engine is done, before the call returns |
| DmaCharDriver.ZeroMeansCopied | KERNELSPACE/21a.DMAengine_mem2mem/dma_mem2mem.c:125-135 | A zero result means that destination, source and the bytes given agree over the whole length and that nothing of an earlier message is left behind them |
| DmaCharDriver.WaitIsSatisfiedByItsOwnCallback | KERNELSPACE/21a.DMAengine_mem2mem/dma_mem2mem.c:103-123 | Over any sequence of writes, timeouts and errors, the only completion a wait ever finds is that of its own transfer, with the engine at rest |
| DmaCharDriver.ReadsReturnWhatWasWritten | KERNELSPACE/21a.DMAengine_mem2mem/dma_mem2mem.c:149-186 | After a successful write, reads of any lengths return consecutive pieces of what was written, clamped to the buffer, then nothing |
| DmaCharDevice.Driver.Write | KERNELSPACE/21a.DMAengine_mem2mem/dma_mem2mem.c:149-169 | Whatever turns the engine takes before each call on the DMA API and during the wait: the answer is the first failure on the way or the clamped length; a length means exactly these bytes can be read, an error leaves the readable length alone; both buffers are the CPU's again, in a state some run of the machine reaches |
| DmaCharDevice.AnswersTell | KERNELSPACE/21a.DMAengine_mem2mem/dma_mem2mem.c:69-169 | Which error stands for which failure, each exactly: -EFAULT for the copy from user memory, -ENOMEM for the mappings, -ETIMEDOUT for the wait, -EIO for the rest, and the length if nothing failed |
| DmaCharDevice.Driver.DoDmaTransfer | KERNELSPACE/21a.DMAengine_mem2mem/dma_mem2mem.c:69-136 | Follows the machine from the mapping to the return, with the error of the call that failed |
| DmaCharDevice.Driver.RunTransfer | KERNELSPACE/21a.DMAengine_mem2mem/dma_mem2mem.c:93-131 | Every failure between the mappings reaches the unmap label with its error |
| DmaCharDevice.Driver.WaitForCompletion | KERNELSPACE/21a.DMAengine_mem2mem/dma_mem2mem.c:116-123 | In time exactly if the engine's turns include its callback, with the verdict it reached |
| DmaCharDevice.Driver.Read | KERNELSPACE/21a.DMAengine_mem2mem/dma_mem2mem.c:172-186 | Returns the piece of the readable bytes at the offset; a fault hands out nothing and moves nothing |
| DmaCharDevice.FinishingTakesEveryByte | KERNELSPACE/21a.DMAengine_mem2mem/dma_mem2mem.c:114-125 | The wait finds a completed transfer only if every byte had its turn |
| DmaSelfTest.EveryPathIsClean | KERNELSPACE/21b.DMAEngine_Mem2mem/dma_mem2mem.c:50-198 | Whatever fails and however the steps interleave: buffers change hands cleanly, nothing is used unless allocated, freed twice (each pointer dangles from its free until both are nulled) or freed while the device may touch it, the channel is released only while held and at rest, and the comparison never reports a mismatch |
| DmaSelfTest.LoadAndUnloadBalance | KERNELSPACE/21b.DMAEngine_Mem2mem/dma_mem2mem.c:175-206 | After loading, both buffers are unmapped and freed and both pointers null; the channel is held exactly when loading returned 0, which it does only after the comparison has found in the destination the text, as far as it fits before a terminator, and zeros behind it |
| DmaSelfTest.LoadAnswersItsFirstFailure | KERNELSPACE/21b.DMAEngine_Mem2mem/dma_mem2mem.c:50-198 | In every run loading returns the error number of its first failure, -ENODEV for the channel, -ENOMEM for memory and mappings, -EIO for descriptor, submission and status, -ETIMEDOUT for the wait, and 0 if there was none |
| DmaSelfTest.SmoothLoadSucceeds | KERNELSPACE/21b.DMAEngine_Mem2mem/dma_mem2mem.c:50-186 | If every call succeeds, no wait gives up and the engine reports no error, loading can return nothing but 0 |
| DmaSelfTest.LoadCanSucceed | KERNELSPACE/21b.DMAEngine_Mem2mem/dma_mem2mem.c:50-186 | For every size and text, and from wherever a load in which nothing has failed stands, some schedule without failures makes it return 0 |
| DmaSelfTest.UnloadReleases | KERNELSPACE/21b.DMAEngine_Mem2mem/dma_mem2mem.c:200-207 | A module that has loaded can be unloaded, which gives the channel back |
| DmaSelfTest.StepKeepsInv | KERNELSPACE/21b.DMAEngine_Mem2mem/dma_mem2mem.c:67-206 | Every step keeps ownership, allocation and verdict as they should be at that point of the routine |
| KernelList.List.AddTail | KERNELSPACE/23.Kernel_Linked_list/Kernel_linked_list.c:68-72 | On the heap: the node is appended, next and prev stay consistent all round the ring |
| KernelList.List.Remove | KERNELSPACE/23.Kernel_Linked_list/Kernel_linked_list.c:141-147 | Unlinks, poisons and frees one node; every other link stays consistent and unfreed |
| KernelList.List.DeleteFirst | KERNELSPACE/23.Kernel_Linked_list/Kernel_linked_list.c:134-157 | The traversal refines removing the first match from a sequence and tells whether there was one; exactly the removed node is freed |
| KernelList.List.SaveNext | KERNELSPACE/23.Kernel_Linked_list/Kernel_linked_list.c:134-137 | Going on from a node that does not match keeps the current link, its saved successor and the absence of earlier matches |
| KernelList.List.DrainOne | KERNELSPACE/23.Kernel_Linked_list/Kernel_linked_list.c:241-248 | After the current node is unlinked and freed the saved successor is still the next link of the ring and not freed |
| KernelList.List.Drain | KERNELSPACE/23.Kernel_Linked_list/Kernel_linked_list.c:241-248 | Leaves the empty ring, every node freed |
| KernelList.List.Follow | KERNELSPACE/23.Kernel_Linked_list/Kernel_linked_list.c:96-98 | Following next goes round the ring in order, never through freed memory or a poisoned pointer |
| KernelList.RemoveFirstAt | KERNELSPACE/23.Kernel_Linked_list/Kernel_linked_list.c:139-151 | Removing the first match is cutting out its position |
| KernelList.FirstMatch | KERNELSPACE/23.Kernel_Linked_list/Kernel_linked_list.c:134-153 | Removing the first match drops one element, the first that matches, or none |
| StudentText.CommandParsesBack | KERNELSPACE/23.Kernel_Linked_list/userspace_linked_list.c:59-74 | For every 32-bit id and every name the tool accepts, the command fits the driver's buffer, and it parses back to that student if and only if the name holds no byte 0xA0 |
| StudentText.NamesAgree | KERNELSPACE/23.Kernel_Linked_list/userspace_linked_list.c:62-63 | The names the driver can take are exactly those the tool can, without the byte 0xA0 |
| StudentText.StudentParsesBack | KERNELSPACE/23.Kernel_Linked_list/Kernel_linked_list.c:50-62 | For every 32-bit id and every name without kernel blanks, parsing undoes printing |
| StudentText.FieldsAreTaken | KERNELSPACE/23.Kernel_Linked_list/Kernel_linked_list.c:60-66 | For every student: blanks before and between the two fields do not matter, nor does what follows the name behind a blank or its 31st character |
| StudentText.Scan | KERNELSPACE/23.Kernel_Linked_list/Kernel_linked_list.c:62-66 | What is parsed from any text is a 32-bit id and a name of 1 to 31 characters without blanks |
| StudentText.RenderIsInjective | KERNELSPACE/23.Kernel_Linked_list/Kernel_linked_list.c:96-104 | Two different lists of students never render the same |
| StudentText.ListingReadsBack | KERNELSPACE/23.Kernel_Linked_list/Kernel_linked_list.c:96-104 | Read line by line, the ids by the parser of the driver itself, a listing gives exactly the students listed, in their order |
| StudentText.BodyIsInjective | KERNELSPACE/23.Kernel_Linked_list/Kernel_linked_list.c:100-104 | Two different students never print the same line |
| StudentList.Device.Write | KERNELSPACE/23.Kernel_Linked_list/Kernel_linked_list.c:42-79 | Appends exactly the parsed student and returns the length, or returns 0 and changes nothing when the text is too long, unreadable or faults, or memory is short |
| StudentList.Device.Read | KERNELSPACE/23.Kernel_Linked_list/Kernel_linked_list.c:81-118 | At offset 0 the first 511 characters of the rendered list and that offset, or -EFAULT and nothing; elsewhere nothing |
| StudentList.Device.FillListing | KERNELSPACE/23.Kernel_Linked_list/Kernel_linked_list.c:96-108 | For a list of any length the loop fills the buffer with the first min(511, total) rendered characters, and its early break is never taken |
| StudentList.Device.Ioctl | KERNELSPACE/23.Kernel_Linked_list/Kernel_linked_list.c:120-161 | Deletes and frees the first student whose id is the argument modulo 2^64, and no other; 0, 1 or 2 as found, not found, or unknown command |
| StudentList.Device.Exit | KERNELSPACE/23.Kernel_Linked_list/Kernel_linked_list.c:234-250 | Empties the list and frees every node |
| StudentList.Scnprintf | KERNELSPACE/23.Kernel_Linked_list/Kernel_linked_list.c:100-104 | At most size - 1 characters and a terminator, nothing written past the size, the number written returned |
| StudentList.DeletesThatStudent | KERNELSPACE/23.Kernel_Linked_list/userspace_linked_list.c:95-104 | Asked with the argument that is an id modulo 2^64, the driver deletes the first student with that id, or nobody if there is none; no other id answers to the argument |
| StudentList.SignExtends | KERNELSPACE/23.Kernel_Linked_list/Kernel_linked_list.c:139-139 | The comparison of an int with an unsigned long is equality modulo 2^64 |
| StudentList.ToolAndDriverAgree | KERNELSPACE/23.Kernel_Linked_list/userspace_linked_list.c:62-74 | What the tool writes for a student is short enough for the driver, and is taken as that student if and only if the name holds no byte 0xA0 |
| CallbackRegistry.Registry.Register | KERNELSPACE/27f.Multiple_Callback_Registration/Multiple_Cb_Registration_Module-A.c:20-40 | Appends the callback, or answers -ENOMEM and changes nothing |
| CallbackRegistry.Registry.Unregister | KERNELSPACE/27f.Multiple_Callback_Registration/Multiple_Cb_Registration_Module-A.c:44-69 | Removes and frees the oldest registration of the callback, if any |
| CallbackRegistry.Registry.Notify | KERNELSPACE/27f.Multiple_Callback_Registration/Multiple_Cb_Registration_Module-A.c:73-87 | Over any run of register, unregister and notify: calls every live registration once, in order of registration, with the message; list and log stay what the run amounts to |
| CallbackRegistry.UnregisterUndoesRegister | KERNELSPACE/27f.Multiple_Callback_Registration/Multiple_Cb_Registration_Module-A.c:20-69 | Register then unregister preserves the multiset of callbacks always, and their order if and only if no other callback follows an earlier registration of the same one |
| CallbackRegistry.RunGrows | KERNELSPACE/27f.Multiple_Callback_Registration/Multiple_Cb_Registration_Module-A.c:20-87 | One more operation of a run does to its list and its log of calls what the driver's call does; every method of the registry keeps its list and log equal to those of its run |
| CallbackRegistry.RemovalForgetsOrigins | KERNELSPACE/27f.Multiple_Callback_Registration/Multiple_Cb_Registration_Module-A.c:51-64 | Removing the first matching registration is, seen as callbacks, removing the first match |
| CallbackRegistry.ListIsExact | KERNELSPACE/27f.Multiple_Callback_Registration/Multiple_Cb_Registration_Module-A.c:20-69 | After any run of calls the list holds distinct live registrations in order of registration and, for every callback, as many as were registered and not unregistered since |
| RegisterCache.Regmap.Sync | KERNELSPACE/26g.regcache_ex/regcache_ex.md:116-131 | Of a dirty map, rewrites the cached registers in ascending order, as many as the bus lets through; fails exactly if that is not all of them. A clean map is left alone |
| RegisterCache.Regmap.Suspend | KERNELSPACE/26g.regcache_ex/regcache_ex.c:47-66 | Makes the map cache-only and changes nothing else |
| RegisterCache.Regmap.Resume | KERNELSPACE/26g.regcache_ex/regcache_ex.c:68-92 | Fails exactly if the bus lets fewer writes through than there are cached registers, and then stays dirty with those it wrote; otherwise the map is clean and the chip agrees with the cache on every cached register |
| RegisterCache.Regmap.Probe | KERNELSPACE/26g.regcache_ex/regcache_ex.c:110-188 | On a fresh map, the exact error or success for every chip and every outcome of the bus transfers; only success changes the chip, and only its power register. The outcome of the verifying read's transfer does not matter |
| RegisterCache.Regmap.Read | KERNELSPACE/26g.regcache_ex/regcache_ex.md:56-78 | A cached register is answered from the cache in every mode; any other with -EBUSY while cache-only, with the chip's value if the bus works, else with -EIO |
| RegisterCache.Regmap.Write | KERNELSPACE/26g.regcache_ex/regcache_ex.md:60-78 | The cache always takes the value; the chip takes it unless the map is cache-only or the bus fails, and only the latter is an error |
| RegisterCache.ReadsSeeNoPowerLoss | KERNELSPACE/26g.regcache_ex/regcache_ex.c:47-92 | Over every run of reads, writes, suspends, power losses and resumes, between the resume calls too and with the bus failing anywhere, a successful read returns what a register file that never lost power holds if and only if the register was accessed before the first power loss, or ever written, or powers up with the value it had |
| RegisterCache.ContactedReadsSucceed | KERNELSPACE/26g.regcache_ex/regcache_ex.c:47-92 | In every state of every run, suspended or not and whatever the bus does, a read of a register accessed before the first power loss, or ever written, succeeds and returns what was last written to it, or else what the chip first held |
| RegisterCache.ReadsAnswer | KERNELSPACE/26g.regcache_ex/regcache_ex.md:186-188 | Which reads succeed in a run: those of registers accessed before, always; any other is answered -EBUSY while suspended, -EIO if the bus fails, and otherwise from the chip |
| RegisterCache.RefIsWhatWasWritten | KERNELSPACE/26g.regcache_ex/regcache_ex.md:62-78 | The register file compared with is the chip's first contents with the writes of the run applied |
| RegisterCache.SuspendedLeavesTheChip | KERNELSPACE/26g.regcache_ex/regcache_ex.c:62-63 | While suspended no read or write reaches the chip |
| RegisterCache.AwakeAndCleanMeansRestored | KERNELSPACE/26g.regcache_ex/regcache_ex.c:68-92 | If no write fails on the bus, then whenever the driver is awake and its map clean the chip agrees with the cache on every cached register, however often power was lost |
| RegisterCache.ResumeSucceeds | KERNELSPACE/26g.regcache_ex/regcache_ex.c:86-91 | From any suspended state of any run, the three calls of the resume, with a working bus, make the chip agree with the cache again |
| RegisterCache.ResumeRestoresChip | KERNELSPACE/26g.regcache_ex/regcache_ex.c:86-91 | After a resume that returns 0 the chip agrees with the cache on every cached register, and with the register file that never lost power on every one accessed before the first loss or written |
| RegisterCache.StaleMeansNoContact | KERNELSPACE/26g.regcache_ex/regcache_ex.c:47-92 | A cached register is stale exactly if it was neither accessed before the first power loss nor written since |
| RegisterCache.EarlyContactIsEnough | KERNELSPACE/26g.regcache_ex/regcache_ex.c:122-188 | Once accessed before the first power loss, or written, a register reads for ever after as if power had never been lost |
| RegisterCache.LateContactShowsTheLoss | KERNELSPACE/26g.regcache_ex/regcache_ex.c:86-91 | For every register whose power-on value differs there is a run in which a read shows the loss |
| Debounce.Button.Irq | KERNELSPACE/15.PlatformDriver_DT/gpio_platform_DTC.c:87-99 | A press is accepted exactly in the window of true ticks from HZ/2 + 1 after the last record, half a wrap-around long and recurring, and then becomes the last record; the presses accepted so far are those the history of presses amounts to |
| Debounce.DecisionIsExact | KERNELSPACE/15.PlatformDriver_DT/gpio_platform_DTC.c:93-93 | The wrapped signed comparison decides that window for ticks of any size |
| Debounce.AcceptedAreApart | KERNELSPACE/15.PlatformDriver_DT/gpio_platform_DTC.c:93-96 | Any two accepted presses are more than HZ/2 true ticks apart, across any number of wrap-arounds |
| Debounce.AcceptedAreFew | KERNELSPACE/15.PlatformDriver_DT/gpio_platform_DTC.c:93-96 | Any T ticks contain at most T / (HZ/2 + 1) + 1 accepted presses |
| Broadcast.Server.Register | KERNELSPACE/25b.Netlink_Socket_Broadcast/netlink_kernel_broadcast.c:18-37 | Adds a new sender while there is room, and nobody twice |
| Broadcast.Server.SendBroadcast | KERNELSPACE/25b.Netlink_Socket_Broadcast/netlink_kernel_broadcast.c:39-72 | One attempt per table entry, in table order, past clients without memory and clients not reachable; exactly the latter are reported, each once and in table order |
| Broadcast.Server.Receive | KERNELSPACE/25b.Netlink_Socket_Broadcast/netlink_kernel_broadcast.c:120-149 | Registers the sender, so that the table is the first ten distinct senders so far, then attempts a broadcast to all, itself included, or one reply to it |
| Broadcast.TableIsFirstTenSenders | KERNELSPACE/25b.Netlink_Socket_Broadcast/netlink_kernel_broadcast.c:13-37 | After any history the table is the first ten distinct senders in order of first appearance |
| CharDevice.Device.Write | KERNELSPACE/5.char_cdev_container+file/char_cdev_container+file.c:60-81 | Replaces the stored bytes by the clamped data and leaves the rest of the buffer; a fault part-way overwrites the first bytes and leaves the size alone |
| CharDevice.OpenFile.Read | KERNELSPACE/20.Coherent_DMA_Buffer/coherent_DMA.c:115-136 | Hands out the piece at the file's offset and moves the offset by it; a fault does neither |
| CharDevice.OpenFile.constructor | KERNELSPACE/5.char_cdev_container+file/char_cdev_container+file.c:36-49 | A file opened on a device stays bound to it and starts at offset 0 |
| CharDevice.PiecesAreConsecutive | KERNELSPACE/5.char_cdev_container+file/char_cdev_container+file.c:83-104 | Reads of any lengths from any offset together hand out what one read of their total length would: consecutive bytes, each once |
| CharDevice.DevicesDoNotInterfere | KERNELSPACE/5.char_cdev_container+file/char_cdev_container+file.c:36-104 | What the files of one device observe in any interleaving is what they would observe had the operations on the other devices never happened |
| CharDevice.EachByteOnce | KERNELSPACE/20.Coherent_DMA_Buffer/coherent_DMA.c:93-136 | Between two writes to its device, whatever other files and devices do, each file reads the stored bytes from its offset on exactly once, as many as its reads ask for, and then nothing |
| CharDevice.WhatIsWrittenIsRead | KERNELSPACE/5.char_cdev_container+file/char_cdev_container+file.c:36-104 | What is written through one file is what a file opened afterwards on the same device reads, each byte once and in order, whatever other files and devices do; after a write that faulted part-way, as many bytes as before, the first ones overwritten |

## Left out

- Kernel internals: lists are modelled down to their pointers; every other kernel call is taken at its contract, as listed above.
- Weak memory ordering and signals delivered to kernel threads.
- The shutdown of the consumer of 27d, whose wait does not test for stop.
- LockedRing.ConsumerDelivers: counts the consumer's steps and says nothing of how soon the scheduler grants them; what blocks it is bounded by LockedRing.ProducerFinishes.
- Concurrent writers of 21a, which takes no lock, and what reads return after one of its writes has failed.
- ButtonThread.StepKeepsInv: thread, handler and remover are steps on a value rather than methods of heap objects, because what matters is their interleaving; the same holds of PeriodicTimer, LocklessRing and LockedRing, whose sequential code is in RingBuffer.
- DmaSelfTest.StepKeepsInv: the load routine of 21b is a step machine on a value; update in place is modelled for 21a only, whose transfer is the same.
- RegisterCache.ReadsSeeNoPowerLoss: a write that fails on the bus counts as written in the register file compared with, because the cache takes the value before the bus is tried.
- RingLayout.Cut: the bytes of a slot behind the terminator and the E2BIG result of strscpy, which no caller looks at, are not modelled.
- CallbackRegistry.Registry.Notify: callbacks that call back into the registry, which would block on its own mutex.
- StudentList.Device.Read: the length passed to read, which the driver ignores.
- The load and unload ladders of 5, 20 and 21a: straight-line acquire and release; that of 21b is modelled.
- The mailbox drivers 7 to 10, which clear their flag after copying and so can lose a message; 18 is the version that keeps them.
- 25a and 27e, which would add nothing to 25b and 27f, and the disabled early versions of the character device.
- Everything that only calls libraries: module parameters, ioctl, mmap, sysfs, device tree, GPIO, I2C, TCP tools, build files.
