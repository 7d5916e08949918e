# Honey OS: a verified model of its cores

Honey OS is a small microkernel. User threads exist only as continuation records, memory is handed out by a page
bitmap and a slab allocator, services exchange MessagePack-like buffers, and user-space drivers walk the PCI buses,
drive xHCI rings and decode HID reports. This project models these cores in Dafny and proves what they are for,
over all inputs and over whole runs. `dafny verify dfyconfig.toml` checks all of it.

| files | what they model |
|---|---|
| `Scheduler`, `SchedulerOwnership`, `SchedulerInvariant`, `SchedulerEvolution`, `SchedulerRuns`, `SchedulerEvents`, `SchedulerTables`, `SchedulerEffects`, `SchedulerFaults` | syscall records, requests, events, interrupts, faults and the dispatch loop |
| `LinkedList`, `ListTable`, `EventLists`, `Kernel` | the same kernel in place: linked lists of calls, waiters and subscriptions, and the code that walks, splits and appends to them |
| `Paging`, `VirtualMemory`, `AddressSpaces` | page bitmaps, the search for free pages, two-level page tables taken from the pool that they manage |
| `Slab`, `SlabRuns`, `Allocator` | `_malloc` below 1024 bytes and `free` |
| `MsgPack`, `MsgPackLength`, `MsgPackReaders`, `MsgPackLookup` | the codec: format table, length and write passes, seek, dump, readers, lookup in maps |
| `PciWalk` | the enumeration of PCI functions |
| `TrbRing` | the xHCI ring with cycle bits |
| `StringMap` | string hashes and the nibble trie |
| `HidArray` | array groups of HID reports |

Where the code changes things in place, a class does so too (`List`, `ListTable`, `EventLists`, `Kernel`,
`PagingInfo`, `AddressSpaces`, `Allocator`, `Enumerator`, `Endpoint`, `Trie`, `ArrayGroup`); its methods are proved
equal to functions on values, and the theorems over runs are about those functions. In particular the run queue, the
waiting lists and the subscription lists of `Kernel` are pointer-linked lists on the heap, and every step of the kernel
(`ProcessNext`, `HandleSyscall`, `FinalizeCall`, `OnInterrupt`, `OnException`, and the handlers that `ProcessNext`
calls) is proved to be the step of `Scheduler` on what these lists hold.

How to read the main models:

- **Scheduler.** A state holds the run queue, the running record, all live records, services, events and interrupt
  subscriptions. An action is a dispatch, an interrupt, a syscall, a return of the running thread, or a fault. A
  resumed thread may do anything next, so actions are arbitrary; an interrupt may come between any two other steps.
  `Inv` says that every live record has exactly one holder: one slot of the run queue, one slot of one waiting list,
  one `respondingTo`, or the processor. An outcome `Wild` stands for a null pointer or an index past a table or a page
  bitmap; it ends a run. A step is wild exactly when it dispatches one of the calls of `WildCallNext`
  (`SchedulerEvolution.StepWildIff`): an await or subscription that names no event; a subscription to an interrupt
  beyond the table; a load of an unknown string, or of a missing program that it wants to start; a get-function with a
  known name, a get-event with a name, or a lookup of a symbol, in a service that does not exist; a memory request with
  an explicit or physical range that leaves the address space; and a memory request, an insertion or a reading of a
  string for which the page searches do not end inside the bitmaps. `SchedulerFaults.WildAfterBoot` reaches a wild
  step in three steps from boot. `SchedulerEffects` states what each kernel entry does on the records, the queue and
  the tables themselves, with the numbers that threads put into the registers, and what the indices that calls return
  mean in every later state; `SchedulerTables` proves that the tables behind these indices only grow.
- **Memory.** `VirtualMemory` lets a step take any free frame from the search start on, `Paging` proves which one the
  search yields, and `AddressSpaces` puts both together. Frames from 0x900 on are the pool; frames below are shared
  on purpose. The directory of a new address space begins with what its frame happens to hold.
- **Codec.** Numbers lie in the buffer in the machine's little-endian order, as the code writes them, where the
  MessagePack specification ("Formats / Overview") has them big-endian.

Properties that turned out false, with the exact condition under which they hold:

- A fault keeps the one-holder invariant if and only if exactly one subscriber takes over a pending reply, or no
  reply is pending (`SchedulerInvariant.FaultKeepsOwnershipIff`); `SchedulerFaults.FaultLosesCaller` is a run from boot
  in which it loses a caller.
- A created event can be awaited and subscribed to if and only if its service is not service 0, for which these calls
  take the kernel's events (`SchedulerEffects.CreatedEventMeantIff`).
- Giving a page up keeps frames exclusive if and only if nothing else depends on the frame found in its table entry;
  for a page without a table that entry is read from frame 0 (`VirtualMemory.GiveUpKeepsExclusiveIff`,
  `VirtualMemory.GiveUpWithoutTable`).
- A new address space keeps frames exclusive if and only if the present entries that its frame happens to hold are
  usable: they name allocated tables and frames that nothing else uses (`VirtualMemory.CreateKeepsExclusiveIff`). The
  code does not clear the frame; `VirtualMemory.StaleDirectory` is a case in which the new directory names the
  kernel's table.
- The address that the kernel computes for a physical one leads back to it, after boot, exactly between 0x100000 and
  0x900000 with the exception of 0x500000, where the 32-bit sum wraps around (`VirtualMemory.KernelAddressLeadsBackIff`).
- `giveUpPage` and its loop over connected pages release exactly one page (`AddressSpaces.AddressSpaces.GiveUpPage`).
- The length pass may reserve too little; it reserves enough if and only if the accumulated slack is not negative
  (`MsgPackLength.BufferLargeEnoughIff`), and every array of 16, 20, 24, ... integers and strings is too long for its
  buffer (`MsgPackLength.ArrayOverrun`).
- Seeking over a container returns if and only if it and all containers in it have at most 255 children: the 8-bit
  counter of the loop wraps before it reaches a larger count (`MsgPackReaders.LongLoopNeverReturns`,
  `MsgPackReaders.SeekLands`).
- Seek and dump step over single values as the MessagePack specification ("Formats") has them if and only if they are
  no extensions, whose type byte is forgotten (`MsgPackReaders.SingleValueIsSpecifiedIff`).
- Signed integers read back unchanged exactly in the ranges of `MsgPackLookup.SignedRoundTripIff`.
- `ARRAY_LOOP` starts at the first element exactly for arrays of fewer than 16 elements
  (`MsgPackReaders.ArrayLoopStartsAtFirstElementIff`).
- A lookup by string returns if and only if no value with a container of more than 255 children stands before the
  first key that begins with the searched string, and is exact if and only if in addition no longer key that begins
  with it stands before it (`MsgPackLookup.LookupExactIff`). In the map from "ab" to 1 and "a" to 2 the lookup of "a"
  yields 1 (`MsgPackLookup.ShadowedLookup`); behind an array of 256 elements it never returns
  (`MsgPackLookup.BlockedLookup`).
- Enqueueing keeps the cycle bits of a ring with room if and only if the TRB comes with a clear cycle bit or the
  producer's cycle is 1 (`TrbRing.EnqueueKeepsInvIff`). A TRB that is enqueued again one lap later still has the bit
  from the first time, and the consumer does not find it (`TrbRing.ReusedTrbIsHidden`).
- A HID group has one reader per reported field unless an inverted usage range matches the count by wrap-around
  (`HidArray.ReaderCount`).

Two more consequences of the code that its callers may not expect: a call that awaits the crash event, or the load
event with a nonzero code, is never released, because no step fires the one and the other fires with code 0 only
(`SchedulerEvents.NeverReleased`); and one TRB too many makes the consumer see an empty ring
(`TrbRing.OverrunHidesRing`).

## Model

| member | source | states |
|---|---|---|
| `SchedulerInvariant.StepInv` | src/kernel/syscalls/syscall.c:22-129 | every step keeps the invariant: each live record has exactly one holder, links go to older records, unhandled records are as their threads left them |
| `SchedulerInvariant.BootInv` | src/kernel/main.c:36-57 | the state in which the main loop is entered satisfies the invariant |
| `SchedulerInvariant.HandleGood` | src/kernel/syscalls/syscall.c:85-129 | no handler of the table loses or duplicates a record while it works on a call |
| `SchedulerInvariant.FireGood` | src/kernel/service/events.c:19-38 | firing an event keeps one holder per record while subscribers start and waiters move |
| `SchedulerInvariant.RequestGood` | src/kernel/service/serviceSyscalls.c:73-85 | the request handler keeps ownership while it has the call in hand |
| `SchedulerInvariant.LoadGood` | src/kernel/multiboot/initrdSyscall.c:7-15 | the load handler keeps ownership while it has the call in hand |
| `SchedulerInvariant.AwaitGood` | src/kernel/service/eventSyscalls.c:64-74 | the await handler keeps ownership while it has the call in hand |
| `SchedulerInvariant.ForkGood` | src/kernel/service/serviceSyscalls.c:114-122 | the fork handler keeps ownership while it has the call in hand |
| `SchedulerInvariant.SubscribeEventGood` | src/kernel/service/eventSyscalls.c:48-62 | the handler keeps ownership while it has the call in hand |
| `SchedulerInvariant.CreateFunctionGood` | src/kernel/service/serviceSyscalls.c:59-71 | the handler keeps ownership while it has the call in hand |
| `SchedulerInvariant.CreateEventGood` | src/kernel/service/eventSyscalls.c:5-16 | the handler keeps ownership while it has the call in hand |
| `SchedulerInvariant.CallInv` | src/kernel/syscalls/syscall.c:38-58 | a syscall, which allocates its record and frees that of the running thread, keeps the invariant |
| `SchedulerInvariant.FinishInv` | src/kernel/syscalls/syscall.c:22-36 | a return, which requeues the answered call and frees the record of the running thread, keeps the invariant |
| `SchedulerInvariant.InterruptInv` | src/kernel/interrupts/interrupts.c:26-31 | an interrupt keeps the invariant; who is started is stated by `SchedulerEffects.InterruptStarts` |
| `SchedulerInvariant.FaultKeepsOwnershipIff` | src/kernel/interrupts/interrupts.c:33-46 | an exception keeps ownership if and only if one subscriber takes over the pending reply or none is pending |
| `SchedulerFaults.FaultLosesCaller` | src/kernel/interrupts/interrupts.c:33-46 | four steps after any boot, a fault without subscribers leaves a parked caller live with no holder |
| `SchedulerRuns.OwnershipOverRuns` | src/kernel/main.c:44-57 | the invariant holds in every state of every run |
| `SchedulerRuns.BootRunIsRun` | src/kernel/main.c:44-57 | a run from boot is a run from a state with the invariant, for any programs loaded at boot |
| `SchedulerRuns.ExactlyOneHolder` | src/kernel/syscalls/syscall.c:22-58 | in words: a live record is queued, running, waiting for one event or answered by one record, and exactly one of these |
| `SchedulerRuns.PhaseMonotone` | src/kernel/syscalls/syscall.c:113-129 | over every run a record only moves forward: unborn, unhandled, parked, ready, running, gone |
| `SchedulerRuns.HandlerLeavesUnhandled` | src/kernel/syscalls/syscall.c:113-129 | a step runs the handler of a call if and only if the call leaves the unhandled phase in it |
| `SchedulerRuns.HandlerRunsOnce` | src/kernel/syscalls/syscall.c:113-129 | over every run each call's handler runs at most once |
| `SchedulerRuns.RequeuedOnce` | src/kernel/syscalls/syscall.c:30-35 | over every run a handled call re-enters the run queue at most once |
| `SchedulerRuns.ResumedOnce` | src/kernel/service/service.c:18-24 | over every run a record is resumed at most once |
| `SchedulerRuns.QueueIsFifo` | src/kernel/util/list.c:4-28 | after p pops the old queue, less its first p records, is a prefix of the new one |
| `SchedulerRuns.NoOvertaking` | src/kernel/main.c:49-56 | a record at position k is dispatched by the pop that follows exactly k pops, and by no earlier one |
| `SchedulerRuns.ReplyStep` | src/kernel/syscalls/syscall.c:30-49 | what one step does to a call that waits for a thread: the reply is handed on, or the call is requeued with the return code |
| `SchedulerRuns.ParkedUntilFinish` | src/kernel/syscalls/syscall.c:44-57 | over every run a call stays parked until its thread, followed through all its records, returns |
| `SchedulerRuns.ReplyComesFromItsThread` | src/kernel/syscalls/syscall.c:22-36 | a parked call is requeued at the step in which its own thread returns and at no other; a request then carries the return code, a load keeps the service id |
| `SchedulerRuns.RequestStarts` | src/kernel/service/serviceSyscalls.c:73-85 | a request whose first two parameters are the index of a service and of a function in it waits for a new thread of that function, with its last two parameters and the caller's name and id; any other goes on at once with 0 |
| `SchedulerRuns.LoadStarts` | src/kernel/main.c:27-34 | a load returns the id of the new service and, if it asked to start it, waits for a thread that enters the new program in that service |
| `SchedulerEvents.AwaitStarts` | src/kernel/service/eventSyscalls.c:64-74 | an await leaves its call parked at the end of the waiting list of the event that it named |
| `SchedulerRuns.ForkStarts` | src/kernel/service/serviceSyscalls.c:114-122 | a fork queues a thread of the same service that answers nobody, with the given address and arguments, and then its caller |
| `SchedulerEvents.AwaitStep` | src/kernel/service/events.c:19-38 | what one step does to a waiting call: a matching fire of its event queues it with the fire's data, nothing else moves it |
| `SchedulerEvents.WaitsUntilMatchingFire` | src/kernel/service/eventSyscalls.c:64-74 | over every run a waiting call stays unchanged as long as no matching fire happens |
| `SchedulerEvents.ReleasedByFirstMatchingFire` | src/kernel/service/events.c:23-37 | a waiting call is requeued by the first matching fire and by no other step, carrying that fire's data |
| `SchedulerEvents.KernelEventFires` | src/kernel/service/events.c:40-43 | no step fires the crash event, and the load event fires with code 0 only |
| `SchedulerEvents.NeverReleased` | src/kernel/service/events.c:40-43 | calls that await the crash event, or the load event with a nonzero code, wait for ever |
| `SchedulerEvents.FireKeepsOrder` | src/kernel/service/events.c:23-37 | woken and surviving calls keep the order in which they began to wait |
| `SchedulerEffects.EntriesPossible` | src/kernel/main.c:49-56 | no state with the invariant is stuck: exactly when a dispatch, an interrupt, a syscall, a return or a linear fault can come |
| `SchedulerEffects.InterruptStarts` | src/kernel/interrupts/interrupts.c:26-31 | an interrupt queues one new thread per subscriber, in the order of subscription, each entering its address with the number, answering nobody; nothing else changes |
| `SchedulerEffects.FaultStarts` | src/kernel/interrupts/interrupts.c:33-46 | an exception queues one new thread per subscriber of entry 0 with the saved registers; they owe what the faulting thread owed, and its record is freed |
| `SchedulerEffects.CallContinues` | src/kernel/syscalls/syscall.c:38-58 | a syscall leaves one record at the end of the queue with its number and parameters, the service of the thread and what it owed; the record of the thread is freed |
| `SchedulerEffects.CreateFunctionReturns` | src/kernel/service/serviceSyscalls.c:59-71 | the returned index names, in the caller's service, a function with the given address |
| `SchedulerEffects.RequestEnters` | src/kernel/service/serviceSyscalls.c:73-85 | a request with the service id and index of a function waits for a new thread that enters its address |
| `SchedulerEffects.SubscribeInterruptListed` | src/kernel/interrupts/interrupts.c:99-107 | the list that the first parameter names, and no other, grows by the caller's service with the address in the second |
| `SchedulerEffects.CreateEventReturns` | src/kernel/service/eventSyscalls.c:5-16 | the returned index names, in the caller's service, a new event of the given name without subscribers and waiters, and nothing else names it |
| `SchedulerEffects.ServiceIdReturned` | src/kernel/service/serviceSyscalls.c:20-22 | the caller learns the list index of its own service |
| `SchedulerEffects.SubscribeEventListed` | src/kernel/service/eventSyscalls.c:48-62 | the event that the first two parameters mean, and no other, gets the caller's service with the address in the third as its last subscriber |
| `SchedulerEffects.AwaitWaits` | src/kernel/service/eventSyscalls.c:64-74 | the call parks at the end of the waiting list of the event that its parameters mean: an event of the kernel for service 0, of the service's own list otherwise |
| `SchedulerEffects.FireFires` | src/kernel/service/eventSyscalls.c:39-46 | a fire of an event of the caller's service starts each subscriber with the data, gives the data to the waiters that asked for this code or none, leaves the others waiting, and the caller goes on |
| `SchedulerEffects.LoadLists` | src/kernel/service/service.c:26-92 | the program becomes the next service, its entry is function 0 there, and the load event starts its subscribers with the hash of the name |
| `SchedulerEffects.StackContainsReturns` | src/kernel/service/serviceSyscalls.c:102-112 | the call goes on with 1 if a record on the chain of calls that it answers, itself included, is of the given service, and with 0 otherwise |
| `SchedulerEffects.UnknownCallGoesOn` | src/kernel/syscalls/syscall.c:119-128 | a number beyond the table does nothing but go on with 0 |
| `SchedulerEffects.BootNames` | src/kernel/main.c:36-48 | the loop is entered with one thread, about to enter the loader, with two services whose function 0 is their entry, two kernel events, and no subscriber |
| `SchedulerTables.StepTables` | src/kernel/util/list.c:4-17 | no step takes anything out of the service, event, subscription or interrupt tables |
| `SchedulerTables.FunctionNameOverRuns` | src/kernel/service/serviceSyscalls.c:59-71 | over every run a pair of service and index goes on naming the same function |
| `SchedulerTables.EventNameOverRuns` | src/kernel/service/eventSyscalls.c:5-16 | over every run a pair of service and index goes on naming the same event, and no other pair comes to name it |
| `SchedulerEffects.RequestEntersCreatedFunction` | src/kernel/service/serviceSyscalls.c:59-85 | over every run, a request with the service id and the index that a create-function call got waits for a thread that enters the address given there |
| `SchedulerEffects.RequestEntersLoadedProgram` | src/kernel/service/serviceSyscalls.c:73-85 | over every run, a request for function 0 of the id that a load returned enters the program |
| `SchedulerEffects.CreatedEventStaysNamed` | src/kernel/service/eventSyscalls.c:5-16 | over every run, the index that a create-event call got names that event under its name in all later states, and nothing else does |
| `SchedulerEffects.CreatedEventMeantIff` | src/kernel/service/eventSyscalls.c:48-74 | a created event can be meant by a later await or subscription if and only if its service is not service 0 |
| `SchedulerEffects.AwaitOfCreatedEvent` | src/kernel/service/eventSyscalls.c:64-74 | over every run, a later await with that index, and a service id other than 0, waits for that event |
| `SchedulerEffects.SubscriptionToCreatedEvent` | src/kernel/service/eventSyscalls.c:48-62 | over every run, a later subscription with that index, and a service id other than 0, is to that event |
| `SchedulerEffects.FireOfCreatedEvent` | src/kernel/service/eventSyscalls.c:39-46 | over every run, a later fire by that service with that index fires that event, with its data and code |
| `SchedulerEffects.FireStartsSubscriber` | src/kernel/service/events.c:19-22 | over every run, whoever subscribed to an event is started by every later fire of it, with the data |
| `SchedulerEffects.InterruptStartsSubscriber` | src/kernel/interrupts/interrupts.c:26-31 | over every run, whoever subscribed to an interrupt is started by every later one, with its number |
| `SchedulerFaults.ChainFollowsLinks` | src/kernel/service/serviceSyscalls.c:102-112 | in every reachable state the links of a call go through strictly older live records to an end |
| `SchedulerEvolution.StepEvolves` | src/kernel/main.c:44-57 | a step keeps the identity of live records, appends to the queue and pops at most its head, and frees at most the running record |
| `SchedulerEvolution.StepWildIff` | src/kernel/syscalls/syscall.c:113-129 | an enabled step ends the run if and only if it dispatches a call that names no event, no interrupt of the table or no loadable program, that looks for a function, event or symbol in a service that does not exist, or whose pages are not in the page bitmaps |
| `SchedulerEvolution.HandleWildIff` | src/kernel/service/eventSyscalls.c:48-74 | a handler runs wild if and only if its call is one of those, whichever handler of the table it is |
| `SchedulerFaults.WildAfterBoot` | src/kernel/service/eventSyscalls.c:64-74 | after any boot, the third step runs wild if the loader awaits a kernel event, or looks up a symbol in a service, with index 2, where there are two |
| `SchedulerEvolution.FireReleases` | src/kernel/service/events.c:23-37 | a waiter is queued with the data if the code matches, and waits on unchanged otherwise |
| `SchedulerEvolution.FireSpares` | src/kernel/service/events.c:19-38 | the waiters of other events are left alone |
| `Kernel.Kernel.ScheduleEach` | src/kernel/service/events.c:20-22 | the walk along a linked list of subscriptions gives each subscriber its thread, in order |
| `Kernel.Kernel.SplitWaiting` | src/kernel/service/events.c:23-37 | the walk along a linked waiting list queues the matching calls with their data and links the others into a new list, both in order |
| `Kernel.Kernel.Fire` | src/kernel/service/events.c:19-38 | on the heap, subscribers, run queue, records and the event's waiting list end up as the fire function says, and no other list changes |
| `Kernel.Kernel.StackContains` | src/kernel/service/serviceSyscalls.c:102-112 | the walk ends and finds the service if and only if it occurs on the caller's chain |
| `Kernel.Kernel.ProcessNext` | src/kernel/main.c:49-56 | one turn of the main loop on linked lists is the dispatch step, keeps the invariant, and fails exactly on a call that runs wild in the sense of `StepWildIff` |
| `Kernel.Kernel.constructor` | src/kernel/main.c:36-48 | the lists and records that the kernel enters its loop with are those of the boot state, which satisfies the invariant |
| `EventLists.EventLists.PutWaiting` | src/kernel/service/events.c:37 | replacing the waiting list of one event changes what waits for that event and nothing else |
| `EventLists.EventLists.AddWaiter` | src/kernel/service/eventSyscalls.c:64-74 | appending to the waiting list of one event changes what waits for that event and nothing else |
| `EventLists.EventLists.AddSubscription` | src/kernel/service/eventSyscalls.c:48-62 | appending to the subscriptions of one event changes that list and no other |
| `ListTable.ListTable.Add` | src/kernel/util/list.c:4-17 | appending to one list of a table leaves all other lists as they were |
| `LinkedList.List.Add` | src/kernel/util/list.c:4-17 | appends at the end of the sequence that the elements hold |
| `LinkedList.List.PopFirst` | src/kernel/util/list.c:19-28 | removes and returns the first datum, or reports an empty list |
| `LinkedList.List.Count` | src/kernel/util/list.c:30-35 | the length of the sequence |
| `LinkedList.List.Get` | src/kernel/util/list.c:37-46 | the datum at a position, nothing past the end |
| `Paging.PagingInfo.ReservePage` | src/kernel/memory/paging.c:52-59 | sets exactly one page bit and keeps summary bits equal to "word full" |
| `Paging.PagingInfo.MarkPageFree` | src/kernel/memory/paging.c:224-229 | clears exactly one page bit and one connected bit and keeps the summary |
| `Paging.PagingInfo.ReservePagesCount` | src/kernel/memory/paging.c:61-65 | sets exactly the bits of a run and keeps the summary |
| `Paging.PagingInfo.FindMultiplePages` | src/kernel/memory/paging.c:94-121 | if a fitting run exists, the search ends, stays inside the bitmap and yields the lowest one |
| `Paging.PagingInfo.FitsIsPlainScan` | src/kernel/memory/paging.c:94-121 | for nonempty runs the summary does not matter: the result is that of a plain scan of page bits from the rounded start |
| `VirtualMemory.MapPageEffect` | src/kernel/memory/paging.c:150-174 | after `mapPage` one page of one space leads to the frame and every other page of every space leads where it did, also when a table is allocated on the way |
| `VirtualMemory.AddressesAfterMapPage` | src/kernel/memory/paging.c:39-46 | translated addresses after `mapPage`: frame plus offset in that page, unchanged in every other mapped page |
| `VirtualMemory.PhysicalAddressOfMapped` | src/kernel/memory/paging.c:39-46 | `getPhysicalAddress` of an address in a mapped page is its frame plus the offset |
| `VirtualMemory.MapFreshKeepsExclusive` | src/kernel/memory/paging.c:176-196 | mapping a free frame, with or without a new table, keeps frames exclusive |
| `VirtualMemory.GiveUpEffect` | src/kernel/memory/paging.c:212-222 | giving a page up unmaps it and changes no other translation |
| `VirtualMemory.GiveUpKeepsExclusiveIff` | src/kernel/memory/paging.c:243-265 | giving a page up keeps frames exclusive if and only if nothing else depends on the released frame |
| `VirtualMemory.MappedPageIsOnlyUse` | src/kernel/memory/paging.c:243-265 | the condition holds for every page mapped to a pooled frame and for unmapped pages of present tables; the frame released is the one mapped |
| `VirtualMemory.GiveUpWithoutTable` | src/kernel/service/memorySyscalls.c:43-48 | the condition fails for a page without a table: here the kernel's own table is released |
| `VirtualMemory.StoreIsIsolated` | src/kernel/memory/paging.c:150-174 | what a program stores in its own pages reaches no page table and changes no translation |
| `VirtualMemory.CreateKeepsExclusiveIff` | src/kernel/service/service.c:31-33 | a space made on an uncleared frame keeps frames exclusive if and only if the entries in that frame name allocated, distinct, tidy tables that nobody else uses, and lead to allocated frames that nobody else uses |
| `VirtualMemory.ClearedIsUsable` | src/kernel/service/service.c:31-33 | a frame without present entries meets the condition |
| `VirtualMemory.StaleDirectory` | src/kernel/service/service.c:31-33 | the condition fails if the first frame that the kernel takes after boot holds an entry that names the kernel's table |
| `VirtualMemory.BootExclusive` | src/kernel/boot/boot.asm:40-92 | the tables and reserved frames that the boot code leaves are exclusive |
| `VirtualMemory.BootAddresses` | src/kernel/boot/boot.asm:40-92 | after boot the kernel finds its data from 0xFF800000 on at 0x500000 and its code from 0xFFC00000 on at 0x100000, page by page and address by address |
| `VirtualMemory.KernelAddressLeadsBackIff` | src/kernel/memory/paging.c:17-27 | exactly which physical addresses the computed kernel address leads back to |
| `VirtualMemory.FramesAreExclusive` | src/kernel/memory/paging.c:150-265 | in every state of every run, over any number of spaces, each with a directory that began empty or with usable contents: no pooled frame is mapped twice, none is both table and page, all in use are allocated |
| `VirtualMemory.TranslationIsStable` | src/kernel/memory/paging.c:150-265 | over every run a page keeps its frame until a step maps or gives up that very page, or makes its address space |
| `AddressSpaces.AddressSpaces.constructor` | src/kernel/memory/paging.c:70-92 | boot: the first 0x900 frames are reserved, kernel pages 0 and from 0xFF800 on are taken |
| `AddressSpaces.AddressSpaces.FindFrame` | src/kernel/memory/paging.c:123 | `findPage` on the frame bitmap yields the lowest available frame |
| `AddressSpaces.AddressSpaces.MapPage` | src/kernel/memory/paging.c:150-174 | in place: the step of the value model, with the lowest available frame as new table |
| `AddressSpaces.AddressSpaces.GetPage` | src/kernel/memory/paging.c:176-184 | a kernel page that was free is mapped to a frame that was free, as one step of the value model |
| `AddressSpaces.AddressSpaces.GetPagesCount` | src/kernel/memory/paging.c:186-196 | the lowest fitting run of free kernel pages is mapped to distinct frames that were free; nothing else changes |
| `AddressSpaces.AddressSpaces.RequestMemory` | src/kernel/service/memorySyscalls.c:6-35 | an anonymous request inside the address space maps the chosen pages of the caller to distinct frames that were free and keeps frames exclusive; for an explicit range that leaves it, and for no other, there is no result and nothing is promised |
| `AddressSpaces.AddressSpaces.GiveUpPage` | src/kernel/memory/paging.c:243-265 | exactly one page is released, whatever pages are connected; the new state is that of the give-up step |
| `Slab.SlotFitsRequest` | src/kernel/memory/malloc.c:22-25 | a slot is larger than the request and at most twice as large; exactly the sizes below 1024 get slots |
| `Slab.LayoutFillsPage` | src/kernel/memory/malloc.h:16-24 | the 37 words behind the slots begin where the data ends, do not overlap, and end with the page |
| `Slab.SlotCount` | src/kernel/memory/malloc.c:44-49 | a block has as many slots as fit before the first metadata word, and at most 1024 |
| `Slab.FirstFreeIsLowest` | src/kernel/memory/malloc.c:41-59 | the search yields the lowest free slot before the metadata and fails only if all are taken; the summary test changes nothing |
| `Slab.ReserveEffect` | src/kernel/memory/malloc.c:3-17 | reserving sets one bit and keeps the summary equal to "word full" |
| `Slab.ReleaseEffect` | src/kernel/memory/malloc.c:75-79 | releasing clears one bit and keeps the summary |
| `Slab.ReleaseUndoesReserve` | src/kernel/memory/malloc.c:3-17 | releasing a slot just reserved restores all bits |
| `Slab.FreshBlockHasRoom` | src/kernel/memory/malloc.c:28-40 | a fresh block offers slot 0, so the search along a chain ends |
| `Slab.PlaceIsFree` | src/kernel/memory/malloc.c:26-63 | the place found is a free slot of a block of the right size, in the chain grown if need be |
| `Slab.PlaceIsFirst` | src/kernel/memory/malloc.c:26-63 | the place is the lowest free slot of the first block with one; a fresh page is taken if and only if every slot of the chain is taken |
| `SlabRuns.AddressParts` | src/kernel/memory/malloc.c:66-80 | `free` recovers page and slot from the address that was handed out |
| `SlabRuns.AllocateIsSound` | src/kernel/memory/malloc.c:21-64 | an allocation was not live, is zeroed, is long enough, and no byte outside its slot has changed |
| `SlabRuns.DeallocateIsSound` | src/kernel/memory/malloc.c:66-80 | `free` of a live allocation ends that allocation and no other |
| `SlabRuns.FreeUndoesMalloc` | src/kernel/memory/malloc.c:66-80 | freeing what was just allocated restores every bit of every earlier block |
| `SlabRuns.InvOverRuns` | src/kernel/memory/malloc.c:3-80 | in every state of every run the taken slots are exactly the live allocations |
| `SlabRuns.AllocationsDisjoint` | src/kernel/memory/malloc.c:21-64 | in every state of every run live allocations are pairwise disjoint |
| `SlabRuns.AllocationsInBounds` | src/kernel/memory/malloc.c:47-50 | in every state of every run a live allocation is at a taken slot with room for it and ends before `DATA_SIZE` |
| `SlabRuns.AllocationsAvoidMetadata` | src/kernel/memory/malloc.h:16-24 | in every state of every run no byte of a live allocation, or of the slot that is cleared for it, lies in a bitmap word, the summary, the size, a link or the magic word |
| `SlabRuns.ContentsAreStable` | src/kernel/memory/malloc.c:13-16 | over every run an allocation keeps its bytes until its owner writes to it or frees it |
| `Allocator.SearchBlock` | src/kernel/memory/malloc.c:41-59 | the nested loops find the lowest free slot, or none |
| `Allocator.ReserveSlot` | src/kernel/memory/malloc.c:3-17 | the loop over the word computes the summary bit; the slot is zeroed |
| `Allocator.Allocator.AppendBlock` | src/kernel/memory/malloc.c:28-40 | the fresh block becomes the last of its doubly linked chain and disturbs no other chain |
| `Allocator.Allocator.Malloc` | src/kernel/memory/malloc.c:21-64 | in place: the walk along the chain ends, and the new heap and address are those of the value model |
| `Allocator.Allocator.Free` | src/kernel/memory/malloc.c:66-80 | in place: the new heap is that of the value model |
| `MsgPack.OneRange` | src/include/msgpack.h:167-203 | the ranges of the format table do not overlap |
| `MsgPack.InitializeFormats` | src/hlib/msgPack/static.c:14-23 | after initialisation every first byte has its one format, and no byte is left out |
| `MsgPack.LittleParts` | src/hlib/msgPack/integer.c:25-77 | the four stored bytes make up the low 32 bits of a number |
| `MsgPack.IntegerIsWrittenAs` | src/hlib/msgPack/integer.c:25-77 | which format row each number is written in, and that the bytes behind the first hold it modulo the width of that format |
| `MsgPack.TextIsWrittenAs` | src/hlib/msgPack/string.c:20-41 | which format row a string is written in by its length; the length field and the bytes follow |
| `MsgPack.ArrayHeaderIsWrittenAs` | src/hlib/msgPack/array.c:17-35 | which format row an array header is written in by its count, and where it holds the count |
| `MsgPack.MapHeaderIsWrittenAs` | src/hlib/msgPack/array.c:45-66 | which format row a map header is written in by its number of pairs, and where it holds that number |
| `MsgPackLength.LengthMinusWritten` | src/include/msgpack.h:18-62 | the length pass minus the bytes that the write pass stores is exactly the slack, for every value tree |
| `MsgPackLength.BufferLargeEnoughIff` | src/include/msgpack.h:56-62 | the buffer is large enough if and only if the slack is not negative |
| `MsgPackLength.TameValuesFit` | src/hlib/msgPack/array.c:3-43 | it is large enough for every tree of unsigned integers below 2^31 without a container count that is a multiple of 4 from 16 on; scalars fit exactly |
| `MsgPackLength.ArrayOverrun` | src/hlib/msgPack/array.c:3-15 | every array of integers and strings whose count is a multiple of 4 and at least 16 is written past the end of its buffer |
| `MsgPackReaders.SeekElements` | src/hlib/msgPack/util.c:118-124 | the loop, with its counter modulo 256, computes the loop function |
| `MsgPackReaders.LongLoopNeverReturns` | src/hlib/msgPack/util.c:120-122 | with 256 elements or more the counter wraps before it reaches the count and the loop never returns |
| `MsgPackReaders.SeekLoopCounts` | src/hlib/msgPack/util.c:120-122 | the loop returns what as many seeks as there are elements return, if and only if they are at most 255 |
| `MsgPackReaders.SeekLands` | src/hlib/msgPack/util.c:97-128 | seek lands exactly one past any encoded value, whatever follows, if all containers have at most 255 children, and never returns otherwise |
| `MsgPackReaders.DumpLands` | src/hlib/msgPack/util.c:20-95 | the dump's traversal ends exactly one past any encoded value |
| `MsgPackReaders.SingleValueIsSpecifiedIff` | src/hlib/msgPack/util.c:97-115 | seek and dump step over any single value, also of formats that nothing writes, as the MessagePack specification has it if and only if it is no extension; of extensions they leave one byte |
| `MsgPackReaders.ArrayHeaderRead` | src/hlib/msgPack/array.c:68-88 | a written array header reads back as its count and length |
| `MsgPackReaders.MapHeaderRead` | src/hlib/msgPack/array.c:90-107 | a written map header reads back as its pair count and length |
| `MsgPackReaders.ElementsVisitedInOrder` | src/hlib/msgPack/array.c:68-88 | header read plus k seeks stands at the encoding of element k |
| `MsgPackReaders.PairsVisitedInOrder` | src/hlib/msgPack/array.c:90-107 | header read plus k seeks stands at the encoding of key or value k |
| `MsgPackReaders.ArrayLoopStartsAtFirstElementIff` | src/include/msgpack.h:101-116 | the loop macro starts at the first element if and only if the array has fewer than 16 elements |
| `MsgPackLookup.IntegerReadsAs` | src/hlib/msgPack/integer.c:79-119 | what any written integer reads back as |
| `MsgPackLookup.IntegerFormatsRead` | src/hlib/msgPack/integer.c:79-119 | what each integer format reads as, written by this code or not |
| `MsgPackLookup.OthersReadAsZero` | src/hlib/msgPack/integer.c:83-86 | whatever is no integer reads as 0 |
| `MsgPackLookup.UnsignedRoundTrip` | src/hlib/msgPack/integer.c:25-119 | unsigned 32-bit integers read back unchanged |
| `MsgPackLookup.SignedRoundTripIff` | src/hlib/msgPack/integer.c:25-119 | exactly which signed integers read back unchanged |
| `MsgPackLookup.TextRoundTrip` | src/hlib/msgPack/string.c:20-67 | strings read back unchanged, whatever follows |
| `MsgPackLookup.MapGetFromString` | src/hlib/msgPack/string.c:69-102 | the loop over pairs computes the search function |
| `MsgPackLookup.LookupFindsFirstPrefix` | src/hlib/msgPack/string.c:69-102 | on every encoded map with string keys the lookup yields the value of the first pair whose key begins with the search string if all values before it have containers of at most 255 children only, misses if no key does and all values are such, and never returns otherwise |
| `MsgPackLookup.LookupExactIff` | src/hlib/msgPack/string.c:84-95 | on every encoded map with string keys, the lookup never returns if and only if a larger value stands before the first key with that beginning; it yields the value of the first pair with exactly the searched key, or misses if there is none, if and only if moreover no longer key with that beginning stands before it |
| `MsgPackLookup.ShadowedLookup` | src/hlib/msgPack/string.c:84-95 | in the encoded map from "ab" to 1 and "a" to 2, the lookup of "a" yields 1 |
| `MsgPackLookup.BlockedLookup` | src/hlib/msgPack/string.c:96-99 | in every encoded map from "b" to an array of 256 or more elements and from "a" to anything, the lookup of "a" never returns |
| `PciWalk.ClosedUnderReaching` | src/userland/lspci/main.c:99-101 | a set of buses closed under bridges contains all that its members reach |
| `PciWalk.Enumerator.CheckFunction` | src/userland/lspci/main.c:78-102 | lists the function if present, with the words of its configuration space, and everything on the buses newly reached through it |
| `PciWalk.Enumerator.CheckDevice` | src/userland/lspci/main.c:104-120 | lists exactly the present functions of the device, and everything on buses newly reached |
| `PciWalk.Enumerator.CheckBus` | src/userland/lspci/main.c:122-130 | ends for every configuration space; marks buses reached from this one only, closed under bridges, with all their functions listed once |
| `PciWalk.Enumerator.InitializePci` | src/userland/lspci/main.c:139-155 | checks exactly the reachable buses, lists each present function on them exactly once, with its list index as id and with ids, class and base addresses as its own configuration space has them |
| `TrbRing.SetupIsEmpty` | src/userland/usb/xhci/trbRing.c:33-44 | a zeroed ring is the empty queue |
| `TrbRing.EnqueueAppends` | src/userland/usb/xhci/trbRing.c:4-15 | with room, a TRB whose stored cycle bit is the producer's is appended to the queue of outstanding TRBs; what it carries is stated by `TrbRing.ReceivedIsGiven` |
| `TrbRing.EnqueueKeepsInvIff` | src/userland/usb/xhci/trbRing.c:4-15 | with room, the cycle bits stay in order if and only if the TRB comes with a clear cycle bit or the producer's cycle is 1 |
| `TrbRing.ReusedTrbIsHidden` | src/userland/usb/xhci/trbRing.c:4-15 | in a ring of two entries, a TRB that was put and taken once and is put again as it was stamped breaks the order of the cycle bits, and the consumer does not find it |
| `TrbRing.FetchTakesOldest` | src/userland/usb/xhci/trbRing.c:17-31 | fetch is empty if and only if nothing is outstanding, and takes the oldest TRB otherwise |
| `TrbRing.OutstandingAreDistinct` | src/userland/usb/xhci/trbRing.c:4-15 | at most size - 1 TRBs are outstanding, at distinct places |
| `TrbRing.OverrunHidesRing` | src/userland/usb/xhci/trbRing.c:4-15 | one TRB too many hides all outstanding ones from the consumer |
| `TrbRing.RingIsFifo` | src/userland/usb/xhci/trbRing.c:4-44 | under every interleaving, the TRBs stored are the ones received followed by the ones outstanding |
| `TrbRing.ReceivedIsGiven` | src/userland/usb/xhci/trbRing.c:4-31 | under every interleaving, the k-th TRB received has the data, status and control word of the k-th TRB given to the producer, with the producer's cycle in bit 0 |
| `TrbRing.LinkStays` | src/userland/usb/xhci/trbRing.c:9-13 | under every interleaving the last entry remains a link of type 6 with the toggle bit to the start of the ring |
| `TrbRing.Endpoint.constructor` | src/userland/usb/xhci/trbRing.c:33-44 | in place: memory and both ends are those of the initial ring |
| `TrbRing.Endpoint.EnqueueCommand` | src/userland/usb/xhci/trbRing.c:4-15 | in place: memory, index and cycle are those of the value model, and the address is that of the slot written |
| `TrbRing.Endpoint.TrbRingFetch` | src/userland/usb/xhci/trbRing.c:17-31 | in place: result, index and cycle are those of the value model |
| `StringMap.HashString` | src/kernel/stringmap/stringmap.c:9-15 | the loop computes the hash function |
| `StringMap.HashOfConcat` | src/kernel/stringmap/stringmap.c:9-15 | the hash of a concatenation is hash(s) * 257^length(t) + hash(t), modulo 2^32 |
| `StringMap.HashOfCharacters` | src/kernel/stringmap/stringmap.c:9-15 | the hashes of the empty string and of strings of one and two characters |
| `StringMap.ShortNamesNeverCollide` | src/kernel/stringmap/stringmap.c:9-15 | two 7-bit strings of up to four characters have the same hash if and only if they are equal |
| `StringMap.NibblesDetermineId` | src/kernel/stringmap/stringmap.c:20-28 | the eight nibbles determine a 32-bit id |
| `StringMap.FindAfterGrow` | src/kernel/stringmap/stringmap.c:22-25 | a fresh zeroed layer changes what no id leads to |
| `StringMap.FindAfterWrite` | src/kernel/stringmap/stringmap.c:28 | writing the last word changes the string of that id and of no other |
| `StringMap.Trie.InsertString` | src/kernel/stringmap/stringmap.c:17-30 | the map from ids to strings gets this string under its hash, and nothing else changes |
| `StringMap.Trie.RetrieveString` | src/kernel/stringmap/stringmap.c:32-43 | the string inserted last under the id and not discarded since, or null |
| `StringMap.Trie.DiscardString` | src/kernel/stringmap/stringmap.c:45-56 | the id is removed from the map, and nothing else changes |
| `HidArray.ReplayDifference` | src/userland/hid/main.c:205-238 | the events between two reports lead from the usages of the one to exactly those of the other |
| `HidArray.EventsAreChanges` | src/userland/hid/main.c:205-238 | down events are exactly the usages that become active, up events exactly those that stop |
| `HidArray.ReplayGivesLastReport` | src/userland/hid/main.c:199-245 | after every report of every sequence, replaying all events from nothing gives the nonzero values of that report |
| `HidArray.ArrayGroup.HandleArrayGroup` | src/userland/hid/main.c:199-245 | in place: emits the events between the two reports and remembers the new one, so that replay gives its usages |
| `HidArray.ReaderCount` | src/userland/hid/main.c:80-99 | exactly when a group gets one reader per reported field |
| `HidArray.ReadersHaveUsages` | src/userland/hid/main.c:80-99 | which usage each reader has: the only listed one, its own listed one, its place in the usage range, or its number |
| `HidArray.BuildReaders` | src/userland/hid/main.c:80-99 | the loops append the readers with these usages |

## Left out

- Stacks, registers, page-directory switches and the contents of user pages: a resumed thread does anything next.
- Records, services and layers are named by the order of their allocation; their addresses are not modelled.
- Handlers that only compute a return value from strings, symbols, files or ports yield an arbitrary one.
- Whether the page searches of a memory request, of an insertion and of a reading of a string end inside the bitmaps is arbitrary input to the scheduler; `Paging` and `AddressSpaces` say what the searches yield.
- Names are string ids; which program a name loads, and whether a string id is known, is arbitrary input.
- The entry of the interrupt table for vector 255, and a boot without the shared library, which the kernel does not survive.
- Interrupts in the middle of a kernel function: steps are atomic, although the first turn of the loop starts with interrupts enabled.
- Exceptions with several or no subscribers while a reply is pending: shown to break ownership, and not steps of runs.
- `kernelMapPhysical`, `sharePage`, device memory requests, the temporary window and the shared library slot: they share frames on purpose and are outside the exclusivity invariant.
- `freePageFrom` and `unmapPageFrom`: the first looks its frame up with the wrong index split; release goes through `giveUpPage`.
- Out of memory: the page search has no upper bound, so a fitting run, or two free frames per page, are preconditions.
- `AddressSpaces.AddressSpaces.RequestMemory`: does not model what the code overwrites when an explicit range makes it write past the end of its bitmap, and promises nothing about that case.
- `VirtualMemory.FramesAreExclusive`: takes absent entries of a new directory as zero, although the code does not clear their frame numbers either, and leaves out spaces whose directory begins with unusable entries.
- `_malloc` from 1024 bytes on, `malloc(0)`, and `free` of addresses outside slab blocks: whole pages go through the page functions.
- The contents of MessagePack floats, binary data, extensions and 64-bit integers, which nothing writes; a total length beyond 32 bits; what the dump prints; lookup by integer; maps with keys of several types.
- `TrbRing.EnqueueAppends`: takes a ring with room, which the code leaves to its callers; `TrbRing.OverrunHidesRing` says what happens without.
- `StringMap.Trie.DiscardString`: does not model that the discarded string itself is freed, which is the allocator's part.
- `TrbRing.Endpoint.EnqueueCommand`: does not model that the caller's own copy of the TRB gets the cycle bit too.
- Reading the bits of HID reports, constant groups and groups that are not arrays.
- `HidArray.BuildReaders`: takes no call in which the loop of the code never ends, which are exactly those that get to a usage range up to 2^32 - 1.
- Port accesses, interrupt controllers, ELF and tar formats, `printf`, and the remaining drivers and programs: device access or format plumbing with easy claims only.
