# A verified model of the camera wrapper's VCHIQ library, frame hand-over and camera object

The repository wraps the Raspberry Pi camera and bundles the user-space VCHIQ messaging
library. This project models the parts whose state is hard to get right and proves what they
guarantee, for every input and every run.

**VCHIQ user library** (`vchiq_lib.c`)

- `MessagePool` is a state machine over the message buffers: the intrusive free list written
  inside the free buffers, each service's `peek_buf`/`peek_size`, the driver's message queues,
  and the completion thread with its eight buffers. One event is what one thread does under one
  lock acquisition, in one malloc or in one ioctl, so a run is an arbitrary interleaving of client
  calls with the completion thread; `alloc_msgbuf` is two events, its look at the list and its malloc. An event that is not enabled changes nothing, so the theorems hold for
  all event sequences. `PoolTheorems` has the theorems.
- `ServiceTable` is a state machine over complete API calls on the 32-slot service table, the
  handle counter and the life of the instance. `TableTheorems` has the theorems.
- `CompletionLog` says which callbacks and acknowledgements completions lead to, in any
  interleaving with API calls, and who has the message headers afterwards.
- `VchiqLib` is the library over real objects: `Service` and `MsgBuf` objects updated in place.
  Its `Valid()` says that the object's fields are those of a pool and of a table that the two
  machines reach from the start by the recorded events. Every method is proved to append exactly
  the stated events, so every theorem about runs of the machines holds of the object; the lemmas
  at the end of the class say so for its own fields.

**Ring queue** (`vchiq_util.c`)

- `RingQueue.Queue` is the sequential class over an array with wrapping 32-bit counters.
- `RingProtocol` has one producer and one consumer thread at the level of single tests, waits,
  loads, stores, increments and signals, with auto-reset events.
- `Bits` and `RingCounters` prove what the masks compute.

**Camera object** (`videommalobject.cpp`, `videommalobject.h`)

- `GrabProtocol`: any number of threads in `grab` and of preview callbacks, one mutex and one
  condition variable, with spurious wake-ups.
- `HeaderCirculation`: where the buffer headers of a pool are.
- `CameraParameters`, `CameraLifecycle`, `VideoCamera`: the flags, the mutually recursive stop
  and destroy functions, and the parameters written to the camera component.
- `Retrieve`: taking the row padding out of a 24-bit image.

What the proofs found about the code as it is:

- `create_service` drops the peek buffer a reused slot still has, and a message header for a
  service without `base.callback` is given to nobody. These are exactly the two ways a buffer is
  lost (`PoolTheorems.AbandonedExactly`); of the headers delivered, clients get exactly those of
  services with a `base.callback` (`VchiqLib.Library.CompletionThread`).
- The buffers malloc'd can be more than were ever in use at once: whenever one is given back between
  another caller's look at the empty list and its malloc (`PoolTheorems.MoreThanEverUsed`). They are
  exactly as many if and only if none was free at some moment since the last malloc
  (`PoolTheorems.Footprint`).
- An initialisation of an unused instance whose `LIB_VERSION` ioctl fails returns a non-NULL instance
  that is not initialised, and leaves its descriptor open; the next one overwrites `instance->fd`, so
  nothing closes it. After any run the descriptors open are the one of the instance in use and one for
  each such failure (`TableTheorems.DescriptorFollowsUse`), and those stay open for good
  (`TableTheorems.LeakedForGood`).
- A malloc that fails while the completion thread has no buffer at all aborts the process; at any
  other time it is retried (`VchiqLib.Library.TopUp`).
- The encoder loops read the length of the queue they are emptying, so of n headers they send
  (n + 1) / 2 (`HeaderCirculation.Pool.PrimeEncoder`).
- A video preview or recording whose creation attempts all fail is still marked as running, if its
  resizer or encoder cannot be created either (otherwise the code goes on to the missing splitter's
  port), and no stop, release or reopening clears the mark until some later start builds the components
  (`CameraLifecycle.FailedStartSticks`).
- A preview is marked as running also when its resizer or its port could not be set up. `grab` then
  waits although nothing calls the preview callback: exactly when the latest start of every preview
  marked as running failed to get its port going (`CameraLifecycle.GrabBlocksExactly`).
- Opening with a shutter speed overwrites the stored exposure mode until `setExposure` is called
  (`CameraLifecycle.FixedRateSticks`).

## Assumptions about the outside

- A DEQUEUE_MESSAGE that fails consumes nothing. AWAIT_COMPLETION returns as headers exactly
  buffers it takes from the end of `msgbufs`. CREATE_SERVICE gives each service it accepts a
  nonzero driver handle it has not given before.
- Locks work. (`alloc_msgbuf` and `free_msgbuf` use a mutex of the same name as, but different
  from, the one that `vchiq_lib_init` creates.) One client thread uses a given service at a time.
- A buffer is released once, by the client that has it.
- The MMAL parameter calls succeed. Buffers given to `retrieve` are large enough for the image.

## Model

| member | source | states |
|---|---|---|
| PoolTheorems.ReachablePartition | dependencies/interface/vchiq_arm/vchiq_lib.c:1743-1764 | in every reachable state the free list, the thread's buffers, the peek buffers, the undelivered headers, the clients' buffers and the lost ones are pairwise disjoint, without repetition, and are together all buffers ever malloc'd |
| PoolTheorems.ReachableFreeListIsChain | dependencies/interface/vchiq_arm/vchiq_lib.c:1748-1762 | following the pointers stored inside the free buffers visits each free buffer once, none in use, and ends |
| PoolTheorems.AllocIsUnowned | dependencies/interface/vchiq_arm/vchiq_lib.c:1743-1755 | neither half of `alloc_msgbuf` hands out a buffer that has an owner, whatever happens between them, and it goes on to malloc exactly when the list is empty |
| MessagePool.StepMoves | dependencies/interface/vchiq_arm/vchiq_lib.c:1526-1577 | every event moves at most one buffer from its recorded place to another and leaves every other place alone |
| MessagePool.StepWrites | dependencies/interface/vchiq_arm/vchiq_lib.c:1711-1721 | the only buffers written are those on loan to the driver, the one a service fetches into, and the one being released |
| MessagePool.ExecKeepsInv | dependencies/interface/vchiq_arm/vchiq_lib.c:1497-1580 | ownership, free-list links, peek fields and thread state stay consistent over every run |
| PoolTheorems.Fifo | dependencies/interface/vchiq_arm/vchiq_lib.c:701-749 | under any interleaving, what a client received followed by what is waiting equals what was waiting followed by what arrived |
| PoolTheorems.ServiceFifo | dependencies/interface/vchiq_arm/vchiq_lib.c:912-962 | from its creation until its slot is reused, a service's client receives the messages queued for it in order, none lost or repeated |
| PoolTheorems.StepFifo | dependencies/interface/vchiq_arm/vchiq_lib.c:1700-1740 | the same for a single event |
| PoolTheorems.PeekStable | dependencies/interface/vchiq_arm/vchiq_lib.c:1709-1737 | while nothing of the service is consumed and its slot is not reused, a peeked message stays in the same buffer with the same bytes at the head of the queue, also past dequeues it is too long for |
| PoolTheorems.FilledKeepsQueues | dependencies/interface/vchiq_arm/vchiq_lib.c:1700-1740 | fetching a message for a peek changes nobody's queue |
| PoolTheorems.FillSucceedsExactly | dependencies/interface/vchiq_arm/vchiq_lib.c:1700-1740 | a fetch for a peek or hold succeeds if and only if the client has a message to receive that is fetched already, or of at most 4096 bytes with the ioctl not refused and a buffer to be had |
| PoolTheorems.DequeueDeliversExactly | dependencies/interface/vchiq_arm/vchiq_lib.c:924-957 | a dequeue delivers the next message if and only if there is one, it fits the client's buffer, and it is fetched already or the ioctl is not refused |
| PoolTheorems.ResetDropsPeeked | dependencies/interface/vchiq_arm/vchiq_lib.c:1653-1677 | a creation drops the message peeked on its slot, starts an empty queue if the driver accepts it, and leaves every other service's messages alone |
| PoolTheorems.HeldMessageKeepsBytes | dependencies/interface/vchiq_arm/vchiq_lib.c:1062-1074 | a held message is the head of its queue and keeps its bytes through every later event until it is released |
| PoolTheorems.ClientBufferStable | dependencies/interface/vchiq_arm/vchiq_lib.c:397-404 | so does any buffer a client has, such as a header given to `base.callback` |
| PoolTheorems.Footprint | dependencies/interface/vchiq_arm/vchiq_lib.c:1747-1754 | after any run the buffers malloc'd are the free ones plus those in use; they are at least as many as were ever in use at once, exactly so many if and only if none was free at some moment since the last malloc; with the mallocs in progress they are at most as many as were ever in use and asked for at once, exactly so many if no malloc failed |
| PoolTheorems.MoreThanEverUsed | dependencies/interface/vchiq_arm/vchiq_lib.c:1747-1763 | whenever a buffer is given back between a look at the empty list and its malloc, there is one buffer more than was ever in use |
| PoolTheorems.UndisturbedFootprint | dependencies/interface/vchiq_arm/vchiq_lib.c:1747-1754 | if nothing comes between a look at the empty list and its malloc, exactly as many buffers are malloc'd as were in use at once |
| PoolTheorems.StepGrows | dependencies/interface/vchiq_arm/vchiq_lib.c:1752-1753 | each event keeps buffers malloc'd plus mallocs in progress at the highest number in use and asked for so far, a malloc that fails taking one off |
| PoolTheorems.AbandonedExactly | dependencies/interface/vchiq_arm/vchiq_lib.c:1663-1664 | a buffer is lost exactly when a slot with a peek buffer is reused or a header is delivered without a callback to take it |
| PoolTheorems.ClientsExactly | dependencies/interface/vchiq_arm/vchiq_lib.c:1549-1563 | a client gets a buffer exactly by holding a message or by a delivered header, and is rid of it exactly by giving it back |
| CompletionLog.DeliverHands | dependencies/interface/vchiq_arm/vchiq_lib.c:1549-1563 | a delivery on the test of `base.callback` gives the header to the client or loses it accordingly, with the driver's bytes, and touches no other buffer of a client |
| ServiceTable.HandleBits | dependencies/interface/vchiq_arm/vchiq_lib.c:1645-1648 | a handle is nonzero, below 2^32, and its low five bits are its slot |
| ServiceTable.SeqFollows | dependencies/interface/vchiq_arm/vchiq_lib.c:1645-1648 | the stored counter runs through the nonzero multiples of 32, skipping zero when it wraps |
| ServiceTable.HandlesDistinct | dependencies/interface/vchiq_arm/vchiq_lib.c:1645-1648 | handles of reservations fewer than 2^27 - 1 apart differ |
| ServiceTable.HandlesRepeat | dependencies/interface/vchiq_arm/vchiq_lib.c:1645-1648 | and 2^27 - 1 apart the sequence numbers repeat |
| TableTheorems.ReservedHandlesDiffer | dependencies/interface/vchiq_arm/vchiq_lib.c:1643-1649 | any two reservations of a run, across shutdowns and re-initialisations, get different handles within that window |
| TableTheorems.LookupFindsLive | dependencies/interface/vchiq_arm/vchiq_lib.c:115-134 | a nonzero handle resolves exactly when a live slot has it; handle 0 resolves exactly when slot 0 is free |
| TableTheorems.DeadHandleStaysDead | dependencies/interface/vchiq_arm/vchiq_lib.c:121-134 | a handle that does not resolve never does again within the window |
| TableTheorems.ClosedForGood | dependencies/interface/vchiq_arm/vchiq_lib.c:332-373 | a created service resolves, and after its close, removal or the last shutdown never again within the window |
| TableTheorems.ServiceKeepsParameters | dependencies/interface/vchiq_arm/vchiq_lib.c:1653-1677 | until its slot is taken again, through any number of other calls, a service's slot holds the parameters it was created with, the driver handle it was given and, until a call ends the service, its handle; until then the handle resolves and the slot is not taken |
| TableTheorems.ReservesLowestFreeSlot | dependencies/interface/vchiq_arm/vchiq_lib.c:1598-1641 | a creation on a live instance is turned away if and only if all 32 slots are live, or it is a server's and some live service has its fourcc with another callback or another VCHI callback; otherwise both searches give the lowest free slot |
| TableTheorems.CreationExactly | dependencies/interface/vchiq_arm/vchiq_lib.c:1653-1696 | a creation changes no slot but the one it reserves, which holds all its parameters and is live if the driver accepts the service, and is free again if not |
| TableTheorems.UsedIsPeak | dependencies/interface/vchiq_arm/vchiq_lib.c:1635-1641 | `used_services` is the most slots reserved at once in the run since its last first initialisation and bounds every live slot |
| TableTheorems.ServersAgree | dependencies/interface/vchiq_arm/vchiq_lib.c:1611-1633 | live servers with the same fourcc have the same callbacks |
| TableTheorems.InstanceLife | dependencies/interface/vchiq_arm/vchiq_lib.c:1440-1490 | `initialised` is the number of accepted initialisations of the run less that of its accepted shutdowns; while positive `instance->fd` is an open descriptor, and at zero nothing is connected or live |
| TableTheorems.DescriptorFollowsUse | dependencies/interface/vchiq_arm/vchiq_lib.c:1440-1490 | after any run the device has been opened once for each initialisation of an unused instance that got that far, and as many descriptors are open as the instance in use needs plus one for each failing LIB_VERSION of an unused instance; so none is open beyond use if and only if the run has no such failure |
| TableTheorems.LeakedForGood | dependencies/interface/vchiq_arm/vchiq_lib.c:1442-1465 | the descriptor of such an initialisation stays open through any calls that follow |
| TableTheorems.FlagsFollowCalls | dependencies/interface/vchiq_arm/vchiq_lib.c:230-265 | after any run the instance is connected if and only if an accepted connect has found it in use since the last shutdown, and `use_close_delivered` is what the latest handshake that brought an unused instance up has said |
| TableTheorems.FreedExactly | dependencies/interface/vchiq_arm/vchiq_lib.c:176-191 | a live slot is freed by its own removal, by its own close if it is a client's, and by the last shutdown, and by nothing else; otherwise a call leaves it as it is |
| TableTheorems.ReachableInv | dependencies/interface/vchiq_arm/vchiq_lib.c:1582-1698 | the table invariant holds after every sequence of calls |
| CompletionLog.OneCallEachInOrder | dependencies/interface/vchiq_arm/vchiq_lib.c:1549-1562 | the callbacks made are those owed, in order, each by the table of its moment: `base.callback` with header and handle if there is one, else the VCHI callback with userdata and reason if there is one, else none |
| CompletionLog.OneAckPerClose | dependencies/interface/vchiq_arm/vchiq_lib.c:1564-1569 | the acknowledgements sent are exactly one, with the driver's handle, for each completion with reason SERVICE_CLOSED at a moment when the driver wants them, in order |
| CompletionLog.HandleAdds | dependencies/interface/vchiq_arm/vchiq_lib.c:1547-1569 | what one completion adds, by its reason and the fields of the slot and table: at most one callback, then the acknowledgement |
| CompletionLog.ReasonsCorrespond | dependencies/interface/vchiq_arm/vchiq_lib.c:1505-1514 | the seven pairs of the reason table |
| CompletionLog.InterleavedRun | dependencies/interface/vchiq_arm/vchiq_lib.c:1545-1570 | in any interleaving of API calls with completions, the table is what the calls make of it and the log what the completions do, each by the table of its moment |
| CompletionLog.CloseIsAckedAfterCall | dependencies/interface/vchiq_arm/vchiq_lib.c:1545-1570 | the acknowledgement comes right after the callback for the close |
| CompletionLog.CompletionReachesCreator | dependencies/interface/vchiq_arm/vchiq_lib.c:1545-1569 | until the slot is created again, also after the call that ended its service, a completion is handled with the callbacks the service was created with, under its own userdata or its handle (0 once ended), and a close is acknowledged under its own driver handle |
| VchiqLib.Library.constructor | dependencies/interface/vchiq_arm/vchiq_lib.c:63-82 | the zero-initialised statics are the start of both machines |
| VchiqLib.Library.AllocMsgbuf | dependencies/interface/vchiq_arm/vchiq_lib.c:1743-1755 | pops the list through the link in the buffer's own memory, or mallocs |
| VchiqLib.Library.FreeMsgbuf | dependencies/interface/vchiq_arm/vchiq_lib.c:1757-1764 | writes the link into the buffer and makes it the head |
| VchiqLib.Library.FillPeekBuf | dependencies/interface/vchiq_arm/vchiq_lib.c:1700-1740 | performs the events of a fetch (the two of `alloc_msgbuf` and the ioctl), changes nobody's queue, and succeeds exactly when a message is there already, or one fits and a buffer can be found |
| VchiqLib.Library.FindService | dependencies/interface/vchiq_arm/vchiq_lib.c:115-134 | returns the slot named by the low bits if it has this handle |
| VchiqLib.Library.MsgPeek | dependencies/interface/vchiq_arm/vchiq_lib.c:701-722 | shows the head of the service's queue and its size, and consumes nothing |
| VchiqLib.Library.MsgRemove | dependencies/interface/vchiq_arm/vchiq_lib.c:734-749 | consumes the peeked message and nothing else |
| VchiqLib.Library.MsgDequeue | dependencies/interface/vchiq_arm/vchiq_lib.c:912-962 | returns the message it consumed from the head; on failure, in particular a peeked message that is too long, nothing is consumed |
| VchiqLib.Library.MsgHold | dependencies/interface/vchiq_arm/vchiq_lib.c:1049-1077 | on a successful fetch the head becomes the client's; returns 0 whenever the service is found |
| VchiqLib.Library.ReleaseMessage | dependencies/interface/vchiq_arm/vchiq_lib.c:397-404 | the client's buffer becomes the head of the free list |
| VchiqLib.Library.HeldMsgRelease | dependencies/interface/vchiq_arm/vchiq_lib.c:1019-1031 | the same for a descriptor with a message and no service, otherwise -1 and no change |
| VchiqLib.Library.FindForClient | dependencies/interface/vchiq_arm/vchiq_lib.c:1599-1610 | the ascending search finds the lowest free slot in use so far |
| VchiqLib.Library.FindForServer | dependencies/interface/vchiq_arm/vchiq_lib.c:1611-1633 | so does the descending one, unless a live service has the same fourcc and a callback or VCHI callback that differs |
| VchiqLib.Library.ClaimSlot | dependencies/interface/vchiq_arm/vchiq_lib.c:1596-1651 | slot choice, table growth and the new handle |
| VchiqLib.Library.CreateService | dependencies/interface/vchiq_arm/vchiq_lib.c:1582-1698 | performs one creation; the handle returned is the one reserved, or none |
| VchiqLib.Library.CloseService | dependencies/interface/vchiq_arm/vchiq_lib.c:332-352 | performs one close; SUCCESS exactly if the handle resolves and the ioctl succeeds |
| VchiqLib.Library.RemoveService | dependencies/interface/vchiq_arm/vchiq_lib.c:354-373 | performs one removal |
| VchiqLib.Library.LibInit | dependencies/interface/vchiq_arm/vchiq_lib.c:1419-1495 | performs one initialisation, for every outcome of the handshake |
| VchiqLib.Library.Connect | dependencies/interface/vchiq_arm/vchiq_lib.c:229-266 | performs one connect |
| VchiqLib.Library.Shutdown | dependencies/interface/vchiq_arm/vchiq_lib.c:166-227 | performs one shutdown; the last one empties the table |
| VchiqLib.Library.TopUp | dependencies/interface/vchiq_arm/vchiq_lib.c:1526-1538 | for any outcomes of its mallocs, in any order: fills the thread's array to eight buffers, or aborts, if and only if the array and the free list are empty and the first malloc fails; no buffer of a client is touched |
| VchiqLib.Library.ServeBatch | dependencies/interface/vchiq_arm/vchiq_lib.c:1522-1571 | one turn: tops up, waits and handles the driver's answers in order, clients getting exactly the headers of services with a `base.callback`, or aborts in that one case |
| VchiqLib.Library.AwaitCompletion | dependencies/interface/vchiq_arm/vchiq_lib.c:1540-1543 | the completions and headers of one batch are the driver's answers |
| VchiqLib.Library.CallBack | dependencies/interface/vchiq_arm/vchiq_lib.c:1547-1569 | the callback and the acknowledgement are made from the service object's own fields, the acknowledgement exactly for a close that is to be acknowledged |
| VchiqLib.Library.DeliverAll | dependencies/interface/vchiq_arm/vchiq_lib.c:1545-1570 | the delivery loop handles the batch in order; the headers of services with a `base.callback` become the clients', the others are lost, each still holding the driver's bytes, and no other buffer of a client changes hands or content |
| VchiqLib.Library.DrainAll | dependencies/interface/vchiq_arm/vchiq_lib.c:1573-1577 | every buffer the thread had is on the free list |
| VchiqLib.Library.CompletionThread | dependencies/interface/vchiq_arm/vchiq_lib.c:1497-1580 | for any rounds and any outcomes of malloc: handles the completions of the rounds served in order, leaving clients with exactly the headers of services with a `base.callback`, unchanged, and the other headers lost; unless aborted it has served all rounds and ends holding no buffer; no client event happens |
| VchiqLib.Library.FreeChain | dependencies/interface/vchiq_arm/vchiq_lib.c:1743-1764 | in every valid state the link fields of the buffer objects chain the free ones, each once, from `free_msgbufs` to null |
| VchiqLib.Library.FreeUnshared | dependencies/interface/vchiq_arm/vchiq_lib.c:1743-1764 | a free buffer object is no service's `peek_buf` and no client's |
| VchiqLib.Library.PeekBuffersDiffer | dependencies/interface/vchiq_arm/vchiq_lib.c:1711-1712 | no two service objects share a peek buffer |
| VchiqLib.Library.ReceivedInOrder | dependencies/interface/vchiq_arm/vchiq_lib.c:701-749 | what a client has received and can still receive is what the driver queued since the service was created, in order |
| VchiqLib.Library.ServicesConsistent | dependencies/interface/vchiq_arm/vchiq_lib.c:1582-1698 | live service objects lie in the used part of the table at the index in their handle, only while the instance is in use, and servers with the same fourcc agree on their callbacks |
| RingCounters.SizeTestExactly | dependencies/interface/vchiq_arm/vchiq_util.c:34-37 | on every int above the least one, negative ones included, the size test accepts exactly the powers of two |
| RingCounters.MaskIsMod | dependencies/interface/vchiq_arm/vchiq_util.c:82-104 | masking a wrapped counter is reduction modulo the size |
| RingCounters.TestsUnwrap | dependencies/interface/vchiq_arm/vchiq_util.c:67-75 | the wrapped full and empty tests are exact and the occupancy is the difference modulo 2^32 |
| RingQueue.Queue.constructor | dependencies/interface/vchiq_arm/vchiq_util.c:39-57 | an empty queue of the given size |
| RingQueue.Queue.IsEmpty | dependencies/interface/vchiq_arm/vchiq_util.c:67-70 | true exactly for empty contents |
| RingQueue.Queue.IsFull | dependencies/interface/vchiq_arm/vchiq_util.c:72-75 | true exactly for size elements |
| RingQueue.Queue.Push | dependencies/interface/vchiq_arm/vchiq_util.c:77-87 | appends and signals, or parks exactly when full |
| RingQueue.Queue.Peek | dependencies/interface/vchiq_arm/vchiq_util.c:89-95 | returns the oldest element and keeps it, or parks exactly when empty |
| RingQueue.Queue.Pop | dependencies/interface/vchiq_arm/vchiq_util.c:97-111 | removes the oldest element and signals, or parks exactly when empty |
| RingProtocol.RingIsFifo | dependencies/interface/vchiq_arm/vchiq_util.c:77-111 | under every interleaving the values popped are a prefix of those pushed and no unread slot is overwritten |
| RingProtocol.OneValuePerCall | dependencies/interface/vchiq_arm/vchiq_util.c:77-111 | over any run each pop called has returned one value or is in progress, each peek called has seen one or is in progress, and the values pushed are the arguments of the pushes called, in order |
| RingProtocol.PeekTakesNothing | dependencies/interface/vchiq_arm/vchiq_util.c:89-95 | from its call until it is over, whatever the producer does, a peek moves neither counter and takes no value, and returns the oldest one |
| RingProtocol.PushEnds | dependencies/interface/vchiq_arm/vchiq_util.c:77-87 | a push with room has put its value in and returned once both threads have had six turns, in any order and among any other calls |
| RingProtocol.TakeEnds | dependencies/interface/vchiq_arm/vchiq_util.c:89-111 | so has a pop or peek with a value to return, the pop with the oldest value and the peek with nothing taken |
| RingProtocol.EventsResetThemselves | dependencies/interface/vchiq_arm/vchiq_util.c:79-110 | each event is set if and only if its side has been signalled, while not parked, since it last waited |
| RingProtocol.LoadsOldest | dependencies/interface/vchiq_arm/vchiq_util.c:89-104 | peek and pop read the oldest value not yet popped |
| RingProtocol.NeverBothParked | dependencies/interface/vchiq_arm/vchiq_util.c:79-92 | a parked side's condition still holds or the other is about to signal it, so never both are parked |
| RingProtocol.TestsExact | dependencies/interface/vchiq_arm/vchiq_util.c:67-75 | the tests are exact between any two steps |
| GrabProtocol.NoLostWakeup | videommalobject.h:96-107 | whenever the lock is free, a parked thread's request still stands |
| GrabProtocol.GrabsAreFresh | videommalobject.h:96-103 | a grab returns with a non-empty frame copied after its request, the latest one |
| GrabProtocol.MutualExclusion | videommalobject.cpp:1142-1172 | one thread at a time is in a critical section |
| GrabProtocol.CallbackServesAll | videommalobject.cpp:1137-1174 | a callback that has the lock and a frame somebody is parked for, under any steps of other threads between its own, leaves with the frame announced, every thread that was in the wait woken and nobody parked |
| GrabProtocol.WokenThreadReturns | videommalobject.h:96-103 | under any interleaving in which no new request is made, a woken thread with a frame announced never parks again: it has returned or is still on its way with the frame announced |
| GrabProtocol.TwoStepsReturn | videommalobject.h:96-103 | with a frame announced and the lock free or its own, a thread leaving the wait returns in two steps of its own, with the frame in the buffer, and frees the lock |
| GrabProtocol.WokenThreadGetsOut | videommalobject.h:96-103 | under any interleaving without a new request, a woken thread that runs once when the lock is free, and once more, has returned |
| GrabProtocol.GrabRoundTrip | videommalobject.h:96-107 | a grab that starts parks with its request standing, the callback that brings a frame wakes it, and it returns with that frame |
| GrabProtocol.GrabParks | videommalobject.h:99-102 | a grab with the lock asks and parks, under any steps of other threads between its own, and frees the lock |
| GrabProtocol.SpuriousWakeParks | videommalobject.h:102 | a thread that wakes by itself before a frame is announced parks again with nothing changed |
| GrabProtocol.CallbackPassesBy | videommalobject.cpp:1137-1174 | a callback with an empty frame, or one nobody asked for, changes no flag, wakes nobody and frees the lock, under any steps of other threads between its own |
| GrabProtocol.LockIsGivenUp | videommalobject.cpp:1142-1172 | whoever has the lock gives it up within four steps of its own |
| GrabProtocol.NoCallbackNoReturn | videommalobject.h:96-103 | without callbacks no grab ever returns |
| HeaderCirculation.HeadersConserved | videommalobject.cpp:1157-1170 | over any run every header is in exactly one of queue, port, callback or lost |
| HeaderCirculation.CallbackKeepsCount | videommalobject.cpp:1157-1170 | a callback keeps the port's count if its send succeeds, and loses exactly one header if not |
| HeaderCirculation.SupplyIsSteady | videommalobject.cpp:1211-1226 | so does any number of callbacks |
| HeaderCirculation.RunsOnPrimedHeaders | videommalobject.cpp:955-963 | a pool runs for ever on as many headers as its priming loop sent |
| HeaderCirculation.Pool.PrimePreview | videommalobject.cpp:637-647 | the preview loops send every header, those of failed sends being lost |
| HeaderCirculation.Pool.PrimeEncoder | videommalobject.cpp:1125-1133 | the encoder loops send exactly the first half of the headers, rounded up |
| HeaderCirculation.Pool.BufferCallback | videommalobject.cpp:1211-1226 | a callback returns its header and sends the front of the queue if the port is enabled |
| HeaderCirculation.Pool.PreviewCallback | videommalobject.cpp:1137-1174 | header and frame hand-over together |
| CameraLifecycle.SuccessfulRunsStayCoherent | videommalobject.cpp:110-156 | if every start finds or creates what it needs: ready exactly while previewing or recording, ready and still only when open, and release clears all flags |
| CameraLifecycle.CoherentExactlyOnSuccess | videommalobject.cpp:430-540 | an event keeps the flags coherent if and only if, for a start, one of its attempts succeeded |
| CameraLifecycle.ReleaseClearsExactly | videommalobject.cpp:238-246 | release clears every flag exactly when nothing is marked as running without components |
| CameraLifecycle.NothingIdlesEver | videommalobject.cpp:406-428 | components are never up with nothing running on them, whatever fails |
| CameraLifecycle.FailedStartSticks | videommalobject.cpp:110-123 | the preview or recording flag of a failed start survives everything but a later start that builds the components |
| CameraLifecycle.FailedStart | videommalobject.cpp:110-146 | a preview or recording start leaves its flag set without components exactly when no attempt builds them |
| CameraLifecycle.StillFlagLife | videommalobject.cpp:132-137 | between still starts, the still flag is set if and only if it was and no stop or release has found the camera open since |
| CameraLifecycle.PreviewFlagLife | videommalobject.cpp:117-156 | between starts of the video preview, its flag is set if and only if it was and no stop of it and no release has found the camera open with its components up; stopping a recording does not touch it |
| CameraLifecycle.RecordFlagLife | videommalobject.cpp:117-156 | the same for the recording and its own stop |
| CameraLifecycle.OpenLife | videommalobject.cpp:110-246 | after any run the camera is open if and only if some call has opened it since the latest release, and the components are up as the latest call left them, each start and stop by its own condition |
| CameraLifecycle.GrabBlocksExactly | videommalobject.cpp:248-253 | after any run grab waits with no port feeding the callback if and only if the camera is open, a preview is marked as running, and the latest start of each one so marked did not get its port going |
| CameraLifecycle.GrabHasSource | videommalobject.cpp:688-816 | if every preview start gets its port going, grab waits exactly while some port feeds the callback |
| CameraLifecycle.BackedExactly | videommalobject.cpp:563-650 | a call keeps flags and ports in agreement if and only if it is not a preview start that fails to get its port going |
| CameraLifecycle.FailedResizerBlocksGrab | videommalobject.cpp:701-763 | a failing resizer on ready components leaves coherent flags and grab waiting for nothing |
| CameraLifecycle.WriteThrough | videommalobject.cpp:1239-1330 | in every run an open camera's registers are the encoding of `m_cam_params`, in the ranges the component accepts |
| CameraLifecycle.FixedRateSticks | videommalobject.cpp:219-223 | the exposure mode forced at an opening stays until setExposure, even after the shutter is automatic again |
| CameraLifecycle.OpeningFixesRate | videommalobject.cpp:191-232 | whichever call opens a camera with a shutter speed, the component has that mode whenever the camera is open from then on, until setExposure |
| CameraLifecycle.ExposureLife | videommalobject.cpp:219-223 | over any run the exposure mode is what setExposure was last given, unless an opening with a shutter speed came later, which makes it the fixed-rate one |
| CameraLifecycle.SettingsStick | videommalobject.cpp:1239-1330 | whatever else is called, a parameter is what its set function was last given, cut to its range, and the registers of an open camera show the parameters: values, quarter turn, mirror for both, one or neither flip, gains in fixed point |
| CameraLifecycle.DefaultsStick | videommalobject.cpp:54-78 | a parameter never set keeps its default |
| CameraLifecycle.ClosedUntouched | videommalobject.cpp:1239-1330 | while the camera is closed nothing is written to a component |
| CameraParameters.OpenWritesThrough | videommalobject.cpp:212-232 | an opening leaves registers and parameters equal if and only if a shutter speed is set or the new component's shutter is automatic |
| CameraParameters.SetterWritesThrough | videommalobject.cpp:1344-1438 | each setter's commit writes every register its parameter determines |
| VideoCamera.VideoMMALObject.DestroyVideoComponents | videommalobject.cpp:406-428 | the mutual recursion ends; on running components it clears all three flags, tearing each consumer down once and the splitter twice |
| VideoCamera.VideoMMALObject.StopVideoPreview | videommalobject.cpp:117-123 | on an open camera with components up, clears the preview's flag and port and, unless recording, takes the components down; the recording's flag stays as it is |
| VideoCamera.VideoMMALObject.StopVideoRecord | videommalobject.cpp:147-156 | on an open camera with components up, clears the recording's flag and, unless previewing, takes the components down; the preview's flag and port stay as they are |
| VideoCamera.VideoMMALObject.Release | videommalobject.cpp:238-246 | the flags after a release from any state |
| VideoCamera.VideoMMALObject.Open | videommalobject.cpp:191-206 | opens once and commits all parameters |
| VideoCamera.VideoMMALObject.CreateVideoComponents | videommalobject.cpp:430-540 | opens if needed; failure destroys what is there |
| VideoCamera.VideoMMALObject.StartVideoPreview | videommalobject.cpp:110-115 | up to two creation attempts and the resizer, then the flag in any case; the port is on exactly if all it needs succeeded |
| VideoCamera.VideoMMALObject.StartVideoRecord | videommalobject.cpp:139-146 | the same for recording |
| VideoCamera.VideoMMALObject.StartStillPreview | videommalobject.cpp:125-130 | up to two opening attempts and the preview port, then the flag in any case |
| VideoCamera.VideoMMALObject.CommitParameters | videommalobject.cpp:212-232 | the registers and the stored exposure mode after committing everything |
| VideoCamera.VideoMMALObject.SetRotation | videommalobject.cpp:1256-1263 | the angle modulo 360; the quarter turn below it goes to all three outputs |
| VideoCamera.VideoMMALObject.Grab | videommalobject.cpp:248-253 | requests a frame exactly when the guard passes |
| Retrieve.AlignUpIsLeast | dependencies/interface/vcos/vcos_types.h:207-208 | the mask expression is the least multiple of 32 not below its argument |
| Retrieve.RetrieveUndoesPadding | videommalobject.cpp:286-291 | for every image the callback can have copied, of any width, height, content and padding: no length the code computes overflows, on any pointer size, and retrieve gives the tight image back |
| Retrieve.NoOverflow | videommalobject.cpp:286-291 | if an image shorter than 2^32 bytes holds a padded row, the row length and the stride are exact and fit their types |
| Retrieve.UnstrideUndoesPadding | videommalobject.cpp:286-291 | for any row length, stride, content and padding |
| Retrieve.RetrieveRows | videommalobject.cpp:286-291 | for a received image that holds the rows, the copying loop stays in bounds, writes the unpadded rows and nothing behind them |
| Retrieve.RetrieveFrame | videommalobject.cpp:262-294 | the shape is that of the still preview if open, else the video preview; nothing is copied when the stored length is 0 |

## Left out

- Real ioctls, `open`, `dup`, `close`, errno, EINTR retries and logging: each ioctl is one step whose result is part of the event.
- Calls that look a handle up and pass their arguments to one ioctl: queue message, bulk transfers, use and release, options, configuration, `vchiq_dump_phys_mem`.
- create_service letting go of the mutex before it stores the slot's fields: a creation is one step of the table, so table contents are stated for serialised calls.
- Descriptors are numbered in the order of their opening; that the system reuses the numbers of closed ones is not modelled.
- A service's `fd`, `client_id` and version fields, and what a callback itself does.
- VchiqLib.Library.MsgRemove: the build is one with NDEBUG, where its vcos_assert is empty and removing with nothing peeked changes nothing.
- VchiqLib.Library.CompletionThread: makes no client calls between its completions; their interleavings are the runs of MessagePool and CompletionLog.InterleavedRun.
- The services array is a fixed sequence of `Service` objects, the thread's completions array a sequence, and callback functions are numbers.
- VchiqLib.Library.MsgPeek, like VchiqLib.Library.MsgDequeue, says nothing about the data for the handle 0 on a slot never created, whose `peek_size` is 0 with no buffer; no message is consumed there.
- The ring queue's failing malloc and its deletion, and more than one thread on a side.
- MMAL component creation, formats, connections and encoder settings: only success or failure, and the flags they guard. A camera component that cannot be created is dereferenced by `open` (videommalobject.cpp:196); the model lets `open` return false.
- CameraLifecycle.FailedStart: leaves out that a start without components goes on to the port of the splitter that is missing (videommalobject.cpp:713 and 928), unless creating the resizer (699) or the encoder (863) fails first.
- CameraLifecycle.FailedStillStart: has no row, because after an opening that failed the code has read through the missing camera component (videommalobject.cpp:196) and goes on to store through its port (577).
- How often connections and pools are destroyed, other than the count of teardown runs.
- VideoCamera.VideoMMALObject.SetAWBGains: takes gains from 0 up to 65536 only, because converting others to unsigned is undefined.
- MMAL parameter calls that fail, and setFrameRate's effect on the camera configuration.
- What a second start of a preview that is already running does to the first one's resizer: its outcome is whether a port feeds the callback afterwards.
- Retrieve.RetrieveFrame: the code does not set the length before a first frame, so nothing is promised for a `retrieve` before the first `grab`.
- The I420 branch of `retrieve`, whose loop runs width + height / 2 rows, and a second `retrieve` without a new `grab`, which reads a deleted buffer.
- Output files, `startStillRecord` with its polling loop, and a video and a still encoder running at once.
- `rekkoncamcontrol.*`, which forwards, the empty stubs, and the remaining headers.
