# shimmy: a verified model of the single-producer, many-consumer ring

shimmy is a ring of fixed-size slots in shared memory. One producer publishes messages, any
number of consumers read them, under one of two policies: Overwrite (the producer never waits
and may lap a reader) or Backpressure (the producer waits for the slowest registered cursor).

The model has two layers.

* A transition system (`Protocol`) of one producer, any number of consumer objects and one
  shared memory. Every atomic access, every access to a length and every access to a payload
  byte is one step, and steps interleave freely. Block size, capacity, number of cursors,
  number of consumers, policy, wait strategy and length of the run are symbolic. All promises
  are proved for every reachable state (`Reachable`), from one inductive invariant (`Safety.Inv`)
  that each concern contributes a part to. `StoreBuffer` adds the FIFO store buffer of x86-64, and
  `Unparked` forgets who sleeps on that machine. `Guarantees` bounds what can happen, `Calls` says
  exactly what each call does in every reachable state, and `WholeCalls` runs whole calls and loops.
* Objects (`RingObjects.Ring`, `RingObjects.RingConsumer`) with arrays and loops, used by one
  thread at a time. Each store of `publish` is the next step of the transition system, so the
  objects keep the same window invariant and answer from a bounded log.

`Segment` covers the layout, the header validation and the readiness handshake of the
shared-memory segment; `Bits` the mask and the alignment arithmetic.

## How the source maps to the model

| part of the source | in the model |
|---|---|
| `publish`, include/shimmy/ring.hpp:202-272 | `Protocol.BeginPublish`, `StoreOf`, `AfterStore`, `AfterLoad` |
| `await_consumers_past`, include/shimmy/ring.hpp:359-380 | `ScanInUse` and `ScanValue` in `Protocol.AfterLoad`: two loads per cursor, at different moments |
| `register_consumer`, `unregister_consumer`, include/shimmy/ring.hpp:300-322 | `Claim`, `ZeroCursor`, `StoreInfinity`, `ReleaseCursor` in `Protocol.Advanced` |
| `do_read`, include/shimmy/ring.hpp:586-614 | `Protocol.Classify`, `ReadInto` |
| `read_copy`, include/shimmy/ring.hpp:504-523 | `Protocol.CopyStep` |
| `validate`, `commit`, `resync`, include/shimmy/ring.hpp:541-575 | `Protocol.StillThere`, `Committed`, `ResyncTarget` |
| move constructor, include/shimmy/ring.hpp:459-466 | `Move` in `Protocol.Do` |
| `attach_consumer_at_current`, include/shimmy/shm_segment.hpp:431-436 | `LoadHead`, `StoreSeek` in `Protocol.Advanced` |
| `Futex::wait`, `Futex::notify`, include/shimmy/wait_strategy.hpp:119-178 | `Parking`, `AddWaiter`, `LoadWord`, `WaitWord`, `Asleep`, `DropWaiter`; `LoadWaiters`, `WakeAll` |
| `construct_ring_and_publish_header`, `validate_header`, include/shimmy/shm_segment.hpp:446-531 | `Segment.Program`, `Segment.Check` |

## Assumptions

These come from the contracts of the source; the claims are false without them.

* Sequence numbers stay below `writing_seq` (include/shimmy/ring.hpp:103), and a message fits its
  block (include/shimmy/ring.hpp:200-201).
* A client commits only after an ok read that validated. A Backpressure client neither resyncs nor
  seeks, except through the attach.
* A plain Backpressure registration claims its cursor before message Capacity - 1 is counted
  (include/shimmy/ring.hpp:286-299). If an earlier owner left the cursor at infinity, it also stores its
  zero by then, because until that store the producer does not see it. A cursor that was never used is
  zero already, and its pending store may come at any time. `Deadline.RegistrationDeadline` shows that
  the deadline is exact. Attaching at the head has no such condition.
* A Backpressure consumer holds a cursor. Registration reports a full table only by its return value,
  and `FullTable.CursorDecides` and `FullTable.CursorDecidesTearing` show that a consumer without a cursor
  can lose messages and can accept torn bytes.
* Slot indices are remainders, which `Bits.MaskIsIndex` shows to be the mask of the source for every
  power of two; the protocol needs only a capacity of at least 2.
* Under Backpressure with futex waits, progress is stated for a capacity below 2^32, where the 32-bit
  comparison is exact (`Guarantees.WordsOfTwoLaps`).
* Steps are sequentially consistent, except in `StoreBuffer`, `Unparked` and `Stranding`.

## Findings

* The comment at include/shimmy/wait_strategy.hpp:102-111 argues that no wakeup is lost. That holds under
  sequentially consistent steps (`Guarantees.NoLostWakeup`), but the stamp is a release store
  (include/shimmy/ring.hpp:254) that a store buffer may hold back behind the later load of `waiters`, and the
  code has no fence there. `Stranding.UnfencedStrands` gives a run of Capacity + 1 messages that ends with a
  sleeper whose stamp has moved on and whom nobody will wake. `Stranding.EventCountNeedsFence` is the exact
  condition for Overwrite: runs of N messages strand nobody if and only if N is at most the capacity, or the
  buffer is drained before that load and N is at most 2^32. What is read is not affected:
  `Unparked.SeqlockSafetyWithStoreBuffer` needs no fence.
* The futex compares 32 bits. Under Backpressure this is exact for a capacity below 2^32
  (`Guarantees.NoAliasing`). Under Overwrite a reader can fall asleep on a message that has already been
  published and overwritten, when the producer gains a multiple of 2^32 messages in that slot between the
  load of the stamp and the futex call (`Stranding.SleepsOnAliasedStamp`). For a power-of-two capacity below
  2^32 the first such message is number 2^32 + 1, and `Stranding.SleepersUpToDate` shows that no run of at
  most 2^32 messages can do it.
* A registration that reuses a cursor is invisible to the producer between the claim and the store of its
  zero (include/shimmy/ring.hpp:304-307, 320-321), so joining before the deadline means finishing the
  registration before it (`Deadline.RegistrationDeadline`).
* The header records `max_consumers` in 32 bits (include/shimmy/shm_segment.hpp:460), which alone would let two
  layouts pass as one; `Segment.OnlyOwnLayoutMatches` shows that the recorded ring size rules this out.
* `produced()` lags the stamp by up to one message (include/shimmy/ring.hpp:254-260), so `resync` after
  `lapped` never moves back but may leave the position unchanged (`Guarantees.ResyncNeverRetreats`).

## Model

| member | source | states |
|---|---|---|
| Sequences.SameSlotLapApart | include/shimmy/ring.hpp:204 | two sequences with one slot are at least a lap apart |
| Sequences.WindowHasOneOfEachSlot | include/shimmy/ring.hpp:151-163 | any Capacity consecutive sequences use every slot exactly once |
| Bits.MaskIsIndex | include/shimmy/ring.hpp:163 | `seq & (Capacity - 1)` is the slot index for every power-of-two capacity |
| Bits.IndexIsRemainder | include/shimmy/ring.hpp:163 | the slot index is the sequence modulo the capacity |
| Bits.AlignUpIsLeastMultiple | include/shimmy/shm_segment.hpp:236-238 | align_up is the least multiple not below v if and only if v plus the alignment does not exceed the word range; otherwise it is 0 |
| Window.WindowStore | include/shimmy/ring.hpp:232-260 | every store of publish, in the order of the source, keeps what each slot must hold |
| Window.WindowStep | include/shimmy/ring.hpp:171-260 | every step of the system keeps the ring window |
| Window.LookupAtRest | include/shimmy/ring.hpp:586-614 | with no publish in flight do_read is ok, empty or lapped exactly by the position relative to the last Capacity messages |
| Ownership.OwnershipMove | include/shimmy/ring.hpp:459-466 | move construction keeps every cursor with one owner |
| Ownership.OwnershipStep | include/shimmy/ring.hpp:300-322 | cursors in use correspond one to one to owning consumers, over every step |
| Cover.JoinedReadsNext | include/shimmy/ring.hpp:586-614 | a registered Backpressure consumer reads ok exactly when its message is stamped, and is never lapped |
| Cover.CoverOwnStep | include/shimmy/ring.hpp:551-566 | registering, attaching, reading, committing and leaving keep the cover of the consumer |
| Cover.CoverStep | include/shimmy/ring.hpp:210-215 | the producer never reaches a slot that a registered consumer still needs |
| Reads.StampMeansIntact | include/shimmy/ring.hpp:541-545 | the second stamp load proves that no store to the slot has begun |
| Reads.ReadStep | include/shimmy/ring.hpp:469-554 | what a consumer has loaded stays attributable to one message over every step |
| Loss.LostMeansCounted | include/shimmy/ring.hpp:596-613 | a stamp other than the wanted one means the count has reached the next lap |
| Loss.LossStep | include/shimmy/ring.hpp:551-575 | the loss accounting is kept by every step |
| Parking.StampsWhileWanted | include/shimmy/wait_strategy.hpp:140-149 | while a registered consumer waits, its slot is empty, one lap old, or carries its message |
| Parking.ParkOwnStep | include/shimmy/wait_strategy.hpp:119-150 | a step of a waiting consumer keeps the sleeper condition and the waiter count |
| Parking.ParkStep | include/shimmy/wait_strategy.hpp:102-111 | both conditions are kept by every step |
| Safety.InvReachable | include/shimmy/ring.hpp:202-272 | the invariant holds in every reachable state |
| Safety.RingWindow | include/shimmy/ring.hpp:171-260 | exactly the slot being filled may be marked, every other slot holds the newest message of its class, and the count lags by at most one |
| Safety.StampsAdvanceOneLap | include/shimmy/ring.hpp:217-254 | the stamps of a slot advance by exactly Capacity |
| Safety.BoundedLogAtRest | include/shimmy/ring.hpp:586-614 | between publishes the ring is the bounded log of the last Capacity messages, in every reachable state |
| Safety.BoundedLogInFlight | include/shimmy/ring.hpp:586-614 | during a publish, under both policies: ok means resident, except that the Backpressure slot being filled still answers for the message a lap before; lapped means overwritten; empty means unstamped or, under Overwrite, being written |
| Guarantees.SeqlockSafety | include/shimmy/ring.hpp:85-102 | after validate the length and every loaded byte are those of the published message, and so is everything committed |
| Guarantees.TornViewIsRejected | include/shimmy/ring.hpp:541-545 | validate rejects every view that does not match its message |
| Guarantees.LossAccounting | include/shimmy/ring.hpp:551-575 | commits strictly increase, and every message below the position was committed or is overwritten |
| Guarantees.ResyncNeverRetreats | include/shimmy/ring.hpp:570-575 | resync lands Capacity below the count, not behind the position |
| Guarantees.OverwrittenForGood | include/shimmy/ring.hpp:85-103 | an overwritten message stays overwritten and its stamp is gone |
| Guarantees.ReadCopyAllOrNothing | include/shimmy/ring.hpp:504-523 | read_copy advances by one, or returns nothing, is not ok and does not move; what it returns has min(len, out_cap) bytes and they are the first of the message, for every consumer but a Backpressure one without a cursor |
| Guarantees.LoadsStayInside | include/shimmy/ring.hpp:509-514 | no load leaves the payload, even on a torn view |
| Guarantees.Lossless | include/shimmy/ring.hpp:210-215 | a registered consumer commits exactly the consecutive messages from its start with the published bytes, is never lapped, and its view is valid until it commits |
| Guarantees.StartOfConsumer | include/shimmy/ring.hpp:300-312 | plain registration starts at 0, attaching starts at the loaded count |
| Guarantees.StartIsKept | include/shimmy/ring.hpp:459-466 | once a consumer is registered no event of the system changes its start, and its history only grows, also across a move |
| Guarantees.AttachAtCurrent | include/shimmy/shm_segment.hpp:431-436 | after the seek the head is within one lap of the new cursor and the consumer is lossless from the loaded count on |
| Guarantees.CursorOwnership | include/shimmy/ring.hpp:300-322 | no two live consumers share a cursor, a cursor in use has an owner, a departed consumer has none |
| Guarantees.NoLostWakeup | include/shimmy/wait_strategy.hpp:102-111 | a sleeper's word is unchanged or its slot is inside a publish that finds waiters and wakes it |
| Guarantees.WordsOfTwoLaps | include/shimmy/wait_strategy.hpp:145-149 | the futex words of two consecutive laps agree if and only if the capacity is a multiple of 2^32 |
| Guarantees.NoAliasing | include/shimmy/wait_strategy.hpp:140-149 | under Backpressure the 32-bit comparison never mistakes the wanted message for the stamp seen |
| Calls.LookupExact | include/shimmy/ring.hpp:586-614 | in every state, also during a publish, a slot answers ok, empty or lapped exactly by whether the message is stamped and its slot taken again |
| Calls.ScanExact | include/shimmy/ring.hpp:359-380 | a scan load clears one more cursor exactly when it is free or past, a cursor that is not past sends the scan back to the first, and the first store comes exactly when one pass cleared all |
| Calls.ReadExact | include/shimmy/ring.hpp:469-523 | read, read_copy and each turn of read_blocking report exactly ok, empty or lapped, keep the position, and open a view if and only if the message is there |
| Calls.ReadAtRest | include/shimmy/ring.hpp:471-477 | with no publish in flight the reported status is exactly that of the bounded log of the last Capacity messages |
| Calls.LoadLenExact | include/shimmy/ring.hpp:580-583 | the view gets the length now in the slot, which is that of the message unless its slot was taken |
| Calls.LoadByteExact | include/shimmy/ring.hpp:580-583 | any byte below the length seen may be loaded and is added to the view; it is that of the message unless its slot was taken |
| Calls.ValidateExact | include/shimmy/ring.hpp:541-545 | validate accepts a view if and only if its message is not overwritten, and always for a registered Backpressure consumer |
| Calls.DiscardExact | include/shimmy/ring.hpp:421-425 | a view that is given up changes neither position nor history |
| Calls.CommitExact | include/shimmy/ring.hpp:551-554 | commit moves exactly one message on and adds exactly that read to the history, with and without a cursor |
| Calls.StoreCursorExact | include/shimmy/ring.hpp:339-346 | commit and seek leave the position in the own cursor and change no other |
| Calls.CopyOnExact | include/shimmy/ring.hpp:509-514 | read_copy loads the length and then the bytes in order, one by one |
| Calls.CopyEndExact | include/shimmy/ring.hpp:515-523 | read_copy commits if and only if the message is not overwritten by then, and is lapped otherwise |
| Calls.StartsAnywhere | include/shimmy/ring.hpp:433-441 | an Overwrite consumer may start at any sequence and takes no cursor |
| Calls.MoveExact | include/shimmy/ring.hpp:459-466 | the new object equals the old one in every field, the old one has no cursor, and nothing else changes |
| Calls.NotifyExact | include/shimmy/wait_strategy.hpp:163-174 | notify makes the wake call if and only if some consumer is between its increment and its decrement |
| Calls.WakeExact | include/shimmy/wait_strategy.hpp:163-178 | the wake wakes exactly the sleepers on the slot just published |
| WholeCalls.PublishNeverWaits | include/shimmy/ring.hpp:202-272 | under Overwrite a publish ends after a bounded number of its own steps, whatever the consumers do |
| WholeCalls.LoopDrains | include/shimmy/ring.hpp:504-523 | once the producer is at rest the read_copy and resync loop of any consumer comes to the head, having committed in order and byte for byte exactly the messages still in the ring |
| WholeCalls.Registers | include/shimmy/ring.hpp:300-312 | registration, plain or attached, takes exactly the first free cursor and leaves it at the start position, or takes none when the table is full |
| WholeCalls.Leaves | include/shimmy/ring.hpp:443-450 | the destructor ends with exactly the own cursor free and at infinity, and changes nothing without one |
| WholeCalls.BlocksAfterSpinning | include/shimmy/wait_strategy.hpp:119-129 | a blocking read of a missing message comes to the futex after exactly 64 pauses of this call |
| WholeCalls.SleepsOnUsedSlots | include/shimmy/wait_strategy.hpp:140-150 | then it sleeps if and only if its slot was published before; a never-published slot counts as caught up |
| WholeCalls.WakesSpuriously | include/shimmy/wait_strategy.hpp:149-150 | a sleeper may return without a wake; it takes itself off the waiters and polls again |
| Progress.AwakeForStamped | include/shimmy/wait_strategy.hpp:119-150 | a consumer whose message is stamped does not sleep once the producer has finished its publish |
| Progress.WhoBlocks | include/shimmy/ring.hpp:359-380 | a blocking cursor belongs to exactly one live consumer, which is registering or leaving, or stands exactly one lap behind with its message readable |
| Progress.BlockerCanStep | include/shimmy/ring.hpp:300-322 | the next step of whoever blocks the producer is enabled, pending registrations included |
| Progress.HelpfulStep | include/shimmy/ring.hpp:210-215 | every reachable unfinished Backpressure state, registrations pending or not, has an enabled step that is strictly nearer to the end |
| Progress.RemainingFalls | include/shimmy/ring.hpp:551-554 | no step adds to the messages left to publish and commit, and every begin and commit takes one away |
| Progress.CanAlwaysFinish | include/shimmy/ring.hpp:359-380 | from every reachable Backpressure state any stream of messages still to come can be published completely, with every registered consumer having committed, in order and with the published bytes, all from its start to the end |
| StoreBuffer.SimulateDrain | DESIGN.md:228-230 | draining one store is a step of the delayed producer |
| StoreBuffer.SimulateStep | DESIGN.md:228-230 | with spinning waits or a fence, each machine step is matched by steps of a sequentially consistent run |
| StoreBuffer.FencedRefines | DESIGN.md:228-230 | with spinning waits or a fence, every machine state under Overwrite is that of a sequentially consistent run with a delayed producer |
| Unparked.PlainAct | include/shimmy/wait_strategy.hpp:119-150 | with the parking forgotten, every step of a futex consumer is the step of a spinning one, or none |
| Unparked.PlainReaches | include/shimmy/wait_strategy.hpp:119-178 | with the parking forgotten, every run of the futex machine is a run of the spinning one, with or without a fence |
| Unparked.StoreBufferRefines | DESIGN.md:228-230 | every machine state under Overwrite, its parking forgotten, is that of a sequentially consistent run with a delayed producer, for every wait and without any fence |
| Unparked.SeqlockSafetyWithStoreBuffer | include/shimmy/ring.hpp:534-545 | seqlock safety holds with the store buffer, for every wait and without any fence |
| Stranding.SleepsOnAliasedStamp | include/shimmy/wait_strategy.hpp:145-149 | under Overwrite a consumer falls asleep at any later message of its slot whose low 32 bits are those of the stamp it saw |
| Stranding.SleepersUpToDate | include/shimmy/wait_strategy.hpp:140-149 | without a store buffer, at rest every Overwrite sleeper's stamp is the one it saw, in every run of N messages, if and only if N is at most 2^32 or at most the capacity |
| Stranding.MessagesIntoBuffer | DESIGN.md:228-230 | the program may run ahead of memory by any number of whole messages |
| Stranding.UnfencedStrands | include/shimmy/wait_strategy.hpp:163-171 | without a fence a run of Capacity + 1 messages with the store buffer strands a sleeper |
| Stranding.StampAtRest | include/shimmy/wait_strategy.hpp:132-149 | with the store buffer, fenced or not, the stamp of a waiting consumer's slot at rest is the one it saw or at least a lap ahead of it |
| Stranding.FirstLapStrandsNone | include/shimmy/wait_strategy.hpp:140-144 | a run of at most Capacity messages strands nobody, even without a fence |
| Stranding.FenceStrandsNone | include/shimmy/wait_strategy.hpp:102-111 | with the fence a run of at most 2^32 messages strands nobody |
| Stranding.EventCountNeedsFence | include/shimmy/wait_strategy.hpp:102-111 | with a store buffer, runs of N messages strand no sleeper if and only if N is at most the capacity, or the load of waiters waits for the buffer and N is at most 2^32 |
| FullTable.WithoutCursorLapped | include/shimmy/ring.hpp:311 | a Backpressure consumer that found the table full is lapped in some run |
| FullTable.CursorDecides | include/shimmy/ring.hpp:616-623 | under Backpressure a consumer can be lapped if and only if it has no cursor, for every configuration |
| FullTable.CursorDecidesTearing | include/shimmy/ring.hpp:226-239 | under Backpressure validate can accept torn bytes if and only if the consumer has no cursor |
| Deadline.RegistrationDeadline | include/shimmy/ring.hpp:286-312 | with n messages counted, every pending zero of a plain registration is sure to come before message 0's slot is taken, if and only if n is below Capacity |
| RingObjects.Ring.constructor | include/shimmy/ring.hpp:167 | a new ring is initialised and empty |
| RingObjects.Ring.Init | include/shimmy/ring.hpp:171-186 | init resets every stamp, length and cursor and leaves the payloads |
| RingObjects.Ring.ScanConsumers | include/shimmy/ring.hpp:361-377 | a pass is clear if and only if every active cursor is past the message |
| RingObjects.Ring.Publish | include/shimmy/ring.hpp:202-272 | publish appends the message to the history and changes one slot, or under Backpressure stores nothing while a cursor is not past |
| RingObjects.Ring.FillSlot | include/shimmy/ring.hpp:232-254 | the loop of stores is the run of the transition system from the first store to the stamp |
| RingObjects.Ring.StoreToSlot | include/shimmy/ring.hpp:232-254 | one store to a slot is the next step of the producer |
| RingObjects.Ring.Produced | include/shimmy/ring.hpp:275-277 | the count is the length of the history |
| RingObjects.Ring.RegisterConsumer | include/shimmy/ring.hpp:300-312 | the first free cursor is taken and zeroed, or none when the table is full |
| RingObjects.Ring.UnregisterConsumer | include/shimmy/ring.hpp:314-322 | the cursor is left at infinity and free |
| RingObjects.Ring.SetCursor | include/shimmy/ring.hpp:339-346 | only the given cursor changes |
| RingObjects.RingConsumer.constructor | include/shimmy/ring.hpp:433-441 | a consumer starts at 0; under Backpressure it takes the first free cursor, or none when the table is full; under Overwrite it has none |
| RingObjects.RingConsumer.MoveFrom | include/shimmy/ring.hpp:459-466 | the new object takes position, read and cursor; the old one is left without a cursor |
| RingObjects.RingConsumer.Destroy | include/shimmy/ring.hpp:443-450 | the own cursor is freed at infinity; without one nothing changes |
| RingObjects.RingConsumer.AttachAtCurrent | include/shimmy/shm_segment.hpp:431-436 | the new consumer and its cursor stand at the head, and no other cursor changes |
| RingObjects.RingConsumer.DoRead | include/shimmy/ring.hpp:586-614 | the three results correspond exactly to the bounded log |
| RingObjects.RingConsumer.Read | include/shimmy/ring.hpp:471-477 | an ok read views the published message |
| RingObjects.RingConsumer.Validate | include/shimmy/ring.hpp:541-545 | validate is true exactly while the message is resident |
| RingObjects.RingConsumer.Commit | include/shimmy/ring.hpp:551-554 | the position moves past the message read and the own cursor follows |
| RingObjects.RingConsumer.Seek | include/shimmy/ring.hpp:563-566 | the position and the own cursor take the given sequence |
| RingObjects.RingConsumer.Resync | include/shimmy/ring.hpp:570-575 | after a lap the position moves forward to the oldest resident message; otherwise it is the oldest sequence a ring of that count can hold; the own cursor follows |
| RingObjects.RingConsumer.ReadCopy | include/shimmy/ring.hpp:504-523 | the first min(len, out_cap) bytes are copied, the rest of the buffer is kept, and the position and own cursor move on by one; or nothing changes but the status |
| RingObjects.RingConsumer.Drain | include/shimmy/ring.hpp:551-575 | once the producer has stopped, the read, validate, commit and resync loop ends and delivers in order everything from the position on, or after a lap the last Capacity messages |
| Segment.SlotLayout | include/shimmy/ring.hpp:118-130 | a slot fits its fields in whole cache lines, one line more than the payload |
| Segment.RingParts | include/shimmy/ring.hpp:386-408 | the count, every cursor, every slot and the waiters each begin on the first cache line behind the part before, are disjoint, and the ring ends with the line in which the waiters end |
| Segment.HeaderAndRingDisjoint | include/shimmy/shm_segment.hpp:240-252 | the ring begins aligned behind the header, and a segment is the header, the ring and less than one cache line of padding |
| Segment.ValidateHeader | include/shimmy/shm_segment.hpp:482-531 | the header is adopted if and only if it equals the expected one and the file is large enough; otherwise the rejection names the first of the eleven fields that differs, or the file |
| Segment.OnlyOwnLayoutMatches | include/shimmy/shm_segment.hpp:504-516 | all fields match if and only if the layouts are equal and the state is ready |
| Segment.ConstructionDone | include/shimmy/shm_segment.hpp:450-471 | the stores of the creator leave a complete header that is not ready and an initialised ring |
| Segment.ReadyOnlyAtTheEnd | include/shimmy/shm_segment.hpp:473-477 | the state is not ready before the last store |
| Segment.HandshakeTurn | include/shimmy/shm_segment.hpp:482-516 | every interleaved step keeps the handshake invariant |
| Segment.AdoptedMeansInitialised | include/shimmy/shm_segment.hpp:446-531 | an opener that adopts sees a fully initialised ring, a header that records its own parameters field by field, and every part of the ring inside the file |
| Segment.OpenerAfterCreator | include/shimmy/shm_segment.hpp:446-531 | an opener that comes when the creator is done adopts if and only if the layouts are equal and the segment fits the file |

## Left out

- Memory orders weaker than sequential consistency and the FIFO store buffer: the C++ relaxed semantics in full would be another model.
- A store buffer under Backpressure, where consumers store their cursors through buffers of their own: the refinement covers Overwrite.
- A scheduler: progress is stated as a strictly decreasing measure and a run to the end from every reachable state, not as termination under fairness.
- The count of waiters is an unbounded integer; 2^31 waiting consumers would overflow it.
- Futexes across processes: the wait and wake are of the private kind, so the claims are about one process.
- RingObjects.Ring.Publish: returns None where the source keeps polling, because a single thread cannot be overtaken; the polling itself is part of the transition system.
- RingObjects.RingConsumer.Drain: one thread at a time; the interleaved loop is covered by the loss accounting.
- Late Backpressure registrations that start at 0, and consumers that crash: the source documents both as unsupported. A plain registration past its deadline makes no further step in the model.
- POSIX calls, hugepages, teardown, swap and move of the segment object, and error texts: operating-system plumbing.
- A segment name reused over memory that is not fresh: the handshake starts from zeroed memory.
- Spinning and yielding waits are a plain re-poll; padding and every latency or throughput claim are not functional behaviour.
- The benchmarks, build files and plots.
