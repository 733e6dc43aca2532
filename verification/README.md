# bpfhv: rings and packet schedulers

A Dafny model of two parts of bpfhv, a paravirtual network device whose guest side is
programmable.

**Rings between guest and host.** The packed virtqueue (section 2.7 of VirtIO 1.1) is shared by
guest programs and a host that completes buffers out of order.  `PackedEvents` has the cursor and
event arithmetic, `PackedModel` the ring as four unbounded counters and a permutation,
`PackedLayout` how flags, contents, free ids and the id-to-slot map in memory represent it,
`PackedLoss` which buffers never come back, `PackedVirtq` the programs in place, `PackedSteps` single
steps of the host on a shared queue, `PackedDriver` the guest driver with its count of free slots,
`PackedHost` the host's loops, and `PackedProtocol` the interleavings of both sides.  `PackedDeadlock`
says when the two wait for each other, `PackedRounds` what the backend's rounds exclude, and
`PackedWitness` has the runs in which something goes wrong.  `SringModel`, `Sring`, `SringProtocol` and
`SringWitness` do the same for the shared ring with packets of several descriptors, driver included.

**Packet schedulers.** `Heap` is the binary heap with extraction from the middle; `Wf2qModel`,
`Wf2qFair`, `FlowHeaps` and `Wf2q` are WF2Q+ as a policy on values, its service bounds, and the
scheduler in place on three heaps; `DrrModel` and `Drr` are deficit round robin as a list and in
place as a circle of links, with `Modular` for its 32-bit credits; `QfqArith`, `QfqReach`,
`QfqModel`, `Qfq` and `QfqStart` are the arithmetic, the bucket ring and the start times of QFQ.
`Common` holds shared vocabulary.

## How to read it

A `...Model` module says what happens on values, with a step relation and lemmas over whole runs.
The class beside it is the source's code on fields and arrays; its `Valid` ties the memory to a
ghost value of the model, and each method's contract says which model step it is.  Positions,
times and counts are unbounded in the model; the words, wrap bits and truncations of the source
are written out where they are stored or compared.  A fact written
`forall k: nat :: Unseal(k) ==> fact` is just `fact`; the form keeps the verifier from taking it apart
where it is only carried along.

Interference is modelled in two ways.  The protocol modules interleave single accesses to shared
memory, as the source's full fences order them.  The host loops in `PackedHost` and `Sring` take what
the driver does just before each look as an argument: any list of transmissions and polls, possibly
none, so that also what comes between asking for a kick and looking again is covered.  The driver in
`PackedDriver` takes what the host does before it asks for an interrupt and before it looks again: any
list of buffers taken, given back and sent.

Standing assumptions, as preconditions: a packed ring has at most 2^15 slots, a shared ring a size
that divides 2^32 (the source insists on powers of two, 16 to 8192); a release names an id that was
handed out; live scheduler timestamps fit in a quarter of the 64-bit range before an operation.  That a
publication finds a free slot is not assumed: it follows from the driver's count.  A host that left
because its backend would block is taken to run again, as it waits for room there; one whose backend
failed is not.

## Findings

- A buffer that the scheduler refuses while nothing is in flight is never released: the guard
  that rejects releases with an empty in-flight count also rejects this one, because the count is
  raised only afterwards (proxy/vring_packed.c:547-555, 575, 628).  `PackedLoss.NeverBackExactly` is
  the exact condition over runs, `PackedLoss.RefusedWhenIdle` the shortest run.
- Lost buffers can stop a queue for good: completions stay short of the one the driver has asked an
  interrupt for, while the host sleeps on an empty ring.  `PackedDeadlock.WedgedExactly` has the exact
  condition, in lost buffers against half of what was outstanding at the driver's last request;
  `PackedWitness.LostBufferWedges` is a run with one buffer.  Without losses it does not happen
  (`PackedDeadlock.DriverNeverDeadlocks`).
- A send that fails for another reason than lack of room puts the host to sleep with kicks off
  (proxy/vring_packed.c:415-427, proxy/sring_gso.c:379-392, proxy/backend.c:354-420), and then no
  publication wakes it (`PackedProtocol.FailedIsDeaf`, `SringProtocol.FailedIsDeaf`).  It is the only way
  to sleep on work: `PackedProtocol.SleepsOnWorkExactly`, `SringProtocol.SleepsOnWorkExactly`; runs are
  `PackedWitness.FailedSendSleeps` and `SringWitness.FailedSendWedges`.
- The interrupt test reduces the number of completions modulo 2^16 (proxy/vring_packed.c:243, 668).
  A decision passes over the awaited completion exactly when what is left of the count does not reach
  back to it (`PackedProtocol.MissesExactly`), for instance as the last of 65536
  (`PackedProtocol.LongBatchMisses`); `PackedWitness.LongBatchRun` is a run to that point on a ring of one
  slot, with a host that puts its decision off.  The backend at hand decides after each round
  (proxy/backend.c:563-611), and in rounds it cannot happen (`PackedRounds.RoundsMissNothing`).
- A deficit round robin dequeue does not end for every 32-bit length: credits move in steps of the
  quantum modulo 2^32 and can step over a long packet for ever (sched16/dn_sched_rr.c:199-203).
  `DrrModel.EndsExactly` is the exact condition, `DrrModel.LongestIsNeverServed` an input with the
  default quantum.
- The driver spends credit before the publish program can refuse a packet, and does not look at the
  answer (driver/bpfhv.c:1691-1696).  On the packed ring a packet of several buffers would cost its
  credit for good; scatter-gather is not offered there (proxy/vring_packed.c:694), so none is sent
  (`PackedDriver.XmitAny`).
- Setting bit 31 of a QFQ bitmap sets all higher bits too, since the shifted constant is a 32-bit
  `int` (sched16/dn_sched_qfq.c:113).  The comment asks for slots below 32
  (sched16/dn_sched_qfq.c:429-431) and says that the input guarantees it; an insertion keeps buckets and
  bitmap right up to slot 30 only (`QfqModel.InsertRightExactly`, `Qfq.LateSlotLeavesBits`), and from slot
  32 on it shares a bucket with an earlier slot (`QfqModel.FarInsertAliases`).  There are two ways to get
  there.  A class that is served does with a packet more than 30 times longer than configured
  (`QfqReach.LateSlotNeedsLongPacket`, `QfqReach.LateSlotByLongPacket`).  A class that wakes up with an old
  finish time starts at virtual time, and that may be far ahead of its group with every packet within its
  configured length: `QfqStart.StaleEnqueueExactly` is the exact condition, `QfqStart.StaleArrival` and
  `QfqStart.WithinLengthsOverrun` an input.
- The clipping of deficit round robin quanta is dead code (`Drr.QuantumIsProduct`), and so is the
  complaint about an empty WF2Q+ scheduler (`Wf2qModel.ArrivalFindsOthers`).

## Model

| member | source | states |
|---|---|---|
| PackedEvents.AtIsModulo | proxy/vring_packed_progs.c:40-45 | advancing a cursor one slot at a time with a toggling wrap bit is: slot = position mod ring size, wrap bit = parity of the lap |
| PackedEvents.UnpackOffWrap | proxy/vring_packed_progs.c:79-80 | splitting the 16-bit event word gives back the slot and wrap bit that were packed into it |
| PackedEvents.FiresBehind | proxy/vring_packed.c:256-265 | for an event position at most a lap behind, the 16-bit rebased comparison fires if and only if the distance is at most the batch size reduced modulo 2^16 |
| PackedEvents.SilentAhead | proxy/vring_packed.c:256-265 | for an event position at or ahead of the cursor, within a lap, the comparison does not fire for batches of at most a lap |
| PackedEvents.RebasingExact | proxy/vring_packed_progs.c:76-85 | for event positions within a lap on either side and batches of at most a lap, the rebased 16-bit test fires exactly if the event lies in the batch |
| PackedEvents.OverlongBatchMisfires | proxy/vring_packed.h:154-158 | a batch longer than the ring fires for a position that is still ahead: the bound on batches is needed |
| PackedModel.StepKeepsInv | proxy/vring_packed.c:619-655 | publish, acquire (with every scheduler answer), release, drain and collect keep the four counters in order, the slot-to-buffer table a permutation, and owned and lost buffers in the acquired window |
| PackedModel.DropIsAcquireThenRelease | proxy/vring_packed.c:546-555 | with something in flight a buffer refused by the scheduler ends as if it had been acquired and released |
| PackedModel.CompletedIsFrozen | proxy/vring_packed.c:635-647 | no later step, in particular no swap, changes what an already completed position carries |
| PackedModel.ExactlyOnce | proxy/vring_packed_progs.c:153-181 | over every run: the k-th buffer returned is a published buffer with its own cookie, address and length, no buffer is returned twice, and published = returned + outstanding, with at most a ring of them outstanding |
| PackedModel.AcquiredIsAccountedFor | proxy/vring_packed.c:464-655 | over every run: each acquired buffer is completed, owned by the scheduler, or lost, and only one of these |
| PackedModel.ExecContinues | proxy/vring_packed.c:479-582 | a run of the ring followed by further steps, such as those of one host call, is a run of the ring |
| PackedLoss.HandedBackIsReturned | proxy/vring_packed_progs.c:150-181 | over every run: a buffer counts as handed back if and only if it is among the buffers returned, with its own cookie, address and length |
| PackedLoss.NeverBackExactly | proxy/vring_packed.c:506-629 | over every run and for every published buffer: no continuation of the run returns it if and only if some step took it as untranslatable, or refused it while nothing else was in flight; every other buffer is returned by some continuation |
| PackedLoss.LostStaysOut | proxy/vring_packed.c:624-629 | in every continuation a lost buffer stays at a position that is not completed |
| PackedLoss.LossCondition | proxy/vring_packed.c:546-555 | for the step itself: what is taken with a given verdict never comes back if and only if it is untranslatable, or refused with nothing in flight |
| PackedLoss.RefusedWhenIdle | proxy/vring_packed.c:547-555 | the shortest such run: publish one buffer, refuse it |
| PackedLayout.FlagTests | proxy/vring_packed.c:213-219 | the three flag tests on the two flag bits, for both values of the wrap bit |
| PackedLayout.UsedTestExact | proxy/vring_packed_progs.c:116-134 | at every position of the current lap the used test on the flags tells exactly whether the host has completed that position |
| PackedLayout.PendingTestExact | proxy/vring_packed_progs.c:136-148 | the pending test tells exactly whether the next position is published and not completed |
| PackedLayout.AvailTestExact | proxy/vring_packed.c:210-220 | the available test tells exactly whether a published position is left, also with a full ring |
| PackedLayout.AcquiredFlagsComplement | proxy/vring_packed.c:606-616 | the assertion in the descriptor swap never fails: flags are equal, or complementary when a lap boundary lies between the slots |
| PackedLayout.HeldSlot | proxy/vring_packed.c:631-633 | for every buffer the scheduler owns, the id-to-slot map gives the slot that now carries its id, address and length |
| PackedLayout.PublishQueueOk | proxy/vring_packed_progs.c:30-58 | publishing keeps the whole memory representation: flags, contents, the chain of free ids, the id-to-slot map |
| PackedLayout.CollectKeeps | proxy/vring_packed_progs.c:160-178 | collecting keeps it: the id goes back to the head of the free chain |
| PackedLayout.AcquireQueueOk | proxy/vring_packed.c:507-578 | acquiring with every scheduler answer keeps it, including the in-flight count |
| PackedLayout.ReleaseQueueOk | proxy/vring_packed.c:631-654 | an out-of-order release keeps it, with descriptors and map entries swapped |
| PackedVirtq.Virtq.constructor | proxy/vring_packed.c:93-136 | the initial memory represents the empty ring, with both event words naming position 0 |
| PackedVirtq.Virtq.Add | proxy/vring_packed_progs.c:19-59 | publishes one buffer under the first free id |
| PackedVirtq.Virtq.KickNeeded | proxy/vring_packed_progs.c:62-86 | answers the suppression test for the publications just made |
| PackedVirtq.Virtq.Txp | proxy/vring_packed_progs.c:96-114 | one-buffer packets are published and the kick decided; any other number of buffers is refused and changes nothing, also with a full ring |
| PackedVirtq.Virtq.DescIsUsed | proxy/vring_packed_progs.c:116-127 | true exactly if the host has completed the given position |
| PackedVirtq.Virtq.MoreUsed | proxy/vring_packed_progs.c:129-134 | true exactly if a completion is waiting |
| PackedVirtq.Virtq.MorePending | proxy/vring_packed_progs.c:136-148 | true exactly if the next buffer is published and not completed |
| PackedVirtq.Virtq.Get | proxy/vring_packed_progs.c:150-181 | returns the buffer at the used position with its own cookie, address and length; the error return is never taken |
| PackedVirtq.Virtq.Txc | proxy/vring_packed_progs.c:220-239 | returns the oldest completed buffer, or 0 if there is none |
| PackedVirtq.Virtq.Txr | proxy/vring_packed_progs.c:241-259 | with the host stopped, returns the oldest pending buffer, or 0 if there is none |
| PackedVirtq.Virtq.Reclaim | driver/bpfhv.c:1515-1532 | draining completions and then reclaiming ends, returns every outstanding buffer exactly once in ring order, and frees all ids |
| PackedVirtq.Virtq.ArmInterrupt | proxy/vring_packed_progs.c:199-213 | the event word names the completion asked for, across the end of the ring |
| PackedVirtq.Virtq.Notification | proxy/vring_packed.c:63-91 | turns kicks off, or asks for one at the next publication |
| PackedVirtq.Virtq.MoreAvail | proxy/vring_packed.c:210-220 | true exactly if a published buffer is left |
| PackedVirtq.Virtq.AdvanceAvail | proxy/vring_packed.c:222-229 | moves the available cursor by one slot with its wrap bit |
| PackedVirtq.Virtq.AdvanceUsed | proxy/vring_packed.c:231-240 | moves the used cursor by one slot and keeps the flags to write in step with its wrap bit |
| PackedVirtq.Virtq.SwapAcquired | proxy/vring_packed.c:589-617 | exchanges address, length and id of two slots and leaves flags and marks in place |
| PackedVirtq.Virtq.FinishId | proxy/vring_packed.c:619-655 | the stores of a release; with nothing in flight it does nothing |
| PackedVirtq.Virtq.Release | proxy/vring_packed.c:619-655 | a release by id completes exactly the buffer that was handed out under that id, in any order |
| PackedVirtq.Virtq.AcquireOne | proxy/vring_packed.c:506-581 | one round of acquire hands out the next buffer under its id and counts it, for every scheduler answer |
| PackedVirtq.Virtq.DrainOne | proxy/vring_packed.c:431-447 | one round of drain completes the next buffer in order |
| PackedVirtq.Virtq.IntrNeeded | proxy/vring_packed.c:242-266 | answers the suppression test for the completions just made |
| PackedVirtq.Virtq.Notify | proxy/vring_packed.c:657-675 | decides once for all completions since the last call and resets their count; none leaves the old decision |
| PackedDriver.TxClean | driver/bpfhv.c:1777-1805 | takes back all completed buffers one by one and gains exactly their slots |
| PackedSteps.TakeOne | proxy/vring_packed.c:506-581 | taking the next buffer is that step of the ring; the scheduler is handed its id, and its list of ids stays exact |
| PackedSteps.GiveBackOne | proxy/vring_packed.c:619-655 | giving back any of the ids the scheduler holds is a release of the buffer it stands for |
| PackedDriver.Txi | proxy/vring_packed_progs.c:183-218 | disarms for 0, refuses more than a ring, else names the right completion and answers 1 exactly if it is there after whatever the host did between the store and the look |
| PackedDriver.ArmHalf | driver/bpfhv.c:1603-1604 | asks for an interrupt at half of what is outstanding: the request always fits the ring and names an outstanding buffer, or with none the next one; the answer is whether that completion is there by the time of the look |
| PackedDriver.SpendAndPublish | driver/bpfhv.c:1691-1696 | a packet the credit covers finds a free slot; the credit stays exact if and only if the packet has one buffer |
| PackedDriver.Xmit | driver/bpfhv.c:1606-1736 | whatever the host does before the request and before the look: a one-buffer packet goes out exactly if a slot is free after completions are taken back, credit + outstanding = ring size is kept, and the queue is stopped exactly if slots run low and, without polling, the completion asked for is not there at the look; a stopped queue has a request for an outstanding buffer |
| PackedDriver.XmitAny | driver/bpfhv.c:1622-1696 | any packet: thrown away above 64 buffers, left to the stack if the credit does not cover it; the credit identity survives if and only if no packet of several buffers reaches the publish program |
| PackedDriver.TxPoll | driver/bpfhv.c:1738-1775 | whatever the host does before the request and before the look: takes back what was completed, leaves a request at half of what is outstanding, and polls again exactly if the completion asked for is there at the look |
| PackedDriver.Shutdown | driver/bpfhv.c:1503-1542 | with the host stopped every outstanding buffer comes back once and the credit equals the ring size: the complaint about buffers not reclaimed is never made |
| PackedHost.LookForWork | proxy/vring_packed.c:483-498 | the test, ask for a kick, test again protocol, whatever the driver does before each test: it reports exactly whether work is left, and leaves kicks requested for the next publication if there is none and off otherwise |
| PackedHost.Acquire | proxy/vring_packed.c:463-585 | the budgeted loop, whatever the driver transmits and takes back before each test: ring and credit move by enabled steps only, the count is the number of buffers taken, and it stops empty with a kick requested or with the budget used up |
| PackedHost.Drain | proxy/vring_packed.c:361-460 | the budgeted sending loop, with the same interference: it stops also at a packet the backend refuses, which stays in the ring, and says whether for lack of room or an error; the interrupt decision is made for exactly the packets sent |
| PackedProtocol.ActionKeepsInv | proxy/vring_packed.c:375-447 | every guest or host action keeps the system invariant of the two event protocols |
| PackedProtocol.NoLostKick | proxy/vring_packed.c:380-427 | over every interleaving: a host asleep, with the guest not between publishing and checking, has an empty ring or a kick raised since it last woke, unless it went to sleep on a backend that failed |
| PackedProtocol.SleepsOnWorkExactly | proxy/backend.c:346-420 | over every interleaving: a host asleep without a kick leaves work behind if and only if the backend failed |
| PackedProtocol.FailedIsDeaf | proxy/vring_packed.c:415-427 | over every interleaving: after that nothing the guest does raises a kick |
| PackedProtocol.NoLostInterrupt | proxy/vring_packed.c:657-675 | over every interleaving: a guest told to wait for a completion it has not collected gets the interrupt once the host has decided on everything it completed, unless a decision missed it; none does if each covers fewer than 65536 completions |
| PackedProtocol.MissesExactly | proxy/vring_packed.c:243-265 | a decision misses the awaited completion if and only if its count modulo 2^16 is less than the distance back to it; it then covers at least 65536 completions |
| PackedProtocol.LongBatchMisses | proxy/vring_packed.c:657-675 | a decision on 65536 completions misses the last of them |
| PackedWitness.LongBatchRun | proxy/vring_packed.c:242-266 | a run that loses an interrupt so: a ring of one slot, 65536 buffers published, taken, released and collected without a decision, the guest told to wait for the last |
| PackedRounds.RoundsAreShort | proxy/backend.c:563-611 | over every interleaving in which buffers are only taken while fewer than 128 completions are undecided, as in rounds: at most a ring and 128 completions are undecided |
| PackedRounds.RoundsMissNothing | proxy/backend.c:563-611 | so no decision covers 65536, and a guest told to wait gets its interrupt once the host has decided |
| PackedDeadlock.NoDeadlock | proxy/vring_packed_progs.c:183-218 | over every interleaving, whatever the guest asked for: a guest told to wait and a host asleep with nothing held wait only because everything not completed is lost, unless the host sleeps on a backend that failed |
| PackedDeadlock.HalfPendingFits | driver/bpfhv.c:1603-1604 | the driver can always make its request, with and without buffers outstanding |
| PackedDeadlock.RequestsAdvance | driver/bpfhv.c:1700-1758 | over every interleaving whose requests are the driver's: the next request never names an earlier completion than the last one |
| PackedDeadlock.SlipsBeyondALap | proxy/vring_packed.c:242-266 | a decision passes over the completion last asked for only if it covers more than a ring of completions |
| PackedDeadlock.PollIsDue | driver/bpfhv.c:1700-1767 | over every interleaving of the driver that polls, which ignores the answer to its request: once the completion last asked for is decided on, a poll is due or under way; decisions cover at most a ring |
| PackedDeadlock.WaitsOnlyFor | driver/bpfhv.c:1700-1767 | over every interleaving whose requests are the driver's: both sides wait only with nothing outstanding, or with nothing but lost buffers out and the request among them, or on a backend that failed |
| PackedDeadlock.WedgedExactly | driver/bpfhv.c:1603-1604 | over these, with the host asleep: the completion asked for never comes if and only if the lost buffers are at least half of what was outstanding at the last request, rounded up, plus all published since; otherwise a poll is due |
| PackedWitness.LostBufferWedges | proxy/vring_packed.c:547-555 | for every ring size a run that gets there with one refused buffer |
| PackedWitness.FailedSendSleeps | proxy/vring_packed.c:415-427 | for every ring size a run in which the host sleeps on a failed send |
| PackedDeadlock.DriverNeverDeadlocks | driver/bpfhv.c:1700-1758 | over these, in runs that lose no buffer: both sides wait only with nothing outstanding, or on a backend that failed |
| PackedProtocol.CreditIsExact | driver/bpfhv.c:1631-1692 | over every interleaving: the driver's free slots plus the outstanding buffers are the ring, and a publication it allows finds a free slot |
| PackedProtocol.RunsRefineTheRing | proxy/vring_packed.c:375-655 | the rings met along an interleaving are those of a run of the ring model, so exactly-once holds there |
| SringModel.WordSlot | proxy/sring_gso_progs.c:70 | masking a 32-bit index gives the slot of the unbounded position, across the wrap-around |
| SringModel.PassedExact | proxy/sring_gso.c:415-417 | the 32-bit test fires exactly if the threshold lies in the batch, across the wrap-around, for thresholds less than 2^32 away |
| SringModel.PassedTooFar | proxy/sring_gso.c:415-417 | at that distance it fires wrongly: the bound is needed |
| SringModel.TruncsExact | proxy/sring_gso_progs.c:73 | what is handed back equals what was published if and only if every length is below 2^16 |
| SringModel.FragmentAt | proxy/sring_gso_progs.c:67-76 | position by position, the published descriptors are the fragments of the published packets with the end mark on the last one |
| SringModel.StoreNext | proxy/sring_gso_progs.c:70-74 | writing the next descriptor of a ring that is not full overwrites none in use |
| SringModel.DeliveredWhole | proxy/sring_gso.c:344-354 | with valid descriptors the backend is given whole packets |
| SringModel.StepKeepsOk | proxy/sring_gso_progs.c:55-151 | publishing within the free space, moving the host index on and collecting keep the ring in order and within its size |
| SringModel.ReturnedInOrder | proxy/sring_gso_progs.c:133-151 | over every run of the ring: packets come back in the order they were published, none skipped or repeated, and at most a ring of descriptors is out |
| SringModel.ExtendsReaches | driver/bpfhv.c:1618-1698 | whatever the driver did while the host index stood still is a run of the ring |
| Sring.MetExact | proxy/sring_gso_progs.c:49-53 | in reclaim the test whether the cleared range met the host index is true exactly if the packet was not consumed |
| Sring.FragmentInMemory | proxy/sring_gso_progs.c:119-124 | every fragment of a packet not yet handed back is found at its masked index |
| Sring.TakeReady | proxy/sring_gso.c:338-402 | one descriptor leads to a longer vector of at most 64 buffers, a packet sent whole, or a rewind to the packet boundary |
| Sring.TxQueue.constructor | proxy/sring_gso.c:67-78 | the initial memory represents the empty ring with kicks on |
| Sring.TxQueue.Txp | proxy/sring_gso_progs.c:55-107 | a packet of up to 64 buffers is published as one unit behind all others, more are refused without effect; the answer is the kick flag |
| Sring.TxQueue.GetOne | proxy/sring_gso_progs.c:109-131 | copies out exactly the fragments of the oldest packet and moves the clear index past it |
| Sring.TxQueue.Txc | proxy/sring_gso_progs.c:133-151 | returns exactly the fragments of the oldest consumed packet, or 0 if there is none |
| Sring.TxQueue.Txr | proxy/sring_gso_progs.c:153-173 | with the host stopped, returns the oldest packet and drags the host index along if it was not consumed |
| Sring.TxQueue.TxClean | driver/bpfhv.c:1782-1805 | takes back all consumed packets once, in order, and their descriptors |
| Sring.TxQueue.Reclaim | driver/bpfhv.c:1515-1532 | ends with the three indices equal, every outstanding packet returned once in order, and the credit equal to the ring size |
| Sring.TxQueue.Xmit | driver/bpfhv.c:1618-1698 | refuses packets that are too long or not covered by the credit, else publishes; credit + descriptors in use = ring size throughout |
| Sring.TxQueue.Txi | proxy/sring_gso_progs.c:175-202 | answers exactly whether the completions are there after arming, and arms at the right position |
| Sring.TxQueue.LookAgain | proxy/sring_gso.c:311-336 | the double check, whatever the driver does before each load: it stops exactly if nothing is left, with kicks on, and goes on with kicks off |
| Sring.TxQueue.Drain | proxy/sring_gso.c:283-423 | whatever the driver transmits, takes back and asks for before each load, and whatever the backend refuses: the packets sent are the next published packets, whole and in order, the host index moves past exactly these, the ring moves by a run of the ring model, and the reason to stop (with lack of room and errors told apart), the kick flag and the interrupt decision are as promised |
| SringProtocol.ActionKeepsInv | proxy/sring_gso.c:297-420 | every guest or host action keeps the system invariant |
| SringProtocol.NoLostKick | proxy/sring_gso.c:311-392 | over every interleaving: a host asleep, with the guest not between publishing and checking, has sent everything or has a kick raised since it last woke, unless it went to sleep on a backend that failed |
| SringProtocol.SleepsOnWorkExactly | proxy/backend.c:346-420 | over every interleaving: a host asleep without a kick leaves packets behind if and only if the backend failed |
| SringProtocol.FailedIsDeaf | proxy/sring_gso.c:379-392 | over every interleaving: after that nothing the guest does raises a kick |
| SringProtocol.NoLostInterrupt | proxy/sring_gso.c:405-419 | over every interleaving: a guest told to wait for a position it has not passed itself gets the interrupt once the host has decided on the batch that reached it |
| SringProtocol.NoDeadlock | proxy/sring_gso_progs.c:175-202 | over every interleaving: both sides sleep only if the guest asked for more completions than it has published, or on a backend that failed |
| SringProtocol.DriverNeverDeadlocks | driver/bpfhv.c:1700-1758 | over every interleaving whose requests are the driver's: both sides sleep only with every packet taken back and all descriptors free, or on a backend that failed, and then packets are out |
| SringWitness.FailedSendSleeps | proxy/sring_gso.c:379-392 | for every ring size a run in which the host sleeps on a failed send, with kicks off |
| SringWitness.FailedSendWedges | driver/bpfhv.c:1719-1726 | and the driver then waits for it for good |
| SringProtocol.RunsRefineTheRing | proxy/sring_gso.c:283-423 | the rings met along an interleaving are those of a run of the ring model, whose steps the queue methods perform |
| SringProtocol.SentAndReturnedInOrder | proxy/sring_gso.c:378-402 | over every interleaving: what the backend took is a prefix of what was published, packet by packet, and what came back is a prefix of that; nothing twice despite refusals |
| SringProtocol.CreditIsFreeSpace | driver/bpfhv.c:1626-1633 | over every interleaving: the driver credit plus the 32-bit difference of the guest indices is the ring size, and the credit stays between 0 and the ring size |
| Heap.KeyLtExact | sched16/dn_heap.h:36-37 | comparing 64-bit keys by the sign of their difference is the true order if and only if they are within half the range |
| Heap.DnHeap.BubbleUp | sched16/dn_heap.c:162-175 | moving an entry up restores the order and every stored position, and changes nothing else |
| Heap.DnHeap.SinkHole | sched16/dn_heap.c:209-216 | moving the hole down to the bottom keeps order and positions of all other entries |
| Heap.DnHeap.Insert | sched16/dn_heap.c:144-176 | adds exactly one entry, growing the array if it is full, and reports failure without effect |
| Heap.DnHeap.Extract | sched16/dn_heap.c:181-226 | removes exactly the given object from anywhere, or the least one; order and stored positions hold again |
| Heap.DnHeap.Heapify | sched16/dn_heap.c:276-283 | makes a heap with exact positions of entries in any order |
| Heap.DnHeap.Scan | sched16/dn_heap.c:285-305 | asks each object at most once, removes exactly those asked that the callback marks, stops after the first one that ends the scan and else asks all, and restores order and positions |
| Wf2qModel.EnqueueKeepsInv | sched16/dn_sched_wf2q.c:128-181 | an enqueue keeps the run invariant: each flow in at most one heap, in a serving heap exactly if it has packets, eligible flows in the one and not in the other, some flow eligible if any is backlogged, the weight sum exact |
| Wf2qModel.BackloggedAreScheduled | sched16/dn_sched_wf2q.c:73-79 | a flow is in one of the two serving heaps exactly if it has packets |
| Wf2qModel.ArrivalFindsOthers | sched16/dn_sched_wf2q.c:161-175 | a flow that is not eligible on arrival finds an eligible one: the complaint about an empty scheduler is unreachable |
| Wf2qModel.AdoptedKeepsInv | sched16/dn_sched_wf2q.c:295-308 | a queue set up with packets holds them in order and starts now; the run invariant holds |
| Wf2qModel.AllForgotten | sched16/dn_sched_wf2q.c:199-202 | when every flow is forgotten the weight sum is zero without being reset |
| Wf2qModel.TopIsTheChoice | sched16/dn_sched_wf2q.c:214-238 | after settling, the top of the eligible heap is a flow the policy may serve |
| Wf2qModel.DequeueRefinesPolicy | sched16/dn_sched_wf2q.c:184-255 | the flow served has the least finish time of all backlogged flows that have started by now, or by the least start time if none has; the run invariant is restored |
| Wf2qModel.ResetKeepsInv | sched16/dn_sched_wf2q.c:195-203 | starting over when nothing is backlogged keeps the invariant |
| Wf2qModel.RunKeepsInv | sched16/dn_sched_wf2q.c:128-255 | over every run of enqueues and dequeues the invariant holds throughout and every packet leaves by the policy |
| Wf2qModel.FlowConservation | sched16/dn_sched_wf2q.c:128-255 | over every run and for every flow: packets held at first plus packets accepted are the packets sent plus those held, in order |
| Wf2qFair.StampLedger | sched16/dn_sched_wf2q.c:240-246 | over every run: the start time of a flow that stays backlogged is what it was plus the bytes sent times the inverse of its weight |
| Wf2qFair.RunNoneAhead | sched16/dn_sched_wf2q.c:214-252 | over every run: no start time is more than the longest packet at the flow rate ahead of virtual time |
| Wf2qFair.ServiceBound | sched16/dn_sched_wf2q.c:183-255 | over every run: the bytes sent to a flow that stays backlogged, at its rate, are at most what virtual time has moved past its first start time plus one longest packet |
| Wf2qFair.GapBound | sched16/dn_sched_wf2q.c:214-246 | over every run: the start time of a flow that stays backlogged gets ahead of that of another by at most a longest packet at the slower rate, or the lead it had |
| Wf2qFair.TwoFlowFairness | sched16/dn_sched_wf2q.c:183-255 | over every run, for two flows that stay backlogged: their service at their rates differs by at most a longest packet at the slower rate plus the difference of their first start times, in both directions |
| Wf2qFair.TimeAdvances | sched16/dn_sched_wf2q.c:239 | sending a packet moves virtual time on by at least its length over the sum of the weights of all flows in heaps |
| Wf2q.DrainedAll | sched16/dn_sched_wf2q.c:195-199 | the forced drain with the largest count empties the idle heap |
| FlowHeaps.FlowHeaps.TakeTop | sched16/dn_heap.c:181-226 | extracting the top of one of the three heaps gives a flow with the least key there and leaves the other two alone |
| FlowHeaps.FlowHeaps.TakeIdle | sched16/dn_sched_wf2q.c:151-152 | extracting a flow from the middle of the idle heap |
| FlowHeaps.FlowHeaps.Add | sched16/dn_heap.c:144-176 | inserting a flow that is in no heap into one of the three |
| Wf2q.Scheduler.constructor | sched16/dn_sched_wf2q.c:257-303 | the initial state satisfies the run invariant, all timestamps marked invalid |
| Wf2q.Scheduler.NewQueue | sched16/dn_sched_wf2q.c:295-308 | sets up a queue that is in no heap; one that comes with packets is enqueued at once |
| Wf2q.Scheduler.IdleCheck | sched16/dn_sched_wf2q.c:108-126 | forgets up to n idle flows, each the least when its turn comes, and stops only when none is left or none has passed |
| Wf2q.Scheduler.WakeUp | sched16/dn_sched_wf2q.c:143-180 | timestamps, virtual time, weight sum and heaps of a flow that wakes up |
| Wf2q.Scheduler.Enqueue | sched16/dn_sched_wf2q.c:128-181 | is an enqueue of the model, on heaps and 64-bit timestamps, and keeps the invariant |
| Wf2q.Scheduler.Settle | sched16/dn_sched_wf2q.c:214-231 | raises virtual time to the least start time if nothing is eligible, and promotes exactly the flows that are eligible |
| Wf2q.Scheduler.ServeTop | sched16/dn_sched_wf2q.c:234-252 | serves the head packet of the flow with the least finish time and files the flow where it belongs |
| Wf2q.Scheduler.Dequeue | sched16/dn_sched_wf2q.c:183-255 | is a dequeue of the model; a packet is found exactly if some flow is backlogged, and its flow is one the policy may serve |
| Modular.ReachesAtLeast | sched16/dn_sched_rr.c:199-201 | repeated 32-bit addition of a quantum reaches a value of at least a given length if and only if the length is at most 2^32 - g + credit mod g, with g the greatest common divisor of quantum and 2^32 |
| DrrModel.EnqueueKeeps | sched16/dn_sched_rr.c:151-176 | an enqueue of any length keeps the invariant: the list holds exactly the listed flows once, every flow with packets is listed |
| DrrModel.TurnIsExact | sched16/dn_sched_rr.c:199-203 | for lengths that leave room for a quantum the 32-bit credit does not wrap when a quantum is added |
| DrrModel.TurnMayWrap | sched16/dn_sched_rr.c:199-203 | for any longer length and any quantum there is a credit that wraps and shrinks |
| DrrModel.IterateKeeps | sched16/dn_sched_rr.c:186-208 | one iteration of the dequeue loop keeps the invariant |
| DrrModel.IterateDecreases | sched16/dn_sched_rr.c:186-208 | within these lengths every iteration that does not serve decreases list length plus missing credit |
| DrrModel.SearchIsShort | sched16/dn_sched_rr.c:186-208 | so a dequeue takes at most that many iterations |
| DrrModel.EndsExactly | sched16/dn_sched_rr.c:186-211 | a dequeue ends if and only if no flow has packets or some flow's first packet is at most 2^32 - g + credit mod g bytes long, with g the greatest common divisor of its quantum and 2^32, whatever the other flows are |
| DrrModel.LoneFlow | sched16/dn_sched_rr.c:186-211 | the only flow with packets is served if and only if its own packet meets this |
| DrrModel.LongestIsNeverServed | sched16/dn_sched_rr.c:199-203 | with the default quantum of 1500 a packet of 2^32 - 1 bytes is never served |
| DrrModel.BoundedEnds | sched16/dn_sched_rr.c:186-211 | with lengths that leave room for a quantum every dequeue ends |
| DrrModel.SearchFails | sched16/dn_sched_rr.c:186-211 | the search ends without a packet exactly if no flow has one |
| DrrModel.RunKeepsInv | sched16/dn_sched_rr.c:151-212 | over every run, whatever the lengths: the list invariant holds and quanta are constant |
| DrrModel.RunKeepsBounds | sched16/dn_sched_rr.c:151-212 | over every run of packets that leave room for a quantum: every credit stays below longest packet plus quantum, and every dequeue ends |
| DrrModel.VisitsDiffer | sched16/dn_sched_rr.c:199-203 | over every run: the visits of two flows that stay listed differ by at most one, by their order at both ends |
| DrrModel.CreditLedger | sched16/dn_sched_rr.c:199-206 | over every run: credit of a flow that stays listed = credit at first + visits times quantum - bytes sent |
| DrrModel.Fairness | sched16/dn_sched_rr.c:178-212 | over every run, for flows i and j that stay listed: bytes of i times quantum of j and bytes of j times quantum of i differ by at most 3 times the product of the quanta plus the longest packet times their sum |
| DrrModel.FlowConservation | sched16/dn_sched_rr.c:151-212 | over every run and for every flow: packets held at first plus packets accepted are the packets sent plus those held, in order |
| Drr.QuantumIsProduct | sched16/dn_sched_rr.c:253-274 | the quantum is weight times step within their bounds; clipping it to 32 bits never happens |
| Drr.Rr.constructor | sched16/dn_sched_rr.c:228-237 | an empty circle and unlisted flows with their quanta |
| Drr.Rr.Append | sched16/dn_sched_rr.c:75-92 | the links run through the old list and the new flow and back to the head; the quantum sum is exact |
| Drr.Rr.RemoveHead | sched16/dn_sched_rr.c:94-111 | the links run through the rest of the list; an empty circle is left alone |
| Drr.Rr.NextPointer | sched16/dn_sched_rr.c:140-149 | moving head and tail one link on rotates the list |
| Drr.Rr.Enqueue | sched16/dn_sched_rr.c:151-176 | is an enqueue of the model; it drops exactly at a full queue |
| Drr.Rr.Dequeue | sched16/dn_sched_rr.c:178-212 | under the exact condition for it, ends, and is the first serving iteration of the model loop; a packet is found exactly if some flow has one |
| Drr.Rr.NewQueue | sched16/dn_sched_rr.c:261-284 | sets quantum and credit, and lists the flow at once if it comes with packets |
| QfqArith.Fls | sched16/test_dn_sched.c:102-112 | the number of the highest bit: the word lies between that power of two and the next |
| QfqArith.CalcIndex | sched16/dn_sched_qfq.c:272-291 | the least group whose slots are at least as wide as the time of the longest packet |
| QfqArith.IndexInRange | sched16/dn_sched_qfq.c:793-800 | for weights and lengths within their bounds this is one of the 20 groups |
| QfqArith.EligibleMask | sched16/dn_sched_qfq.c:412-426 | for times less than 2^53 apart and each of the low 32 groups, bit i of the mask is set exactly if a slot boundary of group i lies between the two times, although the exclusive or is cut to 32 bits |
| QfqArith.MaskIsEligible | sched16/dn_sched_qfq.c:412-426 | a group whose start time is in the slot after the old time is moved if and only if its start time is now in the past |
| QfqModel.InsertExact | sched16/dn_sched_qfq.c:433-442 | after an insertion the bitmap shows exactly the buckets in use if and only if the class went to one of the first 31 buckets |
| QfqModel.InsertRightExactly | sched16/dn_sched_qfq.c:433-442 | for every slot, also beyond 31: buckets and bitmap are right after an insertion if and only if the slot is at most 30 after the group start |
| QfqModel.FarInsertAliases | sched16/dn_sched_qfq.c:437-441 | an insertion 32 slots on or more goes to the bucket of an earlier slot |
| Qfq.LateSlotLeavesBits | sched16/dn_sched_qfq.c:433-478 | a class that is enqueued, served, put 31 slots ahead, found and removed leaves bits set for empty buckets |
| QfqReach.NextStartInReach | sched16/dn_sched_qfq.c:525-536 | a packet no longer than configured moves the start of its class by one slot of its group at most |
| QfqReach.LateSlotNeedsLongPacket | sched16/dn_sched_qfq.c:525-541 | when a class is served it takes a packet more than 30 times longer to move its start by 31 |
| QfqReach.LateSlotByLongPacket | sched16/dn_sched_qfq.c:525-541 | one that does: weight 65536, packets configured up to 256 bytes, a packet of 7936 bytes |
| QfqModel.InsertHolds | sched16/dn_sched_qfq.c:433-442 | inserting adds exactly the class at its slot |
| QfqModel.RemoveHolds | sched16/dn_sched_qfq.c:447-455 | removing takes exactly the first class of the front bucket out, which has the group start slot |
| QfqModel.ScanEmpty | sched16/dn_sched_qfq.c:462-471 | the bitmap is empty exactly if no class is held, else its lowest bit is the first bucket in use |
| QfqModel.ScanMoves | sched16/dn_sched_qfq.c:471-478 | moving the front to that bucket keeps every class at its slot |
| QfqModel.RetreatHolds | sched16/dn_sched_qfq.c:489-497 | moving the front back keeps every class at its slot as long as all are within 32 slots |
| QfqModel.FrontIsLeast | sched16/dn_sched_qfq.c:561-563 | the first class of the front bucket has the least slot of all |
| Qfq.QfqGroup.SlotInsert | sched16/dn_sched_qfq.c:433-442 | for every slot: puts the class at the front of the bucket the index works out to; buckets and bitmap are right afterwards if and only if the slot is at most 30 after the group start |
| Qfq.QfqGroup.FrontSlotRemove | sched16/dn_sched_qfq.c:447-455 | takes the first class out of the front bucket |
| Qfq.QfqGroup.SlotScan | sched16/dn_sched_qfq.c:462-478 | finds a class with the least rounded start time, or none exactly if none is held |
| Qfq.QfqGroup.SlotRotate | sched16/dn_sched_qfq.c:489-497 | makes room for an earlier start time; buckets and bitmap are right afterwards if and only if every class held lies within 32 slots of it |
| Qfq.QfqGroup.Enqueue | sched16/dn_sched_qfq.c:671-704 | for every start time: adds the class at its rounded start time; the group is in order afterwards if and only if it was empty, or the start is at most 30 slots after the group start, or before it with every class within 32 slots |
| Qfq.QfqGroup.UpdateClass | sched16/dn_sched_qfq.c:520-543 | for every later start time: refiles or drops the class served; buckets and bitmap are right afterwards if and only if the new start is at most 30 slots after the group start |
| Qfq.QfqGroup.Serve | sched16/dn_sched_qfq.c:520-594 | serves a class with the least rounded start time, refiles or drops it, and moves the group start time to the new least |
| QfqStart.StartNearTime | sched16/dn_sched_qfq.c:620-648 | the start time given to a class that wakes up is at most one slot ahead of virtual time |
| QfqStart.EnqueueInReach | sched16/dn_sched_qfq.c:620-704 | with virtual time fewer than 30 slots ahead of the group its arrival keeps buckets and bitmap right |
| QfqStart.StaleEnqueueExactly | sched16/dn_sched_qfq.c:630-644 | a class with an old finish time, not held up by another group, starts at virtual time; in a group that is in use its arrival keeps buckets and bitmap right if and only if virtual time is at most 30 slots ahead of the group |
| QfqStart.StaleArrival | sched16/dn_sched_qfq.c:546-704 | three classes, two of weight 1024 and one of weight 1: enqueue, serve, serve the other group, and the arrival of the second heavy class; the group is in order if and only if virtual time has not left slot 31 |
| QfqStart.WithinLengthsOverrun | sched16/dn_sched_qfq.c:429-442 | with every packet within its configured length that is slot 31 after 1020 bytes and slot 46 after 1500 |

## Left out

- Receive rings, and the single-descriptor shared ring: the transmit side of the latter is the one-fragment case of the ring modelled here.
- Weak memory: the fences are taken as given.
- Checksum and segmentation fields of descriptors, packet marks, statistics, and the count of refused buffers that acquire reports.
- PackedHost.Acquire: releases by the scheduler are not interleaved with the loop; they are in PackedProtocol and PackedDriver.  Nor is the driver's own second look; it is in PackedDriver.Xmit and PackedDriver.TxPoll.
- PackedDeadlock.WaitsOnlyFor: says nothing once a decision has passed over the completion last asked for, which takes more than a ring of completions (PackedDeadlock.SlipsBeyondALap).
- PackedDeadlock.PollIsDue: an interrupt is a poll that is due; how the kernel schedules it is not modelled.
- PackedProtocol: traffic in the other direction, which also wakes a host that sleeps, is the action Wake, possible at any time.
- PackedHost.Drain: address translation appears only as the backend's answer.
- PackedDriver.Xmit: packet preprocessing and address mapping failures, and the wake of a stopped queue; the threshold for stopping it is that of 4 KiB pages.
- Sring.TxQueue.Xmit: packet preprocessing and address mapping failures, stop and wake of the transmit queue.
- Sring.TxQueue.Txp: at least one buffer per packet; the source reads an unset pointer for none, and its caller never asks for it.
- Heap.DnHeap.Insert: allocation failure is an argument; Wf2q.Scheduler assumes that memory is available.
- Removing queues and reconfiguring flows in the schedulers (free_queue, remove_queue_q).
- Drr: queues are entries of a table and links are table indices, so freed or aliased queue objects are not modelled.
- DrrModel.Fairness: packet lengths plus quantum stay within 2^32; beyond, credits wrap (DrrModel.TurnMayWrap) and are no longer earned in proportion.
- Heap.DnHeap.Scan: the callback is a function of the object; as it is asked at most once for each, this covers any sequence of answers, but not what a callback does to the objects.
- Wf2qFair.ServiceBound: an upper bound against virtual time; the lower bound is against other backlogged flows (Wf2qFair.TwoFlowFairness), none against virtual time is stated.
- Qfq.QfqGroup.Enqueue: what a 32-bit constant shifted by 32 or more sets in the bitmap is an argument, as the language leaves it open.
- Qfq.QfqGroup.Serve: a next start more than 30 slots on is left out, because the scan that follows would then read a bucket the bitmap is wrong about; up to that scan Qfq.QfqGroup.UpdateClass covers it, and packets within the configured length never lead there (QfqReach.NextStartInReach).
- QfqStart.StaleArrival: virtual time is moved on as the source does, but the other group's buckets are not followed.
- QFQ's theorems about all groups together: bounds on timestamps and order within the set of eligible groups.
- QfqArith.Fls: words below 2^32, the range of its argument type.
- The backend process, sockets, devices, the rate limiter, the hash table and the scripts of the repository.
