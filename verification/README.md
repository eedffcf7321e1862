# lwip-amiga in Dafny

A model of the concurrent core of the lwIP port for the Amiga and of
`bsdsocket.library`, with proofs of what it keeps in every run: receive merging,
zero-copy receive, transmit queueing and admission, the slab heap, the TCP receive
queue with urgent data, the multicast filter, the control port, socket hand-off,
DNS names and the SANA-II request pools.

Each component has a specification on values (a state, its steps, an invariant and a
theorem over all runs) and, where the source updates objects in place, a class whose
methods are proved to do what the specification says. `dafny verify dfyconfig.toml`
checks everything.

| files | component |
|---|---|
| `Basics`, `Words`, `Rings` | counting, 16/32-bit arithmetic, one's-complement sums, power-of-two rings |
| `TcpFrame`, `RxGro`, `RxGroPackets`, `RxGroMeaning`, `RxGroCeiling` | frame classification and receive merging |
| `NetdevRx` | injection of driver batches, the wrap pool |
| `ReclaimRing`, `TxCapacity`, `NetdevTx` | deferred reclaim ring, admission and wake, transmit queue |
| `SlabHeap`, `SlabPayload` | the slab allocator over raw memory words, and what its blocks hold |
| `TcpRecv`, `TcpPass`, `TcpSocket` | TCP receive queue, urgent mark, blocking reader |
| `Mcast` | multicast receive filter and its push to the driver |
| `NetCtl` | control port, stack task, library open and close |
| `SockPass`, `SocketRoot` | descriptors, owner slots, parking lot |
| `Dns`, `DnsCode`, `DnsDecode` | DNS name encoders and decoders |
| `Sana2`, `Sana2If` | SANA-II write and read requests, pump, teardown |

Where several tasks touch the same state, a step is what one task does under the lock or
between two of its shared accesses, and steps interleave freely. Where the blocking
reader or the receive loop releases the lock, anything the environment may do can
happen. What comes from outside (driver answers, allocation results, link state, arriving
frames and messages) is an arbitrary parameter or choice.

Properties that are false of the code's own interfaces have a concrete counterexample and
the exact condition under which they hold:

| property | fails in | holds exactly when |
|---|---|---|
| every delivered packet is well formed | `RxGroCeiling.JumboBurst` | `RxGroPackets.FlushMerged`, `RxGroMeaning.AfterFlush` |
| a waiting sender is woken | `TxCapacity.LostWake`, `TxCapacity.LosingRun` | `TxCapacity.WakeScope` |
| the frame count is defined and positive | MTU 1 to 27 | `TxCapacity.DivisorZeroIff`, `TxCapacity.UngatedIff` |
| freed DMA memory is the attached netdev's | `SlabHeap.ReattachHazard` | `SlabHeap.ReattachExact` |
| freeing keeps the byte count | `SlabHeap.SecondFreeMiscounts` | `SlabHeap.StaleFreeExact` |
| a read stops at the urgent mark | `TcpRecv.ReadsAcrossLateMark` | `TcpPass.PassCrossesIff` |
| joined groups are listed or overflow | `Mcast.OverflowWraps` | `Mcast.StepKeeps` |
| no read stays parked with the link up | `Sana2.OnlineTooEarly` | `Sana2.ParkedIff` |
| an OK to SHUTDOWN means no opener | `NetCtl.OkWithOpener` | `NetCtl.OkReply` |
| the DNS walk accepts only names | `Dns.CutShortIsAccepted` | `Dns.WalkIsName` |

The overflow counter of the multicast filter wraps only past 65535 groups. The
configuration in `port/amiga/include/lwipopts.h` leaves lwIP's group pool at its default
size, far below that, and `Mcast.FewGroupsNeverWrap` covers it.

A name's final dot is lost in encoding; `DnsDecode.NameRoundTrip` says exactly so.

The comment in `port/amiga/include/netif_base.h` calls 65515 the largest payload past the
IP header; the socket layer lets datagrams of up to 65543 bytes through to the admission
test. The comments about 44 merged frames assume a 1500-byte MTU. The SANA-II pump tests
for that before it merges (`port/amiga/sana2_pump.c:257-260`); the netdev path does not
(`port/amiga/netdev_rx.c:107`), and its drivers negotiate jumbo frames. The model follows
the code.

## Model

| member | source | states |
|---|---|---|
| `Words.FoldCarries` | port/amiga/rx_gro.c:134-135 | the carry-folding loop ends in a 16-bit word with the same one's-complement value |
| `Words.PatchVerifies` | port/amiga/rx_gro.c:129-145 | equation 3 in section 3 of RFC 1624, all 0/0xFFFF cases: a header with the patched word verifies if and only if it verified before |
| `TcpFrame.DataShape` | port/amiga/rx_gro.c:45-105 | a frame is mergeable data if and only if it is unfragmented IPv4 and TCP without options, flagged ACK or ACK with PSH, with an IP length that ends the frame and covers payload; the verdict locates that payload and carries its flow, sequence number and flags |
| `TcpFrame.VerdictShape` | port/amiga/rx_gro.c:45-105 | the three verdicts by the octets of the frame alone: which frames are no TCP, which are data, and then payload offset and length, sequence number and flags as the octets at their places |
| `TcpFrame.AckShape` | port/amiga/rx_gro.c:45-105 | a frame is a pure ACK if and only if it is such a segment of IP length 40 flagged ACK alone, trailing padding allowed; its acknowledgement number is the four octets 28 past the IP header's start |
| `TcpFrame.FlowBytes` | port/amiga/rx_gro.c:65-67 | the flow is source, destination and both ports, as the octets 12 to 23 past the IP header's start |
| `TcpFrame.SameShape` | port/amiga/rx_gro.c:45-105 | classification depends only on the header bytes a merge leaves alone: a patched head is classified with the same flow, sequence number and payload offset |
| `RxGro.RestoreTotals` | port/amiga/rx_gro.c:119-124 | the loop that repairs the chain's tot_len fields computes the specified chain and touches no data byte |
| `RxGro.PatchLength` | port/amiga/rx_gro.c:126-145 | length and incremental header checksum of the merged head, as the specification patches them |
| `RxGro.SlotBits` | port/amiga/rx_gro.c:168-169 | a flow's context is named by the exclusive or of the two low bits of its ports and source address, bit by bit |
| `RxGro.Engine.Flush` | port/amiga/rx_gro.c:110-149 | in-place flush of one context: state and deliveries are those of the specification |
| `RxGro.Engine.FlushAll` | port/amiga/rx_gro.c:151-155 | all four contexts in slot order |
| `RxGro.Engine.Input` | port/amiga/rx_gro.c:166-257 | in-place dispatch of one classified frame of any length, every branch, equals the specified step |
| `RxGroPackets.RunFits` | port/amiga/include/rx_gro.h:28-32 | a run of up to 44 consecutive frames with an IP length of at most 1528 each fits the 16-bit length field with its link header |
| `RxGroPackets.AbsorbHolds` | port/amiga/rx_gro.c:214-237 | absorbing an in-sequence frame of any length keeps the context a faithful picture of its run: payloads, next sequence number mod 2^32, newest ackno and window, PSH the OR of all |
| `RxGroPackets.FlushMerged` | port/amiga/rx_gro.c:110-149 | exact condition, for every held run: the flushed packet is a well-formed merge (tot_len fields, IP length, checksum, headers, bytes) if and only if its bytes fit 16 bits, and its IP length is true if and only if that length does |
| `RxGroPackets.ClassifiedLocated` | port/amiga/rx_gro.c:45-105 | every classified frame of 16-bit length satisfies what dispatch relies on |
| `RxGroMeaning.SeqGtDistance` | port/amiga/rx_gro.c:38-43 | the signed comparison of sequence numbers: b + n is after b, mod 2^32, if and only if n is 1 to 2^31 |
| `RxGroMeaning.MergedItems` | port/amiga/rx_gro.c:110-149 | a merged packet, classified again from its bytes, says to its flow the octets of its run at their sequence numbers and to every other flow nothing |
| `RxGroMeaning.RxTells` | port/amiga/rx_gro.c:166-257 | one arriving frame of any length, with no held run outgrowing the 16-bit total, appends exactly its items to its flow's stream, or replaces that flow's last ACK by one newer by a distance of 1 to 2^31; other flows hear nothing, collisions included; held runs stay the last arrivals of their flow |
| `RxGroMeaning.FlushStream` | port/amiga/rx_gro.c:110-155 | a flush of a context within the 16-bit total moves items from held to delivered and changes no flow's stream |
| `RxGroMeaning.ThinsKeepsData` | port/amiga/rx_gro.c:190-212 | thinning loses no data octet and no unmergeable segment and keeps their order |
| `RxGroMeaning.RunMeaning` | port/amiga/rx_gro.c:151-257 | main theorem: for every sequence of flushes and frames of any length in which no held run outgrows the 16-bit total, and every flow, delivered packets followed by what is held say what the flow's frames said in arrival order, superseded ACKs aside, and every delivered packet is a frame that arrived or a well-formed merge of consecutive arrivals of one flow |
| `RxGroMeaning.FlushDeliversAll` | port/amiga/rx_gro.c:151-164 | on the same runs, after the mandatory flush no context is in use, all data of every flow has been delivered in order, and every packet is an arrival or a merge of consecutive arrivals |
| `RxGroMeaning.RunSplices` | port/amiga/rx_gro.c:110-257 | for every sequence of flushes and frames of any length: each delivered packet is an arrival or splices consecutive arrivals of one flow, and is sound if and only if its bytes fit 16 bits |
| `RxGroMeaning.AfterFlush` | port/amiga/rx_gro.c:110-257 | exact condition over all runs, frames of any length: after the mandatory flush every delivered packet is sound if and only if no run held on the way outgrew the 16-bit total |
| `RxGroMeaning.SmallFramesFit` | port/amiga/include/rx_gro.h:28-32 | with IP lengths of at most 1528, which an MTU of 1500 ensures, no run ever does |
| `RxGroCeiling.BurstExact` | port/amiga/rx_gro.c:110-257 | exact condition over runs, frames of every length: a burst of consecutive frames and a flush deliver one packet with all their bytes, which is a merge of those arrivals, with a true IP length, if and only if it fits 16 bits |
| `RxGroCeiling.JumboBurst` | port/amiga/netdev_rx.c:104-110 | counterexample through dispatch: n full frames at MTU 9000, which the netdev interface negotiates and merges, come out well formed if and only if n is at most 7 |
| `NetdevRx.BatchMeaning` | port/amiga/netdev_rx.c:98-195 | at every lock release, if no held run outgrew the 16-bit total, the stack has been told, per flow, what the consumed good frames said, with only superseded ACKs missing, in packets that arrived or merge consecutive arrivals |
| `NetdevRx.RxSide.constructor` | port/amiga/netdev_if.c:152-175 | the wrap pool of a new interface is at least the driver's pool, twice its ring and the minimum, all free |
| `NetdevRx.RxSide.RxInput` | port/amiga/netdev_rx.c:98-195 | a batch is consumed as an exact prefix, cut short only where a good frame found no wrap free, buffers having only come back since; its cookies are taken and its good frames fed in order; nothing stays in a merge context; the pool's books hold throughout; while tasks wait for the lock, never more than eight frames are fed between two flushes |
| `NetdevRx.RxSide.Turn` | port/amiga/netdev_rx.c:142-189 | one descriptor: a bad one flushes and gives its buffer back, a good one is fed, and from the eighth since the last yield on a waiting task gets the lock, after a flush |
| `NetdevRx.RxSide.Chunk` | port/amiga/netdev_rx.c:135-191 | one lock hold over at most 64 descriptors ends with every context idle; it stops early only with no wrap free at that moment, and buffers freed by the flush's deliveries or after the unlock only come back |
| `NetdevRx.RxSide.PbufFreed` | port/amiga/netdev_rx.c:24-50 | a freed wrap returns its cookie and itself once; after the interface is gone nothing is touched |
| `NetdevRx.RxSide.Yield` | port/amiga/rx_gro.c:157-164 | every context is idle while another task has the lock, and nothing is consumed by the yield |
| `NetdevRx.RxSide.Destroy` | port/amiga/netdev_if.c:262-287 | the pool is leaked exactly when wraps are out; otherwise every consumed cookie has gone back once |
| `NetdevRx.LendKeeps` | port/amiga/netdev_rx.c:155-166 | lending keeps: lent plus free wraps is the pool, each wrap in one place, each cookie released as often as consumed but for the wraps holding it |
| `NetdevRx.GiveBackKeeps` | port/amiga/netdev_rx.c:24-50 | giving back keeps the same books |
| `Rings.Masked` | port/amiga/netdev_tx.c:342-343 | a free-running 32-bit index masked to a power-of-two ring is its true position modulo the ring, across wrap |
| `Rings.WindowStore` | port/amiga/netdev_tx.c:243-249 | storing at the tail extends the ring's window by one entry and disturbs none |
| `Rings.RoundUpPow2` | port/amiga/netdev_if.c:187-198 | a power of two not below the request, with the least exponent there is; it divides 2^32 |
| `ReclaimRing.RingIsFifo` | port/amiga/netdev_tx.c:323-389 | under every interleaving of the unit task's check, slot writes and publish with the lock holder's snapshot, drain and commit, across index wrap: freed cookies are a prefix of those handed in, in order, each once, no unread slot is overwritten, and a quiet empty ring has freed all |
| `ReclaimRing.KeepsWrite` | port/amiga/netdev_tx.c:342-345 | writing a slot ahead of the published index never touches an unread one |
| `ReclaimRing.AtSnapshot` | port/amiga/netdev_tx.c:365-389 | the drain loop stops exactly at its snapshot whatever is published meanwhile |
| `ReclaimRing.RoomIff` | port/amiga/netdev_tx.c:326-341 | a batch goes to the ring if and only if it fits beside what the consumer has not yet let go of; otherwise the producer takes the lock to free it inline |
| `ReclaimRing.NeverStuck` | port/amiga/netdev_tx.c:323-389 | from every state of every run there are steps, without any further batch, to a ring empty and unlocked with every cookie handed in so far freed |
| `ReclaimRing.Ring.TxDone` | port/amiga/netdev_tx.c:323-358 | a batch is queued whole if it fits, otherwise the backlog and then the batch are freed in order |
| `ReclaimRing.Ring.Reclaim` | port/amiga/netdev_tx.c:365-389 | frees the backlog in order and leaves the ring empty |
| `ReclaimRing.Ring.Stage` | port/amiga/netdev_tx.c:342-345 | the in-place enqueue loop appends the batch to the backlog |
| `TxCapacity.FramesMono` | port/amiga/include/netif_base.h:129-140 | a longer datagram never takes fewer frames |
| `TxCapacity.FramesLeast` | port/amiga/include/netif_base.h:129-140 | the count is one for a datagram that fits with its IP header, else the least number of fragments of the largest multiple of 8 that fits the MTU |
| `TxCapacity.NeverLosesWake` | port/amiga/netif_base.c:88-146 | in every run where no request exceeds 65515 bytes: a waiting sender implies an armed wake, an active interface and room below the threshold |
| `TxCapacity.StepKeepsWake` | port/amiga/netif_base.c:88-146 | the same, for one step of any kind |
| `TxCapacity.WakeScope` | src/bsdsocket/sb_io.c:240-282 | exact condition over runs, at every MTU from 28: no run of datagrams of a given size loses a wake if and only if such a datagram takes no more frames than a maximum one |
| `TxCapacity.LosingRun` | src/bsdsocket/sb_io.c:240-282 | the failing family: for every MTU and every datagram of more frames than a maximum one, a run that ends with the sender asleep on an idle interface that would admit it |
| `TxCapacity.DivisorZeroIff` | port/amiga/include/netif_base.h:132-140 | exact condition: of the positive MTUs a configuration may carry, exactly 20 to 27 make the divisor of the frame count zero; from 28 on it is the fragment payload, below 20 it wraps to within 24 of 2^32 |
| `TxCapacity.CountZeroIff` | port/amiga/include/netif_base.h:132-140 | exact condition, all 32-bit lengths and MTUs with a divisor: the count is zero if and only if the datagram does not fit one frame and is empty or its rounded-up length wraps |
| `TxCapacity.UngatedIff` | port/amiga/include/netif_base.h:132-140 | for the lengths the socket layer lets through: a datagram counts as no frame, and admission never refuses it, if and only if the MTU is below 20 and it is longer than 24, 16 or 8 bytes (MTU below 4, 12, 20); from MTU 28 on the 32-bit count is the one modelled |
| `TxCapacity.LostWake` | src/bsdsocket/sb_io.c:240-282 | counterexample outside it: at MTU 1044 a sender of 65543 bytes, which the socket layer lets through, sleeps on with the interface idle |
| `TxCapacity.TxBase.DgramRoom` | src/bsdsocket/sb_io.c:240-282 | one pass of the admission loop: admitted, refused without waiting, or enrolled |
| `TxCapacity.TxBase.TxFreed` | port/amiga/netif_base.c:100-106 | a returned slot fires the wake exactly when it crosses the threshold |
| `TxCapacity.TxBase.WantSpace` | src/bsdsocket/sb_socket.c:273-281 | enrolment is idempotent and arms the wake while an interface exists |
| `TxCapacity.TxBase.SpaceAvail` | src/bsdsocket/sb_socket.c:286-296 | every waiter is woken, oldest first, and the list is empty |
| `TxCapacity.TxBase.SockWritable` | src/bsdsocket/sb_socket.c:305-327 | ready at once on a pending error; a TCP socket is ready if and only if it is not connecting and has finished sending or is connected with room; a datagram socket without room is enrolled and not ready |
| `TxCapacity.TxBase.Detached` | port/amiga/netif_base.c:143-146 | the interface is marked gone, and every waiter woken if a wake was armed; later askers do not wait for it |
| `TxCapacity.TxBase.Closed` | src/bsdsocket/sb_socket.c:668-672 | a socket destroyed leaves the waiter list wherever it stands in it, the others keep their order |
| `NetdevTx.TransmitSafe` | port/amiga/netdev_tx.c:154-254 | in every run of sends, refusals, drains, completions and owner references: frames reach the driver in linkoutput order, no pbuf is in flight twice, references balance, the free count is the free pending slots, and a waiting sender implies a non-empty pending queue |
| `NetdevTx.AdmittedIsSent` | port/amiga/netdev_tx.c:189-254 | a datagram admitted for n frames has all n accepted in that lock hold whatever the driver answers, clone failure aside |
| `NetdevTx.EmitExact` | port/amiga/netdev_tx.c:189-254 | in one lock hold frames are accepted up to the first refusal; all are if and only if none is refused |
| `NetdevTx.CapacityIsDriven` | port/amiga/netif_base.c:88-146 | in every transmit run the capacity books move by the steps of the admission protocol only, and its requests are those of the sockets, in order, so its theorems hold of every transmit run |
| `NetdevTx.OneFrame` | port/amiga/netdev_tx.c:171-254 | a frame the driver refuses once is queued, resubmitted, completed and freed, and its slot comes back |
| `NetdevTx.ChosenIsIdle` | port/amiga/netdev_tx.c:210-233 | the frame handed down, pbuf or private clone, is never one still in flight |
| `NetdevTx.PendFreeBalances` | port/amiga/netdev_tx.c:391-395 | destroying the interface drops each pending frame's reference once |
| `NetdevTx.NetdevIf.constructor` | port/amiga/netdev_if.c:177-217 | the reclaim ring has a slot more than the driver's in-flight ceiling, or twice its ring, and 256; the pending queue holds a maximum datagram and 8 frames more; neither is twice what is asked for; both divide 2^32 |
| `NetdevTx.NetdevIf.LinkOutput` | port/amiga/netdev_tx.c:189-254 | the in-place send path equals the specified step: clone, direct submit, queue or refuse |
| `NetdevTx.NetdevIf.Drain` | port/amiga/netdev_tx.c:171-181 | the drain loop resubmits from the head and stops at the first refusal or with the queue empty |
| `NetdevTx.NetdevIf.Kick` | port/amiga/netdev_tx.c:302-309 | one doorbell for all frames submitted since the last one, none if there are none |
| `NetdevTx.NetdevIf.PendFree` | port/amiga/netdev_tx.c:391-395 | the pending queue is emptied and each frame dropped once, in order |
| `SlabHeap.HeapSafe` | port/amiga/netstack_mem.c:92-374 | in every run of malloc, free, growth, attach, detach, stores by block owners and stores by others to memory not held: freelists of all classes and both worlds are well linked, every node a FREE-stamped slot of an arena its pool lists, DMA arenas 64-aligned and held only while attached, live blocks stamped with their origin, and the bytes in use the sum of the blocks out, those lost at a detach included |
| `SlabHeap.NoSlotMissing` | port/amiga/netstack_mem.c:92-374 | in every such run each slot of each arena held is handed out under its own pool or waits on that pool's list |
| `SlabPayload.ReadsBack` | port/amiga/netstack_mem.c:92-374 | in every such run a longword of a block that stays out reads as its owner's last store left it, whatever the heap, other owners and the rest of the machine do |
| `SlabPayload.PayloadKept` | port/amiga/netstack_mem.c:92-374 | the same for one step: of a block's longwords only the one its owner stores to changes |
| `SlabHeap.NoOverlap` | port/amiga/netstack_mem.c:92-141 | two blocks, two slots, or one of each never overlap unless they are the same |
| `SlabHeap.ListsDisjoint` | port/amiga/netstack_mem.c:92-141 | freelists are acyclic and pairwise disjoint, none holds a live block, each node lies in an arena its pool lists, and DMA slots are 64-aligned |
| `SlabHeap.UserWriteKeeps` | port/amiga/netstack_mem.c:186-256 | an owner writing inside its block past the header disturbs no list, stamp or other block |
| `SlabHeap.OriginTells` | port/amiga/netstack_mem.c:280-348 | the stamp in a live block's header names the pool it came from and its size |
| `SlabHeap.PoolFor` | port/amiga/netstack_mem.c:188-199 | of the selected world, the pool with the smallest slots that hold the request |
| `SlabHeap.ReleasedKeeps` | port/amiga/netstack_mem.c:271-348 | returning a live block to its pool, or its memory to its owner, keeps the whole invariant |
| `SlabHeap.FreedIsReleased` | port/amiga/netstack_mem.c:271-348 | dispatch by the origin stamp sends every live block back to its own pool with its own size |
| `SlabHeap.OthersDropped` | port/amiga/netstack_mem.c:283-373 | a pointer with any stamp but the eight a block can carry is dropped without a trace |
| `SlabHeap.LostFreed` | port/amiga/netstack_mem.c:290-297 | a block lost at a detach, header intact, only leaves the byte count; its memory is not touched |
| `SlabHeap.StaleFreeExact` | port/amiga/netstack_mem.c:284-314 | exact condition: a free of a pointer with a DMA slab stamp keeps heap and books in order if and only if the block is live, or was lost at a detach and has the stamped size; a second free of a dropped block counts its bytes off twice |
| `SlabHeap.SecondFreeMiscounts` | port/amiga/netstack_mem.c:290-297 | counterexample: freeing a slab block dropped after a detach once more, which the code accepts, takes its bytes off the count again |
| `SlabHeap.ReattachExact` | port/amiga/netstack_mem.c:143-150 | exact conditions for the blocks lost before a second attach: their frees leave the freelists owned if and only if none is a slab's, and touch neither the freelists nor the new netdev's allocator if and only if none is out |
| `SlabHeap.ReattachHazard` | port/amiga/netstack_mem.c:143-150 | counterexample: attach, grow, take, detach; attached again, freeing the block puts memory the driver took back at the head of a list of a pool without arenas |
| `SlabHeap.CarveKeeps` | port/amiga/netstack_mem.c:123-136 | carving a fresh arena into slots links each of them once |
| `SlabHeap.DetachKeeps` | port/amiga/netstack_mem.c:151-165 | detaching gives up every DMA arena with its memory and slots, empties their lists, keeps the byte count and leaves the other world alone |
| `SlabHeap.NetstackMem.Malloc` | port/amiga/netstack_mem.c:186-256 | the head of the list of the smallest class that fits, in the world the attachment selects, its list unasked of anyone; an empty list asks for one arena and hands out its top slot; without one, or past the largest class, a block of its own of exactly the rounded size; null only if that was asked for and refused, and the arena too for a small request, and then nothing changed |
| `SlabHeap.NetstackMem.Free` | port/amiga/netstack_mem.c:271-374 | every pointer is dispatched by its stamp alone; a live block, a lost one, a free slot, a foreign stamp or null leaves the heap in order |
| `SlabHeap.NetstackMem.Grow` | port/amiga/netstack_mem.c:92-141 | one arena more, of the class's size and alignment, carved whole, or no change |
| `SlabHeap.NetstackMem.SlabDetach` | port/amiga/netstack_mem.c:151-165 | the loops over classes and arenas hand back every arena and do what the specification of detaching says |
| `TcpRecv.StreamIsExact` | src/bsdsocket/sb_socket.c:353-432 | in every run of deliveries, reads, window updates and out-of-band reads in any interleaving: bytes handed over followed by bytes queued are the wire bytes minus the excised ones, in order, the byte count is the queue's, and every wire byte is credited, queued or owed |
| `TcpRecv.RunGiven` | src/bsdsocket/sb_socket.c:353-432 | the wire bytes of a run are what the callback was given, all and in order, and what was taken is what readers unlinked |
| `TcpRecv.MarkLife` | src/bsdsocket/sb_socket.c:356-408 | what every event makes of the mark: noted ahead, latched with its byte, its byte read, passed by a read that starts at it, else unchanged |
| `TcpRecv.UrgentAtIff` | src/bsdsocket/sb_socket.c:356-378 | an urgent pointer falls into a delivery, or beyond it, exactly by its forward distance from the next sequence number, across the wrap |
| `TcpRecv.ConsumeMark` | src/bsdsocket/sb_io.c:635-662 | one detach or partial consume keeps the mark's distance exact if and only if it takes no more than that distance |
| `TcpPass.PassCrossesIff` | src/bsdsocket/sb_io.c:585-687 | exact condition for a whole pass, whatever arrives during its unlocked copies: it takes more than the distance of a latched mark if and only if after some relock a mark latched during that copy has a distance smaller than what the pass goes on to take up to the next urgent pointer |
| `TcpPass.ExactIff` | src/bsdsocket/sb_io.c:585-687 | a pass that starts with an exact mark keeps it exact after every turn and copy if and only if it crosses none |
| `TcpRecv.ReadsAcrossLateMark` | src/bsdsocket/sb_io.c:585-687 | counterexample: a mark latched during the unlocked copy is read across, and its distance wraps to 2^32-1 |
| `TcpRecv.DeliverKeeps` | src/bsdsocket/sb_socket.c:353-432 | a delivery keeps conservation and credit whatever its pbuf split and urgent pointer |
| `TcpRecv.DeliverMark` | src/bsdsocket/sb_socket.c:356-408 | a delivery keeps or establishes an exact mark distance |
| `TcpRecv.ExcisesTheUrgentByte` | src/bsdsocket/sb_socket.c:359-400 | the byte taken out of band is the one the urgent pointer names in 32-bit sequence space (section 3.8.5 of RFC 9293) |
| `TcpRecv.CutFlat` | src/bsdsocket/sb_socket.c:379-393 | excising an offset from any pbuf chain removes exactly that byte of its contents |
| `TcpSocket.TcpSock.Excise` | src/bsdsocket/sb_socket.c:379-393 | the walk to the pbuf and the shift loop compute that excision and return the byte |
| `TcpSocket.TcpSock.RecvCb` | src/bsdsocket/sb_socket.c:331-443 | the callback in place equals the specified delivery; the pending mark survives exactly when it lies beyond the delivery |
| `TcpSocket.TcpSock.FitRun` | src/bsdsocket/sb_io.c:624-633 | the longest run of head pbufs within the request and 64 KB |
| `TcpSocket.TcpSock.DrainTurn` | src/bsdsocket/sb_io.c:622-687 | one turn takes the next in-band bytes, whole pbufs with the lock released or part of the head in place, with anything arriving meanwhile |
| `TcpSocket.TcpSock.Drain` | src/bsdsocket/sb_io.c:621-687 | the drain loop ends, returns the next in-band bytes up to the clamp or the queue's end, and is a sequence of the specified turns |
| `TcpSocket.TcpSock.Pass` | src/bsdsocket/sb_io.c:585-705 | one pass with its clamp and window update: it takes all queued bytes up to the request or the mark, stops only at a mark, and crosses one exactly when one latched during a copy is nearer than what it goes on to take |
| `TcpSocket.TcpSock.FlushWindow` | src/bsdsocket/sb_io.c:689-705 | all bytes of the pass are credited in 16-bit pieces while the connection lives |
| `TcpSocket.TcpSock.WaitData` | src/bsdsocket/sb_io.c:532-583 | queued data ends the wait untouched; otherwise the first reason not to sleep, in the order of the code, decides the error, none once something was read; an unsuccessful sleep returns even if data has arrived; no sleep where none is allowed |
| `TcpSocket.TcpSock.Peek` | src/bsdsocket/sb_io.c:599-619 | a copy of the next in-band bytes, exactly the least of the limit, the queue and 65535 |
| `TcpSocket.TcpSock.Recv` | src/bsdsocket/sb_io.c:519-714 | a read returns the next stretch of the in-band stream, nothing lost, repeated or reordered, all of it credited while the connection lives; with data queued, without error, at least the least of the request, the queue and the distance of a mark ahead; less than the request only at a mark, without MSG_WAITALL once something was read and the queue is empty, for a reason found with the queue empty, or after a failed sleep; nothing at all without error only in front of a mark or for such a reason; a latched mark is not crossed unless latched during an unlocked copy; a peek changes nothing and its length is exact |
| `TcpSocket.TcpSock.RecvOob` | src/bsdsocket/sb_io.c:472-517 | an unread byte is returned at once and consumed once; in-line mode, no mark or a read one is an immediate EINVAL with no change; a byte still in flight is waited for, and every failure has its reason in the code's order or a failed sleep |
| `Mcast.AliasIff` | port/amiga/netif_base.c:184-193 | two groups share a MAC exactly when their low 23 bits agree (section 6.4 of RFC 1112) |
| `Mcast.MacBytes` | port/amiga/netif_base.c:184-193 | the prefix 01:00:5e followed by the low 23 bits of the group |
| `Mcast.AliasBound` | port/amiga/netif_base.c:225-228 | at most 32 groups share a MAC, so a join count never wraps |
| `Mcast.FilterCovers` | port/amiga/netif_base.c:203-278 | over every legal join, leave and snapshot history in which no join wraps the overflow counter: each MAC's joins are its list count plus its share of the overflow, every joined MAC is listed or the overflow is positive, no overflow makes the list exact, and a clear dirty flag means nothing changed since the snapshot |
| `Mcast.DirtyIff` | port/amiga/netif_base.c:203-278 | on the same histories the filter is dirty if and only if the listed set, or whether there is overflow, changed since the last snapshot |
| `Mcast.StepKeeps` | port/amiga/netif_base.c:203-264 | exact condition: a step keeps that invariant if and only if it is not an unlisted join on a full list with 65535 joins already past it |
| `Mcast.FewGroupsNeverWrap` | port/amiga/netif_base.c:237-240 | with fewer than 65535 groups joined, as in the shipped configuration, no join is that one |
| `Mcast.OverflowWraps` | port/amiga/netif_base.c:237-240 | counterexample of the filter's own interface, out of reach of lwIP's default group pool: after 65568 joins of distinct MACs the counter reads zero and joined MACs are in no list |
| `Mcast.DriverHearsJoined` | src/bsdsocket/sb_sana.c:337-376 | a clean filter without overflow, pushed as snapshotted, makes the driver hear exactly the joined MACs |
| `Mcast.RxFilter.MacFilter` | port/amiga/netif_base.c:203-264 | the table update in place, search, swap-remove, counters and dirty flag, equals the specified join or leave |
| `Mcast.RxFilter.TakeSnapshot` | port/amiga/netif_base.c:266-278 | the snapshot is the list, and only the dirty flag changes |
| `Mcast.SanaMcast.Sync` | src/bsdsocket/sb_sana.c:337-385 | from an accurate shadow, all commands succeeding, the driver ends up with exactly the snapshot; in any case only addresses that left the snapshot are ever taken out; an unsupported command latches the feature off |
| `Mcast.SanaMcast.MacIn` | src/bsdsocket/sb_sana.c:312-323 | membership in the list |
| `NetCtl.AnsweredOnce` | src/bsdsocket/sb_netctl.c:60-410 | in every run with messages in any order, openers and exits interleaved: a message sent is in exactly one place, port, parked, owed by an exiting task or answered, and answered at most once; once the stack is gone and its last reply out, every message has had one answer |
| `NetCtl.HandleTakes` | src/bsdsocket/sb_netctl.c:165-394 | every handler parks or answers its message once, and answers only what was parked besides |
| `NetCtl.AddAnswers` | src/bsdsocket/sb_netctl.c:165-202 | the answer to every ADD, by number and in the order of the tests, and whether it is parked |
| `NetCtl.UndoAnswers` | src/bsdsocket/sb_netctl.c:204-294 | the same for cancelling an ADD and removing an interface, with what the parked ADD is told |
| `NetCtl.StopAnswers` | src/bsdsocket/sb_netctl.c:310-394 | the same for SHUTDOWN, its cancellation, unknown operations and versions |
| `NetCtl.OkMeans` | src/bsdsocket/sb_netctl.c:165-394 | what an OK means to whoever gets it: an operational interface, an interface gone, an ADD told that it is pending, a SHUTDOWN told that it was aborted with opens admitted again |
| `NetCtl.NoClientOfExitingTask` | src/bsdsocket/main.c:176-197 | an open base is bound to the one stack task, and that task is serving; a parked ADD has its interface |
| `NetCtl.LetGoIsEmpty` | src/bsdsocket/sb_stack.c:479-486 | the exiting task lets go under the lock with no opener and its SHUTDOWN still owed |
| `NetCtl.OkReply` | src/bsdsocket/sb_stack.c:495-507 | exact condition: at the OK reply nobody has the library open if and only if as many closed it as opened it since the exiting task let go; any opener there is was admitted since, by a later task |
| `NetCtl.OkWithOpener` | src/bsdsocket/sb_stack.c:479-507 | counterexample: an open between letting go and the reply makes the OK arrive with an opener present |
| `NetCtl.StackTask.AddInterface` | src/bsdsocket/sb_netctl.c:165-202 | refusals in order, bring-up, and parking, as specified |
| `NetCtl.StackTask.CancelAddInterface` | src/bsdsocket/sb_netctl.c:204-226 | a completed add wins over its cancellation |
| `NetCtl.StackTask.RemoveInterface` | src/bsdsocket/sb_netctl.c:257-294 | a wait cannot outlive its interface |
| `NetCtl.StackTask.RequestShutdown` | src/bsdsocket/sb_netctl.c:310-327 | new openers are kept out from the moment the request is parked |
| `NetCtl.StackTask.RecallShutdown` | src/bsdsocket/sb_netctl.c:329-346 | the parked request is answered as aborted and opens are admitted again |
| `NetCtl.StackTask.LibOpen` | src/bsdsocket/main.c:169-256 | an open is one Open step, refused exactly while shutting down or without a task or memory, and otherwise bound to the task then serving |
| `NetCtl.StackTask.LibClose` | src/bsdsocket/main.c:276-282 | a close is one Close step; the one that leaves a pending shutdown without clients wakes the stack task, no other does |
| `NetCtl.StackTask.LetTaskGo` | src/bsdsocket/sb_stack.c:463-486 | one LetGo step: no client is left, an owed SHUTDOWN there is, and from then on opens and closes are counted against it |
| `NetCtl.StackTask.Service` | src/bsdsocket/sb_netctl.c:396-410 | the loop empties the port as a run of Serve steps, one a message, in order |
| `NetCtl.StackTask.StopPort` | src/bsdsocket/sb_netctl.c:60-87 | one Unpublish step, then one refusal a queued message: the parked ADD and everything queued are answered as inactive |
| `NetCtl.StackTask.ShutdownReady` | src/bsdsocket/sb_netctl.c:348-358 | one TestReady step; once it succeeds nobody has the library open and nobody can open it |
| `NetCtl.StackTask.ReplyLast` | src/bsdsocket/sb_stack.c:488-507 | one LastReply step; with it nobody has the library open if and only if closes since letting go equal opens |
| `NetCtl.StackTask.Kept` | src/bsdsocket/sb_netctl.c:60-410 | of the object after any calls: each message is in one place and answered at most once, and the order of phases holds |
| `NetCtl.TraceIsRun` | src/bsdsocket/sb_stack.c:420-507 | the calls made on the object are a run of the specified steps, so every theorem over runs holds of it |
| `SockPass.HandOff` | src/bsdsocket/sb_sockpass.c:17-199 | in every run of socket, close, Dup2, release, copy and obtain by any openers with no 256th reference: refs is the descriptors plus parked entries, each owner slot counts its opener's descriptors, and a socket is destroyed, once, exactly when both are gone |
| `SockPass.DoKeeps` | src/bsdsocket/sb_sockpass.c:17-199 | exact condition for one call: it keeps those books if and only if it does not take a 256th reference |
| `SockPass.DropKeeps` | src/bsdsocket/sb_socket.c:659-666 | dropping a descriptor destroys the socket exactly when it was the last holder |
| `SockPass.HolderHasSlot` | src/bsdsocket/sb_sockpass.c:57 | an opener with a descriptor always has a slot, so the ignored result of the second incref is success |
| `SockPass.SearchEnds` | src/bsdsocket/sb_sockpass.c:89-97 | with fewer than 2^31-1 holders the unique-id search finds a free id |
| `SockPass.IncRefs` | src/bsdsocket/sb_socket.c:73-92 | an incref raises its opener's count by one, no other's, and keeps slots distinct |
| `SockPass.DecRefs` | src/bsdsocket/sb_socket.c:94-106 | a decref lowers its opener's count by one, no other's, and empties the slot at zero |
| `SocketRoot.Root.OwnerIncref` | src/bsdsocket/sb_socket.c:73-92 | the slot loop computes the specified incref, or refuses a fifth owner |
| `SocketRoot.Root.OwnerDecref` | src/bsdsocket/sb_socket.c:94-106 | the slot loop computes the specified decref |
| `SocketRoot.Root.SockFree` | src/bsdsocket/sb_socket.c:659-666 | owner slot, count and destruction in that order |
| `SocketRoot.Root.CloseSocket` | src/bsdsocket/sb_api.c:432-467 | close equals the specified call, table and list kept in step |
| `SocketRoot.Root.Dup2Socket` | src/bsdsocket/sb_sockpass.c:17-60 | Dup2 equals the specified call in every branch, an occupied target closed first |
| `SocketRoot.Root.UniqueId` | src/bsdsocket/sb_sockpass.c:89-97 | the search loop ends with the first free id of the cycle and the counter past it |
| `SocketRoot.Root.ReleaseCommon` | src/bsdsocket/sb_sockpass.c:76-130 | release and release-copy equal the specified call; parked ids stay distinct |
| `SocketRoot.Root.ObtainSocket` | src/bsdsocket/sb_sockpass.c:146-199 | obtain equals the specified call, every refusal leaving all as it was |
| `Dns.SplitText` | src/mdns/mdns.c:111-133 | splitting a dotted name loses one final dot and nothing else |
| `Dns.RoundTrip` | src/bsdsocket/sb_rdns.c:133-184 | an encoded name decodes to its labels in both decoders, and the skipper finds its end |
| `Dns.Compressed` | src/bsdsocket/sb_rdns.c:149-163 | a name ending in a pointer reads as its labels followed by the name pointed to; the skipper stops after the pointer (section 4.1.4 of RFC 1035) |
| `Dns.WalkIsName` | src/bsdsocket/sb_rdns.c:149-184 | the decoder accepts exactly the names of RFC 1035 of at most 128 labels and pointers, and besides them walks that leave the packet without a root label |
| `Dns.CutShortIsAccepted` | src/bsdsocket/sb_rdns.c:149-184 | counterexample to exactness: a name cut off by the packet's end is accepted |
| `DnsCode.DecReads` | src/bsdsocket/sb_rdns.c:63-78 | the decimal label reads back as the octet, without leading zeros |
| `DnsCode.PutOctet` | src/bsdsocket/sb_rdns.c:63-78 | writes that label, or fails exactly when it does not fit |
| `DnsCode.PutLabel` | src/bsdsocket/sb_rdns.c:81-92 | writes a literal label, or fails exactly when it does not fit |
| `DnsCode.Build` | src/bsdsocket/sb_rdns.c:96-129 | the buffer holds the whole PTR query, or the call fails exactly when it does not fit |
| `DnsCode.Encode` | src/mdns/mdns.c:111-133 | succeeds exactly when every label is 1 to 63 octets and the name fits, and then the buffer holds it |
| `DnsDecode.SkipName` | src/bsdsocket/sb_rdns.c:133-145 | just past the name as written, or -1, on arbitrary bytes |
| `DnsDecode.SbName` | src/bsdsocket/sb_rdns.c:149-184 | on arbitrary bytes: ends, stays in both buffers, fails exactly on malformed or empty names, else leaves the text that fits and a NUL |
| `DnsDecode.MdnsName` | src/mdns/mdns.c:69-108 | on arbitrary bytes: ends, stays in both buffers, and returns the skipper's offset whenever it decodes |
| `DnsDecode.Parse` | src/bsdsocket/sb_rdns.c:187-227 | finds the first PTR answer behind any questions and records, or fails, on arbitrary bytes |
| `DnsDecode.QueryDecodes` | src/bsdsocket/sb_rdns.c:96-129 | the query for an address of octets a.b.c.d, in octets: its header and tail, and a name that both decoders read as the decimals of d, c, b, a, in-addr and arpa (section 3.5 of RFC 1035) |
| `DnsDecode.WordReads` | src/bsdsocket/sb_rdns.c:191-218 | 16-bit fields are read high octet first |
| `DnsDecode.PtrInjective` | src/bsdsocket/sb_rdns.c:108-120 | different addresses ask for different names |
| `DnsDecode.NameRoundTrip` | src/mdns/mdns.c:69-133 | decoding an encoded name gives the same text and end offset; the text is the same if and only if the name has no final dot |
| `DnsDecode.ReplyParses` | src/bsdsocket/sb_rdns.c:187-227 | a reply, given in octets, with a compressed owner name parses to the name in its PTR record |
| `Sana2.RequestsConserved` | port/amiga/sana2_tx.c:28-179 | in every run of senders, driver and pump: each write is free, staged or in flight and each read in one place, the in-flight and flight counters and the room are exact, frames come out in reply order or are counted as dropped |
| `Sana2.FlightIsExact` | port/amiga/sana2_pump.c:498-566 | the flight counter is the number of reads marked FLIGHT |
| `Sana2.ParkedIff` | port/amiga/sana2_pump.c:430-566 | exact condition in every run: a read is parked if and only if some step parked it and no ONLINE was handled since |
| `Sana2.OnlineReleases` | port/amiga/sana2_pump.c:430-492 | ONLINE handled without error and not draining puts every parked read, in order, back on the way to the driver and rearms the event |
| `Sana2.OnlineTooEarly` | port/amiga/sana2_pump.c:669-671 | counterexample: ONLINE handled before a read that came back out of service is looked at leaves that read parked with the link up |
| `Sana2.TeardownEnds` | port/amiga/sana2_pump.c:637-679 | from every state of every run there are steps to a passed drain test |
| `Sana2.DrainTestExact` | port/amiga/sana2_pump.c:637-644 | the test passes if and only if no request is with the driver, replied, unharvested or on its way back and the event request is home or dead |
| `Sana2.DrainedMeansQuiet` | port/amiga/sana2_pump.c:637-679 | once the drain test has passed, then and ever after no request is with the driver, on its way to it or unharvested, and every read is parked or home |
| `Sana2.AdmittedStages` | port/amiga/sana2_tx.c:44-79 | a datagram admitted for k frames never finds the write pool dry |
| `Sana2.OrderKeeps` | port/amiga/sana2_pump.c:388-566 | each step keeps arrivals equal to decided, harvested and replied reads in order, with drop counters exact |
| `Sana2.SafeKeeps` | port/amiga/sana2_tx.c:146-172 | each step keeps: nothing is staged while the lock is free, and teardown stops staging, rearming and unparking |
| `Sana2If.TxSide.LinkOutput` | port/amiga/sana2_tx.c:28-102 | a frame is accepted into exactly one request under its own identity or a private copy's, after a flush of a dry pool, or refused for the stated reason |
| `Sana2If.TxSide.Flush` | port/amiga/sana2_tx.c:146-172 | the batch is submitted in order; what finishes in place is retired, the rest is in flight |
| `Sana2If.TxSide.Complete` | port/amiga/sana2_tx.c:175-179 | a harvested write returns to the pool and leaves the in-flight count |
| `Sana2If.PumpSide.HarvestPort` | port/amiga/sana2_pump.c:388-426 | reads in reply order, every write, and whether the event came back |
| `Sana2If.PumpSide.TxEv` | port/amiga/sana2_pump.c:430-492 | the event part in place: what an error, OFFLINE and ONLINE do to the link flag and the event request, for which event it is armed again, and that ONLINE hands every parked read to the driver |
| `Sana2If.PumpSide.RequeueBatch` | port/amiga/sana2_pump.c:509-555 | up to 64 finished reads decided in order: delivered, counted, parked or sent home |
| `Sana2If.PumpSide.RepostAll` | port/amiga/sana2_pump.c:559-564 | every read to repost is handed to the driver, in order |
| `Sana2If.PumpSide.SendAllUnparked` | port/amiga/sana2_pump.c:484-491 | every unparked read is marked, counted and handed to the driver |

## Left out

- lwIP itself (TCP input and output, ARP, DHCP, IGMP timers), Exec and DOS calls, DMA, caches and interrupts are the environment.
- The checksum verdict of a received frame (`port/amiga/netdev_rx.c:59-94`, `port/amiga/sana2_pump.c:171-191`) is a flag of the descriptor.
- RxGroMeaning.RunMeaning: for runs in which a held run outgrows the 16-bit total nothing is said of what flows hear; `RxGroMeaning.RunSplices` still says what every packet is made of, and which are sound.
- Bytes past the end of a frame read as zero in classification; the code relies on the length tests before it.
- The TCP checksum of a merged packet is not patched by the code and not modelled: merging runs only with lwIP's own check off.
- The branch of `port/amiga/netdev_tx.c:203-208` that coalesces long pbuf chains, the link-header cache and descriptor offsets.
- SlabHeap.HeapSafe: an attach is a step only while no DMA block is out, the condition `SlabHeap.ReattachExact` shows to be needed; request sizes do not overflow 32 bits; the release of the exec arenas at shutdown is not a step.
- SlabHeap.NetstackMem.Free: for a pointer that is neither live, lost, free, null nor foreign-stamped the result is stated and no invariant is claimed; nobody writes through a block after losing it at a detach; for well-behaved owners the corruption branch of malloc cannot be reached.
- SocketRoot.Root.CloseSocket: the linger wait of `src/bsdsocket/sb_api.c:446-460`, which releases the lock, is not modelled; close acts at once.
- TxCapacity.Frames: MTUs below 28 are outside the model of admission; `TxCapacity.DivisorZeroIff` and `TxCapacity.UngatedIff` show what the code's count is for them.
- TcpSocket.TcpSock.Recv: one reader at a time per socket; the number of sleeps is bounded by a parameter, and the last one the caller has patience for does not succeed; the caller's buffer is the returned sequence; at most 2^32-1 bytes are queued, which the receive window ensures.
- TcpSocket.TcpSock.Recv: a newer mark overwrites an unread older one as in the code, so only the mark latched at return is claimed not to be crossed, and a stop at a mark is at a place where one was latched only while none came during an unlocked copy.
- TcpRecv.StreamIsExact: the accept path and the error callback only end a run of deliveries.
- Mcast.SanaMcast.Sync: failed commands and re-adding an interface leave the shadow inaccurate in the code; nothing is claimed then.
- The netdev push of the multicast filter, which sends the whole list.
- NetCtl.AnsweredOnce: the exit by a stray CTRL-C and a stack start that fails after its task exists are not steps; the one-second nudge only signals.
- SockPass.HandOff: the descriptor count of one opener on one socket is not bounded to 16 bits; sockets accepted by a listener and the linger wait of close are not steps.
- DnsCode.Build: after a failed call the buffer's contents are unspecified, as in the code.
- DNS query sending, retries and timeouts; record types other than PTR.
- Sana2.RequestsConserved: delivery ends where a frame leaves the read request, so a frame dropped afterwards for a bad checksum counts as delivered; the timer request is not modelled; steps of the pump may come in any order that its own data allows.
- Receive delivery of the SANA-II pump repeats the netdev loop over the same merge engine and is not modelled again.
- VLAN hooks, statistics, preferences, network databases, tag lists, the command-line tools and the test peers: table lookups, user interface or input and output.
