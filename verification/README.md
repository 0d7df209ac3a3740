# Verified model of the peer-to-peer chunk downloader

A Dafny 4.11 model of the downloader's five hard parts, with proofs of what they promise:

- **Transfer** (`SlidingWindow`, `Receiver`, `Transfer`, `TransferSafety`, `SenderSteps`, `ReceiverSteps`,
  `TransferProgress`, `TransferCompletion`, `Congestion`, `CongestionCap`, `Reaping`):
  the sliding-window protocol of `sock_io.c`. The sender window and the receive buffer are heap classes whose
  methods are proved equal to functions on their values; these functions are the steps of a state machine whose
  network is a bag of packets that may be lost, duplicated and delivered in any order. Safety holds on every run;
  what each event does is also stated from outside, by positions, slots and packets in transit; from which states the downloader and from which the sender can still finish is characterised exactly.
- **SHA-1** (`Sha1Spec`, `Sha1`): the definition of FIPS 180-4 (sections 4.1.1, 5.1.1, 5.3.1 and 6.1.2) and the
  streaming implementation of `sha.c`, in both update variants and all six unrollings, refining it.
- **Router simulator** (`Graphs`, `Dijkstra`, `Routing`, `Forwarding`, `Delivery`, `Capacity`): `createTable` of
  `hupsim.pl` on router objects, Dijkstra's correctness, hop-by-hop forwarding with the independently built tables,
  and when packets are dropped.
- **Peer bookkeeping** (`HashLists`, `Downloads`, `DownloadSteps`, `DownloadLists`, `ChunkFinish`, `Uploads`,
  `UploadSteps`, `UploadLists`, `Discovery`): linked lists with a ghost node sequence, the four download lists and the counters kept by hand, upload slots, and the
  WHOHAS/IHAVE exchange. Each list method refines a function on list values; what these functions do is stated item by item, and the
  invariants are proved about all their runs.
- **Wire and console** (`Codec`, `Framing`, `OnTheWire`, `LineFraming`): the packet codec with its in-place byte
  swaps, the receive buffer, and the console's line framing.

`Basics` and `Packets` hold shared vocabulary. `dafny verify dfyconfig.toml` checks everything.

Integers are unbounded except where the code's width matters: sequence numbers are read as `int32_t`, SHA-1 works on
32-bit words with a 64-bit length that wraps, packet fields have their C ranges, and the console's `cur` wraps at 32
bits. The congestion window is an exact real that is truncated where the code converts it to `int`.

## Where the code does not do what it says

Each of these is proved by a concrete input or run, and the exact condition under which the code does meet the
expectation is proved with it.

- The first packet of a chunk never times out (sock_io.c:180). If it or its acknowledgement is lost the transfer is
  stuck for good: `TransferProgress.FirstPacketLost` exhibits the state, `TransferProgress.CanCompleteIff` says
  exactly from which states the downloader can still get the chunk.
- A downloader that has its chunk drops all further packets of the peer (peer.c:195, 315-337), so a lost
  acknowledgement of the last packets is never replaced: the sender retransmits until the upload is aborted, and the
  chunk never enters its list of sent chunks. `TransferCompletion.LastAckLost` exhibits a run,
  `TransferCompletion.CanFinishIff` says exactly from which states the sender can still finish, and
  `TransferProgress.RoundsComplete` how far any number of loss-free rounds takes it from any state.
- sock_io.c:247 says that acknowledgements above the last sent packet are ignored; the code jumps the window to them,
  as readme.txt:23 says. `TransferSafety.AcknowledgementsAreSound` covers the jump. The jump does not apply the cap of
  128 packets. That does no harm as long as the sender sends between any two acknowledgements, as the program's loop
  does when each comes in a datagram of its own (peer.c:133-163), which is how the program sends them:
  `CongestionCap.ServedRunsAreCapped`. Two acknowledgements in one datagram, which the receive loop accepts
  (peer.c:52-63), take the window to 129 on the run of `CongestionCap.CapExceeded`. `CongestionCap.CapHoldsIff` says
  exactly which runs respect the cap; on every run the window is at most one more than the acknowledged packets
  (`TransferSafety.WindowBounds`).
- hashlist.h:55 says that a peer is never given the same chunk again. Only the chunk whose upload was completed last
  is refused (`Uploads.RefusedIffLastSent`); `Uploads.SentAgainIff` says exactly on which runs a chunk is sent again,
  `Uploads.SameChunkTwice` exhibits one.
- `init_upload` takes a slot before it looks whether the chunk is held (peer.c:565-567), so a GET for a chunk
  that is not held loses the slot for good: `Uploads.AllSlotsLost` is a run after which no GET is ever accepted,
  `Uploads.UploadSlots` says exactly when the slots are right (counter equals uploads if and only if no such GET was
  accepted).
- The console buffer's far end is never cleared (input_buffer.c:50), so after a line and a buffer content that
  together exceed 8191 bytes an old newline can be met again. `LineFraming.OneByteTooMany` is a run one byte above the
  safe bound that is framed wrongly; `LineFraming.RunFrames` says exactly which runs are framed correctly, and
  `LineFraming.LeftCleanIff` when a call leaves nothing behind.
- A finished chunk leaves the list of needed chunks even when its hash check failed (peer.c:192-195):
  `ChunkFinish.FinishDropsTheChunk` says exactly when it was written, `ChunkFinish.MismatchDropsTheChunk` exhibits a
  download that completes without anything being written.
- The receive loop goes round for ever on a header with length field 0, for example on 16 zero bytes
  (`Framing.ZeroHeader`): `Framing.EndsIff` says exactly on which buffers it ends. A stream that is cut off leaves a
  negative fill level (`Framing.CutOffStream`); `Framing.RemainderIff` says exactly when it does not.
- `find_node_by_addr` compares two dotted addresses that lie in the same static buffer (hashlist.c:167), so only the
  port decides: `HashLists.OtherHostFound` exhibits a peer taken for another one, `HashLists.FindsOwnIff` says exactly
  when the search finds what the whole address would. Everything about "a peer" below is about a port.

## Model

| member | source | states |
|---|---|---|
| SlidingWindow.Window.constructor | sock_io.c:49-74 | A new window is empty: positions 0, 0, 1, quota 1, window 1, threshold 64, nothing in the buffer. |
| SlidingWindow.Window.Fill | sock_io.c:77-128 | The slots from the old LPR on hold exactly the consecutive 1024-byte pieces of the data, numbered by slot; how much was taken and the new LPR are given for every length and every filling level; all other slots are untouched. |
| SlidingWindow.Window.UponReceiveAck | sock_io.c:242-303 | The window after an acknowledgement is the value `OnAck`: ignored below 1, a jump above LPS, an advance, a duplicate, or an old one. |
| SlidingWindow.Window.Jump | sock_io.c:255-264 | LPA and LPS become the acknowledged number, the window grows by one, the quota is recomputed. |
| SlidingWindow.Window.Advance | sock_io.c:266-281 | Slow start or capped congestion avoidance, then the quota. |
| SlidingWindow.Window.Collapse | sock_io.c:186-192 | The threshold becomes half the window, rounded down but at least 2; window 1, everything in flight forgotten, counter of the last acknowledged packet 1. |
| SlidingWindow.Window.CheckDatapackTimeout | sock_io.c:167-198 | The oldest packet in flight expires exactly when it is in flight, not packet 1, and older than the limit; then the window collapses, otherwise nothing changes. |
| SlidingWindow.Window.Send | sock_io.c:201-240 | Transmits the next packets in order, as many as the quota and the buffer allow, stamps exactly these and uses the quota up. |
| SlidingWindow.FragmentPrefix | sock_io.c:85-106 | When the buffer fills up, the pieces of the data that was taken are the pieces of the whole. |
| Receiver.Gap | sock_io.c:346-361 | The next expected number is the first empty slot; slot 513 ends the search. |
| Receiver.RecvState.constructor | sock_io.c:384-399 | A new receiver expects packet 1 and holds nothing. |
| Receiver.RecvState.UponReceivingDatapack | sock_io.c:322-382 | New state and acknowledgements sent for every packet: one out of range changes nothing; any other is stored in its slot, whether it closes the gap, is early, or old, and no other slot changes. |
| Receiver.RecvState.Advance | sock_io.c:345-361 | Moves to the first gap, counts exactly the payload passed, and acknowledges every packet passed, in order. |
| Transfer.CollapseKeeps | sock_io.c:184-196 | A timeout or third duplicate keeps the sender's invariant. |
| Transfer.SendKeeps | sock_io.c:201-240 | Sending keeps the sender's invariant. |
| Transfer.SendGenuine | sock_io.c:214-226 | What is sent is what p2p_sender buffered, and the history of the highest packet sent covers it. |
| Transfer.JumpKeeps | sock_io.c:255-264 | A jump to a packet that was sent before keeps the sender's invariant. |
| Transfer.AdvanceKeeps | sock_io.c:266-281 | So does an advance, including flight within the window on runs without jumps. |
| Transfer.DuplicateKeeps | sock_io.c:283-299 | So does a duplicate; the counter at LPA is one plus the duplicates since the last advance or collapse. |
| Transfer.StaleKeeps | sock_io.c:253-253 | An old acknowledgement changes nothing but an unused counter. |
| Transfer.DataKeeps | sock_io.c:322-382 | A data packet keeps the receiver's invariant: every slot holds the packet of its number, the byte count is the payload below the gap. |
| Transfer.AnswersGenuine | sock_io.c:354-379 | Every acknowledgement sent names a packet below the new next expected one. |
| Transfer.StepInv | peer.c:155-210 | Every step of sender, receiver, timer and network keeps the whole invariant. |
| Transfer.RunInv | peer.c:155-210 | So does every run. |
| Transfer.ReachableInv | peer.c:155-210 | Every reachable state satisfies the invariant. |
| Transfer.ReachableIffRun | peer.c:155-210 | The reachable states are exactly the results of runs. |
| TransferSafety.ReceiverHoldsTheChunk | sock_io.c:322-382 | In every reachable state slot i holds exactly packet i or nothing, NPE is the first empty slot, nothing lies beyond NPE + 30, the byte count is exact, and what is assembled is a prefix of the chunk. |
| TransferSafety.ChunkArrives | sock_io.c:420-441 | In every reachable state the byte count reaches the chunk size if and only if all 512 packets were accepted, if and only if the assembled buffer is the uploaded chunk. |
| TransferSafety.AcknowledgementsAreSound | sock_io.c:242-303 | In every reachable state, jumps included: LPA < NPE <= highest packet sent + 1, every acknowledgement in transit is below NPE, every data packet in transit is an original that was sent, and LPA = 512 implies that the receiver has everything. |
| TransferSafety.NeverBackwards | sock_io.c:242-303 | On every run LPA, NPE and the sent range never decrease. |
| TransferSafety.WindowBounds | sock_io.c:242-303 | In every reachable state LPA <= LPS <= LPR - 1, window >= 1, threshold >= 2, the quota is 0 or the truncated free window, an idle unfinished window may send, window <= LPA + 1; without jumps also window <= 128, threshold <= 64, flight <= window. |
| TransferSafety.SendsWithinTheWindow | sock_io.c:213-228 | In every reachable state a call that sends leaves at most floor(window) packets in flight. |
| TransferSafety.ThirdDuplicateCollapses | sock_io.c:283-299 | In every reachable state counters above LPA are 0, the one at LPA is one plus the duplicates since the last advance, timeout or collapse, and a duplicate collapses the window exactly when it is the third. |
| TransferSafety.AssembledPrefix | sock_io.c:435-439 | The payloads below n are the first (n-1) * 1024 bytes of the chunk. |
| TransferSafety.RunConcat | peer.c:155-210 | A run continues from wherever a first run left the system. |
| SenderSteps.TimerFires | sock_io.c:167-198 | In every reachable state: if a packet was acknowledged and the oldest one in flight was sent more than 2 seconds ago, window 1, threshold half the old window, nothing in flight, quota 1; otherwise nothing at all changes. |
| SenderSteps.AckArrives | sock_io.c:242-303 | In every reachable state, for an acknowledgement in transit: above LPS both positions jump to it and the window grows by one; between LPA and LPS LPA moves to it and the window grows by the packets acknowledged, or above the threshold by their share of the window up to 128; a third duplicate halves; a first or second one and an old one change no position, window or threshold. The quota is recounted and nothing else changes. |
| SenderSteps.SendTransmits | sock_io.c:201-240 | In every reachable state a send call moves LPS by the quota or to the last packet, puts exactly these packets of the chunk in transit, stamps exactly them and uses the quota up. |
| SenderSteps.SendFillsTheWindow | sock_io.c:213-228 | With any quota left the packets in flight then are floor(window), unless the chunk ends before. |
| SenderSteps.ThresholdHalves | sock_io.c:167-303 | In every reachable state: a timeout of the oldest packet and a third duplicate halve the threshold; no other event of sender, receiver or network changes it. |
| ReceiverSteps.DataArrives | sock_io.c:322-382 | In every reachable state, for a data packet in transit: if the downloader listens and the packet is at most 30 ahead, its slot is filled, no other slot changes, NPE moves only when the gap closes and then to the next missing packet, and exactly the acknowledgements of that case are put in transit; otherwise the packet is gone and nothing else happens. |
| ReceiverSteps.OvertakersAreKept | sock_io.c:336-361 | In every reachable state: deliver any packets of the receive window in any order and then the one that is waited for; NPE is then behind all of them up to the first one missing, and all acknowledgements up to there are in transit. |
| TransferProgress.RoundAdvances | sock_io.c:167-240 | From every state, closed or not and with any network: one round (timer, send, delivery of the oldest packet, delivery of its acknowledgement) advances the sender by exactly one packet if that acknowledgement is in transit already, or the downloader listens and the packet is in transit or will be sent again; otherwise not at all. |
| TransferProgress.RoundsComplete | sock_io.c:167-240 | From every state, k rounds advance the sender by exactly `Gain`: the run of acknowledgements already in transit if the downloader has closed, otherwise min(k, packets left) if the first round helps and 0 if not; so 512 rounds complete a recoverable transfer whose downloader listens. The rounds are an actual run. |
| TransferProgress.RoundAdvancesIff | sock_io.c:180-183 | With an empty network a round makes progress if and only if the downloader listens and a packet was acknowledged or none is in flight. |
| TransferProgress.RecoverableFinishes | sock_io.c:167-240 | A recoverable sender whose downloader listens can still see its last acknowledgement, with the chunk complete. |
| TransferProgress.CanCompleteIff | sock_io.c:180-183 | A state can still lead to the complete chunk if and only if it is complete, recoverable, or packet 1 or an acknowledgement of it is still in transit. |
| TransferProgress.DeadForever | sock_io.c:180-183 | A dead state stays dead on every run. |
| TransferProgress.FirstPacketLost | sock_io.c:180-183 | Sending once and losing packet 1 leads to a dead state. |
| TransferProgress.Retransmitted | sock_io.c:184-226 | After the timer and the send call the oldest unacknowledged packet is in transit again. |
| TransferProgress.Acknowledged | sock_io.c:343-379 | Delivering a packet at or below NPE puts its own acknowledgement in transit. |
| TransferProgress.AckArrives | sock_io.c:242-281 | Delivering an acknowledgement above LPA moves LPA to it, by advance or jump. |
| TransferCompletion.CanFinishIff | peer.c:165-176 | From a state the sender can still reach LPA = LPR - 1 if and only if it is there, the acknowledgement of the last packet is in transit, or the downloader listens and the window is recoverable or packet 1 or an acknowledgement is in transit. |
| TransferCompletion.AbandonedForever | peer.c:315-337 | Once the downloader has closed and no acknowledgement of the last packet is left, no run brings the sender to its last packet. |
| TransferCompletion.LastAckLost | peer.c:187-195 | A run that ends so: 511 rounds, the last packet delivered, its acknowledgement lost, the downloader closed; it has the whole chunk and the sender stays at 511 for ever. |
| CongestionCap.CapStepIff | sock_io.c:255-264 | From a capped state a step leaves the cap if and only if it delivers an acknowledgement that makes a window above 127 jump. |
| CongestionCap.CapHoldsIff | sock_io.c:255-275 | The window stays within 128 all through a run if and only if no such acknowledgement is delivered on it. |
| CongestionCap.ServedRunsAreCapped | peer.c:133-163 | On every run that sends between any two delivered acknowledgements, whatever the network does and jumps included: at every moment window <= 128, threshold <= 64, flight <= window. |
| CongestionCap.SteadyStep | sock_io.c:201-299 | What such runs keep, step by step: nothing beyond LPA + 128 was ever sent, and a window above 127 meets no acknowledgement above LPS. |
| CongestionCap.CapExceeded | peer.c:52-63 | A run in the loop's order that sends between any two acknowledgements and ends with a window of 128 and acknowledgement 254; acknowledgement 255 directly after it gives 129. |
| Congestion.GrownBounds | sock_io.c:269-277 | An advance adds between 0 (below the cap) and one packet per acknowledged packet. |
| Congestion.SlowStart | sock_io.c:276-279 | In slow start n acknowledgements one by one grow the window by exactly n and leave the same positions, window and quota as one acknowledgement of the last packet. |
| Congestion.Avoidance | sock_io.c:269-275 | In congestion avoidance acknowledging up to a whole window adds at most one packet, in proportion, and ends at or below the cap. |
| Reaping.Reap | sock_io.c:420-464 | Copies the payloads into one buffer, and writes it, from offset * 524288 on, exactly when it has the chunk's size and hash. |
| Reaping.DownloadWritesTheChunk | peer.c:187-195 | In every reachable state, for every expected hash and chunk number: incomplete until all packets were accepted, then exactly the uploaded chunk is written in its place if its hash is the expected one, and nothing otherwise. The removal from the needs is ChunkFinish.FinishDropsTheChunk. |
| ChunkFinish.FinishChunk | peer.c:187-203 | On a receiver and the linked lists: nothing until all bytes are there; then reap, remove the chunk from needs and downloads whatever reap said, and complete the download if nothing is needed any more. |
| ChunkFinish.FinishDropsTheChunk | peer.c:187-203 | For every reachable transfer state and every download list: when the bytes are all there exactly one entry of the chunk leaves the needs and it is no longer downloading; it was written, in the place of its chunk number, if and only if its SHA-1 is the hash asked for. |
| ChunkFinish.WrittenInItsPlace | peer.c:192-192 | On every run of the download side and for every reachable transfer behind it: what arrived is written if and only if it has the hash of the first needed entry with that hash, and then at that entry's chunk number * 524288. |
| ChunkFinish.MismatchDropsTheChunk | peer.c:192-203 | For every chunk and every other hash: a run after which the only needed chunk is gone, the download is complete, and nothing was written. |
| Reaping.FinishedSenderMeansDelivered | peer.c:165-176 | In every reachable state a sender with LPA = LPR - 1 knows that the receiver can write exactly the uploaded chunk. |
| Reaping.StartUpload | peer.c:574-576 | Creating a window and loading a chunk gives the initial state of the transfer. |
| Sha1Spec.ZeroCountIsLeast | sha.c:536-538 | The padding of FIPS 180-4 uses the least number of zero bytes that fits. |
| Sha1Spec.PadLength | sha.c:536-543 | Padding adds 9 to 72 bytes and ends on a block boundary. |
| Sha1.SwapIsBigEndian | sha.c:80-81 | A byte-swapped little-endian load is the big-endian word. |
| Sha1.SwapLengthIsBigEndian | sha.c:84-89 | The swapped length, as stored in memory, is big-endian. |
| Sha1.FastStoreIsSame | sha.c:547-554 | The word-wise digest store of the fast variant writes the same bytes. |
| Sha1.ChMacro | sha.c:52-52 | The rewritten function of rounds 0-19 is Ch. |
| Sha1.MajMacro | sha.c:54-54 | The rewritten function of rounds 40-59 is Maj. |
| Sha1.MacrosMatch | sha.c:52-69 | Each phase uses the function and constant of its rounds. |
| Sha1.DoRoundIsRound | sha.c:57-64 | One DO_ROUND is one round of the standard. |
| Sha1.SHA1Context.constructor | sha.c:149-163 | A fresh context holds the initial value and nothing else. |
| Sha1.SHA1Context.Expand | sha.c:184-200 | The pointer-walked loops compute the message schedule. |
| Sha1.SHA1Context.RunRounds | sha.c:208-441 | Every one of the six unrollings computes the same 80 rounds of the standard. |
| Sha1.SHA1Context.Guts | sha.c:176-451 | Compresses one block, for every unrolling. |
| Sha1.SHA1Context.Take | sha.c:503-521 | One pass of the copy loop. |
| Sha1.SHA1Context.Update | sha.c:501-522 | The plain update reaches the context described by `Feed`: same hash, length and live buffer bytes. |
| Sha1.SHA1Context.UpdateFast | sha.c:461-500 | The fast-copy update reaches the same context from the same start. |
| Sha1.SHA1Context.Final | sha.c:529-558 | Pads, appends the length, and stores the digest if a destination is given. |
| Sha1.FeedConcat | sha.c:501-522 | Feeding a then b is feeding a + b, from every context. |
| Sha1.PaddingIsPad | sha.c:536-543 | What SHA1Final feeds is the padding of the standard. |
| Sha1.ClosedIsSha1 | sha.c:529-558 | Closing a context that was fed msg yields the standard's hash of msg. |
| Sha1.StreamingIsSha1 | sha.c:453-558 | For every way of cutting an input under 2^64 bits into updates the digest is the standard's SHA-1 of the whole. |
| Sha1.ShaHash | chunk.c:33-49 | Computes the standard's SHA-1 of its argument. |
| Graphs.FirstHop | hupsim.pl:278-282 | A neighbour that starts a shortest walk is on a shortest path and exactly one nearer. |
| Dijkstra.VisitKeeps | hupsim.pl:261-273 | Visiting a nearest unvisited router keeps the invariant of the algorithm. |
| Dijkstra.NoShorterWalk | hupsim.pl:261-273 | No walk is shorter than the final label. |
| Dijkstra.PredWalk | hupsim.pl:268-271 | Every finite label is the length of a walk. |
| Dijkstra.LabelsAreDistances | hupsim.pl:236-274 | On a connected graph of fewer than 65535 routers the final labels are the hop counts, and every predecessor is a neighbour one hop nearer. |
| Routing.FifoStaysConsistent | hupsim.pl:47-69 | Queueing and unqueueing keep the size field exact and the queue within its limit. |
| Routing.NSQueue.EnQ | hupsim.pl:47-69 | Appends when there is room, with the size counted; else only counts a drop. |
| Routing.NSQueue.Shift | hupsim.pl:208-211 | Takes the head off and subtracts its length. |
| Routing.NSRouter.Recv | hupsim.pl:150-182 | Delivers a packet for this router, puts any other at the end of the queue of its route if there is room and in no other, ignores unknown destinations; 0.0.0.0 means 127.0.0.1. |
| Routing.Reset | hupsim.pl:236-245 | Sets every router's base state and leaves predecessors. |
| Routing.SelectNext | hupsim.pl:249-259 | Finds an unvisited router with the least distance. |
| Routing.Relax | hupsim.pl:261-272 | Relabels exactly the neighbours that become nearer. |
| Routing.ComputeDistances | hupsim.pl:236-274 | Ends with every router visited and the algorithm's invariant. |
| Routing.SettledRouter | hupsim.pl:236-274 | After it each router object carries its hop count and a predecessor one hop nearer. |
| Routing.FirstRouter | hupsim.pl:278-282 | The predecessor walk ends, never meets an undefined predecessor, and finds a neighbour on a shortest path. |
| Routing.QueueTowards | hupsim.pl:278-286 | The queue to that neighbour exists. |
| Routing.CreateTable | hupsim.pl:226-288 | The table has, for every other router, a queue of this router that starts a shortest path there. |
| Routing.BuildTables | hupsim.pl:386-389 | After the start-up loop this holds for every router at once. |
| Forwarding.BuiltTablesRoute | hupsim.pl:386-389 | The tables that the routers built separately agree: together they route. |
| Forwarding.HopIsNearer | hupsim.pl:168-189 | Every hop reduces the distance by exactly one. |
| Forwarding.ForwardingIsShortest | hupsim.pl:168-189 | A packet's path has exactly the shortest length, ends at its node and visits no router twice. |
| Forwarding.ReceiveInv | hupsim.pl:150-182 | recv keeps conservation and routing of all packets and always finds a queue. |
| Forwarding.HopInv | hupsim.pl:208-213 | So does moving a queue's head to the next router. |
| Forwarding.SimulationIsSound | hupsim.pl:150-213 | On every run no router dies for lack of a queue; every packet with a known destination is delivered, dropped or queued exactly once; queue sizes and limits are exact; a delivered packet is at its node after exactly the shortest number of hops. |
| Delivery.NumberingExists | hupsim.pl:381-382 | The queues of every topology can be numbered, so the next rows are about every topology. |
| Delivery.BuiltSimulationIsSound | hupsim.pl:386-389 | With the tables the routers built for themselves, on any connected topology, limits and arrivals, every run is sound. |
| Delivery.HopUnloads | hupsim.pl:208-213 | Every hop takes at least one off the sum of the remaining distances of all queued packets. |
| Delivery.EveryPacketSettles | hupsim.pl:191-224 | After the last arrival, in whatever order queue heads become due, at most that many hops are possible; when none is possible any more, every packet that entered was delivered or counted as dropped, exactly once. |
| Delivery.QueuesRunEmpty | hupsim.pl:191-224 | From every such state the queues can be run empty. |
| Capacity.ArrivalSteps | hupsim.pl:150-182 | A packet from outside for a node in the map counts as entered; it is delivered if the node is this router's, else it becomes the last packet of the one queue the table has for the node, or is dropped if that queue is full; no other queue changes. |
| Capacity.HopSteps | hupsim.pl:208-213 | The first packet of a queue leaves it, and the same happens to it at the queue's other end, one hop further. |
| Capacity.LossMeansFull | hupsim.pl:54-67 | A step drops at most one packet, and only if a queue of the router that has it is full. |
| Capacity.LimitsAreRespected | hupsim.pl:54-67 | On every run no queue holds more packets than its limit in the map, or 10 without one. |
| Capacity.EnteredAreOffered | hupsim.pl:150-182 | On every run exactly the packets that arrived at a router for a node in the map have entered. |
| Capacity.FewPacketsAllArrive | hupsim.pl:47-224 | On every run with at most as many arrivals as every queue has places nothing is dropped, and once the queues are empty every packet for a node in the map was delivered there, as often as it arrived, over the shortest number of hops. |
| HashLists.HashList.AppendNode | hashlist.c:25-39 | Pushes at the front (despite its name) and keeps the list acyclic and duplicate-free. |
| HashLists.HashList.FindPrevNode | hashlist.c:174-183 | Finds the predecessor. |
| HashLists.HashList.DeleteNode | hashlist.c:40-80 | Removes exactly that node; nothing for null or an empty list. |
| HashLists.HashList.DeleteNodeByHash | hashlist.c:82-116 | Removes the first node with the hash. |
| HashLists.HashList.Length | hashlist.c:207-217 | Counts the nodes. |
| HashLists.HashList.Clear | hashlist.c:220-237 | Empties the list and returns how many there were. |
| HashLists.MoveNode | hashlist.c:118-149 | Removes the node from one list and pushes it on the other, whose old head it then points to. |
| HashLists.FindNode | hashlist.c:151-160 | The first node with the hash, or null. |
| HashLists.FindNodeByAddr | hashlist.c:162-172 | The first node with the peer's port, or null: both dotted addresses that are compared lie in one static buffer. |
| HashLists.FindsOwnIff | hashlist.c:162-172 | It finds the first node of the whole address if and only if the first node with the port, if any, is of the same host. |
| HashLists.OtherHostFound | hashlist.c:167-167 | A node from another host with the same port is found. |
| Downloads.FillOneKeeps | peer.c:415-446 | Processing one offered hash keeps hashes unique and needed, peers unique, counters exact. |
| Downloads.AskedKeeps | peer.c:482-527 | So does asking for one chunk. |
| Downloads.BegunKeeps | peer.c:597-602 | So does the first data packet of a chunk. |
| Downloads.GetsExpiredKeeps | peer.c:452-478 | So does dropping any set of expired requests. |
| Downloads.DataExpiredKeeps | peer.c:621-634 | So does cancelling a silent download. |
| Downloads.FinishedKeeps | peer.c:604-617 | So does finishing, and the finished chunk is on the list of needs, so no null pointer is followed. |
| Downloads.CompletedKeeps | peer.c:549-558 | When nothing is needed nothing is active, so completing clears lists that are already empty. |
| Downloads.StepInv | peer.c:408-634 | Every event keeps the invariant and follows no null pointer. |
| Downloads.FoundAtMostNeeded | peer.c:408-634 | Active chunks never outnumber needed ones, hence found <= need. |
| Downloads.DownloadsAreConserved | peer.c:408-634 | On every run of IHAVE, GET, DATA, timeout, finish, complete and reset events: no hash is active twice and every active one is needed, no peer has two transactions, the transaction counter is exact and within its limit, and found minus active equals needed at the start minus still needed equals finished. |
| DownloadSteps.OfferQueues | peer.c:415-446 | For one offered hash, from any lists: nothing if it is requested, downloading or not needed; a new one is queued under the number of its first entry among the needs and counted; a queued one is re-queued for the offering peer if and only if that has another port and the old one's peer is busy. |
| DownloadSteps.OffersInTurn | peer.c:408-448 | The hashes of a packet are processed as if they came one after another. |
| DownloadSteps.AskSends | peer.c:482-527 | With a place left, exactly the first queued chunk whose peer's port has no transaction moves to the front of the requests; otherwise nothing changes. |
| DownloadSteps.DataStarts | peer.c:315-338 | The first request to the port moves to the front of the downloads if there is one and no download from the port; otherwise nothing changes. |
| DownloadSteps.GetsExpire | peer.c:452-478 | Of the requests exactly those not expired stay, in order, and both counters go down by the others. |
| DownloadSteps.DataExpires | peer.c:621-634 | Exactly the silent download goes, and both counters go down by one. |
| DownloadSteps.ChunkFinishes | peer.c:187-203 | Exactly the finished download goes, and the first entry with its hash among the needs; with the last entry the limit becomes 0. |
| DownloadSteps.ItemsAreTraced | peer.c:408-634 | On every run each chunk that is queued, requested or downloading carries the number of the first needed entry with its hash, and its peer offered that hash since the last reset. |
| DownloadLists.DownloadConn.Pick | peer.c:512-514 | The picked node leaves the queue, heads the sent list, is stamped, and its next pointer now leads into the old sent list. |
| DownloadLists.DownloadConn.PickTosendGet | peer.c:498-527 | Although the loop then walks the sent list it ends, moves exactly the first eligible chunk or none, stamps it, and returns it and 1 or 0 accordingly. |
| DownloadLists.DownloadConn.GetSender | peer.c:482-495 | Asks for at most one chunk, the one that now heads the sent list with the current time, and counts it. |
| DownloadLists.DownloadConn.FillTogetList | peer.c:408-448 | Does to the lists what the offered hashes do one after another; what each of them does is DownloadSteps.OfferQueues. |
| DownloadLists.DownloadConn.Retarget | peer.c:432-444 | A queued chunk is re-queued for another peer exactly when the port differs and its own peer is busy. |
| DownloadLists.DownloadConn.CheckTimeout | peer.c:452-478 | One pass deletes a request if and only if it is older than 10 seconds, keeps the order of the others and adjusts both counters. |
| DownloadLists.DownloadConn.InitDownload | peer.c:597-602 | Moves the request to the downloading list. |
| DownloadLists.DownloadConn.OnDataPacket | peer.c:315-338 | A data packet starts a download exactly when the peer has none and was asked; the peer's download then carries the current time. |
| DownloadLists.DownloadConn.CheckRecvdataTimeout | peer.c:621-634 | Cancels a download exactly when it was silent for more than 10 seconds. |
| DownloadLists.DownloadConn.FinishOneDownload | peer.c:604-617 | Removes the chunk from needs and downloads and frees its place. |
| DownloadLists.DownloadConn.CompleteMydownload | peer.c:549-558 | Clears the three working lists and forbids further requests. |
| DownloadLists.DownloadConn.ResetMydownload | peer.c:529-547 | Clears everything and loads the new needs, line by line as in LoadNeed; the need counter is their number, the limit is the given one, the other counters are 0 and the other lists empty. |
| DownloadLists.DownloadConn.LoadNeed | hashlist.c:270-282 | The list has as many entries as there are lines, and entry i is line number length - 1 - i. |
| Uploads.StepInv | peer.c:292-313 | Every upload event keeps one upload per peer and the slot account. |
| Uploads.UploadSlots | peer.c:559-595 | On every run uploads <= slot counter <= limit, one upload per peer, and counter = uploads if and only if no accepted GET named a chunk that is not held. |
| Uploads.SlotsLeak | peer.c:565-581 | For every chunk that is not held, n GETs for it lose n slots, up to all of them. |
| Uploads.LeakedOut | peer.c:565-581 | Once all slots are lost this way, no GET is accepted on any later run. |
| Uploads.AllSlotsLost | peer.c:565-581 | The two together, for every limit, chunk, later run and GET. |
| Uploads.NewestEntry | peer.c:170-170 | On every run the first entry for a peer in the list of sent chunks is the upload to it that was completed last. |
| Uploads.RefusedIffLastSent | peer.c:293-309 | On every run, with a free slot and no upload to the peer in progress, a GET is refused if and only if it names the chunk whose upload to that peer was completed last. |
| Uploads.CompletedAreHeld | peer.c:567-576 | Every chunk whose upload was completed is held. |
| Uploads.SentAgainIff | peer.c:293-309 | A run starts a second upload of a chunk to a peer that received it completely if and only if some GET asks, with a slot free and nothing being sent to the peer, for a chunk completed before the last one. |
| Uploads.SameChunkTwice | peer.c:297-309 | Asking for another chunk in between gets the first chunk sent again. |
| UploadSteps.GetStarts | peer.c:292-313 | A GET is ignored exactly if all slots are taken, something is being sent to the port, or the newest chunk sent to it is the one; otherwise it takes a slot, and a held chunk's upload starts under its number. |
| UploadSteps.DoneMoves | peer.c:165-176 | Exactly the finished upload goes to the front of the chunks sent and frees its slot. |
| UploadSteps.AbortDrops | peer.c:584-595 | Exactly the aborted upload goes and frees its slot. |
| UploadSteps.UploadsAreTraced | peer.c:559-582 | On every run each chunk being sent or sent carries the number of the first held entry with its hash, and its peer asked for it. |
| UploadLists.UploadConn.OnGetPacket | peer.c:292-313 | The GET case does to the lists what the value function does. |
| UploadLists.UploadConn.InitUpload | peer.c:559-582 | Takes a slot, then pushes the upload if the chunk is held. |
| UploadLists.UploadConn.FinishUpload | peer.c:165-176 | Moves the upload to the front of the uploaded list and frees its slot. |
| UploadLists.UploadConn.AbortUpload | peer.c:584-595 | Removes the upload and frees its slot; nothing for null. |
| Discovery.PackedHash | hashlist.c:313-321 | Hash number k of a packed payload is the k-th hash. |
| Discovery.HashesOfFormed | hashlist.c:317-321 | Reading a formed packet returns its hashes. |
| Discovery.FormWhoHas | hashlist.c:288-323 | One packet carries the next unfound needed hashes, at most 50, and says where to go on. |
| Discovery.BatchSplits | hashlist.c:307-322 | A batch and what follows it make up all unfound hashes; a short batch exhausts the list. |
| Discovery.UnfoundAre | hashlist.c:305-322 | The unfound hashes are those at certain rising positions of the needs: all positions whose hash is queued, requested or downloading nowhere, and no other. |
| Discovery.WhoHasSender | peer.c:363-385 | Ends; the packets concatenate to exactly the needed hashes that are on none of the three lists, in order, none empty and all but the last full. |
| Discovery.FormIHav | hashlist.c:325-357 | The reply carries exactly the asked hashes that are held, in order. |
| Discovery.HeldAre | hashlist.c:336-353 | The hashes of the reply are the asked ones at rising positions: all positions whose hash is held, and no other. |
| Discovery.FillTracks | peer.c:408-448 | After a reply is processed a chunk is queued, requested or downloading if and only if it was before or was offered and is needed. |
| Discovery.DiscoveryIsExact | peer.c:363-448 | After a whole round with a peer, exactly the chunks that were tracked before and the needed chunks that peer holds are tracked. |
| Codec.RoundTripIff | packet.c:12-68 | Reading back what was written returns the same packet if and only if it has no hash count outside types 0 and 1 and no payload from type 4 on. |
| Codec.DecodeEncode | packet.c:12-68 | What survives the wire, with any bytes following. |
| Codec.HeaderRead | packet.c:15-20 | Every header field of an encoded packet is read back. |
| Codec.WireLayout | packet.c:39-68 | Every byte of a serialised packet: magic at 0, version at 2, type at 3, header length at 4, length at 6, sequence number at 8, acknowledgement at 12, each most significant byte first; hash count and three zero bytes at 16 for types 0 and 1 only; then the payload. |
| Codec.Swapped32 | packet.c:45-57 | A swapped 32-bit field lies in memory in network order, and swapping twice is the identity. |
| Codec.PacketStruct.SerialPack | packet.c:39-68 | The stream is the encoding, and the struct that was swapped in place is back as it was. |
| Codec.PacketStruct.Binary2Packet | packet.c:12-37 | Fills a cleared struct with the decoded packet. |
| Framing.RecvBuf.FirstStream | packet.c:92-112 | Cuts the first packet's bytes off, moves the rest forward, zeroes the end. |
| Framing.RecvBuf.FirstPacket | packet.c:82-89 | Takes the first packet off, decoded, from any buffer whose first stream lies in it and is as long as its type needs. |
| Framing.RecvBuf.Drain | peer.c:52-63 | On every buffer all of whose streams are so: hands on the decoded streams in order, and leaves what the length fields leave. |
| Framing.ParsedEncodeAll | peer.c:52-63 | A buffer holding any packets back to back yields exactly these, in order, and is empty. |
| Framing.EndsIff | peer.c:52-63 | The loop ends on a buffer if and only if, following the length fields through the received bytes, none is 0 and none exceeds the buffer. |
| Framing.ZeroHeader | peer.c:52-63 | With 16 zero bytes received the loop is where it was after any number of iterations. |
| Framing.CutOffStream | packet.c:110-110 | 16 received bytes whose length field says 17 leave a fill level of -1. |
| Framing.RemainderIff | packet.c:110-110 | What the loop leaves is not negative if and only if, following the length fields, every stream ends within the received bytes. |
| OnTheWire.NetworkSurvivesTheWire | packet.c:12-68 | In every reachable state of a transfer each packet in the network survives serialisation unchanged. |
| OnTheWire.HashesSurviveTheWire | hashlist.c:317-321 | A WHOHAS or IHAVE of at most 50 hashes fits a packet and arrives with exactly its hashes. |
| OnTheWire.DataOnTheWire | packet.c:114-133 | The 16 header bytes of a data packet, and its data behind them. |
| OnTheWire.AckOnTheWire | packet.c:135-145 | The 16 bytes of an acknowledgement. |
| OnTheWire.HashesOnTheWire | hashlist.c:298-321 | The header bytes of a WHOHAS or IHAVE of n hashes, the count at byte 16, and hash k at byte 20 + 20 * k. |
| LineFraming.SplitIsSound | input_buffer.c:46-48 | Cutting at newlines loses nothing and leaves no newline inside a line or the tail. |
| LineFraming.SplitIsUnique | input_buffer.c:46-48 | There is only one such split. |
| LineFraming.SplitConcat | input_buffer.c:39-52 | The lines do not depend on where reads cut the input. |
| LineFraming.CStringOfCut | input_buffer.c:47-50 | The string after a cut is what followed the newline, whatever lies beyond. |
| LineFraming.CutCleanIff | input_buffer.c:50-50 | One cut of a clean buffer leaves it zero behind its text if and only if the line's length and the buffer's content add up to at most 8191. |
| LineFraming.LeftCleanIff | input_buffer.c:46-52 | The same for all cuts of one call. |
| LineFraming.HalfFullIsTidy | input_buffer.c:50-50 | With at most 4096 bytes in the buffer the condition always holds. |
| LineFraming.CleanCall | input_buffer.c:34-52 | A call on a clean buffer hands on exactly the complete lines and keeps the tail, whatever it leaves behind. |
| LineFraming.StaleFreeCall | input_buffer.c:34-52 | A call on any buffer, clean or not, that meets no old newline hands on exactly its text's lines, counts its tail and keeps it in front. |
| LineFraming.RunFrames | input_buffer.c:34-52 | For every buffer and every run of reads without NUL: after every read the program runs and all lines handed on are those of all the input so far, if and only if every read finds room and no call meets an old newline behind its text. |
| LineFraming.TidyRunFrames | input_buffer.c:34-52 | Over every run of tidy reads moreover cur is the tail's length and all bytes from cur on are zero. |
| LineFraming.FreshRunFrames | input_buffer.c:6-52 | In particular from a new buffer on every run that keeps it half full. |
| LineFraming.FramesIff | input_buffer.c:46-48 | A call on any buffer frames its text correctly if and only if no old newline lies between the text and the next zero. |
| LineFraming.OneByteTooMany | input_buffer.c:46-52 | 4095 letters and two newlines, then 4095 letters: the second read yields a line that was never typed, cur wraps below zero and the next call ends the program. |
| LineFraming.UserBuf.constructor | input_buffer.c:6-20 | A new buffer is all zero. |
| LineFraming.UserBuf.FindNewline | input_buffer.c:46-46 | The first newline before the terminating zero. |
| LineFraming.UserBuf.CutLine | input_buffer.c:47-50 | Overwrites the newline and moves what follows to the front, in place. |
| LineFraming.UserBuf.ProcessUserInput | input_buffer.c:22-54 | Lines handed on, buffer, cur and exit are those of the specification function, for every buffer content. |

## Left out

- Sockets, the select loop, spiffy headers, files and their parsing, logging and printing: packets sent are return values, the lines of a chunk file and the bytes a read returned are parameters.
- File offsets: the place of a chunk is the exact product of its number and the chunk size, where the code computes it as an `int`, which overflows from chunk 4096 on.
- Clocks: a clock reading is a parameter; readings are positive, and recovery rounds need readings that are three seconds apart, which is the timeout rounded up. In the router simulator a queue's head being due is a choice, because transmission times are not ordered.
- Floating-point rounding of the congestion window: it is an exact real.
- The transfer model has one connection: data and acknowledgements of an earlier transfer between the same two peers, and forged packets, do not occur. vulnerabilities.txt admits both. `closed` stands for finish_one_download on the downloader's side, after which its DATA is dropped; a new request to the same peer, which would make it listen again, is a new transfer. A finished sender is not removed from the model; it sends nothing more.
- malloc, free, burnStack and the retry loop of write(): a list node that is deleted is not used again, and each list event of the peer's main loop is one step with a saved successor, where the code reads the successor of a node it may have freed.
- The window and receiver that hang off a list node: `Transfer` models one such pair, `Downloads` and `Uploads` the lists; `ChunkFinish` joins a receiver with the lists at the step where a download ends.
- The order of the calls within one pass of the peer's loop: events of the transfer come in any order, which includes the loop's. A round of `TransferProgress` runs the timer before the send call, where the loop sends first (peer.c:160-178).
- check_recvack_timeout decides when abort_upload runs; the abort is an event.
- RUNTIME_ENDIAN and big-endian hosts in sha.c; the default little-endian build is modelled, with every SHA1_UNROLL and both copy variants.
- Routing.CreateTable: requires a connected topology of fewer than 65535 routers. On others the predecessor walk follows an undefined predecessor and does not come to an end, or uses one left by an earlier run.
- Routing.BuildTables: requires the same.
- Reading the map file and addRoute are replaced by the condition that a queue sits at the index of the router it leads to.
- Queue rates, latencies and transmission times; the die of getQ is the model's fault flag, which is proved never to be set.
- Framing.RecvBuf.FirstStream: requires a length field that fits the 1500-byte buffer; with a longer one the copy leaves the buffer.
- Framing.RecvBuf.FirstPacket: requires moreover a stream as long as its type needs; with a shorter one binary2packet reads beyond the copy it is given.
- Framing.RecvBuf.Drain: requires this of every stream it meets; Framing.EndsIff is about all buffers.
- Discovery.FormIHav: requires that the WHOHAS carries as many hashes as it says and that at most 50 of them are held; with more the reply leaves its buffer.
- OnTheWire.NetworkSurvivesTheWire: is about the packets of a transfer; GET packets are not built by the model.
- client.c, server.c, make_chunks.c, the hexadecimal conversions of chunk.c and form_GET: they would only add easy members.
