# ctran: virtual queue pairs, registration cache, kernel elements and rank topology

Dafny models of four stateful parts of the `comms/ctran` library, with proofs of what they promise.
`dafny verify dfyconfig.toml` checks the whole project.

**Virtual queue pair and virtual completion queue** (`comms/ctran/ibverbx`). A virtual QP splits a user's message into
chunks of at most `maxMsgSize` bytes, sprays them over several physical QPs under a limit per QP, and folds the
completions of the chunks back into one virtual completion, which a virtual CQ hands out in post order. Two
protocols tell the peer that a message has arrived. SPRAY posts one more immediate on a notify QP once the data
chunks have completed. DQPLB puts a wrapped sequence number and a "last chunk" bit into the immediate of every
chunk, and the receiver puts them back in order.

| file | what it holds |
|---|---|
| `Verbs.dfy`, `Arithmetic.dfy` | work requests, completions, the log of physical posts and what is in flight; shared arithmetic |
| `SeqTracker.dfy` | the wrapped sequence tracker, and the unbounded one it stands for |
| `SendQueue.dfy`, `RecvQueue.dfy`, `CompletionQueue.dfy` | what one endpoint does, as functions on its state |
| `Ledgers.dfy`, `SendProtocol.dfy`, `Endpoints.dfy`, `Progress.dfy` | what every operation of one endpoint keeps |
| `Splitting.dfy` | what the chunks of a message mean for memory, written or read |
| `Links.dfy`, `Delivery.dfy`, `MessageOrder.dfy`, `Bytes.dfy`, `PhysicalIds.dfy` | two connected endpoints: a step relation, runs, and the end-to-end results |
| `Walks.dfy`, `Stranding.dfy`, `LostChunk.dfy`, `FlushedReceive.dfy` | concrete runs in which something goes wrong |
| `VirtualCq.dfy`, `VirtualQp.dfy`, `Ibverbx.dfy` | the classes and loops of the source, each method proved equal to those functions |

A step of a link is one call at either side, the landing of a post at the peer, its completion at the sender, the
peer's handling of the immediate it carried, or a receive that fails. A post completes with success only after it has
landed; it may fail landed or not, and after a failure no later post of its QP lands. When the peer polls the receive
completion of an immediate is independent of when the sender polls the send completion. The environment chooses any QP
and serves its oldest request, which is what the InfiniBand Architecture Specification, volume 1, section 9.7, promises
for a reliable connection. An immediate completes the oldest receive posted on the same QP, and after a receive has
failed its QP handles no more of them. A message has arrived when all its posts have landed and the peer has handled
the immediates of those that carry one.

The main results hold in every state of every run:

* DQPLB reports exactly the messages that have arrived together with all earlier ones, whichever posts fail, as long
  as no receive has failed. With enough posted receives the r-th receive completes exactly then; enough means that
  never more notifies than receives existed. `FlushedReceive.dfy` is a run in which a receive fails and a message is
  reported that has not arrived.
* SPRAY posts a notify only after all data of its message has completed, in post order. A receive completed with
  success vouches for all messages up to the one it names: each has arrived, if and only if none of its chunks failed
  without landing. The sender sees that in the status of its completion, and the peer does not: `LostChunk.dfy` is a
  run in which the receive completes with success and nothing has landed.
* Progress of SPRAY has an exact condition: with nothing in flight everything has finished if and only if the last
  chunks of the messages that need a notify completed in message order. `Stranding.dfy` is a run in which they do not,
  and a message stays unfinished.
* A write that finished without an error is in the peer's memory, and a read in the sender's, whatever the order in
  which chunks took effect.
* Completions are conserved, come back in post order, and report the first error and the sum of the lengths: that is
  what `pollCq` returns, entry by entry.

**Memory registration cache** (`comms/ctran/mapper`). Cached segments with reference counts, registrations that
span several adjoining segments, and the lists that relate the two. The segments of a registration tile its range, and
each of them lists it, so what the backend still holds reaches into no freed memory, but for the registrations that some
thread has still to deregister.
`SegmentRanges.dfy` is the walk over physical allocations; `RegCache.dfy` is the cache on values;
`RegThreads.dfy` lets any number of threads interleave their lock regions and backend calls, and
`OverlappingFrees.dfy` is a run of it; `RegCacheObject.dfy` is the class with its maps, loops and counters;
`Mapper.dfy` is one communicator's export records over it.

**Kernel element pool** (`comms/ctran/gpe`). `KernelElemPool.dfy`: the free stack, the in-use list, and the chains
of elements handed to a kernel, as linked objects.

**Rank topology** (`comms/ctran/commstate`). `Grouping.dfy`, `HostTables.dfy` and `DeviceRanks.dfy` are the theory
of ranks grouped by a key, `CommState.dfy` the class whose setters fill the tables in loops.

Where the code and its own documentation disagree, the model follows the code:

* `pollCq` is said to collect up to `numEntries` entries (`comms/ctran/ibverbx/Ibverbx.h:364-368`) but can return one
  more; `CompletionQueue.PollExceedsExactly` says exactly when.
* `KernelElem::free` is said to abort on an element still in use or posted (`comms/ctran/gpe/CtranGpeDev.h:113-120`);
  the code frees it, and leaves alone only an element with a revoked group.
* The clique table is not cleared when the fabric tables are set again, unlike the domain tables, so setting them
  twice with cliques on stops the program: `CommState.CommStateX.SetNvlFabricTopos`.
* The host tables number nodes by the count of hosts met so far, so they name hosts only while each host's ranks are
  consecutive: `HostTables.NodesAreHostsIffConsecutive`. `HostTables.HostRoundTripIff` says exactly which ranks they
  find again.
* The device's local rank masks the rank, which agrees with the tables only for node sizes that are powers of two:
  `CommState.CommStateX.VnodeDeviceIff`.
* The SPRAY notify is said to follow once all writes are complete, to tell the remote side so
  (`comms/ctran/ibverbx/README.md:72`), but a chunk that completes with an error counts like any other
  (`comms/ctran/ibverbx/Ibverbx.h:896-911`), and the notify goes out on another QP: `LostChunk.ReceivedButLost`.
  `Delivery.NotifiesAreSafe` says exactly which notified messages have arrived.
* A DQPLB receive that fails is counted as the arrival of a chunk, number 0 unless the completion carries an
  immediate (`comms/ctran/ibverbx/Ibverbx.h:852-877`, `1284-1291`): `FlushedReceive.ReportedUnarrived`, and
  `Delivery.FailedReceiveIff` for when it has an effect at once.
* A slot that a completion has freed is used without another look, and an `IBV_WR_SEND` that goes first does not give it
  up (`comms/ctran/ibverbx/Ibverbx.h:1041-1054`), so QP 0 can exceed the limit: `SendQueue.OverfillsIff` says exactly
  when, and `SendQueue.SendAndWriteOverfill` is an input.
* An empty write with immediate loses its SPRAY notify, and any other empty message never leaves the queue:
  `SendQueue.EmptyLosesNotify`, `SendQueue.EmptyNeverLeaves`.
* The last holder of a segment is said to deregister all associated registrations
  (`comms/ctran/mapper/CtranMapper.cc:519-527`), but `freeSegment` can report a segment freed while another thread's
  `freeSegment` has still to deregister a registration that uses it: `RegThreads.FreedIsUnusedIff` says exactly
  when, and `OverlappingFrees.FreedButInUse` is a run in which it happens.

## Model

| member | source | states |
|---|---|---|
| `Delivery.DqplbNotifiesExactly` | comms/ctran/ibverbx/Ibverbx.h:1610-1633 | in every run, whatever the order over QPs, whenever either side polls and whichever posts fail, as long as no receive of the peer has failed, the notifies it reported number exactly the sequenced messages whose chunks, and all earlier messages' chunks, have all arrived |
| `Delivery.FailedReceiveIff` | comms/ctran/ibverbx/Ibverbx.h:1284-1291 | a first failed receive is only set aside, reporting nothing, if and only if the number it claims is not the one expected next; a plain receive claims number 0 and no last chunk |
| `FlushedReceive.ReportedUnarrived` | comms/ctran/ibverbx/Ibverbx.h:1284-1291 | a run of five steps: the second chunk of a message arrives, the receive for the first fails, and the peer's virtual receive completes with success although the first chunk has not landed |
| `Delivery.DqplbReceivesExactly` | comms/ctran/ibverbx/Ibverbx.h:868-877 | with enough posted receives, none of which has failed, the r-th virtual receive has completed if and only if the r-th sequenced message and all earlier ones have completely arrived |
| `Delivery.ServedExactly` | comms/ctran/ibverbx/Ibverbx.h:868-877 | while no receive has failed, the marking loop has lost a notify for want of a receive if and only if at some moment of the run more messages had arrived in order than receives had been posted |
| `Delivery.SprayReceivesAreSafe` | comms/ctran/ibverbx/Ibverbx.h:1330-1345 | the k-th receive has completed with success if and only if k notifies have been handled; by then the chunks of the first k messages that need one have all completed, each of these messages has arrived if and only if none of its chunks was lost, and the receive carries the k-th one's immediate |
| `Delivery.NotifiesAreSafe` | comms/ctran/ibverbx/Ibverbx.h:896-911 | a notify is posted only when all chunks of its message have completed, in the order in which messages were posted; the message has then arrived if and only if none of its chunks failed without landing |
| `Delivery.SuccessIsArrived` | comms/ctran/ibverbx/Ibverbx.h:896-911 | once all chunks have completed, a SPRAY message has arrived if its virtual completion shows no error; where no failed post lands, if and only if no chunk failed |
| `Delivery.FinishedIsNotified` | comms/ctran/ibverbx/Ibverbx.h:896-911 | a message that needs a notify finishes at the sender only after its notify has been posted |
| `LostChunk.ReceivedButLost` | comms/ctran/ibverbx/Ibverbx.h:896-911 | a run of five steps: the only chunk of a message fails without landing, its notify is posted all the same, and the peer's receive completes with success |
| `Delivery.NotifiedThrough` | comms/ctran/ibverbx/Ibverbx.h:1113-1136 | once k notifies are posted, the same holds of each of the first k SPRAY messages that are writes with immediate, in the order they were posted |
| `Delivery.FinishedIffNoneOvertakes` | comms/ctran/ibverbx/Ibverbx.h:1330-1345 | a state with nothing in flight has finished every message if and only if no last data completion overtook an earlier message whose notify was still to come |
| `Delivery.QuiescentMeansFinished` | comms/ctran/ibverbx/Ibverbx.h:1030-1090 | under DQPLB, or with one data QP, nothing in flight means that every message has finished; in general the unfinished ones are exactly those whose request was ignored |
| `Delivery.NoErrors` | comms/ctran/ibverbx/Ibverbx.h:835-915 | with in-order service the "empty" and "wr_id mismatch" errors cannot happen: every completion the device can report, routed by its opcode, is accepted |
| `Delivery.DequesAreInFlight` | comms/ctran/ibverbx/Ibverbx.h:1253-1319 | in every state of every run the status deques of each QP, notify QP included, are what is in flight on it, oldest first |
| `Delivery.ReturnedSends` | comms/ctran/ibverbx/Ibverbx.h:917-994 | sends are returned in post order, one each, after the last physical completion of all their posts; status is the first error or success, byte_len the sum modulo 2^32 |
| `Delivery.ReturnedReceives` | comms/ctran/ibverbx/Ibverbx.h:917-994 | receives are returned in post order: under SPRAY after their last physical completion with its folded status and length, under DQPLB only after their notify |
| `Delivery.PollHandsOut` | comms/ctran/ibverbx/Ibverbx.h:917-994 | what pollCq returns, in any state of a run: the next sends and the next receives in post order, in turns; each entry has the id of its request, success if and only if all its physical completions succeeded and else the first error, the sum of their lengths modulo 2^32 and the last immediate; it stops short only when both fronts are unfinished |
| `Delivery.IndexPoints` | comms/ctran/ibverbx/Ibverbx.h:996-1027 | in every state the work request id index points at every queued completion under its own id and at nothing else |
| `Delivery.ConservedInRuns` | comms/ctran/ibverbx/Ibverbx.h:1212-1237 | in every state of every run, remainingMsgCnt of an unreturned send is what the pending queues hold for it plus its entries in all status deques |
| `Delivery.FlowControl` | comms/ctran/ibverbx/Ibverbx.h:1030-1111 | every data QP always holds at most maxMsgCntPerQp sends, and messages are left pending only while every data QP is full |
| `Delivery.DqplbReceiveDepth` | comms/ctran/ibverbx/Ibverbx.h:1365-1411 | once a first receive has been posted, every data QP of a DQPLB receiver holds exactly maxMsgCntPerQp posted receives (none without a limit), in every state |
| `PhysicalIds.RunUnique` | comms/ctran/ibverbx/Ibverbx.h:1113-1150 | in every state of every run the physical ids of all posts of a virtual QP, sends and receives together, are different |
| `MessageOrder.FinishedIffInMessageOrder` | comms/ctran/ibverbx/Ibverbx.h:1330-1345 | a state with nothing in flight has finished every message if and only if the last chunks of the messages that need a notify completed in the order of the messages |
| `MessageOrder.NoneOvertakesIff` | comms/ctran/ibverbx/Ibverbx.h:1339-1345 | no request for a notify has been ignored if and only if those last chunks completed in message order |
| `MessageOrder.AsksIsLastData` | comms/ctran/ibverbx/Ibverbx.h:896-911 | a completion asks for the notify if and only if it is the one chunk still missing of a message that needs one |
| `Bytes.WrittenBytes` | comms/ctran/ibverbx/Ibverbx.h:1138-1173 | when all posts of a write have landed, each of its bytes is in remote memory, whatever the order of landing, unless another write touches that byte |
| `Bytes.FinishedWriteLandedIff` | comms/ctran/ibverbx/Ibverbx.h:917-994 | when a message has finished at the sender, all its chunks have landed if and only if none was lost, and none was if its completion shows no error; where no failed post lands, if and only if none failed |
| `Bytes.ReadBytes` | comms/ctran/ibverbx/Ibverbx.h:1138-1173 | when a read has finished at the sender without an error, each of its bytes is in local memory, whatever the order in which reads took effect, unless another read touches that byte |
| `Bytes.FinishedReadMovedIff` | comms/ctran/ibverbx/Ibverbx.h:917-994 | where failed reads move nothing, a finished read has moved all its chunks if and only if none failed |
| `Links.RunInv` | comms/ctran/ibverbx/Ibverbx.h:825-1535 | every reachable state of two connected endpoints satisfies the invariant that relates logs, deques, completions, trackers and notifies of both sides |
| `Links.StepInv` | comms/ctran/ibverbx/Ibverbx.h:825-1535 | each call, landing, completion with success or an error, handled immediate and failed receive keeps that invariant |
| `Stranding.SecondMessageStranded` | comms/ctran/ibverbx/Ibverbx.h:1330-1345 | a run of eight steps over two data QPs: the second message's data completes first, its SEND_NOTIFY is ignored, and with nothing in flight or pending it still counts one completion |
| `Progress.Conservation` | comms/ctran/ibverbx/Ibverbx.h:1069-1087 | conservation at one endpoint: the count of a virtual completion equals the counts in whichever pending queue holds its request plus its status entries |
| `Progress.CompletionDecreases` | comms/ctran/ibverbx/Ibverbx.h:835-915 | each physical send completion takes exactly one off what all virtual sends together still count |
| `Progress.CompleteSendFlow` | comms/ctran/ibverbx/Ibverbx.h:1321-1328 | a completion keeps the limit per QP and refills: what stays pending has found every QP full |
| `Progress.PostSendFlow` | comms/ctran/ibverbx/Ibverbx.h:1190-1246 | postSend keeps the limit per QP and leaves messages pending only when every QP is full |
| `Progress.CompleteRecvFlow` | comms/ctran/ibverbx/Ibverbx.h:1260-1298 | under SPRAY a receive completion keeps data QP 0 within its limit and refills: receives stay pending only for a buffer and while that QP is full |
| `Progress.PostRecvFlow` | comms/ctran/ibverbx/Ibverbx.h:1487-1535 | postRecv does the same |
| `Progress.IgnoredExactly` | comms/ctran/ibverbx/Ibverbx.h:1339-1345 | a request for a notify is ignored if and only if it asks while an earlier message that needs a notify has not had it |
| `Progress.CompleteSendStranded` | comms/ctran/ibverbx/Ibverbx.h:1330-1345 | the messages that wait with all data completed are exactly those whose request was ignored, before and after every completion |
| `Progress.AsksExactly` | comms/ctran/ibverbx/Ibverbx.h:896-911 | a completion asks for the notify exactly when it leaves its message waiting with all data completed |
| `Progress.OneQpServesAll` | comms/ctran/ibverbx/Ibverbx.h:1330-1345 | with one data QP no request is ever ignored |
| `Progress.FinishedUnlessIgnored` | comms/ctran/ibverbx/Ibverbx.h:835-915 | with nothing in flight nothing is pending, and the unfinished messages are exactly the ignored ones |
| `SeqTracker.WrappedRefinesUnbounded` | comms/ctran/ibverbx/Ibverbx.h:1619-1633 | while numbers stay within 2^24 - 1 of the oldest missing one, the wrapped tracker moves as the unbounded one does and reports the same count |
| `SeqTracker.DeliversLongestPrefix` | comms/ctran/ibverbx/Ibverbx.h:1619-1633 | the unbounded tracker stands at the longest contiguous prefix received, and reports each last-chunk bit once, when the prefix passes it |
| `SeqTracker.ImmRoundTrip` | comms/ctran/ibverbx/Ibverbx.h:1610-1622 | sequence number and last-chunk bit are read back from the immediate as they were put in |
| `SeqTracker.ImmParts` | comms/ctran/ibverbx/Ibverbx.h:1619-1622 | of a 32-bit immediate the low 24 bits are the number and the top bit says last chunk |
| `SeqTracker.DqplbSeqTracker.GetSendImm` | comms/ctran/ibverbx/Ibverbx.h:1610-1617 | encodes the next number with the last-chunk bit and steps the number modulo 2^24 - 1 |
| `SeqTracker.DqplbSeqTracker.ProcessReceivedImm` | comms/ctran/ibverbx/Ibverbx.h:1619-1633 | the loop over the map terminates and does what the specification of one received immediate says, to state and count |
| `SendQueue.ScanFindsRoom` | comms/ctran/ibverbx/Ibverbx.h:1092-1111 | the scan takes the first QP with room counted from the cursor and leaves the cursor one past it; it comes back empty, with the cursor where it was, if and only if every QP is at its limit |
| `SendQueue.SpraysInTurn` | comms/ctran/ibverbx/Ibverbx.h:1030-1111 | without a limit the chunks of writes and reads go to the data QPs in turn from the cursor on, across messages; a freed slot is used first and does not move the cursor |
| `SendQueue.FreedSlotIsUsed` | comms/ctran/ibverbx/Ibverbx.h:1041-1054 | the slot a completion has freed goes to the next chunk of the front message if that is a write or read; a send goes to QP 0 if there is room and else nothing is posted |
| `SendQueue.FreedSlotWaits` | comms/ctran/ibverbx/Ibverbx.h:1041-1054 | sends that go first leave the freed slot to the first write or read that is posted |
| `SendQueue.MapPendingFlow` | comms/ctran/ibverbx/Ibverbx.h:1030-1090 | the posting loop overfills no QP and stops with messages left only when every QP is full, given a hint that names a QP with room |
| `SendQueue.OverfillsIff` | comms/ctran/ibverbx/Ibverbx.h:1041-1054 | with sends among the messages a call exceeds the limit if and only if the freed slot is on QP 0 and the sends in front of the first write or read fill QP 0 exactly |
| `SendQueue.SendAndWriteOverfill` | comms/ctran/ibverbx/Ibverbx.h:1041-1054 | with one QP and a limit of one, a send and a write that wait for the freed slot are both posted |
| `SendQueue.EmptyLosesNotify` | comms/ctran/ibverbx/Ibverbx.h:1069-1087 | an empty SPRAY write with immediate leaves the queue after one empty chunk without waiting for its notify, and counts that one completion |
| `SendQueue.EmptyNeverLeaves` | comms/ctran/ibverbx/Ibverbx.h:1030-1090 | a message that counts nothing stays in front however often it is posted, so without a limit the posting loop never ends |
| `SendProtocol.ChunkArithmetic` | comms/ctran/ibverbx/Ibverbx.h:1216-1221 | the chunk count is the ceiling: chunk n exists if and only if it starts inside the message, and is last if and only if the message ends in it |
| `SendProtocol.PostChunkMoves` | comms/ctran/ibverbx/Ibverbx.h:1069-1087 | posting a chunk moves the front message on by one chunk, or after its last one hands it over, waiting for its notify if it needs one |
| `SendProtocol.MapPendingInv` | comms/ctran/ibverbx/Ibverbx.h:1030-1090 | the posting loop keeps the sending half's invariant: where each message stands, what each post is, and the deques |
| `SendProtocol.CompletePost` | comms/ctran/ibverbx/Ibverbx.h:1299-1328 | the oldest post of a QP finds its own entry at the front of the deque, and completing it keeps the invariant |
| `SendProtocol.NotifiedOnce` | comms/ctran/ibverbx/Ibverbx.h:1113-1136 | a message's notify is posted at most once |
| `SendProtocol.NotifyCompletesMessage` | comms/ctran/ibverbx/Ibverbx.h:896-911 | when the notify of a message has completed, nothing of the message is left |
| `SendProtocol.ReadyToNotify` | comms/ctran/ibverbx/Ibverbx.h:899-904 | one completion missing and no notify posted means that all data has completed and the message waits for its notify |
| `SendProtocol.PostNotifyInv` | comms/ctran/ibverbx/Ibverbx.h:1113-1136 | posting the front notify keeps the invariant when the data of that message has completed |
| `Ledgers.Remaining` | comms/ctran/ibverbx/Ibverbx.h:953-994 | a virtual completion counts its expected posts less those completed, and never fewer than are in flight |
| `Ledgers.LedgerComplete` | comms/ctran/ibverbx/Ibverbx.h:953-994 | absorbing the completion of an oldest post keeps every virtual completion equal to the fold of its posts' completions |
| `Endpoints.PostSendInv` | comms/ctran/ibverbx/Ibverbx.h:1190-1246 | an accepted send keeps the invariant of the endpoint |
| `Endpoints.PostRecvInv` | comms/ctran/ibverbx/Ibverbx.h:1487-1535 | an accepted receive keeps it |
| `Endpoints.CompleteSendInv` | comms/ctran/ibverbx/Ibverbx.h:888-913 | a send completion is accepted and keeps it, the request for a notify included |
| `Endpoints.CompleteRecvSpray` | comms/ctran/ibverbx/Ibverbx.h:852-887 | under SPRAY a receive completion is accepted, keeps it, and is counted on the receive its post belongs to and on no other |
| `Endpoints.CompleteRecvDqplb` | comms/ctran/ibverbx/Ibverbx.h:1284-1291 | under DQPLB a receive completion is accepted, keeps it, and moves the tracker by its immediate |
| `Endpoints.PollKeeps` | comms/ctran/ibverbx/Ibverbx.h:917-951 | polling keeps it |
| `Endpoints.MarkNotifiedFirst` | comms/ctran/ibverbx/Ibverbx.h:868-877 | marking finishes the next unfinished receives in post order, as many as were notified or are left, and no others |
| `RecvQueue.MapPendingInv` | comms/ctran/ibverbx/Ibverbx.h:1413-1485 | under SPRAY the receive posting loop keeps the receiving half's invariant |
| `RecvQueue.MapPendingFlow` | comms/ctran/ibverbx/Ibverbx.h:1413-1485 | the receive posting loop never overfills QP 0 and leaves receives pending only for a buffer and while it is full |
| `RecvQueue.PostsTile` | comms/ctran/ibverbx/Ibverbx.h:1440-1455 | the posts of a receive with a buffer tile it: at most maxMsgSize bytes each, the first at its start, each adjoining the next, the last at its end |
| `RecvQueue.CompletePost` | comms/ctran/ibverbx/Ibverbx.h:1260-1298 | the oldest receive of a QP finds its own entry in front, and completing it keeps the invariant |
| `RecvQueue.InitializeInv` | comms/ctran/ibverbx/Ibverbx.h:1390-1411 | initialisation gives every data QP maxMsgCntPerQp anonymous receives |
| `RecvQueue.DqplbCompletePost` | comms/ctran/ibverbx/Ibverbx.h:1284-1291 | a completed receive is replaced at once, so the depth of every QP stays |
| `CompletionQueue.PollLoopFifo` | comms/ctran/ibverbx/Ibverbx.h:917-951 | one poll returns finished completions only, a prefix of each direction's queue in queue order with the directions in turns, and stops short only when both fronts are unfinished |
| `CompletionQueue.PollExceedsExactly` | comms/ctran/ibverbx/Ibverbx.h:917-951 | a poll returns numEntries + 1 entries if and only if numEntries is odd and each direction has more than half of it finished |
| `CompletionQueue.PollReturnsTwoForOne` | comms/ctran/ibverbx/Ibverbx.h:923-948 | asked for one entry, it returns two when a send and a receive are ready |
| `CompletionQueue.FoldMeaning` | comms/ctran/ibverbx/Ibverbx.h:953-994 | folding completions gives success exactly if all succeeded and else the first error, the sum of lengths modulo 2^32, and what is still missing |
| `CompletionQueue.SendIsQueued` | comms/ctran/ibverbx/Ibverbx.h:996-1018 | a signaled request or write with immediate gets a queued completion that counts what is expected and is found under its id; any other send gets none |
| `CompletionQueue.RecvIsQueued` | comms/ctran/ibverbx/Ibverbx.h:1019-1027 | so does every receive |
| `CompletionQueue.MarkInPlace` | comms/ctran/ibverbx/Ibverbx.h:868-877 | the indexed marking loop and marking from the front agree |
| `Splitting.ChunksTile` | comms/ctran/ibverbx/Ibverbx.h:1138-1154 | chunks are non-empty, at most maxMsgSize, adjoin one another, and begin and end where the message does |
| `Splitting.ByteInChunk` | comms/ctran/ibverbx/Ibverbx.h:1138-1173 | each byte that the message writes or reads is touched by exactly the chunk its offset divides to |
| `Splitting.AnyOrderIsWhole` | comms/ctran/ibverbx/Ibverbx.h:1138-1173 | chunks in any order, even repeated, that together hold every chunk leave the same memory as the message in one request: remote memory for a write, local memory for a read |
| `Splitting.MovedByte` | comms/ctran/ibverbx/Ibverbx.h:1138-1173 | once its chunk has moved a byte is right and stays right, whatever requests of the message or elsewhere surround it |
| `Splitting.PostedChunksExactly` | comms/ctran/ibverbx/Ibverbx.h:1030-1090 | the data posts of a message that has left the pending queue are exactly its ceil(length / maxMsgSize) chunks, once each, in offset order |
| `Splitting.NoDataAfterNotify` | comms/ctran/ibverbx/Ibverbx.h:1075-1087 | no data chunk is posted after the notify of its message |
| `VirtualCq.VirtualWc.UpdateFromPhysicalWc` | comms/ctran/ibverbx/Ibverbx.h:953-994 | updates the fields in place to the fold of one more completion |
| `VirtualCq.IbvVirtualCq.ProcessSendRequest` | comms/ctran/ibverbx/Ibverbx.h:996-1018 | a signaled send gets a queued completion with its count and is entered in the index; queues and index otherwise stay |
| `VirtualCq.IbvVirtualCq.ProcessRecvRequest` | comms/ctran/ibverbx/Ibverbx.h:1019-1027 | a receive gets a queued completion with its count and is entered in the index |
| `VirtualCq.IbvVirtualCq.CountCompletion` | comms/ctran/ibverbx/Ibverbx.h:878-899 | a completion counted through the index changes exactly the queued entry with that id, or nothing if there is none |
| `VirtualCq.IbvVirtualCq.MarkNotified` | comms/ctran/ibverbx/Ibverbx.h:868-877 | finishes the first notifyCount unfinished receives and changes nothing else |
| `VirtualCq.IbvVirtualCq.LoopPollVirtualCqUntil` | comms/ctran/ibverbx/Ibverbx.h:917-951 | returns and removes what the specification of a poll says, index included; `Delivery.PollHandsOut` says what the entries are |
| `VirtualQp.IbvVirtualQp.constructor` | comms/ctran/ibverbx/Ibverbx.cc:1210-1226 | the number of each data QP leads back to its index, and the object starts with nothing posted or pending |
| `VirtualQp.IbvVirtualQp.FindAvailableSendQp` | comms/ctran/ibverbx/Ibverbx.h:1092-1111 | finds the QP and leaves the cursor the scan specifies; without a limit the cursor's QP |
| `VirtualQp.IbvVirtualQp.UpdatePhysicalSendWr` | comms/ctran/ibverbx/Ibverbx.h:1138-1188 | the physical request is the next chunk of the message, with a sequence immediate under DQPLB, which alone uses up a number |
| `VirtualQp.IbvVirtualQp.MapPendingSendQueToPhysicalQp` | comms/ctran/ibverbx/Ibverbx.h:1030-1090 | the loop over deques, cursor, tracker and both pending queues leaves the sending half as specified and the receiving half untouched |
| `VirtualQp.IbvVirtualQp.PostSendNotifyImm` | comms/ctran/ibverbx/Ibverbx.h:1113-1136 | posts on the notify QP one empty write with the front message's immediate and remote address, under the next physical id, and takes the message off the queue |
| `VirtualQp.IbvVirtualQp.FindAvailableRecvQp` | comms/ctran/ibverbx/Ibverbx.h:1354-1363 | data QP 0 if it has room, else none |
| `VirtualQp.IbvVirtualQp.PostRecvNotifyImm` | comms/ctran/ibverbx/Ibverbx.h:1365-1388 | posts a receive for an immediate, for the front request under SPRAY, which leaves the queue, or anonymous under DQPLB |
| `VirtualQp.IbvVirtualQp.InitializeDqplbReceiver` | comms/ctran/ibverbx/Ibverbx.h:1390-1411 | both loops: maxMsgCntPerQp rounds of one anonymous receive per data QP, and the flag |
| `VirtualQp.IbvVirtualQp.MapPendingRecvQueToPhysicalQp` | comms/ctran/ibverbx/Ibverbx.h:1413-1485 | the receive posting loop leaves the receiving half as specified and the sending half untouched |
| `VirtualQp.IbvVirtualQp.ProcessSend` | comms/ctran/ibverbx/Ibverbx.h:1299-1328 | dequeues the matching entry and refills that QP; an empty deque or another id is its own error and changes nothing |
| `VirtualQp.IbvVirtualQp.ProcessSendNotify` | comms/ctran/ibverbx/Ibverbx.h:1330-1345 | an error if nothing waits; posts the notify only if the id is that of the first message waiting |
| `VirtualQp.IbvVirtualQp.ProcessRecv` | comms/ctran/ibverbx/Ibverbx.h:1260-1298 | dequeues the matching entry, then replaces the receive and reports the tracker's count under DQPLB, or refills under SPRAY; an empty deque or another id is its own error and changes nothing |
| `Ibverbx.Coordinator.CreateVirtualQp` | comms/ctran/ibverbx/Ibverbx.cc:699-763 | an error exactly for a missing send or receive CQ or a failed QP creation, and then nothing changes; else the new virtual QP is idle and the coordinator routes all its physical QPs to it and it to its send and receive CQs |
| `Ibverbx.Coordinator.PostSend` | comms/ctran/ibverbx/Ibverbx.h:1190-1246 | accepts a request if and only if it has at most one buffer and is a write, a write with immediate, a read or a send; both objects then move as the endpoint's postSend does, and a refused request changes nothing |
| `Ibverbx.Coordinator.PostRecv` | comms/ctran/ibverbx/Ibverbx.h:1487-1535 | accepts a request if and only if it has at most one buffer; both objects then move as the endpoint's postRecv does, and a refused request changes nothing |
| `Ibverbx.Coordinator.LoopPollPhysicalCqUntilEmpty` | comms/ctran/ibverbx/Ibverbx.h:835-915 | handles the reported completions in order, each as the endpoint's completion that the runs of `Links` take, and stops at the first error, that of the physical poll included |
| `Ibverbx.Coordinator.PollCq` | comms/ctran/ibverbx/Ibverbx.h:825-833 | all reported completions are handled, then the virtual poll runs on the result and its entries are returned; an error of a completion or of the physical poll is passed on, and the latter keeps what was handled |
| `SegmentRanges.PinRange` | comms/ctran/mapper/CtranMapperRegMem.cc:403-444 | the loop terminates and returns the ranges the walk specifies, or the error |
| `SegmentRanges.WalkFinds` | comms/ctran/mapper/CtranMapperRegMem.cc:418-439 | a walk that succeeds returns adjoining allocations from the one that holds the start to the first that reaches the end, whose lengths add up to the span |
| `SegmentRanges.WalkSucceeds` | comms/ctran/mapper/CtranMapperRegMem.cc:418-439 | the walk succeeds if and only if the first address and every address of the buffer are mapped |
| `SegmentRanges.PinCovers` | comms/ctran/mapper/CtranMapperRegMem.cc:403-444 | the ranges adjoin, the first holds ptr, and together they cover the buffer; the summed length from the first base contains it |
| `RegCache.InsertInv` | comms/ctran/mapper/CtranMapperRegMem.cc:592-608 | publishing a registration that may join keeps the cache's invariant: its segments are cached, tile its range and list it, and it lies inside no earlier one |
| `RegCache.InsertLists` | comms/ctran/mapper/CtranMapperRegMem.cc:605-608 | a registration joins the list of each of its segments, once and behind those listed before it, and no other list |
| `RegCache.RegisteredIsHeld` | comms/ctran/mapper/CtranMapperRegMem.cc:554-608 | every address of a cached, non-dynamic registration lies in a cached segment that it names and that lists it |
| `RegCache.ReleaseInv` | comms/ctran/mapper/CtranMapperRegMem.cc:711-757 | freeing a segment keeps it, and afterwards no registration in the cache uses that segment |
| `RegCache.TakenOutExactly` | comms/ctran/mapper/CtranMapperRegMem.cc:714-735 | freeing a segment takes out exactly the cached registrations that use it, and no dynamic one, though its list may hold stale handles |
| `RegCache.ReleasedIsUnreached` | comms/ctran/mapper/CtranMapperRegMem.cc:711-757 | once a segment of cuMem memory is freed, no cached segment and no cached registration that is not dynamic holds an address of it |
| `RegCache.NewElemCovers` | comms/ctran/mapper/CtranMapperRegMem.cc:554-592 | the registration made from the segments found covers the request; over cuMem memory it is the exact span from the first allocation's base |
| `RegCache.SegmentIsAllocation` | comms/ctran/mapper/CtranMapperRegMem.cc:554-586 | a cached segment that contains an allocation is that allocation |
| `RegThreads.StepInv` | comms/ctran/mapper/CtranMapperRegMem.cc:446-841 | every lock region and every backend call of any thread keeps the invariant of the cache, its lock and what threads own |
| `RegThreads.RunInv` | comms/ctran/mapper/CtranMapperRegMem.cc:446-841 | it holds in every state of every interleaving |
| `RegThreads.NoneOutlivesItsSegments` | comms/ctran/mapper/CtranMapperRegMem.cc:711-757 | a registration the backend still holds has all its segments cached and is listed under each, unless a thread in a freeSegment has still to deregister it |
| `RegThreads.UncachedInUseIff` | comms/ctran/mapper/CtranMapperRegMem.cc:711-757 | in every state, a segment that is not cached is used by something registered if and only if some freeSegment has still to deregister a registration that uses it |
| `RegThreads.FreedIsUnusedIff` | comms/ctran/mapper/CtranMapperRegMem.cc:711-757 | when freeSegment returns having freed a segment, nothing registered uses it if and only if no other thread's freeSegment has still to deregister a registration that uses it |
| `RegThreads.FreedAloneIsUnused` | comms/ctran/mapper/CtranMapperRegMem.cc:711-757 | callers that keep freeSegment calls on segments sharing a registration apart find nothing registered on the freed one |
| `RegThreads.UncachedReachedIff` | comms/ctran/mapper/CtranMapperRegMem.cc:711-757 | in every state, an address that lies in no cached segment is reached by a registration the backend holds, dynamic ones apart, if and only if some freeSegment has still to deregister one that reaches it |
| `RegThreads.FreedReachedIff` | comms/ctran/mapper/CtranMapperRegMem.cc:711-757 | when freeSegment returns having freed a segment, an address in no cached segment is reached by a registration if and only if another thread has still to deregister one that reaches it |
| `RegThreads.ReleasedIsUncached` | comms/ctran/mapper/CtranMapperRegMem.cc:711-735 | the addresses of a freed segment of cuMem memory lie in no cached segment |
| `OverlappingFrees.FreedButInUse` | comms/ctran/mapper/CtranMapperRegMem.cc:714-757 | a concrete run of two threads over two adjoining allocations: the second freeSegment returns while the backend still holds a registration on its segment |
| `RegThreads.DeregisteredOnce` | comms/ctran/mapper/CtranMapperRegMem.cc:737-757 | what a thread is about to deregister is still registered, out of the maps, owned by that thread alone, and occurs once in its list |
| `RegThreads.NeverRegisteredTwice` | comms/ctran/mapper/CtranMapperRegMem.cc:511-618 | in the maps no registration lies inside an earlier one, by its addresses; one about to be published lies inside none and covers the buffer it was made for |
| `RegThreads.RegisteredAgainIff` | comms/ctran/mapper/CtranMapperRegMem.cc:511-618 | a range is registered while the backend holds another registration that covers it if and only if some freeSegment has still to deregister such a one |
| `RegThreads.CountsAreDifferences` | comms/ctran/mapper/CtranMapperRegMem.cc:637-648 | a segment is cached exactly while more was granted on it than returned, and its count is the difference |
| `RegCacheObject.CtranMapperRegCache.Record` | comms/ctran/mapper/CtranMapperRegMem.cc:88-106 | each event changes its current counter by one when profiling is on, and no other |
| `RegCacheObject.CtranMapperRegCache.SearchRegElem` | comms/ctran/mapper/CtranMapperRegMem.cc:362-391 | finds a registration that is not dynamic and begins no later and ends no earlier than the buffer, if there is one |
| `RegCacheObject.CtranMapperRegCache.CacheSegment` | comms/ctran/mapper/CtranMapperRegMem.cc:446-509 | one more reference to a cached segment that contains the buffer, or, if and only if there is none, a new segment of the pinned range with one reference and the flag asked for; a buffer behind several allocations aborts and one that cannot be pinned is an error, with nothing changed; counters stay equal to the cache |
| `RegCacheObject.CtranMapperRegCache.RegRange` | comms/ctran/mapper/CtranMapperRegMem.cc:511-635 | returns a registration that covers the buffer: one already there, with nothing changed, or one new one over the segments found; each address of its range lies in a cached segment that it names and that lists it; none if and only if a range has no segment |
| `RegCacheObject.CtranMapperRegCache.AskFree` | comms/ctran/mapper/CtranMapperRegMem.cc:637-648 | drops one reference and answers whether it was the last |
| `RegCacheObject.CtranMapperRegCache.GetRegElems` | comms/ctran/mapper/CtranMapperRegMem.cc:655-673 | the handles listed under a cached segment, in order |
| `RegCacheObject.CtranMapperRegCache.FreeSegment` | comms/ctran/mapper/CtranMapperRegMem.cc:675-764 | a count above one only drops; the last reference removes the segment, its list and exactly its registrations, deregistering each once; an unknown handle is an error |
| `RegCacheObject.CtranMapperRegCache.RegDynamic` | comms/ctran/mapper/CtranMapperRegMem.cc:773-816 | a new dynamic registration of exactly the pinned span, which covers the buffer and is listed under no segment; an error changes nothing |
| `RegCacheObject.CtranMapperRegCache.DeregDynamic` | comms/ctran/mapper/CtranMapperRegMem.cc:818-841 | removes and deregisters that registration only; an unknown handle is an error that changes nothing |
| `Mapper.CtranMapper.ExportMem` | comms/ctran/mapper/CtranMapper.h:1051-1085 | an export over NVL records the peer under the registration; other backends record nothing, and no backend is an error |
| `Mapper.CtranMapper.Record` | comms/ctran/mapper/CtranMapperImpl.h:15-17 | the peer joins the set of the registration, and no other set changes |
| `Mapper.CtranMapper.RemReleaseMem` | comms/ctran/mapper/CtranMapper.cc:387-435 | the registration leaves the export cache, and exactly one release message is posted to each peer that was in its set, and none to anybody else |
| `Mapper.CtranMapper.RegMem` | comms/ctran/mapper/CtranMapper.cc:437-480 | caches the segment, which contains the buffer, or reports why it cannot with nothing changed; in eager mode a cached segment always comes back with a registration that covers all of it, and otherwise with none |
| `Mapper.CtranMapper.DeregMem` | comms/ctran/mapper/CtranMapper.cc:492-555 | first everything listed under the segment is released, with exactly one message per registration and peer it was exported to, or dropped without any when told to skip; then the segment loses a reference or is freed with its registrations |
| `Mapper.CtranMapper.DeregDynamic` | comms/ctran/mapper/CtranMapper.cc:557-573 | the peers are released first, with exactly one message each, then the registration goes; an unknown handle is an error |
| `Mapper.EveryPeerToldOnce` | comms/ctran/mapper/CtranMapper.cc:387-435 | a release sends exactly one message to each peer recorded for the registration and none to anybody else |
| `Mapper.ReleasedBeforeDeregistered` | comms/ctran/mapper/CtranMapper.cc:492-536 | in everything the mapper does, a peer that was exported to is told to release before that registration is deregistered, unless a skip was asked for |
| `Mapper.ReleasedOncePerExport` | comms/ctran/mapper/CtranMapperImpl.cc:5-16 | between two releases of one registration to one peer there is a new export to it |
| `KernelElemPool.KernelElem.SetStatus` | comms/ctran/gpe/CtranGpeImpl.cc:641-652 | every group gets the status, and statuses beyond ngroups stay |
| `KernelElemPool.KernelElem.Free` | comms/ctran/gpe/CtranGpeImpl.cc:654-687 | every group becomes RESET, or nothing changes if any group is revoked |
| `KernelElemPool.KernelElem.IsFree` | comms/ctran/gpe/CtranGpeImpl.cc:689-703 | true if and only if every group is RESET |
| `KernelElemPool.KernelElem.Reset` | comms/ctran/gpe/CtranGpeImpl.cc:819-826 | all statuses RESET, no groups, no next element |
| `KernelElemPool.KernelElemPool.constructor` | comms/ctran/gpe/CtranGpeImpl.cc:790-802 | capacity fresh elements, all on the free stack |
| `KernelElemPool.KernelElemPool.Pop` | comms/ctran/gpe/CtranGpeImpl.cc:836-861 | the top of the stack moves to the end of the in-use list with the number of groups asked for, checked from above only, in use in each, with a null next; other elements stay; too many groups change nothing |
| `KernelElemPool.KernelElemPool.Reclaim` | comms/ctran/gpe/CtranGpeImpl.cc:863-880 | exactly the in-use elements whose groups are all RESET go to the free stack in list order, reset; the rest stay as they are, and the two lists still partition the pool |
| `KernelElemPool.ReclaimPartition` | comms/ctran/gpe/CtranGpeImpl.cc:863-880 | sorting the in-use list by a flag leaves the free stack and the list a partition of the pool without duplicates |
| `KernelElemPool.PopPartition` | comms/ctran/gpe/CtranGpeImpl.cc:836-861 | so does moving the top of the stack |
| `KernelElemPool.CtranGpe.AllocKernelElems` | comms/ctran/gpe/CtranGpe.cc:403-443 | succeeds if and only if nothing is asked for, or the groups are not too many and the free elements together with the in-use ones whose groups are all RESET are enough; then a null-terminated chain of exactly numElems distinct elements, all in use in every group, from the top of the stack; else an error with nothing taken; the caller's list is left alone when nothing is asked for or too few are free |
| `KernelElemPool.CtranGpe.NumInUseKernelElems` | comms/ctran/gpe/CtranGpe.cc:445-451 | the number of in-use elements with a group that is not RESET, the others being reclaimed |
| `Grouping.PlacesInvert` | comms/ctran/commstate/CommStateX.cc:150-203 | looking up a rank's place in its group gives the rank, and two ranks share a group if and only if they share the key |
| `Grouping.PlacesDense` | comms/ctran/commstate/CommStateX.cc:150-203 | every place in the tables is the place of a rank |
| `Grouping.FirstPassPlaces` | comms/ctran/commstate/CommStateX.cc:156-190 | after the first pass every rank has the place its key gives it among the ranks before it |
| `Grouping.TablesSay` | comms/ctran/commstate/CommStateX.cc:156-203 | after both passes the state of a rank holds its place and the size and ranks of its whole group |
| `HostTables.NodesAreHostsIffConsecutive` | comms/ctran/commstate/CommStateX.cc:228-284 | node numbers name hosts for all pairs of ranks if and only if every host's ranks are consecutive |
| `HostTables.HostRoundTripIff` | comms/ctran/commstate/CommStateX.cc:228-284 | for any hosts and each rank, the node table at the rank's node and local rank holds the rank if and only if as many earlier ranks are on its host as there are ranks since a host was last new |
| `HostTables.HostRoundTrip` | comms/ctran/commstate/CommStateX.cc:228-284 | so it holds for every rank when every host's ranks are consecutive |
| `HostTables.ReturningHost` | comms/ctran/commstate/CommStateX.cc:266-267 | hosts A, B, A: not consecutive, and every rank is found again |
| `HostTables.InterleavedHosts` | comms/ctran/commstate/CommStateX.cc:266-267 | hosts A, A, B, A: the last rank is put on the node of B at a place that node does not have |
| `DeviceRanks.MaskIsModulo` | comms/ctran/commstate/CommStateXDev.h:43-45 | masking with n - 1 is taking the remainder by n when n is a power of two |
| `DeviceRanks.DeviceAgreesIffPowerOfTwo` | comms/ctran/commstate/CommStateXDev.h:43-45 | the mask agrees with the remainder on all ranks if and only if the node size is a power of two |
| `DeviceRanks.ThreeToANode` | comms/ctran/commstate/CommStateXDev.h:43-45 | with three ranks to a node the device takes rank 1 for local rank 0 |
| `DeviceRanks.VNodeRoundTrip` | comms/ctran/commstate/CommStateXDev.h:63-82 | the table of uniform nodes holds rank r at the quotient and remainder of r, and the device's formula leads back to r |
| `CommState.CommStateX.SetNvlFabricTopos` | comms/ctran/commstate/CommStateX.cc:134-221 | fills domain and clique tables so that they say what the grouping of the ranks says; it aborts if and only if the fabric is on and the clique table was not empty before |
| `CommState.CommStateX.SetRankStatesTopologies` | comms/ctran/commstate/CommStateX.cc:223-286 | the three loops fill node numbers, local ranks, host lists and the node table as the grouping by host gives them; rank r lists rank s if and only if they have one name, or are one rank with local ranks off, or lie in one block of n with virtual nodes |
| `CommState.CommStateX.InitRankTopologyVnode` | comms/ctran/commstate/CommStateX.cc:81-100 | every rank's own entries are set, and the node and host tables grow by the uniform nodes of the given size; from an empty node table they are the tables of uniform nodes |
| `CommState.CommStateX.FabricRoundTrip` | comms/ctran/commstate/CommStateX.cc:335-438 | for every rank on the fabric, localRankToRank of its local rank and node is the rank, also with the node left out on the object's own node, and its local rank is below its node's size |
| `CommState.CommStateX.FabricSameNode` | comms/ctran/commstate/CommStateX.cc:495-497 | two ranks on the fabric share a node if and only if they share the cluster id, or the clique id when cliques are on |
| `CommState.CommStateX.FabricDense` | comms/ctran/commstate/CommStateX.cc:411-438 | every place where localRankToRank answers is the node and local rank of the rank it answers |
| `CommState.CommStateX.FabricCounts` | comms/ctran/commstate/CommStateX.cc:393-409 | nLocalRanks of a rank on the fabric is the number of ranks on it with its cluster id, or its clique id when cliques are on |
| `CommState.CommStateX.FabricOff` | comms/ctran/commstate/CommStateX.cc:335-391 | a rank off the fabric has node -1 and local rank -1 there |
| `CommState.CommStateX.HostRoundTripIff` | comms/ctran/commstate/CommStateX.cc:335-438 | off the fabric localRankToRank of a rank's local rank and node is the rank if and only if that condition on the hosts holds for it |
| `CommState.CommStateX.HostRoundTrip` | comms/ctran/commstate/CommStateX.cc:335-438 | so for every rank when every host's ranks are consecutive |
| `CommState.CommStateX.HostOwnNodeIff` | comms/ctran/commstate/CommStateX.cc:430-434 | off the fabric, localRankToRank on the object's own node finds a rank from its local rank if and only if the rank is on the object's host |
| `CommState.CommStateX.HostCounts` | comms/ctran/commstate/CommStateX.cc:393-409 | off the fabric nLocalRanks of a rank is the number of ranks on its host |
| `CommState.CommStateX.HostSameNodeIff` | comms/ctran/commstate/CommStateX.cc:495-497 | off the fabric isSameNode means the same host for all pairs if and only if hosts are consecutive |
| `CommState.CommStateX.NameSameNodeIff` | comms/ctran/commstate/CommStateX.cc:231-267 | with host names as they are, isSameNode means the same name for all pairs of ranks if and only if the ranks of every name are consecutive |
| `CommState.CommStateX.NolocalSameNode` | comms/ctran/commstate/CommStateX.cc:231-267 | with local ranks off, isSameNode holds of a rank and itself only |
| `CommState.CommStateX.VnodeSameNode` | comms/ctran/commstate/CommStateX.cc:231-267 | with virtual nodes of n ranks, isSameNode of r and s holds if and only if r / n is s / n |
| `CommState.CommStateX.VnodeDeviceIff` | comms/ctran/commstate/CommStateX.cc:81-100 | with uniform nodes host getters and device formulas agree on node and rank always, and on local rank if and only if the node size is a power of two; the round trip holds for every rank, also on the own node, and every node has n local ranks |

## Left out

Virtual queue pair and completion queue:

- The verbs calls, device discovery, business cards, moves and destructors: foreign calls and ownership. Objects are not moved while work is outstanding. The completions the device reports are a parameter of `PollCq`.
- Posts that fail midway: the code leaves its own bookkeeping behind in that case and promises nothing.
- `IBV_WR_SEND` in runs: runs hold writes and reads, with and without an immediate. What one call of the posting loop does with sends is in `SendQueue`, where `SendQueue.OverfillsIff` says when the limit is exceeded.
- Receives with a buffer in runs: an immediate consumes a receive for a notify, so runs post receives without a buffer; what one endpoint does with buffered receives is in `RecvQueue` and `Endpoints`.
- Unsignaled sends: they get no virtual completion, so no claim is made about them.
- Outstanding work request ids that repeat: sends and receives of one virtual CQ share one index, so distinct ids are what callers owe.
- Several virtual QPs on one coordinator: `virtualQpNum_` stays 0, so the coordinator's maps hold one virtual QP. Separate send and receive CQs are modelled in `createVirtualQp` only; runs use one CQ for both.
- Messages of length zero in runs: `SendQueue.EmptyLosesNotify` and `SendQueue.EmptyNeverLeaves` say what becomes of them.
- Ibverbx.Coordinator.PostSend: an empty message that counts nothing, over QPs without a limit, is not among the inputs, because the posting loop never ends on it.
- Ibverbx.Coordinator.PostRecv: the same for an empty receive with a buffer under SPRAY.
- Lengths fit the integers of the source, so the ceiling does not overflow.
- A post lands as a whole or not at all, also one that fails; and the opcode of a completion tells its direction, also when it reports an error.
- The window of the sequence numbers: that the peer handles no number 2^24 - 1 or more past the oldest missing one is a hypothesis on the environment; the code does not enforce it.
- Fields of `ibv_wc` other than id, status, length and immediate data: copied from the latest completion.
- Liveness: that the device eventually completes what is in flight is not stated; progress is what holds once it has.

Registration cache and mapper:

- `CtranAvlTree` is not part of this model: a search may return any cached segment that contains the range, and none only if there is none.
- Backend register and deregister calls always succeed; their handles are fresh and never reused.
- The allocation map is fixed while memory is cached.
- RegCacheObject.CtranMapperRegCache.CacheSegment: a buffer that begins outside cuMem memory and runs into it is not among the inputs, because the code takes the kind of memory from the first address only.
- Mapper.CtranMapper.RegMem: the same holds for the buffer it caches.
- The asynchronous registration thread, `destroy`, logging, `lookupHit_`, latency and total counters.
- Counters under concurrency: current counters are proved for calls made one at a time.
- The mapper: calls one at a time, one communicator, no release at destruction; epoch locks and the transport of control messages are not modelled, only which messages are posted.
- Dynamic handles are passed to `deregDynamic` only, and cached ones are not.

Kernel elements:

- Payload fields, `post`, `revoke`, `wait`, checksums and the device's half of the status handshake; a kernel's writes to statuses are the caller's to make between calls.
- `CTRAN_ALGO_MAX_THREAD_BLOCKS` is a parameter, below `MAX_NGROUPS`; its value is not part of this model.
- The check that stops the program on an element with a group count of zero or less is a precondition of the status functions and of `reclaim`; `pop` itself takes such a count.

Topology:

- Reading and exchanging topology, racks, zones, data centres and string conversions.
- Ranks are given in rank order, one entry each, as the bootstrap delivers them; the checks that stop the program on a wrong number of entries are preconditions.
- Integer ids of cliques and ranks are unbounded.
