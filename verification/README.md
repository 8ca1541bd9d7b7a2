# The RTL8720 link stack and its neighbours, verified

A Wio Lite AI board talks to an RTL8720DN radio module over one UART. Three kinds of frame
share it: eRPC calls and replies, a small control channel, and bulk Ethernet data. This
project models the host side of that link, and six smaller mechanisms of the same firmware
whose correctness is argued in comments rather than visible in any one function.

Functions that update state in place are classes whose methods are proved against functions
on values; those functions then carry the theorems about whole runs. Each section of the
firmware that masks interrupts or holds the eRPC lock is one atomic step. Between two such
sections a method lets everybody else run, any number of steps of any kind, so that what is
proved of it holds for every interleaving.

What the hardware, the module or the radio answers is arbitrary, and every answer is recorded. A
method that reports a failure is held to that record: it may report one only for an answer that
calls for it.

| module | what it is |
|---|---|
| `Bytes`, `Crc16`, `Crc32`, `NorFlash` | little-endian numbers, the two checksums, a flash that only clears bits |
| `Frames`, `FrameReader` | the three frame layouts, a byte-at-a-time reader, and the resumable reader that computes it |
| `Calls`, `CallRuns`, `CallProgress`, `ErpcTable` | the slot table and wire ledger as steps, what holds over every run, what each step must bring about, and the sections in place, with `erpc_wait` among them |
| `CtrlCall` | the control channel's single slot, its eight-bit sequence number, and a whole exchange among everybody else's sections |
| `Pools`, `PoolProgress`, `SlotPools`, `LinkData` | the DATA buffer pools as places, what each step must bring about, the free stack, ring and epochs in place, and the channel built on two of them |
| `ReaderOnPool` | the frame reader as one owner of DATA buffers among others |
| `RefCount`, `UartLink` | references and generations of the shared UART |
| `Silence`, `NetOwner` | when the DATA consumer may be detached, and the owner thread that must obey it |
| `Wakeups` | the service thread's park against everybody who posts work |
| `Blob` | a file store whose header is written last and in two steps |
| `CamBand`, `BandStream`, `StreamLatch` | a camera fan-out with claim, release and drain, and the latch that anybody may set without a lock |
| `Rings` | the single-producer single-consumer byte rings under the UART |
| `MmapScan` | a hardware sweep that survives resets and takes a hang for an answer |
| `Digest`, `Flasher`, `Slip` | the module's flash downloader: checksum, gated programming, framing |
| `Kv` | configuration records |
| `Tiling` | camera bands to model input rows |

## Where a promise has a condition

The code is modelled as it is. Where a comment, or the obvious reading of a function, promises
more than the code keeps, the exact condition is proved and a run or an input outside it given.

- A frame claimed before a reset and published after it is dropped unless the number of resets
  in between is a positive multiple of 256, the size of the epoch (`Pools.QueuedIffNoReset`;
  the comment at `app/link_data.c:73-74` argues that this cannot happen in practice).
  `Pools.FullTurnOfResets` is the run with 256 of them; `Pools.NothingCrossesReset` is what holds
  of every run whose holds are shorter.
- A late reply to a control exchange is told from the reply to the current one unless the
  command is the same and a multiple of 256 exchanges lies between them (`CtrlCall.TakenIff`).
  `CtrlCall.LateReplyIsTaken` is the run.
- Giving back a receive slot keeps the pool sound unless the slot is queued
  (`SlotPools.SlotPool.Release`, `LinkData.Channel.RxRelease`): the source only
  leaves a free one alone, and any queued one breaks it (`SlotPools.FreeWhileQueued`). The reader
  never does this (`ReaderOnPool.EveryUseIsOfAHeldSlot`).
- A plain release of the UART is right exactly when its reference is of the current generation
  or nothing is open (`RefCount.PlainReleaseIff`); `RefCount.LatePlainReleaseCloses` is a run with a
  wrong one, and `RefCount.MovesKeepInv` shows that releasing inside the section that took the
  reference is enough.
- The comment at `app/erpc.c:898-908` calls an interrupt notification dropped before the
  parked mark harmless, since the bytes are stale. They are stale only while no DATA consumer
  is attached. From any state at the mark the thread goes to sleep for good over an unread byte
  exactly when it found nothing to do, the flag is down and the byte is there
  (`Wakeups.SleepsOverByteIff`), and a byte that comes on the way to the wait is slept over
  exactly when it comes before the mark (`Wakeups.MarkIsTheLine`). `Wakeups.EarlyBytesCanBeLeft`
  is such a run from boot.
- The arming flag is there to keep a claim from being taken for a dead stream
  (`app/cam_band.c:125-130`). It does unless a reader of the latch had passed its test of the flag
  when the flag went up (`StreamLatch.FalseAlarmIff`; over a running stream, unless it had seen it
  down, `StreamLatch.LateAlarmIff`). `StreamLatch.FalseAlarm` is a run from boot. So a claim that
  succeeds promises nothing about the latch.
- `nxn_enter_failed` says that it is called with the coarse mutex held (`app/nx_net.c:403`). The
  first exit of `nxn_stop` (`app/nx_net.c:447-454`) calls it without. The detach is safe all the
  same, and that path neither takes nor returns the mutex.
- A second `begin` on an armed blob slot programs over what is there; the payload then equals the
  stream exactly when the stream needs no bit that was already clear (`Blob.PayloadIsStreamIff`;
  `Blob.SecondBeginCanCorrupt` is a file lost to it).
- The unit bound of the memory sweep is checked in 32 bits. The units tested are the units asked
  for exactly when that sum does not wrap (`MmapScan.TestsWhatWasAskedIff`;
  `MmapScan.WrapIsAccepted` is a plan for which it does).
- The size check of the camera input means what it says exactly when its product fits 32 bits
  (`Tiling.SizeCheckIff`), and a tensor descriptor can hold a shape for which it does not
  (`Tiling.SizeCheckCanWrap`). What really fits its buffer passes (`Tiling.AcceptedShapesFit`).
  The tiling check beside it could wrap as well (`Tiling.AcceptedIffNoWrap` says exactly when),
  but not for a height of 16 bits, which is all that `port/nn/nn.h:93` has room for
  (`Tiling.HeightsNeverWrap`).
- A stored description that holds a NUL is accepted on reading and does not pack back to the
  same bytes (`Kv.UnpackThenPack`; `Kv.NulIsLost` is such a record).

## Model

| member | source | states |
|---|---|---|
| Crc16.FeedZerosIsLinear | app/erpc.c:341-373 | any number of steps of the sixteen-bit register distributes over exclusive-or: what lets a table replace them |
| Crc16.ByteStep | app/erpc.c:379-389 | one table look-up advances the register exactly as eight bit-serial steps do, whatever the unmasked upper half of the 32-bit accumulator holds |
| Crc16.CrcTable.Build | app/erpc.c:359-373 | after the builder every table entry is what eight register steps make of its index |
| Crc16.CrcTable.Compute | app/erpc.c:379-389 | the table-driven loop returns the bit-at-a-time CRC-16 (polynomial 0x1021, initial value 0xEF4A, most significant bit first) of every byte string |
| Crc16.Checksum | app/erpc.c:379-389 | the 16-bit number in a frame header has exactly the bits of that CRC |
| Frames.FeedSplits | app/erpc.c:561-688 | how the bytes of a stream are cut up makes no difference to the reader's state or reports |
| Frames.HeaderDecodes | app/erpc.c:741-745 | each of the three header layouts is told apart from its first two bytes and gives back its length and checksum |
| Frames.OneFrame | app/erpc.c:561-688 | from a frame boundary the bytes of one frame produce that frame's single outcome and end at a boundary; oversize or unbuffered frames lose only themselves |
| Frames.FramesAreRecovered | app/erpc.c:561-688 | any sequence of well-formed eRPC, CTRL and DATA frames is reported frame by frame, in order, and leaves the reader at a boundary |
| Frames.PartialStream | app/erpc.c:561-688 | part-way through the stream the reports are a prefix of the frames' outcomes |
| Frames.NothingResyncs | app/erpc.c:561-688 | no stream of well-formed frames ever causes a resynchronisation |
| Frames.BadLength | app/erpc.c:606-653 | a CTRL or DATA header with a length out of bounds resynchronises on the spot and is never drained; an eRPC one too short for a message is reported and skipped |
| Frames.DrainedWhole | app/erpc.c:561-581 | a frame too large, or with no pool buffer to go to, is reported once and swallowed to its last byte and no further, whatever its bytes are |
| Frames.BadChecksum | app/erpc.c:534-544 | a body that fails its checksum reaches its dispatcher with it; on the CTRL channel, and only there, the stream is then resynchronised |
| FrameReader.Reader.HeaderStep | app/erpc.c:583-606 | collecting header bytes leaves the reader where the byte machine is; a refused header, and nothing else, throws away what has arrived |
| FrameReader.Reader.OpenBody | app/erpc.c:606-654 | a complete header starts a body, a drain or a resynchronisation as its length and the pool decide; a DATA header makes one claim of the pool, granted exactly when a body is started, and no other header makes any |
| FrameReader.Reader.BodyStep | app/erpc.c:656-687 | body bytes land inside the buffer they were sized for, for any input, and a complete body is dispatched once; a pool buffer is written only while claimed |
| FrameReader.Reader.Drain | app/erpc.c:561-581 | an oversize or unbuffered frame is discarded exactly, across any number of calls |
| FrameReader.Reader.Dispatch | app/erpc.c:673-688 | a complete body is delivered once; a DATA body commits its buffer, which is the only call to the pool; a CTRL body that fails its checksum restarts the stream and throws away what has arrived |
| FrameReader.Reader.StreamReset | app/erpc.c:433-471 | a reset returns the reader to a boundary, throws away what has arrived or a scratch-full of it, aborts the pool buffer it holds if it holds one and makes no other call to the pool, and keeps what was reported |
| FrameReader.Uart.Flush | app/erpc.c:449-461 | a flush ends with nothing left of what had arrived, or with at least a scratch-full gone and less than 64 bytes more |
| FrameReader.Reader.RxStep | app/erpc.c:561-688 | for any byte stream arriving in any pieces the resumable reader is exactly where the byte-at-a-time machine would be, and holds a pool buffer exactly when its calls to the pool leave it one; a resynchronisation, and nothing else, throws away what has arrived, and no step leaves alone a byte that is there |
| FrameReader.Reader.Receive | app/erpc.c:884-885 | over any number of receive passes on a stream of well-formed frames the reports are a prefix of the frames' outcomes, and all of them once the bytes are in; of bytes that have arrived every pass takes 32 or what there is |
| ReaderOnPool.SlotIsHeld | app/erpc.c:420-431 | however the dispatcher, the consumer and link resets interleave with the reader, its slot stays held for exactly as long as its own calls say so |
| ReaderOnPool.EveryUseIsOfAHeldSlot | app/erpc.c:561-688 | every fill, commit and abort of a run is of a slot held at that moment; a commit leaves it queued exactly when link_data takes the frame and the epoch still matches, and free otherwise; an abort leaves it free |
| ReaderOnPool.EachClaimEndsOnce | app/erpc.c:433-446 | every buffer claimed is committed or aborted exactly once, but for the one that may be held now |
| ReaderOnPool.ReaderHoldsWhatItSays | app/erpc.c:420-446 | and all of this is true of the reader's own calls, whenever it is between two steps |
| Calls.FirstSent | app/erpc.c:506-511 | the search a reply makes finds the first slot that is on the wire with its sequence number, or none |
| Calls.Addressee | app/erpc.c:506-516 | a reply reaches only a slot that is SENT with the same sequence, service and request |
| Calls.StepKeepsSlots | app/erpc.c:1159-1286 | every locked section keeps live slots' sequence numbers distinct and their buffers in bounds |
| Calls.StepKeepsWaits | app/erpc.c:956-1050 | every locked section keeps each waiting thread the registered waiter of its own call |
| Calls.StepKeepsDebts | app/erpc.c:212-260 | every locked section keeps the ledger free of duplicates and of queued calls |
| Calls.RunKeepsInv | app/erpc.c:956-1286 | all of that holds over every interleaving of begin, wait, send, reply, cancel, abandon, open and budget change |
| CallRuns.NoFurtherReply | app/erpc.c:502-519 | once a call is done, cancelled or given up, no later event of any run is a reply to it |
| CallRuns.DoneMeansReplied | app/erpc.c:478-524 | a slot is DONE only because a reply with its sequence, service, request and length came in the run |
| CallRuns.WaitIsKept | app/erpc.c:1003-1050 | nothing other threads do takes a registered waiter's slot from it, abandon_all included |
| CallRuns.DecisionEndsTheCall | app/erpc.c:974-992 | the locked look that decides ends the wait and the call together |
| CallRuns.BufferIsSafeAfterReturn | app/erpc.c:1217-1270 | after erpc_wait has returned, by whatever verdict, no event writes the caller's buffer until it is handed to another call |
| CallRuns.ReplyIsDelivered | app/erpc.c:513-520 | a completed call finds in its buffer its own reply's payload, cut to the room there was, and nothing else |
| CallRuns.LedgerStep | app/erpc.c:212-260 | a frame enters the ledger when sent and leaves it when answered or when the ledger is reset, and not otherwise |
| CallRuns.LedgerIsOutstanding | app/erpc.c:212-260 | over every run the ledger is exactly the set of request frames written and not answered since the last reset, whatever became of the callers |
| CallRuns.OnWireFits | app/erpc.c:212-221 | the 16-bit sum of the ledger cannot wrap |
| CallRuns.RunKeepsBudget | app/erpc.c:703-751 | while the budget is unchanged, either at most one frame is outstanding or all of them fit the budget |
| CallProgress.BeginTakesASlot | app/erpc.c:1159-1215 | with the link up, a request that fits and a slot free, some free slot becomes the call, queued, under the next number and with the service, request, buffer and capacity handed in; no other slot changes |
| CallProgress.MayGoIff | app/erpc.c:703-751 | a queued slot may go out exactly when the link is up, the ledger has room for one more and either nothing is outstanding or the sum with it keeps to the budget |
| CallProgress.SendLands | app/erpc.c:703-751 | a slot that may go out does: it is on the wire and its frame in the ledger, and nothing else changes |
| CallProgress.ReplyLands | app/erpc.c:500-523 | whichever slot is on the wire with the reply's number, service and request is DONE after it with the payload's length, and its buffer holds the payload as far as there is room and its old bytes beyond |
| CallProgress.StrayReplyIsDropped | app/erpc.c:506-523 | a reply that no slot awaits touches no slot and no buffer |
| CallProgress.HandoverIsKept | app/erpc.c:1159-1286 | for as long as a slot serves a call, over any run, its service, request, length, buffer and capacity are the ones it was handed |
| CallProgress.RegisterLands | app/erpc.c:1217-1240 | a thread that may wait becomes the waiter of its token's slot |
| CallProgress.CancelLands | app/erpc.c:1272-1286 | a live slot nobody else waits on is emptied, and no other |
| CallProgress.SettleLands | app/erpc.c:974-992 | the deciding look empties the waiter's slot, and only the deciding look does |
| CallProgress.AbandonLands | app/erpc.c:1003-1050 | every waiterless slot is emptied, every awaited one abandoned with its buffer detached, and the ledger is empty |
| CallProgress.BudgetFollows | app/erpc.c:1134-1143 | the wire budget follows the module generation and nothing else: 127 bytes below the fourth, 4096 from it on |
| CallProgress.WaitEndsAsItMust | app/erpc.c:1217-1270 | until its waiter looks a call is abandoned exactly if the link was given up under it, and otherwise done exactly if its reply came while it was on the wire |
| ErpcTable.Client.BytesOnWire | app/erpc.c:212-221 | the 16-bit accumulation is the true sum of the outstanding lengths |
| ErpcTable.Client.DebtClear | app/erpc.c:248-255 | exactly the debts of that sequence number are dropped |
| ErpcTable.Client.BeginCall | app/erpc.c:1159-1215 | a token is given exactly when the link is up, the request fits and a slot is free; the slot then holds the call and the body holds codec version, service, request, type, sequence number and payload, with its checksum |
| ErpcTable.Client.RegisterWaiter | app/erpc.c:1217-1240 | a thread becomes the waiter of a live slot that is nobody else's, or is refused with nothing changed |
| ErpcTable.Client.SettleSlot | app/erpc.c:974-992 | one locked look gives the verdict the slot's state and the caller's patience call for, and empties the slot exactly if it decides |
| ErpcTable.Client.CancelCall | app/erpc.c:1272-1286 | cancelling frees only a live slot that nobody else waits on |
| ErpcTable.Client.SendOne | app/erpc.c:703-751 | the first eligible slot in round-robin order is booked and exactly its frame is written, well formed and carrying the request the slot was filled for; those before it were not eligible; nothing is written only if none is |
| ErpcTable.Client.Dispatch | app/erpc.c:478-524 | only a body with the right checksum, version and type changes anything; a reply to the call some slot has on the wire settles that slot and fills its buffer |
| ErpcTable.Client.Deliver | app/erpc.c:500-523 | the debt is cleared even if the caller is gone; every slot that awaits this reply is DONE with its length and has its payload, truncated to the capacity, and no other slot or buffer is touched |
| ErpcTable.Client.Abandon | app/erpc.c:1003-1050 | every waiterless slot is freed, every awaited one marked, the ledger emptied and the link shut |
| ErpcTable.Client.WaitFor | app/erpc.c:1217-1270 | however everybody else interleaves, a thread let in leaves with exactly one verdict, the right one: torn down if the link was given up under it, its reply's length if that reply came, and given up only with its time spent or its abort hook fired; and the call is dead behind it |
| CtrlCall.StepKeepsInv | app/erpc.c:173-186 | through every section the CTRL slot serves only the latest exchange, for one waiter, with that exchange's command and number in its frame |
| CtrlCall.TakenIff | app/erpc.c:547-550 | a reply to exchange m settles the exchange on the wire if and only if the command is the same and their numbers differ by a multiple of 256; within 256 exchanges, if and only if it is the same exchange |
| CtrlCall.LateReplyIsTaken | app/erpc.c:547-550 | and from every idle open link there is a run in which the reply to an exchange given up 256 exchanges ago settles the one on the wire |
| CtrlCall.AskLands | app/erpc.c:1380-1401 | on an open, idle link a request that fits is queued, and its frame is command, number, two zeros and exactly what was asked |
| CtrlCall.SendLands | app/erpc.c:760-782 | a queued request on an open link goes out, once and whole |
| CtrlCall.ReplyLands | app/erpc.c:534-558 | a reply that echoes the exchange on the wire settles it with its status and length and fills the buffer as far as there is room; any other changes nothing |
| CtrlCall.Fate | app/erpc.c:1330-1351 | an exchange nobody has looked at is abandoned exactly if the link was torn down under it, and otherwise done exactly if a reply that echoes it came while it was on the wire |
| CtrlCall.Awaited | app/erpc.c:534-558 | until its waiter looks nobody else's call gets the slot, and it is done only by a reply with its command and number, copied into its own buffer |
| CtrlCall.BufferIsLeftAlone | app/erpc.c:994-1001 | over any run, a buffer the slot does not hold and is not handed again is not written |
| CtrlCall.Client.AskFor | app/erpc.c:1376-1409 | an exchange starts exactly when the link is up, the request fits and none is in flight |
| CtrlCall.Client.SendQueued | app/erpc.c:760-782 | a queued exchange on an open link is written, once, as the well-formed CTRL frame of its body |
| CtrlCall.Client.Dispatch | app/erpc.c:534-558 | a body with a bad checksum makes the stream suspect and changes nothing else; one that echoes the exchange on the wire settles it; one nobody waits for changes nothing |
| CtrlCall.Client.Look | app/erpc.c:1330-1351 | one locked look decides exactly if the exchange is done, abandoned or out of time, says what its slot says, and frees a decided slot |
| CtrlCall.Client.Call | app/erpc.c:1364-1436 | however everybody else interleaves, there is a status or a length exactly if a reply that echoes the exchange came while it was on the wire and the link was not torn down; it is what that reply said, the request went out once and whole, the buffer holds the payload, lost without a teardown means that every poll was spent, and the slot is free behind it |
| Pools.StepKeepsInv | app/link_data.c:50-73 | every pool section keeps each slot in one place: free, with one holder, or queued once under the current epoch |
| Pools.RunKeepsInv | app/link_data.c:105-173 | over every run of claims, releases, publications, deliveries and resets |
| Pools.HeldIsKept | app/link_data.c:50-73 | no number of resets or of other threads' sections takes a held slot from its holder or puts it in a queue |
| Pools.QueuedIffNoReset | app/link_data.c:274-288 | a frame claimed before a run and published after it is queued exactly when the number of resets between is a multiple of 256; below 256, exactly when there was none |
| Pools.FullTurnOfResets | app/link_data.c:73-74 | and 256 resets are enough: a frame claimed before them is queued after them |
| Pools.QueuedSinceReset | app/link_data.c:427-462 | with fewer than 256 resets inside each hold, whatever waits to be delivered or sent was claimed since the last reset |
| Pools.NothingCrossesReset | app/link_data.c:135-160 | whatever waits after a reset, however long after, was granted its slot by a claim since, at the epoch now current: nothing claimed before a reset is delivered or sent behind it |
| PoolProgress.PublishLands | app/link_data.c:273-288 | a held slot that looks current goes to the end of the queue, any other held slot is free again, and no other slot moves |
| PoolProgress.DequeueLands | app/link_data.c:314-328 | the head of the queue is free after it is popped and held after it is taken, and the rest of the queue keeps its order |
| PoolProgress.ResetLands | app/link_data.c:135-160 | a reset empties the queue, frees every slot nobody holds and leaves the held ones |
| PoolProgress.NothingIsLost | app/link_data.c:50-73 | over every run the number of held slots changes by exactly the claims and takes granted less the releases and publications of held slots |
| PoolProgress.LeavesInTurn | app/link_data.c:298-328 | over every run without a reset, what was n-th in the queue is at its head after n departures: first in, first out |
| PoolProgress.RoundTrip | app/link_data.c:243-328 | a slot that is claimed, published and popped is free again |
| SlotPools.SlotPool.constructor | app/link_data.c:105-125 | the free list starts with every slot once and the queue empty |
| SlotPools.SlotPool.Take | app/link_data.c:251-260 | popping the free list claims a free slot and stamps it with the epoch; there is none exactly when none is free |
| SlotPools.SlotPool.Release | app/link_data.c:165-173 | giving back a held slot frees it once and a free one is left alone; the pool is sound afterwards exactly when the slot was not queued, and what it looks like otherwise |
| SlotPools.SlotPool.Publish | app/link_data.c:273-288 | a slot whose stamp is current goes to the end of the queue, any other back to the free list |
| SlotPools.SlotPool.TakeOldest | app/link_data.c:438-451 | the head of the queue passes to the consumer; the stale branch of the source never fires |
| SlotPools.SlotPool.PopOldest | app/link_data.c:314-328 | the head of the queue is free afterwards and on the free list, one longer |
| SlotPools.SlotPool.Reclaim | app/link_data.c:135-160 | a reset rebuilds the free list from every slot nobody holds and counts the rest |
| LinkData.Channel.LinkReset | app/link_data.c:476-484 | both pools are reset under one new epoch and no buffer's contents change |
| LinkData.Channel.RxClaim | app/link_data.c:342-367 | a body length out of range or an empty pool gets no buffer; otherwise a free slot is claimed |
| LinkData.Channel.RxRelease | app/link_data.c:369-376 | abort and free release a held slot and do nothing to a free one; the channel is sound afterwards exactly when the slot was not queued |
| LinkData.Channel.RxCommit | app/link_data.c:378-416 | a frame is queued for the consumer exactly when its checksum is right, no reset has passed and a consumer is attached; otherwise its slot is freed |
| LinkData.Channel.RxTake | app/link_data.c:427-450 | what is delivered is the oldest queued frame, whole and with a good checksum |
| LinkData.Channel.TxPeek | app/link_data.c:298-312 | what is sent next is the oldest queued frame, whole and with a good checksum |
| LinkData.Channel.TxPop | app/link_data.c:314-328 | the frame that was sent gives its slot back: it is free, and the free list one longer |
| LinkData.Channel.Send | app/link_data.c:243-296 | whatever runs during the copy, the frame goes on the end of the queue with header, payload and checksum intact, or its slot is free again, as the resets in between decide |
| LinkData.Channel.Stats | app/link_data.c:486-497 | the two instantaneous figures are true: the transmit count is the queued slots, and the receive count with the free slots makes up the pool |
| RefCount.StepKeepsInv | app/rtl_link.c:90-131 | the count stays the number of references taken at the current generation and not returned, through every entry point used in order |
| RefCount.PlainReleaseIff | app/rtl_link.c:123-131 | a plain release keeps the count right exactly when its reference is of the current generation or nothing is open |
| RefCount.LatePlainReleaseCloses | app/rtl_link.c:123-131 | a run in which a plain release that comes after a force-quiesce closes the UART under its next user |
| RefCount.PassedForGood | app/rtl_link.c:183-195 | a generation once passed never comes back, in any run: from then on a release under it changes nothing for anybody else |
| RefCount.GenMovesOnlyByQuiesce | app/rtl_link.c:207-226 | while a current reference is out, only a force-quiesce moves the generation, and only it moves the quiesce count |
| RefCount.MovesKeepInv | app/rtl_link.c:77-131 | over every run in which plain releases stay in the coarse-mutex section that took the reference, the count is exact |
| RefCount.ClosesOnlyWhenUnused | app/rtl_link.c:183-195 | a release closes the UART exactly when it leaves no current reference: a resident never closes another user's UART |
| UartLink.Uart8720.TakeRef | app/rtl_link.c:90-121 | a reference joins only the very same configuration, or opens the UART under a new generation; it is refused only for another configuration or a UART that does not come ready |
| UartLink.Uart8720.ReleaseGen | app/rtl_link.c:183-195 | a release that names a stale generation changes neither count nor UART; a current one takes one reference off, and the last closes the UART |
| UartLink.Uart8720.ChangeRate | app/rtl_link.c:148-176 | a rate change keeps references and generation, whether or not the UART comes back; it succeeds exactly when something is open and comes back, and then at the new rate |
| UartLink.Uart8720.TakeAway | app/rtl_link.c:207-226 | a force-quiesce drops every reference, closes the UART at the default rate and moves both counters |
| Silence.MonitorIsExact | app/link_data.h:122-131 | the four facts the monitor remembers are exactly: a bridge was requested, silence was acknowledged since, both ends were seen quiet after that, the stream was taken away |
| Silence.SnocIsSafe | app/link_data.h:122-131 | a detach the monitor permits keeps the whole history safe |
| Silence.EndOfSession | app/link_data.h:122-131 | at the end of a session the monitor permits a detach exactly when the ordering rule does |
| NetOwner.Owner.TurnOff | app/nx_net.c:470-477 | silence is asked for until it is acknowledged, at most three times: exactly these requests go out, the last acknowledged or all three refused |
| NetOwner.Owner.Settle | app/nx_net.c:375-390 | success means a look saw host, queue and pool quiet; failure means fifty looks did not |
| NetOwner.Owner.EnterFailed | app/nx_net.c:405-415 | the stream is taken away before the consumer is detached |
| NetOwner.Owner.StopClaimed | app/nx_net.c:469-494 | teardown with the mutex held ends DOWN exactly if a request for silence was acknowledged and a look after it was quiet, and then takes nothing away from anybody; FAILED only after three refusals, or an acknowledgement and fifty looks that were not quiet; the mutex is back on every path |
| NetOwner.Owner.Stop | app/nx_net.c:421-494 | every way out of a session returns the mutex and ends down or failed: down exactly if the console went, the mutex was got and silence was proved; with the console still there the stream is taken away first |
| NetOwner.Owner.GiveUp | app/nx_net.c:681-692 | before the bridge is requested, giving up detaches, returns the reference and the mutex |
| NetOwner.Owner.Prepare | app/nx_net.c:537-628 | every check up to the attach is asked as its own record says: a failure is an answer that said no, and gives everything back; with all of them said yes the owner is attached under its own current reference |
| NetOwner.Owner.Arm | app/nx_net.c:500-692 | bring-up ends UP exactly if none of its recorded answers refused it, and then every check said yes; DOWN if a check before the bridge refused; the mutex is returned whatever happens |
| NetOwner.Owner.Refresh | app/nx_net.c:824-885 | a refresh returns the mutex on every path; it is good exactly as its answers say, one bad refresh never ends a session, and two in a row end it only through the full teardown |
| NetOwner.Owner.LinkRevoked | app/nx_net.c:894-904 | when the generation has moved the stream has been taken away, so detaching without a lock is safe |
| NetOwner.Owner.Recover | app/nx_net.c:951-967 | a failed session is cleared only after a force-quiesce later than the failure |
| NetOwner.Owner.Turn | app/nx_net.c:906-978 | one turn of the owner keeps all of this: an arming session comes up exactly if no answer refused it; one asked to stop is down exactly if the console went, the mutex was got and silence was proved; a moved generation brings it down; a second bad refresh, and nothing else, ends one left alone; FAILED is left exactly when the quiesce generation has moved past the one recorded |
| NetOwner.Owner.Entry | app/nx_net.c:906-978 | over any number of turns, any answers and anything other threads do without the coarse mutex, every detach in the history obeys the ordering rule |
| Wakeups.StepKeepsInv | app/erpc.c:850-929 | every step of the service thread, a poster, another thread or the interrupt keeps the park protocol's invariant |
| Wakeups.NoLostWakeup | app/erpc.c:832-928 | in every run the thread is asleep for good over posted work only while a poster has yet to raise the flag |
| Wakeups.RaiseWakes | app/erpc.c:1208-1213 | and that raise, with the next two steps of the thread, has it back at its loop with the work still posted |
| Wakeups.LateBytesWake | app/erpc.c:329-333 | bytes that arrive after "parked" is published are never slept through |
| Wakeups.SleepsOverByteIff | app/erpc.c:894-928 | from any state at the mark, left to itself, the thread goes to sleep for good over an unread byte if and only if it found nothing to do, the flag is down and the byte is there |
| Wakeups.MarkIsTheLine | app/erpc.c:898-909 | and a byte that comes at any one point between the mark and the wait is slept over if and only if that point is before the mark |
| Wakeups.EarlyBytesCanBeLeft | app/erpc.c:894-906 | a run from boot in which a byte arrives after the receive loop and before "parked" is published, and the thread parks for good with the byte unread |
| Crc32.Chains | app/blob.c:24-34 | feeding a result back in gives the checksum of the whole stream, for every way of cutting it up |
| Crc32.EmptyIsIdentity | app/blob.c:24-34 | an empty chunk changes nothing |
| NorFlash.Nor.Program | port/nor/nor_flash.h:161-170 | a program clears bits only, completely if it succeeds and at any subset of the bits if it is cut |
| Blob.MagicDecides | app/blob.c:164-206 | over a good body, a magic cut at any bit reads valid exactly when it is complete, and then the header says what was meant |
| Blob.ValidMeans | app/blob.c:164-206 | nothing else reads valid: such a header is, up to its name, exactly the one its own name, length and checksum call for |
| Blob.ReadsBackIff | app/blob.c:464-497 | a completed program reads back as its data exactly when the flash took it, no bit of it having been clear already |
| Blob.PayloadIsStreamIff | app/blob.c:401-427 | the payload equals the received stream exactly when the stream needs no bit already clear when it began; from an erased slot, always |
| Blob.SecondBeginCanCorrupt | app/blob.c:371-399 | a second file begun over the first can be lost |
| Blob.Sink.Arm | app/blob.c:342-359 | armed exactly if the slot exists and the erase succeeded; the slot is then blank, header and payload, and no other slot is touched |
| Blob.Sink.Begin | app/blob.c:371-399 | a file is accepted exactly when armed with a size in range, under its printable name |
| Blob.Sink.Write | app/blob.c:401-427 | a block within the declared size is programmed once, at its place, and the answer is the flash's own; accepted, it extends the stream and its checksum; any other is refused without touching the flash; header and other slots stay |
| Blob.Sink.Commit | app/blob.c:434-498 | once every declared byte has arrived, it is done exactly if every operation it made on the flash succeeded and the header took its bytes, and cut exactly if the power was; nothing is tried after a failure; done, the slot reads valid as meant; over an erased header it reads valid, whatever the outcome, only if all declared bytes had arrived and the body is the one meant |
| Blob.Verify | app/blob.c:240-273 | an I/O error is reported exactly when one of its own reads failed; otherwise the verdict is the one header and payload deserve, and the number given out is the checksum of the payload |
| Blob.Receive | app/blob.c:342-498 | one transfer into a wiped slot is done exactly if the size was in range, exactly that much arrived and every operation on the flash succeeded; afterwards the slot reads valid only if it holds the whole file and then verifies |
| CamBand.StepKeepsInv | app/cam_band.c:151-186 | each counter is the number of passes inside that client's callback, after every masked section |
| CamBand.StaysDrained | app/cam_band.c:140-149 | once nobody is inside and the claim is gone, no placement of the producer's steps lets a pass in before the next claim |
| CamBand.NobodyEntersUnclaimed | app/cam_band.c:140-149 | without a claim the number inside can only fall |
| BandStream.Stream.Enter | app/cam_band.c:166-171 | the claim test and the increment are one step |
| BandStream.Stream.Fanout | app/cam_band.c:151-186 | among everybody else's steps a pass tries each client once, in the fixed order, leaving each before the next; it calls each client claimed at the moment it was tried, with the callback published then, and no other; it is outside afterwards |
| BandStream.Stream.Claim | app/cam_band.c:188-237 | success exactly when the camera says that it is running, or says not and then starts; the claim and its callback stand then; a refused start withdraws the claim; the lock is free again; refused the lock, it was seen taken at each of 2000 looks |
| BandStream.Stream.Release | app/cam_band.c:239-282 | told that it is safe, nobody is inside the callback and nobody can enter; told busy, somebody was inside at every look of the drain and still is; refused the lock, it was taken at every look; exactly the last client out asks the camera, and asks it to stop if it is running |
| StreamLatch.FalseAlarmIff | app/cam_band.c:116-138 | while a claim arms and starts the stream the latch can be set if and only if, when the arming flag went up, some reader had passed its test of that flag and has a claim to find |
| StreamLatch.LateAlarmIff | app/cam_band.c:116-138 | over a stream that keeps running a clear latch can be set if and only if some reader had already seen the stream down |
| StreamLatch.FalseAlarm | app/cam_band.c:134-137 | a run from boot in which the first claim succeeds, the stream runs, and the latch says that it is lost |
| Rings.Ring.Read | app/rtl8720.c:271-286 | what is read is the next bytes put in, in order and once, everything there was if there was room, with the interrupt running between any two bytes |
| Rings.Ring.Drain | app/rtl8720.c:344-380 | whatever the reader consumes before each byte is decided, that byte is kept exactly when the reader's position at that moment leaves room for it; kept bytes come out whole and in order, and the rest are counted |
| Rings.Ring.Write | app/rtl8720.c:625-669 | what is accepted is a prefix of the buffer, in order; less than all of it exactly if one look more than there was patience for found the ring full |
| Rings.Ring.Refill | app/rtl8720.c:386-405 | what goes to the data register is always the next part of what was accepted |
| Rings.Ring.Used | app/rtl8720.c:578-583 | the masked difference of the indices is the number of bytes held |
| MmapScan.FieldsOfPack | app/psram.c:1023-1029 | the four byte fields of a packed word come back as they went in |
| MmapScan.FieldsOfSetTop | app/psram.c:996-1006 | rewriting the index leaves the other fields alone |
| MmapScan.TestsWhatWasAskedIff | app/psram.c:1015-1021 | an accepted sweep tests the units asked for exactly when its bound does not wrap, and then none is above 127 |
| MmapScan.SoundSweepIsAccepted | app/psram.c:1015-1021 | where the bound does not wrap, a sweep is accepted exactly if every unit it asks for exists |
| MmapScan.WrapIsAccepted | app/psram.c:1015-1021 | arguments that wrap are accepted and start far beyond the last unit |
| MmapScan.Scan.Start | app/psram.c:1015-1038 | the plan is recorded exactly as given when, and only when, it is accepted |
| MmapScan.Scan.Boot | app/psram.c:945-1010 | one boot takes the next untried candidate, or closes the sweep, reading a hang off the record it left |
| MmapScan.Sweep | app/psram.c:945-1039 | one boot per candidate and one more, each candidate tested once and in order, its passed bit set exactly if it passed, hangs and mismatches included |
| Digest.WordSumSplits | app/rtl8720_flash.c:364-387 | at a word boundary the sum of the whole is the sum of the parts |
| Digest.PartialIsLe32 | app/rtl8720_flash.c:364-394 | each word is the little-endian number of its bytes, a short last one filled up with zeros |
| Digest.Accumulator.Add | app/rtl8720_flash.c:373-387 | the carried partial word is exactly the bytes since the last boundary |
| Digest.Accumulator.Value | app/rtl8720_flash.c:389-394 | the value is the little-endian word sum of everything fed, a trailing partial word included |
| Digest.Slices | app/rtl8720_flash.c:373-394 | two slicings of the same bytes digest alike |
| Flasher.BlocksTile | app/rtl8720_flash.c:517-557 | in whole sectors the k-th block carries the k-th kilobyte to its own address under the k-th number, and nothing else |
| Flasher.WorkIsWithin | app/rtl8720_flash.c:581-628 | every erase and every block lies inside the range being programmed |
| Flasher.WorkTiles | app/rtl8720_flash.c:595-628 | the erases cover the range sector by sector and the blocks kilobyte by kilobyte, once and in order |
| Flasher.ShowsOne | app/rtl8720_flash.c:810-860 | the looks of the size probe and their answers leave no choice of what they show |
| Flasher.OpenedIff | app/rtl8720_flash.c:650-687 | a session came up exactly if the last thing the module said of itself was the stub's word, and nothing said on the way could harm the flash |
| Flasher.StubGoesUp | app/rtl8720_flash.c:663-687 | a module that answers the first look with anything but the stub's word is sent the stub from its first byte, each block after the last was acknowledged, and looked at again once all of it, the reopening and the rate were |
| Flasher.WhyNoSession | app/rtl8720_flash.c:650-687 | a session that did not come up ended in a step that was not acknowledged, a look the user broke off, a second look without the stub's word, or a stub of no valid size |
| Flasher.Session.MakeBlock | app/rtl8720_flash.c:531-545 | the packet buffer holds head, number, its complement, address, padded data and checksum |
| Flasher.Session.SendBlocks | app/rtl8720_flash.c:517-557 | what goes out is a prefix of the transfer, each packet as in its buffer and only after the one before it was acknowledged; success exactly when all of it was, failure at the first that was not |
| Flasher.Session.SendSram | app/rtl8720_flash.c:561-570 | the stub goes out as its transfer, each packet after the last was acknowledged, and this path can never reach the flash |
| Flasher.Session.Open | app/rtl8720_flash.c:650-687 | the turns of opening a session are exactly those the answers call for: enter, rate, look, and unless the stub is there or the user gave up, the upload, the reopening, the rate and a second look |
| Flasher.Session.EraseSectors | app/rtl8720_flash.c:609-628 | what goes out is a prefix of the range's erases, each only after the one before it was acknowledged; success exactly when all were |
| Flasher.Session.DetectSize | app/rtl8720_flash.c:810-860 | the capacity is what the module's own answers show: the smallest candidate where the first sector came back, none, blank, or a look that failed |
| Flasher.Session.Program | app/rtl8720_flash.c:937-1024 | for any answers: nothing destructive before all three gates, the third on what the module showed at the candidates; then the work in order, each command only after the last was acknowledged; then harmless commands only; every result code exactly as the answers call for, no session only where opening it had to fail, success if and only if all the work was acknowledged and the module, asked last, gave the word sum of the data |
| Kv.RecordIsInjective | app/kv.c:237-256 | no two values share a record |
| Kv.Pack | app/kv.c:237-256 | the record of exactly these is built, or nothing is written, as the type, lengths and contents allow |
| Kv.Unpack | app/kv.c:270-311 | exactly the records are accepted, what comes out packs back to the input, and no subtraction is of a smaller number |
| Kv.PackThenUnpack | app/kv.c:237-311 | what was packed is what is unpacked |
| Kv.UnpackThenPack | app/kv.c:237-311 | what was unpacked packs to the same bytes exactly when its description holds no NUL |
| Kv.NulIsLost | app/kv.c:237-311 | a record with a NUL in its description, and what it packs to instead |
| Slip.BodyHasNoEnd | app/rtl8720_flash.c:122-145 | the encoded body contains no bare delimiter |
| Slip.Codes | app/rtl8720_flash.c:122-145 | the delimiter goes as DB DC, the escape as DB DD and every other byte as itself, as RFC 1055 has it |
| Slip.Escapes | app/rtl8720_flash.c:160-166 | an escaped DC is the delimiter, an escaped DD the escape, and any other escaped byte itself |
| Slip.RoundTrip | app/rtl8720_flash.c:122-172 | decoding undoes encoding for everything that fits, after any noise without a delimiter and whatever follows |
| Slip.Encode | app/rtl8720_flash.c:122-145 | the encoding, or a refusal exactly when it does not fit |
| Slip.DecodeFrame | app/rtl8720_flash.c:148-172 | the decoder's loop computes the decoding machine and never exceeds its buffer |
| Tiling.AcceptedIffNoWrap | app/nn_camera.c:562-567 | the tiling check accepts exactly the heights for which its own 32-bit arithmetic does not wrap |
| Tiling.HeightsNeverWrap | app/nn_camera.c:562-567 | no height that a tensor descriptor can hold makes it wrap |
| Tiling.NoWrap | app/nn_camera.c:144-149 | for those the 32-bit bounds are the true ones |
| Tiling.InBandIff | app/nn_camera.c:127-142 | an output row is in a band's share exactly when its source row is in the band |
| Tiling.BandsPartition | app/nn_camera.c:127-149 | the four shares partition the output rows, for every height |
| Tiling.SamplesInProportion | app/nn_camera.c:188-196 | every output pixel samples the source row and column in proportion, rounded down |
| Tiling.ChannelIsField | app/nn_camera.c:200-204 | a pixel is five bits of red above six of green above five of blue, and each channel is its own field stretched over eight bits |
| Tiling.ChannelsTellPixels | app/nn_camera.c:200-204 | two pixels that agree in all three channels are the same |
| Tiling.SizeCheckIff | app/nn_camera.c:562-567 | the size check means what it says exactly when its product fits 32 bits |
| Tiling.SizeCheckCanWrap | app/nn_camera.c:562-567 | a float tensor of 32768 by 32768, which a descriptor can hold, passes the size check with no bytes at all |
| Tiling.AcceptedShapesFit | app/nn_camera.c:562-567 | a shape that really fits its buffer passes both checks, and everything the sampler computes from it fits 32 bits |
| Tiling.Tensor.Rows | app/nn_camera.c:179-234 | one call writes exactly its rows' elements, each once, from the source pixel the whole frame would give |
| Tiling.Tensor.Frame | app/nn_camera.c:179-234 | the four calls together write every tensor element exactly once, in bounds, with its own source pixel's value |

## Left out

- ErpcTable.Client.BeginCall: does not model the 32-bit wrap of the sequence counter. The body carries the number modulo 2^32 while ErpcTable.Client.Deliver compares it with the whole number, so from call 2^32 on the model matches no reply where the source still does; within it, two live calls never share a number.
- CallRuns.BufferIsSafeAfterReturn: starts at the registration of the waiter. Before it a slot has no owner, and an abandon can free it for another call to reuse (app/erpc.c:1039-1040, app/erpc.c:1231-1236).
- ErpcTable.Client.SendOne: the flush that precedes a send on an idle link is an answer here; what it does to the reader is FrameReader.Reader.StreamReset.
- FrameReader.Reader.RxStep: the pool's answer at each header is arbitrary, and one array stands for whichever buffer it grants; ReaderOnPool says which slot that is. Bytes are read in order and none is lost before the ring; Rings says when one is.
- LinkData.Channel.TxPeek: nothing is said about a detach between peek and pop; the detach ordering rule (app/link_data.h:122-131) excludes it.
- RefCount.MovesKeepInv: a coarse-mutex section takes at most one plain reference at a time, as every command does; generations are unbounded numbers.
- NetOwner.Owner.Entry: NetX, the DHCP client and the telnet console appear only as answers; a consumer other than the owner appears only as a refused attach; asking for the network up tests and sets the state in one step.
- Silence.MonitorIsExact: the rule accepts a stream that was taken away at any time since the attach, as the source does, even if it was opened again.
- Wakeups.NoLostWakeup: the service loop is a relation between states, one step per statement that matters, because its interleavings are the subject; the work inside a pass is any sequence of sends, replies and reads.
- BandStream.Stream.Release: the latch is a flag that anybody may set at any time here; who can set it when is the subject of StreamLatch. Readers' own questions to the camera are not in the history.
- Rings.Ring.Write: a UART closed under the writer ends the call like lost patience does; memory barriers are taken as program order, and index masks as remainders.
- Blob.Receive: nothing is promised if the power fails inside the initial erase, or to a caller who begins a second file; Blob.PayloadIsStreamIff covers the latter.
- MmapScan.Scan.Boot: the register writes before each test, and the watchdog that ends a hang, are the answer the test gives.
- Flasher.Session.Program: of the commands only the block packets are modelled byte for byte; power sequencing, reopening the UART, timeouts and draining appear as answers; that the module does what it acknowledges is not part of it.
- Tiling.Tensor.Frame: normalisation and quantisation of a channel value are a parameter; the frame hand-over between camera and worker is not modelled.
- CtrlCall.Client.Call: the stream flush before a send and the "link is quiet" condition of its callers are not part of it; a tick is one pass of its loop.
- Statistics, diagnostic counters and log lines of every file.
- Key checking and the FlashDB calls of the configuration store; flash read-back and SPI identification of the downloader.
- Timing budgets, register and pin code, clocks, the display and camera drivers, NetX and FlashDB internals.
