# Verified models of an electrical asset monitoring unit

The repository is the firmware of a monitoring unit for switchgear. It talks Modbus/TCP to acquisition
modules, CAN to an I/O board whose firmware it can replace and whose health it watches, stores measurement records
and event files, and has a command line on its console. The modules here model the parts with the most
state, in the form the C code has (lists and queues on the heap, byte buffers, loops that update variables), and
prove what those parts are for.

| module | what it models |
|---|---|
| `Basics` | a few definitions the others share |
| `ModbusList` | the intrusive circular lists: pointer operations refine sequence operations |
| `MbapFraming` | `send_frame` and `recv_frame`: MBAP framing over a byte stream with silences, hang-ups and shutdown |
| `TagQueue` | tagged queuing as a step system over values: conservation, tags, delivery in any order |
| `RxMaster` | the receive thread on the heap; each method makes one `TagQueue` step; from the bytes on the wire to the transaction that holds its answer |
| `ChildPool` | the listener's recycled child buses: an allocator made of lists |
| `FirmwareImage` | how a firmware file becomes CAN frames |
| `FirmwareProtocol` | the stop-and-wait download as interleaved runs of sender, parser, board and lossy bus |
| `FirmwareDelivery` | when a download that ends leaves the board with the file: the exact condition |
| `FirmwareDownload` | the packet loop itself; its history is a run of `FirmwareProtocol` |
| `BoardLiveness` | missed polls, the error latch and the recovery handshake of the I/O board |
| `MeasurementRing` | the rings between a monitoring thread and the console |
| `FileRetention` | the five-entry window of event files |
| `CommandLine` | the in-place tokenizer and the `strtok` under it |
| `SntpFraction` | fractions of a second in the time client |

Methods are proved against functions or sequences (`Step`, `Poll`, `Parse`, `Outcome`, the list contents),
and the lemmas are about those, over every run or every input.

## Where the code and its purpose differ

The model keeps the code as it is. Where a property one would expect does not hold, the exact condition is proved.

- Firmware download: packet 0 waits for `u32MultiPacketSeq` to be 0. That is its value after power-up and after a RESULT
  reply, and it is not set to anything else when a download starts; a RESULT reply may also clear it while packet 0 is
  awaited. So packet 0 can be taken as acknowledged without having arrived. On a bus that loses frames but keeps their
  order, with a board that echoes, `FirstPacketSafeIff` and `DeliveredIff` give these two as the exact conditions; no later
  packet can be lost (`MovedPastIsReceived`), whenever RESULT replies come.
- A file of exactly 7 bytes goes out with a dlc of 7, so its last byte stays behind (`SegmentationRoundTrip`).
- `SeqErrCnt` is not reset when a packet is sent again: the first retry comes after 100 failed checks, each later one
  after a single further check, so a packet is given up after 109 of them (`RetryBounds`).
- The misses the liveness check counts are cumulative: a good poll before the latch is raised does not reset them
  (`ThirdMissRaises`). A poll that probes returns early and neither clears the live ID nor asks for information.
- A cleared live ID is 0 as well, so a board with ID 0 that falls silent is never missed and the error is never raised; any
  other board is reported by the fourth poll of its silence at the latest (`SilenceReportedIff`).
- A cleared retry ID is 0, so a board with ID 0 is re-assigned without having answered (`ReassignNeedsAnswerIff`).
- Framing: a frame broken off by a silence after its header is reported as a shorter frame, not as an error
  (`GapTruncates`), and a frame announcing more than 254 bytes is cut at 260 because the over-length branch
  cannot be reached (`FrameReadIff`, `AcceptByte`).
- A response without payload (length 0) is handled as a minor error although `recv_frame` counts it as a good frame
  (`RxMaster.Bus.ReceiveOnce`).
- With a queue depth of 1 the tag is not looked at (`UntaggedTakesAny`); with tags, a request that stays pending for a
  multiple of 65536 sends takes the answer of a later one, and only then (`AnswerReachesIff`, `StaleTagMisdelivers`).
- The console hands the tokenizer an array of 20 entries for lines of up to 255 characters, and the tokenizer does not know
  its length. An entry is written past the end if and only if `Slots` of the line is over 20 (`MakeArguments`): 21 one-letter
  words, a line of 41 characters, are enough (`LettersOverrunIff`), and lines of at most 40 characters always fit
  (`LinesFitIff`).
- Event file names carry whole seconds. When a name is created again while it is still in the table, table and disk can
  get out of step; `StepDisk` says exactly when.
- In the time client a comment says the conversion of the received fraction could be left out; the code does it, and so
  does the model.

## Model

| member | source | states |
|---|---|---|
| ModbusList.ListHead.constructor | sdk/acq_modbus/modbus_list.h:25-27 | a new head is a well-formed empty list |
| ModbusList.CircularUnique | sdk/acq_modbus/modbus_list.h:16-18 | the pointers of a well-formed list determine its sequence of elements: there is one reading of a heap |
| ModbusList.Neighbours | sdk/acq_modbus/modbus_list.h:16-18 | on a ring `next` and `prev` of every node are its neighbours in the sequence, the wrap-around included |
| ModbusList.NextElement | sdk/acq_modbus/modbus_list.h:193-195 | following `next` from an element gives the following element, or the head after the last one |
| ModbusList.LinkBetween | sdk/acq_modbus/modbus_list.h:35-43 | a node put between two neighbours gives the ring with that node at that place; only three nodes are written |
| ModbusList.UnlinkBetween | sdk/acq_modbus/modbus_list.h:78-82 | joining the neighbours of a node gives the ring without it; only the two neighbours are written |
| ModbusList.ListAdd | sdk/acq_modbus/modbus_list.h:53-56 | the list stays circular and has the new element in front; other lists are unchanged |
| ModbusList.ListAddTail | sdk/acq_modbus/modbus_list.h:66-69 | the list stays circular and has the new element at the end |
| ModbusList.Detach | sdk/acq_modbus/modbus_list.h:102 | exactly the element at `k` leaves, wherever it stands, and it occurs no more |
| ModbusList.ListDel | sdk/acq_modbus/modbus_list.h:89-94 | exactly that element leaves, the order of the rest is kept, and its own pointers are null |
| ModbusList.ListDelInit | sdk/acq_modbus/modbus_list.h:100-104 | exactly that element leaves and is an empty list of its own |
| ModbusList.ListMove | sdk/acq_modbus/modbus_list.h:111-115 | the element leaves its list and is in front of the other; also right when both are the same list |
| ModbusList.ListMoveTail | sdk/acq_modbus/modbus_list.h:122-127 | the same for the end of the list |
| ModbusList.ListEmpty | sdk/acq_modbus/modbus_list.h:133-136 | true if and only if there are no elements |
| ModbusList.SpliceIn | sdk/acq_modbus/modbus_list.h:138-150 | the whole other list, in order, comes before the elements that were there; its head keeps its stale links |
| ModbusList.ListSplice | sdk/acq_modbus/modbus_list.h:157-161 | the same, the empty list included |
| ModbusList.ListSpliceInit | sdk/acq_modbus/modbus_list.h:170-177 | the same, and the other head ends as a well-formed empty list |
| ModbusList.VisitAndAdvance | sdk/acq_modbus/modbus_list.h:211-213 | the saved successor is still the right next element after the visited one has been deleted |
| ModbusList.ForEachSafe | sdk/acq_modbus/modbus_list.h:211-213 | with any set of visited elements deleted on the way, every element is visited once and in order, and exactly the others remain |
| MbapFraming.PutHeader | sdk/acq_modbus/modbus_tcp.c:57-69 | tag, protocol identifier 0 and length are in the six bytes, most significant first; the payload is untouched |
| MbapFraming.SendFrame | sdk/acq_modbus/modbus_tcp.c:37-110 | the bytes of header and payload as on the wire, tag from the counter of a master or from the caller, the counter wrapping at 16 bits, what reached the wire, every return code, and when the bus is invalidated |
| MbapFraming.Receiver.Finished | sdk/acq_modbus/modbus_tcp.c:169-171 | the shutdown flag is sticky: once it is seen it stays |
| MbapFraming.Receiver.AwaitFirst | sdk/acq_modbus/modbus_tcp.c:161-179 | giving up is possible only with a time limit and leaves the input alone; without one the wait skips exactly the silence |
| MbapFraming.ByteStep | sdk/acq_modbus/modbus_tcp.c:217-247 | the comparison with the wrapping 16-bit awaited length holds at exactly the end of a frame with a legal length, so a wrapped length never ends a frame early |
| MbapFraming.AcceptByte | sdk/acq_modbus/modbus_tcp.c:217-247 | a byte is stored at the next place within the first 260, reading goes on exactly until the frame is complete, and the over-length branch is dead |
| MbapFraming.RecvFrame | sdk/acq_modbus/modbus_tcp.c:123-285 | for every stream of bytes, silences and hang-ups and any moment of shutdown it ends; writes stay in the first 260 bytes; the result is 0..254 or one of -16, -20, -21, -111, each with its cause: -20 a first wait that ran out, -21 a shutdown, -111 a hang-up before a frame was complete, which invalidates the bus; a positive one is the number of payload bytes held; without shutdown it is the one the input determines, and no byte behind a complete frame is consumed |
| MbapFraming.FrameReadIff | sdk/acq_modbus/modbus_tcp.c:185-247 | a frame followed by anything is read as itself if and only if its payload has at most 254 bytes |
| MbapFraming.GapTruncates | sdk/acq_modbus/modbus_tcp.c:255-279 | a silence after `n` bytes of a frame gives an error for fewer than 6 bytes and otherwise a frame of `n - 6` bytes |
| MbapFraming.HangupFails | sdk/acq_modbus/modbus_tcp.c:212-216 | a hang-up before the first byte of a frame or anywhere inside it gives -111 |
| MbapFraming.ReadExactly | sdk/acq_modbus/modbus_tcp.c:185-285 | the result for any bytes without a break and whatever follows: what their header asks for up to 254 once enough are there, and before that -111 at a hang-up, and a shorter frame, -16 or 0 at a silence |
| MbapFraming.ReadOne | sdk/acq_modbus/modbus_tcp.c:123-285 | one frame after any silence and before any input is read as its tag and payload, and exactly it is consumed |
| MbapFraming.ReadBack | sdk/acq_modbus/modbus_tcp.c:185-285 | any sequence of frames of 0 to 254 bytes, with silences between them, comes back by as many calls as the same tags and payloads in order, and the rest of the input is untouched |
| MbapFraming.SendAll | sdk/acq_modbus/modbus_tcp.c:52-69 | successive sends write the frames back to back, with tags counting up from the present one modulo 65536 |
| MbapFraming.DecodeWire | sdk/acq_modbus/modbus_tcp.c:60-69 | a reader that follows section 3.1.3 of the standard and rejects any protocol identifier but 0 finds exactly the messages written, in order |
| MbapFraming.WireSnoc | sdk/acq_modbus/modbus_tcp.c:85 | one more frame is appended to the wire behind all earlier ones |
| MbapFraming.StreamCarriesWire | sdk/acq_modbus/modbus_tcp.c:66-85 | an input of frames with silences only between them carries exactly the bytes the sender wrote: sending and reading back fit together |
| TagQueue.StepInv | sdk/acq_modbus/Acq.c:221-266 | every step keeps `tcq_pending` equal to the length of the queue, and the queue in sending order with the tag each send got |
| TagQueue.StepConserves | sdk/acq_modbus/Acq.c:249-266 | every step keeps the requests in queue, delivered and failed, taken together, exactly the requests sent |
| TagQueue.RunConserves | sdk/acq_modbus/Acq.c:249-266 | over every run `tcq_pending` is the length of the queue and every request sent is in exactly one place, once |
| TagQueue.EveryRunConserves | sdk/acq_modbus/Acq.c:249-266 | the same for every run from the start, with any queue depth and first tag |
| TagQueue.TagsDiffer | sdk/acq_modbus/modbus_tcp.c:57-63 | two sends fewer than 65536 apart have different tags |
| TagQueue.WindowedTagsDistinct | sdk/acq_modbus/modbus_tcp.c:57-63 | while every pending request is among the last 65536 sends the pending tags are pairwise distinct |
| TagQueue.DeliveryIffDistinct | sdk/acq_modbus/Acq.c:227-239 | every possible answer reaches its own request and only moves that one if and only if the pending tags are distinct |
| TagQueue.DeliverNext | sdk/acq_modbus/Acq.c:227-266 | inside the window an answer moves exactly its own request to the delivered ones and the window is kept |
| TagQueue.AnyOrder | sdk/acq_modbus/Acq.c:221-266 | answers to the pending requests in any order are each delivered to the request with that tag, and none stays pending |
| TagQueue.AnswerReachesIff | sdk/acq_modbus/Acq.c:227-239 | in every reachable state the answer to a pending request reaches it if and only if no request still pending was sent a multiple of 65536 sends before it |
| TagQueue.StaleTagMisdelivers | sdk/acq_modbus/Acq.c:227-239 | in a run where one request stays pending and `n` later ones are answered, the answer to the next goes to the old one if and only if it is the 65536th after it: the window cannot be wider |
| TagQueue.UnmatchedChangesNothing | sdk/acq_modbus/Acq.c:268-275 | on the tagged path a response changes nothing if and only if its tag is not pending |
| TagQueue.UntaggedTakesAny | sdk/acq_modbus/Acq.c:241-247 | the only request on an untagged bus is given whatever comes; this agrees with a search by tag if and only if the tag is its own |
| RxMaster.Bus.FindTransaction | sdk/acq_modbus/Acq.c:221-247 | the list walk and the untagged shortcut find the first pending transaction with the tag, or the only one; never the list head, and none exactly when there is none |
| RxMaster.Bus.Answer | sdk/acq_modbus/Acq.c:249-263 | the latch is lowered and dropped, the response with header and checksum room is copied inside its buffer, and all other transactions keep their latches and responses |
| RxMaster.Bus.Requeue | sdk/acq_modbus/Acq.c:254-266 | one transaction goes from the pending to the end of the delivered list, both stay circular and apart, and the count drops by one |
| RxMaster.Bus.Deliver | sdk/acq_modbus/Acq.c:249-266 | the heap makes the reply step of `TagQueue` for this transaction and its latch, with no other transaction moved |
| RxMaster.Bus.HandleResponse | sdk/acq_modbus/Acq.c:210-275 | a response moves at most one transaction, the one its tag picks, and an unmatched one leaves the whole heap unchanged |
| RxMaster.Bus.ReceiveOnce | sdk/acq_modbus/Acq.c:168-277 | one turn of the loop: shutdown, -16 and 0 change nothing, -111, so every hang-up inside or before a frame, empties the pending queue, and a response makes one delivery step; on an undisturbed link result, buffer and remaining input are those the arriving bytes determine |
| RxMaster.Bus.ReceiveFrame | sdk/acq_modbus/Acq.c:168-277 | a whole frame with a payload, after any silence and before any input, makes the delivery step for its tag with exactly its bytes |
| RxMaster.Bus.ServeNext | sdk/acq_modbus/Acq.c:168-277 | inside the window one frame with a pending tag moves exactly the transaction with that tag, with that frame as its response |
| RxMaster.Bus.ServeAll | sdk/acq_modbus/Acq.c:168-277 | end to end: when the answers to all pending requests arrive as frames in any order, with silences between them, as many turns leave nothing pending, every transaction holds the frame with its own tag, and the rest of the input is untouched |
| RxMaster.Bus.Enqueue | sdk/acq_modbus/modbus_tcp.c:57-63 | assumed of the transmitting side: the present tag in the first two bytes, a raised latch, append and count together keep the invariant and make the send step |
| RxMaster.Bus.ClearPendQ | sdk/acq_modbus/Acq.c:177-186 | assumed of `clear_pend_q`: the latches of all pending transactions are lowered and dropped and they are uncounted, the delivered ones stay |
| ChildPool.Heap.OnExactlyOneList | sdk/acq_modbus/modbus_tcp.c:834-945 | in every valid state an allocated child is on the list it is placed on, exactly once, and on no other, and `child_head` is its own hook |
| ChildPool.Heap.NewListener | sdk/acq_modbus/modbus_tcp.c:785-825 | a new listener with an empty list of its own joins; all other lists and children stay as they were |
| ChildPool.Heap.Put | sdk/acq_modbus/modbus_tcp.c:672 | a held child goes to the end of one list; every other list stays well formed and unchanged |
| ChildPool.Heap.Take | sdk/acq_modbus/modbus_tcp.c:678-684 | exactly this child leaves the list and is held; every other list stays well formed and unchanged |
| ChildPool.Heap.GetChild | sdk/acq_modbus/modbus_tcp.c:899-926 | the child is recycled from the front of the pool, or new if and only if the pool is empty; no other child moves |
| ChildPool.Heap.FreeChild | sdk/acq_modbus/modbus_tcp.c:930-945 | the child goes to the end of the pool |
| ChildPool.Heap.NewChild | sdk/acq_modbus/modbus_tcp.c:949-1000 | a child with its mother and socket, its `child_head` right although it may be recycled; on failure exactly the child taken is gone; no other child is touched |
| ChildPool.Heap.AddChild | sdk/acq_modbus/modbus_tcp.c:668-674 | the child goes from its creator to the end of its mother's list |
| ChildPool.Heap.ChildDtor | sdk/acq_modbus/modbus_tcp.c:834-844 | through `child_head` exactly this child goes from its mother's list to the end of the pool |
| ChildPool.Heap.CloseFirst | sdk/acq_modbus/modbus_tcp.c:657-658 | the first child of the listener, and no other, is closed and in the pool |
| ChildPool.Heap.InvalServer | sdk/acq_modbus/modbus_tcp.c:643-664 | closing all children ends; the listener's list is empty, all of them are closed and back in the pool in order, and no other child has moved |
| ChildPool.Heap.Accept | sdk/acq_modbus/modbus_tcp.c:734-754 | an accepted socket is served by a child with that socket and mother, not finished, at the end of the listener's list, or by none if it could not be made; only a child of the pool is used again, and all others keep list, mother, socket and state |
| ChildPool.Heap.AcceptAll | sdk/acq_modbus/modbus_tcp.c:710-755 | the `i`-th new child on the list serves the `i`-th socket; children outside the pool keep everything; the pool is drawn on first, and nothing is allocated while it lasts |
| ChildPool.Heap.Recycle | sdk/acq_modbus/modbus_tcp.c:643-945 | after a listener's sessions and their closing, as many sessions again, on any listener, allocate no child, and each serves its own socket; the children of third listeners keep everything |
| FirmwareImage.IoCanTx | sdk/src/IO_CanSocket.c:83-127 | the frame carries the requested number of bytes, at most eight: those of the buffer, or zeros without one |
| FirmwareImage.SeqOfStep | sdk/src/IOManager.c:531-532 | the update of the sequence number runs 0..255 and then 1..255 over and over, and neighbouring packets differ |
| FirmwareImage.SeqOfIs | sdk/src/IOManager.c:531-532 | packet `k` up to 255 is numbered `k`; from 1 on two packets share a number if and only if they are a multiple of 255 apart; only packet 0 has 0 |
| FirmwareImage.PacketCountIsCeiling | sdk/src/IOManager.c:396-398 | the number of packets is the file size over seven, rounded up, and nothing else |
| FirmwareImage.PacketPayload | sdk/src/IOManager.c:469-488 | packet `i` starts with its sequence number, carries the `i`-th stretch of the file, and uses the FINISH command if and only if it is the last |
| FirmwareImage.PacketOnWire | sdk/src/IOManager.c:465-488 | the CAN identifier is 0x26F for the last packet and 0x24F for the others, the first byte is the number, and at least one byte follows |
| FirmwareImage.PrefixPayloads | sdk/src/IOManager.c:469-488 | the first `i` packets together carry exactly a prefix of the file, with its length |
| FirmwareImage.SegmentationRoundTrip | sdk/src/IOManager.c:469-488 | the data of all frames put together is the file if and only if the file does not have seven bytes |
| FirmwareProtocol.SenderInv | sdk/src/IOManager.c:486-533 | a step of the sender keeps the invariant, and it moves past a packet only when that packet is the board's latest, or a stale 0 stood for packet 0 |
| FirmwareProtocol.EnvInv | sdk/src/IOManager.c:680-704 | losses, receptions, acknowledgements and RESULT replies at any time keep the invariant |
| FirmwareProtocol.RunInv | sdk/src/IOManager.c:469-533 | in every state of every run last acknowledgement, echoes, last reception and frames under way ascend and span the current packet and the one before |
| FirmwareProtocol.MovedPastIsReceived | sdk/src/IOManager.c:494-532 | in every run over lossy channels, RESULT replies included, the sender moves past packet `n` only after the board has received it, except packet 0 when the mailbox was 0 or was cleared before the first echo |
| FirmwareProtocol.CollapsedInOrder | sdk/src/IOManager.c:469-533 | what the board received, with adjacent equal sequence bytes collapsed, is a gapless ascending stretch of the packets although sequence numbers wrap |
| FirmwareProtocol.FinishedHasAllPackets | sdk/src/IOManager.c:469-533 | when the sender is through, the board has every packet once and in order, but for packet 0 after a stale 0 |
| FirmwareProtocol.DownloadDelivers | sdk/src/IOManager.c:469-533 | a finished download without a stale 0 leaves the board with the file if and only if it does not have seven bytes |
| FirmwareProtocol.FirstPacketSafeIff | sdk/src/IOManager.c:494 | no run moves past packet 0 without its arrival if and only if the mailbox does not hold 0 at the start and no RESULT reply may be handled before the first echo |
| FirmwareProtocol.StaleRun | sdk/src/IOManager.c:703-704 | from either cause there is a run that is past packet 0 while the board has nothing |
| FirmwareProtocol.SenderBudget | sdk/src/IOManager.c:494-533 | every step of the sender lowers a bounded measure and keeps the relation of checks, retries and transmissions |
| FirmwareProtocol.RetryBounds | sdk/src/IOManager.c:486-533 | whatever anyone else does to mailbox and bus, the sender gives up if and only if 109 checks have failed, and then after 10 transmissions; it retransmits only after 100 failed checks and one more each time; at most 10 frames per packet are sent in all, and the loop is left after at most 120 sender steps per packet |
| FirmwareProtocol.RunIsAnyRun | sdk/src/IOManager.c:486-533 | the runs with an echoing board on an ordered bus are among those the bounds are about |
| FirmwareProtocol.FramesCounted | sdk/src/IOManager.c:488 | in every run the frames received and those under way are no more than the transmissions counted |
| FirmwareDelivery.LosslessRun | sdk/src/IOManager.c:469-533 | from every mailbox some run ends with each packet sent and received exactly once, so the results about finished downloads are about something |
| FirmwareDelivery.NineLostRun | sdk/src/IOManager.c:494-507 | whatever packet it is, there is a run in which its first nine transmissions are lost and which still finishes, with nine frames more |
| FirmwareDelivery.TenLostRun | sdk/src/IOManager.c:505-522 | there is a run in which ten transmissions of one packet are lost and which is given up |
| FirmwareDelivery.StaleFinish | sdk/src/IOManager.c:494 | from a mailbox holding 0, or with an early RESULT reply, some run ends without the board ever having had packet 0 |
| FirmwareDelivery.MissingFirst | sdk/src/IOManager.c:469-533 | a board without packet 0 does not have the file when the download is finished |
| FirmwareDelivery.DeliveredIff | sdk/src/IOManager.c:469-533 | every finished download of a nonempty file leaves the board with it if and only if the mailbox did not hold 0, no RESULT reply may be handled before the first echo, and the file does not have seven bytes |
| FirmwareDownload.Bus.Elapse | sdk/src/IOManager.c:680-704 | whatever happens to mailbox and bus between two statements of the sender leaves the sender's variables alone; what a trusted environment does extends the run of the protocol |
| FirmwareDownload.SendOne | sdk/src/IOManager.c:486-533 | the two labels and their jumps make sender steps of the protocol only, and end acknowledged with both counters cleared, or given up after 10 transmissions and 109 failed checks |
| FirmwareDownload.PacketLoop | sdk/src/IOManager.c:464-534 | the packets built in the loop's buffer are those of the image, in order, and all the loop does are sender steps |
| FirmwareDownload.SendPackets | sdk/src/IOManager.c:464-534 | against any environment at most 10 frames per packet are sent, and it gives up only after 10 transmissions and 109 failed checks; against a trusted one the history is a run of the protocol, no more frames are on the bus or received than were sent, whatever was moved past has arrived, and the board has the file at the end, each with its exact exceptions |
| BoardLiveness.IoManager.LiveCheck | sdk/src/IOManager.c:249-368 | a poll happens exactly when the timer has run and no download is under way; otherwise only the timer changes |
| BoardLiveness.IoManager.PollBoard | sdk/src/IOManager.c:269-361 | the new state and the frames sent are those of the step function the run lemmas are about |
| BoardLiveness.IoManager.JudgeBoard | sdk/src/IOManager.c:273-309 | the latch, error ID and counters are updated together, and whether the poll was missed |
| BoardLiveness.IoManager.LiveIdAdd | sdk/src/IOManager.c:234-246 | only the live ID changes, to the board that answered |
| BoardLiveness.IoManager.BoardCheckReply | sdk/src/IOManager.c:575-582 | an answer to a probe is recorded, and counted modulo 256, only while a retry is open |
| BoardLiveness.PollConsistent | sdk/src/IOManager.c:269-361 | a poll keeps latch, shared flag, error ID, its count, the 8-bit counters, the retry and the live ID what the past observations say |
| BoardLiveness.RunConsistent | sdk/src/IOManager.c:273-347 | in every reachable state all of these agree with the history, the wrap of the counters included |
| BoardLiveness.LatchOverRuns | sdk/src/IOManager.c:273-309 | over every run a poll is missed exactly if the board heard last is another one or none; the error is raised exactly at the third missed poll since start or last release, and released exactly at the first good poll after that |
| BoardLiveness.ThirdMissRaises | sdk/src/IOManager.c:273-309 | counted on the polls themselves: since the start or the last release the error is raised by the third missed poll and nothing else, however many good polls lie between |
| BoardLiveness.GoodPollReleases | sdk/src/IOManager.c:279-293 | a raised error is released by the first good poll and nothing else |
| BoardLiveness.ErrorShows | sdk/src/IOManager.c:279-309 | latch, error ID and error count are 255, the board's ID and 1 while the error is raised, and 0 otherwise |
| BoardLiveness.MissesAreCounted | sdk/src/IOManager.c:311-316 | the wait counter is the number of missed polls modulo 5, and a retry is open exactly in every second five of them |
| BoardLiveness.ReplyDecides | sdk/src/IOManager.c:273-277 | a poll that follows a reply is missed exactly if another board replied |
| BoardLiveness.SilenceCounts | sdk/src/IOManager.c:273-309 | whatever came before, in a silence every poll after the first counts as missed for a board whose ID is not 0 |
| BoardLiveness.SilenceUnnoticed | sdk/src/IOManager.c:273-352 | board 0, silent from the start, is never missed |
| BoardLiveness.SilenceReportedIff | sdk/src/IOManager.c:273-352 | a board that falls silent at any time has its error raised by the fourth poll at the latest, over every run, if and only if its ID is not 0 |
| BoardLiveness.RecoveryOverRuns | sdk/src/IOManager.c:311-361 | counted in missed polls, every fifth one alternately probes or closes the retry, a closing poll re-assigns exactly if the answer that counts is the board's own, and the frames of each poll are these in this order |
| BoardLiveness.AnswerFollowsProbe | sdk/src/IOManager.c:316-331 | an answer that counts and is not 0 came after the latest probe |
| BoardLiveness.AnswerDecides | sdk/src/IOManager.c:325-345 | with no other answer and no probe after it, the last answer while a retry is open makes the closing poll, and only that, re-assign exactly if it was the board's |
| BoardLiveness.ReassignUnanswered | sdk/src/IOManager.c:325-345 | arbitrarily long runs, with any other board answering the polls, in which board 0 is re-assigned although nothing ever answered a probe |
| BoardLiveness.ReassignNeedsAnswerIff | sdk/src/IOManager.c:325-345 | over every run a re-assignment is sent only if the board answered after the latest probe, if and only if its ID is not 0 |
| MeasurementRing.Ring.constructor | sdk/src/GISMonitoring.c:42-59 | a new ring is valid whatever its memory holds |
| MeasurementRing.NewAcqRing | sdk/src/GISMonitoring.c:42-59 | a valid ring of 100 slots |
| MeasurementRing.NewPdRing | sdk/src/PDMonitoring.c:76-93 | a valid ring of 60 slots |
| MeasurementRing.ModuloNext | sdk/src/GISMonitoring.c:202-204 | increment and wrap keep the index equal to the number of writes modulo the list size |
| MeasurementRing.Ring.IndicesBounded | sdk/src/PDMonitoring.c:276-278 | write and read index stay below the list size, whichever it is |
| MeasurementRing.HoldsRecordIff | sdk/src/GISMonitoring.c:193-204 | after `w` writes the slot of record `r` holds record `r` if and only if `r < w <= r + n` |
| MeasurementRing.Ring.Write | sdk/src/GISMonitoring.c:189-204 | afterwards every slot still holds the newest record of its residue with its own checksum |
| MeasurementRing.Ring.Read | sdk/src/ConsoleManager.c:1180-1207 | a slot that was written is shown with a good checksum; while the reader is behind by at least one and at most one round the `k`-th read returns record `k`, so reads are first in, first out |
| FileRetention.Device.Remember | sdk/src/GISMonitoring.c:224-248 | the table keeps its order, the new name is last, and the oldest drops out exactly when it was full |
| FileRetention.StepTable | sdk/src/GISMonitoring.c:224-248 | the table after a creation is again exactly the last five names |
| FileRetention.StepDisk | sdk/src/GISMonitoring.c:224-248 | the files on the disk still match the table if and only if the displaced name does not stand in it a second time, or is the new name |
| FileRetention.OldestIsUnique | sdk/src/GISMonitoring.c:221-226 | with distinct names the displaced one stands in the table once |
| FileRetention.Device.CreateDat | sdk/src/GISMonitoring.c:208-260 | table and files after a creation, whatever remove() and fopen() do, and exactly when they stay in step |
| FileRetention.Device.CreateAll | sdk/src/GISMonitoring.c:208-260 | for every sequence of creations with distinct names the files kept are exactly those of the last five names |
| CommandLine.StrTok.Next | sdk/src/ConsoleManager.c:474-510 | strtok: where the token starts, which single character is overwritten, and where the next call goes on |
| CommandLine.Restore | sdk/src/ConsoleManager.c:501 | from a position on the buffer is the line again, and nothing before it is written |
| CommandLine.FindQuote | sdk/src/ConsoleManager.c:502 | the position of the next quote, or none if and only if there is none |
| CommandLine.TakeQuoted | sdk/src/ConsoleManager.c:484-506 | restoring and splitting again at quotes gives the quoted token, earlier tokens survive, and failure means the line is invalid |
| CommandLine.TakePlain | sdk/src/ConsoleManager.c:507-511 | the current token is done and the next one cut off; earlier tokens survive |
| CommandLine.MakeArguments | sdk/src/ConsoleManager.c:465-515 | an entry past the array is written if and only if the line needs more entries than it has; otherwise -1 if and only if the line is invalid, and if not the arguments point at exactly the tokens, each terminated in the buffer, and str_TokenParm1 is the line from the second token on |
| CommandLine.SlotsAreTokens | sdk/src/ConsoleManager.c:475-512 | a valid line needs as many entries as it has tokens, or one more |
| CommandLine.LinesFitIff | sdk/src/ConsoleManager.c:551-564 | the console's 20 entries are enough for every line of `n` characters if and only if `n` is at most 40 |
| CommandLine.LettersOverrunIff | sdk/src/ConsoleManager.c:551-564 | `n` one-letter words overrun the console's array if and only if `n > 20`, and the console takes such a line if and only if `n <= 128` |
| CommandLine.PlainWord | sdk/src/ConsoleManager.c:507-511 | a word without delimiters is read as one token wherever it stands in a line |
| CommandLine.QuotedWord | sdk/src/ConsoleManager.c:484-506 | a quoted word is read as one token without its quotes wherever it stands in a line |
| CommandLine.ParseSpread | sdk/src/ConsoleManager.c:465-515 | typed words are read as just these tokens however they are separated and whatever precedes and follows them, and reading goes on behind them |
| CommandLine.TokenizeUndoesPrint | sdk/src/ConsoleManager.c:465-515 | any list of nonempty words without quotes, in quotes when they contain a blank, return or newline, and separated by any nonempty run of these three, has exactly these words as its tokens and needs as many entries |
| CommandLine.UnclosedIsInvalid | sdk/src/ConsoleManager.c:498-504 | a quote that is not closed makes the line invalid, whatever words precede it |
| CommandLine.EmptyQuotes | sdk/src/ConsoleManager.c:498-504 | two quotes with nothing in them at the end of a line are no token but take an entry |
| CommandLine.ParseTokenizes | sdk/src/ConsoleManager.c:465-515 | of every line: tokens come one after the other; each is either free of quotes between quotes or free of blanks, returns and newlines between these; every other character is in one |
| CommandLine.QuotedWordIff | sdk/src/ConsoleManager.c:484-506 | a word put in quotes is read back if and only if it is not empty and contains no quote |
| CommandLine.TokenizePrinted | sdk/src/ConsoleManager.c:465-515 | the same in the buffer, for words separated in any of these ways: unless there are more words than entries there are as many arguments as words, each pointing at its word |
| SntpFraction.RoundTripIff | sdk/src/TimeSyncModule.c:101-103 | encoding and decoding microseconds is the identity exactly up to 999992 |
| SntpFraction.DecodeError | sdk/src/TimeSyncModule.c:168-169 | every 32-bit fraction decodes to at most 999992, never above the exact value and at most 8 below it |
| SntpFraction.DecodeErrorIsSharp | sdk/src/TimeSyncModule.c:168-169 | the error of 8 occurs |

## Left out

- RxMaster.Bus.Enqueue: the transmit thread is not part of the sources; tag, latch, append and count are assumed, and with them that every pending transaction waits behind a latch of its own. The sources also have one such flag per bus (Acq.h:193); transactions that share a latch are not modelled.
- RxMaster.Bus.ClearPendQ: `clear_pend_q` is not part of the sources; that it unlinks, unlatches and uncounts every pending transaction is assumed. The same holds for `_q_trans` (`RxMaster.Bus.Append`: it appends) and for the expiry of requests (`TagQueue.Expire`).
- RxMaster.Bus.ReceiveOnce: mutexes, the condition variable, the sleep and `modbus_reopen` are not modelled; a turn of the loop is atomic towards the other threads. The embedded request and response buffers are sequences of bytes. The response is copied before the transaction is unlinked, not after.
- ChildPool.Heap.CloseChild: `modbus_close` is not part of the sources; that it closes the socket, finishes the bus and ends in the destructor is assumed.
- ChildPool.Heap.Accept: accept(), a listener shutting down or reopening, and `modbus_open` are not modelled.
- ChildPool.Heap.NewChild: `modbus_create` is only an outcome and assumed to leave hook and `child_head` alone; callbacks, addresses and timeouts copied from the mother are omitted, and so is a failing malloc, after which the code would write through a null result.
- MbapFraming.RecvFrame: select() and recv() are their outcomes (a byte, a silence longer than the frame break timeout, a hang-up); a failed select() inside a frame counts as a silence. Without shutdown the result is determined; with it only its range, the cause of each error code, the buffer contents for a positive result and the consumed input are.
- MbapFraming.SendFrame: send() is its return value.
- FirmwareDownload.SendPackets: a trusted environment has no frames of an earlier download under way at the start; the handshake before the loop (IOManager.c:402-460), the STOP command after giving up, and `s8UpdatCheckFlag` are not modelled, and the frame is built and sent as one step of the sender.
- FirmwareProtocol.RunInv: that the board echoes the first data byte, and that each direction of the bus loses frames but keeps their order and makes no copies, is assumed; the bounds of `RetryBounds` are proved without it.
- FirmwareImage.SegmentationRoundTrip: the last copy takes seven bytes even when fewer are left, so the source buffer is modelled with the bytes behind the file, whatever they are.
- BoardLiveness.IoManager.PollBoard: the time put into the request frame is not modelled; a frame is its kind only.
- BoardLiveness.RunConsistent: events are polls and the two kinds of replies; a board that is assigned anew (IOM_Init) starts a new run.
- MeasurementRing.Ring.Write: writer and console run in different threads without a lock; here each write and each read is one atomic step, so a record torn between the two is not modelled. A record is one value and CalculateCRC a parameter, with CheckCRC comparing for equality; the time list and the intermediate buffers beside the ring are merged with the slot, and the two memory layouts with one array.
- FileRetention.Device.CreateDat: names come from outside (clock and formatting are not modelled) and a file is its name; one device at a time.
- CommandLine.MakeArguments: what happens after an entry has been written past the array is undefined, and the model stops there; str_TokenParm1 is a result.
- SntpFraction.RoundTripIff: arithmetic is taken as unsigned 32-bit; on the signed operands of the code the product can overflow.
- Connecting, listening, host lookup, and the older copy of the library in acq_code_modbus.
- The other replies of IOM_Parser, digital inputs and outputs, and CAN socket set-up.
- The database, settings, GPIO, watchdog and shared memory: thin wrappers over foreign calls.
- Console tables, help, command lookup and line editing; bushing and sample arithmetic; cidcsvmanager.c.
