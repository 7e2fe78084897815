# The reliable-delivery core of a Google-QUIC server transport

This project models how the transport delivers stream data, and proves properties of the model over every input
and every run. The model covers:

- the sending side: streams give data to a framer, a packer puts it into packets, the handler of sent packets
  tracks them, and an ACK frame or a timeout acknowledges them or sends them back through the framer, where frames
  may be split;
- the receiving side: packets are registered, their numbers are kept as ranges, and stream frames are reassembled
  from a list of gaps and a map of frames;
- the codecs between the two: ACK frames (blocks, long gaps, truncation), STREAM frames, STOP_WAITING frames,
  16-bit floats, truncated packet numbers, and whole packets;
- flow control, and the map of streams with its scheduler and its memory of closed streams.

The main results are:

- **End to end** (`EndToEnd`, `Delivery`, `PeerReads`): two endpoints over a network that loses, reorders and duplicates
  packets, with every packet read as the parser reads it. If nothing is written behind a FIN and no packet arrives with an
  empty frame inside, everything that is acknowledged was received, readers get a prefix of what was written, and all of
  it when they get EOF (`EndToEnd.PlainAckedWasReceived`, `Delivery.PlainDelivery`). The exact conditions: a packet
  arrives *clean* if it is read as it was sent, or if the frame that swallows the rest of it is dropped as a duplicate.
  If nothing is written to a stream when its FIN was sent, the receiver has nothing but what was written if and only if
  every packet arrived clean (`Delivery.WrittenIffClean`). In clean runs,
  what the peer's readers got is a prefix of what was written, and a reader that gets EOF has got all that was written
  when the FIN was sent. If, besides, every frame gets through to the sorter, every byte and FIN of a packet that was
  acknowledged at the sender has been accepted by the peer's sorter; exactly when a frame gets through is
  `EndToEnd.FrameGotIff`. The runs that fail are reachable (`EndToEndRun`). The network may deliver any ACK frame that
  acknowledges only registered packets; the frames the receiver builds are of this kind (`ReceivedPacketHandlers`), and so
  is what is left of them after writing and parsing (`AckFrameWriter.ReceivedAcksLess`).
- **Conservation** (`SenderData`, `Sessions`): in every run of a sender, every byte and FIN that was taken from a stream
  is in exactly one of the packets in flight, the packets queued for retransmission, the framer's queue and the
  acknowledged packets. The objects of the session follow this reference step by step, and a pass through the sending
  loop fails only for a nonce of the wrong length or an ACK frame that cannot be written.
- **Flow control** (`SendFlow`, `FlowControl`, `ReceiveStreams`): in every run of framer and controllers, with
  WINDOW_UPDATE frames and retransmissions, what was taken from a stream is what its controller counted and stays within
  the largest window that was in force, and so for the connection; the session's methods are steps of these runs. The
  receiver's controllers bound what waits to be read.
- **ACK frames** (`AckFrameParser`, `AckFrameWire`, `AckFrameWriter`): parsing with wrapping 64-bit arithmetic accepts
  exactly what unbounded arithmetic accepts. A byte string is accepted if and only if it is laid out by fields that meet a
  stated condition, and the frame then acknowledges exactly the packets that the blocks describe; cut off anywhere, it is
  refused. What is written reads back as the longest prefix of ranges that fits.
- **Passes through the sending loop** (`Passes`, `Filling`, `PacketPackers`): control frames are conserved one by one, an
  ACK frame that fits travels, a packet with lost data starts with a STOP_WAITING frame, and a packet with room to spare
  leaves nothing behind that flow control would allow. Nothing is sent exactly if there is nothing but a STOP_WAITING
  frame and an ACK frame that may not travel alone. BLOCKED frames report exactly the windows that were used up.
- **Whole packets** (`PacketPackers`, `PacketUnpackers`): no packet is larger than the largest size; what the peer reads
  of it, and that this is what was written exactly when no stream frame in front of another frame is empty.
- **Acknowledging** (`SentPackets`, `SenderAcks`, `SentPacketHandlers`): exactly which ACK frames are taken in, and that
  those remove exactly the acknowledged packets and give every other one up to the largest one missing report. Over whole
  runs: they come from packets with rising numbers, each gives a packet at most one report, no number that was left out
  is acknowledged, and what STOP_WAITING frames give up was acknowledged, lost or reported.
- **Reassembly** (`StreamFrameSorters`), **received packets** (`ReceivedPacketHistories`, `ReceivedPacketHandlers`),
  **STOP_WAITING over runs** (`SenderNumbers`), **packet numbers** (`PacketNumbers`), **public headers**
  (`PublicHeaders`), **scheduling and closed streams** (`StreamsMaps`), **floats** (`Ufloat16`).

Each class is proved against a value: `StreamFrameSorter` against `Assembly`, `SentPacketHandler` against `Handler`, the
framer against `Framer`, the packer against `Materials`, the session against `Snapshot`. Statements about runs are made
about the values. `dafny verify dfyconfig.toml` checks the project.

## Where the code does something unexpected

- An empty STREAM frame with a FIN that states its length is read as "the rest of the packet"
  (frames/stream_frame.go:67-70), and the framer can put such a frame in front of another one
  (`PacketUnpackers.EmptyInsideHappens`). In `EndToEndRun.FinSwallowsByte` this makes a reader get bytes that were never
  written to its stream, and a byte is acknowledged that was not received. `Delivery.ArrivalIff` and
  `Delivery.WrittenIffClean` say exactly when it does harm.
- A stream can be written to when its FIN was sent. The sorter keeps one frame for each offset, so data that starts where
  a FIN without data waits is taken for a duplicate: in `EndToEndRun.LateByteIsLost` it is acknowledged but was not
  received. `Receivers.PushGotIff` says exactly when a frame is lost in this way.
- Writing an ACK frame fails when its first gap is longer than 254 blocks of 255 (`AckFrameWriter.Write`).
- A STOP_WAITING frame counts as announced when it is asked for. If the pass ends without a packet, because the ACK frame
  beside it may not travel alone, the announcement is dropped and not repeated with the next ACK frame
  (`Passes.AnnouncementDropped`); `Passes.AnnouncedIsSentIff` says exactly when.
- The generator of packet numbers never skips a number: its first skip is only drawn after a skip
  (`PacketNumberGenerators.PacketNumberGenerator.Pop`). The results about packet numbers hold for any generator that
  leaves out at most one number between two packets.
- A closed stream of the client can be opened again exactly when it was collected and lies MaxNewStreamIDDelta behind the
  highest one (`StreamsMaps.StreamsMap.GetOrOpenStream`), which happens (`StreamsMaps.ReopenedStream`).
- A closed stream 1 or 3 that was not collected yet keeps the scheduler from visiting any other stream
  (`StreamsMaps.StreamsMap.RoundRobinIterate`).
- A first WINDOW_UPDATE can announce less than the negotiated window, and leave more sent than the window allows
  (`FlowControl.Controller.ShrinksIff`).
- A frame whose end passes 2^64 - 1 is compared by its wrapped end, by flow control and by the sorter. It is dropped as a
  duplicate unless nothing was received between its wrapped end and its offset; then the gap list no longer describes
  what was received (`StreamFrameSorters.StreamFrameSorter.Push`, `StreamFrameSorters.SpannedIff`).
- A push that runs into the limit on gaps has changed the gap list (`StreamFrameSorters.StreamFrameSorter.Push`); the
  session is closed then.

## Model

| member | source | states |
|---|---|---|
| `EndToEnd.PlainAckedWasReceived` | session.go:262-311 | in every run in which nothing is written behind a FIN and no packet arrives with an empty frame inside, every stream frame of an acknowledged packet was received, FIN included |
| `Delivery.PlainDelivery` | stream.go:62-130 | in every such run, readers get a prefix of what was written, and all of it when `Read` reports EOF |
| `EndToEnd.AckedWasReceived` | session.go:262-311 | in every run in which each frame of an arriving packet gets through or was received before, each stream frame of a packet acknowledged at the sender is contained in a frame the peer's sorter accepted, FIN included, and all its bytes are in the peer's stream |
| `EndToEnd.FrameGotIff` | stream_frame_sorter.go:33-102 | in a clean packet that arrives, a live piece has been received afterwards if and only if it was before, or it is read as it was sent and does not clash with a frame at its offset |
| `EndToEnd.ArrivalGotIff` | session.go:294-311 | a clean packet that arrives leaves every live piece in a registered packet received if and only if each of its live frames was received before or gets through |
| `EndToEnd.ReadableIsWhole` | stream_frame_sorter.go:33-102 | if nothing is written behind a FIN, every frame of a packet without an empty frame inside gets through |
| `Delivery.WrittenIffClean` | frames/stream_frame.go:55-80 | for every run in which nothing is written to a stream when its FIN was sent: the receiver has nothing but what was written if and only if every packet arrived clean |
| `Delivery.ArrivalIff` | frames/stream_frame.go:55-80 | exactly when an arrival leaves the receiver with nothing but what was written, writes behind a FIN included |
| `Delivery.CleanIsWritten` | session.go:366-380 | in every clean run, every byte the receiver has of a stream was written there, at its offset |
| `Delivery.DeliveredIsPrefix` | stream_frame_sorter.go:104-119 | in every clean run, what the peer's readers got is a prefix of what was written to the stream |
| `Delivery.EofIsTheEnd` | stream.go:117-126 | in every clean run, a reader that meets a frame with a FIN has, with it, exactly what was written when the FIN was sent, and everything if nothing is written later |
| `Delivery.ReaderGetsAll` | stream.go:62-130 | in every clean run, a reader to which `Read` reports EOF has got exactly what was written when the FIN was sent |
| `EndToEndRun.DataArrives` | session.go:485-582 | a run with every care exists in which a byte is written, sent and received, and its packet acknowledged |
| `EndToEndRun.FinSwallowsByte` | stream_framer.go:105-135 | a run in which a FIN swallows the frame behind it: a reader gets bytes never written to its stream, and an acknowledged byte was not received |
| `EndToEndRun.LateByteIsLost` | stream.go:132-157 | a run in which a byte is written behind a FIN without data: it is acknowledged but was not received |
| `EndToEnd.RunKept` | session.go:485-582 | the invariant behind these results holds after every sequence of steps of sender, network and receiver, and more of it the more care is taken |
| `EndToEnd.SendInv` | session.go:546-580 | a step that sends a packet keeps the invariant: the new frames are pieces of their own |
| `EndToEnd.QuietInv` | session.go:485-510 | a sender's step without a packet (ACK, timeout, writing at any time) keeps the invariant |
| `EndToEnd.ArriveInv` | session.go:294-311 | any packet that is registered and handled as it is read, in whatever order and however often it arrives, keeps the invariant |
| `EndToEnd.TakeInv` | stream_frame_sorter.go:104-111 | a reader taking a frame keeps the invariant |
| `Receivers.PushGotIff` | stream_frame_sorter.go:33-102 | a piece that the sorter takes as new or duplicate is contained in an accepted frame if and only if it was before, or it does not clash with a FIN without data, or with data, at its offset |
| `Receivers.NothingClashes` | stream_frame_sorter.go:33-50 | frames clash only if something was written behind a FIN |
| `Receivers.ReadsAs` | frames/stream_frame.go:55-80 | the peer reads the stream frames of a packet as they were sent, up to the first empty one in front of another, which swallows the rest |
| `PeerReads.PassIsRead` | packet_packer.go:51-147 | the peer's parser reads the packet of a pass through the loop, and the stream frames it finds are exactly those that the runs of two endpoints let arrive |
| `EndToEnd.CoveredKept` | stream_framer.go:144-161 | splitting never merges: every earlier transmission that overlaps a piece still contains it |
| `EndToEnd.LiveBefore` | stream_framer.go:144-161 | a transmission that is a piece now has been one before |
| `EndToEnd.HandlerStep` | ackhandler/sent_packet_handler.go:108-247 | tracked packets stay the ones that were sent, and only registered ones count as acknowledged |
| `SenderData.RunConserves` | session.go:485-582 | after every run of a sender, writes behind a FIN included, every byte and FIN taken from a stream is in exactly one piece and every piece in exactly one place |
| `SenderData.StepEvolved` | session.go:485-582 | each step keeps the books, and pieces only evolve by splitting and by new data |
| `SenderData.SendEvolved` | session.go:502-571 | one pass through the sending loop keeps the books |
| `SenderData.DequeueAllEvolved` | session.go:502-515 | dequeuing all lost packets moves their stream frames to the framer and loses none |
| `SenderData.PacketWithCounts` | packet_packer.go:184-192 | a packet holds exactly the stream frames that were popped for it |
| `Conservation.PopEvolved` | stream_framer.go:48-72 | popping frames for retransmission, splitting the last one, keeps the books |
| `Conservation.SplitEvolved` | stream_framer.go:144-161 | splitting a frame keeps the books |
| `Conservation.VisitAllEvolved` | stream_framer.go:74-141 | filling a packet with new data keeps the books |
| `Conservation.VisitEvolved` | stream_framer.go:78-136 | one visit of the framer to a stream keeps the books |
| `Conservation.SealEvolved` | session.go:564-571 | recording a packet as sent keeps the books |
| `Conservation.DequeueEvolved` | ackhandler/packet.go:23-31 | a dequeued packet's stream frames, and no others, go to the framer |
| `Conservation.TimeoutEvolved` | ackhandler/sent_packet_handler.go:309-319 | a timeout keeps the books |
| `Conservation.AckEvolved` | ackhandler/sent_packet_handler.go:143-247 | an ACK frame keeps the books |
| `Ledger.SplitTiles` | stream_framer.go:144-161 | the two parts of a split piece tile what it covered |
| `Ledger.NewTiles` | stream.go:167-185 | data taken from a stream tiles it together with what was taken before |
| `Ledger.SortedCounts` | ackhandler/sent_packet_handler.go:171-228 | sorting packets by their fate moves each stream frame and drops none |
| `Sessions.Session.SendPacket` | session.go:485-582 | a pass is refused exactly by the congestion controller or the limit on tracked packets; otherwise its result and the session afterwards are those of the reference pass, about which the `Passes` below say what becomes of every frame; the check for too many tracked packets never fails, and no packet is larger than the maximum |
| `Passes.ControlConserved` | session.go:500-562 | what a pass finds of control frames (queued ones, those of lost packets, window updates, BLOCKED frames) is in its packet or queued afterwards, each as often as before; behind a packet that is sent, window updates are queued once more |
| `Passes.AckTravels` | session.go:526-552 | if there is an ACK frame and it fits behind the STOP_WAITING frame, it is in the packet, at the front or behind that frame; and if it may travel alone, the pass does not end without a packet |
| `Passes.StopWaitingTravels` | session.go:540-546 | a packet with lost stream data starts with a STOP_WAITING frame, and so does one with an ACK frame when there is something new to announce; it announces what the handler gave up |
| `Passes.RunGivesUp` | ackhandler/stop_waiting_manager.go:32-42 | in every run, what a STOP_WAITING frame would announce lies above every packet that waits to be sent again |
| `Passes.AnnouncedIsSentIff` | session.go:542-552 | a number that counts as announced was sent if and only if the frames for the packet are more than a STOP_WAITING frame and an ACK frame that may not travel alone |
| `Passes.AnnouncementDropped` | session.go:542-552 | every pass in which an announcement is dropped and the next one does not repeat it |
| `Passes.PassIsGreedy` | session.go:546-552 | unless a packet that is sent is so full that one more stream frame might not fit, no lost frame is left, and no stream that was visited has data that flow control allows, or a FIN, left to send |
| `Passes.TimeoutQueuesTwo` | ackhandler/sent_packet_handler.go:291-307 | an expired timer moves the two oldest packets, or all if there are fewer, from the history to the queue |
| `Sessions.PassIsStep` | session.go:485-582 | a pass that does not fail is a step of the reference sender, and sends a packet exactly when one was packed |
| `Sessions.PackingFailsIff` | packet_packer.go:92-127 | a pass fails if and only if there is something to send and the nonce has the wrong length or an ACK frame in the packet cannot be written; stream, STOP_WAITING and control frames always can |
| `Sessions.PassKeeps` | session.go:485-582 | a pass keeps conservation, the packet numbers in order, and the number of tracked packets within its limit |
| `Sessions.PassIsFlow` | stream_framer.go:30-33 | for flow control, a pass requeues the stream frames of the lost packets and fills a packet |
| `Sessions.PassCounted` | stream_framer.go:74-141 | a pass keeps what was taken from each stream, and from all that count, equal to what the controllers counted, and within any bound that the window in force keeps to |
| `Sessions.PopIsFill` | stream_framer.go:30-33 | the framer under flow control takes what the reference sender takes |
| `Sessions.Session.HandleAckFrame` | session.go:409-414 | an ACK frame is a step of the reference sender and keeps what a pass keeps |
| `Sessions.Session.ChangeStream` | stream.go:132-192 | writing to, closing and failing streams, at any time, are steps of the reference sender and of flow control, and keep what a pass keeps |
| `Sessions.Session.OpenStream` | session.go:624-640 | opening a stream is a step of the reference sender and of flow control: it gets a controller that counts towards the connection unless it is stream 1 or 3 |
| `Sessions.Session.HandleWindowUpdateFrame` | session.go:382-394 | a WINDOW_UPDATE frame is a step of flow control and keeps what a pass keeps |
| `Sessions.Session.Retransmit` | ackhandler/packet.go:23-49 | of a lost packet, the stream frames go to the framer, the control frames are sent again in their order, none left out (`Passes.ControlConserved`), and ACK and STOP_WAITING frames are dropped |
| `Sessions.Session.DequeueRetransmissions` | session.go:502-515 | all queued packets are dequeued, the last one first; the control frames that come out, in order |
| `Sessions.Session.Prepare` | session.go:503-545 | which control frames are queued for the packet, and when there is a STOP_WAITING frame; `Passes.ControlConserved`, `Passes.AckTravels` and `Passes.StopWaitingTravels` say that they get there |
| `Sessions.QueueIsProper` | stream_framer.go:26-28 | frames that wait for retransmission carry data or a FIN, so they can be written |
| `StreamFramers.StreamFramer.PopStreamFrames` | stream_framer.go:30-33 | retransmissions first, which flow control does not count, then new data in the room that is left, which it does; `Filling.PopServes` says that nothing that fits is left |
| `StreamFramers.StreamFramer.MaybePopFramesForRetransmission` | stream_framer.go:48-72 | the loop over the queue pops what the reference pops |
| `StreamFramers.StreamFramer.MaybePopNormalFrames` | stream_framer.go:74-141 | visits in any order take what the reference takes with the windows that the controllers grant at that moment, and count it; `Filling.FlowAllServes` and `Filling.BlockedIff` say what that means for each stream |
| `Scheduling.StoppingIsFree` | streams_map.go:143-177 | however early the framer stops the scheduler because the packet is full, the packet and the counts are as if every open stream had been visited in turn |
| `StreamFramers.FlowIsVisitAll` | stream_framer.go:74-141 | flow control decides nothing but the windows of the visits |
| `StreamFramers.PopFits` | stream_framer.go:30-33 | all that is popped fits, and no frame is empty without a FIN |
| `StreamFramers.PopFramesLength` | stream_framer.go:48-72 | the popped frames have exactly the length that was counted, within the limit |
| `StreamFramers.PopIsGreedy` | stream_framer.go:48-72 | frames stay in the queue only if not even the next header fits |
| `StreamFramers.PoppedSendable` | stream_framer.go:48-72 | no popped frame is empty without a FIN |
| `StreamFramers.VisitFits` | stream_framer.go:78-136 | a visit stays within the packet and takes no more than the stream's send window |
| `StreamFramers.VisitIsGreedy` | stream_framer.go:78-136 | a visit takes all that stream, window and packet allow, and the FIN exactly with the last byte, or in a frame without data if everything was taken before |
| `Filling.PopServes` | stream_framer.go:30-33 | if what is popped leaves room for one more stream frame, no lost frame waits, and no visited stream has data that flow control allows, or a FIN, left |
| `Filling.FlowAllServes` | stream_framer.go:74-141 | the same for the visits alone, and that none of them stopped the others |
| `Filling.BlockedIff` | stream_framer.go:118-125 | a BLOCKED frame is queued for every window, of a stream or of the connection, that the packet uses up, and for none that is left |
| `Filling.VisitCounts` | stream_framer.go:92-116 | what a visit takes from a stream lies within its window and is what flow control counts |
| `StreamFramers.VisitAllFits` | stream_framer.go:74-141 | all new frames together fit, and none is empty without a FIN |
| `PacketPackers.PacketPacker.PackPacket` | packet_packer.go:51-147 | nothing is sent if and only if the frames taken are nothing but a STOP_WAITING frame, an ACK frame that may not travel alone, or both, so no control or stream frame is dropped and an ACK frame that may travel alone is sent; packing fails exactly for a nonce of the wrong length or a frame that cannot be written; "packet too large" cannot happen |
| `PacketPackers.PointlessIff` | packet_packer.go:92-111 | the tests on number and kind of frames find exactly these |
| `PacketPackers.PayloadFailsIff` | packet_packer.go:122-127 | a payload cannot be written if and only if one of its frames cannot |
| `PacketPackers.PacketPacker.ComposeNextPacket` | packet_packer.go:149-199 | which frames the packet has and which stay behind; they fit in front of the tag |
| `PacketPackers.PacketPacker.PopControlFrames` | packet_packer.go:155-173 | exactly the control frames at the end of the queue that fit are taken, the last one first |
| `PacketPackers.OthersFit` | packet_packer.go:155-177 | the frames in front of the stream frames fit, so the packer's own test of this never fails, and the next one in the queue would not |
| `PacketPackers.BlockedNamesStream` | frames/blocked_frame.go:16-44 | each BLOCKED frame that is queued names its stream |
| `PacketPackers.AllowanceRepaid` | packet_packer.go:179-187 | leaving out the last frame's length saves exactly the two bytes allowed on top |
| `PacketPackers.PointlessHasNoStreams` | packet_packer.go:92-111 | a packet that is not sent contains no stream frame |
| `PacketPackers.WriteFrame` | packet_packer.go:122-127 | every frame writes exactly as many bytes as were counted for it |
| `PacketPackers.WritePayload` | packet_packer.go:122-127 | the payload is the frames one behind the other, and its length the sum of what was counted |
| `PublicHeaders.WriteHeader` | public_header.go:35-96 | the bytes of the header, of exactly the announced length; it fails exactly for a nonce of the wrong length |
| `PublicHeaders.RoundTripIff` | public_header.go:99-160 | a header reads back if and only if it has a connection ID that is not 0, no nonce, and a packet number that fits its length |
| `PublicHeaders.HeaderFields` | public_header.go:35-96 | where the fields of any header stand, with a nonce or without a connection ID too |
| `PacketUnpackers.PacketRoundTripIff` | packet_unpacker.go:37-101 | a packet reads back as the frames the peer should see if and only if no stream frame in front of another frame is empty |
| `PacketUnpackers.PacketReads` | packet_unpacker.go:37-101 | what the peer reads of any packet: the other frames, and then the stream frames with everything behind an empty one swallowed by it |
| `PacketUnpackers.FrameRoundTrip` | packet_unpacker.go:41-96 | each kind of frame reads back, and what follows it is left unread |
| `PacketUnpackers.EmptyInsideHappens` | stream_framer.go:105-135 | two streams for which the framer puts an empty frame in front of another one |
| `AckFrameWriter.RoundTrip` | frames/ack_frame.go:192-329 | a written frame parses to the same largest packet, the longest prefix of its ranges that fits, and the rounded delay |
| `AckFrameWriter.KeptIff` | frames/ack_frame.go:398-424 | at least two ranges fit if and only if the first gap takes at most 254 blocks |
| `AckFrameWriter.ReceivedAcksLess` | frames/ack_frame.go:192-329 | what the peer sees acknowledges nothing that the frame does not |
| `AckFrameWriter.AllRangesReceived` | frames/ack_frame.go:398-424 | the peer sees every range of a frame with up to 255 ranges and gaps of up to 255 packets |
| `AckFrameWriter.ShortestDelta` | frames/ack_frame.go:426-451 | no shorter field for lengths would hold every range |
| `AckFrameWriter.Write` | frames/ack_frame.go:192-329 | the loops write these bytes, and fail exactly for inconsistent bounds or a first gap that is too long |
| `AckFrameWriter.WriteRanges` | frames/ack_frame.go:261-320 | the loop over ranges and blocks writes the blocks of the ranges that fit |
| `AckFrameWriter.WriteRange` | frames/ack_frame.go:266-314 | a long gap is written as a chain of blocks of 255 |
| `AckFrameWriter.NumWritableNackRanges` | frames/ack_frame.go:398-424 | the number of blocks of the longest prefix of ranges that fits |
| `AckFrameWriter.GetMissingSequenceNumberDeltaLen` | frames/ack_frame.go:426-451 | the length that holds the longest range |
| `AckFrameWriter.MinLength` | frames/ack_frame.go:332-348 | exactly the number of bytes that are written |
| `AckFrames.BlocksRoundTrip` | frames/ack_frame.go:94-153 | splitting gaps into blocks and joining them again gives back the ranges |
| `AckFrames.AckFrame.AcksPacket` | frames/ack_frame.go:454-470 | the loop decides whether a packet is in one of the ranges |
| `AckFrameParser.ParseAckFrame` | frames/ack_frame.go:35-189 | for every byte string, wrapping 64-bit arithmetic gives the frame or error of unbounded arithmetic, and an accepted frame is well formed; what that reference accepts, `AckFrameWire.ParseEncoded` and `AckFrameWire.AcceptedIsEncoded` say |
| `AckFrameWire.ParseEncoded` | frames/ack_frame.go:35-189 | for all fields of a frame, blocks and timestamps included: the exact condition on them under which it is accepted, which error it gets otherwise, that exactly its bytes are read, and that it acknowledges exactly the packets that the blocks describe |
| `AckFrameWire.AcceptedIsEncoded` | frames/ack_frame.go:35-189 | every byte string that is accepted is laid out by such fields, so nothing else is |
| `AckFrameWire.PrefixIsEof` | frames/ack_frame.go:35-189 | an accepted frame that is cut off anywhere ends with an unexpected end of input |
| `AckFrameParser.AcceptedIsWellFormed` | frames/ack_frame.go:35-189 | accepted ranges are descending, disjoint and not adjacent |
| `AckFrameParser.ValidIffDescending` | frames/ack_frame.go:358-394 | wrapped ranges pass validation if and only if the unwrapped ones are well formed, and then none wrapped |
| `AckFrameParser.ReadRanges` | frames/ack_frame.go:101-140 | the loop over blocks, long ones and an incomplete last one included, follows the unbounded reference |
| `AckFrameParser.ValidateAckRanges` | frames/ack_frame.go:358-394 | the loops decide validity |
| `AckFrameParser.SkipTimestamps` | frames/ack_frame.go:155-186 | the reads over the timestamps, one after the other, leave unread what the reference leaves |
| `AckFrameWire.TimestampsSkipped` | frames/ack_frame.go:155-186 | for all lists of up to 255 timestamps, the first with 32 bits of time and the others with 16: the frame stays as it was, and exactly the bytes of the list are read |
| `AckFrameWire.TimestampsCut` | frames/ack_frame.go:155-186 | a list of timestamps that is cut off anywhere is an unexpected end of input |
| `StreamFrameCodec.RoundTripIff` | frames/stream_frame.go:27-87 | a written frame reads back if and only if nothing follows, or it states the length of its data and has some |
| `StreamFrameCodec.Write` | frames/stream_frame.go:90-156 | the bytes that are written; their number is the minimal length plus the data |
| `StreamFrameCodec.Swallows` | frames/stream_frame.go:55-80 | an empty frame with a FIN takes all that follows as its data |
| `StreamFrameCodec.LongDataRefused` | frames/stream_frame.go:63-65 | a frame that states more data than fits into a packet is refused, whatever follows |
| `StreamFrameCodec.CutIsRefused` | frames/stream_frame.go:27-87 | a frame that states the length of its data is refused when it is cut off anywhere |
| `StreamFrameCodec.ShortestFields` | frames/stream_frame.go:158-192 | stream ID and offset are written in the shortest field that holds them |
| `StopWaitingFrames.RoundTripIff` | frames/stop_waiting_frame.go:25-92 | a written frame reads back if and only if the distance fits the packet number's length |
| `SenderNumbers.StopWaitingEncodes` | packet_packer.go:63-80 | in every run, each STOP_WAITING frame that is produced can be written with the next packet and reads back |
| `SenderNumbers.LeastUnackedBound` | ackhandler/stop_waiting_manager.go:16-42 | the oldest packet in flight is at most one number behind the announced least unacked packet |
| `SenderNumbers.RunInv` | ackhandler/sent_packet_handler.go:101-141 | in every run, each number is in flight, announced, or one of the gaps, no two of which are adjacent |
| `SenderNumbers.StepTracked` | ackhandler/sent_packet_handler.go:277-289 | if packets are only sent while sending is allowed, the limit on tracked packets is never exceeded, so the check for too many never fails |
| `PacketNumberGenerators.PacketNumberGenerator.Pop` | packet_number_generator.go:31-56 | at most one number is left out, none right after one that was left out, and a new generator leaves out none |
| `PacketNumbers.Recovery` | protocol/packet_number.go:4-42 | with the length chosen for it, a truncated number is recovered for every last packet number in the allowed range |
| `PacketNumbers.ShortestLength` | protocol/packet_number.go:32-56 | the lengths chosen for packet numbers are the shortest that hold the number, or keep it less than half an epoch from the least unacked packet |
| `PacketNumbers.RecoveredIff` | protocol/packet_number.go:4-14 | exactly when a truncated number is recovered, wrap-around below zero included |
| `PacketNumbers.NoWrap` | protocol/packet_number.go:4-28 | the wrapping computation finds the closest of the three candidates |
| `Ufloat16.EncodeFloor` | utils/float16.go:54-86 | decoding the encoding gives the greatest representable value not above the original, clamped at the maximum |
| `Ufloat16.EncodeMonotone` | utils/float16.go:54-86 | encoding is monotone |
| `Ufloat16.RoundTrip` | utils/float16.go:25-51 | every encoding is the encoding of its value |
| `Ufloat16.WriteUfloat16` | utils/float16.go:54-86 | the halving loop ends with the mantissa in range and computes the encoding |
| `ByteCodec.ReadUintN` | utils/utils.go:20-30 | the loop reads the little-endian value |
| `ByteCodec.ValueOfLittleEndian` | utils/utils.go:96-140 | a value written in n bytes reads back if and only if it fits |
| `StreamFrameSorters.StreamFrameSorter.Push` | stream_frame_sorter.go:33-102 | the gaps are the complement of the accepted bytes, the verdict is the one on bytes alone, a rejected frame changes nothing, and the limit on gaps is only hit when it is reached; a frame whose end wraps around changes nothing, or exactly when a gap spans it leaves gaps that overlap |
| `StreamFrameSorters.StreamFrameSorter.FillGap` | stream_frame_sorter.go:52-94 | the walk over the gap list cuts out exactly the frame's bytes, or finds that it overlaps or was received; what it does with a frame whose end wraps around |
| `StreamFrameSorters.SpannedIff` | stream_frame_sorter.go:52-66 | a gap spans a frame whose end wraps around if and only if nothing was received between its end and its offset |
| `StreamFrameSorters.StreamFrameSorter.Pop` | stream_frame_sorter.go:104-111 | popping appends the frame's data to what was delivered |
| `StreamFrameSorters.StreamFrameSorter.Head` | stream_frame_sorter.go:113-119 | the frame at the read position, if there is one |
| `StreamFrameSorters.Assembly.PushCoherent` | stream_frame_sorter.go:33-102 | a push keeps the assembly coherent and never alters an accepted byte |
| `StreamFrameSorters.Assembly.NeverTwice` | stream_frame_sorter.go:33-102 | data that was accepted once is a duplicate for ever, and changes nothing any more |
| `StreamFrameSorters.Assembly.OrderIsFree` | stream_frame_sorter.go:33-102 | two new frames without a byte in common can arrive in any order |
| `StreamFrameSorters.Assembly.PopCoherent` | stream_frame_sorter.go:104-111 | popped data is contiguous from offset 0 |
| `StreamFrameSorters.Assembly.HeadIffReceived` | stream_frame_sorter.go:113-119 | there is a head if and only if the next byte was received or a FIN waits there |
| `StreamFrameSorters.NotBehindGap` | stream_frame_sorter.go:52-66 | a frame never starts right behind a gap, because the frame there is still queued |
| `StreamFrameSorters.CutRemoves` | stream_frame_sorter.go:68-89 | cutting a gap removes exactly the frame's offsets |
| `ReceiveStreams.ReceiveStream.Read` | stream.go:62-130 | reading continues where it stopped, stops early only when nothing more has arrived, and reports EOF exactly when the last frame it took carried a FIN; then all that was delivered has been read; the controllers of other streams stay |
| `ReceiveStreams.ReceiveStream.AddStreamFrame` | stream.go:208-230 | the result is the verdict of flow control and then of the sorter, with duplicates no error, for frames whose end wraps around too; the controllers of other streams stay |
| `ReceiveStreams.ReadIsContent` | stream.go:62-130 | what was read are the accepted bytes from offset 0 on |
| `ReceiveStreams.HeadIsTracked` | stream.go:84-115 | a frame that is read was counted by flow control, so reading never outruns it |
| `ReceiveStreams.WaitingIsBounded` | flowcontrol/flow_controller.go:90-164 | what waits to be read lies within the maximal increment of the stream's window |
| `SentPackets.AckIsExact` | ackhandler/sent_packet_handler.go:143-228 | an ACK frame is taken in if and only if its packet is later than every one whose ACK frame was, it is about packets that were sent, it lies above everything acknowledged in order, and it acknowledges no number that was left out; then each packet in flight meets its fate: acknowledged ones leave, every other one up to the largest gets one missing report and is queued on the fourth, and none is lost; otherwise the three lists stay |
| `SentPackets.RefusedAck` | ackhandler/sent_packet_handler.go:144-165 | a frame that is not taken in changes nothing but, if it is late in no way and about packets that were sent, the number of the latest packet with an ACK frame; which of them are errors |
| `SentPackets.InOrderIsMaximal` | ackhandler/sent_packet_handler.go:101-106 | after an ACK frame no packet up to the largest number acknowledged in order is in flight, and the next one is, unless nothing up to the largest acknowledged number is |
| `SenderAcks.AcksInOrder` | ackhandler/sent_packet_handler.go:148-153 | in every run, the packets whose ACK frames moved or reported packets have strictly rising numbers |
| `SenderAcks.ReportsAreCounted` | ackhandler/sent_packet_handler.go:75-86 | in every run, each tracked packet was reported missing at most once for each packet whose ACK frame was taken in |
| `SenderAcks.GivenUpIsReported` | ackhandler/stop_waiting_manager.go:32-42 | in every run, the packets that a STOP_WAITING frame gives up are acknowledged, queued for retransmission, or were reported missing |
| `SenderAcks.LeftOutIsRefused` | ackhandler/sent_packet_handler.go:113-165 | in every run, an ACK frame for a number that was left out is not taken in, unless the number is settled or ten later ones were left out |
| `SenderAcks.SentIsNotRefused` | ackhandler/sent_packet_handler.go:160-165 | in every run, an ACK frame that acknowledges only packets that were sent is never refused for a number that was left out |
| `SentPackets.RangeDecides` | ackhandler/sent_packet_handler.go:204-223 | the current range alone decides, so "would have acked wrong packet" cannot happen |
| `SentPackets.ReceivedAckValid` | ackhandler/sent_packet_handler.go:143-247 | the history stays ordered |
| `SentPacketHandlers.SentPacketHandler.ReceivedAck` | ackhandler/sent_packet_handler.go:143-247 | the checks and the walk with two pointers do what the reference does, for every outcome; what that is, `SentPackets.AckIsExact` and `SentPackets.RefusedAck` say; bytes in flight stay the sum of tracked lengths |
| `SentPacketHandlers.SentPacketHandler.Walk` | ackhandler/sent_packet_handler.go:171-228 | the loop that removes while it walks sorts the packets by their fate |
| `SentPacketHandlers.SentPacketHandler.NackPacket` | ackhandler/sent_packet_handler.go:75-86 | the fourth missing report queues a packet |
| `SentPacketHandlers.SentPacketHandler.SentPacket` | ackhandler/sent_packet_handler.go:108-141 | a packet is tracked unless its number does not increase or it is empty, and skipped numbers are recorded |
| `SentPacketHandlers.SentPacketHandler.GarbageCollectSkippedPackets` | ackhandler/sent_packet_handler.go:339-348 | skipped numbers that can no longer be acknowledged are forgotten |
| `SentPacketHandlers.SentPacketHandler.DequeuePacketForRetransmission` | ackhandler/sent_packet_handler.go:249-263 | the last queued packet is dequeued |
| `SentPacketHandlers.SentPacketHandler.MaybeQueueRTOs` | ackhandler/sent_packet_handler.go:291-319 | a timeout queues the two oldest packets |
| `SentPacketHandlers.StopWaitingManager.GetStopWaitingFrame` | ackhandler/stop_waiting_manager.go:16-30 | exactly when there is a frame, that it announces the current least unacked packet, and that this is remembered as announced |
| `ReceivedPacketHistories.ReceivedPacketHistory.ReceivedPacket` | ackhandler/received_packet_history.go:32-85 | the ranges stay the unique decomposition of the packet numbers |
| `ReceivedPacketHistories.ReceivedPacketHistory.DeleteBelow` | ackhandler/received_packet_history.go:88-109 | exactly the smaller numbers are forgotten |
| `ReceivedPacketHistories.ReceivedPacketHistory.IsDuplicate` | ackhandler/received_packet_history.go:113-120 | exactly the numbers accepted before or below the largest least unacked packet |
| `ReceivedPacketHistories.ReceivedPacketHistory.GetAckRanges` | ackhandler/received_packet_history.go:123-135 | the ranges of the remembered numbers, in descending order |
| `PacketRanges.DecompositionUnique` | ackhandler/received_packet_history.go:32-85 | a set of numbers has only one decomposition into maximal ranges |
| `ReceivedPacketHandlers.ReceivedPacketHandler.ReceivedPacket` | ackhandler/received_packet_handler.go:38-67 | a packet is accepted if and only if its number is positive, new, not given up by the peer, and both limits have room; which error it gets otherwise; an accepted one drops the cached ACK frame |
| `ReceivedPacketHandlers.ReceivedPacketHandler.ReceivedStopWaiting` | ackhandler/received_packet_handler.go:69-79 | exactly the smaller numbers are forgotten and ignored from now on |
| `ReceivedPacketHandlers.ReceivedPacketHandler.GetAckFrame` | ackhandler/received_packet_handler.go:81-106 | the list of ranges is never empty; a frame, cached or not, acknowledges only received packets and every one that the peer did not give up, a new one exactly those |
| `ReceivedPacketHandlers.HandlePacket` | session.go:294-311 | exactly which packets are handled; every STOP_WAITING frame in one is obeyed; registering a packet before them means an ACK frame can always be built, and the packet is among those it acknowledges |
| `ReceivedPacketHandlers.HandleAndAcknowledge` | session.go:294-311 | every packet that is accepted is acknowledged by the ACK frame that is built next |
| `StreamsMaps.StarvationFree` | streams_map.go:143-177 | every stream but 1 and 3 is visited in one of as many calls as there are open streams, however early each is stopped |
| `StreamsMaps.StreamsMap.RoundRobinIterate` | streams_map.go:143-177 | exactly which streams are visited, in which order, when streams 1 or 3 stop the visits or a closed one is in the way, and the index that lags behind skipped streams |
| `StreamsMaps.StreamsMap.VisitOthers` | streams_map.go:160-175 | the loop visits the streams in turn and moves the index by the number of visits |
| `StreamsMaps.StreamsMap.GetOrOpenStream` | streams_map.go:52-96 | exactly when a stream is opened, and a closed one again, which error there is otherwise, when opening one collects closed streams, and that the turns stay |
| `StreamsMaps.StreamsMap.OpenStream` | streams_map.go:99-122 | exactly when the server can open a stream, and that all other streams and the turns stay |
| `StreamsMaps.StreamsMap.RemoveStream` | streams_map.go:203-229 | the stream leaves the list of open streams and is remembered, the counters stay right, and the other streams come up in the same order as before |
| `StreamsMaps.TurnsKept` | streams_map.go:216-226 | taking a stream out and adjusting the index keeps the order in which the others come up |
| `StreamsMaps.StreamsMap.GarbageCollectClosedStreams` | streams_map.go:233-246 | exactly which closed streams are forgotten |
| `StreamsMaps.ReopenedStream` | streams_map.go:88-96 | a run in which a closed stream is opened again |
| `FlowControl.FlowControlManager.UpdateHighestReceived` | flowcontrol/flow_control_manager.go:69-92 | the verdict, and without a violation the connection's count is the sum over all streams ever created that count; which streams count, and what removed ones contributed, stays |
| `FlowControl.ViolationIff` | flowcontrol/flow_control_manager.go:69-92 | the peer violates flow control if and only if data goes beyond the stream's window or, summed over all streams that ever counted, beyond the connection's |
| `FlowControl.FlowControlManager.AddBytesRead` | flowcontrol/flow_control_manager.go:95-111 | what was read is counted for the stream and, as a sum, for the connection; the counts stay in order if that much was received |
| `FlowControl.FlowControlManager.GetWindowUpdates` | flowcontrol/flow_control_manager.go:113-122 | exactly the controllers that need it announce a window; afterwards each window is half an increment ahead of what was read |
| `FlowControl.UpdatesSuffice` | flowcontrol/flow_controller.go:111-125 | a window grows if and only if less than half of its increment was left, and is then one increment ahead of what was read |
| `FlowControl.Controller.UpdateGrows` | flowcontrol/flow_controller.go:111-157 | an update announces a larger window; the increment doubles up to its maximum exactly for updates that follow each other quickly |
| `FlowControl.AnnouncedGrows` | flowcontrol/flow_controller.go:111-157 | an announced window is larger than the one before |
| `FlowControl.BoundedBuffer` | flowcontrol/flow_controller.go:109-164 | received data that was not read never exceeds the maximal increment, for streams and the connection |
| `FlowControl.FlowControlManager.AddBytesSent` | flowcontrol/flow_control_manager.go:125-141 | what was sent is counted for the stream and, as a sum, for the connection |
| `FlowControl.FlowControlManager.SendWindowSize` | flowcontrol/flow_control_manager.go:144-163 | n bytes do not exceed the size if and only if, with n bytes more, the stream and, if it counts, the connection stay within their windows |
| `SendFlow.StreamWithinWindow` | stream_framer.go:74-141 | in every run of framer, WINDOW_UPDATE frames and retransmissions, what was taken from a stream is what its controller counted, and at most the largest window that was in force |
| `SendFlow.ConnectionWithinWindow` | stream_framer.go:74-141 | the same for the connection and the sum over all streams that count |
| `SendFlow.StepCounted` | stream_framer.go:74-141 | every step keeps what was taken equal to what was counted, stream by stream and for the connection |
| `SendFlow.FlowAllKeeps` | stream_framer.go:74-141 | filling one packet keeps the counts right and within the windows |
| `SendFlow.VisitCounts` | stream_framer.go:98-124 | one visit counts exactly the bytes it takes, and takes no more than the windows allow |
| `FlowControl.Controller.ShrinksIff` | flowcontrol/flow_controller.go:67-73 | more was sent than the window allows if and only if the first WINDOW_UPDATE announces less than was sent |
| `FlowControl.FlowControlManager.UpdateWindow` | flowcontrol/flow_control_manager.go:174-184 | a WINDOW_UPDATE only raises an announced window |
| `FlowControl.FlowControlManager.NewStream` | flowcontrol/flow_control_manager.go:46-56 | a new stream starts with its negotiated window, and counts towards the connection as it is told; one that exists stays as it is |
| `FlowControl.FlowControlManager.RemoveStream` | flowcontrol/flow_control_manager.go:59-64 | what a removed stream contributed stays in the connection's counts, and the other streams count as before |

## Left out

- Time, round-trip times and congestion control: whether the retransmission timer expired, whether the congestion window allows sending, and whether window updates follow each other quickly are inputs.
- Encryption, handshake and certificates: sealing adds 12 bytes, and a packet that cannot be opened counts as lost; so does one whose truncated number is recovered wrongly.
- Goroutines, mutexes, channels and condition variables: every method, and every visit of the framer to a stream, is one atomic step; `Read` returns instead of waiting.
- Sockets, HTTP, buffer pools, logging, error strings and versions.
- Packet numbers of 2^48 and more.
- Parsing of CONNECTION_CLOSE and GOAWAY frames, which end the session, and the fields of RST_STREAM, WINDOW_UPDATE, BLOCKED and PING frames, which are kept as bytes.
- Whole passes of the session over its streams while streams are removed from the list; only single calls are modelled.
- Packets with only a CONNECTION_CLOSE frame, and public headers with a version or a reset.
- StreamFramers.StreamFramer.MaybePopNormalFrames: the list of visits is an input, in any order; that the scheduler's visits give the same packet wherever they are stopped is `Scheduling.StoppingIsFree`.
- Sessions.Session.HandleWindowUpdateFrame: a WINDOW_UPDATE frame for a stream that is not open does not open it here.
- PeerReads.PassIsRead: stream IDs, offsets and packet numbers fit their fields, and control frames are of the kinds that the parser knows and do not end the session.
- FlowControl.FlowControlManager.AddBytesRead: controllers are values in the manager's map, so aliasing between them is not modelled.
- PacketPackers.PacketPacker.PackPacket: a nonce longer than 1300 bytes, which leaves no room for frames, is not modelled; nonces have 32 bytes.
- StreamsMaps.StreamsMap.GetOrOpenStream: a stream is represented by whether it is live, and whether it can be created is an input.
- ByteCodec.ReadUintN: bytes are combined by addition, where the source combines disjoint bits.
- ReceivedPacketHandlers.HandlePacket: of the frames in a packet, only STOP_WAITING frames are handled here.
- EndToEnd.AckedWasReceived: streams reset by RST_STREAM are not modelled; that every frame gets through is sufficient, and necessary for each frame as it arrives (`EndToEnd.FrameGotIff`), but not stated as necessary over a whole run, where a later retransmission can make up for a loss.
- PacketUnpackers.PacketRoundTripIff: it is about packets with fields of the sizes the protocol gives them and ACK frames whose first gap is not too long.
