/** Composing packets (packet_packer.go). */
module PacketPackers {
  import opened Frames
  import opened ByteCodec
  import opened PacketNumbers
  import opened PacketRanges
  import opened AckFrames
  import opened SentPackets
  import opened Ledger
  import opened StreamFramers
  import opened SenderData
  import AckFrameWriter
  import StreamFrameCodec
  import StopWaitingFrames
  import FC = FlowControl
  import opened PacketNumberGenerators
  import opened PublicHeaders

  const MAX_PACKET_SIZE := StreamFrameCodec.MAX_PACKET_SIZE
  const TAG_SIZE := 12
  const MAX_FRAME_AND_PUBLIC_HEADER_SIZE := MAX_PACKET_SIZE - TAG_SIZE

  // ---------------------------------------------------------------------------------------------
  // The length of the payload
  // ---------------------------------------------------------------------------------------------

  /** What each kind of frame takes on the wire, in a packet whose number has `len` bytes. */
  function Size(f: Frame, len: nat): nat {
    match f
    case Stream(s) => StreamFrameCodec.MinLength(s) + |s.data|
    case Ack(a) => |AckFrameWriter.Bytes(a, 0)|
    case StopWaiting(_) => StopWaitingFrames.MinLength(len)
    case Control(bytes) => |bytes|
  }

  function TotalSize(fs: seq<Frame>, len: nat): nat {
    if fs == [] then 0 else TotalSize(fs[..|fs| - 1], len) + Size(fs[|fs| - 1], len)
  }

  lemma TotalSizeSnoc(fs: seq<Frame>, f: Frame, len: nat)
    ensures TotalSize(fs + [f], len) == TotalSize(fs, len) + Size(f, len)
  {
    assert (fs + [f])[..|fs|] == fs;
  }

  lemma {:induction false} TotalSizeConcat(a: seq<Frame>, b: seq<Frame>, len: nat)
    ensures TotalSize(a + b, len) == TotalSize(a, len) + TotalSize(b, len)
    decreases |b|
  {
    if b == [] {
      assert a + b == a;
    } else {
      assert (a + b)[..|a + b| - 1] == a + b[..|b| - 1];
      TotalSizeConcat(a, b[..|b| - 1], len);
    }
  }

  lemma {:induction false} StreamsSize(fs: seq<StreamFrame>, len: nat)
    requires Sendable(fs)
    ensures TotalSize(AsFrames(fs), len) == TotalFull(fs)
  {
    if fs != [] {
      var f := fs[|fs| - 1];
      StreamsSize(fs[..|fs| - 1], len);
      TotalSizeSnoc(AsFrames(fs[..|fs| - 1]), Stream(f), len);
      assert f.(dataLenPresent := true) == f;
    }
  }

  /** Leaving out the length of the last frame's data saves the two bytes that were allowed on top. */
  lemma AllowanceRepaid(fs: seq<StreamFrame>, len: nat)
    requires Sendable(fs)
    ensures TotalSize(AsFrames(LastToTheEnd(fs)), len) == if fs == [] then 0 else TotalFull(fs) - 2
  {
    if fs != [] {
      var init, f := fs[..|fs| - 1], fs[|fs| - 1];
      var t := f.(dataLenPresent := false);
      assert LastToTheEnd(fs)[..|fs| - 1] == init;
      StreamsSize(init, len);
      TotalSizeSnoc(AsFrames(init), Stream(t), len);
      assert AsFrames(LastToTheEnd(fs)) == AsFrames(init) + [Stream(t)];
      assert f.(dataLenPresent := true) == f;
    }
  }

  lemma AckLengthAnyDelay(a: AckFrame, delay: nat)
    ensures |AckFrameWriter.Bytes(a, delay)| == |AckFrameWriter.Bytes(a, 0)|
  {
  }

  // ---------------------------------------------------------------------------------------------
  // Writing the payload
  // ---------------------------------------------------------------------------------------------

  /** ACK frames as the handler of received packets builds them. */
  predicate Built(a: AckFrame) {
    Descending(a.ackRanges) && (!a.HasMissingRanges() ==> a.lowestAcked <= a.largestAcked)
  }

  /** Frames that can be queued: everything but STREAM and STOP_WAITING frames. */
  predicate Queueable(f: Frame) {
    f.Control? || (f.Ack? && Built(f.ack))
  }

  method MinLength(f: Frame, len: nat) returns (n: nat)
    requires f.StopWaiting? || Queueable(f)
    ensures n == Size(f, len)
  {
    match f
    case Ack(a) => n := AckFrameWriter.MinLength(a, 0);
    case StopWaiting(_) => n := StopWaitingFrames.MinLength(len);
    case Control(bytes) => n := |bytes|;
  }

  /** An ACK frame that agrees with its ranges and whose first gap is not too long for one frame. */
  predicate Consistent(a: AckFrame) {
    a.HasMissingRanges() ==>
      && a.largestAcked == a.ackRanges[0].last && a.lowestAcked == a.ackRanges[|a.ackRanges| - 1].first
      && (|a.ackRanges| >= 2 ==> Gap(a.ackRanges, 1) <= AckFrameWriter.MAX_BLOCKS * 255)
  }

  /** What a frame looks like in packet `packetNumber`, if it can be written. */
  function FrameBytes(f: Frame, packetNumber: nat, len: nat, delay: nat): Option<seq<byte>> {
    match f
    case Stream(s) => if s.data == [] && !s.fin then None else Some(StreamFrameCodec.Bytes(s))
    case Ack(a) => if Consistent(a) then Some(AckFrameWriter.Bytes(a, delay)) else None
    case StopWaiting(leastUnacked) =>
      var w := StopWaitingFrames.Write(leastUnacked, packetNumber, len);
      if w.Written? then Some(w.bytes) else None
    case Control(bytes) => Some(bytes)
  }

  /** What is written for a frame takes as many bytes as were counted for it. */
  lemma FrameLength(f: Frame, packetNumber: nat, len: nat, delay: nat)
    requires FrameBytes(f, packetNumber, len, delay).Some?
    ensures |FrameBytes(f, packetNumber, len, delay).value| == Size(f, len)
  {
    match f
    case Stream(s) => StreamFrameCodec.BytesLength(s);
    case Ack(a) => AckLengthAnyDelay(a, delay);
    case StopWaiting(_) =>
    case Control(_) =>
  }

  /** Every frame writes exactly as many bytes as were counted for it. */
  method WriteFrame(f: Frame, packetNumber: nat, len: nat, delay: nat) returns (r: Option<seq<byte>>)
    requires f.Ack? ==> Built(f.ack)
    ensures r == FrameBytes(f, packetNumber, len, delay)
    ensures r.Some? ==> |r.value| == Size(f, len)
  {
    match f
    case Stream(s) =>
      var w := StreamFrameCodec.Write(s);
      return if w.Written? then Some(w.bytes) else None;
    case Ack(a) =>
      var w := AckFrameWriter.Write(a, delay);
      AckLengthAnyDelay(a, delay);
      return if w.Written? then Some(w.bytes) else None;
    case StopWaiting(leastUnacked) =>
      var w := StopWaitingFrames.Write(leastUnacked, packetNumber, len);
      return if w.Written? then Some(w.bytes) else None;
    case Control(bytes) =>
      return Some(bytes);
  }

  /** The frames of a packet one behind the other; one that cannot be written spoils the packet. */
  function Payload(fs: seq<Frame>, packetNumber: nat, len: nat, delay: nat): Option<seq<byte>> {
    if fs == [] then Some([])
    else
      var init, last := Payload(fs[..|fs| - 1], packetNumber, len, delay),
        FrameBytes(fs[|fs| - 1], packetNumber, len, delay);
      if init.None? || last.None? then None else Some(init.value + last.value)
  }

  /** A payload cannot be written exactly if one of its frames cannot. */
  lemma {:induction false} PayloadFailsIff(fs: seq<Frame>, packetNumber: nat, len: nat, delay: nat)
    ensures Payload(fs, packetNumber, len, delay).None? <==>
            exists i :: 0 <= i < |fs| && FrameBytes(fs[i], packetNumber, len, delay).None?
  {
    hide FrameBytes;
    if fs != [] {
      var init := fs[..|fs| - 1];
      PayloadFailsIff(init, packetNumber, len, delay);
      if i :| 0 <= i < |init| && FrameBytes(init[i], packetNumber, len, delay).None? {
        assert fs[i] == init[i];
      }
      if i :| 0 <= i < |fs| && FrameBytes(fs[i], packetNumber, len, delay).None? {
        assert i < |init| ==> fs[i] == init[i];
      }
    }
  }

  lemma {:induction false} PayloadLength(fs: seq<Frame>, packetNumber: nat, len: nat, delay: nat)
    requires Payload(fs, packetNumber, len, delay).Some?
    ensures |Payload(fs, packetNumber, len, delay).value| == TotalSize(fs, len)
  {
    hide FrameBytes, Size;
    if fs != [] {
      PayloadLength(fs[..|fs| - 1], packetNumber, len, delay);
      FrameLength(fs[|fs| - 1], packetNumber, len, delay);
    }
  }

  /** Frames that can be written next to each other. */
  predicate Writable(fs: seq<Frame>) {
    fs == [] || ((fs[|fs| - 1].Ack? ==> Built(fs[|fs| - 1].ack)) && Writable(fs[..|fs| - 1]))
  }

  lemma {:induction false} WritableConcat(a: seq<Frame>, b: seq<Frame>)
    requires Writable(a) && Writable(b)
    ensures Writable(a + b)
    decreases |b|
  {
    if b == [] {
      assert a + b == a;
    } else {
      assert (a + b)[..|a + b| - 1] == a + b[..|b| - 1];
      WritableConcat(a, b[..|b| - 1]);
    }
  }

  lemma {:induction false} WritableAt(fs: seq<Frame>, i: nat)
    requires Writable(fs) && i < |fs|
    ensures fs[i].Ack? ==> Built(fs[i].ack)
  {
    if i < |fs| - 1 {
      WritableAt(fs[..|fs| - 1], i);
    }
  }

  method WritePayload(fs: seq<Frame>, packetNumber: nat, len: nat, delay: nat) returns (r: Option<seq<byte>>)
    requires Writable(fs)
    ensures r == Payload(fs, packetNumber, len, delay)
    ensures r.Some? ==> |r.value| == TotalSize(fs, len)
  {
    var b := [];
    for i := 0 to |fs|
      invariant Payload(fs[..i], packetNumber, len, delay) == Some(b) && |b| == TotalSize(fs[..i], len)
    {
      WritableAt(fs, i);
      var w := WriteFrame(fs[i], packetNumber, len, delay);
      if w.None? {
        PayloadFailsIff(fs, packetNumber, len, delay);
        return None;
      }
      b := b + w.value;
      assert fs[..i + 1][..i] == fs[..i];
    }
    assert fs[..|fs|] == fs;
    return Some(b);
  }

  // ---------------------------------------------------------------------------------------------
  // The frames of a packet
  // ---------------------------------------------------------------------------------------------

  predicate AllQueueable(fs: seq<Frame>) {
    fs == [] || (Queueable(fs[|fs| - 1]) && AllQueueable(fs[..|fs| - 1]))
  }

  lemma {:induction false} AllQueueableConcat(a: seq<Frame>, b: seq<Frame>)
    requires AllQueueable(a) && AllQueueable(b)
    ensures AllQueueable(a + b)
    decreases |b|
  {
    if b == [] {
      assert a + b == a;
    } else {
      assert (a + b)[..|a + b| - 1] == a + b[..|b| - 1];
      AllQueueableConcat(a, b[..|b| - 1]);
    }
  }

  lemma {:induction false} AllQueueableAt(fs: seq<Frame>, i: nat)
    requires AllQueueable(fs) && i < |fs|
    ensures Queueable(fs[i]) && AllQueueable(fs[..i])
  {
    if i < |fs| - 1 {
      AllQueueableAt(fs[..|fs| - 1], i);
      assert fs[..|fs| - 1][..i] == fs[..i];
    }
  }

  /** The BLOCKED frame for a stream (frames/blocked_frame.go). */
  function BlockedFrame(id: nat): Frame {
    Control([5] + LittleEndian(4, id))
  }

  function BlockedFrames(ids: seq<nat>): (fs: seq<Frame>)
    ensures |fs| == |ids|
  {
    if ids == [] then [] else [BlockedFrame(ids[0])] + BlockedFrames(ids[1..])
  }

  /** The i-th BLOCKED frame has the frame's type byte and names the i-th stream. */
  lemma {:induction false} BlockedNamesStream(ids: seq<nat>, i: nat)
    requires i < |ids| && ids[i] < 0x1_0000_0000
    ensures var f := BlockedFrames(ids)[i];
            f.Control? && |f.bytes| == 5 && f.bytes[0] == 5 && Value(f.bytes[1..]) == ids[i]
  {
    if i == 0 {
      var f := BlockedFrame(ids[0]);
      assert f.bytes[1..] == LittleEndian(4, ids[0]);
      CapacityValues();
      ValueOfLittleEndian(4, ids[0]);
    } else {
      BlockedNamesStream(ids[1..], i - 1);
    }
  }

  /** Frames `fs`, and behind them the BLOCKED frames that are still to come. */
  function WithBlocked(fs: seq<Frame>, next: Option<nat>, ids: seq<nat>): seq<Frame> {
    fs + BlockedFrames((if next.Some? then [next.value] else []) + ids)
  }

  lemma BlockedQueued(fs: seq<Frame>, id: nat, ids: seq<nat>)
    ensures WithBlocked(fs, Some(id), ids) == fs + [BlockedFrame(id)] + BlockedFrames(ids)
    ensures ids == if ids == [] then [] else [ids[0]] + ids[1..]
  {
    hide BlockedFrame;
    assert ([id] + ids)[1..] == ids;
    assert fs + ([BlockedFrame(id)] + BlockedFrames(ids)) == fs + [BlockedFrame(id)] + BlockedFrames(ids);
  }

  lemma BlockedQueueable(fs: seq<Frame>, id: nat)
    requires AllQueueable(fs)
    ensures AllQueueable(fs + [BlockedFrame(id)])
  {
    assert (fs + [BlockedFrame(id)])[..|fs|] == fs;
  }

  /** How many frames at the end of the queue fit into `room` bytes. */
  function Fitting(queue: seq<Frame>, len: nat, room: nat): (k: nat)
    ensures k <= |queue|
  {
    if queue == [] || Size(queue[|queue| - 1], len) > room then 0
    else 1 + Fitting(queue[..|queue| - 1], len, room - Size(queue[|queue| - 1], len))
  }

  function Opening(stopWaiting: Option<nat>): seq<Frame> {
    if stopWaiting.Some? then [StopWaiting(stopWaiting.value)] else []
  }

  /** The last `k` frames of the queue, the last one first, behind a STOP_WAITING frame if there is one. */
  function Newest(stopWaiting: Option<nat>, queue: seq<Frame>, k: nat): seq<Frame>
    requires k <= |queue|
  {
    if k == 0 then Opening(stopWaiting) else Newest(stopWaiting, queue, k - 1) + [queue[|queue| - k]]
  }

  /** How many control frames go into the packet, behind a STOP_WAITING frame if there is one. */
  function CountTaken(stopWaiting: Option<nat>, queue: seq<Frame>, len: nat, maxFrameSize: nat): (k: nat)
    ensures k <= |queue|
  {
    var opening := TotalSize(Opening(stopWaiting), len);
    if opening <= maxFrameSize then Fitting(queue, len, maxFrameSize - opening) else 0
  }

  /** The frames in front of the stream frames. */
  function Others(stopWaiting: Option<nat>, queue: seq<Frame>, len: nat, maxFrameSize: nat): seq<Frame> {
    Newest(stopWaiting, queue, CountTaken(stopWaiting, queue, len, maxFrameSize))
  }

  /** Frames that can be written and are not stream frames, behind a STOP_WAITING frame if there is one. */
  ghost predicate InFrontOfStreams(others: seq<Frame>, stopWaiting: Option<nat>) {
    && Writable(others) && StreamFrames(others) == []
    && (stopWaiting.Some? ==> others != [] && others[0] == StopWaiting(stopWaiting.value))
    && (forall i :: 0 <= i < |others| ==> (others[i].StopWaiting? <==> i == 0 && stopWaiting.Some?))
  }

  lemma InFrontSnoc(others: seq<Frame>, stopWaiting: Option<nat>, f: Frame)
    requires InFrontOfStreams(others, stopWaiting) && Queueable(f)
    ensures InFrontOfStreams(others + [f], stopWaiting)
  {
    assert (others + [f])[..|others|] == others;
  }

  lemma {:induction false} NewestInFront(stopWaiting: Option<nat>, queue: seq<Frame>, k: nat)
    requires AllQueueable(queue) && k <= |queue|
    ensures InFrontOfStreams(Newest(stopWaiting, queue, k), stopWaiting)
  {
    if k > 0 {
      NewestInFront(stopWaiting, queue, k - 1);
      AllQueueableAt(queue, |queue| - k);
      InFrontSnoc(Newest(stopWaiting, queue, k - 1), stopWaiting, queue[|queue| - k]);
    }
  }

  /** In front of the stream frames are the STOP_WAITING frame that was asked for and frames that were queued. */
  lemma {:induction false} NewestAt(stopWaiting: Option<nat>, queue: seq<Frame>, k: nat, i: nat)
    requires AllQueueable(queue) && k <= |queue| && i < |Newest(stopWaiting, queue, k)|
    ensures var f := Newest(stopWaiting, queue, k)[i];
            Queueable(f) || (stopWaiting.Some? && f == StopWaiting(stopWaiting.value))
  {
    if k > 0 {
      if i < |Newest(stopWaiting, queue, k - 1)| {
        NewestAt(stopWaiting, queue, k - 1, i);
      } else {
        AllQueueableAt(queue, |queue| - k);
      }
    }
  }

  lemma OpeningSize(stopWaiting: Option<nat>, len: nat)
    ensures TotalSize(Opening(stopWaiting), len) == if stopWaiting.Some? then StopWaitingFrames.MinLength(len) else 0
  {
    if stopWaiting.Some? {
      TotalSizeSnoc([], StopWaiting(stopWaiting.value), len);
      assert [] + Opening(stopWaiting) == Opening(stopWaiting);
    }
  }

  lemma {:induction false} StreamsWritable(fs: seq<StreamFrame>)
    ensures Writable(AsFrames(fs))
  {
    if fs != [] {
      var init := AsFrames(fs[..|fs| - 1]);
      StreamsWritable(fs[..|fs| - 1]);
      assert AsFrames(fs)[..|init|] == init;
    }
  }

  /** A packet with stream frames behind others has room for its header and the authentication tag. */
  lemma PacketFits(others: seq<Frame>, fs: seq<StreamFrame>, len: nat, maxFrameSize: nat)
    requires Writable(others) && Sendable(fs) && TotalSize(others, len) <= maxFrameSize
    requires TotalFull(fs) <= maxFrameSize + 2 - TotalSize(others, len)
    ensures var frames := others + AsFrames(LastToTheEnd(fs));
            Writable(frames) && TotalSize(frames, len) <= maxFrameSize
  {
    AllowanceRepaid(fs, len);
    TotalSizeConcat(others, AsFrames(LastToTheEnd(fs)), len);
    StreamsWritable(LastToTheEnd(fs));
    WritableConcat(others, AsFrames(LastToTheEnd(fs)));
  }

  /** Packets that are not sent: without frames, with a STOP_WAITING frame alone, and, unless it may be sent
      alone, with an ACK frame and at most a STOP_WAITING frame. */
  predicate Pointless(frames: seq<Frame>, hasStopWaiting: bool, maySendOnlyAck: bool) {
    || frames == []
    || (|frames| == 1 && hasStopWaiting)
    || (!maySendOnlyAck && |frames| == 1 && frames[0].Ack?)
    || (!maySendOnlyAck && |frames| == 2 && hasStopWaiting && frames[1].Ack?)
  }

  function CountAcks(fs: seq<Frame>): nat {
    if fs == [] then 0 else CountAcks(fs[..|fs| - 1]) + if fs[|fs| - 1].Ack? then 1 else 0
  }

  /** Nothing but a STOP_WAITING frame and, unless it may travel alone, one ACK frame. */
  ghost predicate Idle(frames: seq<Frame>, maySendOnlyAck: bool) {
    && (forall i :: 0 <= i < |frames| ==> frames[i].Ack? || frames[i].StopWaiting?)
    && CountAcks(frames) <= if maySendOnlyAck then 0 else 1
  }

  /** A STOP_WAITING frame stands in front if there is one, and nowhere else. */
  ghost predicate Arranged(frames: seq<Frame>, hasStopWaiting: bool) {
    && (hasStopWaiting ==> frames != [])
    && (forall i :: 0 <= i < |frames| ==> (frames[i].StopWaiting? <==> i == 0 && hasStopWaiting))
  }

  lemma {:induction false} AllAcks(fs: seq<Frame>, stopWaiting: bool)
    requires forall i :: 0 <= i < |fs| ==> if i == 0 && stopWaiting then fs[i].StopWaiting? else fs[i].Ack?
    ensures CountAcks(fs) == if fs != [] && stopWaiting then |fs| - 1 else |fs|
  {
    if fs != [] {
      AllAcks(fs[..|fs| - 1], stopWaiting);
    }
  }

  /** Frames are not worth a packet exactly if they are nothing but a STOP_WAITING frame, an ACK frame that may not
      travel alone, or both: any control or stream frame is sent, and so are two ACK frames. */
  lemma PointlessIff(frames: seq<Frame>, hasStopWaiting: bool, maySendOnlyAck: bool)
    requires Arranged(frames, hasStopWaiting)
    ensures Pointless(frames, hasStopWaiting, maySendOnlyAck) <==> Idle(frames, maySendOnlyAck)
  {
    if forall i :: 0 <= i < |frames| ==> frames[i].Ack? || frames[i].StopWaiting? {
      AllAcks(frames, hasStopWaiting);
    }
  }

  lemma FramesArranged(others: seq<Frame>, fs: seq<StreamFrame>, stopWaiting: Option<nat>)
    requires InFrontOfStreams(others, stopWaiting)
    ensures Arranged(others + AsFrames(LastToTheEnd(fs)), stopWaiting.Some?)
  {
    forall i | 0 <= i < |others + AsFrames(LastToTheEnd(fs))|
      ensures (others + AsFrames(LastToTheEnd(fs)))[i].StopWaiting? <==> i == 0 && stopWaiting.Some?
    {
      if i >= |others| {
        AsFramesAre(LastToTheEnd(fs), i - |others|);
      }
    }
  }

  lemma {:induction false} AsFramesAre(fs: seq<StreamFrame>, i: nat)
    ensures |AsFrames(fs)| == |fs|
    ensures i < |fs| ==> AsFrames(fs)[i] == Stream(fs[i])
  {
    if fs != [] {
      AsFramesAre(fs[..|fs| - 1], i);
    }
  }

  /** No stream frame is in a packet that is not sent. */
  lemma PointlessHasNoStreams(others: seq<Frame>, fs: seq<StreamFrame>, stopWaiting: Option<nat>, maySendOnlyAck: bool)
    requires InFrontOfStreams(others, stopWaiting)
    requires Pointless(others + AsFrames(LastToTheEnd(fs)), stopWaiting.Some?, maySendOnlyAck)
    ensures fs == []
  {
  }

  // ---------------------------------------------------------------------------------------------
  // The packer
  // ---------------------------------------------------------------------------------------------

  /** What was packed, or why nothing was. */
  datatype PackResult =
    | Packed(number: nat, header: seq<byte>, payload: seq<byte>, frames: seq<Frame>)
    | NothingToSend
    | HeaderNotWritable
    | FrameNotWritable
  {
    /** The length of the sealed packet. */
    function Length(): nat
      requires Packed?
    {
      |header| + |payload| + TAG_SIZE
    }
  }

  /** What the connection contributes to public headers. */
  datatype Connection = Connection(connectionID: nat, truncateConnectionID: bool, diversificationNonce: seq<byte>) {

    function Header(packetNumber: nat, leastUnacked: nat): (h: PublicHeader)
      ensures IsLength(h.packetNumberLen)
    {
      PublicHeader(connectionID, truncateConnectionID, diversificationNonce, packetNumber,
                   GetPacketNumberLengthForPublicHeader(packetNumber, leastUnacked))
    }
  }

  /** What a packet is asked for: a STOP_WAITING frame, whether an ACK frame may travel alone, the streams that are
      visited and the windows negotiated for them, and the delay that an ACK frame reports. */
  datatype Request = Request(
    stopWaiting: Option<nat>, maySendOnlyAck: bool, ids: seq<nat>, negotiated: FC.Negotiated, delay: nat)

  /** What comes of writing a packet. */
  function Written(header: PublicHeader, frames: seq<Frame>, delay: nat): (r: PackResult)
    ensures !r.NothingToSend? && (r.Packed? ==> r.number == header.packetNumber)
  {
    if !header.NonceOk() then HeaderNotWritable
    else
      match Payload(frames, header.packetNumber, header.packetNumberLen, delay)
      case None => FrameNotWritable
      case Some(payload) => Packed(header.packetNumber, HeaderBytes(header), payload, frames)
  }

  /** What comes of packing `frames`. */
  function ResultOf(header: PublicHeader, frames: seq<Frame>, req: Request): PackResult {
    if Pointless(frames, req.stopWaiting.Some?, req.maySendOnlyAck) then NothingToSend
    else Written(header, frames, req.delay)
  }

  /** What a packet is made of: the control frames that are queued for it, the framer, and its header. */
  datatype Materials = Materials(queue: seq<Frame>, framer: Framer, header: PublicHeader) {

    /** The header leaves room for a STOP_WAITING frame. */
    predicate HeaderFits() {
      IsLength(header.packetNumberLen) && |header.diversificationNonce| <= 1300
    }

    function MaxFrameSize(): nat
      requires HeaderFits()
    {
      MAX_FRAME_AND_PUBLIC_HEADER_SIZE - header.GetLength()
    }

    function OtherFrames(req: Request): seq<Frame>
      requires HeaderFits()
    {
      Others(req.stopWaiting, queue, header.packetNumberLen, MaxFrameSize())
    }

    /** The room for stream frames, with the two bytes that the last one will save. */
    function StreamRoom(req: Request): nat
      requires HeaderFits()
    {
      var size := TotalSize(OtherFrames(req), header.packetNumberLen);
      if size <= MaxFrameSize() then MaxFrameSize() + 2 - size else 0
    }

    ghost predicate Ready(req: Request) {
      HeaderFits() && framer.Ready(req.ids) && Proper(framer.queue) && AllQueueable(queue)
    }

    /** The framer afterwards, and the stream frames for the packet. */
    ghost function Framed(req: Request): (Framer, seq<StreamFrame>)
      requires Ready(req)
    {
      framer.Pop(req.ids, StreamRoom(req), req.negotiated)
    }

    ghost function Frames(req: Request): seq<Frame>
      requires Ready(req)
    {
      OtherFrames(req) + AsFrames(LastToTheEnd(Framed(req).1))
    }

    /** The control frames that are left, and BLOCKED frames, for the next packet. */
    ghost function Left(req: Request): seq<Frame>
      requires Ready(req)
    {
      queue[..|queue| - CountTaken(req.stopWaiting, queue, header.packetNumberLen, MaxFrameSize())] +
      BlockedFrames(framer.Blocked(req.ids, StreamRoom(req), req.negotiated))
    }
  }

  /** The sizes of the last `k` frames of the queue. */
  function SizeOfLast(queue: seq<Frame>, k: nat, len: nat): nat
    requires k <= |queue|
  {
    if k == 0 then 0 else SizeOfLast(queue, k - 1, len) + Size(queue[|queue| - k], len)
  }

  lemma {:induction false} SizeOfLastFirst(queue: seq<Frame>, k: nat, len: nat)
    requires 0 < k <= |queue|
    ensures SizeOfLast(queue, k, len) ==
            Size(queue[|queue| - 1], len) + SizeOfLast(queue[..|queue| - 1], k - 1, len)
  {
    hide Size;
    if k > 1 {
      SizeOfLastFirst(queue, k - 1, len);
    }
  }

  lemma {:induction false} FittingFits(queue: seq<Frame>, len: nat, room: nat)
    ensures var k := Fitting(queue, len, room);
            SizeOfLast(queue, k, len) <= room && (k < |queue| ==> SizeOfLast(queue, k + 1, len) > room)
  {
    hide Size;
    if queue != [] && Size(queue[|queue| - 1], len) <= room {
      FittingFits(queue[..|queue| - 1], len, room - Size(queue[|queue| - 1], len));
      var k := Fitting(queue, len, room);
      SizeOfLastFirst(queue, k, len);
      if k < |queue| {
        SizeOfLastFirst(queue, k + 1, len);
      }
    }
  }

  lemma {:induction false} NewestSize(stopWaiting: Option<nat>, queue: seq<Frame>, k: nat, len: nat)
    requires k <= |queue|
    ensures TotalSize(Newest(stopWaiting, queue, k), len) ==
            TotalSize(Opening(stopWaiting), len) + SizeOfLast(queue, k, len)
  {
    hide Size, TotalSize, Opening;
    if k > 0 {
      NewestSize(stopWaiting, queue, k - 1, len);
      TotalSizeSnoc(Newest(stopWaiting, queue, k - 1), queue[|queue| - k], len);
    }
  }

  /** The frames in front of the stream frames fit, and one more of those that are queued would not. */
  lemma OthersFit(m: Materials, req: Request)
    requires m.HeaderFits()
    ensures var len := m.header.packetNumberLen;
            var k := CountTaken(req.stopWaiting, m.queue, len, m.MaxFrameSize());
            && TotalSize(m.OtherFrames(req), len) <= m.MaxFrameSize()
            && (k < |m.queue| ==> TotalSize(m.OtherFrames(req), len) + Size(m.queue[|m.queue| - 1 - k], len) >
                                  m.MaxFrameSize())
  {
    hide Newest, Fitting, TotalSize;
    var len, opening := m.header.packetNumberLen, TotalSize(Opening(req.stopWaiting), m.header.packetNumberLen);
    OpeningSize(req.stopWaiting, len);
    FittingFits(m.queue, len, m.MaxFrameSize() - opening);
    NewestSize(req.stopWaiting, m.queue, CountTaken(req.stopWaiting, m.queue, len, m.MaxFrameSize()), len);
  }

  lemma OthersInFront(m: Materials, req: Request)
    requires m.HeaderFits() && AllQueueable(m.queue)
    ensures InFrontOfStreams(m.OtherFrames(req), req.stopWaiting)
  {
    NewestInFront(req.stopWaiting, m.queue,
                  CountTaken(req.stopWaiting, m.queue, m.header.packetNumberLen, m.MaxFrameSize()));
  }

  lemma FramesAre(m: Materials, req: Request)
    requires m.Ready(req)
    ensures m.Frames(req) == m.OtherFrames(req) + AsFrames(LastToTheEnd(m.Framed(req).1))
  {
  }

  lemma SentUnlessIdle(m: Materials, req: Request)
    requires m.Ready(req)
    ensures Pointless(m.Frames(req), req.stopWaiting.Some?, req.maySendOnlyAck) <==>
            Idle(m.Frames(req), req.maySendOnlyAck)
  {
    hide Materials.Framed, Materials.OtherFrames, Pointless, Idle, AsFrames, LastToTheEnd;
    OthersInFront(m, req);
    FramesArranged(m.OtherFrames(req), m.Framed(req).1, req.stopWaiting);
    PointlessIff(m.Frames(req), req.stopWaiting.Some?, req.maySendOnlyAck);
  }

  class PacketPacker {
    const packetNumberGenerator: PacketNumberGenerator
    const streamFramer: StreamFramer
    var controlFrames: seq<Frame>

    constructor (packetNumberGenerator: PacketNumberGenerator, streamFramer: StreamFramer)
      ensures this.packetNumberGenerator == packetNumberGenerator && this.streamFramer == streamFramer &&
              controlFrames == []
    {
      this.packetNumberGenerator, this.streamFramer, controlFrames := packetNumberGenerator, streamFramer, [];
    }

    ghost predicate Valid()
      reads this, streamFramer, streamFramer.flowControlManager, packetNumberGenerator
    {
      && AllQueueable(controlFrames) && packetNumberGenerator.Valid() && streamFramer.flowControlManager.Valid()
      && streamFramer.blockedFrameQueue == []
    }

    /** What the next packet is made of, if `more` is queued for it. */
    ghost function Supply(more: seq<Frame>, header: PublicHeader): Materials
      reads this, streamFramer, streamFramer.flowControlManager
    {
      Materials(controlFrames + more, streamFramer.Value(), header)
    }

    /** The packet that the materials make. Whatever is packed has room for the tag within the largest packet size,
        so the source's test that it does never fails; and when nothing is sent, no stream frame was taken. */
    method PackPacket(newControlFrames: seq<Frame>, leastUnacked: nat, connection: Connection, req: Request,
                      random: Option<nat>)
      returns (r: PackResult)
      requires Valid() && AllQueueable(newControlFrames)
      requires Supply(newControlFrames, connection.Header(packetNumberGenerator.next, leastUnacked)).Ready(req)
      modifies this`controlFrames, streamFramer, streamFramer.flowControlManager, packetNumberGenerator
      ensures Valid()
      ensures var h := connection.Header(old(packetNumberGenerator.next), leastUnacked);
              var m := old(Supply(newControlFrames, h));
              && r == ResultOf(h, m.Frames(req), req) && (r.NothingToSend? ==> m.Framed(req).1 == [])
              && controlFrames == m.Left(req) && streamFramer.Value() == m.Framed(req).0
      ensures var m := old(Supply(newControlFrames, connection.Header(packetNumberGenerator.next, leastUnacked)));
              r.NothingToSend? <==> Idle(m.Frames(req), req.maySendOnlyAck)
      ensures r.Packed? ==> r.Length() <= MAX_PACKET_SIZE
      ensures packetNumberGenerator.next == old(packetNumberGenerator.next) +
                                            (if r.Packed? then if old(packetNumberGenerator.SkipsNext()) then 2 else 1
                                             else 0)
      ensures old(packetNumberGenerator.SkipsNext()) && r.Packed? ==> !packetNumberGenerator.SkipsNext()
    {
      hide Materials.Framed, Materials.Left, Materials.Frames, Pointless, Written, AllQueueable, Proper, Writable,
        TotalSize, Idle;
      var currentPacketNumber := packetNumberGenerator.Peek();
      var header := connection.Header(currentPacketNumber, leastUnacked);
      ghost var m := Supply(newControlFrames, header);
      AllQueueableConcat(controlFrames, newControlFrames);
      controlFrames := controlFrames + newControlFrames;
      assert controlFrames + [] == controlFrames;
      var payloadFrames := ComposeNextPacket(header, req, m);
      SentUnlessIdle(m, req);
      if Pointless(payloadFrames, req.stopWaiting.Some?, req.maySendOnlyAck) {
        OthersInFront(m, req);
        PointlessHasNoStreams(m.OtherFrames(req), m.Framed(req).1, req.stopWaiting, req.maySendOnlyAck) by {
          FramesAre(m, req);
        }
        return NothingToSend;
      }
      r := Write(header, payloadFrames, req.delay);
      if r.Packed? {
        assert r.Length() <= MAX_PACKET_SIZE;
        var num := packetNumberGenerator.Pop(random);
        assert num == currentPacketNumber;
      }
    }

    static method Write(header: PublicHeader, frames: seq<Frame>, delay: nat) returns (r: PackResult)
      requires Writable(frames) && IsLength(header.packetNumberLen)
      ensures r == Written(header, frames, delay)
      ensures r.Packed? ==> r.Length() == header.GetLength() + TotalSize(frames, header.packetNumberLen) + TAG_SIZE
    {
      var h := WriteHeader(header);
      if h.None? {
        return HeaderNotWritable;
      }
      var b := WritePayload(frames, header.packetNumber, header.packetNumberLen, delay);
      if b.None? {
        return FrameNotWritable;
      }
      return Packed(header.packetNumber, h.value, b.value, frames);
    }

    /** The frames of the next packet fit into it; the source's test that control frames do never fails. */
    method ComposeNextPacket(header: PublicHeader, req: Request, ghost m: Materials) returns (payloadFrames: seq<Frame>)
      requires Valid() && m == Supply([], header) && m.Ready(req)
      modifies this`controlFrames, streamFramer, streamFramer.flowControlManager
      ensures Valid()
      ensures payloadFrames == m.Frames(req) && controlFrames == m.Left(req) && streamFramer.Value() == m.Framed(req).0
      ensures Writable(payloadFrames) && TotalSize(payloadFrames, header.packetNumberLen) <= m.MaxFrameSize()
    {
      hide TotalSize, Writable, AsFrames, LastToTheEnd, CountTaken, Others, AllQueueable, Framer.Pop, Framer.Blocked,
        Proper,
        TakenFromWritten, BlockedFrames;
      assert m.queue == controlFrames;
      var len := header.packetNumberLen;
      var maxFrameSize := MAX_FRAME_AND_PUBLIC_HEADER_SIZE - header.GetLength();
      var payloadLength;
      payloadFrames, payloadLength := PopControlFrames(req.stopWaiting, len, maxFrameSize);
      assert payloadLength <= maxFrameSize;
      var fs := streamFramer.PopStreamFrames(maxFrameSize + 2 - payloadLength, req.ids, req.negotiated);
      OthersInFront(m, req);
      PopFits(m.framer, req.ids, m.StreamRoom(req), req.negotiated);
      PacketFits(payloadFrames, fs, len, maxFrameSize);
      assert streamFramer.blockedFrameQueue == m.framer.Blocked(req.ids, m.StreamRoom(req), req.negotiated);
      payloadFrames := payloadFrames + AsFrames(LastToTheEnd(fs));
      QueueBlockedFrames();
    }

    /** Control frames are taken from the end of the queue, as long as they fit. */
    method PopControlFrames(stopWaiting: Option<nat>, len: nat, maxFrameSize: nat)
      returns (others: seq<Frame>, payloadLength: nat)
      requires AllQueueable(controlFrames) && StopWaitingFrames.MinLength(len) <= maxFrameSize
      modifies this`controlFrames
      ensures others == Others(stopWaiting, old(controlFrames), len, maxFrameSize)
      ensures var k := CountTaken(stopWaiting, old(controlFrames), len, maxFrameSize);
              controlFrames == old(controlFrames)[..|old(controlFrames)| - k]
      ensures AllQueueable(controlFrames)
      ensures payloadLength == TotalSize(others, len) <= maxFrameSize
    {
      hide TotalSize, Size, Queueable;
      OpeningSize(stopWaiting, len);
      others, payloadLength := [], 0;
      if stopWaiting.Some? {
        others := [StopWaiting(stopWaiting.value)];
        payloadLength := StopWaitingFrames.MinLength(len);
      }
      assert others == Opening(stopWaiting);
      var k: nat := 0;
      ghost var queue := controlFrames;
      assert queue[..|queue|] == queue;
      while |controlFrames| > 0
        invariant k <= |queue| && controlFrames == queue[..|queue| - k] && AllQueueable(controlFrames)
        invariant others == Newest(stopWaiting, queue, k)
        invariant payloadLength == TotalSize(others, len) <= maxFrameSize
        invariant CountTaken(stopWaiting, queue, len, maxFrameSize) ==
                  k + Fitting(controlFrames, len, maxFrameSize - payloadLength)
        decreases |controlFrames|
      {
        var frame := controlFrames[|controlFrames| - 1];
        AllQueueableAt(controlFrames, |controlFrames| - 1);
        var minLength := MinLength(frame, len);
        if payloadLength + minLength > maxFrameSize {
          break;
        }
        TotalSizeSnoc(others, frame, len);
        others := others + [frame];
        payloadLength := payloadLength + minLength;
        controlFrames := controlFrames[..|controlFrames| - 1];
        k := k + 1;
      }
    }

    /** The loop over the framer's BLOCKED frames. */
    method QueueBlockedFrames()
      requires AllQueueable(controlFrames)
      modifies this`controlFrames, streamFramer`blockedFrameQueue
      ensures AllQueueable(controlFrames) && streamFramer.blockedFrameQueue == []
      ensures controlFrames == old(controlFrames) + BlockedFrames(old(streamFramer.blockedFrameQueue))
    {
      hide BlockedFrame;
      ghost var all := controlFrames + BlockedFrames(streamFramer.blockedFrameQueue);
      var b := streamFramer.PopBlockedFrame();
      while b.Some?
        invariant b.None? ==> streamFramer.blockedFrameQueue == []
        invariant AllQueueable(controlFrames)
        invariant all == WithBlocked(controlFrames, b, streamFramer.blockedFrameQueue)
        decreases b.Some?, |streamFramer.blockedFrameQueue|
      {
        BlockedQueued(controlFrames, b.value, streamFramer.blockedFrameQueue);
        BlockedQueueable(controlFrames, b.value);
        controlFrames := controlFrames + [BlockedFrame(b.value)];
        b := streamFramer.PopBlockedFrame();
      }
    }
  }
}
