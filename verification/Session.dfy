/** One pass through the sending loop of a session (session.go): the handler of sent packets, the framer and
    the packer at work together. */
module Sessions {
  import opened Frames
  import opened AckFrames
  import opened SentPackets
  import opened SentPacketHandlers
  import opened Ledger
  import opened StreamFramers
  import opened Conservation
  import opened SenderData
  import opened PacketPackers
  import opened PublicHeaders
  import SenderNumbers
  import StopWaitingFrames
  import FC = FlowControl
  import SendFlow
  import opened PacketNumberGenerators

  const SKIP_PACKET_AVERAGE_PERIOD_LENGTH := 500

  datatype SendResult = NotAllowed | NothingSent | Sent(length: nat) | Failed

  // ---------------------------------------------------------------------------------------------
  // What a pass through the loop sends
  // ---------------------------------------------------------------------------------------------

  /** The control frames of a lost packet, in order; ACK and STOP_WAITING frames are not sent again. */
  function ControlFrames(fs: seq<Frame>): seq<Frame> {
    if fs == [] then []
    else
      var f := fs[|fs| - 1];
      ControlFrames(fs[..|fs| - 1]) + if f.Control? then [f] else []
  }

  /** The control frames of all lost packets, the last packet first. */
  function LostControlFrames(ps: seq<Packet>): seq<Frame> {
    if ps == [] then [] else ControlFrames(ps[|ps| - 1].frames) + LostControlFrames(ps[..|ps| - 1])
  }

  /** The stream frames of all lost packets, the last packet first. */
  function LostStreamFrames(ps: seq<Packet>): seq<StreamFrame> {
    if ps == [] then [] else StreamFrames(ps[|ps| - 1].frames) + LostStreamFrames(ps[..|ps| - 1])
  }

  lemma {:induction false} DequeueAllQueue(s: Sender)
    ensures s.DequeueAll().queue == s.queue + LostStreamFrames(s.handler.queue)
    decreases |s.handler.queue|
  {
    var ps := s.handler.queue;
    if ps != [] {
      DequeueAllQueue(s.Dequeue());
      var a, b := StreamFrames(ps[|ps| - 1].frames), LostStreamFrames(ps[..|ps| - 1]);
      assert s.queue + a + b == s.queue + (a + b);
    }
  }

  /** What a pass through the loop is given besides the session's state. */
  datatype Input = Input(
    windowUpdates: seq<Frame>, ack: Option<AckFrame>, maySendOnlyAck: bool, connection: Connection,
    ids: seq<nat>, negotiated: FC.Negotiated, delay: nat) {

    predicate Proper() {
      AllQueueable(windowUpdates) && (ack.Some? ==> Built(ack.value)) && |connection.diversificationNonce| <= 1300
    }
  }

  /** A session as a value: its sender, the packer's control frames, the flow controllers, the streams that count
      towards the connection, and the largest number that was announced in a STOP_WAITING frame. */
  datatype Snapshot = Snapshot(
    sender: Sender, control: seq<Frame>, cs: FC.Controllers, contributes: map<nat, bool>, counting: seq<nat>,
    announced: nat) {

    /** What flow control is about. */
    function Flow(): SendFlow.State {
      SendFlow.State(sender.streams, sender.queue, cs, contributes, counting)
    }

    function TimedOut(expired: bool): Snapshot {
      if expired then this.(sender := sender.(handler := sender.handler.QueueFirst().QueueFirst())) else this
    }

    ghost predicate Ready(input: Input) {
      && input.Proper() && AllQueueable(control)
      && Conserved(sender) && SenderNumbers.Inv(sender) && AllIn(sender.streams, input.ids)
    }

    function NewControlFrames(input: Input): seq<Frame> {
      LostControlFrames(sender.handler.queue) + input.windowUpdates +
      if input.ack.Some? then [Frame.Ack(input.ack.value)] else []
    }

    /** With an ACK frame, when there is something new to announce; with lost stream data, always. */
    function StopWaiting(input: Input): Option<nat> {
      var lost, next := sender.DequeueAll().queue != [], sender.handler.nextLeastUnacked;
      if (input.ack.Some? || lost) && (next > announced || (lost && next > 0)) then Some(next) else None
    }

    /** Lost packets are dequeued, and what a STOP_WAITING frame announces is remembered. */
    function Prepared(input: Input): Snapshot {
      this.(sender := sender.DequeueAll(),
            announced := if StopWaiting(input).Some? then sender.handler.nextLeastUnacked else announced)
    }

    function RequestFor(input: Input): Request {
      Request(StopWaiting(input), input.maySendOnlyAck, input.ids, input.negotiated, input.delay)
    }

    function MaterialsFor(input: Input): Materials
      requires sender.handler.GetLeastUnacked() >= 0
    {
      Materials(control + NewControlFrames(input), Framer(sender.DequeueAll().queue, sender.streams, cs, contributes),
                input.connection.Header(sender.next, sender.handler.GetLeastUnacked()))
    }
  }

  // ---------------------------------------------------------------------------------------------
  // Conservation, as the sending loop uses it
  // ---------------------------------------------------------------------------------------------

  lemma ConservedIsEvolved(s: Sender)
    ensures Conserved(s) <==> Evolved(s.Open([]), {}, map[])
  {
    forall pieces
      ensures Refines({}, map[], pieces)
    {
      assert forall x :: x in pieces ==> Untaken(map[], x);
    }
    if Conserved(s) {
      var pieces :| s.Open([]).Balanced(pieces) && Tiles(pieces, s.streams);
      assert Refines({}, map[], pieces);
    }
  }

  lemma GrowsFromNothing(streams: Streams)
    ensures Grows(map[], streams)
  {
  }

  lemma QueueIsPieces(b: Books, pieces: set<StreamFrame>, i: nat)
    requires b.Balanced(pieces) && i < |b.queue|
    ensures Piece(b.queue[i]) in pieces
  {
    CountAt(b.queue, i);
    assert b.Places(Piece(b.queue[i])) > 0;
  }

  lemma {:induction false} ProperFrom(fs: seq<StreamFrame>)
    requires forall i :: 0 <= i < |fs| ==> fs[i].data != [] || fs[i].fin
    ensures Proper(fs)
  {
    if fs != [] {
      assert forall i :: 0 <= i < |fs[1..]| ==> fs[1..][i] == fs[i + 1];
      ProperFrom(fs[1..]);
    }
  }

  /** Frames that wait for retransmission carry data or a FIN, so the framer never makes a frame that cannot be
      written. */
  lemma QueueIsProper(s: Sender)
    requires Conserved(s)
    ensures Proper(s.queue) && TakenFromWritten(s.streams)
  {
    var pieces :| s.Open([]).Balanced(pieces) && Tiles(pieces, s.streams);
    forall i | 0 <= i < |s.queue|
      ensures s.queue[i].data != [] || s.queue[i].fin
    {
      QueueIsPieces(s.Open([]), pieces, i);
      assert Carries(s.streams, Piece(s.queue[i]));
    }
    ProperFrom(s.queue);
    ConservedIsEvolved(s);
    EvolvedTaken(s.Open([]), {}, map[]);
  }

  lemma DequeuedConserved(s: Sender)
    requires Conserved(s)
    ensures Conserved(s.DequeueAll())
  {
    ConservedIsEvolved(s);
    DequeueAllEvolved(s, {}, map[]);
    ConservedIsEvolved(s.DequeueAll());
  }

  lemma StepConserved(s: Sender, e: Event, t: Sender)
    requires Conserved(s) && Leads(s, e, t)
    ensures Conserved(t)
  {
    hide Evolved, Step, Enabled;
    ConservedIsEvolved(s);
    GrowsFromNothing(s.streams);
    LeadsEvolved(s, e, t);
    ConservedIsEvolved(t);
  }

  lemma InitialConserved()
    ensures Conserved(INITIAL)
  {
    RunConserves([], INITIAL);
  }

  // ---------------------------------------------------------------------------------------------
  // A pass through the loop is a step of the sender
  // ---------------------------------------------------------------------------------------------

  lemma {:induction false} ControlQueueable(fs: seq<Frame>)
    ensures AllQueueable(ControlFrames(fs))
  {
    if fs != [] {
      var init, f := ControlFrames(fs[..|fs| - 1]), fs[|fs| - 1];
      ControlQueueable(fs[..|fs| - 1]);
      assert (init + [f])[..|init|] == init && init + [] == init;
    }
  }

  lemma {:induction false} LostQueueable(ps: seq<Packet>)
    ensures AllQueueable(LostControlFrames(ps))
  {
    if ps != [] {
      ControlQueueable(ps[|ps| - 1].frames);
      LostQueueable(ps[..|ps| - 1]);
      AllQueueableConcat(ControlFrames(ps[|ps| - 1].frames), LostControlFrames(ps[..|ps| - 1]));
    }
  }

  lemma LostOneMore(fs: seq<Frame>, ps: seq<Packet>)
    ensures fs + LostControlFrames(ps) ==
            if ps == [] then fs else fs + ControlFrames(ps[|ps| - 1].frames) + LostControlFrames(ps[..|ps| - 1])
  {
  }

  lemma NewQueueable(c: Snapshot, input: Input)
    requires input.Proper()
    ensures AllQueueable(c.NewControlFrames(input))
  {
    var lost := LostControlFrames(c.sender.handler.queue);
    LostQueueable(c.sender.handler.queue);
    AllQueueableConcat(lost, input.windowUpdates);
    if input.ack.Some? {
      var a := [Frame.Ack(input.ack.value)];
      assert AllQueueable(a[..0]);
      AllQueueableConcat(lost + input.windowUpdates, a);
    } else {
      assert lost + input.windowUpdates + [] == lost + input.windowUpdates;
    }
  }

  lemma MaterialsReady(c: Snapshot, input: Input)
    requires c.Ready(input)
    ensures c.sender.handler.GetLeastUnacked() >= 0 && c.MaterialsFor(input).Ready(c.RequestFor(input))
  {
    hide Conserved, AllQueueable, AllIn, SenderNumbers.NoTwoGaps;
    SenderNumbers.LeastUnackedBound(c.sender);
    NewQueueable(c, input);
    AllQueueableConcat(c.control, c.NewControlFrames(input));
    DequeuedConserved(c.sender);
    QueueIsProper(c.sender.DequeueAll());
    DequeueAllStreams(c.sender);
  }

  /** What comes of packing. */
  ghost function PackedBy(c: Snapshot, input: Input): PackResult
    requires c.Ready(input)
  {
    MaterialsReady(c, input);
    var m, req := c.MaterialsFor(input), c.RequestFor(input);
    ResultOf(m.header, m.Frames(req), req)
  }

  /** The session when the frames for the packet have been taken. */
  ghost function Emptied(c: Snapshot, input: Input): Snapshot
    requires c.Ready(input)
  {
    MaterialsReady(c, input);
    var m, req := c.MaterialsFor(input), c.RequestFor(input);
    var framer := m.Framed(req).0;
    Snapshot(c.sender.DequeueAll().(queue := framer.queue, streams := framer.streams), m.Left(req), framer.cs,
             framer.contributes, c.counting, c.Prepared(input).announced)
  }

  /** The packet for the handler of sent packets. */
  ghost function Outgone(c: Snapshot, input: Input): Packet
    requires c.Ready(input) && PackedBy(c, input).Packed?
  {
    MaterialsReady(c, input);
    var m, req := c.MaterialsFor(input), c.RequestFor(input);
    PacketWith(c.sender.next, m.OtherFrames(req), m.Framed(req).1, PackedBy(c, input).Length())
  }

  /** The session afterwards, unless packing failed; the generator leaves out `skip` numbers. */
  ghost function Passed(c: Snapshot, input: Input, skip: nat): Snapshot
    requires c.Ready(input)
  {
    var t := Emptied(c, input);
    if !PackedBy(c, input).Packed? then t
    else t.(sender := t.sender.SentNext(Outgone(c, input), skip), control := t.control + input.windowUpdates)
  }

  lemma EmptiedIs(c: Snapshot, input: Input)
    requires c.Ready(input)
    ensures var t := Emptied(c, input).sender;
            t == c.sender.(handler := c.sender.handler.(queue := []), queue := t.queue, streams := t.streams)
  {
    hide Materials.Framed, Materials.Left, Conserved, SenderNumbers.Inv, AllIn, AllQueueable, LostControlFrames;
    DequeueAllStreams(c.sender);
  }

  lemma PackedIs(c: Snapshot, input: Input)
    requires c.Ready(input) && PackedBy(c, input).Packed?
    ensures var r, p := PackedBy(c, input), Outgone(c, input);
            r.number == p.number == c.sender.next && p == Packet(r.number, r.frames, r.Length(), 0)
  {
    hide Materials.Left, Framer.Pop, Conserved, SenderNumbers.Inv, AllIn, AllQueueable, Sender.DequeueAll,
      LostControlFrames, Others;
    MaterialsReady(c, input);
  }

  /** The framer takes what the sender of the reference takes. */
  lemma PopIsFill(s: Sender, cs: FC.Controllers, contributes: map<nat, bool>, ids: seq<nat>, maxLen: nat,
                  negotiated: FC.Negotiated)
    requires AllIn(s.streams, ids) && TakenFromWritten(s.streams)
    ensures var v := Framer(s.queue, s.streams, cs, contributes);
            var visits := VisitsFor(s.streams, cs, contributes, ids, v.Room(maxLen), negotiated);
            var (framer, fs) := v.Pop(ids, maxLen, negotiated);
            && Known(s.streams, visits)
            && Fill(s, maxLen, visits) == (s.(queue := framer.queue, streams := framer.streams), fs)
  {
    hide FlowAll, VisitAll, VisitsFor, PopFrames;
    var v := Framer(s.queue, s.streams, cs, contributes);
    FlowIsVisitAll(s.streams, cs, contributes, ids, v.Room(maxLen), negotiated);
  }

  /** The step that the pass is. */
  ghost function EventOf(c: Snapshot, input: Input, skip: nat): Event
    requires c.Ready(input)
  {
    MaterialsReady(c, input);
    var m, req, r := c.MaterialsFor(input), c.RequestFor(input), PackedBy(c, input);
    var maxLen := m.StreamRoom(req);
    var visits := VisitsFor(m.framer.streams, c.cs, c.contributes, input.ids, m.framer.Room(maxLen), input.negotiated);
    Send(m.OtherFrames(req), if r.Packed? then r.Length() else 0, maxLen, visits, r.Packed?, skip)
  }

  lemma SendIs(s: Sender, e: Event, t: Sender, fs: seq<StreamFrame>)
    requires e.Send? && Known(s.streams, e.visits) && StreamFrames(e.others) == [] && e.skip <= 1 &&
             TakenFromWritten(s.streams)
    requires s.DequeueAll().streams == s.streams && Fill(s.DequeueAll(), e.maxLen, e.visits) == (t, fs)
    requires fs == [] || e.worthwhile
    ensures Leads(s, e, if e.worthwhile then t.SentNext(PacketWith(s.next, e.others, fs, e.length), e.skip) else t)
    ensures Outgoing(s, e).Some? <==> e.worthwhile
  {
    hide Fill, Sender.DequeueAll;
  }

  /** What a pass takes is what its step takes. */
  lemma PassFills(c: Snapshot, input: Input, skip: nat)
    requires c.Ready(input)
    ensures c.sender.handler.GetLeastUnacked() >= 0 && c.MaterialsFor(input).Ready(c.RequestFor(input))
    ensures var e, d := EventOf(c, input, skip), c.sender.DequeueAll();
            var (framer, fs) := c.MaterialsFor(input).Framed(c.RequestFor(input));
            && d.streams == c.sender.streams && TakenFromWritten(d.streams) && Known(d.streams, e.visits)
            && Fill(d, e.maxLen, e.visits) == (d.(queue := framer.queue, streams := framer.streams), fs)
  {
    hide VisitsFor, Fill, FlowAll, PopFrames, Conserved, SenderNumbers.Inv, AllIn, Proper, AllQueueable;
    MaterialsReady(c, input);
    var m, req := c.MaterialsFor(input), c.RequestFor(input);
    DequeueAllStreams(c.sender);
    PopIsFill(c.sender.DequeueAll(), c.cs, c.contributes, input.ids, m.StreamRoom(req), input.negotiated);
  }

  /** Unless packing fails, a pass is a step of the sender, and it sends a packet exactly when one was packed. */
  lemma PassIsStep(c: Snapshot, input: Input, skip: nat)
    requires c.Ready(input) && skip <= 1
    requires var r := PackedBy(c, input); r.Packed? || r.NothingToSend?
    ensures var e := EventOf(c, input, skip);
            && Leads(c.sender, e, Passed(c, input, skip).sender)
            && (Outgoing(c.sender, e).Some? <==> PackedBy(c, input).Packed?)
  {
    hide VisitsFor, Fill, Framer.Pop, Conserved, SenderNumbers.Inv, Leads, Outgoing, Sender.DequeueAll, AllIn, Known,
      Materials.Left, TakenFromWritten, AllQueueable;
    PassFills(c, input, skip);
    var m, req, d, e := c.MaterialsFor(input), c.RequestFor(input), c.sender.DequeueAll(), EventOf(c, input, skip);
    var (framer, fs) := m.Framed(req);
    OthersInFront(m, req);
    if PackedBy(c, input).NothingToSend? {
      PointlessHasNoStreams(m.OtherFrames(req), fs, req.stopWaiting, req.maySendOnlyAck);
    }
    SendIs(c.sender, e, d.(queue := framer.queue, streams := framer.streams), fs);
  }

  /** Packing fails exactly if there is something to send and the nonce has the wrong length, or an ACK frame for the
      packet is not consistent: stream frames, STOP_WAITING frames and control frames can always be written. */
  lemma PackingFailsIff(c: Snapshot, input: Input)
    requires c.Ready(input)
    ensures c.sender.handler.GetLeastUnacked() >= 0 && c.MaterialsFor(input).Ready(c.RequestFor(input))
    ensures var m, req := c.MaterialsFor(input), c.RequestFor(input);
            var others := m.OtherFrames(req);
            PackedBy(c, input).HeaderNotWritable? || PackedBy(c, input).FrameNotWritable? <==>
            && !Pointless(m.Frames(req), req.stopWaiting.Some?, req.maySendOnlyAck)
            && (|| !m.header.NonceOk()
                || exists i :: 0 <= i < |others| && others[i].Ack? && !Consistent(others[i].ack))
  {
    hide Pointless, FrameBytes, Payload, Materials.Frames, Materials.OtherFrames, Conserved, SenderNumbers.Inv;
    MaterialsReady(c, input);
    var m, req := c.MaterialsFor(input), c.RequestFor(input);
    var others, fs := m.OtherFrames(req), m.Frames(req);
    PayloadFailsIff(fs, m.header.packetNumber, m.header.packetNumberLen, req.delay);
    forall i | 0 <= i < |fs|
      ensures FrameBytes(fs[i], m.header.packetNumber, m.header.packetNumberLen, req.delay).None? <==>
              i < |others| && others[i].Ack? && !Consistent(others[i].ack)
    {
      FrameFailsIff(c, input, i);
    }
    FramesAre(m, req);
  }

  lemma FrameFailsIff(c: Snapshot, input: Input, i: nat)
    requires c.Ready(input) && c.sender.handler.GetLeastUnacked() >= 0
    requires var m, req := c.MaterialsFor(input), c.RequestFor(input); m.Ready(req) && i < |m.Frames(req)|
    ensures var m, req := c.MaterialsFor(input), c.RequestFor(input);
            var others, f := m.OtherFrames(req), m.Frames(req)[i];
            FrameBytes(f, m.header.packetNumber, m.header.packetNumberLen, req.delay).None? <==>
            i < |others| && others[i].Ack? && !Consistent(others[i].ack)
  {
    hide Framer.Pop, Conserved, AllIn, SenderNumbers.Inv, Materials.OtherFrames, Sender.DequeueAll, LostControlFrames,
      FrameBytes, Consistent, AllQueueable, AsFrames, LastToTheEnd, TakenFromWritten, Proper, Connection.Header;
    var m, req := c.MaterialsFor(input), c.RequestFor(input);
    var others, fs := m.OtherFrames(req), m.Framed(req).1;
    if i < |others| {
      StopWaitingWrites(c, input);
      OtherFailsIff(m, req, i);
    } else {
      PopFits(m.framer, req.ids, m.StreamRoom(req), req.negotiated);
      SendableAt(fs, i - |others|);
      StreamWrites(AsFrames(LastToTheEnd(fs))[i - |others|], m.header, req.delay);
    }
  }

  lemma StreamWrites(f: Frame, h: PublicHeader, delay: nat)
    requires f.Stream? && (f.stream.data != [] || f.stream.fin)
    ensures FrameBytes(f, h.packetNumber, h.packetNumberLen, delay).Some?
  {
  }

  lemma StopWaitingWrites(c: Snapshot, input: Input)
    requires SenderNumbers.Inv(c.sender) && c.sender.handler.GetLeastUnacked() >= 0
    ensures var h, sw := c.MaterialsFor(input).header, c.StopWaiting(input);
            sw.Some? ==> FrameBytes(Frame.StopWaiting(sw.value), h.packetNumber, h.packetNumberLen, input.delay).Some?
  {
    hide SenderNumbers.Inv, Sender.DequeueAll;
    if c.sender.handler.nextLeastUnacked > 0 {
      SenderNumbers.StopWaitingWritable(c.sender);
    }
  }

  lemma OtherFailsIff(m: Materials, req: Request, i: nat)
    requires m.HeaderFits() && AllQueueable(m.queue) && i < |m.OtherFrames(req)|
    requires req.stopWaiting.Some? ==>
               FrameBytes(Frame.StopWaiting(req.stopWaiting.value), m.header.packetNumber, m.header.packetNumberLen,
                          req.delay).Some?
    ensures var f := m.OtherFrames(req)[i];
            FrameBytes(f, m.header.packetNumber, m.header.packetNumberLen, req.delay).None? <==>
              f.Ack? && !Consistent(f.ack)
  {
    hide Newest, CountTaken, Consistent, StopWaitingFrames.Write;
    NewestAt(req.stopWaiting, m.queue, CountTaken(req.stopWaiting, m.queue, m.header.packetNumberLen, m.MaxFrameSize()),
             i);
  }

  /** The frames at the end of a packet are the stream frames, and none is empty without a FIN. */
  lemma {:induction false} SendableAt(fs: seq<StreamFrame>, i: nat)
    requires Sendable(fs)
    ensures |AsFrames(LastToTheEnd(fs))| == |fs|
    ensures i < |fs| ==> var f := AsFrames(LastToTheEnd(fs))[i]; f.Stream? && (f.stream.data != [] || f.stream.fin)
  {
    if fs != [] {
      var init := fs[..|fs| - 1];
      assert LastToTheEnd(fs)[..|fs| - 1] == init;
      AsFramesAt(init, i);
    }
  }

  lemma {:induction false} AsFramesAt(fs: seq<StreamFrame>, i: nat)
    requires Sendable(fs)
    ensures |AsFrames(fs)| == |fs|
    ensures i < |fs| ==> AsFrames(fs)[i] == Stream(fs[i]) && (fs[i].data != [] || fs[i].fin)
  {
    if fs != [] {
      AsFramesAt(fs[..|fs| - 1], i);
    }
  }

  /** A pass keeps conservation, the packet numbers in order, and the number of tracked packets within its limit. */
  lemma PassKeeps(c: Snapshot, input: Input, skip: nat)
    requires c.Ready(input) && skip <= 1 && c.sender.handler.Tracked() < MAX_TRACKED_SENT_PACKETS
    requires var r := PackedBy(c, input); r.Packed? || r.NothingToSend?
    ensures Sound(Passed(c, input, skip).sender)
  {
    hide PackedBy, Passed, EventOf, Conserved, SenderNumbers.Inv, Step, Enabled;
    PassIsStep(c, input, skip);
    SoundStep(c.sender, EventOf(c, input, skip), Passed(c, input, skip).sender);
  }

  // ---------------------------------------------------------------------------------------------
  // A pass and flow control
  // ---------------------------------------------------------------------------------------------

  /** The room for stream frames in the packet of a pass. */
  ghost function RoomOf(c: Snapshot, input: Input): nat
    requires c.Ready(input)
  {
    MaterialsReady(c, input);
    c.MaterialsFor(input).StreamRoom(c.RequestFor(input))
  }

  lemma EmptiedIsPack(c: Snapshot, input: Input)
    requires c.Ready(input)
    ensures var s := c.Prepared(input).Flow();
            var e := SendFlow.Pack(RoomOf(c, input), input.ids, input.negotiated);
            SendFlow.Enabled(s, e) && Emptied(c, input).Flow() == SendFlow.Step(s, e)
  {
    hide Conserved, SenderNumbers.Inv, AllIn, AllQueueable, StreamFramers.Proper, LostControlFrames, Materials.Left,
      Materials.StreamRoom;
    hide StreamFramers.FlowAll, StreamFramers.PopFrames;
    MaterialsReady(c, input);
    DequeueAllStreams(c.sender);
  }

  /** For flow control, a pass requeues the stream frames of the lost packets and fills a packet. */
  lemma PassIsFlow(c: Snapshot, input: Input, skip: nat)
    requires c.Ready(input)
    ensures var s := SendFlow.Step(c.Flow(), SendFlow.Requeue(LostStreamFrames(c.sender.handler.queue)));
            var e := SendFlow.Pack(RoomOf(c, input), input.ids, input.negotiated);
            SendFlow.Enabled(s, e) && Passed(c, input, skip).Flow() == SendFlow.Step(s, e)
  {
    hide Conserved, SenderNumbers.Inv, AllIn, AllQueueable, Emptied, PackedBy, Outgone, RoomOf;
    EmptiedIsPack(c, input);
    DequeueAllStreams(c.sender);
    DequeueAllQueue(c.sender);
  }

  /** A pass keeps the counts right, and sends no more on a stream, or on the connection, than any bound that the window
      in force keeps to. */
  lemma PassCounted(c: Snapshot, input: Input, skip: nat, x: nat, w: nat)
    requires c.Ready(input) && SendFlow.Counted(c.Flow())
    ensures SendFlow.Counted(Passed(c, input, skip).Flow())
    ensures x in c.cs && c.cs[x].bytesSent <= w && SendFlow.InForce(c.cs, input.negotiated, x) <= w ==>
            x in Passed(c, input, skip).cs && Passed(c, input, skip).cs[x].bytesSent <= w
  {
    hide Conserved, SenderNumbers.Inv, AllIn, AllQueueable, Passed, PackedBy, RoomOf, SendFlow.Counts,
      StreamFramers.Framer.Pop;
    var requeue := SendFlow.Requeue(LostStreamFrames(c.sender.handler.queue));
    var s := SendFlow.Step(c.Flow(), requeue);
    var e := SendFlow.Pack(RoomOf(c, input), input.ids, input.negotiated);
    PassIsFlow(c, input, skip);
    SendFlow.StepCounted(c.Flow(), requeue);
    SendFlow.StepCounted(s, e);
    if x in c.cs && c.cs[x].bytesSent <= w && SendFlow.InForce(c.cs, input.negotiated, x) <= w {
      SendFlow.StepInv(s, e, x, w);
      SendFlow.PackKeys(s, e);
    }
  }

  // ---------------------------------------------------------------------------------------------
  // The session
  // ---------------------------------------------------------------------------------------------

  /** What every step of a session keeps: conservation, packet numbers in order, and a bounded number of packets. */
  ghost predicate Sound(s: Sender) {
    Conserved(s) && SenderNumbers.Inv(s) && s.handler.Tracked() <= MAX_TRACKED_SENT_PACKETS
  }

  lemma SoundStep(s: Sender, e: Event, t: Sender)
    requires Sound(s) && Leads(s, e, t) && (e.Send? ==> s.handler.Tracked() < MAX_TRACKED_SENT_PACKETS)
    ensures Sound(t)
  {
    hide Conserved, SenderNumbers.Inv, Step, Enabled;
    StepConserved(s, e, t);
    SenderNumbers.StepInv(s, e);
    SenderNumbers.StepTracked(s, e);
  }

  lemma TimedOutSound(c: Snapshot, expired: bool)
    requires Sound(c.sender)
    ensures Sound(c.TimedOut(expired).sender)
  {
    hide Conserved, SenderNumbers.Inv;
    var s := c.sender;
    var t := s.(handler := s.handler.QueueFirst());
    QueueIsProper(s);
    SoundStep(s, Timeout, t);
    QueueIsProper(t);
    SoundStep(t, Timeout, t.(handler := t.handler.QueueFirst()));
  }

  lemma SoundTracked(s: Sender)
    requires Sound(s)
    ensures Conserved(s) && SenderNumbers.Inv(s) && s.handler.Tracked() <= MAX_TRACKED_SENT_PACKETS
    ensures s.handler.lastSent < s.next
  {
  }

  /** A stream that is not open has no flow controller. */
  lemma NoController(c: Snapshot, id: nat)
    requires SendFlow.Counted(c.Flow()) && id != 0 && id !in c.sender.streams
    ensures id !in c.cs
  {
  }

  /** What flow control sees of a change to a stream. */
  function FlowEvent(e: Event): SendFlow.Event
    requires e.WriteData? || e.CloseStream? || e.FailStream?
  {
    match e
    case WriteData(id, data) => SendFlow.WriteData(id, data)
    case CloseStream(id) => SendFlow.CloseStream(id)
    case FailStream(id) => SendFlow.FailStream(id)
  }

  function Outcome(r: PackResult): SendResult {
    match r
    case Packed(_, _, _, _) => SendResult.Sent(r.Length())
    case NothingToSend => NothingSent
    case _ => Failed
  }

  class Session {
    const sentPacketHandler: SentPacketHandler
    const streamFramer: StreamFramer
    const packer: PacketPacker
    ghost var gaps: set<int>
    ghost var counting: seq<nat>

    constructor (connectionWindow: nat)
      requires connectionWindow <= FC.MAX_RECEIVE_CONNECTION_WINDOW
      ensures Valid() && State() == INITIAL && Value().Flow() == SendFlow.Initial(connectionWindow)
    {
      var generator := new PacketNumberGenerator(SKIP_PACKET_AVERAGE_PERIOD_LENGTH);
      var manager := new FC.FlowControlManager(connectionWindow);
      var framer := new StreamFramer(manager);
      sentPacketHandler := new SentPacketHandler();
      streamFramer := framer;
      packer := new PacketPacker(generator, framer);
      gaps, counting := {}, [];
      InitialConserved();
      SenderNumbers.InitialInv();
      SendFlow.InitialCounted(connectionWindow);
    }

    ghost function State(): Sender
      reads this, sentPacketHandler, sentPacketHandler.stopWaitingManager, streamFramer, packer.packetNumberGenerator
    {
      Sender(sentPacketHandler.Value(), streamFramer.retransmissionQueue, streamFramer.streams,
             packer.packetNumberGenerator.next, gaps)
    }

    ghost function Value(): Snapshot
      reads this, sentPacketHandler, sentPacketHandler.stopWaitingManager, streamFramer,
            streamFramer.flowControlManager,
            packer, packer.packetNumberGenerator
    {
      Snapshot(State(), packer.controlFrames, streamFramer.flowControlManager.controllers,
               streamFramer.flowControlManager.contributes, counting,
               sentPacketHandler.stopWaitingManager.largestLeastUnackedSent)
    }

    ghost predicate Valid()
      reads this, sentPacketHandler, sentPacketHandler.stopWaitingManager, streamFramer,
            streamFramer.flowControlManager,
            packer, packer.packetNumberGenerator
    {
      && sentPacketHandler.Valid() && packer.streamFramer == streamFramer && packer.Valid() && Sound(State())
      && SendFlow.Counted(Value().Flow())
    }

    /** An ACK frame arrives. */
    method HandleAckFrame(ack: AckFrame, withPacketNumber: nat) returns (r: AckResult)
      requires Valid() && ack.WellFormed()
      modifies sentPacketHandler, sentPacketHandler.stopWaitingManager`nextLeastUnacked
      ensures Valid() && r == old(State()).handler.AckResultOf(ack, withPacketNumber)
      ensures Leads(old(State()), GetAck(ack, withPacketNumber), State())
    {
      hide Conserved, SenderNumbers.Inv, SendFlow.Counted;
      QueueIsProper(State());
      r := sentPacketHandler.ReceivedAck(ack, withPacketNumber);
      SoundStep(old(State()), GetAck(ack, withPacketNumber), State());
    }

    /** Streams are written to, closed, or fail; writing is possible at any time. */
    method ChangeStream(e: Event)
      requires Valid() && (e.WriteData? || e.CloseStream? || e.FailStream?) && Enabled(State(), e)
      modifies streamFramer`streams
      ensures Valid() && Leads(old(State()), e, State())
      ensures SendFlow.Enabled(old(Value()).Flow(), FlowEvent(e)) &&
              Value().Flow() == SendFlow.Step(old(Value()).Flow(), FlowEvent(e))
    {
      hide Conserved, SenderNumbers.Inv, SendFlow.Counted, Sound, TotalLength, AllQueueable, StopWaitingManager.Valid,
        PacketNumberGenerator.Valid, FC.FlowControlManager.Valid, Handler.Valid;
      SoundTracked(State());
      QueueIsProper(State());
      var s := streamFramer.streams[e.id];
      match e {
        case WriteData(id, data) =>
          if !s.failed {
            s := s.(written := s.written + data);
          }
        case CloseStream(_) => s := s.(closed := true);
        case FailStream(_) => s := s.(closed := true, failed := true);
      }
      streamFramer.streams := streamFramer.streams[e.id := s];
      SoundStep(old(State()), e, State());
      SendFlow.StepCounted(old(Value()).Flow(), FlowEvent(e));
    }

    /** A stream is opened and gets a flow controller; streams 1 and 3 do not count for the connection. */
    method OpenStream(id: nat, streamWindow: nat)
      requires Valid() && id != 0 && id !in streamFramer.streams && streamWindow <= FC.MAX_RECEIVE_STREAM_WINDOW
      modifies this`counting, streamFramer`streams, streamFramer.flowControlManager
      ensures Valid() && Leads(old(State()), Event.OpenStream(id), State())
      ensures var e := SendFlow.OpenStream(id, id != 1 && id != 3, streamWindow);
              SendFlow.Enabled(old(Value()).Flow(), e) && Value().Flow() == SendFlow.Step(old(Value()).Flow(), e)
    {
      hide Conserved, SenderNumbers.Inv, FC.Logged, FC.AllValid, FC.Sums, Handler.Valid, SendFlow.Counted, Sound,
        TotalLength, AllQueueable, StopWaitingManager.Valid, PacketNumberGenerator.Valid, FC.NewController;
      SoundTracked(State());
      QueueIsProper(State());
      NoController(Value(), id);
      streamFramer.flowControlManager.NewStream(id, id != 1 && id != 3, streamWindow);
      streamFramer.streams := streamFramer.streams[id := SendStream([], 0, false, false, None)];
      if id != 1 && id != 3 {
        counting := counting + [id];
      }
      SoundStep(old(State()), Event.OpenStream(id), State());
      SendFlow.StepCounted(old(Value()).Flow(), SendFlow.OpenStream(id, id != 1 && id != 3, streamWindow));
    }

    /** A WINDOW_UPDATE frame for a stream that is open, or for the connection; for another one, the result is None. */
    method HandleWindowUpdateFrame(id: nat, offset: nat) returns (updated: Option<bool>)
      requires Valid()
      modifies streamFramer.flowControlManager
      ensures Valid() && State() == old(State()) && (updated.None? <==> id !in old(Value()).cs)
      ensures updated.Some? ==> (updated.value <==> offset > old(Value()).cs[id].sendFlowControlWindow)
      ensures Value().Flow() == SendFlow.Step(old(Value()).Flow(), SendFlow.UpdateWindow(id, offset))
    {
      hide FC.Logged, FC.AllValid, FC.Sums, Handler.Valid, SendFlow.Counted, Sound;
      updated := streamFramer.flowControlManager.UpdateWindow(id, offset);
      SendFlow.StepCounted(old(Value()).Flow(), SendFlow.UpdateWindow(id, offset));
    }

    /** The frames of a lost packet: stream frames go to the framer, control frames into the next packet, and ACK
        and STOP_WAITING frames are dropped. */
    method Retransmit(p: Packet) returns (controlFrames: seq<Frame>)
      modifies streamFramer`retransmissionQueue
      ensures streamFramer.retransmissionQueue == old(streamFramer.retransmissionQueue) + StreamFrames(p.frames)
      ensures controlFrames == ControlFrames(p.frames)
    {
      controlFrames := [];
      for i := 0 to |p.frames|
        invariant streamFramer.retransmissionQueue ==
                  old(streamFramer.retransmissionQueue) + StreamFrames(p.frames[..i])
        invariant controlFrames == ControlFrames(p.frames[..i])
      {
        assert p.frames[..i + 1][..i] == p.frames[..i];
        match p.frames[i]
        case Stream(f) => streamFramer.AddFrameForRetransmission(f);
        case Control(_) => controlFrames := controlFrames + [p.frames[i]];
        case Ack(_) =>
        case StopWaiting(_) =>
      }
      assert p.frames[..|p.frames|] == p.frames;
    }

    /** The last packet that is queued is sent again. */
    method DequeueRetransmission() returns (done: bool, controlFrames: seq<Frame>)
      requires sentPacketHandler.Valid()
      modifies sentPacketHandler, streamFramer`retransmissionQueue
      ensures sentPacketHandler.Valid()
      ensures var s := old(State());
              var ps := s.handler.queue;
              && (done <==> ps == [])
              && State() == (if done then s else s.Dequeue())
              && controlFrames == if done then [] else ControlFrames(ps[|ps| - 1].frames)
    {
      hide ControlFrames, StreamFrames, Handler.Valid, TotalLength;
      var p := sentPacketHandler.DequeuePacketForRetransmission();
      done, controlFrames := p.None?, [];
      if p.Some? {
        controlFrames := Retransmit(p.value);
      }
    }

    method DequeueRetransmissions() returns (controlFrames: seq<Frame>)
      requires sentPacketHandler.Valid()
      modifies sentPacketHandler, streamFramer`retransmissionQueue
      ensures sentPacketHandler.Valid() && State() == old(State()).DequeueAll()
      ensures controlFrames == LostControlFrames(old(State()).handler.queue)
    {
      hide ControlFrames, LostControlFrames, StreamFrames, SentPacketHandler.Valid;
      controlFrames := [];
      ghost var s := State();
      LostOneMore([], s.handler.queue);
      var done := false;
      while !done
        invariant sentPacketHandler.Valid()
        invariant State().DequeueAll() == s.DequeueAll() && (done ==> State().handler.queue == [])
        invariant controlFrames + LostControlFrames(State().handler.queue) == LostControlFrames(s.handler.queue)
        decreases !done, |sentPacketHandler.retransmissionQueue|
      {
        LostOneMore(controlFrames, State().handler.queue);
        var fs;
        done, fs := DequeueRetransmission();
        controlFrames := controlFrames + fs;
      }
      LostOneMore(controlFrames, State().handler.queue);
    }

    /** What the next packet is asked to carry besides new stream data; lost packets go back to the framer first. */
    method Prepare(input: Input) returns (controlFrames: seq<Frame>, stopWaiting: Option<nat>, leastUnacked: int)
      requires sentPacketHandler.Valid()
      modifies sentPacketHandler, sentPacketHandler.stopWaitingManager, streamFramer`retransmissionQueue
      ensures sentPacketHandler.Valid()
      ensures controlFrames == old(Value()).NewControlFrames(input) && stopWaiting == old(Value()).StopWaiting(input)
      ensures leastUnacked == old(Value()).sender.handler.GetLeastUnacked()
      ensures Value() == old(Value()).Prepared(input)
    {
      hide Handler.Valid, TotalLength, LostControlFrames, Sender.DequeueAll;
      DequeueAllStreams(State());
      controlFrames := DequeueRetransmissions();
      controlFrames := controlFrames + input.windowUpdates;
      if input.ack.Some? {
        controlFrames := controlFrames + [Frame.Ack(input.ack.value)];
      }
      var hasRetransmission := |streamFramer.retransmissionQueue| > 0;
      stopWaiting := None;
      if input.ack.Some? || hasRetransmission {
        stopWaiting := sentPacketHandler.stopWaitingManager.GetStopWaitingFrame(hasRetransmission);
      }
      leastUnacked := sentPacketHandler.GetLeastUnacked();
    }

    /** Takes the frames for the packet and packs them. */
    method Pack(input: Input, random: Option<nat>) returns (packed: PackResult, ghost skip: nat)
      requires sentPacketHandler.Valid() && packer.streamFramer == streamFramer && packer.Valid() &&
               Value().Ready(input)
      modifies sentPacketHandler, sentPacketHandler.stopWaitingManager, streamFramer, streamFramer.flowControlManager,
               packer`controlFrames, packer.packetNumberGenerator
      ensures sentPacketHandler.Valid() && packer.Valid() && skip <= 1
      ensures packed == PackedBy(old(Value()), input) && (packed.Packed? ==> packed.Length() <= MAX_PACKET_SIZE)
      ensures var t := Emptied(old(Value()), input);
              Value() == t.(sender := t.sender.(next := t.sender.next + if packed.Packed? then 1 + skip else 0))
    {
      hide Handler.Valid, SenderNumbers.Inv, Conserved, ResultOf, Materials.Ready, Materials.Framed, Materials.Frames,
        Materials.Left, AllQueueable, Sender.DequeueAll, LostControlFrames, Connection.Header, AllIn, TotalLength,
        FC.FlowControlManager.Valid, PacketNumberGenerator.Valid, StopWaitingManager.Valid;
      ghost var c := Value();
      MaterialsReady(c, input);
      NewQueueable(c, input);
      DequeueAllStreams(c.sender);
      var controlFrames, stopWaiting, leastUnacked := Prepare(input);
      skip := if packer.packetNumberGenerator.SkipsNext() then 1 else 0;
      var req := Request(stopWaiting, input.maySendOnlyAck, input.ids, input.negotiated, input.delay);
      packed := packer.PackPacket(controlFrames, leastUnacked, input.connection, req, random);
    }

    /** The pass behind the test that sending is allowed. */
    method SendAllowed(input: Input, random: Option<nat>) returns (r: SendResult, ghost skip: nat)
      requires Valid() && Value().Ready(input) && State().handler.Tracked() < MAX_TRACKED_SENT_PACKETS
      modifies this, sentPacketHandler, sentPacketHandler.stopWaitingManager, streamFramer,
               streamFramer.flowControlManager,
               packer, packer.packetNumberGenerator
      ensures r == Outcome(PackedBy(old(Value()), input)) && skip <= 1
      ensures !r.Failed? ==> Valid() && Value() == Passed(old(Value()), input, skip)
      ensures r.Sent? ==> r.length <= MAX_PACKET_SIZE
    {
      hide Sound, Handler.Valid, SenderNumbers.Inv, Conserved, PackedBy, Emptied, Outgone, AllQueueable, AllIn,
        FC.FlowControlManager.Valid, PacketNumberGenerator.Valid, StopWaitingManager.Valid, TotalLength,
        SendFlow.Counted;
      ghost var c := Value();
      var packed;
      SoundTracked(c.sender);
      EmptiedIs(c, input);
      packed, skip := Pack(input, random);
      r := Outcome(packed);
      if packed.Packed? {
        PackedIs(c, input);
        Finish(packed, input.windowUpdates);
      }
      if !r.Failed? {
        PassKeeps(c, input, skip);
        PassCounted(c, input, skip, 0, 0);
      }
    }

    /** The packet is recorded as sent, and the window updates are queued once more. */
    method Finish(packed: PackResult, windowUpdates: seq<Frame>)
      requires sentPacketHandler.Valid() && packed.Packed? && sentPacketHandler.lastSentPacketNumber < packed.number
      requires AllQueueable(packer.controlFrames) && AllQueueable(windowUpdates)
      modifies this`gaps, sentPacketHandler, packer`controlFrames
      ensures sentPacketHandler.Valid() && AllQueueable(packer.controlFrames)
      ensures packer.controlFrames == old(packer.controlFrames) + windowUpdates
      ensures var h := old(sentPacketHandler.Value());
              && sentPacketHandler.Value() == h.Sent(Packet(packed.number, packed.frames, packed.Length(), 0))
              && gaps == if packed.number == h.lastSent + 1 then old(gaps) else old(gaps) + {h.lastSent + 1}
    {
      hide Handler.Valid, AllQueueable;
      AllQueueableConcat(packer.controlFrames, windowUpdates);
      packer.controlFrames := packer.controlFrames + windowUpdates;
      if packed.number != sentPacketHandler.lastSentPacketNumber + 1 {
        gaps := gaps + {sentPacketHandler.lastSentPacketNumber + 1};
      }
      var sent := sentPacketHandler.SentPacket(Packet(packed.number, packed.frames, packed.Length(), 0));
      assert sent == SentOk;
    }

    /** One pass through the loop. Too many tracked packets are never found; the pass is refused exactly by the
        congestion controller or the limit on tracked packets; otherwise the packet that is due is packed, and a packet
        that is sent is not too large. */
    method SendPacket(expired: bool, congestionLimited: bool, input: Input, random: Option<nat>)
      returns (r: SendResult, ghost skip: nat)
      requires Valid() && input.Proper() && AllIn(streamFramer.streams, input.ids)
      modifies this, sentPacketHandler, sentPacketHandler.stopWaitingManager, streamFramer,
               streamFramer.flowControlManager,
               packer, packer.packetNumberGenerator
      ensures var c := old(Value()).TimedOut(expired);
              && (r.NotAllowed? <==> congestionLimited || c.sender.handler.Tracked() >= MAX_TRACKED_SENT_PACKETS)
              && (r.NotAllowed? ==> Value() == c)
              && (!r.NotAllowed? ==> c.Ready(input) && r == Outcome(PackedBy(c, input)))
              && (r.Sent? || r.NothingSent? ==> skip <= 1 && Value() == Passed(c, input, skip))
      ensures !r.Failed? ==> Valid()
      ensures r.Sent? ==> r.length <= MAX_PACKET_SIZE
    {
      hide Sound, SenderNumbers.Inv, Conserved, PackedBy, Passed, Handler.Valid, AllQueueable, AllIn,
        FC.FlowControlManager.Valid, PacketNumberGenerator.Valid, StopWaitingManager.Valid, TotalLength,
        SendFlow.Counted;
      skip := 0;
      ghost var c := Value();
      var tooMany := sentPacketHandler.CheckForError();
      SoundTracked(c.sender);
      assert !tooMany;
      sentPacketHandler.MaybeQueueRTOs(expired);
      TimedOutSound(c, expired);
      var allowed := sentPacketHandler.SendingAllowed(congestionLimited);
      if !allowed {
        return NotAllowed, skip;
      }
      SoundTracked(State());
      r, skip := SendAllowed(input, random);
    }
  }
}
