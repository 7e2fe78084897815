/** What one pass through the sending loop (session.go) does with the frames it finds: control frames, the ACK frame,
    the STOP_WAITING frame and stream data. */
module Passes {
  import opened Frames
  import opened AckFrames
  import opened SentPackets
  import opened Ledger
  import opened StreamFramers
  import opened SenderData
  import opened PacketNumbers
  import opened PacketPackers
  import opened PublicHeaders
  import opened Sessions
  import opened Filling
  import SenderNumbers
  import StopWaitingFrames

  // ---------------------------------------------------------------------------------------------
  // Control frames are conserved
  // ---------------------------------------------------------------------------------------------

  function Times(fs: seq<Frame>, x: Frame): nat {
    multiset(fs)[x]
  }

  lemma TimesConcat(a: seq<Frame>, b: seq<Frame>, x: Frame)
    ensures Times(a + b, x) == Times(a, x) + Times(b, x)
  {
  }

  /** How often packets `ps` carry frame `x`, all together. */
  function TimesIn(ps: seq<Packet>, x: Frame): nat {
    if ps == [] then 0 else TimesIn(ps[..|ps| - 1], x) + Times(ps[|ps| - 1].frames, x)
  }

  lemma {:induction false} ControlTimes(fs: seq<Frame>, x: Frame)
    requires x.Control?
    ensures Times(ControlFrames(fs), x) == Times(fs, x)
  {
    if fs != [] {
      var init, f := fs[..|fs| - 1], fs[|fs| - 1];
      ControlTimes(init, x);
      assert fs == init + [f];
    }
  }

  lemma {:induction false} LostTimes(ps: seq<Packet>, x: Frame)
    requires x.Control?
    ensures Times(LostControlFrames(ps), x) == TimesIn(ps, x)
  {
    if ps != [] {
      LostTimes(ps[..|ps| - 1], x);
      ControlTimes(ps[|ps| - 1].frames, x);
    }
  }

  lemma {:induction false} StreamsTimes(fs: seq<StreamFrame>, x: Frame)
    requires x.Control?
    ensures Times(AsFrames(fs), x) == 0
  {
    if fs != [] {
      StreamsTimes(fs[..|fs| - 1], x);
    }
  }

  lemma {:induction false} NewestTimes(stopWaiting: Option<nat>, queue: seq<Frame>, k: nat, x: Frame)
    requires k <= |queue| && x.Control?
    ensures Times(Newest(stopWaiting, queue, k), x) + Times(queue[..|queue| - k], x) == Times(queue, x)
  {
    hide Times;
    var n := |queue| - k;
    if k == 0 {
      assert queue[..n] == queue;
      OpeningTimes(stopWaiting, x);
    } else {
      NewestTimes(stopWaiting, queue, k - 1, x);
      assert queue[..n + 1] == queue[..n] + [queue[n]];
      TimesConcat(queue[..n], [queue[n]], x);
      TimesConcat(Newest(stopWaiting, queue, k - 1), [queue[n]], x);
    }
  }

  lemma OpeningTimes(stopWaiting: Option<nat>, x: Frame)
    requires x.Control?
    ensures Times(Opening(stopWaiting), x) == 0
  {
  }

  /** Of the control frames that are queued, those that are not taken for the packet stay. */
  lemma TakenOrLeft(m: Materials, req: Request, x: Frame)
    requires m.Ready(req) && x.Control?
    ensures Times(m.Frames(req), x) + Times(m.Left(req), x) ==
            Times(m.queue, x) + Times(BlockedFrames(m.framer.Blocked(req.ids, m.StreamRoom(req), req.negotiated)), x)
  {
    hide Materials.Framed, Framer.Blocked, Times, Newest, AsFrames, LastToTheEnd, BlockedFrames, CountTaken;
    var k := CountTaken(req.stopWaiting, m.queue, m.header.packetNumberLen, m.MaxFrameSize());
    NewestTimes(req.stopWaiting, m.queue, k, x);
    StreamsTimes(LastToTheEnd(m.Framed(req).1), x);
    TimesConcat(m.OtherFrames(req), AsFrames(LastToTheEnd(m.Framed(req).1)), x);
    TimesConcat(m.queue[..|m.queue| - k], BlockedFrames(m.framer.Blocked(req.ids, m.StreamRoom(req), req.negotiated)),
                x);
  }

  lemma NewTimes(c: Snapshot, input: Input, x: Frame)
    requires x.Control?
    ensures Times(c.NewControlFrames(input), x) == TimesIn(c.sender.handler.queue, x) + Times(input.windowUpdates, x)
  {
    hide LostControlFrames;
    LostTimes(c.sender.handler.queue, x);
  }

  /** The streams whose windows a pass uses up. */
  ghost function BlockedBy(c: Snapshot, input: Input): seq<nat>
    requires c.Ready(input)
  {
    MaterialsReady(c, input);
    c.MaterialsFor(input).framer.Blocked(input.ids, RoomOf(c, input), input.negotiated)
  }

  lemma IdleTimes(fs: seq<Frame>, maySendOnlyAck: bool, x: Frame)
    requires Idle(fs, maySendOnlyAck) && x.Control?
    ensures Times(fs, x) == 0
  {
  }

  /** The frames of the packet that a pass would send, and what it leaves. */
  lemma PassTakes(c: Snapshot, input: Input, x: Frame)
    requires c.Ready(input) && x.Control?
    ensures c.sender.handler.GetLeastUnacked() >= 0 && c.MaterialsFor(input).Ready(c.RequestFor(input))
    ensures Times(c.MaterialsFor(input).Frames(c.RequestFor(input)), x) + Times(Emptied(c, input).control, x) ==
            Times(c.control, x) + TimesIn(c.sender.handler.queue, x) + Times(input.windowUpdates, x) +
            Times(BlockedFrames(BlockedBy(c, input)), x)
  {
    hide Conserved, SenderNumbers.Inv, Materials.Frames, Materials.Left, Materials.Framed, Times, TimesIn,
      Framer.Blocked,
      Snapshot.NewControlFrames, Sender.DequeueAll, BlockedFrames;
    MaterialsReady(c, input);
    TakenOrLeft(c.MaterialsFor(input), c.RequestFor(input), x);
    NewTimes(c, input, x);
    TimesConcat(c.control, c.NewControlFrames(input), x);
  }

  /** Control frames are neither lost nor invented: everything that was queued, that a lost packet carried, that
      updates a window or reports a used-up one is in the packet or queued afterwards, as often as before. Behind a
      packet that is sent, the window updates are queued once more. */
  lemma ControlConserved(c: Snapshot, input: Input, skip: nat, x: Frame)
    requires c.Ready(input) && x.Control?
    requires var r := PackedBy(c, input); r.Packed? || r.NothingToSend?
    ensures var r, t := PackedBy(c, input), Passed(c, input, skip);
            (if r.Packed? then Times(r.frames, x) else 0) + Times(t.control, x) ==
            Times(c.control, x) + TimesIn(c.sender.handler.queue, x) + Times(BlockedFrames(BlockedBy(c, input)), x) +
            (if r.Packed? then 2 else 1) * Times(input.windowUpdates, x)
  {
    hide Conserved, SenderNumbers.Inv, Materials.Frames, Materials.Framed, Times, TimesIn, BlockedBy, BlockedFrames,
      Emptied, Outgone, Pointless, Idle;
    PassTakes(c, input, x);
    var m, req := c.MaterialsFor(input), c.RequestFor(input);
    SentUnlessIdle(m, req);
    if PackedBy(c, input).Packed? {
      TimesConcat(Emptied(c, input).control, input.windowUpdates, x);
    } else {
      IdleTimes(m.Frames(req), req.maySendOnlyAck, x);
    }
  }

  // ---------------------------------------------------------------------------------------------
  // ACK and STOP_WAITING frames
  // ---------------------------------------------------------------------------------------------

  /** The room that a STOP_WAITING frame leaves for the ACK frame. */
  ghost predicate AckFits(c: Snapshot, input: Input)
    requires c.Ready(input) && input.ack.Some?
  {
    MaterialsReady(c, input);
    var m := c.MaterialsFor(input);
    var len := m.header.packetNumberLen;
    m.header.GetLength() + (if c.StopWaiting(input).Some? then StopWaitingFrames.MinLength(len) else 0) +
    Size(Frame.Ack(input.ack.value), len) + TAG_SIZE <= MAX_PACKET_SIZE
  }

  lemma {:induction false} NewestFirst(stopWaiting: Option<nat>, queue: seq<Frame>, k: nat)
    requires 0 < k <= |queue|
    ensures |Newest(stopWaiting, queue, k)| == |Opening(stopWaiting)| + k
    ensures Newest(stopWaiting, queue, k)[|Opening(stopWaiting)|] == queue[|queue| - 1]
  {
    if k > 1 {
      NewestFirst(stopWaiting, queue, k - 1);
    }
  }

  /** The control frame that was queued last is taken first, if it fits. */
  lemma LastIsFirst(m: Materials, req: Request)
    requires m.HeaderFits() && m.queue != []
    requires TotalSize(Opening(req.stopWaiting), m.header.packetNumberLen) +
             Size(m.queue[|m.queue| - 1], m.header.packetNumberLen) <= m.MaxFrameSize()
    ensures var i, others := |Opening(req.stopWaiting)|, m.OtherFrames(req);
            i < |others| && others[i] == m.queue[|m.queue| - 1]
  {
    hide Size, TotalSize, Newest;
    var k := CountTaken(req.stopWaiting, m.queue, m.header.packetNumberLen, m.MaxFrameSize());
    NewestFirst(req.stopWaiting, m.queue, k);
  }

  lemma {:induction false} HasAck(fs: seq<Frame>, i: nat)
    requires i < |fs| && fs[i].Ack?
    ensures CountAcks(fs) > 0
  {
    if i < |fs| - 1 {
      HasAck(fs[..|fs| - 1], i);
    }
  }

  lemma AckTaken(c: Snapshot, input: Input)
    requires c.Ready(input) && input.ack.Some? && AckFits(c, input)
    ensures c.sender.handler.GetLeastUnacked() >= 0 && c.MaterialsFor(input).Ready(c.RequestFor(input))
    ensures var i, fs := |Opening(c.StopWaiting(input))|, c.MaterialsFor(input).Frames(c.RequestFor(input));
            i < |fs| && fs[i] == Frame.Ack(input.ack.value)
  {
    hide Conserved, SenderNumbers.Inv, Materials.Framed, Size, TotalSize, Others, LostControlFrames, Sender.DequeueAll;
    MaterialsReady(c, input);
    var m, req := c.MaterialsFor(input), c.RequestFor(input);
    OpeningSize(req.stopWaiting, m.header.packetNumberLen);
    assert m.queue[|m.queue| - 1] == Frame.Ack(input.ack.value);
    LastIsFirst(m, req);
  }

  /** If there is an ACK frame and it fits, it is in the packet, in front or behind a STOP_WAITING frame; and if it may
      travel alone, the pass does not end without a packet. */
  lemma AckTravels(c: Snapshot, input: Input)
    requires c.Ready(input) && input.ack.Some? && AckFits(c, input)
    ensures var r, i := PackedBy(c, input), if c.StopWaiting(input).Some? then 1 else 0;
            && (r.Packed? ==> i < |r.frames| && r.frames[i] == Frame.Ack(input.ack.value))
            && (input.maySendOnlyAck ==> !r.NothingToSend?)
  {
    hide Conserved, SenderNumbers.Inv, Materials.Frames, Pointless, Snapshot.StopWaiting, AckFits, CountAcks, Payload;
    AckTaken(c, input);
    var m, req := c.MaterialsFor(input), c.RequestFor(input);
    SentUnlessIdle(m, req);
    HasAck(m.Frames(req), |Opening(req.stopWaiting)|);
  }

  ghost predicate AllBelow(ps: seq<Packet>, n: nat) {
    forall i :: 0 <= i < |ps| ==> ps[i].number < n
  }

  /** What a STOP_WAITING frame would announce has given up every packet that waits to be sent again. */
  ghost predicate GivesUpLost(s: Sender) {
    && AllBelow(s.handler.queue, s.handler.nextLeastUnacked)
    && (s.queue != [] ==> s.handler.nextLeastUnacked > 0)
  }

  lemma {:induction false} SortedGivesUp(h: Handler, ack: AckFrame, k: nat)
    requires k <= |h.history| && AllBelow(h.queue, h.nextLeastUnacked)
    ensures AllBelow(Sorted(h.queue, h.acked, ack, h.history, k).queue, Max(h.nextLeastUnacked, ack.largestAcked + 1))
  {
    if k > 0 {
      SortedGivesUp(h, ack, k - 1);
      FateUpToLargest(ack, h.history[k - 1]);
    }
  }

  lemma {:induction false} DequeueGivesUp(s: Sender)
    requires GivesUpLost(s)
    ensures s.DequeueAll().queue != [] ==> s.handler.nextLeastUnacked > 0
    decreases |s.handler.queue|
  {
    if s.handler.queue != [] {
      assert s.handler.queue[|s.handler.queue| - 1].number < s.handler.nextLeastUnacked;
      DequeueGivesUp(s.Dequeue());
    }
  }

  lemma PopGivesUp(queue: seq<StreamFrame>, maxLen: nat)
    ensures PopFrames(queue, maxLen).queue != [] ==> queue != []
  {
  }

  lemma StepGivesUp(m: Sender, e: Event, t: Sender)
    requires GivesUpLost(m) && Leads(m, e, t)
    ensures GivesUpLost(t)
  {
    hide Skip, VisitAll;
    match e
    case GetAck(ack, n) => SortedGivesUp(m.handler.(largestReceivedWithAck := n), ack, |m.handler.history|);
    case Send(_, _, maxLen, _, _, _) =>
      DequeueAllStreams(m);
      DequeueGivesUp(m);
      PopGivesUp(m.DequeueAll().queue, maxLen);
    case _ =>
  }

  lemma {:induction false} RunGivesUp(es: seq<Event>, t: Sender)
    requires Happens(INITIAL, es, t)
    ensures GivesUpLost(t)
  {
    hide Leads;
    if es != [] {
      var init, last := es[..|es| - 1], es[|es| - 1];
      var m :| Leads(m, last, t) && Happens(INITIAL, init, m);
      RunGivesUp(init, m);
      StepGivesUp(m, last, t);
    }
  }

  /** A packet with lost stream data starts with a STOP_WAITING frame, and so does one with an ACK frame if there is
      something new to announce; the frame announces what the handler has given up. */
  lemma StopWaitingTravels(c: Snapshot, input: Input)
    requires c.Ready(input) && GivesUpLost(c.sender) && PackedBy(c, input).Packed?
    requires c.sender.DequeueAll().queue != [] ||
             (input.ack.Some? && c.sender.handler.nextLeastUnacked > c.announced)
    ensures var fs := PackedBy(c, input).frames;
            fs != [] && fs[0] == Frame.StopWaiting(c.sender.handler.nextLeastUnacked)
  {
    hide Conserved, SenderNumbers.Inv, Materials.Framed, Materials.OtherFrames, Pointless, GivesUpLost, Payload,
      Sender.DequeueAll;
    MaterialsReady(c, input);
    DequeueGivesUp(c.sender);
    OthersInFront(c.MaterialsFor(input), c.RequestFor(input));
  }

  /** A number counts as announced from the pass that asks for the STOP_WAITING frame, whether or not it sends one: it
      was sent if and only if the frames for the packet are more than that frame and an ACK frame that may not travel
      alone. */
  lemma AnnouncedIsSentIff(c: Snapshot, input: Input, skip: nat)
    requires c.Ready(input) && c.StopWaiting(input).Some?
    requires var r := PackedBy(c, input); r.Packed? || r.NothingToSend?
    ensures c.sender.handler.GetLeastUnacked() >= 0 && c.MaterialsFor(input).Ready(c.RequestFor(input))
    ensures Passed(c, input, skip).announced == c.sender.handler.nextLeastUnacked
    ensures var r := PackedBy(c, input);
            r.Packed? && r.frames != [] && r.frames[0] == Frame.StopWaiting(c.sender.handler.nextLeastUnacked) <==>
            !Idle(c.MaterialsFor(input).Frames(c.RequestFor(input)), input.maySendOnlyAck)
  {
    hide Conserved, SenderNumbers.Inv, Materials.Framed, Materials.OtherFrames, Pointless, Payload, Sender.DequeueAll,
      Idle;
    MaterialsReady(c, input);
    OthersInFront(c.MaterialsFor(input), c.RequestFor(input));
    SentUnlessIdle(c.MaterialsFor(input), c.RequestFor(input));
  }

  /** With nothing to send but an ACK frame that may not travel alone, a new announcement is dropped and still counts:
      the next pass with an ACK frame does not repeat it. */
  lemma AnnouncementDropped(c: Snapshot, input: Input, later: Input)
    requires c.Ready(input) && input.ack.Some? && !input.maySendOnlyAck &&
             c.sender.handler.nextLeastUnacked > c.announced
    requires c.control == [] && c.sender.handler.queue == [] && c.sender.queue == [] && input.windowUpdates == [] &&
             input.ids == []
    ensures PackedBy(c, input).NothingToSend? && Passed(c, input, 0).StopWaiting(later).None?
  {
    hide Conserved, SenderNumbers.Inv, Payload, CountTaken, Size;
    MaterialsReady(c, input);
    var m, req := c.MaterialsFor(input), c.RequestFor(input);
    var ack := Frame.Ack(input.ack.value);
    assert m.queue == [ack];
    assert m.Framed(req).1 == [];
    var k := CountTaken(req.stopWaiting, [ack], m.header.packetNumberLen, m.MaxFrameSize());
    var opening := [Frame.StopWaiting(c.sender.handler.nextLeastUnacked)];
    assert Newest(req.stopWaiting, [ack], k) == if k == 0 then opening else opening + [ack];
    assert m.Frames(req) == Newest(req.stopWaiting, [ack], k);
  }

  // ---------------------------------------------------------------------------------------------
  // Stream data
  // ---------------------------------------------------------------------------------------------

  lemma FramesSize(m: Materials, req: Request)
    requires m.Ready(req)
    ensures TotalSize(m.Frames(req), m.header.packetNumberLen) + 2 >=
            TotalSize(m.OtherFrames(req), m.header.packetNumberLen) + TotalFull(m.Framed(req).1)
  {
    hide Framer.Pop, Materials.OtherFrames, TotalSize, LastToTheEnd, AsFrames;
    var fs := m.Framed(req).1;
    PopFits(m.framer, req.ids, m.StreamRoom(req), req.negotiated);
    AllowanceRepaid(fs, m.header.packetNumberLen);
    TotalSizeConcat(m.OtherFrames(req), AsFrames(LastToTheEnd(fs)), m.header.packetNumberLen);
  }

  /** Unless the packet is so full that one more stream frame might not fit, a pass leaves no lost frame behind, and no
      stream that it visited has data that flow control allows, or a FIN, left to send. */
  lemma PassIsGreedy(c: Snapshot, input: Input, skip: nat, i: nat)
    requires c.Ready(input) && PackedBy(c, input).Packed? && i < |input.ids|
    requires PackedBy(c, input).Length() + MAX_STREAM_HEADER < MAX_PACKET_SIZE
    ensures var t := Passed(c, input, skip);
            && t.sender.queue == [] && input.ids[i] in t.sender.streams
            && Served(t.sender.streams[input.ids[i]], WindowOf(t.cs, t.contributes, input.ids[i], input.negotiated))
  {
    hide Conserved, SenderNumbers.Inv, Materials.OtherFrames, TotalSize, TotalFull, WindowOf, Served, Framer.Pop,
      Sender.DequeueAll, Skip, Payload, Outgone;
    MaterialsReady(c, input);
    var m, req := c.MaterialsFor(input), c.RequestFor(input);
    FramesSize(m, req);
    OthersFit(m, req);
    PackedLength(m.header, m.Frames(req), req);
    PopServes(m.framer, req.ids, m.StreamRoom(req), req.negotiated, i);
  }

  lemma PackedLength(h: PublicHeader, frames: seq<Frame>, req: Request)
    requires IsLength(h.packetNumberLen) && ResultOf(h, frames, req).Packed?
    ensures ResultOf(h, frames, req).Length() == h.GetLength() + TotalSize(frames, h.packetNumberLen) + TAG_SIZE
  {
    PayloadLength(frames, h.packetNumber, h.packetNumberLen, req.delay);
  }

  /** When the retransmission timer expires, the two oldest packets in flight are queued to be sent again. */
  lemma TimeoutQueuesTwo(c: Snapshot)
    ensures var h, t := c.sender.handler, c.TimedOut(true).sender.handler;
            var n := if |h.history| < 2 then |h.history| else 2;
            t.history == h.history[n..] && t.queue == h.queue + h.history[..n]
  {
  }
}
