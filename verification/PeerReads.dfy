/** From the sending loop to the peer: the packet that a pass through the loop packs is read by the peer's parser as the
    frames that the runs of two endpoints let arrive (packet_packer.go, packet_unpacker.go). */
module PeerReads {
  import opened Frames
  import opened ByteCodec
  import opened SentPackets
  import opened Ledger
  import opened StreamFramers
  import opened SenderData
  import opened PacketPackers
  import opened PacketUnpackers
  import opened Receivers
  import opened Sessions
  import EndToEnd
  import PacketNumbers
  import SenderNumbers
  import StreamFrameCodec

  // ---------------------------------------------------------------------------------------------
  // The fields have the sizes that the protocol gives them
  // ---------------------------------------------------------------------------------------------

  /** Control frames with fields of the right sizes, and ACK frames that can be written; neither depends on the
      packet. */
  predicate QueueSized(fs: seq<Frame>) {
    forall i :: 0 <= i < |fs| ==> !fs[i].Stream? && !fs[i].StopWaiting? && Sized(fs[i], 0, 0)
  }

  lemma {:induction false} NewestSized(stopWaiting: Option<nat>, queue: seq<Frame>, k: nat, packetNumber: nat, len: nat)
    requires QueueSized(queue) && k <= |queue|
    requires stopWaiting.Some? ==> Sized(StopWaiting(stopWaiting.value), packetNumber, len)
    ensures var fs := Newest(stopWaiting, queue, k);
            AllSized(fs, packetNumber, len) && forall i :: 0 <= i < |fs| ==> !fs[i].Stream?
  {
    if k > 0 {
      NewestSized(stopWaiting, queue, k - 1, packetNumber, len);
      var f := queue[|queue| - k];
      assert Sized(f, 0, 0) && Sized(f, packetNumber, len);
    }
  }

  /** A STOP_WAITING frame can be read back in the packet that carries it. */
  lemma StopWaitingSized(c: Snapshot, input: Input)
    requires SenderNumbers.Inv(c.sender) && c.sender.handler.GetLeastUnacked() >= 0
    requires c.sender.next < 0x1_0000_0000_0000
    ensures var h, sw := c.MaterialsFor(input).header, c.StopWaiting(input);
            sw.Some? ==> Sized(StopWaiting(sw.value), h.packetNumber, h.packetNumberLen)
  {
    hide Sender.DequeueAll;
    SenderNumbers.LeastUnackedBound(c.sender);
    CapacityValues();
  }

  /** Streams whose IDs and offsets fit their fields. */
  predicate StreamsFit(streams: Streams) {
    forall id :: id in streams ==> id < 0x1_0000_0000 && |streams[id].written| < 0x1_0000_0000_0000_0000
  }

  lemma {:induction false} VisitAllFit(streams: Streams, visits: seq<Visit>, maxBytes: nat)
    requires Known(streams, visits) && TakenFromWritten(streams) && StreamsFit(streams)
    ensures StreamsFit(VisitAll(streams, visits, maxBytes).streams)
  {
    hide VisitStream;
    if visits != [] {
      var init, v := visits[..|visits| - 1], visits[|visits| - 1];
      VisitAllFit(streams, init, maxBytes);
      var n, fin := VisitGives(VisitAll(streams, init, maxBytes), v, maxBytes);
    }
  }

  // ---------------------------------------------------------------------------------------------
  // The stream frames of a packet
  // ---------------------------------------------------------------------------------------------

  lemma {:induction false} TotalFullAt(fs: seq<StreamFrame>, i: nat)
    requires i < |fs|
    ensures |fs[i].data| <= TotalFull(fs)
  {
    if i < |fs| - 1 {
      TotalFullAt(fs[..|fs| - 1], i);
    }
  }

  lemma {:induction false} SendableFrame(fs: seq<StreamFrame>, i: nat)
    requires Sendable(fs) && i < |fs|
    ensures fs[i].dataLenPresent && (fs[i].data != [] || fs[i].fin)
  {
    if i < |fs| - 1 {
      SendableFrame(fs[..|fs| - 1], i);
    }
  }

  /** Frames whose stream IDs and offsets fit their fields. */
  predicate InFields(fs: seq<StreamFrame>) {
    forall i :: 0 <= i < |fs| ==> fs[i].streamID < 0x1_0000_0000 && fs[i].offset < 0x1_0000_0000_0000_0000
  }

  lemma FramesSized(fs: seq<StreamFrame>, packetNumber: nat, len: nat)
    requires Sendable(fs) && TotalFull(fs) <= StreamFrameCodec.MAX_PACKET_SIZE && InFields(fs)
    ensures StreamsSized(LastToTheEnd(fs), packetNumber, len)
  {
    var gs := LastToTheEnd(fs);
    forall i | 0 <= i < |gs|
      ensures Sized(Stream(gs[i]), packetNumber, len) && (i < |gs| - 1 ==> gs[i].dataLenPresent)
    {
      SendableFrame(fs, i);
      TotalFullAt(fs, i);
    }
  }

  /** Every frame that is packed was taken from a stream, so it fits its fields if the streams do. */
  lemma FramedInFields(c: Snapshot, input: Input)
    requires c.Ready(input) && PackedBy(c, input).Packed? && StreamsFit(c.sender.streams)
    ensures InFields(StreamFrames(Outgone(c, input).frames))
  {
    hide Conserved, SenderNumbers.Inv, AllIn, AllQueueable, PackedBy, Outgone, Emptied, Leads, Outgoing, StreamFrames;
    var t, p := Passed(c, input, 0).sender, Outgone(c, input);
    var h, fs := t.handler.history, StreamFrames(p.frames);
    PassIsStep(c, input, 0);
    StepConserved(c.sender, EventOf(c, input, 0), t);
    PassedStreamsFit(c, input);
    forall i | 0 <= i < |fs|
      ensures fs[i].streamID < 0x1_0000_0000 && fs[i].offset < 0x1_0000_0000_0000_0000
    {
      HeldInFields(t, |h| - 1, i);
    }
  }

  lemma HeldInFields(s: Sender, j: nat, i: nat)
    requires Conserved(s) && StreamsFit(s.streams)
    requires j < |s.handler.history| && i < |StreamFrames(s.handler.history[j].frames)|
    ensures var f := StreamFrames(s.handler.history[j].frames)[i];
            f.streamID < 0x1_0000_0000 && f.offset < 0x1_0000_0000_0000_0000
  {
    var pieces :| s.Open([]).Balanced(pieces) && Tiles(pieces, s.streams);
    EndToEnd.HeldIsPiece(s, s.handler.history, j, i, pieces);
    assert Carries(s.streams, Piece(StreamFrames(s.handler.history[j].frames)[i]));
  }

  lemma PassedStreamsFit(c: Snapshot, input: Input)
    requires c.Ready(input) && StreamsFit(c.sender.streams)
    ensures StreamsFit(Passed(c, input, 0).sender.streams)
  {
    hide Conserved, SenderNumbers.Inv, AllIn, AllQueueable, PackedBy, Outgone, Materials.Framed, Materials.Left, Fill,
      StreamsFit;
    PassFills(c, input, 0);
    var e, d := EventOf(c, input, 0), c.sender.DequeueAll();
    FillFits(d, e.maxLen, e.visits);
  }

  lemma FillFits(s: Sender, maxLen: nat, visits: seq<Visit>)
    requires Known(s.streams, visits) && TakenFromWritten(s.streams) && StreamsFit(s.streams)
    ensures StreamsFit(Fill(s, maxLen, visits).0.streams)
  {
    hide VisitAll, PopFrames, StreamsFit;
    PopFramesLength(s.queue, maxLen);
    VisitAllFit(s.streams, visits, maxLen - PopFrames(s.queue, maxLen).length);
  }

  // ---------------------------------------------------------------------------------------------
  // The whole packet
  // ---------------------------------------------------------------------------------------------

  lemma {:induction false} NoStreams(fs: seq<Frame>)
    requires forall i :: 0 <= i < |fs| ==> !fs[i].Stream?
    ensures StreamFrames(fs) == []
  {
    if fs != [] {
      NoStreams(fs[..|fs| - 1]);
    }
  }

  /** A part of a payload that can be written can be written. */
  lemma PrefixWrites(others: seq<Frame>, fs: seq<Frame>, packetNumber: nat, len: nat, delay: nat)
    requires Payload(others + fs, packetNumber, len, delay).Some?
    ensures Payload(others, packetNumber, len, delay).Some?
  {
    hide FrameBytes, Payload;
    PayloadFailsIff(others + fs, packetNumber, len, delay);
    PayloadFailsIff(others, packetNumber, len, delay);
    assert forall i :: 0 <= i < |others| ==> (others + fs)[i] == others[i];
  }

  /** The parts of a packet are as long as was counted. */
  lemma PartsLength(others: seq<Frame>, fs: seq<StreamFrame>, packetNumber: nat, len: nat, delay: nat)
    requires StreamsSized(fs, packetNumber, len) && Payload(others + AsFrames(fs), packetNumber, len, delay).Some?
    ensures Payload(others, packetNumber, len, delay).Some?
    ensures |Payload(others, packetNumber, len, delay).value| + |StreamFrameCodec.StreamBytes(fs)| ==
            TotalSize(others + AsFrames(fs), len)
  {
    hide FrameBytes, Payload, StreamsSized, TotalSize, AsFrames, StreamFrameCodec.StreamBytes;
    PrefixWrites(others, AsFrames(fs), packetNumber, len, delay);
    PayloadLength(others, packetNumber, len, delay);
    StreamsPayload(fs, packetNumber, len, delay);
    PayloadLength(AsFrames(fs), packetNumber, len, delay);
    TotalSizeConcat(others, AsFrames(fs), len);
  }

  /** What the peer reads of `others` and `fs`: its stream frames are those that `ReadAs` gives. */
  lemma ReadIs(others: seq<Frame>, fs: seq<StreamFrame>, packetNumber: nat, len: nat, delay: nat)
    returns (read: seq<Frame>)
    requires AllSized(others, packetNumber, len) && forall i :: 0 <= i < |others| ==> !others[i].Stream?
    requires StreamsSized(fs, packetNumber, len) && Payload(others + AsFrames(fs), packetNumber, len, delay).Some?
    requires TotalSize(others + AsFrames(fs), len) < 0x1_0000
    ensures Unpacks(Payload(others + AsFrames(fs), packetNumber, len, delay).value, packetNumber, len, read)
    ensures Pieces(StreamFrames(read)) == ReadAs(StreamFrames(others + AsFrames(fs)))
  {
    hide FrameBytes, Payload, StreamsSized, TotalSize, AsFrames, Sized, Unpacks, StreamFrames, StreamFrameCodec.Swallow,
      StreamFrameCodec.StreamBytes;
    AllWellFormed(others, packetNumber, len);
    PartsLength(others, fs, packetNumber, len, delay);
    PacketReads(others, fs, packetNumber, len, delay);
    var seen, rs := AllSeen(others, delay), StreamFrameCodec.Swallow(fs);
    read := seen + AsFrames(rs);
    NoStreams(others);
    NoStreams(seen);
    StreamFramesBehind(others, fs);
    StreamFramesBehind(seen, rs);
    assert [] + fs == fs && [] + rs == rs;
  }

  /** What a pass packed can be read back, as far as sizes are concerned. */
  lemma PackedSized(c: Snapshot, input: Input)
    requires c.Ready(input) && PackedBy(c, input).Packed?
    requires c.sender.next < 0x1_0000_0000_0000 && StreamsFit(c.sender.streams)
    requires QueueSized(c.control + c.NewControlFrames(input))
    ensures c.sender.handler.GetLeastUnacked() >= 0 && c.MaterialsFor(input).Ready(c.RequestFor(input))
    ensures var m, req := c.MaterialsFor(input), c.RequestFor(input);
            var others, fs := m.OtherFrames(req), LastToTheEnd(m.Framed(req).1);
            && AllSized(others, c.sender.next, m.header.packetNumberLen) &&
              (forall i :: 0 <= i < |others| ==> !others[i].Stream?)
            && StreamsSized(fs, c.sender.next, m.header.packetNumberLen)
            && TotalSize(others + AsFrames(fs), m.header.packetNumberLen) < 0x1_0000
  {
    hide Conserved, SenderNumbers.Inv, AllIn, PackedBy, Framer.Pop, Sized, TotalSize, Newest, AsFrames, LastToTheEnd,
      Sender.DequeueAll, LostControlFrames, QueueSized, StreamsSized, StreamsFit, Snapshot.StopWaiting;
    MaterialsReady(c, input);
    var m, req := c.MaterialsFor(input), c.RequestFor(input);
    var len, fs := m.header.packetNumberLen, m.Framed(req).1;
    StopWaitingSized(c, input);
    NewestSized(req.stopWaiting, m.queue, CountTaken(req.stopWaiting, m.queue, len, m.MaxFrameSize()), c.sender.next,
                len);
    PopFits(m.framer, req.ids, m.StreamRoom(req), req.negotiated);
    PackedInFields(c, input);
    FramesSized(fs, c.sender.next, len);
    OthersFit(m, req);
    OthersInFront(m, req);
    PacketFits(m.OtherFrames(req), fs, len, m.MaxFrameSize());
  }

  lemma PackedInFields(c: Snapshot, input: Input)
    requires c.Ready(input) && PackedBy(c, input).Packed? && StreamsFit(c.sender.streams)
    ensures c.sender.handler.GetLeastUnacked() >= 0 && c.MaterialsFor(input).Ready(c.RequestFor(input))
    ensures InFields(c.MaterialsFor(input).Framed(c.RequestFor(input)).1)
  {
    hide Conserved, SenderNumbers.Inv, AllIn, PackedBy, Framer.Pop, AsFrames, StreamFrames, Materials.OtherFrames,
      Sender.DequeueAll, LostControlFrames;
    MaterialsReady(c, input);
    var m, req := c.MaterialsFor(input), c.RequestFor(input);
    var fs := m.Framed(req).1;
    FramedInFields(c, input);
    OthersInFront(m, req);
    StreamFramesBehind(m.OtherFrames(req), LastToTheEnd(fs));
    assert [] + LastToTheEnd(fs) == LastToTheEnd(fs);
    forall i | 0 <= i < |fs|
      ensures fs[i].streamID < 0x1_0000_0000 && fs[i].offset < 0x1_0000_0000_0000_0000
    {
      assert LastToTheEnd(fs)[i].streamID == fs[i].streamID && LastToTheEnd(fs)[i].offset == fs[i].offset;
    }
  }

  /** The packet of a pass is read by the peer as frames whose stream frames are exactly those that `EndToEnd` lets
      arrive for it. */
  lemma PassIsRead(c: Snapshot, input: Input) returns (read: seq<Frame>)
    requires c.Ready(input) && PackedBy(c, input).Packed?
    requires c.sender.next < 0x1_0000_0000_0000 && StreamsFit(c.sender.streams)
    requires QueueSized(c.control + c.NewControlFrames(input))
    ensures c.sender.handler.GetLeastUnacked() >= 0
    ensures var len := c.MaterialsFor(input).header.packetNumberLen;
            Unpacks(PackedBy(c, input).payload, c.sender.next, len, read)
    ensures Pieces(StreamFrames(read)) == ReadAs(StreamFrames(Outgone(c, input).frames))
  {
    hide Conserved, SenderNumbers.Inv, AllIn, Framer.Pop, Sized, TotalSize, AsFrames, LastToTheEnd, Payload, Unpacks,
      Sender.DequeueAll, LostControlFrames, QueueSized, StreamsSized, StreamsFit, StreamFrames, ReadAs, Pieces,
        Pointless,
      Materials.OtherFrames;
    PackedSized(c, input);
    var m, req := c.MaterialsFor(input), c.RequestFor(input);
    read := ReadIs(m.OtherFrames(req), LastToTheEnd(m.Framed(req).1), c.sender.next, m.header.packetNumberLen,
                   req.delay);
  }
}
