/** Runs of two endpoints. In the first a byte is written, sent, received and acknowledged, so the results about careful
    runs are not about runs in which nothing arrives. In the others a packet is not read as it was sent, or data is
    written behind a FIN, and the results fail. */
module EndToEndRun {
  import opened Frames
  import opened AckFrames
  import opened SentPackets
  import opened StreamFrameSorters
  import opened Ledger
  import opened StreamFramers
  import opened SenderData
  import opened Receivers
  import opened EndToEnd
  import opened Delivery
  import StreamFrameCodec

  // ---------------------------------------------------------------------------------------------
  // Sending small packets
  // ---------------------------------------------------------------------------------------------

  /** A pass through the loop that visits streams `ids`. */
  function SendOn(ids: seq<nat>): Event {
    Send([], 100, 100, seq(|ids|, i requires 0 <= i < |ids| => Visit(ids[i], 1, false)), true, 0)
  }

  /** A visit to a stream with at most one byte takes it, and the FIN if it is due. */
  lemma VisitSmall(st: Filled, id: nat, maxBytes: nat)
    requires id in st.streams && id < 256 && TakenFromWritten(st.streams) && !st.stopped && st.length + 10 <= maxBytes
    requires var s := st.streams[id]; s.writeOffset == 0 && |s.written| <= 1 && (s.written != [] || TakesFin(s, 0))
    ensures var s := st.streams[id];
            var r := VisitStream(st, Visit(id, 1, false), maxBytes);
            && r.frames == st.frames + [StreamFrame(id, TakesFin(s, |s.written|), true, 0, s.written)]
            && r.streams == Take(st.streams, id, |s.written|, TakesFin(s, |s.written|))
            && !r.stopped && r.length <= st.length + 5
  {
    var s := st.streams[id];
    assert s.written[0..|s.written|] == s.written;
  }

  /** One pass sends frames `fs` in the next packet. */
  ghost predicate Fills(s: Sender, e: Event, t: Sender, fs: seq<StreamFrame>) {
    && e.Send? && e.others == [] && e.skip == 0 && Known(s.streams, e.visits) && TakenFromWritten(s.streams)
    && s.handler.queue == [] && fs != [] && Fill(s, e.maxLen, e.visits) == (t, fs)
  }

  lemma FillsOne(s: Sender, id: nat)
    requires id in s.streams && id < 256 && TakenFromWritten(s.streams) && s.handler.queue == [] && s.queue == []
    requires var x := s.streams[id]; x.writeOffset == 0 && |x.written| <= 1 && (x.written != [] || TakesFin(x, 0))
    ensures var x := s.streams[id];
            var fin := TakesFin(x, |x.written|);
            Fills(s, SendOn([id]), s.(streams := Take(s.streams, id, |x.written|, fin)),
                  [StreamFrame(id, fin, true, 0, x.written)])
  {
    hide VisitStream;
    var visits := SendOn([id]).visits;
    assert visits[..0] == [] && Known(s.streams, visits[..0]);
    assert VisitAll(s.streams, visits[..0], 100) == Filled(s.streams, [], 0, [], false);
    VisitSmall(Filled(s.streams, [], 0, [], false), id, 100);
    assert visits == [Visit(id, 1, false)];
    assert PopFrames([], 100) == Popped([], [], 0);
    assert forall f: StreamFrame :: [] + [f] == [f];
  }

  lemma FillsTwo(s: Sender, id: nat, id': nat)
    requires id in s.streams && id' in s.streams && id != id' && id < 256 && id' < 256
    requires TakenFromWritten(s.streams) && s.handler.queue == [] && s.queue == []
    requires var x := s.streams[id]; x.writeOffset == 0 && |x.written| <= 1 && (x.written != [] || TakesFin(x, 0))
    requires var x := s.streams[id']; x.writeOffset == 0 && |x.written| <= 1 && (x.written != [] || TakesFin(x, 0))
    ensures var x, x' := s.streams[id], s.streams[id'];
            var fin, fin' := TakesFin(x, |x.written|), TakesFin(x', |x'.written|);
            Fills(s, SendOn([id, id']),
                  s.(streams := Take(Take(s.streams, id, |x.written|, fin), id', |x'.written|, fin')),
                  [StreamFrame(id, fin, true, 0, x.written), StreamFrame(id', fin', true, 0, x'.written)])
  {
    hide VisitStream;
    var visits := SendOn([id, id']).visits;
    assert visits[..1] == [visits[0]] && visits[..1][..0] == [] && Known(s.streams, visits[..1][..0]) &&
           Known(s.streams, visits[..1]);
    assert VisitAll(s.streams, visits[..1][..0], 100) == Filled(s.streams, [], 0, [], false);
    VisitSmall(Filled(s.streams, [], 0, [], false), id, 100);
    assert visits == [Visit(id, 1, false), Visit(id', 1, false)];
    var st := VisitAll(s.streams, visits[..1], 100);
    VisitSmall(st, id', 100);
    assert PopFrames([], 100) == Popped([], [], 0);
    Two(st.frames, VisitAll(s.streams, visits, 100).frames);
  }

  lemma Two(fs: seq<StreamFrame>, gs: seq<StreamFrame>)
    ensures |fs| == 1 && |gs| == 2 && gs[..1] == fs ==> [] + gs == [fs[0], gs[1]]
  {
  }

  /** The world when frames `fs` are on their way. */
  function OnTheWay(w: World, t: Sender, fs: seq<StreamFrame>): World {
    var raw := LastToTheEnd(fs);
    World(t.SentNext(PacketWith(w.sender.next, [], fs, 100), 0), w.sent + (set y | y in Pieces(raw)),
          w.packets[w.sender.next := raw], w.acks, w.receiver)
  }

  lemma SendSteps(s: Sender, e: Event, t: Sender, fs: seq<StreamFrame>)
    requires Fills(s, e, t, fs) && e.length == 100
    ensures var p := PacketWith(s.next, [], fs, 100);
            Enabled(s, e) && TakenFromWritten(s.streams) && Outgoing(s, e) == Some(p) && Step(s, e) == t.SentNext(p, 0)
  {
    hide Fill, PacketWith, Sender.SentNext, Known, TakenFromWritten;
    assert s.DequeueAll() == s;
  }

  lemma FramesOf(number: nat, fs: seq<StreamFrame>)
    ensures var p := PacketWith(number, [], fs, 100); p.number == number && StreamFrames(p.frames) == LastToTheEnd(fs)
  {
    StreamFramesBehind([], LastToTheEnd(fs));
    assert [] + LastToTheEnd(fs) == LastToTheEnd(fs);
  }

  lemma SendLeads(w: World, e: Event, t: Sender, fs: seq<StreamFrame>, c: Care)
    requires Fills(w.sender, e, t, fs) && e.length == 100
    ensures EndToEnd.Leads(w, Act(e), OnTheWay(w, t, fs), c)
  {
    hide Fills, Step, Enabled, Outgoing, PacketWith, StreamFrames;
    FillsSends(w.sender, e, t, fs);
    SendSteps(w.sender, e, t, fs);
    FramesOf(w.sender.next, fs);
  }

  lemma FillsSends(s: Sender, e: Event, t: Sender, fs: seq<StreamFrame>)
    requires Fills(s, e, t, fs)
    ensures e.Send?
  {
  }

  // ---------------------------------------------------------------------------------------------
  // Acknowledging everything
  // ---------------------------------------------------------------------------------------------

  lemma {:induction false} AllAcked(h: Handler, ack: AckFrame, k: nat)
    requires k <= |h.history| && forall i :: 0 <= i < |h.history| ==> FateOf(ack, h.history[i]) == Acked
    ensures Sorted(h.queue, h.acked, ack, h.history, k) == Lists([], h.queue, h.acked + h.history[..k])
  {
    if k == 0 {
      assert h.acked + h.history[..0] == h.acked;
    } else {
      AllAcked(h, ack, k - 1);
      assert h.history[..k] == h.history[..k - 1] + [h.history[k - 1]];
    }
  }

  /** The world when ACK frame `ack` is on its way back. */
  function AckSent(w: World, ack: AckFrame): World {
    w.(acks := w.acks + {ack})
  }

  ghost function AckArrived(w: World, ack: AckFrame): World {
    w.(sender := w.sender.(handler := w.sender.handler.ReceivedAck(ack, 1)))
  }

  /** All packets in flight are acknowledged. */
  lemma AckLeads(w: World, ack: AckFrame, c: Care)
    requires AcksOnlyRegistered(ack, w.receiver.registered) && TakenFromWritten(w.sender.streams)
    requires var h := w.sender.handler;
             && ack.largestAcked <= h.lastSent && h.largestReceivedWithAck == 0 && h.skipped == [] && h.acked == []
             && h.history != [] && h.history[0].number <= ack.largestAcked
             && forall i :: 0 <= i < |h.history| ==> FateOf(ack, h.history[i]) == Acked
    ensures EndToEnd.Leads(w, Acknowledge(ack), AckSent(w, ack), c)
    ensures EndToEnd.Leads(AckSent(w, ack), Act(GetAck(ack, 1)), AckArrived(AckSent(w, ack), ack), c)
    ensures AckArrived(AckSent(w, ack), ack).sender.handler.acked == w.sender.handler.history
  {
    hide Handler.ReceivedAck, FateOf, TakenFromWritten;
    AckMoves(w.sender.handler, ack);
  }

  lemma AckMoves(h: Handler, ack: AckFrame)
    requires ack.largestAcked <= h.lastSent && h.largestReceivedWithAck == 0 && h.skipped == [] && h.acked == []
    requires h.history != [] && h.history[0].number <= ack.largestAcked
    requires forall i :: 0 <= i < |h.history| ==> FateOf(ack, h.history[i]) == Acked
    ensures h.ReceivedAck(ack, 1).acked == h.history
  {
    hide FateOf;
    AllAcked(h.(largestReceivedWithAck := 1), ack, |h.history|);
    assert h.history[..|h.history|] == h.history && [] + h.history == h.history;
  }

  // ---------------------------------------------------------------------------------------------
  // Streams
  // ---------------------------------------------------------------------------------------------

  /** A stream with one byte, or none, that is open or closed. */
  function Fresh(written: seq<byte>, closed: bool): SendStream {
    SendStream(written, 0, closed, false, None)
  }

  function Streaming(streams: Streams): World {
    START.(sender := INITIAL.(streams := streams))
  }

  lemma Opens(hs: seq<Happening>, streams: Streams, id: nat, c: Care) returns (hs': seq<Happening>)
    requires Reached(hs, Streaming(streams), c) && id !in streams && TakenFromWritten(streams)
    ensures Reached(hs', Streaming(streams[id := Fresh([], false)]), c)
  {
    hide Reached;
    hs' := OneMore(hs, Streaming(streams), Act(OpenStream(id)), Streaming(streams[id := Fresh([], false)]), c);
  }

  lemma Writes(hs: seq<Happening>, streams: Streams, id: nat, b: byte, c: Care) returns (hs': seq<Happening>)
    requires Reached(hs, Streaming(streams), c) && id in streams && streams[id] == Fresh([], false) &&
             TakenFromWritten(streams)
    ensures Reached(hs', Streaming(streams[id := Fresh([b], false)]), c)
  {
    hide Reached;
    assert [] + [b] == [b];
    hs' := OneMore(hs, Streaming(streams), Act(WriteData(id, [b])), Streaming(streams[id := Fresh([b], false)]), c);
  }

  lemma Closes(hs: seq<Happening>, streams: Streams, id: nat, c: Care) returns (hs': seq<Happening>)
    requires Reached(hs, Streaming(streams), c) && id in streams && streams[id] == Fresh([], false) &&
             TakenFromWritten(streams)
    ensures Reached(hs', Streaming(streams[id := Fresh([], true)]), c)
  {
    hide Reached;
    hs' := OneMore(hs, Streaming(streams), Act(CloseStream(id)), Streaming(streams[id := Fresh([], true)]), c);
  }

  lemma Starts(c: Care)
    ensures Reached([], Streaming(map[]), c)
  {
  }

  // ---------------------------------------------------------------------------------------------
  // Arriving
  // ---------------------------------------------------------------------------------------------

  /** A packet with one stream frame, which is always read as it was sent. */
  lemma AloneReads(f: StreamFrame)
    ensures ReadAs([f]) == [Piece(f)] && Intact([f]) == 1
  {
  }

  lemma AlonePushes(r: Receiver, y: StreamFrame)
    ensures r.PushAll([y]) == r.Push(y) && (r.TakesAll([y]) <==> r.Takes(y)) && r.PushAll([y][..0]) == r
  {
    assert [y][..0] == [];
  }

  ghost function Arrived(w: World, n: nat, y: StreamFrame): World {
    w.(receiver := w.receiver.Push(y).(registered := w.receiver.registered + {n}))
  }

  lemma ArrivesAlone(w: World, n: nat, f: StreamFrame, c: Care)
    requires n in w.packets && w.packets[n] == [f] && n !in w.receiver.registered && w.receiver.Takes(Piece(f))
    requires c.whole ==> !Clashes(w.receiver.At(f.streamID), Piece(f))
    ensures EndToEnd.Leads(w, Arrive(n), Arrived(w, n, Piece(f)), c)
  {
    hide ReadAs, Intact, Receiver.PushAll, Receiver.TakesAll, Receiver.Takes, Receiver.Push, Clashes;
    AloneReads(f);
    AlonePushes(w.receiver, Piece(f));
  }

  /** A sorter that has nothing accepts everything but an empty frame. */
  lemma EmptyAccepts(y: StreamFrame)
    requires y.data != [] || y.fin
    ensures EMPTY.Verdict(y) == Accepted && !Clashes(EMPTY, y)
  {
    if y.data != [] {
      assert y.Covers(y.offset) && !EMPTY.Has(y);
    }
  }

  // ---------------------------------------------------------------------------------------------
  // A byte arrives
  // ---------------------------------------------------------------------------------------------

  function Byte(id: nat, b: byte): StreamFrame {
    StreamFrame(id, false, true, 0, [b])
  }

  function Fin(id: nat): StreamFrame {
    StreamFrame(id, true, true, 0, [])
  }

  lemma LastAlone(f: StreamFrame)
    ensures LastToTheEnd([f]) == [f.(dataLenPresent := false)]
  {
  }

  /** A stream that was just given a byte, or closed without one. */
  lemma Prepares(streams: Streams, b: byte, c: Care) returns (hs: seq<Happening>)
    requires streams == map[5 := Fresh([b], false)]
    ensures Reached(hs, Streaming(streams), c)
  {
    hide Reached;
    Starts(c);
    hs := Opens([], map[], 5, c);
    hs := Writes(hs, map[5 := Fresh([], false)], 5, b, c);
    assert map[5 := Fresh([], false)][5 := Fresh([b], false)] == streams;
  }

  /** What the handler knows of a packet that is on its way. */
  lemma HandlerOf(w: World, t: Sender, fs: seq<StreamFrame>)
    requires t.next == w.sender.next == t.handler.lastSent + 1
    ensures var h := OnTheWay(w, t, fs).sender.handler;
            h == t.handler.(lastSent := t.next, history := t.handler.history + [PacketWith(t.next, [], fs, 100)])
  {
    hide PacketWith;
    NumberOf(t.next, fs);
  }

  lemma NumberOf(n: nat, fs: seq<StreamFrame>)
    ensures PacketWith(n, [], fs, 100).number == n
  {
  }

  /** In a run with every care, a byte is written, sent and received, and its packet is acknowledged. */
  lemma DataArrives(b: byte) returns (hs: seq<Happening>, w: World)
    ensures Reached(hs, w, CAREFUL) && w.receiver.At(5).Has(Byte(5, b))
    ensures w.sender.handler.acked == [PacketWith(1, [], [Byte(5, b)], 100)]
  {
    hide Reached, EndToEnd.Leads, Fills, PacketWith, Clashes, Assembly.Verdict, LastToTheEnd, Pieces, Sender.SentNext;
    var streams := map[5 := Fresh([b], false)];
    hs := Prepares(streams, b, CAREFUL);
    var v := Streaming(streams);
    HandlerOf(v, v.sender.(streams := Ledger.Take(streams, 5, 1, false)), [Byte(5, b)]);
    NumberOf(1, [Byte(5, b)]);
    hs, w := SendsOne(hs, v, 5, CAREFUL);
    SentStreams(v, v.sender.(streams := Ledger.Take(streams, 5, 1, false)), [Byte(5, b)]);
    LastAlone(Byte(5, b));
    EmptyAccepts(Byte(5, b));
    ArrivesAlone(w, 1, Byte(5, b).(dataLenPresent := false), CAREFUL);
    hs := OneMore(hs, w, Arrive(1), Arrived(w, 1, Byte(5, b)), CAREFUL);
    w := Arrived(w, 1, Byte(5, b));
    hs, w := Settles(hs, w, AckFrame(1, 1, [], 0), CAREFUL);
  }

  lemma SentStreams(w: World, t: Sender, fs: seq<StreamFrame>)
    ensures OnTheWay(w, t, fs).sender.streams == t.streams
  {
  }

  /** Stream `id` of world `w` sends what it has, in a packet of its own. */
  lemma SendsOne(hs: seq<Happening>, w: World, id: nat, c: Care) returns (hs': seq<Happening>, w': World)
    requires Reached(hs, w, c) && id in w.sender.streams && id < 256 && TakenFromWritten(w.sender.streams)
    requires w.sender.handler.queue == [] && w.sender.queue == []
    requires var x := w.sender.streams[id];
             x.writeOffset == 0 && |x.written| <= 1 && (x.written != [] || TakesFin(x, 0))
    ensures var x := w.sender.streams[id];
            var fin := TakesFin(x, |x.written|);
            && Reached(hs', w', c)
            && w' == OnTheWay(w, w.sender.(streams := Ledger.Take(w.sender.streams, id, |x.written|, fin)),
                              [StreamFrame(id, fin, true, 0, x.written)])
  {
    hide Reached, EndToEnd.Leads, Fills;
    var x := w.sender.streams[id];
    var fin := TakesFin(x, |x.written|);
    var t, fs := w.sender.(streams := Ledger.Take(w.sender.streams, id, |x.written|, fin)),
      [StreamFrame(id, fin, true, 0, x.written)];
    FillsOne(w.sender, id);
    w' := OnTheWay(w, t, fs);
    SendLeads(w, SendOn([id]), t, fs, c);
    hs' := OneMore(hs, w, Act(SendOn([id])), w', c);
  }

  /** Everything in flight is acknowledged. */
  lemma Settles(hs: seq<Happening>, w: World, ack: AckFrame, c: Care) returns (hs': seq<Happening>, w': World)
    requires Reached(hs, w, c) && AcksOnlyRegistered(ack, w.receiver.registered) && TakenFromWritten(w.sender.streams)
    requires var h := w.sender.handler;
             && ack.largestAcked <= h.lastSent && h.largestReceivedWithAck == 0 && h.skipped == [] && h.acked == []
             && h.history != [] && h.history[0].number <= ack.largestAcked
             && forall i :: 0 <= i < |h.history| ==> FateOf(ack, h.history[i]) == Acked
    ensures Reached(hs', w', c) && w'.receiver == w.receiver && w'.sender.streams == w.sender.streams
    ensures w'.sender.handler.acked == w.sender.handler.history
  {
    hide Reached, EndToEnd.Leads, FateOf;
    AckLeads(w, ack, c);
    hs' := OneMore(hs, w, Acknowledge(ack), AckSent(w, ack), c);
    w' := AckArrived(AckSent(w, ack), ack);
    hs' := OneMore(hs', AckSent(w, ack), Act(GetAck(ack, 1)), w', c);
  }

  // ---------------------------------------------------------------------------------------------
  // A FIN swallows a byte
  // ---------------------------------------------------------------------------------------------

  lemma PreparesTwo(streams: Streams, b: byte) returns (hs: seq<Happening>)
    requires streams == map[5 := Fresh([], true), 7 := Fresh([b], false)]
    ensures Reached(hs, Streaming(streams), TIDY)
  {
    hide Reached;
    var s5, s57 := map[5 := Fresh([], false)], map[5 := Fresh([], false), 7 := Fresh([], false)];
    Starts(TIDY);
    hs := Opens([], map[], 5, TIDY);
    assert s5[7 := Fresh([], false)] == s57;
    hs := Opens(hs, s5, 7, TIDY);
    hs := Writes(hs, s57, 7, b, TIDY);
    hs := Closes(hs, s57[7 := Fresh([b], false)], 5, TIDY);
    assert s57[7 := Fresh([b], false)][5 := Fresh([], true)] == streams;
  }

  /** The FIN of stream 5 as the peer reads it. */
  function Swallowing(b: byte): StreamFrame {
    Fin(5).(data := StreamFrameCodec.Bytes(Byte(7, b).(dataLenPresent := false)))
  }

  lemma SwallowingReads(b: byte)
    ensures LastToTheEnd([Fin(5), Byte(7, b)]) == [Fin(5), Byte(7, b).(dataLenPresent := false)]
    ensures ReadAs([Fin(5), Byte(7, b).(dataLenPresent := false)]) == [Swallowing(b)] && Swallowing(b).data != []
  {
    var d := Byte(7, b).(dataLenPresent := false);
    var fs := [Fin(5), d];
    assert fs[1..] == [d] && [d][1..] == [];
    assert StreamFrameCodec.Bytes(d) + [] == StreamFrameCodec.Bytes(d);
    assert StreamFrameCodec.StreamBytes([d]) == StreamFrameCodec.Bytes(d);
    assert StreamFrameCodec.Swallow(fs) == [Swallowing(b)];
    StreamFrameCodec.BytesLength(d);
  }

  lemma SwallowingArrives(w: World, b: byte)
    requires 1 in w.packets && w.packets[1] == [Fin(5), Byte(7, b).(dataLenPresent := false)]
    requires w.receiver == START.receiver
    ensures EndToEnd.Leads(w, Arrive(1), Arrived(w, 1, Swallowing(b)), TIDY)
  {
    hide ReadAs, Swallowing, Receiver.PushAll, Receiver.TakesAll, Assembly.Verdict, Receiver.Push;
    SwallowingReads(b);
    EmptyAccepts(Swallowing(b));
    AlonePushes(w.receiver, Swallowing(b));
  }

  /** The reader of stream 5 gets what was swallowed. */
  lemma SwallowingRead(w: World, b: byte)
    requires w.receiver == START.receiver.Push(Swallowing(b)).(registered := w.receiver.registered) &&
             Swallowing(b).data != []
    ensures EndToEnd.Leads(w, TakeFrame(5), Next(w, TakeFrame(5)), TIDY)
    ensures Next(w, TakeFrame(5)).receiver.At(5).delivered == Swallowing(b).data
    ensures Next(w, TakeFrame(5)).receiver.At(7) == EMPTY
  {
    EmptyAccepts(Swallowing(b));
    assert START.receiver.At(5) == EMPTY;
    var x := Swallowing(b);
    assert w.receiver.At(5) == EMPTY.Accept(x);
    assert [] + x.data == x.data;
  }

  /** Stream 5 is closed without data, and stream 7 has a byte, so the FIN stands in front of the byte in one packet and
      swallows it. The reader of stream 5 gets bytes that were never written there, and the byte of stream 7 is
      acknowledged but was not received. */
  lemma FinSwallowsByte(b: byte) returns (hs: seq<Happening>, w: World)
    ensures Reached(hs, w, TIDY)
    ensures 5 in w.sender.streams && w.sender.streams[5].written == [] && w.receiver.At(5).delivered != []
    ensures w.sender.handler.acked == [PacketWith(1, [], [Fin(5), Byte(7, b)], 100)]
    ensures !w.receiver.At(7).Has(Byte(7, b))
  {
    hide Reached, EndToEnd.Leads, Fills, PacketWith, LastToTheEnd, Pieces, Sender.SentNext, Swallowing, Receiver.Push,
      Next;
    var streams: Streams := map[5 := Fresh([], true), 7 := Fresh([b], false)];
    hs := PreparesTwo(streams, b);
    var v, fs := Streaming(streams), [Fin(5), Byte(7, b)];
    var t := v.sender.(streams := Ledger.Take(Ledger.Take(streams, 5, 0, true), 7, 1, false));
    FillsTwo(v.sender, 5, 7);
    SendLeads(v, SendOn([5, 7]), t, fs, TIDY);
    HandlerOf(v, t, fs);
    NumberOf(1, fs);
    SentStreams(v, t, fs);
    SwallowingReads(b);
    w := OnTheWay(v, t, fs);
    hs := OneMore(hs, v, Act(SendOn([5, 7])), w, TIDY);
    SwallowingArrives(w, b);
    hs := OneMore(hs, w, Arrive(1), Arrived(w, 1, Swallowing(b)), TIDY);
    w := Arrived(w, 1, Swallowing(b));
    SwallowingRead(w, b);
    TakeLeads(w, TIDY, 5);
    hs := OneMore(hs, w, TakeFrame(5), Next(w, TakeFrame(5)), TIDY);
    TakeKeeps(w, 5);
    w := Next(w, TakeFrame(5));
    hs, w := Settles(hs, w, AckFrame(1, 1, [], 0), TIDY);
    assert Byte(7, b).Covers(0);
  }

  lemma TakeKeeps(w: World, id: nat)
    ensures Next(w, TakeFrame(id)).sender == w.sender &&
            Next(w, TakeFrame(id)).receiver.registered == w.receiver.registered
  {
  }

  // ---------------------------------------------------------------------------------------------
  // A byte behind a FIN
  // ---------------------------------------------------------------------------------------------

  /** Stream 5 is closed without data, and written to when its FIN was sent. */
  lemma WritesLate(w: World, b: byte)
    requires 5 in w.sender.streams && w.sender.streams[5] == SendStream([], 0, true, false, Some(0))
    requires TakenFromWritten(w.sender.streams)
    ensures var w' := w.(sender :=
                         w.sender.(streams := w.sender.streams[5 := SendStream([b], 0, true, false, Some(0))]));
            EndToEnd.Leads(w, Act(WriteData(5, [b])), w', CLEAN)
  {
    assert [] + [b] == [b];
  }

  lemma PreparesClosed() returns (hs: seq<Happening>)
    ensures Reached(hs, Streaming(map[5 := Fresh([], true)]), CLEAN)
  {
    hide Reached;
    Starts(CLEAN);
    hs := Opens([], map[], 5, CLEAN);
    hs := Closes(hs, map[5 := Fresh([], false)], 5, CLEAN);
    assert map[5 := Fresh([], false)][5 := Fresh([], true)] == map[5 := Fresh([], true)];
  }

  /** The sorter has the FIN at offset 0, and takes the byte at offset 0 for a duplicate. */
  lemma LateByteDropped(r: Receiver, b: byte)
    requires r.received == START.receiver.Push(Fin(5)).received
    ensures r.Takes(Byte(5, b)) && r.Push(Byte(5, b)).At(5) == r.At(5) && !r.At(5).Has(Byte(5, b))
  {
    EmptyAccepts(Fin(5));
    assert START.receiver.At(5) == EMPTY;
    assert r.At(5) == EMPTY.Accept(Fin(5));
    assert Byte(5, b).Covers(0) && !Fin(5).Covers(0);
  }

  lemma FinPushed()
    ensures START.receiver.Push(Fin(5)).registered == {}
  {
  }

  /** The FIN of stream 5 is on its way, and then a byte is written. */
  function Late(b: byte): World {
    var v := Streaming(map[5 := Fresh([], true)]);
    var w := OnTheWay(v, v.sender.(streams := Ledger.Take(v.sender.streams, 5, 0, true)), [Fin(5)]);
    w.(sender := w.sender.(streams := map[5 := SendStream([b], 0, true, false, Some(0))]))
  }

  lemma ReachesLate(b: byte) returns (hs: seq<Happening>)
    ensures Reached(hs, Late(b), CLEAN)
  {
    hide Reached, EndToEnd.Leads, Fills, PacketWith, LastToTheEnd, Pieces;
    hs := PreparesClosed();
    var v, w: World := Streaming(map[5 := Fresh([], true)]), START;
    hs, w := SendsOne(hs, v, 5, CLEAN);
    WritesLate(w, b);
    hs := OneMore(hs, w, Act(WriteData(5, [b])), Late(b), CLEAN) by {
      assert w.sender.streams[5 := SendStream([b], 0, true, false, Some(0))] == Late(b).sender.streams;
    }
  }

  /** Both packets are on their way. */
  function BothSent(b: byte): World {
    var v := Late(b);
    OnTheWay(v, v.sender.(streams := Ledger.Take(v.sender.streams, 5, 1, false)), [Byte(5, b)])
  }

  lemma SentReceiver(b: byte)
    ensures BothSent(b).receiver == START.receiver
  {
  }

  lemma LateHandler(b: byte)
    ensures var h := BothSent(b).sender.handler;
            h == INITIAL.handler.(lastSent := 2,
                                  history := [PacketWith(1, [], [Fin(5)], 100), PacketWith(2, [], [Byte(5, b)], 100)])
    ensures Late(b).sender.handler == INITIAL.handler.(lastSent := 1, history := [PacketWith(1, [], [Fin(5)], 100)])
    ensures Late(b).sender.queue == [] &&
            BothSent(b).sender.streams == map[5 := SendStream([b], 1, true, false, Some(0))]
    ensures BothSent(b).packets ==
            map[1 := [Fin(5).(dataLenPresent := false)], 2 := [Byte(5, b).(dataLenPresent := false)]]
  {
    hide PacketWith, Pieces, LastToTheEnd;
    var v := Streaming(map[5 := Fresh([], true)]);
    HandlerOf(v, v.sender.(streams := Ledger.Take(v.sender.streams, 5, 0, true)), [Fin(5)]);
    HandlerOf(Late(b), Late(b).sender.(streams := Ledger.Take(Late(b).sender.streams, 5, 1, false)), [Byte(5, b)]);
    LastAlone(Fin(5));
    LastAlone(Byte(5, b));
  }

  lemma ReachesBoth(b: byte) returns (hs: seq<Happening>)
    ensures Reached(hs, BothSent(b), CLEAN)
  {
    hide Reached, PacketWith, LastToTheEnd, Pieces, Sender.SentNext;
    var w;
    LateHandler(b);
    hs := ReachesLate(b);
    hs, w := SendsOne(hs, Late(b), 5, CLEAN);
  }

  /** Stream 5 is closed without data, its FIN is sent, a byte is written and sent, and both packets arrive. The byte is
      acknowledged but was not received, although both packets were read as they were sent. */
  lemma LateByteIsLost(b: byte) returns (hs: seq<Happening>, w: World)
    ensures Reached(hs, w, CLEAN)
    ensures w.sender.handler.acked == [PacketWith(1, [], [Fin(5)], 100), PacketWith(2, [], [Byte(5, b)], 100)]
    ensures !w.receiver.At(5).Has(Byte(5, b))
  {
    hide Reached, EndToEnd.Leads, PacketWith, Clashes, Assembly.Verdict, Receiver.Push, BothSent, Late;
    LateHandler(b);
    hs := ReachesBoth(b);
    w := BothSent(b);
    SentReceiver(b);
    NumberOf(1, [Fin(5)]);
    NumberOf(2, [Byte(5, b)]);
    EmptyAccepts(Fin(5));
    ArrivesAlone(w, 1, Fin(5).(dataLenPresent := false), CLEAN);
    hs := OneMore(hs, w, Arrive(1), Arrived(w, 1, Fin(5)), CLEAN);
    w := Arrived(w, 1, Fin(5));
    FinPushed();
    LateByteDropped(w.receiver, b);
    ArrivesAlone(w, 2, Byte(5, b).(dataLenPresent := false), CLEAN);
    hs := OneMore(hs, w, Arrive(2), Arrived(w, 2, Byte(5, b)), CLEAN);
    w := Arrived(w, 2, Byte(5, b));
    hs, w := Settles(hs, w, AckFrame(2, 1, [], 0), CLEAN);
  }
}
