/** Two endpoints and a network that loses, reorders and duplicates packets: the sending side of one
    (session.go, stream_framer.go, ackhandler) and the receiving side of the other (session.go,
    stream_frame_sorter.go), in one direction of the data. */
module EndToEnd {
  import opened Frames
  import opened AckFrames
  import opened SentPackets
  import opened StreamFrameSorters
  import opened Ledger
  import opened Conservation
  import opened SenderData
  import opened Receivers
  import StreamFrameCodec
  import S = StreamFramers

  // ---------------------------------------------------------------------------------------------
  // Pieces that evolve
  // ---------------------------------------------------------------------------------------------

  lemma CoveredKept(sent: set<StreamFrame>, streams: Streams, pieces: set<StreamFrame>, pieces': set<StreamFrame>)
    requires Carried(sent, streams) && Covered(sent, pieces) && Refines(pieces, streams, pieces')
    ensures Covered(sent, pieces')
  {
    forall x, y | x in pieces' && y in sent && Overlap(x, y)
      ensures Contains(y, x)
    {
      assert Carries(streams, y);
      assert Origin(pieces, x) || Untaken(streams, x);
      if Origin(pieces, x) {
        var z :| z in pieces && Contains(z, x);
        assert Overlap(z, y);
      }
    }
  }

  lemma CarriedKept(sent: set<StreamFrame>, streams: Streams, streams': Streams)
    requires Carried(sent, streams) && Grows(streams, streams') && S.TakenFromWritten(streams')
    ensures Carried(sent, streams')
  {
    forall y | y in sent
      ensures Carries(streams', y)
    {
      assert Carries(streams, y);
    }
  }

  /** A transmission that is a piece now was one before: pieces are never merged. */
  lemma LiveBefore(sent: set<StreamFrame>, streams: Streams, pieces: set<StreamFrame>, pieces': set<StreamFrame>,
                   y: StreamFrame)
    requires Carried(sent, streams) && Covered(sent, pieces) && Tiles(pieces, streams) &&
             Refines(pieces, streams, pieces')
    requires y in sent && y in pieces'
    ensures y in pieces
  {
    assert Carries(streams, y);
    assert Origin(pieces, y) || Untaken(streams, y);
    if Origin(pieces, y) {
      var z :| z in pieces && Contains(z, y);
      assert Carries(streams, z);
      assert Overlap(z, y);
      assert Contains(y, z);
      assert z == y;
    }
  }

  // ---------------------------------------------------------------------------------------------
  // Both sides and the network
  // ---------------------------------------------------------------------------------------------

  /** `packets` are the stream frames of all packets ever sent, `sent` their pieces, and `acks` all ACK frames the
      receiver ever sent. The network may deliver each of them at any time, any number of times, or never. */
  datatype World = World(
    sender: Sender, sent: set<StreamFrame>, packets: map<nat, seq<StreamFrame>>, acks: set<AckFrame>,
      receiver: Receiver)

  const START := World(INITIAL, {}, map[], {}, Receiver({}, map[], {}))

  /** A step of the sender, the arrival of a packet, the reader of a stream taking a frame, or the receiver
      sending an ACK frame. A packet that the receiver refuses, because it was asked to stop waiting for it or cannot
      open it, is one that does not arrive. */
  datatype Happening =
    | Act(e: Event)
    | Arrive(number: nat)
    | TakeFrame(id: nat)
    | Acknowledge(ack: AckFrame)

  ghost predicate AcksOnlyRegistered(ack: AckFrame, registered: set<int>) {
    forall n :: ack.Acks(n) ==> n in registered
  }

  /** Steps that do not close the session. */
  ghost predicate Possible(w: World, h: Happening) {
    match h
    case Act(e) => Enabled(w.sender, e) && S.TakenFromWritten(w.sender.streams) && (e.GetAck? ==> e.ack in w.acks)
    case Arrive(n) => n in w.packets && (n in w.receiver.registered || w.receiver.TakesAll(ReadAs(w.packets[n])))
    case TakeFrame(_) => true
    case Acknowledge(ack) => AcksOnlyRegistered(ack, w.receiver.registered)
  }

  ghost function Next(w: World, h: Happening): World
    requires Possible(w, h)
  {
    match h
    case Act(e) =>
      var s := Step(w.sender, e);
      if e.Send? && Outgoing(w.sender, e).Some? then
        var p := Outgoing(w.sender, e).value;
        var fs := StreamFrames(p.frames);
        World(s, w.sent + (set y | y in Pieces(fs)), w.packets[p.number := fs], w.acks, w.receiver)
      else w.(sender := s)
    case Arrive(n) => if n in w.receiver.registered then w else w.(receiver := Handled(w, n))
    case TakeFrame(id) => w.(receiver := w.receiver.(received := w.receiver.received[id := w.receiver.At(id).Pop()]))
    case Acknowledge(ack) => w.(acks := w.acks + {ack})
  }

  /** The receiver after it registered packet `n` and handled the frames that it read. */
  ghost function Handled(w: World, n: nat): Receiver
    requires n in w.packets
  {
    w.receiver.PushAll(ReadAs(w.packets[n])).(registered := w.receiver.registered + {n})
  }

  // ---------------------------------------------------------------------------------------------
  // Careful runs
  // ---------------------------------------------------------------------------------------------

  /** The packet is read as it was sent, or the frame that swallows the rest of it is dropped as a duplicate. */
  ghost predicate Clean(r: Receiver, fs: seq<StreamFrame>) {
    var k, rs := Intact(fs), ReadAs(fs);
    k < |fs| && k < |rs| ==> r.PushAll(rs[..k]).At(rs[k].streamID).Verdict(rs[k]) != Accepted
  }

  /** Frame `i` of the packet is read as it was sent, and does not clash when it is its turn. */
  ghost predicate GetsThrough(r: Receiver, fs: seq<StreamFrame>, i: nat) {
    i < Intact(fs) && i <= |ReadAs(fs)| && !Clashes(r.PushAll(ReadAs(fs)[..i]).At(fs[i].streamID), Piece(fs[i]))
  }

  /** Every frame of the packet gets through, or was received before. */
  ghost predicate Whole(r: Receiver, fs: seq<StreamFrame>) {
    Clean(r, fs) && forall i :: 0 <= i < |fs| ==> Got(r.accepted, Piece(fs[i])) || GetsThrough(r, fs, i)
  }

  /** What is asked of the steps of a run: that packets are clean or whole when they arrive, and that nothing is written
      to a stream when its FIN was sent. */
  datatype Care = Care(clean: bool, whole: bool, tidy: bool)

  const CLEAN := Care(true, false, false)
  const TIDY := Care(false, false, true)
  const CAREFUL := Care(true, true, true)

  ghost predicate Careful(w: World, h: Happening, c: Care) {
    match h
    case Arrive(n) =>
      n in w.packets && n !in w.receiver.registered ==>
        (c.clean ==> Clean(w.receiver, w.packets[n])) && (c.whole ==> Whole(w.receiver, w.packets[n]))
    case Act(e) => c.tidy && e.WriteData? && e.id in w.sender.streams ==> w.sender.streams[e.id].fin.None?
    case _ => true
  }

  ghost predicate Leads(v: World, h: Happening, w: World, c: Care) {
    Possible(v, h) && Careful(v, h, c) && w == Next(v, h)
  }

  /** `w` can be reached by steps `hs`, each taken with care `c`. */
  ghost predicate Reached(hs: seq<Happening>, w: World, c: Care) {
    if hs == [] then w == START
    else
      var init, last := hs[..|hs| - 1], hs[|hs| - 1];
      exists v :: Leads(v, last, w, c) && Reached(init, v, c)
  }

  // ---------------------------------------------------------------------------------------------
  // The invariant
  // ---------------------------------------------------------------------------------------------

  /** Packet `p` is one of those that were sent. */
  ghost predicate OnRecord(p: Packet, packets: map<nat, seq<StreamFrame>>) {
    p.number in packets && packets[p.number] == StreamFrames(p.frames)
  }

  ghost predicate Tracked(ps: seq<Packet>, packets: map<nat, seq<StreamFrame>>) {
    forall i :: 0 <= i < |ps| ==> OnRecord(ps[i], packets)
  }

  ghost predicate AckedRegistered(ps: seq<Packet>, registered: set<int>) {
    forall i :: 0 <= i < |ps| ==> ps[i].number in registered
  }

  ghost predicate HandlerInv(h: Handler, packets: map<nat, seq<StreamFrame>>, registered: set<int>) {
    && Tracked(h.history, packets) && Tracked(h.queue, packets) && Tracked(h.acked, packets)
    && AckedRegistered(h.acked, registered)
    && (forall n :: n in packets ==> n <= h.lastSent)
  }

  /** The frames of a packet were sent, and no two of them share a byte or a FIN. */
  ghost predicate Recorded(fs: seq<StreamFrame>, sent: set<StreamFrame>) {
    && (forall i :: 0 <= i < |fs| ==> Piece(fs[i]) in sent)
    && (forall i, j :: 0 <= i < j < |fs| ==> !Overlap(Piece(fs[i]), Piece(fs[j])))
  }

  ghost predicate PacketsSent(packets: map<nat, seq<StreamFrame>>, sent: set<StreamFrame>) {
    forall n :: n in packets ==> Recorded(packets[n], sent)
  }

  /** Pieces in packets that were handled were received. */
  ghost predicate AllGot(w: World, pieces: set<StreamFrame>) {
    forall n, i ::
      n in w.receiver.registered && n in w.packets && 0 <= i < |w.packets[n]| && Piece(w.packets[n][i]) in pieces ==>
        Got(w.receiver.accepted, Piece(w.packets[n][i]))
  }

  ghost predicate SenderInv(w: World, pieces: set<StreamFrame>) {
    && w.sender.Open([]).Balanced(pieces) && Tiles(pieces, w.sender.streams)
    && Carried(w.sent, w.sender.streams) && Covered(w.sent, pieces)
  }

  ghost predicate RecordInv(w: World) {
    && HandlerInv(w.sender.handler, w.packets, w.receiver.registered) && w.sender.handler.lastSent < w.sender.next
    && PacketsSent(w.packets, w.sent)
    && (forall a :: a in w.acks ==> AcksOnlyRegistered(a, w.receiver.registered))
  }

  ghost predicate ReceiverInv(w: World) {
    AllBacked(w.receiver) && AllHeld(w.receiver) && forall n :: n in w.receiver.registered ==> n in w.packets
  }

  /** What holds in every run. */
  ghost predicate Inv(w: World, pieces: set<StreamFrame>) {
    SenderInv(w, pieces) && RecordInv(w) && ReceiverInv(w)
  }

  /** Nothing was accepted that was not sent. */
  ghost predicate OnlySent(w: World) {
    w.receiver.accepted <= w.sent
  }

  /** What holds in runs with care `c`. */
  ghost predicate Kept(w: World, pieces: set<StreamFrame>, c: Care) {
    && Inv(w, pieces)
    && (c.clean ==> OnlySent(w)) && (c.clean && c.whole ==> AllGot(w, pieces))
    && (c.tidy ==> FinAtEnd(w.sender.streams))
  }

  // ---------------------------------------------------------------------------------------------
  // Arrival of a packet
  // ---------------------------------------------------------------------------------------------

  /** Of a clean packet, nothing is accepted but frames as they were sent. */
  lemma CleanAccepts(r: Receiver, fs: seq<StreamFrame>, z: StreamFrame) returns (i: nat)
    requires Clean(r, fs) && z in r.PushAll(ReadAs(fs)).accepted && z !in r.accepted
    ensures i < Intact(fs) && z == Piece(fs[i]) && i <= |ReadAs(fs)|
    ensures r.PushAll(ReadAs(fs)[..i]).At(z.streamID).Verdict(z) == Accepted
  {
    hide Intact, StreamFrameCodec.Swallow;
    ReadsAs(fs);
    i := AcceptedFrom(r, ReadAs(fs), z);
  }

  /** A live piece in a clean packet has been received afterwards exactly if it was before, or gets through. */
  lemma FrameGotIff(r: Receiver, fs: seq<StreamFrame>, i: nat, sent: set<StreamFrame>, pieces: set<StreamFrame>,
                    streams: Streams)
    requires AllBacked(r) && AllHeld(r) && r.accepted <= sent && Carried(sent, streams) && Covered(sent, pieces)
    requires Recorded(fs, sent) && r.TakesAll(ReadAs(fs)) && Clean(r, fs) && i < |fs| && Piece(fs[i]) in pieces
    ensures Got(r.PushAll(ReadAs(fs)).accepted, Piece(fs[i])) <==>
            Got(r.accepted, Piece(fs[i])) || GetsThrough(r, fs, i)
  {
    hide AllBacked, AllHeld, Covered, Intact, StreamFrameCodec.Swallow, Receiver.PushAll, Receiver.TakesAll, Carries;
    var rs, y := ReadAs(fs), Piece(fs[i]);
    ReadsAs(fs);
    PushAllKeeps(r, rs);
    if Got(r.accepted, y) {
      GotMore(r.accepted, r.PushAll(rs).accepted, y);
    } else if GetsThrough(r, fs, i) {
      TurnOf(r, rs, i);
      PushAllKeeps(r, rs[..i]);
      TurnSent(r, fs, i, sent);
      assert Carries(streams, y);
      PushGotIff(r.PushAll(rs[..i]), y, sent, pieces, streams);
      AcceptedStays(r, rs, i + 1);
      GotMore(r.PushAll(rs[..i + 1]).accepted, r.PushAll(rs).accepted, y);
    } else if Got(r.PushAll(rs).accepted, y) {
      GotGetsThrough(r, fs, i, sent, streams);
    }
  }

  /** Up to the turn of a frame that is intact, nothing is accepted that was not sent. */
  lemma TurnSent(r: Receiver, fs: seq<StreamFrame>, i: nat, sent: set<StreamFrame>)
    requires r.accepted <= sent && Recorded(fs, sent) && i < Intact(fs) && i <= |ReadAs(fs)|
    ensures r.PushAll(ReadAs(fs)[..i]).accepted <= sent
  {
    hide Intact, StreamFrameCodec.Swallow;
    var rs := ReadAs(fs);
    ReadsAs(fs);
    forall z | z in r.PushAll(rs[..i]).accepted
      ensures z in sent
    {
      if z !in r.accepted {
        var j := AcceptedFrom(r, rs[..i], z);
      }
    }
  }

  lemma GotGetsThrough(r: Receiver, fs: seq<StreamFrame>, i: nat, sent: set<StreamFrame>, streams: Streams)
    requires Recorded(fs, sent) && Carried(sent, streams) && Clean(r, fs) && i < |fs|
    requires Got(r.PushAll(ReadAs(fs)).accepted, Piece(fs[i])) && !Got(r.accepted, Piece(fs[i]))
    ensures GetsThrough(r, fs, i)
  {
    hide Intact, StreamFrameCodec.Swallow;
    var y := Piece(fs[i]);
    var z :| z in r.PushAll(ReadAs(fs)).accepted && Contains(z, y);
    var j := CleanAccepts(r, fs, z);
    assert Carries(streams, y);
    assert Overlap(z, y) && Overlap(y, z);
    assert j == i;
  }

  /** What the arrival of packet `n` keeps. */
  lemma ArriveInv(w: World, n: nat, pieces: set<StreamFrame>)
    requires Inv(w, pieces) && Possible(w, Arrive(n))
    ensures Inv(Next(w, Arrive(n)), pieces)
  {
    hide Tiles, Carried, Covered, Tracked, Backed, PacketsSent, AllHeld;
    var r := w.receiver;
    if n !in r.registered {
      var r' := r.PushAll(ReadAs(w.packets[n]));
      PushAllKeeps(r, ReadAs(w.packets[n]));
      SameStreams(r', Handled(w, n));
    }
  }

  lemma SameStreams(r: Receiver, r': Receiver)
    requires AllBacked(r) && AllHeld(r) && r'.received == r.received && r'.accepted == r.accepted
    ensures AllBacked(r') && AllHeld(r')
  {
    assert forall id: nat :: r'.At(id) == r.At(id);
  }

  lemma ArriveKept(w: World, n: nat, pieces: set<StreamFrame>, c: Care)
    requires Kept(w, pieces, c) && Possible(w, Arrive(n)) && Careful(w, Arrive(n), c)
    ensures Kept(Next(w, Arrive(n)), pieces, c)
  {
    hide Inv, AllGot, FinAtEnd, Clean, Whole, ReadAs, Receiver.PushAll, Receiver.TakesAll;
    ArriveInv(w, n, pieces);
    if n !in w.receiver.registered && c.clean {
      ArriveOnlySent(w, n, pieces);
      if c.whole {
        ArriveGot(w, n, pieces);
      }
    }
  }

  lemma ArriveOnlySent(w: World, n: nat, pieces: set<StreamFrame>)
    requires Inv(w, pieces) && OnlySent(w) && n in w.packets && Clean(w.receiver, w.packets[n])
    ensures Handled(w, n).accepted <= w.sent
  {
    hide Clean, ReadAs, Receiver.PushAll, HandlerInv, Tiles, Carried, Covered, AllBacked, AllHeld;
    forall z | z in Handled(w, n).accepted
      ensures z in w.sent
    {
      if z !in w.receiver.accepted {
        var i := CleanAccepts(w.receiver, w.packets[n], z);
        assert Recorded(w.packets[n], w.sent);
      }
    }
  }

  /** Exactly when a clean packet that arrives leaves nothing live out that was in packets handled so far. */
  lemma ArrivalGotIff(w: World, n: nat, pieces: set<StreamFrame>)
    requires Inv(w, pieces) && OnlySent(w) && AllGot(w, pieces) && Possible(w, Arrive(n)) && n !in w.receiver.registered
    requires Clean(w.receiver, w.packets[n])
    ensures AllGot(Next(w, Arrive(n)), pieces) <==>
            forall i :: 0 <= i < |w.packets[n]| && Piece(w.packets[n][i]) in pieces ==>
              Got(w.receiver.accepted, Piece(w.packets[n][i])) || GetsThrough(w.receiver, w.packets[n], i)
  {
    hide Clean, GetsThrough, ReadAs, Receiver.PushAll, HandlerInv, Tiles, Carried, Covered, AllBacked, AllHeld;
    var r, fs, w' := w.receiver, w.packets[n], Next(w, Arrive(n));
    PushAllKeeps(r, ReadAs(fs));
    assert Recorded(fs, w.sent);
    forall i | 0 <= i < |fs| && Piece(fs[i]) in pieces
      ensures Got(w'.receiver.accepted, Piece(fs[i])) <==> Got(r.accepted, Piece(fs[i])) || GetsThrough(r, fs, i)
    {
      FrameGotIff(r, fs, i, w.sent, pieces, w.sender.streams);
    }
    forall m, i | m in r.registered && m in w.packets && 0 <= i < |w.packets[m]| && Piece(w.packets[m][i]) in pieces
      ensures Got(w'.receiver.accepted, Piece(w.packets[m][i]))
    {
      GotMore(r.accepted, w'.receiver.accepted, Piece(w.packets[m][i]));
    }
  }

  lemma ArriveGot(w: World, n: nat, pieces: set<StreamFrame>)
    requires Inv(w, pieces) && OnlySent(w) && AllGot(w, pieces) && Possible(w, Arrive(n)) && n !in w.receiver.registered
    requires Whole(w.receiver, w.packets[n])
    ensures AllGot(Next(w, Arrive(n)), pieces)
  {
    hide Inv, OnlySent, AllGot, Clean, GetsThrough, Next, Got;
    ArrivalGotIff(w, n, pieces);
  }

  lemma TakeInv(w: World, id: nat, pieces: set<StreamFrame>)
    requires Inv(w, pieces)
    ensures Inv(Next(w, TakeFrame(id)), pieces)
  {
    hide Tiles, Carried, Covered, HandlerInv;
    var a, r, r' := w.receiver.At(id), w.receiver, Next(w, TakeFrame(id)).receiver;
    assert Backed(a, id, r.accepted);
    a.PopCoherent();
    forall i: nat
      ensures Backed(r'.At(i), i, r'.accepted)
    {
      assert Backed(r.At(i), i, r.accepted);
    }
  }

  // ---------------------------------------------------------------------------------------------
  // Steps of the sender
  // ---------------------------------------------------------------------------------------------

  lemma TrackedSnoc(ps: seq<Packet>, p: Packet, packets: map<nat, seq<StreamFrame>>)
    requires Tracked(ps, packets) && OnRecord(p, packets)
    ensures Tracked(ps + [p], packets)
  {
  }

  /** An ACK frame moves packets, and only registered ones to the acknowledged packets. */
  lemma {:induction false} SortedTracked(
    h: Handler, ack: AckFrame, k: nat, packets: map<nat, seq<StreamFrame>>, registered: set<int>)
    requires k <= |h.history| && HandlerInv(h, packets, registered) && AcksOnlyRegistered(ack, registered)
    ensures var s := Sorted(h.queue, h.acked, ack, h.history, k);
            Tracked(s.history, packets) && Tracked(s.queue, packets) && Tracked(s.acked, packets) &&
              AckedRegistered(s.acked, registered)
  {
    if k > 0 {
      SortedTracked(h, ack, k - 1, packets, registered);
      var s, p := Sorted(h.queue, h.acked, ack, h.history, k - 1), h.history[k - 1];
      assert OnRecord(p, packets) && OnRecord(p.Report(), packets);
      match FateOf(ack, p)
      case Untouched => TrackedSnoc(s.history, p, packets);
      case Reported => TrackedSnoc(s.history, p.Report(), packets);
      case Lost => TrackedSnoc(s.queue, p.Report(), packets);
      case Acked => TrackedSnoc(s.acked, p, packets);
    }
  }

  lemma AckTracked(h: Handler, ack: AckFrame, n: nat, packets: map<nat, seq<StreamFrame>>, registered: set<int>)
    requires HandlerInv(h, packets, registered) && AcksOnlyRegistered(ack, registered)
    ensures HandlerInv(h.ReceivedAck(ack, n), packets, registered)
  {
    SortedTracked(h, ack, |h.history|, packets, registered);
  }

  lemma SendTracked(h: Handler, p: Packet, packets: map<nat, seq<StreamFrame>>, registered: set<int>)
    requires HandlerInv(h, packets, registered) && h.lastSent < p.number
    ensures HandlerInv(h.Sent(p), packets[p.number := StreamFrames(p.frames)], registered)
  {
    var packets' := packets[p.number := StreamFrames(p.frames)];
    assert forall q :: OnRecord(q, packets) ==> OnRecord(q, packets');
    TrackedSnoc(h.history, p, packets');
  }

  lemma TimeoutTracked(h: Handler, packets: map<nat, seq<StreamFrame>>, registered: set<int>)
    requires HandlerInv(h, packets, registered)
    ensures HandlerInv(h.QueueFirst(), packets, registered)
  {
    if h.history != [] {
      assert OnRecord(h.history[0], packets);
      TrackedSnoc(h.queue, h.history[0], packets);
      forall i | 0 <= i < |h.history[1..]|
        ensures OnRecord(h.history[1..][i], packets)
      {
        assert h.history[1..][i] == h.history[i + 1];
      }
    }
  }

  lemma ActEvolves(s: Sender, e: Event, pieces: set<StreamFrame>) returns (pieces': set<StreamFrame>)
    requires Enabled(s, e) && S.TakenFromWritten(s.streams) && s.Open([]).Balanced(pieces) && Tiles(pieces, s.streams)
    ensures Step(s, e).Open([]).Balanced(pieces') && Tiles(pieces', Step(s, e).streams)
    ensures Refines(pieces, s.streams, pieces') && Grows(s.streams, Step(s, e).streams)
  {
    hide Step, Enabled, Tiles;
    RefinesSame(pieces, s.streams);
    assert Evolved(s.Open([]), pieces, s.streams);
    StepEvolved(s, e, pieces, s.streams);
    var b := Step(s, e).Open([]);
    pieces' :| b.Balanced(pieces') && Tiles(pieces', b.streams) && Refines(pieces, s.streams, pieces');
  }

  lemma TilesTaken(pieces: set<StreamFrame>, streams: Streams)
    requires Tiles(pieces, streams)
    ensures S.TakenFromWritten(streams)
  {
    forall id | id in streams
      ensures streams[id].writeOffset <= |streams[id].written|
    {
      assert streams[id].Valid();
    }
  }

  /** What was sent before stays in order when the pieces evolve. */
  lemma EvolutionInv(w: World, streams: Streams, pieces: set<StreamFrame>, pieces': set<StreamFrame>)
    requires Inv(w, pieces)
    requires Refines(pieces, w.sender.streams, pieces') && Grows(w.sender.streams, streams) && Tiles(pieces', streams)
    ensures Carried(w.sent, streams) && Covered(w.sent, pieces') && (AllGot(w, pieces) ==> AllGot(w, pieces'))
  {
    TilesTaken(pieces', streams);
    CarriedKept(w.sent, w.sender.streams, streams);
    CoveredKept(w.sent, w.sender.streams, pieces, pieces');
    forall n, i | n in w.packets && 0 <= i < |w.packets[n]| && Piece(w.packets[n][i]) in pieces'
      ensures Piece(w.packets[n][i]) in pieces
    {
      assert Recorded(w.packets[n], w.sent);
      LiveBefore(w.sent, w.sender.streams, pieces, pieces', Piece(w.packets[n][i]));
    }
  }

  /** The frames of a packet that is in flight or acknowledged are pieces. */
  lemma HeldIsPiece(s: Sender, ps: seq<Packet>, j: nat, i: nat, pieces: set<StreamFrame>)
    requires s.Open([]).Balanced(pieces) && (ps == s.handler.history || ps == s.handler.acked)
    requires j < |ps| && i < |StreamFrames(ps[j].frames)|
    ensures Piece(StreamFrames(ps[j].frames)[i]) in pieces
  {
    CountPacketsAt(ps, j, i);
    assert s.Open([]).Places(Piece(StreamFrames(ps[j].frames)[i])) >= 1;
  }

  /** New frames are pieces of their own, which nothing overlaps. */
  lemma NewFramesCovered(sent: set<StreamFrame>, added: set<StreamFrame>, pieces: set<StreamFrame>, streams: Streams)
    requires Carried(sent, streams) && Covered(sent, pieces) && Tiles(pieces, streams) && added <= pieces
    ensures Carried(sent + added, streams) && Covered(sent + added, pieces)
  {
    forall y | y in sent + added
      ensures Carries(streams, y)
    {
      assert y in added ==> y in pieces;
    }
    forall x, y | x in pieces && y in sent + added && Overlap(x, y)
      ensures Contains(y, x)
    {
      assert y in added ==> x == y;
    }
  }

  /** What a step makes of the handler, and of the record of packets. */
  lemma HandlerStep(w: World, e: Event)
    requires RecordInv(w) && Possible(w, Act(e))
    ensures var w' := Next(w, Act(e));
            && HandlerInv(w'.sender.handler, w'.packets, w.receiver.registered)
            && w'.sender.handler.lastSent < w'.sender.next
  {
    var h := w.sender.handler;
    match e
    case GetAck(ack, n) => AckTracked(h, ack, n, w.packets, w.receiver.registered);
    case Timeout => TimeoutTracked(h, w.packets, w.receiver.registered);
    case Send(_, _, _, _, _, _) =>
      DequeueAllStreams(w.sender);
      var d := h.(queue := []);
      assert HandlerInv(d, w.packets, w.receiver.registered);
      var out := Outgoing(w.sender, e);
      if out.Some? {
        SendTracked(d, out.value, w.packets, w.receiver.registered);
      }
    case _ =>
  }

  /** A step that sends no packet. */
  lemma QuietInv(w: World, e: Event, pieces: set<StreamFrame>) returns (pieces': set<StreamFrame>)
    requires Inv(w, pieces) && Possible(w, Act(e)) && !(e.Send? && Outgoing(w.sender, e).Some?)
    ensures Inv(Next(w, Act(e)), pieces') && (AllGot(w, pieces) ==> AllGot(Next(w, Act(e)), pieces'))
  {
    hide Step, Outgoing, Tiles, Carried, Covered, Refines, Grows, HandlerInv, AllBacked, PacketsSent;
    pieces' := ActEvolves(w.sender, e, pieces);
    HandlerStep(w, e);
    EvolutionInv(w, Step(w.sender, e).streams, pieces, pieces');
  }

  lemma SentIsLast(s: Sender, e: Event)
    requires e.Send? && Enabled(s, e) && S.TakenFromWritten(s.streams) && Outgoing(s, e).Some?
    ensures var h := Step(s, e).handler.history;
            h != [] && h[|h| - 1] == Outgoing(s, e).value && Outgoing(s, e).value.number == s.next
  {
  }

  lemma {:induction false} CountTwice(fs: seq<StreamFrame>, i: nat, j: nat)
    requires i < j < |fs| && Piece(fs[i]) == Piece(fs[j])
    ensures CountFrames(fs, Piece(fs[i])) >= 2
  {
    var init := fs[..|fs| - 1];
    if j < |init| {
      CountTwice(init, i, j);
    } else {
      CountAt(init, i);
    }
  }

  /** The frames of a packet that was just sent are pieces, no two of them the same. */
  lemma SentIsLive(s: Sender, e: Event, pieces: set<StreamFrame>)
    requires e.Send? && Enabled(s, e) && S.TakenFromWritten(s.streams) && Outgoing(s, e).Some?
    requires Step(s, e).Open([]).Balanced(pieces) && Apart(pieces)
    ensures Recorded(StreamFrames(Outgoing(s, e).value.frames), pieces)
  {
    hide Step, Outgoing, Apart;
    var s' := Step(s, e);
    var h, fs := s'.handler.history, StreamFrames(Outgoing(s, e).value.frames);
    SentIsLast(s, e);
    forall i | 0 <= i < |fs|
      ensures Piece(fs[i]) in pieces
    {
      HeldIsPiece(s', h, |h| - 1, i, pieces);
    }
    forall i, j | 0 <= i < j < |fs|
      ensures !Overlap(Piece(fs[i]), Piece(fs[j]))
    {
      if Overlap(Piece(fs[i]), Piece(fs[j])) {
        ApartSame(pieces, Piece(fs[i]), Piece(fs[j]));
        CountTwice(fs, i, j);
      }
    }
  }

  lemma ApartSame(pieces: set<StreamFrame>, x: StreamFrame, y: StreamFrame)
    requires Apart(pieces) && x in pieces && y in pieces && Overlap(x, y)
    ensures x == y
  {
  }

  lemma RecordedMore(fs: seq<StreamFrame>, sent: set<StreamFrame>, sent': set<StreamFrame>)
    requires Recorded(fs, sent) && forall i :: 0 <= i < |fs| ==> Piece(fs[i]) in sent'
    ensures Recorded(fs, sent')
  {
  }

  lemma PacketsMore(packets: map<nat, seq<StreamFrame>>, sent: set<StreamFrame>, n: nat, fs: seq<StreamFrame>,
                    pieces: set<StreamFrame>)
    requires PacketsSent(packets, sent) && Recorded(fs, pieces)
    ensures PacketsSent(packets[n := fs], sent + (set y | y in Pieces(fs)))
  {
    var packets', sent' := packets[n := fs], sent + (set y | y in Pieces(fs));
    forall m | m in packets'
      ensures Recorded(packets'[m], sent')
    {
      if m == n {
        forall i | 0 <= i < |fs|
          ensures Piece(fs[i]) in sent'
        {
          assert Pieces(fs)[i] in Pieces(fs);
        }
        RecordedMore(fs, pieces, sent');
      } else {
        assert Recorded(packets[m], sent);
        RecordedMore(packets[m], sent, sent');
      }
    }
  }

  /** A step that sends a packet. */
  lemma SendInv(w: World, e: Event, pieces: set<StreamFrame>) returns (pieces': set<StreamFrame>)
    requires Inv(w, pieces) && Possible(w, Act(e)) && e.Send? && Outgoing(w.sender, e).Some?
    ensures Inv(Next(w, Act(e)), pieces') && (AllGot(w, pieces) ==> AllGot(Next(w, Act(e)), pieces'))
  {
    hide Step, Outgoing, Carried, Covered, Refines, Grows, AllBacked, PacketsSent, Apart, Recorded, Tracked;
    var s', p := Step(w.sender, e), Outgoing(w.sender, e).value;
    var fs := StreamFrames(p.frames);
    pieces' := ActEvolves(w.sender, e, pieces);
    HandlerStep(w, e);
    EvolutionInv(w, s'.streams, pieces, pieces');
    SentIsLast(w.sender, e);
    SentIsLive(w.sender, e, pieces');
    AddedAre(fs, pieces');
    NewFramesCovered(w.sent, (set y | y in Pieces(fs)), pieces', s'.streams);
    PacketsMore(w.packets, w.sent, p.number, fs, pieces');
    assert p.number !in w.receiver.registered;
  }

  lemma AddedAre(fs: seq<StreamFrame>, pieces: set<StreamFrame>)
    requires Recorded(fs, pieces)
    ensures (set y | y in Pieces(fs)) <= pieces
  {
    forall y | y in Pieces(fs)
      ensures y in pieces
    {
      var i :| 0 <= i < |fs| && y == Piece(fs[i]);
    }
  }

  /** Streams whose FIN was taken do not change any more. */
  ghost predicate Settled(streams: Streams, streams': Streams) {
    forall id :: id in streams && streams[id].fin.Some? ==>
      id in streams' && streams'[id].written == streams[id].written && streams'[id].fin == streams[id].fin
  }

  lemma {:induction false} VisitAllTidy(streams: Streams, visits: seq<S.Visit>, maxBytes: nat)
    requires S.Known(streams, visits) && S.TakenFromWritten(streams) && FinAtEnd(streams)
    ensures var r := S.VisitAll(streams, visits, maxBytes).streams; FinAtEnd(r) && Settled(streams, r)
  {
    hide S.VisitStream;
    if visits != [] {
      var init, v := visits[..|visits| - 1], visits[|visits| - 1];
      VisitAllTidy(streams, init, maxBytes);
      var st := S.VisitAll(streams, init, maxBytes);
      var n, fin := S.VisitGives(st, v, maxBytes);
    }
  }

  /** If nothing is written to a stream when its FIN was taken, FINs stay at the end. */
  lemma StepTidy(s: Sender, e: Event)
    requires Enabled(s, e) && S.TakenFromWritten(s.streams) && FinAtEnd(s.streams)
    requires e.WriteData? ==> s.streams[e.id].fin.None?
    ensures FinAtEnd(Step(s, e).streams) && Settled(s.streams, Step(s, e).streams)
  {
    if e.Send? {
      hide FinAtEnd, Settled;
      SendTidy(s, e);
    }
  }

  lemma SendTidy(s: Sender, e: Event)
    requires e.Send? && Enabled(s, e) && S.TakenFromWritten(s.streams) && FinAtEnd(s.streams)
    ensures FinAtEnd(Step(s, e).streams) && Settled(s.streams, Step(s, e).streams)
  {
    hide Fill, FinAtEnd, Settled, Sender.DequeueAll;
    DequeueAllStreams(s);
    FillTidy(s.DequeueAll(), e.maxLen, e.visits);
  }

  lemma FillTidy(s: Sender, maxLen: nat, visits: seq<S.Visit>)
    requires S.Known(s.streams, visits) && S.TakenFromWritten(s.streams) && FinAtEnd(s.streams)
    ensures var t := Fill(s, maxLen, visits).0; FinAtEnd(t.streams) && Settled(s.streams, t.streams)
  {
    hide S.VisitAll, S.PopFrames, FinAtEnd, Settled;
    S.PopFramesLength(s.queue, maxLen);
    VisitAllTidy(s.streams, visits, maxLen - S.PopFrames(s.queue, maxLen).length);
  }

  // ---------------------------------------------------------------------------------------------
  // Every run
  // ---------------------------------------------------------------------------------------------

  lemma StartKept(c: Care)
    ensures Kept(START, {}, c)
  {
    assert INITIAL.Open([]).Balanced({});
  }

  lemma ActKept(w: World, e: Event, pieces: set<StreamFrame>, c: Care) returns (pieces': set<StreamFrame>)
    requires Kept(w, pieces, c) && Possible(w, Act(e)) && Careful(w, Act(e), c)
    ensures Kept(Next(w, Act(e)), pieces', c)
  {
    hide Inv, AllGot, FinAtEnd, Step, Outgoing;
    if e.Send? && Outgoing(w.sender, e).Some? {
      pieces' := SendInv(w, e, pieces);
    } else {
      pieces' := QuietInv(w, e, pieces);
    }
    if c.tidy {
      StepTidy(w.sender, e);
    }
  }

  lemma NextKept(w: World, h: Happening, pieces: set<StreamFrame>, c: Care) returns (pieces': set<StreamFrame>)
    requires Kept(w, pieces, c) && Possible(w, h) && Careful(w, h, c)
    ensures Kept(Next(w, h), pieces', c)
  {
    pieces' := pieces;
    match h
    case Act(e) => pieces' := ActKept(w, e, pieces, c);
    case Arrive(n) => ArriveKept(w, n, pieces, c);
    case TakeFrame(id) => TakeInv(w, id, pieces);
    case Acknowledge(_) =>
  }

  /** The invariant holds in every run, and the more care is taken, the more of it. */
  lemma {:induction false} RunKept(hs: seq<Happening>, w: World, c: Care) returns (pieces: set<StreamFrame>)
    requires Reached(hs, w, c)
    ensures Kept(w, pieces, c)
  {
    hide Kept, Possible, Careful, Next;
    if hs == [] {
      StartKept(c);
      pieces := {};
    } else {
      var init, last := hs[..|hs| - 1], hs[|hs| - 1];
      var v :| Leads(v, last, w, c) && Reached(init, v, c);
      pieces := RunKept(init, v, c);
      pieces := NextKept(v, last, pieces, c);
    }
  }

  /** In every run in which packets arrive whole: every byte of a packet that was acknowledged at the sender has been
      accepted by the peer's sorter, and a FIN in such a packet has been accepted too. */
  lemma AckedWasReceived(hs: seq<Happening>, w: World, c: Care, j: nat, i: nat)
    requires Reached(hs, w, c) && c.clean && c.whole
    requires j < |w.sender.handler.acked| && i < |StreamFrames(w.sender.handler.acked[j].frames)|
    ensures var y := StreamFrames(w.sender.handler.acked[j].frames)[i];
            w.receiver.At(y.streamID).Has(y) && Got(w.receiver.accepted, y)
  {
    var pieces := RunKept(hs, w, c);
    var p := w.sender.handler.acked[j];
    var y := StreamFrames(p.frames)[i];
    HeldIsPiece(w.sender, w.sender.handler.acked, j, i, pieces);
    assert OnRecord(p, w.packets) && p.number in w.receiver.registered;
    assert w.packets[p.number][i] == y;
    GotIsHeld(w.receiver, y, Piece(y));
  }

  lemma GotIsHeld(r: Receiver, y: StreamFrame, x: StreamFrame)
    requires AllHeld(r) && Got(r.accepted, x) && x == Piece(y)
    ensures r.At(y.streamID).Has(y) && Got(r.accepted, y)
  {
    var z :| z in r.accepted && Contains(z, x);
    assert Contains(z, y) && r.At(z.streamID).Has(z);
    assert forall o :: y.Covers(o) ==> z.Covers(o);
  }

  /** If nothing is written behind a FIN, a packet arrives whole if it is read as it was sent. */
  lemma ReadableIsWhole(hs: seq<Happening>, w: World, c: Care, n: nat)
    requires Reached(hs, w, c) && c.clean && c.tidy && n in w.packets && Readable(w.packets[n])
    ensures Whole(w.receiver, w.packets[n])
  {
    hide Reached, Carried, Covered, Tiles, HandlerInv, AllBacked, AllHeld, FinAtEnd, Clashes, Receiver.PushAll;
    var pieces := RunKept(hs, w, c);
    var r, fs := w.receiver, w.packets[n];
    ReadsAs(fs);
    assert Recorded(fs, w.sent);
    forall i | 0 <= i < |fs|
      ensures GetsThrough(r, fs, i)
    {
      TurnSent(r, fs, i, w.sent);
      PushAllKeeps(r, ReadAs(fs)[..i]);
      NothingClashes(r.PushAll(ReadAs(fs)[..i]), Piece(fs[i]), w.sent, w.sender.streams);
    }
  }

  // ---------------------------------------------------------------------------------------------
  // Plain runs
  // ---------------------------------------------------------------------------------------------

  /** A packet that arrives has no empty frame inside, and nothing is written behind a FIN. */
  ghost predicate Plain(w: World, h: Happening) {
    match h
    case Arrive(n) => n in w.packets && n !in w.receiver.registered ==> Readable(w.packets[n])
    case Act(e) => e.WriteData? && e.id in w.sender.streams ==> w.sender.streams[e.id].fin.None?
    case _ => true
  }

  ghost predicate LeadsPlainly(v: World, h: Happening, w: World) {
    Possible(v, h) && Plain(v, h) && w == Next(v, h)
  }

  ghost predicate ReachedPlainly(hs: seq<Happening>, w: World) {
    if hs == [] then w == START
    else
      var init, last := hs[..|hs| - 1], hs[|hs| - 1];
      exists v :: LeadsPlainly(v, last, w) && ReachedPlainly(init, v)
  }

  lemma PlainStep(hs: seq<Happening>, v: World, h: Happening, w: World)
    requires Reached(hs, v, CAREFUL) && LeadsPlainly(v, h, w)
    ensures Leads(v, h, w, CAREFUL)
  {
    hide Reached, Possible, Next, Readable, Whole;
    if h.Arrive? && h.number in v.packets && h.number !in v.receiver.registered {
      ReadableIsWhole(hs, v, CAREFUL, h.number);
      WholeIsClean(v.receiver, v.packets[h.number]);
    }
  }

  lemma WholeIsClean(r: Receiver, fs: seq<StreamFrame>)
    requires Whole(r, fs)
    ensures Clean(r, fs)
  {
  }

  /** In a plain run, every packet arrives whole. */
  lemma {:induction false} PlainIsCareful(hs: seq<Happening>, w: World)
    requires ReachedPlainly(hs, w)
    ensures Reached(hs, w, CAREFUL)
  {
    hide LeadsPlainly, Leads;
    if hs != [] {
      var init, last := hs[..|hs| - 1], hs[|hs| - 1];
      var v :| LeadsPlainly(v, last, w) && ReachedPlainly(init, v);
      PlainIsCareful(init, v);
      PlainStep(init, v, last, w);
    }
  }

  /** In every run in which nothing is written behind a FIN and no packet arrives with an empty frame inside, everything
      that is acknowledged was received. */
  lemma PlainAckedWasReceived(hs: seq<Happening>, w: World, j: nat, i: nat)
    requires ReachedPlainly(hs, w)
    requires j < |w.sender.handler.acked| && i < |StreamFrames(w.sender.handler.acked[j].frames)|
    ensures var y := StreamFrames(w.sender.handler.acked[j].frames)[i];
            w.receiver.At(y.streamID).Has(y) && Got(w.receiver.accepted, y)
  {
    hide Reached, ReachedPlainly;
    PlainIsCareful(hs, w);
    AckedWasReceived(hs, w, CAREFUL, j, i);
  }
}
