/** A sender over whole runs: the sending loop of session.go with the framer, the packer, the generator of packet
    numbers and the handler of sent packets behind it, and what becomes of its stream data. */
module SenderData {
  import opened Frames
  import opened AckFrames
  import opened SentPackets
  import opened Ledger
  import opened StreamFramers
  import opened Conservation

  /** `queue` holds the framer's frames for retransmission; `streams` every stream that was ever opened; `next` is the
      number of the next packet, and `gaps` records the numbers that were left out. */
  datatype Sender = Sender(handler: Handler, queue: seq<StreamFrame>, streams: Streams, next: nat, gaps: set<int>) {

    function Open(building: seq<StreamFrame>): Books {
      Books(ListsOf(handler), queue, building, streams)
    }

    /** All packets queued for retransmission, last one first, give their stream frames to the framer. */
    function DequeueAll(): Sender
      decreases |handler.queue|
    {
      if handler.queue == [] then this else Dequeue().DequeueAll()
    }

    /** The last packet that is queued gives its stream frames to the framer. */
    function Dequeue(): Sender
      requires handler.queue != []
    {
      var ps := handler.queue;
      this.(handler := handler.Dequeued(), queue := queue + StreamFrames(ps[|ps| - 1].frames))
    }

    /** Packet `p`, which has the next number, is sent; the number behind it is left out if `skip` is 1. */
    function SentNext(p: Packet, skip: nat): Sender {
      this.(handler := handler.Sent(p), next := next + 1 + skip,
            gaps := if next == handler.lastSent + 1 then gaps else gaps + {handler.lastSent + 1})
    }
  }

  const INITIAL := Sender(Handler(0, [], 0, 0, [], [], [], 0), [], map[], 1, {})

  /** The last stream frame of a packet does not state the length of its data. */
  function LastToTheEnd(fs: seq<StreamFrame>): seq<StreamFrame> {
    if fs == [] then [] else fs[..|fs| - 1] + [fs[|fs| - 1].(dataLenPresent := false)]
  }

  function AsFrames(fs: seq<StreamFrame>): seq<Frame> {
    if fs == [] then [] else AsFrames(fs[..|fs| - 1]) + [Stream(fs[|fs| - 1])]
  }

  lemma StreamFramesSnoc(fs: seq<Frame>, f: StreamFrame)
    ensures StreamFrames(fs + [Stream(f)]) == StreamFrames(fs) + [f]
  {
    assert (fs + [Stream(f)])[..|fs|] == fs;
  }

  lemma {:induction false} StreamFramesBehind(others: seq<Frame>, fs: seq<StreamFrame>)
    ensures StreamFrames(others + AsFrames(fs)) == StreamFrames(others) + fs
  {
    hide StreamFrames;
    if fs == [] {
      assert others + AsFrames(fs) == others;
    } else {
      var init, f := fs[..|fs| - 1], fs[|fs| - 1];
      StreamFramesBehind(others, init);
      StreamFramesSnoc(others + AsFrames(init), f);
      assert others + AsFrames(fs) == others + AsFrames(init) + [Stream(f)];
      assert fs == init + [f];
    }
  }

  lemma LastToTheEndCounts(fs: seq<StreamFrame>, x: StreamFrame)
    ensures CountFrames(LastToTheEnd(fs), x) == CountFrames(fs, x)
  {
    if fs != [] {
      assert LastToTheEnd(fs)[..|fs| - 1] == fs[..|fs| - 1];
    }
  }

  /** A packet whose stream frames are `fs`, behind frames of other kinds. */
  function PacketWith(number: nat, others: seq<Frame>, fs: seq<StreamFrame>, length: nat): Packet {
    Packet(number, others + AsFrames(LastToTheEnd(fs)), length, 0)
  }

  lemma PacketWithCounts(number: nat, others: seq<Frame>, fs: seq<StreamFrame>, length: nat, x: StreamFrame)
    requires StreamFrames(others) == []
    ensures CountFrames(StreamFrames(PacketWith(number, others, fs, length).frames), x) == CountFrames(fs, x)
  {
    StreamFramesBehind(others, LastToTheEnd(fs));
    assert [] + LastToTheEnd(fs) == LastToTheEnd(fs);
    LastToTheEndCounts(fs, x);
  }

  // ---------------------------------------------------------------------------------------------
  // Runs
  // ---------------------------------------------------------------------------------------------

  /** What can happen to a sender. `Send` is one pass through the sending loop: all queued packets are dequeued,
      up to `maxLen` bytes of stream frames are taken, and a packet with them is sent behind `others`; without
      stream frames it is sent only if `worthwhile`. The generator then leaves out `skip` numbers, at most one. */
  datatype Event =
    | OpenStream(id: nat)
    | WriteData(id: nat, data: seq<byte>)
    | CloseStream(id: nat)
    | FailStream(id: nat)
    | GetAck(ack: AckFrame, withPacketNumber: nat)
    | Timeout
    | Send(others: seq<Frame>, length: nat, maxLen: nat, visits: seq<Visit>, worthwhile: bool, skip: nat)

  ghost predicate Enabled(s: Sender, e: Event) {
    match e
    case OpenStream(id) => id !in s.streams
    case WriteData(id, _) => id in s.streams
    case CloseStream(id) => id in s.streams
    case FailStream(id) => id in s.streams
    case GetAck(_, _) => true
    case Timeout => true
    case Send(others, _, _, visits, _, skip) => Known(s.streams, visits) && StreamFrames(others) == [] && skip <= 1
  }

  /** The stream frames taken for the next packet, and what stays behind. */
  ghost function Fill(s: Sender, maxLen: nat, visits: seq<Visit>): (r: (Sender, seq<StreamFrame>))
    requires Known(s.streams, visits) && TakenFromWritten(s.streams)
  {
    var p := PopFrames(s.queue, maxLen);
    PopFramesLength(s.queue, maxLen);
    var st := VisitAll(s.streams, visits, maxLen - p.length);
    (s.(queue := p.queue, streams := st.streams), p.frames + st.frames)
  }

  /** Writing to a stream that failed is an error and changes nothing. */
  function WrittenTo(s: SendStream, data: seq<byte>): SendStream {
    if s.failed then s else s.(written := s.written + data)
  }

  ghost function Step(s: Sender, e: Event): Sender
    requires Enabled(s, e) && TakenFromWritten(s.streams)
  {
    match e
    case OpenStream(id) => s.(streams := s.streams[id := SendStream([], 0, false, false, None)])
    case WriteData(id, data) => s.(streams := s.streams[id := WrittenTo(s.streams[id], data)])
    case CloseStream(id) => s.(streams := s.streams[id := s.streams[id].(closed := true)])
    case FailStream(id) => s.(streams := s.streams[id := s.streams[id].(closed := true, failed := true)])
    case GetAck(ack, withPacketNumber) => s.(handler := s.handler.ReceivedAck(ack, withPacketNumber))
    case Timeout => s.(handler := s.handler.QueueFirst())
    case Send(_, _, maxLen, visits, _, skip) =>
      DequeueAllStreams(s);
      var (t, fs) := Fill(s.DequeueAll(), maxLen, visits);
      match Outgoing(s, e)
      case None => t
      case Some(p) => t.SentNext(p, skip)
  }

  /** The packet that a pass through the sending loop sends. */
  ghost function Outgoing(s: Sender, e: Event): Option<Packet>
    requires e.Send? && Enabled(s, e) && TakenFromWritten(s.streams)
  {
    DequeueAllStreams(s);
    var (_, fs) := Fill(s.DequeueAll(), e.maxLen, e.visits);
    if fs == [] && !e.worthwhile then None else Some(PacketWith(s.next, e.others, fs, e.length))
  }

  lemma {:induction false} DequeueAllStreams(s: Sender)
    ensures s.DequeueAll() == s.(handler := s.handler.(queue := []), queue := s.DequeueAll().queue)
    decreases |s.handler.queue|
  {
    if s.handler.queue != [] {
      DequeueAllStreams(s.Dequeue());
    }
  }

  // ---------------------------------------------------------------------------------------------
  // Every step keeps the books
  // ---------------------------------------------------------------------------------------------

  lemma {:induction false} DequeueAllEvolved(s: Sender, pieces0: set<StreamFrame>, streams0: Streams)
    requires Evolved(s.Open([]), pieces0, streams0)
    ensures Evolved(s.DequeueAll().Open([]), pieces0, streams0)
    decreases |s.handler.queue|
  {
    var ps := s.handler.queue;
    if ps != [] {
      var t := s.Dequeue();
      DequeueEvolved(s.Open([]), pieces0, streams0);
      assert t.Open([]) == s.Open([]).(lists := s.Open([]).lists.(queue := ps[..|ps| - 1]), queue := t.queue);
      DequeueAllEvolved(t, pieces0, streams0);
    }
  }

  lemma FillEvolved(s: Sender, maxLen: nat, visits: seq<Visit>, pieces0: set<StreamFrame>, streams0: Streams)
    requires Known(s.streams, visits) && TakenFromWritten(s.streams)
    requires Evolved(s.Open([]), pieces0, streams0) && Grows(streams0, s.streams)
    ensures var (t, fs) := Fill(s, maxLen, visits); Evolved(t.Open(fs), pieces0, streams0) && Grows(streams0, t.streams)
  {
    hide VisitAll, VisitStream, PopFrames, Evolved, Grows;
    var b := AfterPop(s.Open([]), maxLen);
    var p := PopFrames(s.queue, maxLen);
    PopFramesLength(s.queue, maxLen);
    PopEvolved(s.Open([]), maxLen, pieces0, streams0);
    VisitAllEvolved(b, visits, maxLen - p.length, pieces0, streams0);
    var (t, fs) := Fill(s, maxLen, visits);
    assert t.Open(fs) == AfterVisits(b, VisitAll(s.streams, visits, maxLen - p.length));
  }

  lemma SentEvolved(t: Sender, fs: seq<StreamFrame>, p: Packet, others: seq<Frame>, skip: nat,
                    pieces0: set<StreamFrame>, streams0: Streams)
    requires Evolved(t.Open(fs), pieces0, streams0) && StreamFrames(others) == []
    requires p == PacketWith(p.number, others, fs, p.length)
    ensures Evolved(t.SentNext(p, skip).Open([]), pieces0, streams0)
  {
    forall x
      ensures CountFrames(StreamFrames(p.frames), x) == CountFrames(fs, x)
    {
      PacketWithCounts(p.number, others, fs, p.length, x);
    }
    SealEvolved(t.Open(fs), p, pieces0, streams0);
  }

  lemma SendEvolved(s: Sender, e: Event, pieces0: set<StreamFrame>, streams0: Streams)
    requires e.Send? && Enabled(s, e) && TakenFromWritten(s.streams)
    requires Evolved(s.Open([]), pieces0, streams0) && Grows(streams0, s.streams)
    ensures Evolved(Step(s, e).Open([]), pieces0, streams0) && Grows(streams0, Step(s, e).streams)
  {
    hide Evolved, Grows, Fill;
    var d := s.DequeueAll();
    DequeueAllStreams(s);
    DequeueAllEvolved(s, pieces0, streams0);
    FillEvolved(d, e.maxLen, e.visits, pieces0, streams0);
    var (t, fs) := Fill(d, e.maxLen, e.visits);
    var p := PacketWith(s.next, e.others, fs, e.length);
    SentEvolved(t, fs, p, e.others, e.skip, pieces0, streams0);
  }

  /** Streams are opened, written to and closed, but nothing is taken from them. */
  ghost predicate Extends(streams: Streams, streams': Streams) {
    && (forall id :: id in streams ==>
          && id in streams'
          && streams[id].written <= streams'[id].written
          && streams'[id].writeOffset == streams[id].writeOffset && streams'[id].fin == streams[id].fin
          && (streams[id].closed ==> streams'[id].closed))
    && (forall id :: id in streams' && id !in streams ==> streams'[id].writeOffset == 0 && streams'[id].fin.None?)
  }

  lemma ExtendsTiles(pieces: set<StreamFrame>, streams: Streams, streams': Streams)
    requires Tiles(pieces, streams) && Extends(streams, streams')
    ensures Tiles(pieces, streams')
  {
    forall x | x in pieces
      ensures Carries(streams', x)
    {
      assert Carries(streams, x);
    }
    assert forall id :: id in streams ==> streams[id].Valid();
  }

  lemma ExtendsEvolved(s: Sender, streams: Streams, pieces0: set<StreamFrame>, streams0: Streams)
    requires Extends(s.streams, streams)
    requires Evolved(s.Open([]), pieces0, streams0) && Grows(streams0, s.streams)
    ensures Evolved(s.(streams := streams).Open([]), pieces0, streams0) && Grows(streams0, streams)
  {
    var b, b' := s.Open([]), s.(streams := streams).Open([]);
    var pieces :| b.Balanced(pieces) && Tiles(pieces, b.streams) && Refines(pieces0, streams0, pieces);
    ExtendsTiles(pieces, s.streams, streams);
    assert forall x :: b'.Places(x) == b.Places(x);
    assert b'.Balanced(pieces);
    assert Grows(s.streams, streams);
    GrowsTwice(streams0, s.streams, streams);
  }

  lemma StepEvolved(s: Sender, e: Event, pieces0: set<StreamFrame>, streams0: Streams)
    requires Enabled(s, e) && TakenFromWritten(s.streams)
    requires Evolved(s.Open([]), pieces0, streams0) && Grows(streams0, s.streams)
    ensures Evolved(Step(s, e).Open([]), pieces0, streams0) && Grows(streams0, Step(s, e).streams)
  {
    match e
    case Send(_, _, _, _, _, _) => SendEvolved(s, e, pieces0, streams0);
    case GetAck(ack, n) => GetAckEvolved(s, ack, n, pieces0, streams0);
    case Timeout =>
      if s.handler.history != [] {
        TimeoutEvolved(s.Open([]), pieces0, streams0);
      }
    case _ => StreamEvolved(s, e, pieces0, streams0);
  }

  lemma GetAckEvolved(s: Sender, ack: AckFrame, n: nat, pieces0: set<StreamFrame>, streams0: Streams)
    requires Evolved(s.Open([]), pieces0, streams0)
    ensures Evolved(s.(handler := s.handler.ReceivedAck(ack, n)).Open([]), pieces0, streams0)
  {
    var h := s.handler.(largestReceivedWithAck := n);
    AckEvolved(h, ack, s.Open([]), pieces0, streams0);
    assert s.(handler := h).Open([]) == s.Open([]);
  }

  lemma StreamEvolved(s: Sender, e: Event, pieces0: set<StreamFrame>, streams0: Streams)
    requires Enabled(s, e) && TakenFromWritten(s.streams)
    requires e.OpenStream? || e.WriteData? || e.CloseStream? || e.FailStream?
    requires Evolved(s.Open([]), pieces0, streams0) && Grows(streams0, s.streams)
    ensures Evolved(Step(s, e).Open([]), pieces0, streams0) && Grows(streams0, Step(s, e).streams)
  {
    forall id | id in s.streams
      ensures s.streams[id].Valid()
    {
      FinIsLast(s.Open([]), pieces0, streams0, id);
    }
    assert Extends(s.streams, Step(s, e).streams);
    ExtendsEvolved(s, Step(s, e).streams, pieces0, streams0);
  }

  // ---------------------------------------------------------------------------------------------
  // Every run
  // ---------------------------------------------------------------------------------------------

  /** Every byte and FIN taken from a stream is in exactly one piece, and every piece in exactly one of the
      packets in flight, the packets queued for retransmission, the framer's queue and the acknowledged packets. */
  ghost predicate Conserved(s: Sender) {
    exists pieces :: s.Open([]).Balanced(pieces) && Tiles(pieces, s.streams)
  }

  /** Step `e` can be taken in `m` and leads to `t`. */
  ghost predicate Leads(m: Sender, e: Event, t: Sender) {
    Enabled(m, e) && TakenFromWritten(m.streams) && t == Step(m, e)
  }

  ghost predicate Happens(s: Sender, es: seq<Event>, t: Sender) {
    if es == [] then s == t
    else
      var init, last := es[..|es| - 1], es[|es| - 1];
      exists m :: Leads(m, last, t) && Happens(s, init, m)
  }

  lemma InitialEvolved()
    ensures Evolved(INITIAL.Open([]), {}, map[]) && Grows(map[], INITIAL.streams)
  {
    assert INITIAL.Open([]).Balanced({});
    assert Tiles({}, map[]) && Refines({}, map[], {});
  }

  lemma LeadsEvolved(m: Sender, e: Event, t: Sender)
    requires Leads(m, e, t) && Evolved(m.Open([]), {}, map[]) && Grows(map[], m.streams)
    ensures Evolved(t.Open([]), {}, map[]) && Grows(map[], t.streams)
  {
    hide Evolved, Grows, Step, Enabled;
    StepEvolved(m, e, {}, map[]);
  }

  lemma {:induction false} RunEvolved(es: seq<Event>, t: Sender)
    requires Happens(INITIAL, es, t)
    ensures Evolved(t.Open([]), {}, map[]) && Grows(map[], t.streams)
  {
    hide Evolved, Leads, Grows;
    if es == [] {
      InitialEvolved();
    } else {
      var init, last := es[..|es| - 1], es[|es| - 1];
      var m :| Leads(m, last, t) && Happens(INITIAL, init, m);
      RunEvolved(init, m);
      LeadsEvolved(m, last, t);
    }
  }

  /** Conservation holds after every run, and the next step can always be taken. */
  lemma RunConserves(es: seq<Event>, t: Sender)
    requires Happens(INITIAL, es, t)
    ensures Conserved(t) && TakenFromWritten(t.streams)
  {
    RunEvolved(es, t);
    EvolvedTaken(t.Open([]), {}, map[]);
  }
}
