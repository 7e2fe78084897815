/** Conservation of stream data at the sender: every byte and FIN that was taken from a stream is in exactly one
    of the packets in flight, the packets queued for retransmission, the framer's retransmission queue and the
    acknowledged packets (session.go, stream_framer.go, ackhandler/sent_packet_handler.go). */
module Conservation {
  import opened Frames
  import opened StreamFrameCodec
  import opened AckFrames
  import opened SentPackets
  import opened Ledger
  import opened StreamFramers

  // ---------------------------------------------------------------------------------------------
  // The books: where the pieces are, and how they may change
  // ---------------------------------------------------------------------------------------------

  /** Everything the sender holds; `building` is the packet under way. */
  datatype Books = Books(lists: Lists, queue: seq<StreamFrame>, building: seq<StreamFrame>, streams: Streams) {

    ghost function Places(x: StreamFrame): nat {
      CountLists(lists, x) + CountFrames(queue, x) + CountFrames(building, x)
    }

    /** Each piece is in exactly one place, and nothing else is anywhere. */
    ghost predicate Balanced(pieces: set<StreamFrame>) {
      forall x :: Places(x) == if x in pieces then 1 else 0
    }
  }

  ghost predicate Contains(y: StreamFrame, x: StreamFrame) {
    y.streamID == x.streamID && y.offset <= x.offset && x.End() <= y.End() && (x.fin ==> y.fin)
  }

  /** Nothing of `x` was taken from the streams yet. */
  ghost predicate Untaken(streams: Streams, x: StreamFrame) {
    x.streamID in streams ==>
      streams[x.streamID].writeOffset <= x.offset && (x.fin ==> streams[x.streamID].fin.None?)
  }

  ghost predicate Origin(pieces: set<StreamFrame>, x: StreamFrame) {
    exists y :: y in pieces && Contains(y, x)
  }

  /** Pieces are only ever split, never merged: a later piece is part of an earlier one, or new. */
  ghost predicate Refines(pieces: set<StreamFrame>, streams: Streams, pieces': set<StreamFrame>) {
    forall x :: x in pieces' ==> Origin(pieces, x) || Untaken(streams, x)
  }

  /** What was written and what was taken stays so. */
  ghost predicate Grows(streams: Streams, streams': Streams) {
    forall id :: id in streams ==>
      && id in streams'
      && streams[id].written <= streams'[id].written
      && streams[id].writeOffset <= streams'[id].writeOffset
      && (streams[id].fin.Some? ==> streams'[id].fin == streams[id].fin)
  }

  lemma RefinesSame(pieces: set<StreamFrame>, streams: Streams)
    ensures Refines(pieces, streams, pieces)
  {
    forall x | x in pieces
      ensures Origin(pieces, x)
    {
      assert Contains(x, x);
    }
  }

  lemma RefinesTwice(p: set<StreamFrame>, s: Streams, p': set<StreamFrame>, s': Streams, p'': set<StreamFrame>)
    requires Refines(p, s, p') && Refines(p', s', p'') && Grows(s, s')
    ensures Refines(p, s, p'')
  {
    forall x | x in p''
      ensures Origin(p, x) || Untaken(s, x)
    {
      if Origin(p', x) {
        var y :| y in p' && Contains(y, x);
        if Origin(p, y) {
          var z :| z in p && Contains(z, y);
          assert Contains(z, x);
        }
      }
    }
  }

  lemma GrowsTwice(s: Streams, s': Streams, s'': Streams)
    requires Grows(s, s') && Grows(s', s'')
    ensures Grows(s, s'')
  {
  }

  /** The books balance, with pieces that evolved from `pieces0`. */
  ghost predicate Evolved(b: Books, pieces0: set<StreamFrame>, streams0: Streams) {
    exists pieces :: b.Balanced(pieces) && Tiles(pieces, b.streams) && Refines(pieces0, streams0, pieces)
  }

  lemma EvolvedBy(b: Books, pieces': set<StreamFrame>, pieces0: set<StreamFrame>, streams0: Streams,
                  pieces: set<StreamFrame>, streams: Streams)
    requires Refines(pieces0, streams0, pieces) && Grows(streams0, streams) && Refines(pieces, streams, pieces')
    requires b.Balanced(pieces') && Tiles(pieces', b.streams)
    ensures Evolved(b, pieces0, streams0)
  {
    RefinesTwice(pieces0, streams0, pieces, streams, pieces');
  }

  // ---------------------------------------------------------------------------------------------
  // Filling a packet
  // ---------------------------------------------------------------------------------------------

  lemma HeadIsPiece(b: Books, pieces: set<StreamFrame>)
    requires b.Balanced(pieces) && b.queue != []
    ensures Piece(b.queue[0]) in pieces
  {
    CountFirst(b.queue, Piece(b.queue[0]));
    assert b.Places(Piece(b.queue[0])) > 0;
  }

  /** The first frame of the queue, with the length of its data stated. */
  lemma RelabelEvolved(b: Books, pieces0: set<StreamFrame>, streams0: Streams)
    requires Evolved(b, pieces0, streams0) && b.queue != []
    ensures Evolved(b.(queue := [Piece(b.queue[0])] + b.queue[1..]), pieces0, streams0)
  {
    var b' := b.(queue := [Piece(b.queue[0])] + b.queue[1..]);
    forall x
      ensures b'.Places(x) == b.Places(x)
    {
      CountFirst(b.queue, x);
      CountFirst(b'.queue, x);
    }
    var pieces :| b.Balanced(pieces) && Tiles(pieces, b.streams) && Refines(pieces0, streams0, pieces);
    assert b'.Balanced(pieces);
  }

  /** The first frame of the queue moves into the packet. */
  lemma MoveEvolved(b: Books, pieces0: set<StreamFrame>, streams0: Streams)
    requires Evolved(b, pieces0, streams0) && b.queue != []
    ensures Evolved(b.(queue := b.queue[1..], building := b.building + [Piece(b.queue[0])]), pieces0, streams0)
  {
    var f := Piece(b.queue[0]);
    var b' := b.(queue := b.queue[1..], building := b.building + [f]);
    forall x
      ensures b'.Places(x) == b.Places(x)
    {
      CountFirst(b.queue, x);
      CountSnoc(b.building, f, x);
    }
    var pieces :| b.Balanced(pieces) && Tiles(pieces, b.streams) && Refines(pieces0, streams0, pieces);
    assert b'.Balanced(pieces);
  }

  /** The books after the first frame of the queue was split, and its front went into the packet. */
  function Divided(b: Books, n: nat): Books
    requires b.queue != [] && n <= |b.queue[0].data|
  {
    var f := Piece(b.queue[0]);
    b.(queue := [Back(f, n)] + b.queue[1..], building := b.building + [Front(f, n)])
  }

  lemma DividedPlaces(b: Books, n: nat, x: StreamFrame)
    requires b.queue != [] && n <= |b.queue[0].data|
    ensures var f := Piece(b.queue[0]);
            Divided(b, n).Places(x) == b.Places(x) - One(x, f) + One(x, Front(f, n)) + One(x, Back(f, n))
  {
    CountFirst(b.queue, x);
    CountFirst(Divided(b, n).queue, x);
    CountSnoc(b.building, Front(Piece(b.queue[0]), n), x);
  }

  lemma DividedBalanced(b: Books, pieces: set<StreamFrame>, n: nat)
    requires b.Balanced(pieces) && b.queue != [] && 0 < n < |b.queue[0].data| && Piece(b.queue[0]) in pieces
    requires var f := Piece(b.queue[0]); Front(f, n) !in pieces && Back(f, n) !in pieces
    ensures var f := Piece(b.queue[0]); Divided(b, n).Balanced(pieces - {f} + {Front(f, n), Back(f, n)})
  {
    var f := Piece(b.queue[0]);
    var front, back := Front(f, n), Back(f, n);
    assert front.offset != back.offset;
    forall x
      ensures Divided(b, n).Places(x) == if x in pieces - {f} + {front, back} then 1 else 0
    {
      DividedPlaces(b, n, x);
      assert b.Places(x) == if x in pieces then 1 else 0;
    }
  }

  lemma SplitRefines(pieces: set<StreamFrame>, streams: Streams, f: StreamFrame, n: nat)
    requires f in pieces && n <= |f.data|
    ensures Refines(pieces, streams, pieces - {f} + {Front(f, n), Back(f, n)})
  {
    var a, b := Front(f, n), Back(f, n);
    forall x | x in pieces - {f} + {a, b}
      ensures Origin(pieces, x)
    {
      assert Contains(if x == a || x == b then f else x, x);
    }
  }

  lemma SplitPieces(b: Books, pieces: set<StreamFrame>, n: nat) returns (pieces': set<StreamFrame>)
    requires b.Balanced(pieces) && Tiles(pieces, b.streams) && b.queue != [] && 0 < n < |b.queue[0].data|
    ensures Divided(b, n).Balanced(pieces') && Tiles(pieces', b.streams) && Refines(pieces, b.streams, pieces')
  {
    var f := Piece(b.queue[0]);
    pieces' := pieces - {f} + {Front(f, n), Back(f, n)};
    HeadIsPiece(b, pieces);
    SplitTiles(pieces, b.streams, f, n);
    DividedBalanced(b, pieces, n);
    SplitRefines(pieces, b.streams, f, n);
  }

  lemma SplitEvolved(b: Books, pieces0: set<StreamFrame>, streams0: Streams, n: nat)
    requires Evolved(b, pieces0, streams0) && Grows(streams0, b.streams) && b.queue != [] && 0 < n < |b.queue[0].data|
    ensures Evolved(Divided(b, n), pieces0, streams0)
  {
    var pieces :| b.Balanced(pieces) && Tiles(pieces, b.streams) && Refines(pieces0, streams0, pieces);
    var pieces' := SplitPieces(b, pieces, n);
    EvolvedBy(Divided(b, n), pieces', pieces0, streams0, pieces, b.streams);
  }

  /** The books after frames for retransmission were moved into the packet, the last one perhaps split. */
  function AfterPop(b: Books, maxLen: nat): Books {
    var p := PopFrames(b.queue, maxLen);
    b.(queue := p.queue, building := b.building + p.frames)
  }

  lemma {:induction false} PopEvolved(b: Books, maxLen: nat, pieces0: set<StreamFrame>, streams0: Streams)
    requires Evolved(b, pieces0, streams0) && Grows(streams0, b.streams)
    ensures Evolved(AfterPop(b, maxLen), pieces0, streams0)
    decreases |b.queue|
  {
    hide Evolved, Grows;
    if b.queue == [] {
      assert AfterPop(b, maxLen) == b;
    } else {
      var f := Piece(b.queue[0]);
      var header := MinLength(f);
      if header >= maxLen {
        RelabelEvolved(b, pieces0, streams0);
        assert AfterPop(b, maxLen) == b.(queue := [f] + b.queue[1..]);
      } else if maxLen - header < |f.data| {
        SplitEvolved(b, pieces0, streams0, maxLen - header);
        assert AfterPop(b, maxLen) == Divided(b, maxLen - header);
      } else {
        MoveEvolved(b, pieces0, streams0);
        var b' := b.(queue := b.queue[1..], building := b.building + [f]);
        PopEvolved(b', maxLen - FullLength(f), pieces0, streams0);
        assert AfterPop(b, maxLen) == AfterPop(b', maxLen - FullLength(f));
      }
    }
  }

  /** The books after `n` bytes, and perhaps the FIN, were taken from stream `id`. */
  function Taken(b: Books, id: nat, n: nat, fin: bool): Books
    requires id in b.streams && b.streams[id].writeOffset + n <= |b.streams[id].written|
  {
    b.(building := b.building + [NewFrame(b.streams, id, n, fin)], streams := Take(b.streams, id, n, fin))
  }

  lemma NewBalanced(b: Books, pieces: set<StreamFrame>, f: StreamFrame, streams: Streams)
    requires b.Balanced(pieces) && f !in pieces && f.dataLenPresent
    ensures b.(building := b.building + [f], streams := streams).Balanced(pieces + {f})
  {
    var b' := b.(building := b.building + [f], streams := streams);
    forall x
      ensures b'.Places(x) == b.Places(x) + One(x, f)
    {
      CountSnoc(b.building, f, x);
    }
  }

  lemma NewRefines(pieces: set<StreamFrame>, streams: Streams, f: StreamFrame)
    requires Untaken(streams, f)
    ensures Refines(pieces, streams, pieces + {f})
  {
    RefinesSame(pieces, streams);
  }

  lemma TakeEvolved(b: Books, pieces0: set<StreamFrame>, streams0: Streams, id: nat, n: nat, fin: bool)
    requires Evolved(b, pieces0, streams0) && Grows(streams0, b.streams)
    requires id in b.streams && b.streams[id].writeOffset + n <= |b.streams[id].written| && (n > 0 || fin)
    requires fin ==> TakesFin(b.streams[id], n)
    ensures Evolved(Taken(b, id, n, fin), pieces0, streams0)
  {
    var f := NewFrame(b.streams, id, n, fin);
    var pieces :| b.Balanced(pieces) && Tiles(pieces, b.streams) && Refines(pieces0, streams0, pieces);
    assert b.streams[id].Valid();
    NewTiles(pieces, b.streams, id, n, fin);
    NewBalanced(b, pieces, f, Take(b.streams, id, n, fin));
    NewRefines(pieces, b.streams, f);
    EvolvedBy(Taken(b, id, n, fin), pieces + {f}, pieces0, streams0, pieces, b.streams);
  }

  lemma TakeGrows(streams: Streams, id: nat, n: nat, fin: bool)
    requires id in streams && (fin ==> streams[id].fin.None?)
    ensures Grows(streams, Take(streams, id, n, fin))
  {
  }

  /** The books after visits to the streams. */
  function AfterVisits(b: Books, st: Filled): Books {
    b.(building := b.building + st.frames, streams := st.streams)
  }

  lemma GiveEvolved(b: Books, st: Filled, r: Filled, id: nat, n: nat, fin: bool, pieces0: set<StreamFrame>,
                    streams0: Streams)
    requires Gives(st, r, id, n, fin)
    requires Evolved(AfterVisits(b, st), pieces0, streams0) && Grows(streams0, st.streams)
    ensures Evolved(AfterVisits(b, r), pieces0, streams0) && Grows(streams0, r.streams)
  {
    hide Evolved;
    var b' := AfterVisits(b, st);
    FinIsLast(b', pieces0, streams0, id);
    TakeEvolved(b', pieces0, streams0, id, n, fin);
    TakeGrows(st.streams, id, n, fin);
    assert AfterVisits(b, r) == Taken(b', id, n, fin);
  }

  lemma VisitEvolved(b: Books, st: Filled, v: Visit, maxBytes: nat, pieces0: set<StreamFrame>, streams0: Streams)
    requires v.streamID in st.streams && TakenFromWritten(st.streams)
    requires Evolved(AfterVisits(b, st), pieces0, streams0) && Grows(streams0, st.streams)
    ensures var r := VisitStream(st, v, maxBytes);
            Evolved(AfterVisits(b, r), pieces0, streams0) && Grows(streams0, r.streams)
  {
    var r := VisitStream(st, v, maxBytes);
    var n, fin := VisitGives(st, v, maxBytes);
    if Gives(st, r, v.streamID, n, fin) {
      GiveEvolved(b, st, r, v.streamID, n, fin, pieces0, streams0);
    } else {
      assert AfterVisits(b, r) == AfterVisits(b, st);
    }
  }

  lemma FinIsLast(b: Books, pieces0: set<StreamFrame>, streams0: Streams, id: nat)
    requires Evolved(b, pieces0, streams0) && id in b.streams
    ensures b.streams[id].Valid()
  {
  }

  lemma EvolvedTaken(b: Books, pieces0: set<StreamFrame>, streams0: Streams)
    requires Evolved(b, pieces0, streams0)
    ensures TakenFromWritten(b.streams)
  {
    forall id | id in b.streams
      ensures b.streams[id].writeOffset <= |b.streams[id].written|
    {
      FinIsLast(b, pieces0, streams0, id);
    }
  }

  lemma {:induction false} VisitAllEvolved(b: Books, visits: seq<Visit>, maxBytes: nat, pieces0: set<StreamFrame>,
                                           streams0: Streams)
    requires Known(b.streams, visits) && TakenFromWritten(b.streams)
    requires Evolved(b, pieces0, streams0) && Grows(streams0, b.streams)
    ensures var r := VisitAll(b.streams, visits, maxBytes);
            Evolved(AfterVisits(b, r), pieces0, streams0) && Grows(streams0, r.streams)
  {
    if visits == [] {
      assert AfterVisits(b, VisitAll(b.streams, visits, maxBytes)) == b;
    } else {
      VisitAllEvolved(b, visits[..|visits| - 1], maxBytes, pieces0, streams0);
      VisitEvolved(b, VisitAll(b.streams, visits[..|visits| - 1], maxBytes), visits[|visits| - 1], maxBytes, pieces0,
                   streams0);
    }
  }

  // ---------------------------------------------------------------------------------------------
  // Packets
  // ---------------------------------------------------------------------------------------------

  /** The packet under way is sent. */
  lemma SealEvolved(b: Books, p: Packet, pieces0: set<StreamFrame>, streams0: Streams)
    requires Evolved(b, pieces0, streams0)
    requires forall x :: CountFrames(StreamFrames(p.frames), x) == CountFrames(b.building, x)
    ensures Evolved(b.(lists := b.lists.(history := b.lists.history + [p]), building := []), pieces0, streams0)
  {
    var b' := b.(lists := b.lists.(history := b.lists.history + [p]), building := []);
    forall x
      ensures b'.Places(x) == b.Places(x)
    {
      CountPacketsSnoc(b.lists.history, p, x);
      assert CountFrames(StreamFrames(p.frames), x) == CountFrames(b.building, x);
    }
    SamePlaces(b, b', pieces0, streams0);
  }

  lemma SamePlaces(b: Books, b': Books, pieces0: set<StreamFrame>, streams0: Streams)
    requires Evolved(b, pieces0, streams0) && b'.streams == b.streams
    requires forall x :: b'.Places(x) == b.Places(x)
    ensures Evolved(b', pieces0, streams0)
  {
    var pieces :| b.Balanced(pieces) && Tiles(pieces, b.streams) && Refines(pieces0, streams0, pieces);
    assert b'.Balanced(pieces);
  }

  /** The last packet queued for retransmission gives its stream frames to the framer. */
  lemma DequeueEvolved(b: Books, pieces0: set<StreamFrame>, streams0: Streams)
    requires Evolved(b, pieces0, streams0) && b.lists.queue != []
    ensures var ps := b.lists.queue;
            Evolved(b.(lists := b.lists.(queue := ps[..|ps| - 1]),
                       queue := b.queue + StreamFrames(ps[|ps| - 1].frames)), pieces0, streams0)
  {
    var ps := b.lists.queue;
    var b' := b.(lists := b.lists.(queue := ps[..|ps| - 1]), queue := b.queue + StreamFrames(ps[|ps| - 1].frames));
    forall x
      ensures b'.Places(x) == b.Places(x)
    {
      CountConcat(b.queue, StreamFrames(ps[|ps| - 1].frames), x);
    }
    SamePlaces(b, b', pieces0, streams0);
  }

  /** A timeout moves the oldest packet in flight to the queue. */
  lemma TimeoutEvolved(b: Books, pieces0: set<StreamFrame>, streams0: Streams)
    requires Evolved(b, pieces0, streams0) && b.lists.history != []
    ensures var ps := b.lists.history;
            Evolved(b.(lists := b.lists.(history := ps[1..], queue := b.lists.queue + [ps[0]])), pieces0, streams0)
  {
    var ps := b.lists.history;
    var b' := b.(lists := b.lists.(history := ps[1..], queue := b.lists.queue + [ps[0]]));
    forall x
      ensures b'.Places(x) == b.Places(x)
    {
      CountPacketsFirst(ps, x);
      CountPacketsSnoc(b.lists.queue, ps[0], x);
    }
    SamePlaces(b, b', pieces0, streams0);
  }

  function ListsOf(h: Handler): Lists {
    Lists(h.history, h.queue, h.acked)
  }

  /** An ACK frame moves packets to the acknowledged ones and to the queue. */
  lemma AckEvolved(h: Handler, ack: AckFrame, b: Books, pieces0: set<StreamFrame>, streams0: Streams)
    requires Evolved(b, pieces0, streams0) && b.lists == ListsOf(h)
    ensures Evolved(b.(lists := ListsOf(h.Walked(ack))), pieces0, streams0)
  {
    var b' := b.(lists := ListsOf(h.Walked(ack)));
    forall x
      ensures b'.Places(x) == b.Places(x)
    {
      SortedCounts(h, ack, |h.history|, x);
      assert h.history[..|h.history|] == h.history;
    }
    SamePlaces(b, b', pieces0, streams0);
  }
}
