/** Where the stream data of a sender is: every byte and FIN that was taken from a stream is in exactly one
    piece, and every piece in exactly one place. */
module Ledger {
  import opened Frames
  import opened SentPackets
  import AckFrames

  // ---------------------------------------------------------------------------------------------
  // Pieces and the places they are counted in
  // ---------------------------------------------------------------------------------------------

  /** A STREAM frame without the flag that only concerns its layout. */
  function Piece(f: StreamFrame): StreamFrame {
    f.(dataLenPresent := true)
  }

  function One(x: StreamFrame, f: StreamFrame): nat {
    if Piece(f) == x then 1 else 0
  }

  /** How often piece `x` occurs in a list of stream frames. */
  function CountFrames(fs: seq<StreamFrame>, x: StreamFrame): nat {
    if fs == [] then 0 else CountFrames(fs[..|fs| - 1], x) + One(x, fs[|fs| - 1])
  }

  /** The stream frames of a packet, the ones that are retransmitted. */
  function StreamFrames(fs: seq<Frame>): seq<StreamFrame> {
    if fs == [] then []
    else
      var init, f := StreamFrames(fs[..|fs| - 1]), fs[|fs| - 1];
      if f.Stream? then init + [f.stream] else init
  }

  /** How often piece `x` occurs in a list of packets. */
  function CountPackets(ps: seq<Packet>, x: StreamFrame): nat {
    if ps == [] then 0 else CountPackets(ps[..|ps| - 1], x) + CountFrames(StreamFrames(ps[|ps| - 1].frames), x)
  }

  lemma {:induction false} CountConcat(a: seq<StreamFrame>, b: seq<StreamFrame>, x: StreamFrame)
    ensures CountFrames(a + b, x) == CountFrames(a, x) + CountFrames(b, x)
    decreases |b|
  {
    if b == [] {
      assert a + b == a;
    } else {
      assert (a + b)[..|a + b| - 1] == a + b[..|b| - 1];
      CountConcat(a, b[..|b| - 1], x);
    }
  }

  lemma CountSnoc(a: seq<StreamFrame>, f: StreamFrame, x: StreamFrame)
    ensures CountFrames(a + [f], x) == CountFrames(a, x) + One(x, f)
  {
    assert (a + [f])[..|a|] == a;
  }

  lemma CountFirst(a: seq<StreamFrame>, x: StreamFrame)
    requires a != []
    ensures CountFrames(a, x) == One(x, a[0]) + CountFrames(a[1..], x)
  {
    CountConcat([a[0]], a[1..], x);
    assert a == [a[0]] + a[1..];
    CountSnoc([], a[0], x);
    assert [] + [a[0]] == [a[0]];
  }

  lemma CountPacketsSnoc(ps: seq<Packet>, p: Packet, x: StreamFrame)
    ensures CountPackets(ps + [p], x) == CountPackets(ps, x) + CountFrames(StreamFrames(p.frames), x)
  {
    assert (ps + [p])[..|ps|] == ps;
  }

  lemma {:induction false} CountPacketsFirst(ps: seq<Packet>, x: StreamFrame)
    requires ps != []
    ensures CountPackets(ps, x) == CountFrames(StreamFrames(ps[0].frames), x) + CountPackets(ps[1..], x)
  {
    if |ps| == 1 {
      assert ps[..0] == [] && ps[1..] == [];
    } else {
      CountPacketsFirst(ps[..|ps| - 1], x);
      assert ps[1..][..|ps| - 2] == ps[..|ps| - 1][1..];
    }
  }

  lemma {:induction false} CountAt(fs: seq<StreamFrame>, i: nat)
    requires i < |fs|
    ensures CountFrames(fs, Piece(fs[i])) >= 1
  {
    if i < |fs| - 1 {
      CountAt(fs[..|fs| - 1], i);
    }
  }

  lemma {:induction false} CountPacketsAt(ps: seq<Packet>, j: nat, i: nat)
    requires j < |ps| && i < |StreamFrames(ps[j].frames)|
    ensures CountPackets(ps, Piece(StreamFrames(ps[j].frames)[i])) >= 1
  {
    if j < |ps| - 1 {
      CountPacketsAt(ps[..|ps| - 1], j, i);
    } else {
      CountAt(StreamFrames(ps[j].frames), i);
    }
  }

  function CountLists(s: Lists, x: StreamFrame): nat {
    CountPackets(s.history, x) + CountPackets(s.queue, x) + CountPackets(s.acked, x)
  }

  lemma SortCounts(s: Lists, ack: AckFrames.AckFrame, p: Packet, x: StreamFrame)
    ensures CountLists(Sort(s, ack, p), x) == CountLists(s, x) + CountFrames(StreamFrames(p.frames), x)
  {
    match FateOf(ack, p)
    case Untouched => CountPacketsSnoc(s.history, p, x);
    case Reported => CountPacketsSnoc(s.history, p.Report(), x);
    case Lost => CountPacketsSnoc(s.queue, p.Report(), x);
    case Acked => CountPacketsSnoc(s.acked, p, x);
  }

  lemma CountNone(x: StreamFrame)
    ensures CountPackets([], x) == 0
  {
  }

  /** Sorting packets by their fate moves them between the places and loses none. */
  lemma {:induction false} SortedCounts(h: Handler, ack: AckFrames.AckFrame, k: nat, x: StreamFrame)
    requires k <= |h.history|
    ensures CountLists(Sorted(h.queue, h.acked, ack, h.history, k), x) ==
            CountPackets(h.history[..k], x) + CountPackets(h.queue, x) + CountPackets(h.acked, x)
  {
    hide CountPackets, Sort;
    if k == 0 {
      CountNone(x);
    } else {
      SortedCounts(h, ack, k - 1, x);
      SortCounts(Sorted(h.queue, h.acked, ack, h.history, k - 1), ack, h.history[k - 1], x);
      CountPacketsSnoc(h.history[..k - 1], h.history[k - 1], x);
      assert h.history[..k] == h.history[..k - 1] + [h.history[k - 1]];
    }
  }

  // ---------------------------------------------------------------------------------------------
  // Streams and how pieces tile them
  // ---------------------------------------------------------------------------------------------

  /** A stream as its sender sees it: everything written to it, how much was taken for sending, and whether
      it was closed, broke with an error, or had its FIN taken, and at which offset. Data may be written behind it. */
  datatype SendStream = SendStream(written: seq<byte>, writeOffset: nat, closed: bool, failed: bool, fin: Option<nat>) {

    predicate Valid() {
      writeOffset <= |written| && (fin.Some? ==> closed && fin.value <= writeOffset)
    }
  }

  type Streams = map<nat, SendStream>

  /** Piece `x` carries what was written to its stream. */
  ghost predicate Carries(streams: Streams, x: StreamFrame) {
    && x.dataLenPresent && x.streamID in streams
    && var s := streams[x.streamID];
       && x.End() <= s.writeOffset <= |s.written|
       && x.data == s.written[x.offset..x.End()]
       && (x.fin ==> s.fin == Some(x.End()))
       && (x.data == [] ==> x.fin)
  }

  ghost predicate Overlap(x: StreamFrame, y: StreamFrame) {
    x.streamID == y.streamID && ((x.offset < y.End() && y.offset < x.End()) || (x.fin && y.fin))
  }

  /** No two pieces share a byte or a FIN. */
  ghost predicate Apart(pieces: set<StreamFrame>) {
    forall x, y :: x in pieces && y in pieces && Overlap(x, y) ==> x == y
  }

  ghost predicate HasByte(pieces: set<StreamFrame>, id: nat, o: int) {
    exists x :: x in pieces && x.streamID == id && x.Covers(o)
  }

  ghost predicate HasFin(pieces: set<StreamFrame>, id: nat) {
    exists x :: x in pieces && x.streamID == id && x.fin
  }

  /** The pieces tile what was taken from the streams. */
  ghost predicate Tiles(pieces: set<StreamFrame>, streams: Streams) {
    && (forall id :: id in streams ==> streams[id].Valid())
    && (forall x :: x in pieces ==> Carries(streams, x))
    && Apart(pieces)
    && (forall id, o :: id in streams && 0 <= o < streams[id].writeOffset ==> HasByte(pieces, id, o))
    && (forall id :: id in streams && streams[id].fin.Some? ==> HasFin(pieces, id))
  }

  /** The first `n` bytes of a frame, and the rest of it (stream_framer.go). */
  function Front(f: StreamFrame, n: nat): StreamFrame
    requires n <= |f.data|
  {
    StreamFrame(f.streamID, false, f.dataLenPresent, f.offset, f.data[..n])
  }

  function Back(f: StreamFrame, n: nat): StreamFrame
    requires n <= |f.data|
  {
    f.(offset := f.offset + n, data := f.data[n..])
  }

  /** Splitting a piece keeps the tiling. */
  lemma SplitTiles(pieces: set<StreamFrame>, streams: Streams, f: StreamFrame, n: nat)
    requires Tiles(pieces, streams) && f in pieces && 0 < n < |f.data|
    ensures Tiles(pieces - {f} + {Front(f, n), Back(f, n)}, streams)
    ensures Front(f, n) !in pieces && Back(f, n) !in pieces && Front(f, n) != Back(f, n)
  {
    var a, b := Front(f, n), Back(f, n);
    var pieces' := pieces - {f} + {a, b};
    assert Carries(streams, f) && Overlap(a, f) && Overlap(b, f);
    assert forall x :: x in pieces' ==> Carries(streams, x);
    SplitApart(pieces, f, n);
    hide Carries, Overlap, Apart;
    forall id, o | id in streams && 0 <= o < streams[id].writeOffset
      ensures HasByte(pieces', id, o)
    {
      SplitByte(pieces, f, n, id, o);
    }
    forall id | id in streams && streams[id].fin.Some?
      ensures HasFin(pieces', id)
    {
      SplitFin(pieces, f, n, id);
    }
  }

  lemma SplitByte(pieces: set<StreamFrame>, f: StreamFrame, n: nat, id: nat, o: int)
    requires HasByte(pieces, id, o) && n <= |f.data|
    ensures HasByte(pieces - {f} + {Front(f, n), Back(f, n)}, id, o)
  {
    var x :| x in pieces && x.streamID == id && x.Covers(o);
    var y := if x != f then x else if o < f.offset + n then Front(f, n) else Back(f, n);
    assert y in pieces - {f} + {Front(f, n), Back(f, n)} && y.streamID == id && y.Covers(o);
  }

  lemma SplitFin(pieces: set<StreamFrame>, f: StreamFrame, n: nat, id: nat)
    requires HasFin(pieces, id) && n <= |f.data|
    ensures HasFin(pieces - {f} + {Front(f, n), Back(f, n)}, id)
  {
    var x :| x in pieces && x.streamID == id && x.fin;
    var y := if x != f then x else Back(f, n);
    assert y in pieces - {f} + {Front(f, n), Back(f, n)} && y.streamID == id && y.fin;
  }

  lemma SplitApart(pieces: set<StreamFrame>, f: StreamFrame, n: nat)
    requires Apart(pieces) && f in pieces && 0 < n < |f.data|
    ensures Apart(pieces - {f} + {Front(f, n), Back(f, n)})
  {
    var a, b := Front(f, n), Back(f, n);
    forall x, y | x in pieces - {f} + {a, b} && y in pieces - {f} + {a, b} && Overlap(x, y)
      ensures x == y
    {
      var x' := if x == a || x == b then f else x;
      var y' := if y == a || y == b then f else y;
      assert Overlap(x', y');
    }
  }

  /** The streams after `n` bytes, and perhaps the FIN, were taken from stream `id`. */
  function Take(streams: Streams, id: nat, n: nat, fin: bool): Streams
    requires id in streams
  {
    var s := streams[id];
    streams[id := s.(writeOffset := s.writeOffset + n, fin := if fin then Some(s.writeOffset + n) else s.fin)]
  }

  function NewFrame(streams: Streams, id: nat, n: nat, fin: bool): StreamFrame
    requires id in streams && streams[id].writeOffset + n <= |streams[id].written|
  {
    var s := streams[id];
    StreamFrame(id, fin, true, s.writeOffset, s.written[s.writeOffset..s.writeOffset + n])
  }

  /** Whether `n` more bytes, and the FIN if `fin`, can be taken from stream `id`. */
  ghost predicate CanTake(streams: Streams, id: nat, n: nat, fin: bool) {
    && id in streams && streams[id].writeOffset + n <= |streams[id].written| && (n > 0 || fin)
    && (fin ==> streams[id].closed && streams[id].fin.None?)
  }

  lemma NewCarries(pieces: set<StreamFrame>, streams: Streams, id: nat, n: nat, fin: bool)
    requires Tiles(pieces, streams) && CanTake(streams, id, n, fin)
    ensures var f := NewFrame(streams, id, n, fin);
            && f !in pieces && Apart(pieces + {f})
            && forall x :: x in pieces + {f} ==> Carries(Take(streams, id, n, fin), x)
  {
    var f, streams' := NewFrame(streams, id, n, fin), Take(streams, id, n, fin);
    assert forall x :: x in pieces ==> Carries(streams, x);
    forall x | x in pieces + {f}
      ensures Carries(streams', x)
    {
      assert x in pieces ==> Carries(streams, x);
    }
  }

  lemma NewByte(pieces: set<StreamFrame>, streams: Streams, id: nat, n: nat, fin: bool, i: nat, o: int)
    requires Tiles(pieces, streams) && CanTake(streams, id, n, fin)
    requires i in streams && 0 <= o < Take(streams, id, n, fin)[i].writeOffset
    ensures HasByte(pieces + {NewFrame(streams, id, n, fin)}, i, o)
  {
    var f := NewFrame(streams, id, n, fin);
    if o < streams[i].writeOffset {
      assert HasByte(pieces, i, o);
      var x :| x in pieces && x.streamID == i && x.Covers(o);
      assert x in pieces + {f};
    } else {
      assert f in pieces + {f} && f.Covers(o);
    }
  }

  lemma NewFin(pieces: set<StreamFrame>, streams: Streams, id: nat, n: nat, fin: bool, i: nat)
    requires Tiles(pieces, streams) && CanTake(streams, id, n, fin)
    requires i in streams && Take(streams, id, n, fin)[i].fin.Some?
    ensures HasFin(pieces + {NewFrame(streams, id, n, fin)}, i)
  {
    var f := NewFrame(streams, id, n, fin);
    if streams[i].fin.Some? {
      assert HasFin(pieces, i);
      var x :| x in pieces && x.streamID == i && x.fin;
      assert x in pieces + {f};
    } else {
      assert f in pieces + {f};
    }
  }

  /** Taking new data from a stream keeps the tiling. */
  lemma NewTiles(pieces: set<StreamFrame>, streams: Streams, id: nat, n: nat, fin: bool)
    requires Tiles(pieces, streams) && CanTake(streams, id, n, fin)
    ensures Tiles(pieces + {NewFrame(streams, id, n, fin)}, Take(streams, id, n, fin))
    ensures NewFrame(streams, id, n, fin) !in pieces
  {
    var f, streams' := NewFrame(streams, id, n, fin), Take(streams, id, n, fin);
    NewCarries(pieces, streams, id, n, fin);
    assert forall i :: i in streams' ==> streams'[i].Valid() by {
      assert forall i :: i in streams ==> streams[i].Valid();
    }
    hide Carries, Overlap, Apart, HasByte, HasFin;
    forall i, o | i in streams' && 0 <= o < streams'[i].writeOffset
      ensures HasByte(pieces + {f}, i, o)
    {
      NewByte(pieces, streams, id, n, fin, i, o);
    }
    forall i | i in streams' && streams'[i].fin.Some?
      ensures HasFin(pieces + {f}, i)
    {
      NewFin(pieces, streams, id, n, fin, i);
    }
  }
}
