/** How well a packet is filled (stream_framer.go): with room to spare, no stream that was visited has anything left
    that flow control would allow, and BLOCKED frames are queued exactly where flow control stopped the sender. */
module Filling {
  import opened Frames
  import opened StreamFrameCodec
  import opened Ledger
  import opened StreamFramers
  import FC = FlowControl

  /** The longest header of a stream frame: a type byte, 4 bytes for the stream, 8 for the offset and 2 for the
      length. */
  const MAX_STREAM_HEADER := 15

  /** With a window of `window` bytes there is nothing to send on a stream: no data, or no FIN behind all data. */
  predicate Served(s: SendStream, window: nat) {
    if s.writeOffset < |s.written| then window == 0 else s.closed && !s.failed ==> s.fin.Some?
  }

  ghost predicate AllServed(f: Flow, contributes: map<nat, bool>, ids: seq<nat>, negotiated: FC.Negotiated) {
    forall i :: 0 <= i < |ids| ==>
      ids[i] in f.st.streams && Served(f.st.streams[ids[i]], WindowOf(f.cs, contributes, ids[i], negotiated))
  }

  /** The controllers when `n` bytes of stream `id` were counted, if it has one. */
  function SentIf(cs: FC.Controllers, contributes: map<nat, bool>, id: nat, n: nat): FC.Controllers {
    if id in cs && 0 in cs && id in contributes then FC.SentOn(cs, contributes, id, n) else cs
  }

  /** What one visit counts is what it takes from the stream, which the window allows. */
  lemma VisitCounts(f: Flow, contributes: map<nat, bool>, id: nat, maxBytes: nat, negotiated: FC.Negotiated)
    requires id in f.st.streams && TakenFromWritten(f.st.streams)
    ensures var g := FlowVisit(f, contributes, id, maxBytes, negotiated);
            && g.st.streams.Keys == f.st.streams.Keys && f.st.streams[id].writeOffset <= g.st.streams[id].writeOffset
            && var n := g.st.streams[id].writeOffset - f.st.streams[id].writeOffset;
               n <= WindowOf(f.cs, contributes, id, negotiated) && g.cs == SentIf(f.cs, contributes, id, n)
  {
    var v := VisitFor(f, contributes, id, maxBytes, negotiated);
    var o := OfferOf(f.st, id, v.sendWindow, maxBytes);
    OfferWithin(f.st, id, v.sendWindow, maxBytes);
    hide OfferOf, WindowOf;
    if o.Give? {
      GivenAdds(f.st, id, o.n, o.fin, maxBytes);
    } else {
      SentNothing(f.cs, contributes, id);
    }
  }

  lemma SentNothing(cs: FC.Controllers, contributes: map<nat, bool>, id: nat)
    ensures SentIf(cs, contributes, id, 0) == cs
  {
    if id in cs && 0 in cs && id in contributes {
      assert FC.SentOn(cs, contributes, id, 0) == cs;
    }
  }

  /** What is counted for a stream shrinks its window by as much, and no window grows. */
  lemma CountingShrinks(cs: FC.Controllers, contributes: map<nat, bool>, id: nat, n: nat, negotiated: FC.Negotiated,
                        x: nat)
    requires id != 0 && n <= WindowOf(cs, contributes, id, negotiated)
    ensures var cs' := SentIf(cs, contributes, id, n);
            && cs'.Keys == cs.Keys
            && WindowOf(cs', contributes, id, negotiated) == WindowOf(cs, contributes, id, negotiated) - n
            && WindowFor(cs', contributes, x, negotiated) <= WindowFor(cs, contributes, x, negotiated)
  {
  }

  /** Counting for one stream blocks another one only if it uses up the connection's window. */
  lemma OtherNotBlocked(cs: FC.Controllers, contributes: map<nat, bool>, id: nat, n: nat, negotiated: FC.Negotiated,
                        x: nat)
    requires id != 0 && x != 0 && x != id && WindowOf(cs, contributes, x, negotiated) > 0
    requires ConnectionWindow(SentIf(cs, contributes, id, n), negotiated) > 0
    ensures WindowOf(SentIf(cs, contributes, id, n), contributes, x, negotiated) > 0
  {
  }

  /** A visit that leaves room in the packet serves its stream, and changes no other. */
  lemma VisitServes(st: Filled, v: Visit, maxBytes: nat)
    requires v.streamID in st.streams && TakenFromWritten(st.streams) && !st.stopped
    requires VisitStream(st, v, maxBytes).length + MAX_STREAM_HEADER < maxBytes
    ensures var r := VisitStream(st, v, maxBytes);
            && st.length <= r.length && !r.stopped
            && (forall x :: x in st.streams && x != v.streamID ==> r.streams[x] == st.streams[x])
            && var s, t := st.streams[v.streamID], r.streams[v.streamID];
               && t.written == s.written && s.writeOffset <= t.writeOffset
               && Served(t, v.sendWindow - if t.writeOffset - s.writeOffset > v.sendWindow then v.sendWindow
                                           else t.writeOffset - s.writeOffset)
  {
  }

  lemma VisitLength(st: Filled, v: Visit, maxBytes: nat)
    requires v.streamID in st.streams && TakenFromWritten(st.streams)
    ensures st.length <= VisitStream(st, v, maxBytes).length
    ensures st.stopped ==> VisitStream(st, v, maxBytes) == st
  {
  }

  lemma FlowVisitServes(f: Flow, contributes: map<nat, bool>, id: nat, maxBytes: nat, negotiated: FC.Negotiated, x: nat)
    requires id in f.st.streams && TakenFromWritten(f.st.streams) && !f.st.stopped && id != 0 && x != 0
    requires FlowVisit(f, contributes, id, maxBytes, negotiated).st.length + MAX_STREAM_HEADER < maxBytes
    requires x == id || (x in f.st.streams && Served(f.st.streams[x], WindowOf(f.cs, contributes, x, negotiated)))
    ensures var g := FlowVisit(f, contributes, id, maxBytes, negotiated);
            && !g.st.stopped && x in g.st.streams
            && Served(g.st.streams[x], WindowOf(g.cs, contributes, x, negotiated))
  {
    hide VisitStream, VisitFor, Counted, WindowOf, FlowVisit, SentIf;
    var v, g := VisitFor(f, contributes, id, maxBytes, negotiated), FlowVisit(f, contributes, id, maxBytes, negotiated);
    VisitIs(f, contributes, id, maxBytes, negotiated);
    VisitServes(f.st, v, maxBytes);
    VisitCounts(f, contributes, id, maxBytes, negotiated);
    CountingShrinks(f.cs, contributes, id, g.st.streams[id].writeOffset - f.st.streams[id].writeOffset, negotiated, x);
  }

  lemma VisitIs(f: Flow, contributes: map<nat, bool>, id: nat, maxBytes: nat, negotiated: FC.Negotiated)
    requires id in f.st.streams && TakenFromWritten(f.st.streams)
    ensures var v := VisitFor(f, contributes, id, maxBytes, negotiated);
            && FlowVisit(f, contributes, id, maxBytes, negotiated).st == VisitStream(f.st, v, maxBytes)
            && v.streamID == id && v.sendWindow == WindowOf(f.cs, contributes, id, negotiated)
  {
  }

  /** If a packet of `maxBytes` bytes has room left for a stream frame, every stream that was visited is served. */
  lemma {:induction false} FlowAllServes(streams: Streams, cs: FC.Controllers, contributes: map<nat, bool>,
                                         ids: seq<nat>, maxBytes: nat, negotiated: FC.Negotiated)
    requires AllIn(streams, ids) && TakenFromWritten(streams)
    requires FlowAll(streams, cs, contributes, ids, maxBytes, negotiated).st.length + MAX_STREAM_HEADER < maxBytes
    ensures var f := FlowAll(streams, cs, contributes, ids, maxBytes, negotiated);
            !f.st.stopped && AllServed(f, contributes, ids, negotiated)
    decreases |ids|
  {
    hide FlowVisit, VisitStream, WindowOf, Served;
    if ids != [] {
      var init, id := ids[..|ids| - 1], ids[|ids| - 1];
      var f := FlowAll(streams, cs, contributes, init, maxBytes, negotiated);
      VisitIs(f, contributes, id, maxBytes, negotiated);
      VisitLength(f.st, VisitFor(f, contributes, id, maxBytes, negotiated), maxBytes);
      FlowAllServes(streams, cs, contributes, init, maxBytes, negotiated);
      NoZero(streams, init);
      forall i | 0 <= i < |ids|
        ensures var g := FlowAll(streams, cs, contributes, ids, maxBytes, negotiated);
                && !g.st.stopped && ids[i] in g.st.streams
                && Served(g.st.streams[ids[i]], WindowOf(g.cs, contributes, ids[i], negotiated))
      {
        assert i < |init| ==> init[i] == ids[i];
        FlowVisitServes(f, contributes, id, maxBytes, negotiated, ids[i]);
      }
    }
  }

  lemma {:induction false} NoZero(streams: Streams, ids: seq<nat>)
    requires AllIn(streams, ids)
    ensures 0 !in ids
  {
    if ids != [] {
      NoZero(streams, ids[..|ids| - 1]);
    }
  }

  /** If what the framer takes leaves room for one more stream frame, no lost frame waits any longer, and no stream that
      was visited has data that flow control allows, or a FIN, left to send. */
  lemma PopServes(v: Framer, ids: seq<nat>, maxLen: nat, negotiated: FC.Negotiated, i: nat)
    requires v.Ready(ids) && i < |ids|
    requires TotalFull(v.Pop(ids, maxLen, negotiated).1) + MAX_STREAM_HEADER < maxLen
    ensures var w := v.Pop(ids, maxLen, negotiated).0;
            && w.queue == [] && ids[i] in w.streams
            && Served(w.streams[ids[i]], WindowOf(w.cs, w.contributes, ids[i], negotiated))
  {
    hide FlowAll, PopFrames, VisitAll, VisitsFor, WindowOf, Served;
    var p, room := PopFrames(v.queue, maxLen), v.Room(maxLen);
    var f := FlowAll(v.streams, v.cs, v.contributes, ids, room, negotiated);
    PopFramesLength(v.queue, maxLen);
    PopIsGreedy(v.queue, maxLen);
    FlowIsVisitAll(v.streams, v.cs, v.contributes, ids, room, negotiated);
    VisitAllFits(v.streams, VisitsFor(v.streams, v.cs, v.contributes, ids, room, negotiated), room);
    TotalFullConcat(p.frames, f.st.frames);
    FlowAllServes(v.streams, v.cs, v.contributes, ids, room, negotiated);
  }

  // ---------------------------------------------------------------------------------------------
  // BLOCKED frames
  // ---------------------------------------------------------------------------------------------

  function ConnectionWindow(cs: FC.Controllers, negotiated: FC.Negotiated): nat {
    if 0 in cs then cs[0].SendWindowSize(negotiated.connection) else 0
  }

  /** The window of a stream, or of the connection. */
  function WindowFor(cs: FC.Controllers, contributes: map<nat, bool>, x: nat, negotiated: FC.Negotiated): nat {
    if x == 0 then ConnectionWindow(cs, negotiated) else WindowOf(cs, contributes, x, negotiated)
  }

  /** Between `f` and `g`, the window of `x` was used up without the connection's, and no FIN was sent behind it. */
  ghost predicate UsesUp(f: Flow, g: Flow, contributes: map<nat, bool>, x: nat, negotiated: FC.Negotiated) {
    && WindowFor(f.cs, contributes, x, negotiated) > 0 && WindowFor(g.cs, contributes, x, negotiated) == 0
    && (x != 0 ==> ConnectionWindow(g.cs, negotiated) > 0 && x in g.st.streams && g.st.streams[x].fin.None?)
  }

  /** The BLOCKED frame that one visit queues. */
  lemma VisitQueues(f: Flow, contributes: map<nat, bool>, id: nat, maxBytes: nat, negotiated: FC.Negotiated)
    requires id in f.st.streams && TakenFromWritten(f.st.streams)
    ensures var g := FlowVisit(f, contributes, id, maxBytes, negotiated);
            var n := g.st.streams[id].writeOffset - f.st.streams[id].writeOffset;
            var left, window := ConnectionWindow(g.cs, negotiated), WindowOf(f.cs, contributes, id, negotiated);
            && (|| g.st.blocked == f.st.blocked
                || (g.st.blocked == f.st.blocked + [0] && left == 0)
                || (g.st.blocked == f.st.blocked + [id] && n == window))
            && (n > 0 && left == 0 && 0 in g.cs ==> g.st.blocked == f.st.blocked + [0])
            && (n > 0 && left > 0 && n == window && g.st.streams[id].fin.None? ==> g.st.blocked == f.st.blocked + [id])
            && (forall x :: x in f.st.streams && f.st.streams[x].fin.Some? ==> g.st.streams[x].fin.Some?)
  {
    var v := VisitFor(f, contributes, id, maxBytes, negotiated);
    var o := OfferOf(f.st, id, v.sendWindow, maxBytes);
    hide OfferOf, WindowOf, FC.SentOn;
    if o.Give? {
      GivenAdds(f.st, id, o.n, o.fin, maxBytes);
    }
  }

  /** One visit queues BLOCKED frames for windows that are used up, and for each that it uses up. */
  lemma VisitBlocks(f: Flow, contributes: map<nat, bool>, id: nat, maxBytes: nat, negotiated: FC.Negotiated, x: nat)
    requires id in f.st.streams && TakenFromWritten(f.st.streams) && id != 0
    ensures var g := FlowVisit(f, contributes, id, maxBytes, negotiated);
            && f.st.blocked <= g.st.blocked
            && WindowFor(g.cs, contributes, x, negotiated) <= WindowFor(f.cs, contributes, x, negotiated)
            && (x in g.st.blocked ==> x in f.st.blocked || WindowFor(g.cs, contributes, x, negotiated) == 0)
            && (UsesUp(f, g, contributes, x, negotiated) ==> x in g.st.blocked)
            && (x in f.st.streams && f.st.streams[x].fin.Some? ==> g.st.streams[x].fin.Some?)
  {
    hide FlowVisit, WindowOf, SentIf;
    var g := FlowVisit(f, contributes, id, maxBytes, negotiated);
    VisitCounts(f, contributes, id, maxBytes, negotiated);
    var n := g.st.streams[id].writeOffset - f.st.streams[id].writeOffset;
    VisitQueues(f, contributes, id, maxBytes, negotiated);
    CountingShrinks(f.cs, contributes, id, n, negotiated, x);
    SentNothing(f.cs, contributes, id);
    if x != 0 && x != id && WindowOf(f.cs, contributes, x, negotiated) > 0 && ConnectionWindow(g.cs, negotiated) > 0 {
      OtherNotBlocked(f.cs, contributes, id, n, negotiated, x);
    }
  }

  /** While a packet is filled, BLOCKED frames are queued for every window that is used up, and for no other. */
  lemma {:induction false} BlockedIff(streams: Streams, cs: FC.Controllers, contributes: map<nat, bool>, ids: seq<nat>,
                                      maxBytes: nat, negotiated: FC.Negotiated, x: nat)
    requires AllIn(streams, ids) && TakenFromWritten(streams)
    ensures var e, f := Flow(Filled(streams, [], 0, [], false), cs),
                        FlowAll(streams, cs, contributes, ids, maxBytes, negotiated);
            && (x in f.st.blocked ==> WindowFor(f.cs, contributes, x, negotiated) == 0)
            && (UsesUp(e, f, contributes, x, negotiated) ==> x in f.st.blocked)
            && ConnectionWindow(f.cs, negotiated) <= ConnectionWindow(cs, negotiated)
    decreases |ids|
  {
    hide FlowVisit, WindowOf, ConnectionWindow;
    if ids != [] {
      var init, id := ids[..|ids| - 1], ids[|ids| - 1];
      var f := FlowAll(streams, cs, contributes, init, maxBytes, negotiated);
      BlockedIff(streams, cs, contributes, init, maxBytes, negotiated, x);
      VisitBlocks(f, contributes, id, maxBytes, negotiated, x);
      VisitBlocks(f, contributes, id, maxBytes, negotiated, 0);
    }
  }
}
