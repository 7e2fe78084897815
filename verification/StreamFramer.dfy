/** Filling a packet with stream data (stream_framer.go, and the sending half of stream.go). */
module StreamFramers {
  import opened Frames
  import opened StreamFrameCodec
  import opened Ledger
  import FC = FlowControl

  /** The bytes a frame takes when it states the length of its data. */
  function FullLength(f: StreamFrame): nat {
    MinLength(f.(dataLenPresent := true)) + |f.data|
  }

  function TotalFull(fs: seq<StreamFrame>): nat {
    if fs == [] then 0 else TotalFull(fs[..|fs| - 1]) + FullLength(fs[|fs| - 1])
  }

  lemma {:induction false} TotalFullConcat(a: seq<StreamFrame>, b: seq<StreamFrame>)
    ensures TotalFull(a + b) == TotalFull(a) + TotalFull(b)
    decreases |b|
  {
    if b == [] {
      assert a + b == a;
    } else {
      assert (a + b)[..|a + b| - 1] == a + b[..|b| - 1];
      TotalFullConcat(a, b[..|b| - 1]);
    }
  }

  lemma TotalFullSnoc(a: seq<StreamFrame>, f: StreamFrame)
    ensures TotalFull(a + [f]) == TotalFull(a) + FullLength(f)
  {
    assert (a + [f])[..|a|] == a;
  }

  /** Frames that state the length of their data, and are not empty unless they carry a FIN. */
  predicate Sendable(fs: seq<StreamFrame>) {
    fs == [] ||
    var f := fs[|fs| - 1];
    f.dataLenPresent && (f.data != [] || f.fin) && Sendable(fs[..|fs| - 1])
  }

  lemma SendableSnoc(fs: seq<StreamFrame>, f: StreamFrame)
    requires Sendable(fs) && f.dataLenPresent && (f.data != [] || f.fin)
    ensures Sendable(fs + [f])
  {
    assert (fs + [f])[..|fs|] == fs;
  }

  /** Frames that are not empty unless they carry a FIN. */
  predicate Proper(fs: seq<StreamFrame>) {
    fs == [] || ((fs[0].data != [] || fs[0].fin) && Proper(fs[1..]))
  }

  lemma {:induction false} SendableConcat(a: seq<StreamFrame>, b: seq<StreamFrame>)
    requires Sendable(a) && Sendable(b)
    ensures Sendable(a + b)
    decreases |b|
  {
    if b == [] {
      assert a + b == a;
    } else {
      SendableConcat(a, b[..|b| - 1]);
      assert (a + b)[..|a + b| - 1] == a + b[..|b| - 1];
    }
  }

  // ---------------------------------------------------------------------------------------------
  // Frames for retransmission
  // ---------------------------------------------------------------------------------------------

  datatype Popped = Popped(frames: seq<StreamFrame>, queue: seq<StreamFrame>, length: nat)

  /** The frames that fit into `maxLen` bytes; the last one may be the front of a frame that was split. */
  function PopFrames(queue: seq<StreamFrame>, maxLen: nat): Popped {
    if queue == [] then Popped([], [], 0)
    else
      var frame := Piece(queue[0]);
      var header := MinLength(frame);
      if header >= maxLen then Popped([], [frame] + queue[1..], 0)
      else if maxLen - header < |frame.data| then
        Popped([Front(frame, maxLen - header)], [Back(frame, maxLen - header)] + queue[1..], maxLen)
      else
        var p := PopFrames(queue[1..], maxLen - FullLength(frame));
        Popped([frame] + p.frames, p.queue, FullLength(frame) + p.length)
  }

  /** Frames taken before the others. */
  function Before(frames: seq<StreamFrame>, length: nat, p: Popped): Popped {
    Popped(frames + p.frames, p.queue, length + p.length)
  }

  /** A frame that fits is taken, and the rest of the packet is filled from the rest of the queue. */
  lemma PopOne(frames: seq<StreamFrame>, length: nat, queue: seq<StreamFrame>, maxLen: nat)
    requires queue != [] && MinLength(Piece(queue[0])) < maxLen && FullLength(queue[0]) <= maxLen
    ensures Before(frames, length, PopFrames(queue, maxLen)) ==
            Before(frames + [Piece(queue[0])], length + FullLength(queue[0]),
                   PopFrames(queue[1..], maxLen - FullLength(queue[0])))
  {
  }

  lemma {:induction false} PopFramesLength(queue: seq<StreamFrame>, maxLen: nat)
    ensures PopFrames(queue, maxLen).length == TotalFull(PopFrames(queue, maxLen).frames) <= maxLen
  {
    if queue != [] {
      var frame := Piece(queue[0]);
      var header := MinLength(frame);
      if header >= maxLen {
      } else if maxLen - header < |frame.data| {
        var front := Front(frame, maxLen - header);
        TotalFullSnoc([], front);
        assert [] + [front] == [front];
      } else {
        PopFramesLength(queue[1..], maxLen - FullLength(frame));
        TotalFullConcat([frame], PopFrames(queue[1..], maxLen - FullLength(frame)).frames);
        TotalFullSnoc([], frame);
        assert [] + [frame] == [frame];
      }
    }
  }

  /** Frames are left in the queue only if not even the header of the next one would fit. */
  lemma {:induction false} PopIsGreedy(queue: seq<StreamFrame>, maxLen: nat)
    ensures var p := PopFrames(queue, maxLen);
            p.queue != [] ==> maxLen <= p.length + MinLength(Piece(p.queue[0]))
  {
    if queue != [] {
      var frame := Piece(queue[0]);
      var header := MinLength(frame);
      if header < maxLen && maxLen - header >= |frame.data| {
        PopIsGreedy(queue[1..], maxLen - FullLength(frame));
      }
    }
  }

  lemma {:induction false} PoppedSendable(queue: seq<StreamFrame>, maxLen: nat)
    requires Proper(queue)
    ensures Sendable(PopFrames(queue, maxLen).frames)
  {
    if queue != [] {
      var frame := Piece(queue[0]);
      var header := MinLength(frame);
      if header >= maxLen {
      } else if maxLen - header < |frame.data| {
        SendableSnoc([], Front(frame, maxLen - header));
        assert [] + [Front(frame, maxLen - header)] == [Front(frame, maxLen - header)];
      } else {
        PoppedSendable(queue[1..], maxLen - FullLength(frame));
        SendableSnoc([], frame);
        assert [] + [frame] == [frame];
        SendableConcat([frame], PopFrames(queue[1..], maxLen - FullLength(frame)).frames);
      }
    }
  }

  // ---------------------------------------------------------------------------------------------
  // New data
  // ---------------------------------------------------------------------------------------------

  /** A visit to one open stream: its flow control window at that moment, and whether the connection's
      window is used up after it. */
  datatype Visit = Visit(streamID: nat, sendWindow: nat, connectionBlocked: bool)

  /** New frames, what is left of the streams, and the BLOCKED frames to be sent later. */
  datatype Filled = Filled(streams: Streams, frames: seq<StreamFrame>, length: nat, blocked: seq<nat>, stopped: bool)

  function Min(a: nat, b: nat): nat {
    if a < b then a else b
  }

  /** Whether the FIN goes with the next `n` bytes. */
  predicate TakesFin(s: SendStream, n: nat) {
    s.closed && s.fin.None? && !s.failed && s.writeOffset + n == |s.written|
  }

  ghost predicate TakenFromWritten(streams: Streams) {
    forall id :: id in streams ==> streams[id].writeOffset <= |streams[id].written|
  }

  /** What a visit does: it ends the iteration, passes the stream over, or takes data and perhaps the FIN. */
  datatype Offer = Stop | Pass | Give(n: nat, fin: bool)

  function OfferOf(st: Filled, id: nat, sendWindow: nat, maxBytes: nat): (o: Offer)
    requires id in st.streams && TakenFromWritten(st.streams)
    ensures o.Give? ==> (o.n > 0 || o.fin) && st.streams[id].writeOffset + o.n <= |st.streams[id].written|
  {
    var s := st.streams[id];
    var header := MinLength(StreamFrame(id, false, true, s.writeOffset, []));
    if st.stopped then Pass
    else if st.length + header > maxBytes then Stop
    else
      var pending := |s.written| - s.writeOffset;
      var available := maxBytes - st.length - header;
      var maxLen := if pending != 0 then Min(available, sendWindow) else available;
      var n := Min(pending, maxLen);
      if maxLen == 0 || (n == 0 && !TakesFin(s, n)) then Pass else Give(n, TakesFin(s, n))
  }

  lemma OfferWithin(st: Filled, id: nat, sendWindow: nat, maxBytes: nat)
    requires id in st.streams && TakenFromWritten(st.streams)
    ensures var o := OfferOf(st, id, sendWindow, maxBytes); o.Give? ==> o.n <= sendWindow
  {
  }

  /** The packet with `n` more bytes of stream `id`. */
  function Given(st: Filled, id: nat, n: nat, fin: bool, maxBytes: nat, blocked: seq<nat>): Filled
    requires id in st.streams && st.streams[id].writeOffset + n <= |st.streams[id].written|
  {
    var length := st.length + MinLength(StreamFrame(id, false, true, st.streams[id].writeOffset, [])) + n;
    Filled(Take(st.streams, id, n, fin), st.frames + [NewFrame(st.streams, id, n, fin)], length,
           st.blocked + blocked, length == maxBytes)
  }

  /** The lambda the framer hands to the round-robin scheduler. */
  function VisitStream(st: Filled, v: Visit, maxBytes: nat): (r: Filled)
    requires v.streamID in st.streams && TakenFromWritten(st.streams)
    ensures r.streams.Keys == st.streams.Keys && TakenFromWritten(r.streams)
  {
    match OfferOf(st, v.streamID, v.sendWindow, maxBytes)
    case Stop => st.(stopped := true)
    case Pass => st
    case Give(n, fin) =>
      var blocked := if v.connectionBlocked then [0] else if !fin && v.sendWindow == n then [v.streamID] else [];
      Given(st, v.streamID, n, fin, maxBytes, blocked)
  }

  /** Between `st` and `r`, stream `id` gave `n` bytes of new data, and its FIN if `fin`. */
  ghost predicate Gives(st: Filled, r: Filled, id: nat, n: nat, fin: bool) {
    && id in st.streams && (n > 0 || fin) && st.streams[id].writeOffset + n <= |st.streams[id].written|
    && (fin ==> TakesFin(st.streams[id], n))
    && r.frames == st.frames + [NewFrame(st.streams, id, n, fin)]
    && r.streams == Take(st.streams, id, n, fin)
  }

  lemma VisitGives(st: Filled, v: Visit, maxBytes: nat) returns (n: nat, fin: bool)
    requires v.streamID in st.streams && TakenFromWritten(st.streams)
    ensures var r := VisitStream(st, v, maxBytes);
            (r.frames == st.frames && r.streams == st.streams) || Gives(st, r, v.streamID, n, fin)
  {
    var r := VisitStream(st, v, maxBytes);
    n, fin := 0, false;
    if r.frames != st.frames {
      var f := r.frames[|st.frames|];
      n, fin := |f.data|, f.fin;
    }
  }

  /** Every stream that is visited is open. */
  predicate Known(streams: Streams, visits: seq<Visit>) {
    visits == [] || (visits[|visits| - 1].streamID in streams && Known(streams, visits[..|visits| - 1]))
  }

  function VisitAll(streams: Streams, visits: seq<Visit>, maxBytes: nat): (r: Filled)
    requires Known(streams, visits) && TakenFromWritten(streams)
    ensures r.streams.Keys == streams.Keys && TakenFromWritten(r.streams)
  {
    if visits == [] then Filled(streams, [], 0, [], false)
    else VisitStream(VisitAll(streams, visits[..|visits| - 1], maxBytes), visits[|visits| - 1], maxBytes)
  }

  /** The length is kept correctly, the packet is not overfull, and no frame is empty without a FIN. */
  predicate Fits(st: Filled, maxBytes: nat) {
    st.length == TotalFull(st.frames) <= maxBytes && Sendable(st.frames)
  }

  /** A visit that adds a frame takes at most the stream's window, and stays within the packet. */
  lemma VisitFits(st: Filled, v: Visit, maxBytes: nat)
    requires v.streamID in st.streams && TakenFromWritten(st.streams) && Fits(st, maxBytes)
    ensures var r := VisitStream(st, v, maxBytes);
            && Fits(r, maxBytes)
            && ((r.streams == st.streams && r.frames == st.frames) ||
                (|r.frames| == |st.frames| + 1 && r.frames[..|st.frames|] == st.frames &&
                 (r.frames[|st.frames|].data != [] ==> |r.frames[|st.frames|].data| <= v.sendWindow)))
  {
    var r, s := VisitStream(st, v, maxBytes), st.streams[v.streamID];
    if r.frames != st.frames {
      var f := r.frames[|st.frames|];
      TotalFullSnoc(st.frames, f);
      SendableSnoc(st.frames, f);
    }
  }

  /** A visit takes as much as the stream has to send, its window allows and the packet can hold, and the FIN with the
      last byte, or alone if everything that was written was taken before. */
  lemma VisitIsGreedy(st: Filled, v: Visit, maxBytes: nat, n: nat)
    requires v.streamID in st.streams && TakenFromWritten(st.streams) && !st.stopped
    requires st.streams[v.streamID].writeOffset + n <= |st.streams[v.streamID].written| && n <= v.sendWindow
    requires n == 0 ==> var s := st.streams[v.streamID];
                        s.writeOffset == |s.written| && s.closed && !s.failed && s.fin.None?
    requires st.length + MinLength(StreamFrame(v.streamID, false, true, st.streams[v.streamID].writeOffset, [])) +
             (if n == 0 then 1 else n) <= maxBytes
    ensures var r, s := VisitStream(st, v, maxBytes), st.streams[v.streamID];
            && |r.frames| == |st.frames| + 1 && r.frames[..|st.frames|] == st.frames
            && var f, t := r.frames[|st.frames|], r.streams[v.streamID];
               && f.offset == s.writeOffset && n <= |f.data| && t.writeOffset == s.writeOffset + |f.data|
               && (f.fin <==> s.closed && !s.failed && s.fin.None? && t.writeOffset == |s.written|)
               && (f.fin ==> t.fin == Some(|s.written|))
  {
  }

  lemma {:induction false} VisitAllFits(streams: Streams, visits: seq<Visit>, maxBytes: nat)
    requires Known(streams, visits) && TakenFromWritten(streams)
    ensures Fits(VisitAll(streams, visits, maxBytes), maxBytes)
  {
    if visits != [] {
      VisitAllFits(streams, visits[..|visits| - 1], maxBytes);
      VisitFits(VisitAll(streams, visits[..|visits| - 1], maxBytes), visits[|visits| - 1], maxBytes);
    }
  }

  // ---------------------------------------------------------------------------------------------
  // New data within the flow control windows
  // ---------------------------------------------------------------------------------------------

  /** A packet under way, and the flow controllers. */
  datatype Flow = Flow(st: Filled, cs: FC.Controllers)

  /** What may be sent on a stream; nothing if it has no flow controller. */
  function WindowOf(cs: FC.Controllers, contributes: map<nat, bool>, id: nat, negotiated: FC.Negotiated): nat {
    if id in cs && 0 in cs && id in contributes then FC.Available(cs, id, contributes[id], negotiated) else 0
  }

  /** The controllers once the new data in `r` was counted. */
  function Counted(f: Flow, contributes: map<nat, bool>, id: nat, r: Filled): FC.Controllers {
    if |r.frames| == |f.st.frames| + 1 && id in f.cs && 0 in f.cs && id in contributes
    then FC.SentOn(f.cs, contributes, id, |r.frames[|f.st.frames|].data|)
    else f.cs
  }

  /** A visit with the window that flow control grants at that moment. */
  function VisitFor(f: Flow, contributes: map<nat, bool>, id: nat, maxBytes: nat, negotiated: FC.Negotiated): Visit
    requires id in f.st.streams && TakenFromWritten(f.st.streams)
  {
    var window := WindowOf(f.cs, contributes, id, negotiated);
    var cs := Counted(f, contributes, id, VisitStream(f.st, Visit(id, window, false), maxBytes));
    Visit(id, window, 0 in cs && cs[0].SendWindowSize(negotiated.connection) == 0)
  }

  function FlowVisit(f: Flow, contributes: map<nat, bool>, id: nat, maxBytes: nat, negotiated: FC.Negotiated): Flow
    requires id in f.st.streams && TakenFromWritten(f.st.streams)
  {
    var r := VisitStream(f.st, VisitFor(f, contributes, id, maxBytes, negotiated), maxBytes);
    Flow(r, Counted(f, contributes, id, r))
  }

  predicate AllIn(streams: Streams, ids: seq<nat>) {
    ids == [] || (ids[|ids| - 1] in streams && ids[|ids| - 1] != 0 && AllIn(streams, ids[..|ids| - 1]))
  }

  /** Visits to streams `ids`, one after the other. */
  function FlowAll(streams: Streams, cs: FC.Controllers, contributes: map<nat, bool>, ids: seq<nat>, maxBytes: nat,
                   negotiated: FC.Negotiated): (f: Flow)
    requires AllIn(streams, ids) && TakenFromWritten(streams)
    ensures f.st.streams.Keys == streams.Keys && TakenFromWritten(f.st.streams)
  {
    if ids == [] then Flow(Filled(streams, [], 0, [], false), cs)
    else
      var f := FlowAll(streams, cs, contributes, ids[..|ids| - 1], maxBytes, negotiated);
      FlowVisit(f, contributes, ids[|ids| - 1], maxBytes, negotiated)
  }

  /** The visits with the windows that were granted. */
  function VisitsFor(streams: Streams, cs: FC.Controllers, contributes: map<nat, bool>, ids: seq<nat>, maxBytes: nat,
                     negotiated: FC.Negotiated): seq<Visit>
    requires AllIn(streams, ids) && TakenFromWritten(streams)
  {
    if ids == [] then []
    else
      var init := ids[..|ids| - 1];
      var f := FlowAll(streams, cs, contributes, init, maxBytes, negotiated);
      VisitsFor(streams, cs, contributes, init, maxBytes, negotiated) +
      [VisitFor(f, contributes, ids[|ids| - 1], maxBytes, negotiated)]
  }

  /** Flow control only decides the windows. */
  lemma {:induction false} FlowIsVisitAll(streams: Streams, cs: FC.Controllers, contributes: map<nat, bool>,
                                          ids: seq<nat>,
                                          maxBytes: nat, negotiated: FC.Negotiated)
    requires AllIn(streams, ids) && TakenFromWritten(streams)
    ensures var visits := VisitsFor(streams, cs, contributes, ids, maxBytes, negotiated);
            && Known(streams, visits)
            && FlowAll(streams, cs, contributes, ids, maxBytes, negotiated).st == VisitAll(streams, visits, maxBytes)
  {
    hide VisitStream, VisitFor, Counted;
    if ids != [] {
      var init := ids[..|ids| - 1];
      FlowIsVisitAll(streams, cs, contributes, init, maxBytes, negotiated);
      var visits := VisitsFor(streams, cs, contributes, ids, maxBytes, negotiated);
      assert visits[..|visits| - 1] == VisitsFor(streams, cs, contributes, init, maxBytes, negotiated);
      VisitForStream(FlowAll(streams, cs, contributes, init, maxBytes, negotiated), contributes, ids[|ids| - 1],
                     maxBytes, negotiated);
    }
  }

  lemma VisitForStream(f: Flow, contributes: map<nat, bool>, id: nat, maxBytes: nat, negotiated: FC.Negotiated)
    requires id in f.st.streams && TakenFromWritten(f.st.streams)
    ensures VisitFor(f, contributes, id, maxBytes, negotiated).streamID == id
  {
  }

  // ---------------------------------------------------------------------------------------------
  // The framer
  // ---------------------------------------------------------------------------------------------

  /** The framer and its flow controllers, as a value. */
  datatype Framer = Framer(queue: seq<StreamFrame>, streams: Streams, cs: FC.Controllers, contributes: map<nat, bool>) {

    /** Streams `ids` are known, and nothing was taken from them that was not written. */
    ghost predicate Ready(ids: seq<nat>) {
      AllIn(streams, ids) && TakenFromWritten(streams)
    }

    /** The room that lost frames leave for new data. */
    function Room(maxLen: nat): nat {
      PopFramesLength(queue, maxLen);
      maxLen - PopFrames(queue, maxLen).length
    }

    /** Lost frames first, which flow control does not count, then new data. */
    ghost function Pop(ids: seq<nat>, maxLen: nat, negotiated: FC.Negotiated): (Framer, seq<StreamFrame>)
      requires Ready(ids)
    {
      var p, f := PopFrames(queue, maxLen), FlowAll(streams, cs, contributes, ids, Room(maxLen), negotiated);
      (Framer(p.queue, f.st.streams, f.cs, contributes), p.frames + f.st.frames)
    }

    ghost function Blocked(ids: seq<nat>, maxLen: nat, negotiated: FC.Negotiated): seq<nat>
      requires Ready(ids)
    {
      FlowAll(streams, cs, contributes, ids, Room(maxLen), negotiated).st.blocked
    }
  }

  /** What is popped fits, and no frame is empty without a FIN. */
  lemma PopFits(v: Framer, ids: seq<nat>, maxLen: nat, negotiated: FC.Negotiated)
    requires v.Ready(ids) && Proper(v.queue)
    ensures var fs := v.Pop(ids, maxLen, negotiated).1; Sendable(fs) && TotalFull(fs) <= maxLen
  {
    hide VisitAll, PopFrames, FlowAll, VisitsFor;
    var p := PopFrames(v.queue, maxLen);
    PopFramesLength(v.queue, maxLen);
    PoppedSendable(v.queue, maxLen);
    var visits := VisitsFor(v.streams, v.cs, v.contributes, ids, v.Room(maxLen), negotiated);
    FlowIsVisitAll(v.streams, v.cs, v.contributes, ids, v.Room(maxLen), negotiated);
    VisitAllFits(v.streams, visits, v.Room(maxLen));
    FitTogether(p, VisitAll(v.streams, visits, v.Room(maxLen)), maxLen);
  }

  class StreamFramer {
    const flowControlManager: FC.FlowControlManager
    var streams: Streams
    var retransmissionQueue: seq<StreamFrame>
    var blockedFrameQueue: seq<nat>

    constructor (flowControlManager: FC.FlowControlManager)
      ensures this.flowControlManager == flowControlManager
      ensures streams == map[] && retransmissionQueue == [] && blockedFrameQueue == []
    {
      this.flowControlManager := flowControlManager;
      streams, retransmissionQueue, blockedFrameQueue := map[], [], [];
    }

    method AddFrameForRetransmission(frame: StreamFrame)
      modifies this`retransmissionQueue
      ensures retransmissionQueue == old(retransmissionQueue) + [frame]
    {
      retransmissionQueue := retransmissionQueue + [frame];
    }

    ghost function Value(): Framer
      reads this, flowControlManager
    {
      Framer(retransmissionQueue, streams, flowControlManager.controllers, flowControlManager.contributes)
    }

    /** First what is to be retransmitted, then new data. */
    method PopStreamFrames(maxLen: nat, ids: seq<nat>, negotiated: FC.Negotiated) returns (fs: seq<StreamFrame>)
      requires Value().Ready(ids) && flowControlManager.Valid()
      modifies this, flowControlManager
      ensures flowControlManager.Valid() && (Value(), fs) == old(Value()).Pop(ids, maxLen, negotiated)
      ensures blockedFrameQueue == old(blockedFrameQueue) + old(Value()).Blocked(ids, maxLen, negotiated)
    {
      hide FlowAll, PopFrames;
      var currentLen;
      fs, currentLen := MaybePopFramesForRetransmission(maxLen);
      var normal := MaybePopNormalFrames(maxLen - currentLen, ids, negotiated);
      fs := fs + normal;
    }

    method PopBlockedFrame() returns (id: Option<nat>)
      modifies this`blockedFrameQueue
      ensures id == if old(blockedFrameQueue) == [] then None else Some(old(blockedFrameQueue)[0])
      ensures blockedFrameQueue == if old(blockedFrameQueue) == [] then [] else old(blockedFrameQueue)[1..]
    {
      if |blockedFrameQueue| == 0 {
        return None;
      }
      id := Some(blockedFrameQueue[0]);
      blockedFrameQueue := blockedFrameQueue[1..];
    }

    method MaybePopFramesForRetransmission(maxLen: nat) returns (res: seq<StreamFrame>, currentLen: nat)
      modifies this`retransmissionQueue
      ensures Popped(res, retransmissionQueue, currentLen) == PopFrames(old(retransmissionQueue), maxLen)
      ensures currentLen <= maxLen
    {
      res, currentLen := [], 0;
      ghost var all := PopFrames(retransmissionQueue, maxLen);
      while |retransmissionQueue| > 0
        invariant currentLen <= maxLen
        invariant all == Before(res, currentLen, PopFrames(retransmissionQueue, maxLen - currentLen))
        decreases |retransmissionQueue|
      {
        var frame := retransmissionQueue[0].(dataLenPresent := true);
        var frameHeaderLen := MinLength(frame);
        if currentLen + frameHeaderLen >= maxLen {
          retransmissionQueue := [frame] + retransmissionQueue[1..];
          return;
        }
        var n := maxLen - currentLen - frameHeaderLen;
        if n < |frame.data| {
          // the frame is split
          retransmissionQueue := [Back(frame, n)] + retransmissionQueue[1..];
          res := res + [Front(frame, n)];
          currentLen := currentLen + frameHeaderLen + n;
          return;
        }
        PopOne(res, currentLen, retransmissionQueue, maxLen - currentLen);
        retransmissionQueue := retransmissionQueue[1..];
        res := res + [frame];
        currentLen := currentLen + frameHeaderLen + |frame.data|;
      }
    }

    method MaybePopNormalFrames(maxBytes: nat, ids: seq<nat>, negotiated: FC.Negotiated) returns (res: seq<StreamFrame>)
      requires AllIn(streams, ids) && TakenFromWritten(streams) && flowControlManager.Valid()
      modifies this`streams, this`blockedFrameQueue, flowControlManager
      ensures flowControlManager.Valid() && flowControlManager.contributes == old(flowControlManager.contributes)
      ensures var f := FlowAll(old(streams), old(flowControlManager.controllers), old(flowControlManager.contributes),
                               ids,
                               maxBytes, negotiated);
              && res == f.st.frames && streams == f.st.streams &&
                blockedFrameQueue == old(blockedFrameQueue) + f.st.blocked
              && flowControlManager.controllers == f.cs
    {
      hide FlowVisit, FC.FlowControlManager.Valid;
      var st := Filled(streams, [], 0, [], false);
      ghost var cs, contributes := flowControlManager.controllers, flowControlManager.contributes;
      for i := 0 to |ids|
        invariant flowControlManager.Valid() && flowControlManager.contributes == contributes
        invariant AllIn(streams, ids[..i])
        invariant Flow(st, flowControlManager.controllers) ==
                  FlowAll(streams, cs, contributes, ids[..i], maxBytes, negotiated)
        modifies flowControlManager
      {
        assert ids[..i + 1][..i] == ids[..i];
        AllInAt(streams, ids, i);
        st := VisitOne(st, ids[i], maxBytes, negotiated);
      }
      assert ids[..|ids|] == ids;
      streams, blockedFrameQueue := st.streams, blockedFrameQueue + st.blocked;
      return st.frames;
    }

    /** The visit to one stream. */
    method VisitOne(st: Filled, id: nat, maxBytes: nat, negotiated: FC.Negotiated) returns (r: Filled)
      requires id in st.streams && id != 0 && TakenFromWritten(st.streams) && flowControlManager.Valid()
      modifies flowControlManager
      ensures flowControlManager.Valid() && flowControlManager.contributes == old(flowControlManager.contributes)
      ensures Flow(r, flowControlManager.controllers) ==
              FlowVisit(Flow(st, old(flowControlManager.controllers)), flowControlManager.contributes, id, maxBytes,
                        negotiated)
    {
      hide OfferOf, Given, FC.Logged, FC.AllValid, FC.Sums, FC.SentOn, FC.Available;
      var offer, sendWindowSize := Decide(st, id, maxBytes, negotiated);
      if offer.Stop? {
        return st.(stopped := true);
      }
      if offer.Pass? {
        return st;
      }
      GivenAdds(st, id, offer.n, offer.fin, maxBytes);
      var counted := flowControlManager.AddBytesSent(id, offer.n);
      var remaining := flowControlManager.RemainingConnectionWindowSize(negotiated);
      var blocked := if remaining == 0 then [0] else if !offer.fin && sendWindowSize == offer.n then [id] else [];
      return Given(st, id, offer.n, offer.fin, maxBytes, blocked);
    }

    /** How much the visit takes. Flow control is only asked if there is data to send. */
    method Decide(st: Filled, id: nat, maxBytes: nat, negotiated: FC.Negotiated)
      returns (offer: Offer, sendWindowSize: nat)
      requires id in st.streams && id != 0 && TakenFromWritten(st.streams) && flowControlManager.Valid()
      ensures var window := WindowOf(flowControlManager.controllers, flowControlManager.contributes, id, negotiated);
              && offer == OfferOf(st, id, window, maxBytes)
              && (offer.Give? && !offer.fin ==> sendWindowSize == window)
    {
      var s := st.streams[id];
      var frameHeaderBytes := MinLength(StreamFrame(id, false, true, s.writeOffset, []));
      sendWindowSize := 0;
      if st.stopped {
        return Pass, sendWindowSize;
      }
      if st.length + frameHeaderBytes > maxBytes {
        return Stop, sendWindowSize;
      }
      var maxLen := maxBytes - st.length - frameHeaderBytes;
      var pending := |s.written| - s.writeOffset;
      if pending != 0 {
        var size := flowControlManager.SendWindowSize(id, negotiated);
        sendWindowSize := if size.Some? then size.value else 0;
        maxLen := Min(maxLen, sendWindowSize);
      }
      if maxLen == 0 {
        return Pass, sendWindowSize;
      }
      var n := Min(pending, maxLen);
      var fin := TakesFin(s, n);
      return if n == 0 && !fin then Pass else Give(n, fin), sendWindowSize;
    }
  }

  lemma GivenAdds(st: Filled, id: nat, n: nat, fin: bool, maxBytes: nat)
    requires id in st.streams && st.streams[id].writeOffset + n <= |st.streams[id].written|
    ensures forall blocked :: var r := Given(st, id, n, fin, maxBytes, blocked);
              |r.frames| == |st.frames| + 1 && |r.frames[|st.frames|].data| == n
  {
  }

  lemma {:induction false} AllInAt(streams: Streams, ids: seq<nat>, i: nat)
    requires AllIn(streams, ids) && i < |ids|
    ensures ids[i] in streams && ids[i] != 0 && AllIn(streams, ids[..i])
  {
    if i < |ids| - 1 {
      AllInAt(streams, ids[..|ids| - 1], i);
      assert ids[..|ids| - 1][..i] == ids[..i];
    }
  }

  lemma FitTogether(p: Popped, st: Filled, maxLen: nat)
    requires p.length == TotalFull(p.frames) <= maxLen && Fits(st, maxLen - p.length)
    requires Sendable(p.frames)
    ensures TotalFull(p.frames + st.frames) <= maxLen && Sendable(p.frames + st.frames)
  {
    TotalFullConcat(p.frames, st.frames);
    SendableConcat(p.frames, st.frames);
  }
}
