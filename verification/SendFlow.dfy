/** Flow control of sent data over whole runs: the framer (stream_framer.go), WINDOW_UPDATE frames and lost frames,
    with the controllers that grant the windows (flowcontrol/flow_control_manager.go). */
module SendFlow {
  import opened Frames
  import opened Ledger
  import opened StreamFramers
  import opened FlowControl
  import SenderData

  // ---------------------------------------------------------------------------------------------
  // One packet
  // ---------------------------------------------------------------------------------------------

  /** The window in force for a stream, or for the connection. */
  function InForce(cs: Controllers, negotiated: Negotiated, id: nat): nat
    requires id in cs
  {
    cs[id].SendWindow(if id == 0 then negotiated.connection else negotiated.stream)
  }

  /** What is counted for one visit: the bytes taken from the stream, and no more than the windows allow. */
  lemma VisitCounts(f: Flow, contributes: map<nat, bool>, id: nat, maxBytes: nat, negotiated: Negotiated)
    returns (n: nat)
    requires id in f.st.streams && TakenFromWritten(f.st.streams) && id in f.cs && 0 in f.cs && id in contributes &&
             id != 0
    ensures var g := FlowVisit(f, contributes, id, maxBytes, negotiated);
            && g.cs == SentOn(f.cs, contributes, id, n)
            && n <= Available(f.cs, id, contributes[id], negotiated)
            && g.st.streams[id].writeOffset == f.st.streams[id].writeOffset + n
            && forall x :: x in f.st.streams && x != id ==> g.st.streams[x] == f.st.streams[x]
  {
    var v := VisitFor(f, contributes, id, maxBytes, negotiated);
    OfferWithin(f.st, id, v.sendWindow, maxBytes);
    var o := OfferOf(f.st, id, v.sendWindow, maxBytes);
    n := if o.Give? then o.n else 0;
    hide OfferOf;
    if o.Give? {
      GivenAdds(f.st, id, o.n, o.fin, maxBytes);
    } else {
      assert SentOn(f.cs, contributes, id, 0) == f.cs;
    }
  }

  /** What was taken from streams `ids` together. */
  function SumTaken(ids: seq<nat>, streams: Streams): nat {
    if ids == [] then 0
    else
      var id := ids[|ids| - 1];
      SumTaken(ids[..|ids| - 1], streams) + if id in streams then streams[id].writeOffset else 0
  }

  predicate Distinct(ids: seq<nat>) {
    ids == [] || (ids[|ids| - 1] !in ids[..|ids| - 1] && Distinct(ids[..|ids| - 1]))
  }

  lemma {:induction false} SumAfterTaking(ids: seq<nat>, streams: Streams, streams': Streams, id: nat, n: nat)
    requires Distinct(ids) && id in streams && streams'.Keys == streams.Keys
    requires streams'[id].writeOffset == streams[id].writeOffset + n
    requires forall x :: x in streams && x != id ==> streams'[x].writeOffset == streams[x].writeOffset
    ensures SumTaken(ids, streams') == SumTaken(ids, streams) + if id in ids then n else 0
  {
    if ids != [] {
      SumAfterTaking(ids[..|ids| - 1], streams, streams', id, n);
      assert id in ids <==> id in ids[..|ids| - 1] || id == ids[|ids| - 1];
    }
  }

  /** Every stream has a controller that counts what was taken from it, and the connection's counts what was taken
      from the streams `counting`. */
  ghost predicate Counts(streams: Streams, cs: Controllers, contributes: map<nat, bool>, counting: seq<nat>) {
    && 0 in cs && cs.Keys == contributes.Keys && TakenFromWritten(streams)
    && (forall id :: id in streams ==> id != 0 && id in cs && cs[id].bytesSent == streams[id].writeOffset)
    && Distinct(counting) && (forall id :: id in streams ==> (contributes[id] <==> id in counting))
    && (forall id :: id in counting ==> id in streams)
    && cs[0].bytesSent == SumTaken(counting, streams)
  }

  /** `x` sent no more than `w`, and no more is allowed. */
  ghost predicate Below(cs: Controllers, negotiated: Negotiated, x: nat, w: nat) {
    x in cs && cs[x].bytesSent <= w && InForce(cs, negotiated, x) <= w
  }

  lemma SentOnKeeps(cs: Controllers, contributes: map<nat, bool>, id: nat, n: nat, negotiated: Negotiated, x: nat,
                    w: nat)
    requires id in cs && 0 in cs && id in contributes && id != 0 && n <= Available(cs, id, contributes[id], negotiated)
    ensures SentOn(cs, contributes, id, n).Keys == cs.Keys
    ensures Below(cs, negotiated, x, w) ==> Below(SentOn(cs, contributes, id, n), negotiated, x, w)
  {
  }

  lemma FlowVisitKeeps(f: Flow, contributes: map<nat, bool>, counting: seq<nat>, id: nat, maxBytes: nat,
                       negotiated: Negotiated, x: nat, w: nat)
    requires Counts(f.st.streams, f.cs, contributes, counting) && id in f.st.streams
    ensures var g := FlowVisit(f, contributes, id, maxBytes, negotiated);
            && g.st.streams.Keys == f.st.streams.Keys && Counts(g.st.streams, g.cs, contributes, counting)
            && (Below(f.cs, negotiated, x, w) ==> Below(g.cs, negotiated, x, w))
  {
    hide VisitStream, VisitFor, Counted, Available;
    var n := VisitCounts(f, contributes, id, maxBytes, negotiated);
    SentOnKeeps(f.cs, contributes, id, n, negotiated, x, w);
    SumAfterTaking(counting, f.st.streams, FlowVisit(f, contributes, id, maxBytes, negotiated).st.streams, id, n);
  }

  /** Filling a packet counts exactly what is taken from each stream, and sends no more than any bound `w` that the
      window in force keeps to. */
  lemma {:induction false} FlowAllKeeps(streams: Streams, cs: Controllers, contributes: map<nat, bool>,
                                        counting: seq<nat>,
                                        ids: seq<nat>, maxBytes: nat, negotiated: Negotiated, x: nat, w: nat)
    requires AllIn(streams, ids) && Counts(streams, cs, contributes, counting)
    ensures var f := FlowAll(streams, cs, contributes, ids, maxBytes, negotiated);
            && Counts(f.st.streams, f.cs, contributes, counting)
            && (Below(cs, negotiated, x, w) ==> Below(f.cs, negotiated, x, w))
  {
    hide FlowVisit, Counts, Below;
    CountsTaken(streams, cs, contributes, counting);
    if ids != [] {
      FlowAllKeeps(streams, cs, contributes, counting, ids[..|ids| - 1], maxBytes, negotiated, x, w);
      var f := FlowAll(streams, cs, contributes, ids[..|ids| - 1], maxBytes, negotiated);
      FlowVisitKeeps(f, contributes, counting, ids[|ids| - 1], maxBytes, negotiated, x, w);
    }
  }

  lemma CountsTaken(streams: Streams, cs: Controllers, contributes: map<nat, bool>, counting: seq<nat>)
    requires Counts(streams, cs, contributes, counting)
    ensures TakenFromWritten(streams)
  {
  }

  // ---------------------------------------------------------------------------------------------
  // Runs
  // ---------------------------------------------------------------------------------------------

  /** `counting` are the streams whose data counts towards the connection's window. */
  datatype State = State(
    streams: Streams, queue: seq<StreamFrame>, cs: Controllers, contributes: map<nat, bool>, counting: seq<nat>)

  function Initial(connectionWindow: nat): State {
    State(map[], [], map[0 := NewController(connectionWindow, MAX_RECEIVE_CONNECTION_WINDOW)], map[0 := false], [])
  }

  /** A stream is opened, written to, closed, or fails; a WINDOW_UPDATE frame arrives; lost frames come back; a packet
      is filled, first with lost frames and then with new data. */
  datatype Event =
    | OpenStream(id: nat, counts: bool, receiveWindow: nat)
    | WriteData(id: nat, data: seq<byte>)
    | CloseStream(id: nat)
    | FailStream(id: nat)
    | UpdateWindow(id: nat, offset: nat)
    | Requeue(frames: seq<StreamFrame>)
    | Pack(maxLen: nat, ids: seq<nat>, negotiated: Negotiated)

  ghost predicate Enabled(s: State, e: Event) {
    match e
    case OpenStream(id, _, _) => id != 0 && id !in s.streams && id !in s.cs
    case WriteData(id, _) => id in s.streams
    case CloseStream(id) => id in s.streams
    case FailStream(id) => id in s.streams
    case UpdateWindow(_, _) => true
    case Requeue(_) => true
    case Pack(_, ids, _) => AllIn(s.streams, ids) && TakenFromWritten(s.streams)
  }

  ghost function Step(s: State, e: Event): State
    requires Enabled(s, e)
  {
    match e
    case OpenStream(id, counts, receiveWindow) =>
      s.(streams := s.streams[id := SendStream([], 0, false, false, None)],
         cs := s.cs[id := NewController(receiveWindow, MAX_RECEIVE_STREAM_WINDOW)],
         contributes := s.contributes[id := counts], counting := if counts then s.counting + [id] else s.counting)
    case WriteData(id, data) => s.(streams := s.streams[id := SenderData.WrittenTo(s.streams[id], data)])
    case CloseStream(id) => s.(streams := s.streams[id := s.streams[id].(closed := true)])
    case FailStream(id) => s.(streams := s.streams[id := s.streams[id].(closed := true, failed := true)])
    case UpdateWindow(id, offset) => if id in s.cs then s.(cs := s.cs[id := s.cs[id].UpdateSendWindow(offset)]) else s
    case Requeue(frames) => s.(queue := s.queue + frames)
    case Pack(maxLen, ids, negotiated) =>
      var framer := Framer(s.queue, s.streams, s.cs, s.contributes).Pop(ids, maxLen, negotiated).0;
      s.(streams := framer.streams, queue := framer.queue, cs := framer.cs)
  }

  /** Whenever a packet is filled, the window in force for `x` is at most `w`. */
  ghost predicate WindowWithin(s: State, e: Event, x: nat, w: nat) {
    e.Pack? && x in s.cs ==> InForce(s.cs, e.negotiated, x) <= w
  }

  ghost predicate Leads(m: State, e: Event, t: State, x: nat, w: nat) {
    Enabled(m, e) && WindowWithin(m, e, x, w) && t == Step(m, e)
  }

  /** Events `es` lead to `t`, and the window in force for `x` was never more than `w`. */
  ghost predicate Happens(connectionWindow: nat, es: seq<Event>, t: State, x: nat, w: nat) {
    if es == [] then t == Initial(connectionWindow)
    else
      var init, last := es[..|es| - 1], es[|es| - 1];
      exists m :: Leads(m, last, t, x, w) && Happens(connectionWindow, init, m, x, w)
  }

  ghost predicate Inv(s: State, x: nat, w: nat) {
    Counts(s.streams, s.cs, s.contributes, s.counting) && (x in s.cs ==> s.cs[x].bytesSent <= w)
  }

  lemma PackInv(s: State, e: Event, x: nat, w: nat)
    requires e.Pack? && Enabled(s, e) && WindowWithin(s, e, x, w) && Inv(s, x, w)
    ensures Inv(Step(s, e), x, w)
  {
    hide FlowAll, PopFrames, Framer.Room;
    var room := Framer(s.queue, s.streams, s.cs, s.contributes).Room(e.maxLen);
    FlowAllKeeps(s.streams, s.cs, s.contributes, s.counting, e.ids, room, e.negotiated, x, w);
  }

  lemma StepInv(s: State, e: Event, x: nat, w: nat)
    requires Enabled(s, e) && WindowWithin(s, e, x, w) && Inv(s, x, w)
    ensures Inv(Step(s, e), x, w)
  {
    if e.Pack? {
      PackInv(s, e, x, w);
    } else if e.OpenStream? {
      OpenInv(s, e, x, w);
    } else {
      SumSame(s.counting, s.streams, Step(s, e).streams);
    }
  }

  lemma OpenInv(s: State, e: Event, x: nat, w: nat)
    requires e.OpenStream? && Enabled(s, e) && Inv(s, x, w)
    ensures Inv(Step(s, e), x, w)
  {
    hide SumTaken, Distinct;
    var t := Step(s, e);
    SumSame(s.counting, s.streams, t.streams);
    CountOneMore(s.counting, e.id, t.streams);
  }

  lemma CountOneMore(ids: seq<nat>, id: nat, streams: Streams)
    requires Distinct(ids) && id in streams && streams[id].writeOffset == 0
    ensures id !in ids ==> Distinct(ids + [id])
    ensures SumTaken(ids + [id], streams) == SumTaken(ids, streams)
  {
    assert (ids + [id])[..|ids|] == ids;
  }

  lemma {:induction false} SumSame(ids: seq<nat>, streams: Streams, streams': Streams)
    requires forall id :: id in ids ==>
             id in streams && id in streams' && streams'[id].writeOffset == streams[id].writeOffset
    ensures SumTaken(ids, streams') == SumTaken(ids, streams)
  {
    if ids != [] {
      SumSame(ids[..|ids| - 1], streams, streams');
    }
  }

  lemma {:induction false} RunInv(connectionWindow: nat, es: seq<Event>, t: State, x: nat, w: nat)
    requires Happens(connectionWindow, es, t, x, w)
    ensures Inv(t, x, w)
  {
    hide Step, Enabled, WindowWithin;
    if es != [] {
      var init, last := es[..|es| - 1], es[|es| - 1];
      var m :| Leads(m, last, t, x, w) && Happens(connectionWindow, init, m, x, w);
      hide Inv;
      RunInv(connectionWindow, init, m, x, w);
      StepInv(m, last, x, w);
    }
  }

  /** In every run: what was taken from a stream to be sent for the first time is exactly what its controller counted,
      and never exceeds the largest window that was in force when a packet was filled, although a WINDOW_UPDATE can
      replace a larger negotiated window; lost frames that are sent again are not counted. */
  lemma StreamWithinWindow(connectionWindow: nat, es: seq<Event>, t: State, id: nat, w: nat)
    requires Happens(connectionWindow, es, t, id, w) && id in t.streams
    ensures id in t.cs && t.streams[id].writeOffset == t.cs[id].bytesSent <= w
  {
    RunInv(connectionWindow, es, t, id, w);
  }

  /** In every run: what was taken from all streams that count together is what the connection's controller counted, and
      never exceeds the largest window that was in force for the connection. */
  lemma ConnectionWithinWindow(connectionWindow: nat, es: seq<Event>, t: State, w: nat)
    requires Happens(connectionWindow, es, t, 0, w)
    ensures 0 in t.cs && SumTaken(t.counting, t.streams) == t.cs[0].bytesSent <= w
    ensures forall id :: id in t.streams ==> id in t.contributes && (t.contributes[id] <==> id in t.counting)
  {
    RunInv(connectionWindow, es, t, 0, w);
  }

  /** Every controller but the connection's belongs to a stream, and all counts are right. */
  ghost predicate Counted(s: State) {
    && Counts(s.streams, s.cs, s.contributes, s.counting)
    && forall id :: id in s.contributes ==> id == 0 || id in s.streams
  }

  lemma CountedInv(s: State, w: nat)
    requires Counted(s)
    ensures 0 in s.cs && (s.cs[0].bytesSent <= w ==> Inv(s, 0, w))
  {
  }

  /** Every step keeps the counts right. */
  lemma StepCounted(s: State, e: Event)
    requires Counted(s) && Enabled(s, e)
    ensures Counted(Step(s, e))
  {
    hide Counts, FlowAll, PopFrames, Framer.Room, Inv;
    CountedInv(s, 0);
    var w := s.cs[0].bytesSent + if e.Pack? then InForce(s.cs, e.negotiated, 0) else 0;
    CountedInv(s, w);
    StepInv(s, e, 0, w);
    InvCounts(Step(s, e), w);
  }

  lemma InvCounts(s: State, w: nat)
    requires Inv(s, 0, w)
    ensures Counts(s.streams, s.cs, s.contributes, s.counting)
  {
  }

  lemma InitialCounted(connectionWindow: nat)
    ensures Counted(Initial(connectionWindow))
  {
  }

  lemma PackKeys(s: State, e: Event)
    requires Counted(s) && e.Pack? && Enabled(s, e)
    ensures Step(s, e).cs.Keys == s.cs.Keys
  {
    hide Counts, FlowAll, PopFrames, Framer.Room;
    StepCounted(s, e);
    CountedKeys(s);
    CountedKeys(Step(s, e));
  }

  lemma CountedKeys(s: State)
    requires Counted(s)
    ensures s.cs.Keys == s.contributes.Keys
  {
  }
}
