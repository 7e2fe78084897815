/** Flow control (flowcontrol/flow_controller.go, flowcontrol/flow_control_manager.go). */
module FlowControl {
  import opened Frames

  const MAX_RECEIVE_STREAM_WINDOW := 0x10_0000      // 1 MB
  const MAX_RECEIVE_CONNECTION_WINDOW := 0x18_0000  // 1.5 MB

  // ---------------------------------------------------------------------------------------------
  // One controller, for a stream or for the connection
  // ---------------------------------------------------------------------------------------------

  datatype Controller = Controller(
    bytesSent: nat, sendFlowControlWindow: nat,
    bytesRead: nat, highestReceived: nat, receiveFlowControlWindow: nat, increment: nat, maxIncrement: nat,
      updatedBefore: bool) {

    /** The window announced by the peer; until a WINDOW_UPDATE arrives it is the negotiated one. */
    function SendWindow(negotiated: nat): nat {
      if sendFlowControlWindow == 0 then negotiated else sendFlowControlWindow
    }

    function SendWindowSize(negotiated: nat): nat {
      if bytesSent > SendWindow(negotiated) then 0 else SendWindow(negotiated) - bytesSent
    }

    function UpdateSendWindow(offset: nat): Controller {
      if offset > sendFlowControlWindow then this.(sendFlowControlWindow := offset) else this
    }

    /** More was sent than the window allows exactly when the first WINDOW_UPDATE announces less than was sent. */
    lemma ShrinksIff(negotiated: nat, offset: nat)
      requires bytesSent <= SendWindow(negotiated)
      ensures bytesSent > UpdateSendWindow(offset).SendWindow(negotiated) <==>
              sendFlowControlWindow == 0 && 0 < offset < bytesSent
    {
    }

    function Increment(byteOffset: nat): nat {
      if byteOffset > highestReceived then byteOffset - highestReceived else 0
    }

    function UpdateHighestReceived(byteOffset: nat): Controller {
      this.(highestReceived := highestReceived + Increment(byteOffset))
    }

    predicate Violated() {
      highestReceived > receiveFlowControlWindow
    }

    /** Updates that follow each other quickly double the increment, up to its maximum. */
    function AdjustedIncrement(quick: bool): nat {
      if !updatedBefore || !quick then increment
      else if 2 * increment < maxIncrement then 2 * increment else maxIncrement
    }

    predicate NeedsUpdate() {
      receiveFlowControlWindow - bytesRead < increment / 2
    }

    function Updated(quick: bool): Controller {
      var inc := AdjustedIncrement(quick);
      this.(increment := inc, receiveFlowControlWindow := bytesRead + inc, updatedBefore := true)
    }

    /** No more was received than announced, and no more announced than one increment ahead of the reader. */
    predicate Valid() {
      bytesRead <= highestReceived <= receiveFlowControlWindow <= bytesRead + increment && increment <= maxIncrement
    }

    /** The window that an update announces is larger than the one before, and no other update is due until half of it
        was read. The increment stays, or doubles up to its maximum if the last update was made a short time ago. */
    lemma UpdateGrows(quick: bool)
      requires Valid() && NeedsUpdate()
      ensures Updated(quick).Valid() && Updated(quick).receiveFlowControlWindow > receiveFlowControlWindow
      ensures var c := Updated(quick);
              && !c.NeedsUpdate() && c.increment <= maxIncrement
              && (if quick && updatedBefore then c.increment == 2 * increment ||
                  maxIncrement == c.increment <= 2 * increment
                  else c.increment == increment)
    {
    }
  }

  function NewController(window: nat, maxIncrement: nat): Controller {
    Controller(0, 0, 0, 0, window, window, maxIncrement, false)
  }

  // ---------------------------------------------------------------------------------------------
  // Sums over all streams that ever counted towards the connection
  // ---------------------------------------------------------------------------------------------

  function SumReceived(log: seq<Controller>): nat {
    if log == [] then 0 else SumReceived(log[..|log| - 1]) + log[|log| - 1].highestReceived
  }

  function SumRead(log: seq<Controller>): nat {
    if log == [] then 0 else SumRead(log[..|log| - 1]) + log[|log| - 1].bytesRead
  }

  function SumSent(log: seq<Controller>): nat {
    if log == [] then 0 else SumSent(log[..|log| - 1]) + log[|log| - 1].bytesSent
  }

  lemma SumsSnoc(log: seq<Controller>, c: Controller)
    ensures SumReceived(log + [c]) == SumReceived(log) + c.highestReceived
    ensures SumRead(log + [c]) == SumRead(log) + c.bytesRead
    ensures SumSent(log + [c]) == SumSent(log) + c.bytesSent
  {
    assert (log + [c])[..|log|] == log;
  }

  lemma {:induction false} SumsUpdate(log: seq<Controller>, i: nat, c: Controller)
    requires i < |log|
    ensures SumReceived(log[i := c]) == SumReceived(log) - log[i].highestReceived + c.highestReceived
    ensures SumRead(log[i := c]) == SumRead(log) - log[i].bytesRead + c.bytesRead
    ensures SumSent(log[i := c]) == SumSent(log) - log[i].bytesSent + c.bytesSent
  {
    var init := log[..|log| - 1];
    if i == |log| - 1 {
      assert log[i := c][..|log| - 1] == init;
    } else {
      SumsUpdate(init, i, c);
      assert log[i := c][..|log| - 1] == init[i := c];
    }
  }

  lemma {:induction false} ReadAtMostReceived(log: seq<Controller>)
    requires forall i :: 0 <= i < |log| ==> log[i].Valid()
    ensures SumRead(log) <= SumReceived(log)
  {
    if log != [] {
      ReadAtMostReceived(log[..|log| - 1]);
    }
  }

  // ---------------------------------------------------------------------------------------------
  // The manager
  // ---------------------------------------------------------------------------------------------

  datatype ReceiveResult = Ok | UnknownStream | StreamViolation | ConnectionViolation

  datatype WindowUpdate = WindowUpdate(streamID: nat, offset: nat)

  type Controllers = map<nat, Controller>

  /** `slots` says which entry of the log each stream that counts towards the connection has. */
  ghost predicate Logged(cs: Controllers, contributes: map<nat, bool>, log: seq<Controller>, slots: map<nat, nat>) {
    && contributes.Keys == cs.Keys
    && (forall id :: id in cs && contributes[id] <==> id in slots)
    && (forall id :: id in slots ==> slots[id] < |log| && log[slots[id]] == cs[id])
    && (forall a, b :: a in slots && b in slots && slots[a] == slots[b] ==> a == b)
  }

  /** How far the window may run ahead of the reader. */
  function Cap(id: nat): nat {
    if id == 0 then MAX_RECEIVE_CONNECTION_WINDOW else MAX_RECEIVE_STREAM_WINDOW
  }

  ghost predicate AllValid(cs: Controllers, log: seq<Controller>) {
    && (forall id :: id in cs ==> cs[id].Valid() && cs[id].maxIncrement == Cap(id))
    && forall i :: 0 <= i < |log| ==> log[i].Valid()
  }

  /** Received data that was not read yet is bounded, for each stream and for the connection. */
  lemma BoundedBuffer(cs: Controllers, log: seq<Controller>, id: nat)
    requires AllValid(cs, log) && id in cs
    ensures 0 <= cs[id].highestReceived - cs[id].bytesRead <= Cap(id)
  {
  }

  /** The connection's counters are the sums over all streams that ever counted towards it. */
  predicate Sums(connection: Controller, log: seq<Controller>) {
    connection.highestReceived == SumReceived(log) && connection.bytesRead == SumRead(log) &&
      connection.bytesSent == SumSent(log)
  }

  /** The log keeps its length, and the entries of streams that were removed stay as they were. */
  ghost predicate RemovedStay(log: seq<Controller>, log': seq<Controller>, slots: map<nat, nat>) {
    |log'| == |log| && forall i :: 0 <= i < |log| && i !in slots.Values ==> log'[i] == log[i]
  }

  lemma RemovedStayTwice(a: seq<Controller>, b: seq<Controller>, c: seq<Controller>, slots: map<nat, nat>)
    requires RemovedStay(a, b, slots) && RemovedStay(b, c, slots)
    ensures RemovedStay(a, c, slots)
  {
  }

  // ---------------------------------------------------------------------------------------------
  // One stream changes
  // ---------------------------------------------------------------------------------------------

  ghost function LogAfter(log: seq<Controller>, slots: map<nat, nat>, id: nat, c: Controller): seq<Controller>
    requires id in slots ==> slots[id] < |log|
  {
    if id in slots then log[slots[id] := c] else log
  }

  lemma ChangeLogged(cs: Controllers, contributes: map<nat, bool>, log: seq<Controller>, slots: map<nat, nat>, id: nat,
                     c: Controller)
    requires Logged(cs, contributes, log, slots) && AllValid(cs, log) && id in cs && c.Valid() &&
             c.maxIncrement == Cap(id)
    ensures Logged(cs[id := c], contributes, LogAfter(log, slots, id, c), slots)
    ensures AllValid(cs[id := c], LogAfter(log, slots, id, c))
  {
  }

  lemma ChangeSums(connection: Controller, log: seq<Controller>, slots: map<nat, nat>, id: nat, c: Controller,
                   c': Controller, connection': Controller)
    requires Sums(connection, log) && (id in slots ==> slots[id] < |log| && log[slots[id]] == c)
    requires id !in slots ==> Sums(connection', log)
    requires id in slots ==>
               && connection'.highestReceived - connection.highestReceived == c'.highestReceived - c.highestReceived
               && connection'.bytesRead - connection.bytesRead == c'.bytesRead - c.bytesRead
               && connection'.bytesSent - connection.bytesSent == c'.bytesSent - c.bytesSent
    ensures Sums(connection', LogAfter(log, slots, id, c'))
  {
    if id in slots {
      SumsUpdate(log, slots[id], c');
    }
  }

  lemma Known(cs: Controllers, contributes: map<nat, bool>, log: seq<Controller>, slots: map<nat, nat>, id: nat)
    requires Logged(cs, contributes, log, slots) && AllValid(cs, log) && id in cs
    ensures cs[id].Valid() && cs[id].maxIncrement == Cap(id) && id in contributes
  {
  }

  lemma NewLogged(cs: Controllers, contributes: map<nat, bool>, log: seq<Controller>, slots: map<nat, nat>, id: nat,
                  c: Controller, counts: bool)
    requires Logged(cs, contributes, log, slots) && AllValid(cs, log) && id !in cs && c.Valid() &&
             c.maxIncrement == Cap(id)
    ensures var log', slots' := if counts then log + [c] else log, if counts then slots[id := |log|] else slots;
            Logged(cs[id := c], contributes[id := counts], log', slots') && AllValid(cs[id := c], log')
  {
    assert id !in slots;
  }

  /** The connection's counters change by as much as the stream's, if the stream counts. */
  predicate Follows(connection: Controller, connection': Controller, c: Controller, c': Controller, counts: bool) {
    if counts then
      && connection'.highestReceived - connection.highestReceived == c'.highestReceived - c.highestReceived
      && connection'.bytesRead - connection.bytesRead == c'.bytesRead - c.bytesRead
      && connection'.bytesSent - connection.bytesSent == c'.bytesSent - c.bytesSent
    else connection' == connection
  }

  /** The verdict on data up to `byteOffset`: the stream's window is checked first. */
  function ResultOf(cs: Controllers, contributes: map<nat, bool>, id: nat, byteOffset: nat): ReceiveResult {
    if id !in cs then UnknownStream
    else if byteOffset > cs[id].receiveFlowControlWindow then StreamViolation
    else if id in contributes && contributes[id] && 0 in cs &&
            cs[0].highestReceived + cs[id].Increment(byteOffset) > cs[0].receiveFlowControlWindow
              then ConnectionViolation
    else Ok
  }

  /** A peer violates flow control exactly if the data goes beyond the stream's window or, counting all streams that
      ever counted, the connection's. */
  lemma ViolationIff(cs: Controllers, contributes: map<nat, bool>, log: seq<Controller>, slots: map<nat, nat>, id: nat,
                     byteOffset: nat)
    requires Logged(cs, contributes, log, slots) && AllValid(cs, log) && 0 in cs && Sums(cs[0], log) && id in cs
    ensures ResultOf(cs, contributes, id, byteOffset) == Ok <==>
            && byteOffset <= cs[id].receiveFlowControlWindow
            && (id in slots ==> SumReceived(log[slots[id] := cs[id].UpdateHighestReceived(byteOffset)]) <=
                                cs[0].receiveFlowControlWindow)
  {
    if id in slots {
      SumsUpdate(log, slots[id], cs[id].UpdateHighestReceived(byteOffset));
    }
  }

  function Received(cs: Controllers, contributes: map<nat, bool>, id: nat, byteOffset: nat): Controllers
    requires id in cs && id in contributes && 0 in cs
  {
    var counted := if contributes[id] then cs[id].Increment(byteOffset) else 0;
    cs[id := cs[id].UpdateHighestReceived(byteOffset)][0 := cs[0].(highestReceived := cs[0].highestReceived + counted)]
  }

  function Read(cs: Controllers, contributes: map<nat, bool>, id: nat, n: nat): Controllers
    requires id in cs && id in contributes && 0 in cs
  {
    cs[id := cs[id].(bytesRead := cs[id].bytesRead + n)]
      [0 := cs[0].(bytesRead := cs[0].bytesRead + if contributes[id] then n else 0)]
  }

  function SentOn(cs: Controllers, contributes: map<nat, bool>, id: nat, n: nat): Controllers
    requires id in cs && id in contributes && 0 in cs
  {
    cs[id := cs[id].(bytesSent := cs[id].bytesSent + n)]
      [0 := cs[0].(bytesSent := cs[0].bytesSent + if contributes[id] then n else 0)]
  }

  /** The windows the peer announced in the handshake. */
  datatype Negotiated = Negotiated(stream: nat, connection: nat)

  function Available(cs: Controllers, id: nat, counts: bool, negotiated: Negotiated): nat
    requires id in cs && 0 in cs
  {
    var size := cs[id].SendWindowSize(negotiated.stream);
    if counts && cs[0].SendWindowSize(negotiated.connection) < size then cs[0].SendWindowSize(negotiated.connection)
      else size
  }

  /** `n` more bytes on stream `id` stay within the windows. */
  predicate MaySend(cs: Controllers, id: nat, counts: bool, negotiated: Negotiated, n: nat)
    requires id in cs && 0 in cs
  {
    n == 0 ||
    (cs[id].bytesSent + n <= cs[id].SendWindow(negotiated.stream) &&
     (counts ==> cs[0].bytesSent + n <= cs[0].SendWindow(negotiated.connection)))
  }

  function AfterUpdates(c: Controller, quick: bool): Controller {
    if c.NeedsUpdate() then c.Updated(quick) else c
  }

  /** An update of a controller that needed one, with its new window. */
  ghost predicate Announced(cs: Controllers, quick: set<nat>, u: WindowUpdate) {
    && u.streamID in cs && cs[u.streamID].NeedsUpdate()
    && u.offset == cs[u.streamID].Updated(u.streamID in quick).receiveFlowControlWindow
  }

  /** Of the controllers, all but `ids` were looked at. */
  ghost predicate Progress(cs: Controllers, cs': Controllers, ids: set<nat>, quick: set<nat>) {
    && cs'.Keys == cs.Keys && ids <= cs.Keys
    && forall id :: id in cs ==> cs'[id] == if id in ids then cs[id] else AfterUpdates(cs[id], id in quick)
  }

  ghost predicate AnnouncedBut(cs: Controllers, quick: set<nat>, ids: set<nat>, res: seq<WindowUpdate>) {
    forall u :: u in res <==> u.streamID !in ids && Announced(cs, quick, u)
  }

  lemma AnnounceNothing(cs: Controllers, quick: set<nat>)
    ensures AnnouncedBut(cs, quick, cs.Keys, [])
  {
  }

  lemma AnnounceNext(cs: Controllers, quick: set<nat>, ids: set<nat>, res: seq<WindowUpdate>, id: nat)
    requires AnnouncedBut(cs, quick, ids, res) && id in ids && id in cs
    ensures var res' := if cs[id].NeedsUpdate()
            then res + [WindowUpdate(id, cs[id].Updated(id in quick).receiveFlowControlWindow)] else res;
            AnnouncedBut(cs, quick, ids - {id}, res')
  {
  }

  lemma ProgressNext(cs: Controllers, cs': Controllers, quick: set<nat>, ids: set<nat>, id: nat)
    requires Progress(cs, cs', ids, quick) && id in ids
    ensures cs'[id] == cs[id] && Progress(cs, cs'[id := AfterUpdates(cs[id], id in quick)], ids - {id}, quick)
  {
  }

  /** Every update announces a larger window than before. */
  lemma AnnouncedGrows(cs: Controllers, log: seq<Controller>, quick: set<nat>, u: WindowUpdate)
    requires AllValid(cs, log) && Announced(cs, quick, u)
    ensures u.offset > cs[u.streamID].receiveFlowControlWindow
  {
    cs[u.streamID].UpdateGrows(u.streamID in quick);
  }

  /** Half of its increment ahead of what was read. */
  predicate Ahead(c: Controller) {
    c.bytesRead + c.increment / 2 <= c.receiveFlowControlWindow
  }

  /** Once the updates are made, every window is far enough ahead; and one was updated exactly if it was not. */
  lemma UpdatesSuffice(cs: Controllers, cs': Controllers, quick: set<nat>, log: seq<Controller>, id: nat)
    requires AllValid(cs, log) && Progress(cs, cs', {}, quick) && id in cs
    ensures Ahead(cs'[id]) && cs'[id].bytesRead == cs[id].bytesRead
    ensures cs'[id].receiveFlowControlWindow > cs[id].receiveFlowControlWindow <==> !Ahead(cs[id])
    ensures !Ahead(cs[id]) ==> cs'[id].receiveFlowControlWindow == cs[id].bytesRead + cs'[id].increment
  {
    if cs[id].NeedsUpdate() {
      cs[id].UpdateGrows(id in quick);
    }
  }

  predicate SameCounts(c: Controller, c': Controller) {
    c'.bytesSent == c.bytesSent && c'.bytesRead == c.bytesRead && c'.highestReceived == c.highestReceived
  }

  lemma NotCounted(cs: Controllers, contributes: map<nat, bool>, log: seq<Controller>, slots: map<nat, nat>)
    requires Logged(cs, contributes, log, slots) && 0 in contributes && !contributes[0]
    ensures 0 !in slots
  {
  }

  class FlowControlManager {
    var controllers: Controllers  // the connection's has ID 0
    var contributes: map<nat, bool>
    ghost var log: seq<Controller>
    ghost var slots: map<nat, nat>

    ghost predicate Valid()
      reads this
    {
      && 0 in controllers && 0 in contributes && !contributes[0]
      && Logged(controllers, contributes, log, slots)
      && AllValid(controllers, log)
      && Sums(controllers[0], log)
    }

    constructor (connectionWindow: nat)
      requires connectionWindow <= MAX_RECEIVE_CONNECTION_WINDOW
      ensures Valid() && controllers == map[0 := NewController(connectionWindow, MAX_RECEIVE_CONNECTION_WINDOW)]
      ensures contributes == map[0 := false] && log == [] && slots == map[]
    {
      controllers := map[0 := NewController(connectionWindow, MAX_RECEIVE_CONNECTION_WINDOW)];
      contributes, log, slots := map[0 := false], [], map[];
    }

    method NewStream(id: nat, contributesToConnectionFlow: bool, streamWindow: nat)
      requires Valid() && streamWindow <= MAX_RECEIVE_STREAM_WINDOW
      modifies this
      ensures Valid()
      ensures controllers == if id in old(controllers) then old(controllers)
                             else old(controllers)[id := NewController(streamWindow, MAX_RECEIVE_STREAM_WINDOW)]
      ensures id in old(controllers) ==> unchanged(this)
      ensures id !in old(controllers) ==> contributes == old(contributes)[id := contributesToConnectionFlow]
      ensures id !in old(controllers) && !contributesToConnectionFlow ==> log == old(log) && slots == old(slots)
      ensures id !in old(controllers) && contributesToConnectionFlow ==>
              log == old(log) + [controllers[id]] && slots == old(slots)[id := |old(log)|]
    {
      hide Logged, AllValid, SumReceived, SumRead, SumSent;
      if id in controllers {
        return;
      }
      var c := NewController(streamWindow, MAX_RECEIVE_STREAM_WINDOW);
      NewLogged(controllers, contributes, log, slots, id, c, contributesToConnectionFlow);
      SumsSnoc(log, c);
      controllers := controllers[id := c];
      contributes := contributes[id := contributesToConnectionFlow];
      if contributesToConnectionFlow {
        slots := slots[id := |log|];
        log := log + [c];
      }
    }

    /** What a removed stream contributed stays. */
    method RemoveStream(id: nat)
      requires Valid() && id != 0
      modifies this
      ensures Valid() && controllers == old(controllers) - {id} && contributes == old(contributes) - {id}
      ensures log == old(log) && slots == old(slots) - {id}
    {
      controllers := controllers - {id};
      contributes := contributes - {id};
      slots := slots - {id};
    }

    /** Data up to `byteOffset` of a stream arrived. Without a violation, the connection's count is still the sum. */
    method UpdateHighestReceived(id: nat, byteOffset: nat) returns (r: ReceiveResult)
      requires Valid() && id != 0
      modifies this`controllers, this`log
      ensures r == Ok || r == UnknownStream ==> Valid()
      ensures RemovedStay(old(log), log, slots)
      ensures r == ResultOf(old(controllers), old(contributes), id, byteOffset)
      ensures r == Ok ==>
              id in old(contributes) && controllers == Received(old(controllers), old(contributes), id, byteOffset)
      ensures r == StreamViolation ==>
              controllers == old(controllers)[id := old(controllers)[id].UpdateHighestReceived(byteOffset)]
      ensures r == ConnectionViolation ==>
              id in old(contributes) && controllers == Received(old(controllers), old(contributes), id, byteOffset)
      ensures r == UnknownStream ==> unchanged(this)
    {
      hide Logged, AllValid, SumReceived, SumRead, SumSent;
      if id !in controllers {
        return UnknownStream;
      }
      Known(controllers, contributes, log, slots, id);
      var c' := controllers[id].UpdateHighestReceived(byteOffset);
      var increment := controllers[id].Increment(byteOffset);
      if c'.Violated() {
        controllers := controllers[id := c'];
        return StreamViolation;
      }
      Known(controllers, contributes, log, slots, 0);
      var connection := controllers[0];
      if contributes[id] {
        connection := connection.(highestReceived := connection.highestReceived + increment);
      }
      if contributes[id] && connection.Violated() {
        controllers := controllers[id := c'][0 := connection];
        return ConnectionViolation;
      }
      Change(id, c', connection);
      return Ok;
    }

    /** Stream `id` and the connection change; nothing is sent. */
    method Change(id: nat, c': Controller, connection: Controller)
      requires Valid() && id in controllers && id in contributes && id != 0 && c'.Valid()
      requires c'.maxIncrement == Cap(id) && connection.maxIncrement == Cap(0)
      requires Follows(controllers[0], connection, controllers[id], c', contributes[id])
      requires connection.highestReceived <= connection.receiveFlowControlWindow
      requires connection.receiveFlowControlWindow <= connection.bytesRead + connection.increment &&
               connection.increment <= connection.maxIncrement
      requires c'.bytesSent == controllers[id].bytesSent && connection.bytesSent == controllers[0].bytesSent
      modifies this`controllers, this`log
      ensures Valid() && controllers == old(controllers)[id := c'][0 := connection]
      ensures RemovedStay(old(log), log, slots)
    {
      hide Logged, AllValid, SumReceived, SumRead, SumSent;
      KeepBooks(controllers, id, c', connection);
      controllers := controllers[id := c'][0 := connection];
    }

    /** Brings the record up to date after stream `id` and the connection changed. */
    ghost method KeepBooks(cs: Controllers, id: nat, c': Controller, connection: Controller)
      requires id in cs && id in contributes && id != 0 && 0 in cs && 0 in contributes && !contributes[0]
      requires Logged(cs, contributes, log, slots) && AllValid(cs, log) && Sums(cs[0], log)
      requires c'.maxIncrement == Cap(id) && connection.maxIncrement == Cap(0)
      requires c'.Valid() && (connection.bytesRead <= connection.highestReceived ==> connection.Valid())
      requires Follows(cs[0], connection, cs[id], c', contributes[id])
      modifies this`log
      ensures Logged(cs[id := c'][0 := connection], contributes, log, slots)
      ensures AllValid(cs[id := c'][0 := connection], log) && Sums(connection, log)
      ensures RemovedStay(old(log), log, slots)
    {
      ChangeLogged(cs, contributes, log, slots, id, c');
      ChangeSums(cs[0], log, slots, id, cs[id], c', connection);
      log := LogAfter(log, slots, id, c');
      ReadAtMostReceived(log);
      ChangeLogged(cs[id := c'], contributes, log, slots, 0, connection);
    }

    /** The reader of a stream took `n` bytes. The counts stay in order if that much was received. */
    method AddBytesRead(id: nat, n: nat) returns (ok: bool)
      requires Valid() && id != 0
      modifies this`controllers, this`log
      ensures ok <==> id in old(controllers)
      ensures ok ==> id in old(contributes) && controllers == Read(old(controllers), old(contributes), id, n)
      ensures !ok ==> Valid() && controllers == old(controllers)
      ensures ok && controllers[id].bytesRead <= controllers[id].highestReceived ==> Valid()
      ensures RemovedStay(old(log), log, slots)
    {
      hide Logged, AllValid, SumReceived, SumRead, SumSent;
      if id !in controllers {
        return false;
      }
      Known(controllers, contributes, log, slots, id);
      Known(controllers, contributes, log, slots, 0);
      var c' := controllers[id].(bytesRead := controllers[id].bytesRead + n);
      var connection := controllers[0];
      if contributes[id] {
        connection := connection.(bytesRead := connection.bytesRead + n);
      }
      if c'.bytesRead <= c'.highestReceived {
        KeepBooks(controllers, id, c', connection);
      }
      controllers := controllers[id := c'][0 := connection];
      return true;
    }

    /** Controller `id` changes, but not what it counts. */
    method ChangeWindow(id: nat, c': Controller)
      requires Valid() && id in controllers && c'.Valid() && SameCounts(controllers[id], c') &&
               c'.maxIncrement == Cap(id)
      modifies this`controllers, this`log
      ensures Valid() && controllers == old(controllers)[id := c'] && RemovedStay(old(log), log, slots)
    {
      hide Logged, AllValid, SumReceived, SumRead, SumSent;
      Known(controllers, contributes, log, slots, id);
      Known(controllers, contributes, log, slots, 0);
      if id == 0 {
        NotCounted(controllers, contributes, log, slots);
        ChangeLogged(controllers, contributes, log, slots, 0, c');
        controllers := controllers[0 := c'];
      } else {
        var cs := controllers;
        Change(id, c', controllers[0]);
        assert controllers == cs[id := c'];
      }
    }

    /** Announces a window for every controller that needs an update, and changes no other. */
    method GetWindowUpdates(quick: set<nat>) returns (res: seq<WindowUpdate>)
      requires Valid()
      modifies this`controllers, this`log
      ensures Valid() && Progress(old(controllers), controllers, {}, quick)
      ensures AnnouncedBut(old(controllers), quick, {}, res) && RemovedStay(old(log), log, slots)
      ensures forall id :: id in controllers ==> Ahead(controllers[id])
    {
      hide Logged, AllValid, Sums, AnnouncedBut, Controller.NeedsUpdate, Controller.Updated;
      res := [];
      var ids := controllers.Keys;
      assert AnnouncedBut(controllers, quick, ids, res) by { AnnounceNothing(controllers, quick); }
      while ids != {}
        invariant Valid() && Progress(old(controllers), controllers, ids, quick)
        invariant AnnouncedBut(old(controllers), quick, ids, res) && RemovedStay(old(log), log, slots)
        decreases |ids|
      {
        var id :| id in ids;
        AnnounceNext(old(controllers), quick, ids, res, id);
        ProgressNext(old(controllers), controllers, quick, ids, id);
        ids := ids - {id};
        ghost var before := log;
        var update := MaybeTriggerWindowUpdate(id, id in quick);
        RemovedStayTwice(old(log), before, log, slots);
        if update.Some? {
          res := res + [WindowUpdate(id, update.value)];
        }
      }
      forall id | id in controllers
        ensures Ahead(controllers[id])
      {
        UpdatesSuffice(old(controllers), controllers, quick, old(log), id);
      }
    }

    method MaybeTriggerWindowUpdate(id: nat, quick: bool) returns (offset: Option<nat>)
      requires Valid() && id in controllers
      modifies this`controllers, this`log
      ensures Valid() && controllers == old(controllers)[id := AfterUpdates(old(controllers)[id], quick)]
      ensures RemovedStay(old(log), log, slots)
      ensures offset == if old(controllers)[id].NeedsUpdate()
              then Some(old(controllers)[id].Updated(quick).receiveFlowControlWindow) else None
    {
      hide Logged, AllValid, Sums;
      var c := controllers[id];
      Known(controllers, contributes, log, slots, id);
      if c.receiveFlowControlWindow - c.bytesRead < c.increment / 2 {
        c.UpdateGrows(quick);
        ChangeWindow(id, c.Updated(quick));
        return Some(controllers[id].receiveFlowControlWindow);
      }
      assert controllers == controllers[id := c];
      return None;
    }

    method UpdateWindow(id: nat, offset: nat) returns (updated: Option<bool>)
      requires Valid()
      modifies this`controllers, this`log
      ensures Valid() && (updated.None? <==> id !in old(controllers))
      ensures updated.Some? ==>
                && (updated.value <==> offset > old(controllers)[id].sendFlowControlWindow)
                && controllers == old(controllers)[id := old(controllers)[id].UpdateSendWindow(offset)]
      ensures updated.None? ==> controllers == old(controllers)
      ensures RemovedStay(old(log), log, slots)
    {
      hide Logged, AllValid, Sums;
      if id !in controllers {
        return None;
      }
      Known(controllers, contributes, log, slots, id);
      var c := controllers[id];
      ChangeWindow(id, c.UpdateSendWindow(offset));
      return Some(offset > c.sendFlowControlWindow);
    }

    /** `n` more bytes may be sent exactly if the stream's window and, if the stream counts, the connection's
        window allow it. */
    method SendWindowSize(id: nat, negotiated: Negotiated) returns (size: Option<nat>)
      requires Valid() && id != 0
      ensures size.None? <==> id !in controllers
      ensures size.Some? ==> id in contributes && size.value == Available(controllers, id, contributes[id], negotiated)
      ensures size.Some? ==> forall n: nat :: n <= size.value <==>
              MaySend(controllers, id, contributes[id], negotiated, n)
    {
      if id !in controllers {
        return None;
      }
      var res := controllers[id].SendWindowSize(negotiated.stream);
      if contributes[id] && controllers[0].SendWindowSize(negotiated.connection) < res {
        res := controllers[0].SendWindowSize(negotiated.connection);
      }
      return Some(res);
    }

    method RemainingConnectionWindowSize(negotiated: Negotiated) returns (size: nat)
      requires Valid()
      ensures size == controllers[0].SendWindowSize(negotiated.connection)
    {
      return controllers[0].SendWindowSize(negotiated.connection);
    }

    /** New data is sent. */
    method AddBytesSent(id: nat, n: nat) returns (ok: bool)
      requires Valid() && id != 0
      modifies this`controllers, this`log
      ensures Valid() && (ok <==> id in old(controllers))
      ensures ok ==> id in old(contributes) && controllers == SentOn(old(controllers), old(contributes), id, n)
      ensures !ok ==> controllers == old(controllers)
      ensures RemovedStay(old(log), log, slots)
    {
      hide Logged, AllValid, SumReceived, SumRead, SumSent;
      if id !in controllers {
        return false;
      }
      Known(controllers, contributes, log, slots, id);
      Known(controllers, contributes, log, slots, 0);
      var c := controllers[id];
      var c' := c.(bytesSent := c.bytesSent + n);
      var connection := controllers[0];
      if contributes[id] {
        connection := connection.(bytesSent := connection.bytesSent + n);
      }
      KeepBooks(controllers, id, c', connection);
      controllers := controllers[id := c'][0 := connection];
      return true;
    }
  }
}
