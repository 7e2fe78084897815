/** The streams of a connection (streams_map.go): which are open, which may be opened, and in which order they
    are visited. */
module StreamsMaps {

  const MAX_NEW_STREAM_ID_DELTA := 400
  const TWO32 := 0x1_0000_0000

  /** Stream IDs are 32 bits wide. */
  type StreamID = id: nat | id < TWO32

  /** `id + MaxNewStreamIDDelta`, which wraps around. */
  function Horizon(id: StreamID): nat {
    if id + MAX_NEW_STREAM_ID_DELTA < TWO32 then id + MAX_NEW_STREAM_ID_DELTA else id + MAX_NEW_STREAM_ID_DELTA - TWO32
  }

  predicate FromClient(id: StreamID) {
    id % 2 == 1
  }

  // ---------------------------------------------------------------------------------------------
  // Counting open streams
  // ---------------------------------------------------------------------------------------------

  /** How many of the streams were opened by the client (or by the server). */
  function Count(s: seq<StreamID>, fromClient: bool): nat {
    if s == [] then 0 else Count(s[..|s| - 1], fromClient) + if FromClient(s[|s| - 1]) == fromClient then 1 else 0
  }

  lemma CountSnoc(s: seq<StreamID>, id: StreamID, fromClient: bool)
    ensures Count(s + [id], fromClient) == Count(s, fromClient) + if FromClient(id) == fromClient then 1 else 0
  {
    assert (s + [id])[..|s|] == s;
  }

  lemma {:induction false} CountWithout(s: seq<StreamID>, i: nat, fromClient: bool)
    requires i < |s|
    ensures Count(s[..i] + s[i + 1..], fromClient) == Count(s, fromClient) - if FromClient(s[i]) == fromClient then 1
            else 0
  {
    if i == |s| - 1 {
      assert s[..i] + s[i + 1..] == s[..i];
    } else {
      var init := s[..|s| - 1];
      CountWithout(init, i, fromClient);
      assert s[..i] + s[i + 1..] == init[..i] + init[i + 1..] + [s[|s| - 1]];
      CountSnoc(init[..i] + init[i + 1..], s[|s| - 1], fromClient);
    }
  }

  ghost predicate NoDuplicates(s: seq<StreamID>) {
    forall i, j :: 0 <= i < j < |s| ==> s[i] != s[j]
  }

  lemma WithoutMembers(s: seq<StreamID>, i: nat)
    requires NoDuplicates(s) && i < |s|
    ensures NoDuplicates(s[..i] + s[i + 1..])
    ensures forall x :: x in s[..i] + s[i + 1..] <==> x in s && x != s[i]
  {
    var t := s[..i] + s[i + 1..];
    assert forall k :: 0 <= k < |t| ==> t[k] == s[if k < i then k else k + 1];
    forall x | x in s && x != s[i]
      ensures x in t
    {
      var k :| 0 <= k < |s| && s[k] == x;
      assert t[if k < i then k else k - 1] == x;
    }
  }

  /** `t` is `s` without one occurrence of `id`. */
  ghost predicate TakenOut(s: seq<StreamID>, id: StreamID, t: seq<StreamID>) {
    exists i :: 0 <= i < |s| && s[i] == id && t == s[..i] + s[i + 1..]
  }

  lemma TakenOutAt(s: seq<StreamID>, i: nat)
    requires i < |s|
    ensures TakenOut(s, s[i], s[..i] + s[i + 1..])
  {
  }

  // ---------------------------------------------------------------------------------------------
  // Visiting streams in turn
  // ---------------------------------------------------------------------------------------------

  predicate Priority(id: StreamID) {
    id == 1 || id == 3
  }

  /** The stream `i` places behind place `start`, going round. */
  function Place(open: seq<StreamID>, start: nat, i: nat): StreamID
    requires start <= |open| && i < |open|
  {
    if start + i < |open| then open[start + i] else open[start + i - |open|]
  }

  /** The open streams in the order in which they come up next. */
  function Turns(open: seq<StreamID>, start: nat): seq<StreamID>
    requires start <= |open|
  {
    open[start..] + open[..start]
  }

  /** When the i-th stream is taken out, the others come up in the same order as before. */
  lemma TurnsKept(open: seq<StreamID>, start: nat, i: nat)
    requires start <= |open| && i < |open|
    ensures var start' := if i < start then start - 1 else start;
            TakenOut(Turns(open, start), open[i], Turns(open[..i] + open[i + 1..], start'))
  {
    var open', start' := open[..i] + open[i + 1..], if i < start then start - 1 else start;
    var t, k := Turns(open, start), if i < start then |open| - start + i else i - start;
    assert t[k] == open[i];
    assert Turns(open', start') == t[..k] + t[k + 1..];
  }

  /** The streams visited after the prioritized ones, from the i-th place on: the visit that uses up `budget` is
      the one after which the visitor asks to stop. */
  function Scan(open: seq<StreamID>, start: nat, i: nat, budget: nat): seq<StreamID>
    requires start <= |open|
    decreases |open| - i
  {
    if i >= |open| || budget == 0 then []
    else if Priority(Place(open, start, i)) then Scan(open, start, i + 1, budget)
    else [Place(open, start, i)] + Scan(open, start, i + 1, budget - 1)
  }

  /** The place where the next call starts: prioritized streams that were passed over do not count. */
  function NextStart(open: seq<StreamID>, start: nat, visited: nat): (r: nat)
    requires start <= |open| && visited <= |open|
    ensures r <= |open|
  {
    if visited == 0 || start + visited < |open| then start + visited
    else if start + visited < 2 * |open| then start + visited - |open|
    else start + visited - 2 * |open|
  }

  lemma {:induction false} ScanLength(open: seq<StreamID>, start: nat, i: nat, budget: nat)
    requires start <= |open| && i <= |open|
    ensures |Scan(open, start, i, budget)| <= |open| - i
    decreases |open| - i
  {
    if i < |open| && budget > 0 {
      if Priority(Place(open, start, i)) {
        ScanLength(open, start, i + 1, budget);
      } else {
        ScanLength(open, start, i + 1, budget - 1);
      }
    }
  }

  /** A stream at the j-th place that is not visited: the budget was used up before. */
  lemma {:induction false} NotYetVisited(open: seq<StreamID>, start: nat, i: nat, j: nat, budget: nat)
    requires start <= |open| && i <= j < |open| && !Priority(Place(open, start, j))
    requires Place(open, start, j) !in Scan(open, start, i, budget)
    ensures |Scan(open, start, i, budget)| == budget <= j - i
    decreases |open| - i
  {
    if budget > 0 {
      if Priority(Place(open, start, i)) {
        NotYetVisited(open, start, i + 1, j, budget);
      } else if i < j {
        NotYetVisited(open, start, i + 1, j, budget - 1);
      }
    }
  }

  /** Stream `id` is visited in one of the calls. */
  predicate VisitedWithin(open: seq<StreamID>, start: nat, budgets: seq<nat>, id: StreamID)
    requires start <= |open|
    decreases |budgets|
  {
    budgets != [] &&
    var visited := Scan(open, start, 0, budgets[0]);
    ScanLength(open, start, 0, budgets[0]);
    id in visited || VisitedWithin(open, NextStart(open, start, |visited|), budgets[1..], id)
  }

  lemma {:induction false} VisitedFromPlace(open: seq<StreamID>, start: nat, budgets: seq<nat>, j: nat)
    requires start <= |open| && j < |open| && !Priority(Place(open, start, j))
    requires |budgets| > j && forall k :: 0 <= k < |budgets| ==> budgets[k] > 0
    ensures VisitedWithin(open, start, budgets, Place(open, start, j))
    decreases j
  {
    var id, visited := Place(open, start, j), Scan(open, start, 0, budgets[0]);
    if id !in visited {
      NotYetVisited(open, start, 0, j, budgets[0]);
      var m := |visited|;
      var start' := NextStart(open, start, m);
      assert Place(open, start', j - m) == id;
      VisitedFromPlace(open, start', budgets[1..], j - m);
    }
  }

  /** No stream starves: with no streams opened or closed in between, every stream but the prioritized ones is
      visited in one of as many consecutive calls as there are open streams, however early each call is stopped. */
  lemma StarvationFree(open: seq<StreamID>, start: nat, budgets: seq<nat>, id: StreamID)
    requires start <= |open| && id in open && !Priority(id)
    requires |budgets| >= |open| && forall k :: 0 <= k < |budgets| ==> budgets[k] > 0
    ensures VisitedWithin(open, start, budgets, id)
  {
    var t :| 0 <= t < |open| && open[t] == id;
    var j := if t >= start then t - start else t + |open| - start;
    assert Place(open, start, j) == id;
    VisitedFromPlace(open, start, budgets, j);
  }

  lemma ScanStep(open: seq<StreamID>, start: nat, i: nat, budget: nat)
    requires start <= |open| && i <= |open|
    ensures i < |open| && budget > 0 ==>
            var id := Place(open, start, i);
            && id == open[(i + start) % |open|]
            && Scan(open, start, i, budget) ==
               if Priority(id) then Scan(open, start, i + 1, budget) else [id] + Scan(open, start, i + 1, budget - 1)
    ensures i == |open| || budget == 0 ==> Scan(open, start, i, budget) == []
  {
    if i < |open| {
      WrapIndex(i + start, |open|);
    }
  }

  lemma WrapIndex(x: nat, n: nat)
    requires 0 < n && x <= 2 * n
    ensures x % n == if x < n then x else if x < 2 * n then x - n else 0
  {
  }

  lemma NextStartNone(open: seq<StreamID>, start: nat)
    requires start <= |open|
    ensures NextStart(open, start, 0) == start
  {
  }

  lemma NextStartStep(open: seq<StreamID>, start: nat, visited: nat)
    requires start <= |open| && visited < |open|
    ensures (NextStart(open, start, visited) + 1) % |open| == NextStart(open, start, visited + 1)
  {
    WrapIndex(NextStart(open, start, visited) + 1, |open|);
  }

  // ---------------------------------------------------------------------------------------------
  // The map
  // ---------------------------------------------------------------------------------------------

  datatype StreamResult = Existing | AlreadyClosed | Opened | TooManyOpenStreams | InvalidStreamID | NotCreated

  /** What is kept of the streams: `true` for a live stream, `false` for one that was closed. */
  type Entries = map<StreamID, bool>

  predicate Live(streams: Entries, id: StreamID) {
    id in streams && streams[id]
  }

  /** Closed streams that are no longer needed to refuse their IDs. */
  predicate Collectable(streams: Entries, highest: StreamID, id: StreamID) {
    id in streams && !streams[id] && (!FromClient(id) || Horizon(id) <= highest)
  }

  /** The list of open streams has no duplicates and names exactly the live ones. */
  ghost predicate Lists(open: seq<StreamID>, streams: Entries) {
    NoDuplicates(open) && forall id :: id in open <==> Live(streams, id)
  }

  /** Closed streams of the client are remembered, or far enough behind the highest one. */
  ghost predicate Remembers(closed: set<StreamID>, streams: Entries, highest: StreamID) {
    && (forall id :: id in closed ==> FromClient(id) && !Live(streams, id))
    && (forall id :: id in closed && id !in streams ==> Horizon(id) <= highest)
    && (forall id :: id in streams && FromClient(id) && !streams[id] ==> id in closed)
  }

  /** `streams'` is what collecting closed streams leaves. */
  ghost predicate Collected(streams: Entries, highest: StreamID, streams': Entries) {
    && (forall id :: id in streams' <==> id in streams && !Collectable(streams, highest, id))
    && (forall id :: id in streams' ==> streams'[id] == streams[id])
  }

  lemma ListsRemoved(open: seq<StreamID>, streams: Entries, i: nat)
    requires Lists(open, streams) && i < |open|
    ensures Lists(open[..i] + open[i + 1..], streams[open[i] := false])
  {
    WithoutMembers(open, i);
    var streams' := streams[open[i] := false];
    assert forall id :: Live(streams', id) <==> Live(streams, id) && id != open[i];
  }

  lemma LiveIsOpen(open: seq<StreamID>, streams: Entries, id: StreamID)
    requires Lists(open, streams) && Live(streams, id)
    ensures id in open
  {
  }

  lemma ListsPut(open: seq<StreamID>, streams: Entries, id: StreamID)
    requires Lists(open, streams) && id !in streams
    ensures Lists(open + [id], streams[id := true]) && id !in open
  {
    var streams' := streams[id := true];
    assert forall x :: Live(streams', x) <==> Live(streams, x) || x == id;
    assert !Live(streams, id);
  }

  lemma ListsCollected(open: seq<StreamID>, streams: Entries, highest: StreamID, streams': Entries)
    requires Lists(open, streams) && Collected(streams, highest, streams')
    ensures Lists(open, streams')
  {
    assert forall id :: Live(streams', id) <==> Live(streams, id);
  }

  lemma RemembersCollected(closed: set<StreamID>, streams: Entries, highest: StreamID, streams': Entries)
    requires Remembers(closed, streams, highest) && Collected(streams, highest, streams')
    ensures Remembers(closed, streams', highest)
  {
  }

  lemma RemembersRemoved(closed: set<StreamID>, streams: Entries, highest: StreamID, id: StreamID)
    requires Remembers(closed, streams, highest)
    ensures Remembers(if FromClient(id) then closed + {id} else closed, streams[id := false], highest)
  {
  }

  lemma RemembersPut(closed: set<StreamID>, streams: Entries, highest: StreamID, id: StreamID, highest': StreamID)
    requires Remembers(closed, streams, highest) && id !in streams && highest <= highest'
    ensures Remembers(closed - {id}, streams[id := true], highest')
  {
  }

  /** A prioritized stream that was closed and is still remembered keeps the scheduler from visiting anything. */
  predicate Blocks(streams: Entries, id: StreamID) {
    id in streams && !streams[id]
  }

  /** Stream `id` was opened: every 400th time, closed streams are collected first. */
  ghost predicate OpenedIn(streams: Entries, count: nat, highest: StreamID, id: StreamID, streams': Entries,
                           count': nat) {
    if (count + 1) % MAX_NEW_STREAM_ID_DELTA == 0
    then count' == 0 && exists kept :: Collected(streams, highest, kept) && streams' == kept[id := true]
    else count' == count + 1 && streams' == streams[id := true]
  }

  /** What is visited when no closed stream is in the way: streams 1 and 3 first, then the others in turn, up to the
      visit at which the visitor asks to stop. */
  ghost predicate Iterated(streams: Entries, open: seq<StreamID>, start: nat, cont1: bool, cont3: bool, budget: nat,
                           visited: seq<StreamID>)
    requires start <= |open|
  {
    var one, three := if Live(streams, 1) then [1] else [], if Live(streams, 3) then [3] else [];
    visited == if one != [] && !cont1 then one
               else if three != [] && !cont3 then one + three
               else one + three + Scan(open, start, 0, budget)
  }

  class StreamsMap {
    var streams: Entries
    var openStreams: seq<StreamID>
    var highestStreamOpenedByClient: StreamID
    var streamsOpenedAfterLastGarbageCollect: nat
    var numOutgoingStreams: nat
    var numIncomingStreams: nat
    var roundRobinIndex: nat
    ghost var closed: set<StreamID>  // streams of the client that were closed and not opened again

    ghost predicate Valid()
      reads this
    {
      && Lists(openStreams, streams)
      && numIncomingStreams == Count(openStreams, true) && numOutgoingStreams == Count(openStreams, false)
      && roundRobinIndex <= |openStreams|
      && Remembers(closed, streams, highestStreamOpenedByClient)
    }

    constructor ()
      ensures Valid() && streams == map[] && openStreams == [] && closed == {}
      ensures highestStreamOpenedByClient == 0 && streamsOpenedAfterLastGarbageCollect == 0
    {
      streams, openStreams, highestStreamOpenedByClient, streamsOpenedAfterLastGarbageCollect := map[], [], 0, 0;
      numOutgoingStreams, numIncomingStreams, roundRobinIndex, closed := 0, 0, 0, {};
    }

    /** A closed stream of the client is opened again exactly when it was forgotten and is MaxNewStreamIDDelta
        behind the highest one, the distance that collecting and opening both let through. */
    method GetOrOpenStream(id: StreamID, maxIncomingStreams: nat, created: bool) returns (r: StreamResult)
      requires Valid()
      modifies this
      ensures Valid()
      ensures r == Existing <==> old(Live(streams, id))
      ensures r == AlreadyClosed <==> id in old(streams) && !old(streams)[id]
      ensures r == Opened ==> openStreams == old(openStreams) + [id] && Live(streams, id) && FromClient(id)
      ensures r == TooManyOpenStreams <==> id !in old(streams) && old(numIncomingStreams) >= maxIncomingStreams
      ensures r == InvalidStreamID <==>
              && id !in old(streams) && old(numIncomingStreams) < maxIncomingStreams
              && (!FromClient(id) || Horizon(id) < old(highestStreamOpenedByClient))
      ensures r != Opened ==> unchanged(this)
      ensures roundRobinIndex == old(roundRobinIndex)
      ensures r == Opened <==>
              && id !in old(streams) && FromClient(id) && created && old(numIncomingStreams) < maxIncomingStreams
              && Horizon(id) >= old(highestStreamOpenedByClient)
      ensures id in old(closed) ==>
              (r == Opened <==>
                 && id !in old(streams) && Horizon(id) == old(highestStreamOpenedByClient)
                 && created && old(numIncomingStreams) < maxIncomingStreams)
      ensures closed == old(closed) - if r == Opened then {id} else {}
      ensures highestStreamOpenedByClient ==
              if r == Opened && id > old(highestStreamOpenedByClient) then id else old(highestStreamOpenedByClient)
      ensures r == Opened ==>
              OpenedIn(old(streams), old(streamsOpenedAfterLastGarbageCollect), highestStreamOpenedByClient, id,
                       streams, streamsOpenedAfterLastGarbageCollect)
    {
      if id in streams {
        return if streams[id] then Existing else AlreadyClosed;
      }
      if numIncomingStreams >= maxIncomingStreams {
        return TooManyOpenStreams;
      }
      if id % 2 == 0 {
        return InvalidStreamID;
      }
      if Horizon(id) < highestStreamOpenedByClient {
        return InvalidStreamID;
      }
      if !created {
        return NotCreated;
      }
      OpenIncoming(id);
      return Opened;
    }

    method OpenIncoming(id: StreamID)
      requires Valid() && id !in streams && FromClient(id)
      modifies this
      ensures Valid()
      ensures openStreams == old(openStreams) + [id] && Live(streams, id) && closed == old(closed) - {id}
      ensures roundRobinIndex == old(roundRobinIndex)
      ensures highestStreamOpenedByClient == if id > old(highestStreamOpenedByClient) then id
              else old(highestStreamOpenedByClient)
      ensures OpenedIn(old(streams), old(streamsOpenedAfterLastGarbageCollect), highestStreamOpenedByClient, id,
                       streams, streamsOpenedAfterLastGarbageCollect)
    {
      hide Lists, Remembers, Collected, NoDuplicates, Count;
      numIncomingStreams := numIncomingStreams + 1;
      RemembersHigher(closed, streams, highestStreamOpenedByClient, id);
      if id > highestStreamOpenedByClient {
        highestStreamOpenedByClient := id;
      }
      MaybeCollect(id);
      ListsPut(openStreams, streams, id);
      RemembersPut(closed, streams, highestStreamOpenedByClient, id, highestStreamOpenedByClient);
      closed := closed - {id};
      PutStream(id);
    }

    /** Every 400th stream that is opened triggers a collection. */
    method MaybeCollect(ghost id: StreamID)
      requires Lists(openStreams, streams) && Remembers(closed, streams, highestStreamOpenedByClient) && id !in streams
      modifies this`streams, this`streamsOpenedAfterLastGarbageCollect
      ensures Lists(openStreams, streams) && Remembers(closed, streams, highestStreamOpenedByClient) && id !in streams
      ensures var n := old(streamsOpenedAfterLastGarbageCollect) + 1;
              if n % MAX_NEW_STREAM_ID_DELTA == 0
              then Collected(old(streams), highestStreamOpenedByClient, streams) &&
                streamsOpenedAfterLastGarbageCollect == 0
              else streams == old(streams) && streamsOpenedAfterLastGarbageCollect == n
    {
      hide Lists, Remembers, Collected;
      streamsOpenedAfterLastGarbageCollect := streamsOpenedAfterLastGarbageCollect + 1;
      if streamsOpenedAfterLastGarbageCollect % MAX_NEW_STREAM_ID_DELTA == 0 {
        GarbageCollectClosedStreams();
        ListsCollected(openStreams, old(streams), highestStreamOpenedByClient, streams);
        RemembersCollected(closed, old(streams), highestStreamOpenedByClient, streams);
        CollectedOnly(old(streams), highestStreamOpenedByClient, streams, id);
      }
    }

    method OpenStream(id: StreamID, maxOutgoingStreams: nat, created: bool) returns (r: StreamResult)
      requires Valid()
      modifies this
      ensures Valid()
      ensures r == Opened <==>
              !FromClient(id) && id !in old(streams) && old(numOutgoingStreams) < maxOutgoingStreams && created
      ensures r == InvalidStreamID <==> FromClient(id) || id in old(streams)
      ensures r == TooManyOpenStreams <==>
              !FromClient(id) && id !in old(streams) && old(numOutgoingStreams) >= maxOutgoingStreams
      ensures r == Opened ==> openStreams == old(openStreams) + [id] && streams == old(streams)[id := true]
      ensures r != Opened ==> unchanged(this)
      ensures roundRobinIndex == old(roundRobinIndex)
      ensures streamsOpenedAfterLastGarbageCollect == old(streamsOpenedAfterLastGarbageCollect)
      ensures closed == old(closed) && highestStreamOpenedByClient == old(highestStreamOpenedByClient)
    {
      if id % 2 == 1 {
        return InvalidStreamID;
      }
      if id in streams {
        return InvalidStreamID;
      }
      if numOutgoingStreams >= maxOutgoingStreams {
        return TooManyOpenStreams;
      }
      if !created {
        return NotCreated;
      }
      numOutgoingStreams := numOutgoingStreams + 1;
      ListsPut(openStreams, streams, id);
      RemembersPut(closed, streams, highestStreamOpenedByClient, id, highestStreamOpenedByClient);
      assert closed - {id} == closed;
      PutStream(id);
      return Opened;
    }

    method PutStream(id: StreamID)
      modifies this`streams, this`openStreams
      ensures streams == old(streams)[id := true] && openStreams == old(openStreams) + [id]
      ensures Count(openStreams, true) == Count(old(openStreams), true) + if FromClient(id) then 1 else 0
      ensures Count(openStreams, false) == Count(old(openStreams), false) + if FromClient(id) then 0 else 1
    {
      streams := streams[id := true];
      CountSnoc(openStreams, id, true);
      CountSnoc(openStreams, id, false);
      openStreams := openStreams + [id];
    }

    method IndexOf(id: StreamID) returns (i: nat)
      requires id in openStreams
      ensures i < |openStreams| && openStreams[i] == id
    {
      i := 0;
      while openStreams[i] != id
        invariant 0 <= i < |openStreams| && id in openStreams[i..]
        decreases |openStreams| - i
      {
        i := i + 1;
      }
    }

    method RemoveStream(id: StreamID) returns (ok: bool)
      requires Valid()
      modifies this
      ensures Valid()
      ensures ok <==> old(Live(streams, id))
      ensures !ok ==> unchanged(this)
      ensures ok ==>
              streams == old(streams)[id := false] && highestStreamOpenedByClient == old(highestStreamOpenedByClient)
      ensures ok ==> TakenOut(old(openStreams), id, openStreams)
      ensures ok ==> TakenOut(Turns(old(openStreams), old(roundRobinIndex)), id, Turns(openStreams, roundRobinIndex))
      ensures streamsOpenedAfterLastGarbageCollect == old(streamsOpenedAfterLastGarbageCollect)
      ensures closed == old(closed) + if ok && FromClient(id) then {id} else {}
    {
      hide Lists, Remembers, NoDuplicates, Count, Turns, TakenOut;
      if !(id in streams && streams[id]) {
        return false;
      }
      LiveIsOpen(openStreams, streams, id);
      RemembersRemoved(closed, streams, highestStreamOpenedByClient, id);
      TakeFromOpen(id);
      streams := streams[id := false];
      if id % 2 == 0 {
        numOutgoingStreams := numOutgoingStreams - 1;
      } else {
        numIncomingStreams := numIncomingStreams - 1;
        closed := closed + {id};
      }
      return true;
    }

    /** Takes the stream out of the list, and adjusts the round-robin index. */
    method TakeFromOpen(id: StreamID)
      requires Lists(openStreams, streams) && id in openStreams && roundRobinIndex <= |openStreams|
      modifies this`openStreams, this`roundRobinIndex
      ensures Lists(openStreams, streams[id := false]) && roundRobinIndex <= |openStreams|
      ensures TakenOut(old(openStreams), id, openStreams)
      ensures TakenOut(Turns(old(openStreams), old(roundRobinIndex)), id, Turns(openStreams, roundRobinIndex))
      ensures Count(openStreams, true) == Count(old(openStreams), true) - if FromClient(id) then 1 else 0
      ensures Count(openStreams, false) == Count(old(openStreams), false) - if FromClient(id) then 0 else 1
    {
      hide Lists, NoDuplicates, Count, Turns, TakenOut;
      var i := IndexOf(id);
      ListsRemoved(openStreams, streams, i);
      CountWithout(openStreams, i, true);
      CountWithout(openStreams, i, false);
      TurnsKept(openStreams, roundRobinIndex, i);
      TakenOutAt(openStreams, i);
      openStreams := openStreams[..i] + openStreams[i + 1..];
      if i < roundRobinIndex {
        roundRobinIndex := roundRobinIndex - 1;
      }
    }

    /** Visits stream `id` if it is live. A closed stream that was not collected yet is an error. */
    method IterateFunc(id: StreamID, cont: bool) returns (visited: seq<StreamID>, goOn: bool, err: bool)
      ensures visited == if Live(streams, id) then [id] else []
      ensures err == (id in streams && !streams[id])
      ensures goOn == (if Live(streams, id) then cont else id !in streams)
    {
      if id !in streams {
        return [], true, false;
      }
      if !streams[id] {
        return [], false, true;
      }
      return [id], cont, false;
    }

    /** First the prioritized streams, then the others in turn. `cont1` and `cont3` are the visitor's answers for
        streams 1 and 3, and visit number `budget` to another stream is the one it stops at. */
    method RoundRobinIterate(cont1: bool, cont3: bool, budget: nat) returns (visited: seq<StreamID>, err: bool)
      requires Valid() && budget > 0
      modifies this`roundRobinIndex
      ensures Valid()
      ensures err <==> Blocks(streams, 1) || ((1 in streams ==> cont1) && Blocks(streams, 3))
      ensures err || !((1 in streams ==> cont1) && (3 in streams ==> cont3)) ==>
              && roundRobinIndex == old(roundRobinIndex)
              && visited == (if Live(streams, 1) then [1] else []) +
                            (if !Blocks(streams, 1) && (1 in streams ==> cont1) && Live(streams, 3) then [3] else [])
      ensures !err ==> Iterated(streams, openStreams, old(roundRobinIndex), cont1, cont3, budget, visited)
      ensures !err && (1 in streams ==> cont1) && (3 in streams ==> cont3) ==>
              var others := Scan(openStreams, old(roundRobinIndex), 0, budget);
              && visited == (if 1 in streams then [1] else []) + (if 3 in streams then [3] else []) + others
              && |others| <= |openStreams|
              && roundRobinIndex == NextStart(openStreams, old(roundRobinIndex), |others|)
    {
      var goOn;
      visited, goOn, err := IterateFunc(1, cont1);
      if err || !goOn {
        return;
      }
      var visited3;
      visited3, goOn, err := IterateFunc(3, cont3);
      visited := visited + visited3;
      if err || !goOn {
        return;
      }
      var others := VisitOthers(budget);
      visited := visited + others;
    }

    method VisitOthers(budget: nat) returns (visited: seq<StreamID>)
      requires Lists(openStreams, streams) && roundRobinIndex <= |openStreams| && budget > 0
      modifies this`roundRobinIndex
      ensures visited == Scan(openStreams, old(roundRobinIndex), 0, budget) && |visited| <= |openStreams|
      ensures roundRobinIndex == NextStart(openStreams, old(roundRobinIndex), |visited|)
    {
      hide Lists, NextStart, Scan, Place;
      var numStreams, startIndex := |openStreams|, roundRobinIndex;
      NextStartNone(openStreams, startIndex);
      visited := [];
      ghost var left := budget;
      var i := 0;
      while i < numStreams && |visited| < budget
        invariant 0 <= i <= numStreams && |visited| <= i && |visited| + left == budget
        invariant Scan(openStreams, startIndex, 0, budget) == visited + Scan(openStreams, startIndex, i, left)
        invariant roundRobinIndex == NextStart(openStreams, startIndex, |visited|)
        decreases numStreams - i
      {
        ScanStep(openStreams, startIndex, i, left);
        var streamID := openStreams[(i + startIndex) % numStreams];
        i := i + 1;
        if streamID == 1 || streamID == 3 {
          continue;
        }
        NextStartStep(openStreams, startIndex, |visited|);
        visited := visited + [streamID];
        left := left - 1;
        roundRobinIndex := (roundRobinIndex + 1) % numStreams;
      }
      ScanStep(openStreams, startIndex, i, left);
    }

    method GarbageCollectClosedStreams()
      modifies this`streams, this`streamsOpenedAfterLastGarbageCollect
      ensures Collected(old(streams), highestStreamOpenedByClient, streams)
      ensures streamsOpenedAfterLastGarbageCollect == 0
    {
      var ids := streams.Keys;
      while ids != {}
        invariant ids <= streams.Keys
        invariant forall id :: id in ids ==> id in old(streams)
        invariant forall id :: id in streams <==>
                  id in old(streams) && (id in ids || !Collectable(old(streams), highestStreamOpenedByClient, id))
        invariant forall id :: id in streams ==> streams[id] == old(streams)[id]
        decreases |ids|
        modifies this`streams
      {
        var id :| id in ids;
        ids := ids - {id};
        if !streams[id] && (id % 2 == 0 || Horizon(id) <= highestStreamOpenedByClient) {
          streams := streams - {id};
        }
      }
      streamsOpenedAfterLastGarbageCollect := 0;
    }
  }

  lemma RemembersHigher(closed: set<StreamID>, streams: Entries, highest: StreamID, id: StreamID)
    requires Remembers(closed, streams, highest)
    ensures Remembers(closed, streams, if id > highest then id else highest)
  {
  }

  lemma CollectedOnly(streams: Entries, highest: StreamID, streams': Entries, id: StreamID)
    requires Collected(streams, highest, streams') && id !in streams
    ensures id !in streams'
  {
  }

  /** All streams of the client below `bound` were opened and closed, and none was forgotten. */
  ghost predicate AllClosed(m: StreamsMap, bound: int)
    reads m
  {
    && m.openStreams == []
    && (forall id: StreamID :: id in m.streams <==> FromClient(id) && id < bound)
    && (forall id: StreamID :: id in m.closed <==> FromClient(id) && id < bound)
  }

  method OpenAndClose(m: StreamsMap, id: StreamID)
    requires m.Valid() && AllClosed(m, id - 1) && FromClient(id) && m.streamsOpenedAfterLastGarbageCollect < 399
    requires m.highestStreamOpenedByClient < id < 800
    modifies m
    ensures m.Valid() && AllClosed(m, id + 1) && m.highestStreamOpenedByClient == id
    ensures m.streamsOpenedAfterLastGarbageCollect == old(m.streamsOpenedAfterLastGarbageCollect) + 1
  {
    hide Collected;
    var first := m.GetOrOpenStream(id, 100, true);
    assert first == Opened;
    assert m.openStreams == [id];
    var ok := m.RemoveStream(id);
    assert forall x: StreamID :: FromClient(x) && id - 1 <= x < id + 1 ==> x == id;
  }

  /** A run in which a closed stream is opened again: streams 1, 3, ..., 799 are opened and closed in turn; the last
      of them makes the map forget streams up to 399, and 399 can be opened once more. */
  method ReopenedStream() returns (m: StreamsMap, r: StreamResult)
    ensures fresh(m) && m.Valid() && r == Opened && m.openStreams == [799, 399]
  {
    m := new StreamsMap();
    for k := 0 to 399
      invariant fresh(m) && m.Valid() && AllClosed(m, 2 * k) && m.streamsOpenedAfterLastGarbageCollect == k
      invariant m.highestStreamOpenedByClient < 2 * k + 1
    {
      OpenAndClose(m, 2 * k + 1);
    }
    assert FromClient(399) && Horizon(399) == 799;
    var last := m.GetOrOpenStream(799, 100, true);
    assert last == Opened;
    assert 399 in m.closed && 399 !in m.streams;
    r := m.GetOrOpenStream(399, 100, true);
  }
}
