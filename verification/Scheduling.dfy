/** The framer and the scheduler together (stream_framer.go, streams_map.go): the framer visits streams until the packet
    is full, and where it stops makes no difference to what is in the packet. */
module Scheduling {
  import opened Frames
  import opened Ledger
  import opened StreamFramers
  import opened StreamsMaps
  import FC = FlowControl

  // ---------------------------------------------------------------------------------------------
  // A full packet stays as it is
  // ---------------------------------------------------------------------------------------------

  lemma StoppedVisit(f: Flow, contributes: map<nat, bool>, id: nat, maxBytes: nat, negotiated: FC.Negotiated)
    requires id in f.st.streams && TakenFromWritten(f.st.streams) && f.st.stopped
    ensures FlowVisit(f, contributes, id, maxBytes, negotiated) == f
  {
  }

  lemma {:induction false} AllInPrefix(streams: Streams, ids: seq<nat>, k: nat)
    requires AllIn(streams, ids) && k <= |ids|
    ensures AllIn(streams, ids[..k])
  {
    if k < |ids| {
      AllInPrefix(streams, ids[..|ids| - 1], k);
      assert ids[..|ids| - 1][..k] == ids[..k];
    } else {
      assert ids[..k] == ids;
    }
  }

  /** Visits behind the one that asked to stop take nothing. */
  lemma {:induction false} StoppedAll(streams: Streams, cs: FC.Controllers, contributes: map<nat, bool>, ids: seq<nat>,
                                      k: nat, maxBytes: nat, negotiated: FC.Negotiated)
    requires AllIn(streams, ids) && TakenFromWritten(streams) && k <= |ids| && AllIn(streams, ids[..k])
    requires k == |ids| || FlowAll(streams, cs, contributes, ids[..k], maxBytes, negotiated).st.stopped
    ensures FlowAll(streams, cs, contributes, ids, maxBytes, negotiated) ==
            FlowAll(streams, cs, contributes, ids[..k], maxBytes, negotiated)
  {
    hide FlowVisit;
    if k == |ids| {
      assert ids[..k] == ids;
    } else {
      var init := ids[..|ids| - 1];
      assert init[..k] == ids[..k];
      StoppedAll(streams, cs, contributes, init, k, maxBytes, negotiated);
      StoppedVisit(FlowAll(streams, cs, contributes, init, maxBytes, negotiated), contributes, ids[|ids| - 1], maxBytes,
                   negotiated);
    }
  }

  // ---------------------------------------------------------------------------------------------
  // The scheduler's visits
  // ---------------------------------------------------------------------------------------------

  /** All open streams in the order of the scheduler, starting at place `start`. */
  function InTurn(streams: Entries, open: seq<StreamID>, start: nat): seq<StreamID>
    requires start <= |open|
  {
    (if Live(streams, 1) then [1] else []) + (if Live(streams, 3) then [3] else []) + Scan(open, start, 0, |open|)
  }

  lemma {:induction false} ScanPrefix(open: seq<StreamID>, start: nat, i: nat, budget: nat, more: nat)
    requires start <= |open| && i <= |open| && (budget <= more || |open| - i <= more)
    ensures Scan(open, start, i, budget) <= Scan(open, start, i, more)
    decreases |open| - i
  {
    hide Place, Priority;
    if i < |open| && budget > 0 {
      if Priority(Place(open, start, i)) {
        ScanPrefix(open, start, i + 1, budget, more);
      } else {
        ScanPrefix(open, start, i + 1, budget - 1, more - 1);
      }
    }
  }

  lemma IteratedIsPrefix(streams: Entries, open: seq<StreamID>, start: nat, cont1: bool, cont3: bool, budget: nat,
                         visited: seq<StreamID>)
    requires start <= |open| && Iterated(streams, open, start, cont1, cont3, budget, visited)
    ensures visited <= InTurn(streams, open, start)
  {
    ScanPrefix(open, start, 0, budget, |open|);
  }

  /** However early the framer asks the scheduler to stop, the packet and the controllers are as if every open stream
      had been visited in turn, as long as it only asks when the packet is full. */
  lemma StoppingIsFree(entries: Entries, open: seq<StreamID>, start: nat, cont1: bool, cont3: bool, budget: nat,
                       visited: seq<StreamID>, streams: Streams, cs: FC.Controllers, contributes: map<nat, bool>,
                       maxBytes: nat, negotiated: FC.Negotiated)
    requires start <= |open| && Iterated(entries, open, start, cont1, cont3, budget, visited)
    requires AllIn(streams, InTurn(entries, open, start)) && TakenFromWritten(streams)
    ensures AllIn(streams, visited)
    ensures visited == InTurn(entries, open, start) ||
            FlowAll(streams, cs, contributes, visited, maxBytes, negotiated).st.stopped ==>
            FlowAll(streams, cs, contributes, visited, maxBytes, negotiated) ==
            FlowAll(streams, cs, contributes, InTurn(entries, open, start), maxBytes, negotiated)
  {
    hide FlowAll, Iterated;
    IteratedIsPrefix(entries, open, start, cont1, cont3, budget, visited);
    var all := InTurn(entries, open, start);
    assert all[..|visited|] == visited;
    AllInPrefix(streams, all, |visited|);
    if visited == all || FlowAll(streams, cs, contributes, visited, maxBytes, negotiated).st.stopped {
      StoppedAll(streams, cs, contributes, all, |visited|, maxBytes, negotiated);
    }
  }
}
