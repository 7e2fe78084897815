/** ACK frames over whole runs of a sender (ackhandler/sent_packet_handler.go, ackhandler/stop_waiting_manager.go):
    which of them are taken in, how often a packet is reported missing, and which packets a STOP_WAITING frame gives
    up. */
module SenderAcks {
  import opened Frames
  import opened AckFrames
  import opened SentPackets
  import opened StreamFramers
  import opened SenderData
  import SenderNumbers

  // ---------------------------------------------------------------------------------------------
  // Which ACK frames move packets
  // ---------------------------------------------------------------------------------------------

  /** The step moves or reports packets because of an ACK frame. */
  ghost predicate Moves(m: Sender, e: Event, t: Sender) {
    e.GetAck? && (t.handler.history != m.handler.history || t.handler.queue != m.handler.queue ||
                  t.handler.acked != m.handler.acked)
  }

  ghost function MovedBy(m: Sender, e: Event, t: Sender, ns: seq<nat>): seq<nat> {
    if Moves(m, e, t) then ns + [e.withPacketNumber] else ns
  }

  /** `ns` are the numbers of the packets whose ACK frames moved something, in the order of their arrival. */
  ghost predicate HappensWith(es: seq<Event>, t: Sender, ns: seq<nat>) {
    if es == [] then t == INITIAL && ns == []
    else
      var init, last := es[..|es| - 1], es[|es| - 1];
      exists m, ms :: Leads(m, last, t) && HappensWith(init, m, ms) && ns == MovedBy(m, last, t, ms)
  }

  predicate Rising(ns: seq<nat>, max: nat) {
    ns == [] || (ns[|ns| - 1] <= max && (|ns| > 1 ==> ns[|ns| - 2] < ns[|ns| - 1]) && Rising(ns[..|ns| - 1], max))
  }

  lemma {:induction false} RisingHigher(ns: seq<nat>, max: nat, max': nat)
    requires Rising(ns, max) && max <= max'
    ensures Rising(ns, max')
  {
    if ns != [] {
      RisingHigher(ns[..|ns| - 1], max, max');
    }
  }

  lemma {:induction false} RisingPair(ns: seq<nat>, max: nat, i: nat, j: nat)
    requires Rising(ns, max) && i < j < |ns|
    ensures ns[i] < ns[j]
  {
    if j < |ns| - 1 {
      RisingPair(ns[..|ns| - 1], max, i, j);
    } else if i < j - 1 {
      RisingPair(ns[..|ns| - 1], max, i, j - 1);
    }
  }

  lemma RisingSnoc(ns: seq<nat>, max: nat, n: nat)
    requires Rising(ns, max) && max < n
    ensures Rising(ns + [n], n)
  {
    assert (ns + [n])[..|ns|] == ns;
    RisingHigher(ns, max, n);
  }

  /** Packet numbers of reports: no packet that is tracked was reported more often than `k` times. */
  ghost predicate ReportedAtMost(ps: seq<Packet>, k: nat) {
    forall i :: 0 <= i < |ps| ==> ps[i].missingReports <= k
  }

  lemma {:induction false} SortedReports(h: Handler, ack: AckFrame, k: nat, n: nat)
    requires k <= |h.history| && ReportedAtMost(h.history, n) && ReportedAtMost(h.queue, n)
    ensures var s := Sorted(h.queue, h.acked, ack, h.history, k);
            ReportedAtMost(s.history, n + 1) && ReportedAtMost(s.queue, n + 1)
  {
    if k > 0 {
      SortedReports(h, ack, k - 1, n);
      assert h.history[k - 1].missingReports <= n;
    }
  }

  /** What a run keeps about the ACK frames that were taken in. */
  ghost predicate Kept(s: Sender, ns: seq<nat>) {
    && Rising(ns, s.handler.largestReceivedWithAck)
    && ReportedAtMost(s.handler.history, |ns|) && ReportedAtMost(s.handler.queue, |ns|)
  }

  lemma AckKept(s: Sender, ack: AckFrame, n: nat, ns: seq<nat>)
    requires Kept(s, ns)
    ensures var t := s.(handler := s.handler.ReceivedAck(ack, n));
            Kept(t, MovedBy(s, GetAck(ack, n), t, ns))
  {
    var h, t := s.handler, s.(handler := s.handler.ReceivedAck(ack, n));
    if TakesIn(h, ack, n) {
      SortedReports(h, ack, |h.history|, |ns|);
      RisingSnoc(ns, h.largestReceivedWithAck, n);
      RisingHigher(ns, h.largestReceivedWithAck, n);
    } else {
      RefusedAck(h, ack, n);
      RisingHigher(ns, h.largestReceivedWithAck, t.handler.largestReceivedWithAck);
    }
  }

  lemma StepKept(s: Sender, e: Event, t: Sender, ns: seq<nat>)
    requires Kept(s, ns) && Leads(s, e, t)
    ensures Kept(t, MovedBy(s, e, t, ns))
  {
    match e
    case GetAck(ack, n) => AckKept(s, ack, n, ns);
    case Send(_, _, _, _, _, _) => DequeueAllStreams(s);
    case _ =>
  }

  lemma {:induction false} RunKept(es: seq<Event>, t: Sender, ns: seq<nat>)
    requires HappensWith(es, t, ns)
    ensures Kept(t, ns)
  {
    hide Kept, Leads, MovedBy;
    if es == [] {
      InitialKept();
    } else {
      var init, last := es[..|es| - 1], es[|es| - 1];
      var m, ms :| Leads(m, last, t) && HappensWith(init, m, ms) && ns == MovedBy(m, last, t, ms);
      RunKept(init, m, ms);
      StepKept(m, last, t, ms);
    }
  }

  lemma InitialKept()
    ensures Kept(INITIAL, [])
  {
  }

  /** In every run, ACK frames that move packets come from packets with rising numbers: one that is late or repeated
      moves nothing. */
  lemma AcksInOrder(es: seq<Event>, t: Sender, ns: seq<nat>, i: nat, j: nat)
    requires HappensWith(es, t, ns) && i < j < |ns|
    ensures ns[i] < ns[j]
  {
    hide HappensWith;
    RunKept(es, t, ns);
    RisingPair(ns, t.handler.largestReceivedWithAck, i, j);
  }

  /** In every run, a packet in flight or queued for retransmission was reported missing at most once for each packet
      whose ACK frame was taken in. */
  lemma ReportsAreCounted(es: seq<Event>, t: Sender, ns: seq<nat>, i: nat)
    requires HappensWith(es, t, ns)
    ensures i < |t.handler.history| ==> t.handler.history[i].missingReports <= |ns|
    ensures i < |t.handler.queue| ==> t.handler.queue[i].missingReports <= |ns|
  {
    hide HappensWith;
    RunKept(es, t, ns);
  }

  // ---------------------------------------------------------------------------------------------
  // What STOP_WAITING frames give up
  // ---------------------------------------------------------------------------------------------

  /** Every packet in flight below the number that is announced was reported missing. */
  ghost predicate Reported(h: Handler) {
    forall i :: 0 <= i < |h.history| && h.history[i].number < h.nextLeastUnacked ==> h.history[i].missingReports > 0
  }

  ghost predicate ReportedUpTo(ps: seq<Packet>, next: int, largest: int) {
    forall i :: 0 <= i < |ps| && (ps[i].number < next || ps[i].number <= largest) ==> ps[i].missingReports > 0
  }

  lemma {:induction false} SortedReported(h: Handler, ack: AckFrame, k: nat)
    requires k <= |h.history| && Reported(h)
    ensures ReportedUpTo(Sorted(h.queue, h.acked, ack, h.history, k).history, h.nextLeastUnacked, ack.largestAcked)
  {
    if k > 0 {
      SortedReported(h, ack, k - 1);
      var p := h.history[k - 1];
      assert p.number < h.nextLeastUnacked ==> p.missingReports > 0;
    }
  }

  lemma AckReported(h: Handler, ack: AckFrame, n: nat)
    requires Reported(h)
    ensures Reported(h.ReceivedAck(ack, n))
  {
    SortedReported(h, ack, |h.history|);
  }

  lemma SentReported(h: Handler, p: Packet)
    requires h.Valid() && Reported(h) && p.number > h.lastSent
    ensures Reported(h.Sent(p))
  {
  }

  lemma TimeoutReported(h: Handler)
    requires h.Valid() && Reported(h)
    ensures Reported(h.QueueFirst())
  {
    forall i | 0 < i < |h.history|
      ensures h.history[i].number > h.history[0].number
    {
      OrderedPair(h.history, h.lastSent, 0, i);
    }
  }

  lemma SendReported(m: Sender, e: Event)
    requires SenderNumbers.Inv(m) && Enabled(m, e) && TakenFromWritten(m.streams) && e.Send? && Reported(m.handler)
    ensures Reported(Step(m, e).handler)
  {
    hide SenderNumbers.NoTwoGaps, SenderNumbers.Accounted, Skip, Ordered, Increasing;
    DequeueAllStreams(m);
    var t := Fill(m.DequeueAll(), e.maxLen, e.visits).0;
    if Outgoing(m, e).Some? {
      SentReported(t.handler, Outgoing(m, e).value);
    }
  }

  lemma StepReported(m: Sender, e: Event, t: Sender)
    requires SenderNumbers.Inv(m) && Leads(m, e, t) && Reported(m.handler)
    ensures Reported(t.handler)
  {
    hide Reported, SenderNumbers.NoTwoGaps, SenderNumbers.Accounted, Skip;
    match e
    case GetAck(ack, n) => AckReported(m.handler, ack, n);
    case Timeout => TimeoutReported(m.handler);
    case Send(_, _, _, _, _, _) => SendReported(m, e);
    case _ =>
  }

  /** In every run, the packets that a STOP_WAITING frame gives up are acknowledged, queued for retransmission, or were
      reported missing at least once. */
  lemma {:induction false} GivenUpIsReported(es: seq<Event>, t: Sender)
    requires Happens(INITIAL, es, t)
    ensures Reported(t.handler)
  {
    hide Reported, Leads, SenderNumbers.Inv;
    if es == [] {
      InitialReported();
    } else {
      var init, last := es[..|es| - 1], es[|es| - 1];
      var m :| Leads(m, last, t) && Happens(INITIAL, init, m);
      GivenUpIsReported(init, m);
      SenderNumbers.RunInv(init, m);
      StepReported(m, last, t);
    }
  }

  lemma InitialReported()
    ensures Reported(INITIAL.handler)
  {
  }

  // ---------------------------------------------------------------------------------------------
  // Numbers that were left out
  // ---------------------------------------------------------------------------------------------

  function Later(gaps: set<int>, n: int): set<int> {
    set g | g in gaps && g > n
  }

  /** Up to here the handler no longer watches out for numbers that were left out. */
  function Settled(h: Handler): int {
    if h.LargestInOrderAcked() < h.nextLeastUnacked then h.nextLeastUnacked - 1 else h.LargestInOrderAcked()
  }

  /** The handler watches out for left-out number `n`, or need not: it is settled, or ten later ones were left out. */
  ghost predicate Watched(s: Sender, n: int) {
    n in s.handler.skipped || n <= Settled(s.handler) || |Later(s.gaps, n)| >= 10
  }

  /** The handler watches out for numbers that were left out, for nothing else, and for no more than ten. */
  ghost predicate Watches(s: Sender) {
    && (forall n :: n in s.handler.skipped ==> n in s.gaps)
    && (forall n :: n in s.gaps ==> Watched(s, n))
    && (forall n :: n in s.gaps ==> n <= s.handler.lastSent)
    && |s.handler.skipped| <= 10
  }

  lemma {:induction false} ManyLater(skipped: seq<nat>, max: int, gaps: set<int>, n: int)
    requires Increasing(skipped, max) && forall i :: 0 <= i < |skipped| ==> skipped[i] in gaps && skipped[i] > n
    ensures |set g | g in gaps && n < g <= max| >= |skipped|
  {
    if skipped != [] {
      var init, last := skipped[..|skipped| - 1], skipped[|skipped| - 1];
      ManyLater(init, last - 1, gaps, n);
      var below := set g | g in gaps && n < g <= last - 1;
      var all := set g | g in gaps && n < g <= max;
      assert below + {last} <= all;
      Smaller(below + {last}, all);
    }
  }

  lemma {:induction false} Smaller<T>(a: set<T>, b: set<T>)
    requires a <= b
    ensures |a| <= |b|
  {
    if a != {} {
      var x :| x in a;
      Smaller(a - {x}, b - {x});
    }
  }

  /** The oldest of eleven numbers to watch out for has ten later ones. */
  lemma DroppedIsOld(skipped: seq<nat>, max: int, gaps: set<int>)
    requires Increasing(skipped, max) && |skipped| == 11 && forall i :: 0 <= i < 11 ==> skipped[i] in gaps
    ensures |Later(gaps, skipped[0])| >= 10
  {
    forall i | 0 <= i < 10
      ensures skipped[1..][i] > skipped[0]
    {
      IncreasingPair(skipped, max, 0, i + 1);
    }
    IncreasingTail(skipped, max);
    ManyLater(skipped[1..], max, gaps, skipped[0]);
    var later := set g | g in gaps && skipped[0] < g <= max;
    Smaller(later, Later(gaps, skipped[0]));
  }

  lemma SentSettles(h: Handler, p: Packet)
    requires h.Valid() && p.number > h.lastSent
    ensures Settled(h) <= Settled(h.Sent(p))
  {
    hide Skip, Ordered, Increasing;
  }

  lemma SentWatches(s: Sender, p: Packet, skip: nat)
    requires SenderNumbers.Inv(s) && Watches(s) && p.number == s.next
    ensures Watches(s.SentNext(p, skip))
  {
    hide SenderNumbers.NoTwoGaps, SenderNumbers.Accounted, Ordered, Settled;
    var t, h := s.SentNext(p, skip), s.handler;
    SentSettles(h, p);
    if s.next == h.lastSent + 1 {
      assert h.Sent(p).skipped == h.skipped;
      assert forall n :: Watched(s, n) ==> Watched(t, n);
    } else {
      var g := h.lastSent + 1;
      assert Skip(h.skipped, g, g + 1) == Skip(LastTen(h.skipped + [g]), g + 1, g + 1);
      GapWatches(s, t, g);
    }
  }

  /** One more number `g` is left out. */
  lemma GapWatches(s: Sender, t: Sender, g: nat)
    requires Watches(s) && Increasing(s.handler.skipped, g - 1) && t.gaps == s.gaps + {g} && g <= t.handler.lastSent
    requires Settled(s.handler) <= Settled(t.handler) && s.handler.lastSent <= t.handler.lastSent
    requires t.handler.skipped == LastTen(s.handler.skipped + [g])
    ensures Watches(t)
  {
    hide Settled;
    var all := s.handler.skipped + [g];
    assert all[..|s.handler.skipped|] == s.handler.skipped;
    assert Increasing(all, g);
    if |all| == 11 {
      DroppedIsOld(all, g, t.gaps);
    }
    forall n | n in t.gaps
      ensures Watched(t, n)
    {
      assert n != g ==> Watched(s, n);
      Smaller(Later(s.gaps, n), Later(t.gaps, n));
    }
  }

  lemma {:induction false} AboveKeeps(skipped: seq<nat>, bound: int, n: nat)
    ensures n in Above(skipped, bound) ==> n in skipped
    ensures n in skipped && n > bound ==> n in Above(skipped, bound)
    ensures |Above(skipped, bound)| <= |skipped|
  {
    if skipped != [] && skipped[0] <= bound {
      AboveKeeps(skipped[1..], bound, n);
    }
  }

  lemma {:induction false} SortedFirst(h: Handler, ack: AckFrame, k: nat)
    requires h.Valid() && k <= |h.history|
    ensures var s := Sorted(h.queue, h.acked, ack, h.history, k).history;
            s != [] ==> h.history != [] && s[0].number >= h.history[0].number
  {
    if k > 0 {
      SortedFirst(h, ack, k - 1);
      if k > 1 {
        OrderedPair(h.history, h.lastSent, 0, k - 1);
      }
    }
  }

  lemma AckSettles(h: Handler, ack: AckFrame)
    requires h.Valid() && h.LargestInOrderAcked() < ack.largestAcked
    ensures h.LargestInOrderAcked() <= h.Walked(ack).LargestInOrderAcked() <= Settled(h.Walked(ack))
    ensures Settled(h) <= Settled(h.Walked(ack))
  {
    SortedFirst(h, ack, |h.history|);
  }

  lemma AckWatches(s: Sender, ack: AckFrame, n: nat)
    requires s.handler.Valid() && Watches(s)
    ensures Watches(s.(handler := s.handler.ReceivedAck(ack, n)))
  {
    hide Ordered, Increasing, Settled, Sorted, Above;
    var h, t := s.handler, s.(handler := s.handler.ReceivedAck(ack, n));
    if TakesIn(h, ack, n) {
      AckSettles(h.(largestReceivedWithAck := n), ack);
      assert Settled(h.(largestReceivedWithAck := n)) == Settled(h) by { SameSettled(h, n); }
      forall m: nat
        ensures m in t.handler.skipped ==> m in h.skipped
        ensures m in h.skipped && m > Settled(t.handler) ==> m in t.handler.skipped
      {
        AboveKeeps(h.skipped, t.handler.LargestInOrderAcked(), m);
      }
      AboveKeeps(h.skipped, t.handler.LargestInOrderAcked(), 0);
      assert forall m :: Watched(s, m) ==> Watched(t, m);
    } else {
      RefusedAck(h, ack, n);
      SameSettled(h, n);
      assert forall m :: Watched(s, m) ==> Watched(t, m);
    }
  }

  lemma SameSettled(h: Handler, n: nat)
    ensures Settled(h.(largestReceivedWithAck := n)) == Settled(h)
  {
  }

  lemma SendWatches(m: Sender, e: Event)
    requires SenderNumbers.Inv(m) && Enabled(m, e) && TakenFromWritten(m.streams) && e.Send? && Watches(m)
    ensures Watches(Step(m, e))
  {
    hide Ordered, Increasing, Fill, SenderNumbers.NoTwoGaps;
    DequeueAllStreams(m);
    var t := Fill(m.DequeueAll(), e.maxLen, e.visits).0;
    FillKeeps(m.DequeueAll(), e.maxLen, e.visits);
    assert t.handler == m.handler.(queue := []) && t.next == m.next && t.gaps == m.gaps;
    SenderNumbers.SameNumbers(m, t);
    assert forall n :: Watched(m, n) ==> Watched(t, n);
    assert Watches(t);
    if Outgoing(m, e).Some? {
      SentWatches(t, Outgoing(m, e).value, e.skip);
    }
  }

  lemma FillKeeps(s: Sender, maxLen: nat, visits: seq<Visit>)
    requires Known(s.streams, visits) && TakenFromWritten(s.streams)
    ensures var t := Fill(s, maxLen, visits).0; t.handler == s.handler && t.next == s.next && t.gaps == s.gaps
  {
  }

  lemma TimeoutWatches(s: Sender)
    requires s.handler.Valid() && Watches(s)
    ensures Watches(s.(handler := s.handler.QueueFirst()))
  {
    var t := s.(handler := s.handler.QueueFirst());
    assert Settled(s.handler) <= Settled(t.handler) by {
      if |s.handler.history| > 1 {
        OrderedPair(s.handler.history, s.handler.lastSent, 0, 1);
      }
    }
    assert forall n :: Watched(s, n) ==> Watched(t, n);
  }

  lemma StepWatches(m: Sender, e: Event, t: Sender)
    requires SenderNumbers.Inv(m) && Leads(m, e, t) && Watches(m)
    ensures Watches(t)
  {
    hide SenderNumbers.NoTwoGaps, SenderNumbers.Accounted, Skip, Ordered, Increasing;
    match e
    case GetAck(ack, n) => AckWatches(m, ack, n);
    case Timeout => TimeoutWatches(m);
    case Send(_, _, _, _, _, _) => SendWatches(m, e);
    case _ => assert forall n :: Watched(m, n) ==> Watched(t, n);
  }

  lemma {:induction false} RunWatches(es: seq<Event>, t: Sender)
    requires Happens(INITIAL, es, t)
    ensures Watches(t)
  {
    hide Watches, Leads, SenderNumbers.Inv;
    if es == [] {
      InitialWatches();
    } else {
      var init, last := es[..|es| - 1], es[|es| - 1];
      var m :| Leads(m, last, t) && Happens(INITIAL, init, m);
      RunWatches(init, m);
      SenderNumbers.RunInv(init, m);
      StepWatches(m, last, t);
    }
  }

  lemma InitialWatches()
    ensures Watches(INITIAL)
  {
  }

  /** In every run, an ACK frame for a number that was left out is never taken in, unless the number is settled or ten
      later ones were left out. */
  lemma LeftOutIsRefused(es: seq<Event>, t: Sender, ack: AckFrame, withPacketNumber: nat, n: nat)
    requires Happens(INITIAL, es, t) && n in t.gaps && ack.Acks(n)
    requires n > Settled(t.handler) && |Later(t.gaps, n)| < 10
    ensures !TakesIn(t.handler, ack, withPacketNumber)
  {
    RunWatches(es, t);
    assert Watched(t, n);
  }

  /** In every run, an ACK frame that acknowledges nothing but packets that were sent is not taken for one that
      acknowledges a number that was left out. */
  lemma SentIsNotRefused(es: seq<Event>, t: Sender, ack: AckFrame, withPacketNumber: nat)
    requires Happens(INITIAL, es, t) && forall n :: n in t.gaps ==> !ack.Acks(n)
    ensures t.handler.AckResultOf(ack, withPacketNumber) != AckForSkippedPacket
  {
    RunWatches(es, t);
  }
}
