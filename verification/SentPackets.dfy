/** The packets in flight and what becomes of them (ackhandler/sent_packet_handler.go, packet.go),
    as values: the reference the handler's methods are proved against. */
module SentPackets {
  import opened Frames
  import opened AckFrames

  const RETRANSMISSION_THRESHOLD := 3
  const MAX_TRACKED_SKIPPED_PACKETS := 10
  const MAX_TRACKED_SENT_PACKETS := 2000

  /** A frame as far as retransmission is concerned. `Control` stands for every frame that is neither
      STREAM nor ACK nor STOP_WAITING, and holds it as written. */
  datatype Frame =
    | Stream(stream: StreamFrame)
    | Ack(ack: AckFrame)
    | StopWaiting(leastUnacked: nat)
    | Control(bytes: seq<byte>)

  datatype Packet = Packet(number: nat, frames: seq<Frame>, length: nat, missingReports: nat) {

    function Report(): Packet {
      this.(missingReports := missingReports + 1)
    }
  }

  datatype SentResult = SentOk | PacketNumberNotIncreasing | EmptyPacket

  datatype AckResult = Ok | AckForUnsentPacket | DuplicateOrOutOfOrderAck | AckForSkippedPacket

  // ---------------------------------------------------------------------------------------------
  // The fate of a packet
  // ---------------------------------------------------------------------------------------------

  /** What an ACK frame says about a packet. */
  datatype Fate = Untouched | Acked | Reported | Lost

  ghost function FateOf(ack: AckFrame, p: Packet): Fate {
    if p.number > ack.largestAcked then Untouched
    else if ack.Acks(p.number) then Acked
    else if p.missingReports + 1 > RETRANSMISSION_THRESHOLD then Lost
    else Reported
  }

  /** A packet that stays in the history. */
  ghost predicate Stays(ack: AckFrame, p: Packet) {
    FateOf(ack, p) == Untouched || FateOf(ack, p) == Reported
  }

  lemma FateUpToLargest(ack: AckFrame, p: Packet)
    ensures FateOf(ack, p) == Untouched <==> p.number > ack.largestAcked
  {
  }

  /** The three lists a packet can end up in. */
  datatype Lists = Lists(history: seq<Packet>, queue: seq<Packet>, acked: seq<Packet>)

  /** Packet `p` joins the list its fate puts it on. */
  ghost function Sort(s: Lists, ack: AckFrame, p: Packet): Lists {
    match FateOf(ack, p)
    case Untouched => s.(history := s.history + [p])
    case Reported => s.(history := s.history + [p.Report()])
    case Lost => s.(queue := s.queue + [p.Report()])
    case Acked => s.(acked := s.acked + [p])
  }

  /** The first `k` packets of history `h`, sorted by their fate behind what was queued and acknowledged before. */
  ghost function Sorted(queue: seq<Packet>, acked: seq<Packet>, ack: AckFrame, h: seq<Packet>, k: nat): Lists
    requires k <= |h|
  {
    if k == 0 then Lists([], queue, acked) else Sort(Sorted(queue, acked, ack, h, k - 1), ack, h[k - 1])
  }

  /** Packet numbers increase up to `max`, and no packet has too many missing reports. */
  predicate Ordered(h: seq<Packet>, max: int) {
    h == [] ||
    var p := h[|h| - 1];
    1 <= p.number <= max && p.missingReports <= RETRANSMISSION_THRESHOLD && Ordered(h[..|h| - 1], p.number - 1)
  }

  lemma {:induction false} OrderedPair(h: seq<Packet>, max: int, i: nat, j: nat)
    requires Ordered(h, max) && i < j < |h|
    ensures 1 <= h[i].number < h[j].number <= max
  {
    OrderedAt(h, max, j);
    if j == |h| - 1 {
      OrderedAt(h[..j], h[j].number - 1, i);
    } else {
      OrderedPair(h[..|h| - 1], h[|h| - 1].number - 1, i, j);
    }
  }

  lemma {:induction false} OrderedAt(h: seq<Packet>, max: int, i: nat)
    requires Ordered(h, max) && i < |h|
    ensures 1 <= h[i].number <= max && h[i].missingReports <= RETRANSMISSION_THRESHOLD
  {
    if i < |h| - 1 {
      OrderedAt(h[..|h| - 1], h[|h| - 1].number - 1, i);
    }
  }

  lemma {:induction false} OrderedWider(h: seq<Packet>, max: int, max': int)
    requires Ordered(h, max) && max <= max'
    ensures Ordered(h, max')
  {
  }

  lemma {:induction false} OrderedTail(h: seq<Packet>, max: int)
    requires Ordered(h, max) && h != []
    ensures Ordered(h[1..], max)
  {
    if |h| > 1 {
      OrderedTail(h[..|h| - 1], h[|h| - 1].number - 1);
      assert h[1..][..|h| - 2] == h[..|h| - 1][1..];
    }
  }

  lemma OrderedSnoc(h: seq<Packet>, p: Packet, max: int)
    requires Ordered(h, p.number - 1) && 1 <= p.number <= max && p.missingReports <= RETRANSMISSION_THRESHOLD
    ensures Ordered(h + [p], max)
  {
    assert (h + [p])[..|h|] == h;
  }

  // ---------------------------------------------------------------------------------------------
  // Bytes in flight
  // ---------------------------------------------------------------------------------------------

  function TotalLength(h: seq<Packet>): nat {
    if h == [] then 0 else TotalLength(h[..|h| - 1]) + h[|h| - 1].length
  }

  lemma TotalSnoc(h: seq<Packet>, p: Packet)
    ensures TotalLength(h + [p]) == TotalLength(h) + p.length
  {
    assert (h + [p])[..|h|] == h;
  }

  lemma {:induction false} TotalConcat(a: seq<Packet>, b: seq<Packet>)
    ensures TotalLength(a + b) == TotalLength(a) + TotalLength(b)
    decreases |b|
  {
    if b == [] {
      assert a + b == a;
    } else {
      assert (a + b)[..|a + b| - 1] == a + b[..|b| - 1];
      TotalConcat(a, b[..|b| - 1]);
    }
  }

  /** Packet `i` of `h` stands between what lies before and behind it. */
  lemma TotalSplit(h: seq<Packet>, i: nat)
    requires i < |h|
    ensures TotalLength(h) == TotalLength(h[..i]) + h[i].length + TotalLength(h[i + 1..])
  {
    TotalConcat(h[..i] + [h[i]], h[i + 1..]);
    TotalSnoc(h[..i], h[i]);
    assert h == h[..i] + [h[i]] + h[i + 1..];
  }

  lemma TotalTail(h: seq<Packet>)
    requires h != []
    ensures TotalLength(h[1..]) == TotalLength(h) - h[0].length
  {
    TotalSplit(h, 0);
    assert h[..0] == [];
  }

  // ---------------------------------------------------------------------------------------------
  // Skipped packet numbers
  // ---------------------------------------------------------------------------------------------

  predicate Increasing(s: seq<nat>, max: int) {
    s == [] ||
    var last: int := s[|s| - 1];
    last <= max && Increasing(s[..|s| - 1], last - 1)
  }

  lemma {:induction false} IncreasingPair(s: seq<nat>, max: int, i: nat, j: nat)
    requires Increasing(s, max) && i < j < |s|
    ensures s[i] < s[j]
  {
    if j < |s| - 1 {
      IncreasingPair(s[..|s| - 1], s[|s| - 1] - 1, i, j);
    } else if i < |s| - 2 {
      IncreasingPair(s[..|s| - 1], s[|s| - 1] - 1, i, |s| - 2);
    }
  }

  lemma {:induction false} IncreasingTail(s: seq<nat>, max: int)
    requires Increasing(s, max) && s != []
    ensures Increasing(s[1..], max)
  {
    if |s| > 1 {
      IncreasingTail(s[..|s| - 1], s[|s| - 1] - 1);
      assert s[1..][..|s| - 2] == s[..|s| - 1][1..];
    }
  }

  /** The entries behind the leading ones that do not exceed `bound`. */
  function Above(s: seq<nat>, bound: int): seq<nat> {
    if s == [] || s[0] > bound then s else Above(s[1..], bound)
  }

  lemma {:induction false} AboveIs(s: seq<nat>, bound: int, k: nat)
    requires k <= |s| && (forall j :: 0 <= j < k ==> s[j] <= bound) && (k < |s| ==> s[k] > bound)
    ensures Above(s, bound) == s[k..]
    decreases k
  {
    if k > 0 {
      AboveIs(s[1..], bound, k - 1);
    }
  }

  lemma {:induction false} AboveIncreasing(s: seq<nat>, bound: int, max: int)
    requires Increasing(s, max)
    ensures Increasing(Above(s, bound), max)
  {
    if s != [] && s[0] <= bound {
      IncreasingTail(s, max);
      AboveIncreasing(s[1..], bound, max);
    }
  }

  /** Appends the numbers from `first` up to, not including, `end`, keeping the last ten of all. */
  function Skip(s: seq<nat>, first: nat, end: nat): seq<nat>
    decreases end - first
  {
    if first >= end then s else Skip(LastTen(s + [first]), first + 1, end)
  }

  function LastTen(s: seq<nat>): seq<nat> {
    if |s| > MAX_TRACKED_SKIPPED_PACKETS then s[1..] else s
  }

  lemma {:induction false} SkipIncreasing(s: seq<nat>, first: nat, end: nat)
    requires Increasing(s, first - 1) && first <= end
    ensures Increasing(Skip(s, first, end), end - 1)
    decreases end - first
  {
    if first < end {
      assert (s + [first])[..|s|] == s;
      if |s + [first]| > MAX_TRACKED_SKIPPED_PACKETS {
        IncreasingTail(s + [first], first);
      }
      SkipIncreasing(LastTen(s + [first]), first + 1, end);
    }
  }

  // ---------------------------------------------------------------------------------------------
  // The handler's state
  // ---------------------------------------------------------------------------------------------

  function Max(a: nat, b: nat): nat {
    if a < b then b else a
  }

  /** `history` are the packets in flight, `queue` those waiting to be retransmitted, `acked` records the
      acknowledged ones. `nextLeastUnacked` is what the next STOP_WAITING frame would announce. */
  datatype Handler = Handler(
    lastSent: nat, skipped: seq<nat>, largestAcked: nat, largestReceivedWithAck: nat,
    history: seq<Packet>, queue: seq<Packet>, acked: seq<Packet>, nextLeastUnacked: nat) {

    function LargestInOrderAcked(): int {
      if |history| > 0 then history[0].number - 1 else largestAcked
    }

    function GetLeastUnacked(): int {
      LargestInOrderAcked() + 1
    }

    function Sent(p: Packet): Handler {
      this.(lastSent := p.number, skipped := Skip(skipped, lastSent + 1, p.number), history := history + [p])
    }

    ghost predicate AcksSkipped(ack: AckFrame) {
      exists i :: 0 <= i < |skipped| && ack.Acks(skipped[i])
    }

    ghost function AckResultOf(ack: AckFrame, withPacketNumber: nat): AckResult {
      if ack.largestAcked > lastSent then AckForUnsentPacket
      else if withPacketNumber <= largestReceivedWithAck then DuplicateOrOutOfOrderAck
      else if ack.largestAcked <= LargestInOrderAcked() then Ok
      else if AcksSkipped(ack) then AckForSkippedPacket
      else Ok
    }

    /** The walk over the history: acknowledged packets leave, the others up to the largest get a report. */
    ghost function Walked(ack: AckFrame): Handler {
      var s := Sorted(queue, acked, ack, history, |history|);
      var h := this.(largestAcked := ack.largestAcked, history := s.history, queue := s.queue, acked := s.acked,
                     nextLeastUnacked := Max(nextLeastUnacked, ack.largestAcked + 1));
      h.(skipped := Above(skipped, h.LargestInOrderAcked()))
    }

    ghost function ReceivedAck(ack: AckFrame, withPacketNumber: nat): Handler {
      if ack.largestAcked > lastSent || withPacketNumber <= largestReceivedWithAck then this
      else
        var h := this.(largestReceivedWithAck := withPacketNumber);
        if ack.largestAcked <= LargestInOrderAcked() || AcksSkipped(ack) then h else h.Walked(ack)
    }

    /** A retransmission timeout queues the oldest packet. */
    function QueueFirst(): Handler {
      if history == [] then this
      else this.(history := history[1..], queue := queue + [history[0]],
                 nextLeastUnacked := Max(nextLeastUnacked, history[0].number + 1))
    }

    /** The packets that take up memory. */
    function Tracked(): nat {
      |history| + |queue|
    }

    /** The queue is used as a stack. */
    function Dequeued(): Handler {
      if queue == [] then this else this.(queue := queue[..|queue| - 1])
    }

    ghost predicate Valid() {
      && Ordered(history, lastSent)
      && Increasing(skipped, lastSent)
      && largestAcked <= lastSent
      && nextLeastUnacked <= lastSent + 1
      && (largestAcked > 0 ==> largestAcked < nextLeastUnacked)
    }
  }

  lemma {:induction false} SortedTracked(queue: seq<Packet>, acked: seq<Packet>, ack: AckFrame, h: seq<Packet>, k: nat)
    requires k <= |h|
    ensures var s := Sorted(queue, acked, ack, h, k); |s.history| + |s.queue| <= k + |queue|
  {
    if k > 0 {
      SortedTracked(queue, acked, ack, h, k - 1);
    }
  }

  /** An ACK frame never makes the handler track more packets. */
  lemma AckTracked(h: Handler, ack: AckFrame, withPacketNumber: nat)
    ensures h.ReceivedAck(ack, withPacketNumber).Tracked() <= h.Tracked()
  {
    SortedTracked(h.queue, h.acked, ack, h.history, |h.history|);
  }

  // ---------------------------------------------------------------------------------------------
  // The two-pointer walk
  // ---------------------------------------------------------------------------------------------

  /** The ranges behind index |ackRanges| - 1 - k (the lowest `k` of them) end below packet `p`. */
  ghost predicate PassedBelow(ack: AckFrame, k: int, p: int) {
    && 0 <= k && (ack.HasMissingRanges() ==> k < |ack.ackRanges|)
    && forall j :: 0 <= j < |ack.ackRanges| && |ack.ackRanges| - 1 - k < j ==> ack.ackRanges[j].last < p
  }

  /** Moves on to the first range that does not end below `p`. */
  method AdvanceRange(ack: AckFrame, p: nat, k: nat) returns (k': nat)
    requires ack.WellFormed() && ack.HasMissingRanges() && PassedBelow(ack, k, p)
    ensures k <= k' && PassedBelow(ack, k', p)
    ensures p <= ack.ackRanges[|ack.ackRanges| - 1 - k'].last || k' == |ack.ackRanges| - 1
  {
    k' := k;
    while p > ack.ackRanges[|ack.ackRanges| - 1 - k'].last && k' < |ack.ackRanges| - 1
      invariant k <= k' && PassedBelow(ack, k', p)
      decreases |ack.ackRanges| - k'
    {
      k' := k' + 1;
    }
  }

  /** The range the walk stops at decides; the code's check for a wrong packet never fires. */
  lemma RangeDecides(ack: AckFrame, p: nat, k: nat)
    requires ack.WellFormed() && ack.HasMissingRanges() && PassedBelow(ack, k, p) && p <= ack.largestAcked
    requires p <= ack.ackRanges[|ack.ackRanges| - 1 - k].last || k == |ack.ackRanges| - 1
    ensures var r := ack.ackRanges[|ack.ackRanges| - 1 - k];
            (ack.Acks(p) <==> p >= r.first) && (p >= r.first ==> p <= r.last)
  {
    var i := |ack.ackRanges| - 1 - k;
    if ack.Acks(p) {
      var j :| 0 <= j < |ack.ackRanges| && ack.ackRanges[j].Contains(p);
      assert j <= i;
    }
    assert p >= ack.ackRanges[i].first ==> ack.ackRanges[i].Contains(p);
  }

  /** The walk over history `h` has passed the first `i` packets: they are sorted, the others still follow. */
  ghost predicate WalkedTo(h: Handler, ack: AckFrame, i: nat, now: Lists) {
    && i <= |h.history|
    && var s := Sorted(h.queue, h.acked, ack, h.history, i);
       now == s.(history := s.history + h.history[i..])
  }

  lemma WalkStart(h: Handler, ack: AckFrame)
    ensures WalkedTo(h, ack, 0, Lists(h.history, h.queue, h.acked)) && KeptSoFar(h, ack, 0) == 0
  {
    assert h.history[0..] == h.history;
  }

  /** The number of packets the walk left in the history. */
  ghost function KeptSoFar(h: Handler, ack: AckFrame, i: nat): nat
    requires i <= |h.history|
  {
    |Sorted(h.queue, h.acked, ack, h.history, i).history|
  }

  /** What happens to the lists when packet `el` of the history meets its fate. */
  ghost function Meet(ack: AckFrame, s: Lists, el: nat): Lists
    requires el < |s.history|
  {
    var t := Sort(s.(history := s.history[..el]), ack, s.history[el]);
    t.(history := t.history + s.history[el + 1..])
  }

  /** The walk stands in front of packet `i`, and the next one has a higher number. */
  lemma StartPassed(ack: AckFrame, history: seq<Packet>)
    requires ack.WellFormed()
    ensures history != [] ==> PassedBelow(ack, 0, history[0].number)
  {
  }

  lemma PassedHigher(ack: AckFrame, k: int, p: int, q: int)
    requires PassedBelow(ack, k, p) && p <= q
    ensures PassedBelow(ack, k, q)
  {
  }

  lemma InFront(h: Handler, ack: AckFrame, i: nat, now: Lists, el: nat)
    requires WalkedTo(h, ack, i, now) && el == KeptSoFar(h, ack, i) < |now.history| && Ordered(h.history, h.lastSent)
    ensures i < |h.history| && now.history[el] == h.history[i]
    ensures i + 1 < |h.history| ==> h.history[i].number < h.history[i + 1].number
  {
    if i + 1 < |h.history| {
      OrderedPair(h.history, h.lastSent, i, i + 1);
    }
  }

  lemma WalkStep(h: Handler, ack: AckFrame, i: nat, now: Lists, el: nat)
    requires WalkedTo(h, ack, i, now) && el == KeptSoFar(h, ack, i) < |now.history|
    ensures i < |h.history| && now.history[el] == h.history[i]
    ensures WalkedTo(h, ack, i + 1, Meet(ack, now, el))
    ensures KeptSoFar(h, ack, i + 1) == el + if Stays(ack, h.history[i]) then 1 else 0
  {
    var s := Sorted(h.queue, h.acked, ack, h.history, i);
    assert now.history[..el] == s.history;
    assert now.history[el + 1..] == h.history[i + 1..];
  }

  /** A packet that leaves the history takes its bytes with it. */
  lemma MeetLength(ack: AckFrame, s: Lists, el: nat)
    requires el < |s.history|
    ensures TotalLength(Meet(ack, s, el).history) ==
            TotalLength(s.history) - if Stays(ack, s.history[el]) then 0 else s.history[el].length
  {
    var a, p, b := s.history[..el], s.history[el], s.history[el + 1..];
    TotalSplit(s.history, el);
    TotalConcat(a, b);
    TotalConcat(a + [p], b);
    TotalConcat(a + [p.Report()], b);
    TotalSnoc(a, p);
    TotalSnoc(a, p.Report());
  }

  /** Packets above the largest acknowledged one stay as they are. */
  lemma {:induction false} RestUntouched(h: Handler, ack: AckFrame, i: nat, n: nat)
    requires Ordered(h.history, h.lastSent) && i <= n <= |h.history| &&
             (i < n ==> h.history[i].number > ack.largestAcked)
    ensures var s := Sorted(h.queue, h.acked, ack, h.history, i);
            Sorted(h.queue, h.acked, ack, h.history, n) == s.(history := s.history + h.history[i..n])
    decreases n
  {
    if i < n {
      RestUntouched(h, ack, i, n - 1);
      if i < n - 1 {
        OrderedPair(h.history, h.lastSent, i, n - 1);
      }
      assert h.history[i..n] == h.history[i..n - 1] + [h.history[n - 1]];
    } else {
      assert h.history[i..n] == [];
    }
  }

  lemma WalkEnd(h: Handler, ack: AckFrame, i: nat, now: Lists)
    requires WalkedTo(h, ack, i, now) && Ordered(h.history, h.lastSent) &&
             (i < |h.history| ==> h.history[i].number > ack.largestAcked)
    ensures now == Sorted(h.queue, h.acked, ack, h.history, |h.history|)
  {
    RestUntouched(h, ack, i, |h.history|);
    assert h.history[i..|h.history|] == h.history[i..];
  }

  /** The walk is over when nothing is left, or the next packet is above the largest acknowledged one. */
  lemma WalkOver(h: Handler, ack: AckFrame, i: nat, now: Lists)
    requires WalkedTo(h, ack, i, now) && Ordered(h.history, h.lastSent)
    requires KeptSoFar(h, ack, i) >= |now.history| || (i < |h.history| && h.history[i].number > ack.largestAcked)
    ensures now == Sorted(h.queue, h.acked, ack, h.history, |h.history|)
  {
    WalkEnd(h, ack, i, now);
  }

  // ---------------------------------------------------------------------------------------------
  // What every step keeps
  // ---------------------------------------------------------------------------------------------

  lemma {:induction false} SortedOrdered(h: Handler, ack: AckFrame, k: nat, max: int)
    requires k <= |h.history| && Ordered(h.history[..k], max)
    ensures Ordered(Sorted(h.queue, h.acked, ack, h.history, k).history, max)
  {
    if k > 0 {
      var p := h.history[k - 1];
      var s := Sorted(h.queue, h.acked, ack, h.history, k - 1).history;
      assert h.history[..k][..k - 1] == h.history[..k - 1];
      SortedOrdered(h, ack, k - 1, p.number - 1);
      OrderedWider(s, p.number - 1, max);
      if FateOf(ack, p) == Reported {
        OrderedSnoc(s, p.Report(), max);
      } else {
        OrderedSnoc(s, p, max);
      }
    }
  }

  lemma WalkedValid(h: Handler, ack: AckFrame)
    requires h.Valid() && ack.largestAcked <= h.lastSent
    ensures h.Walked(ack).Valid()
  {
    assert h.history[..|h.history|] == h.history;
    SortedOrdered(h, ack, |h.history|, h.lastSent);
    AboveIncreasing(h.skipped, h.Walked(ack).LargestInOrderAcked(), h.lastSent);
  }

  lemma ReceivedAckValid(h: Handler, ack: AckFrame, withPacketNumber: nat)
    requires h.Valid()
    ensures h.ReceivedAck(ack, withPacketNumber).Valid()
  {
    if ack.largestAcked <= h.lastSent {
      WalkedValid(h.(largestReceivedWithAck := withPacketNumber), ack);
    }
  }

  lemma SentValid(h: Handler, p: Packet)
    requires h.Valid() && h.lastSent < p.number && p.missingReports == 0
    ensures h.Sent(p).Valid()
  {
    SkipIncreasing(h.skipped, h.lastSent + 1, p.number);
    OrderedWider(h.history, h.lastSent, p.number - 1);
    OrderedSnoc(h.history, p, p.number);
    IncreasingWider(h.Sent(p).skipped, p.number - 1, p.number);
  }

  lemma IncreasingWider(s: seq<nat>, max: int, max': int)
    requires Increasing(s, max) && max <= max'
    ensures Increasing(s, max')
  {
  }

  lemma QueueFirstValid(h: Handler)
    requires h.Valid()
    ensures h.QueueFirst().Valid()
  {
    if h.history != [] {
      OrderedTail(h.history, h.lastSent);
      OrderedAt(h.history, h.lastSent, 0);
    }
  }

  // ---------------------------------------------------------------------------------------------
  // An ACK frame is interpreted exactly
  // ---------------------------------------------------------------------------------------------

  ghost predicate HasNumber(s: seq<Packet>, n: int) {
    exists i :: 0 <= i < |s| && s[i].number == n
  }

  lemma {:induction false} SortedHas(h: Handler, ack: AckFrame, k: nat, i: nat)
    requires i < k <= |h.history|
    ensures var p, s := h.history[i], Sorted(h.queue, h.acked, ack, h.history, k);
            match FateOf(ack, p)
            case Untouched => p in s.history
            case Reported => p.Report() in s.history
            case Lost => p.Report() in s.queue
            case Acked => p in s.acked
  {
    if i < k - 1 {
      SortedHas(h, ack, k - 1, i);
    }
  }

  /** A number is in the sorted history exactly if its packet stays. */
  lemma {:induction false} SortedNumber(h: Handler, ack: AckFrame, k: nat, n: int)
    requires k <= |h.history|
    ensures HasNumber(Sorted(h.queue, h.acked, ack, h.history, k).history, n) <==>
            exists i :: 0 <= i < k && h.history[i].number == n && Stays(ack, h.history[i])
  {
    if k > 0 {
      SortedNumber(h, ack, k - 1, n);
      var s, p := Sorted(h.queue, h.acked, ack, h.history, k - 1).history, h.history[k - 1];
      HasSnoc(s, p, n);
      HasSnoc(s, p.Report(), n);
    }
  }

  lemma HasSnoc(s: seq<Packet>, p: Packet, n: int)
    ensures HasNumber(s + [p], n) <==> HasNumber(s, n) || p.number == n
  {
    if HasNumber(s, n) {
      var i :| 0 <= i < |s| && s[i].number == n;
      assert (s + [p])[i] == s[i];
    }
    assert (s + [p])[|s|] == p;
  }

  lemma {:induction false} SortedCount(h: Handler, ack: AckFrame, k: nat)
    requires k <= |h.history|
    ensures var s := Sorted(h.queue, h.acked, ack, h.history, k);
            |s.history| + |s.queue| + |s.acked| == k + |h.queue| + |h.acked|
            && h.queue <= s.queue && h.acked <= s.acked
  {
    if k > 0 {
      SortedCount(h, ack, k - 1);
    }
  }

  /** The ACK frames that are taken in: from a packet later than any other that was, about packets that were sent, news
      of at least one, and not about a number that was left out. */
  ghost predicate TakesIn(h: Handler, ack: AckFrame, withPacketNumber: nat) {
    && withPacketNumber > h.largestReceivedWithAck
    && h.LargestInOrderAcked() < ack.largestAcked <= h.lastSent
    && forall i :: 0 <= i < |h.skipped| ==> !ack.Acks(h.skipped[i])
  }

  /** What becomes of packet `p` in flight when an ACK frame is taken in. */
  ghost predicate MeetsFate(ack: AckFrame, p: Packet, w: Handler) {
    && (p.number > ack.largestAcked ==> p in w.history)
    && (p.number <= ack.largestAcked && ack.Acks(p.number) ==> p in w.acked && !HasNumber(w.history, p.number))
    && (p.number <= ack.largestAcked && !ack.Acks(p.number) ==>
          var q := p.(missingReports := p.missingReports + 1);
          if q.missingReports <= 3 then q in w.history else q in w.queue && !HasNumber(w.history, p.number))
  }

  /** An ACK frame that is taken in removes from the history exactly the packets it acknowledges. Every other packet up
      to its largest gets exactly one missing report; the fourth one queues it. Any other ACK frame moves nothing. */
  lemma AckIsExact(h: Handler, ack: AckFrame, withPacketNumber: nat, i: nat)
    requires h.Valid() && i < |h.history|
    ensures var w := h.ReceivedAck(ack, withPacketNumber);
            if TakesIn(h, ack, withPacketNumber)
            then
              && MeetsFate(ack, h.history[i], w)
              && h.queue <= w.queue && h.acked <= w.acked
              && |w.history| + |w.queue| + |w.acked| == |h.history| + |h.queue| + |h.acked|
            else w.history == h.history && w.queue == h.queue && w.acked == h.acked
  {
    if TakesIn(h, ack, withPacketNumber) {
      WalkIsExact(h.(largestReceivedWithAck := withPacketNumber), ack, i);
      SortedBehind(h.queue, h.acked, ack, h.history, |h.history|);
    }
  }

  /** Every ACK frame that is refused leaves the handler as it was, but for the number of the packet it came in if that
      was later than the others and the frame is about packets that were sent. */
  lemma RefusedAck(h: Handler, ack: AckFrame, withPacketNumber: nat)
    requires !TakesIn(h, ack, withPacketNumber)
    ensures h.ReceivedAck(ack, withPacketNumber) ==
            if ack.largestAcked <= h.lastSent && withPacketNumber > h.largestReceivedWithAck
            then h.(largestReceivedWithAck := withPacketNumber) else h
    ensures h.AckResultOf(ack, withPacketNumber) == Ok <==>
            withPacketNumber > h.largestReceivedWithAck && ack.largestAcked <= h.lastSent &&
              ack.largestAcked <= h.LargestInOrderAcked()
  {
  }

  /** The largest number acknowledged in order: no packet up to it is in flight, and the one behind it is, unless
      nothing is in flight up to the largest number that an ACK frame taken in acknowledges. */
  lemma InOrderIsMaximal(h: Handler, ack: AckFrame, withPacketNumber: nat, p: int)
    requires h.Valid() && TakesIn(h, ack, withPacketNumber)
    ensures var w := h.ReceivedAck(ack, withPacketNumber);
            && (p <= w.LargestInOrderAcked() ==> !HasNumber(w.history, p))
            && (w.LargestInOrderAcked() >= ack.largestAcked || HasNumber(w.history, w.LargestInOrderAcked() + 1))
  {
    var w := h.ReceivedAck(ack, withPacketNumber);
    ReceivedAckValid(h, ack, withPacketNumber);
    forall i | 0 < i < |w.history|
      ensures w.history[i].number > w.history[0].number
    {
      OrderedPair(w.history, w.lastSent, 0, i);
    }
  }

  lemma {:induction false} SortedBehind(queue: seq<Packet>, acked: seq<Packet>, ack: AckFrame, h: seq<Packet>, k: nat)
    requires k <= |h|
    ensures var s := Sorted(queue, acked, ack, h, k); queue <= s.queue && acked <= s.acked
  {
    if k > 0 {
      SortedBehind(queue, acked, ack, h, k - 1);
    }
  }

  lemma WalkIsExact(h: Handler, ack: AckFrame, i: nat)
    requires h.Valid() && i < |h.history|
    ensures MeetsFate(ack, h.history[i], h.Walked(ack))
    ensures var w := h.Walked(ack); |w.history| + |w.queue| + |w.acked| == |h.history| + |h.queue| + |h.acked|
  {
    var p := h.history[i];
    SortedHas(h, ack, |h.history|, i);
    SortedNumber(h, ack, |h.history|, p.number);
    SortedCount(h, ack, |h.history|);
    OrderedAt(h.history, h.lastSent, i);
    forall j | 0 <= j < |h.history| && h.history[j].number == p.number
      ensures j == i
    {
      if j < i {
        OrderedPair(h.history, h.lastSent, j, i);
      } else if i < j {
        OrderedPair(h.history, h.lastSent, i, j);
      }
    }
  }
}
