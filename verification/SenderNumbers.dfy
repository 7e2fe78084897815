/** Packet numbers over whole runs of a sender: the generator (packet_number_generator.go), the history of
    sent packets (ackhandler/sent_packet_handler.go) and the announcements of STOP_WAITING frames
    (ackhandler/stop_waiting_manager.go) together. */
module SenderNumbers {
  import opened Frames
  import opened AckFrames
  import opened SentPackets
  import opened PacketNumbers
  import opened ByteCodec
  import opened StreamFramers
  import opened SenderData
  import StopWaitingFrames

  /** Number `n` is accounted for: in flight, announced as no longer awaited, or never used. */
  ghost predicate Accounted(s: Sender, n: int) {
    HasNumber(s.handler.history, n) || n < s.handler.nextLeastUnacked || n in s.gaps
  }

  ghost predicate NoTwoGaps(s: Sender) {
    1 !in s.gaps && forall n :: n in s.gaps ==> n + 1 !in s.gaps && 1 < n < s.handler.lastSent
  }

  ghost predicate Inv(s: Sender) {
    && s.handler.Valid()
    && (s.next == s.handler.lastSent + 1 || (s.next == s.handler.lastSent + 2 && s.handler.lastSent > 0))
    && NoTwoGaps(s)
    && (forall n :: 1 <= n <= s.handler.lastSent ==> Accounted(s, n))
  }

  lemma InitialInv()
    ensures Inv(INITIAL)
  {
  }

  /** The next packet is sent. */
  lemma SentInv(s: Sender, p: Packet, skip: nat)
    requires Inv(s) && p.number == s.next && p.missingReports == 0 && skip <= 1
    ensures Inv(s.SentNext(p, skip))
  {
    hide Ordered, Increasing, Skip, HasNumber;
    var t := s.SentNext(p, skip);
    SentValid(s.handler, p);
    forall n | 1 <= n <= t.handler.lastSent
      ensures Accounted(t, n)
    {
      HasSnoc(s.handler.history, p, n);
      assert n <= s.handler.lastSent ==> Accounted(s, n);
    }
  }

  /** What an ACK frame removes from the history is announced as no longer awaited. */
  lemma AckInv(s: Sender, ack: AckFrame, withPacketNumber: nat)
    requires Inv(s)
    ensures Inv(s.(handler := s.handler.ReceivedAck(ack, withPacketNumber)))
  {
    var h := s.handler;
    var t := s.(handler := h.ReceivedAck(ack, withPacketNumber));
    ReceivedAckValid(h, ack, withPacketNumber);
    forall n | 1 <= n <= t.handler.lastSent
      ensures Accounted(t, n)
    {
      assert Accounted(s, n);
      var h' := h.(largestReceivedWithAck := withPacketNumber);
      if t.handler == h'.Walked(ack) && HasNumber(h.history, n) {
        var i :| 0 <= i < |h.history| && h.history[i].number == n;
        FateUpToLargest(ack, h.history[i]);
        SortedNumber(h', ack, |h.history|, n);
      }
    }
  }

  lemma TimeoutInv(s: Sender)
    requires Inv(s)
    ensures Inv(s.(handler := s.handler.QueueFirst()))
  {
    var h, t := s.handler, s.(handler := s.handler.QueueFirst());
    QueueFirstValid(h);
    forall n | 1 <= n <= t.handler.lastSent
      ensures Accounted(t, n)
    {
      assert Accounted(s, n);
      if HasNumber(h.history, n) {
        var i :| 0 <= i < |h.history| && h.history[i].number == n;
        assert i > 0 ==> h.history[1..][i - 1].number == n;
      }
    }
  }

  /** Numbers depend on nothing but the history and what was announced. */
  lemma SameNumbers(s: Sender, t: Sender)
    requires Inv(s) && t.next == s.next && t.gaps == s.gaps && t.handler == s.handler.(queue := t.handler.queue)
    ensures Inv(t)
  {
    assert forall n :: Accounted(s, n) ==> Accounted(t, n);
  }

  lemma StepInv(s: Sender, e: Event)
    requires Inv(s) && Enabled(s, e) && TakenFromWritten(s.streams)
    ensures Inv(Step(s, e))
  {
    match e
    case Send(others, length, maxLen, visits, _, skip) =>
      DequeueAllStreams(s);
      var (t, fs) := Fill(s.DequeueAll(), maxLen, visits);
      SameNumbers(s, t);
      SentInv(t, PacketWith(s.next, others, fs, length), skip);
    case GetAck(ack, n) => AckInv(s, ack, n);
    case Timeout => TimeoutInv(s);
    case _ => SameNumbers(s, Step(s, e));
  }

  /** If packets are only sent while fewer than the limit are tracked, no more than the limit ever are. */
  lemma StepTracked(s: Sender, e: Event)
    requires Enabled(s, e) && TakenFromWritten(s.streams)
    requires s.handler.Tracked() <= MAX_TRACKED_SENT_PACKETS
    requires e.Send? ==> s.handler.Tracked() < MAX_TRACKED_SENT_PACKETS
    ensures Step(s, e).handler.Tracked() <= MAX_TRACKED_SENT_PACKETS
  {
    match e
    case Send(_, _, _, _, _, _) => DequeueAllStreams(s);
    case GetAck(ack, n) => AckTracked(s.handler, ack, n);
    case _ =>
  }

  lemma {:induction false} RunInv(es: seq<Event>, t: Sender)
    requires Happens(INITIAL, es, t)
    ensures Inv(t)
  {
    hide Inv, Step, Enabled;
    if es == [] {
      InitialInv();
    } else {
      var init, last := es[..|es| - 1], es[|es| - 1];
      var m :| Leads(m, last, t) && Happens(INITIAL, init, m);
      RunInv(init, m);
      StepInv(m, last);
    }
  }

  /** The oldest packet in flight is at most one number behind the announced least unacked packet. */
  lemma LeastUnackedBound(s: Sender)
    requires Inv(s)
    ensures 0 <= s.handler.GetLeastUnacked() <= s.next
    ensures s.handler.nextLeastUnacked > 0 ==> s.handler.GetLeastUnacked() <= s.handler.nextLeastUnacked + 1
    ensures s.handler.nextLeastUnacked <= s.next
  {
    var h := s.handler;
    if h.history != [] {
      var f := h.history[0].number;
      OrderedAt(h.history, h.lastSent, 0);
      forall n | n < f
        ensures !HasNumber(h.history, n)
      {
        forall i | 0 < i < |h.history|
          ensures h.history[i].number != n
        {
          OrderedPair(h.history, h.lastSent, 0, i);
        }
      }
      if f > h.nextLeastUnacked + 1 {
        assert Accounted(s, f - 1);
        assert f > 2 ==> Accounted(s, f - 2);
      }
    }
  }

  /** A STOP_WAITING frame that announces the current least unacked packet can be written with the next packet. */
  lemma StopWaitingWritable(s: Sender)
    requires Inv(s) && s.handler.nextLeastUnacked > 0
    ensures s.handler.GetLeastUnacked() >= 0
    ensures var len := GetPacketNumberLengthForPublicHeader(s.next, s.handler.GetLeastUnacked());
            StopWaitingFrames.Write(s.handler.nextLeastUnacked, s.next, len).Written?
  {
    LeastUnackedBound(s);
  }

  /** In every run, every STOP_WAITING frame that is produced can be written with the next packet and reads
      back as the same least unacked packet. */
  lemma StopWaitingEncodes(es: seq<Event>, s: Sender, rest: seq<byte>)
    requires Happens(INITIAL, es, s) && s.handler.nextLeastUnacked > 0 && s.next < 0x1_0000_0000_0000
    ensures s.handler.GetLeastUnacked() >= 0
    ensures var leastUnacked := s.handler.nextLeastUnacked;
            var len := GetPacketNumberLengthForPublicHeader(s.next, s.handler.GetLeastUnacked());
            var w := StopWaitingFrames.Write(leastUnacked, s.next, len);
            && w.Written?
            && StopWaitingFrames.Parse(w.bytes + rest, s.next, len) == StopWaitingFrames.Ok(leastUnacked, rest)
  {
    RunInv(es, s);
    LeastUnackedBound(s);
    var len := GetPacketNumberLengthForPublicHeader(s.next, s.handler.GetLeastUnacked());
    CapacityValues();
    StopWaitingFrames.RoundTripIff(s.handler.nextLeastUnacked, s.next, len, rest);
  }
}
