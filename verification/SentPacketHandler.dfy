/** The handler of sent packets (ackhandler/sent_packet_handler.go) and the manager of STOP_WAITING
    frames (ackhandler/stop_waiting_manager.go). */
module SentPacketHandlers {
  import opened Frames
  import opened AckFrames
  import opened SentPackets

  class StopWaitingManager {
    var largestLeastUnackedSent: nat
    var nextLeastUnacked: nat
    var lastStopWaitingFrame: Option<nat>  // its LeastUnacked

    ghost predicate Valid()
      reads this
    {
      && largestLeastUnackedSent <= nextLeastUnacked
      && (largestLeastUnackedSent == 0 <==> lastStopWaitingFrame.None?)
      && (lastStopWaitingFrame.Some? ==> lastStopWaitingFrame.value == largestLeastUnackedSent)
    }

    constructor ()
      ensures Valid() && nextLeastUnacked == 0
    {
      largestLeastUnackedSent, nextLeastUnacked, lastStopWaitingFrame := 0, 0, None;
    }

    /** A frame, if there is one, always announces the current least unacked packet. */
    method GetStopWaitingFrame(force: bool) returns (f: Option<nat>)
      requires Valid()
      modifies this
      ensures Valid() && nextLeastUnacked == old(nextLeastUnacked)
      ensures f.Some? ==> f.value == nextLeastUnacked > 0
      ensures f.Some? <==> nextLeastUnacked > old(largestLeastUnackedSent) || (force && nextLeastUnacked > 0)
      ensures largestLeastUnackedSent == if f.Some? then nextLeastUnacked else old(largestLeastUnackedSent)
    {
      if nextLeastUnacked <= largestLeastUnackedSent {
        if force {
          return lastStopWaitingFrame;
        }
        return None;
      }
      largestLeastUnackedSent := nextLeastUnacked;
      lastStopWaitingFrame := Some(nextLeastUnacked);
      return lastStopWaitingFrame;
    }

    method ReceivedAck(largestAcked: nat)
      requires Valid()
      modifies this`nextLeastUnacked
      ensures Valid() && nextLeastUnacked == Max(old(nextLeastUnacked), largestAcked + 1)
    {
      if largestAcked >= nextLeastUnacked {
        nextLeastUnacked := largestAcked + 1;
      }
    }

    method QueuedRetransmissionForPacketNumber(p: nat)
      requires Valid()
      modifies this`nextLeastUnacked
      ensures Valid() && nextLeastUnacked == Max(old(nextLeastUnacked), p + 1)
    {
      if p >= nextLeastUnacked {
        nextLeastUnacked := p + 1;
      }
    }
  }

  class SentPacketHandler {
    var lastSentPacketNumber: nat
    var skippedPackets: seq<nat>
    var largestAcked: nat
    var largestReceivedPacketWithAck: nat
    var packetHistory: seq<Packet>
    const stopWaitingManager: StopWaitingManager
    var retransmissionQueue: seq<Packet>
    var bytesInFlight: int
    ghost var ackedPackets: seq<Packet>

    ghost function Value(): Handler
      reads this, stopWaitingManager
    {
      Handler(lastSentPacketNumber, skippedPackets, largestAcked, largestReceivedPacketWithAck,
              packetHistory, retransmissionQueue, ackedPackets, stopWaitingManager.nextLeastUnacked)
    }

    ghost predicate Valid()
      reads this, stopWaitingManager
    {
      Value().Valid() && stopWaitingManager.Valid() && bytesInFlight == TotalLength(packetHistory)
    }

    constructor ()
      ensures Valid() && fresh(stopWaitingManager)
      ensures Value() == Handler(0, [], 0, 0, [], [], [], 0)
    {
      lastSentPacketNumber, skippedPackets, largestAcked, largestReceivedPacketWithAck := 0, [], 0, 0;
      packetHistory, retransmissionQueue, bytesInFlight, ackedPackets := [], [], 0, [];
      stopWaitingManager := new StopWaitingManager();
    }

    /** Removes the packet at index `i`. */
    method AckPacket(i: nat)
      requires i < |packetHistory|
      modifies this`packetHistory, this`bytesInFlight, this`ackedPackets
      ensures packetHistory == old(packetHistory)[..i] + old(packetHistory)[i + 1..]
      ensures bytesInFlight == old(bytesInFlight) - old(packetHistory)[i].length
      ensures ackedPackets == old(ackedPackets) + [old(packetHistory)[i]]
    {
      var packet := packetHistory[i];
      bytesInFlight := bytesInFlight - packet.length;
      packetHistory := packetHistory[..i] + packetHistory[i + 1..];
      ackedPackets := ackedPackets + [packet];
    }

    method QueuePacketForRetransmission(i: nat)
      requires i < |packetHistory| && stopWaitingManager.Valid()
      modifies this`packetHistory, this`bytesInFlight, this`retransmissionQueue, stopWaitingManager`nextLeastUnacked
      ensures packetHistory == old(packetHistory)[..i] + old(packetHistory)[i + 1..]
      ensures bytesInFlight == old(bytesInFlight) - old(packetHistory)[i].length
      ensures retransmissionQueue == old(retransmissionQueue) + [old(packetHistory)[i]]
      ensures stopWaitingManager.Valid()
      ensures stopWaitingManager.nextLeastUnacked ==
              Max(old(stopWaitingManager.nextLeastUnacked), old(packetHistory)[i].number + 1)
    {
      var packet := packetHistory[i];
      bytesInFlight := bytesInFlight - packet.length;
      retransmissionQueue := retransmissionQueue + [packet];
      packetHistory := packetHistory[..i] + packetHistory[i + 1..];
      stopWaitingManager.QueuedRetransmissionForPacketNumber(packet.number);
    }

    /** Counts a missing report; the fourth queues the packet. */
    method NackPacket(i: nat) returns (retransmitted: bool)
      requires i < |packetHistory| && stopWaitingManager.Valid()
      modifies this`packetHistory, this`bytesInFlight, this`retransmissionQueue, stopWaitingManager`nextLeastUnacked
      ensures stopWaitingManager.Valid()
      ensures var p := old(packetHistory)[i].Report();
              && retransmitted == (p.missingReports > RETRANSMISSION_THRESHOLD)
              && (retransmitted ==>
                    && packetHistory == old(packetHistory)[..i] + old(packetHistory)[i + 1..]
                    && bytesInFlight == old(bytesInFlight) - p.length
                    && retransmissionQueue == old(retransmissionQueue) + [p]
                    && stopWaitingManager.nextLeastUnacked ==
                      Max(old(stopWaitingManager.nextLeastUnacked), p.number + 1))
              && (!retransmitted ==>
                    && packetHistory == old(packetHistory)[i := p]
                    && bytesInFlight == old(bytesInFlight)
                    && retransmissionQueue == old(retransmissionQueue)
                    && stopWaitingManager.nextLeastUnacked == old(stopWaitingManager.nextLeastUnacked))
    {
      var packet := packetHistory[i].Report();
      packetHistory := packetHistory[i := packet];
      if packet.missingReports > RETRANSMISSION_THRESHOLD {
        QueuePacketForRetransmission(i);
        return true;
      }
      return false;
    }

    function LargestInOrderAcked(): (n: int)
      reads this
      ensures packetHistory == [] ==> n == largestAcked
      ensures packetHistory != [] ==> n == packetHistory[0].number - 1
    {
      if |packetHistory| > 0 then packetHistory[0].number - 1 else largestAcked
    }

    ghost function CurrentLists(): Lists
      reads this
    {
      Lists(packetHistory, retransmissionQueue, ackedPackets)
    }

    /** Whether the ACK frame acknowledges a packet up to its largest, found by moving on in its ranges. */
    static method Decide(ack: AckFrame, packetNumber: nat, ackRangeIndex: nat) returns (k: nat, acked: bool)
      requires ack.WellFormed() && packetNumber <= ack.largestAcked && PassedBelow(ack, ackRangeIndex, packetNumber)
      ensures PassedBelow(ack, k, packetNumber) && (acked <==> ack.Acks(packetNumber))
    {
      k := ackRangeIndex;
      if packetNumber < ack.lowestAcked {
        acked := false;
      } else if ack.HasMissingRanges() {
        k := AdvanceRange(ack, packetNumber, k);
        RangeDecides(ack, packetNumber, k);
        acked := packetNumber >= ack.ackRanges[|ack.ackRanges| - 1 - k].first;
      } else {
        acked := true;
      }
    }

    /** Packet `i` of the history meets its fate. */
    method HandlePacket(ghost ack: AckFrame, i: nat, acked: bool) returns (removed: bool)
      requires stopWaitingManager.Valid() && i < |packetHistory|
      requires packetHistory[i].number <= ack.largestAcked && (acked <==> ack.Acks(packetHistory[i].number))
      modifies this`packetHistory, this`bytesInFlight, this`retransmissionQueue, this`ackedPackets,
               stopWaitingManager`nextLeastUnacked
      ensures stopWaitingManager.Valid() && removed == !Stays(ack, old(packetHistory)[i])
      ensures CurrentLists() == Meet(ack, old(CurrentLists()), i)
      ensures bytesInFlight == old(bytesInFlight) - if removed then old(packetHistory)[i].length else 0
      ensures old(stopWaitingManager.nextLeastUnacked) <= stopWaitingManager.nextLeastUnacked
              <= Max(old(stopWaitingManager.nextLeastUnacked), ack.largestAcked + 1)
    {
      if acked {
        AckPacket(i);
        removed := true;
      } else {
        removed := NackPacket(i);
      }
    }

    /** One turn of the walk, with one pointer into the history and one into the ranges. */
    method WalkOne(ack: AckFrame, el: nat, ackRangeIndex: nat, ghost h: Handler, ghost i: nat)
      returns (k: nat, removed: bool)
      requires ack.WellFormed() && stopWaitingManager.Valid() && bytesInFlight == TotalLength(packetHistory)
      requires WalkedTo(h, ack, i, CurrentLists()) && el == KeptSoFar(h, ack, i) < |packetHistory|
      requires packetHistory[el].number <= ack.largestAcked && PassedBelow(ack, ackRangeIndex, packetHistory[el].number)
      modifies this`packetHistory, this`bytesInFlight, this`retransmissionQueue, this`ackedPackets,
               stopWaitingManager`nextLeastUnacked
      ensures stopWaitingManager.Valid() && bytesInFlight == TotalLength(packetHistory)
      ensures WalkedTo(h, ack, i + 1, CurrentLists()) && KeptSoFar(h, ack, i + 1) == if removed then el else el + 1
      ensures PassedBelow(ack, k, old(packetHistory)[el].number)
      ensures old(stopWaitingManager.nextLeastUnacked) <= stopWaitingManager.nextLeastUnacked
              <= Max(old(stopWaitingManager.nextLeastUnacked), ack.largestAcked + 1)
    {
      ghost var now := CurrentLists();
      var acked;
      k, acked := Decide(ack, packetHistory[el].number, ackRangeIndex);
      WalkStep(h, ack, i, now, el);
      MeetLength(ack, now, el);
      removed := HandlePacket(ack, el, acked);
    }

    /** What holds when the walk over history `h` has passed `i` packets. */
    ghost predicate Walking(h: Handler, ack: AckFrame, i: nat, el: nat, ackRangeIndex: nat)
      reads this, stopWaitingManager
    {
      && i <= |h.history| && WalkedTo(h, ack, i, CurrentLists()) && el == KeptSoFar(h, ack, i)
      && stopWaitingManager.Valid() && bytesInFlight == TotalLength(packetHistory)
      && h.nextLeastUnacked <= stopWaitingManager.nextLeastUnacked <= Max(h.nextLeastUnacked, ack.largestAcked + 1)
      && (i < |h.history| ==> PassedBelow(ack, ackRangeIndex, h.history[i].number))
    }

    /** One packet of the walk; packets above the largest acknowledged one end it. */
    method WalkNext(ack: AckFrame, el: nat, ackRangeIndex: nat, ghost h: Handler, ghost i: nat)
      returns (el': nat, ackRangeIndex': nat, done: bool)
      requires ack.WellFormed() && Ordered(h.history, h.lastSent) && Walking(h, ack, i, el, ackRangeIndex) &&
               el < |packetHistory|
      modifies this`packetHistory, this`bytesInFlight, this`retransmissionQueue, this`ackedPackets,
               stopWaitingManager`nextLeastUnacked
      ensures i < |h.history|
      ensures !done ==> Walking(h, ack, i + 1, el', ackRangeIndex')
      ensures done ==> Walking(h, ack, i, el, ackRangeIndex) && h.history[i].number > ack.largestAcked
    {
      hide WalkedTo, KeptSoFar, Sorted, PassedBelow, Ordered;
      InFront(h, ack, i, CurrentLists(), el);
      if packetHistory[el].number > ack.largestAcked {
        return el, ackRangeIndex, true;
      }
      var removed;
      ackRangeIndex', removed := WalkOne(ack, el, ackRangeIndex, h, i);
      if i + 1 < |h.history| {
        PassedHigher(ack, ackRangeIndex', h.history[i].number, h.history[i + 1].number);
      }
      return if removed then el else el + 1, ackRangeIndex', false;
    }

    /** The walk over the whole history. */
    method Walk(ack: AckFrame)
      requires ack.WellFormed() && Ordered(packetHistory, lastSentPacketNumber)
      requires stopWaitingManager.Valid() && bytesInFlight == TotalLength(packetHistory)
      modifies this`packetHistory, this`bytesInFlight, this`retransmissionQueue, this`ackedPackets,
               stopWaitingManager`nextLeastUnacked
      ensures stopWaitingManager.Valid() && bytesInFlight == TotalLength(packetHistory)
      ensures var h := old(Value()); CurrentLists() == Sorted(h.queue, h.acked, ack, h.history, |h.history|)
      ensures old(stopWaitingManager.nextLeastUnacked) <= stopWaitingManager.nextLeastUnacked
              <= Max(old(stopWaitingManager.nextLeastUnacked), ack.largestAcked + 1)
    {
      hide WalkedTo, KeptSoFar, Sorted, PassedBelow, Ordered, TotalLength;
      ghost var h := Value();
      ghost var i: nat := 0;
      var ackRangeIndex: nat, el: nat := 0, 0;
      WalkStart(h, ack);
      StartPassed(ack, h.history);
      while el < |packetHistory|
        invariant Walking(h, ack, i, el, ackRangeIndex)
        decreases |h.history| - i
      {
        var done;
        el, ackRangeIndex, done := WalkNext(ack, el, ackRangeIndex, h, i);
        if done {
          break;
        }
        i := i + 1;
      }
      WalkOver(h, ack, i, CurrentLists());
    }

    /** Drops the leading skipped packets that do not exceed the largest packet acknowledged in order. */
    method GarbageCollectSkippedPackets(ghost bound: int)
      requires Increasing(skippedPackets, lastSentPacketNumber) && bound == LargestInOrderAcked()
      modifies this`skippedPackets
      ensures skippedPackets == Above(old(skippedPackets), bound)
    {
      var lioa := LargestInOrderAcked();
      var deleteIndex := 0;
      for i := 0 to |skippedPackets|
        invariant deleteIndex <= i
        invariant forall j :: 0 <= j < deleteIndex ==> skippedPackets[j] <= lioa
        invariant forall j :: deleteIndex <= j < i ==> skippedPackets[j] > lioa
      {
        if skippedPackets[i] <= lioa {
          deleteIndex := i + 1;
          forall j | 0 <= j < i
            ensures skippedPackets[j] <= lioa
          {
            IncreasingPair(skippedPackets, lastSentPacketNumber, j, i);
          }
        }
      }
      AboveIs(skippedPackets, lioa, deleteIndex);
      skippedPackets := skippedPackets[deleteIndex..];
    }

    /** Takes in an ACK frame: exactly the packets it acknowledges leave the history, every other packet
        up to its largest gets one missing report, and the fourth report queues a packet. */
    method ReceivedAck(ack: AckFrame, withPacketNumber: nat) returns (r: AckResult)
      requires Valid() && ack.WellFormed()
      modifies this, stopWaitingManager`nextLeastUnacked
      ensures Valid()
      ensures r == old(Value()).AckResultOf(ack, withPacketNumber)
      ensures Value() == old(Value()).ReceivedAck(ack, withPacketNumber)
    {
      if ack.largestAcked > lastSentPacketNumber {
        return AckForUnsentPacket;
      }
      if withPacketNumber <= largestReceivedPacketWithAck {
        return DuplicateOrOutOfOrderAck;
      }
      largestReceivedPacketWithAck := withPacketNumber;
      if ack.largestAcked <= LargestInOrderAcked() {
        return Ok;
      }
      var skipped := AcksAny(ack, skippedPackets);
      if skipped {
        return AckForSkippedPacket;
      }
      ProcessAck(ack);
      return Ok;
    }

    /** The part of ReceivedAck behind all checks. */
    method ProcessAck(ack: AckFrame)
      requires Valid() && ack.WellFormed() && ack.largestAcked <= lastSentPacketNumber
      modifies this, stopWaitingManager`nextLeastUnacked
      ensures Valid() && Value() == old(Value()).Walked(ack)
    {
      WalkedValid(Value(), ack);
      largestAcked := ack.largestAcked;
      Walk(ack);
      GarbageCollectSkippedPackets(LargestInOrderAcked());
      stopWaitingManager.ReceivedAck(ack.largestAcked);
      assert Value() == old(Value()).Walked(ack);
    }

    static method AcksAny(ack: AckFrame, numbers: seq<nat>) returns (b: bool)
      requires ack.WellFormed()
      ensures b <==> exists i :: 0 <= i < |numbers| && ack.Acks(numbers[i])
    {
      for i := 0 to |numbers|
        invariant forall j :: 0 <= j < i ==> !ack.Acks(numbers[j])
      {
        var acked := ack.AcksPacket(numbers[i]);
        if acked {
          return true;
        }
      }
      return false;
    }

    /** Records a sent packet, and the numbers left out since the last one. */
    method SentPacket(packet: Packet) returns (r: SentResult)
      requires Valid() && packet.missingReports == 0
      modifies this
      ensures r == if packet.number <= old(lastSentPacketNumber) then PacketNumberNotIncreasing
                   else if packet.length == 0 then EmptyPacket else SentOk
      ensures r == SentOk ==> Valid() && Value() == old(Value()).Sent(packet)
      ensures r == PacketNumberNotIncreasing ==> unchanged(this)
    {
      if packet.number <= lastSentPacketNumber {
        return PacketNumberNotIncreasing;
      }
      ghost var v := Value().Sent(packet);
      SentValid(Value(), packet);
      RecordSkipped(packet.number);
      if packet.length == 0 {
        return EmptyPacket;
      }
      TotalSnoc(packetHistory, packet);
      bytesInFlight := bytesInFlight + packet.length;
      lastSentPacketNumber := packet.number;
      packetHistory := packetHistory + [packet];
      assert Value() == v;
      return SentOk;
    }

    method RecordSkipped(end: nat)
      requires lastSentPacketNumber < end
      modifies this`skippedPackets
      ensures skippedPackets == Skip(old(skippedPackets), lastSentPacketNumber + 1, end)
    {
      var p := lastSentPacketNumber + 1;
      while p < end
        invariant p <= end && Skip(skippedPackets, p, end) == Skip(old(skippedPackets), lastSentPacketNumber + 1, end)
      {
        skippedPackets := skippedPackets + [p];
        if |skippedPackets| > MAX_TRACKED_SKIPPED_PACKETS {
          skippedPackets := skippedPackets[1..];
        }
        p := p + 1;
      }
    }

    method DequeuePacketForRetransmission() returns (p: Option<Packet>)
      requires Valid()
      modifies this
      ensures Valid() && Value() == old(Value()).Dequeued()
      ensures p == if old(retransmissionQueue) == [] then None
              else Some(old(retransmissionQueue)[|old(retransmissionQueue)| - 1])
    {
      var queueLen := |retransmissionQueue|;
      if queueLen == 0 {
        return None;
      }
      p := Some(retransmissionQueue[queueLen - 1]);
      retransmissionQueue := retransmissionQueue[..queueLen - 1];
    }

    /** On a timeout the two oldest packets are queued. */
    method MaybeQueueRTOs(expired: bool)
      requires Valid()
      modifies this, stopWaitingManager`nextLeastUnacked
      ensures Valid()
      ensures Value() == if expired then old(Value()).QueueFirst().QueueFirst() else old(Value())
    {
      if !expired {
        return;
      }
      if |packetHistory| > 0 {
        QueueRTO();
      }
      if |packetHistory| > 0 {
        QueueRTO();
      }
    }

    method QueueRTO()
      requires Valid() && |packetHistory| > 0
      modifies this, stopWaitingManager`nextLeastUnacked
      ensures Valid() && Value() == old(Value()).QueueFirst()
    {
      QueueFirstValid(Value());
      TotalTail(packetHistory);
      QueuePacketForRetransmission(0);
      assert packetHistory == old(packetHistory)[1..];
    }

    method GetLeastUnacked() returns (n: int)
      ensures n == Value().GetLeastUnacked()
    {
      return LargestInOrderAcked() + 1;
    }

    /** More packets are tracked than allowed, which ends the session. */
    method CheckForError() returns (tooMany: bool)
      ensures tooMany <==> Value().Tracked() > MAX_TRACKED_SENT_PACKETS
    {
      var length := |retransmissionQueue| + |packetHistory|;
      return length > MAX_TRACKED_SENT_PACKETS;
    }

    /** The congestion controller's verdict is an argument. */
    method SendingAllowed(congestionLimited: bool) returns (b: bool)
      ensures b <==> !congestionLimited && Value().Tracked() < MAX_TRACKED_SENT_PACKETS
    {
      var maxTrackedLimited := |retransmissionQueue| + |packetHistory| >= MAX_TRACKED_SENT_PACKETS;
      return !(congestionLimited || maxTrackedLimited);
    }
  }
}
