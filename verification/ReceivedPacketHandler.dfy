/** The handler of received packets (ackhandler/received_packet_handler.go), and the order in which a
    session registers a packet and handles its frames (session.go). */
module ReceivedPacketHandlers {
  import opened Frames
  import opened PacketRanges
  import opened AckFrames
  import opened ReceivedPacketHistories

  datatype ReceiveResult =
    | Accepted
    | InvalidPacketNumber
    | PacketSmallerThanLastStopWaiting
    | DuplicatePacket
    | HistoryError(result: HistoryResult)

  /** The frame acknowledges only numbers of `s`, up to `largest`. */
  ghost predicate AcksOnly(f: AckFrame, largest: int, s: set<int>) {
    f.WellFormed() && f.largestAcked == largest && forall p :: f.Acks(p) ==> p in s
  }

  /** The frame acknowledges every number of `s`. */
  ghost predicate AcksAll(f: AckFrame, s: set<int>) {
    forall p :: p in s ==> f.Acks(p)
  }

  lemma AtLeastAdd(s: set<int>, p: int, bound: int)
    requires bound <= p
    ensures AtLeast(s + {p}, bound) == AtLeast(s, bound) + {p}
  {
  }

  /** The highest of some numbers and `floor`. */
  function Highest(ns: seq<nat>, floor: nat): nat {
    if ns == [] then floor
    else
      var h, n := Highest(ns[..|ns| - 1], floor), ns[|ns| - 1];
      if n > h then n else h
  }

  class ReceivedPacketHandler {
    var largestObserved: nat
    var ignorePacketsBelow: nat
    var currentAckFrame: Option<AckFrame>
    var stateChanged: bool
    const packetHistory: ReceivedPacketHistory

    ghost predicate Valid()
      reads this, packetHistory
    {
      && packetHistory.Valid()
      && ignorePacketsBelow == (if packetHistory.lowestInReceivedPacketNumbers == 0 then 0
                                else packetHistory.lowestInReceivedPacketNumbers - 1)
      && (forall p :: p in packetHistory.registered ==> 1 <= p <= largestObserved)
      && packetHistory.receivedPacketNumbers ==
         AtLeast(packetHistory.registered, packetHistory.lowestInReceivedPacketNumbers)
      && (largestObserved > 0 ==> largestObserved in packetHistory.registered)
      && (stateChanged ==> largestObserved > 0)
      && (currentAckFrame.Some? ==>
            && AcksOnly(currentAckFrame.value, largestObserved, packetHistory.registered)
            && AcksAll(currentAckFrame.value, packetHistory.receivedPacketNumbers))
    }

    /** The largest packet was not forgotten. A session keeps this by registering a packet before it
        handles the packet's STOP_WAITING frames. */
    ghost predicate Settled()
      reads this, packetHistory
    {
      packetHistory.lowestInReceivedPacketNumbers <= largestObserved
    }

    constructor ()
      ensures Valid() && Settled() && fresh(packetHistory) && packetHistory.registered == {}
    {
      largestObserved, ignorePacketsBelow, currentAckFrame, stateChanged := 0, 0, None, false;
      packetHistory := new ReceivedPacketHistory();
    }

    /** A packet that is new, that the peer did not give up, and that there is room for. */
    ghost predicate Welcome(packetNumber: nat)
      reads this, packetHistory
    {
      && packetNumber > 0 && packetNumber !in packetHistory.registered
      && packetHistory.lowestInReceivedPacketNumbers <= packetNumber && packetHistory.HasRoom()
    }

    /** Exactly the packets that are welcome are accepted. */
    method ReceivedPacket(packetNumber: nat) returns (r: ReceiveResult)
      requires Valid()
      modifies this, packetHistory
      ensures Valid() && (old(Settled()) ==> Settled())
      ensures r == Accepted <==> old(Welcome(packetNumber))
      ensures r == InvalidPacketNumber <==> packetNumber == 0
      ensures r == Accepted ==>
              && packetHistory.registered == old(packetHistory.registered) + {packetNumber} && stateChanged
              && packetHistory.receivedPacketNumbers == old(packetHistory.receivedPacketNumbers) + {packetNumber}
              && currentAckFrame.None?
              && largestObserved == if packetNumber > old(largestObserved) then packetNumber else old(largestObserved)
      ensures r != Accepted ==> unchanged(this) && unchanged(packetHistory)
      ensures packetHistory.lowestInReceivedPacketNumbers == old(packetHistory.lowestInReceivedPacketNumbers)
      ensures r == PacketSmallerThanLastStopWaiting <==>
              0 < packetNumber < old(packetHistory.lowestInReceivedPacketNumbers)
      ensures r == DuplicatePacket <==>
              packetNumber >= old(packetHistory.lowestInReceivedPacketNumbers) &&
                packetNumber in old(packetHistory.registered)
    {
      hide AtLeast, AcksAll, AcksOnly, ReceivedPacketHistory.Valid;
      if packetNumber == 0 {
        return InvalidPacketNumber;
      }
      if packetNumber <= ignorePacketsBelow {
        return PacketSmallerThanLastStopWaiting;
      }
      var duplicate := packetHistory.IsDuplicate(packetNumber);
      if duplicate {
        return DuplicatePacket;
      }
      AtLeastAdd(packetHistory.registered, packetNumber, packetHistory.lowestInReceivedPacketNumbers);
      var h := packetHistory.ReceivedPacket(packetNumber);
      if h != Ok {
        return HistoryError(h);
      }
      stateChanged := true;
      currentAckFrame := None;
      if packetNumber > largestObserved {
        largestObserved := packetNumber;
      }
      return Accepted;
    }

    method ReceivedStopWaiting(leastUnacked: nat)
      requires Valid()
      modifies this, packetHistory
      ensures Valid() && packetHistory.registered == old(packetHistory.registered) &&
              largestObserved == old(largestObserved)
      ensures packetHistory.lowestInReceivedPacketNumbers ==
              Highest([leastUnacked], old(packetHistory.lowestInReceivedPacketNumbers))
      ensures packetHistory.receivedPacketNumbers == AtLeast(old(packetHistory.receivedPacketNumbers),
                                                             packetHistory.lowestInReceivedPacketNumbers)
      ensures leastUnacked <= packetHistory.lowestInReceivedPacketNumbers
      ensures forall p :: p in packetHistory.receivedPacketNumbers <==>
              p in old(packetHistory.receivedPacketNumbers) && packetHistory.lowestInReceivedPacketNumbers <= p
      ensures stateChanged == old(stateChanged) && currentAckFrame == old(currentAckFrame)
    {
      if ignorePacketsBelow >= leastUnacked {
        return;
      }
      ignorePacketsBelow := leastUnacked - 1;
      packetHistory.DeleteBelow(leastUnacked);
    }

    /** The list of ranges is never empty, and a frame, cached or not, acknowledges only packets that were received, and
        every one that the peer still waits for. A frame built from the current state acknowledges exactly those. */
    method GetAckFrame(dequeue: bool) returns (f: Option<AckFrame>)
      requires Valid() && Settled()
      modifies this
      ensures Valid() && Settled()
      ensures f.Some? <==> old(stateChanged)
      ensures stateChanged == (old(stateChanged) && !dequeue)
      ensures f.Some? ==> AcksOnly(f.value, largestObserved, packetHistory.registered)
      ensures f.Some? ==> AcksAll(f.value, packetHistory.receivedPacketNumbers) && currentAckFrame == f
      ensures f.Some? && old(currentAckFrame).None? ==> forall p :: f.value.Acks(p) <==>
              p in packetHistory.receivedPacketNumbers
    {
      if !stateChanged {
        return None;
      }
      if dequeue {
        stateChanged := false;
      }
      if currentAckFrame.Some? {
        return currentAckFrame;
      }
      var ackRanges := packetHistory.GetAckRanges();
      TopRange(ackRanges, packetHistory.receivedPacketNumbers, largestObserved);
      var frame := AckFrame(largestObserved, ackRanges[|ackRanges| - 1].first, [], 0);
      if |ackRanges| > 1 {
        frame := frame.(ackRanges := ackRanges);
      }
      currentAckFrame := Some(frame);
      return currentAckFrame;
    }
  }

  /** The first of the descending ranges ends with the largest number. */
  lemma TopRange(rs: seq<PacketRange>, s: set<int>, largest: int)
    requires Descending(rs) && (forall p :: InRanges(rs, p) <==> p in s)
    requires largest in s && forall p :: p in s ==> p <= largest
    ensures rs != [] && rs[0].last == largest
  {
    assert InRanges(rs, largest);
    assert rs[0].Contains(rs[0].last) && InRanges(rs, rs[0].last);
  }

  /** A session registers a packet before it handles the frames in it, and every STOP_WAITING frame that was
      parsed with the packet announces at most the packet's own number. So an ACK frame can always be built. */
  method HandlePacket(h: ReceivedPacketHandler, packetNumber: nat, leastUnacked: seq<nat>) returns (r: ReceiveResult)
    requires h.Valid() && h.Settled() && forall i :: 0 <= i < |leastUnacked| ==> leastUnacked[i] <= packetNumber
    modifies h, h.packetHistory
    ensures h.Valid() && h.Settled()
    ensures r == Accepted <==> old(h.Welcome(packetNumber))
    ensures r == Accepted ==>
            && h.packetHistory.registered == old(h.packetHistory.registered) + {packetNumber} && h.stateChanged
            && packetNumber in h.packetHistory.receivedPacketNumbers && h.currentAckFrame.None?
            && h.packetHistory.lowestInReceivedPacketNumbers ==
              Highest(leastUnacked, old(h.packetHistory.lowestInReceivedPacketNumbers))
            && forall i :: 0 <= i < |leastUnacked| ==>
                 leastUnacked[i] <= h.packetHistory.lowestInReceivedPacketNumbers <= packetNumber
    ensures r != Accepted ==> unchanged(h) && unchanged(h.packetHistory)
  {
    hide ReceivedPacketHandler.Valid, ReceivedPacketHandler.Welcome;
    r := h.ReceivedPacket(packetNumber);
    if r != Accepted {
      return;
    }
    ghost var floor := h.packetHistory.lowestInReceivedPacketNumbers;
    for i := 0 to |leastUnacked|
      invariant h.Valid() && packetNumber <= h.largestObserved && h.Settled()
      invariant h.packetHistory.registered == old(h.packetHistory.registered) + {packetNumber} && h.stateChanged
      invariant packetNumber in h.packetHistory.receivedPacketNumbers && h.currentAckFrame.None?
      invariant h.packetHistory.lowestInReceivedPacketNumbers <= packetNumber
      invariant forall j :: 0 <= j < i ==> leastUnacked[j] <= h.packetHistory.lowestInReceivedPacketNumbers
      invariant h.packetHistory.lowestInReceivedPacketNumbers == Highest(leastUnacked[..i], floor)
    {
      assert leastUnacked[..i + 1][..i] == leastUnacked[..i] && [leastUnacked[i]][..0] == [];
      h.ReceivedStopWaiting(leastUnacked[i]);
    }
    assert leastUnacked[..|leastUnacked|] == leastUnacked;
  }

  /** Every packet that is accepted is acknowledged by the ACK frame that is built next. */
  method HandleAndAcknowledge(h: ReceivedPacketHandler, packetNumber: nat, leastUnacked: seq<nat>, dequeue: bool)
    returns (r: ReceiveResult, f: Option<AckFrame>)
    requires h.Valid() && h.Settled() && forall i :: 0 <= i < |leastUnacked| ==> leastUnacked[i] <= packetNumber
    modifies h, h.packetHistory
    ensures h.Valid() && h.Settled() && (r == Accepted <==> old(h.Welcome(packetNumber)))
    ensures r == Accepted ==> f.Some? && f.value.Acks(packetNumber)
  {
    r := HandlePacket(h, packetNumber, leastUnacked);
    f := h.GetAckFrame(dequeue);
  }
}
