/** The history of received packet numbers (ackhandler/received_packet_history.go): a list of ranges
    kept beside a set of numbers. */
module ReceivedPacketHistories {
  import opened PacketRanges

  const MAX_TRACKED_RECEIVED_ACK_RANGES := 1000
  const MAX_TRACKED_RECEIVED_PACKETS := 2000

  datatype HistoryResult = Ok | TooManyOutstandingReceivedAckRanges | TooManyOutstandingReceivedPackets

  // ---------------------------------------------------------------------------------------------
  // Adding one number to a list of maximal ranges
  // ---------------------------------------------------------------------------------------------

  /** Every range behind index `i` lies above `p` and does not touch it. */
  predicate ClearAbove(rs: seq<PacketRange>, i: int, p: int) {
    forall j :: 0 <= j < |rs| && i < j ==> p + 1 < rs[j].first
  }

  /** Replacing the ranges [i, j) by one that holds their numbers and `p` adds exactly `p`. */
  lemma Added(rs: seq<PacketRange>, s: set<int>, i: int, j: int, r: PacketRange, p: int)
    requires 0 <= i <= j <= |rs| && Decomposes(rs, s) && 0 <= r.first <= r.last && Between(rs, i, j, r)
    requires forall q :: r.Contains(q) <==> InRanges(rs[i..j], q) || q == p
    ensures Decomposes(Splice(rs, i, j, [r]), s + {p})
  {
    SpliceAscending(rs, i, j, r);
    forall q
      ensures InRanges(Splice(rs, i, j, [r]), q) <==> q in s + {p}
    {
      InSplice(rs, i, j, [r], q);
      assert InRanges([r], q) <==> r.Contains(q) by {
        assert [r][0] == r;
      }
    }
  }

  lemma Extended(rs: seq<PacketRange>, s: set<int>, i: int, r: PacketRange, p: int)
    requires 0 <= i < |rs| && Decomposes(rs, s) && ClearAbove(rs, i, p) && 0 <= p
    requires (rs[i].last == p - 1 && r == PacketRange(rs[i].first, p)) ||
             (rs[i].first == p + 1 && r == PacketRange(p, rs[i].last))
    requires i > 0 ==> rs[i - 1].last + 1 != r.first && (rs[i].first == p + 1 ==> rs[i - 1].last < p)
    ensures Decomposes(rs[i := r], s + {p})
  {
    forall q
      ensures r.Contains(q) <==> InRanges(rs[i..i + 1], q) || q == p
    {
      assert rs[i..i + 1][0] == rs[i];
    }
    Added(rs, s, i, i + 1, r, p);
    assert rs[i := r] == Splice(rs, i, i + 1, [r]);
  }

  lemma Merged(rs: seq<PacketRange>, s: set<int>, i: int, p: int)
    requires 0 < i < |rs| && Decomposes(rs, s)
    requires rs[i - 1].last == p - 1 && rs[i].first == p + 1
    ensures Decomposes(Splice(rs, i - 1, i + 1, [PacketRange(rs[i - 1].first, rs[i].last)]), s + {p})
  {
    var r := PacketRange(rs[i - 1].first, rs[i].last);
    forall q
      ensures r.Contains(q) <==> InRanges(rs[i - 1..i + 1], q) || q == p
    {
      assert rs[i - 1..i + 1][0] == rs[i - 1] && rs[i - 1..i + 1][1] == rs[i];
    }
    Added(rs, s, i - 1, i + 1, r, p);
  }

  lemma Inserted(rs: seq<PacketRange>, s: set<int>, i: int, p: int)
    requires 0 <= i <= |rs| && Decomposes(rs, s) && ClearAbove(rs, i - 1, p) && 0 <= p
    requires i > 0 ==> rs[i - 1].last + 1 < p
    ensures Decomposes(Splice(rs, i, i, [PacketRange(p, p)]), s + {p})
  {
    Added(rs, s, i, i, PacketRange(p, p), p);
  }

  // ---------------------------------------------------------------------------------------------
  // Removing all numbers below a bound
  // ---------------------------------------------------------------------------------------------

  function AtLeast(s: set<int>, bound: int): set<int> {
    set q | q in s && bound <= q
  }

  /** A first range that ends below the bound goes away with all its numbers. */
  lemma RemovedFront(rs: seq<PacketRange>, s: set<int>)
    requires Decomposes(rs, s) && rs != []
    ensures Decomposes(rs[1..], AtLeast(s, rs[0].last + 1))
  {
    forall q
      ensures InRanges(rs[1..], q) <==> q in AtLeast(s, rs[0].last + 1)
    {
      TailRanges(rs, q);
    }
  }

  /** A first range that reaches across the bound is shortened. */
  lemma TrimmedFront(rs: seq<PacketRange>, s: set<int>, bound: int)
    requires Decomposes(rs, s) && rs != [] && rs[0].Contains(bound)
    ensures Decomposes(rs[0 := PacketRange(bound, rs[0].last)], AtLeast(s, bound))
  {
    var rs' := rs[0 := PacketRange(bound, rs[0].last)];
    forall q
      ensures InRanges(rs', q) <==> q in AtLeast(s, bound)
    {
      if InRanges(rs', q) {
        var k :| 0 <= k < |rs'| && rs'[k].Contains(q);
        assert rs[k].Contains(q);
      }
      if q in AtLeast(s, bound) {
        var k :| 0 <= k < |rs| && rs[k].Contains(q);
        assert rs'[k].Contains(q);
      }
    }
  }

  lemma NothingBelow(rs: seq<PacketRange>, s: set<int>, bound: int)
    requires Decomposes(rs, s) && (rs == [] || bound <= rs[0].first)
    ensures AtLeast(s, bound) == s
  {
    forall q | q in s
      ensures bound <= q
    {
      assert InRanges(rs, q);
    }
  }

  // ---------------------------------------------------------------------------------------------
  // The history
  // ---------------------------------------------------------------------------------------------

  class ReceivedPacketHistory {
    var ranges: seq<PacketRange>
    var receivedPacketNumbers: set<int>
    var lowestInReceivedPacketNumbers: nat
    ghost var registered: set<int>  // every packet number ever registered

    ghost predicate Valid()
      reads this
    {
      && Decomposes(ranges, receivedPacketNumbers)
      && receivedPacketNumbers <= registered
      && AtLeast(registered, lowestInReceivedPacketNumbers) <= receivedPacketNumbers
    }

    constructor ()
      ensures Valid() && receivedPacketNumbers == {} && registered == {} && lowestInReceivedPacketNumbers == 0
    {
      ranges, receivedPacketNumbers, lowestInReceivedPacketNumbers := [], {}, 0;
      registered := {};
    }

    /** Neither of the limits on what is tracked is reached. */
    ghost predicate HasRoom()
      reads this
    {
      |ranges| < MAX_TRACKED_RECEIVED_ACK_RANGES && |receivedPacketNumbers| < MAX_TRACKED_RECEIVED_PACKETS
    }

    /** Registers packet `p`: afterwards the ranges decompose the old set plus `p`. */
    method ReceivedPacket(p: nat) returns (r: HistoryResult)
      requires Valid()
      modifies this
      ensures Valid() && lowestInReceivedPacketNumbers == old(lowestInReceivedPacketNumbers)
      ensures r == if |old(ranges)| >= MAX_TRACKED_RECEIVED_ACK_RANGES then TooManyOutstandingReceivedAckRanges
                   else if |old(receivedPacketNumbers)| >= MAX_TRACKED_RECEIVED_PACKETS
                     then TooManyOutstandingReceivedPackets
                   else Ok
      ensures if r == Ok
              then receivedPacketNumbers == old(receivedPacketNumbers) + {p} && registered == old(registered) + {p}
              else unchanged(this)
    {
      if |ranges| >= MAX_TRACKED_RECEIVED_ACK_RANGES {
        return TooManyOutstandingReceivedAckRanges;
      }
      if |receivedPacketNumbers| >= MAX_TRACKED_RECEIVED_PACKETS {
        return TooManyOutstandingReceivedPackets;
      }
      ranges := AddToRanges(ranges, receivedPacketNumbers, p);
      receivedPacketNumbers := receivedPacketNumbers + {p};
      registered := registered + {p};
      return Ok;
    }

    /** The walk from the highest range down that extends, merges or inserts a range. */
    static method AddToRanges(ranges: seq<PacketRange>, ghost s: set<int>, p: nat) returns (r: seq<PacketRange>)
      requires Decomposes(ranges, s)
      ensures Decomposes(r, s + {p})
    {
      if |ranges| == 0 {
        Inserted(ranges, s, 0, p);
        return Splice(ranges, 0, 0, [PacketRange(p, p)]);
      }
      var i := |ranges| - 1;
      while i >= 0
        invariant -1 <= i < |ranges|
        invariant ClearAbove(ranges, i, p)
      {
        var el := ranges[i];
        if el.Contains(p) {
          assert s + {p} == s by { assert InRanges(ranges, p); }
          return ranges;
        }
        if el.last == p - 1 || el.first == p + 1 {
          var el' := if el.last == p - 1 then PacketRange(el.first, p) else PacketRange(p, el.last);
          if i > 0 && ranges[i - 1].last + 1 == el'.first {
            Merged(ranges, s, i, p);
            return Splice(ranges, i - 1, i + 1, [PacketRange(ranges[i - 1].first, el'.last)]);
          }
          Extended(ranges, s, i, el', p);
          return ranges[i := el'];
        }
        if p > el.last {
          Inserted(ranges, s, i + 1, p);
          return Splice(ranges, i + 1, i + 1, [PacketRange(p, p)]);
        }
        i := i - 1;
      }
      Inserted(ranges, s, 0, p);
      return Splice(ranges, 0, 0, [PacketRange(p, p)]);
    }

    /** Forgets exactly the numbers below `leastUnacked`. */
    method DeleteBelow(leastUnacked: nat)
      requires Valid()
      modifies this
      ensures Valid() && registered == old(registered)
      ensures receivedPacketNumbers == AtLeast(old(receivedPacketNumbers), leastUnacked)
      ensures forall p :: p in receivedPacketNumbers <==> p in old(receivedPacketNumbers) && leastUnacked <= p
      ensures lowestInReceivedPacketNumbers ==
              if leastUnacked > old(lowestInReceivedPacketNumbers) then leastUnacked
                else old(lowestInReceivedPacketNumbers)
    {
      if leastUnacked > lowestInReceivedPacketNumbers {
        lowestInReceivedPacketNumbers := leastUnacked;
      }
      while |ranges| > 0
        invariant Decomposes(ranges, receivedPacketNumbers)
        invariant receivedPacketNumbers <= old(receivedPacketNumbers)
        invariant AtLeast(receivedPacketNumbers, leastUnacked) == AtLeast(old(receivedPacketNumbers), leastUnacked)
        invariant registered == old(registered)
        invariant lowestInReceivedPacketNumbers ==
                  if leastUnacked > old(lowestInReceivedPacketNumbers) then leastUnacked
                    else old(lowestInReceivedPacketNumbers)
        decreases |ranges|
      {
        var el := ranges[0];
        ghost var s := receivedPacketNumbers;
        if el.first < leastUnacked <= el.last {
          TrimmedFront(ranges, s, leastUnacked);
          DeleteNumbers(el.first, leastUnacked);
          assert receivedPacketNumbers == AtLeast(s, leastUnacked);
          ranges := ranges[0 := PacketRange(leastUnacked, el.last)];
          // the remaining ranges lie above the bound
          return;
        } else if el.last < leastUnacked {
          RemovedFront(ranges, s);
          DeleteNumbers(el.first, el.last + 1);
          ranges := ranges[1..];
        } else {
          break;
        }
      }
      NothingBelow(ranges, receivedPacketNumbers, leastUnacked);
    }

    /** Deletes the entries from `first` up to, not including, `end`. */
    method DeleteNumbers(first: int, end: int)
      requires first <= end
      modifies this`receivedPacketNumbers
      ensures receivedPacketNumbers == set q | q in old(receivedPacketNumbers) && !(first <= q < end)
    {
      for i := first to end
        invariant receivedPacketNumbers == set q | q in old(receivedPacketNumbers) && !(first <= q < i)
      {
        receivedPacketNumbers := receivedPacketNumbers - {i};
      }
    }

    /** A packet is a duplicate exactly when it was registered before or lies below the bound of deletion. */
    method IsDuplicate(p: nat) returns (b: bool)
      requires Valid()
      ensures b <==> p in registered || p < lowestInReceivedPacketNumbers
    {
      if p < lowestInReceivedPacketNumbers {
        return true;
      }
      return p in receivedPacketNumbers;
    }

    /** The ranges of an ACK frame: descending, maximal, and exactly the numbers in the history. */
    method GetAckRanges() returns (ackRanges: seq<PacketRange>)
      requires Valid()
      ensures Descending(ackRanges)
      ensures forall p :: InRanges(ackRanges, p) <==> p in receivedPacketNumbers
      ensures ackRanges == Reversed(ranges)
    {
      ackRanges := [];
      var i := |ranges| - 1;
      while i >= 0
        invariant -1 <= i < |ranges|
        invariant ackRanges == Reversed(ranges)[..|ranges| - 1 - i]
      {
        ackRanges := ackRanges + [ranges[i]];
        i := i - 1;
      }
      assert ackRanges == Reversed(ranges);
      forall p
        ensures InRanges(ackRanges, p) <==> p in receivedPacketNumbers
      {
        ReversedRanges(ranges, p);
      }
    }
  }
}
