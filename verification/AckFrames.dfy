/** ACK frames (frames/ack_frame.go): which packets they acknowledge, and the block form of their ranges. */
module AckFrames {
  import opened PacketRanges

  /** `ackRanges` is empty when no packet between `lowestAcked` and `largestAcked` is missing. */
  datatype AckFrame = AckFrame(largestAcked: nat, lowestAcked: nat, ackRanges: seq<PacketRange>, delayTime: nat) {

    predicate HasMissingRanges() {
      |ackRanges| > 0
    }

    predicate WellFormed() {
      if HasMissingRanges() then
        && |ackRanges| >= 2 && Descending(ackRanges)
        && ackRanges[0].last == largestAcked && ackRanges[|ackRanges| - 1].first == lowestAcked
      else lowestAcked <= largestAcked
    }

    /** The packets a frame acknowledges. */
    ghost predicate Acks(p: int) {
      if HasMissingRanges() then InRanges(ackRanges, p) else lowestAcked <= p <= largestAcked
    }

    /** The range check before the search is only an optimization. */
    method AcksPacket(p: nat) returns (b: bool)
      requires WellFormed()
      ensures b <==> Acks(p)
    {
      if p < lowestAcked || p > largestAcked {
        return false;
      }
      if HasMissingRanges() {
        for i := 0 to |ackRanges|
          invariant forall j :: 0 <= j < i ==> !ackRanges[j].Contains(p)
        {
          if ackRanges[i].Contains(p) {
            return true;
          }
        }
        return false;
      }
      return lowestAcked <= p <= largestAcked;
    }
  }

  // ---------------------------------------------------------------------------------------------
  // Blocks: on the wire a range is a gap of missing packets below the previous range and a length.
  // A gap of more than 255 packets is spread over several blocks; all but the last have length 0.
  // ---------------------------------------------------------------------------------------------

  datatype Block = Block(gap: nat, length: nat)

  /** The range of `length` packets that lies `gap` packets below `above`, in unbounded integers. */
  function Below(above: PacketRange, gap: int, length: int): PacketRange {
    PacketRange(above.first - gap - length, above.first - gap - 1)
  }

  /** The ranges described by the blocks read so far, and the gap collected by an unfinished chain. */
  datatype Decoder = Decoder(ranges: seq<PacketRange>, carry: nat) {

    function Feed(b: Block): (d: Decoder)
      requires ranges != []
      ensures d.ranges != [] && d.ranges[0] == ranges[0]
    {
      if b.length == 0 then Decoder(ranges, carry + b.gap)
      else Decoder(ranges + [Below(ranges[|ranges| - 1], carry + b.gap, b.length)], 0)
    }

    function FeedAll(bs: seq<Block>): (d: Decoder)
      requires ranges != []
      ensures d.ranges != [] && d.ranges[0] == ranges[0]
      decreases |bs|
    {
      if bs == [] then this else Feed(bs[0]).FeedAll(bs[1..])
    }
  }

  lemma {:induction false} FeedConcat(d: Decoder, bs: seq<Block>, cs: seq<Block>)
    requires d.ranges != []
    ensures d.FeedAll(bs + cs) == d.FeedAll(bs).FeedAll(cs)
    decreases |bs|
  {
    if bs == [] {
      assert bs + cs == cs;
    } else {
      assert (bs + cs)[0] == bs[0] && (bs + cs)[1..] == bs[1..] + cs;
      FeedConcat(d.Feed(bs[0]), bs[1..], cs);
    }
  }

  lemma FeedSnoc(d: Decoder, bs: seq<Block>, b: Block)
    requires d.ranges != []
    ensures d.FeedAll(bs + [b]) == d.FeedAll(bs).Feed(b)
  {
    FeedConcat(d, bs, [b]);
    assert [b][1..] == [];
  }

  /** The blocks of one range. */
  function Split(gap: nat, length: nat): (bs: seq<Block>)
    ensures |bs| > 0
  {
    if gap <= 255 then [Block(gap, length)] else [Block(255, 0)] + Split(gap - 255, length)
  }

  /** Splitting a long gap over several blocks and feeding them joins them to one range again. */
  lemma {:induction false} FeedSplit(d: Decoder, gap: nat, length: nat)
    requires d.ranges != [] && length > 0
    ensures d.FeedAll(Split(gap, length)) ==
            Decoder(d.ranges + [Below(d.ranges[|d.ranges| - 1], d.carry + gap, length)], 0)
    decreases gap
  {
    var bs := Split(gap, length);
    if gap <= 255 {
      assert bs[1..] == [];
    } else {
      assert bs[1..] == Split(gap - 255, length);
      FeedSplit(d.Feed(bs[0]), gap - 255, length);
    }
  }

  function Length(r: PacketRange): nat {
    if r.first <= r.last then r.last - r.first + 1 else 0
  }

  /** The number of packets missing between range `i` and the one above it. */
  function Gap(rs: seq<PacketRange>, i: int): nat
    requires 0 < i < |rs|
  {
    var gap := rs[i - 1].first - rs[i].last - 1;
    if gap > 0 then gap else 0
  }

  /** The blocks for the first `k` ranges, of which the first needs none. */
  function BlocksOf(rs: seq<PacketRange>, k: nat): seq<Block>
    requires k <= |rs|
  {
    if k <= 1 then [] else BlocksOf(rs, k - 1) + Split(Gap(rs, k - 1), Length(rs[k - 1]))
  }

  /** Ranges turned into blocks and back are the same ranges. */
  lemma {:induction false} BlocksRoundTrip(rs: seq<PacketRange>, k: nat)
    requires Descending(rs) && 1 <= k <= |rs|
    ensures Decoder([rs[0]], 0).FeedAll(BlocksOf(rs, k)) == Decoder(rs[..k], 0)
  {
    if k == 1 {
      assert rs[..1] == [rs[0]];
    } else {
      var gap, length := Gap(rs, k - 1), Length(rs[k - 1]);
      BlocksRoundTrip(rs, k - 1);
      FeedRange(Decoder([rs[0]], 0), rs[..k - 1], BlocksOf(rs, k - 1), gap, length);
      assert rs[k - 1] == Below(rs[k - 2], gap, length) by { assert rs[k - 1].last + 1 < rs[k - 2].first; }
      assert rs[..k] == rs[..k - 1] + [rs[k - 1]];
    }
  }

  lemma FeedRange(d: Decoder, rs: seq<PacketRange>, bs: seq<Block>, gap: nat, length: nat)
    requires d.ranges != [] && rs != [] && length > 0 && d.FeedAll(bs) == Decoder(rs, 0)
    ensures d.FeedAll(bs + Split(gap, length)) == Decoder(rs + [Below(rs[|rs| - 1], gap, length)], 0)
  {
    FeedConcat(d, bs, Split(gap, length));
    FeedSplit(Decoder(rs, 0), gap, length);
  }

  /** The number of blocks for a gap, as the writer computes it. */
  function BlockCount(gap: nat): nat {
    if gap % 255 == 0 then gap / 255 else gap / 255 + 1
  }

  lemma {:induction false} SplitCount(gap: nat, length: nat)
    requires gap >= 1
    ensures |Split(gap, length)| == BlockCount(gap)
  {
    if gap > 255 {
      SplitCount(gap - 255, length);
    }
  }

  /** More ranges take more blocks. */
  lemma {:induction false} BlocksGrow(rs: seq<PacketRange>, j: nat, k: nat)
    requires 1 <= j <= k <= |rs|
    ensures |BlocksOf(rs, j)| + (k - j) <= |BlocksOf(rs, k)|
    decreases k
  {
    if j < k {
      BlocksGrow(rs, j, k - 1);
    }
  }
}
