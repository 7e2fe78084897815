/** Writing ACK frames (frames/ack_frame.go), and the round trip through the parser. */
module AckFrameWriter {
  import opened Frames
  import opened PacketRanges
  import opened PacketNumbers
  import opened AckFrames
  import opened ByteCodec
  import opened AckFrameParser
  import Ufloat16

  const MAX_BLOCKS := 254

  datatype WriteResult =
    | Written(bytes: seq<byte>)
    | InconsistentLargestAcked
    | InconsistentLowestAcked
    | InconsistentRangeCount

  // ---------------------------------------------------------------------------------------------
  // What is written
  // ---------------------------------------------------------------------------------------------

  /** `k` ranges fit in the frame and no more. */
  ghost predicate LongestPrefix(rs: seq<PacketRange>, k: nat) {
    && 1 <= k <= |rs|
    && |BlocksOf(rs, k)| <= MAX_BLOCKS
    && (k < |rs| ==> |BlocksOf(rs, k + 1)| > MAX_BLOCKS)
  }

  /** The number of ranges that fit, starting with `k` that do. */
  function KeptFrom(rs: seq<PacketRange>, k: nat): (n: nat)
    requires 1 <= k <= |rs| && |BlocksOf(rs, k)| <= MAX_BLOCKS
    ensures LongestPrefix(rs, n) && k <= n
    decreases |rs| - k
  {
    if k < |rs| && |BlocksOf(rs, k + 1)| <= MAX_BLOCKS then KeptFrom(rs, k + 1) else k
  }

  /** The number of ranges that are written. */
  function Kept(rs: seq<PacketRange>): (k: nat)
    requires rs != []
    ensures LongestPrefix(rs, k)
  {
    KeptFrom(rs, 1)
  }

  lemma PrefixUnique(rs: seq<PacketRange>, k: nat)
    requires LongestPrefix(rs, k)
    ensures k == Kept(rs)
  {
    var n := Kept(rs);
    if k < n {
      BlocksGrow(rs, k + 1, n);
    } else if n < k {
      BlocksGrow(rs, n + 1, k);
    }
  }

  /** The length of the longest of the first `k` ranges. */
  function MaxLength(rs: seq<PacketRange>, k: nat): (m: nat)
    requires k <= |rs|
    ensures forall i :: 0 <= i < k ==> Length(rs[i]) <= m
  {
    if k == 0 then 0
    else
      var m, l := MaxLength(rs, k - 1), Length(rs[k - 1]);
      if l > m then l else m
  }

  function LengthLen(maxRangeLength: int): (len: nat)
    ensures IsLength(len)
  {
    if maxRangeLength <= 0xFF then 1 else if maxRangeLength <= 0xFFFF then 2 else if maxRangeLength <= 0xFFFF_FFFF
      then 4 else 6
  }

  function DeltaLenOf(f: AckFrame): (len: nat)
    ensures IsLength(len)
  {
    LengthLen(if f.HasMissingRanges() then MaxLength(f.ackRanges, |f.ackRanges|)
              else f.largestAcked - f.lowestAcked + 1)
  }

  /** The field for lengths is the shortest one: some range would not fit a shorter one. */
  lemma ShortestDelta(f: AckFrame, len: nat) returns (r: PacketRange)
    requires f.WellFormed() && IsLength(len) && len < DeltaLenOf(f)
    ensures Capacity(len) <= r.last - r.first + 1
    ensures if f.HasMissingRanges() then r in f.ackRanges else r == PacketRange(f.lowestAcked, f.largestAcked)
  {
    CapacityValues();
    if f.HasMissingRanges() {
      r := LongestOf(f.ackRanges, |f.ackRanges|);
    } else {
      r := PacketRange(f.lowestAcked, f.largestAcked);
    }
  }

  lemma {:induction false} LongestOf(rs: seq<PacketRange>, k: nat) returns (r: PacketRange)
    requires 0 < k <= |rs|
    ensures r in rs && Length(r) == MaxLength(rs, k)
  {
    if k == 1 {
      r := rs[0];
    } else {
      r := LongestOf(rs, k - 1);
      if Length(rs[k - 1]) > Length(r) {
        r := rs[k - 1];
      }
    }
  }

  /** Lengths of 1, 2, 4 and 6 bytes are coded as 0, 1, 2 and 3. */
  function LenCode(len: nat): (c: nat)
    requires IsLength(len)
    ensures c < 4 && len == if c == 0 then 1 else 2 * c
  {
    len / 2
  }

  lemma PackType(l: nat, d: nat, m: nat)
    requires l < 4 && d < 4 && m < 2
    ensures var t := 64 + 32 * m + 4 * l + d; t / 32 % 2 == m && t / 4 % 4 == l && t % 4 == d
  {
    var t := 64 + 32 * m + 4 * l + d;
    assert t / 4 == 16 + 8 * m + l;
    assert t / 32 == 2 + m;
  }

  function TypeByte(largestAckedLen: nat, deltaLen: nat, missing: bool): (t: byte)
    requires IsLength(largestAckedLen) && IsLength(deltaLen)
    ensures HasMissing(t) == missing && LargestAckedLen(t) == largestAckedLen && DeltaLen(t) == deltaLen
  {
    PackType(LenCode(largestAckedLen), LenCode(deltaLen), if missing then 1 else 0);
    64 + (if missing then 32 else 0) + 4 * LenCode(largestAckedLen) + LenCode(deltaLen)
  }

  function BlockBytes(bs: seq<Block>, len: nat): seq<byte> {
    if bs == [] then []
    else
      var b := bs[|bs| - 1];
      BlockBytes(bs[..|bs| - 1], len) + LittleEndian(1, b.gap) + LittleEndian(len, b.length)
  }

  /** The frame behind its type byte, largest acknowledged packet and delay. */
  function Tail(f: AckFrame, len: nat): seq<byte> {
    if f.HasMissingRanges() then
      var bs := BlocksOf(f.ackRanges, Kept(f.ackRanges));
      LittleEndian(1, |bs|) + (LittleEndian(len, Length(f.ackRanges[0])) + (BlockBytes(bs, len) + LittleEndian(1, 0)))
    else LittleEndian(len, FirstLength(f)) + LittleEndian(1, 0)
  }

  /** The number of packets in a frame without missing ranges. */
  function FirstLength(f: AckFrame): nat {
    Length(PacketRange(f.lowestAcked, f.largestAcked))
  }

  function Bytes(f: AckFrame, delay: nat): seq<byte> {
    var largestAckedLen, len := GetPacketNumberLength(f.largestAcked), DeltaLenOf(f);
    LittleEndian(1, TypeByte(largestAckedLen, len, f.HasMissingRanges())) +
    (LittleEndian(largestAckedLen, f.largestAcked) + (LittleEndian(2, Ufloat16.Encode(delay)) + Tail(f, len)))
  }

  // ---------------------------------------------------------------------------------------------
  // The round trip
  // ---------------------------------------------------------------------------------------------

  lemma {:induction false} BlockBytesLength(bs: seq<Block>, len: nat)
    ensures |BlockBytes(bs, len)| == (1 + len) * |bs|
  {
    if bs != [] {
      BlockBytesLength(bs[..|bs| - 1], len);
      assert (1 + len) * |bs| == (1 + len) * (|bs| - 1) + (1 + len);
    }
  }

  /** Blocks that fit their fields read back as they were written. */
  ghost predicate FitBlocks(bs: seq<Block>, len: nat) {
    forall i :: 0 <= i < |bs| ==> bs[i].gap <= 255 && bs[i].length < Capacity(len)
  }

  lemma ReadWrittenBlock(b: Block, len: nat, rest: seq<byte>)
    requires b.gap <= 255 && b.length < Capacity(len)
    ensures ReadBlock(LittleEndian(1, b.gap) + (LittleEndian(len, b.length) + rest), len) == Blocks([b], rest)
  {
    assert Capacity(1) == 256 * Capacity(0);
    TakeWritten(1, b.gap, LittleEndian(len, b.length) + rest);
    TakeWritten(len, b.length, rest);
  }

  lemma ReadNextBlock(r: seq<byte>, bs: seq<Block>, r1: seq<byte>, b: Block, len: nat, rest: seq<byte>)
    requires ReadBlocks(r, |bs|, len) == Blocks(bs, r1) && ReadBlock(r1, len) == Blocks([b], rest)
    ensures ReadBlocks(r, |bs| + 1, len) == Blocks(bs + [b], rest)
  {
  }

  lemma BlockBytesSnoc(bs: seq<Block>, b: Block, len: nat, rest: seq<byte>)
    ensures BlockBytes(bs + [b], len) + rest ==
            BlockBytes(bs, len) + (LittleEndian(1, b.gap) + (LittleEndian(len, b.length) + rest))
  {
    assert (bs + [b])[..|bs|] == bs;
  }

  lemma {:induction false} ReadWrittenBlocks(bs: seq<Block>, len: nat, rest: seq<byte>)
    requires FitBlocks(bs, len)
    ensures ReadBlocks(BlockBytes(bs, len) + rest, |bs|, len) == Blocks(bs, rest)
  {
    if bs == [] {
      assert BlockBytes(bs, len) + rest == rest;
    } else {
      var init, b := bs[..|bs| - 1], bs[|bs| - 1];
      var rest' := LittleEndian(1, b.gap) + (LittleEndian(len, b.length) + rest);
      assert bs == init + [b];
      BlockBytesSnoc(init, b, len, rest);
      ReadWrittenBlocks(init, len, rest');
      ReadWrittenBlock(b, len, rest);
      ReadNextBlock(BlockBytes(init, len) + rest', init, rest', b, len, rest);
    }
  }

  lemma {:induction false} SplitFits(gap: nat, length: nat, len: nat)
    requires length < Capacity(len)
    ensures FitBlocks(Split(gap, length), len)
  {
    if gap > 255 {
      SplitFits(gap - 255, length, len);
    }
  }

  lemma {:induction false} BlocksFit(rs: seq<PacketRange>, k: nat, len: nat)
    requires k <= |rs| && forall i :: 0 <= i < |rs| ==> Length(rs[i]) < Capacity(len)
    ensures FitBlocks(BlocksOf(rs, k), len)
  {
    if k > 1 {
      BlocksFit(rs, k - 1, len);
      SplitFits(Gap(rs, k - 1), Length(rs[k - 1]), len);
    }
  }

  /** A frame whose ranges can be represented: packet numbers of 48 bits, and a gap that is not too long. */
  predicate Writable(f: AckFrame) {
    && f.WellFormed() && f.largestAcked < 0x1_0000_0000_0000
    && (f.HasMissingRanges() ==> Gap(f.ackRanges, 1) <= MAX_BLOCKS * 255)
  }

  /** The frame the peer sees: the ranges that fit, and the delay rounded down. */
  function Received(f: AckFrame, delay: nat): AckFrame
    requires f.WellFormed()
  {
    var rounded := Ufloat16.Decode(Ufloat16.Encode(delay));
    if f.HasMissingRanges() then
      var k := Kept(f.ackRanges);
      AckFrame(f.largestAcked, f.ackRanges[k - 1].first, f.ackRanges[..k], rounded)
    else AckFrame(f.largestAcked, f.lowestAcked, [], rounded)
  }

  /** What the peer sees acknowledges nothing that the frame does not. */
  lemma ReceivedAcksLess(f: AckFrame, delay: nat, p: int)
    requires f.WellFormed() && Received(f, delay).Acks(p)
    ensures f.Acks(p)
  {
    if f.HasMissingRanges() {
      var k := Kept(f.ackRanges);
      assert forall i :: 0 <= i < k ==> f.ackRanges[..k][i] == f.ackRanges[i];
    }
  }

  lemma {:induction false} ShortGaps(rs: seq<PacketRange>, k: nat)
    requires 1 <= k <= |rs| && forall i :: 0 < i < |rs| ==> Gap(rs, i) <= 255
    ensures |BlocksOf(rs, k)| == k - 1
  {
    if k > 1 {
      ShortGaps(rs, k - 1);
    }
  }

  /** The peer sees all of up to 255 ranges with gaps of up to 255 packets. */
  lemma AllRangesReceived(f: AckFrame, delay: nat)
    requires f.WellFormed() && |f.ackRanges| <= 255
    requires forall i :: 0 < i < |f.ackRanges| ==> Gap(f.ackRanges, i) <= 255
    ensures Received(f, delay).ackRanges == f.ackRanges && Received(f, delay).lowestAcked == f.lowestAcked
  {
    if f.HasMissingRanges() {
      var k := Kept(f.ackRanges);
      ShortGaps(f.ackRanges, k);
      if k < |f.ackRanges| {
        ShortGaps(f.ackRanges, k + 1);
      }
    }
  }

  /** At least two ranges fit exactly when the first gap takes at most 254 blocks. */
  lemma KeptIff(rs: seq<PacketRange>)
    requires Descending(rs) && |rs| >= 2
    ensures Kept(rs) >= 2 <==> Gap(rs, 1) <= MAX_BLOCKS * 255
  {
    assert rs[1].last + 1 < rs[0].first;
    SplitCount(Gap(rs, 1), Length(rs[1]));
    assert BlocksOf(rs, 1) == [];
    assert |BlocksOf(rs, 2)| == BlockCount(Gap(rs, 1));
  }

  /** Every range length fits the field chosen for lengths. */
  lemma LengthFits(f: AckFrame, i: nat)
    requires f.WellFormed() && f.HasMissingRanges() && f.largestAcked < 0x1_0000_0000_0000 && i < |f.ackRanges|
    ensures Length(f.ackRanges[i]) < Capacity(DeltaLenOf(f))
  {
    CapacityValues();
    var n := |f.ackRanges| - 1;
    assert 0 <= f.ackRanges[n].last + 1 < f.ackRanges[0].first;
    assert i < n ==> 0 <= f.ackRanges[n].last + 1 < f.ackRanges[i].first;
    assert i > 0 ==> f.ackRanges[i].last + 1 < f.ackRanges[0].first;
  }

  lemma ParseNoTimestamps(frame: AckFrame, rest: seq<byte>)
    ensures ParseTimestamps(frame, LittleEndian(1, 0) + rest) == Ok(frame, rest)
  {
    assert Capacity(1) == 256 * Capacity(0);
    TakeWritten(1, 0, rest);
  }

  lemma AcceptKept(ks: seq<PacketRange>, delay: nat, rest: seq<byte>)
    requires Descending(ks) && |ks| >= 2
    ensures AcceptRanges(ks, delay, LittleEndian(1, 0) + rest) ==
            Ok(AckFrame(ks[0].last, ks[|ks| - 1].first, ks, delay), rest)
  {
    ParseNoTimestamps(AckFrame(ks[0].last, ks[|ks| - 1].first, ks, delay), rest);
  }

  /** The blocks behind the first one read back as the first `k` ranges. */
  lemma {:induction false} ParseKept(rs: seq<PacketRange>, k: nat, delay: nat, len: nat, rest: seq<byte>)
    requires Descending(rs) && 2 <= k <= |rs| && forall i :: 0 <= i < |rs| ==> Length(rs[i]) < Capacity(len)
    ensures var bs := BlocksOf(rs, k);
            ParseFurtherBlocks(rs[0], delay, |bs|, len, BlockBytes(bs, len) + (LittleEndian(1, 0) + rest)) ==
            Ok(AckFrame(rs[0].last, rs[k - 1].first, rs[..k], delay), rest)
  {
    BlocksFit(rs, k, len);
    ReadWrittenBlocks(BlocksOf(rs, k), len, LittleEndian(1, 0) + rest);
    BlocksRoundTrip(rs, k);
    AcceptKept(rs[..k], delay, rest);
  }

  lemma ParseKeptRanges(rs: seq<PacketRange>, k: nat, delay: nat, len: nat, rest: seq<byte>)
    requires Descending(rs) && 2 <= k <= |rs| && forall i :: 0 <= i < |rs| ==> Length(rs[i]) < Capacity(len)
    ensures var bs := BlocksOf(rs, k);
            ParseRanges(rs[0].last, Length(rs[0]), delay, |bs|, len,
                        BlockBytes(bs, len) + (LittleEndian(1, 0) + rest)) ==
            Ok(AckFrame(rs[0].last, rs[k - 1].first, rs[..k], delay), rest)
  {
    ParseKept(rs, k, delay, len, rest);
    BlocksGrow(rs, 1, k);
    assert 1 <= rs[0].first by { assert rs[1].last + 1 < rs[0].first; }
    assert PacketRange(rs[0].last - Length(rs[0]) + 1, rs[0].last) == rs[0];
  }

  lemma ParseHead(t: byte, largest: nat, x: nat, r: seq<byte>)
    requires largest < Capacity(LargestAckedLen(t)) && x <= 0xFFFF
    ensures Parse(LittleEndian(1, t) + (LittleEndian(LargestAckedLen(t), largest) + (LittleEndian(2, x) + r))) ==
            ParseCounts(largest, Ufloat16.Decode(x), t, r)
  {
    CapacityValues();
    var r2 := LittleEndian(2, x) + r;
    TakeWritten(1, t, LittleEndian(LargestAckedLen(t), largest) + r2);
    TakeWritten(LargestAckedLen(t), largest, r2);
    TakeWritten(2, x, r);
  }

  lemma ParseBlockHead(largest: nat, delay: nat, t: byte, n: nat, first: nat, r: seq<byte>)
    requires HasMissing(t) && 0 < n <= 255 && first < Capacity(DeltaLen(t))
    ensures ParseCounts(largest, delay, t, LittleEndian(1, n) + (LittleEndian(DeltaLen(t), first) + r)) ==
            ParseRanges(largest, first, delay, n, DeltaLen(t), r)
  {
    CapacityValues();
    TakeWritten(1, n, LittleEndian(DeltaLen(t), first) + r);
    TakeWritten(DeltaLen(t), first, r);
  }

  /** Parsing a written frame gives back its largest packet, the longest prefix of its ranges that
      fits, and the rest of the packet. */
  lemma RoundTrip(f: AckFrame, delay: nat, rest: seq<byte>)
    requires Writable(f) && (!f.HasMissingRanges() ==> 1 <= f.lowestAcked)
    ensures Parse(Bytes(f, delay) + rest) == Ok(Received(f, delay), rest)
  {
    hide Parse, ParseCounts, Tail, LittleEndian, Descending;
    CapacityValues();
    var largestAckedLen, len, x := GetPacketNumberLength(f.largestAcked), DeltaLenOf(f), Ufloat16.Encode(delay);
    var t := TypeByte(largestAckedLen, len, f.HasMissingRanges());
    Ufloat16.EncodeFloor(delay, 0);
    var r := Tail(f, len) + rest;
    assert Bytes(f, delay) + rest ==
           LittleEndian(1, t) + (LittleEndian(largestAckedLen, f.largestAcked) + (LittleEndian(2, x) + r));
    ParseHead(t, f.largestAcked, x, r);
    if f.HasMissingRanges() {
      RoundTripMissing(f, Ufloat16.Decode(x), t, rest);
    } else {
      RoundTripComplete(f, Ufloat16.Decode(x), t, rest);
    }
  }

  lemma RoundTripMissing(f: AckFrame, delay: nat, t: byte, rest: seq<byte>)
    requires Writable(f) && f.HasMissingRanges() && HasMissing(t) && DeltaLen(t) == DeltaLenOf(f)
    ensures var k := Kept(f.ackRanges);
            ParseCounts(f.largestAcked, delay, t, Tail(f, DeltaLenOf(f)) + rest) ==
            Ok(AckFrame(f.largestAcked, f.ackRanges[k - 1].first, f.ackRanges[..k], delay), rest)
  {
    hide Descending, BlocksOf, LittleEndian, Tail, ParseCounts, MaxLength;
    var len, k := DeltaLenOf(f), Kept(f.ackRanges);
    KeptIff(f.ackRanges);
    forall i | 0 <= i < |f.ackRanges|
      ensures Length(f.ackRanges[i]) < Capacity(len)
    {
      LengthFits(f, i);
    }
    RoundTripKept(f.largestAcked, f.ackRanges, k, delay, t, len, rest);
    TailBytes(f, len, rest);
  }

  lemma TailBytes(f: AckFrame, len: nat, rest: seq<byte>)
    requires f.HasMissingRanges()
    ensures var bs := BlocksOf(f.ackRanges, Kept(f.ackRanges));
            Tail(f, len) + rest == LittleEndian(1, |bs|) +
              (LittleEndian(len, Length(f.ackRanges[0])) + (BlockBytes(bs, len) + (LittleEndian(1, 0) + rest)))
  {
  }

  lemma RoundTripKept(largest: nat, rs: seq<PacketRange>, k: nat, delay: nat, t: byte, len: nat, rest: seq<byte>)
    requires Descending(rs) && 2 <= k <= |rs| && rs[0].last == largest && |BlocksOf(rs, k)| <= MAX_BLOCKS
    requires HasMissing(t) && DeltaLen(t) == len && forall i :: 0 <= i < |rs| ==> Length(rs[i]) < Capacity(len)
    ensures var bs := BlocksOf(rs, k);
            ParseCounts(largest, delay, t, LittleEndian(1, |bs|) +
              (LittleEndian(len, Length(rs[0])) + (BlockBytes(bs, len) + (LittleEndian(1, 0) + rest)))) ==
            Ok(AckFrame(largest, rs[k - 1].first, rs[..k], delay), rest)
  {
    BlocksGrow(rs, 1, k);
    ParseBlockHead(largest, delay, t, |BlocksOf(rs, k)|, Length(rs[0]),
                   BlockBytes(BlocksOf(rs, k), len) + (LittleEndian(1, 0) + rest));
    ParseKeptRanges(rs, k, delay, len, rest);
  }

  lemma RoundTripComplete(f: AckFrame, delay: nat, t: byte, rest: seq<byte>)
    requires f.WellFormed() && !f.HasMissingRanges() && !HasMissing(t) && DeltaLen(t) == DeltaLenOf(f)
    requires 1 <= f.lowestAcked && f.largestAcked < 0x1_0000_0000_0000
    ensures ParseCounts(f.largestAcked, delay, t, Tail(f, DeltaLenOf(f)) + rest) ==
            Ok(AckFrame(f.largestAcked, f.lowestAcked, [], delay), rest)
  {
    CapacityValues();
    var len, first := DeltaLenOf(f), FirstLength(f);
    var r1 := LittleEndian(1, 0) + rest;
    assert Tail(f, len) + rest == LittleEndian(len, first) + r1;
    TakeWritten(len, first, r1);
    ParseNoTimestamps(AckFrame(f.largestAcked, f.lowestAcked, [], delay), rest);
  }

  // ---------------------------------------------------------------------------------------------
  // The writer of the source
  // ---------------------------------------------------------------------------------------------

  /** The number of blocks for a range behind a gap. */
  method RangeLength(gap: nat, ghost length: nat) returns (n: nat)
    requires gap >= 1
    ensures n == |Split(gap, length)|
  {
    SplitCount(gap, length);
    n := 1 + gap / 0xFF;
    if gap % 0xFF == 0 {
      n := n - 1;
    }
  }

  /** The number of blocks about to be written, the first one included. */
  method NumWritableNackRanges(ackRanges: seq<PacketRange>) returns (n: nat)
    requires Descending(ackRanges)
    ensures n == if ackRanges == [] then 0 else 1 + |BlocksOf(ackRanges, Kept(ackRanges))|
    ensures n <= 0xFF
  {
    if |ackRanges| == 0 {
      return 0;
    }
    var numRanges: nat := 0;
    var i := 1;
    while i < |ackRanges|
      invariant 1 <= i <= |ackRanges|
      invariant numRanges == |BlocksOf(ackRanges, i)| <= MAX_BLOCKS
    {
      var gap := ackRanges[i - 1].first - ackRanges[i].last - 1;
      var rangeLength := RangeLength(gap, Length(ackRanges[i]));
      if numRanges + rangeLength < 0xFF {
        numRanges := numRanges + rangeLength;
      } else {
        PrefixUnique(ackRanges, i);
        return numRanges + 1;
      }
      i := i + 1;
    }
    PrefixUnique(ackRanges, i);
    return numRanges + 1;
  }

  method GetMissingSequenceNumberDeltaLen(f: AckFrame) returns (len: nat)
    ensures len == DeltaLenOf(f)
  {
    var maxRangeLength: int := 0;
    if f.HasMissingRanges() {
      for i := 0 to |f.ackRanges|
        invariant maxRangeLength == MaxLength(f.ackRanges, i)
      {
        var rangeLength := Length(f.ackRanges[i]);
        if rangeLength > maxRangeLength {
          maxRangeLength := rangeLength;
        }
      }
    } else {
      maxRangeLength := f.largestAcked - f.lowestAcked + 1;
    }
    return LengthLen(maxRangeLength);
  }

  lemma Distribute(a: nat, n: nat)
    ensures a * (1 + n) == a + a * n
  {
  }

  lemma TailLength(f: AckFrame, len: nat)
    ensures |Tail(f, len)| == 1 + if f.HasMissingRanges()
            then (1 + len) * (1 + |BlocksOf(f.ackRanges, Kept(f.ackRanges))|) else len
  {
    if f.HasMissingRanges() {
      BlockBytesLength(BlocksOf(f.ackRanges, Kept(f.ackRanges)), len);
      Distribute(1 + len, |BlocksOf(f.ackRanges, Kept(f.ackRanges))|);
    }
  }

  /** The length of the written frame. */
  method MinLength(f: AckFrame, ghost delay: nat) returns (length: nat)
    requires Descending(f.ackRanges)
    ensures length == |Bytes(f, delay)|
  {
    hide Descending, Kept, BlocksOf, Tail;
    length := 1 + 2 + 1;
    length := length + GetPacketNumberLength(f.largestAcked);
    var len := GetMissingSequenceNumberDeltaLen(f);
    if f.HasMissingRanges() {
      var n := NumWritableNackRanges(f.ackRanges);
      length := length + (1 + len) * n;
    } else {
      length := length + len;
    }
    TailLength(f, len);
  }

  function FullBlocks(n: nat): seq<Block> {
    if n == 0 then [] else FullBlocks(n - 1) + [Block(255, 0)]
  }

  lemma {:induction false} FullBlocksFront(n: nat)
    ensures FullBlocks(n + 1) == [Block(255, 0)] + FullBlocks(n)
  {
    if n > 0 {
      FullBlocksFront(n - 1);
    }
  }

  /** A long gap is a chain of full blocks and one block with what remains. */
  lemma {:induction false} SplitAsChain(gap: nat, length: nat)
    requires gap >= 1
    ensures Split(gap, length) == FullBlocks(|Split(gap, length)| - 1) + [Block(1 + (gap - 1) % 255, length)]
  {
    if gap > 255 {
      SplitAsChain(gap - 255, length);
      FullBlocksFront(|Split(gap - 255, length)| - 1);
      assert (gap - 1) % 255 == (gap - 255 - 1) % 255;
    }
  }

  lemma {:induction false} BlockBytesConcat(bs: seq<Block>, cs: seq<Block>, len: nat)
    ensures BlockBytes(bs + cs, len) == BlockBytes(bs, len) + BlockBytes(cs, len)
    decreases |cs|
  {
    if cs == [] {
      assert bs + cs == bs;
    } else {
      var init, b := cs[..|cs| - 1], cs[|cs| - 1];
      hide BlockBytes, LittleEndian;
      BlockBytesConcat(bs, init, len);
      assert (bs + cs)[..|bs + cs| - 1] == bs + init;
      BlockBytesLast(bs + cs, len);
      BlockBytesLast(cs, len);
    }
  }

  lemma BlockBytesLast(bs: seq<Block>, len: nat)
    requires bs != []
    ensures var b := bs[|bs| - 1];
            BlockBytes(bs, len) == BlockBytes(bs[..|bs| - 1], len) +
              (LittleEndian(1, b.gap) + LittleEndian(len, b.length))
  {
  }

  lemma AppendBlock(b: seq<byte>, bs: seq<Block>, gap: nat, length: nat, len: nat)
    ensures b + BlockBytes(bs + [Block(gap, length)], len) ==
            b + BlockBytes(bs, len) + LittleEndian(1, gap) + LittleEndian(len, length)
  {
    assert (bs + [Block(gap, length)])[..|bs|] == bs;
  }

  /** The chain of a long gap, appended to the buffer. */
  method WriteChain(b: seq<byte>, n: nat, gap: nat, length: nat, len: nat) returns (b': seq<byte>, written: nat)
    ensures b' == b + BlockBytes(FullBlocks(n) + [Block(gap, length)], len) && written == n + 1
  {
    b', written := b, 0;
    for i := 0 to n
      invariant b' == b + BlockBytes(FullBlocks(i), len) && written == i
    {
      AppendBlock(b, FullBlocks(i), 0xFF, 0, len);
      b' := b' + LittleEndian(1, 0xFF) + LittleEndian(len, 0);
      written := written + 1;
    }
    AppendBlock(b, FullBlocks(n), gap, length, len);
    b' := b' + LittleEndian(1, gap) + LittleEndian(len, length);
    written := written + 1;
  }

  /** The blocks of one range, appended to the buffer. */
  method WriteRange(b: seq<byte>, gap: nat, length: nat, len: nat) returns (b': seq<byte>, written: nat)
    requires gap >= 1
    ensures b' == b + BlockBytes(Split(gap, length), len) && written == |Split(gap, length)|
  {
    var num := RangeLength(gap, length);
    if num == 1 {
      SingleBlock(gap, length);
      AppendBlock(b, [], gap, length, len);
      b', written := b + LittleEndian(1, gap) + LittleEndian(len, length), 1;
    } else {
      SplitAsChain(gap, length);
      b', written := WriteChain(b, num - 1, 1 + (gap - 1) % 255, length, len);
    }
  }

  lemma SingleBlock(gap: nat, length: nat)
    requires |Split(gap, length)| == 1
    ensures [] + [Block(gap, length)] == Split(gap, length)
  {
  }

  /** The loop over the ranges. The test for the number of blocks comes after a range was written, so at
      least two ranges are written whenever there are two. */
  method WriteRanges(ackRanges: seq<PacketRange>, len: nat, numRanges: nat)
    returns (b: seq<byte>, numRangesWritten: nat)
    requires Descending(ackRanges) && ackRanges != [] && numRanges == 1 + |BlocksOf(ackRanges, Kept(ackRanges))|
    ensures var k := if Kept(ackRanges) == 1 && |ackRanges| >= 2 then 2 else Kept(ackRanges);
            b == BlockBytes(BlocksOf(ackRanges, k), len) && numRangesWritten == 1 + |BlocksOf(ackRanges, k)|
  {
    b, numRangesWritten := [], 1;
    ghost var kept := Kept(ackRanges);
    var i := 1;
    while i < |ackRanges|
      invariant 1 <= i <= |ackRanges|
      invariant b == BlockBytes(BlocksOf(ackRanges, i), len) && numRangesWritten == 1 + |BlocksOf(ackRanges, i)|
      invariant i == 1 || i < kept || i == kept == |ackRanges|
    {
      var length := ackRanges[i].last - ackRanges[i].first + 1;
      var gap := ackRanges[i - 1].first - ackRanges[i].last - 1;
      assert gap == Gap(ackRanges, i) >= 1 && length == Length(ackRanges[i]);
      var written;
      b, written := WriteRange(b, gap, length, len);
      BlockBytesConcat(BlocksOf(ackRanges, i), Split(gap, length), len);
      numRangesWritten := numRangesWritten + written;
      i := i + 1;
      CompareToKept(ackRanges, i);
      if numRangesWritten >= numRanges {
        break;
      }
    }
  }

  lemma CompareToKept(rs: seq<PacketRange>, i: nat)
    requires 1 <= i <= |rs|
    ensures |BlocksOf(rs, i)| >= |BlocksOf(rs, Kept(rs))| <==> i >= Kept(rs)
  {
    var kept := Kept(rs);
    if i <= kept {
      BlocksGrow(rs, i, kept);
    } else {
      BlocksGrow(rs, kept, i);
    }
  }

  /** Writing succeeds exactly when the first gap is not too long for one frame. */
  method Write(f: AckFrame, delay: nat) returns (r: WriteResult)
    requires Descending(f.ackRanges)
    requires !f.HasMissingRanges() ==> f.lowestAcked <= f.largestAcked
    ensures r == if f.HasMissingRanges() && f.largestAcked != f.ackRanges[0].last then InconsistentLargestAcked
                 else if f.HasMissingRanges() &&
                   f.lowestAcked != f.ackRanges[|f.ackRanges| - 1].first then InconsistentLowestAcked
                 else if |f.ackRanges| >= 2 && Gap(f.ackRanges, 1) > MAX_BLOCKS * 255 then InconsistentRangeCount
                 else Written(Bytes(f, delay))
  {
    var largestAckedLen := GetPacketNumberLength(f.largestAcked);
    var len := GetMissingSequenceNumberDeltaLen(f);
    var x := Ufloat16.WriteUfloat16(delay);
    var t := TypeByte(largestAckedLen, len, f.HasMissingRanges());
    var tail;
    if !f.HasMissingRanges() {
      var firstAckBlockLength := f.largestAcked - f.lowestAcked + 1;
      tail := Written(LittleEndian(len, firstAckBlockLength) + LittleEndian(1, 0));
    } else if f.largestAcked != f.ackRanges[0].last {
      return InconsistentLargestAcked;
    } else if f.lowestAcked != f.ackRanges[|f.ackRanges| - 1].first {
      return InconsistentLowestAcked;
    } else {
      tail := WriteTail(f, len);
    }
    if tail.Written? {
      return Written(LittleEndian(1, t) +
                     (LittleEndian(largestAckedLen, f.largestAcked) + (LittleEndian(2, x) + tail.bytes)));
    }
    return tail;
  }

  method WriteTail(f: AckFrame, len: nat) returns (r: WriteResult)
    requires f.HasMissingRanges() && Descending(f.ackRanges)
    ensures r == if |f.ackRanges| >= 2 && Gap(f.ackRanges, 1) > MAX_BLOCKS * 255 then InconsistentRangeCount
                 else Written(Tail(f, len))
  {
    var numRanges := NumWritableNackRanges(f.ackRanges);
    var blocks, numRangesWritten := WriteRanges(f.ackRanges, len, numRanges);
    if |f.ackRanges| >= 2 {
      KeptIff(f.ackRanges);
      BlocksGrow(f.ackRanges, 1, 2);
    }
    if numRanges != numRangesWritten {
      return InconsistentRangeCount;
    }
    return Written(LittleEndian(1, numRanges - 1) +
                   (LittleEndian(len, Length(f.ackRanges[0])) + (blocks + LittleEndian(1, 0))));
  }
}
