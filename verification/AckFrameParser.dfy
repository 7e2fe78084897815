/** Parsing ACK frames (frames/ack_frame.go). The code computes ranges in 64-bit arithmetic that wraps
    around; the reference parser `Parse` uses unbounded integers. The two agree on every input. */
module AckFrameParser {
  import opened Frames
  import opened PacketRanges
  import opened PacketNumbers
  import opened AckFrames
  import opened ByteCodec
  import Ufloat16

  datatype AckError = UnexpectedEof | InvalidAckRanges | InvalidFirstAckRange

  datatype ParseResult = Ok(frame: AckFrame, rest: seq<byte>) | Err(error: AckError)

  // ---------------------------------------------------------------------------------------------
  // The reference parser
  // ---------------------------------------------------------------------------------------------

  predicate HasMissing(typeByte: nat) {
    typeByte / 32 % 2 == 1
  }

  function LargestAckedLen(typeByte: nat): nat {
    var n := 2 * (typeByte / 4 % 4);
    if n == 0 then 1 else n
  }

  function DeltaLen(typeByte: nat): nat {
    var n := 2 * (typeByte % 4);
    if n == 0 then 1 else n
  }

  datatype Blocks = NoBlocks | Blocks(blocks: seq<Block>, rest: seq<byte>)

  function ReadBlock(r: seq<byte>, len: nat): Blocks {
    match Take(r, 1)
    case Eof => NoBlocks
    case Taken(gap, r1) =>
      match Take(r1, len)
      case Eof => NoBlocks
      case Taken(length, r2) => Blocks([Block(gap, length)], r2)
  }

  /** `n` blocks of a gap byte and a length of `len` bytes. */
  function ReadBlocks(r: seq<byte>, n: nat, len: nat): Blocks {
    if n == 0 then Blocks([], r)
    else
      match ReadBlocks(r, n - 1, len)
      case NoBlocks => NoBlocks
      case Blocks(bs, r1) =>
        match ReadBlock(r1, len)
        case NoBlocks => NoBlocks
        case Blocks(b, r2) => Blocks(bs + b, r2)
  }

  function TimestampBytes(n: nat): nat {
    if n == 0 then 0 else 5 + 3 * (n - 1)
  }

  function ParseTimestamps(frame: AckFrame, r: seq<byte>): ParseResult {
    match Take(r, 1)
    case Eof => Err(UnexpectedEof)
    case Taken(n, r1) =>
      if |r1| < TimestampBytes(n) then Err(UnexpectedEof) else Ok(frame, r1[TimestampBytes(n)..])
  }

  function ParseFurtherBlocks(top: PacketRange, delay: nat, numBlocks: nat, len: nat, r: seq<byte>): ParseResult {
    match ReadBlocks(r, numBlocks, len)
    case NoBlocks => Err(UnexpectedEof)
    case Blocks(bs, r1) =>
      AcceptRanges(Decoder([top], 0).FeedAll(bs).ranges, delay, r1)
  }

  function AcceptRanges(ranges: seq<PacketRange>, delay: nat, r: seq<byte>): ParseResult {
    if |ranges| >= 2 && Descending(ranges)
    then ParseTimestamps(AckFrame(ranges[0].last, ranges[|ranges| - 1].first, ranges, delay), r)
    else Err(InvalidAckRanges)
  }

  /** Everything behind the first block; `numBlocks` is 0 if the frame reports no missing packets. */
  function ParseRanges(largest: nat, first: nat, delay: nat, numBlocks: nat, len: nat, r: seq<byte>): ParseResult {
    if largest > 0 && first < 1 then Err(InvalidFirstAckRange)
    else if first > largest then Err(InvalidAckRanges)
    else if numBlocks == 0 then
      ParseTimestamps(AckFrame(largest, if largest == 0 then 0 else largest + 1 - first, [], delay), r)
    else ParseFurtherBlocks(PacketRange(largest - first + 1, largest), delay, numBlocks, len, r)
  }

  function ParseFirstBlock(largest: nat, delay: nat, numBlocks: nat, len: nat, r: seq<byte>): ParseResult {
    match Take(r, len)
    case Eof => Err(UnexpectedEof)
    case Taken(first, r1) => ParseRanges(largest, first, delay, numBlocks, len, r1)
  }

  function ParseCounts(largest: nat, delay: nat, typeByte: nat, r: seq<byte>): ParseResult {
    if !HasMissing(typeByte) then ParseFirstBlock(largest, delay, 0, DeltaLen(typeByte), r)
    else
      match Take(r, 1)
      case Eof => Err(UnexpectedEof)
      case Taken(n, r1) =>
        if n == 0 then Err(InvalidAckRanges) else ParseFirstBlock(largest, delay, n, DeltaLen(typeByte), r1)
  }

  /** The frame at the front of `r`, by unbounded integer arithmetic. */
  function Parse(r: seq<byte>): ParseResult {
    match Take(r, 1)
    case Eof => Err(UnexpectedEof)
    case Taken(typeByte, r1) =>
      match Take(r1, LargestAckedLen(typeByte))
      case Eof => Err(UnexpectedEof)
      case Taken(largest, r2) =>
        match Take(r2, 2)
        case Eof => Err(UnexpectedEof)
        case Taken(delay, r3) => ParseCounts(largest, Ufloat16.Decode(delay), typeByte, r3)
  }

  /** Every accepted frame has descending, disjoint, non-adjacent ranges of non-negative packet numbers. */
  lemma AcceptedIsWellFormed(r: seq<byte>)
    ensures Parse(r).Ok? ==> Parse(r).frame.WellFormed()
  {
    match Take(r, 1)
    case Eof =>
    case Taken(typeByte, r1) =>
      match Take(r1, LargestAckedLen(typeByte))
      case Eof =>
      case Taken(largest, r2) =>
        match Take(r2, 2)
        case Eof =>
        case Taken(delay, r3) => CountsWellFormed(largest, Ufloat16.Decode(delay), typeByte, r3);
  }

  lemma CountsWellFormed(largest: nat, delay: nat, typeByte: nat, r: seq<byte>)
    ensures var p := ParseCounts(largest, delay, typeByte, r); p.Ok? ==> p.frame.WellFormed()
  {
    FirstBlockWellFormed(largest, delay, 0, DeltaLen(typeByte), r);
    match Take(r, 1)
    case Eof =>
    case Taken(n, r1) => FirstBlockWellFormed(largest, delay, n, DeltaLen(typeByte), r1);
  }

  lemma FirstBlockWellFormed(largest: nat, delay: nat, n: nat, len: nat, r: seq<byte>)
    ensures var p := ParseFirstBlock(largest, delay, n, len, r); p.Ok? ==> p.frame.WellFormed()
  {
    match Take(r, len)
    case Eof =>
    case Taken(first, r1) =>
      FurtherBlocksWellFormed(PacketRange(largest - first + 1, largest), delay, n, len, r1);
  }

  lemma FurtherBlocksWellFormed(top: PacketRange, delay: nat, n: nat, len: nat, r: seq<byte>)
    ensures var p := ParseFurtherBlocks(top, delay, n, len, r); p.Ok? ==> p.frame.WellFormed()
  {
  }

  // ---------------------------------------------------------------------------------------------
  // Wrap-around
  // ---------------------------------------------------------------------------------------------

  function WrapRange(r: PacketRange): PacketRange {
    PacketRange(Wrap(r.first), Wrap(r.last))
  }

  function WrapAll(rs: seq<PacketRange>): (ws: seq<PacketRange>)
    ensures |ws| == |rs| && forall i :: 0 <= i < |rs| ==> ws[i] == WrapRange(rs[i])
  {
    seq(|rs|, i requires 0 <= i < |rs| => WrapRange(rs[i]))
  }

  lemma WrapAdd(x: int, y: int)
    ensures Wrap(Wrap(x) + y) == Wrap(x + y)
  {
    assert (x % TWO64 + y) % TWO64 == (x + y) % TWO64;
  }

  /** The validity test on the wrapped ranges. */
  predicate ValidRanges(ws: seq<PacketRange>, largest: nat) {
    && |ws| != 1
    && (|ws| > 0 ==> ws[0].last == largest)
    && (forall i :: 0 <= i < |ws| ==> ws[i].first <= ws[i].last)
    && (forall i :: 0 < i < |ws| ==> ws[i - 1].first > ws[i].first && ws[i - 1].first > Wrap(ws[i].last + 1))
  }

  /** What blocks can produce: ranges of at least one packet that do not lie too far below zero. */
  predicate Bounded(rs: seq<PacketRange>, span: int) {
    && rs != []
    && (forall i :: 0 < i < |rs| ==> rs[i].first <= rs[i].last)
    && (forall i :: 0 <= i < |rs| ==> -span <= rs[i].first && rs[i].last < 0x1_0000_0000_0000)
    && 1 <= rs[0].first <= rs[0].last + 1
  }

  /** A range below zero wraps to a huge number, which cannot lie below its predecessor. */
  lemma {:induction false} ValidNotNegative(rs: seq<PacketRange>, largest: nat, i: nat)
    requires Bounded(rs, 0x4000_0000_0000_0000) && ValidRanges(WrapAll(rs), largest) && i < |rs|
    ensures 0 <= rs[i].first < 0x1_0000_0000_0001 && (i > 0 ==> rs[i].last + 1 < rs[i - 1].first)
  {
    if i > 0 {
      ValidNotNegative(rs, largest, i - 1);
      assert WrapAll(rs)[i - 1].first > WrapAll(rs)[i].first;
      assert WrapAll(rs)[i - 1].first > Wrap(WrapAll(rs)[i].last + 1);
    } else {
      assert WrapAll(rs)[0].first <= WrapAll(rs)[0].last;
    }
  }

  lemma {:induction false} DescendingPair(rs: seq<PacketRange>, i: nat, j: nat)
    requires forall k :: 0 <= k < |rs| ==> rs[k].first <= rs[k].last
    requires forall k :: 0 < k < |rs| ==> rs[k].last + 1 < rs[k - 1].first
    requires i < j < |rs|
    ensures rs[j].last + 1 < rs[i].first
    decreases j
  {
    if i < j - 1 {
      DescendingPair(rs, i, j - 1);
    }
  }

  /** On ranges that come from blocks the wrapped test says exactly whether the true ranges are descending. */
  lemma ValidIffDescending(rs: seq<PacketRange>, largest: nat)
    requires Bounded(rs, 0x4000_0000_0000_0000) && rs[0].last == largest
    ensures ValidRanges(WrapAll(rs), largest) <==> |rs| >= 2 && Descending(rs)
    ensures Descending(rs) ==> WrapAll(rs) == rs
  {
    if ValidRanges(WrapAll(rs), largest) {
      forall i | 0 <= i < |rs|
        ensures 0 <= rs[i].first <= rs[i].last && (i > 0 ==> rs[i].last + 1 < rs[i - 1].first)
      {
        ValidNotNegative(rs, largest, i);
        assert WrapAll(rs)[i].first <= WrapAll(rs)[i].last;
      }
      forall i, j | 0 <= i < j < |rs|
        ensures rs[j].last + 1 < rs[i].first
      {
        DescendingPair(rs, i, j);
      }
    }
    if Descending(rs) {
      forall i | 0 <= i < |rs|
        ensures WrapRange(rs[i]) == rs[i]
      {
      }
    }
  }

  /** Fields as they come off the wire. */
  predicate WireBlocks(bs: seq<Block>) {
    forall i :: 0 <= i < |bs| ==> bs[i].gap <= 255 && bs[i].length < 0x1_0000_0000_0000
  }

  const SPAN := 0x2_0000_0000_0000

  /** Few blocks cannot reach far below zero. */
  lemma {:induction false} FeedBounded(d: Decoder, bs: seq<Block>, k: nat)
    requires Bounded(d.ranges, k * SPAN) && d.carry <= 255 * k && WireBlocks(bs) && k + |bs| <= 255
    ensures Bounded(d.FeedAll(bs).ranges, 0x4000_0000_0000_0000)
    decreases |bs|
  {
    if bs != [] {
      var d' := d.Feed(bs[0]);
      assert Bounded(d'.ranges, (k + 1) * SPAN);
      FeedBounded(d', bs[1..], k + 1);
    }
  }

  // ---------------------------------------------------------------------------------------------
  // The parser of the source
  // ---------------------------------------------------------------------------------------------

  lemma {:induction false} NoBlocksStays(r: seq<byte>, i: nat, n: nat, len: nat)
    requires ReadBlocks(r, i, len) == NoBlocks && i <= n
    ensures ReadBlocks(r, n, len) == NoBlocks
    decreases n
  {
    if i < n {
      NoBlocksStays(r, i, n - 1, len);
    }
  }

  lemma ReadBlockBounds(r: seq<byte>, len: nat)
    requires IsLength(len)
    ensures ReadBlock(r, len).Blocks? ==> |ReadBlock(r, len).blocks| == 1 && WireBlocks(ReadBlock(r, len).blocks)
  {
    CapacityValues();
    if |r| >= 1 + len {
      ValueBound(r[..1]);
      ValueBound(r[1..][..len]);
    }
  }

  lemma {:induction false} ReadBlocksBounds(r: seq<byte>, n: nat, len: nat)
    requires IsLength(len)
    ensures var bs := ReadBlocks(r, n, len); bs.Blocks? ==> |bs.blocks| == n && WireBlocks(bs.blocks)
  {
    if n > 0 {
      ReadBlocksBounds(r, n - 1, len);
      if ReadBlocks(r, n - 1, len).Blocks? {
        ReadBlockBounds(ReadBlocks(r, n - 1, len).rest, len);
      }
    }
  }

  /** What the code holds while it reads blocks: the wrapped ranges, with an empty range at the end
      while a chain is unfinished. */
  ghost predicate Mirrors(ws: seq<PacketRange>, inLongBlock: bool, d: Decoder) {
    && d.ranges != []
    && (inLongBlock || d.carry == 0)
    && ws == WrapAll(Unfinished(d, inLongBlock))
  }

  function Unfinished(d: Decoder, inLongBlock: bool): seq<PacketRange>
    requires d.ranges != []
  {
    if inLongBlock then d.ranges + [Below(d.ranges[|d.ranges| - 1], d.carry, 0)] else d.ranges
  }

  lemma ShiftWrapped(above: PacketRange, carry: int, gap: int, length: int)
    ensures var w := WrapRange(Below(above, carry, 0));
            PacketRange(Wrap(w.first - (gap + length)), Wrap(w.last - gap)) ==
              WrapRange(Below(above, carry + gap, length))
  {
    WrapAdd(above.first - carry, -(gap + length));
    WrapAdd(above.first - carry - 1, -gap);
  }

  lemma BelowWrapped(above: PacketRange, gap: int, length: int)
    ensures var last := Wrap(Wrap(above.first) - gap - 1);
            PacketRange(Wrap(last - length + 1), last) == WrapRange(Below(above, gap, length))
  {
    WrapAdd(above.first, -gap - 1);
    WrapAdd(above.first - gap - 1, -length + 1);
  }

  lemma WrapAllSnoc(rs: seq<PacketRange>, r: PacketRange)
    ensures WrapAll(rs + [r]) == WrapAll(rs) + [WrapRange(r)]
    ensures WrapAll(rs + [r])[..|rs|] == WrapAll(rs)
  {
  }

  lemma MirrorsNext(d: Decoder, gap: nat, length: nat)
    requires d.ranges != []
    ensures Mirrors(WrapAll(d.ranges + [Below(d.ranges[|d.ranges| - 1], d.carry + gap, length)]), length == 0,
                    d.Feed(Block(gap, length)))
  {
  }

  /** One block: either the empty range at the end moves down, or a new range is added. */
  method AddBlock(ackRanges: seq<PacketRange>, inLongBlock: bool, gap: nat, length: nat, ghost d: Decoder)
    returns (ws: seq<PacketRange>)
    requires Mirrors(ackRanges, inLongBlock, d)
    ensures ws == WrapAll(d.ranges + [Below(d.ranges[|d.ranges| - 1], d.carry + gap, length)])
  {
    ghost var above := d.ranges[|d.ranges| - 1];
    var last := ackRanges[|ackRanges| - 1];
    WrapAllSnoc(d.ranges, Below(above, d.carry + gap, length));
    if inLongBlock {
      WrapAllSnoc(d.ranges, Below(above, d.carry, 0));
      ShiftWrapped(above, d.carry, gap, length);
      ws := ackRanges[..|ackRanges| - 1] + [PacketRange(Wrap(last.first - (gap + length)), Wrap(last.last - gap))];
    } else {
      BelowWrapped(above, gap, length);
      var lastPacketNumber := Wrap(last.first - gap - 1);
      ws := ackRanges + [PacketRange(Wrap(lastPacketNumber - length + 1), lastPacketNumber)];
    }
  }

  /** Dropping an unfinished range, whose packet numbers make no sense. */
  function DropUnfinished(ws: seq<PacketRange>, lastRangeComplete: bool): seq<PacketRange> {
    if lastRangeComplete || ws == [] then ws else ws[..|ws| - 1]
  }

  lemma FinishedRanges(ws: seq<PacketRange>, lastRangeComplete: bool, top: PacketRange, bs: seq<Block>)
    requires Mirrors(ws, !lastRangeComplete, Decoder([top], 0).FeedAll(bs))
    requires WireBlocks(bs) && |bs| <= 255 && 1 <= top.first <= top.last + 1 <= 0x1_0000_0000_0000
    ensures var ranges, kept := Decoder([top], 0).FeedAll(bs).ranges, DropUnfinished(ws, lastRangeComplete);
            && (ValidRanges(kept, top.last) <==> |ranges| >= 2 && Descending(ranges))
            && (Descending(ranges) ==> kept == ranges)
  {
    var d := Decoder([top], 0).FeedAll(bs);
    FeedBounded(Decoder([top], 0), bs, 0);
    assert DropUnfinished(ws, lastRangeComplete) == WrapAll(d.ranges);
    ValidIffDescending(d.ranges, top.last);
  }

  method ReadBlockFields(r: seq<byte>, len: nat) returns (ok: bool, gap: nat, length: nat, rest: seq<byte>)
    requires IsLength(len)
    ensures ok <==> ReadBlock(r, len).Blocks?
    ensures ok ==> ReadBlock(r, len) == Blocks([Block(gap, length)], rest)
  {
    if |r| == 0 {
      return false, 0, 0, [];
    }
    TakeByte(r);
    var t := ReadUintN(r[1..], len);
    if t.Eof? {
      return false, 0, 0, [];
    }
    assert ReadBlock(r, len).blocks[0] == Block(r[0], t.value);
    return true, r[0], t.value, t.rest;
  }

  lemma ReadOneMore(top: PacketRange, r: seq<byte>, i: nat, len: nat, b: Block, rest: seq<byte>)
    requires ReadBlocks(r, i, len).Blocks? && ReadBlock(ReadBlocks(r, i, len).rest, len) == Blocks([b], rest)
    ensures ReadBlocks(r, i + 1, len) == Blocks(ReadBlocks(r, i, len).blocks + [b], rest)
    ensures Decoder([top], 0).FeedAll(ReadBlocks(r, i + 1, len).blocks) ==
            Decoder([top], 0).FeedAll(ReadBlocks(r, i, len).blocks).Feed(b)
  {
    FeedSnoc(Decoder([top], 0), ReadBlocks(r, i, len).blocks, b);
  }

  /** After `i` blocks were read off `r`. */
  ghost predicate ReadSoFar(top: PacketRange, r: seq<byte>, i: nat, len: nat, ws: seq<PacketRange>, inLongBlock: bool,
                            rest: seq<byte>) {
    && ReadBlocks(r, i, len).Blocks? && rest == ReadBlocks(r, i, len).rest
    && Mirrors(ws, inLongBlock, Decoder([top], 0).FeedAll(ReadBlocks(r, i, len).blocks))
  }

  /** One turn of the loop over the blocks. */
  method ReadOneRange(ghost top: PacketRange, ghost r: seq<byte>, ghost i: nat, len: nat,
                      ackRanges: seq<PacketRange>, inLongBlock: bool, rest: seq<byte>)
    returns (ok: bool, ws: seq<PacketRange>, length: nat, rest': seq<byte>)
    requires IsLength(len) && ReadSoFar(top, r, i, len, ackRanges, inLongBlock, rest)
    ensures ok <==> ReadBlocks(r, i + 1, len).Blocks?
    ensures ok ==> ReadSoFar(top, r, i + 1, len, ws, length == 0, rest')
  {
    var gap;
    ok, gap, length, rest' := ReadBlockFields(rest, len);
    if !ok {
      return false, [], 0, [];
    }
    ghost var d := Decoder([top], 0).FeedAll(ReadBlocks(r, i, len).blocks);
    ReadOneMore(top, r, i, len, Block(gap, length), rest');
    MirrorsNext(d, gap, length);
    ws := AddBlock(ackRanges, inLongBlock, gap, length, d);
  }

  /** The loop over the blocks: in 64-bit arithmetic it arrives at the wrapped true ranges. */
  method ReadRanges(top: PacketRange, numAckBlocks: nat, len: nat, r: seq<byte>)
    returns (ok: bool, ackRanges: seq<PacketRange>, lastRangeComplete: bool, rest: seq<byte>)
    requires IsLength(len) && 0 < numAckBlocks && 1 <= top.first <= top.last + 1 <= 0x1_0000_0000_0000
    ensures ok <==> ReadBlocks(r, numAckBlocks, len).Blocks?
    ensures ok ==> ReadSoFar(top, r, numAckBlocks, len, ackRanges, !lastRangeComplete, rest)
  {
    ackRanges, lastRangeComplete, rest := [top], false, r;
    var inLongBlock := false;
    assert WrapAll([top]) == [top];
    for i := 0 to numAckBlocks
      invariant ReadSoFar(top, r, i, len, ackRanges, inLongBlock, rest)
      invariant if i == 0 then !inLongBlock else lastRangeComplete == !inLongBlock
    {
      var read, ws, length, r1 := ReadOneRange(top, r, i, len, ackRanges, inLongBlock, rest);
      if !read {
        NoBlocksStays(r, i + 1, numAckBlocks, len);
        return false, [], false, [];
      }
      ackRanges, rest := ws, r1;
      if !inLongBlock {
        lastRangeComplete := false;
      }
      if length > 0 {
        lastRangeComplete := true;
      }
      inLongBlock := length == 0;
    }
    return true, ackRanges, lastRangeComplete, rest;
  }

  method ValidateAckRanges(ackRanges: seq<PacketRange>, largestAcked: nat) returns (b: bool)
    ensures b <==> ValidRanges(ackRanges, largestAcked)
  {
    if |ackRanges| == 0 {
      return true;
    }
    if |ackRanges| == 1 {
      return false;
    }
    if ackRanges[0].last != largestAcked {
      return false;
    }
    for i := 0 to |ackRanges|
      invariant forall j :: 0 <= j < i ==> ackRanges[j].first <= ackRanges[j].last
    {
      if ackRanges[i].first > ackRanges[i].last {
        return false;
      }
    }
    for i := 1 to |ackRanges|
      invariant forall j :: 0 < j < i ==>
                ackRanges[j - 1].first > ackRanges[j].first && ackRanges[j - 1].first > Wrap(ackRanges[j].last + 1)
    {
      if ackRanges[i - 1].first <= ackRanges[i].first {
        return false;
      }
      if ackRanges[i - 1].first <= Wrap(ackRanges[i].last + 1) {
        return false;
      }
    }
    return true;
  }

  method SkipTimestamps(frame: AckFrame, r: seq<byte>) returns (res: ParseResult)
    ensures res == ParseTimestamps(frame, r)
  {
    if |r| == 0 {
      return Err(UnexpectedEof);
    }
    TakeByte(r);
    var numTimestamp: nat, rest := r[0], r[1..];
    if numTimestamp > 0 {
      var delta := Take(rest, 1);
      if delta.Eof? {
        return Err(UnexpectedEof);
      }
      var time := Take(delta.rest, 4);
      if time.Eof? {
        return Err(UnexpectedEof);
      }
      rest := time.rest;
      for i := 0 to numTimestamp - 1
        invariant 6 + 3 * i <= |r| && rest == r[6 + 3 * i..]
      {
        delta := Take(rest, 1);
        if delta.Eof? {
          return Err(UnexpectedEof);
        }
        time := Take(delta.rest, 2);
        if time.Eof? {
          return Err(UnexpectedEof);
        }
        rest := time.rest;
      }
    }
    return Ok(frame, rest);
  }

  /** The parser of the source accepts exactly the frames the reference accepts, with the same contents. */
  method ParseAckFrame(data: seq<byte>) returns (res: ParseResult)
    ensures res == Parse(data)
    ensures res.Ok? ==> res.frame.WellFormed()
  {
    AcceptedIsWellFormed(data);
    if |data| == 0 {
      return Err(UnexpectedEof);
    }
    TakeByte(data);
    var typeByte: nat := data[0];
    var hasMissingRanges := HasMissing(typeByte);
    var largestAckedLen, deltaLen := LargestAckedLen(typeByte), DeltaLen(typeByte);
    var t := ReadUintN(data[1..], largestAckedLen);
    if t.Eof? {
      return Err(UnexpectedEof);
    }
    var largestAcked := t.value;
    ValueBound(data[1..][..largestAckedLen]);
    CapacityValues();
    var u := ReadUintN(t.rest, 2);
    if u.Eof? {
      return Err(UnexpectedEof);
    }
    var delayTime, r := Ufloat16.Decode(u.value), u.rest;
    var numAckBlocks: nat := 0;
    if hasMissingRanges {
      if |r| == 0 {
        return Err(UnexpectedEof);
      }
      TakeByte(r);
      numAckBlocks, r := r[0], r[1..];
      if numAckBlocks == 0 {
        return Err(InvalidAckRanges);
      }
    }
    res := ParseBlocks(largestAcked, delayTime, numAckBlocks, deltaLen, r);
  }

  method ParseBlocks(largestAcked: nat, delayTime: nat, numAckBlocks: nat, len: nat, r: seq<byte>)
    returns (res: ParseResult)
    requires IsLength(len) && numAckBlocks <= 255 && largestAcked < 0x1_0000_0000_0000
    ensures res == ParseFirstBlock(largestAcked, delayTime, numAckBlocks, len, r)
  {
    var t := ReadUintN(r, len);
    if t.Eof? {
      return Err(UnexpectedEof);
    }
    var ackBlockLength := t.value;
    if largestAcked > 0 && ackBlockLength < 1 {
      return Err(InvalidFirstAckRange);
    }
    if ackBlockLength > largestAcked {
      return Err(InvalidAckRanges);
    }
    if numAckBlocks == 0 {
      var lowestAcked := if largestAcked == 0 then 0 else largestAcked + 1 - ackBlockLength;
      res := SkipTimestamps(AckFrame(largestAcked, lowestAcked, [], delayTime), t.rest);
      return;
    }
    var top := PacketRange(largestAcked - ackBlockLength + 1, largestAcked);
    res := ParseMissingRanges(top, delayTime, numAckBlocks, len, t.rest);
  }

  method ParseMissingRanges(top: PacketRange, delayTime: nat, numAckBlocks: nat, len: nat, r: seq<byte>)
    returns (res: ParseResult)
    requires IsLength(len) && 0 < numAckBlocks <= 255 && 1 <= top.first <= top.last + 1 <= 0x1_0000_0000_0000
    ensures res == ParseFurtherBlocks(top, delayTime, numAckBlocks, len, r)
  {
    var ok, ackRanges, lastRangeComplete, rest := ReadRanges(top, numAckBlocks, len, r);
    if !ok {
      return Err(UnexpectedEof);
    }
    ReadBlocksBounds(r, numAckBlocks, len);
    FinishedRanges(ackRanges, lastRangeComplete, top, ReadBlocks(r, numAckBlocks, len).blocks);
    ackRanges := DropUnfinished(ackRanges, lastRangeComplete);
    var valid := ValidateAckRanges(ackRanges, top.last);
    if !valid {
      return Err(InvalidAckRanges);
    }
    res := SkipTimestamps(AckFrame(ackRanges[0].last, ackRanges[|ackRanges| - 1].first, ackRanges, delayTime), rest);
  }
}
