/** ACK frames on the wire (frames/ack_frame.go), field by field and from anyone: which byte sequences the parser
    accepts, and what they acknowledge. */
module AckFrameWire {
  import opened Frames
  import opened PacketRanges
  import opened AckFrames
  import opened ByteCodec
  import opened AckFrameParser
  import opened AckFrameWriter
  import Ufloat16

  // ---------------------------------------------------------------------------------------------
  // The layout
  // ---------------------------------------------------------------------------------------------

  /** When a packet was received; the parser reads timestamps and drops them. */
  datatype Timestamp = Timestamp(delta: nat, time: nat)

  /** The fields of a frame. Of the type byte the two highest bits and the `spare` one are not read; the codes 0 to 3
      stand for lengths of 1, 2, 4 and 6 bytes. `first` is the length of the first block; `blocks` follow if packets
      are `missing`. */
  datatype WireAck = WireAck(
    high: nat, missing: bool, spare: bool, largestCode: nat, deltaCode: nat,
    largest: nat, delay: nat, first: nat, blocks: seq<Block>, timestamps: seq<Timestamp>) {

    function LargestLen(): nat {
      Len(largestCode)
    }

    function BlockLen(): nat {
      Len(deltaCode)
    }

    /** Every field fits the bytes it is written to. */
    ghost predicate Sized() {
      && high < 4 && largestCode < 4 && deltaCode < 4
      && largest < Capacity(LargestLen()) && delay <= 0xFFFF && first < Capacity(BlockLen())
      && (if missing then |blocks| <= 255 else blocks == []) && FitBlocks(blocks, BlockLen())
      && |timestamps| <= 255 && FitStamps(timestamps)
    }

    function Type(): nat {
      64 * high + (if missing then 32 else 0) + (if spare then 16 else 0) + 4 * largestCode + deltaCode
    }

    function Behind(): seq<byte> {
      LittleEndian(BlockLen(), first) + (BlockBytes(blocks, BlockLen()) + Stamps(timestamps))
    }

    function Encode(): seq<byte> {
      LittleEndian(1, Type()) + (LittleEndian(LargestLen(), largest) + (LittleEndian(2, delay) +
      ((if missing then LittleEndian(1, |blocks|) else []) + Behind())))
    }

    /** The numbers described are at least -1, ranges do not touch, and a frame with missing packets has two ranges. */
    predicate Acceptable() {
      && first <= largest
      && (missing ==> largest > 0 && HasLength(blocks) && Clear(largest - first, 0, blocks))
    }

    /** Packet `p` is in the first block or in a later one. */
    predicate Covers(p: int) {
      largest - first < p <= largest || CoveredBy(largest - first, 0, blocks, p)
    }
  }

  function Len(code: nat): nat {
    if code == 0 then 1 else if code == 1 then 2 else if code == 2 then 4 else 6
  }

  ghost predicate FitStamps(ts: seq<Timestamp>) {
    && (forall i :: 0 <= i < |ts| ==> ts[i].delta <= 255 && ts[i].time <= if i == 0 then 0xFFFF_FFFF else 0xFFFF)
  }

  /** The number of timestamps, then the first one with 32 bits of time and the others with 16. */
  function Stamps(ts: seq<Timestamp>): seq<byte> {
    LittleEndian(1, |ts|) + FirstStamps(ts, |ts|)
  }

  function FirstStamps(ts: seq<Timestamp>, k: nat): seq<byte>
    requires k <= |ts|
  {
    if k == 0 then []
    else
      var t := ts[k - 1];
      FirstStamps(ts, k - 1) + (LittleEndian(1, t.delta) + LittleEndian(if k == 1 then 4 else 2, t.time))
  }

  predicate HasLength(bs: seq<Block>) {
    exists i :: 0 <= i < |bs| && bs[i].length > 0
  }

  /** Behind number `c` and a gap of `gap` packets, every block with packets leaves a gap and stays above -2. */
  predicate Clear(c: int, gap: nat, bs: seq<Block>)
    decreases |bs|
  {
    bs == [] ||
    var g, b := gap + bs[0].gap, bs[0];
    if b.length == 0 then Clear(c, g, bs[1..])
    else g > 0 && c - g - b.length >= -1 && Clear(c - g - b.length, 0, bs[1..])
  }

  predicate CoveredBy(c: int, gap: nat, bs: seq<Block>, p: int)
    decreases |bs|
  {
    bs != [] &&
    var g, b := gap + bs[0].gap, bs[0];
    if b.length == 0 then CoveredBy(c, g, bs[1..], p)
    else c - g - b.length < p <= c - g || CoveredBy(c - g - b.length, 0, bs[1..], p)
  }

  // ---------------------------------------------------------------------------------------------
  // What the blocks describe
  // ---------------------------------------------------------------------------------------------

  lemma DescendingSnoc(rs: seq<PacketRange>, r: PacketRange)
    requires rs != []
    ensures Descending(rs + [r]) <==>
            Descending(rs) && 0 <= r.first <= r.last && r.last + 1 < rs[|rs| - 1].first
  {
    var all := rs + [r];
    if Descending(all) {
      assert all[|rs|].last + 1 < all[|rs| - 1].first;
      assert forall i :: 0 <= i < |rs| ==> rs[i] == all[i];
    }
  }

  lemma InSnoc(rs: seq<PacketRange>, r: PacketRange, p: int)
    ensures InRanges(rs + [r], p) <==> InRanges(rs, p) || r.Contains(p)
  {
    assert InRanges(rs, p) ==> InRanges(rs + [r], p) by {
      if i :| 0 <= i < |rs| && rs[i].Contains(p) {
        assert (rs + [r])[i].Contains(p);
      }
    }
    assert (rs + [r])[|rs|] == r;
  }

  lemma {:induction false} FeedDescending(d: Decoder, bs: seq<Block>)
    requires d.ranges != []
    ensures Descending(d.FeedAll(bs).ranges) <==>
            Descending(d.ranges) && Clear(d.ranges[|d.ranges| - 1].first - 1, d.carry, bs)
    decreases |bs|
  {
    hide Descending;
    if bs != [] {
      FeedDescending(d.Feed(bs[0]), bs[1..]);
      var above := d.ranges[|d.ranges| - 1];
      DescendingSnoc(d.ranges, Below(above, d.carry + bs[0].gap, bs[0].length));
    }
  }

  lemma {:induction false} FeedCovers(d: Decoder, bs: seq<Block>, p: int)
    requires d.ranges != []
    ensures InRanges(d.FeedAll(bs).ranges, p) <==>
            InRanges(d.ranges, p) || CoveredBy(d.ranges[|d.ranges| - 1].first - 1, d.carry, bs, p)
    decreases |bs|
  {
    hide InRanges;
    if bs != [] {
      FeedCovers(d.Feed(bs[0]), bs[1..], p);
      InSnoc(d.ranges, Below(d.ranges[|d.ranges| - 1], d.carry + bs[0].gap, bs[0].length), p);
    }
  }

  lemma {:induction false} FeedCount(d: Decoder, bs: seq<Block>)
    requires d.ranges != []
    ensures |d.FeedAll(bs).ranges| >= |d.ranges|
    ensures |d.FeedAll(bs).ranges| > |d.ranges| <==> HasLength(bs)
    decreases |bs|
  {
    if bs != [] {
      FeedCount(d.Feed(bs[0]), bs[1..]);
      if i :| 0 <= i < |bs| && bs[i].length > 0 {
        assert i > 0 ==> bs[1..][i - 1].length > 0;
      }
    }
  }

  // ---------------------------------------------------------------------------------------------
  // Timestamps
  // ---------------------------------------------------------------------------------------------

  lemma {:induction false} StampsLength(ts: seq<Timestamp>, k: nat)
    requires k <= |ts|
    ensures |FirstStamps(ts, k)| == if k == 0 then 0 else 3 * k + 2
  {
    if k > 0 {
      StampsLength(ts, k - 1);
    }
  }

  /** Timestamps change nothing, and exactly their bytes are read. */
  lemma TimestampsSkipped(frame: AckFrame, ts: seq<Timestamp>, rest: seq<byte>)
    requires |ts| <= 255
    ensures ParseTimestamps(frame, Stamps(ts) + rest) == Ok(frame, rest)
  {
    CapacityValues();
    StampsLength(ts, |ts|);
    var r := FirstStamps(ts, |ts|) + rest;
    TakeWritten(1, |ts|, r);
    assert Stamps(ts) + rest == LittleEndian(1, |ts|) + r;
    assert r[|FirstStamps(ts, |ts|)|..] == rest;
  }

  /** Timestamps that are cut off end the parse. */
  lemma TimestampsCut(frame: AckFrame, ts: seq<Timestamp>, k: nat)
    requires |ts| <= 255 && k < |Stamps(ts)|
    ensures ParseTimestamps(frame, Stamps(ts)[..k]) == Err(UnexpectedEof)
  {
    TimestampsSkipped(frame, ts, []);
    assert Stamps(ts) + [] == Stamps(ts);
    TimestampsPrefix(frame, Stamps(ts), k);
  }

  // ---------------------------------------------------------------------------------------------
  // Parsing what is laid out like this
  // ---------------------------------------------------------------------------------------------

  lemma TypeFields(w: WireAck)
    requires w.high < 4 && w.largestCode < 4 && w.deltaCode < 4
    ensures w.Type() < 256 && HasMissing(w.Type()) == w.missing
    ensures LargestAckedLen(w.Type()) == w.LargestLen() && DeltaLen(w.Type()) == w.BlockLen()
  {
    var t, m, s := w.Type(), if w.missing then 1 else 0, if w.spare then 1 else 0;
    assert t == 4 * (16 * w.high + 8 * m + 4 * s + w.largestCode) + w.deltaCode;
    assert t / 4 == 4 * (4 * w.high + 2 * m + s) + w.largestCode;
    assert t == 32 * (2 * w.high + m) + (16 * s + 4 * w.largestCode + w.deltaCode);
    assert t / 32 == 2 * w.high + m;
  }

  lemma AcceptEncoded(w: WireAck, top: PacketRange, delay: nat, rest: seq<byte>)
    requires w.Sized() && w.missing && w.largest > 0 && 1 <= w.first <= w.largest
    requires top == PacketRange(w.largest - w.first + 1, w.largest)
    ensures var p := AcceptRanges(Decoder([top], 0).FeedAll(w.blocks).ranges, delay, Stamps(w.timestamps) + rest);
            if w.Acceptable() then p.Ok? && p.rest == rest &&
              Describes(p.frame, w, delay) else p == Err(InvalidAckRanges)
  {
    var d := Decoder([top], 0);
    var ranges := d.FeedAll(w.blocks).ranges;
    FeedDescending(d, w.blocks);
    FeedCount(d, w.blocks);
    if w.Acceptable() {
      var frame := AckFrame(ranges[0].last, ranges[|ranges| - 1].first, ranges, delay);
      TimestampsSkipped(frame, w.timestamps, rest);
      forall p
        ensures frame.Acks(p) <==> w.Covers(p)
      {
        FeedCovers(d, w.blocks, p);
        assert InRanges([top], p) <==> top.Contains(p) by { assert [top][0] == top; }
      }
    }
  }

  /** The frame has the fields' meaning. A frame about packet 0 alone acknowledges that one, which is no packet. */
  ghost predicate Describes(f: AckFrame, w: WireAck, delay: nat) {
    && f.largestAcked == w.largest && f.delayTime == delay && f.HasMissingRanges() == w.missing
    && (forall p :: p > 0 || w.largest > 0 ==> (f.Acks(p) <==> w.Covers(p)))
  }

  /** What every frame that is laid out by the fields of `w` is parsed as. */
  ghost predicate ParsedAs(p: ParseResult, w: WireAck, delay: nat, rest: seq<byte>) {
    if w.missing && w.blocks == [] then p == Err(InvalidAckRanges)
    else if w.largest > 0 && w.first == 0 then p == Err(InvalidFirstAckRange)
    else if w.Acceptable() then p.Ok? && p.rest == rest && Describes(p.frame, w, delay)
    else p == Err(InvalidAckRanges)
  }

  lemma RangesEncoded(w: WireAck, delay: nat, rest: seq<byte>)
    requires w.Sized() && (w.missing ==> w.blocks != [])
    ensures ParsedAs(ParseRanges(w.largest, w.first, delay, |w.blocks|, w.BlockLen(),
                                 BlockBytes(w.blocks, w.BlockLen()) + (Stamps(w.timestamps) + rest)), w, delay, rest)
  {
    hide BlockBytes, Stamps, AcceptRanges, Clear, Capacity;
    var r := Stamps(w.timestamps) + rest;
    if !w.missing {
      NoBytes(w.BlockLen(), r);
      if w.first <= w.largest {
        TimestampsSkipped(AckFrame(w.largest, if w.largest == 0 then 0 else w.largest + 1 - w.first, [], delay),
                          w.timestamps, rest);
      }
    } else if w.largest > 0 && 1 <= w.first <= w.largest {
      ReadWrittenBlocks(w.blocks, w.BlockLen(), r);
      AcceptEncoded(w, PacketRange(w.largest - w.first + 1, w.largest), delay, rest);
    } else if w.largest == 0 && w.first == 0 {
      ReadWrittenBlocks(w.blocks, w.BlockLen(), r);
      EmptyTop(w.blocks, delay, r);
    }
  }

  lemma NoBytes(len: nat, r: seq<byte>)
    ensures BlockBytes([], len) + r == r
  {
  }

  /** Missing packets below packet 0 make no sense. */
  lemma EmptyTop(bs: seq<Block>, delay: nat, r: seq<byte>)
    ensures AcceptRanges(Decoder([PacketRange(1, 0)], 0).FeedAll(bs).ranges, delay, r) == Err(InvalidAckRanges)
  {
    FeedDescending(Decoder([PacketRange(1, 0)], 0), bs);
    assert !Descending([PacketRange(1, 0)]) by { assert [PacketRange(1, 0)][0].first > [PacketRange(1, 0)][0].last; }
  }

  lemma FirstBlockEncoded(w: WireAck, delay: nat, rest: seq<byte>)
    requires w.Sized() && (w.missing ==> w.blocks != [])
    ensures ParsedAs(ParseFirstBlock(w.largest, delay, |w.blocks|, w.BlockLen(), w.Behind() + rest), w, delay, rest)
  {
    hide ParseRanges, ParsedAs, BlockBytes, Stamps;
    var r := BlockBytes(w.blocks, w.BlockLen()) + (Stamps(w.timestamps) + rest);
    assert w.Behind() + rest == LittleEndian(w.BlockLen(), w.first) + r;
    TakeWritten(w.BlockLen(), w.first, r);
    RangesEncoded(w, delay, rest);
  }

  lemma CountsEncoded(w: WireAck, delay: nat, rest: seq<byte>)
    requires w.Sized()
    ensures ParsedAs(ParseCounts(w.largest, delay, w.Type(),
                                 (if w.missing then LittleEndian(1, |w.blocks|) else []) + Behind(w, rest)), w, delay,
                                   rest)
  {
    hide ParseFirstBlock, w.Covers, w.Behind, w.Acceptable, Describes, FitBlocks, FitStamps, LittleEndian;
    CapacityValues();
    TypeFields(w);
    if w.missing {
      TakeWritten(1, |w.blocks|, Behind(w, rest));
    } else {
      assert [] + Behind(w, rest) == Behind(w, rest);
    }
    if w.missing ==> w.blocks != [] {
      FirstBlockEncoded(w, delay, rest);
    }
  }

  function Behind(w: WireAck, rest: seq<byte>): seq<byte> {
    w.Behind() + rest
  }

  /** For all fields: a frame laid out by them is accepted if and only if the first block is neither missing nor too
      long and the later ones describe at least one more range, none of which touches the one above or goes below
      zero. Then exactly its bytes are read, and it acknowledges exactly what the blocks describe. */
  lemma ParseEncoded(w: WireAck, rest: seq<byte>)
    requires w.Sized()
    ensures ParsedAs(Parse(w.Encode() + rest), w, Ufloat16.Decode(w.delay), rest)
  {
    hide ParseCounts, ParsedAs, LittleEndian, FitBlocks, FitStamps, w.Behind;
    TypeFields(w);
    var counts := if w.missing then LittleEndian(1, |w.blocks|) else [];
    var r := counts + Behind(w, rest);
    assert w.Encode() + rest ==
           LittleEndian(1, w.Type()) + (LittleEndian(w.LargestLen(), w.largest) + (LittleEndian(2, w.delay) + r));
    ParseHead(w.Type(), w.largest, w.delay, r);
    CountsEncoded(w, Ufloat16.Decode(w.delay), rest);
  }

  // ---------------------------------------------------------------------------------------------
  // Every accepted input is laid out like this
  // ---------------------------------------------------------------------------------------------

  lemma {:induction false} LittleEndianOfValue(bs: seq<byte>)
    ensures LittleEndian(|bs|, Value(bs)) == bs
  {
    if bs != [] {
      LittleEndianOfValue(bs[1..]);
      assert bs == [bs[0]] + bs[1..];
    }
  }

  /** What is read off the front of `r` was there. */
  lemma TakenWas(r: seq<byte>, n: nat)
    requires n <= |r|
    ensures var t := Take(r, n); t.Taken? && t.value < Capacity(n) && r == LittleEndian(n, t.value) + t.rest
  {
    LittleEndianOfValue(r[..n]);
    ValueBound(r[..n]);
  }

  lemma BlockWas(r: seq<byte>, len: nat)
    requires ReadBlock(r, len).Blocks?
    ensures exists b: Block :: ReadBlock(r, len).blocks == [b] && FitBlocks([b], len) &&
              r == LittleEndian(1, b.gap) + (LittleEndian(len, b.length) + ReadBlock(r, len).rest)
  {
    CapacityValues();
    TakenWas(r, 1);
    TakenWas(r[1..], len);
    var b := Block(Take(r, 1).value, Take(r[1..], len).value);
    assert ReadBlock(r, len).blocks == [b];
  }

  lemma {:induction false} BlocksWere(r: seq<byte>, n: nat, len: nat)
    requires ReadBlocks(r, n, len).Blocks?
    ensures var bs := ReadBlocks(r, n, len);
            |bs.blocks| == n && FitBlocks(bs.blocks, len) && r == BlockBytes(bs.blocks, len) + bs.rest
  {
    if n > 0 {
      hide ReadBlock, BlockBytes, LittleEndian;
      BlocksWere(r, n - 1, len);
      var init := ReadBlocks(r, n - 1, len);
      BlockWas(init.rest, len);
      var b: Block :| ReadBlock(init.rest, len).blocks == [b] && FitBlocks([b], len) &&
                      init.rest == LittleEndian(1, b.gap) +
                        (LittleEndian(len, b.length) + ReadBlock(init.rest, len).rest);
      assert FitBlocks(init.blocks + [b], len) by { assert [b][0] == b; }
      BlockBytesSnoc(init.blocks, b, len, ReadBlock(init.rest, len).rest);
    } else {
      assert BlockBytes([], len) + r == r;
    }
  }

  /** Some timestamps stand in the first bytes of `r`. */
  lemma {:induction false} StampsWere(r: seq<byte>, n: nat) returns (ts: seq<Timestamp>)
    requires |r| == if n == 0 then 0 else 3 * n + 2
    ensures |ts| == n && FitStamps(ts) && r == FirstStamps(ts, n)
    decreases n
  {
    if n == 0 {
      ts := [];
    } else {
      var len := if n == 1 then 4 else 2;
      var k := |r| - 1 - len;
      var init := StampsWere(r[..k], n - 1);
      CapacityValues();
      TakenWas(r[k..], 1);
      TakenWas(r[k..][1..], len);
      var t := Timestamp(Take(r[k..], 1).value, Take(r[k..][1..], len).value);
      ts := init + [t];
      SameStamps(init, t, n - 1);
      assert r[k..] == LittleEndian(1, t.delta) + LittleEndian(len, t.time);
    }
  }

  lemma {:induction false} SameStamps(ts: seq<Timestamp>, t: Timestamp, k: nat)
    requires k <= |ts|
    ensures FirstStamps(ts + [t], k) == FirstStamps(ts, k)
  {
    if k > 0 {
      SameStamps(ts, t, k - 1);
    }
  }

  lemma SectionWas(frame: AckFrame, r: seq<byte>) returns (ts: seq<Timestamp>)
    requires ParseTimestamps(frame, r).Ok?
    ensures |ts| <= 255 && FitStamps(ts) && r == Stamps(ts) + ParseTimestamps(frame, r).rest
  {
    hide LittleEndian, FirstStamps, FitStamps, Value;
    CapacityValues();
    TakenWas(r, 1);
    var n := Take(r, 1).value;
    var r1 := Take(r, 1).rest;
    ts := StampsWere(r1[..TimestampBytes(n)], n);
    assert r1 == r1[..TimestampBytes(n)] + r1[TimestampBytes(n)..];
  }

  lemma TypeWas(t: nat) returns (w: WireAck)
    requires t < 256
    ensures w.high < 4 && w.largestCode < 4 && w.deltaCode < 4 && t == w.Type()
  {
    w := WireAck(t / 64, t / 32 % 2 == 1, t / 16 % 2 == 1, t / 4 % 4, t % 4, 0, 0, 0, [], []);
    assert t / 4 == 4 * (t / 16) + t / 4 % 4;
    assert t / 32 == 2 * (t / 64) + t / 32 % 2;
    assert t / 16 == 2 * (t / 32) + t / 16 % 2;
  }

  lemma FurtherWere(top: PacketRange, delay: nat, n: nat, len: nat, r: seq<byte>)
    returns (bs: seq<Block>, ts: seq<Timestamp>)
    requires ParseFurtherBlocks(top, delay, n, len, r).Ok?
    ensures |bs| == n && FitBlocks(bs, len) && |ts| <= 255 && FitStamps(ts)
    ensures r == BlockBytes(bs, len) + (Stamps(ts) + ParseFurtherBlocks(top, delay, n, len, r).rest)
  {
    hide ReadBlocks, ParseTimestamps, FitBlocks, FitStamps, Stamps, BlockBytes;
    BlocksWere(r, n, len);
    bs := ReadBlocks(r, n, len).blocks;
    var ranges := Decoder([top], 0).FeedAll(bs).ranges;
    ts := SectionWas(AckFrame(ranges[0].last, ranges[|ranges| - 1].first, ranges, delay), ReadBlocks(r, n, len).rest);
  }

  lemma FirstBlockWas(largest: nat, delay: nat, n: nat, len: nat, r: seq<byte>)
    returns (first: nat, bs: seq<Block>, ts: seq<Timestamp>)
    requires ParseFirstBlock(largest, delay, n, len, r).Ok?
    ensures first < Capacity(len) && |bs| == n && FitBlocks(bs, len) && |ts| <= 255 && FitStamps(ts)
    ensures r == LittleEndian(len, first) + (BlockBytes(bs, len) + Stamps(ts)) +
                 ParseFirstBlock(largest, delay, n, len, r).rest
  {
    hide ParseFurtherBlocks, ParseTimestamps, FitBlocks, FitStamps, Stamps, BlockBytes;
    TakenWas(r, len);
    first := Take(r, len).value;
    var r1 := Take(r, len).rest;
    if n == 0 {
      bs := [];
      ts := SectionWas(AckFrame(largest, if largest == 0 then 0 else largest + 1 - first, [], delay), r1);
      NoBytes(len, Stamps(ts));
      assert FitBlocks(bs, len) by { NoneFit(len); }
    } else {
      bs, ts := FurtherWere(PacketRange(largest - first + 1, largest), delay, n, len, r1);
    }
  }

  lemma NoneFit(len: nat)
    ensures FitBlocks([], len)
  {
  }

  lemma CountsWere(v: WireAck, largest: nat, delay: nat, d: nat, r: seq<byte>) returns (w: WireAck)
    requires v.high < 4 && v.largestCode < 4 && v.deltaCode < 4 && largest < Capacity(v.LargestLen()) && d <= 0xFFFF
    requires ParseCounts(largest, delay, v.Type(), r).Ok?
    ensures w.Sized() && w.Type() == v.Type() && w.LargestLen() == v.LargestLen() && w.largest == largest &&
            w.delay == d
    ensures r == (if w.missing then LittleEndian(1, |w.blocks|) else []) +
                 Behind(w, ParseCounts(largest, delay, v.Type(), r).rest)
  {
    hide ParseFirstBlock, FitBlocks, FitStamps, Stamps, BlockBytes;
    TypeFields(v);
    CapacityValues();
    var n, r1 := 0, r;
    if v.missing {
      TakenWas(r, 1);
      n, r1 := Take(r, 1).value, Take(r, 1).rest;
    }
    var first, bs, ts := FirstBlockWas(largest, delay, n, v.BlockLen(), r1);
    w := v.(largest := largest, delay := d, first := first, blocks := bs, timestamps := ts);
    assert r1 == Behind(w, ParseCounts(largest, delay, v.Type(), r).rest);
    assert [] + r == r;
  }

  /** Every input that is accepted is laid out by fields that are acceptable, with what is left behind them. */
  lemma AcceptedIsEncoded(r: seq<byte>) returns (w: WireAck)
    requires Parse(r).Ok?
    ensures w.Sized() && w.Acceptable() && r == w.Encode() + Parse(r).rest
    ensures Describes(Parse(r).frame, w, Ufloat16.Decode(w.delay))
  {
    hide ParseCounts, w.Acceptable, Describes, LittleEndian;
    CapacityValues();
    TakenWas(r, 1);
    var v := TypeWas(Take(r, 1).value);
    TypeFields(v);
    var r1 := Take(r, 1).rest;
    TakenWas(r1, v.LargestLen());
    var largest, r2 := Take(r1, v.LargestLen()).value, Take(r1, v.LargestLen()).rest;
    TakenWas(r2, 2);
    var d, r3 := Take(r2, 2).value, Take(r2, 2).rest;
    w := CountsWere(v, largest, Ufloat16.Decode(d), d, r3);
    AssembleEncoded(w, r, r1, r2, r3, Parse(r).rest);
    ParseEncoded(w, Parse(r).rest);
  }

  lemma AssembleEncoded(w: WireAck, r: seq<byte>, r1: seq<byte>, r2: seq<byte>, r3: seq<byte>, rest: seq<byte>)
    requires r == LittleEndian(1, w.Type()) + r1 && r1 == LittleEndian(w.LargestLen(), w.largest) + r2
    requires r2 == LittleEndian(2, w.delay) + r3
    requires r3 == (if w.missing then LittleEndian(1, |w.blocks|) else []) + Behind(w, rest)
    ensures r == w.Encode() + rest
  {
  }

  // ---------------------------------------------------------------------------------------------
  // Frames that are cut off
  // ---------------------------------------------------------------------------------------------

  lemma TimestampsPrefix(frame: AckFrame, r: seq<byte>, k: nat)
    requires ParseTimestamps(frame, r).Ok? && k <= |r|
    ensures |ParseTimestamps(frame, r).rest| <= |r|
    ensures k < |r| - |ParseTimestamps(frame, r).rest| ==> ParseTimestamps(frame, r[..k]) == Err(UnexpectedEof)
  {
    TakePrefix(r, 1, k);
  }

  lemma ReadBlockPrefix(r: seq<byte>, len: nat, k: nat)
    requires ReadBlock(r, len).Blocks? && k <= |r|
    ensures |ReadBlock(r, len).rest| == |r| - 1 - len
    ensures ReadBlock(r[..k], len) ==
            if k < 1 + len then NoBlocks
            else Blocks(ReadBlock(r, len).blocks, ReadBlock(r, len).rest[..k - 1 - len])
  {
    TakePrefix(r, 1, k);
    if k >= 1 {
      TakePrefix(r[1..], len, k - 1);
    }
  }

  lemma {:induction false} ReadBlocksPrefix(r: seq<byte>, n: nat, len: nat, k: nat)
    requires ReadBlocks(r, n, len).Blocks? && k <= |r|
    ensures var read := |r| - |ReadBlocks(r, n, len).rest|;
            read >= 0 &&
            ReadBlocks(r[..k], n, len) ==
            if k < read then NoBlocks else Blocks(ReadBlocks(r, n, len).blocks, ReadBlocks(r, n, len).rest[..k - read])
  {
    if n > 0 {
      hide ReadBlock;
      ReadBlocksPrefix(r, n - 1, len, k);
      var r1 := ReadBlocks(r, n - 1, len).rest;
      var read := |r| - |r1|;
      ReadBlockPrefix(r1, len, if k < read then 0 else k - read);
    }
  }

  lemma FurtherPrefix(top: PacketRange, delay: nat, n: nat, len: nat, r: seq<byte>, k: nat)
    requires ParseFurtherBlocks(top, delay, n, len, r).Ok? && k <= |r|
    ensures var rest := ParseFurtherBlocks(top, delay, n, len, r).rest;
            |rest| <= |r| && (k < |r| - |rest| ==> ParseFurtherBlocks(top, delay, n, len, r[..k]) == Err(UnexpectedEof))
  {
    hide ReadBlocks, ParseTimestamps;
    ReadBlocksPrefix(r, n, len, k);
    var ranges, r1 := Decoder([top], 0).FeedAll(ReadBlocks(r, n, len).blocks).ranges, ReadBlocks(r, n, len).rest;
    var read := |r| - |r1|;
    TimestampsPrefix(AckFrame(ranges[0].last, ranges[|ranges| - 1].first, ranges, delay), r1,
                     if k < read then 0 else k - read);
  }

  lemma FirstBlockPrefix(largest: nat, delay: nat, n: nat, len: nat, r: seq<byte>, k: nat)
    requires ParseFirstBlock(largest, delay, n, len, r).Ok? && k <= |r|
    ensures var rest := ParseFirstBlock(largest, delay, n, len, r).rest;
            |rest| <= |r| && (k < |r| - |rest| ==>
                              ParseFirstBlock(largest, delay, n, len, r[..k]) == Err(UnexpectedEof))
  {
    hide ParseFurtherBlocks, ParseTimestamps;
    TakePrefix(r, len, k);
    var first, r1, k1 := Take(r, len).value, Take(r, len).rest, if k < len then 0 else k - len;
    if n == 0 {
      TimestampsPrefix(AckFrame(largest, if largest == 0 then 0 else largest + 1 - first, [], delay), r1, k1);
    } else {
      FurtherPrefix(PacketRange(largest - first + 1, largest), delay, n, len, r1, k1);
    }
  }

  lemma CountsPrefix(largest: nat, delay: nat, t: nat, r: seq<byte>, k: nat)
    requires ParseCounts(largest, delay, t, r).Ok? && k <= |r|
    ensures var rest := ParseCounts(largest, delay, t, r).rest;
            |rest| <= |r| && (k < |r| - |rest| ==> ParseCounts(largest, delay, t, r[..k]) == Err(UnexpectedEof))
  {
    hide ParseFirstBlock;
    if HasMissing(t) {
      TakePrefix(r, 1, k);
      FirstBlockPrefix(largest, delay, Take(r, 1).value, DeltaLen(t), r[1..], if k < 1 then 0 else k - 1);
    } else {
      FirstBlockPrefix(largest, delay, 0, DeltaLen(t), r, k);
    }
  }

  /** An accepted frame that is cut off anywhere is not accepted: the parser asks for more. */
  lemma PrefixIsEof(r: seq<byte>, k: nat)
    requires Parse(r).Ok? && k <= |r|
    ensures |Parse(r).rest| <= |r|
    ensures k < |r| - |Parse(r).rest| ==> Parse(r[..k]) == Err(UnexpectedEof)
  {
    hide ParseCounts;
    TakePrefix(r, 1, k);
    var t, r1, k1 := Take(r, 1).value, r[1..], if k < 1 then 0 else k - 1;
    var n := LargestAckedLen(t);
    TakePrefix(r1, n, k1);
    var largest, r2, k2 := Take(r1, n).value, r1[n..], if k1 < n then 0 else k1 - n;
    TakePrefix(r2, 2, k2);
    CountsPrefix(largest, Ufloat16.Decode(Take(r2, 2).value), t, r2[2..], if k2 < 2 then 0 else k2 - 2);
  }
}
