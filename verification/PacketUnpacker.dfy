/** Reading the frames of a packet (packet_unpacker.go), and what becomes of the packets the packer writes. */
module PacketUnpackers {
  import opened Frames
  import opened ByteCodec
  import opened AckFrames
  import opened SentPackets
  import opened PacketPackers
  import opened Ledger
  import opened StreamFramers
  import opened SenderData
  import AckFrameParser
  import AckFrameWriter
  import StreamFrameCodec
  import StopWaitingFrames
  import PacketNumbers

  datatype Parsed = Parsed(frame: Frame, rest: seq<byte>) | Unreadable

  /** The lengths of RST_STREAM, WINDOW_UPDATE, BLOCKED and PING frames by their type byte. */
  function ControlLength(t: byte): nat {
    if t == 1 then 17 else if t == 4 then 13 else if t == 5 then 5 else if t == 7 then 1 else 0
  }

  /** The frame at the front of `r`. Frames that end the session (CONNECTION_CLOSE, GOAWAY) are not read here. */
  function ParseFrame(r: seq<byte>, packetNumber: nat, len: nat): Parsed
    requires r != []
  {
    var t := r[0];
    if t >= 0x80 then
      match StreamFrameCodec.Parse(r)
      case Ok(f, rest) => Parsed(Stream(f), rest)
      case _ => Unreadable
    else if t >= 0x40 then
      match AckFrameParser.Parse(r)
      case Ok(f, rest) => Parsed(Frame.Ack(f), rest)
      case _ => Unreadable
    else if t == 6 then
      match StopWaitingFrames.Parse(r, packetNumber, len)
      case Ok(leastUnacked, rest) => Parsed(StopWaiting(leastUnacked), rest)
      case _ => Unreadable
    else
      var n := ControlLength(t);
      if n == 0 || |r| < n then Unreadable else Parsed(Control(r[..n]), r[n..])
  }

  /** Reading payload `r` gives exactly the frames `fs`; a PAD byte ends it. */
  predicate Unpacks(r: seq<byte>, packetNumber: nat, len: nat, fs: seq<Frame>)
    decreases |fs|
  {
    if r == [] || r[0] == 0 then fs == []
    else
      var p := ParseFrame(r, packetNumber, len);
      p.Parsed? && fs != [] && fs[0] == p.frame && Unpacks(p.rest, packetNumber, len, fs[1..])
  }

  // ---------------------------------------------------------------------------------------------
  // What the packer writes
  // ---------------------------------------------------------------------------------------------

  /** Frames whose fields have the sizes the protocol gives them. */
  predicate Sized(f: Frame, packetNumber: nat, len: nat) {
    match f
    case Stream(s) =>
      && s.streamID < 0x1_0000_0000 && s.offset < 0x1_0000_0000_0000_0000 &&
        |s.data| <= StreamFrameCodec.MAX_PACKET_SIZE
      && (s.data != [] || s.fin)
    case Ack(a) => AckFrameWriter.Writable(a) && Built(a) && (!a.HasMissingRanges() ==> 1 <= a.lowestAcked)
    case StopWaiting(leastUnacked) =>
      leastUnacked <= packetNumber && 0 < packetNumber && PacketNumbers.IsLength(len) &&
        packetNumber - leastUnacked < Capacity(len)
    case Control(bytes) => bytes != [] && bytes[0] < 0x40 && bytes[0] != 6 && ControlLength(bytes[0]) == |bytes|
  }

  /** What the peer sees of a frame: ACK frames may be cut short and their delay is rounded. */
  function Seen(f: Frame, delay: nat): Frame
    requires f.Ack? ==> f.ack.WellFormed()
  {
    if f.Ack? then Frame.Ack(AckFrameWriter.Received(f.ack, delay)) else f
  }

  /** A frame that another one may follow: its end can be found. */
  predicate Delimited(f: Frame) {
    f.Stream? ==> f.stream.dataLenPresent && f.stream.data != []
  }

  lemma WrittenByte(t: byte, rest: seq<byte>)
    ensures (LittleEndian(1, t) + rest)[0] == t
  {
    assert LittleEndian(1, t)[0] == t % 256;
  }

  lemma StreamBytesFirst(s: StreamFrame, rest: seq<byte>)
    ensures var r := StreamFrameCodec.Bytes(s) + rest; r != [] && r[0] >= 0x80
  {
    StreamFrameCodec.TypeByteFields(s);
    WrittenByte(StreamFrameCodec.TypeByte(s), []);
  }

  lemma AckBytesFirst(a: AckFrame, delay: nat, rest: seq<byte>)
    ensures var r := AckFrameWriter.Bytes(a, delay) + rest; r != [] && 0x40 <= r[0] < 0x80
  {
    hide AckFrameWriter.Tail;
    var t := AckFrameWriter.TypeByte(PacketNumbers.GetPacketNumberLength(a.largestAcked), AckFrameWriter.DeltaLenOf(a),
                                     a.HasMissingRanges());
    WrittenByte(t, []);
  }

  /** A written frame reads back as what the peer should see, if its end can be found or nothing follows. */
  lemma FrameRoundTrip(f: Frame, packetNumber: nat, len: nat, delay: nat, bytes: seq<byte>, rest: seq<byte>)
    requires Sized(f, packetNumber, len) && FrameBytes(f, packetNumber, len, delay) == Some(bytes)
    requires rest == [] || Delimited(f)
    requires |bytes| + |rest| < 0x1_0000
    ensures bytes + rest != [] && (bytes + rest)[0] != 0
    ensures ParseFrame(bytes + rest, packetNumber, len) == Parsed(Seen(f, delay), rest)
  {
    match f
    case Stream(s) => StreamRoundTrip(s, rest, packetNumber, len);
    case Ack(a) => AckRoundTrip(a, delay, rest, packetNumber, len);
    case StopWaiting(leastUnacked) => StopWaitingRoundTrip(leastUnacked, rest, packetNumber, len);
    case Control(bs) => ControlRoundTrip(bs, rest, packetNumber, len);
  }

  lemma StreamRoundTrip(s: StreamFrame, rest: seq<byte>, packetNumber: nat, len: nat)
    requires Sized(Stream(s), packetNumber, len) && (rest == [] || Delimited(Stream(s)))
    requires |StreamFrameCodec.Bytes(s)| + |rest| < 0x1_0000
    ensures var r := StreamFrameCodec.Bytes(s) + rest;
            r != [] && r[0] != 0 && ParseFrame(r, packetNumber, len) == Parsed(Stream(s), rest)
  {
    hide StreamFrameCodec.Bytes, StreamFrameCodec.Parse;
    StreamFrameCodec.BytesLength(s);
    StreamBytesFirst(s, rest);
    StreamFrameCodec.RoundTripIff(s, rest);
  }

  lemma AckRoundTrip(a: AckFrame, delay: nat, rest: seq<byte>, packetNumber: nat, len: nat)
    requires Sized(Frame.Ack(a), packetNumber, len)
    ensures var r := AckFrameWriter.Bytes(a, delay) + rest;
            r != [] && r[0] != 0 && ParseFrame(r, packetNumber, len) ==
              Parsed(Frame.Ack(AckFrameWriter.Received(a, delay)), rest)
  {
    hide AckFrameWriter.Bytes, AckFrameParser.Parse, AckFrameWriter.Received;
    AckBytesFirst(a, delay, rest);
    AckFrameWriter.RoundTrip(a, delay, rest);
  }

  lemma StopWaitingRoundTrip(leastUnacked: nat, rest: seq<byte>, packetNumber: nat, len: nat)
    requires Sized(StopWaiting(leastUnacked), packetNumber, len)
    ensures var w := StopWaitingFrames.Write(leastUnacked, packetNumber, len);
            && w.Written?
            && var r := w.bytes + rest;
               r != [] && r[0] != 0 && ParseFrame(r, packetNumber, len) == Parsed(StopWaiting(leastUnacked), rest)
  {
    StopWaitingFrames.RoundTripIff(leastUnacked, packetNumber, len, rest);
    WrittenByte(6, []);
  }

  lemma ControlRoundTrip(bs: seq<byte>, rest: seq<byte>, packetNumber: nat, len: nat)
    requires Sized(Control(bs), packetNumber, len)
    ensures var r := bs + rest; r != [] && r[0] != 0 && ParseFrame(r, packetNumber, len) == Parsed(Control(bs), rest)
  {
    var r := bs + rest;
    assert r[0] == bs[0] && r[..|bs|] == bs && r[|bs|..] == rest;
  }

  /** An empty frame with a FIN that is followed by another frame does not read back. */
  lemma FinSwallows(s: StreamFrame, rest: seq<byte>, packetNumber: nat, len: nat)
    requires Sized(Stream(s), packetNumber, len) && s.data == [] && rest != []
    requires |StreamFrameCodec.Bytes(s)| + |rest| < 0x1_0000
    ensures var r := StreamFrameCodec.Bytes(s) + rest;
            r != [] && r[0] != 0 && ParseFrame(r, packetNumber, len) == Parsed(Stream(s.(data := rest)), [])
  {
    hide StreamFrameCodec.Bytes, StreamFrameCodec.Parse;
    StreamFrameCodec.BytesLength(s);
    StreamBytesFirst(s, rest);
    StreamFrameCodec.Swallows(s, rest);
  }

  // ---------------------------------------------------------------------------------------------
  // Whole packets
  // ---------------------------------------------------------------------------------------------

  predicate AllSized(fs: seq<Frame>, packetNumber: nat, len: nat) {
    forall i :: 0 <= i < |fs| ==> Sized(fs[i], packetNumber, len)
  }

  function AllSeen(fs: seq<Frame>, delay: nat): seq<Frame>
    requires forall i :: 0 <= i < |fs| ==> fs[i].Ack? ==> fs[i].ack.WellFormed()
  {
    seq(|fs|, i requires 0 <= i < |fs| => Seen(fs[i], delay))
  }

  /** Every stream frame but the last frame of the packet states the length of its data. */
  predicate LengthsStated(fs: seq<Frame>) {
    forall i :: 0 <= i < |fs| - 1 ==> fs[i].Stream? ==> fs[i].stream.dataLenPresent
  }

  /** No stream frame but the last frame of the packet is empty. */
  predicate NoEmptyInside(fs: seq<Frame>) {
    forall i :: 0 <= i < |fs| - 1 ==> fs[i].Stream? ==> fs[i].stream.data != []
  }

  lemma {:induction false} PayloadFirst(fs: seq<Frame>, packetNumber: nat, len: nat, delay: nat)
    requires fs != [] && Payload(fs, packetNumber, len, delay).Some?
    ensures FrameBytes(fs[0], packetNumber, len, delay).Some? && Payload(fs[1..], packetNumber, len, delay).Some?
    ensures Payload(fs, packetNumber, len, delay).value ==
            FrameBytes(fs[0], packetNumber, len, delay).value + Payload(fs[1..], packetNumber, len, delay).value
  {
    hide FrameBytes;
    if |fs| == 1 {
      assert fs[..0] == [] && fs[1..] == [];
    } else {
      PayloadFirst(fs[..|fs| - 1], packetNumber, len, delay);
      assert fs[1..][..|fs| - 2] == fs[..|fs| - 1][1..];
    }
  }

  lemma BytesNotEmpty(f: Frame, packetNumber: nat, len: nat, delay: nat)
    requires Sized(f, packetNumber, len) && FrameBytes(f, packetNumber, len, delay).Some?
    ensures FrameBytes(f, packetNumber, len, delay).value != []
  {
    hide AckFrameWriter.Tail;
  }

  /** A packet reads back as the frames the peer should see exactly when no stream frame in front of another frame
      is empty. */
  lemma {:induction false} PacketRoundTripIff(fs: seq<Frame>, packetNumber: nat, len: nat, delay: nat)
    requires AllSized(fs, packetNumber, len) && LengthsStated(fs)
    requires Payload(fs, packetNumber, len, delay).Some? && |Payload(fs, packetNumber, len, delay).value| < 0x1_0000
    ensures Unpacks(Payload(fs, packetNumber, len, delay).value, packetNumber, len, AllSeen(fs, delay)) <==>
            NoEmptyInside(fs)
  {
    if fs != [] {
      var f, rest := fs[0], fs[1..];
      PayloadFirst(fs, packetNumber, len, delay);
      PacketRoundTripIff(rest, packetNumber, len, delay);
      var bytes, r := FrameBytes(f, packetNumber, len, delay).value, Payload(rest, packetNumber, len, delay).value;
      assert Sized(f, packetNumber, len);
      RestIsEmpty(rest, packetNumber, len, delay);
      FirstOfPacket(f, rest, bytes, r, packetNumber, len, delay);
      assert fs == [f] + rest;
    }
  }

  lemma RestIsEmpty(fs: seq<Frame>, packetNumber: nat, len: nat, delay: nat)
    requires AllSized(fs, packetNumber, len) && Payload(fs, packetNumber, len, delay).Some?
    ensures Payload(fs, packetNumber, len, delay).value == [] <==> fs == []
  {
    if fs != [] {
      PayloadFirst(fs, packetNumber, len, delay);
      BytesNotEmpty(fs[0], packetNumber, len, delay);
    }
  }

  lemma FirstOfPacket(f: Frame, rest: seq<Frame>, bytes: seq<byte>, r: seq<byte>, packetNumber: nat, len: nat,
                      delay: nat)
    requires AllSized([f] + rest, packetNumber, len) && LengthsStated([f] + rest)
    requires AllSized(rest, packetNumber, len) && (r == [] <==> rest == []) && |bytes| + |r| < 0x1_0000
    requires FrameBytes(f, packetNumber, len, delay) == Some(bytes) && Sized(f, packetNumber, len)
    requires Unpacks(r, packetNumber, len, AllSeen(rest, delay)) <==> NoEmptyInside(rest)
    ensures Unpacks(bytes + r, packetNumber, len, AllSeen([f] + rest, delay)) <==> NoEmptyInside([f] + rest)
  {
    hide ParseFrame, FrameBytes, Sized, NoEmptyInside;
    var fs := [f] + rest;
    assert fs[0] == f;
    NoEmptyCons(f, rest);
    AllWellFormed(fs, packetNumber, len);
    AllWellFormed(rest, packetNumber, len);
    var seen := AllSeen(fs, delay);
    AllSeenCons(f, rest, delay);
    if rest == [] || Delimited(f) {
      FrameRoundTrip(f, packetNumber, len, delay, bytes, r);
    } else {
      SwallowedFirst(f, bytes, r, packetNumber, len, delay);
    }
  }

  lemma NoEmptyCons(f: Frame, rest: seq<Frame>)
    ensures NoEmptyInside([f] + rest) <==> (rest == [] || (f.Stream? ==> f.stream.data != [])) && NoEmptyInside(rest)
  {
    var fs := [f] + rest;
    assert fs[0] == f && forall i :: 0 <= i < |rest| ==> fs[i + 1] == rest[i];
  }

  lemma AllWellFormed(fs: seq<Frame>, packetNumber: nat, len: nat)
    requires AllSized(fs, packetNumber, len)
    ensures forall i :: 0 <= i < |fs| ==> fs[i].Ack? ==> fs[i].ack.WellFormed()
  {
    forall i | 0 <= i < |fs|
      ensures fs[i].Ack? ==> fs[i].ack.WellFormed()
    {
      assert Sized(fs[i], packetNumber, len);
    }
  }

  lemma AllSeenCons(f: Frame, rest: seq<Frame>, delay: nat)
    requires forall i :: 0 <= i < |[f] + rest| ==> ([f] + rest)[i].Ack? ==> ([f] + rest)[i].ack.WellFormed()
    requires forall i :: 0 <= i < |rest| ==> rest[i].Ack? ==> rest[i].ack.WellFormed()
    requires f.Ack? ==> f.ack.WellFormed()
    ensures AllSeen([f] + rest, delay) == [Seen(f, delay)] + AllSeen(rest, delay)
  {
  }

  lemma SwallowedFirst(f: Frame, bytes: seq<byte>, r: seq<byte>, packetNumber: nat, len: nat, delay: nat)
    requires Sized(f, packetNumber, len) && FrameBytes(f, packetNumber, len, delay) == Some(bytes) && r != [] &&
             |bytes| + |r| < 0x1_0000
    requires f.Stream? && f.stream.data == []
    ensures bytes + r != [] && (bytes + r)[0] != 0
    ensures ParseFrame(bytes + r, packetNumber, len) != Unreadable &&
            ParseFrame(bytes + r, packetNumber, len).frame != f
  {
    FinSwallows(f.stream, r, packetNumber, len);
  }

  // ---------------------------------------------------------------------------------------------
  // What the peer reads of any packet
  // ---------------------------------------------------------------------------------------------

  predicate StreamsSized(fs: seq<StreamFrame>, packetNumber: nat, len: nat) {
    && (forall i :: 0 <= i < |fs| ==> Sized(Stream(fs[i]), packetNumber, len))
    && (forall i :: 0 <= i < |fs| - 1 ==> fs[i].dataLenPresent)
  }

  lemma {:induction false} AsFramesCons(f: StreamFrame, fs: seq<StreamFrame>)
    ensures AsFrames([f] + fs) == [Stream(f)] + AsFrames(fs)
  {
    var all := [f] + fs;
    if fs == [] {
      assert all[..0] == [];
    } else {
      AsFramesCons(f, fs[..|fs| - 1]);
      assert all[..|all| - 1] == [f] + fs[..|fs| - 1];
    }
  }

  /** Stream frames are read as the empty ones among them make the parser read them. */
  lemma {:induction false} StreamsUnpack(fs: seq<StreamFrame>, packetNumber: nat, len: nat)
    requires StreamsSized(fs, packetNumber, len) && |StreamFrameCodec.StreamBytes(fs)| < 0x1_0000
    ensures Unpacks(StreamFrameCodec.StreamBytes(fs), packetNumber, len, AsFrames(StreamFrameCodec.Swallow(fs)))
  {
    hide ParseFrame, Sized, StreamFrameCodec.Bytes;
    if fs != [] {
      var f, rest := fs[0], fs[1..];
      assert Sized(Stream(f), packetNumber, len);
      assert forall i :: 0 <= i < |rest| ==> rest[i] == fs[i + 1];
      var r := StreamFrameCodec.StreamBytes(rest);
      AsFramesCons(f, []);
      assert [f] + [] == fs[..1];
      if rest == [] {
        StreamRoundTrip(f, r, packetNumber, len);
        assert fs == [f];
      } else if f.data == [] {
        StreamBytesFirst(rest[0], StreamFrameCodec.StreamBytes(rest[1..]));
        FinSwallows(f, r, packetNumber, len);
        AsFramesCons(f.(data := r), []);
        assert [f.(data := r)] + [] == [f.(data := r)];
      } else {
        StreamRoundTrip(f, r, packetNumber, len);
        StreamsUnpack(rest, packetNumber, len);
        AsFramesCons(f, StreamFrameCodec.Swallow(rest));
      }
    }
  }

  lemma {:induction false} StreamsPayload(fs: seq<StreamFrame>, packetNumber: nat, len: nat, delay: nat)
    requires StreamsSized(fs, packetNumber, len)
    ensures Payload(AsFrames(fs), packetNumber, len, delay) == Some(StreamFrameCodec.StreamBytes(fs))
  {
    hide StreamFrameCodec.Bytes;
    if fs != [] {
      var f, rest := fs[0], fs[1..];
      assert fs == [f] + rest && Sized(Stream(f), packetNumber, len);
      assert forall i :: 0 <= i < |rest| ==> rest[i] == fs[i + 1];
      StreamsPayload(rest, packetNumber, len, delay);
      AsFramesCons(f, rest);
      PayloadCons(Stream(f), AsFrames(rest), packetNumber, len, delay);
    }
  }

  lemma {:induction false} PayloadCons(f: Frame, fs: seq<Frame>, packetNumber: nat, len: nat, delay: nat)
    requires FrameBytes(f, packetNumber, len, delay).Some? && Payload(fs, packetNumber, len, delay).Some?
    ensures Payload([f] + fs, packetNumber, len, delay) ==
            Some(FrameBytes(f, packetNumber, len, delay).value + Payload(fs, packetNumber, len, delay).value)
  {
    hide FrameBytes;
    var all := [f] + fs;
    if fs == [] {
      var bytes := FrameBytes(f, packetNumber, len, delay).value;
      assert all[..0] == [] && [] + bytes == bytes + [];
    } else {
      var init := fs[..|fs| - 1];
      PayloadCons(f, init, packetNumber, len, delay);
      assert all[..|all| - 1] == [f] + init;
      var a, b, c := FrameBytes(f, packetNumber, len, delay).value, Payload(init, packetNumber, len, delay).value,
        FrameBytes(fs[|fs| - 1], packetNumber, len, delay).value;
      assert a + (b + c) == a + b + c;
    }
  }

  lemma UnpacksFirst(f: Frame, bytes: seq<byte>, r: seq<byte>, read: seq<Frame>, packetNumber: nat, len: nat,
                     delay: nat)
    requires Sized(f, packetNumber, len) && FrameBytes(f, packetNumber, len, delay) == Some(bytes) && Delimited(f)
    requires |bytes| + |r| < 0x1_0000 && Unpacks(r, packetNumber, len, read)
    ensures Unpacks(bytes + r, packetNumber, len, [Seen(f, delay)] + read)
  {
    hide ParseFrame, FrameBytes, Seen;
    FrameRoundTrip(f, packetNumber, len, delay, bytes, r);
    assert ([Seen(f, delay)] + read)[1..] == read;
  }

  /** Whatever the packer writes behind frames of other kinds, the peer reads those frames, and then the stream frames
      with everything behind an empty one swallowed by it. */
  lemma {:induction false} PacketReads(others: seq<Frame>, fs: seq<StreamFrame>, packetNumber: nat, len: nat,
                                       delay: nat)
    requires AllSized(others, packetNumber, len) && forall i :: 0 <= i < |others| ==> !others[i].Stream?
    requires StreamsSized(fs, packetNumber, len)
    requires Payload(others, packetNumber, len, delay).Some?
    requires |Payload(others, packetNumber, len, delay).value| + |StreamFrameCodec.StreamBytes(fs)| < 0x1_0000
    ensures var payload := Payload(others + AsFrames(fs), packetNumber, len, delay);
            && payload.Some?
            && |payload.value| == |Payload(others, packetNumber, len, delay).value| + |StreamFrameCodec.StreamBytes(fs)|
            && Unpacks(payload.value, packetNumber, len,
                       AllSeen(others, delay) + AsFrames(StreamFrameCodec.Swallow(fs)))
  {
    hide Unpacks, FrameBytes, Sized, Seen, StreamFrameCodec.Swallow, StreamFrameCodec.StreamBytes, AsFrames;
    AllWellFormed(others, packetNumber, len);
    var read := AsFrames(StreamFrameCodec.Swallow(fs));
    if others == [] {
      StreamsPayload(fs, packetNumber, len, delay);
      StreamsUnpack(fs, packetNumber, len);
      assert others + AsFrames(fs) == AsFrames(fs) && AllSeen(others, delay) + read == read;
    } else {
      var f, rest := others[0], others[1..];
      assert others == [f] + rest && Sized(f, packetNumber, len);
      AllWellFormed(rest, packetNumber, len);
      PayloadFirst(others, packetNumber, len, delay);
      PacketReads(rest, fs, packetNumber, len, delay);
      var bytes, r := FrameBytes(f, packetNumber, len, delay).value,
        Payload(rest + AsFrames(fs), packetNumber, len, delay).value;
      PayloadCons(f, rest + AsFrames(fs), packetNumber, len, delay);
      assert others + AsFrames(fs) == [f] + (rest + AsFrames(fs));
      UnpacksFirst(f, bytes, r, AllSeen(rest, delay) + read, packetNumber, len, delay);
      AllSeenCons(f, rest, delay);
      assert AllSeen(others, delay) + read == [Seen(f, delay)] + (AllSeen(rest, delay) + read);
    }
  }

  lemma VisitClosedStream(streams: Streams, maxBytes: nat)
    requires 5 in streams && streams[5] == SendStream([], 0, true, false, None) && maxBytes > 8
    requires TakenFromWritten(streams)
    ensures VisitStream(Filled(streams, [], 0, [], false), Visit(5, 1, false), maxBytes) ==
            Filled(Ledger.Take(streams, 5, 0, true), [StreamFrame(5, true, true, 0, [])], 4, [], false)
  {
    assert [] + [StreamFrame(5, true, true, 0, [])] == [StreamFrame(5, true, true, 0, [])];
  }

  lemma VisitWaitingStream(st: Filled, b: byte, maxBytes: nat)
    requires 7 in st.streams && st.streams[7] == SendStream([b], 0, false, false, None) && TakenFromWritten(st.streams)
    requires st.length == 4 && !st.stopped && maxBytes > 8
    ensures VisitStream(st, Visit(7, 1, false), maxBytes).frames == st.frames + [StreamFrame(7, false, true, 0, [b])]
  {
    assert [b][0..1] == [b];
  }

  /** The framer does put an empty frame in front of another one: one stream is closed and has nothing left to
      send, and the next one has a byte. */
  lemma EmptyInsideHappens(b: byte, streams: Streams, visits: seq<Visit>)
    requires streams == map[5 := SendStream([], 0, true, false, None), 7 := SendStream([b], 0, false, false, None)]
    requires visits == [Visit(5, 1, false), Visit(7, 1, false)]
    ensures Known(streams, visits) && TakenFromWritten(streams)
    ensures var fs := VisitAll(streams, visits, 100).frames;
            && fs == [StreamFrame(5, true, true, 0, []), StreamFrame(7, false, true, 0, [b])]
            && !NoEmptyInside(AsFrames(LastToTheEnd(fs)))
  {
    hide VisitStream;
    assert visits[..1] == [visits[0]] && visits[..1][..0] == [];
    assert Known(streams, visits[..1][..0]) && Known(streams, visits[..1]);
    VisitClosedStream(streams, 100);
    var st := VisitAll(streams, visits[..1], 100);
    assert VisitAll(streams, visits[..1][..0], 100) == Filled(streams, [], 0, [], false);
    VisitWaitingStream(st, b, 100);
    var fs := VisitAll(streams, visits, 100).frames;
    assert fs == st.frames + [StreamFrame(7, false, true, 0, [b])];
    var t := LastToTheEnd(fs);
    assert t[..1] == [fs[0]] && t[..1][..0] == [];
    assert AsFrames(t[..1]) == AsFrames(t[..1][..0]) + [Stream(fs[0])];
    assert AsFrames(t)[0] == Stream(fs[0]);
  }
}
