/** STREAM frames on the wire (frames/stream_frame.go). */
module StreamFrameCodec {
  import opened Frames
  import opened ByteCodec

  const MAX_PACKET_SIZE := 1350

  datatype ParseResult = Ok(frame: StreamFrame,
                            rest: seq<byte>) | UnexpectedEof | DataLenTooLarge | DataMissing | EmptyFrameNoFin

  function StreamIDLength(id: nat): (n: nat)
    ensures 1 <= n <= 4
  {
    if id < 0x100 then 1 else if id < 0x1_0000 then 2 else if id < 0x100_0000 then 3 else 4
  }

  function OffsetLength(offset: nat): (n: nat)
    ensures n == 0 || 2 <= n <= 8
  {
    if offset == 0 then 0
    else if offset < 0x1_0000 then 2
    else if offset < 0x100_0000 then 3
    else if offset < 0x1_0000_0000 then 4
    else if offset < 0x100_0000_0000 then 5
    else if offset < 0x1_0000_0000_0000 then 6
    else if offset < 0x100_0000_0000_0000 then 7
    else 8
  }

  /** The length of the header: everything but the data. */
  function MinLength(f: StreamFrame): nat {
    1 + StreamIDLength(f.streamID) + OffsetLength(f.offset) + (if f.dataLenPresent then 2 else 0)
  }

  /** Offset lengths 0 and 2 to 8 are coded as 0 to 7. */
  function OffsetCode(n: nat): (c: nat)
    requires n == 0 || 2 <= n <= 8
    ensures c <= 7 && n == if c == 0 then 0 else c + 1
  {
    if n == 0 then 0 else n - 1
  }

  lemma PackType(fin: nat, dataLen: nat, offset: nat, id: nat)
    requires fin < 2 && dataLen < 2 && offset < 8 && id < 4
    ensures var t := 128 + 64 * fin + 32 * dataLen + 4 * offset + id;
            t < 256 && t / 64 % 2 == fin && t / 32 % 2 == dataLen && t / 4 % 8 == offset && t % 4 == id
  {
    var t := 128 + 64 * fin + 32 * dataLen + 4 * offset + id;
    assert t / 4 == 32 + 16 * fin + 8 * dataLen + offset;
    assert t / 32 == 4 + 2 * fin + dataLen;
    assert t / 64 == 2 + fin;
  }

  function Bit(b: bool): nat {
    if b then 1 else 0
  }

  function TypeByte(f: StreamFrame): nat {
    128 + 64 * Bit(f.fin) + 32 * Bit(f.dataLenPresent) + 4 * OffsetCode(OffsetLength(f.offset)) +
      (StreamIDLength(f.streamID) - 1)
  }

  function LengthAndData(f: StreamFrame): seq<byte> {
    (if f.dataLenPresent then LittleEndian(2, |f.data|) else []) + f.data
  }

  /** What Write appends to the buffer. */
  function Bytes(f: StreamFrame): seq<byte> {
    LittleEndian(1, TypeByte(f)) +
    (LittleEndian(StreamIDLength(f.streamID), f.streamID) +
     (LittleEndian(OffsetLength(f.offset), f.offset) + LengthAndData(f)))
  }

  lemma BytesLength(f: StreamFrame)
    ensures |Bytes(f)| == MinLength(f) + |f.data|
  {
  }

  datatype WriteResult = Written(bytes: seq<byte>) | EmptyFrameWithoutFin

  method Write(f: StreamFrame) returns (r: WriteResult)
    ensures r == if f.data == [] && !f.fin then EmptyFrameWithoutFin else Written(Bytes(f))
    ensures r.Written? ==> |r.bytes| == MinLength(f) + |f.data|
  {
    if |f.data| == 0 && !f.fin {
      return EmptyFrameWithoutFin;
    }
    var b := LittleEndian(1, TypeByte(f));
    var streamIDLen := StreamIDLength(f.streamID);
    var offsetLength := OffsetLength(f.offset);
    b := b + LittleEndian(streamIDLen, f.streamID);
    b := b + LittleEndian(offsetLength, f.offset);
    if f.dataLenPresent {
      b := b + LittleEndian(2, |f.data|);
    }
    b := b + f.data;
    assert b == Bytes(f);
    BytesLength(f);
    return Written(b);
  }

  // ---------------------------------------------------------------------------------------------
  // Parsing
  // ---------------------------------------------------------------------------------------------

  /** The data: a length of 0, given or not, means the rest of the packet. */
  function ParseData(id: nat, fin: bool, dataLenPresent: bool, offset: nat, dataLen: nat, r: seq<byte>): ParseResult {
    if dataLen > MAX_PACKET_SIZE then DataLenTooLarge
    else
      var n := if dataLen == 0 then |r| % 0x1_0000 else dataLen;
      if n > |r| then DataMissing
      else if !fin && n == 0 then EmptyFrameNoFin
      else Ok(StreamFrame(id, fin, dataLenPresent, offset, r[..n]), r[n..])
  }

  function ParseLength(id: nat, fin: bool, dataLenPresent: bool, offset: nat, r: seq<byte>): ParseResult {
    if !dataLenPresent then ParseData(id, fin, false, offset, 0, r)
    else
      match Take(r, 2)
      case Eof => UnexpectedEof
      case Taken(dataLen, r1) => ParseData(id, fin, true, offset, dataLen, r1)
  }

  function Parse(r: seq<byte>): ParseResult {
    match Take(r, 1)
    case Eof => UnexpectedEof
    case Taken(t, r1) =>
      match Take(r1, IDLen(t))
      case Eof => UnexpectedEof
      case Taken(id, r2) =>
        match Take(r2, OffsetLen(t))
        case Eof => UnexpectedEof
        case Taken(offset, r3) => ParseLength(id, t / 64 % 2 == 1, t / 32 % 2 == 1, offset, r3)
  }

  lemma FieldsFit(f: StreamFrame)
    requires f.streamID < 0x1_0000_0000 && f.offset < 0x1_0000_0000_0000_0000
    ensures f.streamID < Capacity(StreamIDLength(f.streamID)) && f.offset < Capacity(OffsetLength(f.offset))
  {
    CapacityValues();
    assert Capacity(3) == 256 * Capacity(2) && Capacity(5) == 256 * Capacity(4);
    assert Capacity(7) == 256 * Capacity(6) && Capacity(8) == 256 * Capacity(7);
    assert Capacity(0) == 1;
  }

  /** The fields are the shortest ones: no stream ID or offset fits a shorter field that can be coded. */
  lemma ShortestFields(f: StreamFrame, n: nat)
    requires f.offset < 0x1_0000_0000_0000_0000
    ensures 1 <= n < StreamIDLength(f.streamID) ==> Capacity(n) <= f.streamID
    ensures n < OffsetLength(f.offset) && n != 1 ==> Capacity(n) <= f.offset
  {
    CapacityValues();
    assert Capacity(0) == 1 && Capacity(3) == 256 * Capacity(2) && Capacity(5) == 256 * Capacity(4);
    assert Capacity(7) == 256 * Capacity(6);
    assert n <= 7 ==> n == 0 || n == 1 || n == 2 || n == 3 || n == 4 || n == 5 || n == 6 || n == 7;
  }

  lemma ParseHeader(f: StreamFrame, r: seq<byte>)
    requires f.streamID < 0x1_0000_0000 && f.offset < 0x1_0000_0000_0000_0000
    ensures Parse(LittleEndian(1, TypeByte(f)) +
                  (LittleEndian(StreamIDLength(f.streamID), f.streamID) +
                   (LittleEndian(OffsetLength(f.offset), f.offset) + r))) ==
            ParseLength(f.streamID, f.fin, f.dataLenPresent, f.offset, r)
  {
    FieldsFit(f);
    TypeByteFields(f);
    ParseFields(TypeByte(f), f.streamID, f.offset, r);
  }

  function IDLen(t: nat): nat {
    t % 4 + 1
  }

  function OffsetLen(t: nat): nat {
    if t / 4 % 8 == 0 then 0 else t / 4 % 8 + 1
  }

  lemma TypeByteFields(f: StreamFrame)
    ensures var t := TypeByte(f);
            && t < 256 && (t / 64 % 2 == 1 <==> f.fin) && (t / 32 % 2 == 1 <==> f.dataLenPresent)
            && IDLen(t) == StreamIDLength(f.streamID) && OffsetLen(t) == OffsetLength(f.offset)
  {
    PackType(Bit(f.fin), Bit(f.dataLenPresent), OffsetCode(OffsetLength(f.offset)), StreamIDLength(f.streamID) - 1);
  }

  lemma ParseFields(t: nat, id: nat, offset: nat, r: seq<byte>)
    requires t < 256 && id < Capacity(IDLen(t)) && offset < Capacity(OffsetLen(t))
    ensures Parse(LittleEndian(1, t) + (LittleEndian(IDLen(t), id) + (LittleEndian(OffsetLen(t), offset) + r))) ==
            ParseLength(id, t / 64 % 2 == 1, t / 32 % 2 == 1, offset, r)
  {
    CapacityValues();
    var r2 := LittleEndian(OffsetLen(t), offset) + r;
    TakeWritten(1, t, LittleEndian(IDLen(t), id) + r2);
    TakeWritten(IDLen(t), id, r2);
    TakeWritten(OffsetLen(t), offset, r);
  }

  lemma Layout(f: StreamFrame, rest: seq<byte>)
    ensures Bytes(f) + rest == LittleEndian(1, TypeByte(f)) +
              (LittleEndian(StreamIDLength(f.streamID), f.streamID) +
               (LittleEndian(OffsetLength(f.offset), f.offset) + (LengthAndData(f) + rest)))
  {
  }

  /** A written frame reads back exactly if nothing follows it, or if it states the length of its data and has some.
      An empty frame with a FIN that is followed by another frame swallows it. */
  lemma RoundTripIff(f: StreamFrame, rest: seq<byte>)
    requires f.streamID < 0x1_0000_0000 && f.offset < 0x1_0000_0000_0000_0000
    requires |f.data| <= MAX_PACKET_SIZE && |f.data| + |rest| < 0x1_0000 && (f.data != [] || f.fin)
    ensures Parse(Bytes(f) + rest) == Ok(f, rest) <==> rest == [] || (f.dataLenPresent && f.data != [])
  {
    Layout(f, rest);
    ParseHeader(f, LengthAndData(f) + rest);
    DataRoundTrip(f, rest);
  }

  lemma DataRoundTrip(f: StreamFrame, rest: seq<byte>)
    requires |f.data| <= MAX_PACKET_SIZE && |f.data| + |rest| < 0x1_0000 && (f.data != [] || f.fin)
    ensures ParseLength(f.streamID, f.fin, f.dataLenPresent, f.offset, LengthAndData(f) + rest) == Ok(f, rest) <==>
            rest == [] || (f.dataLenPresent && f.data != [])
  {
    var r := f.data + rest;
    if f.dataLenPresent {
      CapacityValues();
      TakeWritten(2, |f.data|, r);
      assert LengthAndData(f) + rest == LittleEndian(2, |f.data|) + r;
    } else {
      assert LengthAndData(f) + rest == r;
    }
    assert r[..|f.data|] == f.data && r[|f.data|..] == rest;
    assert r[..|r|] == r;
  }

  /** An empty frame with a FIN takes all that follows as its data. */
  lemma Swallows(f: StreamFrame, rest: seq<byte>)
    requires f.streamID < 0x1_0000_0000 && f.offset < 0x1_0000_0000_0000_0000
    requires f.data == [] && f.fin && |rest| < 0x1_0000
    ensures Parse(Bytes(f) + rest) == Ok(f.(data := rest), [])
  {
    hide Parse, ParseLength, LengthAndData, LittleEndian;
    Layout(f, rest);
    ParseHeader(f, LengthAndData(f) + rest);
    SwallowsData(f, rest);
  }

  lemma SwallowsData(f: StreamFrame, rest: seq<byte>)
    requires f.data == [] && f.fin && |rest| < 0x1_0000
    ensures ParseLength(f.streamID, f.fin, f.dataLenPresent, f.offset, LengthAndData(f) + rest) ==
            Ok(f.(data := rest), [])
  {
    if f.dataLenPresent {
      CapacityValues();
      TakeWritten(2, 0, rest);
      assert LengthAndData(f) + rest == LittleEndian(2, 0) + rest;
    } else {
      assert LengthAndData(f) + rest == rest;
    }
    assert rest[..|rest|] == rest && rest[|rest|..] == [];
  }

  /** A frame that states more data than fits into a packet is refused, whatever follows. */
  lemma LongDataRefused(f: StreamFrame, rest: seq<byte>)
    requires f.streamID < 0x1_0000_0000 && f.offset < 0x1_0000_0000_0000_0000
    requires f.dataLenPresent && 1350 < |f.data| < 0x1_0000
    ensures Parse(Bytes(f) + rest) == DataLenTooLarge
  {
    hide Parse, LittleEndian;
    Layout(f, rest);
    ParseHeader(f, LengthAndData(f) + rest);
    CapacityValues();
    TakeWritten(2, |f.data|, f.data + rest);
    assert LengthAndData(f) + rest == LittleEndian(2, |f.data|) + (f.data + rest);
  }

  lemma CutData(f: StreamFrame, k: nat)
    requires f.dataLenPresent && 0 < |f.data| <= MAX_PACKET_SIZE && k < |LengthAndData(f)|
    ensures var p := ParseLength(f.streamID, f.fin, true, f.offset, LengthAndData(f)[..k]);
            p == UnexpectedEof || p == DataMissing
  {
    hide LittleEndian, Value;
    CapacityValues();
    TakeWritten(2, |f.data|, f.data);
    TakePrefix(LengthAndData(f), 2, k);
  }

  /** A frame that states the length of its data is refused when it is cut off anywhere. */
  lemma CutIsRefused(f: StreamFrame, k: nat)
    requires f.streamID < 0x1_0000_0000 && f.offset < 0x1_0000_0000_0000_0000
    requires f.dataLenPresent && 0 < |f.data| <= MAX_PACKET_SIZE && k < |Bytes(f)|
    ensures Parse(Bytes(f)[..k]) == UnexpectedEof || Parse(Bytes(f)[..k]) == DataMissing
  {
    hide LittleEndian, Value, ParseLength, TypeByte, LengthAndData;
    CapacityValues();
    FieldsFit(f);
    TypeByteFields(f);
    var n, m := StreamIDLength(f.streamID), OffsetLength(f.offset);
    var r3 := LengthAndData(f);
    var r2 := LittleEndian(m, f.offset) + r3;
    var r1 := LittleEndian(n, f.streamID) + r2;
    TakeWritten(1, TypeByte(f), r1);
    TakePrefix(Bytes(f), 1, k);
    if 1 <= k {
      TakeWritten(n, f.streamID, r2);
      TakePrefix(r1, n, k - 1);
      if n <= k - 1 {
        TakeWritten(m, f.offset, r3);
        TakePrefix(r2, m, k - 1 - n);
        if m <= k - 1 - n {
          CutData(f, k - 1 - n - m);
        }
      }
    }
  }

  /** The bytes of stream frames, one behind the other. */
  function StreamBytes(fs: seq<StreamFrame>): seq<byte> {
    if fs == [] then [] else Bytes(fs[0]) + StreamBytes(fs[1..])
  }

  /** The stream frames at the end of a packet as they are read: an empty one takes all that follows as its data. */
  function Swallow(fs: seq<StreamFrame>): seq<StreamFrame> {
    if |fs| <= 1 then fs
    else if fs[0].data == [] then [fs[0].(data := StreamBytes(fs[1..]))]
    else [fs[0]] + Swallow(fs[1..])
  }
}
