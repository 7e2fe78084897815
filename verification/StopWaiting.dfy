/** STOP_WAITING frames on the wire (frames/stop_waiting_frame.go). */
module StopWaitingFrames {
  import opened Frames
  import opened ByteCodec
  import opened PacketNumbers

  datatype WriteResult = Written(bytes: seq<byte>) | PacketNumberNotSet | LeastUnackedTooHigh | PacketNumberLenNotSet

  datatype ParseResult = Ok(leastUnacked: nat, rest: seq<byte>) | UnexpectedEof | InvalidLeastUnackedDelta

  /** The least unacked packet is sent as its distance from the packet that carries the frame. */
  function Write(leastUnacked: nat, packetNumber: nat, len: nat): WriteResult {
    if packetNumber == 0 then PacketNumberNotSet
    else if leastUnacked > packetNumber then LeastUnackedTooHigh
    else if !IsLength(len) then PacketNumberLenNotSet
    else Written(LittleEndian(1, 6) + LittleEndian(len, packetNumber - leastUnacked))
  }

  function MinLength(len: nat): nat {
    1 + len
  }

  function Parse(r: seq<byte>, packetNumber: nat, len: nat): ParseResult {
    match Take(r, 1)
    case Eof => UnexpectedEof
    case Taken(_, r1) =>
      match Take(r1, len)
      case Eof => UnexpectedEof
      case Taken(delta, r2) => if delta > packetNumber then InvalidLeastUnackedDelta else Ok(packetNumber - delta, r2)
  }

  /** The frame reads back exactly when the distance fits the packet number's length. */
  lemma RoundTripIff(leastUnacked: nat, packetNumber: nat, len: nat, rest: seq<byte>)
    requires Write(leastUnacked, packetNumber, len).Written?
    ensures |Write(leastUnacked, packetNumber, len).bytes| == MinLength(len)
    ensures Parse(Write(leastUnacked, packetNumber, len).bytes + rest, packetNumber, len) == Ok(leastUnacked, rest) <==>
            packetNumber - leastUnacked < Capacity(len)
  {
    var delta := packetNumber - leastUnacked;
    var r1 := LittleEndian(len, delta) + rest;
    assert Write(leastUnacked, packetNumber, len).bytes + rest == LittleEndian(1, 6) + r1;
    assert Capacity(1) == 256 * Capacity(0);
    TakeWritten(1, 6, r1);
    ValueOfLittleEndian(len, delta);
    assert r1[..len] == LittleEndian(len, delta) && r1[len..] == rest;
  }
}
