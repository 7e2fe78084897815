/** Values shared by the transport modules: bytes, stream frames and the protocol's constants. */
module Frames {

  type byte = x: int | 0 <= x < 256

  datatype Option<+T> = None | Some(value: T)

  /** The largest value of a 64-bit byte count. */
  const MAX_BYTE_COUNT: nat := 0xFFFF_FFFF_FFFF_FFFF

  /** A STREAM frame. `dataLenPresent` only decides how the frame is laid out on the wire. */
  datatype StreamFrame = StreamFrame(streamID: nat, fin: bool, dataLenPresent: bool, offset: nat, data: seq<byte>) {

    /** The offset one past the frame's last byte. */
    function End(): nat {
      offset + |data|
    }

    predicate Covers(o: int) {
      offset <= o < End()
    }

    function Offsets(): (s: set<int>)
      ensures forall o :: o in s <==> Covers(o)
    {
      set o | offset <= o < End() && Covers(o)
    }
  }
}
