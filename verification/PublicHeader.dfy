/** Public headers of regular packets (public_header.go). */
module PublicHeaders {
  import opened Frames
  import opened ByteCodec
  import opened PacketNumbers

  datatype PublicHeader = PublicHeader(
    connectionID: nat, truncateConnectionID: bool, diversificationNonce: seq<byte>, packetNumber: nat,
      packetNumberLen: nat) {

    function GetLength(): nat {
      1 + (if truncateConnectionID then 0 else 8) + |diversificationNonce| + packetNumberLen
    }

    /** A nonce is left out or has 32 bytes. */
    predicate NonceOk() {
      |diversificationNonce| == 0 || |diversificationNonce| == 32
    }
  }

  datatype ParseResult = Ok(header: PublicHeader,
                            rest: seq<byte>) | UnexpectedEof | TruncatedConnectionID | InvalidConnectionID

  function LenCode(len: nat): nat {
    if len == 1 then 0 else if len == 2 then 1 else if len == 4 then 2 else 3
  }

  function LenOf(code: nat): nat {
    if code == 0 then 1 else if code == 1 then 2 else if code == 2 then 4 else 6
  }

  function FlagByte(h: PublicHeader): byte {
    (if h.diversificationNonce == [] then 0 else 4) + (if h.truncateConnectionID then 0 else 8) +
      16 * LenCode(h.packetNumberLen)
  }

  function HeaderBytes(h: PublicHeader): seq<byte> {
    [FlagByte(h)] + ((if h.truncateConnectionID then [] else LittleEndian(8, h.connectionID)) +
                     (h.diversificationNonce + LittleEndian(h.packetNumberLen, h.packetNumber)))
  }

  /** Writing fails exactly for a nonce of the wrong length, and takes the announced length. */
  method WriteHeader(h: PublicHeader) returns (r: Option<seq<byte>>)
    requires IsLength(h.packetNumberLen)
    ensures r == if h.NonceOk() then Some(HeaderBytes(h)) else None
    ensures r.Some? ==> |r.value| == h.GetLength()
  {
    if |h.diversificationNonce| > 0 && |h.diversificationNonce| != 32 {
      return None;
    }
    var b := [FlagByte(h)];
    if !h.truncateConnectionID {
      b := b + LittleEndian(8, h.connectionID);
    }
    b := b + h.diversificationNonce;
    b := b + LittleEndian(h.packetNumberLen, h.packetNumber);
    assert b == HeaderBytes(h);
    return Some(b);
  }

  /** Headers without version and reset flags; the parser does not look for a nonce. */
  function Parse(r: seq<byte>): ParseResult {
    match Take(r, 1)
    case Eof => UnexpectedEof
    case Taken(t, r1) =>
      if t / 8 % 2 == 0 then TruncatedConnectionID
      else
        match Take(r1, 8)
        case Eof => UnexpectedEof
        case Taken(id, r2) =>
          if id == 0 then InvalidConnectionID
          else
            var len := LenOf(t / 16 % 4);
            match Take(r2, len)
            case Eof => UnexpectedEof
            case Taken(number, r3) => Ok(PublicHeader(id, false, [], number, len), r3)
  }

  lemma FlagFields(code: nat, t: nat)
    requires code < 4 && t == 8 + 16 * code
    ensures t < 256 && t / 8 % 2 == 1 && t / 16 % 4 == code
  {
    assert t / 8 == 1 + 2 * code;
    assert t / 16 == code;
  }

  lemma Prefix(r: seq<byte>, len: nat, n: nat, rest: seq<byte>)
    requires r == LittleEndian(len, n) + rest
    ensures |r| >= len && r[..len] == LittleEndian(len, n) && r[len..] == rest
  {
  }

  /** The number behind the connection ID reads back exactly when it fits its length. */
  lemma NumberRoundTripIff(len: nat, number: nat, rest: seq<byte>)
    ensures Take(LittleEndian(len, number) + rest, len) == Taken(number, rest) <==> number < Capacity(len)
  {
    Prefix(LittleEndian(len, number) + rest, len, number, rest);
    ValueOfLittleEndian(len, number);
  }

  /** A header with a connection ID and without a nonce reads back exactly when the packet number fits its length. */
  lemma PlainRoundTripIff(h: PublicHeader, rest: seq<byte>)
    requires IsLength(h.packetNumberLen) && !h.truncateConnectionID && h.diversificationNonce == []
    requires 0 < h.connectionID < 0x1_0000_0000_0000_0000
    ensures Parse(HeaderBytes(h) + rest) == Ok(h, rest) <==> h.packetNumber < Capacity(h.packetNumberLen)
  {
    hide LittleEndian, Value, Capacity;
    var len, t := h.packetNumberLen, FlagByte(h);
    var r2 := LittleEndian(len, h.packetNumber) + rest;
    var r1 := LittleEndian(8, h.connectionID) + r2;
    FlagFields(LenCode(len), t);
    assert HeaderBytes(h) + rest == [t] + r1;
    TakeByte([t] + r1);
    assert ([t] + r1)[1..] == r1;
    EightBytes();
    TakeWritten(8, h.connectionID, r2);
    NumberRoundTripIff(len, h.packetNumber, rest);
    NumberTaken(len, h.packetNumber, rest);
  }

  lemma EightBytes()
    ensures Capacity(8) == 0x1_0000_0000_0000_0000
  {
    CapacityValues();
    assert Capacity(8) == 256 * Capacity(7) && Capacity(7) == 256 * Capacity(6);
  }

  lemma NumberTaken(len: nat, number: nat, rest: seq<byte>)
    ensures Take(LittleEndian(len, number) + rest, len).Taken?
  {
    Prefix(LittleEndian(len, number) + rest, len, number, rest);
  }

  /** The parser gives no header without a connection ID, or with a nonce. */
  lemma ParsedIsPlain(r: seq<byte>)
    ensures var p := Parse(r);
            p.Ok? ==>
              && !p.header.truncateConnectionID && p.header.diversificationNonce == []
              && 0 < p.header.connectionID < 0x1_0000_0000_0000_0000
  {
    hide Value, Capacity;
    EightBytes();
    if |r| >= 9 {
      ValueBound(r[1..][..8]);
    }
  }

  /** A header reads back exactly when it has a connection ID that is not 0 and fits 64 bits, no nonce, and a packet
      number that fits its length. */
  lemma RoundTripIff(h: PublicHeader, rest: seq<byte>)
    requires IsLength(h.packetNumberLen)
    ensures Parse(HeaderBytes(h) + rest) == Ok(h, rest) <==>
            && !h.truncateConnectionID && h.diversificationNonce == [] && 0 < h.connectionID < 0x1_0000_0000_0000_0000
            && h.packetNumber < Capacity(h.packetNumberLen)
  {
    hide Parse, HeaderBytes, Capacity;
    ParsedIsPlain(HeaderBytes(h) + rest);
    if !h.truncateConnectionID && h.diversificationNonce == [] && 0 < h.connectionID < 0x1_0000_0000_0000_0000 {
      PlainRoundTripIff(h, rest);
    }
  }

  /** Where a reader that knows the connection finds the fields of any header: the connection ID behind the flags unless
      it is left out, then the nonce, and the packet number at the end. */
  lemma HeaderFields(h: PublicHeader)
    requires IsLength(h.packetNumberLen)
    ensures var b := HeaderBytes(h);
            var id := if h.truncateConnectionID then 0 else 8;
            var n := |h.diversificationNonce|;
            && |b| == 1 + id + n + h.packetNumberLen
            && (b[0] / 8 % 2 == 0 <==> h.truncateConnectionID) && LenOf(b[0] / 16 % 4) == h.packetNumberLen
            && (b[0] / 4 % 2 == 0 <==> n == 0)
            && (!h.truncateConnectionID && h.connectionID < Capacity(8) ==> Value(b[1..9]) == h.connectionID)
            && b[1 + id..1 + id + n] == h.diversificationNonce
            && (h.packetNumber < Capacity(h.packetNumberLen) ==> Value(b[1 + id + n..]) == h.packetNumber)
  {
    hide LittleEndian, Value, Capacity;
    var b, id := HeaderBytes(h), if h.truncateConnectionID then [] else LittleEndian(8, h.connectionID);
    var number := LittleEndian(h.packetNumberLen, h.packetNumber);
    assert b == [FlagByte(h)] + id + h.diversificationNonce + number;
    assert b[1..1 + |id|] == id;
    assert b[1 + |id| + |h.diversificationNonce|..] == number;
    FlagBits(LenCode(h.packetNumberLen), if h.truncateConnectionID then 0 else 1,
             if h.diversificationNonce == [] then 0 else 1);
    ValueOfLittleEndian(8, h.connectionID);
    ValueOfLittleEndian(h.packetNumberLen, h.packetNumber);
  }

  lemma FlagBits(code: nat, id: nat, nonce: nat)
    requires code < 4 && id < 2 && nonce < 2
    ensures var t := 4 * nonce + 8 * id + 16 * code; t / 4 % 2 == nonce && t / 8 % 2 == id && t / 16 % 4 == code
  {
    var t := 4 * nonce + 8 * id + 16 * code;
    assert t / 4 == 2 * (2 * code + id) + nonce;
    assert t / 8 == 2 * code + id;
    assert t / 16 == code;
  }
}
