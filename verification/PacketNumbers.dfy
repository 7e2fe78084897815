/** Truncated packet numbers (protocol/packet_number.go), with 64-bit wrap-around written out. */
module PacketNumbers {

  const TWO64 := 0x1_0000_0000_0000_0000

  /** A packet number is sent in 1, 2, 4 or 6 bytes. */
  predicate IsLength(len: nat) {
    len == 1 || len == 2 || len == 4 || len == 6
  }

  /** The number of packet numbers that share their low `len` bytes' range. */
  function EpochDelta(len: nat): nat
    requires IsLength(len)
  {
    if len == 1 then 0x100 else if len == 2 then 0x1_0000 else if len == 4 then 0x1_0000_0000 else 0x1_0000_0000_0000
  }

  /** Reduction to 64 bits; the first two cases spare the verifier a division. */
  function Wrap(x: int): (w: nat)
    ensures w == x % TWO64
  {
    if 0 <= x < TWO64 then x else if -TWO64 <= x < 0 then x + TWO64 else x % TWO64
  }

  function Delta(a: nat, b: nat): nat {
    if a < b then b - a else a - b
  }

  function ClosestTo(target: nat, a: nat, b: nat): nat {
    if Delta(target, a) < Delta(target, b) then a else b
  }

  function Epoch(len: nat, last: nat): nat
    requires IsLength(len)
  {
    last / EpochDelta(len) * EpochDelta(len)
  }

  function InferPacketNumber(len: nat, last: nat, wire: nat): nat
    requires IsLength(len)
  {
    Infer(EpochDelta(len), Epoch(len, last), last, wire)
  }

  function Infer(epochDelta: nat, epoch: nat, last: nat, wire: nat): nat {
    var prevEpochBegin := Wrap(epoch - epochDelta);
    var nextEpochBegin := Wrap(epoch + epochDelta);
    var target := Wrap(last + 1);
    ClosestTo(target, Wrap(epoch + wire),
              ClosestTo(target, Wrap(prevEpochBegin + wire), Wrap(nextEpochBegin + wire)))
  }

  function GetPacketNumberLengthForPublicHeader(packetNumber: nat, leastUnacked: nat): (len: nat)
    ensures IsLength(len) && len != 1
  {
    var diff := Wrap(packetNumber - leastUnacked);
    if diff < 0x8000 then 2 else if diff < 0x8000_0000 then 4 else 6
  }

  function GetPacketNumberLength(packetNumber: nat): (len: nat)
    ensures IsLength(len)
    ensures packetNumber < 0x1_0000_0000_0000 ==> packetNumber < EpochDelta(len)
  {
    if packetNumber < 0x100 then 1 else if packetNumber < 0x1_0000 then 2 else if packetNumber < 0x1_0000_0000 then 4
      else 6
  }

  /** The lengths are the shortest ones: in a shorter field the number would not fit, or its distance from the least
      unacked packet would be half an epoch or more. */
  lemma ShortestLength(packetNumber: nat, leastUnacked: nat, len: nat)
    requires IsLength(len) && leastUnacked <= packetNumber < 0x1_0000_0000_0000
    ensures len < GetPacketNumberLength(packetNumber) ==> EpochDelta(len) <= packetNumber
    ensures 1 < len < GetPacketNumberLengthForPublicHeader(packetNumber, leastUnacked) ==>
            EpochDelta(len) <= 2 * (packetNumber - leastUnacked)
  {
  }

  /** The inference with unbounded integers: the candidate of the previous epoch exists only if it is not negative. */
  function Candidate(d: nat, epoch: nat, last: nat, wire: nat): nat {
    var cur := epoch + wire;
    var other := if cur < d then cur + d else ClosestTo(last + 1, cur - d, cur + d);
    ClosestTo(last + 1, cur, other)
  }

  /** Wrap-around below zero never wins: a previous epoch that does not exist is far away. */
  lemma NoWrap(d: nat, epoch: nat, last: nat, wire: nat)
    requires wire < d <= 0x1_0000_0000_0000 && epoch <= last < 0x4000_0000_0000_0000 && (epoch < d ==> epoch == 0)
    ensures Infer(d, epoch, last, wire) == Candidate(d, epoch, last, wire)
  {
  }

  lemma EpochBounds(len: nat, last: nat)
    requires IsLength(len)
    ensures Epoch(len, last) <= last < Epoch(len, last) + EpochDelta(len)
    ensures Epoch(len, last) < EpochDelta(len) ==> Epoch(len, last) == 0
  {
    var d := EpochDelta(len);
    assert last == last / d * d + last % d;
    assert last / d > 0 ==> last / d * d >= d;
  }

  /** Exactly when a truncated packet number is recovered: it is less than half an epoch away from the
      next expected one, or it is a tie against a number in the current epoch, or there is no smaller choice. */
  predicate Recoverable(d: nat, epoch: nat, last: nat, packetNumber: nat) {
    var half, expected := d / 2, last + 1;
    && (expected - packetNumber < half || (expected - packetNumber == half && packetNumber < epoch))
    && (packetNumber < d || packetNumber - expected < half ||
        (packetNumber - expected == half && packetNumber >= epoch + d))
  }

  lemma RecoveredIff(len: nat, last: nat, packetNumber: nat)
    requires IsLength(len) && last < 0x4000_0000_0000_0000
    ensures var d := EpochDelta(len);
            InferPacketNumber(len, last, packetNumber % d) == packetNumber <==>
              Recoverable(d, Epoch(len, last), last, packetNumber)
  {
    var d, epoch := EpochDelta(len), Epoch(len, last);
    EpochBounds(len, last);
    Aligned(d, last / d, packetNumber);
    RecoveredAt(d, d / 2, epoch, last, packetNumber, packetNumber % d);
  }

  lemma RecoveredAt(d: nat, half: nat, epoch: nat, last: nat, packetNumber: nat, wire: nat)
    requires d == 2 * half <= 0x1_0000_0000_0000 && wire < d
    requires epoch <= last < epoch + d && last < 0x4000_0000_0000_0000 && (epoch < d ==> epoch == 0)
    requires var cur := epoch + wire;
             packetNumber == cur - d || packetNumber == cur || packetNumber == cur + d || packetNumber <= cur - 2 * d ||
               packetNumber >= cur + 2 * d
    ensures Infer(d, epoch, last, wire) == packetNumber <==> Recoverable(d, epoch, last, packetNumber)
  {
    NoWrap(d, epoch, last, wire);
    CandidateIff(d, half, epoch, last, packetNumber, wire);
  }

  lemma CandidateIff(d: nat, half: nat, epoch: nat, last: nat, packetNumber: nat, wire: nat)
    requires d == 2 * half && wire < d && epoch <= last < epoch + d && (epoch < d ==> epoch == 0)
    requires var cur := epoch + wire;
             packetNumber == cur - d || packetNumber == cur || packetNumber == cur + d || packetNumber <= cur - 2 * d ||
               packetNumber >= cur + 2 * d
    ensures Candidate(d, epoch, last, wire) == packetNumber <==> Recoverable(d, epoch, last, packetNumber)
  {
    var cur := epoch + wire;
    if packetNumber == cur || packetNumber == cur - d {
    } else if packetNumber == cur + d {
    } else if packetNumber <= cur - 2 * d {
    }
  }

  /** A packet number is a whole number of epochs away from the one with its low bytes in epoch `q`. */
  lemma Aligned(d: nat, q: nat, packetNumber: nat)
    requires d > 0
    ensures var cur := q * d + packetNumber % d;
            packetNumber == cur - d || packetNumber == cur || packetNumber == cur + d || packetNumber <= cur - 2 * d ||
              packetNumber >= cur + 2 * d
  {
    var k := packetNumber / d - q;
    assert packetNumber == packetNumber / d * d + packetNumber % d;
    Multiples(packetNumber / d, q, d);
  }

  lemma Multiples(p: int, q: int, d: nat)
    ensures var k := p - q;
            && (k == -1 ==> p * d == q * d - d) && (k == 0 ==> p * d == q * d) && (k == 1 ==> p * d == q * d + d)
            && (k <= -2 ==> p * d <= q * d - 2 * d) && (k >= 2 ==> p * d >= q * d + 2 * d)
  {
    var k := p - q;
    assert p * d == q * d + k * d;
    if k <= -2 {
      assert (-2 - k) * d >= 0;
    } else if k >= 2 {
      assert (k - 2) * d >= 0;
    }
  }

  /** The length chosen for the public header is long enough: the receiver recovers the packet number
      if it has seen the packet before the least unacked one, or any later one up to half an epoch ahead. */
  lemma Recovery(packetNumber: nat, leastUnacked: nat, last: nat)
    requires 0 <= packetNumber - leastUnacked < 0x8000_0000_0000
    requires last < 0x4000_0000_0000_0000
    requires var d := EpochDelta(GetPacketNumberLengthForPublicHeader(packetNumber, leastUnacked));
             leastUnacked - 1 <= last < packetNumber + d / 2 - 1
    ensures var len := GetPacketNumberLengthForPublicHeader(packetNumber, leastUnacked);
            InferPacketNumber(len, last, packetNumber % EpochDelta(len)) == packetNumber
  {
    var len := GetPacketNumberLengthForPublicHeader(packetNumber, leastUnacked);
    RecoveredIff(len, last, packetNumber);
  }
}
