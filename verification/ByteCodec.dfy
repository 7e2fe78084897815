/** Little-endian integers on the wire (utils/utils.go). A reader is the sequence of its unread bytes. */
module ByteCodec {
  import opened Frames

  /** 256 to the power `n`: the number of values that fit in `n` bytes. */
  function Capacity(n: nat): (c: nat)
    ensures c > 0
  {
    if n == 0 then 1 else 256 * Capacity(n - 1)
  }

  lemma CapacityValues()
    ensures Capacity(1) == 0x100 && Capacity(2) == 0x1_0000 && Capacity(4) == 0x1_0000_0000 &&
            Capacity(6) == 0x1_0000_0000_0000
  {
    assert Capacity(0) == 1 && Capacity(3) == 256 * Capacity(2) && Capacity(5) == 256 * Capacity(4);
  }

  /** The low `n` bytes of `v`, least significant first: what the WriteUintNN family appends. */
  function LittleEndian(n: nat, v: nat): (bs: seq<byte>)
    ensures |bs| == n
  {
    if n == 0 then [] else [v % 256] + LittleEndian(n - 1, v / 256)
  }

  function Value(bs: seq<byte>): nat {
    if bs == [] then 0 else bs[0] + 256 * Value(bs[1..])
  }

  datatype Taken = Eof | Taken(value: nat, rest: seq<byte>)

  /** Reading an `n`-byte integer off the front of `r`. */
  function Take(r: seq<byte>, n: nat): Taken {
    if |r| < n then Eof else Taken(Value(r[..n]), r[n..])
  }

  /** A value read back from `n` bytes is the value written exactly when it fits. */
  lemma {:induction false} ValueOfLittleEndian(n: nat, v: nat)
    ensures Value(LittleEndian(n, v)) == v <==> v < Capacity(n)
  {
    if n > 0 {
      ValueOfLittleEndian(n - 1, v / 256);
      assert LittleEndian(n, v)[1..] == LittleEndian(n - 1, v / 256);
    }
  }

  /** A field followed by anything reads back as the field and leaves the rest unread. */
  lemma TakeWritten(n: nat, v: nat, rest: seq<byte>)
    requires v < Capacity(n)
    ensures Take(LittleEndian(n, v) + rest, n) == Taken(v, rest)
  {
    var r := LittleEndian(n, v) + rest;
    assert r[..n] == LittleEndian(n, v) && r[n..] == rest;
    ValueOfLittleEndian(n, v);
  }

  /** Reading off a sequence that is cut off behind `k` bytes. */
  lemma TakePrefix(r: seq<byte>, n: nat, k: nat)
    requires k <= |r|
    ensures Take(r[..k], n) == if k < n then Eof else Taken(Value(r[..n]), r[n..][..k - n])
  {
    if n <= k {
      assert r[..k][..n] == r[..n] && r[..k][n..] == r[n..][..k - n];
    }
  }

  lemma TakeByte(r: seq<byte>)
    requires r != []
    ensures Take(r, 1) == Taken(r[0], r[1..])
  {
    assert r[..1] == [r[0]];
    assert Value([r[0]]) == r[0] + 256 * Value([r[0]][1..]);
  }

  lemma {:induction false} ValueBound(bs: seq<byte>)
    ensures Value(bs) < Capacity(|bs|)
  {
    if bs != [] {
      ValueBound(bs[1..]);
    }
  }

  lemma {:induction false} ValueSnoc(bs: seq<byte>, b: byte)
    ensures Value(bs + [b]) == Value(bs) + Capacity(|bs|) * b
  {
    if bs == [] {
      assert bs + [b] == [b];
    } else {
      assert (bs + [b])[1..] == bs[1..] + [b];
      ValueSnoc(bs[1..], b);
      var c, w := Capacity(|bs| - 1), Value(bs[1..]);
      assert 256 * (w + c * b) == 256 * w + 256 * c * b;
    }
  }

  /** Reads `length` bytes one by one, adding each at its own position. */
  method ReadUintN(r: seq<byte>, length: nat) returns (t: Taken)
    ensures t == Take(r, length)
  {
    var res: nat, shift: nat, rest := 0, 1, r;
    for i := 0 to length
      invariant i <= |r| && rest == r[i..]
      invariant res == Value(r[..i]) && shift == Capacity(i)
    {
      if |rest| == 0 {
        return Eof;
      }
      ValueSnoc(r[..i], rest[0]);
      assert r[..i + 1] == r[..i] + [rest[0]];
      res := res + shift * rest[0];
      shift := 256 * shift;
      rest := rest[1..];
    }
    return Taken(res, rest);
  }
}
