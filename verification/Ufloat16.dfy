/** The unsigned 16-bit floating point format of ACK delays (utils/float16.go): 5 bits of exponent,
    11 bits of mantissa with a hidden bit, no sign and no fraction. */
module Ufloat16 {

  function Pow2(n: nat): (p: nat)
    ensures p > 0
  {
    if n == 0 then 1 else 2 * Pow2(n - 1)
  }

  const MAX_VALUE: nat := 0x3FF_C000_0000

  function Scale(m: nat, e: nat): nat {
    m * Pow2(e)
  }

  /** The value of a 16-bit pattern. */
  function Decode(x: nat): nat {
    if x < 4096 then x
    else
      var exponent := x / 2048 - 1;
      Scale(x - exponent * 2048, exponent)
  }

  /** Shifting right one bit at a time until the mantissa fits. */
  function Normalize(v: nat, exponent: nat): nat {
    if v < 4096 then v + exponent * 2048 else Normalize(v / 2, exponent + 1)
  }

  function Encode(v: nat): nat {
    if v >= MAX_VALUE then 0xFFFF else Normalize(v, 0)
  }

  lemma Pow2Add(a: nat, b: nat)
    ensures Pow2(a + b) == Pow2(a) * Pow2(b)
  {
    if a > 0 {
      Pow2Add(a - 1, b);
      assert Pow2(a + b) == 2 * Pow2(a - 1 + b);
    }
  }

  lemma DecodeParts(m: nat, e: nat)
    requires 2048 <= m < 4096
    ensures Decode(m + e * 2048) == Scale(m, e)
    ensures Decode(m + e * 2048 + 1) == Scale(m + 1, e)
  {
    assert (m + e * 2048) / 2048 == e + 1;
    assert Decode(m + e * 2048) == Scale(m, e) by {
      if e == 0 {
        assert Pow2(0) == 1;
      }
    }
    DecodeNext(m, e);
  }

  lemma DecodeNext(m: nat, e: nat)
    requires 2048 <= m < 4096
    ensures Decode(m + e * 2048 + 1) == Scale(m + 1, e)
  {
    var x := m + e * 2048 + 1;
    if m + 1 < 4096 {
      assert x / 2048 == e + 1;
      assert e == 0 ==> Pow2(e) == 1;
    } else {
      assert x / 2048 == e + 2;
      assert Decode(x) == Scale(2048, e + 1);
    }
  }

  /** Bit patterns are ordered like the values they stand for. */
  lemma DecodeStep(x: nat)
    ensures Decode(x) < Decode(x + 1)
  {
    if x >= 2048 {
      var e := x / 2048 - 1;
      var m := x - e * 2048;
      DecodeParts(m, e);
      assert Scale(m + 1, e) == Scale(m, e) + Pow2(e);
    }
  }

  lemma {:induction false} DecodeMonotone(x: nat, y: nat)
    requires x < y
    ensures Decode(x) < Decode(y)
    decreases y
  {
    DecodeStep(y - 1);
    if x < y - 1 {
      DecodeMonotone(x, y - 1);
    }
  }

  /** `x` is the pattern of the greatest representable value that does not exceed `v`. */
  predicate IsFloor(x: nat, v: nat) {
    Decode(x) <= v < Decode(x + 1)
  }

  lemma FloorUnique(x: nat, y: nat, v: nat)
    requires IsFloor(x, v) && IsFloor(y, v)
    ensures x == y
  {
    if x < y {
      if x + 1 < y {
        DecodeMonotone(x + 1, y);
      }
    } else if y < x {
      if y + 1 < x {
        DecodeMonotone(y + 1, x);
      }
    }
  }

  /** A mantissa and a shift count that bracket `v`. */
  predicate Brackets(m: nat, e: nat, v: nat) {
    Scale(m, e) <= v < Scale(m + 1, e)
  }

  function Quotient(m: nat, p: nat): (q: nat)
    requires p > 0
    ensures q * p <= m < (q + 1) * p
  {
    m / p
  }

  function ShiftRight(m: nat, k: nat): (q: nat)
    ensures q * Pow2(k) <= m < (q + 1) * Pow2(k)
  {
    Quotient(m, Pow2(k))
  }

  lemma ShiftBrackets(m: nat, e: nat, k: nat, v: nat, q: nat)
    requires Brackets(m, e, v) && q * Pow2(k) <= m < (q + 1) * Pow2(k)
    ensures Brackets(q, e + k, v)
  {
    Pow2Add(e, k);
    Regroup(q, Pow2(k), m, Pow2(e));
  }

  /** One step of the search: a mantissa of at least 2^(11 + k) stays at least 2^11 when shifted by k. */
  lemma SearchStep(m: nat, e: nat, k: nat, v: nat)
    requires Brackets(m, e, v) && Pow2(11 + k) <= m < Pow2(11 + 2 * k)
    ensures Brackets(ShiftRight(m, k), e + k, v) && Pow2(11) <= ShiftRight(m, k) < Pow2(11 + k)
  {
    ShiftBrackets(m, e, k, v, ShiftRight(m, k));
    Pow2Add(11, k);
    Pow2Add(11 + k, k);
    QuotientRange(m, Pow2(11), Pow2(k), ShiftRight(m, k));
  }

  lemma QuotientRange(v: nat, lo: nat, p: nat, q: nat)
    requires lo * p <= v < lo * p * p && q * p <= v < (q + 1) * p
    ensures lo <= q < lo * p
  {
    if q < lo {
      MulMono(q + 1, lo, p);
    }
    if lo * p <= q {
      MulMono(lo * p, q, p);
    }
  }

  lemma Regroup(q: nat, p: nat, m: nat, c: nat)
    requires q * p <= m < (q + 1) * p
    ensures q * (c * p) <= m * c && (m + 1) * c <= (q + 1) * (c * p)
  {
    MulMono(q * p, m, c);
    MulMono(m + 1, (q + 1) * p, c);
    assert q * (c * p) == (q * p) * c && (q + 1) * (c * p) == ((q + 1) * p) * c;
  }

  lemma MulMono(x: nat, y: nat, c: nat)
    requires x <= y
    ensures x * c <= y * c
  {
  }

  lemma {:induction false} NormalizeFloor(m: nat, e: nat, v: nat)
    requires 2048 <= m && Brackets(m, e, v)
    ensures IsFloor(Normalize(m, e), v)
  {
    if m < 4096 {
      DecodeParts(m, e);
    } else {
      assert Pow2(1) == 2 * Pow2(0);
      ShiftBrackets(m, e, 1, v, m / 2);
      NormalizeFloor(m / 2, e + 1, v);
    }
  }

  lemma Pow2Values()
    ensures Pow2(10) == 1024 && Pow2(11) == 2048 && Pow2(12) == 4096
    ensures Pow2(30) == 0x4000_0000 && Pow2(43) == 0x800_0000_0000
  {
    assert Pow2(5) == 32 by {
      assert Pow2(1) == 2 * Pow2(0) && Pow2(2) == 2 * Pow2(1) && Pow2(3) == 2 * Pow2(2) && Pow2(4) == 2 * Pow2(3);
    }
    Pow2Add(5, 5);
    assert Pow2(12) == 2 * Pow2(11) && Pow2(11) == 2 * Pow2(10) && Pow2(13) == 2 * Pow2(12);
    Pow2Add(10, 10);
    Pow2Add(20, 10);
    Pow2Add(30, 13);
  }

  /** The largest pattern stands for MAX_VALUE. */
  lemma DecodeMax()
    ensures Decode(0xFFFF) == MAX_VALUE
  {
    DecodeParts(4095, 30);
    Pow2Values();
  }

  lemma EncodeIsFloor(v: nat)
    requires v < MAX_VALUE
    ensures Encode(v) <= 0xFFFF && IsFloor(Encode(v), v)
  {
    if v < 2048 {
      DecodeStep(v);
    } else {
      assert Brackets(v, 0, v);
      NormalizeFloor(v, 0, v);
    }
    DecodeMax();
    if Encode(v) > 0xFFFF {
      DecodeMonotone(0xFFFF, Encode(v));
    }
  }

  /** Encoding keeps the greatest representable value that does not exceed the argument, clamped to the maximum. */
  lemma EncodeFloor(v: nat, x: nat)
    requires x <= 0xFFFF && Decode(x) <= v
    ensures Encode(v) <= 0xFFFF && Decode(x) <= Decode(Encode(v)) <= v
    ensures v >= MAX_VALUE ==> Decode(Encode(v)) == MAX_VALUE
  {
    DecodeMax();
    if v < MAX_VALUE {
      EncodeIsFloor(v);
    }
    if x < Encode(v) {
      DecodeMonotone(x, Encode(v));
    } else if Encode(v) + 1 < x {
      DecodeMonotone(Encode(v) + 1, x);
    }
  }

  /** The encoding is monotone. */
  lemma EncodeMonotone(v: nat, w: nat)
    requires v <= w
    ensures Encode(v) <= Encode(w)
  {
    EncodeFloor(v, 0);
    EncodeFloor(w, Encode(v));
    if Encode(w) < Encode(v) {
      DecodeMonotone(Encode(w), Encode(v));
    }
  }

  /** Encoding undoes decoding. */
  lemma RoundTrip(x: nat)
    requires x <= 0xFFFF
    ensures Encode(Decode(x)) == x
  {
    EncodeFloor(Decode(x), x);
    if x < Encode(Decode(x)) {
      DecodeMonotone(x, Encode(Decode(x)));
    } else if Encode(Decode(x)) < x {
      DecodeMonotone(Encode(Decode(x)), x);
    }
  }

  lemma SearchResult(m: nat, e: nat, v: nat)
    requires 2048 <= m < 4096 && Brackets(m, e, v) && v < MAX_VALUE
    ensures m + e * 2048 == Encode(v)
  {
    DecodeParts(m, e);
    EncodeIsFloor(v);
    FloorUnique(m + e * 2048, Encode(v), v);
  }

  /** The writer's search: shifts by 16, 8, 4, 2 and 1 instead of one bit at a time. */
  method WriteUfloat16(value: nat) returns (result: nat)
    ensures result == Encode(value)
  {
    if value < 4096 {
      return value;
    }
    if value >= MAX_VALUE {
      return 0xFFFF;
    }
    var v, exponent, offset := value, 0, 16;
    Pow2Values();
    assert Brackets(v, 0, value);
    while offset > 0
      invariant offset == 16 || offset == 8 || offset == 4 || offset == 2 || offset == 1 || offset == 0
      invariant 2048 <= v && Brackets(v, exponent, value)
      invariant if offset > 0 then v < Pow2(11 + 2 * offset) else v < 4096
    {
      if v >= Pow2(11 + offset) {
        SearchStep(v, exponent, offset, value);
        exponent := exponent + offset;
        v := ShiftRight(v, offset);
      }
      offset := offset / 2;
    }
    SearchResult(v, exponent, value);
    return v + exponent * 2048;
  }
}
