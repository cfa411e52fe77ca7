/** Bytes and the numbers they stand for. The mask-and-shift expressions that `encode` uses are
    restated here, one shape at a time, as division and remainder. */
module Bytes {

  type Byte = bv8

  /** The number a byte denotes, bit by bit. */
  function Nat(x: Byte): nat {
    if x == 0 then 0 else 2 * Nat(x >> 1) + if x & 1 == 1 then 1 else 0
  }

  /** The byte that denotes `n`. */
  function OfNat(n: nat): (x: Byte)
    requires n < 256
    ensures Nat(x) == n
  {
    if n == 0 then 0
    else
      var half := OfNat(n / 2);
      NatIsConversion(half);
      ShiftIn(half, n % 2 == 1);
      (half << 1) | if n % 2 == 1 then 1 else 0
  }

  lemma ShiftIn(x: Byte, bit: bool)
    requires x < 128
    ensures Nat((x << 1) | if bit then 1 else 0) == 2 * Nat(x) + if bit then 1 else 0
  {
    var y := (x << 1) | if bit then 1 else 0;
    assert y >> 1 == x && (y & 1 == 1 <==> bit);
  }

  lemma {:induction false} NatIsConversion(x: Byte)
    ensures Nat(x) == x as int < 256
  {
    if x != 0 {
      NatIsConversion(x >> 1);
      assert (x >> 1) as int == x as int / 2;
      assert (x & 1) as int == x as int % 2;
    }
  }

  lemma {:induction false} NatInjective(x: Byte, y: Byte)
    requires Nat(x) == Nat(y)
    ensures x == y
  {
    NatIsConversion(x);
    NatIsConversion(y);
    if x != 0 && y != 0 {
      NatInjective(x >> 1, y >> 1);
    }
  }

  lemma OfNatNat(x: Byte)
    ensures Nat(x) < 256 && OfNat(Nat(x)) == x
  {
    NatIsConversion(x);
    NatInjective(OfNat(Nat(x)), x);
  }

  // ---- High bits, low bits, and their union ------------------------------------------------

  lemma High5(x: Byte)
    ensures Nat((x & 248) >> 3) == Nat(x) / 8
  {
    NatIsConversion(x);
    NatIsConversion((x & 248) >> 3);
    assert (x & 248) >> 3 == x >> 3;
  }

  lemma High4(x: Byte)
    ensures Nat((x & 240) >> 4) == Nat(x) / 16
  {
    NatIsConversion(x);
    NatIsConversion((x & 240) >> 4);
    assert (x & 240) >> 4 == x >> 4;
  }

  lemma High3(x: Byte)
    ensures Nat((x & 224) >> 5) == Nat(x) / 32
  {
    NatIsConversion(x);
    NatIsConversion((x & 224) >> 5);
    assert (x & 224) >> 5 == x >> 5;
  }

  lemma High2(x: Byte)
    ensures Nat((x & 192) >> 6) == Nat(x) / 64
  {
    NatIsConversion(x);
    NatIsConversion((x & 192) >> 6);
    assert (x & 192) >> 6 == x >> 6;
  }

  lemma High1(x: Byte)
    ensures Nat((x & 128) >> 7) == Nat(x) / 128
  {
    NatIsConversion(x);
    NatIsConversion((x & 128) >> 7);
    assert (x & 128) >> 7 == x >> 7;
  }

  lemma Low1(x: Byte)
    ensures Nat((x & 1) << 4) == Nat(x) % 2 * 16
  {
    NatIsConversion(x);
    NatIsConversion((x & 1) << 4);
    assert (x & 1) as int == x as int % 2;
    Low1Shifted(x & 1);
  }

  lemma Low1Shifted(y: Byte)
    requires y <= 1
    ensures (y << 4) as int == y as int * 16
  {
  }

  lemma Low2(x: Byte)
    ensures Nat((x & 3) << 3) == Nat(x) % 4 * 8
  {
    NatIsConversion(x);
    NatIsConversion((x & 3) << 3);
    assert (x & 3) as int == x as int % 4;
    Low2Shifted(x & 3);
  }

  lemma Low2Shifted(y: Byte)
    requires y <= 3
    ensures (y << 3) as int == y as int * 8
  {
  }

  lemma Low3(x: Byte)
    ensures Nat((x & 7) << 2) == Nat(x) % 8 * 4
  {
    NatIsConversion(x);
    NatIsConversion((x & 7) << 2);
    assert (x & 7) as int == x as int % 8;
    Low3Shifted(x & 7);
  }

  lemma Low3Shifted(y: Byte)
    requires y <= 7
    ensures (y << 2) as int == y as int * 4
  {
  }

  lemma Low4(x: Byte)
    ensures Nat((x & 15) << 1) == Nat(x) % 16 * 2
  {
    NatIsConversion(x);
    NatIsConversion((x & 15) << 1);
    assert (x & 15) as int == x as int % 16;
    Low4Shifted(x & 15);
  }

  lemma Low4Shifted(y: Byte)
    requires y <= 15
    ensures (y << 1) as int == y as int * 2
  {
  }

  lemma Low5(x: Byte)
    ensures Nat(x & 31) == Nat(x) % 32
  {
    NatIsConversion(x);
    NatIsConversion(x & 31);
  }

  lemma Middle5Of6(x: Byte)
    ensures Nat((x & 62) >> 1) == Nat(x) % 64 / 2
  {
    NatIsConversion(x);
    NatIsConversion((x & 62) >> 1);
    assert (x & 62) >> 1 == (x & 63) >> 1;
    assert (x & 63) as int == x as int % 64;
  }

  lemma Middle5Of7(x: Byte)
    ensures Nat((x & 124) >> 2) == Nat(x) % 128 / 4
  {
    NatIsConversion(x);
    NatIsConversion((x & 124) >> 2);
    assert (x & 124) >> 2 == (x & 127) >> 2;
    assert (x & 127) as int == x as int % 128;
  }

  lemma DisjointOr(u: Byte, v: Byte)
    requires u & v == 0 && u < 32 && v < 32
    ensures Nat(u | v) == Nat(u) + Nat(v)
  {
    NatIsConversion(u);
    NatIsConversion(v);
    NatIsConversion(u | v);
  }
}
