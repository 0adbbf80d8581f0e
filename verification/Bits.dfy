/** Unsigned 32-bit arithmetic and the bitwise operators, written out over `nat`. */
module Bits {

  const TWO_32: nat := 0x1_0000_0000

  function Pow2(e: nat): (r: nat)
    ensures r >= 1
  {
    if e == 0 then 1 else 2 * Pow2(e - 1)
  }

  lemma {:induction false} Pow2Monotone(a: nat, b: nat)
    requires a <= b
    ensures Pow2(a) <= Pow2(b)
    ensures a < b ==> 2 * Pow2(a) <= Pow2(b)
    decreases b
  {
    if a < b {
      Pow2Monotone(a, b - 1);
    }
  }

  lemma Pow2Of32()
    ensures Pow2(32) == TWO_32 && Pow2(31) == 0x8000_0000
  {
    assert Pow2(8) == 256;
    assert Pow2(16) == 0x1_0000;
    assert Pow2(24) == 0x100_0000;
    assert Pow2(31) == 0x8000_0000;
  }

  /** The value of `x` in a uint32 variable. */
  function Wrap32(x: int): (r: nat)
    ensures 0 <= x < TWO_32 ==> r == x
    ensures r < TWO_32
  {
    x % TWO_32
  }

  /** The value of `x` read as an int32. */
  function Int32(x: nat): (r: int)
    ensures x < 0x8000_0000 ==> r == x
  {
    var y := x % TWO_32;
    if y < 0x8000_0000 then y else y - TWO_32
  }

  /** `x << e` on a uint32. */
  function Shl32(x: nat, e: nat): nat {
    Wrap32(x * Pow2(e))
  }

  lemma DoubleOf(x: nat)
    ensures 2 * x < TWO_32 ==> Shl32(x, 1) == 2 * x
    ensures x == 0x8000_0000 ==> Shl32(x, 1) == 0
  {
    assert Pow2(1) == 2;
  }

  function And(x: nat, y: nat): nat {
    if x == 0 || y == 0 then 0
    else 2 * And(x / 2, y / 2) + (if x % 2 == 1 && y % 2 == 1 then 1 else 0)
  }

  function Or(x: nat, y: nat): nat
    decreases x + y
  {
    if x == 0 && y == 0 then 0
    else 2 * Or(x / 2, y / 2) + (if x % 2 == 1 || y % 2 == 1 then 1 else 0)
  }

  function Xor(x: nat, y: nat): nat
    decreases x + y
  {
    if x == 0 && y == 0 then 0
    else 2 * Xor(x / 2, y / 2) + (if x % 2 != y % 2 then 1 else 0)
  }

  /** Bit `d` of `x`. */
  predicate TestBit(x: nat, d: nat) {
    if d == 0 then x % 2 == 1 else TestBit(x / 2, d - 1)
  }

  lemma {:induction false} OrZero(x: nat)
    ensures Or(x, 0) == x && Xor(x, 0) == x && And(x, 0) == 0
  {
    if x != 0 {
      OrZero(x / 2);
    }
  }

  /** What a one-bit mask does under each operator. */
  lemma {:induction false} MaskBit(x: nat, d: nat)
    ensures And(x, Pow2(d)) == if TestBit(x, d) then Pow2(d) else 0
    ensures Or(x, Pow2(d)) == if TestBit(x, d) then x else x + Pow2(d)
    ensures Xor(x, Pow2(d)) == if TestBit(x, d) then x - Pow2(d) else x + Pow2(d)
    decreases d
  {
    if d == 0 {
      OrZero(x / 2);
    } else {
      MaskBit(x / 2, d - 1);
      assert Pow2(d) / 2 == Pow2(d - 1) && Pow2(d) % 2 == 0;
      if x == 0 {
        TestBitOfSmall(0, d);
      }
    }
  }

  lemma {:induction false} TestBitOfSmall(x: nat, d: nat)
    requires x < 2 * Pow2(d)
    ensures TestBit(x, d) <==> x >= Pow2(d)
    decreases d
  {
    if d != 0 {
      TestBitOfSmall(x / 2, d - 1);
    }
  }

  /** Mask `2^d` against a number that has no higher bit. */
  lemma MaskTop(x: nat, d: nat)
    requires x < 2 * Pow2(d)
    ensures And(x, Pow2(d)) != 0 <==> x >= Pow2(d)
    ensures x < Pow2(d) ==> Or(x, Pow2(d)) == x + Pow2(d)
    ensures x >= Pow2(d) ==> Xor(x, Pow2(d)) == x - Pow2(d)
  {
    MaskBit(x, d);
    TestBitOfSmall(x, d);
  }

  /** Mask 1: `x & 1` is the parity and `x | 1` the odd number of the pair. */
  lemma MaskOne(x: nat)
    ensures And(x, 1) != 0 <==> x % 2 == 1
    ensures Or(x, 1) == if x % 2 == 1 then x else x + 1
  {
    MaskBit(x, 0);
    assert Pow2(0) == 1;
  }
}
