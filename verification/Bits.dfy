/**
 Machine words as mathematical integers.  Bitwise operations are defined bit by
 bit, so that the shifts, masks and ors of the wire format can be written as the
 program writes them and related to ordinary arithmetic by lemmas.
 */
module Bits {
  const TWO32: int := 0x1_0000_0000
  const TWO63: int := 0x8000_0000_0000_0000
  const TWO64: int := 0x1_0000_0000_0000_0000

  type byte = x: int | 0 <= x < 256
  type uint64 = x: int | 0 <= x < TWO64
  type int64 = x: int | -TWO63 <= x < TWO63

  /** Two's complement reinterpretation of the low 64 bits. */
  function ToInt64(x: uint64): (r: int64)
  {
    if x < TWO63 then x else x - TWO64
  }

  function ToUint64(x: int64): (r: uint64)
    ensures ToInt64(r) == x
  {
    if x >= 0 then x else x + TWO64
  }

  /** The value a 64-bit signed variable holds after being assigned x. */
  function Wrap64(x: int): (r: int64)
    ensures -TWO63 <= x < TWO63 ==> r == x
    ensures TWO63 <= x < TWO64 ==> r < 0
  {
    ToInt64(x % TWO64)
  }

  /** int32(x) for an unsigned 64-bit x. */
  function ToInt32(x: uint64): (r: int)
  {
    var low := x % TWO32;
    if low < TWO32 / 2 then low else low - TWO32
  }

  function Pow2(k: nat): (r: nat)
    ensures r > 0
  {
    if k == 0 then 1 else 2 * Pow2(k - 1)
  }

  function BitOr(x: nat, y: nat): (r: nat)
    decreases x + y
  {
    if x == 0 && y == 0 then 0
    else (if x % 2 == 1 || y % 2 == 1 then 1 else 0) + 2 * BitOr(x / 2, y / 2)
  }

  /** The number of bits needed to write x (math/bits.Len64). */
  function BitLen(x: nat): (r: nat)
  {
    if x == 0 then 0 else 1 + BitLen(x / 2)
  }

  /** x << k in a 64-bit variable: the bits shifted past the top are lost. */
  function Shl64(x: nat, k: nat): (r: uint64)
  {
    x * Pow2(k) % TWO64
  }

  lemma {:induction false} Pow2Add(a: nat, b: nat)
    ensures Pow2(a + b) == Pow2(a) * Pow2(b)
  {
    if a > 0 { Pow2Add(a - 1, b); }
  }

  lemma Pow2Words()
    ensures Pow2(7) == 128
    ensures Pow2(63) == TWO63
    ensures Pow2(64) == TWO64
  {
    assert Pow2(4) == 16;
    assert Pow2(7) == 128;
    Pow2Add(4, 4);
    Pow2Add(8, 8);
    Pow2Add(16, 16);
    Pow2Add(32, 32);
    Pow2Add(1, 63);
  }

  /** Or of numbers that share no bit is addition. */
  lemma {:induction false} OrDisjoint(x: nat, y: nat, k: nat)
    requires x < Pow2(k)
    ensures BitOr(x, y * Pow2(k)) == x + y * Pow2(k)
  {
    if k == 0 {
      OrZero(y);
    } else {
      var p := Pow2(k - 1);
      assert y * Pow2(k) == 2 * (y * p);
      OrDisjoint(x / 2, y, k - 1);
    }
  }

  lemma {:induction false} OrZero(y: nat)
    ensures BitOr(0, y) == y
  {
    if y > 0 { OrZero(y / 2); }
  }

  lemma {:induction false} OrBound(x: nat, y: nat, k: nat)
    requires x < Pow2(k) && y < Pow2(k)
    ensures BitOr(x, y) < Pow2(k)
  {
    if k > 0 { OrBound(x / 2, y / 2, k - 1); }
  }

  lemma {:induction false} OrOne(x: nat)
    ensures BitOr(x, 1) == if x % 2 == 0 then x + 1 else x
  {
    assert BitOr(x / 2, 0) == x / 2 by { OrZeroRight(x / 2); }
  }

  lemma {:induction false} OrZeroRight(x: nat)
    ensures BitOr(x, 0) == x
  {
    if x > 0 { OrZeroRight(x / 2); }
  }
}
