/** Fixed-width integers as bounded naturals, and the bitwise operators on them.

  The model writes `x & 0x0F` as `x % 16`, `x | 0x10` as `x + 16`, and so on; the lemmas here say
  that these are the bitwise operators for every mask of the source.  They take their arguments
  apart into high and low bits, `p * high + low` with p a power of two.
 */
module Bits {
  type byte = n: int | 0 <= n < 0x100
  type u16 = n: int | 0 <= n < 0x1_0000
  type u32 = n: int | 0 <= n < 0x1_0000_0000

  function And(x: nat, y: nat): nat {
    if x == 0 || y == 0 then 0
    else 2 * And(x / 2, y / 2) + if x % 2 == 1 && y % 2 == 1 then 1 else 0
  }

  function Or(x: nat, y: nat): nat
    decreases x + y
  {
    if x == 0 then y
    else if y == 0 then x
    else 2 * Or(x / 2, y / 2) + if x % 2 == 1 || y % 2 == 1 then 1 else 0
  }

  function Shl(x: nat, k: nat): nat {
    if k == 0 then x else 2 * Shl(x, k - 1)
  }

  lemma {:induction false} ShlIsProduct(x: nat, k: nat)
    ensures Shl(x, k) == Shl(1, k) * x
  {
    if k > 0 {
      ShlIsProduct(x, k - 1);
    }
  }

  lemma Powers()
    ensures Shl(1, 4) == 16 && Shl(1, 11) == 0x800 && Shl(1, 29) == 0x2000_0000
    ensures Shl(1, 30) == 0x4000_0000 && Shl(1, 31) == 0x8000_0000
  {
    assert Shl(1, 10) == 1024;
    assert Shl(1, 20) == 0x10_0000;
  }

  lemma AndStep(x: nat, y: nat)
    ensures And(x, y) == 2 * And(x / 2, y / 2) + if x % 2 == 1 && y % 2 == 1 then 1 else 0
  {
    if x == 0 || y == 0 {
      assert And(x / 2, y / 2) == 0;
    }
  }

  lemma AndHalves(x: nat, halfX: nat, bitX: nat, y: nat, halfY: nat, bitY: nat)
    requires bitX < 2 && bitY < 2
    requires x == 2 * halfX + bitX && y == 2 * halfY + bitY
    ensures And(x, y) == 2 * And(halfX, halfY) + if bitX == 1 && bitY == 1 then 1 else 0
  {
    AndStep(x, y);
  }

  lemma {:induction false} AndOnes(k: nat, r: nat)
    requires r < Shl(1, k)
    ensures And(r, Shl(1, k) - 1) == r
  {
    if k > 0 {
      AndOnes(k - 1, r / 2);
      AndHalves(r, r / 2, r % 2, Shl(1, k) - 1, Shl(1, k - 1) - 1, 1);
    }
  }

  lemma {:induction false} AndShifted(k: nat, x: nat, lowX: nat, y: nat, lowY: nat)
    requires lowX < Shl(1, k) && lowY < Shl(1, k)
    ensures And(Shl(x, k) + lowX, Shl(y, k) + lowY) == Shl(And(x, y), k) + And(lowX, lowY)
  {
    if k > 0 {
      var a, lx, bitX := Shl(x, k - 1), lowX / 2, lowX % 2;
      var b, ly, bitY := Shl(y, k - 1), lowY / 2, lowY % 2;
      AndShifted(k - 1, x, lx, y, ly);
      AndHalves(Shl(x, k) + lowX, a + lx, bitX, Shl(y, k) + lowY, b + ly, bitY);
      AndHalves(lowX, lx, bitX, lowY, ly, bitY);
    }
  }

  /** `&` works on the low k bits and on the rest separately. */
  lemma AndSplit(k: nat, p: nat, x: nat, lowX: nat, y: nat, lowY: nat)
    requires p == Shl(1, k) && lowX < p && lowY < p
    ensures And(p * x + lowX, p * y + lowY) == p * And(x, y) + And(lowX, lowY)
  {
    ShlIsProduct(x, k);
    ShlIsProduct(y, k);
    ShlIsProduct(And(x, y), k);
    AndShifted(k, x, lowX, y, lowY);
  }

  /** A mask below two to the k sees the low k bits only; with k ones it keeps them all. */
  lemma AndLow(k: nat, p: nat, x: nat, low: nat, m: nat)
    requires p == Shl(1, k) && low < p && m < p
    ensures And(p * x + low, m) == And(low, m)
    ensures m == p - 1 ==> And(low, m) == low
  {
    AndSplit(k, p, x, low, 0, m);
    assert And(x, 0) == 0 && p * 0 == 0;
    AndOnes(k, low);
  }

  /** Masking with bit k alone tests it. */
  lemma AndBit(k: nat, p: nat, x: nat, low: nat)
    requires p == Shl(1, k) && low < p
    ensures And(p * x + low, p) == p * (x % 2)
  {
    AndSplit(k, p, x, low, 1, 0);
    AndHalves(x, x / 2, x % 2, 1, 0, 1);
    assert And(x / 2, 0) == 0 && And(low, 0) == 0;
  }

  /** Setting bits above a value that does not reach them is addition. */
  lemma {:induction false} OrShifted(k: nat, x: nat, low: nat)
    requires low < Shl(1, k)
    ensures Or(Shl(x, k), low) == Shl(x, k) + low
  {
    if k > 0 && Shl(x, k) > 0 && low > 0 {
      OrShifted(k - 1, x, low / 2);
    }
  }

  lemma OrAbove(k: nat, p: nat, x: nat, low: nat)
    requires p == Shl(1, k) && low < p
    ensures Or(p * x, low) == p * x + low
  {
    ShlIsProduct(x, k);
    OrShifted(k, x, low);
  }

  lemma {:induction false} AndAtMost(x: nat, y: nat)
    ensures And(x, y) <= y
  {
    if x != 0 && y != 0 {
      AndAtMost(x / 2, y / 2);
    }
  }

  // ---------------------------------------------------------------- the source's masks

  /** The identifier masks of the source on a 32-bit word... */
  lemma WordMasks(w: u32)
    ensures And(w, 0x7FF) == w % 0x800
    ensures And(w, 0x1FFF_FFFF) == w % 0x2000_0000
  {
    Powers();
    AndLow(11, 0x800, w / 0x800, w % 0x800, 0x7FF);
    AndLow(29, 0x2000_0000, w / 0x2000_0000, w % 0x2000_0000, 0x1FFF_FFFF);
  }

  lemma FlagBit(k: nat, p: nat, x: nat, low: nat)
    requires p == Shl(1, k) && low < p
    ensures And(p * x + low, p) != 0 <==> x % 2 == 1
  {
    AndBit(k, p, x, low);
  }

  /** ...its flag tests... */
  lemma WordFlags(w: u32)
    ensures And(w, 0x2000_0000) != 0 <==> w / 0x2000_0000 % 2 == 1
    ensures And(w, 0x4000_0000) != 0 <==> w / 0x4000_0000 % 2 == 1
    ensures And(w, 0x8000_0000) != 0 <==> w / 0x8000_0000 % 2 == 1
  {
    Powers();
    FlagBit(29, 0x2000_0000, w / 0x2000_0000, w % 0x2000_0000);
    FlagBit(30, 0x4000_0000, w / 0x4000_0000, w % 0x4000_0000);
    FlagBit(31, 0x8000_0000, w / 0x8000_0000, w % 0x8000_0000);
  }

  /** ...and the extended flag set on a 29-bit identifier. */
  lemma SetExtended(low: nat)
    requires low < 0x2000_0000
    ensures Or(0x8000_0000, low) == 0x8000_0000 + low
  {
    Powers();
    OrAbove(31, 0x8000_0000, 1, low);
  }

  /** The two flag bits of a CAN-FD flags byte. */
  lemma FlagByte(b: byte)
    ensures And(b, 1) != 0 <==> b % 2 == 1
    ensures And(b, 2) != 0 <==> b / 2 % 2 == 1
  {
    FlagBit(0, 1, b, 0);
    FlagBit(1, 2, b / 2, b % 2);
  }

  /** The nibble masks on a protocol control byte, and how one is put together. */
  lemma NibbleMasks(kind: nat, low: nat)
    requires kind < 16 && low < 16
    ensures And(16 * kind + low, 0x0F) == low
    ensures And(16 * kind + low, 0xF0) == 16 * kind
    ensures Or(16 * kind, low) == 16 * kind + low
  {
    Powers();
    AndLow(4, 16, kind, low, 15);
    AndSplit(4, 16, kind, low, 15, 0);
    AndOnes(4, kind);
    assert And(low, 0) == 0;
    OrAbove(4, 16, kind, low);
  }

  /** A mask of the extended flag and m, on a word with the given flag. */
  lemma FlagApart(flag: nat, low: nat, m: nat)
    requires flag <= 1 && low < 0x8000_0000 && m < 0x8000_0000
    ensures And(0x8000_0000 * flag + low, 0x8000_0000 + m) == 0x8000_0000 * flag + And(low, m)
  {
    Powers();
    AndSplit(31, 0x8000_0000, flag, low, 1, m);
    AndStep(flag, 1);
    assert And(0, 0) == 0;
  }

  lemma FlagAndLow11(flag: nat, high: nat, low: nat, m: nat)
    requires flag <= 1 && 0x800 * high + low < 0x8000_0000 && low < 0x800 && m < 0x800
    ensures And(0x8000_0000 * flag + (0x800 * high + low), 0x8000_0000 + m) == 0x8000_0000 * flag + And(low, m)
    ensures m == 0x7FF ==> And(low, m) == low
  {
    FlagApart(flag, 0x800 * high + low, m);
    Powers();
    AndLow(11, 0x800, high, low, m);
  }

  lemma FlagAndLow29(flag: nat, high: nat, low: nat)
    requires flag <= 1 && 0x2000_0000 * high + low < 0x8000_0000 && low < 0x2000_0000
    ensures And(0x8000_0000 * flag + (0x2000_0000 * high + low), 0x9FFF_FFFF) == 0x8000_0000 * flag + low
  {
    FlagApart(flag, 0x2000_0000 * high + low, 0x1FFF_FFFF);
    Powers();
    AndLow(29, 0x2000_0000, high, low, 0x1FFF_FFFF);
  }
}
