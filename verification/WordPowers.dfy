/** Powers of two among 64-bit words (BAN/include/BAN/Math.h). */
module WordPowers {
  import opened PowersOfTwo
  import opened WordBits

  predicate IsPowerOfTwo(x: bv64) {
    x != 0 && x & (x - 1) == 0
  }

  /** Sets every bit below the highest set bit. */
  function Smeared(x: bv64): bv64 {
    var x := x | (x >> 1);
    var x := x | (x >> 2);
    var x := x | (x >> 4);
    var x := x | (x >> 8);
    var x := x | (x >> 16);
    x | (x >> 32)
  }

  function RoundUpToPowerOfTwo(x: bv64): bv64 {
    Smeared(x - 1) + 1
  }

  lemma SmearedIsMask(y: bv64)
    ensures Smeared(y) & (Smeared(y) + 1) == 0
  {
  }

  lemma SmearedIsAbove(y: bv64)
    ensures y <= Smeared(y)
  {
  }

  lemma SmearedIsClose(y: bv64)
    ensures if y == 0 then Smeared(y) == 0 else Smeared(y) >> 1 < y
  {
  }

  /** y has the bits below a power of two, and is the least such mask that is at least x. */
  predicate LeastMask(x: bv64, y: bv64) {
    y & (y + 1) == 0 && x <= y && if x == 0 then y == 0 else y >> 1 < x
  }

  lemma SmearedIsLeastMask(y: bv64)
    ensures LeastMask(y, Smeared(y))
  {
    hide Smeared;
    SmearedIsMask(y);
    SmearedIsAbove(y);
    SmearedIsClose(y);
  }

  /** The words that a power of two follows. */
  predicate HasPowerAbove(x: bv64) {
    1 <= x <= 0x8000_0000_0000_0000
  }

  /** r is a power of two that is at least x, and p is no smaller one. */
  predicate LeastPower(x: bv64, r: bv64, p: bv64) {
    IsPowerOfTwo(r) && x <= r && (IsPowerOfTwo(p) && x <= p ==> r <= p)
  }

  /** For every word that has a power of two above it, the least one; for the others the sum wraps to 0. */
  lemma RoundUpIsLeast(x: bv64, p: bv64)
    ensures HasPowerAbove(x) ==> LeastPower(x, RoundUpToPowerOfTwo(x), p)
    ensures HasPowerAbove(x) <==> RoundUpToPowerOfTwo(x) != 0
  {
    hide Smeared;
    hide LeastMask;
    hide LeastPower;
    hide HasPowerAbove;
    SmearedIsLeastMask(x - 1);
    MaskIsLeastPower(x, Smeared(x - 1), p);
  }

  lemma MaskIsLeastPower(x: bv64, y: bv64, p: bv64)
    requires LeastMask(x - 1, y)
    ensures HasPowerAbove(x) ==> LeastPower(x, y + 1, p)
    ensures HasPowerAbove(x) <==> y + 1 != 0
  {
    hide LeastMask;
    hide IsPowerOfTwo;
    hide HasPowerAbove;
    MaskIsPower(x, y);
    if HasPowerAbove(x) && IsPowerOfTwo(p) && x <= p {
      MaskIsLeast(x, y, p);
    }
  }

  lemma MaskIsPower(x: bv64, y: bv64)
    requires LeastMask(x - 1, y)
    ensures HasPowerAbove(x) <==> y + 1 != 0
    ensures HasPowerAbove(x) ==> IsPowerOfTwo(y + 1) && x <= y + 1
  {
  }

  lemma MaskIsLeast(x: bv64, y: bv64, p: bv64)
    requires LeastMask(x - 1, y) && HasPowerAbove(x) && IsPowerOfTwo(p) && x <= p
    ensures y + 1 <= p
  {
  }

  // ---------------------------------------------------------------- as numbers

  lemma HalfOfPower(p: bv64)
    requires IsPowerOfTwo(p) && p != 1
    ensures IsPowerOfTwo(Half(p)) && Bit(p) == 0 && Half(p) < p
  {
  }

  /** A power of two among words is one among numbers. */
  lemma {:induction false} PowerValue(p: bv64) returns (k: nat)
    requires IsPowerOfTwo(p)
    ensures Value(p) == Pow2(k) && (p == 1 <==> k == 0)
    decreases p
  {
    hide IsPowerOfTwo;
    hide Value;
    Halved(p);
    if p == 1 {
      NoBits();
      assert Half(1) == 0 && Bit(1) == 1;
      k := 0;
    } else {
      HalfOfPower(p);
      k := PowerValue(Half(p));
      k := k + 1;
    }
  }

  lemma TopValue()
    ensures Value(0x8000_0000_0000_0000) == 0x8000_0000_0000_0000
  {
    hide Value;
    Sevenfold(0x8000_0000_0000_0000);
    NoBits();
    Halved(1);
    assert Half(1) == 0 && Bit(1) == 1;
  }

  lemma Sevenfold(x: bv64)
    requires x == 0x8000_0000_0000_0000
    ensures Value(x) == 0x8000_0000_0000_0000 * Value(1)
  {
    hide Value;
    NoBits();
    ShiftedBy9(0x8000_0000_0000_0000);
    ShiftedBy9(0x0040_0000_0000_0000);
    ShiftedBy9(0x2000_0000_0000);
    ShiftedBy9(0x10_0000_0000);
    ShiftedBy9(0x0800_0000);
    ShiftedBy9(0x4_0000);
    ShiftedBy9(0x200);
  }

  /** The rounded word stands for the least power of two at or above the number, and half of it does not reach that. */
  lemma RoundedValue(x: bv64) returns (k: nat)
    requires HasPowerAbove(x)
    ensures Value(RoundUpToPowerOfTwo(x)) == Pow2(k) && Value(x) <= Pow2(k) && (k == 0 || Pow2(k - 1) < Value(x))
  {
    hide *;
    var r := RoundUpToPowerOfTwo(x);
    RoundedPower(x);
    k := PowerValue(r);
    ValueOrders(x, r);
    if k > 0 {
      BelowRounded(x);
      Halved(r);
      ValueOrders(Half(r), x);
      Differ(Half(r), x);
      PredecessorPower(k);
    }
  }

  lemma PredecessorPower(k: nat)
    requires k > 0
    ensures Pow2(k) == 2 * Pow2(k - 1)
  {
  }

  lemma RoundedPower(x: bv64)
    requires HasPowerAbove(x)
    ensures IsPowerOfTwo(RoundUpToPowerOfTwo(x)) && AtMost(x, RoundUpToPowerOfTwo(x))
  {
    hide HasPowerAbove;
    hide RoundUpToPowerOfTwo;
    RoundUpIsLeast(x, 1);
  }

  lemma BelowRounded(x: bv64)
    requires HasPowerAbove(x) && RoundUpToPowerOfTwo(x) != 1
    ensures var h := Half(RoundUpToPowerOfTwo(x)); AtMost(h, x) && h != x && Bit(RoundUpToPowerOfTwo(x)) == 0
  {
    hide HasPowerAbove;
    hide RoundUpToPowerOfTwo;
    hide IsPowerOfTwo;
    var r := RoundUpToPowerOfTwo(x);
    RoundedPower(x);
    HalfOfPower(r);
    RoundUpIsLeast(x, Half(r));
  }

  lemma ValueFits(x: bv64)
    ensures Value(x) < 0x1_0000_0000_0000_0000
    ensures HasPowerAbove(x) <==> 1 <= Value(x) <= 0x8000_0000_0000_0000
  {
    hide *;
    TopValue();
    SmallHalf(x);
    Halved(x);
    SmallBits(x, x);
    ValueOrders(Half(x), 0x8000_0000_0000_0000);
    Differ(Half(x), 0x8000_0000_0000_0000);
    NoBits();
    Split(x);
    if x == 0 {
    } else if AtMost(x, 0x8000_0000_0000_0000) {
      ValueOrders(x, 0x8000_0000_0000_0000);
      Positive(x);
    } else {
      ValueOrders(0x8000_0000_0000_0000, x);
      Differ(0x8000_0000_0000_0000, x);
    }
  }

  lemma SmallHalf(x: bv64)
    ensures AtMost(Half(x), 0x8000_0000_0000_0000) && Half(x) != 0x8000_0000_0000_0000
  {
  }

  lemma Split(x: bv64)
    ensures HasPowerAbove(x) <==> x != 0 && AtMost(x, 0x8000_0000_0000_0000)
    ensures AtMost(x, 0x8000_0000_0000_0000) || (AtMost(0x8000_0000_0000_0000, x) && x != 0x8000_0000_0000_0000)
  {
  }
}
