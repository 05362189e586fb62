/** The number that the bits of a 64-bit word stand for: shifts divide it, masks take its remainder. */
module WordBits {

  function Bit(x: bv64): nat {
    if x & 1 == 1 then 1 else 0
  }

  function Half(x: bv64): bv64 {
    x >> 1
  }

  function Value(x: bv64): nat
    decreases x
  {
    if x == 0 then 0 else 2 * Value(Half(x)) + Bit(x)
  }

  lemma Halved(x: bv64)
    ensures Value(x) == 2 * Value(Half(x)) + Bit(x)
  {
    if x == 0 {
      assert Half(x) == 0 && Bit(x) == 0;
    }
  }

  lemma {:induction false} Positive(x: bv64)
    requires x != 0
    ensures 0 < Value(x)
    decreases x
  {
    if Half(x) != 0 {
      Positive(Half(x));
    } else {
      assert x == 1;
    }
  }

  lemma SameHalves(x: bv64, y: bv64)
    requires Half(x) == Half(y) && Bit(x) == Bit(y)
    ensures x == y
  {
    assert x & 1 == y & 1;
  }

  /** Different words have different values. */
  lemma {:induction false} SameValue(x: bv64, y: bv64)
    requires Value(x) == Value(y)
    ensures x == y
    decreases Value(x)
  {
    hide *;
    NoBits();
    if x != 0 && y != 0 {
      Positive(x);
      Halves(x, y);
      SameValue(Half(x), Half(y));
      SameHalves(x, y);
    } else {
      if x != 0 { Positive(x); }
      if y != 0 { Positive(y); }
    }
  }

  lemma Halves(x: bv64, y: bv64)
    requires Value(x) == Value(y)
    ensures Value(Half(x)) == Value(Half(y)) && Bit(x) == Bit(y)
    ensures 0 < Value(x) ==> Value(Half(x)) < Value(x)
  {
    hide Value;
    hide Half;
    Halved(x);
    Halved(y);
  }

  predicate AtMost(x: bv64, y: bv64) {
    x <= y
  }

  /** The value orders words as machines do. */
  lemma {:induction false} ValueOrders(x: bv64, y: bv64)
    requires AtMost(x, y)
    ensures Value(x) <= Value(y)
    decreases Value(x)
  {
    hide *;
    NoBits();
    if x != 0 {
      HalvesOrdered(x, y);
      Halved(x);
      Halved(y);
      SmallBits(x, y);
      if Half(x) != Half(y) {
        Differ(Half(x), Half(y));
        ValueOrders(Half(x), Half(y));
      }
    }
  }

  lemma SmallBits(x: bv64, y: bv64)
    ensures Bit(x) <= 1 && Bit(y) <= 1 && (x != 0 ==> Value(Half(x)) < Value(x))
  {
    hide Value;
    hide Half;
    Halved(x);
    if x != 0 {
      Positive(x);
    }
  }

  lemma Differ(x: bv64, y: bv64)
    requires x != y
    ensures Value(x) != Value(y)
  {
    if Value(x) == Value(y) {
      SameValue(x, y);
    }
  }

  lemma HalvesOrdered(x: bv64, y: bv64)
    requires AtMost(x, y)
    ensures AtMost(Half(x), Half(y)) && (Half(x) == Half(y) ==> Bit(x) <= Bit(y))
  {
  }

  // ---------------------------------------------------------------- three bits at a time

  function Eighth(x: bv64): bv64 {
    x >> 3
  }

  function Low3(x: bv64): bv64 {
    x & 7
  }

  function Low9(x: bv64): bv64 {
    x & 0x1FF
  }

  function High9(x: bv64): bv64 {
    x >> 9
  }

  lemma ThreeHalves(x: bv64)
    ensures Eighth(x) == Half(Half(Half(x)))
    ensures var y := Low3(x);
            && Half(Half(Half(y))) == 0
            && Bit(y) == Bit(x) && Bit(Half(y)) == Bit(Half(x)) && Bit(Half(Half(y))) == Bit(Half(Half(x)))
  {
  }

  lemma ThreeEighths(x: bv64)
    ensures High9(x) == Eighth(Eighth(Eighth(x)))
    ensures var y := Low9(x);
            && Eighth(Eighth(Eighth(y))) == 0
            && Low3(y) == Low3(x) && Low3(Eighth(y)) == Low3(Eighth(x)) && Low3(Eighth(Eighth(y))) == Low3(Eighth(Eighth(x)))
  {
  }

  lemma NoBits()
    ensures Value(0) == 0
  {
  }

  lemma ShiftedBy3(x: bv64)
    ensures Value(x) == 8 * Value(Eighth(x)) + Value(Low3(x)) && Value(Low3(x)) < 8
  {
    hide *;
    var y := Low3(x);
    ThreeHalves(x);
    EightTimes(x);
    EightTimes(y);
    NoBits();
  }

  lemma EightTimes(x: bv64)
    ensures Value(x) == 8 * Value(Half(Half(Half(x)))) + 4 * Bit(Half(Half(x))) + 2 * Bit(Half(x)) + Bit(x)
    ensures Bit(x) <= 1 && Bit(Half(x)) <= 1 && Bit(Half(Half(x))) <= 1
  {
    hide Value;
    hide Half;
    Halved(x);
    Halved(Half(x));
    Halved(Half(Half(x)));
  }

  lemma ShiftedBy9(x: bv64)
    ensures Value(x) == 512 * Value(High9(x)) + Value(Low9(x)) && Value(Low9(x)) < 512
  {
    hide *;
    var y := Low9(x);
    ThreeEighths(x);
    ShiftedBy3(x);
    ShiftedBy3(Eighth(x));
    ShiftedBy3(Eighth(Eighth(x)));
    ShiftedBy3(y);
    ShiftedBy3(Eighth(y));
    ShiftedBy3(Eighth(Eighth(y)));
    NoBits();
  }

  /** Nine bits are a digit in base 512. */
  lemma Digit(x: bv64)
    ensures Value(Low9(x)) == Value(x) % 512 && Value(High9(x)) == Value(x) / 512
  {
    hide *;
    ShiftedBy9(x);
  }

  function High12(x: bv64): bv64 {
    x >> 12
  }

  lemma NineAndThree(x: bv64)
    ensures High12(x) == Eighth(High9(x))
  {
  }

  lemma ShiftedBy12(x: bv64)
    ensures Value(High12(x)) == Value(x) / 4096
  {
    hide *;
    NineAndThree(x);
    ShiftedBy9(x);
    ShiftedBy3(High9(x));
  }
}
