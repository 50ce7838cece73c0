/** 32-bit words as numbers. */
module Words {

  function Value(h: bv32): (v: nat)
  {
    h as int
  }

  /** The word shifted left by one, with a new lowest bit. */
  function Double(h: bv32, bit: bv32): bv32
  {
    (h << 1) | bit
  }

  function Half(h: bv32): bv32
  {
    h >> 1
  }

  function Bit(h: bv32): bv32
  {
    h & 1
  }

  function And(x: bv32, y: bv32): bv32
  {
    x & y
  }

  predicate AtLeast(x: bv32, y: bv32)
  {
    x >= y
  }

  lemma ShiftValue(x: bv32, y: bv32)
    ensures (((x >> 1) << 1) | (y & 1)) as int == 2 * ((x >> 1) as int) + (y & 1) as int
  {
  }

  lemma Halves(h: bv32)
    ensures Bit(h) <= 1 && ((h >> 1) << 1) | (h & 1) == h
  {
  }

  lemma HalfIs(h: bv32)
    ensures Half(h) == h >> 1 && Bit(h) == h & 1
  {
  }

  lemma BitValue(bit: bv32)
    requires bit <= 1
    ensures Value(bit) == if bit == 1 then 1 else 0
  {
    assert bit == 0 || bit == 1;
  }

  lemma HalfValue(h: bv32)
    ensures Value(h) == 2 * Value(Half(h)) + Value(Bit(h)) && Value(Bit(h)) == if Bit(h) == 1 then 1 else 0
  {
    hide Value, Half, Bit;
    Halves(h);
    HalfIs(h);
    ShiftValue(h, h);
    ValueIs(h);
    ValueIs(h >> 1);
    ValueIs(h & 1);
    BitValue(Bit(h));
  }

  lemma ValueFits(h: bv32)
    ensures Value(h) < 0x1_0000_0000 && (h == 0 <==> Value(h) == 0)
  {
  }

  lemma ValueIs(h: bv32)
    ensures Value(h) == h as int
  {
  }

  lemma HasBit(h: bv32)
    ensures Bit(h) == 0 || Bit(h) == 1
  {
  }

  lemma SameValue(x: bv32, y: bv32)
    requires Value(x) == Value(y)
    ensures x == y
  {
    assert (x as int) as bv32 == x;
    assert (y as int) as bv32 == y;
  }

  lemma ShiftOrder(x: bv32, y: bv32)
    requires x >= y
    ensures (x >> 1) >= (y >> 1)
  {
  }

  lemma HalfOrder(x: bv32, y: bv32)
    requires AtLeast(x, y)
    ensures AtLeast(Half(x), Half(y))
  {
    ShiftOrder(x, y);
  }

  lemma BitOrder(x: bv32, y: bv32)
    requires AtLeast(x, y) && Half(x) == Half(y)
    ensures Bit(x) == 1 || Bit(y) == 0
  {
  }

  lemma {:induction false} Larger(x: bv32, y: bv32)
    requires AtLeast(x, y)
    ensures Value(x) >= Value(y)
    decreases Value(y)
  {
    hide Value, Half, Bit, AtLeast;
    ValueFits(y);
    HalfOrder(x, y);
    HalfValue(x);
    HalfValue(y);
    if y != 0 {
      Larger(Half(x), Half(y));
      if Value(Half(x)) == Value(Half(y)) {
        SameValue(Half(x), Half(y));
        BitOrder(x, y);
        HasBit(x);
      }
    }
  }

  lemma Swapped(x: bv32, y: bv32)
    requires !AtLeast(x, y)
    ensures AtLeast(y, x) && x != y
  {
  }

  /** Words are ordered as their values are. */
  lemma Order(x: bv32, y: bv32)
    ensures AtLeast(x, y) <==> Value(x) >= Value(y)
  {
    hide Value, AtLeast;
    if AtLeast(x, y) {
      Larger(x, y);
    } else {
      Swapped(x, y);
      Larger(y, x);
      if Value(x) == Value(y) { SameValue(x, y); }
    }
  }

  lemma AndDouble(h: bv32, m: bv32)
    ensures Half(And(h, Double(m, 1))) == And(Half(h), m) && Bit(And(h, Double(m, 1))) == Bit(h)
  {
  }

  lemma AndNone(h: bv32)
    ensures And(h, 0) == 0 && Value(0) == 0
  {
  }

  lemma SecondBit(m: bv32)
    requires Bit(m) == 1 && Bit(Half(m)) == 1
    ensures Bit(m - 2) == 1 && Bit(Half(m - 2)) == 0 && Half(Half(m - 2)) == Half(Half(m))
  {
  }

  /** Clearing the second of the lowest bits subtracts two. */
  lemma LessTwo(m: bv32)
    requires Value(m) % 4 == 3
    ensures Value(m - 2) == Value(m) - 2
  {
    hide Value, Half, Bit;
    HalfValue(m);
    HalfValue(Half(m));
    SecondBit(m);
    HalfValue(m - 2);
    HalfValue(Half(m - 2));
  }

  function AllOnes(): bv32
  {
    0xFFFF_FFFF
  }

  lemma AndAll(m: bv32)
    ensures And(AllOnes(), m) == m && Value(AllOnes()) == 0xFFFF_FFFF
  {
  }
}
