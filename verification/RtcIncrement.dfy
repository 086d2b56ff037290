/**
 The increment of the real-time clock (ptp/vtss_gptp.c): the adjusted and the nominal increment
 are assembled from an integer and a 27-bit fraction, and their ratio is kept as a 1.31
 fixed-point number.
 */
module RtcIncrement {
  import opened Words
  import opened Int64
  import opened Division

  datatype Increment = Increment(mantissa: Word, fraction: Word)

  /** `Uint64Or`. */
  function Uint64Or(a: U64, b: U64): U64 {
    U64(Or32(a.hi, b.hi), Or32(a.lo, b.lo))
  }

  /** The increment as one number. */
  function Assembled(i: Increment): U64 {
    Uint64Or(Uint64LShift(U64(0, i.mantissa), 27), U64(0, i.fraction))
  }

  /** An increment in units of 2^-27 nanoseconds. */
  ghost function Units(i: Increment): nat {
    i.mantissa * 0x800_0000 + i.fraction
  }

  /** The ratio of two increments in 1.31, rounded down; of the adjusted one only 32 bits count. */
  ghost function Ratio(adjusted: nat, nominal: nat): nat
    requires nominal != 0
  {
    adjusted % WORD * 0x8000_0000 / nominal
  }

  /** What is assembled, when the fraction has its 27 bits. */
  lemma AssembledValue(i: Increment)
    requires i.fraction < Pow2(27)
    ensures Val(Assembled(i)) == Units(i)
  {
    var m := Uint64LShift(U64(0, i.mantissa), 27);
    Uint64LShiftValue(U64(0, i.mantissa), 27);
    Powers();
    ModSmall(i.mantissa * Pow2(27));
    var k := Shl(i.mantissa, 27);
    assert m.lo == k && m.hi == Or32(Shl(0, 27), Shr(i.mantissa, 5));
    LowBits(i.mantissa);
    OrDisjoint(k, i.fraction, 27);
    assert Or(m.hi, 0) == m.hi;
  }

  lemma Powers()
    ensures Pow2(27) == 0x800_0000 && Pow2(32) == WORD && Pow2(5) == 32 && Pow2(1) == 2
  {
    assert Pow2(5) == 32 && Pow2(9) == 512;
    Pow2Add(9, 9);
    Pow2Add(18, 9);
    Pow2Add(27, 5);
  }

  /** The shifted mantissa leaves the low 27 bits to the fraction. */
  lemma LowBits(m: Word)
    ensures Shl(m, 27) % Pow2(27) == 0
    ensures Shl(m, 27) + Pow2(27) <= WORD
  {
    Powers();
    var d := Pow2(27);
    FloorMod(m * d, WORD);
    var q := m * d / WORD;
    assert Shl(m, 27) == (m - q * 32) * d;
    MultipleMod(m - q * 32, d);
  }

  /** Halving the quotient of a number shifted by 32 is dividing it shifted by 31. */
  lemma HalvedQuotient(a: nat, n: nat)
    requires 0 < n
    ensures a * WORD / n / 2 == a * 0x8000_0000 / n
  {
    var x := a * 0x8000_0000;
    FloorMod(x, n);
    var q, r := x / n, x % n;
    assert a * WORD == 2 * x;
    if 2 * r < n {
      assert 2 * x == (2 * q) * n + 2 * r;
      DivUnique(2 * x, n, 2 * q, 2 * r);
    } else {
      assert 2 * x == (2 * q + 1) * n + (2 * r - n);
      DivUnique(2 * x, n, 2 * q + 1, 2 * r - n);
    }
  }

  /** The clock variables that `set_rtc_increment` writes. */
  class RtcClock {
    var nominal: Increment
    var current: Increment
    var rtcAdj: U64
    var rtcNominal: U64
    var rtcFraction: U64

    constructor (nominal: Increment)
      ensures this.nominal == nominal && current == nominal
    {
      this.nominal, current, rtcAdj, rtcNominal, rtcFraction := nominal, nominal, ZERO, ZERO, ZERO;
    }

    /** `set_rtc_increment`: the kept fraction is the ratio of the two increments in 1.31,
        rounded down and 1.0 for the nominal one, as long as the integer part of the adjusted
        one is below 32; from there
        on its high bits are shifted out. */
    method SetRtcIncrement(increment: Increment)
      requires increment.fraction < Pow2(27) && nominal.fraction < Pow2(27)
      modifies this`current, this`rtcAdj, this`rtcNominal, this`rtcFraction
      ensures current == increment && Val(rtcNominal) == Units(nominal)
      ensures Units(nominal) != 0 ==> Val(rtcFraction) == Ratio(Units(increment), Units(nominal))
      ensures increment == nominal && increment.mantissa < 32 && Units(nominal) != 0 ==> Val(rtcFraction) == 0x8000_0000
    {
      current := increment;
      rtcAdj := JoinParts(increment);
      rtcNominal := JoinParts(nominal);
      rtcAdj := ShiftUp(rtcAdj);
      rtcFraction := HalfQuotient(rtcAdj, rtcNominal, Units(increment));
      if Units(nominal) != 0 && increment == nominal && increment.mantissa < 32 {
        NothingLost(increment);
        NominalIsOne(Units(nominal));
      }
    }
  }

  method JoinParts(i: Increment) returns (x: U64)
    requires i.fraction < Pow2(27)
    ensures Val(x) == Units(i)
  {
    x := Assembled(i);
    AssembledValue(i);
  }

  /** A left shift by 32 loses the high word. */
  method ShiftUp(x: U64) returns (y: U64)
    ensures Val(y) == Val(x) % WORD * WORD
  {
    y := Uint64LShift(x, 32);
    Powers();
    Uint64LShiftValue(x, 32);
    ShiftedOut(Val(x));
  }

  /** The shift loses nothing exactly if the integer part is below 32. */
  lemma NothingLost(i: Increment)
    requires i.fraction < Pow2(27)
    ensures Units(i) % WORD == Units(i) <==> i.mantissa < 32
  {
    Powers();
    ModSmallExactly(Units(i));
  }

  /** The 1.32 quotient without its last bit. */
  method HalfQuotient(x: U64, y: U64, ghost adjusted: nat) returns (half: U64)
    requires Val(x) == adjusted % WORD * WORD
    ensures Val(y) != 0 ==> Val(half) == Ratio(adjusted, Val(y))
  {
    var q, r := Uint64DivMod(x, y);
    half := Uint64RShift(q, 1);
    Uint64RShiftValue(q, 1);
    Powers();
    if Val(y) != 0 {
      DivUnique(Val(x), Val(y), Val(q), Val(r));
      HalvedQuotient(adjusted % WORD, Val(y));
    }
  }

  lemma ShiftedOut(x: nat)
    ensures x * WORD % DWORD == x % WORD * WORD
  {
    FloorMod(x, WORD);
    assert x * WORD == x / WORD * DWORD + x % WORD * WORD;
    DivUnique(x * WORD, DWORD, x / WORD, x % WORD * WORD);
  }

  lemma ModSmallExactly(x: nat)
    ensures x < WORD <==> x % WORD == x
  {
    FloorMod(x, WORD);
  }

  /** The nominal increment itself is the ratio 1.0. */
  lemma NominalIsOne(n: nat)
    requires 0 < n < WORD
    ensures Ratio(n, n) == 0x8000_0000
  {
    ModSmallExactly(n);
    DivUnique(n * 0x8000_0000, n, 0x8000_0000, 0);
  }
}
