/**
 Timestamps of 64-bit signed seconds and signed nanoseconds (ptp/vtss_gptp.c). The
 nanoseconds carry the sign when the seconds are zero, so that a difference of half a second
 is zero seconds and +/- 5 * 10^8 ns.
 */
module Timestamps {
  import opened Words

  const NS_PER_SEC: int := 1_000_000_000

  function Up(x: SWord): (r: SWord) {
    Signed(Wrap(x + 1))
  }

  function Down(x: SWord): (r: SWord) {
    Signed(Wrap(x - 1))
  }

  /** Seconds and nanoseconds as numbers. */
  datatype Time = Time(seconds: int, ns: int) {
    function Value(): int {
      seconds * NS_PER_SEC + ns
    }

    /** The nanoseconds are a proper part of a second. */
    predicate Proper() {
      -NS_PER_SEC < ns < NS_PER_SEC
    }

    /** Seconds and nanoseconds are never of opposite sign. */
    predicate Agreed() {
      (seconds < 0 ==> ns <= 0) && (seconds > 0 ==> ns >= 0)
    }
  }

  /** One second moves between the fields if their signs differ. */
  function Normalised(t: Time): Time {
    if t.seconds < 0 && t.ns > 0 then Time(t.seconds + 1, t.ns - NS_PER_SEC)
    else if t.seconds > 0 && t.ns < 0 then Time(t.seconds - 1, t.ns + NS_PER_SEC)
    else t
  }

  /** One second is carried out of the nanoseconds, then the signs are made to agree. */
  function Carried(t: Time): Time {
    Normalised(CarriedOnce(t))
  }

  function CarriedOnce(t: Time): Time {
    if t.ns >= NS_PER_SEC then Time(t.seconds + 1, t.ns - NS_PER_SEC)
    else if t.ns <= -NS_PER_SEC then Time(t.seconds - 1, t.ns + NS_PER_SEC)
    else t
  }

  /** Whatever 32 bits of nanoseconds go in, the time stays the same. It comes out proper, and
      with signs that agree, exactly if the nanoseconds are less than two seconds or the sign of
      the seconds allows for a second carry. */
  lemma CarriedExactly(t: Time)
    requires -0x8000_0000 <= t.ns < 0x8000_0000
    ensures Carried(t).Value() == t.Value()
    ensures Carried(t).Proper() <==>
      -2 * NS_PER_SEC < t.ns < 2 * NS_PER_SEC || (t.seconds < -1 && t.ns > 0) || (t.seconds > 1 && t.ns < 0)
    ensures Carried(t).Agreed() <==>
      !(t.seconds < -2 && t.ns > 2 * NS_PER_SEC) && !(t.seconds > 2 && t.ns < -2 * NS_PER_SEC)
  {
    NormalisedExactly(CarriedOnce(t));
  }

  lemma NormalisedExactly(t: Time)
    requires -0x8000_0000 <= t.ns < 0x8000_0000
    ensures Normalised(t).Value() == t.Value()
    ensures Normalised(t).Proper() <==>
      t.Proper() || (t.seconds < 0 && 0 < t.ns < 2 * NS_PER_SEC) || (t.seconds > 0 && -2 * NS_PER_SEC < t.ns < 0)
    ensures Normalised(t).Agreed() <==>
      !(t.seconds < -1 && t.ns > NS_PER_SEC) && !(t.seconds > 1 && t.ns < -NS_PER_SEC)
  {
  }

  /** Nanoseconds of a second and more do come in frames and from the clock: 2.1 s of them are
      still improper after the one carry. */
  lemma ImproperInput()
    ensures Carried(Time(0, 2_100_000_000)) == Time(1, 1_100_000_000)
    ensures !Carried(Time(0, 2_100_000_000)).Proper()
  {
  }

  /** The seconds can be stepped up and down without overflow. */
  ghost predicate InRange(seconds: int) {
    -0x8000_0000_0000_0000 < seconds < 0x7FFF_FFFF_FFFF_FFFF
  }

  /** `vtss_ptp_time_t`. */
  class Timestamp {
    var secondsUpper: SWord
    var secondsLower: Word
    var nanoseconds: SWord

    constructor (upper: SWord, lower: Word, ns: SWord)
      ensures secondsUpper == upper && secondsLower == lower && nanoseconds == ns
    {
      secondsUpper, secondsLower, nanoseconds := upper, lower, ns;
    }

    ghost function Seconds(): int
      reads this
    {
      secondsUpper * WORD + secondsLower
    }

    ghost function Contents(): Time
      reads this
    {
      Time(Seconds(), nanoseconds)
    }

    /** The time in nanoseconds. */
    ghost function Value(): int
      reads this
    {
      Contents().Value()
    }

    ghost predicate Proper()
      reads this
    {
      Contents().Proper()
    }

    ghost predicate Agreed()
      reads this
    {
      Contents().Agreed()
    }

    /** `normalize_timestamp`. */
    method Normalize()
      modifies this
      ensures Contents() == Normalised(old(Contents())) && Value() == old(Value())
      ensures old(Proper()) ==> Proper() && Agreed()
    {
      NormalisedExactly(Contents());
      if secondsUpper < 0 {
        if nanoseconds > 0 {
          if secondsLower == 0xFFFF_FFFF { secondsUpper := secondsUpper + 1; }
          secondsLower := Wrap(secondsLower + 1);
          nanoseconds := nanoseconds - NS_PER_SEC;
        }
      } else if secondsUpper > 0 || secondsLower > 0 {
        if nanoseconds < 0 {
          if secondsLower == 0 { secondsUpper := secondsUpper - 1; }
          secondsLower := Wrap(secondsLower - 1);
          nanoseconds := nanoseconds + NS_PER_SEC;
        }
      }
    }

    /** The carry of a nanosecond field, as both `timestamp_sum` and `timestamp_difference`
        write it. */
    method CarryNanoseconds(ns: SWord)
      modifies this
      ensures InRange(old(Seconds())) ==> Contents() == Carried(Time(old(Seconds()), ns))
      ensures -2 * NS_PER_SEC < ns < 2 * NS_PER_SEC ==> Proper() && Agreed()
    {
      CarryOnce(ns);
      Normalize();
    }

    method CarryOnce(ns: SWord)
      modifies this
      ensures InRange(old(Seconds())) ==> Contents() == CarriedOnce(Time(old(Seconds()), ns))
      ensures nanoseconds == CarriedOnce(Time(0, ns)).ns
    {
      nanoseconds := ns;
      StepExact(secondsUpper, secondsLower);
      if nanoseconds >= NS_PER_SEC {
        if secondsLower == 0xFFFF_FFFF { secondsUpper := Up(secondsUpper); }
        secondsLower := Wrap(secondsLower + 1);
        nanoseconds := nanoseconds - NS_PER_SEC;
      } else if nanoseconds <= -NS_PER_SEC {
        if secondsLower == 0 { secondsUpper := Down(secondsUpper); }
        secondsLower := Wrap(secondsLower - 1);
        nanoseconds := nanoseconds + NS_PER_SEC;
      }
    }

    method AddSeconds(addend: Timestamp, augend: Timestamp)
      requires this != addend && this != augend
      modifies this
      ensures InRange(addend.Seconds() + augend.Seconds()) ==> Seconds() == addend.Seconds() + augend.Seconds()
    {
      secondsUpper := Signed(Wrap(addend.secondsUpper + augend.secondsUpper));
      secondsLower := Wrap(addend.secondsLower + augend.secondsLower);
      if secondsLower < addend.secondsLower { secondsUpper := Up(secondsUpper); }
      WrapOnce(addend.secondsLower + augend.secondsLower);
      UpperExact(addend.secondsUpper + augend.secondsUpper, if secondsLower < addend.secondsLower then 1 else 0,
                 secondsUpper);
    }

    method SubtractSeconds(minuend: Timestamp, subtrahend: Timestamp)
      requires this != minuend && this != subtrahend
      modifies this
      ensures InRange(minuend.Seconds() - subtrahend.Seconds()) ==>
        Seconds() == minuend.Seconds() - subtrahend.Seconds()
    {
      secondsUpper := Signed(Wrap(minuend.secondsUpper - subtrahend.secondsUpper));
      secondsLower := Wrap(minuend.secondsLower - subtrahend.secondsLower);
      if subtrahend.secondsLower > minuend.secondsLower { secondsUpper := Down(secondsUpper); }
      WrapOnce(minuend.secondsLower - subtrahend.secondsLower);
      UpperExact(minuend.secondsUpper - subtrahend.secondsUpper,
                 if subtrahend.secondsLower > minuend.secondsLower then -1 else 0, secondsUpper);
    }

    /** `timestamp_sum`: exact, as long as the seconds neither overflow nor sit at the very ends
        of their range, if and only if the sum of the nanoseconds fits 32 bits; normalised
        whenever that sum is less than two seconds. */
    static method Sum(addend: Timestamp, augend: Timestamp, sum: Timestamp)
      requires sum != addend && sum != augend
      modifies sum
      ensures InRange(addend.Seconds() + augend.Seconds()) ==>
        && sum.Contents() == Carried(
             Time(addend.Seconds() + augend.Seconds(), Signed(Wrap(addend.nanoseconds + augend.nanoseconds))))
        && (sum.Value() == addend.Value() + augend.Value() <==> Fits(addend.nanoseconds + augend.nanoseconds))
      ensures -2 * NS_PER_SEC < addend.nanoseconds + augend.nanoseconds < 2 * NS_PER_SEC ==>
        sum.Proper() && sum.Agreed()
    {
      ghost var a, b := addend.Contents(), augend.Contents();
      SumExactly(a, b);
      sum.AddSeconds(addend, augend);
      sum.CarryNanoseconds(Signed(Wrap(addend.nanoseconds + augend.nanoseconds)));
      assert addend.Contents() == a && augend.Contents() == b;
    }

    /** `timestamp_difference`: the same for the difference. */
    static method Difference(minuend: Timestamp, subtrahend: Timestamp, difference: Timestamp)
      requires difference != minuend && difference != subtrahend
      modifies difference
      ensures InRange(minuend.Seconds() - subtrahend.Seconds()) ==>
        && difference.Contents() == Carried(
             Time(minuend.Seconds() - subtrahend.Seconds(), Signed(Wrap(minuend.nanoseconds - subtrahend.nanoseconds))))
        && (difference.Value() == minuend.Value() - subtrahend.Value() <==>
              Fits(minuend.nanoseconds - subtrahend.nanoseconds))
      ensures Close(minuend, subtrahend) ==> difference.Proper() && difference.Agreed()
    {
      ghost var a, b := minuend.Contents(), subtrahend.Contents();
      DifferenceExactly(a, b);
      difference.SubtractSeconds(minuend, subtrahend);
      difference.CarryNanoseconds(Signed(Wrap(minuend.nanoseconds - subtrahend.nanoseconds)));
      assert minuend.Contents() == a && subtrahend.Contents() == b;
    }

    /** `timestamp_abs`: the absolute value of a normalised time. */
    static method AbsoluteValue(operand: Timestamp, result: Timestamp)
      requires operand.Proper() && operand.Agreed()
      requires operand.Seconds() != -0x8000_0000_0000_0000
      modifies result
      ensures result.Proper() && result.Agreed()
      ensures result.Value() == if old(operand.Value()) < 0 then 0 - old(operand.Value()) else old(operand.Value())
    {
      result.secondsUpper := operand.secondsUpper;
      result.secondsLower := operand.secondsLower;
      result.nanoseconds := operand.nanoseconds;
      if result.secondsUpper < 0 {
        result.secondsUpper := 0 - result.secondsUpper - 1;
        result.secondsLower := 0xFFFF_FFFF - result.secondsLower;
        assert result.Seconds() == -1 - old(operand.Seconds());
        StepExact(result.secondsUpper, result.secondsLower);
        if result.secondsLower == 0xFFFF_FFFF { result.secondsUpper := Up(result.secondsUpper); }
        result.secondsLower := Wrap(result.secondsLower + 1);
      }
      if result.nanoseconds < 0 {
        result.nanoseconds := 0 - result.nanoseconds;
      }
    }
  }

  /** A number fits the 32 bits of the nanosecond field. */
  ghost predicate Fits(ns: int) {
    -0x8000_0000 <= ns < 0x8000_0000
  }

  /** The nanoseconds of two times differ by less than two seconds; of proper times they
      always do. */
  ghost predicate Close(a: Timestamp, b: Timestamp)
    reads a, b
  {
    -2 * NS_PER_SEC < a.nanoseconds - b.nanoseconds < 2 * NS_PER_SEC
  }

  /** A raw sum or difference of nanoseconds, cut to 32 bits and carried: exact if and only if
      it fits, and within two seconds it does. */
  lemma NanosecondsCarried(seconds: int, raw: int)
    requires -WORD <= raw < WORD
    ensures Carried(Time(seconds, Signed(Wrap(raw)))).Value() == seconds * NS_PER_SEC + raw <==> Fits(raw)
    ensures -2 * NS_PER_SEC < raw < 2 * NS_PER_SEC ==> Signed(Wrap(raw)) == raw
  {
    WrapOnce(raw);
    CarriedExactly(Time(seconds, Signed(Wrap(raw))));
  }

  lemma SumExactly(a: Time, b: Time)
    requires -WORD <= a.ns + b.ns < WORD
    ensures Carried(Time(a.seconds + b.seconds, Signed(Wrap(a.ns + b.ns)))).Value() == a.Value() + b.Value() <==>
      Fits(a.ns + b.ns)
    ensures -2 * NS_PER_SEC < a.ns + b.ns < 2 * NS_PER_SEC ==> Signed(Wrap(a.ns + b.ns)) == a.ns + b.ns
  {
    NanosecondsCarried(a.seconds + b.seconds, a.ns + b.ns);
  }

  lemma DifferenceExactly(a: Time, b: Time)
    requires -WORD <= a.ns - b.ns < WORD
    ensures Carried(Time(a.seconds - b.seconds, Signed(Wrap(a.ns - b.ns)))).Value() == a.Value() - b.Value() <==>
      Fits(a.ns - b.ns)
    ensures -2 * NS_PER_SEC < a.ns - b.ns < 2 * NS_PER_SEC ==> Signed(Wrap(a.ns - b.ns)) == a.ns - b.ns
  {
    NanosecondsCarried(a.seconds - b.seconds, a.ns - b.ns);
  }

  /** Stepping the seconds by one is exact except at the ends of their range. */
  lemma StepExact(upper: SWord, lower: Word)
    ensures upper * WORD + lower < 0x7FFF_FFFF_FFFF_FFFF ==>
      (if lower == 0xFFFF_FFFF then Up(upper) else upper) * WORD + Wrap(lower + 1) == upper * WORD + lower + 1
    ensures -0x8000_0000_0000_0000 < upper * WORD + lower ==>
      (if lower == 0 then Down(upper) else upper) * WORD + Wrap(lower - 1) == upper * WORD + lower - 1
  {
    WrapOnce(lower + 1);
    WrapOnce(lower - 1);
    WrapOnce(upper + 1);
    WrapOnce(upper - 1);
  }

  /** Two wrap-arounds, of the raw upper word and of its carry, are one. */
  lemma UpperExact(raw: int, carry: int, upper: SWord)
    requires -WORD <= raw < WORD && -1 <= carry <= 1
    requires upper == Signed(Wrap(Signed(Wrap(raw)) + carry)) || (carry == 0 && upper == Signed(Wrap(raw)))
    ensures -0x8000_0000 <= raw + carry < 0x8000_0000 ==> upper == raw + carry
  {
    WrapOnce(raw);
    WrapOnce(Signed(Wrap(raw)) + carry);
  }
}
