/**
 The fixed-point measurements of the peer delay mechanism (ptp/gptpstatmch.c): the rate
 ratio of the neighbour's clock to ours in 1.31 format, and the propagation delay.
 */
module PdelayMeasurement {
  import opened Words
  import opened Int64
  import opened Timestamps
  import Division

  /** The fixed-point 1.0. */
  const ONE: Word := 0x8000_0000

  /** A difference of timestamps in nanoseconds: seconds times 10^9 plus the nanoseconds,
      the latter cast to unsigned. */
  function Nanoseconds(secondsLower: Word, nanoseconds: SWord): U64 {
    Uint64AddUint32(Uint64TimesUint32(U64(0, secondsLower), BILLION), Wrap(nanoseconds))
  }

  /** The conversion is exact below 2^31 s, but for nanoseconds below zero, which read as 2^32
      too many: a difference between -1 s and 0 has no negative seconds. */
  lemma NanosecondsExact(sec: Word, ns: SWord)
    requires sec < 0x8000_0000
    ensures Val(Nanoseconds(sec, ns)) == sec * NS_PER_SEC + ns + (if ns < 0 then WORD else 0)
  {
    SecondsExact(sec);
    WrapOnce(ns);
    NanosecondsAdded(Uint64TimesUint32(U64(0, sec), BILLION), Wrap(ns), sec);
  }

  lemma NanosecondsAdded(seconds: U64, ns: Word, sec: Word)
    requires Val(seconds) == sec * NS_PER_SEC && sec < 0x8000_0000
    ensures Val(Uint64AddUint32(seconds, ns)) == sec * NS_PER_SEC + ns
  {
    ModSmall(sec * NS_PER_SEC + ns);
  }

  // ----- the rate ratio

  /** Facts about `shift`, the number of leading zeros of the responder's high word, capped
      at 31: what the shift loop establishes and the division needs. */
  ghost predicate Normalises(hi: Word, shift: nat) {
    shift <= 31 && hi < Pow2(32 - shift) && (shift < 31 ==> Pow2(31 - shift) <= hi)
  }

  /** The scan for the leading one of the responder interval. */
  method LeadingZeros(hi: Word) returns (shift: nat)
    ensures Normalises(hi, shift)
  {
    Pow2Word();
    shift := 0;
    while shift < 31
      invariant shift <= 31 && hi < Pow2(32 - shift)
    {
      HighBit(hi, 31 - shift);
      if hi / Pow2(31 - shift) % 2 == 1 { return; }
      shift := shift + 1;
    }
  }

  lemma HighBit(hi: Word, k: nat)
    requires hi < Pow2(k + 1)
    ensures hi / Pow2(k) % 2 == 1 <==> Pow2(k) <= hi
  {
    if Pow2(k) <= hi {
      DivUnique(hi, Pow2(k), 1, hi - Pow2(k));
    } else {
      DivUnique(hi, Pow2(k), 0, hi);
    }
  }

  /** The quotient the code forms: the responder interval shifted left over the requester
      interval shifted right. */
  function RatioQuotient(responder: nat, requester: nat, shift: nat): int
    requires shift <= 31 && requester / Pow2(31 - shift) != 0
  {
    responder * Pow2(shift) / (requester / Pow2(31 - shift))
  }

  /** The ratio to 31 fractional bits, rounded down. */
  function IdealRatio(responder: nat, requester: nat): int
    requires requester != 0
  {
    responder * 0x8000_0000 / requester
  }

  lemma Scaling(responder: nat, shift: nat)
    requires responder < DWORD && Normalises(responder / WORD, shift)
    ensures Pow2(shift) * Pow2(31 - shift) == 0x8000_0000
    ensures responder * Pow2(shift) < DWORD
    ensures shift < 31 ==> Pow2(31 - shift) * WORD <= responder
  {
    Pow2Word();
    Pow2Add(shift, 31 - shift);
    Pow2Add(32 - shift, shift);
    FloorMod(responder, WORD);
    ScaledBound(responder, Pow2(32 - shift), Pow2(shift));
  }

  lemma ScaledBound(x: int, c: int, p: int)
    requires 0 < p && 0 < c && c * p == WORD && x < c * WORD
    ensures x * p < DWORD
  {
    MulLess(x, c * WORD, p);
    assert c * WORD * p == c * p * WORD;
  }

  /** The requester interval does not vanish when shifted, and keeps 31 bits if it loses any,
      when the responder's interval is at most twice as long. */
  lemma RequesterBits(responder: nat, requester: nat, shift: nat)
    requires responder < DWORD && Normalises(responder / WORD, shift)
    requires 0 < requester && responder <= 2 * requester
    ensures 0 < requester / Pow2(31 - shift)
    ensures shift < 31 ==> 0x8000_0000 <= requester / Pow2(31 - shift)
  {
    Scaling(responder, shift);
    if shift < 31 {
      DivAtLeast(requester, Pow2(31 - shift), 0x8000_0000);
    } else {
      assert Pow2(0) == 1;
    }
  }

  lemma IdealFacts(responder: nat, requester: nat, p: int, k: int)
    requires 0 < requester && p * k == 0x8000_0000
    ensures var t := IdealRatio(responder, requester);
      && 0 <= t && t * requester <= responder * p * k < t * requester + requester
    ensures responder <= 2 * requester ==> IdealRatio(responder, requester) <= WORD
  {
    FloorMod(responder * 0x8000_0000, requester);
    Reassociate(responder, p, k);
    DivAtLeast(responder * 0x8000_0000, requester, 0);
    if responder <= 2 * requester {
      DivBelow(responder * 0x8000_0000, requester, WORD + 1);
    }
  }

  /** The quotient is never below the ideal ratio. */
  lemma RatioLower(responder: nat, requester: nat, p: int, k: int)
    requires 0 < p && 0 < k && p * k == 0x8000_0000 && 0 < requester / k
    ensures IdealRatio(responder, requester) <= responder * p / (requester / k)
  {
    var t, q := IdealRatio(responder, requester), requester / k;
    FloorMod(requester, k);
    MulLess(0, q, k);
    IdealFacts(responder, requester, p, k);
    MulMono(q * k, requester, t);
    assert q * k * t == t * q * k;
    CancelLe(t * q, responder * p, k);
    DivAtLeast(responder * p, q, t);
  }

  /** Rounding the requester interval costs less than two units when it keeps 31 bits. */
  lemma RatioUpper(responder: nat, requester: nat, p: int, k: int)
    requires 0 < p && 0 < k <= 0x8000_0000 && p * k == 0x8000_0000
    requires 0x8000_0000 <= requester / k && responder <= 2 * requester
    ensures responder * p / (requester / k) <= IdealRatio(responder, requester) + 2
  {
    var t, q, rho := IdealRatio(responder, requester), requester / k, requester % k;
    FloorMod(requester, k);
    MulMono(1, q, k);
    IdealFacts(responder, requester, p, k);
    RoundingLoss(t, q, k, rho);
    CancelLess(responder * p, (t + 3) * q, k);
    DivBelow(responder * p, q, t + 3);
  }

  lemma RoundingLoss(t: int, q: int, k: int, rho: int)
    requires 0 <= t <= WORD && 0x8000_0000 <= q && 0 <= rho < k <= 0x8000_0000
    ensures t * (q * k + rho) + (q * k + rho) <= (t + 3) * q * k
  {
    MulMono(t + 1, WORD + 1, rho);
    MulMono(0x8000_0000, q, k);
    var qk := q * k;
    assert (t + 3) * q * k == (t + 3) * qk by { Reassociate(t + 3, q, k); }
    assert t * (qk + rho) + (qk + rho) == (t + 1) * qk + (t + 1) * rho;
    assert (t + 3) * qk == (t + 1) * qk + 2 * qk;
  }

  /** The accuracy of the rate ratio: within two units of the last of its 31 fractional bits,
      never below, and exact for equal intervals. */
  lemma RatioAccurate(responder: nat, requester: nat, shift: nat)
    requires responder < DWORD && Normalises(responder / WORD, shift)
    requires 0 < requester && responder <= 2 * requester
    ensures 0 < requester / Pow2(31 - shift)
    ensures IdealRatio(responder, requester) <= RatioQuotient(responder, requester, shift)
         <= IdealRatio(responder, requester) + 2
    ensures responder == requester ==> RatioQuotient(responder, requester, shift) == ONE
  {
    RequesterBits(responder, requester, shift);
    Scaling(responder, shift);
    Pow2Word();
    Pow2Monotonic(31 - shift, 31);
    assert shift == 31 ==> Pow2(31 - shift) == 1;
    RatioWithin(responder, requester, Pow2(shift), Pow2(31 - shift));
  }

  lemma RatioWithin(responder: nat, requester: nat, p: int, k: int)
    requires 0 < p && 0 < k <= 0x8000_0000 && p * k == 0x8000_0000
    requires 0 < requester / k && (k == 1 || 0x8000_0000 <= requester / k) && responder <= 2 * requester
    ensures IdealRatio(responder, requester) <= responder * p / (requester / k) <= IdealRatio(responder, requester) + 2
    ensures responder == requester ==> responder * p / (requester / k) == ONE
  {
    RatioLower(responder, requester, p, k);
    if k == 1 {
      assert requester / 1 == requester;
    } else {
      RatioUpper(responder, requester, p, k);
    }
    if responder == requester {
      RatioOfEqual(requester, p, k);
    }
  }

  lemma RatioOfEqual(requester: nat, p: int, k: int)
    requires 0 < p && 0 < k && p * k == 0x8000_0000
    requires 0 < requester / k && (k == 1 || 0x8000_0000 <= requester / k)
    ensures requester * p / (requester / k) == 0x8000_0000
  {
    var q, rho := requester / k, requester % k;
    FloorMod(requester, k);
    Distribute(q, k, rho, p);
    assert k * p == p * k;
    MulPos(rho, p);
    MulLess(rho, k, p);
    DivUnique(requester * p, q, 0x8000_0000, rho * p);
  }

  /** What a valid ratio of two intervals promises. */
  ghost predicate Accurate(ratio: Word, r: int, q: int)
    requires 0 <= r && 0 < q
  {
    && (exists exact :: IdealRatio(r, q) <= exact <= IdealRatio(r, q) + 2 && ratio == Wrap(exact))
    && (r == q ==> ratio == ONE)
  }

  /** The ratio as the code computes it, when the shifted requester interval is not zero. */
  method RateRatio(nsResponder: U64, nsRequester: U64) returns (defined: bool, ratio: Word)
    ensures 0 < Val(nsRequester) && Val(nsResponder) <= 2 * Val(nsRequester) ==> defined
    ensures 0 < Val(nsRequester) && Val(nsResponder) <= 2 * Val(nsRequester) ==>
      Accurate(ratio, Val(nsResponder), Val(nsRequester))
    ensures Val(nsRequester) == 0 ==> !defined
  {
    ghost var r, q := Val(nsResponder), Val(nsRequester);
    var shift := LeadingZeros(nsResponder.hi);
    var tempval1 := Uint64LShift(nsResponder, shift);
    var tempval2 := Uint64RShift(nsRequester, 31 - shift);
    Uint64LShiftValue(nsResponder, shift);
    Uint64RShiftValue(nsRequester, 31 - shift);
    NothingShifted(nsRequester, 31 - shift);
    defined, ratio := tempval2 != ZERO, 0;
    if defined {
      var rateRatio, rest := Division.Uint64DivMod(tempval1, tempval2);
      ratio := rateRatio.lo;
      if 0 < q && r <= 2 * q {
        RatioOfShifted(r, q, shift, Val(tempval1), Val(tempval2), Val(rateRatio), Val(rest));
        assert ratio == Wrap(Val(rateRatio)) by { FromWords(rateRatio); }
      }
    } else if 0 < q && r <= 2 * q {
      DivUnique(r, WORD, nsResponder.hi, nsResponder.lo);
      RequesterBits(r, q, shift);
    }
  }

  lemma NothingShifted(x: U64, n: int)
    requires 0 <= n < 64
    ensures Val(x) == 0 ==> Uint64RShift(x, n) == ZERO
  {
    if Val(x) == 0 {
      Uint64RShiftValue(x, n);
      DivUnique(0, Pow2(n), 0, 0);
    }
  }

  lemma FromWords(x: U64)
    ensures Wrap(Val(x)) == x.lo
  {
    DivUnique(Val(x), WORD, x.hi, x.lo);
  }

  lemma RatioOfShifted(r: nat, q: nat, shift: nat, dividend: nat, divisor: nat, quotient: nat, rest: nat)
    requires r < DWORD && Normalises(r / WORD, shift) && 0 < q && r <= 2 * q
    requires dividend == r * Pow2(shift) % DWORD && divisor == q / Pow2(31 - shift) && 0 < divisor
    requires dividend == quotient * divisor + rest && rest < divisor
    ensures IdealRatio(r, q) <= quotient <= IdealRatio(r, q) + 2
    ensures r == q ==> quotient == ONE
  {
    RatioAccurate(r, q, shift);
    Scaling(r, shift);
    MulPos(r, Pow2(shift));
    ModSmall(r * Pow2(shift));
    DivUnique(dividend, divisor, quotient, rest);
  }

  // ----- the measurements of one port

  /** The intervals that the 64-bit seconds can hold and the 32-bit conversion sees whole. */
  ghost predicate Measurable(interval: int) {
    -0x8000_0000_0000_0000 < interval < 0x8000_0000 * NS_PER_SEC
  }

  /** How an interval is read that has no negative seconds. */
  function Read(interval: int): int {
    if interval < 0 then interval + WORD else interval
  }

  /** The difference of two stamps as nanoseconds, with the sign test made on the seconds:
      only differences of -1 s and less are seen as negative. */
  method Interval(later: Timestamp, earlier: Timestamp) returns (negative: bool, ns: U64)
    ensures var v := later.Value() - earlier.Value();
      Measurable(v) && Close(later, earlier) ==>
        && (negative <==> v <= -NS_PER_SEC)
        && (!negative ==> Val(ns) == Read(v))
  {
    var difference := new Timestamp(0, 0, 0);
    Timestamp.Difference(later, earlier, difference);
    negative := difference.secondsUpper < 0;
    ns := Nanoseconds(difference.secondsLower, difference.nanoseconds);
    if Measurable(later.Value() - earlier.Value()) && Close(later, earlier) {
      SecondsInRange(later.Seconds() - earlier.Seconds(), later.nanoseconds - earlier.nanoseconds);
      assert difference.Value() == later.Value() - earlier.Value();
      SecondsWords(difference.secondsUpper, difference.secondsLower, difference.nanoseconds);
      if !negative {
        NanosecondsExact(difference.secondsLower, difference.nanoseconds);
      }
    }
  }

  lemma SecondsInRange(seconds: int, ns: int)
    requires -2 * NS_PER_SEC < ns < 2 * NS_PER_SEC && Measurable(seconds * NS_PER_SEC + ns)
    ensures InRange(seconds)
  {
  }

  lemma SecondsWords(upper: SWord, lower: Word, ns: int)
    requires -NS_PER_SEC < ns < NS_PER_SEC
    requires (upper * WORD + lower < 0 ==> ns <= 0) && (upper * WORD + lower > 0 ==> ns >= 0)
    ensures upper < 0 <==> (upper * WORD + lower) * NS_PER_SEC + ns <= -NS_PER_SEC
    ensures upper >= 0 && Measurable((upper * WORD + lower) * NS_PER_SEC + ns) ==> upper == 0 && lower < 0x8000_0000
  {
  }

  /** The time stamps of the current exchange, those of the previous response, and what is
      computed from them. */
  class Measurement {
    const pdelayReqTx: Timestamp
    const pdelayReqRx: Timestamp
    const pdelayRespTx: Timestamp
    const pdelayRespRx: Timestamp
    const pdelayRespTxI: Timestamp
    const pdelayRespRxI: Timestamp
    var initPdelayRespReceived: bool
    var neighborRateRatio: Word
    var neighborRateRatioValid: bool
    var neighborPropDelay: Word

    constructor ()
      ensures Valid()
      ensures fresh(pdelayReqTx) && fresh(pdelayReqRx) && fresh(pdelayRespTx) && fresh(pdelayRespRx)
      ensures fresh(pdelayRespTxI) && fresh(pdelayRespRxI)
    {
      pdelayReqTx := new Timestamp(0, 0, 0);
      pdelayReqRx := new Timestamp(0, 0, 0);
      pdelayRespTx := new Timestamp(0, 0, 0);
      pdelayRespRx := new Timestamp(0, 0, 0);
      pdelayRespTxI := new Timestamp(0, 0, 0);
      pdelayRespRxI := new Timestamp(0, 0, 0);
      initPdelayRespReceived, neighborRateRatio, neighborRateRatioValid, neighborPropDelay := false, 0, false, 0;
    }

    /** The stamps that start an interval are kept apart from those that end it. */
    ghost predicate Valid() {
      && pdelayRespTxI != pdelayRespTx && pdelayRespTxI != pdelayRespRx && pdelayRespTxI != pdelayRespRxI
      && pdelayRespRxI != pdelayRespTx && pdelayRespRxI != pdelayRespRx && pdelayRespTx != pdelayRespRx
    }

    /** The interval between the last two responses on the responder's clock. */
    ghost function ResponderInterval(): int
      reads pdelayRespTx, pdelayRespTxI
    {
      pdelayRespTx.Value() - pdelayRespTxI.Value()
    }

    /** The same interval on our own clock. */
    ghost function RequesterInterval(): int
      reads pdelayRespRx, pdelayRespRxI
    {
      pdelayRespRx.Value() - pdelayRespRxI.Value()
    }

    /** Keeps the current response as the start of the next interval. */
    method RollForward()
      requires Valid()
      modifies pdelayRespTxI, pdelayRespRxI
      ensures pdelayRespTxI.Contents() == pdelayRespTx.Contents() && pdelayRespRxI.Contents() == pdelayRespRx.Contents()
    {
      pdelayRespTxI.secondsUpper := pdelayRespTx.secondsUpper;
      pdelayRespTxI.secondsLower := pdelayRespTx.secondsLower;
      pdelayRespTxI.nanoseconds := pdelayRespTx.nanoseconds;
      pdelayRespRxI.secondsUpper := pdelayRespRx.secondsUpper;
      pdelayRespRxI.secondsLower := pdelayRespRx.secondsLower;
      pdelayRespRxI.nanoseconds := pdelayRespRx.nanoseconds;
    }

    /** The nanoseconds of the stamps are close, and the intervals not too long to be measured. */
    ghost predicate Comparable()
      reads pdelayRespTx, pdelayRespTxI, pdelayRespRx, pdelayRespRxI
    {
      && Close(pdelayRespTx, pdelayRespTxI) && Close(pdelayRespRx, pdelayRespRxI)
      && Measurable(ResponderInterval()) && Measurable(RequesterInterval())
    }

    /** What the end of intervals of `r` ns at the responder and `q` ns at the requester leaves:
        an interval of -1 s or less invalidates the ratio and restarts the measurement; others
        give a ratio accurate to two units of its last bit, unless that of the requester is
        empty, which leaves the ratio as it was. */
    ghost predicate RatioOf(r: int, q: int, wasRatio: Word, wasValid: bool)
      reads this`initPdelayRespReceived, this`neighborRateRatio, this`neighborRateRatioValid
    {
      && (initPdelayRespReceived <==> r > -NS_PER_SEC && q > -NS_PER_SEC)
      && (!initPdelayRespReceived ==> !neighborRateRatioValid && neighborRateRatio == wasRatio)
      && (0 <= r <= 2 * q && 0 < q ==> neighborRateRatioValid && Accurate(neighborRateRatio, r, q))
      && (r > -NS_PER_SEC && q == 0 ==> neighborRateRatioValid == wasValid && neighborRateRatio == wasRatio)
    }

    /** `computePdelayRateRatio`. The first response only starts an interval; later ones end
        it and start the next. */
    method ComputePdelayRateRatio()
      requires Valid()
      modifies this, pdelayRespTxI, pdelayRespRxI
      ensures neighborPropDelay == old(neighborPropDelay)
      ensures pdelayRespTxI.Contents() == pdelayRespTx.Contents() && pdelayRespRxI.Contents() == pdelayRespRx.Contents()
      ensures !old(initPdelayRespReceived) ==>
        && initPdelayRespReceived
        && neighborRateRatio == old(neighborRateRatio) && neighborRateRatioValid == old(neighborRateRatioValid)
      ensures old(initPdelayRespReceived && Comparable()) ==>
        RatioOf(old(ResponderInterval()), old(RequesterInterval()), old(neighborRateRatio), old(neighborRateRatioValid))
    {
      if !initPdelayRespReceived {
        initPdelayRespReceived := true;
        RollForward();
      } else {
        ghost var r, q, whole := ResponderInterval(), RequesterInterval(), Comparable();
        var negative, nsResponder := Interval(pdelayRespTx, pdelayRespTxI);
        var negative2, nsRequester := Interval(pdelayRespRx, pdelayRespRxI);
        RollForward();
        EndInterval(negative || negative2, nsResponder, nsRequester, r, q, whole);
      }
    }

    /** The new ratio from the intervals as they were read. */
    method EndInterval(negative: bool, nsResponder: U64, nsRequester: U64, ghost r: int, ghost q: int,
                       ghost whole: bool)
      requires initPdelayRespReceived
      requires whole ==>
        && (negative <==> r <= -NS_PER_SEC || q <= -NS_PER_SEC)
        && (!negative ==> Val(nsResponder) == Read(r) && Val(nsRequester) == Read(q))
      modifies this
      ensures neighborPropDelay == old(neighborPropDelay)
      ensures whole ==> RatioOf(r, q, old(neighborRateRatio), old(neighborRateRatioValid))
    {
      if negative {
        initPdelayRespReceived := false;
        neighborRateRatioValid := false;
      } else {
        var defined, ratio := RateRatio(nsResponder, nsRequester);
        if defined {
          neighborRateRatio := ratio;
          neighborRateRatioValid := true;
        }
      }
    }

    /** The mean of the two apparent one-way times; a constant offset between the clocks adds
        to one what it takes from the other. */
    ghost function MeanDelay(): int
      reads pdelayReqTx, pdelayReqRx, pdelayRespTx, pdelayRespRx
    {
      ((pdelayReqRx.Value() - pdelayReqTx.Value()) + (pdelayRespRx.Value() - pdelayRespTx.Value())) / 2
    }

    /** Each way takes `d` ns, and the neighbour's clock is ahead by `offset`. */
    ghost predicate OneWay(d: nat, offset: int)
      reads pdelayReqTx, pdelayReqRx, pdelayRespTx, pdelayRespRx
    {
      && pdelayReqRx.Value() == pdelayReqTx.Value() + d + offset
      && pdelayRespRx.Value() == pdelayRespTx.Value() + d - offset
    }

    /** The delay is half of the requester's time at the neighbour's rate less the responder's. */
    ghost predicate DelayOfStamps()
      reads this, pdelayReqTx, pdelayReqRx, pdelayRespTx, pdelayRespRx
    {
      neighborRateRatioValid && Forward() ==>
        var requester, responder :=
          pdelayRespRx.Value() - pdelayReqTx.Value(), pdelayRespTx.Value() - pdelayReqRx.Value();
        neighborPropDelay == Wrap((AtRate(requester, neighborRateRatio) - responder) / 2)
    }

    /** `computePropTime`. With a rate ratio of 1.0 the delay is the mean one-way time modulo
        2^32, whatever the length of the exchange and the offset of the clocks; if both ways take
        the same time of less than 2^32 ns, it is that time. */
    method ComputePropTime()
      requires Valid()
      modifies this`neighborPropDelay
      ensures !neighborRateRatioValid ==> neighborPropDelay == old(neighborPropDelay)
      ensures DelayOfStamps()
      ensures neighborRateRatioValid && neighborRateRatio == ONE && Forward() ==>
        && neighborPropDelay == Wrap(MeanDelay())
        && forall d: Word, offset: int :: OneWay(d, offset) ==> neighborPropDelay == d
    {
      if neighborRateRatioValid {
        var _, nsResponder := Interval(pdelayRespTx, pdelayReqRx);
        var _, nsRequester := Interval(pdelayRespRx, pdelayReqTx);
        neighborPropDelay := PropDelay(nsRequester, nsResponder, neighborRateRatio);
        MeanIsHalf();
        OffsetCancels();
      }
    }

    lemma MeanIsHalf()
      ensures MeanDelay() ==
        ((pdelayRespRx.Value() - pdelayReqTx.Value()) - (pdelayRespTx.Value() - pdelayReqRx.Value())) / 2
    {
      assert (pdelayReqRx.Value() - pdelayReqTx.Value()) + (pdelayRespRx.Value() - pdelayRespTx.Value())
          == (pdelayRespRx.Value() - pdelayReqTx.Value()) - (pdelayRespTx.Value() - pdelayReqRx.Value());
    }

    /** A delay of `d` each way and a constant clock offset give a mean of exactly `d`. */
    lemma OffsetCancels()
      ensures forall d: Word, offset: int :: OneWay(d, offset) ==> MeanDelay() == d && Wrap(MeanDelay()) == d
    {
      forall d: Word, offset: int | OneWay(d, offset)
        ensures MeanDelay() == d && Wrap(d) == d
      {
        WrapOnce(d);
        assert (pdelayReqRx.Value() - pdelayReqTx.Value()) + (pdelayRespRx.Value() - pdelayRespTx.Value()) == 2 * d;
      }
    }

    /** On each clock the exchange runs forward in time, for less than 2^31 s. */
    ghost predicate Forward()
      reads pdelayReqTx, pdelayReqRx, pdelayRespTx, pdelayRespRx
    {
      && Close(pdelayRespTx, pdelayReqRx) && Close(pdelayRespRx, pdelayReqTx)
      && 0 <= pdelayRespTx.Value() - pdelayReqRx.Value() < 0x8000_0000 * NS_PER_SEC
      && 0 <= pdelayRespRx.Value() - pdelayReqTx.Value() < 0x8000_0000 * NS_PER_SEC
    }
  }

  /** An interval at a rate in 1.31 fixed point, as the words give it. */
  ghost function AtRate(q: nat, ratio: Word): (r: nat) {
    var p := (q * ratio - Missing(q % WORD, ratio)) % DWORD;
    p / 0x8000_0000
  }

  /** It is floor(q * ratio), unless the product leaves 64 bits or its low part loses a carry:
      then it is 2^17 ns short. */
  lemma AtRateExact(q: nat, ratio: Word)
    requires q * ratio < DWORD
    ensures AtRate(q, ratio) == q * ratio / 0x8000_0000 - if CrossSum(q % WORD, ratio) < WORD then 0 else 0x2_0000
  {
    MissingBound(q, ratio);
    ShortQuotient(q * ratio, if CrossSum(q % WORD, ratio) < WORD then 0 else 0x2_0000);
  }

  lemma MissingBound(q: nat, ratio: Word)
    ensures Missing(q % WORD, ratio) <= q * ratio
  {
    MissingAtMost(q % WORD, ratio);
    MulMono(q % WORD, q, ratio);
  }

  lemma MissingAtMost(v1: Word, v2: Word)
    ensures Missing(v1, v2) <= v1 * v2
  {
    LongMultiplyExact(v1, v2);
    assert Val(LongMultiply(v1, v2)) >= 0;
  }

  lemma ShortQuotient(v: nat, k: nat)
    requires k * 0x8000_0000 <= v < DWORD
    ensures (v - k * 0x8000_0000) % DWORD / 0x8000_0000 == v / 0x8000_0000 - k
  {
    ModSmall(v - k * 0x8000_0000);
    FloorMod(v, 0x8000_0000);
    DivUnique(v - k * 0x8000_0000, 0x8000_0000, v / 0x8000_0000 - k, v % 0x8000_0000);
  }

  /** Half of the requester interval at the neighbour's rate less the responder interval. */
  method PropDelay(nsRequester: U64, nsResponder: U64, ratio: Word) returns (delay: Word)
    ensures delay == Wrap((AtRate(Val(nsRequester), ratio) - Val(nsResponder)) / 2)
    ensures ratio == ONE ==> delay == Wrap((Val(nsRequester) - Val(nsResponder)) / 2)
  {
    var tempval := Uint64TimesUint32(nsRequester, ratio);
    var scaled := Uint64RShift(tempval, 31);
    ScaledValue(nsRequester, ratio, scaled);
    tempval := ToUnsigned(Int64Subtract(ToSigned(scaled), ToSigned(nsResponder)));
    delay := Uint64RShift(tempval, 1).lo;
    HalfDifference(scaled, nsResponder, tempval);
    if ratio == ONE {
      HalvedModulo(Val(nsRequester), Val(nsResponder), Val(scaled));
    }
  }

  lemma ScaledValue(requester: U64, ratio: Word, scaled: U64)
    requires scaled == Uint64RShift(Uint64TimesUint32(requester, ratio), 31)
    ensures Val(scaled) == AtRate(Val(requester), ratio)
    ensures ratio == ONE ==> Val(scaled) == Val(requester) * 0x8000_0000 % DWORD / 0x8000_0000
  {
    var product := Uint64TimesUint32(requester, ratio);
    ShiftedBy31(product);
    FromWords(requester);
    if ratio == ONE {
      TimesOne(requester);
    }
  }

  lemma ShiftedBy31(x: U64)
    ensures Val(Uint64RShift(x, 31)) == Val(x) / 0x8000_0000
  {
    Pow2Word();
    Uint64RShiftValue(x, 31);
  }

  /** A lost carry makes the delay 2^16 ns short. */
  lemma LostCarry(q: nat, ratio: Word, responder: int)
    requires q * ratio < DWORD && CrossSum(q % WORD, ratio) >= WORD
    ensures (AtRate(q, ratio) - responder) / 2 == (q * ratio / 0x8000_0000 - responder) / 2 - 0x1_0000
  {
    AtRateExact(q, ratio);
    HalfLess(q * ratio / 0x8000_0000 - responder);
  }

  lemma HalfLess(x: int)
    ensures (x - 0x2_0000) / 2 == x / 2 - 0x1_0000
  {
  }

  /** An exchange that meets it: 2.147614719 s of ours, at 30 ppm more in the neighbour's time
      2000 ns longer than it took there, give more than four seconds for a delay of 1000 ns. */
  lemma ShortDelay()
    ensures var q, ratio, responder := 0x8001_FFFF, 0x8000_FFFF, 2_147_678_257;
      && CrossSum(q % WORD, ratio) >= WORD
      && (q * ratio / 0x8000_0000 - responder) / 2 == 1000
      && Wrap((AtRate(q, ratio) - responder) / 2) == 4_294_902_760
  {
    var q, ratio, responder := 0x8001_FFFF, 0x8000_FFFF, 2_147_678_257;
    assert q * ratio / 0x8000_0000 == 2_147_680_257;
    LostCarry(q, ratio, responder);
    WrapOnce(1000 - 0x1_0000);
  }

  /** The signed difference, shifted and cut to a word, is half the difference modulo 2^32. */
  lemma HalfDifference(scaled: U64, responder: U64, d: U64)
    requires d == ToUnsigned(Int64Subtract(ToSigned(scaled), ToSigned(responder)))
    ensures Uint64RShift(d, 1).lo == Wrap((Val(scaled) - Val(responder)) / 2)
  {
    assert Pow2(1) == 2;
    Uint64RShiftValue(d, 1);
    FromWords(Uint64RShift(d, 1));
    SignedDifference(scaled, responder);
    var x := Val(scaled) - Val(responder);
    FloorMod(x, DWORD);
    var k := 0 - x / DWORD * 0x8000_0000;
    assert Val(d) / 2 == x / 2 + k * WORD;
    ModDrop(x / 2, k, WORD);
  }

  lemma SignedDifference(x: U64, y: U64)
    ensures Val(ToUnsigned(Int64Subtract(ToSigned(x), ToSigned(y)))) == (Val(x) - Val(y)) % DWORD
  {
    var k := (if Val(x) < DWORD / 2 then 0 else -1) + (if Val(y) < DWORD / 2 then 0 else 1);
    assert SVal(ToSigned(x)) - SVal(ToSigned(y)) == Val(x) - Val(y) + k * DWORD;
    ModDrop(Val(x) - Val(y), k, DWORD);
  }

  /** Multiplying by 1.0 and shifting back only loses multiples of 2^33. */
  lemma HalvedModulo(q: nat, t: nat, x: nat)
    requires x == q * 0x8000_0000 % DWORD / 0x8000_0000
    ensures Wrap((x - t) / 2) == Wrap((q - t) / 2)
  {
    var a := q / 0x2_0000_0000;
    DivUnique(q * 0x8000_0000, DWORD, a, q % 0x2_0000_0000 * 0x8000_0000);
    MultipleMod(q % 0x2_0000_0000, 0x8000_0000);
    assert (x - t) / 2 == (q - t) / 2 - a * WORD;
    ModDrop((q - t) / 2, 0 - a, WORD);
  }
}
