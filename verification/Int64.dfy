/**
 64-bit integers assembled from two 32-bit words (ptp/vtss_gptp.c). Each routine follows
 the C statement by statement, wrap-around included; its contract says which number it
 computes.
 */
module Int64 {
  import opened Words

  /** `_UINT64`: two unsigned words. */
  datatype U64 = U64(hi: Word, lo: Word)

  /** `_INT64`: a signed high word over an unsigned low word. */
  datatype I64 = I64(hi: SWord, lo: Word)

  function Val(x: U64): (v: nat)
    ensures v < DWORD
  {
    x.hi * WORD + x.lo
  }

  function SVal(x: I64): (v: int)
    ensures -DWORD <= 2 * v < DWORD
  {
    x.hi * WORD + x.lo
  }

  const ZERO := U64(0, 0)
  const MIN := U64(0x8000_0000, 0)

  lemma ModSmall(x: int)
    requires 0 <= x < DWORD
    ensures x % DWORD == x
  {
  }

  lemma CrossBillion(a: int, b: int)
    requires 0 <= a < 32768 && 0 <= b < 65536
    ensures a * (BILLION % 65536) + BILLION / 65536 * b + b * (BILLION % 65536) / 65536 < WORD
  {
    assert BILLION % 65536 == 51712 && BILLION / 65536 == 15258;
  }

  function ToSigned(x: U64): (y: I64)
    ensures SVal(y) == if Val(x) < DWORD / 2 then Val(x) else Val(x) - DWORD
  {
    I64(Signed(x.hi), x.lo)
  }

  function ToUnsigned(x: I64): (y: U64)
    ensures Val(y) == SVal(x) % DWORD
    ensures ToSigned(y) == x
  {
    U64(Wrap(x.hi), x.lo)
  }

  // ----- add and subtract

  function Carry(a: Word, b: Word): (c: Word)
    ensures c == (a + b) / WORD
  {
    WrapOnce(a + b);
    DivUnique(a + b, WORD, if a + b < WORD then 0 else 1, Wrap(a + b));
    if Wrap(a + b) < a then 1 else 0
  }

  function Borrow(a: Word, b: Word): (c: Word)
    ensures a < b ==> 0 - c == (a - b) / WORD
    ensures a >= b ==> 0 - c == (a - b) / WORD
  {
    WrapOnce(a - b);
    DivUnique(a - b, WORD, if a < b then -1 else 0, Wrap(a - b));
    if a < b then 1 else 0
  }

  /** Words combine into the value modulo 2^64 once the low excess is moved up. */
  lemma PairMod(h: int, l: int)
    ensures Wrap(h + l / WORD) * WORD + Wrap(l) == (h * WORD + l) % DWORD
  {
    FloorMod(l, WORD);
    var t := h + l / WORD;
    FloorMod(t, WORD);
    DivUnique(h * WORD + l, DWORD, t / WORD, Wrap(t) * WORD + Wrap(l));
  }

  function Uint64AddUint32(x: U64, y: Word): (r: U64)
    ensures Val(r) == (Val(x) + y) % DWORD
  {
    PairMod(x.hi, x.lo + y);
    U64(Wrap(x.hi + Carry(x.lo, y)), Wrap(x.lo + y))
  }

  function UInt64Add(x: U64, y: U64): (r: U64)
    ensures Val(r) == (Val(x) + Val(y)) % DWORD
  {
    PairMod(x.hi + y.hi, x.lo + y.lo);
    U64(Wrap(x.hi + y.hi + Carry(x.lo, y.lo)), Wrap(x.lo + y.lo))
  }

  function Uint64SubtractUint32(x: U64, y: Word): (r: U64)
    ensures Val(r) == (Val(x) - y) % DWORD
  {
    PairMod(x.hi, x.lo - y);
    U64(Wrap(x.hi - Borrow(x.lo, y)), Wrap(x.lo - y))
  }

  /** Signed addition; the carry out of the sign is lost. */
  function Int64Add(x: I64, y: I64): (r: I64)
    ensures Val(ToUnsigned(r)) == (SVal(x) + SVal(y)) % DWORD
  {
    PairMod(x.hi + y.hi, x.lo + y.lo);
    UnsignedSigned(U64(Wrap(x.hi + y.hi + Carry(x.lo, y.lo)), Wrap(x.lo + y.lo)));
    I64(Signed(Wrap(x.hi + y.hi + Carry(x.lo, y.lo))), Wrap(x.lo + y.lo))
  }

  function Int64Subtract(x: I64, y: I64): (r: I64)
    ensures Val(ToUnsigned(r)) == (SVal(x) - SVal(y)) % DWORD
  {
    PairMod(x.hi - y.hi, x.lo - y.lo);
    UnsignedSigned(U64(Wrap(x.hi - (y.hi + Borrow(x.lo, y.lo))), Wrap(x.lo - y.lo)));
    I64(Signed(Wrap(x.hi - (y.hi + Borrow(x.lo, y.lo)))), Wrap(x.lo - y.lo))
  }

  lemma UnsignedSigned(x: U64)
    ensures ToUnsigned(ToSigned(x)) == x
  {
    WrapOnce(Signed(x.hi));
  }

  // ----- shifts

  /** `Uint64RShift`: a logical right shift. */
  function Uint64RShift(x: U64, n: nat): U64 {
    if n > 63 then ZERO
    else if n > 31 then U64(0, Shr(x.hi, n - 32))
    else if n > 0 then U64(Shr(x.hi, n), Or32(Shr(x.lo, n), Shl(x.hi, 32 - n)))
    else x
  }

  lemma Uint64RShiftValue(x: U64, n: nat)
    ensures Val(Uint64RShift(x, n)) == if n > 63 then 0 else Val(x) / Pow2(n)
  {
    if 31 < n < 64 {
      RShiftHigh(x.hi, x.lo, n);
    } else if 0 < n < 32 {
      RShiftLow(x.hi, x.lo, n);
    }
  }

  lemma RShiftHigh(hi: int, lo: Word, n: nat)
    requires 32 <= n < 64
    ensures (hi * WORD + lo) / Pow2(n) == hi / Pow2(n - 32)
  {
    var d := Pow2(n - 32);
    Pow2Word();
    Pow2Add(n - 32, 32);
    FloorMod(hi, d);
    assert hi * WORD + lo == (hi / d) * Pow2(n) + ((hi % d) * WORD + lo);
    assert (hi % d) * WORD + lo < Pow2(n) by { MulMono(hi % d, d - 1, WORD); }
    DivUnique(hi * WORD + lo, Pow2(n), hi / d, (hi % d) * WORD + lo);
  }

  /** The bits that leave the high word enter the low word. */
  lemma RShiftLow(hi: int, lo: Word, n: nat)
    requires 0 < n < 32
    ensures Or(Shr(lo, n), Wrap(hi * Pow2(32 - n))) == Shr(lo, n) + Wrap(hi * Pow2(32 - n)) < WORD
    ensures (hi * WORD + lo) / Pow2(n) == hi / Pow2(n) * WORD + Shr(lo, n) + Wrap(hi * Pow2(32 - n))
  {
    var d, e := Pow2(n), Pow2(32 - n);
    Pow2Word();
    Pow2Add(n, 32 - n);
    SplitWord(hi, d, e);
    SplitWord(lo, d, e);
    OrDisjoint(hi % d * e, lo / d, 32 - n);
    DivideSplit(hi, lo, d, e);
  }

  lemma DivideSplit(hi: int, lo: int, d: int, e: int)
    requires 0 < d && 0 < e && d * e == WORD
    ensures (hi * WORD + lo) / d == hi / d * WORD + lo / d + hi % d * e
  {
    FloorMod(hi, d);
    FloorMod(lo, d);
    var q, m, l := hi / d, hi % d, lo / d;
    assert hi * WORD == (q * WORD + m * e) * d by {
      assert m * e * d == m * (d * e);
      assert q * WORD * d == q * d * WORD;
    }
    assert hi * WORD + lo == (q * WORD + m * e + l) * d + lo % d;
    DivUnique(hi * WORD + lo, d, q * WORD + m * e + l, lo % d);
  }

  /** `Int64RShift`: an arithmetic right shift; bad amounts leave only the sign. */
  function Int64RShift(x: I64, n: int): I64 {
    if n < 0 || n > 63 then (if x.hi >= 0 then I64(0, 0) else I64(-1, 0xffff_ffff))
    else if n > 31 then I64(if x.hi < 0 then -1 else 0, Wrap(x.hi / Pow2(n - 32)))
    else if n > 0 then
      SShrBound(x.hi, Pow2(n));
      I64(x.hi / Pow2(n), Or32(Shr(x.lo, n), Wrap(x.hi * Pow2(32 - n))))
    else x
  }

  lemma Int64RShiftValue(x: I64, n: int)
    ensures SVal(Int64RShift(x, n)) == if 0 <= n < 64 then SVal(x) / Pow2(n) else if SVal(x) >= 0 then 0 else -1
  {
    if 32 <= n < 64 {
      Int64RShiftHigh(x, n);
    } else if 0 < n < 32 {
      RShiftLow(x.hi, x.lo, n);
    } else {
      assert Pow2(0) == 1;
    }
  }

  lemma Int64RShiftHigh(x: I64, n: nat)
    requires 32 <= n < 64
    ensures SVal(Int64RShift(x, n)) == SVal(x) / Pow2(n)
  {
    RShiftHigh(x.hi, x.lo, n);
    SShrBound(x.hi, Pow2(n - 32));
    SignWords(x.hi / Pow2(n - 32));
  }

  lemma SignWords(h: int)
    requires -0x8000_0000 <= h < 0x8000_0000
    ensures (if h < 0 then -1 else 0) * WORD + Wrap(h) == h
  {
    WrapOnce(h);
  }

  lemma SShrBound(x: SWord, d: int)
    requires 0 < d
    ensures -0x8000_0000 <= x / d < 0x8000_0000
    ensures x < 0 ==> x / d < 0
    ensures x >= 0 ==> x / d >= 0
  {
    FloorMod(x, d);
    if x >= 0 {
      DivBound(x, d);
    } else {
      if x / d >= 0 { MulPos(x / d, d); }
      if x / d < x { MulMono(x / d, x - 1, d); MulMono(1, d, -(x - 1)); }
    }
  }

  /** `Uint64LShift`, and `Int64LShift` on the same bit patterns. */
  function Uint64LShift(x: U64, n: int): U64 {
    if n < 0 || n > 63 then ZERO
    else if n > 31 then U64(Shl(x.lo, n - 32), 0)
    else if n > 0 then U64(Or32(Shl(x.hi, n), Shr(x.lo, 32 - n)), Shl(x.lo, n))
    else x
  }

  lemma Uint64LShiftValue(x: U64, n: int)
    ensures Val(Uint64LShift(x, n)) == if 0 <= n < 64 then Val(x) * Pow2(n) % DWORD else 0
  {
    if 31 < n < 64 {
      LShiftHigh(x, n);
    } else if 0 < n < 32 {
      LShiftLow(x, n);
    } else if n == 0 {
      ModSmall(Val(x));
    }
  }

  lemma LShiftHigh(x: U64, n: nat)
    requires 32 <= n < 64
    ensures Val(x) * Pow2(n) % DWORD == Shl(x.lo, n - 32) * WORD
  {
    var d := Pow2(n - 32);
    Pow2Word();
    Pow2Add(n - 32, 32);
    FloorMod(x.lo * d, WORD);
    Distribute(x.hi, WORD, x.lo, d * WORD);
    LShiftWords(x.hi, x.lo, d, x.lo * d / WORD, Shl(x.lo, n - 32));
  }

  lemma LShiftWords(hi: int, lo: int, d: int, q: int, r: Word)
    requires lo * d == q * WORD + r
    ensures (hi * WORD + lo) * (d * WORD) % DWORD == r * WORD
  {
    assert (hi * WORD + lo) * (d * WORD) == hi * d * DWORD + lo * d * WORD;
    DivUnique((hi * WORD + lo) * (d * WORD), DWORD, hi * d + q, r * WORD);
  }

  /** The bits that leave the low word enter the high word. */
  lemma LShiftLow(x: U64, n: nat)
    requires 0 < n < 32
    ensures Or(Shl(x.hi, n), Shr(x.lo, 32 - n)) == Shl(x.hi, n) + Shr(x.lo, 32 - n) < WORD
    ensures Val(x) * Pow2(n) % DWORD == (Shl(x.hi, n) + Shr(x.lo, 32 - n)) * WORD + Shl(x.lo, n)
  {
    LShiftOr(x.hi, x.lo, n);
    ShlSplit(x.hi, n);
    ShlSplit(x.lo, n);
    LShiftSplit(x.hi, x.lo, Pow2(n), Shr(x.hi, 32 - n), Shl(x.hi, n), Shr(x.lo, 32 - n), Shl(x.lo, n));
  }

  /** A word shifted left: what leaves it and what stays. */
  lemma ShlSplit(x: Word, n: nat)
    requires 0 < n < 32
    ensures x * Pow2(n) == Shr(x, 32 - n) * WORD + Shl(x, n)
  {
    Pow2Word();
    Pow2Add(32 - n, n);
    SplitWord(x, Pow2(32 - n), Pow2(n));
  }

  lemma LShiftOr(hi: Word, lo: Word, n: nat)
    requires 0 < n < 32
    ensures Or(Shl(hi, n), Shr(lo, 32 - n)) == Shl(hi, n) + Shr(lo, 32 - n) < WORD
  {
    var d, e := Pow2(n), Pow2(32 - n);
    Pow2Word();
    Pow2Add(32 - n, n);
    SplitWord(hi, e, d);
    SplitWord(lo, e, d);
    OrDisjoint(hi % e * d, lo / e, n);
  }

  lemma LShiftSplit(hi: int, lo: int, d: int, top: int, h: int, m: int, l: Word)
    requires hi * d == top * WORD + h && lo * d == m * WORD + l && 0 <= h + m < WORD
    ensures (hi * WORD + lo) * d % DWORD == (h + m) * WORD + l
  {
    assert (hi * WORD + lo) * d == hi * d * WORD + lo * d;
    DivUnique((hi * WORD + lo) * d, DWORD, top, (h + m) * WORD + l);
  }

  // ----- multiply by halves

  /** The sum of the two middle products with the carry from the low one. */
  function CrossSum(v1: Word, v2: Word): (s: nat) {
    var a, b, c, d := v1 / 65536, v1 % 65536, v2 / 65536, v2 % 65536;
    MulPos(a, d); MulPos(c, b); MulPos(b, d);
    a * d + c * b + b * d / 65536
  }

  /** What the unchecked middle sum drops: its 33rd bit, worth 2^48. */
  function Missing(v1: Word, v2: Word): (m: nat) {
    if CrossSum(v1, v2) < WORD then 0 else 0x1_0000_0000_0000
  }

  /** `long_multiply`: 32 by 32 to 64 bits through 16-bit halves. */
  function LongMultiply(v1: Word, v2: Word): U64 {
    var a, b, c, d := v1 / 65536, v1 % 65536, v2 / 65536, v2 % 65536;
    Assemble(a * c, a * d + c * b, b * d)
  }

  /** Adds up the partial products AC, AD + CB and BD in 32-bit words. */
  function Assemble(ac: int, mid: int, bd: int): U64 {
    var low := Wrap(bd);
    var x := Wrap(mid);
    var y := Wrap(low / 65536 + x);
    U64(Wrap(y / 65536 + Wrap(ac)), Or32(low % 65536, Wrap(y % 65536 * 65536)))
  }

  /** The product is exact just when the middle sum fits a word; otherwise it is short by
      exactly 2^48. */
  lemma LongMultiplyExact(v1: Word, v2: Word)
    ensures Val(LongMultiply(v1, v2)) == v1 * v2 - Missing(v1, v2)
  {
    var a, b, c, d := v1 / 65536, v1 % 65536, v2 / 65536, v2 % 65536;
    HalvesBound(a, d); HalvesBound(c, b); HalvesBound(b, d); HalvesBound(a, c);
    AssembleExact(a * c, a * d + c * b, b * d);
    Expand(a, b, c, d);
    assert v1 * v2 == (a * 65536 + b) * (c * 65536 + d);
  }

  lemma AssembleExact(ac: int, mid: int, bd: int)
    requires 0 <= ac <= 65535 * 65535 && 0 <= bd <= 65535 * 65535 && 0 <= mid <= 2 * 65535 * 65535
    ensures Val(Assemble(ac, mid, bd)) == ac * WORD + mid * 65536 + bd
                                          - (if mid + bd / 65536 < WORD then 0 else 0x1_0000_0000_0000)
  {
    var y := mid + bd / 65536 - (if mid + bd / 65536 < WORD then 0 else WORD);
    AssembleWords(ac, mid, bd, y);
    HalvesValue(ac, mid, bd, y, if mid + bd / 65536 < WORD then 0 else WORD);
  }

  lemma AssembleWords(ac: int, mid: int, bd: int, y: int)
    requires 0 <= ac <= 65535 * 65535 && 0 <= bd <= 65535 * 65535 && 0 <= mid <= 2 * 65535 * 65535
    requires y == mid + bd / 65536 - (if mid + bd / 65536 < WORD then 0 else WORD)
    ensures Assemble(ac, mid, bd).hi == y / 65536 + ac
    ensures Assemble(ac, mid, bd).lo == bd % 65536 + y % 65536 * 65536
  {
    Halves(ac, mid, bd);
    WrapOnce(y % 65536 * 65536);
  }

  lemma HalvesBound(a: nat, d: nat)
    requires a < 65536 && d < 65536
    ensures 0 <= a * d <= 65535 * 65535
  {
    MulMono(a, 65535, d);
    MulPos(a, d);
  }

  /** The recombination of the partial products, on their values alone. */
  lemma Halves(ac: int, mid: int, bd: int)
    requires 0 <= ac <= 65535 * 65535 && 0 <= bd <= 65535 * 65535 && 0 <= mid <= 2 * 65535 * 65535
    ensures Wrap(bd) == bd && Wrap(ac) == ac
    ensures var y := Wrap(bd / 65536 + Wrap(mid));
      && Or(bd % 65536, y % 65536 * 65536) == bd % 65536 + y % 65536 * 65536
      && Wrap(y / 65536 + ac) == y / 65536 + ac
      && y == mid + bd / 65536 - (if mid + bd / 65536 < WORD then 0 else WORD)
  {
    WrapOnce(mid);
    WrapOnce(bd / 65536 + Wrap(mid));
    WrapOnce(bd);
    WrapOnce(ac);
    var y := Wrap(bd / 65536 + Wrap(mid));
    WrapOnce(y / 65536 + ac);
    HalfOr(y % 65536, bd % 65536);
  }

  lemma HalvesValue(ac: int, mid: int, bd: int, y: int, lost: int)
    requires y == mid + bd / 65536 - lost
    ensures (y / 65536 + ac) * WORD + bd % 65536 + y % 65536 * 65536
         == ac * WORD + mid * 65536 + bd - lost * 65536
  {
    FloorMod(y, 65536);
    FloorMod(bd, 65536);
  }

  lemma HalfOr(high: nat, low: nat)
    requires low < 65536
    ensures Or(low, high * 65536) == low + high * 65536
  {
    assert Pow2(8) == 256;
    Pow2Add(8, 8);
    MultipleMod(high, 65536);
    OrDisjoint(high * 65536, low, 16);
  }

  lemma Expand(a: int, b: int, c: int, d: int)
    ensures (a * 65536 + b) * (c * 65536 + d) == a * c * WORD + (a * d + c * b) * 65536 + b * d
  {
    assert (a * 65536 + b) * (c * 65536 + d)
        == (a * 65536) * (c * 65536) + (a * 65536) * d + b * (c * 65536) + b * d by {
      Distribute(a, 65536, b, c * 65536 + d);
    }
    assert (a * 65536) * (c * 65536) == a * c * WORD;
    assert (a * 65536) * d == a * d * 65536;
    assert b * (c * 65536) == c * b * 65536;
  }

  /** `long_multiply_high`: the high word of the same product. */
  function LongMultiplyHigh(v1: Word, v2: Word): (h: Word)
  {
    LongMultiply(v1, v2).hi
  }

  /** The low word of a product does not see the missing bit. */
  lemma LowProduct(v1: Word, v2: Word)
    ensures Wrap(v1 * v2) == LongMultiply(v1, v2).lo
  {
    LongMultiplyExact(v1, v2);
    var r := LongMultiply(v1, v2);
    var k := if CrossSum(v1, v2) < WORD then 0 else 65536;
    assert v1 * v2 == (r.hi + k) * WORD + r.lo;
    DivUnique(v1 * v2, WORD, r.hi + k, r.lo);
  }

  /** `Uint64TimesUint64`: the product modulo 2^64, up to the bit missing from the low product. */
  function Uint64TimesUint64(x: U64, y: U64): (r: U64)
    ensures Val(r) == (Val(x) * Val(y) - Missing(x.lo, y.lo)) % DWORD
  {
    ProductWords(x, y);
    U64(Wrap(Wrap(x.lo * y.hi) + Wrap(x.hi * y.lo) + LongMultiplyHigh(x.lo, y.lo)), Wrap(x.lo * y.lo))
  }

  lemma ProductWords(x: U64, y: U64)
    ensures Wrap(Wrap(x.lo * y.hi) + Wrap(x.hi * y.lo) + LongMultiplyHigh(x.lo, y.lo)) * WORD + Wrap(x.lo * y.lo) ==
      (Val(x) * Val(y) - Missing(x.lo, y.lo)) % DWORD
  {
    ExpandWords(x.hi, x.lo, y.hi, y.lo);
    LowProduct(x.lo, y.lo);
    LongMultiplyExact(x.lo, y.lo);
    Recombine(Val(x) * Val(y) - Missing(x.lo, y.lo), x.hi * y.hi, x.lo * y.hi, x.hi * y.lo,
              LongMultiply(x.lo, y.lo));
  }

  lemma ExpandWords(a: int, b: int, c: int, d: int)
    ensures (a * WORD + b) * (c * WORD + d) == a * c * DWORD + (b * c + a * d) * WORD + b * d
  {
    Distribute(a, WORD, b, c * WORD + d);
    assert a * (WORD * (c * WORD + d)) == a * c * DWORD + a * d * WORD;
    assert b * (c * WORD + d) == b * c * WORD + b * d;
  }

  lemma Recombine(total: int, hh: int, m1: int, m2: int, low: U64)
    requires total == hh * DWORD + (m1 + m2) * WORD + Val(low)
    ensures Wrap(Wrap(m1) + Wrap(m2) + low.hi) * WORD + low.lo == total % DWORD
  {
    var t := m1 + m2 + low.hi;
    var w := Wrap(Wrap(m1) + Wrap(m2) + low.hi);
    FloorMod(m1, WORD);
    FloorMod(m2, WORD);
    FloorMod(Wrap(m1) + Wrap(m2) + low.hi, WORD);
    var k := m1 / WORD + m2 / WORD + (Wrap(m1) + Wrap(m2) + low.hi) / WORD;
    assert total == (hh + k) * DWORD + (w * WORD + low.lo);
    DivUnique(total, DWORD, hh + k, w * WORD + low.lo);
  }

  /** `Uint64TimesUint32`. */
  function Uint64TimesUint32(x: U64, y: Word): (r: U64)
    ensures Val(r) == (Val(x) * y - Missing(x.lo, y)) % DWORD
  {
    var r := Uint64TimesUint64(x, U64(0, y));
    assert r == U64(Wrap(Wrap(x.hi * y) + LongMultiplyHigh(x.lo, y)), Wrap(x.lo * y));
    U64(Wrap(Wrap(x.hi * y) + LongMultiplyHigh(x.lo, y)), Wrap(x.lo * y))
  }

  // ----- signs

  /** `~hi + !lo` over `-lo`: the two's complement of a pair of words. */
  function Negate(x: U64): (r: U64)
    ensures Val(r) == if Val(x) == 0 then 0 else DWORD - Val(x)
  {
    WrapOnce(0 - x.hi - 1 + (if x.lo == 0 then 1 else 0));
    WrapOnce(0 - x.lo);
    U64(Wrap(0 - x.hi - 1 + (if x.lo == 0 then 1 else 0)), Wrap(0 - x.lo))
  }

  /** The magnitude of a signed pair; 2^63 has one only in unsigned form. */
  function Magnitude(x: I64): (r: U64)
    ensures Val(r) == if SVal(x) < 0 then -SVal(x) else SVal(x)
  {
    if x.hi < 0 then Negate(ToUnsigned(x)) else ToUnsigned(x)
  }

  /** The product of two numbers by sign and magnitude, modulo 2^64, with a defect of the
      magnitudes' product. */
  lemma SignedMod(x: int, y: int, miss: int, z: int, s: int)
    requires var a, b := if x < 0 then 0 - x else x, if y < 0 then 0 - y else y;
      z == (a * b - miss) % DWORD
    requires s == if (x < 0) == (y < 0) || z == 0 then z else DWORD - z
    ensures s == (x * y - (if x < 0 <==> y < 0 then miss else 0 - miss)) % DWORD
  {
    var a, b := if x < 0 then 0 - x else x, if y < 0 then 0 - y else y;
    SignedProduct(x, y);
    NegateMod(a * b - miss);
  }

  lemma SignedWords(x: I64, y: I64, z: U64, s: U64)
    requires z == Uint64TimesUint64(Magnitude(x), Magnitude(y))
    requires s == if (x.hi < 0) != (y.hi < 0) then Negate(z) else z
    ensures var miss := Missing(Magnitude(x).lo, Magnitude(y).lo);
      Val(ToUnsigned(ToSigned(s))) ==
        (SVal(x) * SVal(y) - (if SVal(x) < 0 <==> SVal(y) < 0 then miss else 0 - miss)) % DWORD
  {
    UnsignedSigned(s);
    SignedMod(SVal(x), SVal(y), Missing(Magnitude(x).lo, Magnitude(y).lo), Val(z), Val(s));
  }

  /** `Int64TimesInt64`: sign and magnitude multiplication. The result is the product modulo
      2^64, moved towards zero by the bit missing from the product of the low magnitudes. */
  function Int64TimesInt64(x: I64, y: I64): (r: I64)
    ensures var miss := Missing(Magnitude(x).lo, Magnitude(y).lo);
      Val(ToUnsigned(r)) == (SVal(x) * SVal(y) - (if SVal(x) < 0 <==> SVal(y) < 0 then miss else 0 - miss)) % DWORD
  {
    var z := Uint64TimesUint64(Magnitude(x), Magnitude(y));
    var s := if (x.hi < 0) != (y.hi < 0) then Negate(z) else z;
    SignedWords(x, y, z, s);
    ToSigned(s)
  }

  lemma NegateMod(p: int)
    ensures (0 - p) % DWORD == if p % DWORD == 0 then 0 else DWORD - p % DWORD
  {
    FloorMod(p, DWORD);
    var q, r := p / DWORD, p % DWORD;
    DivUnique(0 - p, DWORD, if r == 0 then 0 - q else -1 - q, if r == 0 then 0 else DWORD - r);
  }

  lemma SignedProduct(x: int, y: int)
    ensures var a, b := if x < 0 then 0 - x else x, if y < 0 then 0 - y else y;
      x * y == if (x < 0) != (y < 0) then 0 - a * b else a * b
  {
  }

  // ----- seconds to nanoseconds

  const BILLION: Word := 1_000_000_000

  /** A whole number of seconds in nanoseconds, exactly, for every second count that is
      not negative as a signed word. */
  lemma SecondsExact(sec: Word)
    requires sec < 0x8000_0000
    ensures Missing(sec, BILLION) == 0
    ensures Val(Uint64TimesUint32(U64(0, sec), BILLION)) == sec * BILLION
  {
    CrossBillion(sec / 65536, sec % 65536);
    assert CrossSum(sec, BILLION) < WORD;
    ModSmall(sec * BILLION);
  }

  /** The largest second count is multiplied short by 2^48 ns. */
  lemma SecondsInexact()
    ensures Val(Uint64TimesUint32(U64(0, 0xffff_ffff), BILLION)) == 0xffff_ffff * BILLION - 0x1_0000_0000_0000
  {
    assert BILLION % 65536 == 51712 && BILLION / 65536 == 15258;
    assert CrossSum(0xffff_ffff, BILLION) >= WORD;
    ModSmall(0xffff_ffff * BILLION - 0x1_0000_0000_0000);
  }

  /** Multiplying by the fixed-point 1.0 never loses a middle bit. */
  lemma TimesOne(x: U64)
    ensures Val(Uint64TimesUint32(x, 0x8000_0000)) == Val(x) * 0x8000_0000 % DWORD
  {
    assert CrossSum(x.lo, 0x8000_0000) < WORD;
  }
}
