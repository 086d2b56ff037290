/**
 The shift-and-subtract divider of ptp/vtss_gptp.c: a binary search for the leading bits,
 an alignment of the divisor that only works because of the quotient length computed with
 it, and one quotient bit per iteration.
 */
module Division {
  import opened Words
  import opened Int64

  // ----- the leading bit

  /** One halving of the search: a window of width `4 * step` around `i` becomes half as wide. */
  function Narrow(x: Word, i: nat, step: nat): nat
    requires step <= i
  {
    if Shr(x, i) != 0 then i + step else i - step
  }

  /** The last correction, `i -= !(x >> i)`. */
  function Settle(x: Word, i: nat): nat
    requires 0 < i
  {
    if Shr(x, i) != 0 then i else i - 1
  }

  /** The index of the leftmost one bit; 0 when there is none. */
  function LeadingBit(x: Word): nat {
    var i := if Shr(x, 16) != 0 then 24 else 8;
    var i := Narrow(x, i, 4);
    var i := Narrow(x, i, 2);
    Settle(x, Narrow(x, i, 1))
  }

  /** The leftmost one bit of `x`, taken as bit 0 when there is none, is in `lo .. hi`. */
  ghost predicate InWindow(x: Word, lo: nat, hi: nat) {
    lo < hi <= 32 && x < Pow2(hi) && (if x == 0 then lo == 0 else Pow2(lo) <= x)
  }

  lemma ShrNonzero(x: Word, i: nat)
    ensures Shr(x, i) != 0 <==> Pow2(i) <= x
  {
    FloorMod(x, Pow2(i));
    if Shr(x, i) != 0 {
      MulMono(1, Shr(x, i), Pow2(i));
    }
  }

  lemma SettleWindow(x: Word, i: nat)
    requires 0 < i && InWindow(x, i - 1, i + 1)
    ensures InWindow(x, Settle(x, i), Settle(x, i) + 1)
  {
    ShrNonzero(x, i);
  }

  lemma NarrowWindow(x: Word, i: nat, step: nat)
    requires 0 < step && 2 * step <= i && InWindow(x, i - 2 * step, i + 2 * step)
    ensures step <= Narrow(x, i, step)
    ensures InWindow(x, Narrow(x, i, step) - step, Narrow(x, i, step) + step)
  {
    ShrNonzero(x, i);
  }

  lemma FirstWindow(x: Word)
    ensures if Shr(x, 16) != 0 then InWindow(x, 16, 32) else InWindow(x, 0, 16)
  {
    Pow2Word();
    ShrNonzero(x, 16);
    assert Pow2(0) == 1;
  }

  lemma SearchFrom(x: Word, i: nat)
    requires 8 <= i && InWindow(x, i - 8, i + 8)
    ensures var i := Narrow(x, i, 4);
      var i := Narrow(x, i, 2);
      var r := Settle(x, Narrow(x, i, 1));
      InWindow(x, r, r + 1)
  {
    NarrowWindow(x, i, 4);
    SearchLast(x, Narrow(x, i, 4));
  }

  lemma SearchLast(x: Word, i: nat)
    requires 4 <= i && InWindow(x, i - 4, i + 4)
    ensures var i := Narrow(x, i, 2);
      var r := Settle(x, Narrow(x, i, 1));
      InWindow(x, r, r + 1)
  {
    NarrowWindow(x, i, 2);
    NarrowWindow(x, Narrow(x, i, 2), 1);
    SettleWindow(x, Narrow(x, Narrow(x, i, 2), 1));
  }

  lemma LeadingBitCorrect(x: Word)
    ensures InWindow(x, LeadingBit(x), LeadingBit(x) + 1)
  {
    FirstWindow(x);
    if Shr(x, 16) != 0 {
      SearchFrom(x, 24);
    } else {
      SearchFrom(x, 8);
    }
  }

  // ----- alignment

  /** The non-zero word of a pair: `MUX(x.HighPart, x.HighPart, x.LowPart)`. */
  function TopWord(x: U64): Word {
    if x.hi != 0 then x.hi else x.lo
  }

  /** The index of the leftmost one bit of a pair, from its top word. */
  function BitLength(x: U64): nat {
    LeadingBit(TopWord(x)) + (if x.hi != 0 then 32 else 0)
  }

  /** How many quotient bits follow the first one; negative when the divisor is longer. */
  function QuotientLength(x: U64, y: U64): int {
    BitLength(x) - BitLength(y)
  }

  /** Both words of the divisor shifted by the misalignment of the top words modulo 32. */
  function Rotate(y: U64, m: int): U64 {
    U64(Or32(Shl(y.hi, m % 32), if m != 0 then Shr(y.lo, (32 - m) % 32) else 0), Shl(y.lo, m % 32))
  }

  /** The rotated divisor, its words swapped when the quotient has more than 32 bits. */
  function Place(y: U64, m: int, n: int): U64 {
    var r := Rotate(y, m);
    if n < 32 then r else U64(r.lo, 0)
  }

  /** The divisor moved under the dividend. */
  function Align(x: U64, y: U64): U64 {
    Place(y, LeadingBit(TopWord(x)) - LeadingBit(TopWord(y)), QuotientLength(x, y))
  }

  lemma PairBits(x: U64)
    ensures BitLength(x) < 64 && Val(x) < Pow2(BitLength(x) + 1)
    ensures if Val(x) == 0 then BitLength(x) == 0 else Pow2(BitLength(x)) <= Val(x)
  {
    LeadingBitCorrect(TopWord(x));
    if x.hi != 0 {
      HighBits(x, LeadingBit(x.hi));
    }
  }

  lemma HighBits(x: U64, i: nat)
    requires Pow2(i) <= x.hi < Pow2(i + 1)
    ensures Pow2(i + 32) <= Val(x) < Pow2(i + 33)
  {
    Pow2Word();
    Pow2Add(i, 32);
    Pow2Add(i + 1, 32);
    MulMono(x.hi + 1, Pow2(i + 1), WORD);
    MulMono(Pow2(i), x.hi, WORD);
  }

  /** With a quotient to compute, alignment is a plain left shift that loses no bit, and the
      shifted divisor is more than half of the dividend; with none, the dividend is smaller. */
  lemma AlignCorrect(x: U64, y: U64)
    requires Val(y) != 0
    ensures var n := QuotientLength(x, y);
      && n < 64
      && (n >= 0 ==> Val(Align(x, y)) == Val(y) * Pow2(n) && Val(x) < Val(y) * Pow2(n + 1))
      && (n < 0 ==> Val(x) < Val(y))
  {
    QuotientBounds(x, y, BitLength(x), BitLength(y));
    if QuotientLength(x, y) >= 0 {
      AlignIsShift(x, y, QuotientLength(x, y));
      Uint64LShiftValue(y, QuotientLength(x, y));
    }
  }

  lemma QuotientBounds(x: U64, y: U64, lx: nat, ly: nat)
    requires Val(y) != 0 && lx == BitLength(x) && ly == BitLength(y)
    ensures lx < 64
    ensures lx >= ly ==> Val(y) * Pow2(lx - ly) % DWORD == Val(y) * Pow2(lx - ly)
    ensures lx >= ly ==> Val(x) < Val(y) * Pow2(lx - ly + 1)
    ensures lx < ly ==> Val(x) < Val(y)
  {
    PairBits(x);
    PairBits(y);
    if lx >= ly {
      ShiftedBounds(Val(x), Val(y), lx, ly);
    } else {
      Pow2Monotonic(lx + 1, ly);
    }
  }

  lemma ShiftedBounds(x: int, y: int, lx: nat, ly: nat)
    requires ly <= lx < 64 && 0 <= x < Pow2(lx + 1) && Pow2(ly) <= y < Pow2(ly + 1)
    ensures y * Pow2(lx - ly) % DWORD == y * Pow2(lx - ly)
    ensures x < y * Pow2(lx - ly + 1)
  {
    var n := lx - ly;
    Pow2Word();
    Pow2Monotonic(lx + 1, 64);
    Pow2Add(ly + 1, n);
    Pow2Add(ly, n + 1);
    Times(y, Pow2(ly + 1), Pow2(n));
    MulMono(Pow2(ly), y, Pow2(n + 1));
    MulPos(y, Pow2(n));
    ModSmall(y * Pow2(n));
  }

  lemma Times(a: int, b: int, c: int)
    requires a < b && 0 < c
    ensures a * c < b * c
  {
  }

  lemma AlignIsShift(x: U64, y: U64, n: nat)
    requires n == QuotientLength(x, y)
    ensures n < 64 && Align(x, y) == Uint64LShift(y, n)
  {
    LeadingBitCorrect(TopWord(x));
    LeadingBitCorrect(TopWord(y));
    PlaceIsShift(y, LeadingBit(TopWord(x)) - LeadingBit(TopWord(y)), n);
  }

  lemma PlaceIsShift(y: U64, m: int, n: nat)
    requires -32 < m < 32 && n < 64 && (n == m || (n == m + 32 && y.hi == 0))
    ensures Place(y, m, n) == Uint64LShift(y, n)
  {
    if m == 0 {
      RotateNothing(y);
      assert Pow2(0) == 1;
    } else {
      RotateIsShift(y, m, if m < 0 then m + 32 else m);
    }
  }

  lemma RotateNothing(y: U64)
    ensures Rotate(y, 0) == y
  {
    assert Pow2(0) == 1;
  }

  lemma RotateIsShift(y: U64, m: int, k: nat)
    requires 0 < k < 32 && (m == k || m == k - 32)
    ensures Rotate(y, m) == Uint64LShift(y, k)
  {
    DivUnique(m, 32, if m < 0 then -1 else 0, k);
    DivUnique(32 - m, 32, if m < 0 then 1 else 0, 32 - k);
  }

  // ----- one quotient bit

  /** `z += z + bit` on a pair of words. */
  function ShiftIn(z: U64, bit: Word): U64 {
    U64(Wrap(z.hi + (z.hi + Carry(z.lo, z.lo))), Wrap(z.lo + (z.lo + bit)))
  }

  lemma ShiftInValue(z: U64, bit: Word)
    requires bit <= 1 && 2 * Val(z) + bit < DWORD
    ensures Val(ShiftIn(z, bit)) == 2 * Val(z) + bit
  {
    PairMod(2 * z.hi, 2 * z.lo);
    WrapOnce(2 * z.lo);
    ModSmall(2 * Val(z));
  }

  predicate GreaterEqual(x: U64, y: U64) {
    if x.hi != y.hi then x.hi > y.hi else x.lo >= y.lo
  }

  /** `x -= y` on a pair of words. */
  function Difference(x: U64, y: U64): (r: U64)
    ensures Val(r) == (Val(x) - Val(y)) % DWORD
  {
    PairMod(x.hi - y.hi, x.lo - y.lo);
    U64(Wrap(x.hi - (y.hi + Borrow(x.lo, y.lo))), Wrap(x.lo - y.lo))
  }

  /** One iteration keeps `dividend == z * 2^(n+1) * y0 + x` and leaves `x` below the weight
      of the next quotient bit. */
  lemma QuotientBit(dividend: nat, d: nat, w: nat, z: nat, x: nat)
    requires 0 < d && 0 < w && dividend < DWORD
    requires dividend == z * d * (2 * w) + x && x < d * (2 * w)
    ensures var bit := if x >= d * w then 1 else 0;
      && dividend == (2 * z + bit) * d * w + (x - bit * (d * w))
      && 0 <= x - bit * (d * w) < d * w
      && 2 * z + bit < DWORD
  {
    var bit := if x >= d * w then 1 else 0;
    var t := d * w;
    assert d * (2 * w) == 2 * t;
    assert z * d * (2 * w) == z * (2 * t) by { Reassociate(z, d, 2 * w); }
    assert (2 * z + bit) * d * w == (2 * z + bit) * t by { Reassociate(2 * z + bit, d, w); }
    assert (2 * z + bit) * t == z * (2 * t) + bit * t;
    MulPos(d, w);
    MulMono(1, t, 2 * z + bit);
  }

  /** The division state with `n + 1` quotient bits still to come: the bits found so far, at
      their final weight, and the rest of the dividend make up the dividend. */
  ghost predicate Progress(dividend: nat, d: nat, n: int, x: nat, y: nat, z: nat) {
    && 0 < d
    && (n < -1 ==> x == dividend < d && z == 0)
    && (n >= -1 ==> dividend == z * d * Pow2(n + 1) + x && x < d * Pow2(n + 1))
    && (n >= 0 ==> y == d * Pow2(n))
  }

  /** `y >>= 1` on a pair of words. */
  function Halve(y: U64): U64 {
    U64(Shr(y.hi, 1), Or32(Shr(y.lo, 1), Shl(y.hi, 31)))
  }

  lemma HalveValue(y: U64)
    ensures Val(Halve(y)) == Val(y) / 2
  {
    assert Pow2(1) == 2;
    assert Halve(y) == Uint64RShift(y, 1);
    Uint64RShiftValue(y, 1);
  }

  lemma GreaterEqualIs(x: U64, y: U64)
    ensures GreaterEqual(x, y) <==> Val(x) >= Val(y)
  {
  }

  lemma DifferenceIs(x: U64, y: U64)
    requires Val(x) >= Val(y)
    ensures Val(Difference(x, y)) == Val(x) - Val(y)
  {
    ModSmall(Val(x) - Val(y));
  }

  /** One quotient bit, on the values. */
  lemma ProgressStep(dividend: nat, d: nat, n: nat, x: nat, y: nat, z: nat)
    requires dividend < DWORD && Progress(dividend, d, n, x, y, z)
    ensures var bit := if x >= y then 1 else 0;
      2 * z + bit < DWORD && bit * y <= x && Progress(dividend, d, n - 1, x - bit * y, y / 2, 2 * z + bit)
  {
    var w := Pow2(n);
    assert Pow2(n + 1) == 2 * w;
    QuotientBit(dividend, d, w, z, x);
    if n > 0 {
      assert w == 2 * Pow2(n - 1);
      HalveProduct(d, Pow2(n - 1));
    }
  }

  /** The same on the words. */
  lemma DivideStep(dividend: nat, d: nat, n: nat, x: U64, y: U64, z: U64)
    requires dividend < DWORD && Progress(dividend, d, n, Val(x), Val(y), Val(z))
    ensures var bit := if GreaterEqual(x, y) then 1 else 0;
      Progress(dividend, d, n - 1, Val(if bit == 1 then Difference(x, y) else x), Val(Halve(y)), Val(ShiftIn(z, bit)))
  {
    var bit := if Val(x) >= Val(y) then 1 else 0;
    ProgressStep(dividend, d, n, Val(x), Val(y), Val(z));
    GreaterEqualIs(x, y);
    ShiftInValue(z, bit);
    HalveValue(y);
    if bit == 1 {
      DifferenceIs(x, y);
    }
  }

  lemma DivideEnd(dividend: nat, d: nat, n: int, x: nat, y: nat, z: nat)
    requires Progress(dividend, d, n, x, y, z) && n < 0
    ensures dividend == z * d + x && x < d
  {
    assert Pow2(0) == 1;
  }

  lemma HalveProduct(d: int, w: int)
    ensures d * (2 * w) / 2 == d * w
  {
    assert d * (2 * w) == d * w * 2;
  }

  lemma DivideStart(x: U64, y: U64)
    requires Val(y) != 0
    ensures Progress(Val(x), Val(y), QuotientLength(x, y), Val(x), Val(Align(x, y)), 0)
  {
    AlignCorrect(x, y);
    assert Pow2(0) == 1;
  }

  /** `Uint64DivMod`: quotient and remainder of two unsigned numbers; a zero divisor gives
      the code's marker values. */
  method Uint64DivMod(dividend: U64, divisor: U64) returns (q: U64, r: U64)
    ensures Val(divisor) != 0 ==>
      Val(dividend) == Val(q) * Val(divisor) + Val(r) && Val(r) < Val(divisor)
    ensures Val(divisor) == 0 ==> q == (if Val(dividend) == 0 then ZERO else MIN) && r == ZERO
  {
    var x, y, z := dividend, divisor, ZERO;
    if y.lo == 0 && y.hi == 0 {
      if !(x.lo == 0 && x.hi == 0) {
        z := MIN;
      }
      x := ZERO;
    } else {
      DivideStart(x, y);
      var n := QuotientLength(x, y);
      y := Align(x, y);
      while n >= 0
        invariant Progress(Val(dividend), Val(divisor), n, Val(x), Val(y), Val(z))
        decreases n + 1
      {
        DivideStep(Val(dividend), Val(divisor), n, x, y, z);
        n := n - 1;
        var bit := if GreaterEqual(x, y) then 1 else 0;
        z := ShiftIn(z, bit);
        x := if bit == 1 then Difference(x, y) else x;
        y := Halve(y);
      }
      DivideEnd(Val(dividend), Val(divisor), n, Val(x), Val(y), Val(z));
    }
    q, r := z, x;
  }

  /** `Int64DivMod`: the quotient rounds towards zero and the remainder takes the dividend's
      sign. Only the quotient of the least number by -1 does not fit, and wraps. */
  method Int64DivMod(dividend: I64, divisor: I64) returns (q: I64, r: I64)
    ensures SVal(divisor) != 0 ==>
      && SVal(dividend) == Truncated(SVal(dividend), SVal(divisor)) * SVal(divisor) + SVal(r)
      && Abs(SVal(r)) < Abs(SVal(divisor)) && (SVal(r) != 0 ==> (SVal(r) < 0 <==> SVal(dividend) < 0))
      && (SVal(q) == Truncated(SVal(dividend), SVal(divisor)) <==>
           !(SVal(dividend) == -0x8000_0000_0000_0000 && SVal(divisor) == -1))
    ensures SVal(dividend) == -0x8000_0000_0000_0000 && SVal(divisor) == -1 ==> q == dividend
    ensures SVal(divisor) == 0 ==>
      SVal(r) == 0 && SVal(q) == (if SVal(dividend) == 0 then 0 else -0x8000_0000_0000_0000)
  {
    var uz, ur := Uint64DivMod(Magnitude(dividend), Magnitude(divisor));
    var negative := (dividend.hi < 0) != (divisor.hi < 0);
    TruncatedMagnitudes(SVal(dividend), SVal(divisor), Val(uz), Val(ur));
    q := ToSigned(if negative then Negate(uz) else uz);
    r := ToSigned(if dividend.hi < 0 then Negate(ur) else ur);
    WithSign(uz, negative);
    WithSign(ur, dividend.hi < 0);
  }

  /** A magnitude with a sign. */
  lemma WithSign(m: U64, negative: bool)
    ensures var s := ToSigned(if negative then Negate(m) else m);
      && (Val(m) < DWORD / 2 ==> SVal(s) == if negative then 0 - Val(m) else Val(m))
      && (Val(m) == DWORD / 2 ==> SVal(s) == 0 - DWORD / 2)
  {
  }

  function Abs(x: int): nat {
    if x < 0 then 0 - x else x
  }

  /** Division rounding towards zero. */
  function Truncated(x: int, y: int): int
    requires y != 0
  {
    if (x < 0) == (y < 0) then Abs(x) / Abs(y) else 0 - Abs(x) / Abs(y)
  }

  lemma TruncatedMagnitudes(x: int, y: int, q: nat, r: nat)
    requires y != 0 ==> Abs(x) == q * Abs(y) + r && r < Abs(y)
    ensures y != 0 ==>
      && Truncated(x, y) == (if (x < 0) == (y < 0) then q else 0 - q)
      && x - Truncated(x, y) * y == (if x < 0 then 0 - r else r)
      && q <= Abs(x) && r <= Abs(x) && (q == Abs(x) ==> x == 0 || Abs(y) == 1)
  {
    if y != 0 {
      DivUnique(Abs(x), Abs(y), q, r);
      MulMono(1, Abs(y), q);
      if Abs(y) >= 2 { MulMono(2, Abs(y), q); }
    }
  }
}
