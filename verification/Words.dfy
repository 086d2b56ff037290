/**
 32-bit machine words as bounded integers, with the shifts, masks and bitwise "or" that
 the 64-bit arithmetic of the gPTP stack is written with. Wrap-around is explicit: every
 operation that can leave the word is reduced modulo 2^32.
 */
module Words {

  const WORD: int := 0x1_0000_0000
  const DWORD: int := 0x1_0000_0000_0000_0000

  /** An `unsigned long`, 32 bits wide. */
  type Word = x: int | 0 <= x < 0x1_0000_0000

  /** A signed `int` or `long`, 32 bits wide. */
  type SWord = x: int | -0x8000_0000 <= x < 0x8000_0000

  function Wrap(x: int): (w: Word) {
    x % WORD
  }

  /** Reads the bit pattern of a word as a signed number. */
  function Signed(w: Word): (s: SWord) {
    if w < 0x8000_0000 then w else w - WORD
  }

  function Pow2(n: nat): (p: int)
    ensures 0 < p
  {
    if n == 0 then 1 else 2 * Pow2(n - 1)
  }

  lemma {:induction false} Pow2Add(m: nat, n: nat)
    ensures Pow2(m + n) == Pow2(m) * Pow2(n)
  {
    if m == 0 {
    } else {
      Pow2Add(m - 1, n);
      assert Pow2(m + n) == 2 * (Pow2(m - 1) * Pow2(n));
    }
  }

  lemma {:induction false} Pow2Monotonic(m: nat, n: nat)
    requires m <= n
    ensures Pow2(m) <= Pow2(n)
    decreases n - m
  {
    if m < n {
      Pow2Monotonic(m + 1, n);
    }
  }

  lemma Pow2Word()
    ensures Pow2(32) == WORD
    ensures Pow2(31) == 0x8000_0000
    ensures Pow2(64) == DWORD
  {
    assert Pow2(8) == 256;
    Pow2Add(8, 8);
    Pow2Add(16, 16);
    Pow2Add(32, 32);
  }

  /** `x >> n` on an unsigned word. */
  function Shr(x: Word, n: nat): (r: Word)
    ensures r <= x
  {
    DivBound(x, Pow2(n));
    x / Pow2(n)
  }

  /** `x << n` on an unsigned word: the bits shifted out are lost. */
  function Shl(x: Word, n: nat): (r: Word) {
    Wrap(x * Pow2(n))
  }

  /** Bitwise inclusive "or" of two non-negative numbers, bit by bit. */
  function Or(a: nat, b: nat): (r: nat)
    ensures a <= r && b <= r <= a + b
  {
    if a == 0 then b
    else if b == 0 then a
    else 2 * Or(a / 2, b / 2) + (if a % 2 == 1 || b % 2 == 1 then 1 else 0)
  }

  /** The "or" of two words is a word. */
  function Or32(a: Word, b: Word): (r: Word) {
    Pow2Word();
    OrBound(a, b, 32);
    Or(a, b)
  }

  lemma {:induction false} OrBound(a: nat, b: nat, k: nat)
    requires a < Pow2(k) && b < Pow2(k)
    ensures Or(a, b) < Pow2(k)
  {
    if a == 0 || b == 0 {
    } else {
      OrBound(a / 2, b / 2, k - 1);
    }
  }

  /** Operands without a common bit position are added by "or". */
  lemma {:induction false} OrDisjoint(hi: nat, lo: nat, k: nat)
    requires hi % Pow2(k) == 0 && lo < Pow2(k)
    ensures Or(hi, lo) == hi + lo
    ensures Or(lo, hi) == hi + lo
  {
    if hi == 0 || lo == 0 || k == 0 {
    } else {
      var h := hi / Pow2(k);
      assert hi == h * Pow2(k) by { FloorMod(hi, Pow2(k)); }
      assert hi == 2 * (h * Pow2(k - 1));
      assert hi / 2 == h * Pow2(k - 1);
      MultipleMod(h, Pow2(k - 1));
      OrDisjoint(hi / 2, lo / 2, k - 1);
    }
  }

  // ----- division by a variable amount

  lemma DivBound(x: int, d: int)
    requires 0 <= x && 0 < d
    ensures 0 <= x / d <= x
  {
    FloorMod(x, d);
    var q := x / d;
    if q < 0 {
      MulMono(q, -1, d);
    } else {
      MulMono(1, d, q);
    }
  }

  lemma FloorMod(x: int, d: int)
    requires 0 < d
    ensures x == x / d * d + x % d
    ensures 0 <= x % d < d
  {
  }

  lemma MulMono(a: int, b: int, c: int)
    requires a <= b && 0 <= c
    ensures a * c <= b * c
  {
  }

  lemma MulPos(a: int, b: int)
    requires 0 <= a && 0 <= b
    ensures 0 <= a * b
  {
  }

  /** The quotient and remainder are the only pair of their kind. */
  lemma DivUnique(x: int, d: int, q: int, r: int)
    requires 0 < d && x == q * d + r && 0 <= r < d
    ensures q == x / d && r == x % d
  {
    FloorMod(x, d);
    var q', r' := x / d, x % d;
    assert (q - q') * d == r' - r;
    if q < q' {
      MulMono(q - q', -1, d);
    } else if q' < q {
      MulMono(1, q - q', d);
    }
  }

  lemma MulLess(a: int, b: int, c: int)
    requires a < b && 0 < c
    ensures a * c + c <= b * c
  {
    MulMono(a + 1, b, c);
  }

  lemma CancelLe(a: int, b: int, c: int)
    requires 0 < c && a * c <= b * c
    ensures a <= b
  {
    if b < a { MulLess(b, a, c); }
  }

  lemma CancelLess(a: int, b: int, c: int)
    requires 0 < c && a * c < b * c
    ensures a < b
  {
    if b <= a { MulMono(b, a, c); }
  }

  /** The quotient is the greatest number whose product with the divisor fits. */
  lemma DivAtLeast(x: int, d: int, t: int)
    requires 0 < d && t * d <= x
    ensures t <= x / d
  {
    FloorMod(x, d);
    if x / d < t { MulLess(x / d, t, d); }
  }

  lemma DivBelow(x: int, d: int, t: int)
    requires 0 < d && x < t * d
    ensures x / d < t
  {
    FloorMod(x, d);
    CancelLess(x / d, t, d);
  }

  lemma Reassociate(a: int, b: int, c: int)
    ensures a * b * c == a * (b * c)
  {
  }

  lemma MultipleMod(h: int, d: int)
    requires 0 < d
    ensures h * d % d == 0 && h * d / d == h
  {
    DivUnique(h * d, d, h, 0);
  }

  lemma ModDrop(x: int, k: int, d: int)
    requires 0 < d
    ensures (x + k * d) % d == x % d
  {
    FloorMod(x, d);
    assert x + k * d == (x / d + k) * d + x % d;
    DivUnique(x + k * d, d, x / d + k, x % d);
  }

  lemma WrapOnce(x: int)
    requires -WORD <= x < 2 * WORD
    ensures Wrap(x) == if x < 0 then x + WORD else if x < WORD then x else x - WORD
  {
    DivUnique(x, WORD, if x < 0 then -1 else if x < WORD then 0 else 1, Wrap(x));
  }

  lemma Distribute(q: int, d: int, m: int, e: int)
    ensures (q * d + m) * e == q * (d * e) + m * e
  {
    assert q * d * e == q * (d * e);
  }

  /** Shifting a number within a word splits it: `e` moves it left, `d` is what then falls off. */
  lemma SplitWord(w: int, d: int, e: int)
    requires 0 < d && 0 < e && d * e == WORD
    ensures w * e == w / d * WORD + w % d * e
    ensures Wrap(w * e) == w % d * e
    ensures 0 <= w % d * e <= WORD - e
    ensures w % d * e % e == 0
    ensures 0 <= w < WORD ==> 0 <= w / d < e
  {
    FloorMod(w, d);
    var q, m := w / d, w % d;
    Distribute(q, d, m, e);
    MulMono(m, d - 1, e);
    MulPos(m, e);
    assert (d - 1) * e == WORD - e;
    DivUnique(w * e, WORD, q, m * e);
    MultipleMod(m, e);
    if 0 <= w < WORD {
      DivBound(w, d);
      if e <= q { MulMono(e, q, d); }
    }
  }
}
