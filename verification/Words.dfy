/** 32-bit two's-complement words, held as the signed integer they denote. */
module Words {

  const WORD_SPAN: int := 0x1_0000_0000
  const WORD_HALF: int := 0x8000_0000

  type Word = x: int | -0x8000_0000 <= x < 0x8000_0000

  /** A signed 16-bit immediate. */
  type Half = x: int | -0x8000 <= x < 0x8000

  /** The word congruent to x modulo 2^32: what a 32-bit register keeps of x. */
  function Norm(x: int): (w: Word)
    ensures (x - w) % WORD_SPAN == 0
  {
    (x + WORD_HALF) % WORD_SPAN - WORD_HALF
  }

  /** The cast to int16_t, sign extended. */
  function Int16(x: int): (h: Half)
    ensures (x - h) % 0x1_0000 == 0
  {
    (x + 0x8000) % 0x1_0000 - 0x8000
  }

  predicate IsWord(x: int) {
    -0x8000_0000 <= x < 0x8000_0000
  }

  predicate IsHalf(x: int) {
    -0x8000 <= x < 0x8000
  }

  /** The unsigned reading of a word. */
  function Unsigned(w: Word): (u: int)
    ensures 0 <= u < WORD_SPAN
    ensures Norm(u) == w
  {
    if w < 0 then w + WORD_SPAN else w
  }

  lemma NormWord(x: int)
    requires IsWord(x)
    ensures Norm(x) == x
  {
  }

  lemma HalfFits(x: int)
    requires IsHalf(x)
    ensures Int16(x) == x
  {
  }

  /** Two integers that differ by a multiple of 2^32 are the same word. */
  lemma NormCongruent(x: int, y: int, k: int)
    requires x == y + k * WORD_SPAN
    ensures Norm(x) == Norm(y)
  {
    var q, r := (y + WORD_HALF) / WORD_SPAN, (y + WORD_HALF) % WORD_SPAN;
    assert x + WORD_HALF == (q + k) * WORD_SPAN + r;
    DivModUnique(x + WORD_HALF, WORD_SPAN, q + k, r);
  }

  lemma DivModUnique(x: int, m: int, q: int, r: int)
    requires m > 0 && 0 <= r < m && x == q * m + r
    ensures x / m == q && x % m == r
  {
    var d := x / m - q;
    assert x == (x / m) * m + x % m;
    assert d * m == r - x % m by {
      assert d * m == (x / m) * m - q * m;
    }
    MulGrows(d, m);
  }

  lemma MulGrows(d: int, m: int)
    requires m > 0
    ensures d >= 1 ==> d * m >= m
    ensures d <= -1 ==> d * m <= -m
  {
  }

  /** Rounding to a word after each of two additions equals rounding once. */
  lemma NormAdd(x: int, y: int)
    ensures Norm(Norm(x) + y) == Norm(x + y)
  {
    var k := (x - Norm(x)) / WORD_SPAN;
    NormCongruent(x + y, Norm(x) + y, k);
  }

  /** Subtracting a word and adding it back restores the minuend, overflow or not. */
  lemma SubThenAdd(s: Word, t: int)
    ensures Norm(Norm(s - t) + t) == s
  {
    NormAdd(s - t, t);
  }

  lemma NegNorm(x: int)
    ensures Norm(0 - Norm(x)) == Norm(-x)
  {
    var k := (x - Norm(x)) / WORD_SPAN;
    NormCongruent(0 - Norm(x), -x, k);
  }

  function Pow2(n: nat): (p: int)
    ensures p >= 1
  {
    if n == 0 then 1 else 2 * Pow2(n - 1)
  }

  lemma Pow2Values()
    ensures Pow2(4) == 16
    ensures Pow2(15) == 0x8000 && Pow2(16) == 0x1_0000
    ensures Pow2(31) == 0x8000_0000
  {
    assert Pow2(4) == 16;
    assert Pow2(8) == 16 * Pow2(4);
    assert Pow2(12) == 16 * Pow2(8);
    assert Pow2(16) == 16 * Pow2(12);
    assert Pow2(20) == 16 * Pow2(16);
    assert Pow2(24) == 16 * Pow2(20);
    assert Pow2(28) == 16 * Pow2(24);
    assert Pow2(31) == 8 * Pow2(28);
  }

  /** Distance of an integer from the all-zero and all-one words, 0 and -1. */
  function Magnitude(x: int): nat {
    if x < 0 then -x - 1 else x
  }

  /** Bitwise or of two integers in two's complement of unbounded width. */
  function BitOr(a: int, b: int): int
    decreases Magnitude(a) + Magnitude(b)
  {
    if Magnitude(a) == 0 && Magnitude(b) == 0 then
      if a == -1 || b == -1 then -1 else 0
    else
      2 * BitOr(a / 2, b / 2) + (if a % 2 == 1 || b % 2 == 1 then 1 else 0)
  }

  /** Bitwise and, likewise. */
  function BitAnd(a: int, b: int): int
    decreases Magnitude(a) + Magnitude(b)
  {
    if Magnitude(a) == 0 && Magnitude(b) == 0 then
      if a == -1 && b == -1 then -1 else 0
    else
      2 * BitAnd(a / 2, b / 2) + (if a % 2 == 1 && b % 2 == 1 then 1 else 0)
  }

  /** Bit n of an integer in two's complement. */
  predicate Bit(x: int, n: nat) {
    x / Pow2(n) % 2 == 1
  }

  /** Bit 0 is the last bit, and bit n that of the rest one place down. */
  lemma BitStep(x: int, half: int, last: int, n: nat)
    requires 0 <= last <= 1 && x == 2 * half + last
    ensures Bit(x, n) <==> if n == 0 then last == 1 else Bit(half, n - 1)
  {
    if n > 0 {
      var p := Pow2(n - 1);
      var q, r := half / p, half % p;
      assert q * (2 * p) == 2 * (q * p);
      DivModUnique(x, 2 * p, q, 2 * r + last);
    }
  }

  lemma OrStep(a: int, b: int)
    ensures BitOr(a, b) == 2 * BitOr(a / 2, b / 2) + (if a % 2 == 1 || b % 2 == 1 then 1 else 0)
  {
  }

  /** A bit of an or is set exactly when it is set in either. */
  lemma {:induction false} OrBits(a: int, b: int, n: nat)
    ensures Bit(BitOr(a, b), n) <==> Bit(a, n) || Bit(b, n)
    decreases n
  {
    hide BitOr, Bit;
    OrStep(a, b);
    BitStep(a, a / 2, a % 2, n);
    BitStep(b, b / 2, b % 2, n);
    BitStep(BitOr(a, b), BitOr(a / 2, b / 2), if a % 2 == 1 || b % 2 == 1 then 1 else 0, n);
    if n > 0 {
      OrBits(a / 2, b / 2, n - 1);
    }
  }

  lemma AndStep(a: int, b: int)
    ensures BitAnd(a, b) == 2 * BitAnd(a / 2, b / 2) + (if a % 2 == 1 && b % 2 == 1 then 1 else 0)
  {
  }

  /** A bit of an and is set exactly when it is set in both. */
  lemma {:induction false} AndBits(a: int, b: int, n: nat)
    ensures Bit(BitAnd(a, b), n) <==> Bit(a, n) && Bit(b, n)
    decreases n
  {
    hide BitAnd, Bit;
    AndStep(a, b);
    BitStep(a, a / 2, a % 2, n);
    BitStep(b, b / 2, b % 2, n);
    BitStep(BitAnd(a, b), BitAnd(a / 2, b / 2), if a % 2 == 1 && b % 2 == 1 then 1 else 0, n);
    if n > 0 {
      AndBits(a / 2, b / 2, n - 1);
    }
  }

  lemma {:induction false} BitOrRange(a: int, b: int, n: nat)
    requires -Pow2(n) <= a < Pow2(n) && -Pow2(n) <= b < Pow2(n)
    ensures -Pow2(n) <= BitOr(a, b) < Pow2(n)
    decreases n
  {
    if n > 0 {
      BitOrRange(a / 2, b / 2, n - 1);
    }
  }

  function Or32(a: Word, b: Word): Word {
    Pow2Values();
    BitOrRange(a, b, 31);
    BitOr(a, b)
  }

  /** A register moved with `or rd, rs, zero` keeps its value. */
  lemma {:induction false} OrZero(a: int)
    ensures BitOr(a, 0) == a && BitOr(0, a) == a
    decreases Magnitude(a)
  {
    if Magnitude(a) > 0 {
      OrZero(a / 2);
    }
  }

  /** The tag test of the number fast path: the or is zero exactly when both tags are. */
  lemma {:induction false} OrNil(a: int, b: int)
    ensures BitOr(a, b) == 0 <==> a == 0 && b == 0
    decreases Magnitude(a) + Magnitude(b)
  {
    if Magnitude(a) > 0 || Magnitude(b) > 0 {
      OrNil(a / 2, b / 2);
    }
  }

  /** Or-ing a multiple of 2^m with something below 2^m adds them. */
  lemma {:induction false} OrDisjoint(q: int, lo: int, m: nat)
    requires 0 <= lo < Pow2(m)
    ensures BitOr(q * Pow2(m), lo) == q * Pow2(m) + lo
    decreases m
  {
    if m == 0 {
      OrZero(q);
    } else {
      OrDisjoint(q, lo / 2, m - 1);
      var h := q * Pow2(m - 1);
      DoubleShift(q, m);
      assert 2 * h / 2 == h && 2 * h % 2 == 0;
      if h == 0 && lo == 0 {
      } else {
        assert BitOr(2 * h, lo) == 2 * BitOr(h, lo / 2) + lo % 2;
      }
    }
  }

  lemma DoubleShift(q: int, m: nat)
    requires m > 0
    ensures q * Pow2(m) == 2 * (q * Pow2(m - 1))
  {
    var p := Pow2(m - 1);
    assert q * (2 * p) == 2 * (q * p);
  }

  lemma OrHighLow(hi: int, lo: int)
    requires 0 <= lo < 0x1_0000
    ensures BitOr(hi * 0x1_0000, lo) == hi * 0x1_0000 + lo
  {
    Pow2Values();
    OrDisjoint(hi, lo, 16);
  }

  /** The quotient of C's signed division, truncated toward zero. */
  function TruncDiv(a: int, b: int): (q: int)
    requires b != 0
  {
    if a >= 0 then a / b else -((-a) / b)
  }

  /** The remainder of C's signed division, with the sign of the dividend. */
  function TruncMod(a: int, b: int): (r: int)
    requires b != 0
  {
    a - b * TruncDiv(a, b)
  }

  /** Quotient and remainder recombine; the remainder is small and has the dividend's sign. */
  lemma TruncDivContract(a: int, b: int)
    requires b != 0
    ensures a == b * TruncDiv(a, b) + TruncMod(a, b)
    ensures a >= 0 ==> 0 <= TruncMod(a, b) < (if b < 0 then -b else b)
    ensures a <= 0 ==> -(if b < 0 then -b else b) < TruncMod(a, b) <= 0
  {
    if a >= 0 {
      assert a == b * (a / b) + a % b;
    } else {
      assert -a == b * ((-a) / b) + (-a) % b;
    }
  }

  /** The test of ispowerof2: one bit set, seen as x & (x - 1). */
  predicate IsPowerOf2(x: int) {
    x != 0 && BitAnd(x, x - 1) == 0
  }

  /** The exponent that ilog2's shifting loop counts. */
  function ILog2(x: nat): (r: nat)
  {
    if x < 2 then 0 else 1 + ILog2(x / 2)
  }

  /** It is that of the greatest power of two not above x. */
  lemma {:induction false} ILog2Greatest(x: nat)
    requires x > 0
    ensures Pow2(ILog2(x)) <= x < 2 * Pow2(ILog2(x))
    decreases x
  {
    if x > 1 {
      ILog2Greatest(x / 2);
    }
  }

  method Ilog2(x: nat) returns (r: nat)
    ensures r == ILog2(x)
    ensures if x == 0 then r == 0 else Pow2(r) <= x < 2 * Pow2(r)
  {
    if x > 0 {
      ILog2Greatest(x);
    }
    r := 0;
    var y: nat := x / 2;
    while y != 0
      invariant y == 0 ==> ILog2(x) == r
      invariant y != 0 ==> ILog2(x) == r + 1 + ILog2(y)
      decreases y
    {
      r := r + 1;
      y := y / 2;
    }
  }

  lemma {:induction false} AndSelf(x: int)
    ensures BitAnd(x, x) == x
    decreases Magnitude(x)
  {
    if Magnitude(x) > 0 {
      AndSelf(x / 2);
    }
  }

  lemma {:induction false} AndPredecessor(x: int)
    requires x > 0
    ensures BitAnd(x, x - 1) == 0 <==> x == Pow2(ILog2(x))
    decreases x
  {
    if x % 2 == 1 {
      AndSelf(x / 2);
      assert (x - 1) / 2 == x / 2;
      if x > 1 {
        assert Pow2(ILog2(x)) % 2 == 0;
      }
    } else {
      AndPredecessor(x / 2);
      assert (x - 1) / 2 == x / 2 - 1 && (x - 1) % 2 == 1;
    }
  }

  lemma {:induction false} AndNegatives(x: int, y: int)
    requires x < 0 && y < 0
    ensures BitAnd(x, y) < 0
    decreases Magnitude(x) + Magnitude(y)
  {
    if Magnitude(x) > 0 || Magnitude(y) > 0 {
      AndNegatives(x / 2, y / 2);
    }
  }

  /** The bit trick finds the powers of two, and ilog2 recovers the exponent. */
  lemma PowerOf2(x: int)
    ensures IsPowerOf2(x) <==> x > 0 && x == Pow2(ILog2(x))
  {
    if x > 0 {
      AndPredecessor(x);
    } else if x < 0 {
      AndNegatives(x, x - 1);
    }
  }
}
