/**
 * Go's fixed-width integer arithmetic, modelled on unbounded integers.
 *
 * A w-bit Go word is represented by its bit pattern, a `nat` below 2^w.
 * Unsigned Go values are their own pattern; a signed int64 is the signed
 * reading (`ToSigned`) of its two's-complement pattern. Addition and
 * subtraction wrap (`Wrap`), `x << n` drops every bit shifted past the word
 * and gives 0 once n reaches the width (`Shl`), and `&`, `|` work bit by bit
 * (`And`, `Or`).
 */
module GoWord {

  const MinInt64: int := -0x8000_0000_0000_0000
  const MaxInt64: int := 0x7fff_ffff_ffff_ffff
  const MaxUint32: int := 0xffff_ffff
  const MaxUint64: int := 0xffff_ffff_ffff_ffff

  type int64 = x: int | MinInt64 <= x <= MaxInt64
  type uint32 = x: int | 0 <= x <= MaxUint32
  type uint64 = x: int | 0 <= x <= MaxUint64

  function Pow2(n: nat): (r: nat)
    ensures r >= 1
  {
    if n == 0 then 1 else 2 * Pow2(n - 1)
  }

  /** The three word sizes the generators use. */
  lemma Pow2Words()
    ensures Pow2(32) == MaxUint32 + 1
    ensures Pow2(63) == MaxInt64 + 1
    ensures Pow2(64) == MaxUint64 + 1
  {
    Pow2Of32();
    Pow2Add(32, 31);
    Pow2Add(32, 32);
  }

  /**
   * The 64-bit fact of Pow2Words alone: proofs about 64-bit words call this
   * one so that 2^32 and 2^63 do not enter their context.
   */
  lemma Pow2Of64()
    ensures Pow2(64) == MaxUint64 + 1
  {
    Pow2Words();
  }

  lemma Pow2Of32()
    ensures Pow2(31) == 0x8000_0000 && Pow2(32) == 0x1_0000_0000
  {
    assert Pow2(8) == 256;
    Pow2Add(8, 8);
    Pow2Add(16, 16);
  }

  lemma {:induction false} Pow2Add(a: nat, b: nat)
    ensures Pow2(a + b) == Pow2(a) * Pow2(b)
  {
    if a > 0 {
      Pow2Add(a - 1, b);
    }
  }

  lemma {:induction false} Pow2Monotone(a: nat, b: nat)
    requires a <= b
    ensures Pow2(a) <= Pow2(b)
  {
    if a < b {
      Pow2Monotone(a, b - 1);
    }
  }

  lemma Pow2Strict(a: nat, b: nat)
    requires a < b
    ensures 2 * Pow2(a) <= Pow2(b)
  {
    Pow2Monotone(a + 1, b);
  }

  lemma {:induction false} Pow2Exceeds(n: nat)
    ensures n < Pow2(n)
  {
    if n > 0 {
      Pow2Exceeds(n - 1);
    }
  }

  // ---------------------------------------------------------------------------
  // Division and remainder facts (Dafny's / and % are Euclidean; all
  // operands below are non-negative or the divisor is positive)

  lemma DivModUnique(x: int, d: int, q: int, r: int)
    requires d > 0 && x == q * d + r && 0 <= r < d
    ensures x / d == q && x % d == r
  {
    var q0, r0 := x / d, x % d;
    assert x == q0 * d + r0;
    MulLeft(q - q0, d, r0 - r);
  }

  /** The quotient and remainder of m by p >= 1 as digits of m. */
  lemma DivDigits(m: nat, p: nat)
    requires p >= 1
    ensures 0 <= m / p <= m && 0 <= m % p < p && m == m / p * p + m % p
  {
    if m / p >= 1 {
      MulAtLeast(m / p, p);
    }
  }

  /** An integer multiple of d strictly between -d and d is zero. */
  lemma MulLeft(k: int, d: int, e: int)
    requires d > 0 && k * d == e && -d < e < d
    ensures k == 0
  {
    if k >= 1 {
      MulAtLeast(k, d);
      assert false;
    } else if k <= -1 {
      assert false;
    }
  }

  lemma MulAtLeast(a: nat, d: nat)
    requires a >= 1
    ensures a * d >= d
  {
    assert a * d == (a - 1) * d + d;
  }

  /** A two-digit number in base m with top digit below n is below n * m. */
  lemma MulBelow(a: int, b: int, n: int, m: int)
    requires 0 <= a < n && 0 <= b < m
    ensures 0 <= a * m + b < n * m
  {
    MulAtLeast(n - a, m);
    assert n * m == (n - a) * m + a * m;
  }

  /**
   * Adding one to the two-digit number a * m + b, modulo n * m: the low
   * digit goes up, or restarts at 0 and carries into the top digit.
   */
  lemma MulCarry(a: int, b: int, n: int, m: int)
    requires 0 <= a < n && 0 <= b < m
    ensures (a * m + b + 1) % (n * m) == if b + 1 < m then a * m + b + 1 else ((a + 1) % n) * m
  {
    if b + 1 < m {
      MulBelow(a, b + 1, n, m);
      DivModUnique(a * m + b + 1, n * m, 0, a * m + b + 1);
    } else if a + 1 < n {
      MulBelow(a + 1, 0, n, m);
      DivModUnique(a * m + b + 1, n * m, 0, a * m + b + 1);
      DivModUnique(a + 1, n, 0, a + 1);
    } else {
      assert a * m + b + 1 == n * m;
      MulMod(1, n * m);
      MulMod(1, n);
    }
  }

  lemma AddBelowMultiple(x: int, r: int, d: int)
    requires d > 0 && x % d == 0 && 0 <= r < d
    ensures (x + r) % d == r
  {
    DivModUnique(x + r, d, x / d, r);
  }

  lemma MulRegroup(x: int, a: int, b: int)
    ensures x * (a * b) == (x * b) * a
  {
  }

  lemma MulMod(a: int, d: int)
    requires d > 0
    ensures (a * d) % d == 0 && (a * d) / d == a
  {
    DivModUnique(a * d, d, a, 0);
  }

  lemma MulAddMod(a: int, d: int, r: int)
    requires d > 0
    ensures (a * d + r) % d == r % d
  {
    DivModUnique(a * d + r, d, a + r / d, r % d);
  }

  /** Reducing modulo m * c and then modulo m is reducing modulo m. */
  lemma ModMod(x: int, m: int, c: int)
    requires m > 0 && c > 0
    ensures (x % (m * c)) % m == x % m
  {
    var q := x / (m * c);
    assert x == q * (m * c) + x % (m * c);
    assert x == (q * c) * m + x % (m * c);
    MulAddMod(q * c, m, x % (m * c));
  }

  /** One bit split off the bottom: x mod 2m in terms of x/2 mod m. */
  lemma ModHalf(x: nat, m: nat)
    requires m > 0
    ensures x % (2 * m) == 2 * ((x / 2) % m) + x % 2
    ensures x / (2 * m) == (x / 2) / m
  {
    var h := x / 2;
    assert h == (h / m) * m + h % m;
    assert x == 2 * h + x % 2;
    assert x == (h / m) * (2 * m) + (2 * (h % m) + x % 2);
    DivModUnique(x, 2 * m, h / m, 2 * (h % m) + x % 2);
  }

  lemma ModAddOne(a: int, d: int)
    requires d > 0
    ensures (a % d + 1) % d == (a + 1) % d
  {
    var q := a / d;
    assert a + 1 == q * d + (a % d + 1);
    MulAddMod(q, d, a % d + 1);
  }

  // ---------------------------------------------------------------------------
  // Wrap-around and signedness

  /** The w-bit pattern Go stores for the mathematical value x. */
  function Wrap(x: int, w: nat): (r: nat)
    ensures r < Pow2(w)
  {
    x % Pow2(w)
  }

  /** Go adds the wrapped summand: the result is the same word. */
  lemma WrapSum(a: int, b: int, w: nat)
    ensures Wrap(a + Wrap(b, w), w) == Wrap(a + b, w)
  {
    var m := Pow2(w);
    DivModUnique(a + Wrap(b, w), m, (a + b) / m - b / m, (a + b) % m);
  }

  /** Go's `x++` on a w-bit word: the largest value wraps to 0. */
  function Inc(x: nat, w: nat): (r: nat)
    requires x < Pow2(w)
    ensures r < Pow2(w)
  {
    if x + 1 == Pow2(w) then 0 else x + 1
  }

  lemma IncWrap(x: nat, w: nat)
    requires x < Pow2(w)
    ensures Inc(x, w) == Wrap(x + 1, w)
  {
    if x + 1 == Pow2(w) {
      MulMod(1, Pow2(w));
    } else {
      WrapSmall(x + 1, w);
    }
  }

  /** The value of a 64-bit pattern read as Go's int64. */
  function ToSigned(u: nat): (v: int64)
    requires u < Pow2(64)
    ensures Wrap(v, 64) == u
  {
    Pow2Of64();
    if u <= MaxInt64 then
      u
    else
      MulAddMod(-1, Pow2(64), u);
      u - Pow2(64)
  }

  /** Go's int64 result of an arithmetic expression whose exact value is x. */
  function WrapI64(x: int): (r: int64)
    ensures Wrap(r, 64) == Wrap(x, 64)
  {
    if MinInt64 <= x <= MaxInt64 then x else ToSigned(Wrap(x, 64))
  }

  /** An int64 value needs no wrapping. */
  lemma WrapI64Small(x: int64)
    ensures WrapI64(x) == x
  {
  }

  /** Go's int64 result depends only on the 64-bit pattern of the exact value. */
  lemma WrapI64Pattern(x: int)
    ensures WrapI64(x) == ToSigned(Wrap(x, 64))
  {
    if MinInt64 <= x <= MaxInt64 {
      SignedOfPattern(x);
    }
  }

  /** Go's int64 increment of MaxInt64 wraps to MinInt64. */
  lemma WrapI64Overflow()
    ensures WrapI64(MaxInt64 + 1) == MinInt64
  {
    Pow2Of64();
    WrapSmall(MaxInt64 + 1, 64);
  }

  /** Go adds the wrapped int64 summand: the result is the same int64. */
  lemma WrapI64Sum(a: int, b: int)
    ensures WrapI64(a + WrapI64(b)) == WrapI64(a + b)
  {
    assert Wrap(a + WrapI64(b), 64) == Wrap(a + b, 64) by {
      WrapSum(a, WrapI64(b), 64);
      WrapSum(a, b, 64);
    }
    WrapI64Pattern(a + WrapI64(b));
    WrapI64Pattern(a + b);
  }

  /** Reading a pattern as int64 keeps its low k bits (Euclidean remainder). */
  lemma SignedLowBits(u: nat, k: nat)
    requires u < Pow2(64) && k <= 64
    ensures ToSigned(u) % Pow2(k) == u % Pow2(k)
  {
    WrapLowBits(ToSigned(u), 64, k);
  }

  /** Only the zero pattern reads as the int64 0. */
  lemma SignedNonZero(u: nat)
    requires 0 < u < Pow2(64)
    ensures ToSigned(u) != 0
  {
    Pow2Of64();
  }

  lemma WrapSmall(x: int, w: nat)
    requires 0 <= x < Pow2(w)
    ensures Wrap(x, w) == x
  {
    DivModUnique(x, Pow2(w), 0, x);
  }

  /** A non-negative int64 is its own pattern. */
  lemma WrapNonNegative64(x: int64)
    requires 0 <= x
    ensures Wrap(x, 64) == x && ToSigned(x) == x
  {
    Pow2Of64();
    WrapSmall(x, 64);
  }

  /** Two int64 values are equal exactly when their patterns are. */
  lemma WrapInjective64(x: int64, y: int64)
    ensures Wrap(x, 64) == Wrap(y, 64) <==> x == y
  {
    if Wrap(x, 64) == Wrap(y, 64) {
      SignedOfPattern(x);
      SignedOfPattern(y);
    }
  }

  lemma SignedOfPattern(x: int64)
    ensures ToSigned(Wrap(x, 64)) == x
  {
    Pow2Of64();
    if x >= 0 {
      WrapSmall(x, 64);
    } else {
      DivModUnique(x, Pow2(64), -1, x + Pow2(64));
    }
  }

  /** A value and its w-bit pattern agree on their low k bits, k <= w. */
  lemma WrapLowBits(x: int, w: nat, k: nat)
    requires k <= w
    ensures Wrap(x, w) % Pow2(k) == x % Pow2(k)
  {
    Pow2Add(k, w - k);
    ModMod(x, Pow2(k), Pow2(w - k));
  }

  // ---------------------------------------------------------------------------
  // Shifts

  /** Go's `x << n` on a w-bit word: bits pushed past the top are lost. */
  function Shl(x: nat, n: nat, w: nat): (r: nat)
    ensures r < Pow2(w)
  {
    if n >= w then 0 else (x * Pow2(n)) % Pow2(w)
  }

  lemma ShlZero(n: nat, w: nat)
    ensures Shl(0, n, w) == 0
  {
    if n < w {
      MulMod(0, Pow2(w));
    }
  }

  lemma ShlExact(x: nat, n: nat, w: nat)
    requires n < w && x * Pow2(n) < Pow2(w)
    ensures Shl(x, n, w) == x * Pow2(n)
  {
    WrapSmall(x * Pow2(n), w);
  }

  /** Shifting left by n leaves the low k bits clear, for k <= n and k <= w. */
  lemma ShlMultiple(x: nat, n: nat, w: nat, k: nat)
    requires k <= n && k <= w
    ensures Shl(x, n, w) % Pow2(k) == 0
  {
    if n < w {
      var y := x * Pow2(n);
      assert Shl(x, n, w) == Wrap(y, w);
      PowMultiple(x, n, k);
      WrapMultiple(y, w, k);
    } else {
      assert Shl(x, n, w) == 0;
    }
  }

  /** Wrapping keeps a multiple of 2^k one, for k <= w. */
  lemma WrapMultiple(y: int, w: nat, k: nat)
    requires k <= w && y % Pow2(k) == 0
    ensures Wrap(y, w) % Pow2(k) == 0
  {
    WrapLowBits(y, w, k);
  }

  lemma PowMultiple(x: nat, n: nat, k: nat)
    requires k <= n
    ensures (x * Pow2(n)) % Pow2(k) == 0
  {
    var a, b := Pow2(k), Pow2(n - k);
    Pow2Add(k, n - k);
    MulRegroup(x, a, b);
    MulMod(x * b, a);
  }

  /**
   * Go's `2 << (bits - 1)` on a w-bit word, bits itself a w-bit value: the
   * subtraction wraps when bits is 0. The value is 2^bits, or 0 once 2^bits
   * no longer fits in the word.
   */
  function TwoShl(bits: nat, w: nat): (r: nat)
    requires 1 <= w && bits < Pow2(w)
    ensures r == if 1 <= bits < w then Pow2(bits) else 0
  {
    TwoShlValue(bits, w);
    Shl(2, Wrap(bits - 1, w), w)
  }

  lemma TwoShlValue(bits: nat, w: nat)
    requires 1 <= w && bits < Pow2(w)
    ensures Shl(2, Wrap(bits - 1, w), w) == if 1 <= bits < w then Pow2(bits) else 0
  {
    var n := Wrap(bits - 1, w);
    if bits == 0 {
      assert n >= w by {
        WrapMinusOne(w);
      }
      assert Shl(2, n, w) == 0;
    } else {
      assert n == bits - 1 by {
        WrapSmall(bits - 1, w);
      }
      if bits < w {
        TwoShlFits(bits, w);
      } else if bits == w {
        TwoShlFull(w);
      } else {
        assert Shl(2, n, w) == 0;
      }
    }
  }

  lemma TwoShlFull(w: nat)
    requires 1 <= w
    ensures Shl(2, w - 1, w) == 0
  {
    MulMod(1, Pow2(w));
  }

  lemma TwoShlFits(bits: nat, w: nat)
    requires 1 <= bits < w
    ensures Shl(2, bits - 1, w) == Pow2(bits)
  {
    var n := bits - 1;
    assert 2 * Pow2(n) < Pow2(w) && 2 * Pow2(n) == Pow2(bits) by {
      Pow2Below(bits, w);
    }
    ShlExact(2, n, w);
  }

  lemma Pow2Below(bits: nat, w: nat)
    requires 1 <= bits < w
    ensures 2 * Pow2(bits - 1) == Pow2(bits) < Pow2(w)
  {
    Pow2Strict(bits, w);
  }

  /** The w-bit pattern of -1 is all ones, a shift count of at least w. */
  lemma WrapMinusOne(w: nat)
    ensures Wrap(-1, w) == Pow2(w) - 1 >= w
  {
    Pow2Exceeds(w);
    DivModUnique(-1, Pow2(w), -1, Pow2(w) - 1);
  }

  // ---------------------------------------------------------------------------
  // Bitwise and, or

  /** Go's `a | b` on bit patterns. */
  function Or(a: nat, b: nat): (r: nat)
    ensures a <= r && b <= r && r <= a + b
    decreases a + b
  {
    if a == 0 then b
    else if b == 0 then a
    else 2 * Or(a / 2, b / 2) + (if a % 2 == 1 || b % 2 == 1 then 1 else 0)
  }

  /** Go's `a & b` on bit patterns. */
  function And(a: nat, b: nat): (r: nat)
    ensures r <= a && r <= b
    decreases a + b
  {
    if a == 0 || b == 0 then 0
    else 2 * And(a / 2, b / 2) + (if a % 2 == 1 && b % 2 == 1 then 1 else 0)
  }

  /** The recursive equation of Or holds also when an operand is zero. */
  lemma OrStep(a: nat, b: nat)
    ensures Or(a, b) == 2 * Or(a / 2, b / 2) + (if a % 2 == 1 || b % 2 == 1 then 1 else 0)
  {
  }

  lemma {:induction false} OrIdempotent(x: nat)
    ensures Or(x, x) == x
    decreases x
  {
    if x > 0 {
      OrIdempotent(x / 2);
    }
  }

  /** The low k bits of x, taken off one at a time. */
  function LowBits(x: nat, k: nat): nat
  {
    if k == 0 then 0 else 2 * LowBits(x / 2, k - 1) + x % 2
  }

  lemma {:induction false} LowBitsMod(x: nat, k: nat)
    ensures LowBits(x, k) == x % Pow2(k)
  {
    if k > 0 {
      LowBitsMod(x / 2, k - 1);
      ModHalf(x, Pow2(k - 1));
    }
  }

  lemma {:induction false} OrLowBitsRec(a: nat, b: nat, k: nat)
    ensures LowBits(Or(a, b), k) == Or(LowBits(a, k), LowBits(b, k))
  {
    if k > 0 {
      var o, la, lb := Or(a, b), LowBits(a, k), LowBits(b, k);
      var bit := if a % 2 == 1 || b % 2 == 1 then 1 else 0;
      assert o / 2 == Or(a / 2, b / 2) && o % 2 == bit by {
        OrStep(a, b);
      }
      assert la / 2 == LowBits(a / 2, k - 1) && la % 2 == a % 2;
      assert lb / 2 == LowBits(b / 2, k - 1) && lb % 2 == b % 2;
      assert Or(la, lb) == 2 * Or(la / 2, lb / 2) + bit by {
        OrStep(la, lb);
      }
      OrLowBitsRec(a / 2, b / 2, k - 1);
    }
  }

  /** The low k bits of a | b are the | of the low k bits. */
  lemma OrLowBits(a: nat, b: nat, k: nat)
    ensures Or(a, b) % Pow2(k) == Or(a % Pow2(k), b % Pow2(k))
  {
    OrLowBitsRec(a, b, k);
    LowBitsMod(a, k);
    LowBitsMod(b, k);
    LowBitsMod(Or(a, b), k);
  }

  /** Or-ing b into bits that a leaves clear is adding it. */
  lemma {:induction false} OrDisjoint(a: nat, b: nat, k: nat)
    requires a % Pow2(k) == 0 && b < Pow2(k)
    ensures Or(a, b) == a + b
  {
    if k > 0 && b > 0 {
      var m := Pow2(k - 1);
      ModHalf(a, m);
      OrStep(a, b);
      OrDisjoint(a / 2, b / 2, k - 1);
    }
  }

  /** Or-ing two multiples of 2^k gives a multiple of 2^k. */
  lemma OrMultiple(a: nat, b: nat, k: nat)
    requires a % Pow2(k) == 0 && b % Pow2(k) == 0
    ensures Or(a, b) % Pow2(k) == 0
  {
    OrLowBits(a, b, k);
  }

  /** Below a multiple of 2^k, the low k bits of (hi | lo) are lo. */
  lemma OrLowTerm(hi: nat, lo: nat, k: nat)
    requires hi % Pow2(k) == 0 && lo < Pow2(k)
    ensures Or(hi, lo) % Pow2(k) == lo
  {
    OrDisjoint(hi, lo, k);
    AddBelowMultiple(hi, lo, Pow2(k));
  }

  /** Both operands below 2^w: so is their |. */
  lemma {:induction false} OrBound(a: nat, b: nat, w: nat)
    requires a < Pow2(w) && b < Pow2(w)
    ensures Or(a, b) < Pow2(w)
  {
    if w > 0 && a > 0 && b > 0 {
      OrBound(a / 2, b / 2, w - 1);
    }
  }

  lemma {:induction false} AndSelf(x: nat)
    ensures And(x, x) == x
    decreases x
  {
    if x > 0 {
      AndSelf(x / 2);
    }
  }

  /** x & 2^k keeps bit k of x alone: it is 0 or 2^k. */
  lemma {:induction false} AndPow2(x: nat, k: nat)
    ensures And(x, Pow2(k)) == 0 || And(x, Pow2(k)) == Pow2(k)
  {
    if x > 0 && k > 0 {
      AndPow2(x / 2, k - 1);
    }
  }
}
