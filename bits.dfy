/** Powers of two and the bitwise AND of Python's unbounded non-negative integers. */
module Bits {

  function Pow2(k: nat): (r: nat)
    ensures r >= 1
  {
    if k == 0 then 1 else 2 * Pow2(k - 1)
  }

  lemma {:induction false} Pow2Add(a: nat, b: nat)
    ensures Pow2(a + b) == Pow2(a) * Pow2(b)
  {
    if a > 0 {
      Pow2Add(a - 1, b);
      assert Pow2(a + b) == 2 * Pow2(a - 1 + b);
    }
  }

  lemma {:induction false} Pow2Monotone(a: nat, b: nat)
    requires a <= b
    ensures Pow2(a) <= Pow2(b)
  {
    if a < b {
      Pow2Monotone(a, b - 1);
    }
  }

  lemma Pow2Of32()
    ensures Pow2(32) == 0x1_0000_0000
  {
    Pow2Add(1, 1);
    Pow2Add(2, 2);
    Pow2Add(4, 4);
    Pow2Add(8, 8);
    Pow2Add(16, 16);
  }

  /** `a & b`, one bit at a time from the least significant end. */
  function BitAnd(a: nat, b: nat): (r: nat)
    ensures r <= a && r <= b
    decreases a
  {
    if a == 0 || b == 0 then 0
    else 2 * BitAnd(a / 2, b / 2) + (if a % 2 == 1 && b % 2 == 1 then 1 else 0)
  }

  /** The number formed by the k least significant bits of v. */
  function LowBits(v: nat, k: nat): nat
  {
    if k == 0 then 0 else 2 * LowBits(v / 2, k - 1) + v % 2
  }

  /** v shifted left by k bits. */
  function Shl(v: nat, k: nat): nat
  {
    if k == 0 then v else 2 * Shl(v, k - 1)
  }

  lemma {:induction false} ShlIsMul(v: nat, k: nat)
    ensures Shl(v, k) == v * Pow2(k)
  {
    if k > 0 {
      ShlIsMul(v, k - 1);
      assert v * Pow2(k) == 2 * (v * Pow2(k - 1));
    }
  }

  /** v shifted right by k bits. */
  function Shift(v: nat, k: nat): nat
  {
    if k == 0 then v else Shift(v / 2, k - 1)
  }

  lemma {:induction false} MulAtLeast(m: nat, d: nat)
    requires d >= 1
    ensures m * d >= m
  {
    if d > 1 {
      MulAtLeast(m, d - 1);
      assert m * d == m * (d - 1) + m;
    }
  }

  /** Division with remainder is unique. */
  lemma DivModUnique(v: int, m: int, q: int, w: int)
    requires m > 0 && 0 <= w < m && v == m * q + w
    ensures v / m == q && v % m == w
  {
    var q0, w0 := v / m, v % m;
    assert v == m * q0 + w0;
    var d := q - q0;
    assert m * q - m * q0 == m * d;
    assert m * d == w0 - w;
    if d > 0 {
      MulAtLeast(m, d);
    }
  }

  /** For a base aligned to m, x lies in [base, base + m) exactly when rounding x down to
      a multiple of m gives the base. */
  lemma SameBlock(x: nat, base: nat, m: nat)
    requires m > 0 && base % m == 0
    ensures base <= x < base + m <==> x - x % m == base
  {
    if base <= x < base + m {
      var q := base / m;
      assert base == m * q;
      DivModUnique(x, m, q, x - base);
    }
  }

  /** v is its high part shifted back left by k bits, plus its k low bits. */
  lemma {:induction false} LowBitsSplitShl(v: nat, k: nat)
    ensures LowBits(v, k) < Pow2(k)
    ensures v == Shl(Shift(v, k), k) + LowBits(v, k)
  {
    if k > 0 {
      LowBitsSplitShl(v / 2, k - 1);
      assert v == 2 * (v / 2) + v % 2;
    }
  }

  /** v splits into its high part, a multiple of 2^k, and its k low bits. */
  lemma LowBitsSplit(v: nat, k: nat)
    ensures LowBits(v, k) < Pow2(k)
    ensures v == Pow2(k) * Shift(v, k) + LowBits(v, k)
  {
    LowBitsSplitShl(v, k);
    ShlIsMul(Shift(v, k), k);
  }

  lemma LowBitsIsMod(v: nat, k: nat)
    ensures LowBits(v, k) == v % Pow2(k)
  {
    LowBitsSplit(v, k);
    DivModUnique(v, Pow2(k), Shift(v, k), LowBits(v, k));
  }

  lemma {:induction false} LowBitsOfSmall(v: nat, k: nat)
    requires v < Pow2(k)
    ensures LowBits(v, k) == v
  {
    if k > 0 {
      LowBitsOfSmall(v / 2, k - 1);
    }
  }

  /** Masking with k low one-bits keeps the k low bits. */
  lemma {:induction false} AndLowOnes(v: nat, k: nat)
    ensures BitAnd(v, Pow2(k) - 1) == LowBits(v, k)
  {
    if k > 0 && v > 0 {
      var b := Pow2(k) - 1;
      assert b % 2 == 1 && b / 2 == Pow2(k - 1) - 1;
      AndLowOnes(v / 2, k - 1);
    } else if k > 0 {
      AndLowOnes(0, k - 1);
    }
  }

  /** One bit of the induction below: the lowest bit of v is cleared because the mask's
      lowest bit is 0, and the rest is the same masking one bit down. */
  lemma AndHighStep(v: nat, n: nat, k: nat)
    requires 0 < k <= n && Pow2(k) < Pow2(n)
    requires BitAnd(v / 2, Pow2(n - 1) - Pow2(k - 1)) == v / 2 - LowBits(v / 2, k - 1)
    ensures BitAnd(v, Pow2(n) - Pow2(k)) == v - LowBits(v, k)
  {
    var b := Pow2(n) - Pow2(k);
    assert b % 2 == 0 && b / 2 == Pow2(n - 1) - Pow2(k - 1);
    assert BitAnd(v, b) == 2 * BitAnd(v / 2, b / 2);
    assert LowBits(v, k) == 2 * LowBits(v / 2, k - 1) + v % 2;
    assert v == 2 * (v / 2) + v % 2;
  }

  /** Masking a value below 2^n with the ones in bits k..n-1 clears its k low bits. */
  lemma {:induction false} AndHighOnes(v: nat, n: nat, k: nat)
    requires k <= n && v < Pow2(n)
    ensures Pow2(k) <= Pow2(n)
    ensures BitAnd(v, Pow2(n) - Pow2(k)) == v - LowBits(v, k)
  {
    Pow2Monotone(k, n);
    if k == 0 {
      AndLowOnes(v, n);
      LowBitsOfSmall(v, n);
    } else if v == 0 {
      LowBitsOfSmall(0, k);
    } else if Pow2(k) == Pow2(n) {
      LowBitsOfSmall(v, k);
    } else {
      AndHighOnes(v / 2, n - 1, k - 1);
      AndHighStep(v, n, k);
    }
  }
}
