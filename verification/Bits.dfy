/** Powers of two, alignment, and the bit operations the buddy allocator uses.
    Alignment is defined one bit at a time, so that its proofs stay linear;
    AlignedIsMultiple says that it is divisibility by 2^k. */
module Bits {
  import opened Arith

  function Pow2(k: nat): (r: nat)
    ensures r >= 1
  {
    if k == 0 then 1 else 2 * Pow2(k - 1)
  }

  /** n shifted left by k bits: n blocks of 2^k frames. */
  function Shl(n: nat, k: nat): nat {
    if k == 0 then n else 2 * Shl(n, k - 1)
  }

  /** The low k bits of p are zero. */
  predicate Aligned(p: nat, k: nat)
    decreases k
  {
    k == 0 || (p % 2 == 0 && Aligned(p / 2, k - 1))
  }

  /** Frame f lies in the 2^k frames that start at p. */
  predicate InBlock(f: int, p: nat, k: nat) {
    p <= f < p + Pow2(k)
  }

  predicate Disjoint(p: nat, j: nat, q: nat, k: nat) {
    p + Pow2(j) <= q || q + Pow2(k) <= p
  }

  /** Bitwise exclusive or. */
  function Xor(a: nat, b: nat): nat {
    if a == 0 then b
    else if b == 0 then a
    else 2 * Xor(a / 2, b / 2) + (a + b) % 2
  }

  /** `trailing_zeros` of a 32-bit word. */
  function TrailingZeros(n: nat): nat {
    if n == 0 then 32 else if n % 2 == 1 then 0 else 1 + TrailingZeros(n / 2)
  }

  /** Index of the highest set bit, `BITS - 1 - leading_zeros`. */
  function FloorLog2(n: nat): nat
    requires n > 0
  {
    if n == 1 then 0 else 1 + FloorLog2(n / 2)
  }

  lemma {:induction false} Pow2Mono(j: nat, k: nat)
    requires j <= k
    ensures Pow2(j) <= Pow2(k)
  {
    if j < k { Pow2Mono(j, k - 1); }
  }

  lemma Pow2Strict(j: nat, k: nat)
    requires j < k
    ensures 2 * Pow2(j) <= Pow2(k)
  {
  }

  lemma {:induction false} ShlIsTimes(n: nat, k: nat)
    ensures Shl(n, k) == n * Pow2(k)
  {
    if k > 0 { ShlIsTimes(n, k - 1); }
  }

  lemma {:induction false} ShlSucc(n: nat, k: nat)
    ensures Shl(n + 1, k) == Shl(n, k) + Pow2(k)
  {
    if k > 0 { ShlSucc(n, k - 1); }
  }

  lemma {:induction false} AlignedIsMultiple(p: nat, k: nat)
    ensures Aligned(p, k) <==> p % Pow2(k) == 0
  {
    if k > 0 {
      AlignedIsMultiple(p / 2, k - 1);
      var m, n := Pow2(k - 1), Pow2(k);
      DivDiv(p, 2, m, n);
      var low := p % n;
      assert low == 2 * (low / 2) + low % 2;
    }
  }

  lemma {:induction false} AlignedDown(p: nat, j: nat, k: nat)
    requires j <= k && Aligned(p, k)
    ensures Aligned(p, j)
    decreases j
  {
    if j > 0 { AlignedDown(p / 2, j - 1, k - 1); }
  }

  /** Two aligned blocks are disjoint, or the smaller lies inside the larger. */
  lemma {:induction false} NestedOrDisjoint(p: nat, j: nat, q: nat, k: nat)
    requires j <= k && Aligned(p, j) && Aligned(q, k)
    ensures Disjoint(p, j, q, k) || (q <= p && p + Pow2(j) <= q + Pow2(k))
    decreases j
  {
    if j > 0 { NestedOrDisjoint(p / 2, j - 1, q / 2, k - 1); }
  }

  /** Adding or subtracting 2^k keeps alignment to k. */
  lemma {:induction false} AlignedStep(p: nat, k: nat)
    requires Aligned(p, k)
    ensures Aligned(p + Pow2(k), k)
    ensures p >= Pow2(k) ==> Aligned(p - Pow2(k), k)
    ensures p >= Pow2(k) || p == 0
    decreases k
  {
    if k > 0 {
      AlignedStep(p / 2, k - 1);
      assert (p + Pow2(k)) / 2 == p / 2 + Pow2(k - 1);
      if p >= Pow2(k) { assert (p - Pow2(k)) / 2 == p / 2 - Pow2(k - 1); }
    }
  }

  lemma AlignedHalf(p: nat, k: nat)
    requires k > 0 && Aligned(p, k)
    ensures Aligned(p, k - 1) && Aligned(p + Pow2(k - 1), k - 1)
  {
    AlignedDown(p, k - 1, k);
    AlignedStep(p, k - 1);
  }

  /** Of two neighbouring k-aligned blocks exactly one starts at a (k+1)-aligned frame. */
  lemma {:induction false} AlignedParity(p: nat, k: nat)
    requires Aligned(p, k)
    ensures Aligned(p, k + 1) <==> !Aligned(p + Pow2(k), k + 1)
    ensures !Aligned(p, k + 1) ==> p >= Pow2(k) && Aligned(p - Pow2(k), k + 1)
    decreases k
  {
    if k == 0 {
      assert Aligned(p, 1) <==> p % 2 == 0;
      assert Aligned(p + 1, 1) <==> (p + 1) % 2 == 0;
      if p > 0 { assert Aligned(p - 1, 1) <==> (p - 1) % 2 == 0; }
    } else {
      AlignedParity(p / 2, k - 1);
      assert (p + Pow2(k)) / 2 == p / 2 + Pow2(k - 1);
      if !Aligned(p, k + 1) { assert (p - Pow2(k)) / 2 == p / 2 - Pow2(k - 1); }
    }
  }

  /** Flipping bit k of a k-aligned frame number adds or subtracts 2^k. */
  lemma {:induction false} XorFlips(p: nat, k: nat)
    requires Aligned(p, k)
    ensures Aligned(p, k + 1) ==> Xor(p, Pow2(k)) == p + Pow2(k)
    ensures !Aligned(p, k + 1) ==> p >= Pow2(k) && Xor(p, Pow2(k)) == p - Pow2(k)
    decreases k
  {
    if k == 0 {
      assert Aligned(p, 1) <==> p % 2 == 0;
      XorZero(p / 2);
    } else {
      var q, b := p / 2, Pow2(k - 1);
      XorFlips(q, k - 1);
      XorEven(p, Pow2(k), q, b);
      assert Aligned(p, k + 1) <==> Aligned(q, k);
    }
  }

  lemma XorEven(p: nat, r: nat, q: nat, b: nat)
    requires p == 2 * q && r == 2 * b
    ensures Xor(p, r) == 2 * Xor(q, b)
  {
    if q == 0 || b == 0 {
      XorZero(q);
    } else {
      assert p / 2 == q && r / 2 == b && (p + r) % 2 == 0;
    }
  }

  lemma XorZero(a: nat)
    ensures Xor(a, 0) == a
  {
  }

  lemma {:induction false} TrailingZerosAlign(n: nat, k: nat)
    requires k <= 32
    ensures Aligned(n, k) <== k <= TrailingZeros(n)
    ensures n != 0 && Aligned(n, k) ==> k <= TrailingZeros(n)
    decreases k
  {
    if n == 0 {
      ZeroAligned(k);
    } else if k > 0 && n % 2 == 0 {
      TrailingZerosAlign(n / 2, k - 1);
    }
  }

  lemma {:induction false} ZeroAligned(k: nat)
    ensures Aligned(0, k)
  {
    if k > 0 { ZeroAligned(k - 1); }
  }

  lemma {:induction false} FloorLog2Bound(n: nat, k: nat)
    requires n > 0
    ensures Pow2(k) <= n <==> k <= FloorLog2(n)
    decreases n
  {
    if k > 0 && n > 1 {
      FloorLog2Bound(n / 2, k - 1);
    } else if k > 0 {
      Pow2Mono(1, k);
    }
  }

  lemma {:induction false} AlignedSum(a: nat, b: nat, k: nat)
    requires Aligned(a, k)
    ensures Aligned(a + b, k) <==> Aligned(b, k)
    decreases k
  {
    if k > 0 {
      AlignedSum(a / 2, b / 2, k - 1);
      if b % 2 == 0 { assert (a + b) / 2 == a / 2 + b / 2; }
    }
  }

  lemma {:induction false} AlignedPow2(j: nat, k: nat)
    ensures Aligned(Pow2(j), k) <==> k <= j
    decreases k
  {
    if k > 0 && j > 0 { AlignedPow2(j - 1, k - 1); }
  }

  lemma {:induction false} AlignedShl(p: nat, j: nat, k: nat)
    requires Aligned(p, k)
    ensures Aligned(Shl(p, j), k + j)
    decreases j
  {
    if j > 0 {
      AlignedShl(p, j - 1, k);
      AlignedTwice(Shl(p, j - 1), Shl(p, j), k + j);
    }
  }

  lemma AlignedTwice(h: nat, n: nat, k: nat)
    requires n == 2 * h && k > 0 && Aligned(h, k - 1)
    ensures Aligned(n, k)
  {
    assert n / 2 == h;
  }

  /** The least k with n <= 2^k, so that 2^k is `next_power_of_two`. */
  function CeilLog2(n: nat): nat {
    if n <= 1 then 0 else 1 + CeilLog2((n + 1) / 2)
  }

  lemma {:induction false} CeilLog2Bound(n: nat, k: nat)
    ensures n <= Pow2(k) <==> CeilLog2(n) <= k
    decreases n
  {
    if n > 1 && k > 0 { CeilLog2Bound((n + 1) / 2, k - 1); }
  }

  lemma {:induction false} TrailingZerosPow2(k: nat)
    ensures TrailingZeros(Pow2(k)) == k
  {
    if k > 0 { TrailingZerosPow2(k - 1); }
  }

  lemma {:induction false} Pow2Sum(j: nat, k: nat)
    ensures Pow2(j) * Pow2(k) == Pow2(j + k)
  {
    if j > 0 {
      Pow2Sum(j - 1, k);
      Associate(2, Pow2(j - 1), Pow2(k));
    }
  }
}
