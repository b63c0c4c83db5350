/** Bitwise or and and of natural numbers: over fields that do not overlap the or is
    the sum, and masking takes a field out. */
module Bitwise {
  import opened Arith
  import opened Bits

  function Or(a: nat, b: nat): nat {
    if a == 0 then b
    else if b == 0 then a
    else 2 * Or(a / 2, b / 2) + if a % 2 == 1 || b % 2 == 1 then 1 else 0
  }

  function And(a: nat, b: nat): nat {
    if a == 0 || b == 0 then 0
    else 2 * And(a / 2, b / 2) + if a % 2 == 1 && b % 2 == 1 then 1 else 0
  }

  lemma {:induction false} OrCommutes(a: nat, b: nat)
    ensures Or(a, b) == Or(b, a)
  {
    if a > 0 && b > 0 { OrCommutes(a / 2, b / 2); }
  }

  /** Fields that do not overlap: the or is the sum. */
  lemma {:induction false} OrSum(a: nat, b: nat, k: nat)
    requires a < Pow2(k) && Aligned(b, k)
    ensures Or(a, b) == a + b == Or(b, a)
    decreases k
  {
    OrCommutes(a, b);
    if k > 0 { OrSum(a / 2, b / 2, k - 1); }
  }

  /** The same for a field that fits into a gap. */
  lemma {:induction false} OrMiddle(low: nat, high: nat, b: nat, j: nat, k: nat)
    requires low < Pow2(j) && Aligned(b, j) && b < Pow2(k) && Aligned(high, k) && j <= k
    ensures Or(low + high, b) == low + b + high == Or(b, low + high)
    decreases j
  {
    OrCommutes(low + high, b);
    if j > 0 {
      OrMiddle(low / 2, high / 2, b / 2, j - 1, k - 1);
      assert (low + high) / 2 == low / 2 + high / 2;
    } else {
      OrSum(b, high, k);
    }
  }

  /** The low k bits of n. */
  function Low(n: nat, k: nat): nat
    decreases k
  {
    if k == 0 then 0 else 2 * Low(n / 2, k - 1) + n % 2
  }

  lemma {:induction false} LowIsMod(n: nat, k: nat)
    ensures Low(n, k) == n % Pow2(k)
    decreases k
  {
    if k > 0 {
      LowIsMod(n / 2, k - 1);
      DivDiv(n, 2, Pow2(k - 1), Pow2(k));
    }
  }

  lemma {:induction false} AndLow(n: nat, k: nat)
    ensures And(n, Pow2(k) - 1) == Low(n, k)
    decreases k
  {
    if k > 0 { AndLow(n / 2, k - 1); }
  }

  /** Masking with bits lo to hi - 1. */
  lemma {:induction false} AndMask(n: nat, lo: nat, hi: nat)
    requires lo <= hi
    ensures Pow2(lo) <= Pow2(hi) && And(n, Pow2(hi) - Pow2(lo)) == Low(n, hi) - Low(n, lo)
    decreases lo
  {
    Pow2Mono(lo, hi);
    if lo > 0 {
      AndMask(n / 2, lo - 1, hi - 1);
      AndEven(n, Pow2(hi - 1) - Pow2(lo - 1));
    } else {
      AndLow(n, hi);
    }
  }

  lemma AndEven(n: nat, m: nat)
    ensures And(n, 2 * m) == 2 * And(n / 2, m)
  {
  }

  // ---------- the same with remainders ----------

  ghost predicate IsPow2(m: nat) { exists k: nat :: m == Pow2(k) }

  lemma OrOfFields(a: nat, b: nat, m: nat)
    requires IsPow2(m) && a < m && b % m == 0
    ensures Or(a, b) == a + b == Or(b, a)
  {
    var k: nat :| m == Pow2(k);
    AlignedIsMultiple(b, k);
    OrSum(a, b, k);
  }

  lemma OrOfGap(low: nat, high: nat, b: nat, m: nat, n: nat)
    requires IsPow2(m) && IsPow2(n) && m <= n && low < m && b % m == 0 && b < n && high % n == 0
    ensures Or(low + high, b) == low + b + high == Or(b, low + high)
  {
    var j: nat :| m == Pow2(j);
    var k: nat :| n == Pow2(k);
    if k < j { Pow2Strict(k, j); }
    AlignedIsMultiple(b, j);
    AlignedIsMultiple(high, k);
    OrMiddle(low, high, b, j, k);
  }

  lemma AndOfMask(w: nat, m: nat, n: nat)
    requires IsPow2(m) && IsPow2(n) && m <= n
    ensures And(w, n - m) == w % n - w % m
  {
    var j: nat :| m == Pow2(j);
    var k: nat :| n == Pow2(k);
    if k < j { Pow2Strict(k, j); }
    AndMask(w, j, k);
    LowIsMod(w, j);
    LowIsMod(w, k);
  }
}
