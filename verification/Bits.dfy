/** Powers of two, alignment, and the two bitwise operations the buddy system
    uses on page indices, related to ordinary arithmetic. */
module Bits {

  function Pow2(k: nat): (r: nat)
    ensures r >= 1
  {
    if k == 0 then 1 else 2 * Pow2(k - 1)
  }

  /** The low `k` bits of `i` are zero. */
  predicate Aligned(i: nat, k: nat) {
    k == 0 || (i % 2 == 0 && Aligned(i / 2, k - 1))
  }

  /** Bitwise exclusive or on naturals, bit by bit. */
  function Xor(a: nat, b: nat): nat
    decreases a + b
  {
    if a == 0 && b == 0 then 0
    else (if a % 2 != b % 2 then 1 else 0) + 2 * Xor(a / 2, b / 2)
  }

  /** Bitwise and on naturals, bit by bit. */
  function And(a: nat, b: nat): nat {
    if a == 0 then 0
    else (if a % 2 == 1 && b % 2 == 1 then 1 else 0) + 2 * And(a / 2, b / 2)
  }

  lemma {:induction false} Pow2Monotone(k: nat, m: nat)
    requires k <= m
    ensures Pow2(k) <= Pow2(m)
    decreases m
  {
    if k < m { Pow2Monotone(k, m - 1); }
  }

  lemma {:induction false} AlignedWeaken(i: nat, k: nat, m: nat)
    requires k <= m && Aligned(i, m)
    ensures Aligned(i, k)
  {
    if k > 0 { AlignedWeaken(i / 2, k - 1, m - 1); }
  }

  /** Two aligned blocks that share a page are nested: the smaller lies inside the larger. */
  lemma {:induction false} Overlap(i: nat, k: nat, j: nat, m: nat, x: nat)
    requires k <= m && Aligned(i, k) && Aligned(j, m)
    requires i <= x < i + Pow2(k) && j <= x < j + Pow2(m)
    ensures j <= i && i + Pow2(k) <= j + Pow2(m)
  {
    if k > 0 { Overlap(i / 2, k - 1, j / 2, m - 1, x / 2); }
  }

  lemma {:induction false} HalvesAligned(i: nat, k: nat)
    requires Aligned(i, k + 1)
    ensures Aligned(i, k) && Aligned(i + Pow2(k), k) && !Aligned(i + Pow2(k), k + 1)
  {
    if k > 0 {
      HalvesAligned(i / 2, k - 1);
      assert (i + Pow2(k)) / 2 == i / 2 + Pow2(k - 1);
    }
  }

  lemma {:induction false} LowHalf(i: nat, k: nat)
    requires Aligned(i, k) && !Aligned(i, k + 1)
    ensures i >= Pow2(k) && Aligned(i - Pow2(k), k + 1)
  {
    if k > 0 {
      LowHalf(i / 2, k - 1);
      assert (i - Pow2(k)) / 2 == i / 2 - Pow2(k - 1);
    } else {
      assert Aligned(i - 1, 1) by { assert Aligned((i - 1) / 2, 0); }
    }
  }

  /** The buddy of a block: the other half of the block one order up. */
  function BuddyOf(i: nat, k: nat): nat
    requires Aligned(i, k)
  {
    if Aligned(i, k + 1) then i + Pow2(k)
    else
      LowHalf(i, k);
      i - Pow2(k)
  }

  lemma BuddyFacts(i: nat, k: nat)
    requires Aligned(i, k)
    ensures var b := BuddyOf(i, k);
      && Aligned(b, k) && b != i
      && BuddyOf(b, k) == i
      && var lo := if b < i then b else i;
         Aligned(lo, k + 1) && (i == lo || i == lo + Pow2(k)) && (b == lo || b == lo + Pow2(k))
  {
    if Aligned(i, k + 1) {
      HalvesAligned(i, k);
    } else {
      LowHalf(i, k);
      HalvesAligned(i - Pow2(k), k);
    }
  }

  lemma {:induction false} XorZero(a: nat)
    ensures Xor(a, 0) == a
  {
    if a > 0 { XorZero(a / 2); }
  }

  lemma {:induction false} AndZero(i: nat)
    ensures And(i, 0) == 0
  {
    if i > 0 { AndZero(i / 2); }
  }

  /** The C expression `idx ^ (1UL << order)` is the buddy, on every aligned index. */
  lemma {:induction false} XorIsBuddy(i: nat, k: nat)
    requires Aligned(i, k)
    ensures Xor(i, Pow2(k)) == BuddyOf(i, k)
    decreases k
  {
    if k == 0 {
      XorZero(i / 2);
      assert Xor(i, 1) == (if i % 2 != 1 then 1 else 0) + 2 * Xor(i / 2, 0);
      assert Aligned(i, 1) <==> i % 2 == 0 by { assert Aligned(i / 2, 0); }
    } else {
      XorIsBuddy(i / 2, k - 1);
      assert Pow2(k) / 2 == Pow2(k - 1) && Pow2(k) % 2 == 0;
    }
  }

  /** The C test `(idx & (block_pages - 1)) == 0` is alignment. */
  lemma {:induction false} AndIsAlignment(i: nat, k: nat)
    ensures And(i, Pow2(k) - 1) == 0 <==> Aligned(i, k)
    decreases k
  {
    if k == 0 {
      AndZero(i);
    } else {
      AndIsAlignment(i / 2, k - 1);
      assert (Pow2(k) - 1) % 2 == 1 && (Pow2(k) - 1) / 2 == Pow2(k - 1) - 1;
      if i == 0 { AlignedZero(k); }
    }
  }

  lemma {:induction false} AlignedZero(k: nat)
    ensures Aligned(0, k)
  {
    if k > 0 { AlignedZero(k - 1); }
  }
}
