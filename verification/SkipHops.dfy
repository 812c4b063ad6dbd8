/** How many links `Ancestor` follows, in the worst case. */
module SkipHops {
  import opened BlockNodes

  // ------------------------------------------------------------- bit trick

  /** Bitwise and. */
  function And(a: nat, b: nat): nat {
    if a == 0 || b == 0 then 0
    else (a % 2) * (b % 2) + 2 * And(a / 2, b / 2)
  }

  lemma {:induction false} AndSelf(n: nat)
    ensures And(n, n) == n
  {
    if n > 0 {
      AndSelf(n / 2);
    }
  }

  /** `InvertLowestOne(n)` is the source's `n & (n - 1)`. */
  lemma {:induction false} InvertIsAnd(n: nat)
    requires n > 0
    ensures InvertLowestOne(n) == And(n, n - 1)
  {
    if n % 2 == 1 {
      AndSelf(n / 2);
      assert (n - 1) / 2 == n / 2;
    } else {
      InvertIsAnd(n / 2);
      assert (n - 1) / 2 == n / 2 - 1;
    }
  }

  // -------------------------------------------------------- powers of two

  function Pow2(k: nat): (p: nat)
    ensures p >= 1
  {
    if k == 0 then 1 else 2 * Pow2(k - 1)
  }

  /** `x` is a multiple of 2^k. */
  predicate Aligned(x: nat, k: nat) {
    if k == 0 then true else x % 2 == 0 && Aligned(x / 2, k - 1)
  }

  lemma {:induction false} AlignedLower(x: nat, k: nat, j: nat)
    requires Aligned(x, k) && j <= k
    ensures Aligned(x, j)
  {
    if j > 0 {
      AlignedLower(x / 2, k - 1, j - 1);
    }
  }

  lemma {:induction false} AlignedSum(x: nat, y: nat, k: nat)
    requires Aligned(x, k) && Aligned(y, k)
    ensures Aligned(x + y, k)
    ensures x >= y ==> Aligned(x - y, k)
  {
    if k > 0 {
      AlignedSum(x / 2, y / 2, k - 1);
      assert (x + y) / 2 == x / 2 + y / 2;
      if x >= y {
        assert (x - y) / 2 == x / 2 - y / 2;
      }
    }
  }

  lemma {:induction false} Pow2Aligned(m: nat, k: nat)
    requires k <= m
    ensures Aligned(Pow2(m), k)
  {
    if k > 0 {
      Pow2Aligned(m - 1, k - 1);
    }
  }

  /** Clearing the lowest one bit, when its position is known. */
  lemma {:induction false} InvertLowest(x: nat, k: nat)
    requires Aligned(x, k + 1)
    ensures InvertLowestOne(x + Pow2(k)) == x
  {
    if k > 0 {
      InvertLowest(x / 2, k - 1);
      assert (x + Pow2(k)) / 2 == x / 2 + Pow2(k - 1);
    }
  }

  /** Clearing the two lowest one bits, when their positions are known. */
  lemma SkipTwo(x: nat, b: nat, a: nat)
    requires a < b && Aligned(x, b + 1)
    ensures SkipHeight(x + Pow2(b) + Pow2(a)) == x
  {
    AlignedLower(x, b + 1, a + 1);
    Pow2Aligned(b, a + 1);
    AlignedSum(x, Pow2(b), a + 1);
    InvertLowest(x + Pow2(b), a);
    InvertLowest(x, b);
  }

  /** From a single low bit at position `k`, a skip leaves the block that starts at `x`. */
  lemma SkipOne(x: nat, k: nat)
    requires Aligned(x, k + 1)
    ensures SkipHeight(x + Pow2(k)) == InvertLowestOne(x)
    ensures if x > 0 then SkipHeight(x + Pow2(k)) < x else SkipHeight(Pow2(k)) == 0
  {
    hide InvertLowestOne, Aligned, Pow2;
    InvertLowest(x, k);
  }

  // ------------------------------------------- worst cases from one height

  /** The worst number of hops from height 2^k to a height above 0. */
  function WorstPow(k: nat): nat {
    if k == 0 then 0
    else if k % 2 == 0 then k + WorstPow(k - 1)
    else 1 + k / 2 + WorstPow(k - 1)
  }

  /** The same from 2^k above any block start, where the start itself may be the target. */
  function WorstBlock(k: nat): nat {
    if k < 2 then k + 1 else WorstPow(k)
  }

  lemma {:induction false} WorstMonotone(j: nat, k: nat)
    requires j <= k
    ensures WorstPow(j) <= WorstPow(k)
    ensures WorstBlock(j) <= WorstBlock(k)
  {
    if j < k {
      WorstMonotone(j, k - 1);
    }
  }

  lemma {:induction false} WorstGrows(k: nat)
    ensures WorstPow(k) >= k
  {
    if k > 0 {
      WorstGrows(k - 1);
    }
  }

  lemma WorstSteps(j: nat)
    ensures WorstPow(2 * j + 1) == 1 + j + WorstPow(2 * j)
    ensures WorstPow(2 * j + 2) == 2 * j + 2 + WorstPow(2 * j + 1)
    ensures WorstBlock(2 * j) <= 1 + WorstPow(2 * j)
  {
  }

  /** When the skip would overshoot, the walk steps to the parent. */
  lemma StepDown(n: nat, h: nat)
    requires SkipHeight(n) < h < n
    ensures Hops(n, h) == 1 + Hops(n - 1, h)
  {
  }

  lemma HopSkip(n: nat, h: nat)
    requires h <= SkipHeight(n) && h < n
    ensures Hops(n, h) == 1 + Hops(SkipHeight(n), h)
  {
  }

  lemma HopsZero(n: nat)
    ensures Hops(n, n) == 0
  {
  }

  /** From a block start plus 2^k, every target in the block is within `WorstBlock(k)` hops,
      and within `WorstPow(k)` hops when it is not the block start. */
  lemma {:induction false} FromPower(x: nat, k: nat, h: nat)
    requires Aligned(x, k + 1) && x <= h <= x + Pow2(k)
    ensures Hops(x + Pow2(k), h) <= WorstBlock(k)
    ensures x < h ==> Hops(x + Pow2(k), h) <= WorstPow(k)
    decreases k, 1, 0
  {
    var n := x + Pow2(k);
    SkipOne(x, k);
    if h == n {
    } else if SkipHeight(n) >= h {
      assert x == 0 && h == 0 && Hops(n, h) == 1;
      WorstGrows(k);
    } else {
      AlignedLower(x, k + 1, k);
      FromOnes(x, k, 0, h);
    }
  }

  lemma {:induction false} Pow2Monotone(j: nat, k: nat)
    requires j <= k
    ensures Pow2(j) <= Pow2(k)
  {
    if j < k {
      Pow2Monotone(j, k - 1);
    }
  }

  /** With bits 2i..m-1 set above an aligned start, one skip clears bits 2i and 2i+1. */
  lemma SkipPair(x: nat, m: nat, i: nat)
    requires Aligned(x, m) && 2 * i + 2 <= m
    ensures Pow2(2 * i) <= Pow2(2 * i + 2) <= Pow2(m)
    ensures SkipHeight(x + Pow2(m) - Pow2(2 * i)) == x + Pow2(m) - Pow2(2 * i + 2)
    ensures Aligned(x + Pow2(m) - Pow2(2 * i + 2), 2 * i + 2)
  {
    hide Aligned, SkipHeight, InvertLowestOne;
    Pow2Monotone(2 * i + 2, m);
    AlignedLower(x, m, 2 * i + 2);
    Pow2Aligned(m, 2 * i + 2);
    Pow2Aligned(2 * i + 2, 2 * i + 2);
    AlignedSum(x, Pow2(m), 2 * i + 2);
    AlignedSum(x + Pow2(m), Pow2(2 * i + 2), 2 * i + 2);
    SkipTwo(x + Pow2(m) - Pow2(2 * i + 2), 2 * i + 1, 2 * i);
  }

  /** A run of an even number of set bits is cleared two at a time on the way to a lower target. */
  lemma {:induction false} ClearPairs(v: nat, y: nat, j: nat, i: nat, h: nat)
    requires Aligned(y, 2 * j) && i <= j && h <= y && v == y + Pow2(2 * j) - Pow2(2 * i)
    ensures h <= v && Hops(v, h) == j - i + Hops(y, h)
    decreases j - i
  {
    hide Aligned, SkipHeight, InvertLowestOne;
    if i < j {
      SkipPair(y, 2 * j, i);
      assert 2 * (i + 1) == 2 * i + 2;
      ClearPairs(v - Pow2(2 * i + 2) + Pow2(2 * i), y, j, i + 1, h);
    }
  }

  lemma ClearAll(v: nat, y: nat, j: nat, h: nat)
    requires Aligned(y, 2 * j) && h <= y && v == y + Pow2(2 * j) - 1
    ensures h <= v && Hops(v, h) == j + Hops(y, h)
  {
    ClearPairs(v, y, j, 0, h);
  }

  /** From the bits 2j..k-1 set above an aligned start. */
  lemma {:induction false} FromOnes(x: nat, k: nat, j: nat, h: nat)
    requires Aligned(x, k) && 2 * j <= k
    requires Pow2(2 * j) <= Pow2(k) && x <= h <= x + Pow2(k) - Pow2(2 * j)
    ensures 1 + j + Hops(x + Pow2(k) - Pow2(2 * j), h) <= WorstBlock(k)
    ensures x < h ==> 1 + j + Hops(x + Pow2(k) - Pow2(2 * j), h) <= WorstPow(k)
    decreases k, 0, k - 2 * j
  {
    hide Hops, InvertLowestOne, Aligned;
    var v := x + Pow2(k) - Pow2(2 * j);
    WorstGrows(k);
    if v == h {
      HopsZero(v);
      assert x < h ==> 2 * j < k;
    } else if k == 2 * j + 1 {
      FromPower(x, k - 1, h);
    } else {
      var top := v - Pow2(2 * j) - Pow2(2 * j + 1);
      SkipPair(x, k, j);
      if top >= h {
        assert 2 * (j + 1) == 2 * j + 2;
        HopSkip(v, h);
        FromOnes(x, k, j + 1, h);
      } else {
        BelowSkip(top, j, h);
        WorstMonotone(2 * j + 2, k);
      }
    }
  }

  lemma FromOnesAll(v: nat, x: nat, k: nat, h: nat)
    requires Aligned(x, k) && v == x + Pow2(k) - 1 && x <= h <= v
    ensures 1 + Hops(v, h) <= WorstBlock(k)
  {
    FromOnes(x, k, 0, h);
  }

  /** The skip from `top` plus bits 2j and 2j+1 would overshoot, so the walk steps to the parent. */
  lemma {:induction false} BelowSkip(top: nat, j: nat, h: nat)
    requires Aligned(top, 2 * j + 2) && top < h < top + Pow2(2 * j + 1) + Pow2(2 * j)
    ensures 1 + j + Hops(top + Pow2(2 * j + 1) + Pow2(2 * j), h) <= WorstPow(2 * j + 2)
    decreases 2 * j + 1, 2, 0
  {
    hide Hops, InvertLowestOne, WorstPow;
    var y, p := top + Pow2(2 * j + 1), Pow2(2 * j);
    assert SkipHeight(y + p) == top by { SkipTwo(top, 2 * j + 1, 2 * j); }
    StepDown(y + p, h);
    assert Aligned(y, 2 * j) by {
      AlignedLower(top, 2 * j + 2, 2 * j);
      Pow2Aligned(2 * j + 1, 2 * j);
      AlignedSum(top, Pow2(2 * j + 1), 2 * j);
    }
    WorstSteps(j);
    if h >= y {
      FromOnes(y, 2 * j, 0, h);
      assert Hops(y + p - 1, h) + 1 <= WorstBlock(2 * j);
    } else {
      ClearAll(y + p - 1, y, j, h);
      FromPower(top, 2 * j + 1, h);
    }
  }

  // ------------------------------------------------ the bound of the source

  lemma {:induction false} AlignedZero(k: nat)
    ensures Aligned(0, k)
  {
    if k > 0 {
      AlignedZero(k - 1);
    }
  }

  lemma BitAligned(x: nat, b: nat, k: nat)
    requires Aligned(x, k) && k <= b
    ensures Aligned(x + Pow2(b), k)
  {
    Pow2Aligned(b, k);
    AlignedSum(x, Pow2(b), k);
  }

  /** Bit b above 2i + 1 set bits, with nothing reachable below bit b: the walk clears 2i bits,
      steps to the parent, and clears the bits this sets. */
  lemma DropLowBit(v: nat, y: nat, x: nat, b: nat, i: nat, h: nat)
    requires 2 * i < b && Aligned(x, b + 1) && Aligned(x, 2 * i)
    requires y == x + Pow2(b) && v == y + 2 * Pow2(2 * i) - 1 && x < h <= y
    ensures Hops(v, h) == 2 * i + 1 + Hops(y, h)
  {
    hide *;
    var u := y + Pow2(2 * i);
    BitAligned(x, b, 2 * i);
    BitAligned(y, 2 * i, 2 * i);
    ClearAll(v, u, i, h);
    SkipTwo(x, b, 2 * i);
    StepDown(u, h);
    ClearAll(u - 1, y, i, h);
  }

  /** From y = x + 2^b plus the bits below a, down to a target between x and y. */
  lemma ClearRun(v: nat, y: nat, x: nat, b: nat, a: nat, h: nat)
    requires a <= b && Aligned(x, b + 1)
    requires y == x + Pow2(b) && v == y + Pow2(a) - 1 && x < h <= y
    ensures Hops(v, h) == (if a % 2 == 0 then a / 2 else a) + Hops(y, h)
  {
    var i := a / 2;
    AlignedLower(x, b + 1, 2 * i);
    if a == 2 * i {
      BitAligned(x, b, a);
      ClearAll(v, y, i, h);
    } else {
      DropLowBit(v, y, x, b, i, h);
    }
  }

  lemma WorstPrevious(k: nat)
    requires k > 0
    ensures WorstPow(k) == 1 + (if (k - 1) % 2 == 0 then (k - 1) / 2 else k - 1) + WorstPow(k - 1)
    ensures Pow2(k) == 2 * Pow2(k - 1)
  {
  }

  /** Target 1 is as far from 2^k as any target above 0. */
  lemma {:induction false} WorstPowReached(n: nat, k: nat)
    requires n == Pow2(k)
    ensures Hops(n, 1) == WorstPow(k)
  {
    if k > 0 {
      hide *;
      WorstPrevious(k);
      var m := Pow2(k - 1);
      WorstPowReached(m, k - 1);
      AlignedZero(k + 1);
      SkipOne(0, k);
      StepDown(n, 1);
      AlignedZero(k);
      ClearRun(n - 1, m, 0, k - 1, k - 1, 1);
    } else {
      HopsZero(1);
    }
  }

  lemma WorstZero()
    ensures WorstPow(0) == 0
  {
  }

  lemma {:induction false} WorstClosed(m: nat)
    ensures 2 * WorstPow(2 * m) == 3 * m * (m + 1)
    ensures 2 * WorstPow(2 * m + 1) == (m + 1) * (3 * m + 2)
  {
    hide WorstPow;
    if m > 0 {
      WorstClosed(m - 1);
      WorstSteps(m - 1);
      assert m * (3 * m - 1) + 4 * m == 3 * m * (m + 1);
    } else {
      WorstZero();
    }
    WorstSteps(m);
    assert 3 * m * (m + 1) + 2 * (m + 1) == (m + 1) * (3 * m + 2);
  }

  /** From height 2^k the walk takes at most `WorstPow(k)` steps to any height above 0, exactly
      that many to height 1, and one step to height 0; for k = 29 that is at most 330. */
  lemma FromPowerOfTwo(n: nat, k: nat, h: nat)
    requires n == Pow2(k) && 0 < h <= n
    ensures Hops(n, h) <= WorstPow(k) == Hops(n, 1)
    ensures Hops(n, 0) == 1
    ensures k == 29 ==> WorstPow(k) == 330
  {
    hide *;
    AlignedZero(k + 1);
    SkipOne(0, k);
    FromPower(0, k, h);
    WorstPowReached(n, k);
    HopSkip(n, 0);
    HopsZero(0);
    Worst28(k);
  }

  lemma Doubles(k: nat)
    ensures Pow2(k + 1) == 2 * Pow2(k) && Pow2(k + 2) == 4 * Pow2(k) && Pow2(k + 3) == 8 * Pow2(k)
  {
  }

  lemma Worst28(k: nat)
    ensures k == 28 ==> WorstPow(k) == 315
    ensures k == 29 ==> WorstPow(k) == 330
  {
    if k == 28 || k == 29 {
      WorstClosed(k / 2);
    }
  }

  /** Two bits above 2i set bits, with no skip possible below the higher one. */
  lemma DropMidBit(n: nat, u: nat, top: nat, i: nat)
    requires top == Pow2(2 * i + 2) && u == top + Pow2(2 * i + 1) && n == u + Pow2(2 * i) - 1
    ensures Hops(n, 1) == i + 1 + Hops(u - 1, 1)
  {
    hide *;
    Pow2Aligned(2 * i + 2, 2 * i);
    BitAligned(top, 2 * i + 1, 2 * i);
    ClearAll(n, u, i, 1);
    AlignedZero(2 * i + 3);
    SkipTwo(0, 2 * i + 2, 2 * i + 1);
    StepDown(u, 1);
  }

  /** Some heights below 2^(2i+3) need more steps than 2^(2i+3) itself: below 2^29, 356. */
  lemma LowerButFarther(i: nat, n: nat)
    requires n == Pow2(2 * i + 2) + Pow2(2 * i + 1) + Pow2(2 * i) - 1
    ensures n < Pow2(2 * i + 3)
    ensures Hops(n, 1) == 3 * i + 2 + WorstPow(2 * i + 2)
    ensures i == 13 ==> Hops(n, 1) == 356
  {
    hide *;
    Doubles(2 * i);
    var top := Pow2(2 * i + 2);
    var u := top + Pow2(2 * i + 1);
    DropMidBit(n, u, top, i);
    AlignedZero(2 * i + 3);
    AlignedZero(2 * i);
    DropLowBit(u - 1, top, 0, 2 * i + 2, i, 1);
    WorstPowReached(top, 2 * i + 2);
    Worst28(2 * i + 2);
  }

  // -------------------------------------------------- any height, any target

  function LowBit(n: nat): nat
    requires n > 0
  {
    if n % 2 == 1 then 0 else 1 + LowBit(n / 2)
  }

  lemma {:induction false} LowBitSplits(n: nat)
    requires n > 0
    ensures n >= Pow2(LowBit(n)) && InvertLowestOne(n) == n - Pow2(LowBit(n))
    ensures Aligned(n - Pow2(LowBit(n)), LowBit(n) + 1)
    ensures Aligned(n, LowBit(n))
  {
    if n % 2 == 0 {
      LowBitSplits(n / 2);
      assert (n - Pow2(LowBit(n))) / 2 == n / 2 - Pow2(LowBit(n / 2));
    }
  }

  lemma {:induction false} LowBitAligned(n: nat, k: nat)
    requires n > 0 && Aligned(n, k)
    ensures LowBit(n) >= k
  {
    if k > 0 {
      LowBitAligned(n / 2, k - 1);
    }
  }

  lemma {:induction false} PowBelow(a: nat, b: nat)
    requires Pow2(a) < Pow2(b)
    ensures a < b
  {
    if a >= b {
      Pow2Monotone(b, a);
    }
  }

  /** The hops from any height below 2^L, less what its low zero bits save. */
  lemma {:induction false} FromAny(n: nat, L: nat, h: nat)
    requires 0 < n < Pow2(L) && h <= n && L >= 2
    ensures Hops(n, h) + LowBit(n) / 2 <= 1 + 3 * (L - 2) / 2 + WorstPow(L - 1)
    decreases n
  {
    hide Hops, InvertLowestOne, LowBit, WorstPow, Pow2, Aligned;
    var a := LowBit(n);
    LowBitSplits(n);
    PowBelow(a, L);
    WorstGrows(L - 1);
    WorstMonotone(a, L - 1);
    var y := n - Pow2(a);
    if y == 0 {
      AlignedZero(a + 1);
      FromPower(0, a, h);
    } else {
      var b := LowBit(y);
      LowBitAligned(y, a + 1);
      LowBitSplits(y);
      PowBelow(b, L);
      WorstMonotone(b, L - 1);
      var x := y - Pow2(b);
      assert SkipHeight(n) == x;
      if h == n {
        HopsZero(n);
      } else if h <= x {
        HopSkip(n, h);
        if x == 0 {
          HopsZero(0);
        } else {
          LowBitAligned(x, b + 1);
          FromAny(x, L, h);
        }
      } else {
        StepDown(n, h);
        if h <= y {
          ClearRun(n - 1, y, x, b, a, h);
          FromPower(x, b, h);
        } else {
          AlignedLower(y, a + 1, a);
          FromOnesAll(n - 1, y, a, h);
        }
      }
    }
  }

  lemma WorstQuadratic(k: nat)
    ensures 8 * WorstPow(k) <= 3 * k * (k + 2)
  {
    hide WorstPow;
    var m := k / 2;
    WorstClosed(m);
    if k == 2 * m {
      assert 8 * WorstPow(k) == 12 * m * (m + 1) == 3 * k * (k + 2);
    } else {
      assert k == 2 * m + 1;
      assert 8 * WorstPow(k) == 4 * ((m + 1) * (3 * m + 2));
    }
  }

  lemma SmallHops(n: nat, L: nat, h: nat)
    requires h < n < Pow2(L) && L < 2
    ensures L == 1 && Hops(n, h) == 1
  {
  }

  /** The number of hops between any two heights is quadratic in the bit length. */
  lemma HopsQuadratic(n: nat, L: nat, h: nat)
    requires h <= n < Pow2(L)
    ensures 8 * Hops(n, h) <= 3 * L * (L + 4)
  {
    hide *;
    if n == h {
      HopsZero(n);
    } else if L < 2 {
      SmallHops(n, L, h);
    } else {
      FromAny(n, L, h);
      WorstQuadratic(L - 1);
      assert 3 * L * (L + 4) == 3 * (L - 1) * (L - 1 + 2) + 12 * L + 3;
    }
  }
}
