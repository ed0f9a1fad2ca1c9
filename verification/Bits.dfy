/**
 Bitwise operations on naturals, and what they mean in arithmetic.
 */
module Bits {

  function Pow2(k: nat): (p: nat)
    ensures p >= 1
  {
    if k == 0 then 1 else 2 * Pow2(k - 1)
  }

  function BitAnd(x: nat, y: nat): nat {
    if x == 0 || y == 0 then 0 else 2 * BitAnd(x / 2, y / 2) + (if x % 2 == 1 && y % 2 == 1 then 1 else 0)
  }

  function BitOr(x: nat, y: nat): nat {
    if x == 0 then y else if y == 0 then x
    else 2 * BitOr(x / 2, y / 2) + (if x % 2 == 1 || y % 2 == 1 then 1 else 0)
  }

  function BitXor(x: nat, y: nat): nat
    decreases x + y
  {
    if x == 0 then y else if y == 0 then x
    else 2 * BitXor(x / 2, y / 2) + (if x % 2 == y % 2 then 0 else 1)
  }

  lemma {:induction false} Pow2Adds(j: nat, k: nat)
    ensures Pow2(j + k) == Pow2(j) * Pow2(k)
  {
    if j > 0 {
      Pow2Adds(j - 1, k);
    }
  }

  lemma {:induction false} Pow2Monotone(j: nat, k: nat)
    requires j <= k
    ensures Pow2(j) <= Pow2(k)
  {
    if j < k {
      Pow2Monotone(j, k - 1);
    }
  }

  /** Division by a power of two one bit at a time. */
  lemma {:induction false} HalveFirst(x: nat, k: nat)
    ensures x / Pow2(k + 1) == (x / 2) / Pow2(k)
    ensures x % Pow2(k + 1) == 2 * ((x / 2) % Pow2(k)) + x % 2
  {
    var p := Pow2(k);
    DivModUnique(x, 2 * p, (x / 2) / p, 2 * ((x / 2) % p) + x % 2);
  }

  lemma {:induction false} DivModUnique(x: nat, d: nat, q: nat, r: nat)
    requires r < d && x == q * d + r
    ensures x / d == q && x % d == r
  {
    MulMonotone(x / d + 1, q, d);
    MulMonotone(q + 1, x / d, d);
  }

  /** The product, by repeated addition. Contracts of word arithmetic use it where the solver need not
      look inside a product. */
  function Times(x: nat, y: nat): nat { if y == 0 then 0 else Times(x, y - 1) + x }

  lemma {:induction false} TimesIs(x: nat, y: nat)
    ensures Times(x, y) == x * y
  {
    if y > 0 {
      TimesIs(x, y - 1);
    }
  }

  lemma {:induction false} TimesCommutes(x: nat, y: nat)
    ensures Times(x, y) == Times(y, x)
  {
    TimesIs(x, y);
    TimesIs(y, x);
  }

  lemma {:induction false} TimesAdds(x: nat, y: nat, z: nat)
    ensures Times(x + y, z) == Times(x, z) + Times(y, z)
  {
    if z > 0 {
      TimesAdds(x, y, z - 1);
    }
  }

  lemma {:induction false} TimesAdds3(x: nat, y: nat, z: nat, w: nat)
    ensures Times(x + y + z, w) == Times(x, w) + (Times(y, w) + Times(z, w))
  {
    TimesAdds(x + y, z, w);
    TimesAdds(x, y, w);
  }

  lemma {:induction false} TimesAssociates(x: nat, y: nat, z: nat)
    ensures Times(Times(x, y), z) == Times(x, Times(y, z))
  {
    if z > 0 {
      TimesAssociates(x, y, z - 1);
      TimesAddsRight(x, Times(y, z - 1), y);
    }
  }

  lemma {:induction false} TimesAddsRight(x: nat, y: nat, z: nat)
    ensures Times(x, y + z) == Times(x, y) + Times(x, z)
  {
    if z > 0 {
      TimesAddsRight(x, y, z - 1);
    }
  }

  lemma {:induction false} TimesSwaps(x: nat, y: nat, z: nat)
    ensures Times(Times(x, y), z) == Times(Times(x, z), y)
  {
    TimesAssociates(x, y, z);
    TimesAssociates(x, z, y);
    TimesCommutes(y, z);
  }

  lemma {:induction false} MulMonotone(a: nat, b: nat, d: nat)
    ensures a <= b ==> a * d <= b * d
  {
  }

  /** Shifts by `k` bits, one bit at a time. */
  function Shl(x: nat, k: nat): nat { if k == 0 then x else 2 * Shl(x, k - 1) }

  function Shr(x: nat, k: nat): nat { if k == 0 then x else Shr(x / 2, k - 1) }

  /** Or of a shifted number with bits below the shift is addition. */
  lemma {:induction false} OrDisjoint(hi: nat, lo: nat, k: nat)
    requires lo < Pow2(k)
    ensures BitOr(Shl(hi, k), lo) == Shl(hi, k) + lo
  {
    if k > 0 {
      OrDisjoint(hi, lo / 2, k - 1);
    }
  }

  lemma {:induction false} ShlAdd(x: nat, y: nat, k: nat)
    ensures Shl(x + y, k) == Shl(x, k) + Shl(y, k)
  {
    if k > 0 {
      ShlAdd(x, y, k - 1);
    }
  }

  lemma {:induction false} ShlShl(x: nat, j: nat, k: nat)
    ensures Shl(Shl(x, j), k) == Shl(x, j + k)
  {
    if k > 0 {
      ShlShl(x, j, k - 1);
    }
  }

  lemma {:induction false} ShlBelow(x: nat, j: nat, k: nat)
    requires x < Pow2(j)
    ensures Shl(x, k) + Pow2(k) <= Pow2(j + k)
  {
    if k > 0 {
      ShlBelow(x, j, k - 1);
    }
  }

  /** A number is its upper part shifted back plus its low bits, in one way only. */
  lemma {:induction false} SplitSum(x: nat, k: nat)
    ensures x == Shl(Shr(x, k), k) + Low(x, k) && Low(x, k) < Pow2(k)
  {
    if k > 0 {
      SplitSum(x / 2, k - 1);
    }
  }

  lemma {:induction false} SplitUnique(x: nat, k: nat, h: nat, l: nat)
    requires x == Shl(h, k) + l && l < Pow2(k)
    ensures Shr(x, k) == h && Low(x, k) == l
  {
    if k > 0 {
      SplitUnique(x / 2, k - 1, h, l / 2);
    }
  }

  lemma {:induction false} ShrHalf(x: nat, k: nat)
    ensures Shr(x, k + 1) == Shr(x, k) / 2
  {
    if k > 0 {
      ShrHalf(x / 2, k - 1);
    }
  }

  /** The low `k` bits. */
  function Low(x: nat, k: nat): nat { if k == 0 then 0 else 2 * Low(x / 2, k - 1) + x % 2 }

  lemma {:induction false} LowIsRemainder(x: nat, k: nat)
    ensures Low(x, k) == x % Pow2(k)
  {
    if k > 0 {
      LowIsRemainder(x / 2, k - 1);
      HalveFirst(x, k - 1);
    }
  }

  /** And with 2^k - 1 keeps the low bits. */
  lemma {:induction false} AndMask(x: nat, k: nat)
    ensures BitAnd(x, Pow2(k) - 1) == Low(x, k)
  {
    if k > 0 {
      AndMask(x / 2, k - 1);
      OddMask(x, Pow2(k - 1) - 1);
      assert Pow2(k) - 1 == 2 * (Pow2(k - 1) - 1) + 1;
    }
  }

  lemma {:induction false} OddMask(x: nat, y: nat)
    ensures BitAnd(x, 2 * y + 1) == 2 * BitAnd(x / 2, y) + x % 2
  {
    assert (2 * y + 1) / 2 == y;
  }

  lemma {:induction false} ShlIsProduct(x: nat, k: nat)
    ensures Shl(x, k) == x * Pow2(k)
  {
    if k > 0 {
      ShlIsProduct(x, k - 1);
      DoubledFactor(x, Pow2(k - 1));
    }
  }

  lemma {:induction false} DoubledFactor(a: nat, p: nat)
    ensures a * (2 * p) == 2 * (a * p)
  {
  }

  lemma {:induction false} ShrIsQuotient(x: nat, k: nat)
    ensures Shr(x, k) == x / Pow2(k)
  {
    if k > 0 {
      ShrIsQuotient(x / 2, k - 1);
      HalveFirst(x, k - 1);
    }
  }

  lemma {:induction false} ShrDecreases(x: nat, k: nat)
    ensures Shr(x, k) <= x
  {
    if k > 0 {
      ShrDecreases(x / 2, k - 1);
    }
  }

  lemma {:induction false} ShrBelow(x: nat, j: nat, k: nat)
    requires x < Pow2(j + k)
    ensures Shr(x, j) < Pow2(k)
  {
    if j > 0 {
      ShrBelow(x / 2, j - 1, k);
    }
  }

  /** And with a shifted mask looks only at the bits above the shift. */
  lemma {:induction false} AndShifted(x: nat, c: nat, k: nat)
    ensures BitAnd(x, Shl(c, k)) == Shl(BitAnd(Shr(x, k), c), k)
  {
    if k > 0 {
      AndShifted(x / 2, c, k - 1);
      DoubledMask(x, Shl(c, k - 1));
    }
  }

  lemma {:induction false} DoubledMask(x: nat, y: nat)
    ensures BitAnd(x, 2 * y) == 2 * BitAnd(x / 2, y)
  {
  }

  /** Exclusive or with all ones is the complement. */
  lemma {:induction false} XorOnes(x: nat, k: nat)
    requires x < Pow2(k)
    ensures BitXor(x, Pow2(k) - 1) == Pow2(k) - 1 - x
  {
    if k > 0 && x > 0 {
      XorOnes(x / 2, k - 1);
      OddXor(x, Pow2(k - 1) - 1);
      assert Pow2(k) - 1 == 2 * (Pow2(k - 1) - 1) + 1;
    }
  }

  lemma {:induction false} OddXor(x: nat, y: nat)
    ensures BitXor(x, 2 * y + 1) == 2 * BitXor(x / 2, y) + 1 - x % 2
  {
    assert (2 * y + 1) / 2 == y;
  }

  // ---- Powers of two ----

  function Ctz(x: nat): nat
    requires x > 0
  {
    if x % 2 == 1 then 0 else 1 + Ctz(x / 2)
  }

  /** The test `x & (x - 1) == 0` recognises powers of two. */
  lemma {:induction false} PowerOfTwoTest(x: nat)
    requires x > 0
    ensures BitAnd(x, x - 1) == 0 <==> x == Pow2(Ctz(x))
  {
    if x > 1 {
      if x % 2 == 1 {
        assert (x - 1) / 2 == x / 2;
        AndSelf(x / 2);
      } else {
        assert (x - 1) / 2 == x / 2 - 1;
        PowerOfTwoTest(x / 2);
      }
    }
  }

  lemma {:induction false} AndSelf(x: nat)
    ensures BitAnd(x, x) == x
  {
    if x > 0 {
      AndSelf(x / 2);
    }
  }

  lemma {:induction false} CtzShift(x: nat, k: nat)
    requires x > 0 && x % Pow2(k) == 0
    ensures x / Pow2(k) > 0 && Ctz(x) == k + Ctz(x / Pow2(k))
  {
    if k > 0 {
      HalveFirst(x, k - 1);
      CtzShift(x / 2, k - 1);
    }
  }

  /** The number of significant bits. */
  function BitLen(x: nat): nat { if x == 0 then 0 else 1 + BitLen(x / 2) }

  lemma {:induction false} BitLenBounds(x: nat)
    requires x > 0
    ensures BitLen(x) > 0 && Pow2(BitLen(x) - 1) <= x < Pow2(BitLen(x))
  {
    if x > 1 {
      BitLenBounds(x / 2);
    }
  }

  lemma {:induction false} BitLenShift(x: nat, k: nat)
    requires x >= Pow2(k)
    ensures BitLen(x) == k + BitLen(x / Pow2(k))
  {
    if k > 0 {
      HalveFirst(x, k - 1);
      BitLenShift(x / 2, k - 1);
    }
  }

  lemma {:induction false} BitLenAtMost(x: nat, k: nat)
    requires x < Pow2(k)
    ensures BitLen(x) <= k
  {
    if x > 0 {
      BitLenAtMost(x / 2, k - 1);
    }
  }

  lemma {:induction false} CtzBound(x: nat, k: nat)
    requires 0 < x < Pow2(k)
    ensures Ctz(x) < k
  {
    if x % 2 == 0 {
      CtzBound(x / 2, k - 1);
    }
  }
}
