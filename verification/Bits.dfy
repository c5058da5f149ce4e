/**
 Shifts and masks on unsigned words, as the index arithmetic of the host code uses them,
 and the quotients and remainders they stand for.

 `Quot` and `Rem` are defined by repeated subtraction: every fact about blocks of
 elements then has a proof by induction that stays inside linear arithmetic.
 */
module Bits {
  import opened Numbers


  function Pow2(k: nat): (r: nat)
    ensures r >= 1
  {
    if k == 0 then 1 else 2 * Pow2(k - 1)
  }

  /** `x << k` on a word wide enough to hold the result. */
  function Shl(x: nat, k: nat): (r: nat)
    ensures r >= x
  {
    if k == 0 then x else 2 * Shl(x, k - 1)
  }

  /** `x >> k`. */
  function Shr(x: nat, k: nat): nat {
    if k == 0 then x else Shr(x / 2, k - 1)
  }

  /** `x & y`, bit by bit from the least significant end. */
  function And(x: nat, y: nat): nat {
    if x == 0 || y == 0 then 0
    else 2 * And(x / 2, y / 2) + (if x % 2 == 1 && y % 2 == 1 then 1 else 0)
  }

  predicate IsPowerOfTwo(n: nat) {
    n == 1 || (n > 1 && n % 2 == 0 && IsPowerOfTwo(n / 2))
  }

  /** x divided by d, rounded down: the number of the block of d elements that holds index x. */
  function Quot(x: nat, d: Positive): nat {
    if x < d then 0 else 1 + Quot(x - d, d)
  }

  /** x modulo d: the place of index x in its block. */
  function Rem(x: nat, d: Positive): (r: nat)
    ensures r < d && r <= x
  {
    if x < d then x else Rem(x - d, d)
  }

  predicate Divides(b: Positive, n: nat) {
    n == 0 || (n >= b && Divides(b, n - b))
  }

  // ---------------------------------------------------------------- blocks

  lemma {:induction false} QuotTwice(x: nat, d: Positive)
    ensures Quot(x, 2 * d) == Quot(x, d) / 2
  {
    if x >= 2 * d {
      QuotTwice(x - 2 * d, d);
      assert Quot(x, d) == 1 + Quot(x - d, d);
    } else if x >= d {
      assert Quot(x, d) == 1 + Quot(x - d, d);
    }
  }

  lemma {:induction false} QuotMonotone(x: nat, y: nat, d: nat)
    requires d > 0 && x <= y
    ensures Quot(x, d) <= Quot(y, d)
  {
    if x >= d {
      QuotMonotone(x - d, y - d, d);
    }
  }

  /** Two indices of one block of d. */
  lemma {:induction false} SameBlock(x: nat, y: nat, d: nat)
    requires d > 0 && Quot(x, d) == Quot(y, d)
    ensures x - Rem(x, d) == y - Rem(y, d)
  {
    if x >= d {
      SameBlock(x - d, y - d, d);
    }
  }

  lemma {:induction false} DividesTwice(b: nat, n: nat, n': nat)
    requires b > 0 && Divides(b, n) && Divides(b, n')
    ensures Divides(b, n + n')
  {
    if n > 0 {
      DividesTwice(b, n - b, n');
    }
  }

  lemma {:induction false} Pow2Divides(a: nat, b: nat)
    requires a <= b
    ensures Divides(Pow2(a), Pow2(b))
  {
    if a < b {
      Pow2Divides(a, b - 1);
      DividesTwice(Pow2(a), Pow2(b - 1), Pow2(b - 1));
    } else {
      assert Divides(Pow2(a), 0);
    }
  }

  /** The whole block of b elements that x lies in is below n when b divides n. */
  lemma {:induction false} BlockInRange(x: nat, b: nat, n: nat)
    requires b > 0 && Divides(b, n) && x < n
    ensures x - Rem(x, b) + b <= n
  {
    if x >= b {
      BlockInRange(x - b, b, n - b);
    }
  }

  /** Adding a multiple of b moves an index to the same place of a later block. */
  lemma {:induction false} ShiftByMultiple(x: nat, b: nat, m: nat)
    requires b > 0 && Divides(b, m)
    ensures Rem(x + m, b) == Rem(x, b)
    ensures Quot(x + m, b) == Quot(x, b) + Quot(m, b)
  {
    if m > 0 {
      ShiftByMultiple(x, b, m - b);
      assert x + m - b == x + (m - b);
    }
  }

  /** Blocks of b elements nest inside blocks of m elements when b divides m. */
  lemma {:induction false} SameOuterBlock(x: nat, y: nat, b: nat, m: nat)
    requires b > 0 && m > 0 && Divides(b, m) && Quot(x, b) == Quot(y, b)
    ensures Quot(x, m) == Quot(y, m)
  {
    SameBlock(x, y, b);
    if x < m {
      BlockInRange(x, b, m);
    } else if y < m {
      BlockInRange(y, b, m);
    } else {
      ShiftByMultiple(x - m, b, m);
      ShiftByMultiple(y - m, b, m);
      SameOuterBlock(x - m, y - m, b, m);
    }
  }

  // ---------------------------------------------------------------- shifts and masks

  lemma {:induction false} QuotByHalves(x: nat, d: Positive)
    ensures Quot(x, 2 * d) == Quot(x / 2, d)
    ensures Rem(x, 2 * d) == 2 * Rem(x / 2, d) + x % 2
  {
    if x >= 2 * d {
      QuotByHalves(x - 2 * d, d);
      assert (x - 2 * d) / 2 == x / 2 - d;
    }
  }

  lemma ShrByOne(x: nat)
    ensures Shr(x, 1) == x / 2
  {
    assert Shr(x / 2, 0) == x / 2;
  }

  lemma {:induction false} QuotByOne(x: nat)
    ensures Quot(x, 1) == x && Rem(x, 1) == 0
  {
    if x > 0 {
      QuotByOne(x - 1);
    }
  }

  /** Masking with `(1 << k) - 1` keeps the remainder modulo 2^k. */
  lemma {:induction false} AndLowMask(x: nat, k: nat)
    ensures And(x, Pow2(k) - 1) == Rem(x, Pow2(k))
  {
    if k == 0 {
      QuotByOne(x);
    } else if x > 0 {
      AndLowMask(x / 2, k - 1);
      QuotByHalves(x, Pow2(k - 1));
      assert (Pow2(k) - 1) / 2 == Pow2(k - 1) - 1 && (Pow2(k) - 1) % 2 == 1;
    }
  }

  /** Masking with `1 << k` isolates bit k. */
  lemma {:induction false} AndSingleBit(x: nat, k: nat)
    ensures And(x, Pow2(k)) == if Quot(x, Pow2(k)) % 2 == 1 then Pow2(k) else 0
  {
    if k == 0 {
      QuotByOne(x);
      assert And(x / 2, 0) == 0;
    } else if x > 0 {
      AndSingleBit(x / 2, k - 1);
      QuotByHalves(x, Pow2(k - 1));
    }
  }

  lemma {:induction false} ShlIsProduct(k: nat)
    ensures Shl(1, k) == Pow2(k)
  {
    if k > 0 {
      ShlIsProduct(k - 1);
    }
  }

  /** Shifting right and back left clears the low bits. */
  lemma {:induction false} ShiftOutLowBits(x: nat, k: nat)
    ensures Shl(Shr(x, k), k) == x - Rem(x, Pow2(k))
  {
    if k == 0 {
      QuotByOne(x);
    } else {
      ShiftOutLowBits(x / 2, k - 1);
      QuotByHalves(x, Pow2(k - 1));
    }
  }
}
