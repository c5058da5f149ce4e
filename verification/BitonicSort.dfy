/**
 The host reference of the bitonic sorting network
 (opencl/intel/BitonicSort/BitonicSort.cpp).

 The array holds 32-bit signed integers, which the network loads into unsigned
 words before it compares them.  The proofs speak about `Words(a[..])`, the
 sequence of those unsigned words.
 */
module BitonicSort {
  import opened Bits
  import opened Numbers

  newtype Int32 = x: int | -0x8000_0000 <= x < 0x8000_0000

  /** The value a signed word has once it is loaded into an unsigned one. */
  function ToUnsigned(x: Int32): (u: int)
    ensures 0 <= u < 0x1_0000_0000
  {
    if x < 0 then x as int + 0x1_0000_0000 else x as int
  }

  /** The value an unsigned word has once it is stored into a signed one. */
  function ToSigned(u: int): (x: Int32)
    requires 0 <= u < 0x1_0000_0000
    ensures ToUnsigned(x) == u
  {
    if u < 0x8000_0000 then u as Int32 else (u - 0x1_0000_0000) as Int32
  }

  function Words(s: seq<Int32>): (w: seq<int>)
    ensures |w| == |s|
    ensures forall i :: 0 <= i < |s| ==> w[i] == ToUnsigned(s[i])
  {
    seq(|s|, i requires 0 <= i < |s| => ToUnsigned(s[i]))
  }

  /** `a` may stand before `b` in the given direction. */
  predicate InOrder(up: bool, a: int, b: int) {
    if up then a <= b else b <= a
  }

  ghost predicate Sorted(s: seq<int>, up: bool) {
    forall i, j :: 0 <= i < j < |s| ==> InOrder(up, s[i], s[j])
  }

  // ---------------------------------------------------------------- pair indices

  /** The left index of pair `g` when partners lie `d` apart: the blocks of d that hold the
      pair numbers are spread out to every other block of d indices. */
  function Left(g: nat, d: Positive): nat {
    2 * g - Rem(g, d)
  }

  predicate IsLeft(x: nat, d: Positive) {
    Quot(x, d) % 2 == 0
  }

  function Partner(x: nat, d: Positive): int {
    if IsLeft(x, d) then x + d else x - d
  }

  /** The number of the pair that index `x` belongs to. */
  function PairOf(x: nat, d: Positive): nat {
    if IsLeft(x, d) then (x + Rem(x, d)) / 2
    else
      assert x >= d;
      (x - d + Rem(x, d)) / 2
  }

  /** Whether the block of `m` elements that contains `x` is to be put in ascending order. */
  predicate Up(x: nat, m: Positive, ascending: bool) {
    ascending == (Quot(x, m) % 2 == 0)
  }

  /** The two indices of pair g, in (block, offset) form. */
  lemma {:induction false} PairShape(g: nat, d: Positive)
    ensures var l := Left(g, d);
      && Quot(l, d) == 2 * Quot(g, d) && Rem(l, d) == Rem(g, d)
      && Quot(l + d, d) == Quot(l, d) + 1 && Rem(l + d, d) == Rem(g, d)
      && IsLeft(l, d) && !IsLeft(l + d, d)
      && PairOf(l, d) == g && PairOf(l + d, d) == g
  {
    var l := Left(g, d);
    if g >= d {
      PairShape(g - d, d);
      assert l - 2 * d == Left(g - d, d);
      assert Quot(l, d) == 1 + Quot(l - d, d) && Rem(l, d) == Rem(l - d, d);
    }
    assert (l + d) - d == l;
  }

  lemma {:induction false} PartnerSwaps(x: nat, d: Positive)
    ensures var y := Partner(x, d);
      && 0 <= y && y != x && Quot(y, d) / 2 == Quot(x, d) / 2 && Rem(y, d) == Rem(x, d)
      && IsLeft(y, d) == !IsLeft(x, d) && Partner(y, d) == x
  {
    if IsLeft(x, d) {
      assert (x + d) - d == x;
      assert Quot(x + d, d) == 1 + Quot(x, d);
    } else {
      assert Quot(x, d) == 1 + Quot(x - d, d);
    }
  }

  lemma {:induction false} LeftOfPairNumber(x: nat, d: nat)
    requires d > 0 && IsLeft(x, d)
    ensures Rem(PairOf(x, d), d) == Rem(x, d) && Left(PairOf(x, d), d) == x
  {
    if x >= d {
      assert Quot(x, d) == 1 + Quot(x - d, d);
      LeftOfPairNumber(x - 2 * d, d);
      assert Rem(x, d) == Rem(x - d, d) == Rem(x - 2 * d, d);
      assert PairOf(x, d) == PairOf(x - 2 * d, d) + d;
    }
  }

  /** An index is one of the two indices of its own pair, and its partner is the other. */
  lemma PartnerShape(x: nat, d: Positive)
    ensures var y := Partner(x, d);
      && 0 <= y && y != x
      && IsLeft(y, d) == !IsLeft(x, d) && Partner(y, d) == x
      && PairOf(y, d) == PairOf(x, d)
      && Left(PairOf(x, d), d) == (if IsLeft(x, d) then x else y)
  {
    PartnerSwaps(x, d);
    LeftOfPairNumber(if IsLeft(x, d) then x else Partner(x, d), d);
  }

  /** The left index l of the pair of x, with x == l or x == l + d. */
  lemma {:induction false} LeftOfPair(x: nat, d: Positive)
    ensures var l := if IsLeft(x, d) then x else x - d;
      && 0 <= l && IsLeft(l, d) && !IsLeft(l + d, d)
      && Quot(l, 2 * d) == Quot(x, 2 * d) && Quot(l + d, 2 * d) == Quot(x, 2 * d)
      && l - Rem(l, 2 * d) + 2 * d > l + d
  {
    if x >= 2 * d {
      LeftOfPair(x - 2 * d, d);
      QuotTwice(x, d);
      assert Quot(x, d) == 1 + Quot(x - d, d);
      var l := if IsLeft(x, d) then x else x - d;
      assert Quot(l, d) == 1 + Quot(l - d, d);
      assert Quot(l + d, d) == 1 + Quot(l, d);
      assert (l - 2 * d) + d == l + d - 2 * d;
    } else if x >= d {
      assert Quot(x, d) == 1 + Quot(x - d, d);
    } else {
      assert Quot(x + d, d) == 1 + Quot(x, d);
    }
  }

  /** Both indices of a pair stay below n when 2d divides n. */
  lemma PartnerInRange(x: nat, d: nat, n: nat)
    requires d > 0 && Divides(2 * d, n) && x < n
    ensures 0 <= Partner(x, d) < n
  {
    LeftOfPair(x, d);
    var l := if IsLeft(x, d) then x else x - d;
    BlockInRange(l, 2 * d, n);
  }

  lemma {:induction false} PairInRange(g: nat, d: nat, n: nat)
    requires d > 0 && Divides(2 * d, n) && g < n / 2
    ensures Left(g, d) + d < n
  {
    if g >= d {
      PairInRange(g - d, d, n - 2 * d);
    }
  }

  /** The pair of an index below n has a number below n / 2. */
  lemma PairNumberInRange(x: nat, d: nat, n: nat)
    requires d > 0 && Divides(2 * d, n) && x < n
    ensures PairOf(x, d) < n / 2
  {
    PartnerInRange(x, d, n);
    PartnerShape(x, d);
    LeftOfPair(x, d);
    var l := if IsLeft(x, d) then x else x - d;
    BlockInRange(l, 2 * d, n);
    RemOfLeft(l, d);
  }

  lemma {:induction false} RemOfLeft(l: nat, d: nat)
    requires d > 0 && IsLeft(l, d)
    ensures Rem(l, 2 * d) == Rem(l, d)
  {
    if l >= 2 * d {
      assert Quot(l, d) == 1 + Quot(l - d, d);
      RemOfLeft(l - 2 * d, d);
      assert Rem(l, d) == Rem(l - d, d);
    } else if l >= d {
      assert Quot(l, d) == 1 + Quot(l - d, d);
    }
  }

  // ---------------------------------------------------------------- one pass

  /** What one pass with distance d leaves at index x: the pair's minimum or maximum. */
  function PassAt(s: seq<int>, x: nat, m: nat, d: nat, ascending: bool): int
    requires d > 0 && m > 0 && Divides(2 * d, |s|) && x < |s|
  {
    PartnerInRange(x, d, |s|);
    var y := Partner(x, d);
    if IsLeft(x, d) == Up(x, m, ascending) then Min(s[x], s[y]) else Max(s[x], s[y])
  }

  function Pass(s: seq<int>, m: nat, d: nat, ascending: bool): (t: seq<int>)
    requires d > 0 && m > 0 && Divides(2 * d, |s|)
    ensures |t| == |s|
    ensures forall x :: 0 <= x < |s| ==> t[x] == PassAt(s, x, m, d, ascending)
  {
    seq(|s|, x requires 0 <= x < |s| => PassAt(s, x, m, d, ascending))
  }

  /** Indices l and h with their values in order: the lesser first when `dir` holds. */
  function Compared(w: seq<int>, l: nat, h: nat, dir: bool): (t: seq<int>)
    requires l < h < |w|
    ensures |t| == |w|
  {
    if dir then w[l := Min(w[l], w[h])][h := Max(w[l], w[h])]
    else w[l := Max(w[l], w[h])][h := Min(w[l], w[h])]
  }

  /** What work item `g` does to the array. */
  function CompareExchange(s: seq<int>, g: nat, m: nat, d: nat, ascending: bool): (t: seq<int>)
    requires d > 0 && m > 0 && Divides(2 * d, |s|) && g < |s| / 2
    ensures |t| == |s|
  {
    PairInRange(g, d, |s|);
    var l := Left(g, d);
    Compared(s, l, l + d, Up(l, m, ascending))
  }

  ghost predicate DistinctBelow(order: seq<nat>, n: nat) {
    && (forall i :: 0 <= i < |order| ==> order[i] < n)
    && (forall i, j :: 0 <= i < j < |order| ==> order[i] != order[j])
  }

  /** The work items of `order`, one after the other. */
  function RunPairs(s: seq<int>, order: seq<nat>, m: nat, d: nat, ascending: bool): (t: seq<int>)
    requires d > 0 && m > 0 && Divides(2 * d, |s|)
    requires forall i :: 0 <= i < |order| ==> order[i] < |s| / 2
    ensures |t| == |s|
  {
    if order == [] then s
    else
      var last := |order| - 1;
      CompareExchange(RunPairs(s, order[..last], m, d, ascending), order[last], m, d, ascending)
  }

  /** A left index, its partner, and what the pass leaves in both. */
  lemma PairValues(s: seq<int>, x: nat, m: nat, d: nat, ascending: bool)
    requires d > 0 && m > 0 && Divides(2 * d, m) && Divides(2 * d, |s|) && x < |s| && IsLeft(x, d)
    ensures x + d < |s| && Quot(x, m) == Quot(x + d, m) && !IsLeft(x + d, d)
    ensures PassAt(s, x, m, d, ascending) ==
            if Up(x, m, ascending) then Min(s[x], s[x + d]) else Max(s[x], s[x + d])
    ensures PassAt(s, x + d, m, d, ascending) ==
            if Up(x, m, ascending) then Max(s[x], s[x + d]) else Min(s[x], s[x + d])
  {
    PartnerInRange(x, d, |s|);
    LeftOfPair(x, d);
    SameOuterBlock(x, x + d, 2 * d, m);
  }

  lemma CompareExchangeAt(s: seq<int>, g: nat, x: nat, m: nat, d: nat, ascending: bool)
    requires d > 0 && m > 0 && Divides(2 * d, m) && Divides(2 * d, |s|) && g < |s| / 2 && x < |s|
    ensures CompareExchange(s, g, m, d, ascending)[x] ==
            if PairOf(x, d) == g then PassAt(s, x, m, d, ascending) else s[x]
  {
    PairInRange(g, d, |s|);
    PairShape(g, d);
    var l := Left(g, d);
    PairValues(s, l, m, d, ascending);
    if PairOf(x, d) == g {
      PartnerShape(x, d);
    }
  }

  lemma SamePairSameValue(s: seq<int>, r: seq<int>, x: nat, m: nat, d: nat, ascending: bool)
    requires d > 0 && m > 0 && Divides(2 * d, |s|) && |r| == |s| && x < |s|
    requires 0 <= Partner(x, d) < |s| && r[x] == s[x] && r[Partner(x, d)] == s[Partner(x, d)]
    ensures PassAt(r, x, m, d, ascending) == PassAt(s, x, m, d, ascending)
  {
  }

  /** Work items touch disjoint pairs: an index changes only when its own pair runs, and then
      to the value the pass defines from the array before the pass. */
  lemma {:induction false} RunPairsAt(s: seq<int>, order: seq<nat>, x: nat, m: nat, d: nat, ascending: bool)
    requires d > 0 && m > 0 && Divides(2 * d, m) && Divides(2 * d, |s|) && x < |s|
    requires DistinctBelow(order, |s| / 2)
    ensures RunPairs(s, order, m, d, ascending)[x] ==
            if PairOf(x, d) in order then PassAt(s, x, m, d, ascending) else s[x]
  {
    if order != [] {
      var last := |order| - 1;
      var before, g := order[..last], order[last];
      var r := RunPairs(s, before, m, d, ascending);
      RunPairsAt(s, before, x, m, d, ascending);
      CompareExchangeAt(r, g, x, m, d, ascending);
      assert order == before + [g];
      if PairOf(x, d) == g {
        PartnerShape(x, d);
        PartnerInRange(x, d, |s|);
        RunPairsAt(s, before, Partner(x, d), m, d, ascending);
        SamePairSameValue(s, r, x, m, d, ascending);
      }
    }
  }

  /** The order in which the work items of one pass run does not matter: any enumeration of
      all of them performs the same parallel step. */
  lemma AnyOrderIsOnePass(s: seq<int>, order: seq<nat>, m: nat, d: nat, ascending: bool)
    requires d > 0 && m > 0 && Divides(2 * d, m) && Divides(2 * d, |s|)
    requires DistinctBelow(order, |s| / 2)
    requires forall g :: 0 <= g < |s| / 2 ==> g in order
    ensures RunPairs(s, order, m, d, ascending) == Pass(s, m, d, ascending)
  {
    forall x | 0 <= x < |s|
      ensures RunPairs(s, order, m, d, ascending)[x] == Pass(s, m, d, ascending)[x]
    {
      RunPairsAt(s, order, x, m, d, ascending);
      PairNumberInRange(x, d, |s|);
    }
  }

  // ---------------------------------------------------------------- bitonic sequences

  /** Two of the four values, in alternation, lie strictly above the other two. */
  predicate Zigzag(p: int, q: int, r: int, t: int) {
    || (p > q && p > t && r > q && r > t)
    || (q > p && q > r && t > p && t > r)
  }

  /** Four indices below n, in increasing order, inside one aligned block of d. */
  predicate Quad(i: int, j: int, k: int, l: int, n: nat, d: Positive) {
    0 <= i < j < k < l < n && Quot(i, d) == Quot(l, d)
  }

  /** Every aligned block of d elements is bitonic up to rotation: no four of its elements alternate. */
  ghost predicate BlocksBitonic(s: seq<int>, d: Positive) {
    forall i, j, k, l {:trigger Quad(i, j, k, l, |s|, d)} ::
      Quad(i, j, k, l, |s|, d) ==> !Zigzag(s[i], s[j], s[k], s[l])
  }

  /** Indices of one block of m, the first in an earlier sub-block of d. */
  predicate Precedes(x: int, y: int, n: nat, m: nat, d: nat)
    requires d > 0 && m > 0
  {
    0 <= x < n && 0 <= y < n && Quot(x, m) == Quot(y, m) && Quot(x, d) < Quot(y, d)
  }

  /** Inside every block of m, earlier sub-blocks of d hold values that may stand before later ones. */
  ghost predicate SubBlocksOrdered(s: seq<int>, m: nat, d: nat, ascending: bool)
    requires d > 0 && m > 0
  {
    forall x, y {:trigger Precedes(x, y, |s|, m, d)} ::
      Precedes(x, y, |s|, m, d) ==> InOrder(Up(x, m, ascending), s[x], s[y])
  }

  predicate SameSortedBlock(x: int, y: int, n: nat, m: Positive) {
    0 <= x < y < n && Quot(x, m) == Quot(y, m)
  }

  /** Aligned blocks of m elements are sorted, in alternating directions. */
  ghost predicate BlocksSorted(s: seq<int>, m: Positive, ascending: bool) {
    forall x, y {:trigger SameSortedBlock(x, y, |s|, m)} ::
      SameSortedBlock(x, y, |s|, m) ==> InOrder(Up(x, m, ascending), s[x], s[y])
  }

  /** The half-cleaner on four pairs: if neither half nor the wrapped quadruples alternate,
      neither the minima nor the maxima do. */
  lemma HalfCleanerOnPairs(i: int, j: int, k: int, l: int, i': int, j': int, k': int, l': int)
    requires !Zigzag(i, j, k, l) && !Zigzag(i', j', k', l')
    requires !Zigzag(i, j, k, l') && !Zigzag(i, j, k', l')
    requires !Zigzag(k, l, i', j') && !Zigzag(j, k, l, i')
    ensures !Zigzag(Min(i, i'), Min(j, j'), Min(k, k'), Min(l, l'))
    ensures !Zigzag(Max(i, i'), Max(j, j'), Max(k, k'), Max(l, l'))
  {
  }

  lemma BetweenInBlock(i: nat, j: nat, l: nat, d: nat)
    requires d > 0 && i <= j <= l && Quot(i, d) == Quot(l, d)
    ensures Quot(j, d) == Quot(i, d)
  {
    QuotMonotone(i, j, d);
    QuotMonotone(j, l, d);
  }

  /** Left indices in one block of d: with their partners they share one block of 2d. */
  lemma LeftQuad(i: nat, l: nat, d: nat)
    requires d > 0 && i <= l && Quot(i, d) == Quot(l, d) && IsLeft(i, d)
    ensures IsLeft(l, d) && l < i + d
    ensures Quot(i, 2 * d) == Quot(l, 2 * d) == Quot(i + d, 2 * d) == Quot(l + d, 2 * d)
  {
    SameBlock(i, l, d);
    LeftOfPair(i, d);
    LeftOfPair(l, d);
    QuotTwice(i, d);
    QuotTwice(l, d);
  }

  /** The partner block of a block of right indices is a block of left indices. */
  lemma RightToLeft(i: nat, l: nat, d: nat)
    requires d > 0 && i <= l && Quot(i, d) == Quot(l, d) && !IsLeft(i, d)
    ensures i >= d && !IsLeft(l, d) && IsLeft(i - d, d) && IsLeft(l - d, d) && Quot(i - d, d) == Quot(l - d, d)
  {
    LeftOfPair(i, d);
    LeftOfPair(l, d);
    assert Quot(i, d) == 1 + Quot(i - d, d);
    assert Quot(l, d) == 1 + Quot(l - d, d);
  }

  /** The six quadruples the half-cleaner needs, for left indices i < j < k < l of one block of d. */
  lemma SixQuads(s: seq<int>, i: nat, j: nat, k: nat, l: nat, d: nat)
    requires d > 0 && BlocksBitonic(s, 2 * d)
    requires i < j < k < l && l + d < |s| && Quot(i, d) == Quot(l, d) && IsLeft(i, d)
    ensures !Zigzag(s[i], s[j], s[k], s[l]) && !Zigzag(s[i + d], s[j + d], s[k + d], s[l + d])
    ensures !Zigzag(s[i], s[j], s[k], s[l + d]) && !Zigzag(s[i], s[j], s[k + d], s[l + d])
    ensures !Zigzag(s[k], s[l], s[i + d], s[j + d]) && !Zigzag(s[j], s[k], s[l], s[i + d])
  {
    BetweenInBlock(i, j, l, d);
    BetweenInBlock(i, k, l, d);
    LeftQuad(i, j, d); LeftQuad(i, k, d); LeftQuad(i, l, d);
    assert Quad(i, j, k, l, |s|, 2 * d) && Quad(i + d, j + d, k + d, l + d, |s|, 2 * d);
    assert Quad(i, j, k, l + d, |s|, 2 * d) && Quad(i, j, k + d, l + d, |s|, 2 * d);
    assert Quad(k, l, i + d, j + d, |s|, 2 * d) && Quad(j, k, l, i + d, |s|, 2 * d);
  }

  lemma LeftBlockStaysBitonic(s: seq<int>, i: nat, j: nat, k: nat, l: nat, m: nat, d: nat, ascending: bool)
    requires d > 0 && m > 0 && Divides(2 * d, m) && Divides(2 * d, |s|)
    requires BlocksBitonic(s, 2 * d)
    requires i < j < k < l < |s| && Quot(i, d) == Quot(l, d) && IsLeft(i, d)
    ensures l + d < |s|
    ensures var t := Pass(s, m, d, ascending);
      && !Zigzag(t[i], t[j], t[k], t[l]) && !Zigzag(t[i + d], t[j + d], t[k + d], t[l + d])
  {
    LeftValues(s, i, l, m, d, ascending);
    LeftValues(s, j, l, m, d, ascending) by { BetweenInBlock(i, j, l, d); }
    LeftValues(s, k, l, m, d, ascending) by { BetweenInBlock(i, k, l, d); }
    LeftValues(s, l, l, m, d, ascending);
    SixQuads(s, i, j, k, l, d);
    HalfCleanerOnPairs(s[i], s[j], s[k], s[l], s[i + d], s[j + d], s[k + d], s[l + d]);
  }

  /** What the pass leaves in pair x, with the direction of a later pair l of the same block. */
  lemma LeftValues(s: seq<int>, x: nat, l: nat, m: nat, d: nat, ascending: bool)
    requires d > 0 && m > 0 && Divides(2 * d, m) && Divides(2 * d, |s|)
    requires x <= l < |s| && Quot(x, d) == Quot(l, d) && IsLeft(l, d)
    ensures l + d < |s|
    ensures var t := Pass(s, m, d, ascending);
      && t[x] == (if Up(l, m, ascending) then Min(s[x], s[x + d]) else Max(s[x], s[x + d]))
      && t[x + d] == (if Up(l, m, ascending) then Max(s[x], s[x + d]) else Min(s[x], s[x + d]))
  {
    LeftQuad(x, l, d);
    PairValues(s, l, m, d, ascending);
    PairValues(s, x, m, d, ascending);
    SameOuterBlock(x, l, 2 * d, m);
  }

  /** A pass with distance d turns bitonic blocks of 2d into bitonic blocks of d. */
  lemma PassKeepsBitonic(s: seq<int>, m: nat, d: nat, ascending: bool)
    requires d > 0 && m > 0 && Divides(2 * d, m) && Divides(2 * d, |s|)
    requires BlocksBitonic(s, 2 * d)
    ensures BlocksBitonic(Pass(s, m, d, ascending), d)
  {
    var t := Pass(s, m, d, ascending);
    forall i, j, k, l | Quad(i, j, k, l, |s|, d)
      ensures !Zigzag(t[i], t[j], t[k], t[l])
    {
      QuadStaysBitonic(s, i, j, k, l, m, d, ascending);
    }
  }

  lemma QuadStaysBitonic(s: seq<int>, i: nat, j: nat, k: nat, l: nat, m: nat, d: nat, ascending: bool)
    requires d > 0 && m > 0 && Divides(2 * d, m) && Divides(2 * d, |s|)
    requires BlocksBitonic(s, 2 * d) && Quad(i, j, k, l, |s|, d)
    ensures var t := Pass(s, m, d, ascending); !Zigzag(t[i], t[j], t[k], t[l])
  {
    if IsLeft(i, d) {
      LeftBlockStaysBitonic(s, i, j, k, l, m, d, ascending);
    } else {
      RightToLeft(i, l, d);
      LeftBlockStaysBitonic(s, i - d, j - d, k - d, l - d, m, d, ascending);
    }
  }

  lemma DistantPairsOrdered(s: seq<int>, a: nat, b: nat, m: nat, d: nat, ascending: bool)
    requires d > 0 && m > 0 && Divides(2 * d, m) && SubBlocksOrdered(s, m, 2 * d, ascending)
    requires IsLeft(a, d) && IsLeft(b, d) && a + d < |s| && b + d < |s|
    requires Quot(a, m) == Quot(b, m) && Quot(a, 2 * d) < Quot(b, 2 * d)
    ensures var up := Up(a, m, ascending);
      && Up(a + d, m, ascending) == up
      && InOrder(up, s[a], s[b]) && InOrder(up, s[a], s[b + d])
      && InOrder(up, s[a + d], s[b]) && InOrder(up, s[a + d], s[b + d])
  {
    PairsPrecede(a, b, |s|, m, d);
    PairInBlocks(a, m, d);
  }

  lemma PairsPrecede(a: nat, b: nat, n: nat, m: nat, d: nat)
    requires d > 0 && m > 0 && Divides(2 * d, m) && IsLeft(a, d) && IsLeft(b, d) && a + d < n && b + d < n
    requires Quot(a, m) == Quot(b, m) && Quot(a, 2 * d) < Quot(b, 2 * d)
    ensures Precedes(a, b, n, m, 2 * d) && Precedes(a, b + d, n, m, 2 * d)
    ensures Precedes(a + d, b, n, m, 2 * d) && Precedes(a + d, b + d, n, m, 2 * d)
  {
    PairInBlocks(a, m, d);
    PairInBlocks(b, m, d);
  }

  /** A left index and its partner lie in the same blocks of 2d and of m. */
  lemma PairInBlocks(a: nat, m: nat, d: nat)
    requires d > 0 && m > 0 && Divides(2 * d, m) && IsLeft(a, d)
    ensures Quot(a + d, 2 * d) == Quot(a, 2 * d) && Quot(a + d, m) == Quot(a, m)
  {
    LeftOfPair(a, d);
    SameOuterBlock(a, a + d, 2 * d, m);
  }

  /** Values from different blocks of 2d keep their order: each is moved inside its own block. */
  lemma DistantBlocksStayOrdered(s: seq<int>, x: nat, y: nat, m: nat, d: nat, ascending: bool)
    requires d > 0 && m > 0 && Divides(2 * d, m) && Divides(2 * d, |s|)
    requires SubBlocksOrdered(s, m, 2 * d, ascending)
    requires Precedes(x, y, |s|, m, 2 * d)
    ensures InOrder(Up(x, m, ascending), PassAt(s, x, m, d, ascending), PassAt(s, y, m, d, ascending))
  {
    var a, b := if IsLeft(x, d) then x else x - d, if IsLeft(y, d) then y else y - d;
    PairOfIndex(s, x, a, m, d, ascending);
    PairOfIndex(s, y, b, m, d, ascending);
    DistantPairsOrdered(s, a, b, m, d, ascending);
  }

  /** The left index of the pair of x lies in the blocks that x lies in. */
  lemma PairPosition(x: nat, a: int, m: nat, d: nat)
    requires d > 0 && m > 0 && Divides(2 * d, m) && a == if IsLeft(x, d) then x else x - d
    ensures 0 <= a && IsLeft(a, d)
    ensures Quot(a, 2 * d) == Quot(x, 2 * d) && Quot(a, m) == Quot(x, m)
  {
    LeftOfPair(x, d);
    SameOuterBlock(a, x, 2 * d, m);
  }

  /** The value a pass leaves at x is one of the two values of its pair. */
  lemma PairOfIndex(s: seq<int>, x: nat, a: int, m: nat, d: nat, ascending: bool)
    requires d > 0 && m > 0 && Divides(2 * d, m) && Divides(2 * d, |s|) && x < |s|
    requires a == if IsLeft(x, d) then x else x - d
    ensures 0 <= a && a + d < |s| && IsLeft(a, d)
    ensures Quot(a, 2 * d) == Quot(x, 2 * d) && Quot(a, m) == Quot(x, m)
    ensures PassAt(s, x, m, d, ascending) == s[a] || PassAt(s, x, m, d, ascending) == s[a + d]
  {
    PairPosition(x, a, m, d);
    ValueOfPair(s, x, a, m, d, ascending);
  }

  lemma ValueOfPair(s: seq<int>, x: nat, a: nat, m: nat, d: nat, ascending: bool)
    requires d > 0 && m > 0 && Divides(2 * d, m) && Divides(2 * d, |s|) && x < |s|
    requires IsLeft(a, d) && a == if IsLeft(x, d) then x else x - d
    ensures a + d < |s|
    ensures PassAt(s, x, m, d, ascending) == s[a] || PassAt(s, x, m, d, ascending) == s[a + d]
  {
    PairValues(s, a, m, d, ascending);
  }

  /** In a bitonic block the minima of all pairs may stand before the maxima of all pairs. */
  lemma HalvesSeparated(s: seq<int>, a: nat, b: nat, d: nat)
    requires d > 0 && BlocksBitonic(s, 2 * d)
    requires IsLeft(a, d) && IsLeft(b, d) && Quot(a, 2 * d) == Quot(b, 2 * d) && a + d < |s| && b + d < |s|
    ensures Min(s[a], s[a + d]) <= Max(s[b], s[b + d])
  {
    QuotTwice(a, d);
    QuotTwice(b, d);
    if a < b {
      LeftQuad(a, b, d);
      assert Quad(a, b, a + d, b + d, |s|, 2 * d);
    } else if b < a {
      LeftQuad(b, a, d);
      assert Quad(b, a, b + d, a + d, |s|, 2 * d);
    }
  }

  /** Values from the two halves of one block of 2d come out in order. */
  lemma HalvesComeOutOrdered(s: seq<int>, a: nat, b: nat, m: nat, d: nat, ascending: bool)
    requires d > 0 && m > 0 && Divides(2 * d, m) && Divides(2 * d, |s|)
    requires BlocksBitonic(s, 2 * d)
    requires a < |s| && b + d < |s| && IsLeft(a, d) && IsLeft(b, d) && Quot(a, 2 * d) == Quot(b, 2 * d)
    ensures InOrder(Up(a, m, ascending), PassAt(s, a, m, d, ascending), PassAt(s, b + d, m, d, ascending))
  {
    PairValues(s, a, m, d, ascending);
    PairValues(s, b, m, d, ascending);
    SameOuterBlock(a, b, 2 * d, m);
    HalvesSeparated(s, a, b, d);
    HalvesSeparated(s, b, a, d);
  }

  /** A pass with distance d also separates the two halves of every bitonic block of 2d. */
  lemma PassOrdersHalves(s: seq<int>, m: nat, d: nat, ascending: bool)
    requires d > 0 && m > 0 && Divides(2 * d, m) && Divides(2 * d, |s|)
    requires BlocksBitonic(s, 2 * d) && SubBlocksOrdered(s, m, 2 * d, ascending)
    ensures SubBlocksOrdered(Pass(s, m, d, ascending), m, d, ascending)
  {
    var t := Pass(s, m, d, ascending);
    forall x, y | Precedes(x, y, |s|, m, d)
      ensures InOrder(Up(x, m, ascending), t[x], t[y])
    {
      QuotTwice(x, d);
      QuotTwice(y, d);
      if Quot(x, 2 * d) < Quot(y, 2 * d) {
        assert Precedes(x, y, |s|, m, 2 * d);
        DistantBlocksStayOrdered(s, x, y, m, d, ascending);
      } else {
        assert IsLeft(x, d) && !IsLeft(y, d);
        LeftOfPair(y, d);
        HalvesComeOutOrdered(s, x, y - d, m, d, ascending);
      }
    }
  }

  /** Two neighbouring sorted blocks of opposite directions form one bitonic block. */
  lemma SortedPairsAreBitonic(s: seq<int>, d: nat, ascending: bool)
    requires d > 0 && BlocksSorted(s, d, ascending)
    ensures BlocksBitonic(s, 2 * d)
  {
    forall i, j, k, l | Quad(i, j, k, l, |s|, 2 * d)
      ensures !Zigzag(s[i], s[j], s[k], s[l])
    {
      BetweenInBlock(i, j, l, 2 * d);
      BetweenInBlock(i, k, l, 2 * d);
      QuotTwice(i, d); QuotTwice(j, d); QuotTwice(k, d); QuotTwice(l, d);
      QuotMonotone(i, j, d); QuotMonotone(j, k, d); QuotMonotone(k, l, d);
      var b := Quot(i, d);
      assert Quot(j, d) == b ==> SameSortedBlock(i, j, |s|, d);
      assert Quot(k, d) == Quot(j, d) ==> SameSortedBlock(j, k, |s|, d);
      assert Quot(l, d) == Quot(k, d) ==> SameSortedBlock(k, l, |s|, d);
    }
  }

  /** Blocks of one element, ordered inside blocks of m, are sorted blocks of m. */
  lemma OrderedSinglesAreSorted(s: seq<int>, m: nat, ascending: bool)
    requires m > 0 && SubBlocksOrdered(s, m, 1, ascending)
    ensures BlocksSorted(s, m, ascending)
  {
    forall x, y | SameSortedBlock(x, y, |s|, m)
      ensures InOrder(Up(x, m, ascending), s[x], s[y])
    {
      QuotByOne(x);
      QuotByOne(y);
      assert Precedes(x, y, |s|, m, 1);
    }
  }

  lemma SinglesAreSorted(s: seq<int>, ascending: bool)
    ensures BlocksSorted(s, Pow2(0), ascending)
  {
    forall x, y | SameSortedBlock(x, y, |s|, 1)
      ensures InOrder(Up(x, 1, ascending), s[x], s[y])
    {
      QuotByOne(x);
      QuotByOne(y);
    }
  }

  lemma WholeBlockSorted(s: seq<int>, ascending: bool)
    requires |s| > 0 && BlocksSorted(s, |s|, ascending)
    ensures Sorted(s, ascending)
  {
    forall i, j | 0 <= i < j < |s|
      ensures InOrder(ascending, s[i], s[j])
    {
      assert SameSortedBlock(i, j, |s|, |s|);
    }
  }

  // ---------------------------------------------------------------- the host code

  function UpTo(n: nat): (order: seq<nat>)
    ensures |order| == n && forall i :: 0 <= i < n ==> order[i] == i
  {
    if n == 0 then [] else UpTo(n - 1) + [n - 1]
  }

  lemma {:induction false} PowerOfTwoHalves(n: nat, k: nat)
    requires IsPowerOfTwo(n) && n == Pow2(k)
    ensures n > 1 <==> k > 0
    ensures k > 0 ==> n / 2 == Pow2(k - 1) && IsPowerOfTwo(n / 2)
  {
  }

  lemma {:induction false} Log2Exists(n: nat) returns (k: nat)
    requires IsPowerOfTwo(n)
    ensures n == Pow2(k)
  {
    if n == 1 {
      k := 0;
    } else {
      var h := Log2Exists(n / 2);
      k := h + 1;
    }
  }

  /** The distances and block sizes of the network divide each other and the array. */
  lemma NetworkSizes(n: nat, numStages: nat, stage: nat, shift: nat)
    requires n == Pow2(numStages) && shift <= stage < numStages
    ensures Divides(2 * Pow2(shift), Pow2(stage + 1))
    ensures Divides(2 * Pow2(shift), n)
  {
    Pow2Divides(shift + 1, stage + 1);
    Pow2Divides(shift + 1, numStages);
  }

  /** The pair of work item g lies in the block of 2m indices that has the number of g's block of m. */
  lemma {:induction false} BlockOfPair(g: nat, d: nat, m: nat)
    requires d > 0 && m > 0 && Divides(d, m)
    ensures Quot(Left(g, d), 2 * m) == Quot(g, m)
  {
    if g < m {
      BlockInRange(g, d, m);
    } else {
      ShiftByMultiple(g - m, d, m);
      BlockOfPair(g - m, d, m);
      assert Left(g, d) == Left(g - m, d) + 2 * m;
    }
  }

  /** The direction bit of work item g is the parity of the block of 2^(stage+1) its pair lies in. */
  lemma DirectionBit(g: nat, stage: nat, shift: nat, ascending: bool)
    requires shift <= stage
    ensures Up(Left(g, Pow2(shift)), Pow2(stage + 1), ascending) == Direction(g, Shl(1, stage), ascending)
  {
    ShlIsProduct(stage);
    Pow2Divides(shift, stage);
    BlockOfPair(g, Pow2(shift), Pow2(stage));
    AndSingleBit(g, stage);
  }

  lemma SwapKeepsElements<T>(s: seq<T>, t: seq<T>, i: nat, j: nat)
    requires i < j < |s|
    requires t == s || t == s[i := s[j]][j := s[i]]
    ensures multiset(t) == multiset(s)
  {
  }

  /** One compare-exchange of the host code, on signed words. */
  lemma StoreKeepsElements(s: seq<Int32>, t: seq<Int32>, i: nat, j: nat)
    requires i < j < |s| && |t| == |s|
    requires t == s[i := t[i]][j := t[j]]
    requires (ToUnsigned(t[i]) == ToUnsigned(s[i]) && ToUnsigned(t[j]) == ToUnsigned(s[j]))
          || (ToUnsigned(t[i]) == ToUnsigned(s[j]) && ToUnsigned(t[j]) == ToUnsigned(s[i]))
    ensures multiset(t) == multiset(s)
  {
    SwapKeepsElements(s, t, i, j);
  }

  /** What holds in a stage when its passes with distances 2^stage down to 2^shift are done. */
  ghost predicate Merged(s: seq<int>, stage: nat, shift: nat, ascending: bool) {
    BlocksBitonic(s, Pow2(shift)) && SubBlocksOrdered(s, Pow2(stage + 1), Pow2(shift), ascending)
  }

  lemma StageStart(s: seq<int>, stage: nat, ascending: bool)
    requires BlocksSorted(s, Pow2(stage), ascending)
    ensures Merged(s, stage, stage + 1, ascending)
  {
    SortedPairsAreBitonic(s, Pow2(stage), ascending);
    assert Pow2(stage + 1) == 2 * Pow2(stage);
  }

  lemma PassMerges(s: seq<int>, stage: nat, merged: nat, shift: nat, ascending: bool)
    requires shift <= stage && merged == shift + 1 && Merged(s, stage, merged, ascending)
    requires Divides(2 * Pow2(shift), |s|) && Divides(2 * Pow2(shift), Pow2(stage + 1))
    ensures Merged(Pass(s, Pow2(stage + 1), Pow2(shift), ascending), stage, shift, ascending)
  {
    assert Pow2(shift + 1) == 2 * Pow2(shift);
    PassKeepsBitonic(s, Pow2(stage + 1), Pow2(shift), ascending);
    PassOrdersHalves(s, Pow2(stage + 1), Pow2(shift), ascending);
  }

  /** After all passes of a stage, blocks of 2^(stage+1) are sorted, in alternating directions. */
  lemma StageEnd(s: seq<int>, stage: nat, ascending: bool)
    requires Merged(s, stage, 0, ascending)
    ensures BlocksSorted(s, Pow2(stage + 1), ascending)
  {
    OrderedSinglesAreSorted(s, Pow2(stage + 1), ascending);
  }

  /** The number of halvings that take the array size to one. */
  method CountStages(arraySize: nat) returns (numStages: nat)
    requires IsPowerOfTwo(arraySize)
    ensures arraySize == Pow2(numStages)
  {
    ghost var log := Log2Exists(arraySize);
    numStages := 0;
    var temp: nat := arraySize;
    while temp > 1
      invariant numStages <= log && IsPowerOfTwo(temp) && temp == Pow2(log - numStages)
    {
      PowerOfTwoHalves(temp, log - numStages);
      ShrByOne(temp);
      temp := Shr(temp, 1);
      numStages := numStages + 1;
    }
    PowerOfTwoHalves(temp, log - numStages);
  }

  /** The reference sort: it leaves a permutation of its input, sorted in the requested
      direction under the unsigned order.  `main` admits powers of two only. */
  method ExecuteSortReference(input: array<Int32>, sortAscending: bool)
    requires IsPowerOfTwo(input.Length)
    modifies input
    ensures Sorted(Words(input[..]), sortAscending)
    ensures multiset(input[..]) == old(multiset(input[..]))
    ensures forall i, j :: 0 <= i < j < input.Length ==>
              if sortAscending then UnsignedAtMost(input[i], input[j]) else UnsignedAtMost(input[j], input[i])
  {
    ghost var elements := multiset(input[..]);
    var numStages := CountStages(input.Length);
    SinglesAreSorted(Words(input[..]), sortAscending);
    var stage := 0;
    while stage < numStages
      invariant 0 <= stage <= numStages
      invariant BlocksSorted(Words(input[..]), Pow2(stage), sortAscending)
      invariant multiset(input[..]) == elements
    {
      RunStage(input, numStages, stage, sortAscending);
      stage := stage + 1;
    }
    WholeBlockSorted(Words(input[..]), sortAscending);
    SortedInNumbers(input[..], sortAscending);
  }

  /** The unsigned order of signed words: those without a sign come first. */
  predicate UnsignedAtMost(a: Int32, b: Int32) {
    if (a < 0) == (b < 0) then a <= b else b < 0
  }

  lemma SortedInNumbers(s: seq<Int32>, up: bool)
    requires Sorted(Words(s), up)
    ensures forall i, j :: 0 <= i < j < |s| ==> if up then UnsignedAtMost(s[i], s[j]) else UnsignedAtMost(s[j], s[i])
  {
    forall i, j | 0 <= i < j < |s|
      ensures if up then UnsignedAtMost(s[i], s[j]) else UnsignedAtMost(s[j], s[i])
    {
      assert InOrder(up, Words(s)[i], Words(s)[j]);
    }
  }

  /** Ascending, 1 comes before -1. */
  method SortTwo(input: array<Int32>)
    requires input.Length == 2 && input[0] == -1 && input[1] == 1
    modifies input
    ensures input[0] == 1 && input[1] == -1
  {
    assert IsPowerOfTwo(2) by {
      assert 2 == Pow2(1);
    }
    assert input[..] == [-1, 1];
    ExecuteSortReference(input, true);
    assert input[..] == [input[0], input[1]];
    assert -1 in multiset([-1, 1]) && 1 in multiset([-1, 1]);
  }

  /** The middle loop: the passes of one stage, with distances `1 << stage` down to 1. */
  method RunStage(input: array<Int32>, ghost numStages: nat, stage: nat, sortAscending: bool)
    requires stage < numStages && input.Length == Pow2(numStages)
    requires BlocksSorted(Words(input[..]), Pow2(stage), sortAscending)
    modifies input
    ensures BlocksSorted(Words(input[..]), Pow2(stage + 1), sortAscending)
    ensures multiset(input[..]) == old(multiset(input[..]))
  {
    ghost var elements := multiset(input[..]);
    StageStart(Words(input[..]), stage, sortAscending);
    var passOfStage := 0;
    ghost var merged: nat := stage + 1;
    while passOfStage < stage + 1
      invariant 0 <= passOfStage <= stage + 1
      invariant merged == stage + 1 - passOfStage && Merged(Words(input[..]), stage, merged, sortAscending)
      invariant multiset(input[..]) == elements
    {
      var shift := stage - passOfStage;
      NetworkSizes(input.Length, numStages, stage, shift);
      PassMerges(Words(input[..]), stage, merged, shift, sortAscending);
      RunPass(input, stage, shift, sortAscending);
      merged := shift;
      passOfStage := passOfStage + 1;
    }
    StageEnd(Words(input[..]), stage, sortAscending);
  }

  /** The compare-exchange of two array elements, as unsigned words. */
  method ComparePair(input: array<Int32>, leftId: nat, rightId: nat, dir: bool)
    requires leftId < rightId < input.Length
    modifies input
    ensures Words(input[..]) == Compared(old(Words(input[..])), leftId, rightId, dir)
    ensures multiset(input[..]) == old(multiset(input[..]))
  {
    ghost var was := input[..];
    var left := ToUnsigned(input[leftId]);
    var right := ToUnsigned(input[rightId]);
    var greater, lesser;
    if left > right {
      greater := left;
      lesser := right;
    } else {
      greater := right;
      lesser := left;
    }
    if dir {
      input[leftId] := ToSigned(lesser);
      input[rightId] := ToSigned(greater);
    } else {
      input[leftId] := ToSigned(greater);
      input[rightId] := ToSigned(lesser);
    }
    StoreKeepsElements(was, input[..], leftId, rightId);
    WordsAfterStores(was, input[..], leftId, rightId);
  }

  lemma WordsAfterStores(s: seq<Int32>, t: seq<Int32>, i: nat, j: nat)
    requires i < j < |s| == |t| && t == s[i := t[i]][j := t[j]]
    ensures Words(t) == Words(s)[i := ToUnsigned(t[i])][j := ToUnsigned(t[j])]
  {
  }

  /** The left index of work item g, by the shifts and the mask of the host code. */
  function LeftId(g: nat, shift: nat): nat {
    ShlIsProduct(shift);
    Shl(Shr(g, shift), shift + 1) + And(g, Shl(1, shift) - 1)
  }

  /** The direction work item g sorts its pair in, by the mask of the host code. */
  predicate Direction(g: nat, dirMask: nat, sortAscending: bool) {
    if And(g, dirMask) == dirMask then !sortAscending else sortAscending
  }

  /** The shifts and the mask of the host code compute the left index of pair g. */
  lemma LeftIdIsLeft(g: nat, shift: nat)
    ensures LeftId(g, shift) == Left(g, Pow2(shift))
  {
    ShlIsProduct(shift);
    AndLowMask(g, shift);
    ShiftOutLowBits(g, shift);
  }

  /** The array after the first g work items of a pass. */
  function Running(s: seq<int>, g: nat, m: nat, d: nat, ascending: bool): (t: seq<int>)
    requires d > 0 && m > 0 && Divides(2 * d, |s|) && g <= |s| / 2
    ensures |t| == |s|
  {
    RunPairs(s, UpTo(g), m, d, ascending)
  }

  lemma RunningNext(s: seq<int>, g: nat, m: nat, d: nat, ascending: bool)
    requires d > 0 && m > 0 && Divides(2 * d, |s|) && g < |s| / 2
    ensures Running(s, g + 1, m, d, ascending) ==
            CompareExchange(Running(s, g, m, d, ascending), g, m, d, ascending)
  {
    assert UpTo(g + 1)[..g] == UpTo(g);
  }

  /** The host code's indices and direction for work item g are those of pair g. */
  lemma WorkItemIndices(g: nat, l: nat, h: nat, dir: bool, stage: nat, shift: nat, ascending: bool)
    requires shift <= stage
    requires l == LeftId(g, shift) && h == l + Shl(1, shift) && dir == Direction(g, Shl(1, stage), ascending)
    ensures l == Left(g, Pow2(shift)) && h == l + Pow2(shift) && dir == Up(l, Pow2(stage + 1), ascending)
  {
    LeftIdIsLeft(g, shift);
    ShlIsProduct(shift);
    DirectionBit(g, stage, shift, ascending);
  }

  /** One more work item extends the pass by its pair. */
  lemma WorkItemStep(s: seq<int>, g: nat, l: nat, h: nat, dir: bool, m: nat, d: nat, ascending: bool)
    requires d > 0 && m > 0 && Divides(2 * d, |s|) && g < |s| / 2
    requires l == Left(g, d) && h == l + d && dir == Up(l, m, ascending)
    ensures l < h < |s|
    ensures Running(s, g + 1, m, d, ascending) == Compared(Running(s, g, m, d, ascending), l, h, dir)
  {
    PairInRange(g, d, |s|);
    RunningNext(s, g, m, d, ascending);
    CompareExchangeIsCompared(Running(s, g, m, d, ascending), g, l, h, dir, m, d, ascending);
  }

  lemma CompareExchangeIsCompared(r: seq<int>, g: nat, l: nat, h: nat, dir: bool, m: nat, d: nat, ascending: bool)
    requires d > 0 && m > 0 && Divides(2 * d, |r|) && g < |r| / 2
    requires l == Left(g, d) && h == l + d && dir == Up(l, m, ascending) && h < |r|
    ensures CompareExchange(r, g, m, d, ascending) == Compared(r, l, h, dir)
  {
  }

  lemma AllPairsRun(s: seq<int>, n: nat, m: nat, d: nat, ascending: bool)
    requires d > 0 && m > 0 && Divides(2 * d, |s|) && Divides(2 * d, m) && n == |s| / 2
    ensures Running(s, n, m, d, ascending) == Pass(s, m, d, ascending)
  {
    AnyOrderIsOnePass(s, UpTo(n), m, d, ascending) by {
      forall g | 0 <= g < n
        ensures g in UpTo(n)
      {
        assert UpTo(n)[g] == g;
      }
    }
  }

  /** The words after the first g work items of a pass that started from `before`. */
  ghost predicate ItemsRun(words: seq<int>, before: seq<int>, g: nat, m: nat, d: nat, ascending: bool) {
    && d > 0 && m > 0 && Divides(2 * d, |before|) && g <= |before| / 2
    && words == Running(before, g, m, d, ascending)
  }

  /** The body of the innermost loop: work item g of a pass that started from `before`. */
  method RunWorkItem(input: array<Int32>, ghost before: seq<int>, g: nat, stage: nat, shift: nat, sortAscending: bool,
                     ghost m: nat, ghost d: nat)
    requires shift <= stage && m == Pow2(stage + 1) && d == Pow2(shift) && Divides(2 * d, |before|) && g < |before| / 2
    requires ItemsRun(Words(input[..]), before, g, m, d, sortAscending)
    modifies input
    ensures ItemsRun(Words(input[..]), before, g + 1, m, d, sortAscending)
    ensures multiset(input[..]) == old(multiset(input[..]))
  {
    var dirMask := Shl(1, stage);
    var distance := Shl(1, shift);
    var leftId := LeftId(g, shift);
    var rightId := leftId + distance;
    var dir := Direction(g, dirMask, sortAscending);
    WorkItemIndices(g, leftId, rightId, dir, stage, shift, sortAscending);
    WorkItemStep(before, g, leftId, rightId, dir, m, d, sortAscending);
    ComparePair(input, leftId, rightId, dir);
  }

  /** The innermost loop: all work items of the pass at distance `1 << shift`. */
  method RunItems(input: array<Int32>, stage: nat, shift: nat, sortAscending: bool, ghost m: nat, ghost d: nat)
    requires shift <= stage && m == Pow2(stage + 1) && d == Pow2(shift) && Divides(2 * d, input.Length)
    modifies input
    ensures var before := old(Words(input[..]));
      Words(input[..]) == Running(before, |before| / 2, m, d, sortAscending)
    ensures multiset(input[..]) == old(multiset(input[..]))
  {
    ghost var before, elements := Words(input[..]), multiset(input[..]);
    ShrByOne(input.Length);
    var pairs := Shr(input.Length, 1);
    var g := 0;
    while g < pairs
      invariant 0 <= g <= pairs
      invariant ItemsRun(Words(input[..]), before, g, m, d, sortAscending)
      invariant multiset(input[..]) == elements
    {
      RunWorkItem(input, before, g, stage, shift, sortAscending, m, d);
      g := g + 1;
    }
  }

  /** One pass over all pairs. */
  method RunPass(input: array<Int32>, stage: nat, shift: nat, sortAscending: bool)
    requires shift <= stage
    requires Divides(2 * Pow2(shift), input.Length) && Divides(2 * Pow2(shift), Pow2(stage + 1))
    modifies input
    ensures Words(input[..]) == Pass(old(Words(input[..])), Pow2(stage + 1), Pow2(shift), sortAscending)
    ensures multiset(input[..]) == old(multiset(input[..]))
  {
    AllPairsRun(Words(input[..]), input.Length / 2, Pow2(stage + 1), Pow2(shift), sortAscending);
    RunItems(input, stage, shift, sortAscending, Pow2(stage + 1), Pow2(shift));
  }
}
