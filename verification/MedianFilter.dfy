/**
 The 3x3 median filter reference (opencl/intel/MedianFilter/MedianFilter.cpp): a network of
 compare-and-exchange operations on words of four byte lanes.
 */
module MedianFilter {
  import opened Numbers

  const PAD_LINES := 2

  type Byte = x: int | 0 <= x < 256

  /** A cl_uint, seen as its four bytes. */
  datatype Word = Word(b0: Byte, b1: Byte, b2: Byte, b3: Byte)

  const ZERO := Word(0, 0, 0, 0)

  type LaneIndex = l: int | 0 <= l < 4

  type Nine = s: seq<Word> | |s| == 9 witness seq(9, _ => ZERO)

  function Lane(w: Word, l: LaneIndex): Byte {
    if l == 0 then w.b0 else if l == 1 then w.b1 else if l == 2 then w.b2 else w.b3
  }

  function C4Max(l: Word, r: Word): Word {
    Word(Max(l.b0, r.b0), Max(l.b1, r.b1), Max(l.b2, r.b2), Max(l.b3, r.b3))
  }

  function C4Min(l: Word, r: Word): Word {
    Word(Min(l.b0, r.b0), Min(l.b1, r.b1), Min(l.b2, r.b2), Min(l.b3, r.b3))
  }

  // ---------------------------------------------------------------- what a median is

  function Ge(x: int, t: int): int { if x >= t then 1 else 0 }

  /** How many of nine words reach t in lane l. */
  function CountGe(s: Nine, l: LaneIndex, t: int): int {
    Ge(Lane(s[0], l), t) + Ge(Lane(s[1], l), t) + Ge(Lane(s[2], l), t) + Ge(Lane(s[3], l), t)
    + Ge(Lane(s[4], l), t) + Ge(Lane(s[5], l), t) + Ge(Lane(s[6], l), t) + Ge(Lane(s[7], l), t) + Ge(Lane(s[8], l), t)
  }

  /** In lane l, at least five words reach m and at most four exceed it: the fifth smallest. */
  predicate IsMedian(s: Nine, l: LaneIndex, m: int) {
    CountGe(s, l, m) >= 5 && CountGe(s, l, m + 1) <= 4
  }

  lemma CountFalls(s: Nine, l: LaneIndex, t: int, u: int)
    requires t <= u
    ensures CountGe(s, l, t) >= CountGe(s, l, u)
  {
  }

  /** There is no other number like it. */
  lemma MedianIsUnique(s: Nine, l: LaneIndex, m: int, n: int)
    requires IsMedian(s, l, m) && IsMedian(s, l, n)
    ensures m == n
  {
    if m < n {
      CountFalls(s, l, m + 1, n);
    } else if n < m {
      CountFalls(s, l, n + 1, m);
    }
  }

  /** A word all of whose lanes are medians. */
  predicate IsMedianWord(s: Nine, w: Word) {
    forall l: LaneIndex :: IsMedian(s, l, Lane(w, l))
  }

  // ---------------------------------------------------------------- the network, on one lane

  /** What an exchange leaves of a count. */
  lemma ExchangeCounts(a: Byte, b: Byte, t: int)
    ensures Ge(Min(a, b), t) + Ge(Max(a, b), t) == Ge(a, t) + Ge(b, t)
  {
  }

  predicate Descending(a: int, b: int, c: int, d: int) { a >= b >= c >= d }

  predicate Ascending(a: int, b: int, c: int, d: int, e: int) { a <= b <= c <= d <= e }

  function Ge4(a: int, b: int, c: int, d: int, t: int): int { Ge(a, t) + Ge(b, t) + Ge(c, t) + Ge(d, t) }

  function Ge5(a: int, b: int, c: int, d: int, e: int, t: int): int { Ge4(a, b, c, d, t) + Ge(e, t) }

  /** Two ordered pairs merged in descending order. */
  lemma MergePairs(p0: Byte, p1: Byte, p2: Byte, p3: Byte)
    requires p0 <= p1 && p3 <= p2
    ensures var q2, q0, q3, q1 := Min(p2, p0), Max(p2, p0), Min(p3, p1), Max(p3, p1);
      Descending(Max(q1, q0), Min(q1, q0), Max(q3, q2), Min(q3, q2))
  {
  }

  /** The end of the network: four in descending order against five in ascending order. */
  function Selected(a0: Byte, a1: Byte, a2: Byte, a3: Byte, b4: Byte, b5: Byte, b6: Byte, b7: Byte, b8: Byte): Byte {
    Min(Min(Max(Min(a0, b8), b4), Max(a2, b6)), Min(Max(a1, b5), Max(a3, b7)))
  }

  lemma SelectedCounts(a0: Byte, a1: Byte, a2: Byte, a3: Byte, b4: Byte, b5: Byte, b6: Byte, b7: Byte, b8: Byte, t: int)
    requires Descending(a0, a1, a2, a3) && Ascending(b4, b5, b6, b7, b8)
    ensures Selected(a0, a1, a2, a3, b4, b5, b6, b7, b8) >= t
            <==> Ge4(a0, a1, a2, a3, t) + Ge5(b4, b5, b6, b7, b8, t) >= 5
  {
    var x, y, z, w := Max(Min(a0, b8), b4), Max(a1, b5), Max(a2, b6), Max(a3, b7);
    assert Selected(a0, a1, a2, a3, b4, b5, b6, b7, b8) >= t <==> x >= t && y >= t && z >= t && w >= t;
    assert x >= t <==> (a0 >= t && b8 >= t) || b4 >= t;
    assert y >= t <==> a1 >= t || b5 >= t;
    assert z >= t <==> a2 >= t || b6 >= t;
    assert w >= t <==> a3 >= t || b7 >= t;
    ThresholdCounts(a0 >= t, a1 >= t, a2 >= t, a3 >= t, b4 >= t, b5 >= t, b6 >= t, b7 >= t, b8 >= t);
  }

  function One(b: bool): int { if b then 1 else 0 }

  lemma ThresholdCounts(a0: bool, a1: bool, a2: bool, a3: bool, b4: bool, b5: bool, b6: bool, b7: bool, b8: bool)
    requires (a3 ==> a2) && (a2 ==> a1) && (a1 ==> a0)
    requires (b4 ==> b5) && (b5 ==> b6) && (b6 ==> b7) && (b7 ==> b8)
    ensures ((a0 && b8) || b4) && (a1 || b5) && (a2 || b6) && (a3 || b7)
            <==> One(a0) + One(a1) + One(a2) + One(a3) + One(b4) + One(b5) + One(b6) + One(b7) + One(b8) >= 5
  {
  }

  lemma SortThree(x6: Byte, x7: Byte, x8: Byte)
    ensures var c7, c8 := Min(x7, x8), Max(x7, x8);
      var d6, d8 := Min(x6, c8), Max(x6, c8);
      Min(d6, c7) <= Max(d6, c7) <= d8
  {
  }

  /** An ordered pair and an ordered triple merged in ascending order. */
  lemma MergePairTriple(c4: Byte, c5: Byte, c6: Byte, c7: Byte, c8: Byte)
    requires c5 <= c4 && c6 <= c7 <= c8
    ensures var d4, d8 := Min(c4, c8), Max(c4, c8);
      var e4, e6, e5, e7 := Min(d4, c6), Max(d4, c6), Min(c5, c7), Max(c5, c7);
      Ascending(Min(e4, e5), Max(e4, e5), Min(e6, e7), Max(e6, e7), d8)
  {
  }

  // ---------------------------------------------------------------- the network, on words

  lemma LaneOfMin(a: Word, b: Word, l: LaneIndex)
    ensures Lane(C4Min(a, b), l) == Min(Lane(a, l), Lane(b, l))
  {
  }

  lemma LaneOfMax(a: Word, b: Word, l: LaneIndex)
    ensures Lane(C4Max(a, b), l) == Max(Lane(a, l), Lane(b, l))
  {
  }

  /** A compare-and-exchange of two words is one in every lane. */
  lemma ExchangeLane(a: Word, b: Word, l: LaneIndex, t: int)
    ensures Lane(C4Min(a, b), l) == Min(Lane(a, l), Lane(b, l))
    ensures Lane(C4Max(a, b), l) == Max(Lane(a, l), Lane(b, l))
    ensures Ge(Lane(C4Min(a, b), l), t) + Ge(Lane(C4Max(a, b), l), t) == Ge(Lane(a, l), t) + Ge(Lane(b, l), t)
  {
    LaneOfMin(a, b, l);
    LaneOfMax(a, b, l);
    ExchangeCounts(Lane(a, l), Lane(b, l), t);
  }

  /** The first six exchanges. */
  function FourOf(x0: Word, x1: Word, x2: Word, x3: Word): (Word, Word, Word, Word) {
    var p0, p1, p3, p2 := C4Min(x0, x1), C4Max(x0, x1), C4Min(x3, x2), C4Max(x3, x2);
    var q2, q0, q3, q1 := C4Min(p2, p0), C4Max(p2, p0), C4Min(p3, p1), C4Max(p3, p1);
    (C4Max(q1, q0), C4Min(q1, q0), C4Max(q3, q2), C4Min(q3, q2))
  }

  /** The next nine. */
  function FiveOf(x4: Word, x5: Word, x6: Word, x7: Word, x8: Word): (Word, Word, Word, Word, Word) {
    var c5, c4, y7, y8 := C4Min(x5, x4), C4Max(x5, x4), C4Min(x7, x8), C4Max(x7, x8);
    var z6, c8 := C4Min(x6, y8), C4Max(x6, y8);
    var c6, c7 := C4Min(z6, y7), C4Max(z6, y7);
    var d4, d8 := C4Min(c4, c8), C4Max(c4, c8);
    var e4, e6, e5, e7 := C4Min(d4, c6), C4Max(d4, c6), C4Min(c5, c7), C4Max(c5, c7);
    (C4Min(e4, e5), C4Max(e4, e5), C4Min(e6, e7), C4Max(e6, e7), d8)
  }

  lemma FourOfSorts(x0: Word, x1: Word, x2: Word, x3: Word, l: LaneIndex, t: int)
    ensures var r := FourOf(x0, x1, x2, x3);
      && Descending(Lane(r.0, l), Lane(r.1, l), Lane(r.2, l), Lane(r.3, l))
      && Ge4(Lane(r.0, l), Lane(r.1, l), Lane(r.2, l), Lane(r.3, l), t)
         == Ge4(Lane(x0, l), Lane(x1, l), Lane(x2, l), Lane(x3, l), t)
  {
    var p0, p1, p3, p2 := C4Min(x0, x1), C4Max(x0, x1), C4Min(x3, x2), C4Max(x3, x2);
    var q2, q0, q3, q1 := C4Min(p2, p0), C4Max(p2, p0), C4Min(p3, p1), C4Max(p3, p1);
    ExchangeLane(x0, x1, l, t);
    ExchangeLane(x3, x2, l, t);
    ExchangeLane(p2, p0, l, t);
    ExchangeLane(p3, p1, l, t);
    ExchangeLane(q1, q0, l, t);
    ExchangeLane(q3, q2, l, t);
    MergePairs(Lane(p0, l), Lane(p1, l), Lane(p2, l), Lane(p3, l));
  }

  /** Exchanges 8 to 10 order the last three words. */
  lemma ThreeSorted(x6: Word, x7: Word, x8: Word, l: LaneIndex, t: int)
    ensures var y7, y8 := C4Min(x7, x8), C4Max(x7, x8);
      var z6, c8 := C4Min(x6, y8), C4Max(x6, y8);
      && Lane(C4Min(z6, y7), l) <= Lane(C4Max(z6, y7), l) <= Lane(c8, l)
      && Ge(Lane(C4Min(z6, y7), l), t) + Ge(Lane(C4Max(z6, y7), l), t) + Ge(Lane(c8, l), t)
         == Ge(Lane(x6, l), t) + Ge(Lane(x7, l), t) + Ge(Lane(x8, l), t)
  {
    var y7, y8 := C4Min(x7, x8), C4Max(x7, x8);
    ExchangeLane(x7, x8, l, t);
    ExchangeLane(x6, y8, l, t);
    ExchangeLane(C4Min(x6, y8), y7, l, t);
    SortThree(Lane(x6, l), Lane(x7, l), Lane(x8, l));
  }

  lemma FiveMerged(c4: Word, c5: Word, c6: Word, c7: Word, c8: Word, l: LaneIndex, t: int)
    requires Lane(c5, l) <= Lane(c4, l) && Lane(c6, l) <= Lane(c7, l) <= Lane(c8, l)
    ensures var d4, d8 := C4Min(c4, c8), C4Max(c4, c8);
      var e4, e6, e5, e7 := C4Min(d4, c6), C4Max(d4, c6), C4Min(c5, c7), C4Max(c5, c7);
      && Ascending(Lane(C4Min(e4, e5), l), Lane(C4Max(e4, e5), l), Lane(C4Min(e6, e7), l), Lane(C4Max(e6, e7), l), Lane(d8, l))
      && Ge5(Lane(C4Min(e4, e5), l), Lane(C4Max(e4, e5), l), Lane(C4Min(e6, e7), l), Lane(C4Max(e6, e7), l), Lane(d8, l), t)
         == Ge5(Lane(c4, l), Lane(c5, l), Lane(c6, l), Lane(c7, l), Lane(c8, l), t)
  {
    var d4, d8 := C4Min(c4, c8), C4Max(c4, c8);
    var e4, e6, e5, e7 := C4Min(d4, c6), C4Max(d4, c6), C4Min(c5, c7), C4Max(c5, c7);
    ExchangeLane(c4, c8, l, t);
    ExchangeLane(d4, c6, l, t);
    ExchangeLane(c5, c7, l, t);
    ExchangeLane(e4, e5, l, t);
    ExchangeLane(e6, e7, l, t);
    MergePairTriple(Lane(c4, l), Lane(c5, l), Lane(c6, l), Lane(c7, l), Lane(c8, l));
  }

  lemma FiveOfSorts(x4: Word, x5: Word, x6: Word, x7: Word, x8: Word, l: LaneIndex, t: int)
    ensures var r := FiveOf(x4, x5, x6, x7, x8);
      && Ascending(Lane(r.0, l), Lane(r.1, l), Lane(r.2, l), Lane(r.3, l), Lane(r.4, l))
      && Ge5(Lane(r.0, l), Lane(r.1, l), Lane(r.2, l), Lane(r.3, l), Lane(r.4, l), t)
         == Ge5(Lane(x4, l), Lane(x5, l), Lane(x6, l), Lane(x7, l), Lane(x8, l), t)
  {
    var c5, c4, y7, y8 := C4Min(x5, x4), C4Max(x5, x4), C4Min(x7, x8), C4Max(x7, x8);
    var z6, c8 := C4Min(x6, y8), C4Max(x6, y8);
    ExchangeLane(x5, x4, l, t);
    ThreeSorted(x6, x7, x8, l, t);
    FiveMerged(c4, c5, C4Min(z6, y7), C4Max(z6, y7), c8, l, t);
  }

  /** The last exchange and the selection. */
  function SelectWord(a: (Word, Word, Word, Word), b: (Word, Word, Word, Word, Word)): Word {
    C4Min(C4Min(C4Max(C4Min(a.0, b.4), b.0), C4Max(a.2, b.2)), C4Min(C4Max(a.1, b.1), C4Max(a.3, b.3)))
  }

  lemma SelectLane(a: (Word, Word, Word, Word), b: (Word, Word, Word, Word, Word), l: LaneIndex)
    ensures Lane(SelectWord(a, b), l)
            == Selected(Lane(a.0, l), Lane(a.1, l), Lane(a.2, l), Lane(a.3, l),
                        Lane(b.0, l), Lane(b.1, l), Lane(b.2, l), Lane(b.3, l), Lane(b.4, l))
  {
    LaneOfMin(a.0, b.4, l);
    LaneOfMax(C4Min(a.0, b.4), b.0, l);
    LaneOfMax(a.1, b.1, l);
    LaneOfMax(a.2, b.2, l);
    LaneOfMax(a.3, b.3, l);
    LaneOfMin(C4Max(C4Min(a.0, b.4), b.0), C4Max(a.2, b.2), l);
    LaneOfMin(C4Max(a.1, b.1), C4Max(a.3, b.3), l);
    LaneOfMin(C4Min(C4Max(C4Min(a.0, b.4), b.0), C4Max(a.2, b.2)), C4Min(C4Max(a.1, b.1), C4Max(a.3, b.3)), l);
  }

  function NetworkOf(s: Nine): Word {
    SelectWord(FourOf(s[0], s[1], s[2], s[3]), FiveOf(s[4], s[5], s[6], s[7], s[8]))
  }

  lemma NetworkThreshold(s: Nine, l: LaneIndex, t: int)
    ensures Lane(NetworkOf(s), l) >= t <==> CountGe(s, l, t) >= 5
  {
    var a, b := FourOf(s[0], s[1], s[2], s[3]), FiveOf(s[4], s[5], s[6], s[7], s[8]);
    FourOfSorts(s[0], s[1], s[2], s[3], l, t);
    FiveOfSorts(s[4], s[5], s[6], s[7], s[8], l, t);
    SelectLane(a, b, l);
    SelectedCounts(Lane(a.0, l), Lane(a.1, l), Lane(a.2, l), Lane(a.3, l),
                   Lane(b.0, l), Lane(b.1, l), Lane(b.2, l), Lane(b.3, l), Lane(b.4, l), t);
  }

  lemma NetworkIsMedian(s: Nine)
    ensures IsMedianWord(s, NetworkOf(s))
  {
    forall l: LaneIndex
      ensures IsMedian(s, l, Lane(NetworkOf(s), l))
    {
      NetworkThreshold(s, l, Lane(NetworkOf(s), l));
      NetworkThreshold(s, l, Lane(NetworkOf(s), l) + 1);
    }
  }

  // ---------------------------------------------------------------- the program

  method Exchange(rgba: array<Word>, lo: nat, hi: nat)
    requires rgba.Length == 9 && lo < 9 && hi < 9 && lo != hi
    modifies rgba
    ensures rgba[lo] == C4Min(old(rgba[lo]), old(rgba[hi])) && rgba[hi] == C4Max(old(rgba[lo]), old(rgba[hi]))
    ensures forall k :: 0 <= k < 9 && k != lo && k != hi ==> rgba[k] == old(rgba[k])
  {
    var uiMin := C4Min(rgba[lo], rgba[hi]);
    var uiMax := C4Max(rgba[lo], rgba[hi]);
    rgba[lo] := uiMin;
    rgba[hi] := uiMax;
  }

  method SortFour(rgba: array<Word>)
    requires rgba.Length == 9
    modifies rgba
    ensures (rgba[0], rgba[1], rgba[2], rgba[3]) == old(FourOf(rgba[0], rgba[1], rgba[2], rgba[3]))
    ensures forall k :: 4 <= k < 9 ==> rgba[k] == old(rgba[k])
  {
    Exchange(rgba, 0, 1);
    Exchange(rgba, 3, 2);
    Exchange(rgba, 2, 0);
    Exchange(rgba, 3, 1);
    Exchange(rgba, 1, 0);
    Exchange(rgba, 3, 2);
  }

  method SortFive(rgba: array<Word>)
    requires rgba.Length == 9
    modifies rgba
    ensures (rgba[4], rgba[5], rgba[6], rgba[7], rgba[8]) == old(FiveOf(rgba[4], rgba[5], rgba[6], rgba[7], rgba[8]))
    ensures forall k :: 0 <= k < 4 ==> rgba[k] == old(rgba[k])
  {
    Exchange(rgba, 5, 4);
    Exchange(rgba, 7, 8);
    Exchange(rgba, 6, 8);
    Exchange(rgba, 6, 7);
    Exchange(rgba, 4, 8);
    Exchange(rgba, 4, 6);
    Exchange(rgba, 5, 7);
    Exchange(rgba, 4, 5);
    Exchange(rgba, 6, 7);
  }

  method Select(rgba: array<Word>) returns (w: Word)
    requires rgba.Length == 9
    modifies rgba
    ensures w == old(SelectWord((rgba[0], rgba[1], rgba[2], rgba[3]), (rgba[4], rgba[5], rgba[6], rgba[7], rgba[8])))
  {
    Exchange(rgba, 0, 8);
    rgba[4] := C4Max(rgba[0], rgba[4]);
    rgba[5] := C4Max(rgba[1], rgba[5]);
    rgba[6] := C4Max(rgba[2], rgba[6]);
    rgba[7] := C4Max(rgba[3], rgba[7]);
    rgba[4] := C4Min(rgba[4], rgba[6]);
    rgba[5] := C4Min(rgba[5], rgba[7]);
    w := C4Min(rgba[4], rgba[5]);
  }

  /** The network on one aperture. */
  method Median(rgba: array<Word>) returns (w: Word)
    requires rgba.Length == 9
    modifies rgba
    ensures IsMedianWord(old(rgba[..]), w)
  {
    ghost var s := rgba[..];
    SortFour(rgba);
    SortFive(rgba);
    w := Select(rgba);
    assert w == NetworkOf(s);
    NetworkIsMedian(s);
  }

  /** The pixels around pixel k of an image of the given width, rows laid end to end. */
  function Aperture(input: seq<Word>, width: nat, k: nat): (s: Nine)
    requires width > 0 && width < k && k + width + 1 < |input|
  {
    [input[k - width - 1], input[k - width], input[k - width + 1],
     input[k - 1], input[k], input[k + 1],
     input[k + width - 1], input[k + width], input[k + width + 1]]
  }

  /** The word j columns and i rows from pixel k is in the aperture, each in a place of its own. */
  lemma ApertureHoldsNeighbours(input: seq<Word>, width: nat, k: nat, i: int, j: int)
    requires 0 < width < k && k + width + 1 < |input| && -1 <= i <= 1 && -1 <= j <= 1
    ensures 0 <= k + i * width + j < |input|
    ensures Aperture(input, width, k)[3 * (i + 1) + (j + 1)] == input[k + i * width + j]
  {
    assert i == -1 || i == 0 || i == 1;
  }

  /** Word i of a buffer whose first bytes are cleared. */
  function ClearedWord(w: Word, i: nat, bytes: nat): Word {
    Word(if 4 * i < bytes then 0 else w.b0,
         if 4 * i + 1 < bytes then 0 else w.b1,
         if 4 * i + 2 < bytes then 0 else w.b2,
         if 4 * i + 3 < bytes then 0 else w.b3)
  }

  /** The memset clears as many bytes as the buffer has words. */
  method ClearBytes(output: array<Word>, bytes: nat)
    requires bytes <= output.Length
    modifies output
    ensures forall i :: 0 <= i < output.Length ==> output[i] == ClearedWord(old(output[i]), i, bytes)
  {
    var i := 0;
    while 4 * i < bytes
      invariant 0 <= i <= output.Length && 4 * i < bytes + 4
      invariant forall j :: 0 <= j < i ==> output[j] == ClearedWord(old(output[j]), j, bytes)
      invariant forall j :: i <= j < output.Length ==> output[j] == old(output[j])
    {
      output[i] := ClearedWord(output[i], i, bytes);
      i := i + 1;
    }
  }

  /** Byte l of word i is byte 4 i + l of the buffer: zero before the cleared end, behind it as it was. */
  lemma ClearedByte(w: Word, i: nat, bytes: nat, l: LaneIndex)
    ensures Lane(ClearedWord(w, i, bytes), l) == if 4 * i + l < bytes then 0 else Lane(w, l)
  {
  }

  /** w is, lane by lane, the median of the pixels around pixel k of the image. */
  ghost predicate FilteredAt(image: seq<Word>, width: nat, k: nat, w: Word)
    requires width > 0 && width < k && k + width + 1 < |image|
  {
    IsMedianWord(Aperture(image, width, k), w)
  }

  lemma Spread(a: int, b: int, width: int)
    ensures (a + b) * width == a * width + b * width
  {
  }

  lemma NotNegative(a: nat, b: nat)
    ensures a * b >= 0
  {
  }

  /** Row y of the image, padded above and below, lies inside the buffer. */
  lemma RowFits(y: nat, height: nat, width: nat)
    requires y < height
    ensures PAD_LINES * width <= (y + PAD_LINES) * width
    ensures (y + PAD_LINES) * width + 3 * width <= (height + 2 * PAD_LINES) * width
    ensures (y + 1 + PAD_LINES) * width == (y + PAD_LINES) * width + width
  {
    Spread(y, PAD_LINES, width);
    Spread(y + 1, PAD_LINES, width);
    Spread(y, 1, width);
    Spread(height, 2 * PAD_LINES, width);
    Spread(y + 1, height - y - 1, width);
    NotNegative(y, width);
    NotNegative(height - y - 1, width);
  }

  /** Reads and writes one pixel. */
  method FilterPixel(input: array<Word>, width: nat, k: nat) returns (w: Word)
    requires 0 < width < k && k + width + 1 < input.Length
    ensures FilteredAt(input[..], width, k, w)
  {
    var uiRGBA := new Word[9] [
      input[k - width - 1], input[k - width], input[k - width + 1],
      input[k - 1], input[k], input[k + 1],
      input[k + width - 1], input[k + width], input[k + width + 1]];
    assert uiRGBA[..] == Aperture(input[..], width, k);
    w := Median(uiRGBA);
  }

  method FilterRow(input: array<Word>, output: array<Word>, ghost image: seq<Word>, width: nat, iOffset: nat)
    requires input != output && input.Length == output.Length && input[..] == image
    requires 0 < width && 2 * width <= iOffset && iOffset + 3 * width <= input.Length
    modifies output
    ensures forall k :: iOffset <= k < iOffset + width ==> FilteredAt(image, width, k, output[k])
    ensures forall k :: 0 <= k < output.Length && !(iOffset <= k < iOffset + width) ==> output[k] == old(output[k])
  {
    var x := 0;
    while x < width
      invariant 0 <= x <= width
      invariant forall k :: iOffset <= k < iOffset + x ==> FilteredAt(image, width, k, output[k])
      invariant forall k :: 0 <= k < output.Length && !(iOffset <= k < iOffset + x) ==> output[k] == old(output[k])
    {
      var w := FilterPixel(input, width, iOffset + x);
      output[iOffset + x] := w;
      x := x + 1;
    }
  }

  /** The rows before end are filtered, and what is not in them is as it was. */
  ghost predicate FilteredUpTo(image: seq<Word>, before: seq<Word>, output: seq<Word>, width: nat, end: nat)
    requires 0 < width && end + 2 * width <= |image| && |output| == |before| == |image|
  {
    && (forall k :: PAD_LINES * width <= k < end ==> FilteredAt(image, width, k, output[k]))
    && (forall k :: 0 <= k < |output| && !(PAD_LINES * width <= k < end) ==> output[k] == before[k])
  }

  method FilterNext(input: array<Word>, output: array<Word>, ghost image: seq<Word>, ghost before: seq<Word>,
                    width: nat, iOffset: nat)
    requires input != output && input.Length == output.Length == |before| && input[..] == image
    requires 0 < width && PAD_LINES * width <= iOffset && iOffset + 3 * width <= input.Length
    requires FilteredUpTo(image, before, output[..], width, iOffset)
    modifies output
    ensures FilteredUpTo(image, before, output[..], width, iOffset + width)
  {
    FilterRow(input, output, image, width, iOffset);
  }

  /** The words of a buffer whose first bytes are cleared, as many as it has words. */
  function Cleared(output: seq<Word>): (s: seq<Word>)
    ensures |s| == |output|
  {
    seq(|output|, i requires 0 <= i < |output| => ClearedWord(output[i], i, |output|))
  }

  /** The image rows become medians; of the padding rows the bytes in the first quarter of the
      buffer are cleared, the others stay. */
  method ExecuteMedianFilterReference(input: array<Word>, output: array<Word>, width: nat, height: nat)
    requires input != output && width > 0
    requires input.Length == output.Length == (height + 2 * PAD_LINES) * width
    modifies output
    ensures input.Length >= 2 * PAD_LINES * width
    ensures FilteredUpTo(input[..], Cleared(old(output[..])), output[..], width, input.Length - PAD_LINES * width)
  {
    Spread(height, 2 * PAD_LINES, width);
    Spread(height, PAD_LINES, width);
    NotNegative(height, width);
    ghost var before := Cleared(output[..]);
    ClearBytes(output, width * (height + 4));
    assert output[..] == before;
    var y := 0;
    ghost var image := input[..];
    ghost var end := PAD_LINES * width;
    while y < height
      invariant 0 <= y <= height && end == (y + PAD_LINES) * width
      invariant end + 2 * width <= input.Length
      invariant input[..] == image && FilteredUpTo(image, before, output[..], width, end)
    {
      RowFits(y, height, width);
      var iOffset := (y + PAD_LINES) * width;
      FilterNext(input, output, image, before, width, iOffset);
      y := y + 1;
      end := iOffset + width;
    }
  }

  // ---------------------------------------------------------------- one image

  function Gray(x: int): Word
    requires 0 <= x < 256
  {
    Word(x, x, x, x)
  }

  /** A row of three pixels between its padding rows: 9 to 1 in an order, and 99 elsewhere. */
  ghost predicate IsRow(image: seq<Word>) {
    && |image| == 15
    && image[3..12] == [Gray(9), Gray(1), Gray(8), Gray(2), Gray(7), Gray(3), Gray(6), Gray(4), Gray(5)]
    && forall i :: 0 <= i < 3 || 12 <= i < 15 ==> image[i] == Gray(99)
  }

  lemma RowMedian(image: seq<Word>, w: Word)
    requires IsRow(image) && FilteredAt(image, 3, 7, w)
    ensures w == Gray(5)
  {
    var s := Aperture(image, 3, 7);
    assert s == image[3..12];
    forall l: LaneIndex
      ensures Lane(w, l) == 5
    {
      assert IsMedian(s, l, 5);
      MedianIsUnique(s, l, Lane(w, l), 5);
    }
    assert Lane(w, 0) == w.b0 && Lane(w, 1) == w.b1 && Lane(w, 2) == w.b2 && Lane(w, 3) == w.b3;
  }

  /** The pixel in the middle becomes 5. */
  method FilterRowOfThree(input: array<Word>, output: array<Word>)
    requires input != output && input.Length == output.Length == 15 && IsRow(input[..])
    modifies output
    ensures output[7] == Gray(5)
  {
    ghost var image := input[..];
    ExecuteMedianFilterReference(input, output, 3, 1);
    RowMedian(image, output[7]);
  }
}
