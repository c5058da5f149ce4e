/**
 How the tone-mapping sample splits an image between two devices
 (opencl/intel/ToneMappingMultiDevice/ToneMappingMultiDevice.cpp): from the times of the last
 frame and an average over the last ten estimates.  Times and ratios are exact reals.
 */
module SplitRatio {

  const CB_SIZE := 256
  const CB_LENGTH := 10
  const BLOCK_DIM := 16

  // ---------------------------------------------------------------- sums

  /** s[lo] + ... + s[hi - 1]. */
  function Sum(s: seq<real>, lo: nat, hi: nat): real
    requires lo <= hi <= |s|
    decreases hi
  {
    if lo == hi then 0.0 else Sum(s, lo, hi - 1) + s[hi - 1]
  }

  lemma {:induction false} SumSplits(s: seq<real>, lo: nat, mid: nat, hi: nat)
    requires lo <= mid <= hi <= |s|
    ensures Sum(s, lo, hi) == Sum(s, lo, mid) + Sum(s, mid, hi)
    decreases hi
  {
    if mid < hi {
      SumSplits(s, lo, mid, hi - 1);
    }
  }

  /** Equal stretches have equal sums. */
  lemma {:induction false} SumShifted(s: seq<real>, lo: nat, hi: nat, t: seq<real>, lo': nat)
    requires lo <= hi <= |s| && lo' + (hi - lo) <= |t|
    requires forall i :: lo <= i < hi ==> s[i] == t[lo' + (i - lo)]
    ensures Sum(s, lo, hi) == Sum(t, lo', lo' + (hi - lo))
    decreases hi
  {
    if lo < hi {
      SumShifted(s, lo, hi - 1, t, lo');
      assert s[hi - 1] == t[lo' + (hi - 1 - lo)];
    }
  }

  predicate Proper(r: real) { 0.0 < r < 1.0 }

  ghost predicate AllProper(s: seq<real>) {
    forall i :: 0 <= i < |s| ==> Proper(s[i])
  }

  lemma {:induction false} SumBounds(s: seq<real>, lo: nat, hi: nat)
    requires AllProper(s) && lo < hi <= |s|
    ensures 0.0 < Sum(s, lo, hi) < (hi - lo) as real
    decreases hi
  {
    assert Proper(s[hi - 1]);
    if lo < hi - 1 {
      SumBounds(s, lo, hi - 1);
    }
  }

  lemma {:induction false} SumOfEqual(s: seq<real>, lo: nat, hi: nat, r: real)
    requires lo <= hi <= |s| && forall i :: lo <= i < hi ==> s[i] == r
    ensures Sum(s, lo, hi) == (hi - lo) as real * r
    decreases hi
  {
    if lo < hi {
      SumOfEqual(s, lo, hi - 1, r);
      assert (hi - lo) as real == (hi - 1 - lo) as real + 1.0;
    }
  }

  // ---------------------------------------------------------------- the estimate and its mean

  lemma Weights(time1: real, time2: real, last: real)
    requires time1 > 0.0 && time2 > 0.0 && Proper(last)
    ensures time1 * (1.0 - last) > 0.0 && time2 * last > 0.0
  {
  }

  /** What the last frame's times say about the best ratio. */
  function RawRatio(time1: real, time2: real, last: real): (r: real)
    requires time1 > 0.0 && time2 > 0.0 && Proper(last)
    ensures Proper(r)
  {
    Weights(time1, time2, last);
    PartOfSum(time1 * (1.0 - last), time2 * last);
    time2 * last / (time1 * (1.0 - last) + time2 * last)
  }

  lemma PartOfSum(a: real, b: real)
    requires a > 0.0 && b > 0.0
    ensures a + b > 0.0 && 0.0 < b / (a + b) < 1.0
  {
    Quotient(b, a + b);
  }

  /** The number of estimates that are averaged. */
  function Taken(raws: seq<real>): (n: nat)
    ensures n <= |raws|
  {
    if |raws| < CB_LENGTH then |raws| else CB_LENGTH
  }

  /** The mean of the last min(k, 10) estimates. */
  function Mean(raws: seq<real>): real
    requires |raws| > 0
  {
    Sum(raws, |raws| - Taken(raws), |raws|) / Taken(raws) as real
  }

  /** The mean times the number of estimates that it is over, at most ten, is their sum. */
  predicate IsMeanOfLast(mean: real, raws: seq<real>) {
    var n := if |raws| < 10 then |raws| else 10;
    n as real * mean == Sum(raws, |raws| - n, |raws|)
  }

  lemma MeanOfLast(raws: seq<real>)
    requires |raws| > 0
    ensures IsMeanOfLast(Mean(raws), raws)
  {
    var n := if |raws| < 10 then |raws| else 10;
    assert n == Taken(raws);
    QuotientTimes(Sum(raws, |raws| - n, |raws|), n as real);
  }

  lemma QuotientTimes(x: real, n: real)
    requires n != 0.0
    ensures n * (x / n) == x
  {
  }

  lemma Quotient(x: real, n: real)
    requires n > 0.0
    ensures 0.0 < x < n ==> 0.0 < x / n < 1.0
  {
    assert (x / n) * n == x;
    if x / n >= 1.0 {
      assert (x / n - 1.0) * n >= 0.0;
    }
  }

  lemma MeanIsProper(raws: seq<real>)
    requires AllProper(raws) && |raws| > 0
    ensures Proper(Mean(raws))
  {
    SumBounds(raws, |raws| - Taken(raws), |raws|);
    Quotient(Sum(raws, |raws| - Taken(raws), |raws|), Taken(raws) as real);
  }

  // ---------------------------------------------------------------- the cyclic buffer

  /** Slots left of counter hold the newest estimates; the others, once full, the ones before. */
  ghost predicate Holds(cb: seq<real>, counter: nat, full: bool, raws: seq<real>) {
    && |cb| >= CB_LENGTH && counter < CB_LENGTH && counter <= |raws|
    && (!full ==> |raws| == counter)
    && (full ==> |raws| >= counter + CB_LENGTH)
    && (forall j :: 0 <= j < counter ==> cb[j] == raws[|raws| - counter + j])
    && (full ==> forall j :: counter <= j < CB_LENGTH ==> cb[j] == raws[|raws| - counter - CB_LENGTH + j])
  }

  /** The buffer after a write and before the wrap-around. */
  ghost predicate Written(cb: seq<real>, counter: nat, full: bool, raws: seq<real>) {
    && 0 < counter <= CB_LENGTH <= |cb| && counter <= |raws|
    && (!full ==> |raws| == counter)
    && (full ==> |raws| >= counter + CB_LENGTH)
    && (forall j :: 0 <= j < counter ==> cb[j] == raws[|raws| - counter + j])
    && (full ==> forall j :: counter <= j < CB_LENGTH ==> cb[j] == raws[|raws| - counter - CB_LENGTH + j])
  }

  lemma WriteHolds(cb: seq<real>, counter: nat, full: bool, raws: seq<real>, raw: real)
    requires Holds(cb, counter, full, raws)
    ensures Written(cb[counter := raw], counter + 1, full, raws + [raw])
  {
    var after, all := cb[counter := raw], raws + [raw];
    assert all[|raws|] == raw;
    assert forall j :: 0 <= j < counter ==> after[j] == cb[j];
  }

  /** The slots in use sum to what is averaged. */
  lemma SumOfBuffer(cb: seq<real>, counter: nat, full: bool, raws: seq<real>, num: nat)
    requires Written(cb, counter, full, raws) && num == if full then CB_LENGTH else counter
    ensures num == Taken(raws) && Sum(cb, 0, num) == Sum(raws, |raws| - num, |raws|)
  {
    var k := |raws|;
    SumShifted(cb, 0, counter, raws, k - counter);
    if full {
      SumShifted(cb, counter, CB_LENGTH, raws, k - CB_LENGTH);
      SumTurns(cb, raws, counter, k);
    }
  }

  /** The two stretches of a full buffer, put back in order. */
  lemma SumTurns(cb: seq<real>, raws: seq<real>, counter: nat, k: nat)
    requires counter <= CB_LENGTH <= |cb| && CB_LENGTH <= k <= |raws|
    requires Sum(cb, 0, counter) == Sum(raws, k - counter, k)
    requires Sum(cb, counter, CB_LENGTH) == Sum(raws, k - CB_LENGTH, k - counter)
    ensures Sum(cb, 0, CB_LENGTH) == Sum(raws, k - CB_LENGTH, k)
  {
    SumSplits(cb, 0, counter, CB_LENGTH);
    SumSplits(raws, k - CB_LENGTH, k - counter, k);
  }

  // ---------------------------------------------------------------- what a run's estimates are

  /** The ratio in force before estimate i. */
  function LastBefore(raws: seq<real>, i: nat): real
    requires i <= |raws|
  {
    if i == 0 then 0.5 else Mean(raws[..i])
  }

  /** What the estimates of a run are: each from the times of its frame and the ratio in force. */
  ghost predicate IsHistory(raws: seq<real>, times1: seq<real>, times2: seq<real>) {
    && |times1| == |times2| == |raws| && AllProper(raws)
    && forall i :: 0 <= i < |raws| ==> IsEstimate(raws, times1, times2, i)
  }

  ghost predicate IsEstimate(raws: seq<real>, times1: seq<real>, times2: seq<real>, i: nat)
    requires |times1| == |times2| == |raws| && i < |raws|
  {
    && times1[i] > 0.0 && times2[i] > 0.0 && Proper(LastBefore(raws, i))
    && raws[i] == RawRatio(times1[i], times2[i], LastBefore(raws, i))
  }

  lemma HistoryStep(raws: seq<real>, times1: seq<real>, times2: seq<real>, time1: real, time2: real, raw: real)
    requires IsHistory(raws, times1, times2) && time1 > 0.0 && time2 > 0.0 && Proper(LastBefore(raws, |raws|))
    requires raw == RawRatio(time1, time2, LastBefore(raws, |raws|))
    ensures IsHistory(raws + [raw], times1 + [time1], times2 + [time2])
  {
    var all := raws + [raw];
    forall i | 0 <= i < |all|
      ensures IsEstimate(all, times1 + [time1], times2 + [time2], i)
    {
      assert all[..i] == raws[..i];
      assert i < |raws| ==> IsEstimate(raws, times1, times2, i);
    }
  }

  // ---------------------------------------------------------------- the heights

  /** The first device gets its share rounded down to whole blocks, the second the rest. */
  predicate IsSplit(ratio: real, height: nat, dev1: nat, dev2: nat) {
    && dev1 + dev2 == height && dev1 % BLOCK_DIM == 0
    && dev1 as real <= ratio * height as real < (dev1 + BLOCK_DIM) as real
    && (height > 0 ==> dev2 > 0)
  }

  lemma ShareBounds(ratio: real, height: nat)
    requires Proper(ratio)
    ensures 0.0 <= ratio * height as real
    ensures height > 0 ==> ratio * height as real < height as real
  {
  }

  method SplitHeight(ratio: real, height: nat) returns (dev1: nat, dev2: nat)
    requires Proper(ratio)
    ensures IsSplit(ratio, height, dev1, dev2)
  {
    ShareBounds(ratio, height);
    dev1, dev2 := SplitShare(ratio * height as real, height);
  }

  method SplitShare(share: real, height: nat) returns (dev1: nat, dev2: nat)
    requires 0.0 <= share && (height > 0 ==> share < height as real) && (height == 0 ==> share == 0.0)
    ensures dev1 + dev2 == height && dev1 % BLOCK_DIM == 0
    ensures dev1 as real <= share < (dev1 + BLOCK_DIM) as real
    ensures height > 0 ==> dev2 > 0
  {
    var rows := share.Floor;
    dev1 := (rows / BLOCK_DIM) * BLOCK_DIM;
    dev2 := height - dev1;
  }

  // ---------------------------------------------------------------- the program

  class Balancer {
    var time1: real
    var time2: real
    var last: real
    var cb: array<real>
    var counter: nat
    var full: bool
    ghost var raws: seq<real>
    ghost var times1: seq<real>
    ghost var times2: seq<real>

    ghost predicate Valid()
      reads this, cb
    {
      && time1 > 0.0 && time2 > 0.0 && Proper(last)
      && Holds(cb[..], counter, full, raws) && IsHistory(raws, times1, times2)
      && last == LastBefore(raws, |raws|)
    }

    constructor ()
      ensures Valid() && raws == [] && time1 == 1.0 && time2 == 1.0 && last == 0.5 && fresh(cb)
    {
      time1, time2, last := 1.0, 1.0, 0.5;
      cb := new real[CB_SIZE];
      counter, full, raws := 0, false, [];
      times1, times2 := [], [];
    }

    /** The times of a frame come in. */
    method Measured(t1: real, t2: real)
      requires Valid() && t1 > 0.0 && t2 > 0.0
      modifies `time1, `time2
      ensures Valid() && time1 == t1 && time2 == t2
    {
      time1, time2 := t1, t2;
    }

    method SumSlots(num: nat) returns (sum: real)
      requires num <= cb.Length
      ensures sum == Sum(cb[..], 0, num)
    {
      sum := 0.0;
      var i := 0;
      while i < num
        invariant 0 <= i <= num
        invariant sum == Sum(cb[..], 0, i)
      {
        sum := sum + cb[i];
        i := i + 1;
      }
    }

    method Put(raw: real)
      requires Holds(cb[..], counter, full, raws)
      modifies `counter, `raws, cb
      ensures raws == old(raws) + [raw] && Written(cb[..], counter, full, raws)
    {
      WriteHolds(cb[..], counter, full, raws, raw);
      ghost var before := cb[..];
      cb[counter] := raw;
      assert cb[..] == before[counter := raw];
      raws := raws + [raw];
      counter := counter + 1;
    }

    /** The mean over the slots in use. */
    method Average() returns (average: real)
      requires Written(cb[..], counter, full, raws)
      modifies `counter, `full
      ensures Holds(cb[..], counter, full, raws)
      ensures average == Mean(raws)
    {
      var num := if full then CB_LENGTH else counter;
      SumOfBuffer(cb[..], counter, full, raws, num);
      average := SumSlots(num);
      average := average / num as real;
      if counter == CB_LENGTH {
        full := true;
        counter := 0;
      }
    }

    /** The heights for the next frame. */
    method ComputeSplittingRatio(arrayHeight: nat) returns (arrayHeightDev1: nat, arrayHeightDev2: nat)
      requires Valid()
      modifies `counter, `full, `raws, `times1, `times2, `last, cb
      ensures Valid() && times1 == old(times1) + [time1] && times2 == old(times2) + [time2]
      ensures raws == old(raws) + [RawRatio(time1, time2, old(last))]
      ensures last == Mean(raws)
      ensures IsMeanOfLast(last, raws)
      ensures cb == old(cb)
      ensures IsSplit(last, arrayHeight, arrayHeightDev1, arrayHeightDev2)
    {
      var dNDRangeRatio := RawRatio(time1, time2, last);
      assert raws[..|raws|] == raws;
      HistoryStep(raws, times1, times2, time1, time2, dNDRangeRatio);
      times1, times2 := times1 + [time1], times2 + [time2];
      Put(dNDRangeRatio);
      last := Average();
      assert raws[..|raws|] == raws;
      MeanIsProper(raws);
      MeanOfLast(raws);
      arrayHeightDev1, arrayHeightDev2 := SplitHeight(last, arrayHeight);
    }
  }

  /** Two frames: from equal times an estimate of 1/2, then from times 3 and 1 one of 1/4; the
      ratio is 3/8, and 37 of 100 rows hold two whole blocks. */
  method TwoFrames() returns (balancer: Balancer, dev1: nat, dev2: nat)
    ensures balancer.last == 0.375 && dev1 == 32 && dev2 == 68
  {
    balancer := new Balancer();
    dev1, dev2 := balancer.ComputeSplittingRatio(100);
    assert balancer.raws == [0.5] && Sum([0.5], 0, 0) == 0.0;
    assert balancer.last == 0.5;
    balancer.Measured(3.0, 1.0);
    dev1, dev2 := balancer.ComputeSplittingRatio(100);
    assert balancer.raws == [0.5, 0.25];
    SumOfTwo(0.5, 0.25);
  }

  lemma SumOfTwo(x: real, y: real)
    ensures Sum([x, y], 0, 2) == x + y
  {
    assert Sum([x, y], 0, 1) == Sum([x, y], 0, 0) + x;
  }

  // ---------------------------------------------------------------- whole runs

  /** The times of a frame whose devices, at speeds s1 and s2, got shares r and 1 - r of work. */
  predicate Proportional(time1: real, time2: real, work: real, r: real, s1: real, s2: real)
    requires s1 > 0.0 && s2 > 0.0
  {
    time1 == work * r / s1 && time2 == work * (1.0 - r) / s2
  }

  lemma RawOfProportional(time1: real, time2: real, work: real, r: real, s1: real, s2: real)
    requires s1 > 0.0 && s2 > 0.0 && work > 0.0 && Proper(r) && time1 > 0.0 && time2 > 0.0
    requires Proportional(time1, time2, work, r, s1, s2)
    ensures RawRatio(time1, time2, r) == s1 / (s1 + s2)
  {
    assert time1 * s1 == work * r && time2 * s2 == work * (1.0 - r);
  }

  lemma MeanOfEqual(raws: seq<real>, r: real)
    requires |raws| >= CB_LENGTH && forall i :: |raws| - CB_LENGTH <= i < |raws| ==> raws[i] == r
    ensures Mean(raws) == r
  {
    SumOfEqual(raws, |raws| - CB_LENGTH, |raws|, r);
  }

  /**
   If from some frame on the devices take times in proportion to their shares, the ratio is
   that of their speeds once ten such estimates have been made, whatever came before.
   */
  lemma Converges(raws: seq<real>, times1: seq<real>, times2: seq<real>, work: seq<real>, s1: real, s2: real,
                  start: nat)
    requires IsHistory(raws, times1, times2) && |work| == |raws| && s1 > 0.0 && s2 > 0.0
    requires forall i :: start <= i < |raws| ==>
      work[i] > 0.0 && Proportional(times1[i], times2[i], work[i], LastBefore(raws, i), s1, s2)
    requires |raws| >= start + CB_LENGTH
    ensures Mean(raws) == s1 / (s1 + s2)
  {
    forall i | start <= i < |raws|
      ensures raws[i] == s1 / (s1 + s2)
    {
      assert IsEstimate(raws, times1, times2, i);
      RawOfProportional(times1[i], times2[i], work[i], LastBefore(raws, i), s1, s2);
    }
    MeanOfEqual(raws, s1 / (s1 + s2));
  }
}
