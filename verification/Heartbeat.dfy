/**
 The heartbeat library (opencl/heartbeat_python_lib.c) and its Python caller
 (opencl/heartbeat.py): a sliding average over the last intervals between beats, and a ring
 of records, one per beat.  Averages and rates are exact; the clock may stand still or run
 backwards, and a rate is infinite where the code divides by zero.
 */
module Heartbeat {
  import opened Bits
  import opened Doubles
  import opened Numbers

  const NANOSECONDS := 1000000000.0

  // ---------------------------------------------------------------- what the history says

  /** The first time is not the -1 that marks an empty history. */
  predicate Marked(times: seq<int>) {
    times == [] || times[0] != -1
  }

  /** The interval that ends with beat i. */
  function Interval(times: seq<int>, i: nat): int
    requires 0 < i < |times|
  {
    times[i] - times[i - 1]
  }

  /** The intervals that end with beats first, ..., last - 1. */
  function SumIntervals(times: seq<int>, first: nat, last: nat): int
    requires 0 < first <= last <= |times|
    decreases last
  {
    if first == last then 0 else SumIntervals(times, first, last - 1) + Interval(times, last - 1)
  }

  lemma {:induction false} IntervalsTelescope(times: seq<int>, first: nat, last: nat)
    requires 0 < first <= last <= |times|
    ensures SumIntervals(times, first, last) == times[last - 1] - times[first - 1]
    decreases last
  {
    if first < last {
      IntervalsTelescope(times, first, last - 1);
    }
  }

  /** The mean of the last min(i, w) intervals up to beat i. */
  function MeanInterval(times: seq<int>, i: nat, w: nat): real
    requires 0 < i < |times| && w > 0
  {
    var n := Min(i, w);
    SumIntervals(times, i + 1 - n, i + 1) as real / n as real
  }

  lemma MeanTelescopes(times: seq<int>, i: nat, w: nat)
    requires 0 < i < |times| && w > 0
    ensures MeanInterval(times, i, w) == (times[i] - times[i - Min(i, w)]) as real / Min(i, w) as real
  {
    IntervalsTelescope(times, i + 1 - Min(i, w), i + 1);
  }

  // ---------------------------------------------------------------- the window

  /**
   The window after k intervals.  While it fills, slot j holds interval j + 1.  Afterwards
   the slots left of ci were written in the current lap, the others in the lap before.
   */
  ghost predicate WindowHolds(window: seq<int>, ci: nat, steady: bool, average: real, times: seq<int>) {
    var k, w := |times| - 1, |window|;
    && w > 0 && k >= 0 && ci < w
    && (!steady ==> ci == k && forall j :: 0 <= j < ci ==> window[j] == Interval(times, j + 1))
    && (steady ==> w <= k && Lap(window, ci, times, k))
    && (k > 0 ==> average == MeanInterval(times, k, w))
  }

  ghost predicate Lap(window: seq<int>, ci: nat, times: seq<int>, k: nat)
    requires |window| <= k < |times| && ci < |window|
  {
    && (forall j :: 0 <= j < ci ==> window[j] == Interval(times, k - ci + j + 1))
    && (forall j :: ci <= j < |window| ==> window[j] == Interval(times, k - ci - |window| + j + 1))
  }

  lemma {:induction false} SumKept(times: seq<int>, t: int, first: nat, last: nat)
    requires 0 < first <= last <= |times|
    ensures SumIntervals(times + [t], first, last) == SumIntervals(times, first, last)
    decreases last
  {
    if first < last {
      SumKept(times, t, first, last - 1);
    }
  }

  /** The first intervals: the slots so far, plus the new one, average to the mean of all. */
  lemma FillingStep(window: seq<int>, ci: nat, average: real, times: seq<int>, t: int)
    requires WindowHolds(window, ci, false, average, times)
    ensures var after, all := window[ci := t - times[|times| - 1]], times + [t];
      var mean := MeanInterval(all, |times|, |window|);
      && (ci + 1 < |window| ==> WindowHolds(after, ci + 1, false, mean, all))
      && (ci + 1 == |window| ==> WindowHolds(after, 0, true, mean, all))
  {
    var after, all := window[ci := t - times[|times| - 1]], times + [t];
    assert forall j :: 0 <= j <= ci ==> after[j] == Interval(all, j + 1);
  }

  lemma LapStep(window: seq<int>, ci: nat, times: seq<int>, t: int)
    requires |window| < |times| && ci < |window| && Lap(window, ci, times, |times| - 1)
    ensures var after, all := window[ci := t - times[|times| - 1]], times + [t];
      Lap(after, if ci + 1 == |window| then 0 else ci + 1, all, |times|)
  {
    var after, all := window[ci := t - times[|times| - 1]], times + [t];
    assert Interval(all, |times|) == t - times[|times| - 1];
    assert forall i :: 0 < i < |times| ==> Interval(all, i) == Interval(times, i);
  }

  lemma DivideDifference(a: real, b: real, c: real, n: real)
    requires n > 0.0
    ensures a / n - b / n + c / n == (a - b + c) / n
  {
  }

  /** The average in the steady state: drop the oldest interval, add the newest. */
  lemma AverageStep(window: seq<int>, ci: nat, average: real, times: seq<int>, t: int)
    requires WindowHolds(window, ci, true, average, times)
    ensures average - window[ci] as real / |window| as real + (t - times[|times| - 1]) as real / |window| as real
            == MeanInterval(times + [t], |times|, |window|)
  {
    var k, w, all := |times| - 1, |window|, times + [t];
    MeanTelescopes(times, k, w);
    MeanTelescopes(all, |times|, w);
    assert window[ci] == Interval(times, k - w + 1);
    DivideDifference((times[k] - times[k - w]) as real, window[ci] as real, (t - times[k]) as real, w as real);
  }

  lemma SteadyStep(window: seq<int>, ci: nat, average: real, times: seq<int>, t: int)
    requires WindowHolds(window, ci, true, average, times)
    ensures var after, all := window[ci := t - times[|times| - 1]], times + [t];
      WindowHolds(after, if ci + 1 == |window| then 0 else ci + 1, true, MeanInterval(all, |times|, |window|), all)
  {
    LapStep(window, ci, times, t);
  }

  // ---------------------------------------------------------------- the log

  datatype Record =
    Record(beat: int, tag: int, timestamp: int, windowRate: Double, instantRate: Double, globalRate: Double)

  /** Beats per second: some beats in some time. */
  function PerSecond(beats: nat, time: real): Double {
    Scaled(Quotient(beats as real, time), NANOSECONDS)
  }

  function Rate(interval: real): Double {
    PerSecond(1, interval)
  }

  /** The record of beat i; a first beat has no rates. */
  function RecordOf(times: seq<int>, tags: seq<int>, i: nat, w: nat): Record
    requires |tags| == |times| && i < |times| && w > 0
  {
    if i == 0 then Record(0, tags[0], times[0], Finite(0.0), Finite(0.0), Finite(0.0))
    else
      Record(i, tags[i], times[i],
             Rate(MeanInterval(times, i, w)),
             Rate(Interval(times, i) as real),
             PerSecond(i + 1, (times[i] - times[0]) as real))
  }

  lemma RecordKept(times: seq<int>, tags: seq<int>, t: int, tag: int, i: nat, w: nat)
    requires |tags| == |times| && i < |times| && w > 0
    ensures RecordOf(times + [t], tags + [tag], i, w) == RecordOf(times, tags, i, w)
  {
    if i > 0 {
      SumKept(times, t, i + 1 - Min(i, w), i + 1);
    }
  }

  /** The record of each of the last |log| beats is in its slot. */
  ghost predicate Newest(log: seq<Record>, times: seq<int>, tags: seq<int>, w: nat)
    requires |log| > 0 && w > 0 && |tags| == |times|
  {
    forall i :: 0 <= i < |times| <= i + |log| ==> log[Rem(i, |log|)] == RecordOf(times, tags, i, w)
  }

  /** The next beat would be written outside a ring of d records: the index is not wrapped
      after the first beat, so this is the second beat into a ring of one. */
  predicate Outside(b: nat, d: nat) { d == 1 && b == 1 }

  /** The record of the newest of b beats was written outside. */
  predicate Lost(b: nat, d: nat) { d == 1 && b == 2 }

  /** The indices after b beats into a ring of d records. */
  predicate RingHolds(bi: nat, ri: nat, b: nat, d: Positive) {
    && (b == 0 ==> ri == 0)
    && (b > 0 ==> ri == Rem(b - 1, d))
    && bi == if Outside(b, d) then 1 else Rem(b, d)
  }

  ghost predicate LogHolds(log: seq<Record>, bi: nat, ri: nat, times: seq<int>, tags: seq<int>, w: nat)
    requires |log| > 0 && w > 0
  {
    && |tags| == |times| && RingHolds(bi, ri, |times|, |log|)
    && (if Lost(|times|, |log|) then log[0] == RecordOf(times, tags, 0, w) else Newest(log, times, tags, w))
  }

  lemma {:induction false} RemNext(b: nat, d: Positive)
    ensures Rem(b + 1, d) == if Rem(b, d) + 1 == d then 0 else Rem(b, d) + 1
  {
    if b >= d {
      RemNext(b - d, d);
    }
  }

  lemma {:induction false} RemDistinct(i: nat, b: nat, d: nat)
    requires d > 0 && i < b < i + d
    ensures Rem(i, d) != Rem(b, d)
  {
    if i >= d {
      RemDistinct(i - d, b - d, d);
    }
  }

  /** Writing the new record overwrites only the one that falls out of the last |log|. */
  lemma NewestStep(log: seq<Record>, times: seq<int>, tags: seq<int>, w: nat, t: int, tag: int)
    requires |log| > 0 && w > 0 && |tags| == |times|
    requires |log| > 1 ==> Newest(log, times, tags, w)
    ensures Newest(log[Rem(|times|, |log|) := RecordOf(times + [t], tags + [tag], |times|, w)], times + [t], tags + [tag], w)
  {
    var all, marks := times + [t], tags + [tag];
    var after := log[Rem(|times|, |log|) := RecordOf(all, marks, |times|, w)];
    forall i | 0 <= i < |all| <= i + |log|
      ensures after[Rem(i, |log|)] == RecordOf(all, marks, i, w)
    {
      if i < |times| {
        RemDistinct(i, |times|, |log|);
        RecordKept(times, tags, t, tag, i, w);
      }
    }
  }

  /** Taking the remainder first makes no difference. */
  lemma RemOfNext(b: nat, d: Positive)
    ensures Rem(Rem(b, d) + 1, d) == Rem(b + 1, d)
  {
    RemNext(b, d);
    RemNext(Rem(b, d), d);
    RemOfRem(b, d);
  }

  lemma RemOfRem(b: nat, d: Positive)
    ensures Rem(Rem(b, d), d) == Rem(b, d)
  {
  }

  /** An index moved on, with the wrap-around test of the code. */
  function Wrapped(i: nat, d: Positive): nat {
    if Rem(i + 1, d) == 0 then 0 else i + 1
  }

  lemma {:induction false} RemOfOne(i: nat)
    ensures Rem(i, 1) == 0
  {
    if i > 0 {
      RemOfOne(i - 1);
    }
  }

  lemma WrappedIs(i: nat, d: nat)
    requires d > 0 && i < d
    ensures Wrapped(i, d) == if i + 1 == d then 0 else i + 1
  {
  }

  /** The next index is out of range exactly for the second beat into a ring of one; either way
      the indices go on as they should. */
  lemma RingStep(bi: nat, ri: nat, b: nat, d: nat)
    requires d > 0 && b > 0 && RingHolds(bi, ri, b, d)
    ensures ri < d && (bi >= d <==> Outside(b, d))
    ensures RingHolds(Wrapped(bi, d), Wrapped(ri, d), b + 1, d)
  {
    if d == 1 {
      RemOfOne(b - 1);
      RemOfOne(b);
      RemOfOne(b + 1);
      RemOfOne(bi + 1);
      RemOfOne(ri + 1);
    } else {
      RemNext(b, d);
      RemNext(b - 1, d);
      WrappedIs(bi, d);
      WrappedIs(ri, d);
    }
  }

  /** In a ring of one record the second beat is out of range, all others are at index 0. */
  lemma RingOfOne(bi: nat, ri: nat, b: nat)
    requires RingHolds(bi, ri, b, 1)
    ensures ri == 0 && bi == if b == 1 then 1 else 0
  {
    RemOfOne(b);
    RemOfOne(if b > 0 then b - 1 else 0);
  }

  /** The log after one more beat, whose record is lost when its index is out of range. */
  lemma AppendHolds(log: seq<Record>, bi: nat, ri: nat, times: seq<int>, tags: seq<int>, w: nat, t: int, tag: int)
    requires |log| > 0 && w > 0 && times != [] && LogHolds(log, bi, ri, times, tags, w)
    ensures bi < |log| <==> !Outside(|times|, |log|)
    ensures var r := RecordOf(times + [t], tags + [tag], |times|, w);
      LogHolds(if bi < |log| then log[bi := r] else log, Wrapped(bi, |log|), Wrapped(ri, |log|), times + [t], tags + [tag], w)
  {
    RingStep(bi, ri, |times|, |log|);
    if bi < |log| {
      NewestStep(log, times, tags, w, t, tag);
    } else {
      assert Rem(0, |log|) == 0;
      RecordKept(times, tags, t, tag, 0, w);
    }
  }

  lemma LogAfterFirst(log: seq<Record>, w: nat, t: int, tag: int)
    requires |log| > 0 && w > 0
    ensures LogHolds(log[0 := Record(0, tag, t, Finite(0.0), Finite(0.0), Finite(0.0))], 1, 0, [t], [tag], w)
  {
  }

  // ---------------------------------------------------------------- the global rate

  lemma QuotientOfQuotient(a: real, n: real)
    requires a != 0.0 && n > 0.0
    ensures a / n != 0.0 && 1.0 / (a / n) == n / a
  {
    InverseIs(a / n, n / a, a, n);
  }

  lemma InverseIs(x: real, y: real, a: real, n: real)
    requires a != 0.0 && n > 0.0 && x * n == a && y * a == n
    ensures x != 0.0 && 1.0 / x == y
  {
    NotZero(x, n);
    var z := 1.0 / x;
    InverseTimes(z, x, n);
    EqualTimes(z, x * n, a);
    EqualFactors(z, y, a);
  }

  lemma NotZero(x: real, n: real)
    requires x * n != 0.0
    ensures x != 0.0
  {
  }

  lemma InverseTimes(z: real, x: real, n: real)
    requires x != 0.0 && z == 1.0 / x
    ensures z * (x * n) == n
  {
    assert z * x == 1.0;
    assert z * (x * n) == (z * x) * n;
  }

  lemma EqualTimes(y: real, p: real, q: real)
    requires p == q
    ensures y * p == y * q
  {
  }

  lemma EqualFactors(a: real, b: real, x: real)
    requires x != 0.0 && a * x == b * x
    ensures a == b
  {
    assert (a - b) * x == 0.0;
  }

  lemma OneMore(n: nat, t: real)
    requires t != 0.0
    ensures (n + 1) as real / t * NANOSECONDS == n as real / t * NANOSECONDS + NANOSECONDS / t
    ensures NANOSECONDS / t != 0.0
  {
    assert (n + 1) as real / t == n as real / t + 1.0 / t;
    assert 1.0 / t * NANOSECONDS == NANOSECONDS / t;
  }

  /**
   The global rate counts the beats and not the intervals between them: it differs from the
   rate of the mean of all intervals so far by one beat in the whole time, unless that time is
   zero and both are infinite.
   */
  lemma GlobalRate(times: seq<int>, tags: seq<int>, i: nat, w: nat)
    requires |tags| == |times| && i < |times| && w > 0
    ensures i == 0 ==> RecordOf(times, tags, i, w).globalRate == Finite(0.0)
    ensures i > 0 && times[i] == times[0] ==>
      RecordOf(times, tags, i, w).globalRate == Rate(MeanInterval(times, i, i)) == Infinity
    ensures i > 0 && times[i] != times[0] ==>
      var global, mean := RecordOf(times, tags, i, w).globalRate, Rate(MeanInterval(times, i, i));
      var oneBeat := NANOSECONDS / (times[i] - times[0]) as real;
      global.Finite? && mean.Finite? && global.value == mean.value + oneBeat && oneBeat != 0.0
  {
    if i > 0 {
      var t := (times[i] - times[0]) as real;
      MeanTelescopes(times, i, i);
      if t != 0.0 {
        QuotientOfQuotient(t, i as real);
        OneMore(i, t);
      }
    }
  }

  /** 10^9 times some beats over some nanoseconds; infinite when these are none. */
  predicate IsRate(d: Double, beats: nat, nanoseconds: int) {
    if nanoseconds == 0 then d == Infinity else d == Finite(1000000000.0 * beats as real / nanoseconds as real)
  }

  lemma PerSecondIsRate(beats: nat, nanoseconds: int)
    requires beats > 0
    ensures IsRate(PerSecond(beats, nanoseconds as real), beats, nanoseconds)
  {
    if nanoseconds != 0 {
      ScaledQuotient(beats as real, nanoseconds as real);
    }
  }

  lemma ScaledQuotient(x: real, t: real)
    requires t != 0.0
    ensures x / t * NANOSECONDS == 1000000000.0 * x / t
  {
  }

  lemma MeanRate(times: seq<int>, i: nat, w: nat)
    requires 0 < i < |times| && w > 0
    ensures IsRate(Rate(MeanInterval(times, i, w)), Min(i, w), times[i] - times[i - Min(i, w)])
  {
    var n, t := Min(i, w), times[i] - times[i - Min(i, w)];
    MeanTelescopes(times, i, w);
    if t != 0 {
      QuotientOfQuotient(t as real, n as real);
      ScaledQuotient(n as real, t as real);
    }
  }

  /**
   The record of beat i > 0, over the beat times alone: the window rate over the last min(i, w)
   intervals, the instant rate over the last one, and the global rate of i + 1 beats since the first.
   */
  lemma RecordInNumbers(times: seq<int>, tags: seq<int>, i: nat, w: nat)
    requires |tags| == |times| && 0 < i < |times| && w > 0
    ensures var r, n := RecordOf(times, tags, i, w), Min(i, w);
      && r.beat == i && r.tag == tags[i] && r.timestamp == times[i]
      && IsRate(r.windowRate, n, times[i] - times[i - n])
      && IsRate(r.instantRate, 1, times[i] - times[i - 1])
      && IsRate(r.globalRate, i + 1, times[i] - times[0])
  {
    MeanRate(times, i, w);
    PerSecondIsRate(1, Interval(times, i));
    PerSecondIsRate(i + 1, times[i] - times[0]);
  }

  /** Two beats a second apart: one interval of a second, and a global rate of two. */
  lemma TwoBeats()
    ensures RecordOf([0, 1000000000], [0, 1], 1, 10).instantRate == Finite(1.0)
    ensures RecordOf([0, 1000000000], [0, 1], 1, 10).globalRate == Finite(2.0)
  {
    assert Interval([0, 1000000000], 1) == 1000000000;
  }

  // ---------------------------------------------------------------- the object

  class Heart {
    var window: array<int>
    var log: array<Record>
    var firstTimestamp: int
    var lastTimestamp: int
    var currentIndex: nat
    var steadyState: bool
    var lastAverageTime: real
    var counter: nat
    var bufferIndex: nat
    var readIndex: nat
    ghost var times: seq<int>
    ghost var tags: seq<int>

    ghost predicate WindowValid()
      reads this, window
    {
      && window.Length > 0
      && (times == [] ==> currentIndex == 0 && !steadyState)
      && (times != [] ==> WindowHolds(window[..], currentIndex, steadyState, lastAverageTime, times))
    }

    ghost predicate LogValid()
      reads this, window, log
    {
      && window.Length > 0 && log.Length > 0
      && LogHolds(log[..], bufferIndex, readIndex, times, tags, window.Length)
      && counter == |times|
      && Marked(times)
      && firstTimestamp == (if times == [] then -1 else times[0])
      && lastTimestamp == (if times == [] then -1 else times[|times| - 1])
    }

    ghost predicate Valid()
      reads this, window, log
    {
      WindowValid() && LogValid()
    }

    constructor (windowSize: nat, bufferDepth: nat)
      requires windowSize > 0 && bufferDepth > 0
      ensures Valid() && times == [] && fresh(window) && fresh(log)
      ensures window.Length == windowSize && log.Length == bufferDepth
    {
      window := new int[windowSize];
      log := new Record[bufferDepth](_ => Record(0, 0, 0, Finite(0.0), Finite(0.0), Finite(0.0)));
      firstTimestamp, lastTimestamp := -1, -1;
      currentIndex, steadyState, lastAverageTime := 0, false, 0.0;
      counter, bufferIndex, readIndex := 0, 0, 0;
      times, tags := [], [];
    }

    /** The mean of the slots while the window fills. */
    method AverageSoFar(ghost all: seq<int>) returns (average: real)
      requires currentIndex < window.Length && currentIndex + 1 < |all|
      requires forall j :: 0 <= j <= currentIndex ==> window[j] == Interval(all, j + 1)
      ensures average == MeanInterval(all, currentIndex + 1, window.Length)
    {
      average := 0.0;
      var i := 0;
      while i < currentIndex + 1
        invariant 0 <= i <= currentIndex + 1
        invariant average == SumIntervals(all, 1, i + 1) as real
      {
        average := average + window[i] as real;
        i := i + 1;
      }
      average := average / (currentIndex as real + 1.0);
    }

    /** The first intervals fill the window from the left. */
    method FillWindow(time: int, ghost t: int) returns (averageTime: real)
      requires WindowValid() && times != [] && !steadyState && t == times[|times| - 1] + time
      modifies `currentIndex, `steadyState, `lastAverageTime, window
      ensures averageTime == MeanInterval(times + [t], |times|, window.Length)
      ensures WindowHolds(window[..], currentIndex, steadyState, lastAverageTime, times + [t])
    {
      ghost var before := window[..];
      FillingStep(before, currentIndex, lastAverageTime, times, t);
      window[currentIndex] := time;
      assert window[..] == before[currentIndex := time];
      assert forall j :: 0 <= j <= currentIndex ==> window[j] == Interval(times + [t], j + 1);
      averageTime := AverageSoFar(times + [t]);
      lastAverageTime := averageTime;
      currentIndex := currentIndex + 1;
      if currentIndex == window.Length {
        currentIndex := 0;
        steadyState := true;
      }
    }

    /** Afterwards each interval replaces the oldest. */
    method SlideWindow(time: int, ghost t: int) returns (averageTime: real)
      requires WindowValid() && times != [] && steadyState && t == times[|times| - 1] + time
      modifies `currentIndex, `lastAverageTime, window
      ensures averageTime == MeanInterval(times + [t], |times|, window.Length)
      ensures WindowHolds(window[..], currentIndex, steadyState, lastAverageTime, times + [t])
    {
      ghost var before := window[..];
      AverageStep(before, currentIndex, lastAverageTime, times, t);
      SteadyStep(before, currentIndex, lastAverageTime, times, t);
      averageTime := lastAverageTime - window[currentIndex] as real / window.Length as real;
      averageTime := averageTime + time as real / window.Length as real;
      lastAverageTime := averageTime;
      window[currentIndex] := time;
      assert window[..] == before[currentIndex := time];
      currentIndex := currentIndex + 1;
      if currentIndex == window.Length {
        currentIndex := 0;
      }
    }

    /** Takes the interval up to a new beat into the window; the rate of the window's mean. */
    method HbWindowAverage(time: int, ghost t: int) returns (fps: Double)
      requires WindowValid() && times != [] && t == times[|times| - 1] + time
      modifies `currentIndex, `steadyState, `lastAverageTime, window
      ensures WindowHolds(window[..], currentIndex, steadyState, lastAverageTime, times + [t])
      ensures fps == Rate(MeanInterval(times + [t], |times|, window.Length))
    {
      var averageTime;
      if !steadyState {
        averageTime := FillWindow(time, t);
      } else {
        averageTime := SlideWindow(time, t);
      }
      fps := Scaled(Quotient(1.0, averageTime), NANOSECONDS);
    }

    method FirstBeat(time: int, tag: int)
      requires Valid() && times == [] && time != -1
      modifies this, window, log
      ensures Valid() && window == old(window) && log == old(log)
      ensures times == [time] && tags == [tag]
    {
      LogAfterFirst(log[..], window.Length, time, tag);
      firstTimestamp := time;
      lastTimestamp := time;
      window[0] := 0;
      ghost var before := log[..];
      log[0] := Record(counter, tag, time, Finite(0.0), Finite(0.0), Finite(0.0));
      assert log[..] == before[0 := Record(0, tag, time, Finite(0.0), Finite(0.0), Finite(0.0))];
      counter := counter + 1;
      bufferIndex := bufferIndex + 1;
      times, tags := [time], [tag];
    }

    /** The three rates of a beat that is not the first. */
    method Measure(time: int, tag: int) returns (r: Record)
      requires Valid() && times != []
      modifies `currentIndex, `steadyState, `lastAverageTime, window
      ensures r == RecordOf(times + [time], tags + [tag], |times|, window.Length)
      ensures WindowHolds(window[..], currentIndex, steadyState, lastAverageTime, times + [time])
    {
      var oldLastTime := lastTimestamp;
      var windowHeartrate := HbWindowAverage(time - oldLastTime, time);
      var globalHeartrate := Scaled(Quotient(counter as real + 1.0, (time - firstTimestamp) as real), NANOSECONDS);
      var instantHeartrate := Scaled(Quotient(1.0, (time - oldLastTime) as real), NANOSECONDS);
      r := Record(counter, tag, time, windowHeartrate, instantHeartrate, globalHeartrate);
    }

    /** Moves the indices and the counter on. */
    method Advance()
      requires log.Length > 0
      modifies `bufferIndex, `readIndex, `counter
      ensures bufferIndex == Wrapped(old(bufferIndex), log.Length)
      ensures readIndex == Wrapped(old(readIndex), log.Length)
      ensures counter == old(counter) + 1
    {
      bufferIndex := bufferIndex + 1;
      counter := counter + 1;
      readIndex := readIndex + 1;
      if Rem(bufferIndex, log.Length) == 0 {
        bufferIndex := 0;
      }
      if Rem(readIndex, log.Length) == 0 {
        readIndex := 0;
      }
    }

    /** Writes the record of a beat that is not the first; false when its index is out of range. */
    method Append(r: Record, ghost time: int, ghost tag: int) returns (ok: bool)
      requires log.Length > 0 && window.Length > 0 && times != []
      requires LogHolds(log[..], bufferIndex, readIndex, times, tags, window.Length)
      requires r == RecordOf(times + [time], tags + [tag], |times|, window.Length)
      modifies `bufferIndex, `readIndex, `counter, log
      ensures ok <==> !Outside(|times|, log.Length)
      ensures LogHolds(log[..], bufferIndex, readIndex, times + [time], tags + [tag], window.Length)
      ensures counter == old(counter) + 1
    {
      AppendHolds(log[..], bufferIndex, readIndex, times, tags, window.Length, time, tag);
      ghost var before := log[..];
      ok := bufferIndex < log.Length;
      if ok {
        log[bufferIndex] := r;
        assert log[..] == before[bufferIndex := r];
      }
      Advance();
    }

    /** The beat that window and log already show becomes the last. */
    method Settle(time: int, ghost tag: int)
      requires window.Length > 0 && log.Length > 0 && times != []
      requires WindowHolds(window[..], currentIndex, steadyState, lastAverageTime, times + [time])
      requires LogHolds(log[..], bufferIndex, readIndex, times + [time], tags + [tag], window.Length)
      requires counter == |times| + 1 && firstTimestamp == times[0] && Marked(times)
      modifies `lastTimestamp, `times, `tags
      ensures Valid() && times == old(times) + [time] && tags == old(tags) + [tag]
    {
      lastTimestamp := time;
      times, tags := times + [time], tags + [tag];
    }

    method LaterBeat(time: int, tag: int) returns (ok: bool)
      requires Valid() && times != []
      modifies this, window, log
      ensures Valid() && window == old(window) && log == old(log)
      ensures ok <==> !Outside(|old(times)|, log.Length)
      ensures times == old(times) + [time] && tags == old(tags) + [tag]
    {
      var r := Measure(time, tag);
      ok := Append(r, time, tag);
      Settle(time, tag);
    }

    /**
     One beat; false when its record lands outside the log, which happens for the second beat
     into a log of one record and for no other.  The model leaves that record out and goes on.
     */
    method Beat(time: int, tag: int) returns (ok: bool)
      requires Valid() && Marked(times + [time])
      modifies this, window, log
      ensures Valid() && window == old(window) && log == old(log)
      ensures ok <==> !Outside(|old(times)|, log.Length)
      ensures times == old(times) + [time] && tags == old(tags) + [tag]
    {
      assert times == [] ==> (times + [time])[0] == time;
      if firstTimestamp == -1 {
        FirstBeat(time, tag);
        ok := true;
      } else {
        ok := LaterBeat(time, tag);
      }
    }

    method GetRecord(index: nat) returns (r: Record)
      requires Valid() && index < log.Length
      ensures r == log[index]
    {
      r := log[index];
    }
  }

  /** The index that the Python side keeps after b beats. */
  predicate CallerIndex(cnt: int, b: nat, d: Positive) {
    cnt == if b == 0 then -1 else Rem(b - 1, d)
  }

  lemma NextIndex(cnt: int, b: nat, d: nat)
    requires d > 0 && CallerIndex(cnt, b, d)
    ensures cnt + 1 >= 0 && CallerIndex(Rem(cnt + 1, d), b + 1, d)
  {
    if b > 0 {
      RemOfNext(b - 1, d);
    }
  }

  lemma ReadIndexIs(bi: nat, ri: nat, b: nat, d: nat)
    requires d > 0 && b > 0 && RingHolds(bi, ri, b, d)
    ensures CallerIndex(ri, b, d)
  {
  }

  /** The Python side tags each beat with its ring index. */
  ghost predicate TagsHold(tags: seq<int>, d: Positive) {
    forall i :: 0 <= i < |tags| ==> tags[i] == Rem(i, d)
  }

  lemma TagsNext(tags: seq<int>, d: nat, cnt: int, b: nat)
    requires d > 0 && TagsHold(tags, d) && |tags| == b && CallerIndex(cnt, b + 1, d)
    ensures TagsHold(tags + [cnt], d)
  {
  }

  /** The Python side keeps a ring index of its own. */
  class Caller {
    const hb: Heart
    var cnt: int

    ghost predicate Valid()
      reads this, hb, hb.window, hb.log
    {
      && hb.Valid()
      && CallerIndex(cnt, |hb.times|, hb.log.Length)
      && TagsHold(hb.tags, hb.log.Length)
    }

    constructor (winSize: nat, bufDepth: nat)
      requires winSize > 0 && bufDepth > 0
      ensures Valid() && hb.times == []
      ensures fresh(hb) && fresh(hb.window) && fresh(hb.log)
      ensures hb.window.Length == winSize && hb.log.Length == bufDepth
    {
      hb := new Heart(winSize, bufDepth);
      cnt := -1;
    }

    method HeartbeatBeat(time: int)
      requires Valid() && Marked(hb.times + [time])
      modifies this, hb, hb.window, hb.log
      ensures Valid() && hb.window == old(hb.window) && hb.log == old(hb.log)
      ensures hb.times == old(hb.times) + [time]
    {
      NextIndex(cnt, |hb.times|, hb.log.Length);
      cnt := Rem(cnt + 1, hb.log.Length);
      TagsNext(hb.tags, hb.log.Length, cnt, |hb.times|);
      var ok := hb.Beat(time, cnt);
      ReadIndexIs(hb.bufferIndex, hb.readIndex, |hb.times|, hb.log.Length);
    }

    /** The getters read the record of the newest beat; when that was written outside the log,
        they still read the record of the first. */
    method GetNewest() returns (r: Record)
      requires Valid() && hb.times != []
      ensures |hb.times| == 1 || Lost(|hb.times|, hb.log.Length) ==>
                r == Record(0, 0, hb.times[0], Finite(0.0), Finite(0.0), Finite(0.0))
      ensures |hb.times| > 1 && !Lost(|hb.times|, hb.log.Length) ==>
                && r.beat == |hb.times| - 1 && r.tag == Rem(|hb.times| - 1, hb.log.Length)
                && r.timestamp == hb.times[|hb.times| - 1]
                && HasRates(r, hb.times, hb.window.Length)
      ensures cnt == hb.readIndex
    {
      if Lost(|hb.times|, hb.log.Length) {
        RemOfOne(1);
      }
      r := hb.GetRecord(cnt);
      if |hb.times| > 1 {
        RecordInNumbers(hb.times, hb.tags, |hb.times| - 1, hb.window.Length);
      }
    }
  }

  /** The rates of the newest of several beats, with a window of w. */
  predicate HasRates(r: Record, times: seq<int>, w: nat)
    requires |times| > 1
  {
    var i := |times| - 1;
    var n := Min(i, w);
    && IsRate(r.windowRate, n, times[i] - times[i - n])
    && IsRate(r.instantRate, 1, times[i] - times[i - 1])
    && IsRate(r.globalRate, i + 1, times[i] - times[0])
  }

  lemma RatesOfThree(r: Record, times: seq<int>)
    requires times == [0, 1000000000, 3000000000] && HasRates(r, times, 10)
    ensures r.windowRate == Finite(2.0 / 3.0) && r.instantRate == Finite(0.5) && r.globalRate == Finite(1.0)
  {
    assert IsRate(r.windowRate, 2, 3000000000) && IsRate(r.instantRate, 1, 2000000000);
    assert IsRate(r.globalRate, 3, 3000000000);
  }

  /** Beats at 0, 1 and 3 seconds: two intervals in three seconds, the last of two seconds. */
  method ThreeBeats() returns (r: Record)
    ensures r == Record(2, 2, 3000000000, Finite(2.0 / 3.0), Finite(0.5), Finite(1.0))
  {
    var caller := new Caller(10, 100);
    caller.HeartbeatBeat(0);
    caller.HeartbeatBeat(1000000000);
    caller.HeartbeatBeat(3000000000);
    ghost var times := caller.hb.times;
    assert times == [0, 1000000000, 3000000000];
    r := caller.GetNewest();
    RatesOfThree(r, times);
  }
}
