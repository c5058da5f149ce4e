/**
 The colours of the god-rays pass: what a ray accumulates on its way from the light, and what
 it stores.  One channel stands for the four, which are handled alike; numbers are exact.
 */
module RayColours {
  import opened Bresenham
  import opened GodRays
  import opened Numbers
  import opened Raster

  /** The input of the pass.  The decay of a ray, an exponential in the code, is a function of
      the absolute sizes of its displacement. */
  datatype Input = Input(w: Size, h: Size, image: seq<real>, decay: (nat, nat) -> real, blend: bool)

  type Scene = s: Input | |s.image| == s.w * s.h
    witness Input(2, 2, [0.0, 0.0, 0.0, 0.0], (dx, dy) => 1.0, false)

  const WEIGHT := 3.0
  const INV_EXPOSURE := 1.0 / 0.9

  function Sample(s: Scene, p: Pixel): real
    requires InImage(s.w, s.h, p)
  {
    s.image[Index(s.w, s.h, p)]
  }

  function DecayOf(s: Scene, ray: nat): real
    requires ray < RayCount(s.w, s.h)
  {
    s.decay(Abs(Displacement(s.w, s.h, ray).x), Abs(Displacement(s.w, s.h, ray).y))
  }

  /** The pixel of step k, exposed. */
  function Exposed(s: Scene, ray: nat, k: nat): real
    requires ray < RayCount(s.w, s.h) && k <= StepsOf(s.w, s.h, ray)
  {
    RayPixelInImage(s.w, s.h, ray, k);
    Sample(s, RayPixel(s.w, s.h, ray, k)) * INV_EXPOSURE
  }

  /** A sum decays and gains a sample. */
  function Mix(sum: real, sample: real, decay: real, nDecay: real): real {
    sum * decay + sample * nDecay
  }

  /** The running sum after k steps. */
  function Summed(s: Scene, ray: nat, k: nat): real
    requires ray < RayCount(s.w, s.h) && k <= StepsOf(s.w, s.h, ray)
  {
    Mix(if k == 0 then 0.0 else Summed(s, ray, k - 1), Exposed(s, ray, k), DecayOf(s, ray), 1.0 - DecayOf(s, ray))
  }

  /** What a ray stores at step k: the centre is added exposed, other pixels only when blending. */
  function Answer(s: Scene, ray: nat, k: nat): real
    requires ray < RayCount(s.w, s.h) && k <= StepsOf(s.w, s.h, ray)
  {
    RayPixelInImage(s.w, s.h, ray, k);
    Summed(s, ray, k) * WEIGHT
    + (if k == 0 then Exposed(s, ray, 0) else if s.blend then Sample(s, RayPixel(s.w, s.h, ray, k)) else 0.0)
  }

  /** What a ray stores at a pixel that it writes. */
  function Shade(s: Scene, ray: nat, p: Pixel): real
    requires InImage(s.w, s.h, p) && Writes(s.w, s.h, ray, p)
  {
    WrittenOnTheWay(s.w, s.h, ray, p);
    Answer(s, ray, Ring(FromLight(s.w, s.h, p)))
  }

  /** A ray writes a pixel at the step at which it is there. */
  lemma WrittenOnTheWay(w: Size, h: Size, ray: nat, p: Pixel)
    requires Writes(w, h, ray, p)
    ensures Ring(FromLight(w, h, p)) <= StepsOf(w, h, ray)
    ensures RayPixel(w, h, ray, Ring(FromLight(w, h, p))) == p
  {
    LightIsCentre(w, h, p);
  }

  // ---------------------------------------------------------------- the sum is an average

  function Power(d: real, n: nat): real {
    if n == 0 then 1.0 else d * Power(d, n - 1)
  }

  /** n weights for x, the newest 1 - d and each older one d times the next: together 1 - d^n. */
  function Share(x: real, d: real, n: nat): real {
    x * (1.0 - Power(d, n))
  }

  lemma AtMostTimes(x: real, y: real, d: real)
    requires x <= y && d >= 0.0
    ensures x * d <= y * d
  {
  }

  lemma OneMoreWeight(x: real, d: real, e: real, rest: real, share: real, next: real)
    requires e == 1.0 - d && share == x * (1.0 - rest) && next == x * (1.0 - d * rest)
    ensures share * d + x * e == next
  {
    assert share * d == x * ((1.0 - rest) * d);
    assert (1.0 - rest) * d == d - d * rest;
    assert x * (d - d * rest) + x * (1.0 - d) == x * (1.0 - d * rest);
  }

  lemma ShareNext(x: real, d: real, e: real, n: nat)
    requires e == 1.0 - d
    ensures Mix(Share(x, d, n), x, d, e) == Share(x, d, n + 1)
  {
    OneMoreWeight(x, d, e, Power(d, n), Share(x, d, n), Share(x, d, n + 1));
  }

  lemma MixGrows(sum: real, c: real, high: real, hi: real, d: real, e: real)
    requires d >= 0.0 && e >= 0.0 && sum <= high && c <= hi
    ensures Mix(sum, c, d, e) <= Mix(high, hi, d, e)
  {
    AtMostTimes(sum, high, d);
    AtMostTimes(c, hi, e);
  }

  lemma MixBetween(sum: real, c: real, d: real, e: real, lo: real, hi: real, n: nat)
    requires d >= 0.0 && e >= 0.0 && e == 1.0 - d
    requires lo <= c <= hi && Share(lo, d, n) <= sum <= Share(hi, d, n)
    ensures Share(lo, d, n + 1) <= Mix(sum, c, d, e) <= Share(hi, d, n + 1)
  {
    ShareNext(lo, d, e, n);
    ShareNext(hi, d, e, n);
    MixGrows(Share(lo, d, n), lo, sum, c, d, e);
    MixGrows(sum, c, Share(hi, d, n), hi, d, e);
  }

  ghost predicate ExposedWithin(s: Scene, ray: nat, k: nat, lo: real, hi: real)
    requires ray < RayCount(s.w, s.h) && k <= StepsOf(s.w, s.h, ray)
  {
    forall j: nat :: j <= k ==> lo <= Exposed(s, ray, j) <= hi
  }

  /** After k steps the sum weighs the exposed pixels so far with weights that add up to
      1 - d^(k+1): it lies between these shares of the darkest and of the brightest of them. */
  lemma {:induction false} SummedIsAverage(s: Scene, ray: nat, k: nat, lo: real, hi: real)
    requires ray < RayCount(s.w, s.h) && k <= StepsOf(s.w, s.h, ray) && 0.0 <= DecayOf(s, ray) <= 1.0
    requires ExposedWithin(s, ray, k, lo, hi)
    ensures Share(lo, DecayOf(s, ray), k + 1) <= Summed(s, ray, k) <= Share(hi, DecayOf(s, ray), k + 1)
  {
    if k > 0 {
      SummedIsAverage(s, ray, k - 1, lo, hi);
    }
    var d := DecayOf(s, ray);
    MixBetween(if k == 0 then 0.0 else Summed(s, ray, k - 1), Exposed(s, ray, k), d, 1.0 - d, lo, hi, k);
  }

  // ---------------------------------------------------------------- the colour, in numbers

  /** A sum and one more term: x, decayed k times. */
  function WithTerm(sum: real, x: real, d: real, k: nat): real {
    sum + (1.0 - d) * Power(d, k) * x
  }

  /** The first n terms of the sum of (1 - d) d^(|c| - 1 - j) c[j]. */
  function WeightedUpTo(c: seq<real>, d: real, n: nat): real
    requires n <= |c|
  {
    if n == 0 then 0.0 else WithTerm(WeightedUpTo(c, d, n - 1), c[n - 1], d, |c| - n)
  }

  function Weighted(c: seq<real>, d: real): real {
    WeightedUpTo(c, d, |c|)
  }

  lemma TermDecays(x: real, d: real, power: real)
    ensures ((1.0 - d) * power * x) * d == (1.0 - d) * (d * power) * x
  {
  }

  lemma SumDecays(a: real, b: real, d: real)
    ensures (a + b) * d == a * d + b * d
  {
  }

  lemma WithTermDecays(sum: real, x: real, d: real, k: nat)
    ensures WithTerm(sum * d, x, d, k + 1) == WithTerm(sum, x, d, k) * d
  {
    TermDecays(x, d, Power(d, k));
    SumDecays(sum, (1.0 - d) * Power(d, k) * x, d);
  }

  /** One more sample: the terms so far decay. */
  lemma {:induction false} TermsDecay(c: seq<real>, x: real, d: real, n: nat)
    requires n <= |c|
    ensures WeightedUpTo(c + [x], d, n) == WeightedUpTo(c, d, n) * d
  {
    if n > 0 {
      TermsDecay(c, x, d, n - 1);
      WithTermDecays(WeightedUpTo(c, d, n - 1), c[n - 1], d, |c| - n);
      LastTerm(c, x, d, n);
    }
  }

  lemma LastTerm(c: seq<real>, x: real, d: real, n: nat)
    requires 0 < n <= |c|
    ensures WeightedUpTo(c + [x], d, n) == WithTerm(WeightedUpTo(c + [x], d, n - 1), c[n - 1], d, |c| - n + 1)
    ensures WeightedUpTo(c, d, n) == WithTerm(WeightedUpTo(c, d, n - 1), c[n - 1], d, |c| - n)
  {
  }

  lemma WeightedNext(c: seq<real>, x: real, d: real)
    ensures Weighted(c + [x], d) == Mix(Weighted(c, d), x, d, 1.0 - d)
  {
    TermsDecay(c, x, d, |c|);
    assert Power(d, 0) == 1.0;
  }

  /** The exposed pixels of a ray up to step k. */
  function Samples(s: Scene, ray: nat, k: nat): (c: seq<real>)
    requires ray < RayCount(s.w, s.h) && k <= StepsOf(s.w, s.h, ray)
    ensures |c| == k + 1
  {
    (if k == 0 then [] else Samples(s, ray, k - 1)) + [Exposed(s, ray, k)]
  }

  lemma {:induction false} SamplesAt(s: Scene, ray: nat, k: nat, j: nat)
    requires ray < RayCount(s.w, s.h) && j <= k <= StepsOf(s.w, s.h, ray)
    ensures Samples(s, ray, k)[j] == Exposed(s, ray, j)
  {
    if j < k {
      SamplesAt(s, ray, k - 1, j);
      assert Samples(s, ray, k) == Samples(s, ray, k - 1) + [Exposed(s, ray, k)];
    }
  }

  /** The sum in the code is the weighted sum. */
  lemma {:induction false} SummedIsWeighted(s: Scene, ray: nat, k: nat)
    requires ray < RayCount(s.w, s.h) && k <= StepsOf(s.w, s.h, ray)
    ensures Summed(s, ray, k) == Weighted(Samples(s, ray, k), DecayOf(s, ray))
  {
    if k > 0 {
      SummedIsWeighted(s, ray, k - 1);
    }
    WeightedNext(if k == 0 then [] else Samples(s, ray, k - 1), Exposed(s, ray, k), DecayOf(s, ray));
  }

  /** Both coordinates of a ray are rounded the same way; on the longer axis there is nothing to round. */
  lemma RayAtIsRounded(dx: int, dy: int, j: nat)
    requires Steps(dx, dy) > 0
    ensures var n := Steps(dx, dy);
      RayAt(dx, dy, j) == Pixel(Signed(dx, (2 * (Abs(dx) * j) + n) / (2 * n)), Signed(dy, (2 * (Abs(dy) * j) + n) / (2 * n)))
  {
    var n := Steps(dx, dy);
    RoundedQuotient(n * j, n, j);
    if Abs(dx) >= Abs(dy) {
      WalkClosedForm(Abs(dy), Abs(dx), j);
    } else {
      WalkClosedForm(Abs(dx), Abs(dy), j);
    }
  }

  /** x is the value of the image at row y, divided by the exposure. */
  predicate IsExposed(s: Scene, at: Pixel, x: real) {
    var i := at.y * s.w + at.x;
    0 <= at.x < s.w && 0 <= i < |s.image| && x == s.image[i] / 0.9
  }

  /** Step j on the straight line from the centre of the image to the target, rounded. */
  function LinePixel(w: Size, h: Size, target: Pixel, j: nat): Pixel {
    var dx, dy := target.x - w / 2, target.y - h / 2;
    var n := Max(Abs(dx), Abs(dy));
    if n == 0 then Pixel(w / 2, h / 2)
    else Pixel(w / 2 + Signed(dx, (2 * (Abs(dx) * j) + n) / (2 * n)), h / 2 + Signed(dy, (2 * (Abs(dy) * j) + n) / (2 * n)))
  }

  /** c are the exposed pixels of that line from the centre to p, which is its pixel of the last step. */
  ghost predicate LineUpTo(s: Scene, target: Pixel, p: Pixel, c: seq<real>) {
    var k := Max(Abs(p.x - s.w / 2), Abs(p.y - s.h / 2));
    && |c| == k + 1 && LinePixel(s.w, s.h, target, k) == p
    && forall j :: 0 <= j <= k ==> IsExposed(s, LinePixel(s.w, s.h, target, j), c[j])
  }

  /** The colour at pixel p of the ray to the target: the weighted sum along the line, three
      times, and at the centre the exposed pixel, elsewhere the pixel itself when blending. */
  ghost predicate Shows(s: Scene, target: Pixel, p: Pixel, colour: real)
    requires InImage(s.w, s.h, p)
  {
    exists c: seq<real> :: ShowsAlong(s, target, p, c, colour)
  }

  ghost predicate ShowsAlong(s: Scene, target: Pixel, p: Pixel, c: seq<real>, colour: real)
    requires InImage(s.w, s.h, p)
  {
    && LineUpTo(s, target, p, c)
    && colour == 3.0 * Weighted(c, s.decay(Abs(target.x - s.w / 2), Abs(target.y - s.h / 2)))
                 + (if p == Pixel(s.w / 2, s.h / 2) then c[0] else if s.blend then s.image[Index(s.w, s.h, p)] else 0.0)
  }

  lemma RayPixelIsRounded(w: Size, h: Size, ray: nat, j: nat)
    requires ray < RayCount(w, h) && j <= StepsOf(w, h, ray) && RayEnds(w, h, ray).Ends?
    ensures RayPixel(w, h, ray, j) == LinePixel(w, h, RayEnds(w, h, ray).dst, j)
  {
    var v := Displacement(w, h, ray);
    if Steps(v.x, v.y) > 0 {
      RayAtIsRounded(v.x, v.y, j);
    }
  }

  lemma SamplesAreExposed(s: Scene, ray: nat, k: nat, j: nat)
    requires ray < RayCount(s.w, s.h) && j <= k <= StepsOf(s.w, s.h, ray) && RayEnds(s.w, s.h, ray).Ends?
    ensures IsExposed(s, LinePixel(s.w, s.h, RayEnds(s.w, s.h, ray).dst, j), Samples(s, ray, k)[j])
  {
    SamplesAt(s, ray, k, j);
    RayPixelIsRounded(s.w, s.h, ray, j);
    RayPixelInImage(s.w, s.h, ray, j);
  }

  lemma SamplesFollowLine(s: Scene, ray: nat, target: Pixel, p: Pixel, k: nat)
    requires ray < RayCount(s.w, s.h) && k <= StepsOf(s.w, s.h, ray)
    requires RayEnds(s.w, s.h, ray).Ends? && target == RayEnds(s.w, s.h, ray).dst
    requires k == Max(Abs(p.x - s.w / 2), Abs(p.y - s.h / 2)) && p == LinePixel(s.w, s.h, target, k)
    ensures LineUpTo(s, target, p, Samples(s, ray, k))
  {
    forall j | 0 <= j <= k
      ensures IsExposed(s, LinePixel(s.w, s.h, target, j), Samples(s, ray, k)[j])
    {
      SamplesAreExposed(s, ray, k, j);
    }
  }

  /** Where a ray is when it writes a pixel. */
  lemma StepOfWrite(w: Size, h: Size, ray: nat, p: Pixel) returns (k: nat)
    requires Writes(w, h, ray, p)
    ensures k == Ring(FromLight(w, h, p)) == Max(Abs(p.x - w / 2), Abs(p.y - h / 2)) && k <= StepsOf(w, h, ray)
    ensures (k == 0 <==> p == Pixel(w / 2, h / 2)) && p == RayPixel(w, h, ray, k)
    ensures RayEnds(w, h, ray).Ends? && p == LinePixel(w, h, RayEnds(w, h, ray).dst, k)
  {
    k := Ring(FromLight(w, h, p));
    WrittenOnTheWay(w, h, ray, p);
    LightIsCentre(w, h, p);
    RayPixelIsRounded(w, h, ray, k);
  }

  lemma AnswerIsWeighted(s: Scene, ray: nat, k: nat)
    requires ray < RayCount(s.w, s.h) && k <= StepsOf(s.w, s.h, ray)
    ensures InImage(s.w, s.h, RayPixel(s.w, s.h, ray, k))
    ensures var c := Samples(s, ray, k);
      Answer(s, ray, k) == 3.0 * Weighted(c, DecayOf(s, ray))
        + (if k == 0 then c[0] else if s.blend then s.image[Index(s.w, s.h, RayPixel(s.w, s.h, ray, k))] else 0.0)
  {
    RayPixelInImage(s.w, s.h, ray, k);
    SummedIsWeighted(s, ray, k);
    SamplesAt(s, ray, k, 0);
  }

  /** What a ray stores at a pixel that it writes, in numbers and positions. */
  lemma ShadeShows(s: Scene, ray: nat, p: Pixel)
    requires InImage(s.w, s.h, p) && Writes(s.w, s.h, ray, p)
    ensures RayEnds(s.w, s.h, ray).Ends? && Shows(s, RayEnds(s.w, s.h, ray).dst, p, Shade(s, ray, p))
  {
    var k := StepOfWrite(s.w, s.h, ray, p);
    SamplesFollowLine(s, ray, RayEnds(s.w, s.h, ray).dst, p, k);
    AnswerIsWeighted(s, ray, k);
    DecayIsOwn(s, ray);
    assert ShowsAlong(s, RayEnds(s.w, s.h, ray).dst, p, Samples(s, ray, k), Shade(s, ray, p));
  }

  lemma DecayIsOwn(s: Scene, ray: nat)
    requires ray < RayCount(s.w, s.h)
    ensures RayEnds(s.w, s.h, ray).Ends?
    ensures var target := RayEnds(s.w, s.h, ray).dst;
      DecayOf(s, ray) == s.decay(Abs(target.x - s.w / 2), Abs(target.y - s.h / 2))
  {
  }

  /** The line from the centre of the image to the target has p as its pixel at p's distance. */
  predicate Passes(w: Size, h: Size, target: Pixel, p: Pixel) {
    var k := Max(Abs(p.x - w / 2), Abs(p.y - h / 2));
    k <= Max(Abs(target.x - w / 2), Abs(target.y - h / 2)) && LinePixel(w, h, target, k) == p
  }

  lemma ReachesIsPasses(w: Size, h: Size, ray: nat, p: Pixel)
    requires ray < RayCount(w, h) && RayEnds(w, h, ray).Ends?
    ensures Reaches(Displacement(w, h, ray), FromLight(w, h, p)) <==> Passes(w, h, RayEnds(w, h, ray).dst, p)
  {
    var k := Ring(FromLight(w, h, p));
    if k <= StepsOf(w, h, ray) {
      RayPixelIsRounded(w, h, ray, k);
    }
  }

  /** Which rays write a pixel: the centre the one to the corner (0, 0), any other pixel those
      whose line passes it while the line of the shadow does not. */
  lemma WritesInNumbers(w: Size, h: Size, ray: nat, p: Pixel)
    ensures Writes(w, h, ray, p) <==>
      && RayEnds(w, h, ray).Ends?
      && if p == Pixel(w / 2, h / 2) then RayEnds(w, h, ray).dst == Pixel(0, 0)
         else Passes(w, h, RayEnds(w, h, ray).dst, p) && !Passes(w, h, RayEnds(w, h, ray).shadow, p)
  {
    RaysEnumerateBorder(w, h);
    if ray < RayCount(w, h) {
      ShadowIsPreviousRay(w, h, ray);
      ReachesIsPasses(w, h, ray, p);
      ReachesIsPasses(w, h, Previous(w, h, ray), p);
    }
  }
}
