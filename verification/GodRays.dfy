/**
 The god-rays pass (opencl/intel/GodRays/GodRaysNative.cpp and GodRays.cpp): a fan of rays
 from the centre of the image to every border pixel.  Each ray walks beside a shadow, a copy
 of the ray before it, and leaves out the pixels that the shadow visits at the same step.
 */
module GodRays {
  import opened Bresenham
  import opened Raster
  import opened RayFan

  /** A width or a height of at least two pixels. */
  type Size = n: int | n >= 2 witness 2

  function Light(w: Size, h: Size): Pixel { Pixel(w / 2, h / 2) }

  // ---------------------------------------------------------------- border enumeration

  /** The destinations of a ray and of its shadow; none when the ray number is out of range. */
  datatype Ends = NoRay | Ends(dst: Pixel, shadow: Pixel)

  function RayEnds(w: Size, h: Size, ray: nat): Ends {
    var xLast, yLast := w - 1, h - 1;
    if ray < xLast then
      Ends(Pixel(ray, 0), if ray == 0 then Pixel(0, 1) else Pixel(ray - 1, 0))
    else
      var r := ray - xLast;
      if r < yLast then
        Ends(Pixel(xLast, r), if r == 0 then Pixel(xLast - 1, 0) else Pixel(xLast, r - 1))
      else
        var r := r - yLast;
        if r < xLast then
          Ends(Pixel(xLast - r, yLast), if r == 0 then Pixel(xLast, yLast - 1) else Pixel(xLast - r + 1, yLast))
        else
          var r := r - xLast;
          if r < yLast then
            Ends(Pixel(0, yLast - r), if r == 0 then Pixel(1, yLast) else Pixel(0, yLast - r + 1))
          else NoRay
  }

  function RayCount(w: Size, h: Size): nat {
    2 * (w + h - 2)
  }

  predicate OnBorder(w: Size, h: Size, p: Pixel) {
    InImage(w, h, p) && (p.x == 0 || p.x == w - 1 || p.y == 0 || p.y == h - 1)
  }

  /** The number of the ray that ends on a border pixel. */
  function RayTo(w: Size, h: Size, p: Pixel): int {
    if p.y == 0 && p.x < w - 1 then p.x
    else if p.x == w - 1 && p.y < h - 1 then w - 1 + p.y
    else if p.y == h - 1 && p.x > 0 then (w - 1) + (h - 1) + (w - 1 - p.x)
    else 2 * (w - 1) + (h - 1) + (h - 1 - p.y)
  }

  function Previous(w: Size, h: Size, ray: nat): nat {
    if ray == 0 then RayCount(w, h) - 1 else ray - 1
  }

  /** Ray numbers enumerate the border pixels, each once; larger numbers are no rays. */
  lemma RaysEnumerateBorder(w: Size, h: Size)
    ensures forall i: nat :: RayEnds(w, h, i).Ends? <==> i < RayCount(w, h)
    ensures forall i: nat :: i < RayCount(w, h) ==>
              OnBorder(w, h, RayEnds(w, h, i).dst) && RayTo(w, h, RayEnds(w, h, i).dst) == i
    ensures forall p :: OnBorder(w, h, p) ==>
              0 <= RayTo(w, h, p) < RayCount(w, h) && RayEnds(w, h, RayTo(w, h, p)).dst == p
  {
  }

  /** The shadow of a ray is the ray before it, cyclically. */
  lemma ShadowIsPreviousRay(w: Size, h: Size, ray: nat)
    requires ray < RayCount(w, h)
    ensures RayEnds(w, h, ray).Ends? && RayEnds(w, h, Previous(w, h, ray)).Ends?
    ensures RayEnds(w, h, ray).shadow == RayEnds(w, h, Previous(w, h, ray)).dst
  {
  }

  /** Where a ray ends, seen from the light. */
  function Displacement(w: Size, h: Size, ray: nat): Pixel
    requires ray < RayCount(w, h)
  {
    FromLight(w, h, RayEnds(w, h, ray).dst)
  }

  function FromLight(w: Size, h: Size, p: Pixel): Pixel {
    Pixel(p.x - Light(w, h).x, p.y - Light(w, h).y)
  }

  /** How many steps a ray makes. */
  function StepsOf(w: Size, h: Size, ray: nat): nat
    requires ray < RayCount(w, h)
  {
    Steps(Displacement(w, h, ray).x, Displacement(w, h, ray).y)
  }

  /** The pixel of the ray after k steps. */
  function RayPixel(w: Size, h: Size, ray: nat, k: nat): Pixel
    requires ray < RayCount(w, h)
  {
    var v := Displacement(w, h, ray);
    var p := RayAt(v.x, v.y, k);
    Pixel(Light(w, h).x + p.x, Light(w, h).y + p.y)
  }

  /** Every pixel of a ray lies in the image, at distance k from the light after k steps. */
  lemma RayPixelInImage(w: Size, h: Size, ray: nat, k: nat)
    requires ray < RayCount(w, h) && k <= StepsOf(w, h, ray)
    ensures InImage(w, h, RayPixel(w, h, ray, k))
    ensures Ring(FromLight(w, h, RayPixel(w, h, ray, k))) == k
  {
    var v := Displacement(w, h, ray);
    RayStaysInBox(v.x, v.y, k);
  }

  // ---------------------------------------------------------------- which rays write a pixel

  /** The centre is written by ray 0 only; any other pixel by the rays that pass through it
      when the ray before them does not. */
  predicate Writes(w: Size, h: Size, ray: nat, p: Pixel) {
    ray < RayCount(w, h) &&
    if p == Light(w, h) then ray == 0
    else
      && Reaches(Displacement(w, h, ray), FromLight(w, h, p))
      && !Reaches(Displacement(w, h, Previous(w, h, ray)), FromLight(w, h, p))
  }

  /** The displacement p after s quarter turns, for s < 4. */
  function Turned(p: Pixel, s: nat): Pixel {
    if s == 0 then p
    else if s == 1 then Turn(p)
    else if s == 2 then Turn(Turn(p))
    else Turn(Turn(Turn(p)))
  }

  lemma TurningOnceKeepsReach(v: Pixel, p: Pixel)
    ensures Reaches(Turn(v), Turn(p)) == Reaches(v, p)
    ensures Ring(Turn(p)) == Ring(p)
  {
    RayTurns(v.x, v.y, Ring(p));
    assert Ring(Turn(p)) == Ring(p);
    assert RayAt(Turn(v).x, Turn(v).y, Ring(p)) == Turn(RayAt(v.x, v.y, Ring(p)));
    TurnIsInjective(RayAt(v.x, v.y, Ring(p)), p);
  }

  lemma TurnIsInjective(p: Pixel, q: Pixel)
    ensures Turn(p) == Turn(q) <==> p == q
  {
  }

  lemma TurningKeepsReach(v: Pixel, p: Pixel, s: nat)
    ensures Reaches(Turned(v, s), Turned(p, s)) == Reaches(v, p)
    ensures Ring(Turned(p, s)) == Ring(p)
  {
    TurningOnceKeepsReach(v, p);
    TurningOnceKeepsReach(Turn(v), Turn(p));
    TurningOnceKeepsReach(Turn(Turn(v)), Turn(Turn(p)));
  }

  /** The side of the ring that a displacement lies on: right, top, left or bottom. */
  function Side(p: Pixel): nat {
    var k := Ring(p);
    if p.x == k && 0 < p.y + k then 0
    else if p.y == k && p.x < k then 1
    else if 0 - p.x == k && p.y < k then 2
    else 3
  }

  lemma SideTurnsRight(p: Pixel)
    requires Ring(p) > 0
    ensures Side(p) < 4
    ensures Turned(p, Side(p)).x == Ring(p) && OnSide(Ring(p), Turned(p, Side(p)).y)
  {
  }

  // ---------------------------------------------------------------- the border, side by side

  /** The border as seen from side s. */
  function ArcOf(w: Size, h: Size, s: nat): Arc {
    var left, right := w / 2, w - 1 - w / 2;
    var down, up := h / 2, h - 1 - h / 2;
    if s == 0 then Arc(down, right, up)
    else if s == 1 then Arc(right, up, left)
    else if s == 2 then Arc(up, left, down)
    else Arc(left, down, right)
  }

  /** The number of the ray at which the arc of side s begins. */
  function ArcStart(w: Size, h: Size, s: nat): nat {
    var right, up := w - 1 - w / 2, h - 1 - h / 2;
    if s == 0 then w / 2
    else if s == 1 then w - 1 + h / 2
    else if s == 2 then w - 1 + h - 1 + right
    else 2 * (w - 1) + h - 1 + up
  }

  /** The number of ray t of the arc of side s. */
  function RayOfArc(w: Size, h: Size, s: nat, t: nat): nat
    requires t <= ArcLength(ArcOf(w, h, s))
  {
    var i := ArcStart(w, h, s) + t;
    if i < RayCount(w, h) then i else i - RayCount(w, h)
  }

  lemma ArcNumber(w: Size, h: Size, s: nat, t: nat)
    requires s < 4 && t <= ArcLength(ArcOf(w, h, s))
    ensures RayOfArc(w, h, s, t) < RayCount(w, h)
  {
  }

  lemma ArcOnRight(w: Size, h: Size, t: nat)
    requires t <= ArcLength(ArcOf(w, h, 0)) && RayOfArc(w, h, 0, t) < RayCount(w, h)
    ensures Displacement(w, h, RayOfArc(w, h, 0, t)) == ArcRay(ArcOf(w, h, 0), t)
  {
  }

  lemma ArcOnTop(w: Size, h: Size, t: nat)
    requires t <= ArcLength(ArcOf(w, h, 1)) && RayOfArc(w, h, 1, t) < RayCount(w, h)
    ensures Turned(Displacement(w, h, RayOfArc(w, h, 1, t)), 1) == ArcRay(ArcOf(w, h, 1), t)
  {
  }

  lemma ArcOnLeft(w: Size, h: Size, t: nat)
    requires t <= ArcLength(ArcOf(w, h, 2)) && RayOfArc(w, h, 2, t) < RayCount(w, h)
    ensures Turned(Displacement(w, h, RayOfArc(w, h, 2, t)), 2) == ArcRay(ArcOf(w, h, 2), t)
  {
  }

  lemma ArcOnBottom(w: Size, h: Size, t: nat)
    requires t <= ArcLength(ArcOf(w, h, 3)) && RayOfArc(w, h, 3, t) < RayCount(w, h)
    ensures Turned(Displacement(w, h, RayOfArc(w, h, 3, t)), 3) == ArcRay(ArcOf(w, h, 3), t)
  {
  }

  lemma ArcIsBorder(w: Size, h: Size, s: nat, t: nat)
    requires s < 4 && t <= ArcLength(ArcOf(w, h, s))
    ensures RayOfArc(w, h, s, t) < RayCount(w, h)
    ensures Turned(Displacement(w, h, RayOfArc(w, h, s, t)), s) == ArcRay(ArcOf(w, h, s), t)
  {
    ArcNumber(w, h, s, t);
    if s == 0 {
      ArcOnRight(w, h, t);
    } else if s == 1 {
      ArcOnTop(w, h, t);
    } else if s == 2 {
      ArcOnLeft(w, h, t);
    } else {
      ArcOnBottom(w, h, t);
    }
  }

  /** A ray that goes towards side s belongs to the arc of that side. */
  lemma RayIsOnArc(w: Size, h: Size, s: nat, ray: nat) returns (t: nat)
    requires s < 4 && ray < RayCount(w, h)
    requires Turned(Displacement(w, h, ray), s).x > 0
    ensures 1 <= t < ArcLength(ArcOf(w, h, s)) && RayOfArc(w, h, s, t) == ray
  {
    var start := ArcStart(w, h, s);
    t := if ray >= start then ray - start else ray + RayCount(w, h) - start;
  }

  // ---------------------------------------------------------------- every pixel is written once

  /** Seen from its side, a ray of the arc reaches pixel d when it hits it. */
  lemma ReachesIsHit(w: Size, h: Size, s: nat, t: nat, d: Pixel)
    requires Ring(d) > 0 && s == Side(d) && t <= ArcLength(ArcOf(w, h, s))
    ensures s < 4 && RayOfArc(w, h, s, t) < RayCount(w, h)
    ensures Reaches(Displacement(w, h, RayOfArc(w, h, s, t)), d) <==>
            Hit(ArcRay(ArcOf(w, h, s), t), Ring(d), Turned(d, s).y)
  {
    SideTurnsRight(d);
    ArcIsBorder(w, h, s, t);
    TurningKeepsReach(Displacement(w, h, RayOfArc(w, h, s, t)), d, s);
  }

  /** Ray t of the arc of side s passes through displacement d. */
  predicate ArcReaches(w: Size, h: Size, s: nat, t: nat, d: Pixel)
    requires s < 4 && t <= ArcLength(ArcOf(w, h, s))
  {
    RayOfArc(w, h, s, t) < RayCount(w, h) && Reaches(Displacement(w, h, RayOfArc(w, h, s, t)), d)
  }

  /** Off the centre, a ray of the arc writes the pixel when it reaches it and the one before does not. */
  lemma WriterReachesFirst(w: Size, h: Size, s: nat, t: nat, p: Pixel)
    requires p != Light(w, h) && s < 4 && 1 <= t < ArcLength(ArcOf(w, h, s))
    ensures Writes(w, h, RayOfArc(w, h, s, t), p)
            <==> ArcReaches(w, h, s, t, FromLight(w, h, p)) && !ArcReaches(w, h, s, t - 1, FromLight(w, h, p))
  {
    PreviousOnArc(w, h, s, t);
    ArcIsBorder(w, h, s, t);
    ArcIsBorder(w, h, s, t - 1);
    WritesOffCentre(w, h, RayOfArc(w, h, s, t), RayOfArc(w, h, s, t - 1), p);
  }

  /** Seen from its side, ray t of the arc hits the pixel. */
  predicate ArcHits(w: Size, h: Size, s: nat, t: nat, d: Pixel) {
    Hit(ArcRay(ArcOf(w, h, s), t), Ring(d), Turned(d, s).y)
  }

  lemma ReachingIsHitting(w: Size, h: Size, s: nat, d: Pixel)
    requires Ring(d) > 0 && s == Side(d) && s < 4
    ensures forall t: nat :: t <= ArcLength(ArcOf(w, h, s)) ==> ArcReaches(w, h, s, t, d) == ArcHits(w, h, s, t, d)
  {
    forall t: nat | t <= ArcLength(ArcOf(w, h, s))
      ensures ArcReaches(w, h, s, t, d) == ArcHits(w, h, s, t, d)
    {
      ReachesIsHit(w, h, s, t, d);
    }
  }

  lemma ReachesFirstIsHitsFirst(w: Size, h: Size, s: nat, t: nat, d: Pixel)
    requires s < 4 && 1 <= t < ArcLength(ArcOf(w, h, s))
    requires ArcReaches(w, h, s, t, d) == ArcHits(w, h, s, t, d)
    requires ArcReaches(w, h, s, t - 1, d) == ArcHits(w, h, s, t - 1, d)
    ensures ArcReaches(w, h, s, t, d) && !ArcReaches(w, h, s, t - 1, d)
            <==> Starts(ArcOf(w, h, s), t, Ring(d), Turned(d, s).y)
  {
  }

  /** Off the centre, the rays that write a pixel are the rays that start its run. */
  lemma WritersStartRuns(w: Size, h: Size, s: nat, t: nat, p: Pixel)
    requires p != Light(w, h)
    requires s == Side(FromLight(w, h, p)) && 1 <= t < ArcLength(ArcOf(w, h, s))
    ensures var d := FromLight(w, h, p);
      Writes(w, h, RayOfArc(w, h, s, t), p) <==> Starts(ArcOf(w, h, s), t, Ring(d), Turned(d, s).y)
  {
    var d := FromLight(w, h, p);
    LightIsCentre(w, h, p);
    SideTurnsRight(d);
    WriterReachesFirst(w, h, s, t, p);
    ReachingIsHitting(w, h, s, d);
    ReachesFirstIsHitsFirst(w, h, s, t, d);
  }

  lemma WritesOffCentre(w: Size, h: Size, ray: nat, prev: nat, p: Pixel)
    requires p != Light(w, h) && ray < RayCount(w, h) && prev == Previous(w, h, ray)
    ensures Writes(w, h, ray, p) <==>
            Reaches(Displacement(w, h, ray), FromLight(w, h, p)) && !Reaches(Displacement(w, h, prev), FromLight(w, h, p))
  {
  }

  lemma LightIsCentre(w: Size, h: Size, p: Pixel)
    ensures Ring(FromLight(w, h, p)) == 0 <==> p == Light(w, h)
  {
  }

  lemma PreviousOnArc(w: Size, h: Size, s: nat, t: nat)
    requires s < 4 && 1 <= t <= ArcLength(ArcOf(w, h, s))
    ensures RayOfArc(w, h, s, t - 1) == Previous(w, h, RayOfArc(w, h, s, t))
  {
  }

  /** The pixel p lies within the part of the border that the arc of its side spans. */
  lemma PixelInArc(w: Size, h: Size, p: Pixel)
    requires InImage(w, h, p) && p != Light(w, h)
    ensures var d := FromLight(w, h, p); var s := Side(d); var a, r := ArcOf(w, h, s), Turned(d, s);
      s < 4 && Ring(d) > 0 && Ring(d) <= a.ahead && 0 - a.before <= r.y <= a.after
  {
    LightIsCentre(w, h, p);
    SideTurnsRight(FromLight(w, h, p));
  }

  /** Some ray writes the pixel. */
  lemma SomeRayWrites(w: Size, h: Size, p: Pixel) returns (ray: nat)
    requires InImage(w, h, p)
    ensures ray < RayCount(w, h) && Writes(w, h, ray, p)
  {
    if p == Light(w, h) {
      ray := 0;
    } else {
      var d := FromLight(w, h, p);
      var s := Side(d);
      var a, r := ArcOf(w, h, s), Turned(d, s);
      PixelInArc(w, h, p);
      SideTurnsRight(d);
      var t := SomeRayStarts(a, Ring(d), r.y);
      WritersStartRuns(w, h, s, t, p);
      ArcIsBorder(w, h, s, t);
      ray := RayOfArc(w, h, s, t);
    }
  }

  /** A ray that writes a pixel is one of the arc of the pixel's side. */
  lemma WriterIsOnArc(w: Size, h: Size, p: Pixel, ray: nat) returns (t: nat)
    requires InImage(w, h, p) && p != Light(w, h) && Writes(w, h, ray, p)
    ensures var s := Side(FromLight(w, h, p));
      1 <= t < ArcLength(ArcOf(w, h, s)) && RayOfArc(w, h, s, t) == ray
  {
    var d := FromLight(w, h, p);
    var s := Side(d);
    var v := Displacement(w, h, ray);
    PixelInArc(w, h, p);
    SideTurnsRight(d);
    TurningKeepsReach(v, d, s);
    HitIffInCone(Turned(v, s), Ring(d), Turned(d, s).y);
    t := RayIsOnArc(w, h, s, ray);
  }

  /** No two rays write the same pixel. */
  lemma AtMostOneRayWrites(w: Size, h: Size, p: Pixel, i: nat, j: nat)
    requires InImage(w, h, p) && Writes(w, h, i, p) && Writes(w, h, j, p)
    ensures i == j
  {
    if p != Light(w, h) {
      var d := FromLight(w, h, p);
      var s := Side(d);
      var t := WriterIsOnArc(w, h, p, i);
      var u := WriterIsOnArc(w, h, p, j);
      WritersStartRuns(w, h, s, t, p);
      WritersStartRuns(w, h, s, u, p);
      PixelInArc(w, h, p);
      SideTurnsRight(d);
      var r := Turned(d, s);
      AtMostOneStart(ArcOf(w, h, s), t, u, Ring(d), r.y);
    }
  }

  /** How many of the numbers lo, ..., hi - 1 satisfy f. */
  function Count(f: nat -> bool, lo: nat, hi: nat): nat
    decreases hi
  {
    if lo >= hi then 0 else Count(f, lo, hi - 1) + (if f(hi - 1) then 1 else 0)
  }

  lemma {:induction false} CountOfOne(f: nat -> bool, hi: nat, one: nat)
    requires forall i: nat :: f(i) <==> i == one
    ensures Count(f, 0, hi) == if one < hi then 1 else 0
    decreases hi
  {
    if hi > 0 {
      CountOfOne(f, hi - 1, one);
    }
  }

  lemma {:induction false} CountSplits(f: nat -> bool, lo: nat, mid: nat, hi: nat)
    requires lo <= mid <= hi
    ensures Count(f, lo, hi) == Count(f, lo, mid) + Count(f, mid, hi)
    decreases hi
  {
    if mid < hi {
      CountSplits(f, lo, mid, hi - 1);
    }
  }

  /** The rays that write pixel p. */
  function WritersOf(w: Size, h: Size, p: Pixel): nat -> bool {
    (ray: nat) => Writes(w, h, ray, p)
  }

  /** No two rays write the same pixel, and some ray does. */
  lemma OneRayWrites(w: Size, h: Size, p: Pixel) returns (ray: nat)
    requires InImage(w, h, p)
    ensures ray < RayCount(w, h)
    ensures forall i: nat :: WritersOf(w, h, p)(i) <==> i == ray
  {
    ray := SomeRayWrites(w, h, p);
    forall i: nat
      ensures WritersOf(w, h, p)(i) <==> i == ray
    {
      OnlyOneRayWrites(w, h, p, i, ray);
    }
  }

  lemma OnlyOneRayWrites(w: Size, h: Size, p: Pixel, i: nat, ray: nat)
    requires InImage(w, h, p) && Writes(w, h, ray, p)
    ensures Writes(w, h, i, p) <==> i == ray
  {
    if Writes(w, h, i, p) {
      AtMostOneRayWrites(w, h, p, i, ray);
    }
  }

  /** Over all rays, and any larger number of ray numbers, every pixel is written exactly once. */
  lemma EveryPixelWrittenOnce(w: Size, h: Size, rays: nat, p: Pixel)
    requires InImage(w, h, p) && rays >= RayCount(w, h)
    ensures Count(WritersOf(w, h, p), 0, rays) == 1
  {
    var ray := OneRayWrites(w, h, p);
    CountOfOne(WritersOf(w, h, p), rays, ray);
  }
}
