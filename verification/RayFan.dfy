/**
 The geometry of the fan of rays of opencl/intel/GodRays/GodRaysNative.cpp: which rays
 pass through a pixel, and why the consecutive rays that do form one run.

 Everything here is relative to the light, and seen from one of the four sides of the
 image, turned so that the side lies to the right.
 */
module RayFan {
  import opened Bresenham

  /** The border seen from the light: how far it is clockwise of the side, ahead, and
      counterclockwise of it. */
  datatype Arc = Arc(before: nat, ahead: nat, after: nat)

  function ArcLength(a: Arc): nat { 2 * a.ahead + a.before + a.after }

  /** Border pixels in counterclockwise order, from straight "below" the light to straight "above". */
  function ArcRay(a: Arc, t: nat): Pixel {
    if t <= a.ahead then Pixel(t, 0 - a.before)
    else if t <= a.ahead + a.before + a.after then Pixel(a.ahead, t - a.ahead - a.before)
    else Pixel(ArcLength(a) - t, a.after)
  }

  /** (k, q) belongs to the right side of ring k: its upper corner does, its lower corner does not. */
  predicate OnSide(k: nat, q: int) {
    k >= 1 && 0 < q + k && q <= k
  }

  /** The ray to v reaches pixel (k, q) of the right side of ring k. */
  predicate Hit(v: Pixel, k: nat, q: int) {
    Reaches(v, Pixel(k, q))
  }

  // ---------------------------------------------------------------- the cone of a pixel

  /** v is not clockwise of the directions that round to (k, q). */
  predicate Lower(v: Pixel, k: nat, q: int) {
    NotClockwise(v.x, q, k * v.y, q * v.x)
  }

  predicate NotClockwise(x: int, q: int, ky: int, qx: int) {
    if q > 0 then 2 * ky >= 2 * qx - x else 2 * ky > 2 * qx - x
  }

  /** v is not counterclockwise of the directions that round to (k, q). */
  predicate Upper(v: Pixel, k: nat, q: int) {
    NotCounterclockwise(v.x, v.y, k, q, k * v.y, k * v.x, q * v.x)
  }

  predicate NotCounterclockwise(x: int, y: int, k: nat, q: int, ky: int, kx: int, qx: int) {
    if q == k then 2 * ky - y <= 2 * kx
    else if q >= 0 then 2 * ky < 2 * qx + x
    else 2 * ky <= 2 * qx + x
  }

  lemma MulSign(a: int, b: int)
    requires b > 0
    ensures a >= 0 ==> a * b >= 0
    ensures a <= 0 ==> a * b <= 0
    ensures a > 0 ==> a * b >= b && a * b >= a
    ensures a < 0 ==> a * b <= 0 - b && a * b <= a
  {
    if a > 0 {
      MulAtLeast(a, b);
      MulAtLeast(b, a);
    } else if a < 0 {
      var c := 0 - a;
      MulAtLeast(c, b);
      MulAtLeast(b, c);
      assert a * b == 0 - c * b;
    }
  }

  /** A ray with x as its longer axis: rounding to q is lying in the cone of (k, q). */
  lemma ConeOfShallowRay(x: int, y: int, k: nat, q: int)
    requires x > 0 && Abs(y) <= x && OnSide(k, q)
    ensures RayAt(x, y, k) == Pixel(k, q) <==> Lower(Pixel(x, y), k, q) && Upper(Pixel(x, y), k, q)
  {
    var n := Walk(Abs(y), x, k).minor;
    WalkIsNearest(Abs(y), x, k);
    SignedProducts(x, y, k, q);
    AbsProduct(k, y);
    if Signed(y, n) == q {
      AbsProduct(x, q);
      ShallowRayInCone(x, y, k, q, n, k * y, k * x, q * x);
    }
    if Lower(Pixel(x, y), k, q) && Upper(Pixel(x, y), k, q) {
      AbsProduct(x, q);
      ShallowConeRounds(x, y, k, q, k * y, k * x, q * x);
      NearestIsUnique(x, 2 * (Abs(y) * k), n, Abs(q));
    }
  }

  lemma AbsProduct(a: nat, b: int)
    ensures a * Abs(b) == Abs(a * b)
  {
    if b < 0 {
      assert a * b == 0 - a * (0 - b);
      if a > 0 { MulSign(b, a); }
    } else if a > 0 {
      MulSign(b, a);
    }
  }

  lemma SignedProducts(x: int, y: int, k: nat, q: int)
    requires x > 0 && OnSide(k, q)
    ensures Products(x, y, k, q, k * y, k * x, q * x)
    ensures y <= x ==> k * y <= k * x
    ensures k * x >= 0
  {
    MulSign(x, k);
    MulSign(y, k);
    MulSign(q, x);
    if y <= x { MulLess(y, x, k); }
  }

  /** The signs and bounds of the products in the cone conditions. */
  predicate Products(x: int, y: int, k: nat, q: int, ky: int, kx: int, qx: int) {
    && (y > 0 ==> ky >= k) && (y == 0 ==> ky == 0) && (y < 0 ==> ky <= y)
    && (q > 0 ==> qx >= x) && (q == 0 ==> qx == 0) && (q < 0 ==> qx <= 0 - x)
    && (q == k ==> qx == kx)
  }

  lemma ShallowRayInCone(x: int, y: int, k: nat, q: int, n: nat, ky: int, kx: int, qx: int)
    requires x > 0 && Abs(y) <= x && OnSide(k, q) && Signed(y, n) == q
    requires Products(x, y, k, q, ky, kx, qx) && ky <= kx
    requires 2 * Abs(qx) - x <= 2 * Abs(ky) < 2 * Abs(qx) + x
    ensures NotClockwise(x, q, ky, qx) && NotCounterclockwise(x, y, k, q, ky, kx, qx)
  {
  }

  lemma ShallowConeRounds(x: int, y: int, k: nat, q: int, ky: int, kx: int, qx: int)
    requires x > 0 && Abs(y) <= x && OnSide(k, q)
    requires Products(x, y, k, q, ky, kx, qx) && ky <= kx
    requires NotClockwise(x, q, ky, qx) && NotCounterclockwise(x, y, k, q, ky, kx, qx)
    ensures Signed(y, Abs(q)) == q
    ensures 2 * Abs(qx) - x <= 2 * Abs(ky) < 2 * Abs(qx) + x
  {
  }

  /** A ray with y as its longer axis meets the right side of ring k in its upper corner only. */
  lemma ConeOfSteepRay(x: int, y: int, k: nat, q: int)
    requires x > 0 && Abs(y) > x && OnSide(k, q)
    ensures RayAt(x, y, k) == Pixel(k, q) <==> Lower(Pixel(x, y), k, q) && Upper(Pixel(x, y), k, q)
  {
    if y > 0 && q == k {
      var n := Walk(x, y, k).minor;
      WalkIsNearest(x, y, k);
      SteepCorner(x, y, k, n);
    } else if y > 0 {
      SteepUpIsBeyond(x, y, k, q);
    } else {
      SteepDownIsBeyond(x, y, k, q);
    }
  }

  lemma SteepUpIsBeyond(x: int, y: int, k: nat, q: int)
    requires 0 < x < y && OnSide(k, q) && q < k
    ensures !Upper(Pixel(x, y), k, q)
  {
    MulLess(x + 1, y, k);
    assert k * (x + 1) == k * x + k;
    MulLess(q + 1, k, x);
    assert x * (q + 1) == q * x + x;
  }

  lemma SteepDownIsBeyond(x: int, y: int, k: nat, q: int)
    requires 0 < x < 0 - y && OnSide(k, q)
    ensures !Lower(Pixel(x, y), k, q)
  {
    var z := 0 - y;
    MulLess(x + 1, z, k);
    assert k * (x + 1) == k * x + k;
    assert k * y == 0 - k * z;
    MulLess(1 - q, k, x);
    assert x * (1 - q) == x - q * x;
  }

  lemma SteepCorner(x: int, y: int, k: nat, n: nat)
    requires 0 < x < y && k >= 1
    requires 2 * (y * n) - y <= 2 * (x * k) < 2 * (y * n) + y
    ensures n == k <==> Lower(Pixel(x, y), k, k) && Upper(Pixel(x, y), k, k)
  {
    MulLess(x, y, k);
    assert k * x == x * k && k * y == y * k;
    if 2 * (k * y) - y <= 2 * (k * x) {
      NearestIsUnique(y, 2 * (x * k), n, k);
    }
  }

  lemma AtPixelIffInCone(v: Pixel, k: nat, q: int)
    requires OnSide(k, q)
    ensures RayAt(v.x, v.y, k) == Pixel(k, q) <==> v.x > 0 && Lower(v, k, q) && Upper(v, k, q)
  {
    if v.x > 0 {
      if Abs(v.y) <= v.x {
        ConeOfShallowRay(v.x, v.y, k, q);
      } else {
        ConeOfSteepRay(v.x, v.y, k, q);
      }
    }
  }

  /** A ray hits a pixel exactly when it is long enough and its direction lies in the pixel's cone. */
  lemma HitIffInCone(v: Pixel, k: nat, q: int)
    requires OnSide(k, q)
    ensures Hit(v, k, q) <==> Steps(v.x, v.y) >= k && v.x > 0 && Lower(v, k, q) && Upper(v, k, q)
  {
    AtPixelIffInCone(v, k, q);
  }

  // ---------------------------------------------------------------- along the border

  /** Going counterclockwise along the border, rays leave the clockwise side of a cone for
      good, and enter its counterclockwise side for good. */
  lemma ConeMonotone(a: Arc, t: nat, k: nat, q: int)
    requires OnSide(k, q) && a.ahead > 0
    requires 1 <= t && t + 1 < ArcLength(a)
    ensures Lower(ArcRay(a, t), k, q) ==> Lower(ArcRay(a, t + 1), k, q)
    ensures Upper(ArcRay(a, t + 1), k, q) ==> Upper(ArcRay(a, t), k, q)
  {
    if t < a.ahead {
      MonotoneBelow(a.before, t, k, q);
    } else if t < a.ahead + a.before + a.after {
      MonotoneAhead(a.ahead, t - a.ahead - a.before, k, q);
    } else {
      MonotoneAbove(ArcLength(a) - t - 1, a.after, k, q);
    }
  }

  lemma MonotoneBelow(before: nat, t: nat, k: nat, q: int)
    requires OnSide(k, q) && t > 0
    ensures Lower(Pixel(t, 0 - before), k, q) ==> Lower(Pixel(t + 1, 0 - before), k, q)
    ensures Upper(Pixel(t + 1, 0 - before), k, q) ==> Upper(Pixel(t, 0 - before), k, q)
  {
    assert q * (t + 1) == q * t + q;
    assert k * (t + 1) == k * t + k;
    SignedProducts(t, 0 - before, k, q);
    BelowIsLinear(before, t, k, q, k * (0 - before), k * t, q * t);
  }

  lemma BelowIsLinear(before: nat, t: nat, k: nat, q: int, ky: int, kx: int, qx: int)
    requires OnSide(k, q) && t > 0 && kx >= 0 && Products(t, 0 - before, k, q, ky, kx, qx)
    ensures NotClockwise(t, q, ky, qx) ==> NotClockwise(t + 1, q, ky, qx + q)
    ensures NotCounterclockwise(t + 1, 0 - before, k, q, ky, kx + k, qx + q) ==>
            NotCounterclockwise(t, 0 - before, k, q, ky, kx, qx)
  {
  }

  lemma MonotoneAhead(x: nat, y: int, k: nat, q: int)
    requires OnSide(k, q) && x > 0
    ensures Lower(Pixel(x, y), k, q) ==> Lower(Pixel(x, y + 1), k, q)
    ensures Upper(Pixel(x, y + 1), k, q) ==> Upper(Pixel(x, y), k, q)
  {
    assert k * (y + 1) == k * y + k;
  }

  lemma MonotoneAbove(x: nat, after: nat, k: nat, q: int)
    requires OnSide(k, q) && x > 0
    ensures Lower(Pixel(x + 1, after), k, q) ==> Lower(Pixel(x, after), k, q)
    ensures Upper(Pixel(x, after), k, q) ==> Upper(Pixel(x + 1, after), k, q)
  {
    MulSign(after, k);
    MulSign(q, x);
    assert q * (x + 1) == q * x + q;
    assert k * (x + 1) == k * x + k;
  }

  lemma {:induction false} LowerPersists(a: Arc, i: nat, j: nat, k: nat, q: int)
    requires OnSide(k, q) && a.ahead > 0
    requires 1 <= i <= j < ArcLength(a) && Lower(ArcRay(a, i), k, q)
    ensures Lower(ArcRay(a, j), k, q)
    decreases j
  {
    if i < j {
      LowerPersists(a, i, j - 1, k, q);
      ConeMonotone(a, j - 1, k, q);
    }
  }

  /** Ray t hits the pixel and the ray before it does not. */
  predicate Starts(a: Arc, t: nat, k: nat, q: int) {
    1 <= t < ArcLength(a) && Hit(ArcRay(a, t), k, q) && !Hit(ArcRay(a, t - 1), k, q)
  }

  /** The rays that hit a pixel form a single run: at most one of them is the first of a run. */
  lemma AtMostOneStart(a: Arc, i: nat, j: nat, k: nat, q: int)
    requires OnSide(k, q) && k <= a.ahead
    requires Starts(a, i, k, q) && Starts(a, j, k, q)
    ensures i == j
  {
    if i < j {
      LaterHitFollowsHit(a, i, j, k, q);
    } else if j < i {
      LaterHitFollowsHit(a, j, i, k, q);
    }
  }

  /** After the first ray of a run, a ray that hits follows one that hits. */
  lemma LaterHitFollowsHit(a: Arc, i: nat, j: nat, k: nat, q: int)
    requires OnSide(k, q) && k <= a.ahead
    requires 1 <= i < j < ArcLength(a) && Hit(ArcRay(a, i), k, q) && Hit(ArcRay(a, j), k, q)
    ensures Hit(ArcRay(a, j - 1), k, q)
  {
    HitIffInCone(ArcRay(a, i), k, q);
    HitIffInCone(ArcRay(a, j), k, q);
    LowerPersists(a, i, j - 1, k, q);
    ConeMonotone(a, j - 1, k, q);
    HitIffInCone(ArcRay(a, j - 1), k, q);
    LongEnough(a, i, j, k);
  }

  /** Between two rays that are long enough for ring k, all rays are. */
  lemma LongEnough(a: Arc, i: nat, j: nat, k: nat)
    requires 1 <= i < j < ArcLength(a) && 1 <= k <= a.ahead
    requires Steps(ArcRay(a, i).x, ArcRay(a, i).y) >= k && Steps(ArcRay(a, j).x, ArcRay(a, j).y) >= k
    ensures ArcRay(a, j - 1).x > 0 && Steps(ArcRay(a, j - 1).x, ArcRay(a, j - 1).y) >= k
  {
  }

  /** The first ray past the clockwise side of a pixel's cone is not yet past the other side. */
  lemma FirstInCone(a: Arc, t: nat, k: nat, q: int)
    requires OnSide(k, q) && k <= a.ahead && 0 - a.before <= q <= a.after
    requires k <= t <= ArcLength(a) - k
    requires Lower(ArcRay(a, t), k, q) && (t == k || !Lower(ArcRay(a, t - 1), k, q))
    ensures Upper(ArcRay(a, t), k, q)
  {
    var v := ArcRay(a, t);
    MulSign(v.y, k);
    MulSign(q, v.x);
    if t == k {
      FirstInConeAtRing(a, k, q);
    } else if t <= a.ahead {
      FirstInConeBelow(a.before, t, k, q);
    } else if t <= a.ahead + a.before + a.after {
      FirstInConeAhead(a.ahead, v.y, k, q);
    } else {
      FirstInConeAbove(v.x, a.after, k, q);
    }
  }

  lemma FirstInConeAtRing(a: Arc, k: nat, q: int)
    requires OnSide(k, q) && k <= a.ahead && 0 - a.before <= q
    requires Lower(Pixel(k, 0 - a.before), k, q)
    ensures Upper(Pixel(k, 0 - a.before), k, q)
  {
    MulLess(0 - a.before, q, k);
    MulSign(q, k);
    MulSign(a.before, k);
  }

  lemma FirstInConeBelow(before: nat, t: nat, k: nat, q: int)
    requires OnSide(k, q) && k < t
    requires Lower(Pixel(t, 0 - before), k, q) && !Lower(Pixel(t - 1, 0 - before), k, q)
    ensures Upper(Pixel(t, 0 - before), k, q)
  {
    MulSign(before, k);
    MulSign(q, t);
    assert q * (t - 1) == q * t - q;
  }

  lemma FirstInConeAhead(ahead: nat, y: int, k: nat, q: int)
    requires OnSide(k, q) && k <= ahead
    requires Lower(Pixel(ahead, y), k, q) && !Lower(Pixel(ahead, y - 1), k, q)
    ensures Upper(Pixel(ahead, y), k, q)
  {
    assert k * (y - 1) == k * y - k;
    MulSign(q, ahead);
    MulSign(y, k);
    MulSign(y - 1, k);
    if q == k {
      CornerAhead(ahead, y, k);
    }
  }

  lemma CornerAhead(ahead: nat, y: int, k: nat)
    requires 1 <= k <= ahead && 2 * (k * y) - 2 * k < 2 * (k * ahead) - ahead
    ensures 2 * (k * y) - y <= 2 * (k * ahead)
  {
    assert k * (ahead + 1) == k * ahead + k;
    if y > ahead {
      MulLess(ahead + 1, y, k);
      assert false;
    }
    MulLess(y, ahead, k);
    if y < 0 {
      MulSign(y, k);
      MulSign(k, ahead);
    }
  }

  lemma FirstInConeAbove(x: nat, after: nat, k: nat, q: int)
    requires OnSide(k, q) && k <= x && q <= after
    requires Lower(Pixel(x, after), k, q) && !Lower(Pixel(x + 1, after), k, q)
    ensures Upper(Pixel(x, after), k, q)
  {
    MulSuccessor(q, x);
    SignedProducts(x, after, k, q);
    AboveIsLinear(x, after, k, q, k * after, k * x, q * x, q * (x + 1));
  }

  lemma MulSuccessor(a: int, b: int)
    ensures a * (b + 1) == a * b + a
  {
  }

  lemma AboveIsLinear(x: nat, after: nat, k: nat, q: int, ky: int, kx: int, qx: int, qx': int)
    requires OnSide(k, q) && k <= x && q <= after && qx' == qx + q
    requires Products(x, after, k, q, ky, kx, qx)
    requires NotClockwise(x, q, ky, qx) && !NotClockwise(x + 1, q, ky, qx')
    ensures NotCounterclockwise(x, after, k, q, ky, kx, qx)
  {
  }

  /** Some ray hits the pixel, if the pixel lies in the image. */
  lemma {:induction false} SomeRayHits(a: Arc, t: nat, k: nat, q: int) returns (hit: nat)
    requires OnSide(k, q) && k <= a.ahead && 0 - a.before <= q <= a.after
    requires k <= t <= ArcLength(a) - k && (t == k || !Lower(ArcRay(a, t - 1), k, q))
    ensures 1 <= hit < ArcLength(a) && Hit(ArcRay(a, hit), k, q)
    decreases ArcLength(a) - t
  {
    if Lower(ArcRay(a, t), k, q) {
      FirstInCone(a, t, k, q);
      HitIffInCone(ArcRay(a, t), k, q);
      hit := t;
    } else {
      if t == ArcLength(a) - k {
        LastRayIsPastLower(a, k, q);
      }
      hit := SomeRayHits(a, t + 1, k, q);
    }
  }

  lemma LastRayIsPastLower(a: Arc, k: nat, q: int)
    requires OnSide(k, q) && k <= a.ahead && q <= a.after
    ensures Lower(ArcRay(a, ArcLength(a) - k), k, q)
  {
    assert ArcRay(a, ArcLength(a) - k) == Pixel(k, a.after);
    MulLess(q, a.after, k);
    assert q * k == k * q;
  }

  /** The first ray of the run that contains a ray that hits. */
  lemma {:induction false} RunHasStart(a: Arc, t: nat, k: nat, q: int) returns (start: nat)
    requires OnSide(k, q)
    requires 1 <= t < ArcLength(a) && Hit(ArcRay(a, t), k, q)
    ensures Starts(a, start, k, q)
    decreases t
  {
    if !Hit(ArcRay(a, t - 1), k, q) {
      start := t;
    } else {
      HitIffInCone(ArcRay(a, t - 1), k, q);
      start := RunHasStart(a, t - 1, k, q);
    }
  }

  lemma SomeRayStarts(a: Arc, k: nat, q: int) returns (start: nat)
    requires OnSide(k, q) && k <= a.ahead && 0 - a.before <= q <= a.after
    ensures Starts(a, start, k, q)
  {
    var hit := SomeRayHits(a, k, k, q);
    start := RunHasStart(a, hit, k, q);
  }
}
