/**
 DrawLine and DrawPixel of opencl/intel/MotionEstimation/main.cpp: a line that starts from
 its end with the smaller coordinate on the longer axis, clipped pixel by pixel.
 */
module DrawLine {
  import opened Bresenham
  import opened Raster

  // ---------------------------------------------------------------- the walk

  /** Steps made along the shorter axis, and the error, after some steps along the longer one. */
  datatype Trace = Trace(minor: nat, error: int)

  function TraceStep(s: Trace, nDeltaX: nat, nDeltaY: nat): Trace {
    if s.error - nDeltaY < 0 then Trace(s.minor + 1, s.error - nDeltaY + nDeltaX)
    else Trace(s.minor, s.error - nDeltaY)
  }

  function TraceAt(nDeltaX: nat, nDeltaY: nat, k: nat): Trace {
    if k == 0 then Trace(0, nDeltaX / 2) else TraceStep(TraceAt(nDeltaX, nDeltaY, k - 1), nDeltaX, nDeltaY)
  }

  /** The error says how far the walk is from the ideal line. */
  predicate ErrorHolds(s: Trace, nDeltaX: nat, nDeltaY: nat, k: nat) {
    && s.error == nDeltaX / 2 - nDeltaY * k + nDeltaX * s.minor
    && (nDeltaX > 0 ==> 0 <= s.error < nDeltaX)
  }

  lemma {:induction false} TraceError(nDeltaX: nat, nDeltaY: nat, k: nat)
    requires nDeltaY <= nDeltaX
    ensures ErrorHolds(TraceAt(nDeltaX, nDeltaY, k), nDeltaX, nDeltaY, k)
  {
    if k > 0 {
      TraceError(nDeltaX, nDeltaY, k - 1);
      var s := TraceAt(nDeltaX, nDeltaY, k - 1);
      assert nDeltaY * k == nDeltaY * (k - 1) + nDeltaY;
      assert nDeltaX * (s.minor + 1) == nDeltaX * s.minor + nDeltaX;
    }
  }

  /** The walk ends level with its end point. */
  lemma TraceEnds(nDeltaX: nat, nDeltaY: nat)
    requires nDeltaY <= nDeltaX
    ensures TraceAt(nDeltaX, nDeltaY, nDeltaX).minor == nDeltaY
  {
    TraceError(nDeltaX, nDeltaY, nDeltaX);
    var q := TraceAt(nDeltaX, nDeltaY, nDeltaX).minor;
    assert nDeltaY * nDeltaX == nDeltaX * nDeltaY;
    if nDeltaX > 0 {
      if q < nDeltaY {
        MultiplesApart(nDeltaX, q, nDeltaY);
      } else if nDeltaY < q {
        MultiplesApart(nDeltaX, nDeltaY, q);
      }
    }
  }

  // ---------------------------------------------------------------- the line

  /** What the code's swaps come to: the start of the walk in swapped axes, and its lengths. */
  datatype Plan = Plan(steep: bool, x0: int, y0: int, x1: int, y1: int)

  function Normalized(x0: int, y0: int, dx: int, dy: int): (p: Plan)
    ensures p.x0 <= p.x1
    ensures Abs(p.y1 - p.y0) <= p.x1 - p.x0
  {
    var x1, y1 := x0 + dx, y0 + dy;
    var steep := Abs(dy) > Abs(dx);
    var (a0, b0, a1, b1) := if steep then (y0, x0, y1, x1) else (x0, y0, x1, y1);
    if a0 > a1 then Plan(steep, a1, b1, a0, b0) else Plan(steep, a0, b0, a1, b1)
  }

  function DeltaX(p: Plan): nat
    requires p.x0 <= p.x1
  {
    p.x1 - p.x0
  }

  /** v steps of nYStep. */
  function Steps(p: Plan, v: int): int { if p.y0 < p.y1 then v else 0 - v }

  function Unswapped(p: Plan, x: int, y: int): Pixel { if p.steep then Pixel(y, x) else Pixel(x, y) }

  /** The pixel drawn k steps along the longer axis. */
  function PointAt(p: Plan, k: nat): Pixel
    requires p.x0 <= p.x1
  {
    Unswapped(p, p.x0 + k, p.y0 + Steps(p, TraceAt(DeltaX(p), Abs(p.y1 - p.y0), k).minor))
  }

  function Points(x0: int, y0: int, dx: int, dy: int): seq<Pixel> {
    var p := Normalized(x0, y0, dx, dy);
    seq(DeltaX(p) + 1, k requires 0 <= k => PointAt(p, k))
  }

  function Longer(dx: int, dy: int): nat { if Abs(dy) > Abs(dx) then Abs(dy) else Abs(dx) }

  /** Drawn from the other end, the line is the same. */
  lemma DrawnFromEitherEnd(x0: int, y0: int, dx: int, dy: int)
    ensures Points(x0 + dx, y0 + dy, 0 - dx, 0 - dy) == Points(x0, y0, dx, dy)
  {
    assert Normalized(x0 + dx, y0 + dy, 0 - dx, 0 - dy) == Normalized(x0, y0, dx, dy);
  }

  lemma LevelWithEnd(p: Plan, q: nat)
    requires q == Abs(p.y1 - p.y0)
    ensures p.y0 + Steps(p, q) == p.y1
  {
  }

  lemma PlanStops(p: Plan)
    requires p.x0 <= p.x1 && Abs(p.y1 - p.y0) <= p.x1 - p.x0
    ensures PointAt(p, DeltaX(p)) == Unswapped(p, p.x1, p.y1)
  {
    var n, m := DeltaX(p), Abs(p.y1 - p.y0);
    TraceEnds(n, m);
    LevelWithEnd(p, TraceAt(n, m, n).minor);
  }

  /** The walk starts at one end of the plan and stops at the other. */
  lemma PlanEnds(p: Plan)
    requires p.x0 <= p.x1 && Abs(p.y1 - p.y0) <= p.x1 - p.x0
    ensures PointAt(p, 0) == Unswapped(p, p.x0, p.y0)
    ensures PointAt(p, DeltaX(p)) == Unswapped(p, p.x1, p.y1)
  {
    PlanStops(p);
    LevelWithStart(p);
  }

  lemma LevelWithStart(p: Plan)
    requires p.x0 <= p.x1
    ensures PointAt(p, 0) == Unswapped(p, p.x0, p.y0)
  {
  }

  /** The plan's ends are those of the line, in one order or the other. */
  lemma PlanIsLine(x0: int, y0: int, dx: int, dy: int)
    ensures var p := Normalized(x0, y0, dx, dy);
      var a, b := Unswapped(p, p.x0, p.y0), Unswapped(p, p.x1, p.y1);
      && DeltaX(p) == Longer(dx, dy)
      && ((a == Pixel(x0, y0) && b == Pixel(x0 + dx, y0 + dy)) || (a == Pixel(x0 + dx, y0 + dy) && b == Pixel(x0, y0)))
  {
  }

  /** One pixel for each step of the longer axis, from one end to the other. */
  lemma LineEnds(x0: int, y0: int, dx: int, dy: int)
    ensures var s := Points(x0, y0, dx, dy);
      && |s| == Longer(dx, dy) + 1
      && ((s[0] == Pixel(x0, y0) && s[|s| - 1] == Pixel(x0 + dx, y0 + dy))
          || (s[0] == Pixel(x0 + dx, y0 + dy) && s[|s| - 1] == Pixel(x0, y0)))
  {
    PlanIsLine(x0, y0, dx, dy);
    PlanEnds(Normalized(x0, y0, dx, dy));
  }

  /** Each pixel touches the next. */
  lemma LineIsConnected(x0: int, y0: int, dx: int, dy: int, k: nat)
    requires k + 1 < |Points(x0, y0, dx, dy)|
    ensures var s := Points(x0, y0, dx, dy); Longer(s[k + 1].x - s[k].x, s[k + 1].y - s[k].y) == 1
  {
  }

  // ---------------------------------------------------------------- the line, in numbers

  lemma TraceClosedForm(nDeltaX: nat, nDeltaY: nat, k: nat)
    requires nDeltaY <= nDeltaX && nDeltaX > 0
    ensures TraceAt(nDeltaX, nDeltaY, k).minor == (nDeltaY * k + nDeltaX - 1 - nDeltaX / 2) / nDeltaX
  {
    TraceError(nDeltaX, nDeltaY, k);
    QuotientIs(nDeltaY * k + nDeltaX - 1 - nDeltaX / 2, nDeltaX, TraceAt(nDeltaX, nDeltaY, k).minor);
  }

  lemma PlanPoint(p: Plan, k: nat)
    requires p.x0 < p.x1 && Abs(p.y1 - p.y0) <= p.x1 - p.x0
    ensures var n, m := p.x1 - p.x0, Abs(p.y1 - p.y0);
      PointAt(p, k) == Unswapped(p, p.x0 + k, p.y0 + Signed(p.y1 - p.y0, (m * k + n - 1 - n / 2) / n))
  {
    TraceClosedForm(p.x1 - p.x0, Abs(p.y1 - p.y0), k);
    if p.y0 == p.y1 {
      TraceOfLevel(p.x1 - p.x0, k);
    }
  }

  lemma {:induction false} TraceOfLevel(n: nat, k: nat)
    ensures TraceAt(n, 0, k) == Trace(0, n / 2)
  {
    if k > 0 {
      TraceOfLevel(n, k - 1);
    }
  }

  lemma PointOf(x0: int, y0: int, dx: int, dy: int, k: nat)
    requires k < |Points(x0, y0, dx, dy)|
    ensures Points(x0, y0, dx, dy)[k] == PointAt(Normalized(x0, y0, dx, dy), k)
  {
  }

  /**
   Pixel k of a line that is not steep, counted from its left end: k to the right, and towards
   the other end by k |dy| / |dx|, rounded to the nearest, halves down.
   */
  lemma FlatLineInNumbers(x0: int, y0: int, dx: int, dy: int, k: nat)
    requires k < |Points(x0, y0, dx, dy)| && Abs(dy) <= Abs(dx)
    ensures var at, n, m := Points(x0, y0, dx, dy)[k], Abs(dx), Abs(dy);
      && (dx == 0 ==> at == Pixel(x0, y0))
      && (dx > 0 ==> at == Pixel(x0 + k, y0 + Signed(dy, (m * k + n - 1 - n / 2) / n)))
      && (dx < 0 ==> at == Pixel(x0 + dx + k, y0 + dy + Signed(-dy, (m * k + n - 1 - n / 2) / n)))
  {
    PointOf(x0, y0, dx, dy, k);
    if dx != 0 {
      PlanPoint(Normalized(x0, y0, dx, dy), k);
    }
  }

  /** The same for a steep line, counted from its end with the smaller y. */
  lemma SteepLineInNumbers(x0: int, y0: int, dx: int, dy: int, k: nat)
    requires k < |Points(x0, y0, dx, dy)| && Abs(dx) < Abs(dy)
    ensures var at, n, m := Points(x0, y0, dx, dy)[k], Abs(dy), Abs(dx);
      && (dy > 0 ==> at == Pixel(x0 + Signed(dx, (m * k + n - 1 - n / 2) / n), y0 + k))
      && (dy < 0 ==> at == Pixel(x0 + dx + Signed(-dx, (m * k + n - 1 - n / 2) / n), y0 + dy + k))
  {
    PointOf(x0, y0, dx, dy, k);
    PlanPoint(Normalized(x0, y0, dx, dy), k);
  }

  lemma ShortLineAt(k: nat)
    requires k < 4
    ensures |Points(0, 0, 3, 1)| == 4 && Points(0, 0, 3, 1)[k] == Pixel(k, if k < 2 then 0 else 1)
  {
    FlatLineInNumbers(0, 0, 3, 1, k);
  }

  /** From (0, 0) to (3, 1). */
  lemma ShortLine()
    ensures Points(0, 0, 3, 1) == [Pixel(0, 0), Pixel(1, 0), Pixel(2, 1), Pixel(3, 1)]
  {
    forall k: nat | k < 4
      ensures |Points(0, 0, 3, 1)| == 4 && Points(0, 0, 3, 1)[k] == Pixel(k, if k < 2 then 0 else 1)
    {
      ShortLineAt(k);
    }
  }

  // ---------------------------------------------------------------- distance from the ideal line

  /** Twice the area between a displacement and a direction: their distance times its length. */
  function Cross(u: int, v: int, dx: int, dy: int): int { u * dy - v * dx }

  lemma CrossShifts(u: int, v: int, dx: int, dy: int)
    ensures Cross(u + dx, v + dy, dx, dy) == Cross(u, v, dx, dy)
  {
    assert (u + dx) * dy == u * dy + dx * dy;
    assert (v + dy) * dx == v * dx + dy * dx;
  }

  lemma CrossSigns(u: int, v: int, dx: int, dy: int)
    ensures Cross(v, u, dy, dx) == 0 - Cross(u, v, dx, dy)
    ensures Cross(u, v, 0 - dx, 0 - dy) == 0 - Cross(u, v, dx, dy)
    ensures Cross(u, 0 - v, dx, 0 - dy) == 0 - Cross(u, v, dx, dy)
  {
    assert (0 - v) * dx == 0 - v * dx && u * (0 - dy) == 0 - u * dy && v * (0 - dx) == 0 - v * dx;
  }

  lemma TraceNearLine(nDeltaX: nat, nDeltaY: nat, k: nat)
    requires nDeltaY <= nDeltaX && k <= nDeltaX
    ensures 2 * Abs(Cross(k, TraceAt(nDeltaX, nDeltaY, k).minor, nDeltaX, nDeltaY)) <= nDeltaX
  {
    TraceError(nDeltaX, nDeltaY, k);
    var q := TraceAt(nDeltaX, nDeltaY, k).minor;
    assert k * nDeltaY == nDeltaY * k && q * nDeltaX == nDeltaX * q;
  }

  lemma PlanNearLine(p: Plan, k: nat)
    requires p.x0 <= p.x1 && Abs(p.y1 - p.y0) <= p.x1 - p.x0 && k <= DeltaX(p)
    ensures var q := TraceAt(DeltaX(p), Abs(p.y1 - p.y0), k).minor;
      2 * Abs(Cross(k, Steps(p, q), p.x1 - p.x0, p.y1 - p.y0)) <= DeltaX(p)
  {
    var q, dx, dy := TraceAt(DeltaX(p), Abs(p.y1 - p.y0), k).minor, DeltaX(p), Abs(p.y1 - p.y0);
    TraceNearLine(dx, dy, k);
    CrossSigns(k, q, dx, dy);
  }

  /** Whatever the swaps, the plan measures the same distances as the line. */
  lemma PlanKeepsCross(x0: int, y0: int, dx: int, dy: int, u: int, v: int)
    ensures var p := Normalized(x0, y0, dx, dy);
      var at := Unswapped(p, p.x0 + u, p.y0 + v);
      Abs(Cross(at.x - x0, at.y - y0, dx, dy)) == Abs(Cross(u, v, p.x1 - p.x0, p.y1 - p.y0))
  {
    CrossSigns(u, v, dx, dy);
    CrossSigns(u, v, dy, dx);
    CrossShifts(u, v, dx, dy);
    CrossShifts(v, u, dx, dy);
  }

  /** Every pixel of the line is at most half a pixel from the ideal line, along the shorter axis. */
  lemma LineIsNear(x0: int, y0: int, dx: int, dy: int, k: nat)
    requires k < |Points(x0, y0, dx, dy)|
    ensures var at := Points(x0, y0, dx, dy)[k];
      2 * Abs(Cross(at.x - x0, at.y - y0, dx, dy)) <= Longer(dx, dy)
  {
    var p := Normalized(x0, y0, dx, dy);
    var q := TraceAt(DeltaX(p), Abs(p.y1 - p.y0), k).minor;
    PlanIsLine(x0, y0, dx, dy);
    PlanNearLine(p, k);
    PlanKeepsCross(x0, y0, dx, dy, k, Steps(p, q));
  }

  // ---------------------------------------------------------------- drawing

  function Cell(pic: seq<int>, w: nat, h: nat, p: Pixel): int
    requires |pic| == w * h && InImage(w, h, p)
  {
    pic[Index(w, h, p)]
  }

  method DrawPixel(x: int, y: int, pPic: array<int>, w: nat, h: nat, u8Pixel: int)
    requires pPic.Length == w * h
    modifies pPic
    ensures forall p :: InImage(w, h, p) ==>
      Cell(pPic[..], w, h, p) == if p == Pixel(x, y) then u8Pixel else old(Cell(pPic[..], w, h, p))
  {
    if x < 0 || x >= w || y < 0 || y >= h {
      return;
    }
    ghost var before := pPic[..];
    ghost var i := Index(w, h, Pixel(x, y));
    var nPixPos := y * w + x;
    pPic[nPixPos] := u8Pixel;
    forall p | InImage(w, h, p)
      ensures Cell(pPic[..], w, h, p) == if p == Pixel(x, y) then u8Pixel else Cell(before, w, h, p)
    {
      if Index(w, h, p) == i {
        IndexInjective(w, h, p, Pixel(x, y));
      }
    }
  }

  /** One of the first n pixels of the plan. */
  ghost predicate Visited(p: Plan, n: nat, q: Pixel)
    requires p.x0 <= p.x1
  {
    exists k: nat :: k < n && PointAt(p, k) == q
  }

  lemma VisitedNext(p: Plan, n: nat, q: Pixel)
    requires p.x0 <= p.x1
    ensures Visited(p, n + 1, q) <==> Visited(p, n, q) || PointAt(p, n) == q
  {
    if PointAt(p, n) == q {
      assert Visited(p, n + 1, q);
    } else if Visited(p, n, q) {
      var k: nat :| k < n && PointAt(p, k) == q;
      assert k < n + 1;
    }
  }

  /** The buffer after the first n pixels of the plan are drawn. */
  ghost predicate DrawnUpTo(before: seq<int>, after: seq<int>, w: nat, h: nat, p: Plan, n: nat, u8Pixel: int)
    requires |before| == |after| == w * h && p.x0 <= p.x1
  {
    forall q :: InImage(w, h, q) ==>
      Cell(after, w, h, q) == if Visited(p, n, q) then u8Pixel else Cell(before, w, h, q)
  }

  /** The swaps, in the order of the code. */
  method Orient(x0: int, y0: int, dx: int, dy: int) returns (bSteep: bool, a0: int, b0: int, a1: int, b1: int)
    ensures Plan(bSteep, a0, b0, a1, b1) == Normalized(x0, y0, dx, dy)
  {
    a0, b0 := x0, y0;
    a1, b1 := x0 + dx, y0 + dy;
    bSteep := Abs(dy) > Abs(dx);
    if bSteep {
      a0, b0 := b0, a0;
      a1, b1 := b1, a1;
    }
    if a0 > a1 {
      a0, a1 := a1, a0;
      b0, b1 := b1, b0;
    }
  }

  /** One round of the loop: the pixel of step k is drawn, and the walk moves to step k + 1. */
  method DrawStep(p: Plan, x: int, y: int, error: int, ghost k: nat, ghost before: seq<int>,
                  pPic: array<int>, w: nat, h: nat, u8Pixel: int)
    returns (y': int, error': int)
    requires p.x0 <= p.x1 && pPic.Length == w * h && |before| == w * h
    requires Unswapped(p, x, y) == PointAt(p, k) && error == TraceAt(DeltaX(p), Abs(p.y1 - p.y0), k).error
    requires DrawnUpTo(before, pPic[..], w, h, p, k, u8Pixel)
    modifies pPic
    ensures Unswapped(p, x + 1, y') == PointAt(p, k + 1)
    ensures error' == TraceAt(DeltaX(p), Abs(p.y1 - p.y0), k + 1).error
    ensures DrawnUpTo(before, pPic[..], w, h, p, k + 1, u8Pixel)
  {
    if p.steep {
      DrawPixel(y, x, pPic, w, h, u8Pixel);
    } else {
      DrawPixel(x, y, pPic, w, h, u8Pixel);
    }
    forall q | InImage(w, h, q)
      ensures Visited(p, k + 1, q) <==> Visited(p, k, q) || PointAt(p, k) == q
    {
      VisitedNext(p, k, q);
    }
    NextPoint(p, k);
    y' := y;
    error' := error - Abs(p.y1 - p.y0);
    if error' < 0 {
      y' := y' + if p.y0 < p.y1 then 1 else -1;
      error' := error' + (p.x1 - p.x0);
    }
  }

  lemma NextPoint(p: Plan, k: nat)
    requires p.x0 <= p.x1
    ensures var s := TraceAt(DeltaX(p), Abs(p.y1 - p.y0), k);
      TraceAt(DeltaX(p), Abs(p.y1 - p.y0), k + 1) == TraceStep(s, DeltaX(p), Abs(p.y1 - p.y0))
  {
  }

  /** A pixel of the line. */
  ghost predicate OnLine(x0: int, y0: int, dx: int, dy: int, q: Pixel) {
    exists k :: 0 <= k < |Points(x0, y0, dx, dy)| && Points(x0, y0, dx, dy)[k] == q
  }

  lemma VisitedIsOnLine(x0: int, y0: int, dx: int, dy: int, q: Pixel)
    ensures var p := Normalized(x0, y0, dx, dy); Visited(p, DeltaX(p) + 1, q) <==> OnLine(x0, y0, dx, dy, q)
  {
    var p := Normalized(x0, y0, dx, dy);
    var s := Points(x0, y0, dx, dy);
    if Visited(p, DeltaX(p) + 1, q) {
      var k: nat :| k < DeltaX(p) + 1 && PointAt(p, k) == q;
      assert s[k] == q;
    }
  }

  /** Exactly the pixels of the line that lie in the frame change. */
  method DrawLine(x0: int, y0: int, dx: int, dy: int, pPic: array<int>, nPicWidth: nat, nPicHeight: nat, u8Pixel: int)
    requires pPic.Length == nPicWidth * nPicHeight
    modifies pPic
    ensures forall q :: InImage(nPicWidth, nPicHeight, q) ==>
      Cell(pPic[..], nPicWidth, nPicHeight, q)
      == if OnLine(x0, y0, dx, dy, q) then u8Pixel else old(Cell(pPic[..], nPicWidth, nPicHeight, q))
  {
    var bSteep, a0, b0, a1, b1 := Orient(x0, y0, dx, dy);
    var p := Plan(bSteep, a0, b0, a1, b1);
    ghost var before := pPic[..];
    ghost var k := 0;
    var nError := (a1 - a0) / 2;
    var x, y := a0, b0;
    while x <= a1
      invariant 0 <= k <= DeltaX(p) + 1 && x == a0 + k
      invariant Unswapped(p, x, y) == PointAt(p, k)
      invariant nError == TraceAt(DeltaX(p), Abs(p.y1 - p.y0), k).error
      invariant DrawnUpTo(before, pPic[..], nPicWidth, nPicHeight, p, k, u8Pixel)
    {
      y, nError := DrawStep(p, x, y, nError, k, before, pPic, nPicWidth, nPicHeight, u8Pixel);
      x := x + 1;
      k := k + 1;
    }
    forall q | InImage(nPicWidth, nPicHeight, q)
      ensures Visited(p, k, q) <==> OnLine(x0, y0, dx, dy, q)
    {
      VisitedIsOnLine(x0, y0, dx, dy, q);
    }
  }
}
