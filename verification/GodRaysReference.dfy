/**
 The imperative part of the god-rays pass: the two Bresenham walks of a ray and its shadow,
 the sum of colours along the ray, the test that suppresses stores, and the loops over rays
 and over bunches of rays.
 */
module GodRaysReference {
  import opened Bresenham
  import opened GodRays
  import opened Numbers
  import opened Raster
  import opened RayColours

  // ---------------------------------------------------------------- the output buffer

  /** A pixel of the output, with the number of stores to it. */
  datatype Cell = Cell(colour: real, stores: nat)

  function CellOf(buf: seq<Cell>, w: Size, h: Size, p: Pixel): Cell
    requires |buf| == w * h && InImage(w, h, p)
  {
    buf[Index(w, h, p)]
  }

  /** Store a colour to pixel p. */
  method Store(outBuf: array<Cell>, w: Size, h: Size, p: Pixel, colour: real)
    requires outBuf.Length == w * h && InImage(w, h, p)
    modifies outBuf
    ensures forall r {:trigger InImage(w, h, r)} :: InImage(w, h, r) ==>
              CellOf(outBuf[..], w, h, r) == StoredIf(r == p, colour, CellOf(old(outBuf[..]), w, h, r))
  {
    var i := Index(w, h, p);
    ghost var before := outBuf[..];
    outBuf[i] := Cell(colour, outBuf[i].stores + 1);
    forall r | InImage(w, h, r)
      ensures CellOf(outBuf[..], w, h, r) == StoredIf(r == p, colour, CellOf(before, w, h, r))
    {
      if Index(w, h, r) == i {
        IndexInjective(w, h, r, p);
      }
    }
  }

  function StoredIf(stored: bool, colour: real, cell: Cell): Cell {
    if stored then Cell(colour, cell.stores + 1) else cell
  }

  // ---------------------------------------------------------------- walking one ray

  /** The position of a walk relative to its start, and its error term. */
  datatype Walker = Walker(x: int, y: int, error: int)

  /** The walk of the ray with displacement (dx, dy) after k steps. */
  function WalkerAt(dx: int, dy: int, k: nat): Walker {
    var p := RayAt(dx, dy, k);
    Walker(p.x, p.y, if Abs(dx) >= Abs(dy) then Walk(Abs(dy), Abs(dx), k).error else Walk(Abs(dx), Abs(dy), k).error)
  }

  /** One step of the Bresenham loop, with the step signs and absolute sizes of the code:
      it takes the walk of the ray with displacement (vx, vy) from step k to step k + 1. */
  method StepRay(x: int, y: int, di: int, xstep: int, ystep: int, dx: nat, dy: nat,
                 ghost vx: int, ghost vy: int, ghost k: nat)
    returns (x': int, y': int, di': int)
    requires xstep == Signed(vx, 1) && ystep == Signed(vy, 1) && dx == Abs(vx) && dy == Abs(vy)
    requires di == WalkerAt(vx, vy, k).error
    ensures x' - x == WalkerAt(vx, vy, k + 1).x - WalkerAt(vx, vy, k).x
    ensures y' - y == WalkerAt(vx, vy, k + 1).y - WalkerAt(vx, vy, k).y
    ensures di' == WalkerAt(vx, vy, k + 1).error
  {
    x', y', di' := x, y, di;
    if dx >= dy {
      x' := x' + xstep;
      if di' >= 0 {
        y' := y' + ystep;
        di' := di' - 2 * dx;
      }
      di' := di' + 2 * dy;
      NextStep(dy, dx, k);
    } else {
      y' := y' + ystep;
      if di' >= 0 {
        x' := x' + xstep;
        di' := di' - 2 * dy;
      }
      di' := di' + 2 * dx;
      NextStep(dx, dy, k);
    }
  }

  lemma NextStep(minor: nat, major: nat, k: nat)
    ensures Walk(minor, major, k + 1) == WalkStep(Walk(minor, major, k), minor, major)
  {
  }

  /** The step sign and the absolute size of a displacement, as the code computes them. */
  method SignAndSize(d: int) returns (step: int, size: nat)
    ensures step == Signed(d, 1) && size == Abs(d)
  {
    step := if d > 0 then 1 else 0;
    var s := d;
    if s < 0 {
      s := -s;
      step := -1;
    }
    size := s;
  }

  /** The initial error term and the number of steps. */
  method InitialError(dx: nat, dy: nat) returns (di: int, steps: nat)
    ensures di == WalkerAt(dx, dy, 0).error && steps == Steps(dx, dy)
  {
    if dx >= dy {
      di := 2 * dy - dx;
      steps := dx;
    } else {
      di := 2 * dx - dy;
      steps := dy;
    }
  }

  // ---------------------------------------------------------------- painting

  /** The cell of pixel p once the first k steps of a ray are done. */
  function Touched(s: Scene, ray: nat, k: nat, p: Pixel, cell: Cell): Cell
    requires InImage(s.w, s.h, p)
  {
    if Writes(s.w, s.h, ray, p) && Ring(FromLight(s.w, s.h, p)) <= k then Cell(Shade(s, ray, p), cell.stores + 1) else cell
  }

  /** Step k of a ray touches the ray's k-th pixel, if the ray writes it, and nothing else. */
  lemma TouchedStep(s: Scene, ray: nat, k: nat, p: Pixel, cell: Cell)
    requires InImage(s.w, s.h, p) && ray < RayCount(s.w, s.h) && 0 < k <= StepsOf(s.w, s.h, ray)
    ensures Touched(s, ray, k, p, cell)
            == StoredIf(p == RayPixel(s.w, s.h, ray, k) && Writes(s.w, s.h, ray, p), Answer(s, ray, k),
                        Touched(s, ray, k - 1, p, cell))
  {
    RayPixelInImage(s.w, s.h, ray, k);
    if Writes(s.w, s.h, ray, p) {
      WrittenOnTheWay(s.w, s.h, ray, p);
    }
  }

  /** The test of the code, in terms of the two walks, is the write rule. */
  lemma WriteTest(w: Size, h: Size, ray: nat, k: nat)
    requires ray < RayCount(w, h) && k > 0
    requires k <= StepsOf(w, h, ray)
    ensures var prev := Previous(w, h, ray);
      Writes(w, h, ray, RayPixel(w, h, ray, k)) <==>
      RayPixel(w, h, ray, k) != RayPixel(w, h, prev, k)
      || k > StepsOf(w, h, prev)
  {
    RayPixelInImage(w, h, ray, k);
    var v := Displacement(w, h, ray);
    var d := FromLight(w, h, RayPixel(w, h, ray, k));
    assert d == RayAt(v.x, v.y, k) && Reaches(v, d);
  }

  /** The buffer after the first k steps of a ray that started with the buffer `before`. */
  ghost predicate Painted(buf: seq<Cell>, before: seq<Cell>, s: Scene, ray: nat, k: nat)
    requires |buf| == |before| == s.w * s.h
  {
    forall p {:trigger InImage(s.w, s.h, p)} :: InImage(s.w, s.h, p) ==>
      CellOf(buf, s.w, s.h, p) == Touched(s, ray, k, p, CellOf(before, s.w, s.h, p))
  }

  /** The centre is stored to by ray 0 only. */
  method PaintCentre(s: Scene, outBuf: array<Cell>, dst: Pixel, nDecay: real, ghost ray: nat) returns (summ: real)
    requires outBuf.Length == s.w * s.h && ray < RayCount(s.w, s.h) && nDecay == 1.0 - DecayOf(s, ray)
    requires RayEnds(s.w, s.h, ray).Ends? && dst == RayEnds(s.w, s.h, ray).dst
    modifies outBuf
    ensures Painted(outBuf[..], old(outBuf[..]), s, ray, 0)
    ensures summ == Summed(s, ray, 0)
  {
    var x, y, x_s, y_s := s.w / 2, s.h / 2, s.w / 2, s.h / 2;
    ghost var before := outBuf[..];
    var sample := Sample(s, Pixel(x, y)) * INV_EXPOSURE;
    summ := sample * nDecay;
    CentreColour(s, ray, sample, nDecay, summ);
    var store := x != x_s || y != y_s || (dst == Pixel(0, 0) && x == s.w / 2 && y == s.h / 2);
    if store {
      Store(outBuf, s.w, s.h, Pixel(x, y), summ * WEIGHT + sample);
    }
    forall p | InImage(s.w, s.h, p)
      ensures CellOf(outBuf[..], s.w, s.h, p) == Touched(s, ray, 0, p, CellOf(before, s.w, s.h, p))
    {
      CentreTouched(s, ray, p, CellOf(before, s.w, s.h, p));
    }
  }

  lemma CentreColour(s: Scene, ray: nat, sample: real, nDecay: real, summ: real)
    requires ray < RayCount(s.w, s.h) && nDecay == 1.0 - DecayOf(s, ray)
    requires sample == Sample(s, Light(s.w, s.h)) * INV_EXPOSURE && summ == sample * nDecay
    ensures summ == Summed(s, ray, 0) && summ * WEIGHT + sample == Answer(s, ray, 0)
  {
    RayBegins(s.w, s.h, ray);
    FirstMix(sample, DecayOf(s, ray), nDecay);
  }

  lemma FirstMix(sample: real, decay: real, nDecay: real)
    ensures Mix(0.0, sample, decay, nDecay) == sample * nDecay
  {
  }

  lemma CentreTouched(s: Scene, ray: nat, p: Pixel, cell: Cell)
    requires InImage(s.w, s.h, p) && ray < RayCount(s.w, s.h)
    ensures RayEnds(s.w, s.h, ray).Ends?
    ensures Touched(s, ray, 0, p, cell)
            == StoredIf(p == Light(s.w, s.h) && RayEnds(s.w, s.h, ray).dst == Pixel(0, 0), Answer(s, ray, 0), cell)
  {
    LightIsCentre(s.w, s.h, p);
  }

  /** Step k + 1 of a ray: take its pixel into the sum, and store to it unless the shadow is on
      the same pixel and has not ended. */
  method PaintStep(s: Scene, outBuf: array<Cell>, x: int, y: int, x_s: int, y_s: int, step: nat, stepsLast: nat,
                   summ: real, decay: real, nDecay: real, ghost before: seq<Cell>, ghost ray: nat)
    returns (summ': real)
    requires outBuf.Length == |before| == s.w * s.h && ray < RayCount(s.w, s.h)
    requires step < StepsOf(s.w, s.h, ray) && stepsLast == StepsOf(s.w, s.h, Previous(s.w, s.h, ray))
    requires Pixel(x, y) == RayPixel(s.w, s.h, ray, step + 1)
    requires Pixel(x_s, y_s) == RayPixel(s.w, s.h, Previous(s.w, s.h, ray), step + 1)
    requires decay == DecayOf(s, ray) && nDecay == 1.0 - decay && summ == Summed(s, ray, step)
    requires Painted(outBuf[..], before, s, ray, step)
    modifies outBuf
    ensures Painted(outBuf[..], before, s, ray, step + 1)
    ensures summ' == Summed(s, ray, step + 1)
  {
    var answer;
    summ', answer := SumStep(s, x, y, summ, decay, nDecay, ray, step);
    WriteTest(s.w, s.h, ray, step + 1);
    ghost var was := outBuf[..];
    var store := x != x_s || y != y_s || step >= stepsLast;
    if store {
      Store(outBuf, s.w, s.h, Pixel(x, y), answer);
    }
    PaintedStep(outBuf[..], was, before, s, ray, step, store);
  }

  /** The pixel of step k + 1 goes into the sum; what would be stored. */
  method SumStep(s: Scene, x: int, y: int, summ: real, decay: real, nDecay: real, ghost ray: nat, ghost step: nat)
    returns (summ': real, answer: real)
    requires ray < RayCount(s.w, s.h) && step < StepsOf(s.w, s.h, ray)
    requires Pixel(x, y) == RayPixel(s.w, s.h, ray, step + 1)
    requires decay == DecayOf(s, ray) && nDecay == 1.0 - decay && summ == Summed(s, ray, step)
    ensures InImage(s.w, s.h, Pixel(x, y))
    ensures summ' == Summed(s, ray, step + 1) && answer == Answer(s, ray, step + 1)
  {
    RayPixelInImage(s.w, s.h, ray, step + 1);
    var sample := Sample(s, Pixel(x, y)) * INV_EXPOSURE;
    summ' := Mix(summ, sample, decay, nDecay);
    answer := summ' * WEIGHT + (if s.blend then Sample(s, Pixel(x, y)) else 0.0);
    StepColour(s, ray, step + 1, sample, summ, decay, nDecay);
  }

  lemma StepColour(s: Scene, ray: nat, k: nat, sample: real, summ: real, decay: real, nDecay: real)
    requires ray < RayCount(s.w, s.h) && 0 < k <= StepsOf(s.w, s.h, ray)
    requires InImage(s.w, s.h, RayPixel(s.w, s.h, ray, k))
    requires sample == Sample(s, RayPixel(s.w, s.h, ray, k)) * INV_EXPOSURE && summ == Summed(s, ray, k - 1)
    requires decay == DecayOf(s, ray) && nDecay == 1.0 - decay
    ensures Mix(summ, sample, decay, nDecay) == Summed(s, ray, k)
    ensures Answer(s, ray, k)
            == Summed(s, ray, k) * WEIGHT + (if s.blend then Sample(s, RayPixel(s.w, s.h, ray, k)) else 0.0)
  {
  }

  /** What the buffer holds when the store of one more step is made, or is not due. */
  lemma PaintedStep(buf: seq<Cell>, was: seq<Cell>, before: seq<Cell>, s: Scene, ray: nat, step: nat, stored: bool)
    requires |buf| == |was| == |before| == s.w * s.h && ray < RayCount(s.w, s.h) && step < StepsOf(s.w, s.h, ray)
    requires Painted(was, before, s, ray, step)
    requires stored <==> Writes(s.w, s.h, ray, RayPixel(s.w, s.h, ray, step + 1))
    requires forall p {:trigger InImage(s.w, s.h, p)} :: InImage(s.w, s.h, p) ==>
      CellOf(buf, s.w, s.h, p)
      == StoredIf(stored && p == RayPixel(s.w, s.h, ray, step + 1), Answer(s, ray, step + 1), CellOf(was, s.w, s.h, p))
    ensures Painted(buf, before, s, ray, step + 1)
  {
    forall p | InImage(s.w, s.h, p)
      ensures CellOf(buf, s.w, s.h, p) == Touched(s, ray, step + 1, p, CellOf(before, s.w, s.h, p))
    {
      TouchedStep(s, ray, step + 1, p, CellOf(before, s.w, s.h, p));
    }
  }

  lemma RayBegins(w: Size, h: Size, ray: nat)
    requires ray < RayCount(w, h)
    ensures RayPixel(w, h, ray, 0) == Light(w, h)
  {
  }

  /** Pixel and error term of a ray after k steps. */
  ghost predicate OnRay(w: Size, h: Size, ray: nat, k: nat, x: int, y: int, di: int)
    requires ray < RayCount(w, h)
  {
    Pixel(x, y) == RayPixel(w, h, ray, k) && di == WalkerAt(Displacement(w, h, ray).x, Displacement(w, h, ray).y, k).error
  }

  /** Step signs, absolute sizes and number of steps of a ray. */
  ghost predicate Heading(w: Size, h: Size, ray: nat, xstep: int, ystep: int, dx: nat, dy: nat, steps: nat)
    requires ray < RayCount(w, h)
  {
    var v := Displacement(w, h, ray);
    xstep == Signed(v.x, 1) && ystep == Signed(v.y, 1) && dx == Abs(v.x) && dy == Abs(v.y) && steps == StepsOf(w, h, ray)
  }

  /** A ray from the light to its destination sets out. */
  method SetOut(iw: Size, ih: Size, dst: Pixel, ghost ray: nat)
    returns (xstep: int, ystep: int, dx: nat, dy: nat, di: int, steps: nat)
    requires ray < RayCount(iw, ih) && RayEnds(iw, ih, ray).Ends? && dst == RayEnds(iw, ih, ray).dst
    ensures Heading(iw, ih, ray, xstep, ystep, dx, dy, steps)
    ensures OnRay(iw, ih, ray, 0, iw / 2, ih / 2, di)
  {
    xstep, dx := SignAndSize(dst.x - iw / 2);
    ystep, dy := SignAndSize(dst.y - ih / 2);
    di, steps := InitialError(dx, dy);
    RayBegins(iw, ih, ray);
  }

  /** One step of a ray in the image. */
  method AdvanceRay(x: int, y: int, di: int, xstep: int, ystep: int, dx: nat, dy: nat,
                    ghost steps: nat, ghost iw: Size, ghost ih: Size, ghost ray: nat, ghost k: nat)
    returns (x': int, y': int, di': int)
    requires ray < RayCount(iw, ih) && OnRay(iw, ih, ray, k, x, y, di)
    requires Heading(iw, ih, ray, xstep, ystep, dx, dy, steps)
    ensures OnRay(iw, ih, ray, k + 1, x', y', di')
  {
    ghost var v := Displacement(iw, ih, ray);
    x', y', di' := StepRay(x, y, di, xstep, ystep, dx, dy, v.x, v.y, k);
  }

  /** Walk one ray and its shadow from the light to the ray's destination. */
  method WalkRay(s: Scene, outBuf: array<Cell>, ends: Ends, ghost ray: nat)
    requires outBuf.Length == s.w * s.h && ray < RayCount(s.w, s.h)
    requires ends == RayEnds(s.w, s.h, ray)
    modifies outBuf
    ensures Painted(outBuf[..], old(outBuf[..]), s, ray, StepsOf(s.w, s.h, ray))
  {
    var x, y := s.w / 2, s.h / 2;
    var x_s, y_s := x, y;
    ShadowIsPreviousRay(s.w, s.h, ray);
    ghost var prev := Previous(s.w, s.h, ray);
    ghost var before := outBuf[..];
    var xstep, ystep, dx, dy, di, steps := SetOut(s.w, s.h, ends.dst, ray);
    var xstep_s, ystep_s, dx_s, dy_s, di_s, stepsLast := SetOut(s.w, s.h, ends.shadow, prev);
    var decay := s.decay(dx, dy);
    var nDecay := 1.0 - decay;
    var summ := PaintCentre(s, outBuf, ends.dst, nDecay, ray);

    var step := 0;
    while step < steps
      invariant 0 <= step <= steps
      invariant OnRay(s.w, s.h, ray, step, x, y, di) && OnRay(s.w, s.h, prev, step, x_s, y_s, di_s)
      invariant Painted(outBuf[..], before, s, ray, step) && summ == Summed(s, ray, step)
    {
      x, y, di := AdvanceRay(x, y, di, xstep, ystep, dx, dy, steps, s.w, s.h, ray, step);
      x_s, y_s, di_s := AdvanceRay(x_s, y_s, di_s, xstep_s, ystep_s, dx_s, dy_s, stepsLast, s.w, s.h, prev, step);
      summ := PaintStep(s, outBuf, x, y, x_s, y_s, step, stepsLast, summ, decay, nDecay, before, ray);
      step := step + 1;
    }
  }

  /** The cell of a pixel after a whole ray. */
  function Crossed(s: Scene, ray: nat, p: Pixel, cell: Cell): Cell
    requires InImage(s.w, s.h, p)
  {
    if Writes(s.w, s.h, ray, p) then Cell(Shade(s, ray, p), cell.stores + 1) else cell
  }

  /** The buffer after one more ray. */
  ghost predicate RayPainted(buf: seq<Cell>, before: seq<Cell>, s: Scene, ray: nat)
    requires |buf| == |before| == s.w * s.h
  {
    forall p {:trigger InImage(s.w, s.h, p)} :: InImage(s.w, s.h, p) ==>
      CellOf(buf, s.w, s.h, p) == Crossed(s, ray, p, CellOf(before, s.w, s.h, p))
  }

  /** Paint one ray; false when there is no such ray. */
  method PaintRay(s: Scene, outBuf: array<Cell>, ray: nat) returns (painted: bool)
    requires outBuf.Length == s.w * s.h
    modifies outBuf
    ensures painted <==> ray < RayCount(s.w, s.h)
    ensures RayPainted(outBuf[..], old(outBuf[..]), s, ray)
  {
    var ends := RayEnds(s.w, s.h, ray);
    RaysEnumerateBorder(s.w, s.h);
    if ends.NoRay? {
      return false;
    }
    ghost var before := outBuf[..];
    WalkRay(s, outBuf, ends, ray);
    forall p | InImage(s.w, s.h, p)
      ensures CellOf(outBuf[..], s.w, s.h, p) == Crossed(s, ray, p, CellOf(before, s.w, s.h, p))
    {
      AllTouched(s, ray, p, CellOf(before, s.w, s.h, p));
    }
    return true;
  }

  /** After its last step a ray has touched every pixel that it writes. */
  lemma AllTouched(s: Scene, ray: nat, p: Pixel, cell: Cell)
    requires ray < RayCount(s.w, s.h) && InImage(s.w, s.h, p)
    ensures Touched(s, ray, StepsOf(s.w, s.h, ray), p, cell) == Crossed(s, ray, p, cell)
  {
    if Writes(s.w, s.h, ray, p) {
      WrittenOnTheWay(s.w, s.h, ray, p);
    }
  }

  // ---------------------------------------------------------------- bunches of rays

  /** A cell after rays lo, ..., hi - 1, some of which write it and store what shade says. */
  function CellAfter(writes: nat -> bool, shade: nat -> real, lo: nat, hi: nat, cell: Cell): Cell
    decreases hi
  {
    if hi <= lo then cell else StoredIf(writes(hi - 1), shade(hi - 1), CellAfter(writes, shade, lo, hi - 1, cell))
  }

  /** What the rays store at pixel p. */
  function ShadesOf(s: Scene, p: Pixel): nat -> real
    requires InImage(s.w, s.h, p)
  {
    (ray: nat) => if Writes(s.w, s.h, ray, p) then Shade(s, ray, p) else 0.0
  }

  /** The number of stores is the number of writers. */
  lemma {:induction false} StoresAreWriters(writes: nat -> bool, shade: nat -> real, lo: nat, hi: nat, cell: Cell)
    ensures CellAfter(writes, shade, lo, hi, cell).stores == cell.stores + Count(writes, lo, hi)
    decreases hi
  {
    if lo < hi {
      StoresAreWriters(writes, shade, lo, hi - 1, cell);
    }
  }

  /** The colour is that of the only writer. */
  lemma {:induction false} ColourOfWriter(writes: nat -> bool, shade: nat -> real, lo: nat, hi: nat, cell: Cell, ray: nat)
    requires lo <= ray && forall i: nat :: writes(i) <==> i == ray
    ensures CellAfter(writes, shade, lo, hi, cell).colour == if ray < hi then shade(ray) else cell.colour
    decreases hi
  {
    if lo < hi {
      ColourOfWriter(writes, shade, lo, hi - 1, cell, ray);
    }
  }

  lemma {:induction false} CellsJoin(writes: nat -> bool, shade: nat -> real, lo: nat, mid: nat, hi: nat, cell: Cell)
    requires lo <= mid <= hi
    ensures CellAfter(writes, shade, lo, hi, cell)
            == CellAfter(writes, shade, mid, hi, CellAfter(writes, shade, lo, mid, cell))
    decreases hi
  {
    if mid < hi {
      CellsJoin(writes, shade, lo, mid, hi - 1, cell);
    }
  }

  /** Numbers that write nothing change nothing. */
  lemma {:induction false} NothingBeyond(writes: nat -> bool, shade: nat -> real, lo: nat, hi: nat, cell: Cell)
    requires forall i: nat :: i >= lo ==> !writes(i)
    ensures CellAfter(writes, shade, lo, hi, cell) == cell
    decreases hi
  {
    if lo < hi {
      NothingBeyond(writes, shade, lo, hi - 1, cell);
    }
  }

  /** Pixel p after rays lo, ..., hi - 1. */
  function PixelAfter(s: Scene, lo: nat, hi: nat, p: Pixel, cell: Cell): Cell
    requires InImage(s.w, s.h, p)
  {
    CellAfter(WritersOf(s.w, s.h, p), ShadesOf(s, p), lo, hi, cell)
  }

  /** The buffer after rays lo, ..., hi - 1. */
  ghost predicate RaysPainted(buf: seq<Cell>, before: seq<Cell>, s: Scene, lo: nat, hi: nat)
    requires |buf| == |before| == s.w * s.h
  {
    forall p {:trigger InImage(s.w, s.h, p)} :: InImage(s.w, s.h, p) ==>
      CellOf(buf, s.w, s.h, p) == PixelAfter(s, lo, hi, p, CellOf(before, s.w, s.h, p))
  }

  /** One work item: a bunch of rays with consecutive numbers. */
  method EvaluateRay(s: Scene, outBuf: array<Cell>, inRayNum: nat, bunchSize: nat)
    requires outBuf.Length == s.w * s.h
    modifies outBuf
    ensures RaysPainted(outBuf[..], old(outBuf[..]), s, inRayNum * bunchSize, inRayNum * bunchSize + bunchSize)
  {
    PaintBunch(s, outBuf, inRayNum * bunchSize, bunchSize);
  }

  /** The loop over the rays of a bunch, up to the first number that is no ray. */
  method PaintBunch(s: Scene, outBuf: array<Cell>, first: nat, bunchSize: nat)
    requires outBuf.Length == s.w * s.h
    modifies outBuf
    ensures RaysPainted(outBuf[..], old(outBuf[..]), s, first, first + bunchSize)
  {
    ghost var before := outBuf[..];
    var i := first;
    while i < first + bunchSize
      invariant first <= i <= first + bunchSize
      invariant RaysPainted(outBuf[..], before, s, first, i)
    {
      var painted := PaintNext(s, outBuf, i, before, first, first + bunchSize);
      if !painted {
        break;
      }
      i := i + 1;
    }
  }

  /** The next ray of a bunch; when there is none, the bunch is done. */
  method PaintNext(s: Scene, outBuf: array<Cell>, i: nat, ghost before: seq<Cell>, ghost lo: nat, ghost hi: nat)
    returns (painted: bool)
    requires outBuf.Length == |before| == s.w * s.h && lo <= i < hi && RaysPainted(outBuf[..], before, s, lo, i)
    modifies outBuf
    ensures RaysPainted(outBuf[..], before, s, lo, if painted then i + 1 else hi)
  {
    ghost var was := outBuf[..];
    painted := PaintRay(s, outBuf, i);
    if painted {
      OneMoreRay(outBuf[..], was, before, s, lo, i);
    } else {
      RestIsEmpty(outBuf[..], was, before, s, lo, i, hi);
    }
  }

  lemma OneMoreRay(buf: seq<Cell>, was: seq<Cell>, before: seq<Cell>, s: Scene, lo: nat, i: nat)
    requires |buf| == |was| == |before| == s.w * s.h && lo <= i
    requires RaysPainted(was, before, s, lo, i) && RayPainted(buf, was, s, i)
    ensures RaysPainted(buf, before, s, lo, i + 1)
  {
  }

  lemma RestIsEmpty(buf: seq<Cell>, was: seq<Cell>, before: seq<Cell>, s: Scene, lo: nat, i: nat, hi: nat)
    requires |buf| == |was| == |before| == s.w * s.h && lo <= i <= hi && i >= RayCount(s.w, s.h)
    requires RaysPainted(was, before, s, lo, i) && RayPainted(buf, was, s, i)
    ensures RaysPainted(buf, before, s, lo, hi)
  {
    forall p | InImage(s.w, s.h, p)
      ensures CellOf(buf, s.w, s.h, p) == PixelAfter(s, lo, hi, p, CellOf(before, s.w, s.h, p))
    {
      var writes, shade := WritersOf(s.w, s.h, p), ShadesOf(s, p);
      CellsJoin(writes, shade, lo, i, hi, CellOf(before, s.w, s.h, p));
      NothingBeyond(writes, shade, i, hi, PixelAfter(s, lo, i, p, CellOf(before, s.w, s.h, p)));
    }
  }

  const GOD_RAYS_BUNCH_SIZE: nat := 15

  ghost predicate ShowsRay(s: Scene, ray: nat, p: Pixel, colour: real)
    requires InImage(s.w, s.h, p)
  {
    RayEnds(s.w, s.h, ray).Ends? && OnBorder(s.w, s.h, RayEnds(s.w, s.h, ray).dst) &&
    Shows(s, RayEnds(s.w, s.h, ray).dst, p, colour)
  }

  /** The pixel has been stored to once, and shows what its only writer had accumulated on the
      straight line to its destination. */
  ghost predicate PaintedOnce(s: Scene, p: Pixel, before: Cell, after: Cell)
    requires InImage(s.w, s.h, p)
  {
    && after.stores == before.stores + 1
    && exists ray: nat :: Writes(s.w, s.h, ray, p) && ShowsRay(s, ray, p, after.colour)
  }

  ghost predicate AllPaintedOnce(s: Scene, before: seq<Cell>, after: seq<Cell>)
    requires |before| == |after| == s.w * s.h
  {
    forall p {:trigger InImage(s.w, s.h, p)} :: InImage(s.w, s.h, p) ==>
      PaintedOnce(s, p, CellOf(before, s.w, s.h, p), CellOf(after, s.w, s.h, p))
  }

  /** The loop over work items. */
  method ExecuteGodRaysReference(s: Scene, output: array<Cell>, globalWorkSize: nat)
    requires output.Length == s.w * s.h
    modifies output
    ensures RaysPainted(output[..], old(output[..]), s, 0, globalWorkSize * GOD_RAYS_BUNCH_SIZE)
    ensures globalWorkSize >= RayCount(s.w, s.h) / GOD_RAYS_BUNCH_SIZE + 1 ==>
              AllPaintedOnce(s, old(output[..]), output[..])
  {
    ghost var before := output[..];
    var j := 0;
    while j < globalWorkSize
      invariant 0 <= j <= globalWorkSize
      invariant RaysPainted(output[..], before, s, 0, j * GOD_RAYS_BUNCH_SIZE)
    {
      EvaluateNext(s, output, j, before);
      j := j + 1;
    }
    EnoughWork(output[..], before, s, globalWorkSize);
  }

  /** The next bunch of rays. */
  method EvaluateNext(s: Scene, output: array<Cell>, j: nat, ghost before: seq<Cell>)
    requires output.Length == |before| == s.w * s.h && RaysPainted(output[..], before, s, 0, j * GOD_RAYS_BUNCH_SIZE)
    modifies output
    ensures RaysPainted(output[..], before, s, 0, (j + 1) * GOD_RAYS_BUNCH_SIZE)
  {
    ghost var was := output[..];
    EvaluateRay(s, output, j, GOD_RAYS_BUNCH_SIZE);
    OneMoreBunch(output[..], was, before, s, j * GOD_RAYS_BUNCH_SIZE, (j + 1) * GOD_RAYS_BUNCH_SIZE);
  }

  lemma EnoughWork(buf: seq<Cell>, before: seq<Cell>, s: Scene, globalWorkSize: nat)
    requires |buf| == |before| == s.w * s.h && RaysPainted(buf, before, s, 0, globalWorkSize * GOD_RAYS_BUNCH_SIZE)
    ensures globalWorkSize >= RayCount(s.w, s.h) / GOD_RAYS_BUNCH_SIZE + 1 ==> AllPaintedOnce(s, before, buf)
  {
    if globalWorkSize >= RayCount(s.w, s.h) / GOD_RAYS_BUNCH_SIZE + 1 {
      AllRaysPaintEachPixelOnce(buf, before, s, globalWorkSize * GOD_RAYS_BUNCH_SIZE);
    }
  }

  lemma OneMoreBunch(buf: seq<Cell>, was: seq<Cell>, before: seq<Cell>, s: Scene, mid: nat, hi: nat)
    requires |buf| == |was| == |before| == s.w * s.h && mid <= hi
    requires RaysPainted(was, before, s, 0, mid) && RaysPainted(buf, was, s, mid, hi)
    ensures RaysPainted(buf, before, s, 0, hi)
  {
    forall p | InImage(s.w, s.h, p)
      ensures CellOf(buf, s.w, s.h, p) == PixelAfter(s, 0, hi, p, CellOf(before, s.w, s.h, p))
    {
      CellsJoin(WritersOf(s.w, s.h, p), ShadesOf(s, p), 0, mid, hi, CellOf(before, s.w, s.h, p));
    }
  }

  lemma OnePixelPaintedOnce(s: Scene, rays: nat, p: Pixel, cell: Cell)
    requires InImage(s.w, s.h, p) && rays >= RayCount(s.w, s.h)
    ensures PaintedOnce(s, p, cell, PixelAfter(s, 0, rays, p, cell))
  {
    var writes, shade := WritersOf(s.w, s.h, p), ShadesOf(s, p);
    EveryPixelWrittenOnce(s.w, s.h, rays, p);
    StoresAreWriters(writes, shade, 0, rays, cell);
    var ray := OneRayWrites(s.w, s.h, p);
    ColourOfWriter(writes, shade, 0, rays, cell, ray);
    assert writes(ray) && shade(ray) == Shade(s, ray, p);
    ShadeShows(s, ray, p);
    RaysEnumerateBorder(s.w, s.h);
  }

  lemma AllRaysPaintEachPixelOnce(buf: seq<Cell>, before: seq<Cell>, s: Scene, rays: nat)
    requires |buf| == |before| == s.w * s.h && rays >= RayCount(s.w, s.h)
    requires RaysPainted(buf, before, s, 0, rays)
    ensures AllPaintedOnce(s, before, buf)
  {
    forall p | InImage(s.w, s.h, p)
      ensures PaintedOnce(s, p, CellOf(before, s.w, s.h, p), CellOf(buf, s.w, s.h, p))
    {
      OnePixelPaintedOnce(s, rays, p, CellOf(before, s.w, s.h, p));
    }
  }

  // ---------------------------------------------------------------- one image

  /** Three by three pixels of 0.9; rays along an axis decay by one half, diagonal ones by one quarter. */
  predicate IsEven(s: Scene) {
    && s.w == 3 && s.h == 3 && !s.blend && s.decay(1, 1) == 0.25 && s.decay(0, 1) == s.decay(1, 0) == 0.5
    && forall i :: 0 <= i < 9 ==> s.image[i] == 0.9
  }

  /** In this image a line of one step ends on its target. */
  lemma EvenTarget(target: Pixel, p: Pixel)
    requires InImage(3, 3, target) && Max(Abs(p.x - 1), Abs(p.y - 1)) == 1 && LinePixel(3, 3, target, 1) == p
    ensures target == p
  {
  }

  lemma EvenWeights(c: seq<real>, d: real)
    requires |c| == 2 && c[0] == 1.0 && c[1] == 1.0
    ensures Weighted(c, d) == (1.0 - d) * d + (1.0 - d)
  {
    assert Power(d, 1) == d * Power(d, 0) && WeightedUpTo(c, d, 0) == 0.0;
    assert WeightedUpTo(c, d, 1) == (1.0 - d) * d;
  }

  lemma EvenSamples(s: Scene, target: Pixel, p: Pixel, c: seq<real>)
    requires IsEven(s) && Max(Abs(p.x - 1), Abs(p.y - 1)) == 1 && LineUpTo(s, target, p, c)
    ensures |c| == 2 && c[0] == 1.0 && c[1] == 1.0 && LinePixel(3, 3, target, 1) == p
  {
    assert IsExposed(s, LinePixel(3, 3, target, 0), c[0]) && IsExposed(s, LinePixel(3, 3, target, 1), c[1]);
  }

  /** What a line of one step adds up to. */
  lemma EvenLine(s: Scene, target: Pixel, p: Pixel, c: seq<real>)
    requires IsEven(s) && Max(Abs(p.x - 1), Abs(p.y - 1)) == 1 && InImage(3, 3, target) && LineUpTo(s, target, p, c)
    ensures target == p
    ensures Weighted(c, s.decay(Abs(p.x - 1), Abs(p.y - 1))) == if Abs(p.x - 1) == Abs(p.y - 1) then 0.9375 else 0.75
  {
    EvenSamples(s, target, p, c);
    EvenTarget(target, p);
    EvenWeights(c, s.decay(Abs(p.x - 1), Abs(p.y - 1)));
  }

  lemma EvenAlong(s: Scene, target: Pixel, p: Pixel, c: seq<real>, colour: real)
    requires IsEven(s) && InImage(s.w, s.h, p) && p != Pixel(1, 1) && InImage(3, 3, target)
    requires ShowsAlong(s, target, p, c, colour)
    ensures colour == if Abs(p.x - 1) == Abs(p.y - 1) then 2.8125 else 2.25
  {
    EvenLine(s, target, p, c);
  }

  lemma EvenPixel(s: Scene, p: Pixel, before: Cell, after: Cell)
    requires IsEven(s) && InImage(s.w, s.h, p) && p != Pixel(1, 1) && PaintedOnce(s, p, before, after)
    ensures after.colour == if Abs(p.x - 1) == Abs(p.y - 1) then 2.8125 else 2.25
  {
    var ray: nat :| Writes(s.w, s.h, ray, p) && ShowsRay(s, ray, p, after.colour);
    var target := RayEnds(s.w, s.h, ray).dst;
    var c: seq<real> :| ShowsAlong(s, target, p, c, after.colour);
    EvenAlong(s, target, p, c, after.colour);
  }

  lemma EvenColour(s: Scene, before: seq<Cell>, after: seq<Cell>, p: Pixel)
    requires IsEven(s) && |before| == |after| == s.w * s.h && AllPaintedOnce(s, before, after)
    requires InImage(s.w, s.h, p) && p != Pixel(1, 1)
    ensures CellOf(after, s.w, s.h, p).colour == if Abs(p.x - 1) == Abs(p.y - 1) then 2.8125 else 2.25
  {
    EvenPixel(s, p, CellOf(before, s.w, s.h, p), CellOf(after, s.w, s.h, p));
  }

  /** Any pixel but the centre: three times 1/4 of 3/4 and 3/4 at a corner, three times 1/2 of
      1/2 and 1/2 at a side. */
  method PaintEven(s: Scene, output: array<Cell>, ghost p: Pixel)
    requires IsEven(s) && output.Length == s.w * s.h && InImage(s.w, s.h, p) && p != Pixel(1, 1)
    modifies output
    ensures CellOf(output[..], s.w, s.h, p).colour == if Abs(p.x - 1) == Abs(p.y - 1) then 2.8125 else 2.25
  {
    ghost var before := output[..];
    ExecuteGodRaysReference(s, output, 1);
    EvenColour(s, before, output[..], p);
  }
}
