/** Row-major pixel buffers, as opencl/intel/GodRays and opencl/intel/MotionEstimation use them. */
module Raster {
  import opened Bresenham

  predicate InImage(w: int, h: int, p: Pixel) { 0 <= p.x < w && 0 <= p.y < h }

  /** The place of a pixel in the row-major buffer. */
  function Index(w: nat, h: nat, p: Pixel): (i: nat)
    requires InImage(w, h, p)
    ensures i < w * h
  {
    MulLess(p.y + 1, h, w);
    MulLess(0, p.y, w);
    assert w * (p.y + 1) == p.y * w + w;
    p.y * w + p.x
  }

  lemma IndexInjective(w: nat, h: nat, p: Pixel, q: Pixel)
    requires InImage(w, h, p) && InImage(w, h, q) && Index(w, h, p) == Index(w, h, q)
    ensures p == q
  {
    if p.y < q.y {
      MultiplesApart(w, p.y, q.y);
    } else if q.y < p.y {
      MultiplesApart(w, q.y, p.y);
    }
  }
}
