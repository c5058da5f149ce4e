/**
 The integer line walk of opencl/intel/GodRays/GodRaysNative.cpp: one step along the
 longer axis at a time, with an error term that decides when to step along the shorter one.
 */
module Bresenham {

  datatype Pixel = Pixel(x: int, y: int)

  function Abs(d: int): nat { if d < 0 then -d else d }

  /** `v` with the sign of `d`, and 0 when d is 0: what v steps of the code's xstep or ystep add up to. */
  function Signed(d: int, v: int): int { if d > 0 then v else if d < 0 then -v else 0 }

  /** Steps made along the shorter axis, and the error term, after some steps along the longer one. */
  datatype Offset = Offset(minor: nat, error: int)

  function WalkStep(o: Offset, minor: nat, major: nat): Offset {
    if o.error >= 0 then Offset(o.minor + 1, o.error - 2 * major + 2 * minor)
    else Offset(o.minor, o.error + 2 * minor)
  }

  function Walk(minor: nat, major: nat, k: nat): Offset {
    if k == 0 then Offset(0, 2 * minor - major)
    else WalkStep(Walk(minor, major, k - 1), minor, major)
  }

  predicate ErrorTerm(o: Offset, minor: nat, major: nat, k: nat) {
    && o.error == 2 * (minor * k) + 2 * minor - major - 2 * (major * o.minor)
    && (major > 0 ==> 2 * minor - 2 * major <= o.error < 2 * minor)
  }

  lemma WalkStepKeepsError(o: Offset, minor: nat, major: nat, k: nat)
    requires minor <= major && ErrorTerm(o, minor, major, k)
    ensures ErrorTerm(WalkStep(o, minor, major), minor, major, k + 1)
  {
    assert minor * (k + 1) == minor * k + minor;
    assert major * (o.minor + 1) == major * o.minor + major;
  }

  /** The error term is a function of the position, and stays within one step of zero. */
  lemma {:induction false} WalkError(minor: nat, major: nat, k: nat)
    requires minor <= major
    ensures ErrorTerm(Walk(minor, major, k), minor, major, k)
  {
    if k > 0 {
      WalkError(minor, major, k - 1);
      WalkStepKeepsError(Walk(minor, major, k - 1), minor, major, k - 1);
    }
  }

  /** The walk is never more than half a pixel from the ideal line, and rounds halves up. */
  lemma WalkIsNearest(minor: nat, major: nat, k: nat)
    requires minor <= major && major > 0
    ensures var q := Walk(minor, major, k).minor;
      2 * (major * q) - major <= 2 * (minor * k) < 2 * (major * q) + major
  {
    WalkError(minor, major, k);
  }

  lemma MulAtLeast(a: int, m: int)
    requires m > 0 && a >= 1
    ensures m * a >= m
  {
  }

  /** Multiples of m lie at least m apart. */
  lemma MultiplesApart(m: int, a: int, b: int)
    requires m > 0 && a < b
    ensures m * a + m <= m * b
  {
    MulAtLeast(b - a, m);
    assert m * (b - a) == m * b - m * a;
  }

  /** Only one offset is nearest. */
  lemma NearestIsUnique(major: nat, a: int, q: int, q': int)
    requires major > 0
    requires 2 * (major * q) - major <= a < 2 * (major * q) + major
    requires 2 * (major * q') - major <= a < 2 * (major * q') + major
    ensures q == q'
  {
    if q < q' {
      MultiplesApart(major, q, q');
    } else if q' < q {
      MultiplesApart(major, q', q);
    }
  }

  lemma QuotientIs(n: int, d: int, q: int)
    requires d > 0 && d * q <= n < d * q + d
    ensures n / d == q
  {
    var p := n / d;
    assert d * p <= n < d * p + d;
    if q < p {
      MultiplesApart(d, q, p);
    } else if p < q {
      MultiplesApart(d, p, q);
    }
  }

  lemma RoundedQuotient(a: int, major: nat, q: int)
    requires major > 0 && 2 * (major * q) - major <= 2 * a < 2 * (major * q) + major
    ensures (2 * a + major) / (2 * major) == q
  {
    var d := 2 * major;
    assert d * q == 2 * (major * q);
    QuotientIs(2 * a + major, d, q);
  }

  /** The closed form of the minor offset. */
  lemma WalkClosedForm(minor: nat, major: nat, k: nat)
    requires minor <= major && major > 0
    ensures Walk(minor, major, k).minor == (2 * (minor * k) + major) / (2 * major)
  {
    WalkIsNearest(minor, major, k);
    RoundedQuotient(minor * k, major, Walk(minor, major, k).minor);
  }

  lemma MulLess(a: int, b: int, m: int)
    requires m >= 0 && a <= b
    ensures m * a <= m * b
  {
  }

  /** The minor offset never passes the step count, nor its final value. */
  lemma WalkBounds(minor: nat, major: nat, k: nat)
    requires minor <= major && major > 0
    ensures Walk(minor, major, k).minor <= k
    ensures k <= major ==> Walk(minor, major, k).minor <= minor
    ensures k == major ==> Walk(minor, major, k).minor == minor
  {
    WalkIsNearest(minor, major, k);
    var q := Walk(minor, major, k).minor;
    MulLess(minor, major, k);
    assert k * minor == minor * k && k * major == major * k;
    NotBeyond(q, k, major);
    if k <= major {
      MulLess(k, major, minor);
      assert minor * major == major * minor;
      NotBeyond(q, minor, major);
    }
    if k == major {
      NearestIsUnique(major, 2 * (minor * k), q, minor);
    }
  }

  lemma NotBeyond(q: int, b: int, major: nat)
    requires major > 0
    ensures 2 * (major * q) - major <= 2 * (major * b) ==> q <= b
  {
    if q > b {
      MultiplesApart(major, b, q);
    }
  }

  // ---------------------------------------------------------------- rays

  /** How many steps the ray with displacement (dx, dy) makes. */
  function Steps(dx: int, dy: int): nat {
    if Abs(dx) >= Abs(dy) then Abs(dx) else Abs(dy)
  }

  /** The displacement of the ray's pixel after k steps. */
  function RayAt(dx: int, dy: int, k: nat): Pixel {
    if Abs(dx) >= Abs(dy) then Pixel(Signed(dx, k), Signed(dy, Walk(Abs(dy), Abs(dx), k).minor))
    else Pixel(Signed(dx, Walk(Abs(dx), Abs(dy), k).minor), Signed(dy, k))
  }

  /** Chebyshev distance of a displacement from the light. */
  function Ring(p: Pixel): nat { Steps(p.x, p.y) }

  /** After k steps the ray is at Chebyshev distance exactly k, inside the box spanned by its
      end points; after its last step it is on its destination. */
  lemma RayStaysInBox(dx: int, dy: int, k: nat)
    requires k <= Steps(dx, dy)
    ensures var p := RayAt(dx, dy, k);
      && Ring(p) == k
      && Abs(p.x) <= Abs(dx) && Abs(p.y) <= Abs(dy)
      && p.x == Signed(dx, Abs(p.x)) && p.y == Signed(dy, Abs(p.y))
    ensures k == Steps(dx, dy) ==> RayAt(dx, dy, k) == Pixel(dx, dy)
  {
    if Steps(dx, dy) > 0 {
      if Abs(dx) >= Abs(dy) {
        WalkBounds(Abs(dy), Abs(dx), k);
      } else {
        WalkBounds(Abs(dx), Abs(dy), k);
      }
    }
  }

  /** The ray with displacement v passes through the pixel with displacement p. */
  predicate Reaches(v: Pixel, p: Pixel) {
    Steps(v.x, v.y) >= Ring(p) && RayAt(v.x, v.y, Ring(p)) == p
  }

  /** A quarter turn. */
  function Turn(p: Pixel): Pixel { Pixel(p.y, -p.x) }

  /** Walking commutes with a quarter turn; on the diagonals both axes step together. */
  lemma RayTurns(dx: int, dy: int, k: nat)
    ensures RayAt(dy, -dx, k) == Turn(RayAt(dx, dy, k))
    ensures Steps(dy, -dx) == Steps(dx, dy)
  {
    if Abs(dx) == Abs(dy) && dx != 0 {
      DiagonalWalk(Abs(dx), k);
    }
  }

  lemma {:induction false} DiagonalWalk(m: nat, k: nat)
    ensures Walk(m, m, k) == Offset(k, m)
  {
    if k > 0 {
      DiagonalWalk(m, k - 1);
    }
  }
}
