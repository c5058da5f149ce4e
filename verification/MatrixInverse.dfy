/**
 The inverse of a 4x4 matrix by Gauss-Jordan elimination with scaled pivoting
 (opencl/openclcuda/shared/inc/nvMatrix.h), over exact reals.

 The code works on four rows of eight numbers: the matrix on the left, the identity on the
 right.  Swapping row pointers is swapping entries of an array of rows here.
 */
module MatrixInverse {

  type Row = r: seq<real> | |r| == 8 witness seq(8, _ => 0.0)

  const ZERO_ROW: Row := seq(8, _ => 0.0)

  type Matrix = m: seq<seq<real>> | |m| == 4 && (forall i :: 0 <= i < 4 ==> |m[i]| == 4)
    witness seq(4, _ => seq(4, _ => 0.0))

  /** The number of a row or a column. */
  type Index = i: int | 0 <= i < 4

  /** A column vector. */
  datatype Vec = Vec(a: real, b: real, c: real, d: real)

  const ZERO := Vec(0.0, 0.0, 0.0, 0.0)

  function Delta(i: int, j: int): real { if i == j then 1.0 else 0.0 }

  function Unit(j: int): Vec { Vec(Delta(0, j), Delta(1, j), Delta(2, j), Delta(3, j)) }

  function Identity(): Matrix {
    [[1.0, 0.0, 0.0, 0.0], [0.0, 1.0, 0.0, 0.0], [0.0, 0.0, 1.0, 0.0], [0.0, 0.0, 0.0, 1.0]]
  }

  function Inner(u: Vec, v: Vec): real { u.a * v.a + u.b * v.b + u.c * v.c + u.d * v.d }

  function Scaled(x: real, u: Vec): Vec { Vec(x * u.a, x * u.b, x * u.c, x * u.d) }

  function Plus(u: Vec, v: Vec): Vec { Vec(u.a + v.a, u.b + v.b, u.c + v.c, u.d + v.d) }

  function Head(r: seq<real>): Vec
    requires |r| >= 4
  {
    Vec(r[0], r[1], r[2], r[3])
  }

  function Column(m: Matrix, j: Index): Vec {
    Vec(m[0][j], m[1][j], m[2][j], m[3][j])
  }

  /** The first four entries of a row times a vector. */
  function Dot(r: seq<real>, v: Vec): real
    requires |r| >= 4
  {
    Inner(Head(r), v)
  }

  /** Entry (i, j) of n * m. */
  function Product(n: Matrix, m: Matrix, i: Index, j: Index): real {
    Dot(n[i], Column(m, j))
  }

  /** n * m is the identity. */
  ghost predicate IsLeftInverse(n: Matrix, m: Matrix) {
    forall i, j :: 0 <= i < 4 && 0 <= j < 4 ==> Product(n, m, i, j) == Delta(i, j)
  }

  ghost predicate InKernel(m: Matrix, v: Vec) {
    Dot(m[0], v) == 0.0 && Dot(m[1], v) == 0.0 && Dot(m[2], v) == 0.0 && Dot(m[3], v) == 0.0
  }

  ghost predicate Nonsingular(m: Matrix) {
    forall v :: InKernel(m, v) ==> v == ZERO
  }

  /** Some combination of the first three columns vanishes. */
  ghost predicate FirstColumnsDependent(m: Matrix) {
    exists v: Vec :: InKernel(m, v) && v != ZERO && v.d == 0.0
  }

  predicate ZeroRow(m: Matrix, i: Index) {
    m[i][0] == 0.0 && m[i][1] == 0.0 && m[i][2] == 0.0 && m[i][3] == 0.0
  }

  lemma TimesAssociates(x: real, y: real, z: real)
    ensures (x * y) * z == x * (y * z)
  {
  }

  lemma FactorOut(f: real, a: real, b: real, c: real, d: real)
    ensures f * (a + b + c + d) == f * a + f * b + f * c + f * d
  {
  }

  lemma InnerScaled(x: real, u: Vec, v: Vec)
    ensures Inner(Scaled(x, u), v) == x * Inner(u, v)
  {
    TimesAssociates(x, u.a, v.a);
    TimesAssociates(x, u.b, v.b);
    TimesAssociates(x, u.c, v.c);
    TimesAssociates(x, u.d, v.d);
    FactorOut(x, u.a * v.a, u.b * v.b, u.c * v.c, u.d * v.d);
  }

  lemma Distributes(x: real, y: real, z: real)
    ensures (x + y) * z == x * z + y * z
  {
  }

  lemma InnerPlus(u: Vec, w: Vec, v: Vec)
    ensures Inner(Plus(u, w), v) == Inner(u, v) + Inner(w, v)
  {
    Distributes(u.a, w.a, v.a);
    Distributes(u.b, w.b, v.b);
    Distributes(u.c, w.c, v.c);
    Distributes(u.d, w.d, v.d);
  }

  /** Row i of n * m, as the combination of m's rows that it is. */
  function ProductRow(n: Matrix, m: Matrix, i: Index): Vec {
    Plus(Plus(Scaled(n[i][0], Head(m[0])), Scaled(n[i][1], Head(m[1]))),
         Plus(Scaled(n[i][2], Head(m[2])), Scaled(n[i][3], Head(m[3]))))
  }

  lemma ProductRowEntries(n: Matrix, m: Matrix, i: Index)
    ensures ProductRow(n, m, i)
            == Vec(Product(n, m, i, 0), Product(n, m, i, 1), Product(n, m, i, 2), Product(n, m, i, 3))
  {
  }

  /** m v. */
  function Image(m: Matrix, v: Vec): Vec {
    Vec(Dot(m[0], v), Dot(m[1], v), Dot(m[2], v), Dot(m[3], v))
  }

  /** (n m) v = n (m v), one row at a time. */
  lemma Associate(n: Matrix, m: Matrix, v: Vec, i: Index)
    ensures Inner(ProductRow(n, m, i), v) == Dot(n[i], Image(m, v))
  {
    InnerPlus(Plus(Scaled(n[i][0], Head(m[0])), Scaled(n[i][1], Head(m[1]))),
              Plus(Scaled(n[i][2], Head(m[2])), Scaled(n[i][3], Head(m[3]))), v);
    InnerPlus(Scaled(n[i][0], Head(m[0])), Scaled(n[i][1], Head(m[1])), v);
    InnerPlus(Scaled(n[i][2], Head(m[2])), Scaled(n[i][3], Head(m[3])), v);
    InnerScaled(n[i][0], Head(m[0]), v);
    InnerScaled(n[i][1], Head(m[1]), v);
    InnerScaled(n[i][2], Head(m[2]), v);
    InnerScaled(n[i][3], Head(m[3]), v);
  }

  lemma ProductRowIsUnit(n: Matrix, m: Matrix, i: Index)
    requires IsLeftInverse(n, m)
    ensures ProductRow(n, m, i) == Unit(i)
  {
    ProductRowEntries(n, m, i);
  }

  /** What n maps m v to is v again. */
  lemma LeftInverseUndoes(n: Matrix, m: Matrix, v: Vec, i: Index)
    requires IsLeftInverse(n, m)
    ensures Dot(n[i], Image(m, v)) == Inner(Unit(i), v)
  {
    ProductRowIsUnit(n, m, i);
    Associate(n, m, v, i);
  }

  lemma UnitPicks(v: Vec)
    ensures Inner(Unit(0), v) == v.a && Inner(Unit(1), v) == v.b && Inner(Unit(2), v) == v.c && Inner(Unit(3), v) == v.d
  {
  }

  /** A matrix with a left inverse maps no other vector to zero. */
  lemma LeftInverseKernel(n: Matrix, m: Matrix, v: Vec)
    requires IsLeftInverse(n, m) && InKernel(m, v)
    ensures v == ZERO
  {
    assert Image(m, v) == ZERO;
    LeftInverseUndoes(n, m, v, 0);
    LeftInverseUndoes(n, m, v, 1);
    LeftInverseUndoes(n, m, v, 2);
    LeftInverseUndoes(n, m, v, 3);
    UnitPicks(v);
  }

  // ---------------------------------------------------------------- row operations

  /** Row r minus f times row q. */
  function Minus(r: Row, f: real, q: Row): (t: Row)
    ensures forall k :: 0 <= k < 8 ==> t[k] == r[k] - f * q[k]
  {
    seq(8, k requires 0 <= k < 8 => r[k] - f * q[k])
  }

  function Tail(r: Row): Vec { Vec(r[4], r[5], r[6], r[7]) }

  /** The right half of a row, applied to the columns of m, gives the left half. */
  ghost predicate Augmented(r: Row, m: Matrix) {
    forall c :: 0 <= c < 4 ==> Inner(Tail(r), Column(m, c)) == r[c]
  }

  lemma CombineTerms(a: real, f: real, b: real, x: real)
    ensures (a - f * b) * x == a * x - f * (b * x)
  {
  }

  lemma MinusDot(r: Row, f: real, q: Row, v: Vec)
    ensures Dot(Minus(r, f, q), v) == Dot(r, v) - f * Dot(q, v)
  {
    CombineTerms(r[0], f, q[0], v.a);
    CombineTerms(r[1], f, q[1], v.b);
    CombineTerms(r[2], f, q[2], v.c);
    CombineTerms(r[3], f, q[3], v.d);
    FactorOut(f, q[0] * v.a, q[1] * v.b, q[2] * v.c, q[3] * v.d);
  }

  lemma MinusTail(r: Row, f: real, q: Row, v: Vec)
    ensures Inner(Tail(Minus(r, f, q)), v) == Inner(Tail(r), v) - f * Inner(Tail(q), v)
  {
    CombineTerms(r[4], f, q[4], v.a);
    CombineTerms(r[5], f, q[5], v.b);
    CombineTerms(r[6], f, q[6], v.c);
    CombineTerms(r[7], f, q[7], v.d);
    FactorOut(f, q[4] * v.a, q[5] * v.b, q[6] * v.c, q[7] * v.d);
  }

  lemma MinusKeepsAugmented(r: Row, f: real, q: Row, m: Matrix)
    requires Augmented(r, m) && Augmented(q, m)
    ensures Augmented(Minus(r, f, q), m)
  {
    forall c | 0 <= c < 4
      ensures Inner(Tail(Minus(r, f, q)), Column(m, c)) == Minus(r, f, q)[c]
    {
      MinusTail(r, f, q, Column(m, c));
    }
  }

  /** Four rows. */
  type Rows = s: seq<Row> | |s| == 4 witness seq(4, _ => ZERO_ROW)

  ghost predicate RowsKernel(s: Rows, v: Vec) {
    Dot(s[0], v) == 0.0 && Dot(s[1], v) == 0.0 && Dot(s[2], v) == 0.0 && Dot(s[3], v) == 0.0
  }

  ghost predicate TailsKernel(s: Rows, v: Vec) {
    Inner(Tail(s[0]), v) == 0.0 && Inner(Tail(s[1]), v) == 0.0 && Inner(Tail(s[2]), v) == 0.0 && Inner(Tail(s[3]), v) == 0.0
  }

  /** What all row operations keep: R m = L, L has the kernel of m, R has no kernel. */
  ghost predicate Reduced(s: Rows, m: Matrix) {
    && (forall i :: 0 <= i < 4 ==> Augmented(s[i], m))
    && (forall v :: RowsKernel(s, v) <==> InKernel(m, v))
    && (forall v :: TailsKernel(s, v) ==> v == ZERO)
  }

  function Swapped<T>(s: seq<T>, i: nat, p: nat): (t: seq<T>)
    requires i < |s| && p < |s|
  {
    s[i := s[p]][p := s[i]]
  }

  lemma SwapKeepsReduced(s: Rows, m: Matrix, i: nat, p: nat)
    requires Reduced(s, m) && i < 4 && p < 4
    ensures Reduced(Swapped(s, i, p), m)
  {
    var t: Rows := Swapped(s, i, p);
    forall v
      ensures RowsKernel(t, v) <==> RowsKernel(s, v)
    {
    }
    forall v
      ensures TailsKernel(t, v) <==> TailsKernel(s, v)
    {
    }
  }

  lemma MinusKeepsReduced(s: Rows, m: Matrix, j: nat, f: real, i: nat)
    requires Reduced(s, m) && i < 4 && j < 4 && i != j
    ensures Reduced(s[j := Minus(s[j], f, s[i])], m)
  {
    var t: Rows := s[j := Minus(s[j], f, s[i])];
    MinusKeepsAugmented(s[j], f, s[i], m);
    forall v
      ensures RowsKernel(t, v) <==> RowsKernel(s, v)
    {
      MinusDot(s[j], f, s[i], v);
    }
    forall v
      ensures TailsKernel(t, v) <==> TailsKernel(s, v)
    {
      MinusTail(s[j], f, s[i], v);
    }
  }

  /** The rows the elimination starts from: the matrix on the left, the identity on the right. */
  function InitialRow(m: Matrix, i: Index): Row {
    m[i] + [Delta(i, 0), Delta(i, 1), Delta(i, 2), Delta(i, 3)]
  }

  function InitialRows(m: Matrix): Rows {
    [InitialRow(m, 0), InitialRow(m, 1), InitialRow(m, 2), InitialRow(m, 3)]
  }

  lemma InitialRowsReduced(m: Matrix)
    ensures Reduced(InitialRows(m), m)
  {
    var s := InitialRows(m);
    forall v
      ensures RowsKernel(s, v) <==> InKernel(m, v)
    {
    }
    forall v
      ensures TailsKernel(s, v) ==> v == ZERO
    {
    }
  }

  // ---------------------------------------------------------------- triangular systems

  /** Columns left of i vanish below the diagonal. */
  predicate Triangular(s: Rows, i: nat) {
    forall r, c :: 0 <= c < i && c < r < 4 ==> s[r][c] == 0.0
  }

  /** The first i pivots do not vanish. */
  predicate Pivots(s: Rows, i: nat)
    requires i <= 4
  {
    forall r :: 0 <= r < i ==> s[r][r] != 0.0
  }

  predicate ColumnVanishes(s: Rows, i: Index) {
    forall r :: i <= r < 4 ==> s[r][i] == 0.0
  }

  lemma ProductZero(d: real, x: real)
    requires d != 0.0 && d * x == 0.0
    ensures x == 0.0
  {
  }

  lemma Cancels(d: real, x: real)
    requires d != 0.0
    ensures d * (0.0 - x / d) + x == 0.0
  {
  }

  /** The value of the unknown at the pivot d that makes d * unknown + x vanish. */
  function Solve(d: real, x: real): (u: real)
    requires d != 0.0
    ensures d * u + x == 0.0
  {
    Cancels(d, x);
    0.0 - x / d
  }

  /** A column without a pivot gives a vector that the left halves map to zero. */
  lemma NullVector(s: Rows, i: nat) returns (v: Vec)
    requires i < 4 && Triangular(s, i) && Pivots(s, i) && ColumnVanishes(s, i)
    ensures RowsKernel(s, v) && v != ZERO && (i < 3 ==> v.d == 0.0)
  {
    if i == 0 {
      v := Vec(1.0, 0.0, 0.0, 0.0);
    } else if i == 1 {
      v := Vec(Solve(s[0][0], s[0][1]), 1.0, 0.0, 0.0);
    } else if i == 2 {
      v := NullVector2(s);
    } else {
      v := NullVector3(s);
    }
  }

  lemma NullVector2(s: Rows) returns (v: Vec)
    requires Triangular(s, 2) && Pivots(s, 2) && ColumnVanishes(s, 2)
    ensures RowsKernel(s, v) && v != ZERO && v.d == 0.0
  {
    var b := Solve(s[1][1], s[1][2]);
    v := Vec(Solve(s[0][0], s[0][1] * b + s[0][2]), b, 1.0, 0.0);
  }

  lemma NullVector3(s: Rows) returns (v: Vec)
    requires Triangular(s, 3) && Pivots(s, 3) && ColumnVanishes(s, 3)
    ensures RowsKernel(s, v) && v != ZERO
  {
    var c := Solve(s[2][2], s[2][3]);
    var b := Solve(s[1][1], s[1][2] * c + s[1][3]);
    v := Vec(Solve(s[0][0], s[0][1] * b + s[0][2] * c + s[0][3]), b, c, 1.0);
  }

  /** With three pivots in place, a vector mapped to zero is determined by its last entry. */
  lemma TriangularKernel(s: Rows, v: Vec)
    requires Triangular(s, 3) && Pivots(s, 3) && RowsKernel(s, v)
    requires v.d == 0.0 || s[3][3] != 0.0
    ensures v == ZERO
  {
    if s[3][3] != 0.0 { ProductZero(s[3][3], v.d); }
    ProductZero(s[2][2], v.c);
    ProductZero(s[1][1], v.b);
    ProductZero(s[0][0], v.a);
  }

  // ---------------------------------------------------------------- the elimination

  function Magnitude(x: real): real { if x < 0.0 then 0.0 - x else x }

  predicate Positive(scp: seq<real>) {
    |scp| == 4 && forall i :: 0 <= i < 4 ==> scp[i] > 0.0
  }

  /** The largest of a row's first four entries, in magnitude. */
  method ScaleOf(r: Row) returns (scp: real)
    ensures forall j :: 0 <= j < 4 ==> Magnitude(r[j]) <= scp
    ensures exists j :: 0 <= j < 4 && Magnitude(r[j]) == scp
  {
    scp := Magnitude(r[0]);
    var j := 1;
    while j < 4
      invariant 1 <= j <= 4
      invariant forall k :: 0 <= k < j ==> Magnitude(r[k]) <= scp
      invariant exists k :: 0 <= k < j && Magnitude(r[k]) == scp
    {
      if Magnitude(r[j]) > scp { scp := Magnitude(r[j]); }
      j := j + 1;
    }
  }

  /** The scales of all rows; stops at a row of zeros. */
  method Scales(m: Matrix, s: seq<Row>) returns (scp: seq<real>)
    requires s == InitialRows(m)
    ensures |scp| < 4 ==> ZeroRow(m, |scp|)
    ensures |scp| >= 4 ==> Positive(scp) && forall i :: 0 <= i < 4 ==> !ZeroRow(m, i)
  {
    scp := [];
    var i := 0;
    while i < 4
      invariant 0 <= i <= 4 && |scp| == i
      invariant forall k :: 0 <= k < i ==> scp[k] > 0.0
      invariant forall k :: 0 <= k < i ==> !ZeroRow(m, k)
    {
      assert s[i] == InitialRow(m, i);
      var x := ScaleOf(s[i]);
      assert s[i][0] == m[i][0] && s[i][1] == m[i][1] && s[i][2] == m[i][2] && s[i][3] == m[i][3];
      if x == 0.0 { return; }
      scp := scp + [x];
      i := i + 1;
    }
  }

  function Ratio(s: Rows, scp: seq<real>, i: nat, p: nat): (r: real)
    requires Positive(scp) && i < 4 && p < 4
    ensures r >= 0.0
    ensures r == 0.0 <==> s[p][i] == 0.0
  {
    RatioSign(s[p][i], scp[p]);
    Magnitude(s[p][i] / scp[p])
  }

  lemma RatioSign(x: real, d: real)
    requires d > 0.0
    ensures x / d == 0.0 <==> x == 0.0
  {
    if x != 0.0 {
      assert (x / d) * d == x;
    }
  }

  /** The first row at or below i whose entry in column i is largest relative to its scale. */
  method SelectPivot(s: Rows, scp: seq<real>, i: nat) returns (pivotTo: nat)
    requires Positive(scp) && i < 4
    ensures i <= pivotTo < 4
    ensures forall p :: i <= p < 4 ==> Ratio(s, scp, i, p) <= Ratio(s, scp, i, pivotTo)
    ensures forall p :: i <= p < pivotTo ==> Ratio(s, scp, i, p) < Ratio(s, scp, i, pivotTo)
  {
    pivotTo := i;
    var p := i + 1;
    while p < 4
      invariant i < p <= 4
      invariant i <= pivotTo < p
      invariant forall q :: i <= q < p ==> Ratio(s, scp, i, q) <= Ratio(s, scp, i, pivotTo)
      invariant forall q :: i <= q < pivotTo ==> Ratio(s, scp, i, q) < Ratio(s, scp, i, pivotTo)
    {
      if Ratio(s, scp, i, p) > Ratio(s, scp, i, pivotTo) {
        pivotTo := p;
      }
      p := p + 1;
    }
  }

  /** row[jj] -= f * pivot[jj] for jj from start on. */
  method SubtractFrom(row: Row, f: real, pivot: Row, start: nat) returns (t: Row)
    requires start <= 8
    ensures forall k :: 0 <= k < start ==> t[k] == row[k]
    ensures forall k :: start <= k < 8 ==> t[k] == row[k] - f * pivot[k]
  {
    t := row;
    var jj := start;
    while jj < 8
      invariant start <= jj <= 8
      invariant forall k :: 0 <= k < start || jj <= k < 8 ==> t[k] == row[k]
      invariant forall k :: start <= k < jj ==> t[k] == row[k] - f * pivot[k]
    {
      t := t[jj := t[jj] - f * pivot[jj]];
      jj := jj + 1;
    }
  }

  /** Where the pivot row has zeros, leaving an entry alone is subtracting. */
  lemma PartialMinus(row: Row, f: real, pivot: Row, t: Row)
    requires forall k :: 0 <= k < 8 ==> t[k] == row[k] - f * pivot[k] || (t[k] == row[k] && pivot[k] == 0.0)
    ensures t == Minus(row, f, pivot)
  {
    forall k | 0 <= k < 8
      ensures t[k] == Minus(row, f, pivot)[k]
    {
      assert t[k] == row[k] - f * pivot[k] || (t[k] == row[k] && pivot[k] == 0.0);
      assert f * 0.0 == 0.0;
    }
  }

  lemma DivideTimes(x: real, d: real)
    requires d != 0.0
    ensures (x / d) * d == x
  {
  }

  /** One row of the forward elimination: row j loses its entry in column i. */
  method EliminateRow(row: Row, pivot: Row, i: nat) returns (t: Row)
    requires i < 4 && pivot[i] != 0.0
    requires forall k :: 0 <= k < i ==> row[k] == 0.0 && pivot[k] == 0.0
    ensures t == Minus(row, row[i] / pivot[i], pivot)
    ensures forall k :: 0 <= k <= i ==> t[k] == 0.0
  {
    var mji := row[i] / pivot[i];
    t := SubtractFrom(row[i := 0.0], mji, pivot, i + 1);
    DivideTimes(row[i], pivot[i]);
    assert t[i] == row[i] - mji * pivot[i];
    PartialMinus(row, mji, pivot, t);
  }

  /** Column i is cleared below the diagonal, from row j on. */
  predicate Cleared(s: Rows, i: nat, j: nat)
    requires i < 4 && j <= 4
  {
    forall r :: i < r < j ==> s[r][i] == 0.0
  }

  method EliminateColumn(s: array<Row>, i: nat, ghost m: Matrix)
    requires s.Length == 4 && i < 4
    requires Reduced(s[..], m) && Triangular(s[..], i) && s[i][i] != 0.0
    modifies s
    ensures Reduced(s[..], m) && Triangular(s[..], i + 1)
    ensures forall r :: 0 <= r <= i ==> s[r] == old(s[r])
  {
    var j := i + 1;
    while j < 4
      invariant i < j <= 4
      invariant Reduced(s[..], m) && Triangular(s[..], i) && Cleared(s[..], i, j)
      invariant forall r :: 0 <= r <= i ==> s[r] == old(s[r])
    {
      ghost var before: Rows := s[..];
      assert forall k :: 0 <= k < i ==> before[j][k] == 0.0 && before[i][k] == 0.0;
      var t := EliminateRow(s[j], s[i], i);
      s[j] := t;
      MinusKeepsReduced(before, m, j, before[j][i] / before[i][i], i);
      assert s[..] == before[j := t];
      j := j + 1;
    }
  }

  /** Forward elimination; false when a division by a vanishing pivot is reached. */
  method Eliminate(s: array<Row>, scp: array<real>, ghost m: Matrix) returns (ok: bool)
    requires s.Length == 4 && scp.Length == 4 && Positive(scp[..]) && Reduced(s[..], m)
    modifies s, scp
    ensures ok ==> Reduced(s[..], m) && Triangular(s[..], 4) && Pivots(s[..], 3)
    ensures !ok ==> FirstColumnsDependent(m)
  {
    var i := 0;
    while i < 4
      invariant 0 <= i <= 4 && Positive(scp[..])
      invariant Reduced(s[..], m) && Triangular(s[..], i) && Pivots(s[..], if i < 3 then i else 3)
    {
      PivotRow(s, scp, i, m);
      if s[i][i] == 0.0 {
        LeaderVanishes(s[..], scp[..], i);
        if i < 3 {
          var v := NullVector(s[..], i);
          assert InKernel(m, v);
          return false;
        }
      } else {
        EliminateColumn(s, i, m);
      }
      i := i + 1;
    }
    ok := true;
  }

  /** Row i has the largest ratio of the rows from i on. */
  ghost predicate Leads(s: Rows, scp: seq<real>, i: nat, q: nat)
    requires Positive(scp) && i < 4 && q < 4
  {
    forall p :: i <= p < 4 ==> Ratio(s, scp, i, p) <= Ratio(s, scp, i, q)
  }

  lemma SwapLeads(s: Rows, scp: seq<real>, i: nat, q: nat)
    requires Positive(scp) && i <= q < 4 && Leads(s, scp, i, q)
    ensures Positive(Swapped(scp, i, q)) && Leads(Swapped(s, i, q), Swapped(scp, i, q), i, i)
  {
    var t, u := Swapped(s, i, q), Swapped(scp, i, q);
    assert Ratio(t, u, i, i) == Ratio(s, scp, i, q);
    forall p | i <= p < 4
      ensures Ratio(t, u, i, p) <= Ratio(t, u, i, i)
    {
      assert Ratio(t, u, i, p) == Ratio(s, scp, i, if p == i then q else if p == q then i else p);
    }
  }

  lemma SwapKeepsShape(s: Rows, i: nat, q: nat)
    requires i <= q < 4 && Triangular(s, i) && Pivots(s, if i < 3 then i else 3)
    ensures Triangular(Swapped(s, i, q), i) && Pivots(Swapped(s, i, q), if i < 3 then i else 3)
  {
  }

  lemma LeaderVanishes(s: Rows, scp: seq<real>, i: nat)
    requires Positive(scp) && i < 4 && Leads(s, scp, i, i) && s[i][i] == 0.0
    ensures ColumnVanishes(s, i)
  {
    forall p | i <= p < 4
      ensures s[p][i] == 0.0
    {
      assert Ratio(s, scp, i, p) <= Ratio(s, scp, i, i);
    }
  }

  /** Brings the chosen pivot row to position i. */
  method PivotRow(s: array<Row>, scp: array<real>, i: nat, ghost m: Matrix)
    requires s.Length == 4 && scp.Length == 4 && Positive(scp[..]) && Reduced(s[..], m)
    requires i < 4 && Triangular(s[..], i) && Pivots(s[..], if i < 3 then i else 3)
    modifies s, scp
    ensures Positive(scp[..]) && Reduced(s[..], m)
    ensures Triangular(s[..], i) && Pivots(s[..], if i < 3 then i else 3)
    ensures Leads(s[..], scp[..], i, i)
  {
    var pivotTo := SelectPivot(s[..], scp[..], i);
    if pivotTo != i {
      ghost var rows, scales := s[..], scp[..];
      s[i], s[pivotTo] := s[pivotTo], s[i];
      scp[i], scp[pivotTo] := scp[pivotTo], scp[i];
      assert s[..] == Swapped(rows, i, pivotTo);
      assert scp[..] == Swapped(scales, i, pivotTo);
      SwapKeepsReduced(rows, m, i, pivotTo);
      SwapKeepsShape(rows, i, pivotTo);
      SwapLeads(rows, scales, i, pivotTo);
    }
  }

  /** Columns right of i vanish above the diagonal. */
  predicate Above(s: Rows, i: nat) {
    forall r, c :: i < c < 4 && 0 <= r < c ==> s[r][c] == 0.0
  }

  /** Column i is cleared above the diagonal, down from row j + 1. */
  predicate ClearedAbove(s: Rows, i: nat, j: int)
    requires i < 4 && -1 <= j
  {
    forall r :: j < r < i ==> s[r][i] == 0.0
  }

  method BackRow(row: Row, pivot: Row, i: nat, j: nat) returns (t: Row)
    requires j < i < 4 && pivot[i] != 0.0
    requires forall k :: 0 <= k < i ==> pivot[k] == 0.0
    ensures t == Minus(row, row[i] / pivot[i], pivot)
    ensures t[i] == 0.0
    ensures forall k :: 0 <= k < i || (i < k < 4 && row[k] == 0.0 && pivot[k] == 0.0) ==> t[k] == row[k]
  {
    var mij := row[i] / pivot[i];
    t := SubtractFrom(row, mij, pivot, j + 1);
    DivideTimes(row[i], pivot[i]);
    PartialMinus(row, mij, pivot, t);
    assert mij * 0.0 == 0.0;
  }

  method BackColumn(s: array<Row>, i: nat, ghost m: Matrix)
    requires s.Length == 4 && 0 < i < 4
    requires Reduced(s[..], m) && Triangular(s[..], 4) && Pivots(s[..], 4) && Above(s[..], i)
    modifies s
    ensures Reduced(s[..], m) && Triangular(s[..], 4) && Pivots(s[..], 4) && Above(s[..], i - 1)
  {
    var j := i - 1;
    while j > -1
      invariant -1 <= j < i
      invariant Reduced(s[..], m) && Triangular(s[..], 4) && Pivots(s[..], 4)
      invariant Above(s[..], i) && ClearedAbove(s[..], i, j)
    {
      ghost var before: Rows := s[..];
      assert forall k :: 0 <= k < i ==> before[i][k] == 0.0;
      var t := BackRow(s[j], s[i], i, j);
      s[j] := t;
      MinusKeepsReduced(before, m, j, before[j][i] / before[i][i], i);
      assert s[..] == before[j := t];
      j := j - 1;
    }
  }

  method BackSubstitute(s: array<Row>, ghost m: Matrix)
    requires s.Length == 4
    requires Reduced(s[..], m) && Triangular(s[..], 4) && Pivots(s[..], 4)
    modifies s
    ensures Reduced(s[..], m) && Triangular(s[..], 4) && Pivots(s[..], 4) && Above(s[..], 0)
  {
    var i := 3;
    while i > 0
      invariant 0 <= i <= 3
      invariant Reduced(s[..], m) && Triangular(s[..], 4) && Pivots(s[..], 4) && Above(s[..], i)
    {
      BackColumn(s, i, m);
      i := i - 1;
    }
  }

  // ---------------------------------------------------------------- the result

  /** minv(i, j) = s[i][j + 4] / s[i][i]. */
  method Divide(s: Rows) returns (minv: Matrix)
    requires Pivots(s, 4)
    ensures forall i :: 0 <= i < 4 ==> Head(minv[i]) == Quotients(s[i], s[i][i])
  {
    minv := Identity();
    var i := 0;
    while i < 4
      invariant 0 <= i <= 4
      invariant forall k :: 0 <= k < i ==> Head(minv[k]) == Quotients(s[k], s[k][k])
    {
      var j, row := 0, minv[i];
      while j < 4
        invariant 0 <= j <= 4 && |row| == 4
        invariant forall k :: 0 <= k < j ==> row[k] == s[i][k + 4] / s[i][i]
      {
        row := row[j := s[i][j + 4] / s[i][i]];
        j := j + 1;
      }
      minv := minv[i := row];
      i := i + 1;
    }
  }

  function Quotients(r: Row, d: real): Vec
    requires d != 0.0
  {
    Vec(r[4] / d, r[5] / d, r[6] / d, r[7] / d)
  }

  lemma QuotientsScaled(r: Row, d: real)
    requires d != 0.0
    ensures Scaled(d, Quotients(r, d)) == Tail(r)
  {
    DivideTimes(r[4], d);
    DivideTimes(r[5], d);
    DivideTimes(r[6], d);
    DivideTimes(r[7], d);
  }

  ghost predicate Solved(s: Rows, m: Matrix, minv: Matrix) {
    && Reduced(s, m) && Triangular(s, 4) && Pivots(s, 4) && Above(s, 0)
    && forall i :: 0 <= i < 4 ==> Head(minv[i]) == Quotients(s[i], s[i][i])
  }

  lemma SolvedIsLeftInverse(s: Rows, m: Matrix, minv: Matrix)
    requires Solved(s, m, minv)
    ensures IsLeftInverse(minv, m)
  {
    forall i, j | 0 <= i < 4 && 0 <= j < 4
      ensures Product(minv, m, i, j) == Delta(i, j)
    {
      var d := s[i][i];
      QuotientsScaled(s[i], d);
      InnerScaled(d, Head(minv[i]), Column(m, j));
      assert d * Product(minv, m, i, j) == s[i][j];
      OneOrNone(d, Product(minv, m, i, j), i == j);
    }
  }

  lemma OneOrNone(d: real, x: real, one: bool)
    requires d != 0.0 && d * x == if one then d else 0.0
    ensures x == if one then 1.0 else 0.0
  {
    var e := if one then 1.0 else 0.0;
    assert d * (x - e) == d * x - d * e;
    ProductZero(d, x - e);
  }

  lemma SolvedHasNoKernel(s: Rows, m: Matrix, minv: Matrix, v: Vec)
    requires Solved(s, m, minv) && InKernel(minv, v)
    ensures v == ZERO
  {
    forall i | 0 <= i < 4
      ensures Inner(Tail(s[i]), v) == 0.0
    {
      QuotientsScaled(s[i], s[i][i]);
      InnerScaled(s[i][i], Head(minv[i]), v);
      assert Dot(minv[i], v) == 0.0;
    }
    assert TailsKernel(s, v);
  }

  lemma ColumnPicked(n: Matrix, i: Index, j: Index)
    ensures Inner(Unit(i), Column(n, j)) == n[i][j]
  {
    UnitPicks(Column(n, j));
  }

  function LessUnit(u: Vec, j: nat): Vec {
    Vec(u.a - Delta(0, j), u.b - Delta(1, j), u.c - Delta(2, j), u.d - Delta(3, j))
  }

  lemma TimesDifference(x: real, y: real, e: real)
    ensures x * (y - e) == x * y - x * e
  {
  }

  lemma DotLessUnit(r: seq<real>, u: Vec, j: nat)
    requires |r| == 4 && j < 4
    ensures Dot(r, LessUnit(u, j)) == Dot(r, u) - r[j]
  {
    TimesDifference(r[0], u.a, Delta(0, j));
    TimesDifference(r[1], u.b, Delta(1, j));
    TimesDifference(r[2], u.c, Delta(2, j));
    TimesDifference(r[3], u.d, Delta(3, j));
  }

  /** A matrix without a kernel maps only the unit vector to its own column. */
  lemma OnlyUnitGivesColumn(n: Matrix, u: Vec, j: nat)
    requires Nonsingular(n) && j < 4
    requires Dot(n[0], u) == n[0][j] && Dot(n[1], u) == n[1][j] && Dot(n[2], u) == n[2][j] && Dot(n[3], u) == n[3][j]
    ensures u == Unit(j)
  {
    DotLessUnit(n[0], u, j);
    DotLessUnit(n[1], u, j);
    DotLessUnit(n[2], u, j);
    DotLessUnit(n[3], u, j);
    assert InKernel(n, LessUnit(u, j));
  }

  lemma ImageOfColumn(n: Matrix, m: Matrix, i: nat, j: nat)
    requires IsLeftInverse(n, m) && i < 4 && j < 4
    ensures Dot(n[i], Image(m, Column(n, j))) == n[i][j]
  {
    LeftInverseUndoes(n, m, Column(n, j), i);
    ColumnPicked(n, i, j);
  }

  lemma ImageEntry(m: Matrix, w: Vec, i: nat, j: nat)
    requires i < 4 && j < 4 && Image(m, w) == Unit(j)
    ensures Dot(m[i], w) == Delta(i, j)
  {
    if i == 0 {
      assert Image(m, w).a == Unit(j).a;
    } else if i == 1 {
      assert Image(m, w).b == Unit(j).b;
    } else if i == 2 {
      assert Image(m, w).c == Unit(j).c;
    } else {
      assert Image(m, w).d == Unit(j).d;
    }
  }

  /** A left inverse that maps no other vector to zero is a right inverse too. */
  lemma LeftInverseIsRight(n: Matrix, m: Matrix)
    requires IsLeftInverse(n, m) && Nonsingular(n)
    ensures IsLeftInverse(m, n)
  {
    forall i, j | 0 <= i < 4 && 0 <= j < 4
      ensures Product(m, n, i, j) == Delta(i, j)
    {
      ImageOfColumn(n, m, 0, j);
      ImageOfColumn(n, m, 1, j);
      ImageOfColumn(n, m, 2, j);
      ImageOfColumn(n, m, 3, j);
      OnlyUnitGivesColumn(n, Image(m, Column(n, j)), j);
      ImageEntry(m, Column(n, j), i, j);
    }
  }

  lemma SolvedIsInverse(s: Rows, m: Matrix, minv: Matrix)
    requires Solved(s, m, minv)
    ensures IsInverse(minv, m)
  {
    SolvedIsLeftInverse(s, m, minv);
    forall v | InKernel(minv, v)
      ensures v == ZERO
    {
      SolvedHasNoKernel(s, m, minv, v);
    }
    LeftInverseIsRight(minv, m);
  }

  // ---------------------------------------------------------------- the operation

  /**
   What a call comes to: an inverse, the early return of a freshly constructed matrix (which
   its constructor makes the identity), or a division by a vanishing pivot.
   */
  datatype Outcome = Inverted(value: Matrix) | Singular(value: Matrix) | DividedByZero

  ghost predicate IsInverse(n: Matrix, m: Matrix) {
    IsLeftInverse(n, m) && IsLeftInverse(m, n)
  }

  ghost predicate Invertible(m: Matrix) {
    exists n :: IsInverse(n, m)
  }

  predicate HasZeroRow(m: Matrix) {
    ZeroRow(m, 0) || ZeroRow(m, 1) || ZeroRow(m, 2) || ZeroRow(m, 3)
  }

  lemma InvertibleHasNoKernel(m: Matrix)
    requires Invertible(m)
    ensures Nonsingular(m)
  {
    var n :| IsInverse(n, m);
    forall v | InKernel(m, v)
      ensures v == ZERO
    {
      LeftInverseKernel(n, m, v);
    }
  }

  /** The first test of the code is sound: a row of zeros rules an inverse out. */
  lemma ZeroRowSingular(m: Matrix, i: Index)
    requires ZeroRow(m, i)
    ensures !Invertible(m)
  {
    forall n
      ensures !IsInverse(n, m)
    {
      assert Product(m, n, i, i) == 0.0;
    }
  }

  lemma DependentSingular(m: Matrix)
    requires FirstColumnsDependent(m)
    ensures !Invertible(m)
  {
    if Invertible(m) {
      InvertibleHasNoKernel(m);
      assert false;
    }
  }

  lemma LastPivotSingular(s: Rows, m: Matrix)
    requires Reduced(s, m) && Triangular(s, 4) && Pivots(s, 3) && s[3][3] == 0.0
    ensures !Invertible(m) && !FirstColumnsDependent(m)
  {
    var v := NullVector(s, 3);
    assert InKernel(m, v);
    if Invertible(m) {
      InvertibleHasNoKernel(m);
    }
    ThreePivots(s, m);
  }

  lemma ThreePivots(s: Rows, m: Matrix)
    requires Reduced(s, m) && Triangular(s, 4) && Pivots(s, 3)
    ensures !FirstColumnsDependent(m)
  {
    forall v | InKernel(m, v) && v.d == 0.0
      ensures v == ZERO
    {
      TriangularKernel(s, v);
    }
  }

  method Inverse(m: Matrix) returns (o: Outcome)
    ensures o.Inverted? <==> Invertible(m)
    ensures o.Inverted? ==> IsInverse(o.value, m)
    ensures o.DividedByZero? <==> !HasZeroRow(m) && FirstColumnsDependent(m)
    ensures o.Singular? ==> o.value == Identity()
  {
    var rows := InitialRows(m);
    InitialRowsReduced(m);
    var scales := Scales(m, rows);
    if |scales| < 4 {
      ZeroRowSingular(m, |scales|);
      return Singular(Identity());
    }
    var s := new Row[4](i requires 0 <= i < 4 => rows[i]);
    var scp := new real[4](i requires 0 <= i < 4 => scales[i]);
    assert s[..] == rows && scp[..] == scales[..4];
    var ok := Eliminate(s, scp, m);
    if !ok {
      DependentSingular(m);
      return DividedByZero;
    }
    if s[3][3] == 0.0 {
      LastPivotSingular(s[..], m);
      return Singular(Identity());
    }
    ThreePivots(s[..], m);
    BackSubstitute(s, m);
    var minv := Divide(s[..]);
    SolvedIsInverse(s[..], m, minv);
    o := Inverted(minv);
  }

  lemma IdentityInNumbers(i: Index, j: Index)
    ensures Identity()[i][j] == if i == j then 1.0 else 0.0
  {
  }

  /** An inverse, entry by entry: the rows of n times the columns of m, and the other way round. */
  lemma InverseInNumbers(n: Matrix, m: Matrix, i: Index, j: Index)
    requires IsInverse(n, m)
    ensures n[i][0] * m[0][j] + n[i][1] * m[1][j] + n[i][2] * m[2][j] + n[i][3] * m[3][j] == if i == j then 1.0 else 0.0
    ensures m[i][0] * n[0][j] + m[i][1] * n[1][j] + m[i][2] * n[2][j] + m[i][3] * n[3][j] == if i == j then 1.0 else 0.0
  {
    assert Product(n, m, i, j) == Delta(i, j) && Product(m, n, i, j) == Delta(i, j);
  }

  /**
   Not every singular matrix takes an early return: two equal first columns, and no row of
   zeros, and the code divides by zero.
   */
  lemma EqualColumnsDependent(m: Matrix)
    requires forall i :: 0 <= i < 4 ==> m[i][0] == m[i][1]
    ensures FirstColumnsDependent(m)
  {
    EqualEntries(m[0]);
    EqualEntries(m[1]);
    EqualEntries(m[2]);
    EqualEntries(m[3]);
    assert InKernel(m, DIFFERENCE);
  }

  const DIFFERENCE := Vec(1.0, -1.0, 0.0, 0.0)

  lemma EqualEntries(r: seq<real>)
    requires |r| == 4 && r[0] == r[1]
    ensures Dot(r, DIFFERENCE) == 0.0
  {
  }

  function Ones(): Matrix {
    [[1.0, 1.0, 1.0, 1.0], [1.0, 1.0, 1.0, 1.0], [1.0, 1.0, 1.0, 1.0], [1.0, 1.0, 1.0, 1.0]]
  }

  lemma OnesDivideByZero()
    ensures !HasZeroRow(Ones()) && FirstColumnsDependent(Ones())
  {
    EqualColumnsDependent(Ones());
  }

  method InverseOfOnes() returns (o: Outcome)
    ensures o == DividedByZero
  {
    OnesDivideByZero();
    o := Inverse(Ones());
  }
}
