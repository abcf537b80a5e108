/**
 * The one-dimensional implicit half-step of the Crank–Nicholson solver:
 * a tridiagonal system closed at both ends by a three-coefficient Robin
 * condition, solved by the Thomas algorithm (forward sweep building p and q,
 * then back substitution).
 *
 * This module gives the specification as functions on values: the
 * coefficients the solver builds, the forward sweep, the back substitution,
 * and, as an independent reference, the linear system the result must
 * satisfy.  The imperative solver in CrankNicholson2D is proved equal to
 * Thomas below.
 */
module Tridiagonal {

  /** The four arrays one row (or column) solve receives. */
  datatype Line = Line(data: seq<real>, bSum: seq<real>, coefOld: seq<real>, coef: seq<real>)

  /**
   * What a line solve reads without going out of bounds: the boundary
   * coefficient vector has three entries, there are two boundary sums, the
   * line has at least three cells (coef[2] and coef[size-3] are read) and
   * both coefficient arrays cover the line.
   */
  predicate WellShaped(bc: seq<real>, ln: Line) {
    && |bc| == 3
    && |ln.bSum| >= 2
    && |ln.data| >= 3
    && |ln.coefOld| >= |ln.data|
    && |ln.coef| >= |ln.data|
  }

  /** Averaged coefficient between cells m and m+1 (the source's `a`). */
  function Right(coef: seq<real>, m: int): real
    requires 0 <= m && m + 1 < |coef|
  {
    (coef[m] + coef[m + 1]) / 2.0
  }

  /** Averaged coefficient between cells m-1 and m (the source's `b`). */
  function Left(coef: seq<real>, m: int): real
    requires 1 <= m < |coef|
  {
    (coef[m - 1] + coef[m]) / 2.0
  }

  /** Diagonal of the implicit operator at m (the source's `c`). */
  function Diag(coef: seq<real>, m: int): real
    requires 1 <= m && m + 1 < |coef|
  {
    Right(coef, m) + Left(coef, m) + 1.0
  }

  /** Explicit right-hand side at interior index m (the source's `d`). */
  function Rhs(ln: Line, m: int): real
    requires 1 <= m && m + 1 < |ln.data| && |ln.coefOld| >= |ln.data|
  {
    var c := ln.coefOld;
    (c[m] + c[m + 1]) / 2.0 * ln.data[m + 1] + (c[m - 1] + c[m]) / 2.0 * ln.data[m - 1]
      - (c[m] + (c[m - 1] + c[m + 1]) / 2.0 - 1.0) * ln.data[m]
  }

  /**
   * The p and q coefficients of the forward sweep.  `ok` is false once a
   * pivot is zero; the entries after that point carry no meaning.
   */
  datatype Sweep = Sweep(p: seq<real>, q: seq<real>, ok: bool)

  /** Pivot of step zero, closed by the lower boundary condition. */
  function FirstPivot(bc: seq<real>, ln: Line): real
    requires WellShaped(bc, ln)
  {
    bc[0] * Right(ln.coef, 1) - bc[2] * Left(ln.coef, 1)
  }

  /** Pivot of interior step m, given the previous p. */
  function Pivot(ln: Line, m: int, pPrev: real): real
    requires |ln.coef| >= |ln.data|
    requires 1 <= m && m + 1 < |ln.data|
  {
    Diag(ln.coef, m) + Left(ln.coef, m) * pPrev
  }

  /** p entry of step zero. */
  function FirstP(bc: seq<real>, ln: Line): real
    requires WellShaped(bc, ln) && FirstPivot(bc, ln) != 0.0
  {
    (bc[2] * Diag(ln.coef, 1) + bc[1] * Right(ln.coef, 1)) * (1.0 / FirstPivot(bc, ln))
  }

  /** q entry of step zero. */
  function FirstQ(bc: seq<real>, ln: Line): real
    requires WellShaped(bc, ln) && FirstPivot(bc, ln) != 0.0
  {
    (ln.bSum[0] * Right(ln.coef, 1) + bc[2] * Rhs(ln, 1)) * (1.0 / FirstPivot(bc, ln))
  }

  /** p entry of interior step m. */
  function StepP(ln: Line, m: int, pPrev: real): real
    requires |ln.coef| >= |ln.data| && |ln.coefOld| >= |ln.data|
    requires 1 <= m && m + 1 < |ln.data| && Pivot(ln, m, pPrev) != 0.0
  {
    -Right(ln.coef, m) * (1.0 / Pivot(ln, m, pPrev))
  }

  /** q entry of interior step m. */
  function StepQ(ln: Line, m: int, pPrev: real, qPrev: real): real
    requires |ln.coef| >= |ln.data| && |ln.coefOld| >= |ln.data|
    requires 1 <= m && m + 1 < |ln.data| && Pivot(ln, m, pPrev) != 0.0
  {
    (Rhs(ln, m) + Left(ln.coef, m) * qPrev) * (1.0 / Pivot(ln, m, pPrev))
  }

  /** The first n entries of p and q. */
  function ForwardSweep(bc: seq<real>, ln: Line, n: nat): (s: Sweep)
    requires WellShaped(bc, ln)
    requires 1 <= n < |ln.data|
    ensures |s.p| == n && |s.q| == n
    decreases n
  {
    if n == 1 then
      if FirstPivot(bc, ln) == 0.0 then Sweep([0.0], [0.0], false)
      else Sweep([FirstP(bc, ln)], [FirstQ(bc, ln)], true)
    else
      var s := ForwardSweep(bc, ln, n - 1);
      var m := n - 1;
      if !s.ok || Pivot(ln, m, s.p[m - 1]) == 0.0 then Sweep(s.p + [0.0], s.q + [0.0], false)
      else Sweep(s.p + [StepP(ln, m, s.p[m - 1])], s.q + [StepQ(ln, m, s.p[m - 1], s.q[m - 1])], true)
  }

  /** The complete sweep, p[0..size-2] and q[0..size-2]. */
  function FullSweep(bc: seq<real>, ln: Line): (s: Sweep)
    requires WellShaped(bc, ln)
    ensures |s.p| == |s.q| == |ln.data| - 1
  {
    ForwardSweep(bc, ln, |ln.data| - 1)
  }

  /** Coefficient of the last unknown's neighbour in the upper closure. */
  function UpperWeight(bc: seq<real>, ln: Line): real
    requires WellShaped(bc, ln)
  {
    var m := |ln.data| - 2;
    bc[1] * Left(ln.coef, m) + bc[0] * Diag(ln.coef, m)
  }

  /** Denominator of the last unknown, closed by the upper boundary condition. */
  function LastDenominator(bc: seq<real>, ln: Line, s: Sweep): real
    requires WellShaped(bc, ln) && |s.p| == |ln.data| - 1
  {
    var m := |ln.data| - 2;
    bc[2] * Left(ln.coef, m) - bc[0] * Right(ln.coef, m) - s.p[m] * UpperWeight(bc, ln)
  }

  /** Numerator of the last unknown. */
  function LastNumerator(bc: seq<real>, ln: Line, s: Sweep): real
    requires WellShaped(bc, ln) && |s.q| == |ln.data| - 1
  {
    var m := |ln.data| - 2;
    ln.bSum[1] * Left(ln.coef, m) + bc[0] * Rhs(ln, m) - s.q[m] * UpperWeight(bc, ln)
  }

  /** Every division the solve performs has a nonzero divisor. */
  predicate Solvable(bc: seq<real>, ln: Line)
  {
    && WellShaped(bc, ln)
    && FullSweep(bc, ln).ok
    && LastDenominator(bc, ln, FullSweep(bc, ln)) != 0.0
  }

  /** Back substitution from the last value x: r[m] = q[m] - p[m] * r[m+1]. */
  function BackSub(p: seq<real>, q: seq<real>, x: real): (r: seq<real>)
    requires |p| == |q|
    ensures |r| == |p| + 1
  {
    if |p| == 0 then [x]
    else
      var k := |p| - 1;
      BackSub(p[..k], q[..k], q[k] - p[k] * x) + [x]
  }

  /** The line the Thomas algorithm returns. */
  function Thomas(bc: seq<real>, ln: Line): (r: seq<real>)
    requires Solvable(bc, ln)
    ensures |r| == |ln.data|
  {
    var s := FullSweep(bc, ln);
    BackSub(s.p, s.q, LastNumerator(bc, ln, s) / LastDenominator(bc, ln, s))
  }

  // ---------------------------------------------------------------------
  // The linear system, as an independent reference
  // ---------------------------------------------------------------------

  /**
   * Interior row m of the scheme: the implicit update of r with the new
   * coefficients equals the explicit update of the data with the old ones.
   */
  predicate InteriorEquation(ln: Line, r: seq<real>, m: int)
    requires |ln.coef| >= |ln.data| && |ln.coefOld| >= |ln.data| && |r| == |ln.data|
    requires 1 <= m && m + 1 < |ln.data|
  {
    r[m] - Right(ln.coef, m) * (r[m + 1] - r[m]) - Left(ln.coef, m) * (r[m - 1] - r[m])
      == ln.data[m] + Right(ln.coefOld, m) * (ln.data[m + 1] - ln.data[m])
         + Left(ln.coefOld, m) * (ln.data[m - 1] - ln.data[m])
  }

  /** Robin condition at the lower end: bc0*r0 + bc1*r1 + bc2*r2 = bSum[0]. */
  predicate LowerBoundary(bc: seq<real>, ln: Line, r: seq<real>)
    requires WellShaped(bc, ln) && |r| == |ln.data|
  {
    bc[0] * r[0] + bc[1] * r[1] + bc[2] * r[2] == ln.bSum[0]
  }

  /** Robin condition at the upper end, on the last three cells, equal to bSum[1]. */
  predicate UpperBoundary(bc: seq<real>, ln: Line, r: seq<real>)
    requires WellShaped(bc, ln) && |r| == |ln.data|
  {
    var n := |r|;
    bc[0] * r[n - 3] + bc[1] * r[n - 2] + bc[2] * r[n - 1] == ln.bSum[1]
  }

  // ---------------------------------------------------------------------
  // Lemmas
  // ---------------------------------------------------------------------

  /** One unfolding of BackSub. */
  lemma BackSubUnfold(p: seq<real>, q: seq<real>, x: real)
    requires |p| == |q| && |p| > 0
    ensures BackSub(p, q, x) == BackSub(p[..|p| - 1], q[..|p| - 1], q[|p| - 1] - p[|p| - 1] * x) + [x]
  {
  }

  /** Back substitution ends with the value it starts from. */
  lemma BackSubLast(p: seq<real>, q: seq<real>, x: real)
    requires |p| == |q|
    ensures BackSub(p, q, x)[|p|] == x
  {
    if |p| > 0 {
      BackSubUnfold(p, q, x);
    }
  }

  /** Back substitution keeps its defining relation at index m. */
  lemma {:induction false} BackSubIndex(p: seq<real>, q: seq<real>, x: real, m: nat)
    requires |p| == |q| && m < |p|
    ensures BackSub(p, q, x)[m] == q[m] - p[m] * BackSub(p, q, x)[m + 1]
  {
    BackSubUnfold(p, q, x);
    var r, r' := BackSub(p, q, x), BackSub(p[..|p| - 1], q[..|p| - 1], q[|p| - 1] - p[|p| - 1] * x);
    assert r == r' + [x];
    var k := |p| - 1;
    var y := q[k] - p[k] * x;
    if m == k {
      BackSubLast(p[..k], q[..k], y);
      assert r[m] == y && r[m + 1] == x;
    } else {
      BackSubIndex(p[..k], q[..k], y, m);
      assert r[m] == r'[m] && r[m + 1] == r'[m + 1];
      assert p[..k][m] == p[m] && q[..k][m] == q[m];
    }
  }

  /** Back substitution keeps its defining relation at every index. */
  lemma BackSubAt(p: seq<real>, q: seq<real>, x: real)
    requires |p| == |q|
    ensures BackSub(p, q, x)[|p|] == x
    ensures forall m :: 0 <= m < |p| ==> BackSub(p, q, x)[m] == q[m] - p[m] * BackSub(p, q, x)[m + 1]
  {
    BackSubLast(p, q, x);
    forall m | 0 <= m < |p|
      ensures BackSub(p, q, x)[m] == q[m] - p[m] * BackSub(p, q, x)[m + 1]
    {
      BackSubIndex(p, q, x, m);
    }
  }

  /** A longer sweep extends a shorter one. */
  lemma {:induction false} SweepPrefix(bc: seq<real>, ln: Line, k: nat, n: nat)
    requires WellShaped(bc, ln)
    requires 1 <= k <= n < |ln.data|
    ensures ForwardSweep(bc, ln, k).p == ForwardSweep(bc, ln, n).p[..k]
    ensures ForwardSweep(bc, ln, k).q == ForwardSweep(bc, ln, n).q[..k]
    ensures ForwardSweep(bc, ln, n).ok ==> ForwardSweep(bc, ln, k).ok
    decreases n - k
  {
    if k < n {
      SweepPrefix(bc, ln, k, n - 1);
      var s := ForwardSweep(bc, ln, n - 1);
      assert ForwardSweep(bc, ln, n).p[..n - 1] == s.p;
      assert ForwardSweep(bc, ln, n).q[..n - 1] == s.q;
    }
  }

  /** The last entry a successful sweep of length n adds. */
  lemma SweepLast(bc: seq<real>, ln: Line, n: nat)
    requires WellShaped(bc, ln)
    requires 1 <= n < |ln.data| && ForwardSweep(bc, ln, n).ok
    ensures n == 1 ==> FirstPivot(bc, ln) != 0.0
    ensures n == 1 ==> ForwardSweep(bc, ln, n).p[0] == FirstP(bc, ln) && ForwardSweep(bc, ln, n).q[0] == FirstQ(bc, ln)
    ensures n > 1 ==> var s := ForwardSweep(bc, ln, n);
      && Pivot(ln, n - 1, s.p[n - 2]) != 0.0
      && s.p[n - 1] == StepP(ln, n - 1, s.p[n - 2])
      && s.q[n - 1] == StepQ(ln, n - 1, s.p[n - 2], s.q[n - 2])
  {
    if n > 1 {
      var s' := ForwardSweep(bc, ln, n - 1);
      var s := ForwardSweep(bc, ln, n);
      assert s'.ok && Pivot(ln, n - 1, s'.p[n - 2]) != 0.0;
      assert s.p == s'.p + [StepP(ln, n - 1, s'.p[n - 2])];
      assert s.q == s'.q + [StepQ(ln, n - 1, s'.p[n - 2], s'.q[n - 2])];
      assert s.p[n - 2] == s'.p[n - 2] && s.q[n - 2] == s'.q[n - 2];
    }
  }

  /**
   * The entries of a successful sweep, one step at a time: step zero is
   * closed by the lower boundary condition, step m divides by the pivot
   * c + b * p[m-1], and every pivot is nonzero.
   */
  lemma SweepAt(bc: seq<real>, ln: Line, m: nat)
    requires WellShaped(bc, ln) && FullSweep(bc, ln).ok
    requires m < |ln.data| - 1
    ensures m == 0 ==> FirstPivot(bc, ln) != 0.0
    ensures m == 0 ==> FullSweep(bc, ln).p[0] == FirstP(bc, ln) && FullSweep(bc, ln).q[0] == FirstQ(bc, ln)
    ensures m > 0 ==> Pivot(ln, m, FullSweep(bc, ln).p[m - 1]) != 0.0
    ensures m > 0 ==> FullSweep(bc, ln).p[m] == StepP(ln, m, FullSweep(bc, ln).p[m - 1])
    ensures m > 0 ==> FullSweep(bc, ln).q[m] == StepQ(ln, m, FullSweep(bc, ln).p[m - 1], FullSweep(bc, ln).q[m - 1])
  {
    var n := |ln.data| - 1;
    SweepPrefix(bc, ln, m + 1, n);
    SweepLast(bc, ln, m + 1);
    var s, t := FullSweep(bc, ln), ForwardSweep(bc, ln, m + 1);
    assert s.p[m] == t.p[m] && s.q[m] == t.q[m];
    if m > 0 {
      assert s.p[m - 1] == t.p[m - 1] && s.q[m - 1] == t.q[m - 1];
    }
  }

  /** r is the back substitution of p and q: r[m] = q[m] - p[m] * r[m+1] below the last entry. */
  predicate BackSubstituted(p: seq<real>, q: seq<real>, r: seq<real>)
  {
    && |p| == |q| && |r| == |p| + 1
    && forall m :: 0 <= m < |p| ==> r[m] == q[m] - p[m] * r[m + 1]
  }

  /** p and q follow the interior elimination steps from index 1 on. */
  predicate SweepSteps(ln: Line, p: seq<real>, q: seq<real>)
    requires |ln.coef| >= |ln.data| && |ln.coefOld| >= |ln.data|
  {
    && |p| == |q| == |ln.data| - 1
    && forall m :: 1 <= m < |p| ==>
         && Pivot(ln, m, p[m - 1]) != 0.0
         && p[m] == StepP(ln, m, p[m - 1])
         && q[m] == StepQ(ln, m, p[m - 1], q[m - 1])
  }

  /** Back substitution satisfies its defining relation. */
  lemma BackSubIsBackSubstituted(p: seq<real>, q: seq<real>, x: real)
    requires |p| == |q|
    ensures BackSubstituted(p, q, BackSub(p, q, x))
  {
    BackSubAt(p, q, x);
  }

  /** A successful full sweep follows the elimination steps, starting from the lower closure. */
  lemma FullSweepSteps(bc: seq<real>, ln: Line)
    requires WellShaped(bc, ln) && FullSweep(bc, ln).ok
    ensures FirstPivot(bc, ln) != 0.0
    ensures FullSweep(bc, ln).p[0] == FirstP(bc, ln) && FullSweep(bc, ln).q[0] == FirstQ(bc, ln)
    ensures SweepSteps(ln, FullSweep(bc, ln).p, FullSweep(bc, ln).q)
  {
    SweepAt(bc, ln, 0);
    forall m | 1 <= m < |ln.data| - 1
      ensures Pivot(ln, m, FullSweep(bc, ln).p[m - 1]) != 0.0
      ensures FullSweep(bc, ln).p[m] == StepP(ln, m, FullSweep(bc, ln).p[m - 1])
      ensures FullSweep(bc, ln).q[m] == StepQ(ln, m, FullSweep(bc, ln).p[m - 1], FullSweep(bc, ln).q[m - 1])
    {
      SweepAt(bc, ln, m);
    }
  }

  /** One elimination step, as arithmetic on reals. */
  lemma InteriorAlgebra(a: real, b: real, c: real, d: real, den: real,
                        pPrev: real, qPrev: real, p: real, q: real,
                        rPrev: real, r: real, rNext: real)
    requires den == c + b * pPrev && den != 0.0
    requires p == -a * (1.0 / den) && q == (d + b * qPrev) * (1.0 / den)
    requires r == q - p * rNext && rPrev == qPrev - pPrev * r
    ensures c * r - b * rPrev - a * rNext == d
  {
    assert p * den == -a;
    assert q * den == d + b * qPrev;
    assert r * den == q * den - p * den * rNext;
    assert b * rPrev == b * qPrev - b * pPrev * r;
  }

  /** Step zero combined with interior row 1 gives the lower Robin condition, times a. */
  lemma LowerAlgebra(bc0: real, bc1: real, bc2: real, bSum0: real,
                     a: real, b: real, c: real, d: real,
                     p0: real, q0: real, r0: real, r1: real, r2: real)
    requires bc0 * a - bc2 * b != 0.0
    requires p0 == (bc2 * c + bc1 * a) * (1.0 / (bc0 * a - bc2 * b))
    requires q0 == (bSum0 * a + bc2 * d) * (1.0 / (bc0 * a - bc2 * b))
    requires r0 == q0 - p0 * r1
    requires c * r1 - b * r0 - a * r2 == d
    ensures a * (bc0 * r0 + bc1 * r1 + bc2 * r2 - bSum0) == 0.0
  {
    var den := bc0 * a - bc2 * b;
    assert p0 * den == bc2 * c + bc1 * a;
    assert q0 * den == bSum0 * a + bc2 * d;
    assert r0 * den == q0 * den - p0 * den * r1;
    assert bc2 * d == bc2 * c * r1 - bc2 * b * r0 - bc2 * a * r2;
  }

  /** The source's right-hand side d is the explicit update of the data with the old coefficients. */
  lemma RhsIsExplicitUpdate(ln: Line, m: int)
    requires 1 <= m && m + 1 < |ln.data| && |ln.coefOld| >= |ln.data|
    ensures Rhs(ln, m) == ln.data[m] + Right(ln.coefOld, m) * (ln.data[m + 1] - ln.data[m])
                          + Left(ln.coefOld, m) * (ln.data[m - 1] - ln.data[m])
  {
  }

  /** Row m of the implicit operator, in the source's a, b, c, d form. */
  predicate RowHolds(ln: Line, r: seq<real>, m: int)
    requires |ln.coef| >= |ln.data| && |ln.coefOld| >= |ln.data| && |r| == |ln.data|
    requires 1 <= m && m + 1 < |ln.data|
  {
    Diag(ln.coef, m) * r[m] - Left(ln.coef, m) * r[m - 1] - Right(ln.coef, m) * r[m + 1] == Rhs(ln, m)
  }

  /** The a, b, c, d form of a row is the interior equation of the scheme. */
  lemma RowIsInteriorEquation(ln: Line, r: seq<real>, m: int)
    requires |ln.coef| >= |ln.data| && |ln.coefOld| >= |ln.data| && |r| == |ln.data|
    requires 1 <= m && m + 1 < |ln.data|
    ensures RowHolds(ln, r, m) <==> InteriorEquation(ln, r, m)
  {
    RhsIsExplicitUpdate(ln, m);
  }

  /** One sweep step and two back-substitution steps give row m. */
  lemma RowFromStep(ln: Line, m: int, p: seq<real>, q: seq<real>, r: seq<real>)
    requires |ln.coef| >= |ln.data| && |ln.coefOld| >= |ln.data|
    requires 1 <= m && m + 1 < |ln.data| && |r| == |ln.data| && |p| == |q| == |ln.data| - 1
    requires Pivot(ln, m, p[m - 1]) != 0.0
    requires p[m] == StepP(ln, m, p[m - 1]) && q[m] == StepQ(ln, m, p[m - 1], q[m - 1])
    requires r[m] == q[m] - p[m] * r[m + 1] && r[m - 1] == q[m - 1] - p[m - 1] * r[m]
    ensures RowHolds(ln, r, m)
  {
    InteriorAlgebra(Right(ln.coef, m), Left(ln.coef, m), Diag(ln.coef, m), Rhs(ln, m),
                    Pivot(ln, m, p[m - 1]), p[m - 1], q[m - 1], p[m], q[m],
                    r[m - 1], r[m], r[m + 1]);
  }

  /** Every interior row holds for any back substitution of a sweep that follows the steps. */
  lemma RowsFromSteps(ln: Line, p: seq<real>, q: seq<real>, r: seq<real>)
    requires |ln.coef| >= |ln.data| && |ln.coefOld| >= |ln.data|
    requires SweepSteps(ln, p, q) && BackSubstituted(p, q, r)
    ensures forall m :: 1 <= m <= |ln.data| - 2 ==> RowHolds(ln, r, m)
  {
    forall m | 1 <= m <= |ln.data| - 2
      ensures RowHolds(ln, r, m)
    {
      RowFromStep(ln, m, p, q, r);
    }
  }

  /** Step zero and row 1 give the lower Robin condition, for any p, q, r. */
  lemma LowerFromStep(bc: seq<real>, ln: Line, p: seq<real>, q: seq<real>, r: seq<real>)
    requires WellShaped(bc, ln) && |r| == |ln.data| && |p| == |q| == |ln.data| - 1
    requires FirstPivot(bc, ln) != 0.0 && p[0] == FirstP(bc, ln) && q[0] == FirstQ(bc, ln)
    requires r[0] == q[0] - p[0] * r[1]
    requires RowHolds(ln, r, 1)
    ensures Right(ln.coef, 1) != 0.0 ==> LowerBoundary(bc, ln, r)
  {
    var a := Right(ln.coef, 1);
    LowerAlgebra(bc[0], bc[1], bc[2], ln.bSum[0], a, Left(ln.coef, 1), Diag(ln.coef, 1), Rhs(ln, 1),
                 p[0], q[0], r[0], r[1], r[2]);
    if a != 0.0 {
      var e := bc[0] * r[0] + bc[1] * r[1] + bc[2] * r[2] - ln.bSum[0];
      assert a * e == 0.0;
    }
  }

  /** The closing formula and row n-2 give the upper Robin condition, for any sweep and r. */
  lemma UpperFromStep(bc: seq<real>, ln: Line, s: Sweep, r: seq<real>)
    requires WellShaped(bc, ln) && |r| == |ln.data| && |s.p| == |s.q| == |ln.data| - 1
    requires LastDenominator(bc, ln, s) != 0.0
    requires r[|r| - 1] == LastNumerator(bc, ln, s) / LastDenominator(bc, ln, s)
    requires r[|r| - 2] == s.q[|r| - 2] - s.p[|r| - 2] * r[|r| - 1]
    requires RowHolds(ln, r, |r| - 2)
    ensures Left(ln.coef, |ln.data| - 2) != 0.0 ==> UpperBoundary(bc, ln, r)
  {
  }

  /** The Thomas result is the back substitution of a sweep that follows the elimination steps. */
  lemma ThomasStructure(bc: seq<real>, ln: Line)
    requires Solvable(bc, ln)
    ensures var s, r := FullSweep(bc, ln), Thomas(bc, ln);
      && BackSubstituted(s.p, s.q, r)
      && r[|r| - 1] == LastNumerator(bc, ln, s) / LastDenominator(bc, ln, s)
      && SweepSteps(ln, s.p, s.q)
      && FirstPivot(bc, ln) != 0.0 && s.p[0] == FirstP(bc, ln) && s.q[0] == FirstQ(bc, ln)
  {
    var s := FullSweep(bc, ln);
    var x := LastNumerator(bc, ln, s) / LastDenominator(bc, ln, s);
    BackSubLast(s.p, s.q, x);
    BackSubIsBackSubstituted(s.p, s.q, x);
    FullSweepSteps(bc, ln);
  }

  /** Every interior row equation holds for the Thomas result. */
  lemma ThomasInterior(bc: seq<real>, ln: Line)
    requires Solvable(bc, ln)
    ensures |Thomas(bc, ln)| == |ln.data|
    ensures forall m :: 1 <= m <= |ln.data| - 2 ==> RowHolds(ln, Thomas(bc, ln), m)
  {
    var s := FullSweep(bc, ln);
    ThomasStructure(bc, ln);
    RowsFromSteps(ln, s.p, s.q, Thomas(bc, ln));
  }

  /** The lower Robin condition, whenever the coefficient coupling cell 1 to cell 2 is nonzero. */
  lemma ThomasLower(bc: seq<real>, ln: Line)
    requires Solvable(bc, ln)
    ensures |Thomas(bc, ln)| == |ln.data|
    ensures Right(ln.coef, 1) != 0.0 ==> LowerBoundary(bc, ln, Thomas(bc, ln))
  {
    var s, r := FullSweep(bc, ln), Thomas(bc, ln);
    ThomasStructure(bc, ln);
    ThomasInterior(bc, ln);
    assert RowHolds(ln, r, 1);
    assert r[0] == s.q[0] - s.p[0] * r[1];
    LowerFromStep(bc, ln, s.p, s.q, r);
  }

  /** The upper Robin condition, whenever the coefficient coupling cell n-2 to cell n-3 is nonzero. */
  lemma ThomasUpper(bc: seq<real>, ln: Line)
    requires Solvable(bc, ln)
    ensures |Thomas(bc, ln)| == |ln.data|
    ensures Left(ln.coef, |ln.data| - 2) != 0.0 ==> UpperBoundary(bc, ln, Thomas(bc, ln))
  {
    var s, r := FullSweep(bc, ln), Thomas(bc, ln);
    ThomasStructure(bc, ln);
    ThomasInterior(bc, ln);
    assert RowHolds(ln, r, |r| - 2);
    assert r[|r| - 2] == s.q[|r| - 2] - s.p[|r| - 2] * r[|r| - 1];
    UpperFromStep(bc, ln, s, r);
  }

  /**
   * The Thomas result solves the scheme: every interior row equation holds,
   * and the Robin conditions hold at both ends whenever the averaged
   * coefficient that couples the boundary to the interior is nonzero (the
   * source eliminates the third cell through that coefficient).
   */
  lemma ThomasSolvesSystem(bc: seq<real>, ln: Line)
    requires Solvable(bc, ln)
    ensures |Thomas(bc, ln)| == |ln.data|
    ensures forall m :: 1 <= m <= |ln.data| - 2 ==> InteriorEquation(ln, Thomas(bc, ln), m)
    ensures Right(ln.coef, 1) != 0.0 ==> LowerBoundary(bc, ln, Thomas(bc, ln))
    ensures Left(ln.coef, |ln.data| - 2) != 0.0 ==> UpperBoundary(bc, ln, Thomas(bc, ln))
  {
    ThomasInterior(bc, ln);
    ThomasLower(bc, ln);
    ThomasUpper(bc, ln);
    forall m | 1 <= m <= |ln.data| - 2
      ensures InteriorEquation(ln, Thomas(bc, ln), m)
    {
      RowIsInteriorEquation(ln, Thomas(bc, ln), m);
    }
  }

  // ---------------------------------------------------------------------
  // Uniform lines
  // ---------------------------------------------------------------------

  /** Every cell of the line holds u. */
  predicate UniformData(ln: Line, u: real)
  {
    forall m :: 0 <= m < |ln.data| ==> ln.data[m] == u
  }

  /**
   * The boundary condition leaves a uniform line alone: u is zero, or the
   * three Robin coefficients sum to zero (as the filter's {-1, 0, 1} does).
   */
  predicate KeepsUniform(bc: seq<real>, u: real)
    requires |bc| == 3
  {
    u == 0.0 || bc[0] + bc[1] + bc[2] == 0.0
  }

  /** The explicit update of a uniform line is u, whatever the old coefficients. */
  lemma RhsOfUniform(ln: Line, m: int, u: real)
    requires 1 <= m && m + 1 < |ln.data| && |ln.coefOld| >= |ln.data| && UniformData(ln, u)
    ensures Rhs(ln, m) == u
  {
    var c := ln.coefOld;
    var a, b, d := (c[m] + c[m + 1]) / 2.0, (c[m - 1] + c[m]) / 2.0, c[m] + (c[m - 1] + c[m + 1]) / 2.0 - 1.0;
    assert Rhs(ln, m) == a * u + b * u - d * u;
    assert a + b - d == 1.0;
    assert a * u + b * u - d * u == (a + b - d) * u;
  }

  /** Step zero of the sweep on a uniform line with zero lower sum: q0 = u * (1 + p0). */
  lemma FirstOfUniform(bc: seq<real>, ln: Line, u: real)
    requires WellShaped(bc, ln) && FirstPivot(bc, ln) != 0.0
    requires UniformData(ln, u) && ln.bSum[0] == 0.0 && KeepsUniform(bc, u)
    ensures FirstQ(bc, ln) == u * (1.0 + FirstP(bc, ln))
  {
    var a, b, c := Right(ln.coef, 1), Left(ln.coef, 1), Diag(ln.coef, 1);
    var pivot := FirstPivot(bc, ln);
    var f := 1.0 / pivot;
    RhsOfUniform(ln, 1, u);
    assert pivot * f == 1.0;
    assert pivot + bc[2] * c + bc[1] * a == a * (bc[0] + bc[1] + bc[2]) + bc[2];
    assert u * (a * (bc[0] + bc[1] + bc[2])) == 0.0;
    calc {
      u * (1.0 + FirstP(bc, ln));
      u * (pivot * f + (bc[2] * c + bc[1] * a) * f);
      u * (pivot + bc[2] * c + bc[1] * a) * f;
      u * (a * (bc[0] + bc[1] + bc[2]) + bc[2]) * f;
      (u * bc[2]) * f;
      FirstQ(bc, ln);
    }
  }

  /** Interior step m keeps q = u * (1 + p) on a uniform line. */
  lemma InteriorStepOfUniform(ln: Line, m: int, pPrev: real, qPrev: real, u: real)
    requires |ln.coef| >= |ln.data| && |ln.coefOld| >= |ln.data|
    requires 1 <= m && m + 1 < |ln.data| && Pivot(ln, m, pPrev) != 0.0
    requires UniformData(ln, u) && qPrev == u * (1.0 + pPrev)
    ensures StepQ(ln, m, pPrev, qPrev) == u * (1.0 + StepP(ln, m, pPrev))
  {
    var a, b := Right(ln.coef, m), Left(ln.coef, m);
    var pivot := Pivot(ln, m, pPrev);
    var f := 1.0 / pivot;
    RhsOfUniform(ln, m, u);
    assert pivot * f == 1.0;
    assert pivot - a == 1.0 + b + b * pPrev;
    calc {
      u * (1.0 + StepP(ln, m, pPrev));
      u * (pivot * f - a * f);
      u * (pivot - a) * f;
      u * (1.0 + b + b * pPrev) * f;
      (u + b * (u * (1.0 + pPrev))) * f;
      StepQ(ln, m, pPrev, qPrev);
    }
  }

  /** Steps 1 .. n-1 of a sweep on a uniform line carry q = u * (1 + p) on from step zero. */
  lemma {:induction false} StepsOfUniform(ln: Line, p: seq<real>, q: seq<real>, u: real, n: nat)
    requires |ln.coef| >= |ln.data| && |ln.coefOld| >= |ln.data| && SweepSteps(ln, p, q)
    requires UniformData(ln, u) && 1 <= n <= |p| && q[0] == u * (1.0 + p[0])
    ensures forall m :: 0 <= m < n ==> q[m] == u * (1.0 + p[m])
    decreases n
  {
    if n > 1 {
      StepsOfUniform(ln, p, q, u, n - 1);
      InteriorStepOfUniform(ln, n - 1, p[n - 2], q[n - 2], u);
    }
  }

  /** Back substitution from u over q = u * (1 + p) gives u everywhere. */
  lemma {:induction false} BackSubOfUniform(p: seq<real>, q: seq<real>, u: real)
    requires |p| == |q| && forall m :: 0 <= m < |p| ==> q[m] == u * (1.0 + p[m])
    ensures forall m :: 0 <= m <= |p| ==> BackSub(p, q, u)[m] == u
    decreases |p|
  {
    if |p| > 0 {
      var k := |p| - 1;
      assert q[k] - p[k] * u == u;
      BackSubUnfold(p, q, u);
      BackSubOfUniform(p[..k], q[..k], u);
    }
  }

  /** The upper closure of a uniform line: the last numerator is u times the last denominator. */
  lemma LastOfUniform(bc: seq<real>, ln: Line, s: Sweep, u: real)
    requires WellShaped(bc, ln) && |s.p| == |s.q| == |ln.data| - 1
    requires UniformData(ln, u) && ln.bSum[1] == 0.0 && KeepsUniform(bc, u)
    requires s.q[|ln.data| - 2] == u * (1.0 + s.p[|ln.data| - 2])
    ensures LastNumerator(bc, ln, s) == u * LastDenominator(bc, ln, s)
    ensures LastDenominator(bc, ln, s) != 0.0 ==> LastNumerator(bc, ln, s) / LastDenominator(bc, ln, s) == u
  {
    var n := |ln.data| - 2;
    var L, R, W := Left(ln.coef, n), Right(ln.coef, n), UpperWeight(bc, ln);
    RhsOfUniform(ln, n, u);
    assert W == bc[1] * L + bc[0] * (R + L + 1.0);
    assert u * (L * (bc[0] + bc[1] + bc[2])) == 0.0;
    calc {
      LastNumerator(bc, ln, s);
      bc[0] * u - u * (1.0 + s.p[n]) * W;
      u * (bc[0] - W) - u * s.p[n] * W;
      u * (bc[2] * L - bc[0] * R) - u * (L * (bc[0] + bc[1] + bc[2])) - u * s.p[n] * W;
      u * LastDenominator(bc, ln, s);
    }
  }

  /** The whole sweep of a uniform line with zero lower sum has q = u * (1 + p). */
  lemma SweepOfUniform(bc: seq<real>, ln: Line, u: real)
    requires WellShaped(bc, ln) && FullSweep(bc, ln).ok
    requires UniformData(ln, u) && ln.bSum[0] == 0.0 && KeepsUniform(bc, u)
    ensures forall m :: 0 <= m < |ln.data| - 1 ==> FullSweep(bc, ln).q[m] == u * (1.0 + FullSweep(bc, ln).p[m])
  {
    var s := FullSweep(bc, ln);
    FullSweepSteps(bc, ln);
    FirstOfUniform(bc, ln, u);
    StepsOfUniform(ln, s.p, s.q, u, |s.p|);
  }

  /**
   * A uniform line with zero boundary sums is a steady state of the line
   * solve when the boundary condition keeps it (u zero, or Robin
   * coefficients summing to zero), whatever the diffusion coefficients.
   */
  lemma ThomasOfUniform(bc: seq<real>, ln: Line, u: real)
    requires Solvable(bc, ln) && UniformData(ln, u)
    requires ln.bSum[0] == 0.0 && ln.bSum[1] == 0.0 && KeepsUniform(bc, u)
    ensures forall m :: 0 <= m < |ln.data| ==> Thomas(bc, ln)[m] == u
  {
    var s := FullSweep(bc, ln);
    SweepOfUniform(bc, ln, u);
    LastOfUniform(bc, ln, s, u);
    BackSubOfUniform(s.p, s.q, u);
  }
}
