/**
 * What the two filters compute, on values.  The linear filter is one ADI
 * step with a constant coefficient grid; the non-linear filter repeats ADI
 * steps whose new coefficient grid is recomputed from the previous iterate
 * while the old one stays that of the input image, until two successive
 * iterates differ by no more than eps.  Both use zero boundary sums.
 * The interrupt flag is a function from the index of each poll to its
 * value, so that how a run ends can be stated on values too.
 */
module NonLinear {
  import opened Wrappers
  import opened Grid
  import opened Adi
  import opened Diffusivity

  /** A rows-by-cols grid holding v everywhere. */
  function ConstantGrid(rows: nat, cols: nat, v: real): (G: seq<seq<real>>)
    ensures IsRect(G, rows, cols)
    ensures forall i, k :: 0 <= i < rows && 0 <= k < cols ==> G[i][k] == v
  {
    seq(rows, i => seq(cols, k => v))
  }

  /** The four boundary-sum vectors, all zero: left and right have rows entries, top and bottom cols. */
  function ZeroEdges(rows: nat, cols: nat): (B: seq<seq<real>>)
    ensures EdgesCover(B, rows, cols)
    ensures forall j, m :: 0 <= j < 4 && 0 <= m < |B[j]| ==> B[j][m] == 0.0
  {
    var left := seq(rows, _ => 0.0);
    var top := seq(cols, _ => 0.0);
    [left, top, left, top]
  }

  /** Grid to next grid, None when the step cannot be taken. */
  type StepFunction = seq<seq<real>> -> Option<seq<seq<real>>>

  /** Every grid the step produces is rows by cols. */
  ghost predicate KeepsShape(next: StepFunction, rows: nat, cols: nat)
  {
    forall P :: next(P).Some? ==> IsRect(next(P).value, rows, cols)
  }

  /** n applications of next to x, None from the first application that gives None. */
  function Iter(x: seq<seq<real>>, next: StepFunction, n: nat): Option<seq<seq<real>>>
  {
    if n == 0 then Some(x)
    else
      var prev := Iter(x, next, n - 1);
      if prev.None? then None else next(prev.value)
  }

  /**
   * Step j exists and moved the grid by more than eps, so the source's loop
   * goes on after it.
   */
  predicate Moving(x: seq<seq<real>>, next: StepFunction, rows: nat, cols: nat, eps: real, j: nat)
  {
    && j >= 1
    && var cur := Iter(x, next, j);
       var prev := Iter(x, next, j - 1);
       && cur.Some? && prev.Some? && Window(cur.value, prev.value, rows, cols)
       && Exceeds(Difference(cur.value, prev.value, rows, cols), eps)
  }

  /** Steps 1 to n all moved the grid by more than eps. */
  predicate AllMoving(x: seq<seq<real>>, next: StepFunction, rows: nat, cols: nat, eps: real, n: nat)
  {
    forall j :: 1 <= j <= n ==> Moving(x, next, rows, cols, eps, j)
  }

  /**
   * From iterate n equal to P, a step to Q that moves by more than eps
   * extends the run of moving steps by one.
   */
  lemma MovingExtends(x: seq<seq<real>>, next: StepFunction, rows: nat, cols: nat, eps: real, n: nat,
                      P: seq<seq<real>>, Q: seq<seq<real>>)
    requires AllMoving(x, next, rows, cols, eps, n) && Iter(x, next, n) == Some(P) && next(P) == Some(Q)
    requires Window(Q, P, rows, cols) && Exceeds(Difference(Q, P, rows, cols), eps)
    ensures Iter(x, next, n + 1) == Some(Q) && AllMoving(x, next, rows, cols, eps, n + 1)
  {
    assert Moving(x, next, rows, cols, eps, n + 1);
  }

  /** From iterate n equal to P, a step to Q that moves by no more than eps ends the run. */
  lemma MovingEnds(x: seq<seq<real>>, next: StepFunction, rows: nat, cols: nat, eps: real, n: nat,
                   P: seq<seq<real>>, Q: seq<seq<real>>)
    requires Iter(x, next, n) == Some(P) && next(P) == Some(Q)
    requires Window(Q, P, rows, cols) && !Exceeds(Difference(Q, P, rows, cols), eps)
    ensures Iter(x, next, n + 1) == Some(Q) && !Moving(x, next, rows, cols, eps, n + 1)
  {
  }

  /** A step that keeps the shape yields grids of x's shape throughout. */
  lemma {:induction false} IterShape(x: seq<seq<real>>, next: StepFunction, rows: nat, cols: nat, n: nat)
    requires IsRect(x, rows, cols) && KeepsShape(next, rows, cols)
    ensures Iter(x, next, n).Some? ==> IsRect(Iter(x, next, n).value, rows, cols)
  {
    if n > 0 {
      IterShape(x, next, rows, cols, n - 1);
    }
  }

  /** Once two successive values agree, every later value is the same. */
  lemma {:induction false} IterFixedPoint(x: seq<seq<real>>, next: StepFunction, n: nat, m: nat)
    requires 1 <= n <= m && Iter(x, next, n).Some? && Iter(x, next, n) == Iter(x, next, n - 1)
    ensures Iter(x, next, m) == Iter(x, next, n)
    decreases m - n
  {
    if m > n {
      IterFixedPoint(x, next, n, m - 1);
    }
  }

  /**
   * A step that reproduces its input is never Moving when eps is
   * non-negative: the difference of a grid with itself is 0 or NaN.
   */
  lemma FixedPointStops(x: seq<seq<real>>, next: StepFunction, rows: nat, cols: nat, eps: real, j: nat)
    requires eps >= 0.0 && j >= 1 && Iter(x, next, j) == Iter(x, next, j - 1)
    ensures !Moving(x, next, rows, cols, eps, j)
  {
    var cur := Iter(x, next, j);
    if cur.Some? && Window(cur.value, cur.value, rows, cols) {
      DifferenceSelf(cur.value, rows, cols);
    }
  }

  /**
   * One step of the non-linear filter from iterate P with O as the old
   * coefficient grid: the image D solved again with O and the coefficient
   * grid of P; None when the step meets a zero divisor (or P is not of D's
   * shape).
   */
  function NextGridWith(bc: seq<real>, diff: real, factor: real, exp: real -> real,
                        D: seq<seq<real>>, O: seq<seq<real>>, rows: nat, cols: nat, P: seq<seq<real>>)
    : (r: Option<seq<seq<real>>>)
    requires rows >= 3 && cols >= 3 && IsRect(D, rows, cols) && IsRect(O, rows, cols)
    ensures r.Some? ==> IsRect(P, rows, cols) && IsRect(r.value, rows, cols)
  {
    if !IsRect(P, rows, cols) then None
    else
      var N := DiffusionGrid(diff, factor, exp, P, rows, cols);
      var B := ZeroEdges(rows, cols);
      if StepSolvable(bc, D, O, N, B, rows, cols) then Some(Step(bc, D, O, N, B, rows, cols)) else None
  }

  /** One step of the non-linear filter on image D: the old coefficient grid is D's own. */
  function NextGrid(bc: seq<real>, diff: real, factor: real, exp: real -> real,
                    D: seq<seq<real>>, rows: nat, cols: nat, P: seq<seq<real>>): (r: Option<seq<seq<real>>>)
    requires rows >= 3 && cols >= 3 && IsRect(D, rows, cols)
    ensures r.Some? ==> IsRect(P, rows, cols) && IsRect(r.value, rows, cols)
  {
    NextGridWith(bc, diff, factor, exp, D, DiffusionGrid(diff, factor, exp, D, rows, cols), rows, cols, P)
  }

  /** next maps every grid P to NextGrid of P. */
  ghost predicate IsFilterStep(next: StepFunction, bc: seq<real>, diff: real, factor: real, exp: real -> real,
                               D: seq<seq<real>>, rows: nat, cols: nat)
    requires rows >= 3 && cols >= 3 && IsRect(D, rows, cols)
  {
    forall P {:trigger NextGrid(bc, diff, factor, exp, D, rows, cols, P)} ::
      next(P) == NextGrid(bc, diff, factor, exp, D, rows, cols, P)
  }

  /** next maps every grid P to NextGridWith of P, with O as the old coefficient grid. */
  ghost predicate UsesOldGrid(next: StepFunction, bc: seq<real>, diff: real, factor: real, exp: real -> real,
                              D: seq<seq<real>>, O: seq<seq<real>>, rows: nat, cols: nat)
    requires rows >= 3 && cols >= 3 && IsRect(D, rows, cols) && IsRect(O, rows, cols)
  {
    forall P {:trigger NextGridWith(bc, diff, factor, exp, D, O, rows, cols, P)} ::
      next(P) == NextGridWith(bc, diff, factor, exp, D, O, rows, cols, P)
  }

  /** The filter's step uses the image's own coefficient grid as the old one. */
  lemma OldGridOfImage(next: StepFunction, bc: seq<real>, diff: real, factor: real, exp: real -> real,
                       D: seq<seq<real>>, rows: nat, cols: nat)
    requires rows >= 3 && cols >= 3 && IsRect(D, rows, cols)
    requires IsFilterStep(next, bc, diff, factor, exp, D, rows, cols)
    ensures UsesOldGrid(next, bc, diff, factor, exp, D, DiffusionGrid(diff, factor, exp, D, rows, cols), rows, cols)
  {
    forall P
      ensures next(P) == NextGridWith(bc, diff, factor, exp, D, DiffusionGrid(diff, factor, exp, D, rows, cols),
                                      rows, cols, P)
    {
      assert next(P) == NextGrid(bc, diff, factor, exp, D, rows, cols, P);
    }
  }

  /**
   * The step function of the non-linear filter on image D.  It is known
   * only through IsFilterStep, so that reasoning about its iterates does
   * not unfold a step unless a proof asks for NextGrid.
   */
  ghost function FilterStep(bc: seq<real>, diff: real, factor: real, exp: real -> real,
                            D: seq<seq<real>>, rows: nat, cols: nat): (next: StepFunction)
    requires rows >= 3 && cols >= 3 && IsRect(D, rows, cols)
    ensures IsFilterStep(next, bc, diff, factor, exp, D, rows, cols) && KeepsShape(next, rows, cols)
  {
    var f: StepFunction := P => NextGrid(bc, diff, factor, exp, D, rows, cols, P);
    assert IsFilterStep(f, bc, diff, factor, exp, D, rows, cols) && KeepsShape(f, rows, cols);
    var g :| IsFilterStep(g, bc, diff, factor, exp, D, rows, cols) && KeepsShape(g, rows, cols);
    g
  }

  /**
   * The first step of the non-linear filter uses the image's own
   * coefficient grid as both the old and the new one.
   */
  lemma FirstIterate(bc: seq<real>, diff: real, factor: real, exp: real -> real,
                     D: seq<seq<real>>, rows: nat, cols: nat)
    requires rows >= 3 && cols >= 3 && IsRect(D, rows, cols)
    ensures var C := DiffusionGrid(diff, factor, exp, D, rows, cols);
      Iter(D, FilterStep(bc, diff, factor, exp, D, rows, cols), 1)
      == if StepSolvable(bc, D, C, C, ZeroEdges(rows, cols), rows, cols)
         then Some(Step(bc, D, C, C, ZeroEdges(rows, cols), rows, cols)) else None
  {
    var next := FilterStep(bc, diff, factor, exp, D, rows, cols);
    assert Iter(D, next, 0) == Some(D);
    assert next(D) == NextGrid(bc, diff, factor, exp, D, rows, cols, D);
  }

  /** None of the n interrupt checks from `base` on finds the flag set. */
  predicate NoInterrupt(interrupted: nat -> bool, base: nat, n: nat)
  {
    forall j :: base <= j < base + n ==> !interrupted(j)
  }

  /** One more check that finds the flag clear extends the run. */
  lemma NoInterruptStep(interrupted: nat -> bool, base: nat, n: nat)
    requires NoInterrupt(interrupted, base, n) && !interrupted(base + n)
    ensures NoInterrupt(interrupted, base, n + 1)
  {
  }

  /** A run of checks splits into its first m and the n after them. */
  lemma NoInterruptSplit(interrupted: nat -> bool, base: nat, m: nat, n: nat)
    ensures NoInterrupt(interrupted, base, m + n) <==>
      NoInterrupt(interrupted, base, m) && NoInterrupt(interrupted, base + m, n)
  {
  }

  /** How one call of iterateLinear2D ends. */
  datatype StepOutcome = Completed | Interrupted | NonFinite

  /** The number of interrupt polls in n ADI steps of s lines each. */
  function Polls(n: nat, s: nat): nat
  {
    if n == 0 then 0 else Polls(n - 1, s) + s
  }

  /**
   * How the non-linear filter ends: converged at iteration `steps`; stopped
   * at iteration `steps` by an interrupt or a zero divisor (`cause`); or the
   * iteration budget ran out with the iterates still moving.
   */
  datatype SolveOutcome = Converged(steps: nat) | Stopped(steps: nat, cause: StepOutcome) | OutOfSteps

  /** The first n iterations of the non-linear filter polled no interrupt and all moved by more than eps. */
  ghost predicate Ran(x: seq<seq<real>>, next: StepFunction, rows: nat, cols: nat, eps: real,
                      interrupted: nat -> bool, n: nat)
  {
    AllMoving(x, next, rows, cols, eps, n) && NoInterrupt(interrupted, 0, Polls(n, rows + cols))
  }

  /**
   * What the non-linear filter's loop has done when it ends with `outcome`
   * and grid G: converged at iteration k, the first step that moved by no
   * more than eps; stopped at iteration k by an interrupt polled during it
   * or by a zero divisor; or still moving after maxSteps iterations.
   */
  ghost predicate NonLinearRun(x: seq<seq<real>>, next: StepFunction, rows: nat, cols: nat, eps: real,
                               interrupted: nat -> bool, maxSteps: nat, outcome: SolveOutcome, G: seq<seq<real>>)
  {
    match outcome
    case Converged(k) =>
      && 1 <= k <= maxSteps && Ran(x, next, rows, cols, eps, interrupted, k - 1)
      && NoInterrupt(interrupted, 0, Polls(k, rows + cols))
      && Iter(x, next, k) == Some(G) && !Moving(x, next, rows, cols, eps, k)
    case Stopped(k, cause) =>
      && 1 <= k <= maxSteps && Ran(x, next, rows, cols, eps, interrupted, k - 1)
      && (cause == Interrupted || cause == NonFinite)
      && (cause == Interrupted ==> !NoInterrupt(interrupted, Polls(k - 1, rows + cols), rows + cols))
      && (cause == NonFinite ==> Iter(x, next, k) == None)
    case OutOfSteps =>
      Ran(x, next, rows, cols, eps, interrupted, maxSteps) && Iter(x, next, maxSteps) == Some(G)
  }

}
