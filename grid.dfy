/**
 * Grids as values: a grid is a sequence of rows.  This module gives the
 * column view of a grid (what the solver's getColumn and putColumn read
 * and write) and the normalised squared difference between two grids
 * that the non-linear driver uses as its stopping test.
 */
module Grid {

  /** Every row has more than k entries, so column k exists. */
  predicate HasColumn(g: seq<seq<real>>, k: int)
  {
    0 <= k && forall i :: 0 <= i < |g| ==> k < |g[i]|
  }

  /** The grid has exactly `rows` rows of exactly `cols` entries. */
  predicate IsRect(g: seq<seq<real>>, rows: int, cols: int)
  {
    |g| == rows && forall i :: 0 <= i < |g| ==> |g[i]| == cols
  }

  /** The grid has at least `rows` rows, each with at least `cols` entries. */
  predicate Covers(g: seq<seq<real>>, rows: int, cols: int)
  {
    |g| >= rows && forall i :: 0 <= i < |g| ==> |g[i]| >= cols
  }

  /** Column k, top to bottom. */
  function Column(g: seq<seq<real>>, k: int): (c: seq<real>)
    requires HasColumn(g, k)
    ensures |c| == |g|
  {
    seq(|g|, i requires 0 <= i < |g| => g[i][k])
  }

  /** The grid with column k of its first |c| rows replaced by c. */
  function SetColumn(g: seq<seq<real>>, k: int, c: seq<real>): (h: seq<seq<real>>)
    requires |c| <= |g| && 0 <= k
    requires forall i :: 0 <= i < |c| ==> k < |g[i]|
    ensures |h| == |g|
  {
    seq(|g|, i requires 0 <= i < |g| => if i < |c| then g[i][k := c[i]] else g[i])
  }

  /** Writing a column and reading it back gives the written column, and other columns are kept. */
  lemma ColumnOfSetColumn(g: seq<seq<real>>, k: int, c: seq<real>, j: int)
    requires |c| == |g| && HasColumn(g, k) && HasColumn(g, j)
    ensures HasColumn(SetColumn(g, k, c), j)
    ensures Column(SetColumn(g, k, c), k) == c
    ensures j != k ==> Column(SetColumn(g, k, c), j) == Column(g, j)
  {
    var h := SetColumn(g, k, c);
    assert forall i :: 0 <= i < |g| ==> |h[i]| == |g[i]|;
  }

  /** Writing back a column just read leaves the grid unchanged. */
  lemma SetColumnOfColumn(g: seq<seq<real>>, k: int)
    requires HasColumn(g, k)
    ensures SetColumn(g, k, Column(g, k)) == g
  {
    var h := SetColumn(g, k, Column(g, k));
    forall i | 0 <= i < |g|
      ensures h[i] == g[i]
    {
      assert h[i] == g[i][k := g[i][k]];
    }
  }

  /** Writing a column keeps the shape of a rectangular grid. */
  lemma SetColumnKeepsShape(g: seq<seq<real>>, k: int, c: seq<real>, rows: int, cols: int)
    requires IsRect(g, rows, cols) && 0 <= k < cols && |c| <= |g|
    ensures IsRect(SetColumn(g, k, c), rows, cols)
  {
  }

  // ---------------------------------------------------------------------
  // Normalised squared difference
  // ---------------------------------------------------------------------

  function Sq(x: real): real { x * x }

  /** Sum over the first n entries of (a[k] - b[k])^2. */
  function RowDiff(a: seq<real>, b: seq<real>, n: nat): real
    requires n <= |a| && n <= |b|
  {
    if n == 0 then 0.0 else RowDiff(a, b, n - 1) + Sq(a[n - 1] - b[n - 1])
  }

  /** Sum over the first n entries of a[k]^2 + b[k]^2. */
  function RowNorm(a: seq<real>, b: seq<real>, n: nat): real
    requires n <= |a| && n <= |b|
  {
    if n == 0 then 0.0 else RowNorm(a, b, n - 1) + (Sq(a[n - 1]) + Sq(b[n - 1]))
  }

  /** Both grids cover an m by n window. */
  predicate Window(g1: seq<seq<real>>, g2: seq<seq<real>>, m: nat, n: nat)
  {
    m <= |g1| && m <= |g2| && forall i :: 0 <= i < m ==> n <= |g1[i]| && n <= |g2[i]|
  }

  /** Sum of RowDiff over the first m rows, in the source's row-major order. */
  function DiffSum(g1: seq<seq<real>>, g2: seq<seq<real>>, m: nat, n: nat): real
    requires Window(g1, g2, m, n)
  {
    if m == 0 then 0.0 else DiffSum(g1, g2, m - 1, n) + RowDiff(g1[m - 1], g2[m - 1], n)
  }

  /** Sum of RowNorm over the first m rows. */
  function NormSum(g1: seq<seq<real>>, g2: seq<seq<real>>, m: nat, n: nat): real
    requires Window(g1, g2, m, n)
  {
    if m == 0 then 0.0 else NormSum(g1, g2, m - 1, n) + RowNorm(g1[m - 1], g2[m - 1], n)
  }

  /**
   * A double that is either an ordinary value or NaN.  The difference
   * measure divides by the norm sum; that sum is zero only when the
   * difference sum is zero too, so the only non-finite outcome is 0/0.
   */
  datatype Ratio = Finite(value: real) | NaN

  /** 2 * DiffSum / NormSum, NaN when the norm sum is zero. */
  function Difference(g1: seq<seq<real>>, g2: seq<seq<real>>, m: nat, n: nat): Ratio
    requires Window(g1, g2, m, n)
  {
    var s := NormSum(g1, g2, m, n);
    if s == 0.0 then NaN else Finite(2.0 * DiffSum(g1, g2, m, n) / s)
  }

  /** The source's `difference > eps`, which is false for NaN. */
  predicate Exceeds(d: Ratio, eps: real)
  {
    d.Finite? && d.value > eps
  }

  lemma {:induction false} RowSumsFacts(a: seq<real>, b: seq<real>, n: nat)
    requires n <= |a| && n <= |b|
    ensures 0.0 <= RowDiff(a, b, n) <= 2.0 * RowNorm(a, b, n)
    ensures RowDiff(a, b, n) == RowDiff(b, a, n) && RowNorm(a, b, n) == RowNorm(b, a, n)
    ensures RowDiff(a, a, n) == 0.0
  {
    if n > 0 {
      RowSumsFacts(a, b, n - 1);
      var x, y := a[n - 1], b[n - 1];
      assert Sq(x - y) <= 2.0 * (Sq(x) + Sq(y)) by {
        assert 2.0 * (Sq(x) + Sq(y)) - Sq(x - y) == Sq(x + y);
      }
      assert Sq(x - y) == Sq(y - x);
    }
  }

  /**
   * The sums behind the difference measure: both are non-negative, the
   * difference sum is at most twice the norm sum, both are symmetric in the
   * two grids, and a grid has difference sum zero with itself.
   */
  lemma {:induction false} GridSumsFacts(g1: seq<seq<real>>, g2: seq<seq<real>>, m: nat, n: nat)
    requires Window(g1, g2, m, n)
    ensures 0.0 <= DiffSum(g1, g2, m, n) <= 2.0 * NormSum(g1, g2, m, n)
    ensures Window(g2, g1, m, n)
    ensures DiffSum(g1, g2, m, n) == DiffSum(g2, g1, m, n) && NormSum(g1, g2, m, n) == NormSum(g2, g1, m, n)
    ensures Window(g1, g1, m, n) && DiffSum(g1, g1, m, n) == 0.0
  {
    if m > 0 {
      GridSumsFacts(g1, g2, m - 1, n);
      RowSumsFacts(g1[m - 1], g2[m - 1], n);
    }
  }

  /** calcDifference(a, b) == calcDifference(b, a), including the NaN case. */
  lemma DifferenceSymmetric(g1: seq<seq<real>>, g2: seq<seq<real>>, m: nat, n: nat)
    requires Window(g1, g2, m, n)
    ensures Window(g2, g1, m, n) && Difference(g1, g2, m, n) == Difference(g2, g1, m, n)
  {
    GridSumsFacts(g1, g2, m, n);
  }

  /** calcDifference(g, g) is 0, or NaN when the window of g is all zeros. */
  lemma DifferenceSelf(g: seq<seq<real>>, m: nat, n: nat)
    requires Window(g, g, m, n)
    ensures Difference(g, g, m, n) == NaN || Difference(g, g, m, n) == Finite(0.0)
  {
    GridSumsFacts(g, g, m, n);
  }

  /** A finite difference lies in [0, 4]. */
  lemma DifferenceRange(g1: seq<seq<real>>, g2: seq<seq<real>>, m: nat, n: nat)
    requires Window(g1, g2, m, n)
    ensures Difference(g1, g2, m, n).Finite? ==> 0.0 <= Difference(g1, g2, m, n).value <= 4.0
  {
    GridSumsFacts(g1, g2, m, n);
    var s := NormSum(g1, g2, m, n);
    if s != 0.0 {
      var t := DiffSum(g1, g2, m, n);
      assert s > 0.0;
      assert 2.0 * t / s <= 4.0 by {
        assert 2.0 * t <= 4.0 * s;
      }
    }
  }
}
