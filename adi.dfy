/**
 * One alternating-direction implicit (ADI) step on values: every row of
 * the grid is solved as a tridiagonal line, then every column of the
 * intermediate grid is.  Row i takes its two boundary sums from edge
 * vectors 0 and 2, column k from edge vectors 1 and 3.
 */
module Adi {
  import opened Tridiagonal
  import opened Grid

  /** Edge vectors 0 and 2 cover the rows, 1 and 3 the columns. */
  predicate EdgesCover(B: seq<seq<real>>, rows: int, cols: int)
  {
    |B| >= 4 && |B[0]| >= rows && |B[2]| >= rows && |B[1]| >= cols && |B[3]| >= cols
  }

  /**
   * What one step reads: a rows-by-cols data grid with at least three
   * cells each way (a line solve needs three), coefficient grids whose rows
   * all reach column cols-1 and that have at least `rows` rows, and edge
   * vectors long enough.
   */
  predicate Shapes(D: seq<seq<real>>, O: seq<seq<real>>, N: seq<seq<real>>, B: seq<seq<real>>,
                   rows: int, cols: int)
  {
    && rows >= 3 && cols >= 3
    && IsRect(D, rows, cols) && Covers(O, rows, cols) && Covers(N, rows, cols)
    && EdgesCover(B, rows, cols)
  }

  /** The line solved for row i. */
  function RowLine(D: seq<seq<real>>, O: seq<seq<real>>, N: seq<seq<real>>, B: seq<seq<real>>, i: int): Line
    requires 0 <= i < |D| && i < |O| && i < |N| && |B| >= 4 && i < |B[0]| && i < |B[2]|
  {
    Line(D[i], [B[0][i], B[2][i]], O[i], N[i])
  }

  /** The line solved for column k of the intermediate grid R. */
  function ColumnLine(R: seq<seq<real>>, O: seq<seq<real>>, N: seq<seq<real>>, B: seq<seq<real>>, k: int): Line
    requires HasColumn(R, k) && HasColumn(O, k) && HasColumn(N, k)
    requires |B| >= 4 && k < |B[1]| && k < |B[3]|
  {
    Line(Column(R, k), [B[1][k], B[3][k]], Column(O, k), Column(N, k))
  }

  predicate RowsSolvable(bc: seq<real>, D: seq<seq<real>>, O: seq<seq<real>>, N: seq<seq<real>>,
                         B: seq<seq<real>>, rows: int, cols: int)
    requires Shapes(D, O, N, B, rows, cols)
  {
    forall i :: 0 <= i < rows ==> Solvable(bc, RowLine(D, O, N, B, i))
  }

  /** The intermediate grid: row i is the Thomas solve of row line i. */
  function RowPass(bc: seq<real>, D: seq<seq<real>>, O: seq<seq<real>>, N: seq<seq<real>>,
                   B: seq<seq<real>>, rows: int, cols: int): (R: seq<seq<real>>)
    requires Shapes(D, O, N, B, rows, cols) && RowsSolvable(bc, D, O, N, B, rows, cols)
    ensures IsRect(R, rows, cols)
  {
    seq(rows, i requires 0 <= i < rows => Thomas(bc, RowLine(D, O, N, B, i)))
  }

  /** The first n column lines of R are solvable. */
  predicate ColumnsSolvableUpTo(bc: seq<real>, R: seq<seq<real>>, O: seq<seq<real>>, N: seq<seq<real>>,
                                B: seq<seq<real>>, rows: int, cols: int, n: int)
    requires Shapes(R, O, N, B, rows, cols) && n <= cols
  {
    forall k :: 0 <= k < n ==> Solvable(bc, ColumnLine(R, O, N, B, k))
  }

  predicate ColumnsSolvable(bc: seq<real>, R: seq<seq<real>>, O: seq<seq<real>>, N: seq<seq<real>>,
                            B: seq<seq<real>>, rows: int, cols: int)
    requires Shapes(R, O, N, B, rows, cols)
  {
    ColumnsSolvableUpTo(bc, R, O, N, B, rows, cols, cols)
  }

  /** The final grid: column k is the Thomas solve of column line k of R. */
  function ColumnPass(bc: seq<real>, R: seq<seq<real>>, O: seq<seq<real>>, N: seq<seq<real>>,
                      B: seq<seq<real>>, rows: int, cols: int): (G: seq<seq<real>>)
    requires Shapes(R, O, N, B, rows, cols)
    requires ColumnsSolvable(bc, R, O, N, B, rows, cols)
    ensures IsRect(G, rows, cols)
  {
    seq(rows, i requires 0 <= i < rows =>
      seq(cols, k requires 0 <= k < cols => Thomas(bc, ColumnLine(R, O, N, B, k))[i]))
  }

  /**
   * The grid part way through the column pass: the first k columns of R
   * replaced by their column solves, the others as in R.
   */
  function ColumnsUpTo(bc: seq<real>, R: seq<seq<real>>, O: seq<seq<real>>, N: seq<seq<real>>,
                       B: seq<seq<real>>, rows: int, cols: int, k: int): (G: seq<seq<real>>)
    requires Shapes(R, O, N, B, rows, cols) && 0 <= k <= cols
    requires ColumnsSolvableUpTo(bc, R, O, N, B, rows, cols, k)
    ensures IsRect(G, rows, cols)
  {
    seq(rows, i requires 0 <= i < rows =>
      seq(cols, c requires 0 <= c < cols =>
        if c < k then Thomas(bc, ColumnLine(R, O, N, B, c))[i] else R[i][c]))
  }

  /** The column pass starts from R. */
  lemma ColumnsUpToStart(bc: seq<real>, R: seq<seq<real>>, O: seq<seq<real>>, N: seq<seq<real>>,
                         B: seq<seq<real>>, rows: int, cols: int)
    requires Shapes(R, O, N, B, rows, cols)
    ensures ColumnsUpTo(bc, R, O, N, B, rows, cols, 0) == R
  {
    var Z := ColumnsUpTo(bc, R, O, N, B, rows, cols, 0);
    forall i | 0 <= i < rows
      ensures Z[i] == R[i]
    {
    }
  }

  /** Column k is still that of R when the pass reaches it. */
  lemma ColumnsUpToRead(bc: seq<real>, R: seq<seq<real>>, O: seq<seq<real>>, N: seq<seq<real>>,
                        B: seq<seq<real>>, rows: int, cols: int, k: int)
    requires Shapes(R, O, N, B, rows, cols) && 0 <= k < cols
    requires ColumnsSolvableUpTo(bc, R, O, N, B, rows, cols, k)
    ensures Column(ColumnsUpTo(bc, R, O, N, B, rows, cols, k), k) == Column(R, k)
  {
  }

  /** A solvable column k extends the run of solvable columns. */
  lemma ColumnsSolvableStep(bc: seq<real>, R: seq<seq<real>>, O: seq<seq<real>>, N: seq<seq<real>>,
                            B: seq<seq<real>>, rows: int, cols: int, k: int)
    requires Shapes(R, O, N, B, rows, cols) && 0 <= k < cols
    requires ColumnsSolvableUpTo(bc, R, O, N, B, rows, cols, k)
    requires Solvable(bc, ColumnLine(R, O, N, B, k))
    ensures ColumnsSolvableUpTo(bc, R, O, N, B, rows, cols, k + 1)
  {
  }

  /** Writing the solve of column k moves the pass on to k + 1. */
  lemma ColumnsUpToWrite(bc: seq<real>, R: seq<seq<real>>, O: seq<seq<real>>, N: seq<seq<real>>,
                         B: seq<seq<real>>, rows: int, cols: int, k: int)
    requires Shapes(R, O, N, B, rows, cols) && 0 <= k < cols
    requires ColumnsSolvableUpTo(bc, R, O, N, B, rows, cols, k + 1)
    ensures SetColumn(ColumnsUpTo(bc, R, O, N, B, rows, cols, k), k, Thomas(bc, ColumnLine(R, O, N, B, k)))
            == ColumnsUpTo(bc, R, O, N, B, rows, cols, k + 1)
  {
    var G := ColumnsUpTo(bc, R, O, N, B, rows, cols, k);
    var H := ColumnsUpTo(bc, R, O, N, B, rows, cols, k + 1);
    var t := Thomas(bc, ColumnLine(R, O, N, B, k));
    var S := SetColumn(G, k, t);
    forall i | 0 <= i < rows
      ensures S[i] == H[i]
    {
      assert S[i] == G[i][k := t[i]];
    }
  }

  /** Once every column is written the partial grid is the column pass. */
  lemma ColumnsUpToAll(bc: seq<real>, R: seq<seq<real>>, O: seq<seq<real>>, N: seq<seq<real>>,
                       B: seq<seq<real>>, rows: int, cols: int)
    requires Shapes(R, O, N, B, rows, cols)
    requires ColumnsSolvable(bc, R, O, N, B, rows, cols)
    ensures ColumnsUpTo(bc, R, O, N, B, rows, cols, cols) == ColumnPass(bc, R, O, N, B, rows, cols)
  {
    var G := ColumnsUpTo(bc, R, O, N, B, rows, cols, cols);
    var P := ColumnPass(bc, R, O, N, B, rows, cols);
    forall i | 0 <= i < rows
      ensures G[i] == P[i]
    {
    }
  }

  /** Every line solve of the step has nonzero divisors. */
  predicate StepSolvable(bc: seq<real>, D: seq<seq<real>>, O: seq<seq<real>>, N: seq<seq<real>>,
                         B: seq<seq<real>>, rows: int, cols: int)
    requires Shapes(D, O, N, B, rows, cols)
  {
    && RowsSolvable(bc, D, O, N, B, rows, cols)
    && ColumnsSolvable(bc, RowPass(bc, D, O, N, B, rows, cols), O, N, B, rows, cols)
  }

  /** The grid one ADI step returns. */
  function Step(bc: seq<real>, D: seq<seq<real>>, O: seq<seq<real>>, N: seq<seq<real>>,
                B: seq<seq<real>>, rows: int, cols: int): (G: seq<seq<real>>)
    requires Shapes(D, O, N, B, rows, cols) && StepSolvable(bc, D, O, N, B, rows, cols)
    ensures IsRect(G, rows, cols)
  {
    ColumnPass(bc, RowPass(bc, D, O, N, B, rows, cols), O, N, B, rows, cols)
  }

  /** Column k of the step's result is the column solve of column k of the intermediate grid. */
  lemma StepColumn(bc: seq<real>, D: seq<seq<real>>, O: seq<seq<real>>, N: seq<seq<real>>,
                   B: seq<seq<real>>, rows: int, cols: int, k: int)
    requires Shapes(D, O, N, B, rows, cols) && StepSolvable(bc, D, O, N, B, rows, cols)
    requires 0 <= k < cols
    ensures var R := RowPass(bc, D, O, N, B, rows, cols);
      Column(Step(bc, D, O, N, B, rows, cols), k) == Thomas(bc, ColumnLine(R, O, N, B, k))
  {
    var R := RowPass(bc, D, O, N, B, rows, cols);
    var G := Step(bc, D, O, N, B, rows, cols);
    var t := Thomas(bc, ColumnLine(R, O, N, B, k));
    ThomasSolvesSystem(bc, ColumnLine(R, O, N, B, k));
    assert |t| == rows;
    forall i | 0 <= i < rows
      ensures Column(G, k)[i] == t[i]
    {
      assert G[i][k] == t[i];
    }
  }

  /**
   * Row i of the intermediate grid depends on row i of the inputs and on
   * the two row edge sums at i, and on nothing else.
   */
  lemma RowPassIsLocal(bc: seq<real>, D: seq<seq<real>>, O: seq<seq<real>>, N: seq<seq<real>>, B: seq<seq<real>>,
                       D': seq<seq<real>>, O': seq<seq<real>>, N': seq<seq<real>>, B': seq<seq<real>>,
                       rows: int, cols: int, i: int)
    requires Shapes(D, O, N, B, rows, cols) && RowsSolvable(bc, D, O, N, B, rows, cols)
    requires Shapes(D', O', N', B', rows, cols) && RowsSolvable(bc, D', O', N', B', rows, cols)
    requires 0 <= i < rows
    requires D[i] == D'[i] && O[i] == O'[i] && N[i] == N'[i] && B[0][i] == B'[0][i] && B[2][i] == B'[2][i]
    ensures RowPass(bc, D, O, N, B, rows, cols)[i] == RowPass(bc, D', O', N', B', rows, cols)[i]
  {
    assert RowLine(D, O, N, B, i) == RowLine(D', O', N', B', i);
  }

  /**
   * The step solves the scheme line by line: every row of the intermediate
   * grid satisfies the interior equations of its row line, and every column
   * of the result satisfies those of its column line.
   */
  lemma StepSolvesScheme(bc: seq<real>, D: seq<seq<real>>, O: seq<seq<real>>, N: seq<seq<real>>,
                         B: seq<seq<real>>, rows: int, cols: int)
    requires Shapes(D, O, N, B, rows, cols) && StepSolvable(bc, D, O, N, B, rows, cols)
    ensures var R := RowPass(bc, D, O, N, B, rows, cols);
      && (forall i, m :: 0 <= i < rows && 1 <= m <= cols - 2 ==>
            InteriorEquation(RowLine(D, O, N, B, i), R[i], m))
      && (forall k, m :: 0 <= k < cols && 1 <= m <= rows - 2 ==>
            InteriorEquation(ColumnLine(R, O, N, B, k), Column(Step(bc, D, O, N, B, rows, cols), k), m))
  {
    var R := RowPass(bc, D, O, N, B, rows, cols);
    forall i | 0 <= i < rows
      ensures forall m :: 1 <= m <= cols - 2 ==> InteriorEquation(RowLine(D, O, N, B, i), R[i], m)
    {
      ThomasSolvesSystem(bc, RowLine(D, O, N, B, i));
    }
    forall k | 0 <= k < cols
      ensures forall m :: 1 <= m <= rows - 2 ==>
        InteriorEquation(ColumnLine(R, O, N, B, k), Column(Step(bc, D, O, N, B, rows, cols), k), m)
    {
      StepColumn(bc, D, O, N, B, rows, cols, k);
      ThomasSolvesSystem(bc, ColumnLine(R, O, N, B, k));
    }
  }

  /** Every cell of the rows-by-cols grid G holds u. */
  predicate UniformGrid(G: seq<seq<real>>, rows: int, cols: int, u: real)
  {
    IsRect(G, rows, cols) && forall i, k :: 0 <= i < rows && 0 <= k < cols ==> G[i][k] == u
  }

  /** Every boundary sum the step reads is zero. */
  predicate ZeroSums(B: seq<seq<real>>, rows: int, cols: int)
  {
    && EdgesCover(B, rows, cols)
    && (forall i :: 0 <= i < rows ==> B[0][i] == 0.0 && B[2][i] == 0.0)
    && (forall k :: 0 <= k < cols ==> B[1][k] == 0.0 && B[3][k] == 0.0)
  }

  /**
   * A uniform grid with zero boundary sums is a steady state of the step
   * when the boundary condition keeps it: an all-zero image stays all zero,
   * and with Robin coefficients summing to zero any uniform image stays as
   * it is, whatever the coefficient grids.
   */
  lemma StepKeepsUniform(bc: seq<real>, D: seq<seq<real>>, O: seq<seq<real>>, N: seq<seq<real>>,
                         B: seq<seq<real>>, rows: int, cols: int, u: real)
    requires Shapes(D, O, N, B, rows, cols) && StepSolvable(bc, D, O, N, B, rows, cols)
    requires |bc| == 3 && KeepsUniform(bc, u) && UniformGrid(D, rows, cols, u) && ZeroSums(B, rows, cols)
    ensures UniformGrid(Step(bc, D, O, N, B, rows, cols), rows, cols, u)
  {
    var R := RowPass(bc, D, O, N, B, rows, cols);
    forall i | 0 <= i < rows
      ensures forall k :: 0 <= k < cols ==> R[i][k] == u
    {
      ThomasOfUniform(bc, RowLine(D, O, N, B, i), u);
    }
    var G := Step(bc, D, O, N, B, rows, cols);
    forall i, k | 0 <= i < rows && 0 <= k < cols
      ensures G[i][k] == u
    {
      var ln := ColumnLine(R, O, N, B, k);
      assert UniformData(ln, u);
      StepColumn(bc, D, O, N, B, rows, cols, k);
      ThomasOfUniform(bc, ln, u);
      assert Column(G, k)[i] == G[i][k];
    }
  }
}
