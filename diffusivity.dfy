/**
 * The gradient-dependent diffusion coefficient on values.  An interior
 * cell uses the squared central differences along both axes; a boundary
 * row or column uses the one along its own axis only, and the two end
 * cells of such a line are left at zero.  `exp` stands for the
 * exponential, which the model does not compute.
 */
module Diffusivity {
  import opened Grid

  /** Coefficient for a squared gradient g: diff * exp(-g * factor). */
  function Coefficient(diff: real, factor: real, exp: real -> real, g: real): real
  {
    diff * exp(-g * factor)
  }

  /** The exponential is positive everywhere. */
  ghost predicate ExpPositive(exp: real -> real)
  {
    forall x :: exp(x) > 0.0
  }

  /** Interior cell (i, k): squared central differences along the row and along the column. */
  function InteriorCell(diff: real, factor: real, exp: real -> real, D: seq<seq<real>>, i: int, k: int): real
    requires 1 <= i && i + 1 < |D| && 1 <= k && k + 1 < |D[i]|
    requires k < |D[i - 1]| && k < |D[i + 1]|
  {
    Coefficient(diff, factor, exp, Sq(D[i][k + 1] - D[i][k - 1]) + Sq(D[i + 1][k] - D[i - 1][k]))
  }

  /**
   * Row r computed along the row only; its first and last entries are
   * zero.  A row of fewer than three cells reads nothing of D.
   */
  function RowCoefficients(diff: real, factor: real, exp: real -> real, D: seq<seq<real>>, r: int, cols: nat): (c: seq<real>)
    requires cols >= 3 ==> 0 <= r < |D| && |D[r]| >= cols
    ensures |c| == cols
  {
    seq(cols, k requires 0 <= k < cols => RowCell(diff, factor, exp, D, r, cols, k))
  }

  /** Cell k of RowCoefficients. */
  function RowCell(diff: real, factor: real, exp: real -> real, D: seq<seq<real>>, r: int, cols: nat, k: int): real
    requires cols >= 3 ==> 0 <= r < |D| && |D[r]| >= cols
    requires 0 <= k < cols
  {
    if 1 <= k < cols - 1 then Coefficient(diff, factor, exp, Sq(D[r][k + 1] - D[r][k - 1])) else 0.0
  }

  /**
   * Column c computed along the column only; its first and last entries
   * are zero.  A column of fewer than three cells reads nothing of D.
   */
  function ColumnCoefficients(diff: real, factor: real, exp: real -> real, D: seq<seq<real>>, c: int, rows: nat): (v: seq<real>)
    requires rows >= 3 ==> HasColumn(D, c) && |D| >= rows
    ensures |v| == rows
  {
    seq(rows, i requires 0 <= i < rows => ColumnCell(diff, factor, exp, D, c, rows, i))
  }

  /** Cell i of ColumnCoefficients. */
  function ColumnCell(diff: real, factor: real, exp: real -> real, D: seq<seq<real>>, c: int, rows: nat, i: int): real
    requires rows >= 3 ==> HasColumn(D, c) && |D| >= rows
    requires 0 <= i < rows
  {
    if 1 <= i < rows - 1 then Coefficient(diff, factor, exp, Sq(D[i + 1][c] - D[i - 1][c])) else 0.0
  }

  /**
   * The grid after the interior pass and the boundary pass: a cell in one
   * of the listed columns takes the column value, else a cell in one of
   * the listed rows takes the row value, else the interior value (zero on
   * the outer frame, which the interior pass does not reach).
   */
  function Field(diff: real, factor: real, exp: real -> real, D: seq<seq<real>>,
                 rowList: seq<int>, colList: seq<int>, rows: nat, cols: nat): (G: seq<seq<real>>)
    requires IsRect(D, rows, cols)
    requires InRange(rowList, rows) && InRange(colList, cols)
    ensures IsRect(G, rows, cols)
  {
    seq(rows, i requires 0 <= i < rows =>
      seq(cols, k requires 0 <= k < cols =>
        if k in colList then ColumnCoefficients(diff, factor, exp, D, k, rows)[i]
        else if i in rowList then RowCoefficients(diff, factor, exp, D, i, cols)[k]
        else if 1 <= i < rows - 1 && 1 <= k < cols - 1 then InteriorCell(diff, factor, exp, D, i, k)
        else 0.0))
  }

  /** One cell of the field, by the three cases of its definition. */
  lemma FieldAt(diff: real, factor: real, exp: real -> real, D: seq<seq<real>>,
                rowList: seq<int>, colList: seq<int>, rows: nat, cols: nat, i: int, k: int)
    requires IsRect(D, rows, cols) && InRange(rowList, rows) && InRange(colList, cols)
    requires 0 <= i < rows && 0 <= k < cols
    ensures Field(diff, factor, exp, D, rowList, colList, rows, cols)[i][k]
            == if k in colList then ColumnCell(diff, factor, exp, D, k, rows, i)
               else if i in rowList then RowCell(diff, factor, exp, D, i, cols, k)
               else InteriorValue(diff, factor, exp, D, rows, cols, i, k)
  {
  }

  /** The boundary rows: the two first and the two last. */
  function EdgeRows(rows: int): seq<int> { [0, 1, rows - 2, rows - 1] }

  /** The boundary columns: the two first and the two last. */
  function EdgeColumns(cols: int): seq<int> { [0, 1, cols - 2, cols - 1] }

  /** Membership in an edge list, spelled out. */
  lemma EdgeMember(n: int, j: int)
    ensures j in EdgeRows(n) <==> j == 0 || j == 1 || j == n - 2 || j == n - 1
    ensures EdgeColumns(n) == EdgeRows(n)
  {
  }

  /** The diffusion coefficient grid, with the two outermost rows and columns on each side treated as boundaries. */
  function DiffusionGrid(diff: real, factor: real, exp: real -> real, D: seq<seq<real>>, rows: nat, cols: nat): (G: seq<seq<real>>)
    requires IsRect(D, rows, cols) && rows >= 2 && cols >= 2
    ensures IsRect(G, rows, cols)
  {
    Field(diff, factor, exp, D, EdgeRows(rows), EdgeColumns(cols), rows, cols)
  }

  /**
   * With a non-negative factor in front of a positive exponential, every
   * coefficient of the grid is non-negative; the four corners are zero.
   */
  lemma DiffusionGridNonNegative(diff: real, factor: real, exp: real -> real, D: seq<seq<real>>, rows: nat, cols: nat)
    requires IsRect(D, rows, cols) && rows >= 2 && cols >= 2
    requires diff >= 0.0 && ExpPositive(exp)
    ensures var G := DiffusionGrid(diff, factor, exp, D, rows, cols);
      && (forall i, k :: 0 <= i < rows && 0 <= k < cols ==> G[i][k] >= 0.0)
      && G[0][0] == 0.0 && G[0][cols - 1] == 0.0 && G[rows - 1][0] == 0.0 && G[rows - 1][cols - 1] == 0.0
  {
    var G := DiffusionGrid(diff, factor, exp, D, rows, cols);
    forall x | true
      ensures Coefficient(diff, factor, exp, x) >= 0.0
    {
      assert exp(-x * factor) > 0.0;
    }
  }

  /**
   * Interior cells: two or more cells away from every edge a cell holds
   * diff * exp(-(gx^2 + gy^2) * factor) from the two central differences.
   */
  lemma DiffusionGridInterior(diff: real, factor: real, exp: real -> real, D: seq<seq<real>>,
                              rows: nat, cols: nat, i: int, k: int)
    requires IsRect(D, rows, cols) && 2 <= i < rows - 2 && 2 <= k < cols - 2
    ensures DiffusionGrid(diff, factor, exp, D, rows, cols)[i][k]
            == diff * exp(-(Sq(D[i][k + 1] - D[i][k - 1]) + Sq(D[i + 1][k] - D[i - 1][k])) * factor)
  {
    assert k !in EdgeColumns(cols) && i !in EdgeRows(rows);
  }

  /**
   * Boundary columns: in one of the two outermost columns on either side a
   * cell holds the coefficient of the vertical difference only
   * (ColumnCell), which is zero in the top and bottom rows.
   */
  lemma DiffusionGridEdgeColumn(diff: real, factor: real, exp: real -> real, D: seq<seq<real>>,
                                rows: nat, cols: nat, i: int, k: int)
    requires IsRect(D, rows, cols) && rows >= 3 && cols >= 2
    requires 0 <= i < rows && (k == 0 || k == 1 || k == cols - 2 || k == cols - 1)
    ensures DiffusionGrid(diff, factor, exp, D, rows, cols)[i][k]
            == ColumnCell(diff, factor, exp, D, k, rows, i)
  {
    EdgeMember(cols, k);
    FieldAt(diff, factor, exp, D, EdgeRows(rows), EdgeColumns(cols), rows, cols, i, k);
  }

  /**
   * Boundary rows: in one of the two outermost rows on either side, away
   * from the boundary columns, a cell holds the coefficient of the
   * horizontal difference only (RowCell).
   */
  lemma DiffusionGridEdgeRow(diff: real, factor: real, exp: real -> real, D: seq<seq<real>>,
                             rows: nat, cols: nat, i: int, k: int)
    requires IsRect(D, rows, cols) && rows >= 2 && 2 <= k < cols - 2
    requires i == 0 || i == 1 || i == rows - 2 || i == rows - 1
    ensures DiffusionGrid(diff, factor, exp, D, rows, cols)[i][k]
            == RowCell(diff, factor, exp, D, i, cols, k)
  {
    EdgeMember(cols, k);
    EdgeMember(rows, i);
    FieldAt(diff, factor, exp, D, EdgeRows(rows), EdgeColumns(cols), rows, cols, i, k);
  }

  // ---------------------------------------------------------------------
  // Building the field as the source does: interior first, then whole
  // boundary rows, then whole boundary columns
  // ---------------------------------------------------------------------

  /** The interior pass alone: interior cells, zero on the outer frame. */
  function InteriorValue(diff: real, factor: real, exp: real -> real, D: seq<seq<real>>,
                         rows: nat, cols: nat, i: int, k: int): real
    requires IsRect(D, rows, cols) && 0 <= i < rows && 0 <= k < cols
  {
    if 1 <= i < rows - 1 && 1 <= k < cols - 1 then InteriorCell(diff, factor, exp, D, i, k) else 0.0
  }

  /** Every index of the list lies in [0, n). */
  predicate InRange(list: seq<int>, n: int)
  {
    forall j :: 0 <= j < |list| ==> 0 <= list[j] < n
  }

  /** Before any boundary line is written, the field is the interior pass. */
  lemma FieldOfInterior(diff: real, factor: real, exp: real -> real, D: seq<seq<real>>, rows: nat, cols: nat)
    requires IsRect(D, rows, cols)
    ensures forall i, k :: 0 <= i < rows && 0 <= k < cols ==>
      Field(diff, factor, exp, D, [], [], rows, cols)[i][k] == InteriorValue(diff, factor, exp, D, rows, cols, i, k)
  {
  }

  /** Replacing row r by its row coefficients adds r to the boundary rows (before any column is written). */
  lemma FieldAddRow(diff: real, factor: real, exp: real -> real, D: seq<seq<real>>,
                    rowList: seq<int>, rows: nat, cols: nat, r: int)
    requires IsRect(D, rows, cols) && InRange(rowList, rows) && 0 <= r < rows
    ensures InRange(rowList + [r], rows)
    ensures Field(diff, factor, exp, D, rowList, [], rows, cols)[r := RowCoefficients(diff, factor, exp, D, r, cols)]
            == Field(diff, factor, exp, D, rowList + [r], [], rows, cols)
  {
    var F := Field(diff, factor, exp, D, rowList, [], rows, cols);
    var H := Field(diff, factor, exp, D, rowList + [r], [], rows, cols);
    var G := F[r := RowCoefficients(diff, factor, exp, D, r, cols)];
    forall i | 0 <= i < rows
      ensures G[i] == H[i]
    {
      if i != r {
        forall k | 0 <= k < cols
          ensures G[i][k] == H[i][k]
        {
          assert i in rowList + [r] <==> i in rowList;
        }
      }
    }
  }

  /** Writing column c's coefficients adds c to the boundary columns. */
  lemma FieldAddColumn(diff: real, factor: real, exp: real -> real, D: seq<seq<real>>,
                       rowList: seq<int>, colList: seq<int>, rows: nat, cols: nat, c: int)
    requires IsRect(D, rows, cols) && InRange(rowList, rows) && InRange(colList, cols) && 0 <= c < cols
    ensures InRange(colList + [c], cols)
    ensures SetColumn(Field(diff, factor, exp, D, rowList, colList, rows, cols), c,
                      ColumnCoefficients(diff, factor, exp, D, c, rows))
            == Field(diff, factor, exp, D, rowList, colList + [c], rows, cols)
  {
    var F := Field(diff, factor, exp, D, rowList, colList, rows, cols);
    var H := Field(diff, factor, exp, D, rowList, colList + [c], rows, cols);
    var G := SetColumn(F, c, ColumnCoefficients(diff, factor, exp, D, c, rows));
    forall i | 0 <= i < rows
      ensures G[i] == H[i]
    {
      forall k | 0 <= k < cols
        ensures G[i][k] == H[i][k]
      {
        assert k in colList + [c] <==> k in colList || k == c;
      }
    }
  }

  /** The source's boundary lists: rows 0, 1, cols-1, cols and columns 0, 1, rows-1, rows. */
  function AsWrittenEdgeRows(cols: int): seq<int> { [0, 1, cols - 1, cols] }

  function AsWrittenEdgeColumns(rows: int): seq<int> { [0, 1, rows - 1, rows] }

  /**
   * No grid shape admits the source's lists: row index cols needs
   * cols < rows and column index rows needs rows < cols.
   */
  lemma AsWrittenEdgesNeverFit(rows: int, cols: int)
    ensures !(InRange(AsWrittenEdgeRows(cols), rows) && InRange(AsWrittenEdgeColumns(rows), cols))
  {
    if InRange(AsWrittenEdgeRows(cols), rows) {
      assert AsWrittenEdgeRows(cols)[3] == cols;
      assert AsWrittenEdgeColumns(rows)[3] == rows;
    }
  }

  /** The corrected lists fit exactly the grids with at least two rows and two columns. */
  lemma EdgesFit(rows: int, cols: int)
    ensures InRange(EdgeRows(rows), rows) && InRange(EdgeColumns(cols), cols) <==> rows >= 2 && cols >= 2
  {
    if InRange(EdgeRows(rows), rows) && InRange(EdgeColumns(cols), cols) {
      assert EdgeRows(rows)[1] == 1 && EdgeColumns(cols)[1] == 1;
    }
  }
}
