/**
 * The Crank–Nicholson / ADI diffusion solver over grids held as
 * two-dimensional arrays.  Every method is proved against the value-level
 * specification in Tridiagonal, Grid, Adi and Diffusivity.
 */
module CrankNicholson {
  import opened Wrappers
  import opened Tridiagonal
  import opened Grid
  import opened Adi
  import opened Diffusivity
  import opened NonLinear

  /** The contents of a two-dimensional array, row by row. */
  function Rows(g: array2<real>): (s: seq<seq<real>>)
    reads g
    ensures IsRect(s, g.Length0, g.Length1)
    ensures forall i, k :: 0 <= i < g.Length0 && 0 <= k < g.Length1 ==> s[i][k] == g[i, k]
  {
    seq(g.Length0, i requires 0 <= i < g.Length0 reads g =>
      seq(g.Length1, k requires 0 <= k < g.Length1 reads g => g[i, k]))
  }

  /** The first three entries of b, padded with zeros (Arrays.copyOfRange(b, 0, 3)). */
  function FirstThree(b: seq<real>): (r: seq<real>)
    ensures |r| == 3
    ensures forall k :: 0 <= k < 3 ==> r[k] == if k < |b| then b[k] else 0.0
  {
    seq(3, k requires 0 <= k < 3 => if k < |b| then b[k] else 0.0)
  }

  class CrankNicholson2D {
    /** Coefficients of the boundary condition bc0*r0 + bc1*r1 + bc2*r2 = sum. */
    const bc: seq<real>
    const diffCoefFactor: real
    const nonLinearFactor: real
    const eps: real
    /** The exponential function the coefficient uses. */
    const exp: real -> real

    constructor (bConditionCoef: array<real>, diffCoef: real, nonLinearCoef: real, precision: real,
                 exp: real -> real)
      requires nonLinearCoef != 0.0
      ensures bc == FirstThree(bConditionCoef[..])
      ensures diffCoefFactor == diffCoef && eps == precision && this.exp == exp
      ensures nonLinearFactor * (nonLinearCoef * nonLinearCoef) == 1.0
    {
      bc := FirstThree(bConditionCoef[..]);
      diffCoefFactor := diffCoef;
      nonLinearFactor := 1.0 / (nonLinearCoef * nonLinearCoef);
      eps := precision;
      this.exp := exp;
    }

    /**
     * One implicit line solve by the Thomas algorithm: the forward sweep
     * fills p and q, the upper boundary condition closes the last value,
     * and back substitution fills the rest.
     */
    method IterateLinear1D(data: seq<real>, bSum: seq<real>, coefOld: seq<real>, coef: seq<real>)
      returns (result: array<real>)
      requires Solvable(bc, Line(data, bSum, coefOld, coef))
      ensures fresh(result)
      ensures result[..] == Thomas(bc, Line(data, bSum, coefOld, coef))
    {
      ghost var ln := Line(data, bSum, coefOld, coef);
      ghost var s := FullSweep(bc, ln);
      var size := |data|;
      result := new real[size](_ => 0.0);
      assert Eliminates(bc, ln, s.p, s.q) by { FullSweepSteps(bc, ln); }
      var p, q, d := SweepForward(data, bSum, coefOld, coef, s.p, s.q);
      // The last value, closed by the upper boundary condition
      LastFromCells(bc, ln, s, coef[size - 3], coef[size - 2], coef[size - 1], bSum[1], d, p[size - 2], q[size - 2]);
      result[size - 1] := ClosingNumerator(bc, coef[size - 3], coef[size - 2], coef[size - 1], bSum[1], d, q[size - 2])
                          / ClosingDenominator(bc, coef[size - 3], coef[size - 2], coef[size - 1], p[size - 2]);
      assert result[size - 1] == LastNumerator(bc, ln, s) / LastDenominator(bc, ln, s);
      BackSubstitute(p, q, result);
    }

    /**
     * Step zero, closed by the lower boundary condition, and the forward
     * sweep over the interior: p and q come out as the elimination
     * coefficients sp and sq, and d is the explicit right-hand side of the
     * last interior cell.
     */
    method SweepForward(data: seq<real>, bSum: seq<real>, coefOld: seq<real>, coef: seq<real>,
                        ghost sp: seq<real>, ghost sq: seq<real>)
      returns (p: array<real>, q: array<real>, d: real)
      requires WellShaped(bc, Line(data, bSum, coefOld, coef))
      requires Eliminates(bc, Line(data, bSum, coefOld, coef), sp, sq)
      ensures fresh(p) && fresh(q)
      ensures p[..] == sp && q[..] == sq
      ensures d == Rhs(Line(data, bSum, coefOld, coef), |data| - 2)
    {
      ghost var ln := Line(data, bSum, coefOld, coef);
      var size := |data|;
      p := new real[size - 1];
      q := new real[size - 1];
      var a := (coef[1] + coef[2]) / 2.0;
      var b := (coef[0] + coef[1]) / 2.0;
      var c := a + b + 1.0;
      d := ExplicitUpdate(coefOld[0], coefOld[1], coefOld[2], data[0], data[1], data[2]);
      FirstFromCells(bc, ln, a, b, c, d);
      p[0] := FirstCoefficientP(bc, a, b, c);
      q[0] := FirstCoefficientQ(bc, bSum[0], a, b, d);
      var m := 1;
      ghost var k := 1;
      while m < size - 1
        invariant 1 <= m <= size - 1
        invariant forall j :: 0 <= j < m ==> p[j] == sp[j] && q[j] == sq[j]
        invariant k == (if m == 1 then 1 else m - 1) && d == Rhs(ln, k)
      {
        a := (coef[m] + coef[m + 1]) / 2.0;
        b := (coef[m - 1] + coef[m]) / 2.0;
        c := a + b + 1.0;
        d := ExplicitUpdate(coefOld[m - 1], coefOld[m], coefOld[m + 1], data[m - 1], data[m], data[m + 1]);
        StepFromCells(ln, m, p[m - 1], q[m - 1], a, b, c, d);
        EliminationStep(ln, sp, sq, m);
        p[m] := CoefficientP(a, b, c, p[m - 1]);
        q[m] := CoefficientQ(b, c, d, p[m - 1], q[m - 1]);
        k := m;
        m := m + 1;
      }
    }

    /** Back substitution: result[m] = q[m] - p[m] * result[m + 1], from the end down to 0. */
    method BackSubstitute(p: array<real>, q: array<real>, result: array<real>)
      requires p.Length == q.Length && result.Length == p.Length + 1
      requires result != p && result != q
      modifies result
      ensures result[..] == BackSub(p[..], q[..], old(result[result.Length - 1]))
    {
      ghost var x := result[result.Length - 1];
      ghost var t := BackSub(p[..], q[..], x);
      BackSubLast(p[..], q[..], x);
      var m := p.Length - 1;
      while m > -1
        invariant -1 <= m <= p.Length - 1
        invariant forall j :: m < j < result.Length ==> result[j] == t[j]
      {
        BackSubIndex(p[..], q[..], x, m);
        result[m] := q[m] - p[m] * result[m + 1];
        m := m - 1;
      }
    }

    /**
     * The diffusion coefficient grid of data: the interior pass, then the
     * two outermost rows and columns on each side computed along their own
     * line.  ok is false exactly when a boundary index lies outside the
     * grid, where the source throws.
     */
    method GetDiffCoefficient(data: seq<seq<real>>) returns (diffCoef: array2<real>, ok: bool)
      requires |data| >= 1 && IsRect(data, |data|, |data[0]|)
      ensures fresh(diffCoef)
      ensures ok <==> |data| >= 2 && |data[0]| >= 2
      ensures ok ==> Rows(diffCoef) == DiffusionGrid(diffCoefFactor, nonLinearFactor, exp, data, |data|, |data[0]|)
    {
      var xsize, ysize := |data[0]|, |data|;
      diffCoef := InteriorPass(data);
      ok := BoundaryPass(data, diffCoef, EdgeRows(ysize), EdgeColumns(xsize));
      EdgesFit(ysize, xsize);
    }

    /**
     * The same computation with the source's boundary indices (rows 0, 1,
     * xsize - 1, xsize and columns 0, 1, ysize - 1, ysize): it fails on
     * every grid.
     */
    method GetDiffCoefficientAsWritten(data: seq<seq<real>>) returns (diffCoef: array2<real>, ok: bool)
      requires |data| >= 1 && IsRect(data, |data|, |data[0]|)
      ensures fresh(diffCoef)
      ensures !ok
    {
      var xsize, ysize := |data[0]|, |data|;
      diffCoef := InteriorPass(data);
      ok := BoundaryPass(data, diffCoef, AsWrittenEdgeRows(xsize), AsWrittenEdgeColumns(ysize));
      AsWrittenEdgesNeverFit(ysize, xsize);
    }

    /** A zero grid of data's shape with every interior cell computed from both differences. */
    method InteriorPass(data: seq<seq<real>>) returns (diffCoef: array2<real>)
      requires |data| >= 1 && IsRect(data, |data|, |data[0]|)
      ensures fresh(diffCoef) && diffCoef.Length0 == |data| && diffCoef.Length1 == |data[0]|
      ensures Rows(diffCoef) == Field(diffCoefFactor, nonLinearFactor, exp, data, [], [], |data|, |data[0]|)
    {
      var xsize, ysize := |data[0]|, |data|;
      diffCoef := new real[ysize, xsize]((_, _) => 0.0);
      var i := 1;
      while i < ysize - 1
        invariant 1 <= i
        invariant forall a, b :: 0 <= a < ysize && 0 <= b < xsize ==>
          diffCoef[a, b] == if a < i then InteriorValue(diffCoefFactor, nonLinearFactor, exp, data, ysize, xsize, a, b) else 0.0
      {
        InteriorRow(data, diffCoef, i);
        i := i + 1;
      }
      FieldOfInterior(diffCoefFactor, nonLinearFactor, exp, data, ysize, xsize);
      ghost var F := Field(diffCoefFactor, nonLinearFactor, exp, data, [], [], ysize, xsize);
      forall a | 0 <= a < ysize
        ensures Rows(diffCoef)[a] == F[a]
      {
      }
    }

    /** Computes the interior cells of row i in place; nothing else changes. */
    method InteriorRow(data: seq<seq<real>>, diffCoef: array2<real>, i: int)
      requires IsRect(data, diffCoef.Length0, diffCoef.Length1) && 1 <= i < diffCoef.Length0 - 1
      modifies diffCoef
      ensures forall a, b :: 0 <= a < diffCoef.Length0 && 0 <= b < diffCoef.Length1 ==>
        diffCoef[a, b] == if a == i && 1 <= b < diffCoef.Length1 - 1
                          then InteriorCell(diffCoefFactor, nonLinearFactor, exp, data, a, b)
                          else old(diffCoef[a, b])
    {
      var xsize := diffCoef.Length1;
      var k := 1;
      while k < xsize - 1
        invariant 1 <= k
        invariant forall a, b :: 0 <= a < diffCoef.Length0 && 0 <= b < xsize ==>
          diffCoef[a, b] == if a == i && 1 <= b < k && b < xsize - 1
                            then InteriorCell(diffCoefFactor, nonLinearFactor, exp, data, a, b)
                            else old(diffCoef[a, b])
      {
        diffCoef[i, k] := InteriorCell(diffCoefFactor, nonLinearFactor, exp, data, i, k);
        k := k + 1;
      }
    }

    /**
     * Replaces the listed rows, then the listed columns, by their one-line
     * coefficients, stopping at the first index outside the grid.
     */
    method BoundaryPass(data: seq<seq<real>>, diffCoef: array2<real>, rowList: seq<int>, colList: seq<int>)
      returns (ok: bool)
      requires |data| >= 1 && IsRect(data, |data|, |data[0]|)
      requires diffCoef.Length0 == |data| && diffCoef.Length1 == |data[0]|
      requires Rows(diffCoef) == Field(diffCoefFactor, nonLinearFactor, exp, data, [], [], |data|, |data[0]|)
      modifies diffCoef
      ensures ok <==> InRange(rowList, |data|) && InRange(colList, |data[0]|)
      ensures ok ==> Rows(diffCoef) == Field(diffCoefFactor, nonLinearFactor, exp, data, rowList, colList, |data|, |data[0]|)
    {
      ok := BoundaryRows(data, diffCoef, rowList);
      if !ok { return; }
      ok := BoundaryColumns(data, diffCoef, rowList, colList);
    }

    /** The row replacements of the boundary pass, in list order. */
    method BoundaryRows(data: seq<seq<real>>, diffCoef: array2<real>, rowList: seq<int>) returns (ok: bool)
      requires |data| >= 1 && IsRect(data, |data|, |data[0]|)
      requires diffCoef.Length0 == |data| && diffCoef.Length1 == |data[0]|
      requires Rows(diffCoef) == Field(diffCoefFactor, nonLinearFactor, exp, data, [], [], |data|, |data[0]|)
      modifies diffCoef
      ensures ok <==> InRange(rowList, |data|)
      ensures ok ==> Rows(diffCoef) == Field(diffCoefFactor, nonLinearFactor, exp, data, rowList, [], |data|, |data[0]|)
    {
      var j := 0;
      while j < |rowList|
        invariant 0 <= j <= |rowList| && InRange(rowList[..j], |data|)
        invariant Rows(diffCoef) == Field(diffCoefFactor, nonLinearFactor, exp, data, rowList[..j], [], |data|, |data[0]|)
      {
        ok := BoundaryRow(data, diffCoef, rowList, j);
        if !ok { return; }
        j := j + 1;
      }
      assert rowList[..j] == rowList;
      ok := true;
    }

    /** The column writes of the boundary pass, in list order. */
    method BoundaryColumns(data: seq<seq<real>>, diffCoef: array2<real>, rowList: seq<int>, colList: seq<int>)
      returns (ok: bool)
      requires |data| >= 1 && IsRect(data, |data|, |data[0]|)
      requires diffCoef.Length0 == |data| && diffCoef.Length1 == |data[0]|
      requires InRange(rowList, |data|)
      requires Rows(diffCoef) == Field(diffCoefFactor, nonLinearFactor, exp, data, rowList, [], |data|, |data[0]|)
      modifies diffCoef
      ensures ok <==> InRange(colList, |data[0]|)
      ensures ok ==> Rows(diffCoef) == Field(diffCoefFactor, nonLinearFactor, exp, data, rowList, colList, |data|, |data[0]|)
    {
      var j := 0;
      while j < |colList|
        invariant 0 <= j <= |colList| && InRange(colList[..j], |data[0]|)
        invariant Rows(diffCoef) == Field(diffCoefFactor, nonLinearFactor, exp, data, rowList, colList[..j], |data|, |data[0]|)
      {
        ok := BoundaryColumn(data, diffCoef, rowList, colList, j);
        if !ok { return; }
        j := j + 1;
      }
      assert colList[..j] == colList;
      ok := true;
    }

    /**
     * Replaces row rowList[j] by its row coefficients, the rows before it in
     * the list being done; ok is false when rowList[j] is not a row.
     */
    method BoundaryRow(data: seq<seq<real>>, diffCoef: array2<real>, rowList: seq<int>, j: int) returns (ok: bool)
      requires |data| >= 1 && IsRect(data, |data|, |data[0]|)
      requires diffCoef.Length0 == |data| && diffCoef.Length1 == |data[0]|
      requires 0 <= j < |rowList| && InRange(rowList[..j], |data|)
      requires Rows(diffCoef) == Field(diffCoefFactor, nonLinearFactor, exp, data, rowList[..j], [], |data|, |data[0]|)
      modifies diffCoef
      ensures ok <==> 0 <= rowList[j] < |data|
      ensures ok ==> InRange(rowList[..j + 1], |data|)
      ensures ok ==> Rows(diffCoef) == Field(diffCoefFactor, nonLinearFactor, exp, data, rowList[..j + 1], [], |data|, |data[0]|)
    {
      var r := rowList[j];
      if !(0 <= r < diffCoef.Length0) {
        return false;
      }
      var row := GetDiffCoefficient1D(data, r, true);
      PutRow(r, diffCoef, row);
      FieldAddRow(diffCoefFactor, nonLinearFactor, exp, data, rowList[..j], |data|, |data[0]|, r);
      assert rowList[..j] + [r] == rowList[..j + 1];
      ok := true;
    }

    /**
     * Writes the coefficients of column colList[j] into the grid, the
     * columns before it in the list being done; ok is false when colList[j]
     * is not a column.
     */
    method BoundaryColumn(data: seq<seq<real>>, diffCoef: array2<real>, ghost rowList: seq<int>, colList: seq<int>, j: int)
      returns (ok: bool)
      requires |data| >= 1 && IsRect(data, |data|, |data[0]|)
      requires diffCoef.Length0 == |data| && diffCoef.Length1 == |data[0]|
      requires 0 <= j < |colList| && InRange(rowList, |data|) && InRange(colList[..j], |data[0]|)
      requires Rows(diffCoef) == Field(diffCoefFactor, nonLinearFactor, exp, data, rowList, colList[..j], |data|, |data[0]|)
      modifies diffCoef
      ensures ok <==> 0 <= colList[j] < |data[0]|
      ensures ok ==> InRange(colList[..j + 1], |data[0]|)
      ensures ok ==> Rows(diffCoef) == Field(diffCoefFactor, nonLinearFactor, exp, data, rowList, colList[..j + 1], |data|, |data[0]|)
    {
      var c := colList[j];
      if !(0 <= c < diffCoef.Length1) {
        return false;
      }
      var column := GetDiffCoefficient1D(data, c, false);
      PutColumn(c, diffCoef, column);
      FieldAddColumn(diffCoefFactor, nonLinearFactor, exp, data, rowList, colList[..j], |data|, |data[0]|, c);
      assert colList[..j] + [c] == colList[..j + 1];
      ok := true;
    }

    /**
     * The coefficients along one line only: row `index` when ifx, else
     * column `index`.  The two end entries stay zero.
     */
    method GetDiffCoefficient1D(data: seq<seq<real>>, index: int, ifx: bool) returns (result: array<real>)
      requires |data| >= 1 && IsRect(data, |data|, |data[0]|)
      requires ifx && |data[0]| >= 3 ==> 0 <= index < |data|
      requires !ifx && |data| >= 3 ==> 0 <= index < |data[0]|
      ensures fresh(result)
      ensures ifx ==> result[..] == RowCoefficients(diffCoefFactor, nonLinearFactor, exp, data, index, |data[0]|)
      ensures !ifx ==> result[..] == ColumnCoefficients(diffCoefFactor, nonLinearFactor, exp, data, index, |data|)
    {
      if ifx {
        result := CoefficientsAlongRow(data, index);
      } else {
        result := CoefficientsAlongColumn(data, index);
      }
    }

    /** The ifx branch of GetDiffCoefficient1D. */
    method CoefficientsAlongRow(data: seq<seq<real>>, index: int) returns (result: array<real>)
      requires |data| >= 1 && IsRect(data, |data|, |data[0]|)
      requires |data[0]| >= 3 ==> 0 <= index < |data|
      ensures fresh(result)
      ensures result[..] == RowCoefficients(diffCoefFactor, nonLinearFactor, exp, data, index, |data[0]|)
    {
      var size := |data[0]|;
      result := new real[size](_ => 0.0);
      var i := 1;
      while i < size - 1
        invariant 1 <= i
        invariant forall j :: 0 <= j < size ==>
          result[j] == if j < i then RowCell(diffCoefFactor, nonLinearFactor, exp, data, index, size, j) else 0.0
      {
        result[i] := Coefficient(diffCoefFactor, nonLinearFactor, exp, Sq(data[index][i + 1] - data[index][i - 1]));
        assert result[i] == RowCell(diffCoefFactor, nonLinearFactor, exp, data, index, size, i);
        i := i + 1;
      }
    }

    /** The column branch of GetDiffCoefficient1D. */
    method CoefficientsAlongColumn(data: seq<seq<real>>, index: int) returns (result: array<real>)
      requires |data| >= 1 && IsRect(data, |data|, |data[0]|)
      requires |data| >= 3 ==> 0 <= index < |data[0]|
      ensures fresh(result)
      ensures result[..] == ColumnCoefficients(diffCoefFactor, nonLinearFactor, exp, data, index, |data|)
    {
      var size := |data|;
      result := new real[size](_ => 0.0);
      var i := 1;
      while i < size - 1
        invariant 1 <= i
        invariant forall j :: 0 <= j < size ==>
          result[j] == if j < i then ColumnCell(diffCoefFactor, nonLinearFactor, exp, data, index, size, j) else 0.0
      {
        result[i] := Coefficient(diffCoefFactor, nonLinearFactor, exp, Sq(data[i + 1][index] - data[i - 1][index]));
        assert result[i] == ColumnCell(diffCoefFactor, nonLinearFactor, exp, data, index, size, i);
        i := i + 1;
      }
    }

    /** Overwrites row `index` with dataX, in place. */
    method PutRow(index: int, data: array2<real>, dataX: array<real>)
      requires dataX.Length == data.Length1 && 0 <= index < data.Length0
      modifies data
      ensures Rows(data) == old(Rows(data))[index := dataX[..]]
    {
      var size := dataX.Length;
      var k := 0;
      while k < size
        invariant 0 <= k <= size
        invariant forall j, c :: 0 <= j < data.Length0 && 0 <= c < data.Length1 ==>
          data[j, c] == if j == index && c < k then dataX[c] else old(data[j, c])
      {
        data[index, k] := dataX[k];
        k := k + 1;
      }
      ghost var G := old(Rows(data))[index := dataX[..]];
      forall j | 0 <= j < data.Length0
        ensures Rows(data)[j] == G[j]
      {
      }
    }

    /** Column `index` of the grid, as a new array. */
    method GetColumn(index: int, data: seq<seq<real>>) returns (result: array<real>)
      requires HasColumn(data, index)
      ensures fresh(result)
      ensures result[..] == Column(data, index)
    {
      var size := |data|;
      result := new real[size](_ => 0.0);
      var i := 0;
      while i < size
        invariant 0 <= i <= size
        invariant forall j :: 0 <= j < i ==> result[j] == data[j][index]
      {
        result[i] := data[i][index];
        i := i + 1;
      }
    }

    /** Writes dataY into column `index` of the first dataY.Length rows, in place. */
    method PutColumn(index: int, data: array2<real>, dataY: array<real>)
      requires dataY.Length <= data.Length0 && 0 <= index < data.Length1
      modifies data
      ensures Rows(data) == SetColumn(old(Rows(data)), index, dataY[..])
    {
      var size := dataY.Length;
      var i := 0;
      while i < size
        invariant 0 <= i <= size
        invariant forall j, c :: 0 <= j < data.Length0 && 0 <= c < data.Length1 ==>
          data[j, c] == if j < i && c == index then dataY[j] else old(data[j, c])
      {
        data[i, index] := dataY[i];
        i := i + 1;
      }
      ghost var G := SetColumn(old(Rows(data)), index, dataY[..]);
      forall j | 0 <= j < data.Length0
        ensures Rows(data)[j] == G[j]
      {
      }
    }

    /**
     * One ADI step: every row of data is solved as a line, then every
     * column of that intermediate grid.  Before each line the interrupt flag
     * is polled; check j (rows first, then columns) reads interrupted(base + j).
     * A line whose divisions would not all be by nonzero numbers ends the
     * step with NonFinite.  The four input grids are only read.
     */
    method IterateLinear2D(data: seq<seq<real>>, oldDiffCoef: seq<seq<real>>, newDiffCoef: seq<seq<real>>,
                           bConditions: seq<seq<real>>, interrupted: nat -> bool, base: nat)
      returns (result: array2<real>, outcome: StepOutcome)
      requires |data| >= 1 && Shapes(data, oldDiffCoef, newDiffCoef, bConditions, |data|, |data[0]|)
      ensures fresh(result)
      ensures outcome == Completed <==>
        && NoInterrupt(interrupted, base, |data| + |data[0]|)
        && StepSolvable(bc, data, oldDiffCoef, newDiffCoef, bConditions, |data|, |data[0]|)
      ensures outcome == Completed ==>
        Rows(result) == Step(bc, data, oldDiffCoef, newDiffCoef, bConditions, |data|, |data[0]|)
      ensures outcome == Interrupted ==> !NoInterrupt(interrupted, base, |data| + |data[0]|)
      ensures outcome == NonFinite ==>
        !StepSolvable(bc, data, oldDiffCoef, newDiffCoef, bConditions, |data|, |data[0]|)
    {
      var xsize := |data[0]|;
      var ysize := |data|;
      var rows;
      rows, outcome := SweepRows(data, oldDiffCoef, newDiffCoef, bConditions, interrupted, base);
      if outcome != Completed {
        result := new real[0, 0];
        return;
      }
      result := new real[ysize, xsize]((i, k) requires 0 <= i < ysize && 0 <= k < xsize => rows[i][k]);
      forall i | 0 <= i < ysize
        ensures Rows(result)[i] == rows[i]
      {
      }
      assert Rows(result) == rows;
      outcome := SweepColumns(result, oldDiffCoef, newDiffCoef, bConditions, interrupted, base + ysize);
      NoInterruptSplit(interrupted, base, ysize, xsize);
    }

    /** The iteration over rows: row i of the intermediate grid is the solve of row line i. */
    method SweepRows(data: seq<seq<real>>, oldDiffCoef: seq<seq<real>>, newDiffCoef: seq<seq<real>>,
                     bConditions: seq<seq<real>>, interrupted: nat -> bool, base: nat)
      returns (rows: seq<seq<real>>, outcome: StepOutcome)
      requires |data| >= 1 && Shapes(data, oldDiffCoef, newDiffCoef, bConditions, |data|, |data[0]|)
      ensures outcome == Completed <==>
        NoInterrupt(interrupted, base, |data|)
        && RowsSolvable(bc, data, oldDiffCoef, newDiffCoef, bConditions, |data|, |data[0]|)
      ensures outcome == Completed ==>
        rows == RowPass(bc, data, oldDiffCoef, newDiffCoef, bConditions, |data|, |data[0]|)
      ensures outcome == Interrupted ==> !NoInterrupt(interrupted, base, |data|)
      ensures outcome == NonFinite ==>
        !RowsSolvable(bc, data, oldDiffCoef, newDiffCoef, bConditions, |data|, |data[0]|)
    {
      var ysize := |data|;
      rows := [];
      var i := 0;
      while i < ysize
        invariant 0 <= i <= ysize && |rows| == i
        invariant NoInterrupt(interrupted, base, i)
        invariant forall j :: 0 <= j < i ==>
          Solvable(bc, RowLine(data, oldDiffCoef, newDiffCoef, bConditions, j))
          && rows[j] == Thomas(bc, RowLine(data, oldDiffCoef, newDiffCoef, bConditions, j))
      {
        if interrupted(base + i) {
          return rows, Interrupted;
        }
        var row, solvable := SolveRow(data, oldDiffCoef, newDiffCoef, bConditions, i);
        if !solvable {
          return rows, NonFinite;
        }
        rows := rows + [row[..]];
        i := i + 1;
      }
      outcome := Completed;
    }

    /** Row i solved with the row edge sums at i, when its line is solvable. */
    method SolveRow(data: seq<seq<real>>, oldDiffCoef: seq<seq<real>>, newDiffCoef: seq<seq<real>>,
                    bConditions: seq<seq<real>>, i: int)
      returns (row: array<real>, solvable: bool)
      requires |data| >= 1 && Shapes(data, oldDiffCoef, newDiffCoef, bConditions, |data|, |data[0]|)
      requires 0 <= i < |data|
      ensures fresh(row)
      ensures solvable <==> Solvable(bc, RowLine(data, oldDiffCoef, newDiffCoef, bConditions, i))
      ensures solvable ==> row[..] == Thomas(bc, RowLine(data, oldDiffCoef, newDiffCoef, bConditions, i))
    {
      var bCond := [bConditions[0][i], bConditions[2][i]];
      assert Line(data[i], bCond, oldDiffCoef[i], newDiffCoef[i]) == RowLine(data, oldDiffCoef, newDiffCoef, bConditions, i);
      solvable := Solvable(bc, Line(data[i], bCond, oldDiffCoef[i], newDiffCoef[i]));
      if !solvable {
        row := new real[0];
        return;
      }
      row := IterateLinear1D(data[i], bCond, oldDiffCoef[i], newDiffCoef[i]);
    }

    /** Column k of the grid solved with the column edge sums at k, when its line is solvable. */
    method SolveColumn(k: int, result: array2<real>, oldDiffCoef: seq<seq<real>>, newDiffCoef: seq<seq<real>>,
                       bConditions: seq<seq<real>>)
      returns (dataY: array<real>, solvable: bool)
      requires HasColumn(Rows(result), k) && HasColumn(oldDiffCoef, k) && HasColumn(newDiffCoef, k)
      requires |bConditions| >= 4 && k < |bConditions[1]| && k < |bConditions[3]|
      ensures fresh(dataY)
      ensures solvable <==> Solvable(bc, ColumnLine(Rows(result), oldDiffCoef, newDiffCoef, bConditions, k))
      ensures solvable ==> dataY[..] == Thomas(bc, ColumnLine(Rows(result), oldDiffCoef, newDiffCoef, bConditions, k))
    {
      var bCond := [bConditions[1][k], bConditions[3][k]];
      var column := GetColumn(k, Rows(result));
      var columnOld := GetColumn(k, oldDiffCoef);
      var columnNew := GetColumn(k, newDiffCoef);
      assert Line(column[..], bCond, columnOld[..], columnNew[..])
          == ColumnLine(Rows(result), oldDiffCoef, newDiffCoef, bConditions, k);
      solvable := Solvable(bc, Line(column[..], bCond, columnOld[..], columnNew[..]));
      if !solvable {
        dataY := new real[0];
        return;
      }
      dataY := IterateLinear1D(column[..], bCond, columnOld[..], columnNew[..]);
    }

    /**
     * Column k of the pass: polls the interrupt flag, reads column k of
     * result, which is still column k of R, and writes back its solve when
     * the line is solvable.
     */
    method ColumnStep(k: int, result: array2<real>, oldDiffCoef: seq<seq<real>>, newDiffCoef: seq<seq<real>>,
                      bConditions: seq<seq<real>>, interrupted: nat -> bool, base: nat,
                      ghost R: seq<seq<real>>, ghost cols: int)
      returns (outcome: StepOutcome)
      requires Shapes(R, oldDiffCoef, newDiffCoef, bConditions, result.Length0, cols) && 0 <= k < cols
      requires NoInterrupt(interrupted, base, k)
      requires ColumnsSolvableUpTo(bc, R, oldDiffCoef, newDiffCoef, bConditions, result.Length0, cols, k)
      requires Rows(result) == ColumnsUpTo(bc, R, oldDiffCoef, newDiffCoef, bConditions, result.Length0, cols, k)
      modifies result
      ensures outcome == Interrupted ==> interrupted(base + k)
      ensures outcome == NonFinite ==> !Solvable(bc, ColumnLine(R, oldDiffCoef, newDiffCoef, bConditions, k))
      ensures outcome == Completed ==>
        && NoInterrupt(interrupted, base, k + 1)
        && ColumnsSolvableUpTo(bc, R, oldDiffCoef, newDiffCoef, bConditions, result.Length0, cols, k + 1)
        && Rows(result) == ColumnsUpTo(bc, R, oldDiffCoef, newDiffCoef, bConditions, result.Length0, cols, k + 1)
    {
      if interrupted(base + k) {
        return Interrupted;
      }
      NoInterruptStep(interrupted, base, k);
      ColumnsUpToRead(bc, R, oldDiffCoef, newDiffCoef, bConditions, result.Length0, cols, k);
      var dataY, solvable := SolveColumn(k, result, oldDiffCoef, newDiffCoef, bConditions);
      assert ColumnLine(Rows(result), oldDiffCoef, newDiffCoef, bConditions, k)
          == ColumnLine(R, oldDiffCoef, newDiffCoef, bConditions, k);
      if !solvable {
        return NonFinite;
      }
      CommitColumn(k, result, dataY, oldDiffCoef, newDiffCoef, bConditions, R, cols);
      outcome := Completed;
    }

    /** Writes the solved column k back into the grid. */
    method CommitColumn(k: int, result: array2<real>, dataY: array<real>,
                        oldDiffCoef: seq<seq<real>>, newDiffCoef: seq<seq<real>>, bConditions: seq<seq<real>>,
                        ghost R: seq<seq<real>>, ghost cols: int)
      requires Shapes(R, oldDiffCoef, newDiffCoef, bConditions, result.Length0, cols) && 0 <= k < cols
      requires ColumnsSolvableUpTo(bc, R, oldDiffCoef, newDiffCoef, bConditions, result.Length0, cols, k)
      requires Solvable(bc, ColumnLine(R, oldDiffCoef, newDiffCoef, bConditions, k))
      requires Rows(result) == ColumnsUpTo(bc, R, oldDiffCoef, newDiffCoef, bConditions, result.Length0, cols, k)
      requires dataY[..] == Thomas(bc, ColumnLine(R, oldDiffCoef, newDiffCoef, bConditions, k))
      modifies result
      ensures ColumnsSolvableUpTo(bc, R, oldDiffCoef, newDiffCoef, bConditions, result.Length0, cols, k + 1)
      ensures Rows(result) == ColumnsUpTo(bc, R, oldDiffCoef, newDiffCoef, bConditions, result.Length0, cols, k + 1)
    {
      ColumnsSolvableStep(bc, R, oldDiffCoef, newDiffCoef, bConditions, result.Length0, cols, k);
      ColumnsUpToWrite(bc, R, oldDiffCoef, newDiffCoef, bConditions, result.Length0, cols, k);
      assert |Column(R, k)| == result.Length0 && |Rows(result)[0]| == cols;
      PutColumn(k, result, dataY);
    }

    /** The iteration over columns: column k of result becomes the solve of column line k. */
    method SweepColumns(result: array2<real>, oldDiffCoef: seq<seq<real>>, newDiffCoef: seq<seq<real>>,
                        bConditions: seq<seq<real>>, interrupted: nat -> bool, base: nat)
      returns (outcome: StepOutcome)
      requires Shapes(Rows(result), oldDiffCoef, newDiffCoef, bConditions, result.Length0, result.Length1)
      modifies result
      ensures outcome == Completed <==>
        NoInterrupt(interrupted, base, result.Length1)
        && ColumnsSolvable(bc, old(Rows(result)), oldDiffCoef, newDiffCoef, bConditions, result.Length0, result.Length1)
      ensures outcome == Completed ==>
        Rows(result) == ColumnPass(bc, old(Rows(result)), oldDiffCoef, newDiffCoef, bConditions,
                                   result.Length0, result.Length1)
      ensures outcome == Interrupted ==> !NoInterrupt(interrupted, base, result.Length1)
      ensures outcome == NonFinite ==>
        !ColumnsSolvable(bc, old(Rows(result)), oldDiffCoef, newDiffCoef, bConditions, result.Length0, result.Length1)
    {
      var xsize := result.Length1;
      var ysize := result.Length0;
      ghost var R := Rows(result);
      ColumnsUpToStart(bc, R, oldDiffCoef, newDiffCoef, bConditions, ysize, xsize);
      var k := 0;
      while k < xsize
        invariant 0 <= k <= xsize
        invariant NoInterrupt(interrupted, base, k)
        invariant ColumnsSolvableUpTo(bc, R, oldDiffCoef, newDiffCoef, bConditions, ysize, xsize, k)
        invariant Rows(result) == ColumnsUpTo(bc, R, oldDiffCoef, newDiffCoef, bConditions, ysize, xsize, k)
      {
        outcome := ColumnStep(k, result, oldDiffCoef, newDiffCoef, bConditions, interrupted, base, R, xsize);
        if outcome != Completed {
          return;
        }
        k := k + 1;
      }
      ColumnsUpToAll(bc, R, oldDiffCoef, newDiffCoef, bConditions, ysize, xsize);
      outcome := Completed;
    }

    /**
     * The normalised squared difference of two grids over the shape of
     * data1: twice the sum of squared differences over the sum of squares
     * of both, NaN when that sum is zero.
     */
    method CalcDifference(data1: seq<seq<real>>, data2: seq<seq<real>>) returns (r: Ratio)
      requires |data1| >= 1 && Window(data1, data2, |data1|, |data1[0]|)
      ensures r == Difference(data1, data2, |data1|, |data1[0]|)
    {
      var xsize := |data1[0]|;
      var ysize := |data1|;
      var sumDiff, sum := 0.0, 0.0;
      var i := 0;
      while i < ysize
        invariant 0 <= i <= ysize
        invariant sumDiff == DiffSum(data1, data2, i, xsize) && sum == NormSum(data1, data2, i, xsize)
      {
        var k := 0;
        while k < xsize
          invariant 0 <= k <= xsize
          invariant sumDiff == DiffSum(data1, data2, i, xsize) + RowDiff(data1[i], data2[i], k)
          invariant sum == NormSum(data1, data2, i, xsize) + RowNorm(data1[i], data2[i], k)
        {
          sumDiff := sumDiff + Sq(data1[i][k] - data2[i][k]);
          sum := sum + (Sq(data1[i][k]) + Sq(data2[i][k]));
          k := k + 1;
        }
        i := i + 1;
      }
      r := if sum == 0.0 then NaN else Finite(2.0 * sumDiff / sum);
    }

    /**
     * The linear filter: one ADI step with the constant coefficient
     * diffCoefFactor as both the old and the new coefficient grid, and zero
     * boundary sums.
     */
    method SolveLinear(data: seq<seq<real>>, interrupted: nat -> bool)
      returns (result: array2<real>, outcome: StepOutcome)
      requires |data| >= 3 && |data[0]| >= 3 && IsRect(data, |data|, |data[0]|)
      ensures fresh(result)
      ensures var C, B := ConstantGrid(|data|, |data[0]|, diffCoefFactor), ZeroEdges(|data|, |data[0]|);
        && (outcome == Completed <==>
              NoInterrupt(interrupted, 0, |data| + |data[0]|) && StepSolvable(bc, data, C, C, B, |data|, |data[0]|))
        && (outcome == Completed ==> Rows(result) == Step(bc, data, C, C, B, |data|, |data[0]|))
        && (outcome == Interrupted ==> !NoInterrupt(interrupted, 0, |data| + |data[0]|))
        && (outcome == NonFinite ==> !StepSolvable(bc, data, C, C, B, |data|, |data[0]|))
      ensures outcome == Completed && UniformGrid(data, |data|, |data[0]|, 0.0) ==>
        UniformGrid(Rows(result), |data|, |data[0]|, 0.0)
      ensures (outcome == Completed && |bc| == 3 && bc[0] + bc[1] + bc[2] == 0.0
               && UniformGrid(data, |data|, |data[0]|, data[0][0])) ==>
        UniformGrid(Rows(result), |data|, |data[0]|, data[0][0])
    {
      var xsize := |data[0]|;
      var ysize := |data|;
      var bCond := ZeroEdges(ysize, xsize);
      var coef := new real[ysize, xsize]((_, _) => diffCoefFactor);
      forall i | 0 <= i < ysize
        ensures Rows(coef)[i] == ConstantGrid(ysize, xsize, diffCoefFactor)[i]
      {
      }
      assert Rows(coef) == ConstantGrid(ysize, xsize, diffCoefFactor);
      result, outcome := IterateLinear2D(data, Rows(coef), Rows(coef), bCond, interrupted, 0);
      if outcome == Completed {
        var C := Rows(coef);
        assert |bc| == 3 by {
          assert Solvable(bc, RowLine(data, C, C, bCond, 0));
        }
        if UniformGrid(data, ysize, xsize, 0.0) {
          StepKeepsUniform(bc, data, C, C, bCond, ysize, xsize, 0.0);
        }
        if bc[0] + bc[1] + bc[2] == 0.0 && UniformGrid(data, ysize, xsize, data[0][0]) {
          StepKeepsUniform(bc, data, C, C, bCond, ysize, xsize, data[0][0]);
        }
      }
    }

    /** The step function of the non-linear filter on the image data. */
    ghost function NonLinearStep(data: seq<seq<real>>): StepFunction
      requires |data| >= 3 && |data[0]| >= 3 && IsRect(data, |data|, |data[0]|)
    {
      FilterStep(bc, diffCoefFactor, nonLinearFactor, exp, data, |data|, |data[0]|)
    }

    /**
     * The image's coefficient grid, computed once before the non-linear
     * filter's loop, as the old coefficient grid of every step.
     */
    method ImageCoefficients(data: seq<seq<real>>) returns (coef: seq<seq<real>>)
      requires |data| >= 3 && |data[0]| >= 3 && IsRect(data, |data|, |data[0]|)
      ensures IsRect(coef, |data|, |data[0]|)
      ensures UsesOldGrid(NonLinearStep(data), bc, diffCoefFactor, nonLinearFactor, exp, data, coef, |data|, |data[0]|)
    {
      var coefGrid, _ := GetDiffCoefficient(data);
      coef := Rows(coefGrid);
      OldGridOfImage(NonLinearStep(data), bc, diffCoefFactor, nonLinearFactor, exp, data, |data|, |data[0]|);
    }

    /**
     * One pass of the non-linear filter's loop: the image solved again with
     * its own coefficient grid as the old one and that of the previous
     * iterate as the new one.
     */
    method NonLinearIteration(data: seq<seq<real>>, coef: seq<seq<real>>, prevResult: seq<seq<real>>,
                              bCond: seq<seq<real>>, interrupted: nat -> bool, base: nat)
      returns (result: array2<real>, outcome: StepOutcome)
      requires |data| >= 3 && |data[0]| >= 3 && IsRect(data, |data|, |data[0]|)
      requires IsRect(prevResult, |data|, |data[0]|) && IsRect(coef, |data|, |data[0]|)
      requires UsesOldGrid(NonLinearStep(data), bc, diffCoefFactor, nonLinearFactor, exp, data, coef, |data|, |data[0]|)
      requires bCond == ZeroEdges(|data|, |data[0]|)
      ensures fresh(result)
      ensures outcome == Completed <==>
        NoInterrupt(interrupted, base, |data| + |data[0]|) && NonLinearStep(data)(prevResult).Some?
      ensures outcome == Completed ==> NonLinearStep(data)(prevResult) == Some(Rows(result))
      ensures outcome == Interrupted ==> !NoInterrupt(interrupted, base, |data| + |data[0]|)
      ensures outcome == NonFinite ==> NonLinearStep(data)(prevResult) == None
    {
      var newCoef, _ := GetDiffCoefficient(prevResult);
      assert NonLinearStep(data)(prevResult)
          == NextGridWith(bc, diffCoefFactor, nonLinearFactor, exp, data, coef, |data|, |data[0]|, prevResult);
      result, outcome := IterateLinear2D(data, coef, Rows(newCoef), bCond, interrupted, base);
    }

    /**
     * The non-linear filter: repeats ADI steps, each with the image's
     * coefficient grid as the old one and the previous iterate's as the new
     * one, until two successive iterates differ by no more than eps (or the
     * difference is NaN).  Iteration n polls the interrupt flag at
     * Polls(n - 1, rows + cols) onwards; maxSteps bounds the loop.
     */
    method SolveNonLinear(data: seq<seq<real>>, interrupted: nat -> bool, maxSteps: nat)
      returns (result: array2<real>, outcome: SolveOutcome)
      requires |data| >= 3 && |data[0]| >= 3 && IsRect(data, |data|, |data[0]|)
      requires maxSteps >= 1
      ensures NonLinearRun(data, NonLinearStep(data), |data|, |data[0]|, eps, interrupted, maxSteps, outcome, Rows(result))
    {
      var xsize := |data[0]|;
      var ysize := |data|;
      ghost var next := NonLinearStep(data);
      var bCond := ZeroEdges(ysize, xsize);
      var coef := ImageCoefficients(data);
      var prevResult := data;
      result := new real[0, 0];
      var n, base := 0, 0;
      while n < maxSteps
        invariant 0 <= n <= maxSteps && base == Polls(n, |data| + |data[0]|)
        invariant Iter(data, next, n) == Some(prevResult) && IsRect(prevResult, |data|, |data[0]|)
        invariant Ran(data, next, |data|, |data[0]|, eps, interrupted, n)
        invariant n > 0 ==> Rows(result) == prevResult
      {
        var done;
        result, outcome, done := Advance(data, coef, prevResult, bCond, interrupted, maxSteps, base, n);
        if done {
          return;
        }
        prevResult := Rows(result);
        base := base + (ysize + xsize);
        n := n + 1;
      }
      outcome := OutOfSteps;
    }

    /**
     * Iteration n + 1 of the non-linear filter: the step, then the
     * difference test of the source's do-while loop.  Either the loop ends
     * here (done, with how it ends) or the step moved the grid and the loop
     * goes on.
     */
    method Advance(data: seq<seq<real>>, coef: seq<seq<real>>, prevResult: seq<seq<real>>,
                   bCond: seq<seq<real>>, interrupted: nat -> bool, maxSteps: nat, base: nat, n: nat)
      returns (result: array2<real>, outcome: SolveOutcome, done: bool)
      requires |data| >= 3 && |data[0]| >= 3 && IsRect(data, |data|, |data[0]|)
      requires IsRect(prevResult, |data|, |data[0]|) && IsRect(coef, |data|, |data[0]|)
      requires UsesOldGrid(NonLinearStep(data), bc, diffCoefFactor, nonLinearFactor, exp, data, coef, |data|, |data[0]|)
      requires bCond == ZeroEdges(|data|, |data[0]|)
      requires n < maxSteps && Iter(data, NonLinearStep(data), n) == Some(prevResult)
      requires base == Polls(n, |data| + |data[0]|)
      requires Ran(data, NonLinearStep(data), |data|, |data[0]|, eps, interrupted, n)
      ensures fresh(result)
      ensures done ==>
        NonLinearRun(data, NonLinearStep(data), |data|, |data[0]|, eps, interrupted, maxSteps, outcome, Rows(result))
      ensures !done ==>
        && Iter(data, NonLinearStep(data), n + 1) == Some(Rows(result))
        && IsRect(Rows(result), |data|, |data[0]|)
        && Ran(data, NonLinearStep(data), |data|, |data[0]|, eps, interrupted, n + 1)
    {
      ghost var next := NonLinearStep(data);
      var stepOutcome;
      result, stepOutcome := NonLinearIteration(data, coef, prevResult, bCond, interrupted, base);
      if stepOutcome != Completed {
        outcome, done := Stopped(n + 1, stepOutcome), true;
        return;
      }
      NoInterruptSplit(interrupted, 0, base, |data| + |data[0]|);
      assert Polls(n + 1, |data| + |data[0]|) == base + (|data| + |data[0]|);
      var difference := CalcDifference(Rows(result), prevResult);
      if Exceeds(difference, eps) {
        MovingExtends(data, next, |data|, |data[0]|, eps, n, prevResult, Rows(result));
        outcome, done := OutOfSteps, false;
      } else {
        MovingEnds(data, next, |data|, |data[0]|, eps, n, prevResult, Rows(result));
        outcome, done := Converged(n + 1), true;
      }
    }
  }

  /** sp and sq are the elimination coefficients: step zero from the lower closure, then the interior steps. */
  ghost predicate Eliminates(bc: seq<real>, ln: Line, sp: seq<real>, sq: seq<real>)
    requires WellShaped(bc, ln)
  {
    && FirstPivot(bc, ln) != 0.0 && |sp| >= 1 && |sq| >= 1
    && sp[0] == FirstP(bc, ln) && sq[0] == FirstQ(bc, ln)
    && SweepSteps(ln, sp, sq)
  }

  /** Step m of an elimination, one instance of SweepSteps. */
  lemma EliminationStep(ln: Line, sp: seq<real>, sq: seq<real>, m: int)
    requires |ln.coef| >= |ln.data| && |ln.coefOld| >= |ln.data|
    requires SweepSteps(ln, sp, sq) && 1 <= m < |sp|
    ensures Pivot(ln, m, sp[m - 1]) != 0.0
    ensures sp[m] == StepP(ln, m, sp[m - 1]) && sq[m] == StepQ(ln, m, sp[m - 1], sq[m - 1])
  {
  }

  // The lemmas below restate the specification's coefficients in terms of
  // the scalars the solver reads, so that the solver's proof only matches
  // terms.

  lemma FirstFromCells(bc: seq<real>, ln: Line, a: real, b: real, c: real, d: real)
    requires WellShaped(bc, ln)
    requires a == (ln.coef[1] + ln.coef[2]) / 2.0 && b == (ln.coef[0] + ln.coef[1]) / 2.0 && c == a + b + 1.0
    requires d == Rhs(ln, 1)
    ensures FirstPivot(bc, ln) == bc[0] * a - bc[2] * b
    ensures FirstPivot(bc, ln) != 0.0 ==>
      && FirstP(bc, ln) == FirstCoefficientP(bc, a, b, c)
      && FirstQ(bc, ln) == FirstCoefficientQ(bc, ln.bSum[0], a, b, d)
  {
    assert Right(ln.coef, 1) == a && Left(ln.coef, 1) == b && Diag(ln.coef, 1) == c;
  }

  lemma StepFromCells(ln: Line, m: int, pPrev: real, qPrev: real, a: real, b: real, c: real, d: real)
    requires |ln.coef| >= |ln.data| && |ln.coefOld| >= |ln.data| && 1 <= m && m + 1 < |ln.data|
    requires a == (ln.coef[m] + ln.coef[m + 1]) / 2.0 && b == (ln.coef[m - 1] + ln.coef[m]) / 2.0
    requires c == a + b + 1.0 && d == Rhs(ln, m)
    ensures Pivot(ln, m, pPrev) == c + b * pPrev
    ensures Pivot(ln, m, pPrev) != 0.0 ==>
      && StepP(ln, m, pPrev) == CoefficientP(a, b, c, pPrev)
      && StepQ(ln, m, pPrev, qPrev) == CoefficientQ(b, c, d, pPrev, qPrev)
  {
    assert Right(ln.coef, m) == a && Left(ln.coef, m) == b && Diag(ln.coef, m) == c;
  }

  /** The source's p[0] = (bc2*c + bc1*a) / (bc0*a - bc2*b), written with its factor. */
  function FirstCoefficientP(bc: seq<real>, a: real, b: real, c: real): real
    requires |bc| == 3 && bc[0] * a - bc[2] * b != 0.0
  {
    (bc[2] * c + bc[1] * a) * (1.0 / (bc[0] * a - bc[2] * b))
  }

  /** The source's q[0] = (sum0*a + bc2*d) / (bc0*a - bc2*b), written with its factor. */
  function FirstCoefficientQ(bc: seq<real>, sum0: real, a: real, b: real, d: real): real
    requires |bc| == 3 && bc[0] * a - bc[2] * b != 0.0
  {
    (sum0 * a + bc[2] * d) * (1.0 / (bc[0] * a - bc[2] * b))
  }

  /** The source's p[m] = -a / (c + b*p[m-1]), written with its factor. */
  function CoefficientP(a: real, b: real, c: real, pPrev: real): real
    requires c + b * pPrev != 0.0
  {
    -a * (1.0 / (c + b * pPrev))
  }

  /** The source's q[m] = (d + b*q[m-1]) / (c + b*p[m-1]), written with its factor. */
  function CoefficientQ(b: real, c: real, d: real, pPrev: real, qPrev: real): real
    requires c + b * pPrev != 0.0
  {
    (d + b * qPrev) * (1.0 / (c + b * pPrev))
  }

  /**
   * The source's explicit right-hand side d at a cell, from the old
   * coefficients cl, cm, cr and the data xl, xm, xr at the cell and its
   * two neighbours.
   */
  function ExplicitUpdate(cl: real, cm: real, cr: real, xl: real, xm: real, xr: real): real
  {
    (cm + cr) / 2.0 * xr + (cl + cm) / 2.0 * xl - (cm + (cl + cr) / 2.0 - 1.0) * xm
  }

  /** Numerator of the source's closing formula for the last value of a line. */
  function ClosingNumerator(bc: seq<real>, c3: real, c2: real, c1: real, b1: real, d: real, qLast: real): real
    requires |bc| == 3
  {
    b1 * (c3 + c2) / 2.0 + bc[0] * d - qLast * (bc[1] * (c3 + c2) / 2.0 + bc[0] * (c2 + (c3 + c1) / 2.0 + 1.0))
  }

  /** Denominator of the source's closing formula. */
  function ClosingDenominator(bc: seq<real>, c3: real, c2: real, c1: real, pLast: real): real
    requires |bc| == 3
  {
    bc[2] * (c3 + c2) / 2.0 - bc[0] * (c2 + c1) / 2.0
      - pLast * (bc[1] * (c3 + c2) / 2.0 + bc[0] * (c2 + (c3 + c1) / 2.0 + 1.0))
  }

  lemma LastFromCells(bc: seq<real>, ln: Line, s: Sweep, c3: real, c2: real, c1: real, b1: real,
                      d: real, pLast: real, qLast: real)
    requires WellShaped(bc, ln) && |s.p| == |s.q| == |ln.data| - 1
    requires var n := |ln.data|; ln.coef[n - 3] == c3 && ln.coef[n - 2] == c2 && ln.coef[n - 1] == c1
    requires ln.bSum[1] == b1 && d == Rhs(ln, |ln.data| - 2)
    requires pLast == s.p[|ln.data| - 2] && qLast == s.q[|ln.data| - 2]
    ensures LastNumerator(bc, ln, s) == ClosingNumerator(bc, c3, c2, c1, b1, d, qLast)
    ensures LastDenominator(bc, ln, s) == ClosingDenominator(bc, c3, c2, c1, pLast)
  {
    var m := |ln.data| - 2;
    assert Left(ln.coef, m) == (c3 + c2) / 2.0 && Right(ln.coef, m) == (c2 + c1) / 2.0;
    assert UpperWeight(bc, ln) == bc[1] * (c3 + c2) / 2.0 + bc[0] * (c2 + (c3 + c1) / 2.0 + 1.0);
  }
}
