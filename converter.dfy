/**
 * The SHADOW file converter: its parameters (the direction of the
 * conversion, the maximal number of rays and the window of columns kept
 * when a binary file is turned into text) and the loop that converts a
 * file ray by ray.  The reader and the writer of the two files are
 * abstracted: the reader delivers the rays of `source`, each of ncols
 * values, and fails on the first ray past its end; the writer collects the
 * records it is given.
 */
module Converter {
  import opened Wrappers

  /** The largest value the "Maximal number of rays" field accepts. */
  const MaxRays := 10000000

  /** The default of the "Maximal number of rays" field. */
  const DefaultMaxRays := 100000

  /** How the conversion worker ends. */
  datatype Ending =
    | Finished
      /** The user pressed "Stop": the worker returns the rays converted so far. */
    | Cancelled
      /** A read failed (end of file, I/O error, short line, corrupted file): caught, the count so far is returned. */
    | ReadFailed
      /** ArrayIndexOutOfBoundsException in the column copy; it is not caught and ends the worker. */
    | OutOfBounds
      /** NegativeArraySizeException: the header gave a negative number of columns. */
    | NegativeSize

  /** The conversion direction and the clamped column window, fixed for one run. */
  datatype Columns = Columns(toBinary: bool, minCol: int, maxCol: int)

  /** A column number capped at the number of columns of the file. */
  function Clamp(col: int, ncols: int): int
  {
    if col > ncols then ncols else col
  }

  /** The window of a run: minCol and maxCol are bCol and eCol capped at ncols. */
  function ColumnsOf(toBinary: bool, bCol: int, eCol: int, ncols: int): Columns
  {
    Columns(toBinary, Clamp(bCol, ncols), Clamp(eCol, ncols))
  }

  /** With first column <= last column the window is never empty, and it lies in the file once ncols >= 1. */
  lemma WindowShape(bCol: int, eCol: int, ncols: int)
    requires 1 <= bCol <= eCol
    ensures var c := ColumnsOf(false, bCol, eCol, ncols);
      c.minCol <= c.maxCol <= ncols
      && c.maxCol - c.minCol + 1 >= 1
      && (ncols >= 1 ==> 1 <= c.minCol)
      && (c.maxCol == ncols <==> eCol >= ncols)
      && (eCol <= ncols ==> c.minCol == bCol && c.maxCol == eCol)
  {
  }

  /** The count values of ray from index first on, or nothing when one of them lies outside ray. */
  function CopyWindow(ray: seq<int>, first: int, count: nat): (r: Option<seq<int>>)
    ensures r.Some? <==> count == 0 || (0 <= first && first + count <= |ray|)
    ensures r.Some? ==> |r.value| == count && forall k :: 0 <= k < count ==> r.value[k] == ray[first + k]
  {
    if count == 0 then Some([])
    else if 0 <= first && first + count <= |ray| then Some(ray[first..first + count])
    else None
  }

  /** The copy as written: column minCol + k goes to place k, which reads one value past the window. */
  function AsWrittenRecord(ray: seq<int>, c: Columns): Option<seq<int>>
    requires c.minCol <= c.maxCol
  {
    if c.toBinary then Some(ray) else CopyWindow(ray, c.minCol, c.maxCol - c.minCol + 1)
  }

  /** The record written for one ray: the whole ray towards binary, columns minCol..maxCol (from 1) towards text. */
  function Record(ray: seq<int>, c: Columns): Option<seq<int>>
    requires c.minCol <= c.maxCol
  {
    if c.toBinary then Some(ray) else CopyWindow(ray, c.minCol - 1, c.maxCol - c.minCol + 1)
  }

  /** The copy as written fails exactly when the last column reaches the number of columns. */
  lemma AsWrittenOutOfBounds(ray: seq<int>, bCol: int, eCol: int)
    requires 1 <= bCol <= eCol
    ensures AsWrittenRecord(ray, ColumnsOf(false, bCol, eCol, |ray|)).None? <==> eCol >= |ray|
  {
    WindowShape(bCol, eCol, |ray|);
  }

  /** With the default last column every binary to text conversion fails on its first ray. */
  lemma AsWrittenDefaultFails(ray: seq<int>, bCol: int, maxNcol: int)
    requires 1 <= bCol <= maxNcol && |ray| <= maxNcol
    ensures AsWrittenRecord(ray, ColumnsOf(false, bCol, maxNcol, |ray|)).None?
  {
    AsWrittenOutOfBounds(ray, bCol, maxNcol);
  }

  /** The corrected copy keeps columns bCol..eCol, capped at the ray, whenever the ray has a column. */
  lemma RecordKeepsColumns(ray: seq<int>, bCol: int, eCol: int)
    requires 1 <= bCol <= eCol
    ensures var c := ColumnsOf(false, bCol, eCol, |ray|);
      (Record(ray, c).Some? <==> |ray| >= 1)
      && (|ray| >= 1 ==> Record(ray, c).value == ray[c.minCol - 1..c.maxCol])
      && (eCol <= |ray| ==> Record(ray, c) == Some(ray[bCol - 1..eCol]))
  {
    WindowShape(bCol, eCol, |ray|);
  }

  /** Towards binary every ray is written whole. */
  lemma RecordToBinaryWhole(ray: seq<int>, c: Columns)
    requires c.toBinary && c.minCol <= c.maxCol
    ensures Record(ray, c) == Some(ray)
  {
  }

  /** The conversion stops before ray j: cancelled, the reader failed, or the copy went out of bounds. */
  predicate Stops(source: seq<seq<int>>, cancelled: nat -> bool, c: Columns, j: nat)
    requires c.minCol <= c.maxCol
  {
    cancelled(j) || j >= |source| || Record(source[j], c).None?
  }

  /** How a run that stopped before ray j (or finished, when j reaches nrays) ends. */
  function EndingAt(source: seq<seq<int>>, cancelled: nat -> bool, j: nat, nrays: int): Ending
  {
    if j >= nrays then Finished
    else if cancelled(j) then Cancelled
    else if j >= |source| then ReadFailed
    else OutOfBounds
  }

  /** The number of rays converted from ray i on: up to the first ray that stops the run, or up to nrays. */
  function FirstStop(source: seq<seq<int>>, cancelled: nat -> bool, c: Columns, i: nat, nrays: int): (j: nat)
    requires c.minCol <= c.maxCol
    ensures i <= j
    ensures j < nrays ==> Stops(source, cancelled, c, j)
    ensures i < nrays ==> j <= nrays
    ensures forall k :: i <= k < j ==> !Stops(source, cancelled, c, k)
    decreases nrays - i
  {
    if i >= nrays || Stops(source, cancelled, c, i) then i else FirstStop(source, cancelled, c, i + 1, nrays)
  }

  /** The run from ray i stops at ray j when no ray before j stops it and j stops it or reaches nrays. */
  lemma {:induction false} FirstStopIs(source: seq<seq<int>>, cancelled: nat -> bool, c: Columns, i: nat, j: nat, nrays: int)
    requires c.minCol <= c.maxCol && i <= j
    requires forall k :: i <= k < j ==> !Stops(source, cancelled, c, k)
    requires i == j || j <= nrays
    requires j < nrays ==> Stops(source, cancelled, c, j)
    ensures FirstStop(source, cancelled, c, i, nrays) == j
    decreases j - i
  {
    if i < j {
      FirstStopIs(source, cancelled, c, i + 1, j, nrays);
    }
  }

  /** Without cancellation, with every ray readable and every window in bounds, all nrays rays are converted. */
  lemma {:induction false} AllRaysConverted(source: seq<seq<int>>, cancelled: nat -> bool, c: Columns, i: nat, nrays: int)
    requires c.minCol <= c.maxCol && i <= nrays <= |source|
    requires forall k :: i <= k < nrays ==> !cancelled(k) && Record(source[k], c).Some?
    ensures FirstStop(source, cancelled, c, i, nrays) == nrays
    decreases nrays - i
  {
    if i < nrays {
      AllRaysConverted(source, cancelled, c, i + 1, nrays);
    }
  }

  /** A cancellation before ray j, with no earlier stop, returns exactly j converted rays. */
  lemma {:induction false} CancelledCount(source: seq<seq<int>>, cancelled: nat -> bool, c: Columns, i: nat, j: nat, nrays: int)
    requires c.minCol <= c.maxCol && i <= j < nrays && cancelled(j)
    requires forall k :: i <= k < j ==> !Stops(source, cancelled, c, k)
    ensures FirstStop(source, cancelled, c, i, nrays) == j
    ensures EndingAt(source, cancelled, j, nrays) == Cancelled
    decreases j - i
  {
    if i < j {
      CancelledCount(source, cancelled, c, i + 1, j, nrays);
    }
  }

  /** The value given to the progress bar after ray i: 100 * (i + 1) / nrays in int arithmetic. */
  function Progress(i: nat, nrays: int): int
    requires nrays > 0
  {
    100 * (i + 1) / nrays
  }

  /** Progress stays within 0..100, never decreases, and is 100 on the last ray; 100 * (i + 1) fits in an int. */
  lemma ProgressBounds(i: nat, nrays: int)
    requires i < nrays <= MaxRays
    ensures 0 <= Progress(i, nrays) <= 100
    ensures i == nrays - 1 ==> Progress(i, nrays) == 100
    ensures i + 1 < nrays ==> Progress(i, nrays) <= Progress(i + 1, nrays)
    ensures 100 * (i + 1) < 0x8000_0000
  {
    assert 100 * nrays / nrays == 100;
    DivMonotone(100 * (i + 1), 100 * nrays, nrays);
    DivMonotone(100 * (i + 1), 100 * (i + 2), nrays);
  }

  /** On a long file the first rays report 0: the lower bound of the progress is 0, not 1. */
  lemma ProgressStartsAtZero()
    ensures Progress(0, 1000) == 0
  {
  }

  /** Integer division by a positive number keeps the order. */
  lemma DivMonotone(a: nat, b: nat, d: int)
    requires a <= b && d > 0
    ensures a / d <= b / d
  {
    var qa, qb := a / d, b / d;
    assert a == d * qa + a % d;
    assert b == d * qb + b % d;
    if qb < qa {
      MulMonotone(qb + 1, qa, d);
    }
  }

  lemma MulMonotone(x: int, y: int, d: nat)
    requires x <= y
    ensures x * d <= y * d
  {
  }

  /** The converter window: its parameters, set through the parameters dialog. */
  class ConverterForm {
    /** The largest column number the column fields accept (MAX_NCOL of the ray files). */
    const maxNcol: int
    /** false: SHADOW binary to text; true: text to SHADOW binary. */
    var direction: bool
    var maxNrays: int
    /** The first and last column (from 1) kept when converting to text. */
    var bCol: int
    var eCol: int

    ghost predicate Valid()
      reads this
    {
      1 <= maxNrays <= MaxRays && 1 <= bCol <= eCol <= maxNcol
    }

    /** The window starts converting binary to text, at most 100000 rays, all columns. */
    constructor (maxNcol: int)
      requires maxNcol >= 1
      ensures Valid()
      ensures this.maxNcol == maxNcol && !direction
      ensures maxNrays == DefaultMaxRays && bCol == 1 && eCol == maxNcol
    {
      this.maxNcol := maxNcol;
      direction := false;
      maxNrays := DefaultMaxRays;
      bCol := 1;
      eCol := maxNcol;
    }

    /** The action combo box: entry 1 is "Text -> Shadow binary". */
    method SelectAction(selectedIndex: int)
      modifies this`direction
      ensures direction <==> selectedIndex == 1
    {
      direction := selectedIndex == 1;
    }

    /**
     * The parameters dialog.  Its fields only hold values within their
     * limits; when the dialog is confirmed the values are taken, the last
     * column raised to the first if it is smaller.
     */
    method SetParameters(confirmed: bool, rays: int, first: int, last: int)
      requires Valid()
      requires 1 <= rays <= MaxRays && 1 <= first <= maxNcol && 1 <= last <= maxNcol
      modifies this`maxNrays, this`bCol, this`eCol
      ensures Valid()
      ensures confirmed ==> maxNrays == rays && bCol == first && eCol == (if last < first then first else last)
      ensures !confirmed ==> maxNrays == old(maxNrays) && bCol == old(bCol) && eCol == old(eCol)
    {
      if confirmed {
        maxNrays := rays;
        bCol := first;
        eCol := last;
        eCol := if eCol < bCol then bCol else eCol;
      }
    }

    /**
     * The conversion worker.  ncols and nrays are what the reader took from
     * the header (nrays capped at maxNrays, ncols at maxNcol); cancelled(i)
     * is the answer of isCancelled() before ray i.  It returns the number of
     * converted rays, the records written and the progress values shown.
     */
    method Convert(ncols: int, nrays: int, source: seq<seq<int>>, cancelled: nat -> bool)
      returns (processed: nat, written: seq<seq<int>>, progress: seq<int>, ending: Ending)
      requires Valid() && nrays <= maxNrays && ncols <= maxNcol
      requires forall j :: 0 <= j < |source| ==> |source[j]| == ncols
      ensures processed == |written| == |progress|
      ensures ncols < 0 ==> ending == NegativeSize && processed == 0
      ensures ncols >= 0 ==>
        var c := ColumnsOf(direction, bCol, eCol, ncols);
        c.minCol <= c.maxCol
        && processed == FirstStop(source, cancelled, c, 0, nrays)
        && ending == EndingAt(source, cancelled, processed, nrays)
        && forall j :: 0 <= j < processed ==>
             !Stops(source, cancelled, c, j) && written[j] == Record(source[j], c).value
             && 0 < nrays && progress[j] == Progress(j, nrays)
    {
      processed, written, progress := 0, [], [];
      if ncols < 0 {
        return processed, written, progress, NegativeSize;
      }
      var ray := new int[ncols];
      var minCol := if bCol > ncols then ncols else bCol;
      var maxCol := if eCol > ncols then ncols else eCol;
      var truncray := new int[maxCol - minCol + 1];
      ghost var c := ColumnsOf(direction, bCol, eCol, ncols);
      var i := 0;
      while i < nrays
        invariant processed == i == |written| == |progress|
        invariant 0 < nrays ==> i <= nrays
        invariant forall j :: 0 <= j < i ==>
          !Stops(source, cancelled, c, j) && written[j] == Record(source[j], c).value
          && 0 < nrays && progress[j] == Progress(j, nrays)
      {
        if cancelled(i) || i >= |source| {
          FirstStopIs(source, cancelled, c, 0, i, nrays);
          return processed, written, progress, if cancelled(i) then Cancelled else ReadFailed;
        }
        var record := ConvertRay(ray, truncray, source[i], direction, minCol, maxCol);
        if record.None? {
          FirstStopIs(source, cancelled, c, 0, i, nrays);
          return processed, written, progress, OutOfBounds;
        }
        written := written + [record.value];
        progress := progress + [100 * (i + 1) / nrays];
        processed := processed + 1;
        i := i + 1;
      }
      FirstStopIs(source, cancelled, c, 0, i, nrays);
      ending := Finished;
    }
  }

  /** One ray of the worker: read it into ray, then copy the window into truncray towards text. */
  method ConvertRay(ray: array<int>, truncray: array<int>, values: seq<int>, toBinary: bool, minCol: int, maxCol: int)
    returns (record: Option<seq<int>>)
    requires ray != truncray && |values| == ray.Length
    requires minCol <= maxCol && truncray.Length == maxCol - minCol + 1
    modifies ray, truncray
    ensures record == Record(values, Columns(toBinary, minCol, maxCol))
  {
    ReadRay(ray, values);
    if !toBinary {
      var ok := CopyColumns(ray, truncray, minCol - 1);
      record := if ok then Some(truncray[..]) else None;
    } else {
      record := Some(ray[..]);
    }
  }

  /** read(ray): the reader fills the ray with the values of the next record. */
  method ReadRay(ray: array<int>, values: seq<int>)
    requires |values| == ray.Length
    modifies ray
    ensures ray[..] == values
  {
    forall k | 0 <= k < ray.Length {
      ray[k] := values[k];
    }
  }

  /** The column copy: truncray[k] := ray[first + k], failing at the first index outside ray. */
  method CopyColumns(ray: array<int>, truncray: array<int>, first: int) returns (ok: bool)
    requires ray != truncray
    modifies truncray
    ensures ok <==> CopyWindow(ray[..], first, truncray.Length).Some?
    ensures ok ==> truncray[..] == CopyWindow(ray[..], first, truncray.Length).value
  {
    var k := 0;
    while k < truncray.Length
      invariant 0 <= k <= truncray.Length
      invariant k > 0 ==> 0 <= first && first + k <= ray.Length
      invariant forall m :: 0 <= m < k ==> truncray[m] == ray[first + m]
    {
      if first + k < 0 || first + k >= ray.Length {
        return false;
      }
      truncray[k] := ray[first + k];
      k := k + 1;
    }
    ok := true;
  }
}
