# Non-linear image filter and SHADOW ray-file converter, modelled in Dafny

The model covers two programs of the Non-linearImageFilter repository.

**The Crank–Nicholson image filter** (`CrankNicholson2D`). An image is a grid of
intensities. The filter smooths it by diffusion, with an alternating-direction
implicit (ADI) scheme:

- One step solves every row as a tridiagonal system (Thomas algorithm, Robin
  boundary condition with three coefficients), then every column of that
  intermediate grid.
- The linear filter makes one step with a constant diffusion coefficient.
- The non-linear filter repeats steps. Each step reuses the image's own
  coefficient grid as the old coefficients. The new coefficients come from the
  previous iterate: `diff * exp(-|gradient|^2 / nonLinearCoef^2)`, with the two
  outermost rows and columns on each side computed along one direction only.
  It stops once two successive iterates differ by no more than `eps`.
- The source's boundary indices for those outer rows and columns are out of
  range for every image (first row of "## Findings"). The non-linear filter of
  this model uses the corrected indices: rows 0, 1, ysize-2, ysize-1 and
  columns 0, 1, xsize-2, xsize-1.

Modules:

- `Tridiagonal`: the line solve as functions. It includes the linear system the
  solve must satisfy.
- `Grid`: columns of grids and the normalised difference measure.
- `Adi`: one two-dimensional step, row pass then column pass.
- `Diffusivity`: the coefficient grid.
- `NonLinear`: iterates of a step function and how the filter's loop ends.
- `CrankNicholson`: the class `CrankNicholson2D`, whose methods are the
  imperative code, loop for loop. Each method is proved against the functions
  above.

**The SHADOW ray-file converter** (`ShadowFiles`, `ShadowFileConverterJForme`,
`MyTextUtilities`):

- `Bytes`: Java's big-endian `DataOutputStream`/`DataInputStream` words and
  `reverseBytes`.
- `TextFormat`: `Scanner` tokens and `%d`/`nextInt`.
- `ShadowFiles`: the ray file, opened for reading or for writing, binary or
  text. It has a header with the column and ray counts, and one record per ray.
  Each file format has a writer and a reader, and the model proves that reading
  back what was written gives it back.
- `Converter`: the converter window's parameters and its conversion loop.
- `TextUtilities`: the bounded-value check of a text field.

Doubles are modelled two ways:

- In the filter, a double is a `real`. NaN appears only where the source's
  arithmetic gives 0/0, in the difference measure.
- In the ray files, a double is its 64-bit pattern (an `int` in the signed
  64-bit range).
  - In a binary file, that pattern is copied byte for byte.
  - In a text file, the `%f` formatter and `nextDouble` parser are parameters.

Where a fuller design of the filter differs from the code, the model follows
the code:

- `CrankNicholson2D.java` has a four-argument constructor and runs
  sequentially. The window that uses it
  (src/NonLinearImageFilter/NonLinearImageFilter.java:612-614) passes eight
  arguments: also an anisotropy weight, a thread count, an iteration coefficient
  and an edge-stopping function. The model follows `CrankNicholson2D.java`, so
  those four are not modelled.
- The edge-stopping function is `exp` only. The window offers `1 / (1 + p)` as
  well (src/NonLinearImageFilter/NonLinearImageFilter.java:129), but this
  version of `CrankNicholson2D` does not take it.
- The boundary rows and columns are computed along one direction, not forced to
  a constant.
- `calcDifference(g, g)` is 0 only when the window of `g` is not all zero. It is
  NaN otherwise (`Grid.DifferenceSelf`).

## Model

Paths are relative to the repository root.

| member | source | states |
|---|---|---|
| Bytes.IntRange | src/shadowfileconverter/ShadowFiles.java:59-60 | an n = 4 word is exactly a Java int |
| Bytes.LongRange | src/shadowfileconverter/ShadowFiles.java:126-127 | an n = 8 word is exactly a Java long |
| Bytes.BigEndianDecodes | src/shadowfileconverter/ShadowFiles.java:59-61 | readInt/readLong of the bytes writeInt/writeLong emitted gives the word back |
| Bytes.BigEndianEncodes | src/shadowfileconverter/ShadowFiles.java:78-82 | writing back a word that was read reproduces the bytes |
| Bytes.ReversedWordIsLittleEndian | src/shadowfileconverter/ShadowFiles.java:126-127 | writeLong(reverseBytes(v)) emits the bytes of v least significant first |
| Bytes.ReversedReadIsLittleEndian | src/shadowfileconverter/ShadowFiles.java:154 | reverseBytes(readLong()) reads the eight bytes least significant first |
| Bytes.ReverseBytesInvolution | src/shadowfileconverter/ShadowFiles.java:79-80 | reverseBytes applied twice gives the word back |
| Bytes.ReversedRoundTrip | src/shadowfileconverter/ShadowFiles.java:59-60 | writeInt(reverseBytes(v)) read with reverseBytes(readInt()) gives v |
| Bytes.LittleEndianWordDecodes | src/shadowfileconverter/ShadowFiles.java:127 | a word written least significant byte first reads back as the same word |
| Bytes.ZeroWord | src/shadowfileconverter/ShadowFiles.java:149-152 | readInt returns zero only on four zero bytes, the end-of-file test |
| TextFormat.Tokens | src/shadowfileconverter/ShadowFiles.java:163-168 | every token Scanner returns is non-empty and holds no whitespace |
| TextFormat.SingleToken | src/shadowfileconverter/ShadowFiles.java:133 | a token followed by a space or the end of the line is read whole, and the rest follows |
| TextFormat.TokensSplit | src/shadowfileconverter/ShadowFiles.java:131-135 | the tokens of a line cut after a space are the tokens of the two parts |
| TextFormat.ParseInt | src/shadowfileconverter/ShadowFiles.java:89-90 | nextInt accepts only values in the Java int range |
| TextFormat.DecimalRoundTrip | src/shadowfileconverter/ShadowFiles.java:67-69 | a Java int formatted with %d is one token, and nextInt reads it back |
| ShadowFiles.RecordLength | src/shadowfileconverter/ShadowFiles.java:122 | nread is min(rayData.length, ncol), never more than the array, zero iterations when ncol < 0 |
| ShadowFiles.MarkerValue | src/shadowfileconverter/ShadowFiles.java:124 | the record marker reads as the non-zero int 0x0C000000 |
| ShadowFiles.BinaryHeaderWritten | src/shadowfileconverter/ShadowFiles.java:58-62 | the writer's header writes lay down exactly the 20-byte binary header |
| ShadowFiles.ReadBinaryHeader | src/shadowfileconverter/ShadowFiles.java:76-82 | a binary header read ends Ok or with the stream ended, within the file |
| ShadowFiles.BinaryHeaderRoundTrip | src/shadowfileconverter/ShadowFiles.java:76-82 | reading a written binary header gives Ok, min(stored, requested) for both counts, and continues after its 20 bytes |
| ShadowFiles.ReadTextHeader | src/shadowfileconverter/ShadowFiles.java:85-90 | a text header read ends Ok, with a missing line, a missing token or a malformed token |
| ShadowFiles.TextHeaderRoundTrip | src/shadowfileconverter/ShadowFiles.java:85-90 | reading a written "ncol nrays" line gives Ok and both counts capped by the requested ones |
| ShadowFiles.LongsBytesSnoc | src/shadowfileconverter/ShadowFiles.java:125-128 | writing one more value appends exactly its eight little-endian bytes |
| ShadowFiles.BinaryRecordLayout | src/shadowfileconverter/ShadowFiles.java:124-129 | a binary record is 8 + 8n bytes with value i at bytes 4 + 8i to 12 + 8i |
| ShadowFiles.LongsBytesAt | src/shadowfileconverter/ShadowFiles.java:125-128 | value i of the value block sits at bytes 8i to 8i + 8 |
| ShadowFiles.WordAt | src/shadowfileconverter/ShadowFiles.java:154 | a stored value is a Java long |
| ShadowFiles.WordsAt | src/shadowfileconverter/ShadowFiles.java:153-155 | value i read is the word at start + 8i, for each of the count values |
| ShadowFiles.ReadBinaryRecord | src/shadowfileconverter/ShadowFiles.java:149-156 | a binary read ends Ok (then with exactly nread values), at the end of the file, or with the stream ended, and stores at most nread values |
| ShadowFiles.BinaryRecordRoundTrip | src/shadowfileconverter/ShadowFiles.java:149-156 | reading a written binary record gives Ok, every value bit for bit, and continues after the record |
| ShadowFiles.RecordStartsWithMarker | src/shadowfileconverter/ShadowFiles.java:149-152 | a written record never reads as the end of the file |
| ShadowFiles.RecordWords | src/shadowfileconverter/ShadowFiles.java:153-155 | the values of a written record read back as written |
| ShadowFiles.WordOfRecord | src/shadowfileconverter/ShadowFiles.java:154 | value i of a written record reads back as written |
| ShadowFiles.ReadTextValues | src/shadowfileconverter/ShadowFiles.java:164-169 | a text read ends Ok exactly when all n values were read, else at a missing or malformed token; each stored value is the parse of its token |
| ShadowFiles.ReadTextValuesStops | src/shadowfileconverter/ShadowFiles.java:164-169 | once a text read has stopped early, asking for more values changes nothing |
| ShadowFiles.ReadTextRecord | src/shadowfileconverter/ShadowFiles.java:159-169 | a text record read ends Ok, at the end of the file, at the end of the line or at a malformed token, with at most nread values |
| ShadowFiles.Formatted | src/shadowfileconverter/ShadowFiles.java:132-134 | token i of a written line is value i formatted |
| ShadowFiles.Reparsed | src/shadowfileconverter/ShadowFiles.java:168 | value i read back is value i formatted and parsed |
| ShadowFiles.TextRecordTokens | src/shadowfileconverter/ShadowFiles.java:131-135 | a written text line splits into exactly one token per value |
| ShadowFiles.ReadTextValuesPrefix | src/shadowfileconverter/ShadowFiles.java:164-169 | a read of n values looks at the first n tokens only |
| ShadowFiles.TextRecordValues | src/shadowfileconverter/ShadowFiles.java:164-169 | the tokens of a written line read back Ok as the values formatted and parsed |
| ShadowFiles.TextRecordRoundTrip | src/shadowfileconverter/ShadowFiles.java:159-169 | reading a written text line gives Ok and each value formatted and parsed, and moves to the next line |
| ShadowFiles.ShadowFile.constructor | src/shadowfileconverter/ShadowFiles.java:49-53 | sets the mode and requested counts; a writer starts on an empty file, a reader at the start of the chosen one |
| ShadowFiles.ShadowFile.Open | src/shadowfileconverter/ShadowFiles.java:54-93 | a writer appends the header of its counts; a reader caps its counts by the header and moves past it |
| ShadowFiles.ShadowFile.WriteHeaderBinary | src/shadowfileconverter/ShadowFiles.java:56-62 | appends the binary header of ncol and nrays |
| ShadowFiles.ShadowFile.WriteHeaderText | src/shadowfileconverter/ShadowFiles.java:65-69 | appends the line "ncol nrays" |
| ShadowFiles.ShadowFile.ReadHeaderBinary | src/shadowfileconverter/ShadowFiles.java:76-82 | outcome, counts and position as ReadBinaryHeader gives them |
| ShadowFiles.ShadowFile.ReadSwappedInt | src/shadowfileconverter/ShadowFiles.java:79 | reverseBytes(readInt()): the next four bytes least significant first, or failure at the end of the stream |
| ShadowFiles.ShadowFile.ReadHeaderText | src/shadowfileconverter/ShadowFiles.java:85-90 | outcome, counts and position as ReadTextHeader gives them |
| ShadowFiles.ShadowFile.ReadWord | src/shadowfileconverter/ShadowFiles.java:78 | readInt/readLong: the next n bytes big-endian, or failure with the stream used up |
| ShadowFiles.ShadowFile.ReadLine | src/shadowfileconverter/ShadowFiles.java:159-162 | the next line, or nothing at the end of the file |
| ShadowFiles.ShadowFile.Write | src/shadowfileconverter/ShadowFiles.java:121-137 | on a file opened for writing, appends one record of the first min(length, ncol) values, binary or text; on one opened for reading, fails with the stream cast (ClassCastException) and changes nothing |
| ShadowFiles.ShadowFile.WriteBinary | src/shadowfileconverter/ShadowFiles.java:124-129 | appends the marker, each value little-endian, the marker |
| ShadowFiles.ShadowFile.WriteLong | src/shadowfileconverter/ShadowFiles.java:126-127 | appends the eight bytes of the value least significant first |
| ShadowFiles.ShadowFile.WriteText | src/shadowfileconverter/ShadowFiles.java:131-135 | appends one line of the values each formatted and followed by a space |
| ShadowFiles.ShadowFile.Read | src/shadowfileconverter/ShadowFiles.java:146-171 | on a file opened for reading: outcome, position and stored prefix as the record read gives them, the rest of the array unchanged; on one opened for writing, fails with the stream cast (ClassCastException) and changes nothing |
| ShadowFiles.ShadowFile.ReadBinary | src/shadowfileconverter/ShadowFiles.java:149-156 | outcome, position and stored values as ReadBinaryRecord gives them |
| ShadowFiles.ShadowFile.ReadLongs | src/shadowfileconverter/ShadowFiles.java:153-155 | stores the nread words at the front of the array, or the complete ones before the stream ends |
| ShadowFiles.ShadowFile.ReadLong | src/shadowfileconverter/ShadowFiles.java:154 | stores the next word, byte-swapped, at index i and changes nothing else |
| ShadowFiles.ShadowFile.ReadText | src/shadowfileconverter/ShadowFiles.java:158-169 | outcome, position and stored values as ReadTextRecord gives them |
| ShadowFiles.ReadTokens | src/shadowfileconverter/ShadowFiles.java:164-169 | outcome and stored prefix as ReadTextValues gives them; the rest of the array unchanged |
| Converter.WindowShape | src/shadowfileconverter/ShadowFileConverterJForme.java:304-306 | the capped window is never empty and lies within 1..ncols once ncols >= 1 |
| Converter.CopyWindow | src/shadowfileconverter/ShadowFileConverterJForme.java:316-317 | the copy succeeds exactly when every index read lies in the ray, and then holds ray[first + k] at k |
| Converter.AsWrittenOutOfBounds | src/shadowfileconverter/ShadowFileConverterJForme.java:315-318 | the copy as written fails exactly when the last column reaches the number of columns |
| Converter.AsWrittenDefaultFails | src/shadowfileconverter/ShadowFileConverterJForme.java:64 | with the default last column, a conversion to text fails on its first ray |
| Converter.RecordKeepsColumns | src/shadowfileconverter/ShadowFileConverterJForme.java:304-319 | the corrected copy succeeds exactly when the ray has a column, and writes columns bCol..eCol (from 1) capped at the ray |
| Converter.RecordToBinaryWhole | src/shadowfileconverter/ShadowFileConverterJForme.java:320-321 | towards binary every ray is written whole |
| Converter.FirstStop | src/shadowfileconverter/ShadowFileConverterJForme.java:309-326 | the number of converted rays: no ray before it stops the run, and it stops the run or reaches nrays |
| Converter.FirstStopIs | src/shadowfileconverter/ShadowFileConverterJForme.java:309-326 | the count is the first ray that stops the run, or nrays |
| Converter.AllRaysConverted | src/shadowfileconverter/ShadowFileConverterJForme.java:309-326 | with no cancel, readable rays and windows in bounds, all nrays rays are converted |
| Converter.CancelledCount | src/shadowfileconverter/ShadowFileConverterJForme.java:311-313 | a cancel before ray j with no earlier stop returns exactly j rays and ends as cancelled |
| Converter.ProgressBounds | src/shadowfileconverter/ShadowFileConverterJForme.java:324 | progress lies in 0..100, never decreases, is 100 on the last ray, and 100 * (i + 1) does not overflow an int |
| Converter.ProgressStartsAtZero | src/shadowfileconverter/ShadowFileConverterJForme.java:324 | the progress of the first ray of a long file is 0 |
| Converter.ConverterForm.constructor | src/shadowfileconverter/ShadowFileConverterJForme.java:64-78 | starts converting binary to text, at most 100000 rays, columns 1 to MAX_NCOL |
| Converter.ConverterForm.SelectAction | src/shadowfileconverter/ShadowFileConverterJForme.java:270 | the direction is text to binary exactly when entry 1 is selected |
| Converter.ConverterForm.SetParameters | src/shadowfileconverter/ShadowFileConverterJForme.java:415-421 | a confirmed dialog takes the values, the last column raised to the first; a cancelled one changes nothing |
| Converter.ConverterForm.Convert | src/shadowfileconverter/ShadowFileConverterJForme.java:294-345 | converts rays up to the first stop; each written record is the corrected window of its ray; each progress value is 100 * (j + 1) / nrays; the ending says why it stopped |
| Converter.ConvertRay | src/shadowfileconverter/ShadowFileConverterJForme.java:314-322 | the record written for one ray is Record of its values |
| Converter.ReadRay | src/shadowfileconverter/ShadowFileConverterJForme.java:314 | the ray array holds the values read |
| Converter.CopyColumns | src/shadowfileconverter/ShadowFileConverterJForme.java:316-318 | the copy loop succeeds exactly as CopyWindow does and then holds its values |
| TextUtilities.AcceptsWithin | src/shadowfileconverter/MyTextUtilities.java:29-40 | a number within [min, max] is returned and the field keeps its text |
| TextUtilities.RejectsOtherwise | src/shadowfileconverter/MyTextUtilities.java:28-39 | a non-number or a number out of bounds resets the field to the default and returns the default's value |
| TextUtilities.TestedResult | src/shadowfileconverter/MyTextUtilities.java:26-41 | the result is an in-bounds entered value with the text kept, or the default's value with the default text |
| TextUtilities.TestedIdempotent | src/shadowfileconverter/MyTextUtilities.java:26-41 | checking the field again gives the same value and text |
| TextUtilities.TestValue | src/shadowfileconverter/MyTextUtilities.java:26-41 | the returned value and the field's new text are those of Tested on the old text |
| Tridiagonal.BackSubAt | src/NonLinearImageFilter/CrankNicholson2D.java:257-259 | back substitution ends with the closing value and satisfies r[m] = q[m] - p[m] * r[m+1] at every m |
| Tridiagonal.SweepPrefix | src/NonLinearImageFilter/CrankNicholson2D.java:238-247 | a longer sweep extends a shorter one |
| Tridiagonal.SweepAt | src/NonLinearImageFilter/CrankNicholson2D.java:226-247 | a successful sweep has step zero from the lower closure and step m from p[m-1], with nonzero pivots |
| Tridiagonal.FullSweepSteps | src/NonLinearImageFilter/CrankNicholson2D.java:226-247 | a successful full sweep follows the elimination steps from the lower closure on |
| Tridiagonal.InteriorAlgebra | src/NonLinearImageFilter/CrankNicholson2D.java:244-258 | one elimination step and back substitution give the row equation c*r - b*r[m-1] - a*r[m+1] = d |
| Tridiagonal.LowerAlgebra | src/NonLinearImageFilter/CrankNicholson2D.java:226-233 | step zero with row 1 gives the lower Robin condition, times a |
| Tridiagonal.RhsIsExplicitUpdate | src/NonLinearImageFilter/CrankNicholson2D.java:242-243 | the source's d is the explicit update of the data with the old coefficients |
| Tridiagonal.RowIsInteriorEquation | src/NonLinearImageFilter/CrankNicholson2D.java:239-243 | the a, b, c, d row holds exactly when the implicit update equals the explicit one |
| Tridiagonal.RowFromStep | src/NonLinearImageFilter/CrankNicholson2D.java:238-259 | one sweep step and two back-substitution steps satisfy row m |
| Tridiagonal.RowsFromSteps | src/NonLinearImageFilter/CrankNicholson2D.java:238-259 | every interior row holds for a back substitution of a sweep that follows the steps |
| Tridiagonal.LowerFromStep | src/NonLinearImageFilter/CrankNicholson2D.java:226-233 | step zero and row 1 give the lower Robin condition when the coupling coefficient is nonzero |
| Tridiagonal.UpperFromStep | src/NonLinearImageFilter/CrankNicholson2D.java:248-252 | the closing formula and row n-2 give the upper Robin condition when the coupling coefficient is nonzero |
| Tridiagonal.ThomasStructure | src/NonLinearImageFilter/CrankNicholson2D.java:218-261 | the Thomas result is a back substitution of a sweep that follows the elimination steps |
| Tridiagonal.ThomasInterior | src/NonLinearImageFilter/CrankNicholson2D.java:218-261 | every interior row equation holds for the Thomas result |
| Tridiagonal.ThomasLower | src/NonLinearImageFilter/CrankNicholson2D.java:226-233 | the Thomas result meets the lower Robin condition when the coupling coefficient is nonzero |
| Tridiagonal.ThomasUpper | src/NonLinearImageFilter/CrankNicholson2D.java:248-252 | the Thomas result meets the upper Robin condition when the coupling coefficient is nonzero |
| Tridiagonal.ThomasSolvesSystem | src/NonLinearImageFilter/CrankNicholson2D.java:218-261 | the line solve solves the Crank–Nicholson system: all interior equations; the lower Robin condition whenever Right(coef, 1) ≠ 0 and the upper one whenever Left(coef, n-2) ≠ 0 |
| Tridiagonal.RhsOfUniform | src/NonLinearImageFilter/CrankNicholson2D.java:229-230 | the explicit right-hand side of a uniform line is its value, whatever the old coefficients |
| Tridiagonal.FirstOfUniform | src/NonLinearImageFilter/CrankNicholson2D.java:226-233 | on a uniform line with zero lower sum, step zero gives q0 = u(1 + p0) when u = 0 or the Robin coefficients sum to zero |
| Tridiagonal.InteriorStepOfUniform | src/NonLinearImageFilter/CrankNicholson2D.java:238-246 | on a uniform line, an interior step carries q = u(1 + p) on |
| Tridiagonal.StepsOfUniform | src/NonLinearImageFilter/CrankNicholson2D.java:238-246 | on a uniform line, q = u(1 + p) holds at every step of the sweep once it holds at step zero |
| Tridiagonal.SweepOfUniform | src/NonLinearImageFilter/CrankNicholson2D.java:226-246 | the full sweep of a uniform line with zero lower sum has q = u(1 + p) everywhere, when u = 0 or the Robin coefficients sum to zero |
| Tridiagonal.LastOfUniform | src/NonLinearImageFilter/CrankNicholson2D.java:248-252 | on a uniform line with zero upper sum the last value is u, when u = 0 or the Robin coefficients sum to zero |
| Tridiagonal.BackSubOfUniform | src/NonLinearImageFilter/CrankNicholson2D.java:257-259 | back substitution from u over q = u(1 + p) gives u in every cell |
| Tridiagonal.ThomasOfUniform | src/NonLinearImageFilter/CrankNicholson2D.java:218-261 | a uniform line with zero boundary sums is returned unchanged by the line solve: always when it is all zero, and for any value when the Robin coefficients sum to zero |
| Grid.Column | src/NonLinearImageFilter/CrankNicholson2D.java:145-152 | a column has one entry per row |
| Grid.ColumnOfSetColumn | src/NonLinearImageFilter/CrankNicholson2D.java:157-162 | a written column reads back as written, and other columns are kept |
| Grid.SetColumnOfColumn | src/NonLinearImageFilter/CrankNicholson2D.java:145-162 | writing back a column just read leaves the grid unchanged |
| Grid.SetColumnKeepsShape | src/NonLinearImageFilter/CrankNicholson2D.java:157-162 | writing a column keeps a rectangular grid's shape |
| Grid.GridSumsFacts | src/NonLinearImageFilter/CrankNicholson2D.java:128-134 | both sums are non-negative, the difference sum is at most twice the norm sum, both are symmetric, and a grid differs from itself by 0 |
| Grid.DifferenceSymmetric | src/NonLinearImageFilter/CrankNicholson2D.java:125-136 | calcDifference(a, b) equals calcDifference(b, a), NaN included |
| Grid.DifferenceSelf | src/NonLinearImageFilter/CrankNicholson2D.java:125-136 | calcDifference(g, g) is 0, or NaN when the window is all zero |
| Grid.DifferenceRange | src/NonLinearImageFilter/CrankNicholson2D.java:125-136 | a finite difference lies in [0, 4] |
| Adi.RowPass | src/NonLinearImageFilter/CrankNicholson2D.java:183-191 | the row pass keeps the grid's shape |
| Adi.ColumnPass | src/NonLinearImageFilter/CrankNicholson2D.java:195-204 | the column pass keeps the grid's shape |
| Adi.ColumnsUpTo | src/NonLinearImageFilter/CrankNicholson2D.java:195-204 | the grid part way through the column pass keeps its shape |
| Adi.ColumnsUpToStart | src/NonLinearImageFilter/CrankNicholson2D.java:195 | the column pass starts from the intermediate grid |
| Adi.ColumnsUpToRead | src/NonLinearImageFilter/CrankNicholson2D.java:202 | column k is still that of the intermediate grid when the pass reads it |
| Adi.ColumnsSolvableStep | src/NonLinearImageFilter/CrankNicholson2D.java:195-204 | a solvable column extends the run of solvable columns |
| Adi.ColumnsUpToWrite | src/NonLinearImageFilter/CrankNicholson2D.java:202-203 | writing the solve of column k moves the pass on to k + 1 |
| Adi.ColumnsUpToAll | src/NonLinearImageFilter/CrankNicholson2D.java:195-205 | once every column is written the grid is the column pass |
| Adi.Step | src/NonLinearImageFilter/CrankNicholson2D.java:175-206 | one step keeps the grid's shape |
| Adi.StepColumn | src/NonLinearImageFilter/CrankNicholson2D.java:195-204 | column k of the step is the line solve of column k of the intermediate grid |
| Adi.RowPassIsLocal | src/NonLinearImageFilter/CrankNicholson2D.java:183-191 | row i of the row pass depends only on row i of the inputs and its two edge sums |
| Adi.StepSolvesScheme | src/NonLinearImageFilter/CrankNicholson2D.java:175-206 | every row of the intermediate grid and every column of the result satisfies the interior equations of its line |
| Adi.StepKeepsUniform | src/NonLinearImageFilter/CrankNicholson2D.java:175-206 | with zero boundary sums, an all-zero grid stays all zero under a step, and a uniform grid stays as it is when the Robin coefficients sum to zero, for any coefficient grids |
| Diffusivity.FieldAt | src/NonLinearImageFilter/CrankNicholson2D.java:59-82 | a cell takes its column's value, else its row's value, else the interior value |
| Diffusivity.DiffusionGridNonNegative | src/NonLinearImageFilter/CrankNicholson2D.java:54-85 | with diff >= 0 every coefficient is non-negative, and the four corners are zero |
| Diffusivity.DiffusionGridInterior | src/NonLinearImageFilter/CrankNicholson2D.java:60-71 | an interior cell holds diff * exp(-(gx^2 + gy^2) * factor) from the central differences |
| Diffusivity.DiffusionGridEdgeColumn | src/NonLinearImageFilter/CrankNicholson2D.java:79-82 | a cell of the two outer columns on each side holds the vertical one-direction coefficient |
| Diffusivity.DiffusionGridEdgeRow | src/NonLinearImageFilter/CrankNicholson2D.java:75-78 | a cell of the two outer rows on each side, away from those columns, holds the horizontal one-direction coefficient |
| Diffusivity.FieldOfInterior | src/NonLinearImageFilter/CrankNicholson2D.java:59-71 | before the boundary pass the grid is the interior pass |
| Diffusivity.FieldAddRow | src/NonLinearImageFilter/CrankNicholson2D.java:75-78 | replacing a row by its row coefficients adds it to the boundary rows |
| Diffusivity.FieldAddColumn | src/NonLinearImageFilter/CrankNicholson2D.java:79-82 | writing a column's coefficients adds it to the boundary columns |
| Diffusivity.AsWrittenEdgesNeverFit | src/NonLinearImageFilter/CrankNicholson2D.java:75-82 | no grid shape admits the source's boundary indices |
| Diffusivity.EdgesFit | src/NonLinearImageFilter/CrankNicholson2D.java:75-82 | the corrected boundary indices fit exactly the grids of at least 2 by 2 |
| NonLinear.ConstantGrid | src/NonLinearImageFilter/CrankNicholson2D.java:305-309 | a rows by cols grid holding the value everywhere |
| NonLinear.ZeroEdges | src/NonLinearImageFilter/CrankNicholson2D.java:274-278 | four zero edge vectors covering the rows and the columns |
| NonLinear.MovingExtends | src/NonLinearImageFilter/CrankNicholson2D.java:282-285 | a step that moves by more than eps extends the run of the loop by one |
| NonLinear.MovingEnds | src/NonLinearImageFilter/CrankNicholson2D.java:282-285 | a step that moves by no more than eps ends the loop |
| NonLinear.IterShape | src/NonLinearImageFilter/CrankNicholson2D.java:282-285 | every iterate has the image's shape |
| NonLinear.IterFixedPoint | src/NonLinearImageFilter/CrankNicholson2D.java:282-285 | once two successive iterates agree, every later one is the same |
| NonLinear.FixedPointStops | src/NonLinearImageFilter/CrankNicholson2D.java:285 | with eps >= 0 the loop stops at a fixed point |
| NonLinear.NextGridWith | src/NonLinearImageFilter/CrankNicholson2D.java:284 | a step from an iterate of the image's shape gives a grid of that shape; the coefficients use the corrected boundary indices of the first finding |
| NonLinear.NextGrid | src/NonLinearImageFilter/CrankNicholson2D.java:279-284 | the filter's step keeps the image's shape (coefficients with the corrected boundary indices of the first finding) |
| NonLinear.OldGridOfImage | src/NonLinearImageFilter/CrankNicholson2D.java:279-284 | the filter's step uses the image's coefficient grid, with the corrected boundary indices of the first finding, as the old one |
| NonLinear.FilterStep | src/NonLinearImageFilter/CrankNicholson2D.java:279-285 | the step function of the loop is the filter's step (corrected boundary indices of the first finding) and keeps the shape |
| NonLinear.FirstIterate | src/NonLinearImageFilter/CrankNicholson2D.java:279-284 | the first step uses the image's coefficient grid, with the corrected boundary indices of the first finding, as both the old and the new one |
| NonLinear.NoInterruptStep | src/NonLinearImageFilter/CrankNicholson2D.java:184-186 | one more poll with the flag clear extends the run of clear polls |
| NonLinear.NoInterruptSplit | src/NonLinearImageFilter/CrankNicholson2D.java:183-198 | the polls of the row pass and of the column pass together are the polls of the step |
| CrankNicholson.FirstThree | src/NonLinearImageFilter/CrankNicholson2D.java:45 | the first three entries, zero-padded, as Arrays.copyOfRange(b, 0, 3) |
| CrankNicholson.CrankNicholson2D.constructor | src/NonLinearImageFilter/CrankNicholson2D.java:44-49 | keeps three boundary coefficients, diff and eps; the non-linear factor is 1 / nonLinearCoef^2 |
| CrankNicholson.CrankNicholson2D.IterateLinear1D | src/NonLinearImageFilter/CrankNicholson2D.java:218-261 | the line returned is the Thomas solve of the line |
| CrankNicholson.CrankNicholson2D.SweepForward | src/NonLinearImageFilter/CrankNicholson2D.java:226-247 | p and q are the elimination coefficients of the sweep; d is the last interior right-hand side |
| CrankNicholson.CrankNicholson2D.BackSubstitute | src/NonLinearImageFilter/CrankNicholson2D.java:257-259 | the result is the back substitution of p and q from the closing value |
| CrankNicholson.CrankNicholson2D.GetDiffCoefficient | src/NonLinearImageFilter/CrankNicholson2D.java:54-85 | with corrected boundary indices: succeeds exactly on grids of at least 2 by 2, and then returns the diffusion grid |
| CrankNicholson.CrankNicholson2D.GetDiffCoefficientAsWritten | src/NonLinearImageFilter/CrankNicholson2D.java:75-82 | with the source's boundary indices: fails on every grid |
| CrankNicholson.CrankNicholson2D.InteriorPass | src/NonLinearImageFilter/CrankNicholson2D.java:57-71 | a grid of the image's shape holding the interior pass |
| CrankNicholson.CrankNicholson2D.InteriorRow | src/NonLinearImageFilter/CrankNicholson2D.java:61-70 | computes the interior cells of row i; nothing else changes |
| CrankNicholson.CrankNicholson2D.BoundaryPass | src/NonLinearImageFilter/CrankNicholson2D.java:75-82 | succeeds exactly when every listed index lies in the grid, and then holds the field of those rows and columns |
| CrankNicholson.CrankNicholson2D.BoundaryRows | src/NonLinearImageFilter/CrankNicholson2D.java:75-78 | succeeds exactly when every listed row exists, and then holds those rows replaced |
| CrankNicholson.CrankNicholson2D.BoundaryColumns | src/NonLinearImageFilter/CrankNicholson2D.java:79-82 | succeeds exactly when every listed column exists, and then holds those columns written |
| CrankNicholson.CrankNicholson2D.BoundaryRow | src/NonLinearImageFilter/CrankNicholson2D.java:75-78 | one row replacement, failing exactly when the row does not exist |
| CrankNicholson.CrankNicholson2D.BoundaryColumn | src/NonLinearImageFilter/CrankNicholson2D.java:79-82 | one column write, failing exactly when the column does not exist |
| CrankNicholson.CrankNicholson2D.GetDiffCoefficient1D | src/NonLinearImageFilter/CrankNicholson2D.java:90-120 | the one-direction coefficients of row `index` (ifx) or of column `index` |
| CrankNicholson.CrankNicholson2D.CoefficientsAlongRow | src/NonLinearImageFilter/CrankNicholson2D.java:93-104 | the row coefficients, with zero end entries |
| CrankNicholson.CrankNicholson2D.CoefficientsAlongColumn | src/NonLinearImageFilter/CrankNicholson2D.java:105-118 | the column coefficients, with zero end entries |
| CrankNicholson.CrankNicholson2D.PutRow | src/NonLinearImageFilter/CrankNicholson2D.java:75-78 | row `index` replaced and every other row kept |
| CrankNicholson.CrankNicholson2D.GetColumn | src/NonLinearImageFilter/CrankNicholson2D.java:145-152 | the column of the grid at `index` |
| CrankNicholson.CrankNicholson2D.PutColumn | src/NonLinearImageFilter/CrankNicholson2D.java:157-162 | the grid with column `index` of its first rows replaced |
| CrankNicholson.CrankNicholson2D.IterateLinear2D | src/NonLinearImageFilter/CrankNicholson2D.java:175-206 | completes exactly when no poll sees an interrupt and every line is solvable, and then returns the ADI step; otherwise says which |
| CrankNicholson.CrankNicholson2D.SweepRows | src/NonLinearImageFilter/CrankNicholson2D.java:183-191 | completes exactly when no poll sees an interrupt and every row is solvable, and then returns the row pass |
| CrankNicholson.CrankNicholson2D.SolveRow | src/NonLinearImageFilter/CrankNicholson2D.java:187-190 | solvable exactly when the row line is, and then the Thomas solve of the row |
| CrankNicholson.CrankNicholson2D.SolveColumn | src/NonLinearImageFilter/CrankNicholson2D.java:199-202 | solvable exactly when the column line is, and then the Thomas solve of the column |
| CrankNicholson.CrankNicholson2D.ColumnStep | src/NonLinearImageFilter/CrankNicholson2D.java:196-203 | one column of the pass: interrupted, unsolvable, or the pass moved on by one column |
| CrankNicholson.CrankNicholson2D.CommitColumn | src/NonLinearImageFilter/CrankNicholson2D.java:203 | writing the solved column moves the pass on by one column |
| CrankNicholson.CrankNicholson2D.SweepColumns | src/NonLinearImageFilter/CrankNicholson2D.java:195-204 | completes exactly when no poll sees an interrupt and every column is solvable, and then holds the column pass |
| CrankNicholson.CrankNicholson2D.CalcDifference | src/NonLinearImageFilter/CrankNicholson2D.java:125-136 | the normalised squared difference over the first grid's shape, NaN on 0/0 |
| CrankNicholson.CrankNicholson2D.SolveLinear | src/NonLinearImageFilter/CrankNicholson2D.java:297-311 | one ADI step with the constant coefficient grid and zero edge sums, or why it did not complete; once completed, an all-zero image stays all zero, and a uniform image stays as it is when the Robin coefficients sum to zero (as the window's {-1, 0, 1} does) |
| CrankNicholson.CrankNicholson2D.ImageCoefficients | src/NonLinearImageFilter/CrankNicholson2D.java:279 | the image's coefficient grid with the corrected boundary indices of the first finding, used as the old one by every step |
| CrankNicholson.CrankNicholson2D.NonLinearIteration | src/NonLinearImageFilter/CrankNicholson2D.java:283-284 | one loop pass is the filter's step from the previous iterate (corrected boundary indices of the first finding), or why it did not complete |
| CrankNicholson.CrankNicholson2D.SolveNonLinear | src/NonLinearImageFilter/CrankNicholson2D.java:271-287 | with the corrected boundary indices of the first finding: converged at the first step moving by no more than eps, stopped by an interrupt or a zero divisor, or out of steps |
| CrankNicholson.CrankNicholson2D.Advance | src/NonLinearImageFilter/CrankNicholson2D.java:282-285 | one do-while pass (corrected boundary indices of the first finding): either the loop ends here with its outcome, or the step moved by more than eps |
| CrankNicholson.EliminationStep | src/NonLinearImageFilter/CrankNicholson2D.java:238-247 | step m of the elimination has a nonzero pivot and gives p[m] and q[m] |
| CrankNicholson.FirstFromCells | src/NonLinearImageFilter/CrankNicholson2D.java:226-233 | the source's step zero computes the first pivot, p[0] and q[0] |
| CrankNicholson.StepFromCells | src/NonLinearImageFilter/CrankNicholson2D.java:239-246 | the source's step m computes the pivot, p[m] and q[m] |
| CrankNicholson.LastFromCells | src/NonLinearImageFilter/CrankNicholson2D.java:248-252 | the source's closing formula is the last numerator over the last denominator |

## Left out

- GUI: the windows, dialogs, file choosers, message boxes and progress bar widgets are not modelled. A chosen file is given as its contents, and the progress values are returned as a sequence.
- `ShadowFiles.close` and the `openRead`/`openWrite` helpers are not modelled, because they only release streams or show dialogs. A declined file chooser is not modelled.
- `getNcol`/`getNrays` are plain reads of the `ncol`/`nrays` fields.
- ShadowFiles.ShadowFile.constructor: the Java constructor does its header I/O as well. Here that part is the separate `Open`, because it can fail.
- ShadowFiles.ShadowFile.Write: write errors (IOException on a full disk) are not modelled.
- Double values in ray files are 64-bit patterns. `doubleToLongBits` canonicalising NaN patterns is not modelled. `%f` and `nextDouble` are the parameters `formatValue` and `parseValue`, so their precision loss is not modelled. Scanner locales and group separators are not modelled, and whitespace is ASCII only.
- Converter.ConverterForm.Convert: the reader and writer are abstracted. Some of what the converter calls is not part of this model:
  - the five-argument `ShadowFiles` constructor, `getFile`, `MAX_NCOL`, `FileIsCorruptedException` and `safeInvokeAndWait`;
  - so the rays read are the given `source`, and MAX_NCOL is the constructor parameter `maxNcol`.
  - The SwingWorker thread is not modelled, and `isCancelled()` is the parameter `cancelled`.
  - The checks on the parameter field values are not modelled. The values given are taken to lie within the field limits, as the formatted fields ensure.
- TextUtilities.TestValue: `Double.valueOf` is the parameter `parse`, which returns a real. NaN is not modelled; in Java a parsed NaN passes both bound checks and is returned. Infinities are not modelled either.
- Filter numbers are reals:
  - The NaN-to-0 branches of the coefficient computation are not modelled, because a real coefficient is never NaN.
  - Rounding is not modelled.
  - `Math.exp` is the constructor parameter `exp`, assumed positive only where a lemma needs it.
- CrankNicholson.CrankNicholson2D.SolveNonLinear: the do-while loop has no bound in the source. The model bounds it by a parameter `maxSteps` and reports `OutOfSteps` when it runs out.
- CrankNicholson.CrankNicholson2D.IterateLinear2D:
  - `Thread.currentThread().isInterrupted()` is the parameter `interrupted`, indexed by poll.
  - A division by zero (Java would produce Infinity or NaN) ends the step with `NonFinite` instead of carrying non-finite values on.
- CrankNicholson.CrankNicholson2D.IterateLinear1D: requires every divisor to be nonzero (`Solvable`). The callers check this first and report `NonFinite` otherwise.
- Grids the filter changes are `array2<real>`. `result[i] = iterateLinear1D(...)` replaces the row object in Java, but here the row's values are copied into a fresh grid, so row aliasing is not modelled.
- CrankNicholson.CrankNicholson2D.SolveNonLinear and the methods it calls require an image of at least 3 by 3, as one line solve reads three cells. With fewer cells the Java methods throw.

## Findings

| source | as written | input that shows it | evidently intended | confidence | as-written member | corrected member |
|---|---|---|---|---|---|---|
| src/NonLinearImageFilter/CrankNicholson2D.java:75-82 | the boundary rows are 0, 1, xsize-1, xsize and the boundary columns 0, 1, ysize-1, ysize | any image: `diffCoef[xsize]` needs xsize < ysize while `putColumn(ysize, ...)` needs ysize < xsize, so getDiffCoefficient, and solveNonLinear with it, always throws ArrayIndexOutOfBoundsException | rows 0, 1, ysize-2, ysize-1 and columns 0, 1, xsize-2, xsize-1 | not executed | CrankNicholson.CrankNicholson2D.GetDiffCoefficientAsWritten, Diffusivity.AsWrittenEdgesNeverFit | CrankNicholson.CrankNicholson2D.GetDiffCoefficient, Diffusivity.EdgesFit, NonLinear.NextGridWith, CrankNicholson.CrankNicholson2D.SolveNonLinear |
| src/shadowfileconverter/ShadowFileConverterJForme.java:316-317 | `truncray[k] = ray[minCol + k]` treats the 1-based column minCol as a 0-based index | binary to text with the default columns 1..MAX_NCOL on a file of 18 columns: maxCol = 18 and the copy reads ray[18] | `ray[minCol - 1 + k]`, the columns minCol..maxCol counted from 1 | not executed | Converter.AsWrittenOutOfBounds, Converter.AsWrittenDefaultFails | Converter.RecordKeepsColumns, Converter.ConverterForm.Convert |
