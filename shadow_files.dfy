/**
 * The SHADOW ray-file reader and writer.  A file is opened for reading or
 * for writing, in binary or in text form.  Its header gives the number of
 * columns per ray and the number of rays, and every record after it holds
 * one ray.  A binary file is a byte sequence and a text file a sequence of
 * lines; a read position walks through the file being read.  Ray values
 * are doubles, held here as their 64-bit patterns.
 */
module ShadowFiles {
  import opened Wrappers
  import opened Bytes
  import opened TextFormat

  /** The four bytes SHADOW puts around the header and around every binary record. */
  const Marker: seq<byte> := [12, 0, 0, 0]

  /** How opening a file or reading a record ends. */
  datatype IoOutcome =
    | Ok
      /** java.io.EOFException: the binary stream ended inside a value. */
    | StreamEnded
      /** EndOfFileException: a binary record starts with a zero int, or no text line is left. */
    | EndOfFile
      /** EndOfLineException: a text line holds fewer values than the record needs. */
    | EndOfLine
      /** The text header line is missing (a Scanner over a null line). */
    | MissingLine
      /** Scanner.nextInt found no token on the header line (NoSuchElementException). */
    | MissingToken
      /** Scanner.nextInt or nextDouble found a token of the wrong form (InputMismatchException). */
    | BadToken
      /** ClassCastException: a write on a file opened for reading, or a read on one opened for writing. */
    | WrongStream

  /** The header of a file being read: the capped counts and where reading goes on. */
  datatype HeaderRead = HeaderRead(outcome: IoOutcome, ncol: int, nrays: int, next: nat)

  /** One record read: how it ended, the values stored so far, and where reading goes on. */
  datatype RecordRead = RecordRead(outcome: IoOutcome, values: seq<int>, next: nat)

  predicate AllLongs(ws: seq<int>)
  {
    forall i :: 0 <= i < |ws| ==> InRange(ws[i], 8)
  }

  function Min(a: int, b: int): int
  {
    if a < b then a else b
  }

  /** nread = Math.min(rayData.length, ncol); a negative count runs no loop iteration. */
  function RecordLength(length: nat, ncol: int): (n: nat)
    ensures n <= length
    ensures ncol >= 0 ==> n == Min(length, ncol)
  {
    if ncol < 0 then 0 else Min(length, ncol)
  }

  /** The value the marker reads as, so a written record never looks like the end of the file. */
  lemma MarkerValue()
    ensures FromBigEndian(Marker) == 0x0C00_0000
  {
    assert Reverse(Marker) == [0, 0, 0, 12];
    assert FromLittleEndian([12]) == 12;
    assert FromLittleEndian([0, 12]) == 12 * 256;
    assert FromLittleEndian([0, 0, 12]) == 12 * 256 * 256;
    assert Pow256(3) == 0x100_0000;
  }

  // Binary header

  /** The binary header: the marker, ncol and nrays least significant byte first, a zero word, the marker. */
  function BinaryHeader(ncol: int, nrays: int): (h: seq<byte>)
    requires InRange(ncol, 4) && InRange(nrays, 4)
    ensures |h| == 20
  {
    Marker + LittleEndianWord(ncol, 4) + LittleEndianWord(nrays, 4) + [0, 0, 0, 0] + Marker
  }

  /** The constructor's writeInt(reverseBytes(..)) calls lay down exactly the binary header. */
  lemma BinaryHeaderWritten(ncol: int, nrays: int)
    requires InRange(ncol, 4) && InRange(nrays, 4)
    ensures InRange(0, 4)
    ensures Marker + ToBigEndian(ReverseBytes(ncol, 4), 4) + ToBigEndian(ReverseBytes(nrays, 4), 4)
      + ToBigEndian(0, 4) + Marker == BinaryHeader(ncol, nrays)
  {
    ReversedWordIsLittleEndian(ncol, 4);
    ReversedWordIsLittleEndian(nrays, 4);
    IntRange(0);
    assert ToBigEndian(0, 4) == [0, 0, 0, 0];
  }

  /** What the constructor of a reader takes from a binary header at position at. */
  function ReadBinaryHeader(bytes: seq<byte>, at: nat, ncolCap: int, nraysCap: int): (h: HeaderRead)
    requires at <= |bytes|
    ensures h.next <= |bytes|
    ensures h.outcome in {Ok, StreamEnded}
  {
    if at + 20 > |bytes| then HeaderRead(StreamEnded, ncolCap, nraysCap, |bytes|)
    else
      var storedNcol := FromLittleEndianWord(bytes[at + 4..at + 8]);
      var storedNrays := FromLittleEndianWord(bytes[at + 8..at + 12]);
      HeaderRead(Ok, Min(storedNcol, ncolCap), Min(storedNrays, nraysCap), at + 20)
  }

  /** Reading a written binary header gives the written counts, capped by the reader's limits. */
  lemma BinaryHeaderRoundTrip(pre: seq<byte>, ncol: int, nrays: int, post: seq<byte>, ncolCap: int, nraysCap: int)
    requires InRange(ncol, 4) && InRange(nrays, 4)
    ensures ReadBinaryHeader(pre + BinaryHeader(ncol, nrays) + post, |pre|, ncolCap, nraysCap)
      == HeaderRead(Ok, Min(ncol, ncolCap), Min(nrays, nraysCap), |pre| + 20)
  {
    var h := BinaryHeader(ncol, nrays);
    var a := LittleEndianWord(ncol, 4);
    var b := LittleEndianWord(nrays, 4);
    var rest := [0, 0, 0, 0] + Marker;
    assert h == Marker + a + (b + rest);
    assert h == (Marker + a) + b + rest;
    SliceOfConcat(pre, h, post, 4, 8);
    SliceOfConcat(Marker, a, b + rest, 0, 4);
    SliceOfConcat(pre, h, post, 8, 12);
    SliceOfConcat(Marker + a, b, rest, 0, 4);
    LittleEndianWordDecodes(ncol, 4);
    LittleEndianWordDecodes(nrays, 4);
  }

  // Text header

  /** The header line the constructor writes to a text file ("%d %d"). */
  function TextHeader(ncol: int, nrays: int): string
  {
    DecimalString(ncol) + " " + DecimalString(nrays)
  }

  /** What the constructor of a reader takes from the text header line at position at. */
  function ReadTextHeader(lines: seq<string>, at: nat, ncolCap: int, nraysCap: int): (h: HeaderRead)
    requires at <= |lines|
    ensures h.next <= |lines|
    ensures h.outcome in {Ok, MissingLine, MissingToken, BadToken}
  {
    if at == |lines| then HeaderRead(MissingLine, ncolCap, nraysCap, at)
    else
      var t := Tokens(lines[at]);
      if |t| < 1 then HeaderRead(MissingToken, ncolCap, nraysCap, at + 1)
      else if ParseInt(t[0]).None? then HeaderRead(BadToken, ncolCap, nraysCap, at + 1)
      else if |t| < 2 then HeaderRead(MissingToken, ncolCap, nraysCap, at + 1)
      else if ParseInt(t[1]).None? then HeaderRead(BadToken, ncolCap, nraysCap, at + 1)
      else HeaderRead(Ok, Min(ParseInt(t[0]).value, ncolCap), Min(ParseInt(t[1]).value, nraysCap), at + 1)
  }

  /** Reading a written text header gives the written counts, capped by the reader's limits. */
  lemma TextHeaderRoundTrip(pre: seq<string>, ncol: int, nrays: int, post: seq<string>, ncolCap: int, nraysCap: int)
    requires InRange(ncol, 4) && InRange(nrays, 4)
    ensures ReadTextHeader(pre + [TextHeader(ncol, nrays)] + post, |pre|, ncolCap, nraysCap)
      == HeaderRead(Ok, Min(ncol, ncolCap), Min(nrays, nraysCap), |pre| + 1)
  {
    var a := DecimalString(ncol);
    var b := DecimalString(nrays);
    DecimalRoundTrip(ncol);
    DecimalRoundTrip(nrays);
    TokensSplit(a + " ", b);
    SingleToken(a, " ");
    assert Tokens(" ") == [];
    SingleToken(b, "");
    assert b + "" == b;
    assert Tokens(a + " " + b) == [a, b];
    assert (pre + [TextHeader(ncol, nrays)] + post)[|pre|] == a + " " + b;
  }

  // Binary records

  /** The values of a binary record, each least significant byte first. */
  function LongsBytes(ws: seq<int>): (r: seq<byte>)
    requires AllLongs(ws)
    ensures |r| == 8 * |ws|
  {
    if ws == [] then [] else LongsBytes(ws[..|ws| - 1]) + LittleEndianWord(ws[|ws| - 1], 8)
  }

  /** Writing one more value appends its eight bytes. */
  lemma LongsBytesSnoc(ws: seq<int>, i: nat)
    requires AllLongs(ws) && i < |ws|
    ensures AllLongs(ws[..i]) && AllLongs(ws[..i + 1])
    ensures LongsBytes(ws[..i + 1]) == LongsBytes(ws[..i]) + LittleEndianWord(ws[i], 8)
  {
    assert ws[..i + 1][..i] == ws[..i];
  }

  /** A binary record: the marker, the values, the marker. */
  function BinaryRecord(ws: seq<int>): (r: seq<byte>)
    requires AllLongs(ws)
  {
    Marker + LongsBytes(ws) + Marker
  }

  /** A binary record takes 8 bytes of framing and 8 bytes per value, each value least significant byte first. */
  lemma BinaryRecordLayout(ws: seq<int>, i: nat)
    requires AllLongs(ws) && i < |ws|
    ensures |BinaryRecord(ws)| == 8 + 8 * |ws|
    ensures BinaryRecord(ws)[4 + 8 * i..12 + 8 * i] == LittleEndianWord(ws[i], 8)
  {
    LongsBytesAt(ws, i);
    SliceOfConcat(Marker, LongsBytes(ws), Marker, 8 * i, 8 * i + 8);
  }

  /** Value i of a binary record sits at bytes 8i to 8i + 8 of the value block. */
  lemma {:induction false} LongsBytesAt(ws: seq<int>, i: nat)
    requires AllLongs(ws) && i < |ws|
    ensures LongsBytes(ws)[8 * i..8 * i + 8] == LittleEndianWord(ws[i], 8)
  {
    var init := ws[..|ws| - 1];
    if i < |ws| - 1 {
      LongsBytesAt(init, i);
      assert LongsBytes(ws)[8 * i..8 * i + 8] == LongsBytes(init)[8 * i..8 * i + 8];
    }
  }

  /** The value stored from the eight bytes at position k. */
  function WordAt(bytes: seq<byte>, k: nat): (w: int)
    requires k + 8 <= |bytes|
    ensures InRange(w, 8)
  {
    FromLittleEndianWord(bytes[k..k + 8])
  }

  /** The values stored from count complete words starting at byte start. */
  function WordsAt(bytes: seq<byte>, start: nat, count: nat): (ws: seq<int>)
    requires start + 8 * count <= |bytes|
    ensures |ws| == count && AllLongs(ws)
    ensures forall i :: 0 <= i < count ==> ws[i] == WordAt(bytes, start + 8 * i)
  {
    seq(count, i requires 0 <= i < count => WordAt(bytes, start + 8 * i))
  }

  /** What a binary read of a record of nread values does at position at. */
  function ReadBinaryRecord(bytes: seq<byte>, at: nat, nread: nat): (r: RecordRead)
    requires at <= |bytes|
    ensures r.next <= |bytes| && |r.values| <= nread
    ensures r.outcome in {Ok, StreamEnded, EndOfFile}
    ensures r.outcome == Ok ==> |r.values| == nread
  {
    if at + 4 > |bytes| then RecordRead(StreamEnded, [], |bytes|)
    else if FromBigEndian(bytes[at..at + 4]) == 0 then RecordRead(EndOfFile, [], at + 4)
    else
      var start := at + 4;
      if start + 8 * nread > |bytes| then RecordRead(StreamEnded, WordsAt(bytes, start, (|bytes| - start) / 8), |bytes|)
      else if start + 8 * nread + 4 > |bytes| then RecordRead(StreamEnded, WordsAt(bytes, start, nread), |bytes|)
      else RecordRead(Ok, WordsAt(bytes, start, nread), start + 8 * nread + 4)
  }

  /** Reading a written binary record restores every value bit for bit. */
  lemma BinaryRecordRoundTrip(pre: seq<byte>, ws: seq<int>, post: seq<byte>)
    requires AllLongs(ws)
    ensures ReadBinaryRecord(pre + BinaryRecord(ws) + post, |pre|, |ws|)
      == RecordRead(Ok, ws, |pre| + 8 + 8 * |ws|)
  {
    RecordStartsWithMarker(pre, ws, post);
    RecordWords(pre, ws, post);
  }

  /** A written binary record starts with a non-zero int, so reading it does not report the end of the file. */
  lemma RecordStartsWithMarker(pre: seq<byte>, ws: seq<int>, post: seq<byte>)
    requires AllLongs(ws)
    ensures |pre + BinaryRecord(ws) + post| >= |pre| + 8 + 8 * |ws|
    ensures FromBigEndian((pre + BinaryRecord(ws) + post)[|pre|..|pre| + 4]) != 0
  {
    var record := BinaryRecord(ws);
    var head := (pre + record + post)[|pre|..|pre| + 4];
    SliceOfConcat(pre, record, post, 0, 4);
    assert head[0] == 12;
    ZeroWord(head);
  }

  /** The values of a written binary record read back as written. */
  lemma RecordWords(pre: seq<byte>, ws: seq<int>, post: seq<byte>)
    requires AllLongs(ws)
    ensures |pre + BinaryRecord(ws) + post| >= |pre| + 4 + 8 * |ws|
    ensures WordsAt(pre + BinaryRecord(ws) + post, |pre| + 4, |ws|) == ws
  {
    var r := WordsAt(pre + BinaryRecord(ws) + post, |pre| + 4, |ws|);
    forall i | 0 <= i < |ws|
      ensures r[i] == ws[i]
    {
      WordOfRecord(pre, ws, post, i);
    }
  }

  /** Value i of a written binary record reads back as written. */
  lemma WordOfRecord(pre: seq<byte>, ws: seq<int>, post: seq<byte>, i: nat)
    requires AllLongs(ws) && i < |ws|
    ensures |pre + BinaryRecord(ws) + post| >= |pre| + 12 + 8 * i
    ensures WordAt(pre + BinaryRecord(ws) + post, |pre| + 4 + 8 * i) == ws[i]
  {
    var record := BinaryRecord(ws);
    LongsBytesAt(ws, i);
    SliceOfConcat(Marker, LongsBytes(ws), Marker, 8 * i, 8 * i + 8);
    SliceOfConcat(pre, record, post, 4 + 8 * i, 12 + 8 * i);
    LittleEndianWordDecodes(ws[i], 8);
  }

  // Text records

  /** The line a text write emits: each value formatted and followed by a space. */
  function TextRecord(ws: seq<int>, format: int -> string): string
  {
    if ws == [] then "" else TextRecord(ws[..|ws| - 1], format) + format(ws[|ws| - 1]) + " "
  }

  /** The values a text read stores from the tokens of a line, and why it stops early. */
  function ReadTextValues(tokens: seq<string>, n: nat, parse: string -> Option<int>): (r: (IoOutcome, seq<int>))
    ensures r.0 in {Ok, EndOfLine, BadToken}
    ensures r.0 == Ok <==> |r.1| == n
    ensures |r.1| <= n && |r.1| <= |tokens|
    ensures forall i :: 0 <= i < |r.1| ==> parse(tokens[i]) == Some(r.1[i])
  {
    if n == 0 then (Ok, [])
    else
      var r := ReadTextValues(tokens, n - 1, parse);
      if r.0 != Ok then r
      else if n - 1 >= |tokens| then (EndOfLine, r.1)
      else if parse(tokens[n - 1]).None? then (BadToken, r.1)
      else (Ok, r.1 + [parse(tokens[n - 1]).value])
  }

  /** Once a text read has stopped early, reading further values changes nothing. */
  lemma {:induction false} ReadTextValuesStops(tokens: seq<string>, k: nat, n: nat, parse: string -> Option<int>)
    requires k <= n && ReadTextValues(tokens, k, parse).0 != Ok
    ensures ReadTextValues(tokens, n, parse) == ReadTextValues(tokens, k, parse)
    decreases n - k
  {
    if k < n {
      ReadTextValuesStops(tokens, k, n - 1, parse);
    }
  }

  /** What a text read of a record of nread values does at line at. */
  function ReadTextRecord(lines: seq<string>, at: nat, nread: nat, parse: string -> Option<int>): (r: RecordRead)
    requires at <= |lines|
    ensures r.next <= |lines| && |r.values| <= nread
    ensures r.outcome in {Ok, EndOfFile, EndOfLine, BadToken}
  {
    if at == |lines| then RecordRead(EndOfFile, [], at)
    else
      var r := ReadTextValues(Tokens(lines[at]), nread, parse);
      RecordRead(r.0, r.1, at + 1)
  }

  /** The tokens of a written text record: each value formatted. */
  function Formatted(ws: seq<int>, format: int -> string): (ts: seq<string>)
    ensures |ts| == |ws|
    ensures forall i :: 0 <= i < |ws| ==> ts[i] == format(ws[i])
  {
    if ws == [] then [] else Formatted(ws[..|ws| - 1], format) + [format(ws[|ws| - 1])]
  }

  /** Each value formatted and parsed again. */
  function Reparsed(ws: seq<int>, format: int -> string, parse: string -> Option<int>): (vs: seq<int>)
    requires forall i :: 0 <= i < |ws| ==> parse(format(ws[i])).Some?
    ensures |vs| == |ws|
    ensures forall i :: 0 <= i < |ws| ==> vs[i] == parse(format(ws[i])).value
  {
    if ws == [] then [] else Reparsed(ws[..|ws| - 1], format, parse) + [parse(format(ws[|ws| - 1])).value]
  }

  /** A text record lists exactly one token per value, so it never ends a read with EndOfLine. */
  lemma {:induction false} TextRecordTokens(ws: seq<int>, format: int -> string)
    requires forall i :: 0 <= i < |ws| ==> IsToken(format(ws[i]))
    ensures Tokens(TextRecord(ws, format)) == Formatted(ws, format)
  {
    if ws != [] {
      var init := ws[..|ws| - 1];
      var front := TextRecord(init, format);
      var t := format(ws[|ws| - 1]);
      TextRecordTokens(init, format);
      assert front == [] || IsSpace(front[|front| - 1]);
      assert front + t + " " == front + (t + " ");
      TokensSplit(front, t + " ");
      SingleToken(t, " ");
      assert Tokens(" ") == [];
    }
  }

  /** A text read of n values looks at the first n tokens only. */
  lemma {:induction false} ReadTextValuesPrefix(tokens: seq<string>, more: seq<string>, n: nat, parse: string -> Option<int>)
    requires n <= |tokens|
    ensures ReadTextValues(tokens + more, n, parse) == ReadTextValues(tokens, n, parse)
  {
    if n > 0 {
      ReadTextValuesPrefix(tokens, more, n - 1, parse);
      assert (tokens + more)[n - 1] == tokens[n - 1];
    }
  }

  /** The tokens of a written text record parse to each value formatted and parsed again. */
  lemma {:induction false} TextRecordValues(ws: seq<int>, format: int -> string, parse: string -> Option<int>)
    requires forall i :: 0 <= i < |ws| ==> parse(format(ws[i])).Some?
    ensures ReadTextValues(Formatted(ws, format), |ws|, parse) == (Ok, Reparsed(ws, format, parse))
  {
    if ws != [] {
      var init := ws[..|ws| - 1];
      var t := format(ws[|ws| - 1]);
      TextRecordValues(init, format, parse);
      ReadTextValuesPrefix(Formatted(init, format), [t], |init|, parse);
    }
  }

  /** Reading back a written text record yields each value formatted and parsed again. */
  lemma TextRecordRoundTrip(pre: seq<string>, ws: seq<int>, post: seq<string>,
                            format: int -> string, parse: string -> Option<int>)
    requires forall i :: 0 <= i < |ws| ==> IsToken(format(ws[i])) && parse(format(ws[i])).Some?
    ensures ReadTextRecord(pre + [TextRecord(ws, format)] + post, |pre|, |ws|, parse)
      == RecordRead(Ok, Reparsed(ws, format, parse), |pre| + 1)
  {
    var line := TextRecord(ws, format);
    assert (pre + [line] + post)[|pre|] == line;
    TextRecordTokens(ws, format);
    TextRecordValues(ws, format, parse);
  }

  /**
   * A SHADOW file opened for reading or for writing.  The file chooser
   * dialog is replaced by the contents of the chosen file, given to the
   * constructor.
   */
  class ShadowFile {
    /** Opened for writing (true) or for reading (false). */
    const write: bool
    /** Binary SHADOW format (true) or text format (false). */
    const binary: bool
    /** Formatter "%f" on a ray value. */
    const formatValue: int -> string
    /** Scanner.nextDouble on a token. */
    const parseValue: string -> Option<int>
    /** Columns per ray and number of rays: as requested, then capped by the header of a file being read. */
    var ncol: int
    var nrays: int
    /** The binary file: all of it when reading, what has been written so far when writing. */
    var bytes: seq<byte>
    /** The text file, line by line, in the same way. */
    var lines: seq<string>
    /** How far reading has got: a byte offset in a binary file, a line number in a text file. */
    var cursor: nat

    ghost predicate Valid()
      reads this
    {
      InRange(ncol, 4) && InRange(nrays, 4)
      && (binary ==> cursor <= |bytes|)
      && (!binary ==> cursor <= |lines|)
    }

    /** A writer starts on an emptied file; a reader starts at the beginning of the chosen file. */
    constructor (write: bool, binary: bool, ncol: int, nrays: int,
                 chosen: seq<byte>, chosenLines: seq<string>,
                 formatValue: int -> string, parseValue: string -> Option<int>)
      requires InRange(ncol, 4) && InRange(nrays, 4)
      ensures Valid()
      ensures this.write == write && this.binary == binary
      ensures this.ncol == ncol && this.nrays == nrays && cursor == 0
      ensures bytes == (if write then [] else chosen)
      ensures lines == (if write then [] else chosenLines)
      ensures this.formatValue == formatValue && this.parseValue == parseValue
    {
      this.write := write;
      this.binary := binary;
      this.ncol := ncol;
      this.nrays := nrays;
      this.formatValue := formatValue;
      this.parseValue := parseValue;
      bytes := if write then [] else chosen;
      lines := if write then [] else chosenLines;
      cursor := 0;
    }

    /** The header I/O of the constructor: a writer writes the header, a reader reads it and caps its counts. */
    method Open() returns (outcome: IoOutcome)
      requires Valid()
      modifies this`ncol, this`nrays, this`bytes, this`lines, this`cursor
      ensures Valid()
      ensures write && binary ==>
        outcome == Ok && bytes == old(bytes) + BinaryHeader(ncol, nrays)
        && ncol == old(ncol) && nrays == old(nrays) && lines == old(lines) && cursor == old(cursor)
      ensures write && !binary ==>
        outcome == Ok && lines == old(lines) + [TextHeader(ncol, nrays)]
        && ncol == old(ncol) && nrays == old(nrays) && bytes == old(bytes) && cursor == old(cursor)
      ensures !write && binary ==>
        var h := ReadBinaryHeader(old(bytes), old(cursor), old(ncol), old(nrays));
        outcome == h.outcome && ncol == h.ncol && nrays == h.nrays && cursor == h.next
        && bytes == old(bytes) && lines == old(lines)
      ensures !write && !binary ==>
        var h := ReadTextHeader(old(lines), old(cursor), old(ncol), old(nrays));
        outcome == h.outcome && ncol == h.ncol && nrays == h.nrays && cursor == h.next
        && bytes == old(bytes) && lines == old(lines)
    {
      if write && binary {
        WriteHeaderBinary();
        outcome := Ok;
      } else if write {
        WriteHeaderText();
        outcome := Ok;
      } else if binary {
        outcome := ReadHeaderBinary();
      } else {
        outcome := ReadHeaderText();
      }
    }

    /** A binary writer's header: the marker, reverseBytes(ncol), reverseBytes(nrays), a zero int, the marker. */
    method WriteHeaderBinary()
      requires Valid() && binary
      modifies this`bytes
      ensures Valid()
      ensures bytes == old(bytes) + BinaryHeader(ncol, nrays)
    {
      BinaryHeaderWritten(ncol, nrays);
      ghost var before := bytes;
      bytes := bytes + Marker;
      bytes := bytes + ToBigEndian(ReverseBytes(ncol, 4), 4);
      bytes := bytes + ToBigEndian(ReverseBytes(nrays, 4), 4);
      bytes := bytes + ToBigEndian(0, 4);
      bytes := bytes + Marker;
      assert bytes == before + (Marker + ToBigEndian(ReverseBytes(ncol, 4), 4) + ToBigEndian(ReverseBytes(nrays, 4), 4)
        + ToBigEndian(0, 4) + Marker);
    }

    /** A text writer's header: the line "ncol nrays". */
    method WriteHeaderText()
      requires Valid() && !binary
      modifies this`lines
      ensures Valid()
      ensures lines == old(lines) + [TextHeader(ncol, nrays)]
    {
      lines := lines + [DecimalString(ncol) + " " + DecimalString(nrays)];
    }

    /** A binary reader's header: five ints; the second and third, byte-swapped, cap ncol and nrays. */
    method ReadHeaderBinary() returns (outcome: IoOutcome)
      requires Valid() && binary
      modifies this`ncol, this`nrays, this`cursor
      ensures Valid()
      ensures
        var h := ReadBinaryHeader(bytes, old(cursor), old(ncol), old(nrays));
        outcome == h.outcome && ncol == h.ncol && nrays == h.nrays && cursor == h.next
    {
      var marker, ok := ReadWord(4);
      if !ok { return StreamEnded; }
      var storedNcol;
      storedNcol, ok := ReadSwappedInt();
      if !ok { return StreamEnded; }
      var storedNrays;
      storedNrays, ok := ReadSwappedInt();
      if !ok { return StreamEnded; }
      var ignored;
      ignored, ok := ReadWord(4);
      if !ok { return StreamEnded; }
      marker, ok := ReadWord(4);
      if !ok { return StreamEnded; }
      ncol := Min(storedNcol, ncol);
      nrays := Min(storedNrays, nrays);
      outcome := Ok;
    }

    /** Integer.reverseBytes(readInt()): four bytes read least significant first. */
    method ReadSwappedInt() returns (v: int, ok: bool)
      requires Valid() && binary
      modifies this`cursor
      ensures Valid()
      ensures ok <==> old(cursor) + 4 <= |bytes|
      ensures ok ==> cursor == old(cursor) + 4 && v == FromLittleEndianWord(bytes[old(cursor)..cursor])
      ensures !ok ==> cursor == |bytes|
    {
      ghost var at := cursor;
      v, ok := ReadWord(4);
      if ok {
        ReversedReadIsLittleEndian(bytes[at..at + 4]);
        v := ReverseBytes(v, 4);
      }
    }

    /** A text reader's header: one line whose first two tokens, read with nextInt, cap ncol and nrays. */
    method ReadHeaderText() returns (outcome: IoOutcome)
      requires Valid() && !binary
      modifies this`ncol, this`nrays, this`cursor
      ensures Valid()
      ensures
        var h := ReadTextHeader(lines, old(cursor), old(ncol), old(nrays));
        outcome == h.outcome && ncol == h.ncol && nrays == h.nrays && cursor == h.next
    {
      var line := ReadLine();
      if line.None? {
        return MissingLine;
      }
      var header := Tokens(line.value);
      if |header| < 1 || ParseInt(header[0]).None? {
        return if |header| < 1 then MissingToken else BadToken;
      }
      var storedNcol := ParseInt(header[0]).value;
      if |header| < 2 || ParseInt(header[1]).None? {
        return if |header| < 2 then MissingToken else BadToken;
      }
      var storedNrays := ParseInt(header[1]).value;
      ncol := Min(storedNcol, ncol);
      nrays := Min(storedNrays, nrays);
      outcome := Ok;
    }

    /** DataInputStream.readInt (n = 4) or readLong (n = 8); at the end of the stream it takes what is left and fails. */
    method ReadWord(n: nat) returns (v: int, ok: bool)
      requires Valid() && binary && n >= 1
      modifies this`cursor
      ensures Valid()
      ensures ok <==> old(cursor) + n <= |bytes|
      ensures ok ==> cursor == old(cursor) + n && v == FromBigEndian(bytes[old(cursor)..cursor])
      ensures !ok ==> cursor == |bytes|
    {
      if cursor + n <= |bytes| {
        v := FromBigEndian(bytes[cursor..cursor + n]);
        cursor := cursor + n;
        ok := true;
      } else {
        v := 0;
        cursor := |bytes|;
        ok := false;
      }
    }

    /** BufferedReader.readLine: the next line, or nothing at the end of the file. */
    method ReadLine() returns (line: Option<string>)
      requires Valid() && !binary
      modifies this`cursor
      ensures Valid()
      ensures old(cursor) == |lines| ==> line == None && cursor == old(cursor)
      ensures old(cursor) < |lines| ==> line == Some(lines[old(cursor)]) && cursor == old(cursor) + 1
    {
      if cursor == |lines| {
        line := None;
      } else {
        line := Some(lines[cursor]);
        cursor := cursor + 1;
      }
    }

    /**
     * Writes one ray: its first min(rayData.length, ncol) values as one record.
     * On a file opened for reading the stream cast fails before anything is written.
     */
    method Write(rayData: array<int>) returns (outcome: IoOutcome)
      requires Valid() && AllLongs(rayData[..])
      modifies this`bytes, this`lines
      ensures Valid()
      ensures !write ==> outcome == WrongStream && bytes == old(bytes) && lines == old(lines)
      ensures write ==> outcome == Ok
      ensures write && binary ==>
        bytes == old(bytes) + BinaryRecord(rayData[..RecordLength(rayData.Length, ncol)]) && lines == old(lines)
      ensures write && !binary ==>
        lines == old(lines) + [TextRecord(rayData[..RecordLength(rayData.Length, ncol)], formatValue)]
        && bytes == old(bytes)
    {
      if !write {
        return WrongStream;
      }
      outcome := Ok;
      if binary {
        WriteBinary(rayData);
      } else {
        WriteText(rayData);
      }
    }

    /** The binary branch of Write: the marker, each value byte-swapped and written as a long, the marker. */
    method WriteBinary(rayData: array<int>)
      requires Valid() && binary && AllLongs(rayData[..])
      modifies this`bytes
      ensures Valid()
      ensures bytes == old(bytes) + BinaryRecord(rayData[..RecordLength(rayData.Length, ncol)])
    {
      var nread := Min(rayData.Length, ncol);
      ghost var ws := rayData[..RecordLength(rayData.Length, ncol)];
      ghost var before := bytes;
      bytes := bytes + Marker;
      var i := 0;
      while i < nread
        invariant 0 <= i <= |ws| && (i < nread ==> i < |ws|)
        invariant AllLongs(ws[..i]) && bytes == before + Marker + LongsBytes(ws[..i])
      {
        LongsBytesSnoc(ws, i);
        WriteLong(rayData[i]);
        i := i + 1;
      }
      assert ws[..i] == ws;
      bytes := bytes + Marker;
      assert bytes == before + (Marker + LongsBytes(ws) + Marker);
    }

    /** writeLong(Long.reverseBytes(w)): the eight bytes of w, least significant first. */
    method WriteLong(w: int)
      requires Valid() && InRange(w, 8)
      modifies this`bytes
      ensures Valid()
      ensures bytes == old(bytes) + LittleEndianWord(w, 8)
    {
      ReversedWordIsLittleEndian(w, 8);
      bytes := bytes + ToBigEndian(ReverseBytes(w, 8), 8);
    }

    /** The text branch of Write: each value formatted and followed by a space, then the line ends. */
    method WriteText(rayData: array<int>)
      requires Valid() && !binary
      modifies this`lines
      ensures Valid()
      ensures lines == old(lines) + [TextRecord(rayData[..RecordLength(rayData.Length, ncol)], formatValue)]
    {
      var nread := Min(rayData.Length, ncol);
      ghost var ws := rayData[..RecordLength(rayData.Length, ncol)];
      var line := "";
      var i := 0;
      while i < nread
        invariant 0 <= i <= |ws| && (i < nread ==> i < |ws|)
        invariant line == TextRecord(ws[..i], formatValue)
      {
        assert ws[..i + 1][..i] == ws[..i];
        line := line + formatValue(rayData[i]) + " ";
        i := i + 1;
      }
      assert ws[..i] == ws;
      lines := lines + [line];
    }

    /**
     * Reads one ray into the first min(rayData.length, ncol) entries of rayData.
     * On a file opened for writing the stream cast fails before anything is read.
     */
    method Read(rayData: array<int>) returns (outcome: IoOutcome)
      requires Valid()
      modifies this`cursor, rayData
      ensures Valid()
      ensures write ==> outcome == WrongStream && cursor == old(cursor) && rayData[..] == old(rayData[..])
      ensures !write ==>
        var n := RecordLength(rayData.Length, ncol);
        var r := if binary then ReadBinaryRecord(bytes, old(cursor), n)
                 else ReadTextRecord(lines, old(cursor), n, parseValue);
        outcome == r.outcome && cursor == r.next
        && rayData[..] == r.values + old(rayData[..])[|r.values|..]
    {
      if write {
        return WrongStream;
      }
      if binary {
        outcome := ReadBinary(rayData);
      } else {
        outcome := ReadText(rayData);
      }
    }

    /** The binary branch of Read: a marker int (zero at the end of the file), the values as byte-swapped longs, a marker int. */
    method ReadBinary(rayData: array<int>) returns (outcome: IoOutcome)
      requires Valid() && binary
      modifies this`cursor, rayData
      ensures Valid()
      ensures
        var r := ReadBinaryRecord(bytes, old(cursor), RecordLength(rayData.Length, ncol));
        outcome == r.outcome && cursor == r.next
        && rayData[..] == r.values + old(rayData[..])[|r.values|..]
    {
      var nread := Min(rayData.Length, ncol);
      var marker, ok := ReadWord(4);
      if !ok {
        return StreamEnded;
      }
      if marker == 0 {
        return EndOfFile;
      }
      ok := ReadLongs(rayData, if nread < 0 then 0 else nread);
      if !ok {
        return StreamEnded;
      }
      marker, ok := ReadWord(4);
      outcome := if ok then Ok else StreamEnded;
    }

    /** The loop of a binary read: nread longs, each byte-swapped, stored at the front of rayData. */
    method ReadLongs(rayData: array<int>, nread: nat) returns (ok: bool)
      requires Valid() && binary && nread <= rayData.Length
      modifies this`cursor, rayData
      ensures Valid()
      ensures ok <==> old(cursor) + 8 * nread <= |bytes|
      ensures ok ==> (cursor == old(cursor) + 8 * nread
        && rayData[..] == WordsAt(bytes, old(cursor), nread) + old(rayData[..])[nread..])
      ensures !ok ==> (cursor == |bytes|
        && rayData[..] == WordsAt(bytes, old(cursor), (|bytes| - old(cursor)) / 8)
                          + old(rayData[..])[(|bytes| - old(cursor)) / 8..])
    {
      ghost var start := cursor;
      var i := 0;
      while i < nread
        invariant 0 <= i <= nread
        invariant Valid() && cursor == start + 8 * i
        invariant forall k :: 0 <= k < i ==> rayData[k] == WordAt(bytes, start + 8 * k)
        invariant forall k :: i <= k < rayData.Length ==> rayData[k] == old(rayData[k])
      {
        ok := ReadLong(rayData, i);
        if !ok {
          assert i == (|bytes| - start) / 8;
          assert rayData[..] == WordsAt(bytes, start, i) + old(rayData[..])[i..];
          return;
        }
        i := i + 1;
      }
      assert rayData[..] == WordsAt(bytes, start, i) + old(rayData[..])[i..];
      ok := true;
    }

    /** One readLong of the binary read loop, byte-swapped and stored at rayData[i]. */
    method ReadLong(rayData: array<int>, i: nat) returns (ok: bool)
      requires Valid() && binary && i < rayData.Length
      modifies this`cursor, rayData
      ensures Valid()
      ensures ok <==> old(cursor) + 8 <= |bytes|
      ensures ok ==> (cursor == old(cursor) + 8 && rayData[..] == old(rayData[..])[i := WordAt(bytes, old(cursor))])
      ensures !ok ==> (cursor == |bytes| && rayData[..] == old(rayData[..]))
    {
      ghost var at := cursor;
      var w;
      w, ok := ReadWord(8);
      if ok {
        ReversedReadIsLittleEndian(bytes[at..at + 8]);
        rayData[i] := ReverseBytes(w, 8);
      }
    }

    /** The text branch of Read: one line, its values read with nextDouble. */
    method ReadText(rayData: array<int>) returns (outcome: IoOutcome)
      requires Valid() && !binary
      modifies this`cursor, rayData
      ensures Valid()
      ensures
        var r := ReadTextRecord(lines, old(cursor), RecordLength(rayData.Length, ncol), parseValue);
        outcome == r.outcome && cursor == r.next
        && rayData[..] == r.values + old(rayData[..])[|r.values|..]
    {
      var nread := Min(rayData.Length, ncol);
      var line := ReadLine();
      if line.None? {
        return EndOfFile;
      }
      outcome := ReadTokens(Tokens(line.value), if nread < 0 then 0 else nread, parseValue, rayData);
    }
  }

  /** The loop of a text read: nread values parsed from the tokens of the line, stored at the front of rayData. */
  method ReadTokens(tokens: seq<string>, nread: nat, parse: string -> Option<int>, rayData: array<int>)
    returns (outcome: IoOutcome)
    requires nread <= rayData.Length
    modifies rayData
    ensures
      var r := ReadTextValues(tokens, nread, parse);
      outcome == r.0 && rayData[..] == r.1 + old(rayData[..])[|r.1|..]
  {
    var i := 0;
    while i < nread
      invariant 0 <= i <= nread
      invariant ReadTextValues(tokens, i, parse) == (Ok, rayData[..i])
      invariant forall k :: i <= k < rayData.Length ==> rayData[k] == old(rayData[k])
    {
      if i >= |tokens| || parse(tokens[i]).None? {
        ReadTextValuesStops(tokens, i + 1, nread, parse);
        assert rayData[..] == rayData[..i] + old(rayData[..])[i..];
        return if i >= |tokens| then EndOfLine else BadToken;
      }
      rayData[i] := parse(tokens[i]).value;
      assert rayData[..i + 1] == rayData[..i] + [rayData[i]];
      i := i + 1;
    }
    assert rayData[..] == rayData[..i] + old(rayData[..])[i..];
    outcome := Ok;
  }
}
