/** The Sciex ingestion path (sciex-write-mysql/lambda_function.py): the file
    type picks the field separator, the header line must have at least four
    fields, and every later line becomes one row of at least four fields,
    yielded 80000 rows at a time. The file is the sequence of its lines as
    readline() returns them; line terminators are whitespace, which the
    right-strip removes from data lines and which never adds a header field. */
module Sciex {
  import opened Wrappers
  import opened PyStrings
  import opened Batching
  import opened ObjectKeys
  import opened LinePrefix

  /** Rows per yielded batch. */
  const BatchSize: nat := 80000

  /** Fields per row of the sciex table, and the least a header must have. */
  const FieldCount: nat := 4

  /** What fills a missing trailing field. */
  const Filler: string := "Blank"

  /** A row: the fields of one data line, padded to FieldCount. */
  type Row = seq<string>

  /** Both are Python's TypeError. */
  datatype SciexError =
    | UnsupportedFileType   // neither "txt" nor "csv"
    | HeaderTooShort        // the header splits into fewer than FieldCount fields

  /** The separator for a file type: a tab for "txt", a comma for "csv", and
      nothing for any other type, "TXT" and "CSV" included. */
  function Separator(fileType: string): (r: Result<char, SciexError>)
    ensures r.Success? <==> fileType == "txt" || fileType == "csv"
    ensures r.Success? ==> r.value == (if fileType == "txt" then '\t' else ',')
    ensures r.Failure? ==> r.error == UnsupportedFileType
  {
    if fileType == "txt" then Success('\t')
    else if fileType == "csv" then Success(',')
    else Failure(UnsupportedFileType)
  }

  /** The fields, followed by as many Filler fields as bring them up to
      FieldCount; fields that are already that many are kept as they are. */
  function Padded(fields: seq<string>): (r: Row)
    ensures |r| == if |fields| < FieldCount then FieldCount else |fields|
    ensures r[..|fields|] == fields
    ensures forall i :: |fields| <= i < |r| ==> r[i] == Filler
  {
    if |fields| < FieldCount then fields + seq(FieldCount - |fields|, _ => Filler) else fields
  }

  /** The row a data line becomes: right-stripped, split on the separator,
      padded. */
  function FormatLine(line: string, sep: char): Row
  {
    Padded(SplitOn(RStrip(line), sep))
  }

  /** The while loop that appends 'Blank' until the line has four fields:
      the imperative counterpart of Padded. */
  method PadFields(fields: seq<string>) returns (padded: Row)
    ensures padded == Padded(fields)
  {
    padded := fields;
    if |padded| < FieldCount {
      while |padded| < FieldCount
        invariant |fields| <= |padded| <= FieldCount
        invariant padded[..|fields|] == fields
        invariant forall i :: |fields| <= i < |padded| ==> padded[i] == Filler
        decreases FieldCount - |padded|
      {
        padded := padded + [Filler];
      }
      assert padded == Padded(fields);
    }
  }

  /** The body of get_optimized_query_data's loop over readlines(), for one
      data line: the imperative counterpart of FormatLine. */
  method ReadLine(line: string, sep: char) returns (row: Row)
    ensures row == FormatLine(line, sep)
  {
    var formatedLine := SplitOn(RStrip(line), sep);
    row := PadFields(formatedLine);
  }

  /** A row is at least FieldCount long; its leading fields are the line's own
      fields, unchanged and none dropped, which joined with the separator give
      the right-stripped line back; every field after them is Filler. */
  lemma {:induction false} FormatLineFields(line: string, sep: char)
    ensures var fields := SplitOn(RStrip(line), sep);
      var row := FormatLine(line, sep);
      && |row| == (if |fields| < FieldCount then FieldCount else |fields|)
      && |row| >= FieldCount
      && Join([sep], row[..|fields|]) == RStrip(line)
      && (|fields| >= FieldCount ==> row == fields)
      && forall i :: |fields| <= i < |row| ==> row[i] == Filler
  {
  }

  /** Fields free of the separator, empty ones included, joined into a line
      without trailing whitespace, come back as the leading fields of its
      row: an empty interior field stays "" and is never filled. */
  lemma {:induction false} FormatJoined(fields: seq<string>, sep: char)
    requires |fields| >= 1
    requires forall k :: 0 <= k < |fields| ==> sep !in fields[k]
    requires var s := Join([sep], fields); s == [] || !IsSpace(s[|s| - 1])
    ensures var row := FormatLine(Join([sep], fields), sep);
      |row| >= |fields| && row[..|fields|] == fields
  {
    SplitOnJoin(fields, sep);
  }

  /** With the tab separator, the right-strip removes trailing empty fields
      before the split, so the last field of a non-blank line is never
      empty (the last field is what follows the last tab): a line
      "a<TAB>b<TAB><TAB>" yields a, b, Blank, Blank. */
  lemma {:induction false} TabLastFieldNonEmpty(line: string)
    requires RStrip(line) != []
    ensures LastField(RStrip(line), '\t') != []
  {
    var s := RStrip(line);
    assert s[|s| - 1] != '\t' by {
      assert IsSpace('\t');
    }
    LastFieldNonEmpty(s, '\t');
  }

  lemma {:induction false} LastFieldNonEmpty(s: string, sep: char)
    requires s != [] && s[|s| - 1] != sep
    ensures LastField(s, sep) != []
  {
    LastFieldIsTail(s, sep);
  }

  /** The rows of the given data lines, one per line, in order. */
  function FormatLines(lines: seq<string>, sep: char): (rows: seq<Row>)
    ensures |rows| == |lines|
  {
    seq(|lines|, i requires 0 <= i < |lines| => FormatLine(lines[i], sep))
  }

  lemma {:induction false} FormatLinesSnoc(lines: seq<string>, line: string, sep: char)
    ensures FormatLines(lines + [line], sep) == FormatLines(lines, sep) + [FormatLine(line, sep)]
  {
    assert forall i :: 0 <= i < |lines| ==> (lines + [line])[i] == lines[i];
  }

  lemma {:induction false} FormatLinesPrefix(data: seq<string>, i: nat, sep: char)
    requires i < |data|
    ensures FormatLines(data[..i + 1], sep) == FormatLines(data[..i], sep) + [FormatLine(data[i], sep)]
  {
    assert data[..i + 1] == data[..i] + [data[i]];
    FormatLinesSnoc(data[..i], data[i], sep);
  }

  /** The header line: readline() of an empty file is "". */
  function Header(lines: seq<string>): string
  {
    if lines == [] then "" else lines[0]
  }

  /** What the generator yields for a file, or the error it raises before
      yielding anything. */
  function Parse(lines: seq<string>, fileType: string): Result<seq<seq<Row>>, SciexError>
  {
    var sep :- Separator(fileType);
    if |SplitOn(Header(lines), sep)| < FieldCount then Failure(HeaderTooShort)
    else Success(Batches(FormatLines(lines[1..], sep), BatchSize))
  }

  /** The generator. Both checks come before the first row, so an error means
      nothing was yielded. */
  method QueryBatches(lines: seq<string>, fileType: string) returns (batches: seq<seq<Row>>, error: Option<SciexError>)
    ensures error.None? ==> Parse(lines, fileType) == Success(batches)
    ensures error.Some? ==> batches == [] && Parse(lines, fileType) == Failure(error.value)
  {
    var splitSign: char;
    if fileType == "txt" {
      splitSign := '\t';
    } else if fileType == "csv" {
      splitSign := ',';
    } else {
      return [], Some(UnsupportedFileType);
    }
    var header := SplitOn(Header(lines), splitSign);
    if |header| < FieldCount {
      return [], Some(HeaderTooShort);
    }
    assert |lines| >= 1;
    batches := BatchLines(lines[1..], splitSign);
    error := None;
    ParseAccepted(lines, fileType, splitSign);
  }

  /** The generator's loop over the lines after the header: one row per line,
      and the list of rows is yielded and reset whenever it reaches
      BatchSize; the rest is yielded at the end. */
  method BatchLines(data: seq<string>, sep: char) returns (batches: seq<seq<Row>>)
    ensures batches == Batches(FormatLines(data, sep), BatchSize)
  {
    batches := [];
    var dataSet: seq<Row> := [];
    for i := 0 to |data|
      invariant Filling(batches, dataSet, BatchSize, FormatLines(data[..i], sep))
    {
      var row := ReadLine(data[i], sep);
      FormatLinesPrefix(data, i, sep);
      FillingPush(batches, dataSet, BatchSize, FormatLines(data[..i], sep), row);
      dataSet := dataSet + [row];
      if |dataSet| == BatchSize {
        batches := batches + [dataSet];
        dataSet := [];
      }
    }
    assert data[..|data|] == data;
    FillingDone(batches, dataSet, BatchSize, FormatLines(data, sep));
    batches := batches + [dataSet];
  }

  lemma {:induction false} ParseAccepted(lines: seq<string>, fileType: string, sep: char)
    requires Separator(fileType) == Success(sep)
    requires |SplitOn(Header(lines), sep)| >= FieldCount
    ensures |lines| >= 1
    ensures Parse(lines, fileType) == Success(Batches(FormatLines(lines[1..], sep), BatchSize))
  {
  }

  /** A file is rejected exactly when its type is not "txt" or "csv", or when
      its header has fewer than FieldCount fields; an empty file has the
      header "", one field, and is always rejected. */
  lemma {:induction false} ParseFails(lines: seq<string>, fileType: string)
    ensures Parse(lines, fileType).Failure? <==>
      (fileType != "txt" && fileType != "csv")
      || |SplitOn(Header(lines), if fileType == "txt" then '\t' else ',')| < FieldCount
    ensures lines == [] ==> Parse(lines, fileType).Failure?
  {
  }

  /** Accepted files: every batch but the last holds BatchSize rows, the last
      fewer (possibly none), and together they hold one row per line after
      the header, in file order; the header never becomes a row. */
  lemma {:induction false} ParsedRows(lines: seq<string>, fileType: string)
    requires Parse(lines, fileType).Success?
    ensures var batches := Parse(lines, fileType).value;
      var sep := Separator(fileType).value;
      && |batches| >= 1
      && (forall k :: 0 <= k < |batches| - 1 ==> |batches[k]| == BatchSize)
      && |batches[|batches| - 1]| < BatchSize
      && |lines| >= 1
      && |Flatten(batches)| == |lines| - 1
      && forall i :: 1 <= i < |lines| ==> Flatten(batches)[i - 1] == FormatLine(lines[i], sep)
  {
    var sep := Separator(fileType).value;
    ParseSucceeds(lines, fileType);
    ParseAccepted(lines, fileType, sep);
    FormatLinesAfterHeader(lines, sep);
  }

  lemma {:induction false} ParseSucceeds(lines: seq<string>, fileType: string)
    requires Parse(lines, fileType).Success?
    ensures Separator(fileType).Success?
    ensures |SplitOn(Header(lines), Separator(fileType).value)| >= FieldCount
  {
  }

  lemma {:induction false} FormatLinesAfterHeader(lines: seq<string>, sep: char)
    requires |lines| >= 1
    ensures forall i :: 1 <= i < |lines| ==> FormatLines(lines[1..], sep)[i - 1] == FormatLine(lines[i], sep)
  {
    forall i | 1 <= i < |lines| ensures FormatLines(lines[1..], sep)[i - 1] == FormatLine(lines[i], sep) {
      assert lines[1..][i - 1] == lines[i];
    }
  }

  /** The handler for one uploaded object: the file type is what follows the
      last '.' of the key's last '/' segment, and every yielded batch is
      inserted and committed. */
  method HandleUpload(key: string, lines: seq<string>) returns (committed: seq<seq<Row>>, error: Option<SciexError>)
    ensures error.None? ==> Parse(lines, FileType(FileName(key))) == Success(committed)
    ensures error.Some? ==> committed == [] && Parse(lines, FileType(FileName(key))) == Failure(error.value)
  {
    var fileType := FileType(FileName(key));
    committed, error := QueryBatches(lines, fileType);
  }

  /** One uploaded object of the event: its key and its lines. */
  datatype Upload = Upload(key: string, lines: seq<string>)

  /** What one object commits, or why it is rejected. */
  function Accept(upload: Upload): Result<seq<seq<Row>>, SciexError>
  {
    Parse(upload.lines, FileType(FileName(upload.key)))
  }

  /** The handler's loop over the event's records: each object's batches in
      turn, until an object is rejected; the exception ends the invocation, so
      no later object is read. */
  function AcceptAll(uploads: seq<Upload>): Parsed<seq<seq<Row>>, SciexError>
  {
    ParseAll(Accept, uploads)
  }

  /** The objects before the first rejected one are committed in full, in
      event order, and nothing after it is; with no rejected object, every
      object is. */
  lemma {:induction false} AcceptAllPrefix(uploads: seq<Upload>)
    ensures var r := AcceptAll(uploads);
      && (forall i :: 0 <= i < |r.rows| ==> i < |uploads| && Accept(uploads[i]) == Success(r.rows[i]))
      && (r.failure.None? <==> forall i :: 0 <= i < |uploads| ==> Accept(uploads[i]).Success?)
      && (r.failure.None? ==> |r.rows| == |uploads|)
      && (r.failure.Some? ==>
            (r.failure.value.line == |r.rows| < |uploads|
             && Accept(uploads[|r.rows|]) == Failure(r.failure.value.reason)))
  {
    ParseAllRows(Accept, uploads);
  }

  /** The handler: for every record of the event, the object's batches are
      inserted and committed one by one; a rejected object raises. */
  method HandleRecords(uploads: seq<Upload>) returns (committed: seq<seq<seq<Row>>>, failure: Option<Failed<SciexError>>)
    ensures Parsed(committed, failure) == AcceptAll(uploads)
  {
    committed := [];
    for i := 0 to |uploads|
      invariant AcceptAll(uploads[..i]) == Parsed(committed, None)
    {
      assert uploads[..i + 1][..i] == uploads[..i];
      assert uploads[..i + 1][i] == uploads[i];
      var batches, e := HandleUpload(uploads[i].key, uploads[i].lines);
      if e.Some? {
        ParseAllStop(Accept, uploads, i + 1);
        return committed, Some(Failed(i, e.value));
      }
      committed := committed + [batches];
    }
    assert uploads[..|uploads|] == uploads;
    failure := None;
  }
}
