/** The Olympus ingestion path (med-project/olympus/lambda_function.py): the
    `.log` gate of the upload handler and the generator that turns each log
    line into a row of the olympus table and yields the rows 10000 at a
    time. */
module Olympus {
  import opened Wrappers
  import opened PyStrings
  import opened Batching
  import opened ObjectKeys
  import opened LinePrefix

  /** Rows per yielded batch. */
  const BatchSize: nat := 10000

  /** The text separating the patient name from the concentrations. */
  const Marker: string := "01"

  /** One row for the olympus table: accession number, specimen type, patient
      name, then the concentration values in the instrument's column order. */
  datatype OlympusRow = OlympusRow(
    accessionNumber: string,
    specimenType: char,
    patientName: string,
    concentrations: seq<string>)
  {
    /** The tuple handed to executemany. */
    function Tuple(): (t: seq<string>)
      ensures |t| == 3 + |concentrations|
      ensures t[0] == accessionNumber && t[1] == [specimenType] && t[2] == patientName
      ensures t[3..] == concentrations
    {
      [accessionNumber, [specimenType], patientName] + concentrations
    }
  }

  /** Why a line yields no row. Both surface as Python's IndexError. */
  datatype LineError =
    | NoFirstToken   // the line is blank: splitted_line[0]
    | NoMarker       // "01" is missing after the first token: splitted_parts[1]

  /** The first failing line of a file and why it failed. */
  type LineFailure = Failed<LineError>

  /** The tokens at positions 0, 2, 4, ... in order. */
  function EvenPositions(s: seq<string>): (r: seq<string>)
    ensures |r| == (|s| + 1) / 2
    ensures forall j :: 0 <= j < |r| ==> r[j] == s[2 * j]
    decreases |s|
  {
    if |s| <= 1 then s else [s[0]] + EvenPositions(s[2..])
  }

  /** What one log line becomes. */
  function ParseLine(line: string): Result<OlympusRow, LineError>
  {
    var tokens := Split(line);
    if tokens == [] then Failure(NoFirstToken)
    else
      var numberAndType := tokens[0];
      var rest := Join(" ", tokens[1..]);
      match SplitFirst(rest, Marker)
      case None => Failure(NoMarker)
      case Some((namePart, concentrationPart)) =>
        Success(OlympusRow(
          numberAndType[..|numberAndType| - 1],
          numberAndType[|numberAndType| - 1],
          RStrip(Remove(namePart, ',')),
          EvenPositions(Split(concentrationPart))))
  }

  /** The first three fields: the accession number is the first token without
      its last character and the specimen type is that character; the patient
      name is what precedes the first "01" of the single-space re-joined
      remainder, commas deleted and trailing whitespace stripped. */
  lemma {:induction false} ParseLineHead(line: string)
    requires ParseLine(line).Success?
    ensures var tokens := Split(line);
      && tokens != []
      && var row := ParseLine(line).value;
      && row.accessionNumber + [row.specimenType] == tokens[0]
      && var split := SplitFirst(Join(" ", tokens[1..]), Marker);
      && split.Some?
      && row.patientName == RStrip(Remove(split.value.0, ','))
      && ',' !in row.patientName
  {
    ParseLineShape(line);
    var tokens := Split(line);
    var split := SplitFirst(Join(" ", tokens[1..]), Marker);
    LastSplit(tokens[0]);
    CleanName(split.value.0);
  }

  lemma {:induction false} LastSplit(w: string)
    requires w != []
    ensures w[..|w| - 1] + [w[|w| - 1]] == w
  {
  }

  lemma {:induction false} ParseLineShape(line: string)
    requires ParseLine(line).Success?
    ensures var tokens := Split(line);
      && tokens != []
      && var split := SplitFirst(Join(" ", tokens[1..]), Marker);
      && split.Some?
      && ParseLine(line).value == OlympusRow(
           tokens[0][..|tokens[0]| - 1], tokens[0][|tokens[0]| - 1],
           RStrip(Remove(split.value.0, ',')), EvenPositions(Split(split.value.1)))
  {
  }

  lemma {:induction false} CleanName(s: string)
    ensures ',' !in RStrip(Remove(s, ','))
  {
    var name := RStrip(Remove(s, ','));
    forall i | 0 <= i < |name| ensures name[i] != ',' {
      assert name[i] == Remove(s, ',')[i];
    }
  }

  /** The concentrations are the tokens at even positions of the text after
      the first "01", so a row has 3 + ceil(n / 2) fields for n such tokens. */
  lemma {:induction false} ParseLineConcentrations(line: string)
    requires ParseLine(line).Success?
    ensures var tokens := Split(line);
      && tokens != []
      && var split := SplitFirst(Join(" ", tokens[1..]), Marker);
      && split.Some?
      && var values := Split(split.value.1);
      && var row := ParseLine(line).value;
      && |row.concentrations| == (|values| + 1) / 2
      && |row.Tuple()| == 3 + (|values| + 1) / 2
      && forall j :: 0 <= j < |row.concentrations| ==> row.concentrations[j] == values[2 * j]
  {
  }

  lemma {:induction false} FailsNoFirstToken(line: string)
    ensures ParseLine(line) == Failure(NoFirstToken) <==> Split(line) == []
  {
  }

  lemma {:induction false} FailsNoMarker(line: string)
    requires Split(line) != []
    ensures ParseLine(line) == Failure(NoMarker) <==> SplitFirst(Join(" ", Split(line)[1..]), Marker).None?
  {
  }

  /** A line fails with NoFirstToken exactly when it is blank. */
  lemma {:induction false} ParseLineBlank(line: string)
    ensures ParseLine(line) == Failure(NoFirstToken) <==> forall i :: 0 <= i < |line| ==> IsSpace(line[i])
  {
    FailsNoFirstToken(line);
    SplitBlank(line);
  }

  /** A line fails with NoMarker exactly when it is not blank and "01" does
      not occur in the re-joined text after its first token. */
  lemma {:induction false} ParseLineNoMarker(line: string)
    ensures ParseLine(line) == Failure(NoMarker) <==>
      Split(line) != [] && forall i :: !OccursAt(Join(" ", Split(line)[1..]), Marker, i)
  {
    FailsNoFirstToken(line);
    if Split(line) != [] {
      FailsNoMarker(line);
      SplitFirstIsFirst(Join(" ", Split(line)[1..]), Marker);
    }
  }

  /** The range(0, len(concentration_values), 2) loop that keeps every
      other value token: the imperative counterpart of EvenPositions. */
  method PickConcentrations(values: seq<string>) returns (picked: seq<string>)
    ensures picked == EvenPositions(values)
  {
    picked := [];
    var i := 0;
    while i < |values|
      invariant 0 <= i <= |values| + 1
      invariant i == 2 * |picked|
      invariant forall j :: 0 <= j < |picked| ==> picked[j] == values[2 * j]
    {
      picked := picked + [values[i]];
      i := i + 2;
    }
  }

  /** The body of get_optimized_query_data's loop over the file's lines,
      for one line: the imperative counterpart of ParseLine. */
  method ReadLine(line: string) returns (r: Result<OlympusRow, LineError>)
    ensures r == ParseLine(line)
  {
    var splittedLine := Split(line);
    if splittedLine == [] {
      return Failure(NoFirstToken);
    }
    var numberAndType := splittedLine[0];
    var accessionNumber := numberAndType[..|numberAndType| - 1];
    var specimenType := numberAndType[|numberAndType| - 1];
    var newLine := Join(" ", splittedLine[1..]);
    var splittedParts := SplitFirst(newLine, Marker);
    if splittedParts.None? {
      return Failure(NoMarker);
    }
    var (namePart, concentrationPart) := splittedParts.value;
    var patientName := RStrip(Remove(namePart, ','));
    var concentrations := PickConcentrations(Split(concentrationPart));
    r := Success(OlympusRow(accessionNumber, specimenType, patientName, concentrations));
  }

  /** The rows of the lines up to the first one that fails, and that failure. */
  function ParseLines(lines: seq<string>): Parsed<OlympusRow, LineError>
  {
    ParseAll(ParseLine, lines)
  }

  /** What the generator yields, and the exception it ends with, if any. */
  datatype Yielded = Yielded(batches: seq<seq<OlympusRow>>, failure: Option<LineFailure>)

  /** Without a failing line: every row, in batches of BatchSize followed by
      the shorter (possibly empty) rest. With one: only the batches completed
      before the failing line; the rows collected since are never yielded. */
  function Yield(lines: seq<string>): Yielded
  {
    var p := ParseLines(lines);
    if p.failure.None? then Yielded(Batches(p.rows, BatchSize), None)
    else Yielded(FullBatches(p.rows, BatchSize), p.failure)
  }

  /** The generator: a row is appended per line, and the list is yielded and
      reset whenever it reaches BatchSize; the rest is yielded at the end. */
  method QueryBatches(lines: seq<string>) returns (batches: seq<seq<OlympusRow>>, failure: Option<LineFailure>)
    ensures Yielded(batches, failure) == Yield(lines)
  {
    batches := [];
    var dataSet: seq<OlympusRow> := [];
    ghost var rows: seq<OlympusRow> := [];
    for i := 0 to |lines|
      invariant ParseLines(lines[..i]) == Parsed(rows, None)
      invariant Filling(batches, dataSet, BatchSize, rows)
    {
      assert lines[..i + 1][..i] == lines[..i];
      var r := ReadLine(lines[i]);
      if r.Failure? {
        failure := Some(Failed(i, r.error));
        ParseAllStop(ParseLine, lines, i + 1);
        FillingDone(batches, dataSet, BatchSize, rows);
        return;
      }
      FillingPush(batches, dataSet, BatchSize, rows, r.value);
      dataSet := dataSet + [r.value];
      rows := rows + [r.value];
      if |dataSet| == BatchSize {
        batches := batches + [dataSet];
        dataSet := [];
      }
    }
    assert lines[..|lines|] == lines;
    FillingDone(batches, dataSet, BatchSize, rows);
    batches := batches + [dataSet];
    failure := None;
  }

  /** Without a failing line, every line's row is committed, in file order. */
  lemma {:induction false} CommittedRowsComplete(lines: seq<string>)
    requires Yield(lines).failure.None?
    ensures var committed := Flatten(Yield(lines).batches);
      && |committed| == |lines|
      && forall i :: 0 <= i < |lines| ==> ParseLine(lines[i]) == Success(committed[i])
  {
    ParseAllRows(ParseLine, lines);
  }

  /** When the file fails at line k, what ends up committed is exactly the
      rows of lines 0 .. m - 1, where m is k rounded down to a multiple of
      BatchSize: up to BatchSize - 1 parsed rows before the failing line are
      lost. */
  lemma {:induction false} CommittedRowsOnFailure(lines: seq<string>)
    requires Yield(lines).failure.Some?
    ensures var k := Yield(lines).failure.value.line;
      var committed := Flatten(Yield(lines).batches);
      && k < |lines|
      && |committed| == k - k % BatchSize
      && forall i :: 0 <= i < |committed| ==> ParseLine(lines[i]) == Success(committed[i])
  {
    ParseAllRows(ParseLine, lines);
    var p := ParseLines(lines);
    var committed := Flatten(FullBatches(p.rows, BatchSize));
    CommittedCount(p.rows);
    forall i | 0 <= i < |committed| ensures ParseLine(lines[i]) == Success(committed[i]) {
      assert committed[i] == p.rows[..|committed|][i];
    }
  }

  lemma {:induction false} CommittedCount(rows: seq<OlympusRow>)
    ensures |Flatten(FullBatches(rows, BatchSize))| == |rows| - |rows| % BatchSize
  {
    var fb := FullBatches(rows, BatchSize);
    var n := |Flatten(fb)|;
    assert |fb| * BatchSize == n by {
      FullBatchesLength(fb, BatchSize);
    }
    DivModUnique(|rows|, |fb|, |rows| - n);
  }

  lemma {:induction false} DivModUnique(n: nat, q: nat, r: nat)
    requires n == q * BatchSize + r && r < BatchSize
    ensures q * BatchSize == n - n % BatchSize
  {
  }

  /** Why the upload handler stops. */
  datatype HandlerError =
    | UnsupportedFileType          // TypeError('Not supported file!')
    | BadLine(failure: LineFailure)

  /** The handler from the event key on: a key whose file type is not "log"
      in any letter case is rejected before the object is downloaded or read;
      otherwise every batch the generator yields is inserted and committed,
      and an exception from the generator ends the invocation. */
  method HandleUpload(key: string, lines: seq<string>) returns (committed: seq<seq<OlympusRow>>, error: Option<HandlerError>)
    ensures !IsLogKey(key) ==> committed == [] && error == Some(UnsupportedFileType)
    ensures IsLogKey(key) ==> committed == Yield(lines).batches
    ensures IsLogKey(key) ==>
      error == (if Yield(lines).failure.None? then None else Some(BadLine(Yield(lines).failure.value)))
  {
    var fileType := FileType(FileName(key));
    if LowerAll(fileType) != "log" {
      return [], Some(UnsupportedFileType);
    }
    var batches, failure := QueryBatches(lines);
    committed := batches;
    error := if failure.None? then None else Some(BadLine(failure.value));
  }
}
