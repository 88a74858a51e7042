# Instrument file ingestion, modelled in Dafny

This project models the three parsers that load laboratory-instrument files
into MySQL, and it proves what each of them produces.

- **Olympus** (`med-project/olympus/lambda_function.py`). The upload handler
  accepts only keys whose file type is `log` in any letter case. The
  generator `get_optimized_query_data` turns each fixed-width log line into a
  row with these fields:
  - the accession number and the specimen type, both from the first token;
  - the patient name, which is the text before the first `01`, with its
    commas deleted and trailing whitespace stripped;
  - the concentrations, which are every other token after the `01`.

  Rows are yielded in batches of 10000. An exception raised by a line ends
  the generator. By then, only the full batches before that line have been
  yielded and committed.
- **Sciex** (`sciex-write-mysql/lambda_function.py`). The file type picks the
  separator: tab for `txt` and comma for `csv`. Any other type is rejected.
  The header line must split into at least four fields. Every later line is
  right-stripped, split and padded with `Blank` up to four fields. Rows are
  yielded in batches of 80000. Both checks run before the first row, so a
  rejected file commits nothing. The handler processes the event's records in
  order and stops at the first rejected one.
- **FilmArray** (`med-project/film-array-xml/lambda_function.py`). Sixteen
  texts of the parsed XML report become one `filmArrayTest` row. Then every
  `resultGroup` of the report's test becomes a `resultGroup` row, which
  carries the test row's generated id. After each group row come its
  `result` rows, each carrying that group row's generated id. The XML is an
  element tree:
  - `find` returns the first child with a tag;
  - `findall` returns all such children, in order;
  - `.text` of a lookup that found nothing is a failure (`MissingElement`).

  The database is a class holding three tables and two auto-increment
  counters.

The modules are:

| module | file | role |
|---|---|---|
| `Wrappers` | `wrappers.dfy` | `Option` and `Result` |
| `PyStrings` | `py_strings.dfy` | The Python string operations the parsers use: `split()`, `split(sep)`, `split(m, 1)`, `rstrip()`, `join`, `replace(c, '')` and `lower()` |
| `Batching` | `batching.dfy` | The 10000/80000-row batching both generators share |
| `ObjectKeys` | `object_keys.dfy` | Object key → file name → file type, and the `.log` gate |
| `LinePrefix` | `line_prefix.dfy` | Reading items in order until the first one raises |
| `Olympus` | `olympus.dfy` | The Olympus parser, its generator and its handler |
| `Sciex` | `sciex.dfy` | The Sciex parser, its generator and its handler |
| `XmlTree` | `xml_tree.dfy` | The ElementTree subset |
| `AllOrNothing` | `all_or_nothing.dfy` | Building a list that is used only when every step succeeds |
| `FilmArray` | `film_array.dfy` | Extraction, the store and the cascading inserts |

Two details of the code are easy to misread, and the model follows the code:

- **Patient names.** The name is built with `replace(',', '')`, which
  deletes commas rather than turning them into spaces: `DOE,JOHN` becomes
  `DOEJOHN`. `PyStrings.RemoveCommaName` states this example, and
  `Olympus.ParseLineHead` states the name exactly as the code builds it.
- **Sciex batch size.** Comments in the Sciex file mention batches of "100
  rows" and "50k". The code yields every 80000 rows, and so does the model.

## Model

| member | source | states |
|---|---|---|
| `PyStrings.Split` | med-project/olympus/lambda_function.py:95 | `line.split()`: every token is non-empty and free of whitespace, using Python's `isspace` set |
| `PyStrings.SplitBlank` | med-project/olympus/lambda_function.py:95-98 | `split()` returns no token exactly when the line is all whitespace |
| `PyStrings.SplitJoinWords` | med-project/olympus/lambda_function.py:101-104 | Splitting tokens that were re-joined with single spaces gives the same tokens back |
| `PyStrings.RStrip` | med-project/olympus/lambda_function.py:112 | `rstrip()` returns a prefix of the string that does not end in whitespace |
| `PyStrings.RStripTail` | sciex-write-mysql/lambda_function.py:100 | Everything `rstrip()` removes is whitespace |
| `PyStrings.SplitOn` | sciex-write-mysql/lambda_function.py:92 | `split(sep)` returns at least one field; no field contains the separator; re-joining the fields gives the string back |
| `PyStrings.SplitOnJoin` | sciex-write-mysql/lambda_function.py:100 | Separator-free fields, empty ones included, survive a join followed by a split |
| `PyStrings.SplitFirst` | med-project/olympus/lambda_function.py:107-109 | `split('01', 1)` returns two parts that, with the marker between them, rebuild the string |
| `PyStrings.SplitFirstIsFirst` | med-project/olympus/lambda_function.py:107-109 | The split happens at the first occurrence of the marker, and there is no second part exactly when the marker never occurs |
| `PyStrings.SplitLeadingBlank` | med-project/olympus/lambda_function.py:95 | Leading whitespace of any length yields no token |
| `PyStrings.SplitTrailingBlank` | med-project/olympus/lambda_function.py:95 | Trailing whitespace of any length, such as the line terminator, yields no token |
| `PyStrings.SplitAtBlank` | med-project/olympus/lambda_function.py:95 | A run of whitespace separates tokens: the text on each side of it is split independently, and the run yields nothing |
| `PyStrings.SplitRunIsOneSpace` | med-project/olympus/lambda_function.py:95-104 | A run of whitespace inside a line splits as a single space does |
| `PyStrings.Remove` | med-project/olympus/lambda_function.py:112 | `replace(',', '')` deletes every comma and keeps every other character as often as it occurs |
| `PyStrings.RemoveOne` | med-project/olympus/lambda_function.py:112 | On one character, `replace(',', '')` deletes it if it is a comma and keeps it otherwise |
| `PyStrings.RemoveAppend` | med-project/olympus/lambda_function.py:112 | `replace(',', '')` works piece by piece and keeps the order of what it keeps; with `RemoveOne` this determines it on every string |
| `PyStrings.RemoveBetween` | med-project/olympus/lambda_function.py:112 | A comma between two comma-free parts disappears, leaving the parts joined with nothing between them |
| `PyStrings.RemoveCommaName` | med-project/olympus/lambda_function.py:112 | `DOE,JOHN` becomes `DOEJOHN`, not `DOE JOHN` |
| `PyStrings.Lower` | med-project/olympus/lambda_function.py:49 | `lower()` on one code point maps A-Z to a-z and leaves every other character unchanged |
| `PyStrings.LowerAll` | med-project/olympus/lambda_function.py:49 | `lower()` applies `Lower` to each code point of the string |
| `ObjectKeys.LastFieldIsTail` | med-project/olympus/lambda_function.py:46-47 | `split(sep)[-1]` is the text after the last separator, or the whole string when there is none |
| `ObjectKeys.FileTypeIsKeyTail` | med-project/olympus/lambda_function.py:46-47 | The file type is what follows the key's last `/` or `.` |
| `ObjectKeys.LogKeyIff` | med-project/olympus/lambda_function.py:46-51 | A key passes the gate exactly when its last three characters spell `log` in any case and stand at the start of the key or right after a `/` or `.` |
| `Batching.Batches` | med-project/olympus/lambda_function.py:125-130 | At least one batch is yielded. Every batch but the last is full and the last is short, possibly empty. Together the batches hold the rows in order |
| `Batching.FullBatches` | med-project/olympus/lambda_function.py:125-127 | Before the generator stops early, it has yielded only full batches. Together they are a prefix of the rows and leave out fewer than one batch |
| `Batching.BatchesCount` | sciex-write-mysql/lambda_function.py:109-114 | The row count is the number of full batches times the batch size, plus the size of the last batch |
| `Batching.BatchesOfShape` | sciex-write-mysql/lambda_function.py:109-114 | Full batches followed by one short batch are exactly what batching their rows yields |
| `Batching.FullBatchesLength` | med-project/olympus/lambda_function.py:125-127 | Full batches hold the batch size times their number of rows |
| `Batching.FillingPush` | sciex-write-mysql/lambda_function.py:107-111 | Appending a row, and yielding and resetting the list when it reaches the batch size, keeps the yielded batches full and the list short, and together they hold the rows read so far, in order |
| `Batching.FillingDone` | sciex-write-mysql/lambda_function.py:113-114 | Yielding the list at the end gives exactly the batches of the rows read. Before that, the yielded batches are exactly the full ones |
| `LinePrefix.ParseAllRows` | med-project/olympus/lambda_function.py:94-123 | Lines are read in order. There is one row per line up to the first failing line, which gives no row. Without a failing line, there is a row for every line |
| `LinePrefix.ParseAllStop` | med-project/olympus/lambda_function.py:94-123 | Lines after the first failing line change nothing |
| `Olympus.OlympusRow.Tuple` | med-project/olympus/lambda_function.py:114-123 | The tuple is the accession number, the specimen type and the name, followed by the concentrations |
| `Olympus.EvenPositions` | med-project/olympus/lambda_function.py:119-121 | Takes the tokens at positions 0, 2, 4, …, in order: ⌈n/2⌉ of them |
| `Olympus.ParseLineHead` | med-project/olympus/lambda_function.py:95-112 | Accession number + specimen type is the first token. The specimen type is its last character. The name is the text before the first `01` of the single-space re-joined remainder, with commas deleted and right-stripped, and it contains no comma |
| `Olympus.ParseLineConcentrations` | med-project/olympus/lambda_function.py:116-123 | The concentrations are the tokens at even positions after the first `01`. A row has 3 + ⌈n/2⌉ fields |
| `Olympus.ParseLineBlank` | med-project/olympus/lambda_function.py:95-98 | A line fails for lack of a first token exactly when it is blank |
| `Olympus.ParseLineNoMarker` | med-project/olympus/lambda_function.py:101-109 | A line fails for lack of a second part exactly when it is not blank and `01` does not occur in its re-joined remainder |
| `Olympus.PickConcentrations` | med-project/olympus/lambda_function.py:119-121 | The stepping loop picks exactly the tokens at even positions |
| `Olympus.ReadLine` | med-project/olympus/lambda_function.py:95-123 | The loop body computes exactly the line's row, or the error it raises |
| `Olympus.QueryBatches` | med-project/olympus/lambda_function.py:92-130 | The generator yields batches of the rows. On a failing line it yields only the batches completed before that line, and reports the line |
| `Olympus.CommittedRowsComplete` | med-project/olympus/lambda_function.py:94-130 | Without a failing line, the batches hold exactly one row per input line, in file order |
| `Olympus.CommittedRowsOnFailure` | med-project/olympus/lambda_function.py:94-130 | When line k fails, the committed rows are exactly those of lines 0 .. m-1, where m is k rounded down to a multiple of 10000 |
| `Olympus.CommittedCount` | med-project/olympus/lambda_function.py:125-127 | The full batches hold `n - n % 10000` rows |
| `Olympus.HandleUpload` | med-project/olympus/lambda_function.py:46-73 | A key that fails the gate is rejected before anything is read. Otherwise every yielded batch is committed, and a failing line ends the run with its error |
| `Sciex.Separator` | sciex-write-mysql/lambda_function.py:83-89 | Exactly `txt` (tab) and `csv` (comma) are accepted, case-sensitively. Every other type is a TypeError |
| `Sciex.Padded` | sciex-write-mysql/lambda_function.py:103-105 | The result has max(4, n) fields. The original fields form an unchanged prefix and the rest are `Blank` |
| `Sciex.PadFields` | sciex-write-mysql/lambda_function.py:103-105 | The padding loop computes exactly `Padded` |
| `Sciex.ReadLine` | sciex-write-mysql/lambda_function.py:100-105 | The loop body computes exactly the line's row |
| `Sciex.FormatLineFields` | sciex-write-mysql/lambda_function.py:100-107 | A row has at least 4 fields. Its leading fields re-join to the right-stripped line. A line with 4 or more fields is kept as is, and the rest of a shorter row is `Blank` |
| `Sciex.FormatJoined` | sciex-write-mysql/lambda_function.py:100 | Empty interior fields stay `""` and are never replaced by `Blank` |
| `Sciex.TabLastFieldNonEmpty` | sciex-write-mysql/lambda_function.py:100 | With tabs, the right-strip removes trailing empty fields, so the last field of a non-blank line is never empty; missing fields become `Blank` |
| `Sciex.LastFieldNonEmpty` | sciex-write-mysql/lambda_function.py:100 | A string that does not end with the separator has a non-empty last field |
| `Sciex.FormatLinesSnoc` | sciex-write-mysql/lambda_function.py:99-107 | One more data line adds its row at the end |
| `Sciex.QueryBatches` | sciex-write-mysql/lambda_function.py:83-114 | The generator either yields `Parse`'s batches or raises `Parse`'s error having yielded nothing |
| `Sciex.BatchLines` | sciex-write-mysql/lambda_function.py:99-114 | The line loop yields exactly the batches of the data lines' rows |
| `Sciex.ParseAccepted` | sciex-write-mysql/lambda_function.py:83-99 | A supported type with a long enough header always gives the batches of the lines after the header |
| `Sciex.ParseFails` | sciex-write-mysql/lambda_function.py:83-97 | A file is rejected exactly when its type is unsupported or its header has fewer than 4 fields. An empty file is always rejected |
| `Sciex.ParsedRows` | sciex-write-mysql/lambda_function.py:92-114 | Non-final batches hold 80000 rows and the last holds fewer. Together they hold one row per line after the header, in order, and the header is never a row |
| `Sciex.HandleUpload` | sciex-write-mysql/lambda_function.py:41-59 | One object commits `Parse`'s batches for the type taken from its key, or nothing when it is rejected |
| `Sciex.AcceptAllPrefix` | sciex-write-mysql/lambda_function.py:34-60 | The objects before the first rejected one are committed in full, in event order, and no later object is committed |
| `Sciex.HandleRecords` | sciex-write-mysql/lambda_function.py:34-60 | The loop over records commits exactly what `AcceptAll` describes |
| `XmlTree.FirstIndex` | med-project/film-array-xml/lambda_function.py:96-99 | `find` picks the first child with the tag, and finds nothing exactly when no child has it |
| `XmlTree.Filter` | med-project/film-array-xml/lambda_function.py:78 | `findall` keeps only children with the tag, taken from the children |
| `XmlTree.FilterAppend` | med-project/film-array-xml/lambda_function.py:78 | `findall` keeps document order |
| `XmlTree.FilterComplete` | med-project/film-array-xml/lambda_function.py:158 | `findall` keeps every child with the tag |
| `XmlTree.FindIsFirstOfFindAll` | med-project/film-array-xml/lambda_function.py:77-78 | `find` finds nothing exactly when `findall` is empty, and otherwise returns the first element of `findall` |
| `XmlTree.FindPathAppend` | med-project/film-array-xml/lambda_function.py:101-112 | A chain of finds composes: following p + q is following p, then q |
| `XmlTree.FindPathTags` | med-project/film-array-xml/lambda_function.py:101-112 | The element a chain reaches has the chain's last tag |
| `XmlTree.TextsAt` | med-project/film-array-xml/lambda_function.py:101-119 | A successful read of n paths gives n texts |
| `XmlTree.TextsAtAll` | med-project/film-array-xml/lambda_function.py:101-119 | The reads succeed exactly when every path resolves, and then text i is the text at path i. Otherwise they fail as the first unresolved path does |
| `XmlTree.TextsAtAppend` | med-project/film-array-xml/lambda_function.py:101-119 | Reading a + b is reading a, then b |
| `XmlTree.TextsAtPrefixed` | med-project/film-array-xml/lambda_function.py:108-112 | Reading paths behind a common prefix is finding the prefix once and reading from there |
| `XmlTree.TextsAtOne` | med-project/film-array-xml/lambda_function.py:101 | Reading one path gives its text |
| `XmlTree.FindPathStep` | med-project/film-array-xml/lambda_function.py:101-112 | A chain is its first find followed by the rest |
| `AllOrNothing.MapAllAll` | med-project/film-array-xml/lambda_function.py:167-181 | The list exists exactly when every step succeeds, and then holds one entry per element, in order |
| `AllOrNothing.MapAllFirstFailure` | med-project/film-array-xml/lambda_function.py:167-181 | Otherwise it fails as the first failing step does |
| `AllOrNothing.MapAllSnoc` | med-project/film-array-xml/lambda_function.py:167-181 | One more element extends the list by its result |
| `AllOrNothing.MapAllStop` | med-project/film-array-xml/lambda_function.py:167-181 | After a failure, later elements change nothing |
| `AllOrNothing.Collect` | med-project/film-array-xml/lambda_function.py:167-181 | The loop that appends one entry per element computes exactly `MapAll`'s list, or the first failing step's error |
| `FilmArray.TestRow.Fields` | med-project/film-array-xml/lambda_function.py:121-125 | The test tuple has 16 fields, in the INSERT's order |
| `FilmArray.TestRowOf` | med-project/film-array-xml/lambda_function.py:121-125 | Building a row from 16 values and reading its tuple back gives the same values |
| `FilmArray.TestRowFields` | med-project/film-array-xml/lambda_function.py:121-125 | Reading a row's tuple and building the row back gives the same row |
| `FilmArray.Present` | med-project/film-array-xml/lambda_function.py:97-99 | Dereferencing a lookup gives the found element, or fails naming the tag that was missing |
| `FilmArray.TestFieldPathsChunks` | med-project/film-array-xml/lambda_function.py:101-119 | The 16-path table is the specimen path, the test's paths, the disposable's paths, the header's paths and the status path, in that order |
| `FilmArray.ExtractTestByPaths` | med-project/film-array-xml/lambda_function.py:96-125 | Extracting the test row is reading the 16 fixed paths from the root, in tuple order, and it fails as the first unresolved path fails |
| `FilmArray.ExtractChunks` | med-project/film-array-xml/lambda_function.py:96-125 | The source's order of lookups and reads is the same as reading the five groups of paths in turn |
| `FilmArray.TestOrderLevel` | med-project/film-array-xml/lambda_function.py:98-119 | With requestResult and testOrder found, the extraction is the same as the five groups of paths read in turn |
| `FilmArray.ExtractBelowTestOrder` | med-project/film-array-xml/lambda_function.py:98-119 | With requestResult and testOrder found, the extraction fails as the first of these fails, in this order: the specimen text, the test's texts, the disposable's texts, the header's texts and the request status. When none fails, the row is their texts in that order |
| `FilmArray.RequestResultChunks` | med-project/film-array-xml/lambda_function.py:97-119 | The paths under requestResult are read from the requestResult element that was found |
| `FilmArray.TestOrderChunks` | med-project/film-array-xml/lambda_function.py:98-108 | The lookups of the test and the disposable below testOrder |
| `FilmArray.ExtractTestFields` | med-project/film-array-xml/lambda_function.py:96-125 | The test row exists exactly when all 16 paths resolve. Field i is then the text at path i, and a missing text is NULL |
| `FilmArray.ResultRowsAllOrNothing` | med-project/film-array-xml/lambda_function.py:167-181 | Result tuples exist exactly when every result is readable. There is then one per result, in document order, each with the group's id. Otherwise the error is that of the first unreadable result |
| `FilmArray.ReadGroup` | med-project/film-array-xml/lambda_function.py:145-153 | A group row carries the id of the test it belongs to |
| `FilmArray.GroupRowOf` | med-project/film-array-xml/lambda_function.py:145-153 | The group row's three texts are the ones read, in the INSERT's order, with the test's id |
| `FilmArray.ReadGroupFields` | med-project/film-array-xml/lambda_function.py:145-147 | A group's row can be read exactly when its three lookups all find their element. Its fields are then the three texts, and otherwise the error names the first missing element |
| `FilmArray.ReadResult` | med-project/film-array-xml/lambda_function.py:169-181 | A result tuple carries the id of its group |
| `FilmArray.ResultRowOf` | med-project/film-array-xml/lambda_function.py:180-181 | The tuple's eight texts are the ones read, in the INSERT's order, followed by the group's id |
| `FilmArray.ReadResultFields` | med-project/film-array-xml/lambda_function.py:169-181 | A result's tuple can be read exactly when its eight lookup chains all resolve. Its fields are then the eight texts, and otherwise the error names the first missing element |
| `FilmArray.Database.constructor` | med-project/film-array-xml/lambda_function.py:36-42 | The three tables start empty. The counters start at 1, with ids well formed and every reference intact |
| `FilmArray.Database.InsertTest` | med-project/film-array-xml/lambda_function.py:134-137 | The id is the counter's next value, unused so far. The row is appended and nothing else changes |
| `FilmArray.Database.InsertGroup` | med-project/film-array-xml/lambda_function.py:152-155 | The id is the counter's next value, unused so far. The row is appended and nothing else changes |
| `FilmArray.Database.InsertResults` | med-project/film-array-xml/lambda_function.py:187-189 | `executemany` appends the rows in order and nothing else changes |
| `FilmArray.GroupStep` | med-project/film-array-xml/lambda_function.py:145-159 | A group writes at most one row, and none exactly when its own texts cannot be read. The row has the id it was given. Without a failure, exactly one row is written |
| `FilmArray.GroupStepShape` | med-project/film-array-xml/lambda_function.py:145-189 | A group's row carries the test's id and its own id. The step succeeds exactly when the group and all its results are readable. Its results are then all the result tuples; otherwise there are none, while the group row stays |
| `FilmArray.WriteSteps` | med-project/film-array-xml/lambda_function.py:80-81 | Writing the groups yields as many result lists as group rows, and no more rows than groups |
| `FilmArray.WriteStepsComplete` | med-project/film-array-xml/lambda_function.py:80-81 | There is no failure exactly when no group fails, and then there is one row per group |
| `FilmArray.WriteStepsRows` | med-project/film-array-xml/lambda_function.py:80-81 | Row k and its results are what group k's step wrote |
| `FilmArray.WriteStepsSnoc` | med-project/film-array-xml/lambda_function.py:80-81 | After groups that all succeeded, one more group appends what it writes |
| `FilmArray.WriteStepsStop` | med-project/film-array-xml/lambda_function.py:80-81 | After a failure, the remaining groups change nothing |
| `FilmArray.WriteStepsFirstFailure` | med-project/film-array-xml/lambda_function.py:80-81 | The first failing group ends the loop with its error. The groups before it are all written |
| `FilmArray.StepAtShape` | med-project/film-array-xml/lambda_function.py:140-159 | Each call of `write_to_result_group` writes at most one group row, and exactly one when it does not raise |
| `FilmArray.WriteGroups` | med-project/film-array-xml/lambda_function.py:77-81 | The loop yields as many result lists as group rows, and no more rows than resultGroups |
| `FilmArray.WriteGroupsIds` | med-project/film-array-xml/lambda_function.py:80-81 | Group row k has id first + k and is group k's own texts with the test's id. Every result row written after it carries that group's id and no other |
| `FilmArray.WriteGroupsIdAt` | med-project/film-array-xml/lambda_function.py:149-159 | The same, for one group k and its id first + k |
| `FilmArray.WriteGroupsComplete` | med-project/film-array-xml/lambda_function.py:77-81 | There is no failure exactly when every group succeeds. There is then one group row per resultGroup, in document order, and after each come all of its results |
| `FilmArray.WriteGroupsFirstFailure` | med-project/film-array-xml/lambda_function.py:80-81 | The loop stops at the first failing group, with its error. An unreadable group adds no row; a group with an unreadable result keeps its committed row and adds no results |
| `FilmArray.WriteGroupsSnoc` | med-project/film-array-xml/lambda_function.py:80-81 | After groups that all succeeded, the next group's row takes the next id and appends what its step writes |
| `FilmArray.WriteGroupsStop` | med-project/film-array-xml/lambda_function.py:80-81 | After a failure, the remaining groups are not written |
| `FilmArray.ReadResults` | med-project/film-array-xml/lambda_function.py:167-181 | The loop computes the datasets exactly, or the first result's error |
| `FilmArray.WriteResult` | med-project/film-array-xml/lambda_function.py:162-189 | Either all of the group's result rows are appended in order, or, when one result is unreadable, none are. Nothing else changes |
| `FilmArray.ReferentialGrow` | med-project/film-array-xml/lambda_function.py:137-159 | Rows appended after stored ones keep every reference intact, as long as each new row points at a row stored by then |
| `FilmArray.GroupStepCases` | med-project/film-array-xml/lambda_function.py:145-159 | An unreadable group writes nothing and fails. A readable one writes its row under the given id, then either all its result tuples or, when one result is unreadable, none |
| `FilmArray.GroupStepReferential` | med-project/film-array-xml/lambda_function.py:145-159 | When the test's row is stored, what a group writes keeps every reference intact |
| `FilmArray.WriteResultGroup` | med-project/film-array-xml/lambda_function.py:140-159 | The store grows by exactly what `GroupStep` describes for the next group id. Ids stay well formed, and every new row points at a stored row |
| `FilmArray.WriteFilmArrayTest` | med-project/film-array-xml/lambda_function.py:90-137 | If extraction fails, the store is unchanged and the error is returned. Otherwise the test row is appended under the next test id, which is returned |
| `FilmArray.ExtractTestFindsTest` | med-project/film-array-xml/lambda_function.py:77 | When the test row can be extracted, the handler's own lookup of `requestResult/testOrder/test` cannot fail |
| `FilmArray.Ingestion` | med-project/film-array-xml/lambda_function.py:73-81 | The handler fails without writing anything exactly when the test row cannot be extracted |
| `FilmArray.WriteResultGroups` | med-project/film-array-xml/lambda_function.py:78-81 | The group loop grows the store by exactly what `WriteGroups` describes. Ids stay well formed and references stay intact |
| `FilmArray.Ingest` | med-project/film-array-xml/lambda_function.py:73-81 | The handler writes exactly what `Ingestion` describes for the current counters. A test that cannot be extracted leaves the store unchanged. The test row comes before its groups and each group row before its results, so no reference is ever dangling |

## Left out

- The `lambda_handler` plumbing is not modelled:
  - the pymysql connection and `sys.exit`;
  - S3 event decoding and the download;
  - temporary directories and printing;
  - creating tables in `database_helper`, which is not part of this model.

  The handlers start from the object key and the file's lines.
- Opening the file and `FileNotFoundError` are not modelled. A file is the list of its lines as `readlines()` returns them, terminators included.
- `ET.parse` and the parse errors it swallows are not modelled. The report is given as an already-parsed element tree.
- SQL semantics are abstracted. `executemany` and `commit` are appends to the store and nothing else. Errors raised by the database are not modelled. Two kinds of row would fail there:
  - an Olympus row whose tuple does not have 13 values;
  - a Sciex row with more than 4 fields, since the INSERT has 4 placeholders.

  So `Olympus.HandleUpload` and `Sciex.HandleRecords` give the batches handed to `executemany`, on the assumption that every insert succeeds.
- FilmArray.Database.InsertGroup: the id `cursor.lastrowid` returns is modelled as the table's next auto-increment value, one more than the previous group's id. This assumes no other writer inserts into the table concurrently and an auto-increment step of 1. MySQL itself promises only a fresh id. The same holds for `FilmArray.Database.InsertTest`. The "first + k" ids that `FilmArray.WriteGroupsIds` and `FilmArray.WriteGroupsIdAt` state rest on this assumption. The referential properties do not: they use only that each new id is unused.
- Result rows get ids from the database too, but nothing reads them, so the store keeps no counter for them.
- The Olympus handler only reads the event's first record. `Olympus.HandleUpload` therefore takes one key, while `Sciex.HandleRecords` takes the event's whole list of records.
- `PyStrings.Lower` models `str.lower()` for ASCII letters only. No other code point lower-cases to a string containing `l`, `o` or `g`, so the `.log` gate's verdict is the same.
- `Olympus.ParseLineHead` states the patient name as the right-strip of the comma-free text before the marker. It does not restate there that the name does not end in whitespace; `PyStrings.RStrip` and `PyStrings.RStripTail` state that.
- `med-project/cumulative-report/lambda_function.py` is not part of this model. It consists of SQL queries, HTML and PDF rendering, an S3 upload and a file name built from the clock.
