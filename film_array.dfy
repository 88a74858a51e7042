/** The FilmArray ingestion path (med-project/film-array-xml/lambda_function.py):
    sixteen texts of a parsed report become one filmArrayTest row, then every
    resultGroup of the report's test becomes a resultGroup row that carries
    the test row's generated id, followed by one result row per result of the
    group, carrying that group row's generated id. */
module FilmArray {
  import opened Wrappers
  import opened XmlTree
  import opened AllOrNothing
  import opened Batching

  /** The text of an element, None where the element has no text; it is
      stored as SQL NULL. */
  type Value = Option<string>

  /** One filmArrayTest row, fields in the order of the INSERT. */
  datatype TestRow = TestRow(
    specimenIdentifier: Value,
    testIdentifier: Value,
    testName: Value,
    testVersion: Value,
    instrumentType: Value,
    instrumentSerialNumber: Value,
    disposableIdentifier: Value,
    disposableReference: Value,
    disposableType: Value,
    disposableLotNumber: Value,
    senderName: Value,
    processingIdentifier: Value,
    version: Value,
    dateTime: Value,
    messageType: Value,
    requestStatus: Value)
  {
    /** The 16-tuple handed to execute. */
    function Fields(): (f: seq<Value>)
      ensures |f| == 16
    {
      [specimenIdentifier, testIdentifier, testName, testVersion,
       instrumentType, instrumentSerialNumber, disposableIdentifier,
       disposableReference, disposableType, disposableLotNumber,
       senderName, processingIdentifier, version,
       dateTime, messageType, requestStatus]
    }
  }

  /** The row a 16-tuple is. */
  function TestRowOf(f: seq<Value>): (t: TestRow)
    requires |f| == 16
    ensures t.Fields() == f
  {
    TestRow(f[0], f[1], f[2], f[3], f[4], f[5], f[6], f[7],
            f[8], f[9], f[10], f[11], f[12], f[13], f[14], f[15])
  }

  /** Reading a tuple off a row and building the row back gives the row. */
  lemma {:induction false} TestRowFields(t: TestRow)
    ensures TestRowOf(t.Fields()) == t
  {
  }

  /** A lookup's result, dereferenced. */
  function Present(found: Option<Element>, tag: string): (r: Result<Element, XmlError>)
    ensures found.Some? ==> r == Success(found.value)
    ensures found.None? ==> r == Failure(MissingElement(tag))
  {
    match found
    case None => Failure(MissingElement(tag))
    case Some(e) => Success(e)
  }

  /** The test's texts write_to_film_array_test reads (its identifier,
      name and version, the instrument type and serial number), relative to
      the test. */
  const TestTextPaths: seq<seq<string>> := [
    ["universalIdentifier", "testIdentifier"],
    ["universalIdentifier", "testName"],
    ["universalIdentifier", "testVersion"],
    ["instrumentType"],
    ["instrumentSerialNumber"]
  ]

  /** The disposable's texts, relative to disposableData/disposable. */
  const DisposableTextPaths: seq<seq<string>> := [
    ["disposableIdentifier"], ["reference"], ["disposableType"], ["lotNumber"]
  ]

  /** The header's texts, relative to the header. */
  const HeaderTextPaths: seq<seq<string>> := [
    ["senderName"], ["processingIdentifier"], ["version"], ["dateTime"], ["messageType"]
  ]

  /** write_to_film_array_test up to the INSERT: the lookups and reads in
      the order the source performs them. The header and the test are looked
      up early but only dereferenced when their first text is read. */
  function ExtractTest(root: Element): Result<TestRow, XmlError>
  {
    var header := Find(root, "header");
    var requestResult :- Present(Find(root, "requestResult"), "requestResult");
    var testOrder :- Present(Find(requestResult, "testOrder"), "testOrder");
    var test := Find(testOrder, "test");
    var specimenIdentifier :- TextAt(testOrder, ["specimen", "specimenIdentifier"]);
    var testEl :- Present(test, "test");
    var testTexts :- TextsAt(testEl, TestTextPaths);
    var disposableData :- Present(Find(testEl, "disposableData"), "disposableData");
    var disposable :- Present(Find(disposableData, "disposable"), "disposable");
    var disposableTexts :- TextsAt(disposable, DisposableTextPaths);
    var headerEl :- Present(header, "header");
    var headerTexts :- TextsAt(headerEl, HeaderTextPaths);
    var requestStatus :- TextAt(requestResult, ["requestStatus"]);
    Success(TestRowOf([specimenIdentifier] + testTexts + disposableTexts + headerTexts + [requestStatus]))
  }

  /** Where each field of the test row is read from, from the root, in the
      order of the tuple. */
  const TestFieldPaths: seq<seq<string>> := [
    ["requestResult", "testOrder", "specimen", "specimenIdentifier"],
    ["requestResult", "testOrder", "test", "universalIdentifier", "testIdentifier"],
    ["requestResult", "testOrder", "test", "universalIdentifier", "testName"],
    ["requestResult", "testOrder", "test", "universalIdentifier", "testVersion"],
    ["requestResult", "testOrder", "test", "instrumentType"],
    ["requestResult", "testOrder", "test", "instrumentSerialNumber"],
    ["requestResult", "testOrder", "test", "disposableData", "disposable", "disposableIdentifier"],
    ["requestResult", "testOrder", "test", "disposableData", "disposable", "reference"],
    ["requestResult", "testOrder", "test", "disposableData", "disposable", "disposableType"],
    ["requestResult", "testOrder", "test", "disposableData", "disposable", "lotNumber"],
    ["header", "senderName"],
    ["header", "processingIdentifier"],
    ["header", "version"],
    ["header", "dateTime"],
    ["header", "messageType"],
    ["requestResult", "requestStatus"]
  ]

  lemma {:induction false} TestFieldPathsChunks()
    ensures TestFieldPaths ==
      [SpecimenPath]
      + Prefixed(TestPrefix, TestTextPaths)
      + Prefixed(DisposablePrefix, DisposableTextPaths)
      + Prefixed(["header"], HeaderTextPaths)
      + [StatusPath]
  {
    TestPathsStretch();
    DisposablePathsStretch();
    HeaderPathsStretch();
    FiveStretches(TestFieldPaths);
  }

  lemma {:induction false} TestPathsStretch()
    ensures Prefixed(TestPrefix, TestTextPaths) == TestFieldPaths[1..6]
  {
    var t := Prefixed(TestPrefix, TestTextPaths);
    assert t[0] == TestFieldPaths[1] && t[1] == TestFieldPaths[2] && t[2] == TestFieldPaths[3];
    assert t[3] == TestFieldPaths[4] && t[4] == TestFieldPaths[5];
  }

  lemma {:induction false} DisposablePathsStretch()
    ensures Prefixed(DisposablePrefix, DisposableTextPaths) == TestFieldPaths[6..10]
  {
    var d := Prefixed(DisposablePrefix, DisposableTextPaths);
    assert d[0] == TestFieldPaths[6] && d[1] == TestFieldPaths[7];
    assert d[2] == TestFieldPaths[8] && d[3] == TestFieldPaths[9];
  }

  lemma {:induction false} HeaderPathsStretch()
    ensures Prefixed(["header"], HeaderTextPaths) == TestFieldPaths[10..15]
  {
    var h := Prefixed(["header"], HeaderTextPaths);
    assert h[0] == TestFieldPaths[10] && h[1] == TestFieldPaths[11] && h[2] == TestFieldPaths[12];
    assert h[3] == TestFieldPaths[13] && h[4] == TestFieldPaths[14];
  }

  lemma {:induction false} FiveStretches<T>(s: seq<T>)
    requires |s| == 16
    ensures s == [s[0]] + s[1..6] + s[6..10] + s[10..15] + [s[15]]
  {
  }

  /** The tuple a successful read of all test paths gives. */
  function RowOfTexts(r: Result<seq<Value>, XmlError>): Result<TestRow, XmlError>
    requires r.Success? ==> |r.value| == 16
  {
    match r
    case Failure(e) => Failure(e)
    case Success(f) => Success(TestRowOf(f))
  }

  /** The source's reads, stated independently as a table: extracting the
      test row is reading the sixteen paths of TestFieldPaths from the root,
      in order, field i being the text at path i. So the extraction succeeds
      exactly when every path resolves, and a missing element fails it with
      the same element the table's first unresolved path misses. */
  lemma {:induction false} ExtractTestByPaths(root: Element)
    ensures ExtractTest(root) == RowOfTexts(TextsAt(root, TestFieldPaths))
  {
    var a := [SpecimenPath];
    var t := Prefixed(TestPrefix, TestTextPaths);
    var d := Prefixed(DisposablePrefix, DisposableTextPaths);
    var h := Prefixed(["header"], HeaderTextPaths);
    var st := [StatusPath];
    TestFieldPathsChunks();
    TextsAtAppend(root, a + t + d + h, st);
    TextsAtAppend(root, a + t + d, h);
    TextsAtAppend(root, a + t, d);
    TextsAtAppend(root, a, t);
    ExtractChunks(root);
    var ra := TextsAt(root, a);
    var rt := TextsAt(root, t);
    var rd := TextsAt(root, d);
    var rh := TextsAt(root, h);
    var rs := TextsAt(root, st);
    if ra.Success? && rt.Success? && rd.Success? && rh.Success? && rs.Success? {
      var all := ra.value + rt.value + rd.value + rh.value + rs.value;
      assert TextsAt(root, TestFieldPaths) == Success(all);
    }
  }

  /** The table read in five stretches: the specimen, the test's texts, the
      disposable's texts, the header's texts and the request status. */
  function ChunkedRead(root: Element): Result<TestRow, XmlError>
  {
    Combine(
      TextsAt(root, [SpecimenPath]),
      TextsAt(root, Prefixed(TestPrefix, TestTextPaths)),
      TextsAt(root, Prefixed(DisposablePrefix, DisposableTextPaths)),
      TextsAt(root, Prefixed(["header"], HeaderTextPaths)),
      TextsAt(root, [StatusPath]))
  }

  /** Five stretches read in order: the first one that fails decides the
      error, and otherwise their texts, in order, make the row. */
  function Combine(a: Result<seq<Value>, XmlError>, t: Result<seq<Value>, XmlError>,
                   d: Result<seq<Value>, XmlError>, h: Result<seq<Value>, XmlError>,
                   s: Result<seq<Value>, XmlError>): Result<TestRow, XmlError>
    requires a.Success? ==> |a.value| == 1
    requires t.Success? ==> |t.value| == 5
    requires d.Success? ==> |d.value| == 4
    requires h.Success? ==> |h.value| == 5
    requires s.Success? ==> |s.value| == 1
  {
    if a.Failure? then Failure(a.error)
    else if t.Failure? then Failure(t.error)
    else if d.Failure? then Failure(d.error)
    else if h.Failure? then Failure(h.error)
    else if s.Failure? then Failure(s.error)
    else Success(TestRowOf(a.value + t.value + d.value + h.value + s.value))
  }

  const SpecimenPath: seq<string> := ["requestResult", "testOrder", "specimen", "specimenIdentifier"]
  const StatusPath: seq<string> := ["requestResult", "requestStatus"]
  const TestPrefix: seq<string> := ["requestResult", "testOrder", "test"]
  const DisposablePrefix: seq<string> := ["requestResult", "testOrder", "test", "disposableData", "disposable"]

  lemma {:induction false} ExtractChunks(root: Element)
    ensures ExtractTest(root) == ChunkedRead(root)
  {
    var rr := Find(root, "requestResult");
    if rr.None? {
      TextsAtOne(root, SpecimenPath);
      FindPathStep(root, "requestResult", SpecimenPath[1..]);
      assert SpecimenPath == ["requestResult"] + SpecimenPath[1..];
    } else {
      var r := rr.value;
      var to := Find(r, "testOrder");
      if to.None? {
        TextsAtOne(root, SpecimenPath);
        RequestResultChunks(root, r);
        FindPathStep(r, "testOrder", SpecimenPath[2..]);
        assert SpecimenPath[1..] == ["testOrder"] + SpecimenPath[2..];
      } else {
        TestOrderLevel(root, r, to.value);
      }
    }
  }

  /** A text read as a stretch of one. */
  function One(r: Result<Value, XmlError>): (out: Result<seq<Value>, XmlError>)
    ensures out.Success? ==> |out.value| == 1
  {
    match r
    case Failure(e) => Failure(e)
    case Success(v) => Success([v])
  }

  /** The texts at the paths below a looked-up element, which must exist. */
  function Below(found: Option<Element>, tag: string, paths: seq<seq<string>>): (r: Result<seq<Value>, XmlError>)
    ensures r.Success? ==> |r.value| == |paths|
  {
    match Present(found, tag)
    case Failure(e) => Failure(e)
    case Success(e) => TextsAt(e, paths)
  }

  /** The disposable's texts, from the test order on. */
  function DisposableBelow(o: Element): (r: Result<seq<Value>, XmlError>)
    ensures r.Success? ==> |r.value| == 4
  {
    match Present(Find(o, "test"), "test")
    case Failure(e) => Failure(e)
    case Success(t) =>
      match Present(Find(t, "disposableData"), "disposableData")
      case Failure(e) => Failure(e)
      case Success(dd) => Below(Find(dd, "disposable"), "disposable", DisposableTextPaths)
  }

  /** Once requestResult and its testOrder are found, extraction is the
      five stretches read from there. */
  lemma {:induction false} TestOrderLevel(root: Element, r: Element, o: Element)
    requires Find(root, "requestResult") == Some(r) && Find(r, "testOrder") == Some(o)
    ensures ExtractTest(root) == ChunkedRead(root)
  {
    SpecimenChunk(root, r, o);
    TestChunk(root, r, o);
    DisposableChunk(root, r, o);
    HeaderChunk(root);
    StatusChunk(root, r);
    ExtractBelowTestOrder(root, r, o);
  }

  lemma {:induction false} ExtractBelowTestOrder(root: Element, r: Element, o: Element)
    requires Find(root, "requestResult") == Some(r) && Find(r, "testOrder") == Some(o)
    ensures ExtractTest(root) == Combine(
      One(TextAt(o, ["specimen", "specimenIdentifier"])),
      Below(Find(o, "test"), "test", TestTextPaths),
      DisposableBelow(o),
      Below(Find(root, "header"), "header", HeaderTextPaths),
      One(TextAt(r, ["requestStatus"])))
  {
  }

  lemma {:induction false} SpecimenChunk(root: Element, r: Element, o: Element)
    requires Find(root, "requestResult") == Some(r) && Find(r, "testOrder") == Some(o)
    ensures TextsAt(root, [SpecimenPath]) == One(TextAt(o, ["specimen", "specimenIdentifier"]))
  {
    TextsAtOne(root, SpecimenPath);
    RequestResultChunks(root, r);
    FindPathStep(r, "testOrder", SpecimenPath[2..]);
    assert SpecimenPath[1..] == ["testOrder"] + SpecimenPath[2..];
    assert SpecimenPath[2..] == ["specimen", "specimenIdentifier"];
  }

  lemma {:induction false} TestChunk(root: Element, r: Element, o: Element)
    requires Find(root, "requestResult") == Some(r) && Find(r, "testOrder") == Some(o)
    ensures TextsAt(root, Prefixed(TestPrefix, TestTextPaths)) == Below(Find(o, "test"), "test", TestTextPaths)
  {
    TextsAtPrefixed(root, TestPrefix, TestTextPaths);
    RequestResultChunks(root, r);
    FindPathStep(r, "testOrder", TestPrefix[2..]);
    assert TestPrefix[1..] == ["testOrder"] + TestPrefix[2..];
    assert TestPrefix[2..] == ["test"];
    TestOrderChunks(o);
  }

  lemma {:induction false} DisposableChunk(root: Element, r: Element, o: Element)
    requires Find(root, "requestResult") == Some(r) && Find(r, "testOrder") == Some(o)
    ensures TextsAt(root, Prefixed(DisposablePrefix, DisposableTextPaths)) == DisposableBelow(o)
  {
    TextsAtPrefixed(root, DisposablePrefix, DisposableTextPaths);
    RequestResultChunks(root, r);
    FindPathStep(r, "testOrder", DisposablePrefix[2..]);
    assert DisposablePrefix[1..] == ["testOrder"] + DisposablePrefix[2..];
    assert DisposablePrefix[2..] == ["test", "disposableData", "disposable"];
    TestOrderChunks(o);
  }

  lemma {:induction false} HeaderChunk(root: Element)
    ensures TextsAt(root, Prefixed(["header"], HeaderTextPaths)) == Below(Find(root, "header"), "header", HeaderTextPaths)
  {
    TextsAtPrefixed(root, ["header"], HeaderTextPaths);
    FindPathStep(root, "header", []);
  }

  lemma {:induction false} StatusChunk(root: Element, r: Element)
    requires Find(root, "requestResult") == Some(r)
    ensures TextsAt(root, [StatusPath]) == One(TextAt(r, ["requestStatus"]))
  {
    TextsAtOne(root, StatusPath);
    RequestResultChunks(root, r);
  }

  lemma {:induction false} RequestResultChunks(root: Element, r: Element)
    requires Find(root, "requestResult") == Some(r)
    ensures TextAt(root, SpecimenPath) == TextAt(r, SpecimenPath[1..])
    ensures TextAt(root, StatusPath) == TextAt(r, ["requestStatus"])
    ensures FindPath(root, TestPrefix) == FindPath(r, TestPrefix[1..])
    ensures FindPath(root, DisposablePrefix) == FindPath(r, DisposablePrefix[1..])
  {
    FindPathStep(root, "requestResult", SpecimenPath[1..]);
    FindPathStep(root, "requestResult", StatusPath[1..]);
    FindPathStep(root, "requestResult", TestPrefix[1..]);
    FindPathStep(root, "requestResult", DisposablePrefix[1..]);
    assert SpecimenPath == ["requestResult"] + SpecimenPath[1..];
    assert StatusPath == ["requestResult"] + StatusPath[1..];
    assert TestPrefix == ["requestResult"] + TestPrefix[1..];
    assert DisposablePrefix == ["requestResult"] + DisposablePrefix[1..];
  }

  /** Below requestResult/testOrder: the specimen text, the test's texts and
      the disposable's texts are read from the test order on. */
  lemma {:induction false} TestOrderChunks(o: Element)
    ensures FindPath(o, ["test"]) ==
      match Find(o, "test")
      case None => Failure(MissingElement("test"))
      case Some(t) => Success(t)
    ensures FindPath(o, ["test", "disposableData", "disposable"]) ==
      match Find(o, "test")
      case None => Failure(MissingElement("test"))
      case Some(t) =>
        match Find(t, "disposableData")
        case None => Failure(MissingElement("disposableData"))
        case Some(dd) =>
          match Find(dd, "disposable")
          case None => Failure(MissingElement("disposable"))
          case Some(disp) => Success(disp)
  {
    FindPathStep(o, "test", []);
    FindPathStep(o, "test", ["disposableData", "disposable"]);
    match Find(o, "test")
    case None =>
    case Some(t) =>
      FindPathStep(t, "disposableData", ["disposable"]);
      match Find(t, "disposableData")
      case None =>
      case Some(dd) =>
        FindPathStep(dd, "disposable", []);
  }

  /** Every field of the test row is the text at its path, and the row
      exists exactly when all sixteen paths resolve. */
  lemma {:induction false} ExtractTestFields(root: Element)
    ensures ExtractTest(root).Success? <==>
      forall i :: 0 <= i < |TestFieldPaths| ==> TextAt(root, TestFieldPaths[i]).Success?
    ensures ExtractTest(root).Success? ==>
      forall i :: 0 <= i < |TestFieldPaths| ==> ExtractTest(root).value.Fields()[i] == TextAt(root, TestFieldPaths[i]).value
  {
    ExtractTestByPaths(root);
    TextsAtAll(root, TestFieldPaths);
  }

  /** One resultGroup row: the group's three texts and the test's id. */
  datatype GroupRow = GroupRow(code: Value, name: Value, codingSystem: Value, testId: nat)

  /** One result row, fields in the order of the INSERT: eight texts and the
      id of the result's group. */
  datatype ResultRow = ResultRow(
    testCode: Value,
    testName: Value,
    codingSystem: Value,
    valueType: Value,
    observationValue: Value,
    observationName: Value,
    operatorName: Value,
    dateTime: Value,
    groupId: nat)
  {
    /** The eight texts of the tuple, without the group's id. */
    function Texts(): (t: seq<Value>)
      ensures |t| == 8
    {
      [testCode, testName, codingSystem, valueType, observationValue, observationName, operatorName, dateTime]
    }
  }

  /** The group's texts read in write_to_result_group, in the order of its
      INSERT. */
  const GroupTextPaths: seq<seq<string>> := [
    ["resultGroupCode"], ["resultGroupName"], ["resultGroupCodingSystem"]
  ]

  /** The group's reads in write_to_result_group, before its INSERT; the row
      carries the id of the test it belongs to. */
  function ReadGroup(group: Element, testId: nat): (r: Result<GroupRow, XmlError>)
    ensures r.Success? ==> r.value.testId == testId
  {
    match TextsAt(group, GroupTextPaths)
    case Failure(e) => Failure(e)
    case Success(t) => Success(GroupRowOf(t, testId))
  }

  /** The group row three texts and a test's id make. */
  function GroupRowOf(t: seq<Value>, testId: nat): (row: GroupRow)
    requires |t| == 3
    ensures [row.code, row.name, row.codingSystem] == t && row.testId == testId
  {
    GroupRow(t[0], t[1], t[2], testId)
  }

  /** The group row exists exactly when its three paths resolve, and then
      holds the texts at them; otherwise the read fails as the first path
      that does not resolve. */
  lemma {:induction false} ReadGroupFields(group: Element, testId: nat)
    ensures ReadGroup(group, testId).Success? <==>
      forall i :: 0 <= i < |GroupTextPaths| ==> TextAt(group, GroupTextPaths[i]).Success?
    ensures ReadGroup(group, testId).Success? ==>
      var row := ReadGroup(group, testId).value;
      && row.code == TextAt(group, GroupTextPaths[0]).value
      && row.name == TextAt(group, GroupTextPaths[1]).value
      && row.codingSystem == TextAt(group, GroupTextPaths[2]).value
    ensures forall k :: (0 <= k < |GroupTextPaths| && TextAt(group, GroupTextPaths[k]).Failure?
      && forall j :: 0 <= j < k ==> TextAt(group, GroupTextPaths[j]).Success?) ==>
      ReadGroup(group, testId) == Failure(TextAt(group, GroupTextPaths[k]).error)
  {
    TextsAtAll(group, GroupTextPaths);
  }

  /** A result's texts read in write_to_result's loop, in the order of the
      tuple. */
  const ResultTextPaths: seq<seq<string>> := [
    ["resultID", "resultTestCode"],
    ["resultID", "resultTestName"],
    ["resultID", "resultCodingSystem"],
    ["value", "testResult", "valueType"],
    ["value", "testResult", "observationValue"],
    ["value", "testResult", "observationName"],
    ["operatorName"],
    ["resultDateTime"]
  ]

  /** One pass of write_to_result's loop: the result's eight reads and the
      tuple they make with the group's id. */
  function ReadResult(result: Element, groupId: nat): (r: Result<ResultRow, XmlError>)
    ensures r.Success? ==> r.value.groupId == groupId
  {
    match TextsAt(result, ResultTextPaths)
    case Failure(e) => Failure(e)
    case Success(t) => Success(ResultRowOf(t, groupId))
  }

  /** The result row eight texts and a group's id make. */
  function ResultRowOf(t: seq<Value>, groupId: nat): (row: ResultRow)
    requires |t| == 8
    ensures row.Texts() == t && row.groupId == groupId
  {
    ResultRow(t[0], t[1], t[2], t[3], t[4], t[5], t[6], t[7], groupId)
  }

  /** The result tuple exists exactly when its eight paths resolve, and then
      its texts are those at the paths, in order; otherwise the read fails
      as the first path that does not resolve. */
  lemma {:induction false} ReadResultFields(result: Element, groupId: nat)
    ensures ReadResult(result, groupId).Success? <==>
      forall i :: 0 <= i < |ResultTextPaths| ==> TextAt(result, ResultTextPaths[i]).Success?
    ensures ReadResult(result, groupId).Success? ==>
      forall i :: 0 <= i < |ResultTextPaths| ==>
        ReadResult(result, groupId).value.Texts()[i] == TextAt(result, ResultTextPaths[i]).value
    ensures forall k :: (0 <= k < |ResultTextPaths| && TextAt(result, ResultTextPaths[k]).Failure?
      && forall j :: 0 <= j < k ==> TextAt(result, ResultTextPaths[j]).Success?) ==>
      ReadResult(result, groupId) == Failure(TextAt(result, ResultTextPaths[k]).error)
  {
    ReadResultTexts(result, groupId);
    TextsAtAll(result, ResultTextPaths);
  }

  lemma {:induction false} ReadResultTexts(result: Element, groupId: nat)
    ensures ReadResult(result, groupId).Success? <==> TextsAt(result, ResultTextPaths).Success?
    ensures ReadResult(result, groupId).Success? ==>
      ReadResult(result, groupId).value.Texts() == TextsAt(result, ResultTextPaths).value
    ensures ReadResult(result, groupId).Failure? ==>
      ReadResult(result, groupId).error == TextsAt(result, ResultTextPaths).error
  {
  }

  /** The datasets write_to_result builds before its one executemany: a row
      per result, or the failure of the first result that cannot be read. */
  function ResultRows(results: seq<Element>, groupId: nat): Result<seq<ResultRow>, XmlError>
  {
    MapAll(ReadResultFor(groupId), results)
  }

  /** ReadResult with the group's id bound. */
  function ReadResultFor(groupId: nat): Element -> Result<ResultRow, XmlError>
  {
    (result: Element) => ReadResult(result, groupId)
  }

  /** All or nothing: the rows exist exactly when every result can be read,
      and then there is one per result, in document order, each carrying the
      group's id; otherwise the failure is that of the first unreadable
      result. */
  lemma {:induction false} ResultRowsAllOrNothing(results: seq<Element>, groupId: nat)
    ensures ResultRows(results, groupId).Success? <==>
      forall i :: 0 <= i < |results| ==> ReadResult(results[i], groupId).Success?
    ensures ResultRows(results, groupId).Success? ==>
      var rows := ResultRows(results, groupId).value;
      && |rows| == |results|
      && (forall i :: 0 <= i < |results| ==> rows[i] == ReadResult(results[i], groupId).value)
      && forall i :: 0 <= i < |rows| ==> rows[i].groupId == groupId
    ensures forall k :: (0 <= k < |results| && ReadResult(results[k], groupId).Failure?
      && forall j :: 0 <= j < k ==> ReadResult(results[j], groupId).Success?) ==>
      ResultRows(results, groupId) == Failure(ReadResult(results[k], groupId).error)
  {
    var f := ReadResultFor(groupId);
    MapAllAll(f, results);
    forall k | 0 <= k < |results| && f(results[k]).Failure? && forall j :: 0 <= j < k ==> f(results[j]).Success?
      ensures MapAll(f, results) == Failure(f(results[k]).error)
    {
      MapAllFirstFailure(f, results, k);
    }
    if MapAll(f, results).Success? {
      forall i | 0 <= i < |results| ensures MapAll(f, results).value[i].groupId == groupId {
        assert MapAll(f, results).value[i] == ReadResult(results[i], groupId).value;
      }
    }
  }

  /** A stored row and the id its INSERT generated. */
  datatype Stored<T> = Stored(id: nat, row: T)

  /** Generated ids come from an auto-increment counter: they ascend in
      insertion order and stay below the next id to be handed out. */
  ghost predicate IdsBelow<T>(rows: seq<Stored<T>>, next: nat)
  {
    && (forall k :: 0 <= k < |rows| ==> rows[k].id < next)
    && (forall k, j :: 0 <= k < j < |rows| ==> rows[k].id < rows[j].id)
  }

  ghost predicate HasId<T>(rows: seq<Stored<T>>, id: nat)
  {
    exists k :: 0 <= k < |rows| && rows[k].id == id
  }

  /** Every group row points at a stored test and every result row at a
      stored group. */
  ghost predicate ReferentialRows(tests: seq<Stored<TestRow>>, groups: seq<Stored<GroupRow>>, results: seq<ResultRow>)
  {
    && (forall k :: 0 <= k < |groups| ==> HasId(tests, groups[k].row.testId))
    && (forall k :: 0 <= k < |results| ==> HasId(groups, results[k].groupId))
  }

  /** The three tables and their auto-increment counters. Result ids are
      generated too, but nothing reads them. */
  class Database {
    var tests: seq<Stored<TestRow>>
    var groups: seq<Stored<GroupRow>>
    var results: seq<ResultRow>
    var nextTestId: nat
    var nextGroupId: nat

    ghost predicate Valid()
      reads this
    {
      IdsBelow(tests, nextTestId) && IdsBelow(groups, nextGroupId)
    }

    ghost predicate Referential()
      reads this
    {
      ReferentialRows(tests, groups, results)
    }

    constructor ()
      ensures tests == [] && groups == [] && results == []
      ensures nextTestId == 1 && nextGroupId == 1
      ensures Valid() && Referential()
    {
      tests := [];
      groups := [];
      results := [];
      nextTestId := 1;
      nextGroupId := 1;
    }

    /** INSERT INTO filmArrayTest; the id is cursor.lastrowid. */
    method InsertTest(row: TestRow) returns (id: nat)
      modifies this
      requires Valid()
      ensures Valid()
      ensures id == old(nextTestId) && nextTestId == id + 1
      ensures !HasId(old(tests), id)
      ensures tests == old(tests) + [Stored(id, row)]
      ensures groups == old(groups) && results == old(results) && nextGroupId == old(nextGroupId)
    {
      id := nextTestId;
      tests := tests + [Stored(id, row)];
      nextTestId := nextTestId + 1;
    }

    /** INSERT INTO resultGroup; the id is cursor.lastrowid. */
    method InsertGroup(row: GroupRow) returns (id: nat)
      modifies this
      requires Valid()
      ensures Valid()
      ensures id == old(nextGroupId) && nextGroupId == id + 1
      ensures !HasId(old(groups), id)
      ensures groups == old(groups) + [Stored(id, row)]
      ensures tests == old(tests) && results == old(results) && nextTestId == old(nextTestId)
    {
      id := nextGroupId;
      groups := groups + [Stored(id, row)];
      nextGroupId := nextGroupId + 1;
    }

    /** executemany INSERT INTO result: the rows in order. */
    method InsertResults(rows: seq<ResultRow>)
      modifies this
      ensures results == old(results) + rows
      ensures tests == old(tests) && groups == old(groups)
      ensures nextTestId == old(nextTestId) && nextGroupId == old(nextGroupId)
    {
      results := results + rows;
    }
  }

  /** What writing some groups adds: the group rows, the result rows of each
      group (one list per group row, in the same order), and the failure that
      stopped the writing, if any. */
  datatype GroupWrite = GroupWrite(groups: seq<Stored<GroupRow>>, results: seq<seq<ResultRow>>, error: Option<XmlError>)

  /** write_to_result_group for one group whose row gets the id groupId: no
      row if its texts cannot be read; otherwise the row, committed before
      the results are read, and then all of its results or none. */
  function GroupStep(group: Element, testId: nat, groupId: nat): (w: GroupWrite)
    ensures |w.groups| == |w.results| <= 1
    ensures w.groups == [] <==> ReadGroup(group, testId).Failure?
    ensures w.groups != [] ==> w.groups[0] == Stored(groupId, ReadGroup(group, testId).value)
    ensures w.error.None? ==> |w.groups| == 1
  {
    match ReadGroup(group, testId)
    case Failure(e) => GroupWrite([], [], Some(e))
    case Success(row) =>
      match ResultRows(FindAll(group, "result"), groupId)
      case Failure(e) => GroupWrite([Stored(groupId, row)], [[]], Some(e))
      case Success(rows) => GroupWrite([Stored(groupId, row)], [rows], None)
  }

  /** A step writes at most one group row, and exactly one when it does not
      fail. */
  ghost predicate StepShape(step: (Element, nat) -> GroupWrite)
  {
    forall g, k :: |step(g, k).groups| == |step(g, k).results| <= 1
      && (step(g, k).error.None? ==> |step(g, k).groups| == 1)
  }

  /** Steps over the groups in order, the step for a group being told how
      many group rows precede it, until a step fails. */
  function WriteSteps(step: (Element, nat) -> GroupWrite, groups: seq<Element>): (w: GroupWrite)
    requires StepShape(step)
    ensures |w.results| == |w.groups| <= |groups|
    decreases |groups|
  {
    if groups == [] then GroupWrite([], [], None)
    else
      var previous := WriteSteps(step, groups[..|groups| - 1]);
      if previous.error.Some? then previous
      else
        var last := step(groups[|groups| - 1], |previous.groups|);
        GroupWrite(previous.groups + last.groups, previous.results + last.results, last.error)
  }

  /** No failure exactly when no step fails, and then one group per step. */
  lemma {:induction false} WriteStepsComplete(step: (Element, nat) -> GroupWrite, groups: seq<Element>)
    requires StepShape(step)
    ensures var w := WriteSteps(step, groups);
      w.error.None? <==> forall k :: 0 <= k < |groups| ==> step(groups[k], k).error.None?
    ensures var w := WriteSteps(step, groups);
      w.error.None? ==> |w.groups| == |groups|
    decreases |groups|
  {
    if groups != [] {
      var init := groups[..|groups| - 1];
      WriteStepsComplete(step, init);
      assert forall k :: 0 <= k < |init| ==> init[k] == groups[k];
    }
  }

  /** Row k and its results are what the step of group k wrote. */
  lemma {:induction false} WriteStepsRows(step: (Element, nat) -> GroupWrite, groups: seq<Element>)
    requires StepShape(step)
    ensures var w := WriteSteps(step, groups);
      forall k :: 0 <= k < |w.groups| ==>
        k < |groups|
        && step(groups[k], k).groups == [w.groups[k]]
        && step(groups[k], k).results == [w.results[k]]
    decreases |groups|
  {
    if groups != [] {
      var init := groups[..|groups| - 1];
      var previous := WriteSteps(step, init);
      WriteStepsRows(step, init);
      assert forall k :: 0 <= k < |init| ==> init[k] == groups[k];
      if previous.error.None? {
        WriteStepsComplete(step, init);
      }
    }
  }

  /** The same, for one written row. */
  lemma {:induction false} WriteStepsRowAt(step: (Element, nat) -> GroupWrite, groups: seq<Element>, k: nat)
    requires StepShape(step)
    requires k < |WriteSteps(step, groups).groups|
    ensures var w := WriteSteps(step, groups);
      && k < |groups|
      && step(groups[k], k).groups == [w.groups[k]]
      && step(groups[k], k).results == [w.results[k]]
  {
    WriteStepsRows(step, groups);
  }

  /** One more step after steps that all succeeded appends what it writes. */
  lemma {:induction false} WriteStepsSnoc(step: (Element, nat) -> GroupWrite, groups: seq<Element>, i: nat)
    requires StepShape(step)
    requires i < |groups| && WriteSteps(step, groups[..i]).error.None?
    ensures var previous := WriteSteps(step, groups[..i]);
      var last := step(groups[i], i);
      && |previous.groups| == i
      && WriteSteps(step, groups[..i + 1])
           == GroupWrite(previous.groups + last.groups, previous.results + last.results, last.error)
  {
    WriteStepsComplete(step, groups[..i]);
    assert groups[..i + 1][..i] == groups[..i];
  }

  /** Once a prefix has failed, the groups after it change nothing. */
  lemma {:induction false} WriteStepsStop(step: (Element, nat) -> GroupWrite, groups: seq<Element>, n: nat)
    requires StepShape(step)
    requires n <= |groups| && WriteSteps(step, groups[..n]).error.Some?
    ensures WriteSteps(step, groups) == WriteSteps(step, groups[..n])
    decreases |groups| - n
  {
    if n < |groups| {
      assert groups[..n + 1][..n] == groups[..n];
      WriteStepsStop(step, groups, n + 1);
    } else {
      assert groups[..n] == groups;
    }
  }

  /** The first failing step ends the writing with its failure: the groups
      before it are all written, it writes what it wrote, and no later
      group is touched. */
  lemma {:induction false} WriteStepsFirstFailure(step: (Element, nat) -> GroupWrite, groups: seq<Element>, n: nat)
    requires StepShape(step)
    requires n < |groups| && step(groups[n], n).error.Some?
    requires forall k :: 0 <= k < n ==> step(groups[k], k).error.None?
    ensures var w := WriteSteps(step, groups);
      w.error == step(groups[n], n).error
      && |w.groups| == n + |step(groups[n], n).groups|
  {
    var prefix := groups[..n];
    WriteStepsComplete(step, prefix);
    assert forall k :: 0 <= k < n ==> prefix[k] == groups[k];
    assert groups[..n + 1][..n] == prefix;
    WriteStepsStop(step, groups, n + 1);
  }

  /** write_to_result_group for the group at position k, with the test's id
      bound; its row gets the k-th id from firstGroupId on. */
  function StepAt(testId: nat, firstGroupId: nat): (Element, nat) -> GroupWrite
  {
    (g: Element, k: nat) => GroupStep(g, testId, firstGroupId + k)
  }

  lemma {:induction false} StepAtShape(testId: nat, firstGroupId: nat)
    ensures StepShape(StepAt(testId, firstGroupId))
  {
    var step := StepAt(testId, firstGroupId);
    forall g: Element, k: nat
      ensures |step(g, k).groups| == |step(g, k).results| <= 1
      ensures step(g, k).error.None? ==> |step(g, k).groups| == 1
    {
      StepAtPoint(g, k, testId, firstGroupId, firstGroupId + k);
    }
  }

  lemma {:induction false} StepAtApply(groups: seq<Element>, testId: nat, firstGroupId: nat)
    ensures forall k :: 0 <= k < |groups| ==>
      StepAt(testId, firstGroupId)(groups[k], k) == GroupStep(groups[k], testId, firstGroupId + k)
  {
    forall k | 0 <= k < |groups|
      ensures StepAt(testId, firstGroupId)(groups[k], k) == GroupStep(groups[k], testId, firstGroupId + k)
    {
      StepAtPoint(groups[k], k, testId, firstGroupId, firstGroupId + k);
    }
  }

  /** The handler's loop over the resultGroups: one step per group, each
      group's row taking the next id, until a step fails. */
  function WriteGroups(groups: seq<Element>, testId: nat, firstGroupId: nat): (w: GroupWrite)
    ensures |w.results| == |w.groups| <= |groups|
  {
    StepAtShape(testId, firstGroupId);
    WriteSteps(StepAt(testId, firstGroupId), groups)
  }

  /** One group: its row is written exactly when its own three texts can be
      read, and it then carries the test's id and the id it was given; the
      results follow all together, each carrying that id, or, when any one
      of them cannot be read, none at all while the group row stays. */
  lemma {:induction false} GroupStepShape(group: Element, testId: nat, groupId: nat)
    ensures var w := GroupStep(group, testId, groupId);
      w.groups != [] ==> w.groups[0].row.testId == testId && w.groups[0].id == groupId
    ensures var w := GroupStep(group, testId, groupId);
      var results := FindAll(group, "result");
      w.error.None? <==>
        ReadGroup(group, testId).Success?
        && forall i :: 0 <= i < |results| ==> ReadResult(results[i], groupId).Success?
    ensures var w := GroupStep(group, testId, groupId);
      var results := FindAll(group, "result");
      w.groups != [] ==>
        (w.error.None? ==> w.results[0] == ResultRows(results, groupId).value && |w.results[0]| == |results|)
        && (w.error.Some? ==> w.results[0] == [])
        && forall row :: row in w.results[0] ==> row.groupId == groupId
  {
    var w := GroupStep(group, testId, groupId);
    var results := FindAll(group, "result");
    ResultRowsAllOrNothing(results, groupId);
  }

  /** Group k's row has id firstGroupId + k, is the row of group k's own
      texts and carries the test's id; every result row written after it
      carries that same id, never another group's. */
  lemma {:induction false} WriteGroupsIds(groups: seq<Element>, testId: nat, firstGroupId: nat)
    ensures var w := WriteGroups(groups, testId, firstGroupId);
      forall k :: 0 <= k < |w.groups| ==>
        && k < |groups|
        && ReadGroup(groups[k], testId).Success?
        && w.groups[k] == Stored(firstGroupId + k, ReadGroup(groups[k], testId).value)
        && w.groups[k].row.testId == testId
        && forall row :: row in w.results[k] ==> row.groupId == firstGroupId + k
  {
    var w := WriteGroups(groups, testId, firstGroupId);
    forall k | 0 <= k < |w.groups|
      ensures k < |groups|
      ensures ReadGroup(groups[k], testId).Success?
      ensures w.groups[k] == Stored(firstGroupId + k, ReadGroup(groups[k], testId).value)
      ensures w.groups[k].row.testId == testId
      ensures forall row :: row in w.results[k] ==> row.groupId == firstGroupId + k
    {
      WriteGroupsIdAt(groups, testId, firstGroupId, k, firstGroupId + k);
    }
  }

  lemma {:induction false} WriteGroupsIdAt(groups: seq<Element>, testId: nat, firstGroupId: nat, k: nat, groupId: nat)
    requires k < |WriteGroups(groups, testId, firstGroupId).groups|
    requires groupId == firstGroupId + k
    ensures var w := WriteGroups(groups, testId, firstGroupId);
      && k < |groups|
      && ReadGroup(groups[k], testId).Success?
      && w.groups[k] == Stored(groupId, ReadGroup(groups[k], testId).value)
      && w.groups[k].row.testId == testId
      && forall row :: row in w.results[k] ==> row.groupId == groupId
  {
    var step := StepAt(testId, firstGroupId);
    StepAtShape(testId, firstGroupId);
    WriteStepsRowAt(step, groups, k);
    StepAtPoint(groups[k], k, testId, firstGroupId, groupId);
    GroupStepShape(groups[k], testId, groupId);
  }

  /** No failure exactly when every group's step succeeds; then there is a
      group row per resultGroup, in document order, and after each the rows
      of all of that group's results. */
  lemma {:induction false} WriteGroupsComplete(groups: seq<Element>, testId: nat, firstGroupId: nat)
    ensures var w := WriteGroups(groups, testId, firstGroupId);
      w.error.None? <==>
        forall k :: 0 <= k < |groups| ==> GroupStep(groups[k], testId, firstGroupId + k).error.None?
    ensures var w := WriteGroups(groups, testId, firstGroupId);
      w.error.None? ==>
        && |w.groups| == |groups|
        && forall k :: 0 <= k < |groups| ==>
             w.results[k] == ResultRows(FindAll(groups[k], "result"), firstGroupId + k).value
  {
    var step := StepAt(testId, firstGroupId);
    var w := WriteGroups(groups, testId, firstGroupId);
    StepAtShape(testId, firstGroupId);
    StepAtApply(groups, testId, firstGroupId);
    WriteStepsComplete(step, groups);
    WriteStepsRows(step, groups);
    if w.error.None? {
      forall k | 0 <= k < |groups|
        ensures w.results[k] == ResultRows(FindAll(groups[k], "result"), firstGroupId + k).value
      {
        GroupStepShape(groups[k], testId, firstGroupId + k);
      }
    }
  }

  /** The writing stops at the first group whose step fails, with that
      step's failure: a group whose own texts cannot be read adds no row;
      one whose results cannot all be read keeps its committed row, with no
      result rows; no later group is written. */
  lemma {:induction false} WriteGroupsFirstFailure(groups: seq<Element>, testId: nat, firstGroupId: nat, n: nat)
    requires n < |groups| && GroupStep(groups[n], testId, firstGroupId + n).error.Some?
    requires forall k :: 0 <= k < n ==> GroupStep(groups[k], testId, firstGroupId + k).error.None?
    ensures var w := WriteGroups(groups, testId, firstGroupId);
      && w.error == GroupStep(groups[n], testId, firstGroupId + n).error
      && (ReadGroup(groups[n], testId).Failure? ==> |w.groups| == n)
      && (ReadGroup(groups[n], testId).Success? ==> |w.groups| == n + 1 && w.results[n] == [])
  {
    var step := StepAt(testId, firstGroupId);
    StepAtShape(testId, firstGroupId);
    StepAtApply(groups, testId, firstGroupId);
    WriteStepsFirstFailure(step, groups, n);
    WriteStepsRows(step, groups);
    GroupStepShape(groups[n], testId, firstGroupId + n);
  }

  /** The loop of write_to_result: each result's eight texts become a tuple
      appended to the datasets; a result that cannot be read raises and ends
      the loop. */
  method ReadResults(results: seq<Element>, groupId: nat) returns (r: Result<seq<ResultRow>, XmlError>)
    ensures r == ResultRows(results, groupId)
  {
    r := Collect(ReadResultFor(groupId), results);
  }

  /** write_to_result: read every result into a tuple, then insert all of
      them with one executemany. A result that cannot be read raises before
      the executemany, so then no row is inserted at all. */
  method WriteResult(db: Database, results: seq<Element>, groupId: nat) returns (error: Option<XmlError>)
    modifies db
    ensures ResultRows(results, groupId).Failure? ==>
      error == Some(ResultRows(results, groupId).error) && db.results == old(db.results)
    ensures ResultRows(results, groupId).Success? ==>
      error == None && db.results == old(db.results) + ResultRows(results, groupId).value
    ensures db.tests == old(db.tests) && db.groups == old(db.groups)
    ensures db.nextTestId == old(db.nextTestId) && db.nextGroupId == old(db.nextGroupId)
  {
    var datasets := ReadResults(results, groupId);
    if datasets.Failure? {
      return Some(datasets.error);
    }
    db.InsertResults(datasets.value);
    error := None;
  }

  /** Rows added behind the stored ones keep every reference intact as long
      as each added row points at a row that is stored by then. */
  lemma {:induction false} ReferentialGrow(
    tests: seq<Stored<TestRow>>, groups: seq<Stored<GroupRow>>, results: seq<ResultRow>,
    tests': seq<Stored<TestRow>>, groups': seq<Stored<GroupRow>>, results': seq<ResultRow>)
    requires ReferentialRows(tests, groups, results)
    requires tests <= tests' && groups <= groups' && results <= results'
    requires forall k :: |groups| <= k < |groups'| ==> HasId(tests', groups'[k].row.testId)
    requires forall k :: |results| <= k < |results'| ==> HasId(groups', results'[k].groupId)
    ensures ReferentialRows(tests', groups', results')
  {
    forall k | 0 <= k < |groups'| ensures HasId(tests', groups'[k].row.testId) {
      if k < |groups| {
        assert groups'[k] == groups[k];
        var j :| 0 <= j < |tests| && tests[j].id == groups[k].row.testId;
        assert tests'[j] == tests[j];
      }
    }
    forall k | 0 <= k < |results'| ensures HasId(groups', results'[k].groupId) {
      if k < |results| {
        assert results'[k] == results[k];
        var j :| 0 <= j < |groups| && groups[j].id == results[k].groupId;
        assert groups'[j] == groups[j];
      }
    }
  }

  /** write_to_result_group: read the group's three texts, insert its row
      and commit, then write its results with the row's generated id. The
      new state is what GroupStep describes for the next group id; ids stay
      well formed, and the new rows point at the test and at the new group
      row. */
  method WriteResultGroup(db: Database, group: Element, testId: nat) returns (error: Option<XmlError>)
    requires db.Valid()
    modifies db
    ensures db.Valid()
    ensures var w := GroupStep(group, testId, old(db.nextGroupId));
      && db.groups == old(db.groups) + w.groups
      && db.results == old(db.results) + Flatten(w.results)
      && db.nextGroupId == old(db.nextGroupId) + |w.groups|
      && error == w.error
    ensures db.tests == old(db.tests) && db.nextTestId == old(db.nextTestId)
    ensures old(db.Referential()) && HasId(db.tests, testId) ==> db.Referential()
  {
    GroupStepCases(group, testId, db.nextGroupId);
    if db.Referential() && HasId(db.tests, testId) {
      GroupStepReferential(group, testId, db.nextGroupId, db.tests, db.groups, db.results);
    }
    var read := ReadGroup(group, testId);
    if read.Failure? {
      return Some(read.error);
    }
    var groupId := db.InsertGroup(read.value);
    var results := FindAll(group, "result");
    error := WriteResult(db, results, groupId);
  }

  /** GroupStep by cases, each with the new rows spelled out. */
  lemma {:induction false} GroupStepCases(group: Element, testId: nat, groupId: nat)
    ensures var w := GroupStep(group, testId, groupId);
      var read := ReadGroup(group, testId);
      var rows := ResultRows(FindAll(group, "result"), groupId);
      && (read.Failure? ==> w.groups == [] && Flatten(w.results) == [] && w.error == Some(read.error))
      && (read.Success? ==> w.groups == [Stored(groupId, read.value)])
      && (read.Success? && rows.Failure? ==> Flatten(w.results) == [] && w.error == Some(rows.error))
      && (read.Success? && rows.Success? ==> Flatten(w.results) == rows.value && w.error.None?)
  {
    var w := GroupStep(group, testId, groupId);
    if ReadGroup(group, testId).Failure? {
      assert w.results == [];
    } else {
      FlattenOne(w.results[0]);
      assert w.results == [w.results[0]];
    }
  }

  /** A group's new rows point at the test, which is stored, and at the
      group's own new row. */
  lemma {:induction false} GroupStepReferential(
    group: Element, testId: nat, groupId: nat,
    tests: seq<Stored<TestRow>>, groups: seq<Stored<GroupRow>>, results: seq<ResultRow>)
    requires ReferentialRows(tests, groups, results) && HasId(tests, testId)
    ensures var w := GroupStep(group, testId, groupId);
      ReferentialRows(tests, groups + w.groups, results + Flatten(w.results))
  {
    var w := GroupStep(group, testId, groupId);
    var groups' := groups + w.groups;
    var results' := results + Flatten(w.results);
    GroupStepShape(group, testId, groupId);
    GroupStepCases(group, testId, groupId);
    if w.groups != [] {
      assert groups'[|groups|] == w.groups[0];
      assert HasId(groups', groupId);
      forall k | |results| <= k < |results'| ensures HasId(groups', results'[k].groupId) {
        assert results'[k] in w.results[0];
      }
    }
    ReferentialGrow(tests, groups, results, tests, groups', results');
  }

  /** write_to_film_array_test: extract the test row and insert it; the id
      is the one generated for it. Nothing is inserted when an element is
      missing. */
  method WriteFilmArrayTest(db: Database, root: Element) returns (r: Result<nat, XmlError>)
    requires db.Valid()
    modifies db
    ensures db.Valid()
    ensures ExtractTest(root).Failure? ==>
      r == Failure(ExtractTest(root).error) && db.tests == old(db.tests) && db.nextTestId == old(db.nextTestId)
    ensures ExtractTest(root).Success? ==>
      && r == Success(old(db.nextTestId))
      && db.tests == old(db.tests) + [Stored(old(db.nextTestId), ExtractTest(root).value)]
      && db.nextTestId == old(db.nextTestId) + 1
    ensures db.groups == old(db.groups) && db.results == old(db.results) && db.nextGroupId == old(db.nextGroupId)
    ensures old(db.Referential()) ==> db.Referential()
  {
    var row := ExtractTest(root);
    if row.Failure? {
      return Failure(row.error);
    }
    var id := db.InsertTest(row.value);
    if old(db.Referential()) {
      ReferentialGrow(old(db.tests), old(db.groups), old(db.results), db.tests, db.groups, db.results);
    }
    r := Success(id);
  }

  /** A report whose test row can be extracted has the test element the
      handler looks up next, so that lookup never fails. */
  lemma {:induction false} ExtractTestFindsTest(root: Element)
    requires ExtractTest(root).Success?
    ensures FindPath(root, TestPrefix).Success?
  {
    ExtractChunks(root);
    TextsAtPrefixed(root, TestPrefix, TestTextPaths);
  }

  /** The result groups the handler walks: those of the report's test. */
  function ResultGroups(root: Element): seq<Element>
    requires ExtractTest(root).Success?
  {
    ExtractTestFindsTest(root);
    FindAll(FindPath(root, TestPrefix).value, "resultGroup")
  }

  /** What the handler writes once the report is parsed, given the next ids of the
      two tables: the test row and what writing its result groups adds, or
      the failure that left every table as it was. */
  function Ingestion(root: Element, testId: nat, firstGroupId: nat): (r: Result<(TestRow, GroupWrite), XmlError>)
    ensures ExtractTest(root).Failure? <==> r.Failure?
  {
    match ExtractTest(root)
    case Failure(e) => Failure(e)
    case Success(row) => Success((row, WriteGroups(ResultGroups(root), testId, firstGroupId)))
  }

  /** Writing one more group after groups that all succeeded appends what
      its step writes, and its row takes the next id. */
  lemma {:induction false} WriteGroupsSnoc(groups: seq<Element>, testId: nat, firstGroupId: nat, i: nat, groupId: nat)
    requires i < |groups| && WriteGroups(groups[..i], testId, firstGroupId).error.None?
    requires groupId == firstGroupId + i
    ensures var previous := WriteGroups(groups[..i], testId, firstGroupId);
      var last := GroupStep(groups[i], testId, groupId);
      && |previous.groups| == i
      && WriteGroups(groups[..i + 1], testId, firstGroupId)
           == GroupWrite(previous.groups + last.groups, previous.results + last.results, last.error)
  {
    var step := StepAt(testId, firstGroupId);
    StepAtShape(testId, firstGroupId);
    WriteStepsSnoc(step, groups, i);
    StepAtPoint(groups[i], i, testId, firstGroupId, groupId);
  }

  lemma {:induction false} StepAtPoint(g: Element, k: nat, testId: nat, firstGroupId: nat, groupId: nat)
    requires groupId == firstGroupId + k
    ensures StepAt(testId, firstGroupId)(g, k) == GroupStep(g, testId, groupId)
  {
  }

  /** After a failure the remaining groups are not written. */
  lemma {:induction false} WriteGroupsStop(groups: seq<Element>, testId: nat, firstGroupId: nat, n: nat)
    requires n <= |groups| && WriteGroups(groups[..n], testId, firstGroupId).error.Some?
    ensures WriteGroups(groups, testId, firstGroupId) == WriteGroups(groups[..n], testId, firstGroupId)
  {
    StepAtShape(testId, firstGroupId);
    WriteStepsStop(StepAt(testId, firstGroupId), groups, n);
  }

  lemma {:induction false} AppendAssociates<T>(a: seq<T>, b: seq<T>, c: seq<T>)
    ensures (a + b) + c == a + (b + c)
  {
  }

  /** The handler's loop over the test's result groups: write_to_result_group
      for each in turn, until one raises. The new state is what WriteGroups
      describes from the current next group id. */
  method WriteResultGroups(db: Database, resultGroups: seq<Element>, testId: nat) returns (error: Option<XmlError>)
    requires db.Valid() && HasId(db.tests, testId)
    modifies db
    ensures db.Valid()
    ensures old(db.Referential()) ==> db.Referential()
    ensures var w := WriteGroups(resultGroups, testId, old(db.nextGroupId));
      && db.groups == old(db.groups) + w.groups
      && db.results == old(db.results) + Flatten(w.results)
      && db.nextGroupId == old(db.nextGroupId) + |w.groups|
      && error == w.error
    ensures db.tests == old(db.tests) && db.nextTestId == old(db.nextTestId)
  {
    var firstGroupId := db.nextGroupId;
    ghost var done := WriteGroups(resultGroups[..0], testId, firstGroupId);
    assert resultGroups[..0] == [];
    for i := 0 to |resultGroups|
      invariant db.Valid()
      invariant db.tests == old(db.tests) && db.nextTestId == old(db.nextTestId)
      invariant old(db.Referential()) ==> db.Referential()
      invariant done == WriteGroups(resultGroups[..i], testId, firstGroupId)
      invariant done.error.None? && |done.groups| == i
      invariant db.groups == old(db.groups) + done.groups
      invariant db.results == old(db.results) + Flatten(done.results)
      invariant db.nextGroupId == firstGroupId + i
    {
      ghost var last := GroupStep(resultGroups[i], testId, db.nextGroupId);
      WriteGroupsSnoc(resultGroups, testId, firstGroupId, i, db.nextGroupId);
      ghost var next := GroupWrite(done.groups + last.groups, done.results + last.results, last.error);
      FlattenAppend(done.results, last.results);
      AppendAssociates(old(db.groups), done.groups, last.groups);
      AppendAssociates(old(db.results), Flatten(done.results), Flatten(last.results));
      error := WriteResultGroup(db, resultGroups[i], testId);
      done := next;
      if error.Some? {
        WriteGroupsStop(resultGroups, testId, firstGroupId, i + 1);
        return;
      }
    }
    assert resultGroups[..|resultGroups|] == resultGroups;
    error := None;
  }

  /** The handler once the report is parsed: write the test row, then each result
      group of the test in turn, stopping at the first exception. The new
      state is what Ingestion describes for the current next ids; ids stay
      well formed and no row ever points at a missing one. */
  method Ingest(db: Database, root: Element) returns (error: Option<XmlError>)
    requires db.Valid()
    modifies db
    ensures db.Valid()
    ensures old(db.Referential()) ==> db.Referential()
    ensures var r := Ingestion(root, old(db.nextTestId), old(db.nextGroupId));
      r.Failure? ==>
        && error == Some(r.error)
        && db.tests == old(db.tests) && db.groups == old(db.groups) && db.results == old(db.results)
        && db.nextTestId == old(db.nextTestId) && db.nextGroupId == old(db.nextGroupId)
    ensures var r := Ingestion(root, old(db.nextTestId), old(db.nextGroupId));
      r.Success? ==>
        var (row, w) := r.value;
        && error == w.error
        && db.tests == old(db.tests) + [Stored(old(db.nextTestId), row)]
        && db.groups == old(db.groups) + w.groups
        && db.results == old(db.results) + Flatten(w.results)
        && db.nextTestId == old(db.nextTestId) + 1
        && db.nextGroupId == old(db.nextGroupId) + |w.groups|
  {
    var written := WriteFilmArrayTest(db, root);
    if written.Failure? {
      return Some(written.error);
    }
    var testId := written.value;
    assert db.tests[|db.tests| - 1].id == testId;
    ExtractTestFindsTest(root);
    var test := FindPath(root, TestPrefix).value;
    error := WriteResultGroups(db, FindAll(test, "resultGroup"), testId);
  }
}
