/** Reading items one by one (a file's lines, an event's records) with a
    step that may raise: the results of the items before the first failing
    one, and that failure. Stated for any step, so that the facts about it
    never need to look inside one. */
module LinePrefix {
  import opened Wrappers

  /** The position of the first failing item and what it raised. */
  datatype Failed<E> = Failed(line: nat, reason: E)

  datatype Parsed<R, E> = Parsed(rows: seq<R>, failure: Option<Failed<E>>)

  function ParseAll<A, R, E>(parse: A -> Result<R, E>, lines: seq<A>): Parsed<R, E>
    decreases |lines|
  {
    if lines == [] then Parsed([], None)
    else
      var prev := ParseAll(parse, lines[..|lines| - 1]);
      if prev.failure.Some? then prev
      else match parse(lines[|lines| - 1])
        case Failure(e) => Parsed(prev.rows, Some(Failed(|lines| - 1, e)))
        case Success(row) => Parsed(prev.rows + [row], None)
  }

  /** One row per line, in file order, up to the first failing line, which
      yields none; without a failing line, a row for every line. */
  lemma {:induction false} ParseAllRows<A, R, E>(parse: A -> Result<R, E>, lines: seq<A>)
    ensures var p := ParseAll(parse, lines);
      p.failure.None? ==>
        |p.rows| == |lines| && forall i :: 0 <= i < |lines| ==> parse(lines[i]) == Success(p.rows[i])
    ensures var p := ParseAll(parse, lines);
      p.failure.Some? ==>
        var k := p.failure.value.line;
        && k < |lines| && |p.rows| == k
        && parse(lines[k]) == Failure(p.failure.value.reason)
        && forall i :: 0 <= i < k ==> parse(lines[i]) == Success(p.rows[i])
    decreases |lines|
  {
    if lines != [] {
      var init := lines[..|lines| - 1];
      ParseAllRows(parse, init);
      assert forall i :: 0 <= i < |init| ==> init[i] == lines[i];
    }
  }

  /** Once a prefix has failed, the lines after it change nothing. */
  lemma {:induction false} ParseAllStop<A, R, E>(parse: A -> Result<R, E>, lines: seq<A>, k: nat)
    requires k <= |lines|
    requires ParseAll(parse, lines[..k]).failure.Some?
    ensures ParseAll(parse, lines) == ParseAll(parse, lines[..k])
    decreases |lines| - k
  {
    if k < |lines| {
      assert lines[..k + 1][..k] == lines[..k];
      ParseAllStop(parse, lines, k + 1);
    } else {
      assert lines[..k] == lines;
    }
  }
}
