/** A parsed XML document as ElementTree presents it: every element has a
    tag, an optional text and its children in document order. find(tag) is
    the first direct child with that tag, findall(tag) all of them in order,
    and dereferencing a lookup that found nothing fails. */
module XmlTree {
  import opened Wrappers

  datatype Element = Element(tag: string, text: Option<string>, children: seq<Element>)

  /** A lookup found nothing and its result was used: Python's
      AttributeError on None. The tag is the one that was not found. */
  datatype XmlError = MissingElement(tag: string)

  /** The index of the first element with the tag, if any. */
  function FirstIndex(elements: seq<Element>, tag: string): (r: Option<nat>)
    ensures r.Some? ==> r.value < |elements| && elements[r.value].tag == tag
    ensures r.Some? ==> forall j :: 0 <= j < r.value ==> elements[j].tag != tag
    ensures r.None? ==> forall j :: 0 <= j < |elements| ==> elements[j].tag != tag
    decreases |elements|
  {
    if elements == [] then None
    else if elements[0].tag == tag then Some(0)
    else match FirstIndex(elements[1..], tag)
      case None => None
      case Some(i) => Some(i + 1)
  }

  /** e.find(tag). */
  function Find(e: Element, tag: string): Option<Element>
  {
    match FirstIndex(e.children, tag)
    case None => None
    case Some(i) => Some(e.children[i])
  }

  /** The elements with the tag, in their order. */
  function Filter(elements: seq<Element>, tag: string): (r: seq<Element>)
    ensures |r| <= |elements|
    ensures forall k :: 0 <= k < |r| ==> r[k].tag == tag && r[k] in elements
    decreases |elements|
  {
    if elements == [] then []
    else if elements[0].tag == tag then [elements[0]] + Filter(elements[1..], tag)
    else Filter(elements[1..], tag)
  }

  /** e.findall(tag). */
  function FindAll(e: Element, tag: string): seq<Element>
  {
    Filter(e.children, tag)
  }

  /** Filtering keeps document order: the matches of a sequence are those of
      its first part followed by those of the rest. */
  lemma {:induction false} FilterAppend(a: seq<Element>, b: seq<Element>, tag: string)
    ensures Filter(a + b, tag) == Filter(a, tag) + Filter(b, tag)
    decreases |a|
  {
    if a != [] {
      assert (a + b)[1..] == a[1..] + b;
      FilterAppend(a[1..], b, tag);
    } else {
      assert a + b == b;
    }
  }

  /** Every element with the tag is kept. */
  lemma {:induction false} FilterComplete(elements: seq<Element>, tag: string, i: nat)
    requires i < |elements| && elements[i].tag == tag
    ensures elements[i] in Filter(elements, tag)
    decreases |elements|
  {
    if i > 0 {
      FilterComplete(elements[1..], tag, i - 1);
    }
  }

  /** find and findall agree: find finds nothing exactly when findall is
      empty, and otherwise returns the first element findall lists. */
  lemma {:induction false} FindIsFirstOfFindAll(e: Element, tag: string)
    ensures Find(e, tag).None? <==> FindAll(e, tag) == []
    ensures Find(e, tag).Some? ==> Find(e, tag).value == FindAll(e, tag)[0]
  {
    FirstOfFilter(e.children, tag);
  }

  lemma {:induction false} FirstOfFilter(elements: seq<Element>, tag: string)
    ensures FirstIndex(elements, tag).None? <==> Filter(elements, tag) == []
    ensures FirstIndex(elements, tag).Some? ==>
      elements[FirstIndex(elements, tag).value] == Filter(elements, tag)[0]
    decreases |elements|
  {
    if elements != [] && elements[0].tag != tag {
      FirstOfFilter(elements[1..], tag);
    }
  }

  /** A chain of finds, each on the result of the one before, such as
      e.find(a).find(b): it fails at the first tag that is not found. */
  function FindPath(e: Element, path: seq<string>): Result<Element, XmlError>
    decreases |path|
  {
    if path == [] then Success(e)
    else match Find(e, path[0])
      case None => Failure(MissingElement(path[0]))
      case Some(child) => FindPath(child, path[1..])
  }

  /** A chain of finds ending in .text. */
  function TextAt(e: Element, path: seq<string>): Result<Option<string>, XmlError>
  {
    var found :- FindPath(e, path);
    Success(found.text)
  }

  /** Chains compose: following p and then q from where p ends is following
      p + q. */
  lemma {:induction false} FindPathAppend(e: Element, p: seq<string>, q: seq<string>)
    ensures FindPath(e, p + q) ==
      match FindPath(e, p)
      case Failure(err) => Failure(err)
      case Success(mid) => FindPath(mid, q)
    decreases |p|
  {
    if p != [] {
      assert (p + q)[0] == p[0];
      assert (p + q)[1..] == p[1..] + q;
      match Find(e, p[0])
      case None =>
      case Some(child) => FindPathAppend(child, p[1..], q);
    } else {
      assert p + q == q;
    }
  }

  /** A chain succeeds exactly when every step finds a child, and then each
      element on the way has the tag its step asked for. */
  lemma {:induction false} FindPathTags(e: Element, path: seq<string>)
    requires FindPath(e, path).Success?
    requires path != []
    ensures FindPath(e, path).value.tag == path[|path| - 1]
    decreases |path|
  {
    var child := Find(e, path[0]).value;
    if |path| > 1 {
      FindPathTags(child, path[1..]);
    }
  }

  /** The texts at the paths, read in order, failing at the first path that
      does not resolve. */
  function TextsAt(e: Element, paths: seq<seq<string>>): (r: Result<seq<Option<string>>, XmlError>)
    ensures r.Success? ==> |r.value| == |paths|
    decreases |paths|
  {
    if paths == [] then Success([])
    else
      var first :- TextAt(e, paths[0]);
      var rest :- TextsAt(e, paths[1..]);
      Success([first] + rest)
  }

  /** Reading all paths succeeds exactly when each path resolves, and then
      gives the text at each path, in order; otherwise it fails as the first
      path that does not resolve fails. */
  lemma {:induction false} TextsAtAll(e: Element, paths: seq<seq<string>>)
    ensures TextsAt(e, paths).Success? <==> forall i :: 0 <= i < |paths| ==> TextAt(e, paths[i]).Success?
    ensures TextsAt(e, paths).Success? ==>
      |TextsAt(e, paths).value| == |paths|
      && forall i :: 0 <= i < |paths| ==> TextsAt(e, paths).value[i] == TextAt(e, paths[i]).value
    ensures forall k :: (0 <= k < |paths| && TextAt(e, paths[k]).Failure?
      && forall j :: 0 <= j < k ==> TextAt(e, paths[j]).Success?) ==>
      TextsAt(e, paths) == Failure(TextAt(e, paths[k]).error)
    decreases |paths|
  {
    if paths != [] {
      TextsAtAll(e, paths[1..]);
      assert forall i :: 1 <= i < |paths| ==> paths[1..][i - 1] == paths[i];
    }
  }

  /** Reading a + b is reading a, then b. */
  lemma {:induction false} TextsAtAppend(e: Element, a: seq<seq<string>>, b: seq<seq<string>>)
    ensures TextsAt(e, a + b) ==
      match TextsAt(e, a)
      case Failure(err) => Failure(err)
      case Success(x) =>
        match TextsAt(e, b)
        case Failure(err) => Failure(err)
        case Success(y) => Success(x + y)
    decreases |a|
  {
    if a == [] {
      assert a + b == b;
      match TextsAt(e, b)
      case Failure(_) =>
      case Success(y) => assert [] + y == y;
    } else {
      assert (a + b)[0] == a[0];
      assert (a + b)[1..] == a[1..] + b;
      TextsAtAppend(e, a[1..], b);
      match TextAt(e, a[0])
      case Failure(_) =>
      case Success(v) =>
        match TextsAt(e, a[1..])
        case Failure(_) =>
        case Success(x) =>
          match TextsAt(e, b)
          case Failure(_) =>
          case Success(y) =>
            assert [v] + (x + y) == ([v] + x) + y;
    }
  }

  /** Each path behind the same prefix. */
  function Prefixed(prefix: seq<string>, paths: seq<seq<string>>): (r: seq<seq<string>>)
    ensures |r| == |paths|
    ensures forall i :: 0 <= i < |paths| ==> r[i] == prefix + paths[i]
  {
    seq(|paths|, i requires 0 <= i < |paths| => prefix + paths[i])
  }

  /** Reading paths behind a common prefix is finding the prefix once and
      reading the paths from there; when the prefix does not resolve, the
      first read fails as the prefix does. */
  lemma {:induction false} TextsAtPrefixed(e: Element, prefix: seq<string>, paths: seq<seq<string>>)
    requires paths != []
    ensures TextsAt(e, Prefixed(prefix, paths)) ==
      match FindPath(e, prefix)
      case Failure(err) => Failure(err)
      case Success(mid) => TextsAt(mid, paths)
    decreases |paths|
  {
    var ps := Prefixed(prefix, paths);
    FindPathAppend(e, prefix, paths[0]);
    if |paths| > 1 {
      assert ps[1..] == Prefixed(prefix, paths[1..]);
      TextsAtPrefixed(e, prefix, paths[1..]);
    } else {
      assert ps[1..] == [];
    }
  }

  /** Reading a single path is reading its text. */
  lemma {:induction false} TextsAtOne(e: Element, path: seq<string>)
    ensures TextsAt(e, [path]) ==
      match TextAt(e, path)
      case Failure(err) => Failure(err)
      case Success(v) => Success([v])
  {
    assert [path][1..] == [];
    match TextAt(e, path)
    case Failure(_) =>
    case Success(v) => assert [v] + [] == [v];
  }

  lemma {:induction false} FindPathStep(e: Element, tag: string, rest: seq<string>)
    ensures FindPath(e, [tag] + rest) ==
      match Find(e, tag)
      case None => Failure(MissingElement(tag))
      case Some(child) => FindPath(child, rest)
  {
    assert ([tag] + rest)[1..] == rest;
  }
}
