/** Building a list by applying a step that may raise to each element in
    turn, where the list is used only when every step succeeded. Stated for
    any step, so that the facts about it never need to look inside one. */
module AllOrNothing {
  import opened Wrappers

  function MapAll<A, B, E>(f: A -> Result<B, E>, xs: seq<A>): Result<seq<B>, E>
    decreases |xs|
  {
    if xs == [] then Success([])
    else
      var previous :- MapAll(f, xs[..|xs| - 1]);
      var y :- f(xs[|xs| - 1]);
      Success(previous + [y])
  }

  /** The list exists exactly when every step succeeds, and then holds one
      result per element, in order. */
  lemma {:induction false} MapAllAll<A, B, E>(f: A -> Result<B, E>, xs: seq<A>)
    ensures MapAll(f, xs).Success? <==> forall i :: 0 <= i < |xs| ==> f(xs[i]).Success?
    ensures MapAll(f, xs).Success? ==>
      |MapAll(f, xs).value| == |xs|
      && forall i :: 0 <= i < |xs| ==> MapAll(f, xs).value[i] == f(xs[i]).value
    decreases |xs|
  {
    if xs != [] {
      var init := xs[..|xs| - 1];
      MapAllAll(f, init);
      assert forall i :: 0 <= i < |init| ==> init[i] == xs[i];
    }
  }

  /** Otherwise it fails as the first failing step does. */
  lemma {:induction false} MapAllFirstFailure<A, B, E>(f: A -> Result<B, E>, xs: seq<A>, k: nat)
    requires k < |xs| && f(xs[k]).Failure?
    requires forall j :: 0 <= j < k ==> f(xs[j]).Success?
    ensures MapAll(f, xs) == Failure(f(xs[k]).error)
    decreases |xs|
  {
    var init := xs[..|xs| - 1];
    assert forall i :: 0 <= i < |init| ==> init[i] == xs[i];
    if k < |init| {
      MapAllFirstFailure(f, init, k);
    } else {
      MapAllAll(f, init);
    }
  }

  /** Extending the input by one element extends the list by its result. */
  lemma {:induction false} MapAllSnoc<A, B, E>(f: A -> Result<B, E>, xs: seq<A>, x: A)
    ensures MapAll(f, xs + [x]) ==
      match MapAll(f, xs)
      case Failure(e) => Failure(e)
      case Success(ys) =>
        match f(x)
        case Failure(e) => Failure(e)
        case Success(y) => Success(ys + [y])
  {
    assert (xs + [x])[..|xs|] == xs;
  }

  /** Once a prefix has failed, the elements after it change nothing. */
  lemma {:induction false} MapAllStop<A, B, E>(f: A -> Result<B, E>, xs: seq<A>, k: nat)
    requires k <= |xs| && MapAll(f, xs[..k]).Failure?
    ensures MapAll(f, xs) == MapAll(f, xs[..k])
    decreases |xs| - k
  {
    if k < |xs| {
      assert xs[..k + 1][..k] == xs[..k];
      MapAllStop(f, xs, k + 1);
    } else {
      assert xs[..k] == xs;
    }
  }

  /** The loop that builds the list: each element's result is appended in
      turn, and the first step that raises ends the loop with its failure. */
  method Collect<A, B, E>(f: A -> Result<B, E>, xs: seq<A>) returns (r: Result<seq<B>, E>)
    ensures r == MapAll(f, xs)
  {
    var ys: seq<B> := [];
    for i := 0 to |xs|
      invariant MapAll(f, xs[..i]) == Success(ys)
    {
      MapAllSnoc(f, xs[..i], xs[i]);
      assert xs[..i + 1] == xs[..i] + [xs[i]];
      match f(xs[i])
      case Failure(e) =>
        MapAllStop(f, xs, i + 1);
        return Failure(e);
      case Success(y) =>
        ys := ys + [y];
    }
    assert xs[..|xs|] == xs;
    r := Success(ys);
  }
}
