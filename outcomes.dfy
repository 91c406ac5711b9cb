/** Optional values, the exceptions the name-resolution pipeline can raise,
    and the left-to-right "loop whose body may throw" over a list of words. */
module Outcomes {

  /** A reference that may be null. */
  datatype Option<+T> = None | Some(value: T)

  /** The exceptions that can escape a word or phrase resolution. */
  datatype Failure =
    | NoPlayerNearby           // NoPlayerNearbyException: "@p" with nobody around
    | NullReference            // a search predicate dereferenced a null player or a null PlayerName
    | Wrapped(inner: Failure)  // new Exception("Unable to autocorrect phrase: " + inner)

  /** A value, or the exception raised instead of producing it. */
  datatype Outcome<+T> = Ok(value: T) | Fail(error: Failure)

  /** Applies `f` to every element of `xs` from left to right and stops at the
      first failure, which it reports; this is what a `for` loop that overwrites
      `words[i]` with a call that may throw computes. */
  function Traverse<X, Y>(xs: seq<X>, f: X -> Outcome<Y>): (r: Outcome<seq<Y>>)
    ensures r.Ok? ==> |r.value| == |xs|
  {
    if |xs| == 0 then Ok([])
    else
      match Traverse(xs[..|xs| - 1], f)
      case Fail(e) => Fail(e)
      case Ok(done) =>
        match f(xs[|xs| - 1])
        case Fail(e) => Fail(e)
        case Ok(y) => Ok(done + [y])
  }

  /** Traverse succeeds exactly when every step succeeds, and then holds each
      step's result at that step's position. */
  lemma {:induction false} TraverseOk<X, Y>(xs: seq<X>, f: X -> Outcome<Y>)
    ensures Traverse(xs, f).Ok? <==> forall i :: 0 <= i < |xs| ==> f(xs[i]).Ok?
    ensures Traverse(xs, f).Ok? ==>
              forall i :: 0 <= i < |xs| ==> Traverse(xs, f).value[i] == f(xs[i]).value
  {
    if |xs| > 0 {
      var init := xs[..|xs| - 1];
      TraverseOk(init, f);
      assert forall i :: 0 <= i < |init| ==> init[i] == xs[i];
    }
  }

  /** One more successful step extends Traverse's result by that step's value. */
  lemma TraverseExtends<X, Y>(xs: seq<X>, f: X -> Outcome<Y>, i: nat, done: seq<Y>, y: Y)
    requires i < |xs| && Traverse(xs[..i], f) == Ok(done) && f(xs[i]) == Ok(y)
    ensures Traverse(xs[..i + 1], f) == Ok(done + [y])
  {
    assert xs[..i + 1][..i] == xs[..i];
  }

  /** Traverse reports the failure of the first step that fails. */
  lemma {:induction false} TraverseFailsAt<X, Y>(xs: seq<X>, f: X -> Outcome<Y>, k: nat)
    requires k < |xs| && f(xs[k]).Fail?
    requires forall j :: 0 <= j < k ==> f(xs[j]).Ok?
    ensures Traverse(xs, f) == Fail(f(xs[k]).error)
  {
    var init := xs[..|xs| - 1];
    assert forall i :: 0 <= i < |init| ==> init[i] == xs[i];
    if k < |xs| - 1 {
      TraverseFailsAt(init, f, k);
    } else {
      TraverseOk(init, f);
    }
  }

  /** When the steps before `i` all succeed and step `i` fails, Traverse
      reports step `i`'s failure. */
  lemma TraverseStopsAt<X, Y>(xs: seq<X>, f: X -> Outcome<Y>, i: nat, done: seq<Y>)
    requires i < |xs| && Traverse(xs[..i], f) == Ok(done) && f(xs[i]).Fail?
    ensures Traverse(xs, f) == Fail(f(xs[i]).error)
  {
    TraverseOk(xs[..i], f);
    forall j | 0 <= j < i ensures f(xs[j]).Ok? {
      assert xs[..i][j] == xs[j];
    }
    TraverseFailsAt(xs, f, i);
  }

  /** Every failure of Traverse is the failure of one of its steps. */
  lemma {:induction false} TraverseFailureFromStep<X, Y>(xs: seq<X>, f: X -> Outcome<Y>)
    requires Traverse(xs, f).Fail?
    ensures exists k :: 0 <= k < |xs| && f(xs[k]) == Fail(Traverse(xs, f).error)
  {
    var init := xs[..|xs| - 1];
    assert forall i :: 0 <= i < |init| ==> init[i] == xs[i];
    if Traverse(init, f).Fail? {
      TraverseFailureFromStep(init, f);
      var k :| 0 <= k < |init| && f(init[k]) == Fail(Traverse(init, f).error);
      assert f(xs[k]) == Fail(Traverse(xs, f).error);
    } else {
      assert f(xs[|xs| - 1]) == Fail(Traverse(xs, f).error);
    }
  }

  /** Traverse only looks at the steps' results on the elements of `xs`. */
  lemma {:induction false} TraverseCongruent<X, Y>(xs: seq<X>, f: X -> Outcome<Y>, g: X -> Outcome<Y>)
    requires forall i :: 0 <= i < |xs| ==> f(xs[i]) == g(xs[i])
    ensures Traverse(xs, f) == Traverse(xs, g)
  {
    if |xs| > 0 {
      var init := xs[..|xs| - 1];
      assert forall i :: 0 <= i < |init| ==> init[i] == xs[i];
      TraverseCongruent(init, f, g);
    }
  }
}
